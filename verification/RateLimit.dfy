// common/revocation/internal_events.py, _rate_limit_check: the per-host sliding window in front of the
// revocation receiver. Each host has a bucket of admission times; a request is refused when the bucket,
// after its old entries are popped, already holds MAX_PER_WINDOW of them.

module RateLimit {
  import opened Common

  type Host = string

  const WINDOW: Time := 60.0
  const MAX_PER_WINDOW: nat := 100

  type Buckets = map<Host, seq<Time>>

  function BucketOf(buckets: Buckets, host: Host): seq<Time> {
    if host in buckets then buckets[host] else []
  }

  // The pop loop: drops from the old end only, and stops at the first entry inside the window.
  function Popped(bucket: seq<Time>, now: Time): seq<Time> {
    if bucket != [] && bucket[0] < now - WINDOW then Popped(bucket[1..], now) else bucket
  }

  predicate HasRoom(bucket: seq<Time>, now: Time) {
    |Popped(bucket, now)| < MAX_PER_WINDOW
  }

  function Next(bucket: seq<Time>, now: Time): seq<Time> {
    Popped(bucket, now) + (if HasRoom(bucket, now) then [now] else [])
  }

  // ---------------------------------------------------------------------------------------------
  // Histories
  // ---------------------------------------------------------------------------------------------

  datatype Request = Request(host: Host, at: Time)

  // The buckets after a history of requests.
  function After(hist: seq<Request>): Buckets {
    if hist == [] then map[]
    else
      var n := |hist| - 1;
      var buckets := After(hist[..n]);
      buckets[hist[n].host := Next(BucketOf(buckets, hist[n].host), hist[n].at)]
  }

  // Whether the last request of a history was admitted.
  predicate LastAdmitted(hist: seq<Request>)
    requires hist != []
  {
    var n := |hist| - 1;
    HasRoom(BucketOf(After(hist[..n]), hist[n].host), hist[n].at)
  }

  // The admission times of one host, in order: the log the window is meant to bound.
  function Admissions(hist: seq<Request>, host: Host): seq<Time> {
    if hist == [] then []
    else
      var n := |hist| - 1;
      Admissions(hist[..n], host)
      + (if hist[n].host == host && LastAdmitted(hist) then [hist[n].at] else [])
  }

  lemma AdmissionsOneMore(hist: seq<Request>, r: Request, host: Host)
    ensures Admissions(hist + [r], host)
         == Admissions(hist, host) + (if r.host == host && LastAdmitted(hist + [r]) then [r.at] else [])
  {
    assert (hist + [r])[..|hist|] == hist;
  }

  // How many of the times lie in the closed interval [lo, hi].
  function CountIn(times: seq<Time>, lo: Time, hi: Time): nat {
    if times == [] then 0
    else CountIn(times[..|times| - 1], lo, hi) + (if lo <= times[|times| - 1] <= hi then 1 else 0)
  }

  ghost predicate Nondecreasing(times: seq<Time>) {
    forall i, k :: 0 <= i < k < |times| ==> times[i] <= times[k]
  }

  ghost predicate ClockNeverSteppedBack(hist: seq<Request>) {
    forall i, k :: 0 <= i < k < |hist| ==> hist[i].at <= hist[k].at
  }

  ghost predicate NoneLater(hist: seq<Request>, now: Time) {
    forall i :: 0 <= i < |hist| ==> hist[i].at <= now
  }

  // ---------------------------------------------------------------------------------------------
  // Counting
  // ---------------------------------------------------------------------------------------------

  lemma CountSnoc(times: seq<Time>, t: Time, lo: Time, hi: Time)
    ensures CountIn(times + [t], lo, hi) == CountIn(times, lo, hi) + (if lo <= t <= hi then 1 else 0)
  {
    assert (times + [t])[..|times|] == times;
  }

  // Times that are all before lo up to position m and all inside from there on.
  lemma {:induction false} CountSuffix(times: seq<Time>, m: nat, lo: Time, hi: Time)
    requires m <= |times|
    requires forall i :: 0 <= i < m ==> times[i] < lo
    requires forall i :: m <= i < |times| ==> lo <= times[i] <= hi
    ensures CountIn(times, lo, hi) == |times| - m
  {
    if times != [] {
      var n := |times| - 1;
      CountSuffix(times[..n], if m <= n then m else n, lo, hi);
    }
  }

  lemma {:induction false} CountMonotone(times: seq<Time>, lo: Time, hi: Time, lo': Time, hi': Time)
    requires lo' <= lo && hi <= hi'
    ensures CountIn(times, lo, hi) <= CountIn(times, lo', hi')
  {
    if times != [] { CountMonotone(times[..|times| - 1], lo, hi, lo', hi'); }
  }

  // ---------------------------------------------------------------------------------------------
  // The bucket is the recent end of the admission log
  // ---------------------------------------------------------------------------------------------

  lemma {:induction false} PoppedSplits(bucket: seq<Time>, now: Time) returns (dropped: seq<Time>)
    ensures bucket == dropped + Popped(bucket, now)
    ensures forall i :: 0 <= i < |dropped| ==> dropped[i] < now - WINDOW
    ensures Popped(bucket, now) != [] ==> Popped(bucket, now)[0] >= now - WINDOW
  {
    if bucket != [] && bucket[0] < now - WINDOW {
      var rest := PoppedSplits(bucket[1..], now);
      dropped := [bucket[0]] + rest;
    } else {
      dropped := [];
    }
  }

  // log is the admission log of one host: what its bucket no longer holds is older than the window.
  ghost predicate BucketOfLog(log: seq<Time>, bucket: seq<Time>, now: Time) {
    exists k: nat :: HoldsFrom(log, k, bucket, now)
  }

  ghost predicate HoldsFrom(log: seq<Time>, k: nat, bucket: seq<Time>, now: Time) {
    k <= |log| && bucket == log[k..] && forall i :: 0 <= i < k ==> log[i] < now - WINDOW
  }

  lemma PoppedStillTracks(log: seq<Time>, bucket: seq<Time>, k: nat, now: Time) returns (m: nat)
    requires HoldsFrom(log, k, bucket, now)
    ensures HoldsFrom(log, m, Popped(bucket, now), now)
    ensures m < |log| ==> log[m] >= now - WINDOW
  {
    var gone := PoppedSplits(bucket, now);
    m := k + |gone|;
    assert Popped(bucket, now) == bucket[|gone|..] == log[m..];
    forall i | k <= i < m ensures log[i] < now - WINDOW {
      assert log[i] == bucket[i - k] == gone[i - k];
    }
    assert m < |log| ==> log[m] == Popped(bucket, now)[0];
  }

  lemma PoppedIsWindow(log: seq<Time>, bucket: seq<Time>, now: Time)
    requires Nondecreasing(log)
    requires forall i :: 0 <= i < |log| ==> log[i] <= now
    requires BucketOfLog(log, bucket, now)
    ensures BucketOfLog(log, Popped(bucket, now), now)
    ensures |Popped(bucket, now)| == CountIn(log, now - WINDOW, now)
  {
    var k: nat :| HoldsFrom(log, k, bucket, now);
    var m := PoppedStillTracks(log, bucket, k, now);
    forall i | m <= i < |log| ensures now - WINDOW <= log[i] <= now {
      assert log[m] <= log[i];
    }
    CountSuffix(log, m, now - WINDOW, now);
  }

  lemma BucketGrows(log: seq<Time>, bucket: seq<Time>, now: Time)
    requires BucketOfLog(log, bucket, now)
    ensures BucketOfLog(log + [now], bucket + [now], now)
  {
    var k: nat :| HoldsFrom(log, k, bucket, now);
    assert bucket + [now] == (log + [now])[k..];
    assert HoldsFrom(log + [now], k, bucket + [now], now);
  }

  lemma {:induction false} AdmissionsOrdered(hist: seq<Request>, host: Host, now: Time)
    requires ClockNeverSteppedBack(hist)
    requires NoneLater(hist, now)
    ensures Nondecreasing(Admissions(hist, host))
    ensures forall i :: 0 <= i < |Admissions(hist, host)| ==> Admissions(hist, host)[i] <= now
  {
    if hist != [] {
      var n := |hist| - 1;
      AdmissionsOrdered(hist[..n], host, hist[n].at);
    }
  }

  ghost predicate Tracks(hist: seq<Request>, host: Host, now: Time) {
    BucketOfLog(Admissions(hist, host), BucketOf(After(hist), host), now)
  }

  lemma TracksLater(hist: seq<Request>, host: Host, was: Time, now: Time)
    requires Tracks(hist, host, was) && was <= now
    ensures Tracks(hist, host, now)
  {
    var log, bucket := Admissions(hist, host), BucketOf(After(hist), host);
    var k: nat :| HoldsFrom(log, k, bucket, was);
    assert HoldsFrom(log, k, bucket, now);
  }

  // What one more request does to its host's bucket and log.
  lemma OneRequest(h0: seq<Request>, host: Host, at: Time)
    ensures var hist, popped := h0 + [Request(host, at)], Popped(BucketOf(After(h0), host), at);
            if LastAdmitted(hist) then
              BucketOf(After(hist), host) == popped + [at] && Admissions(hist, host) == Admissions(h0, host) + [at]
            else
              BucketOf(After(hist), host) == popped && Admissions(hist, host) == Admissions(h0, host)
  {
    var hist, popped := h0 + [Request(host, at)], Popped(BucketOf(After(h0), host), at);
    assert hist[..|h0|] == h0;
    assert popped + [] == popped && Admissions(h0, host) + [] == Admissions(h0, host);
  }

  lemma TracksNext(h0: seq<Request>, host: Host, at: Time)
    requires Tracks(h0, host, at)
    requires Nondecreasing(Admissions(h0, host))
    requires forall i :: 0 <= i < |Admissions(h0, host)| ==> Admissions(h0, host)[i] <= at
    ensures Tracks(h0 + [Request(host, at)], host, at)
  {
    var log, bucket := Admissions(h0, host), BucketOf(After(h0), host);
    PoppedIsWindow(log, bucket, at);
    BucketGrows(log, Popped(bucket, at), at);
    OneRequest(h0, host, at);
  }

  lemma TracksOther(hist: seq<Request>, host: Host, at: Time)
    requires hist != [] && hist[|hist| - 1].host != host
    requires Tracks(hist[..|hist| - 1], host, at)
    ensures Tracks(hist, host, at)
  {
    var h0 := hist[..|hist| - 1];
    assert Admissions(h0, host) + [] == Admissions(h0, host);
  }

  lemma {:induction false} BucketsTrackLogs(hist: seq<Request>, host: Host, now: Time)
    requires ClockNeverSteppedBack(hist)
    requires NoneLater(hist, now)
    ensures Tracks(hist, host, now)
  {
    if hist == [] {
      assert HoldsFrom([], 0, [], now);
    } else {
      var n := |hist| - 1;
      var h0, at := hist[..n], hist[n].at;
      BucketsTrackLogs(h0, host, at);
      if hist[n].host == host {
        AdmissionsOrdered(h0, host, at);
        TracksNext(h0, host, at);
        assert hist == h0 + [Request(host, at)];
      } else {
        TracksOther(hist, host, at);
      }
      TracksLater(hist, host, at, now);
    }
  }

  // ---------------------------------------------------------------------------------------------
  // Main results
  // ---------------------------------------------------------------------------------------------

  // A request is admitted if and only if fewer than 100 of its host's earlier admissions lie in the closed
  // window of 60 s that ends now.
  lemma ExactlyTheWindow(hist: seq<Request>, host: Host, now: Time)
    requires ClockNeverSteppedBack(hist) && NoneLater(hist, now)
    ensures LastAdmitted(hist + [Request(host, now)])
       <==> CountIn(Admissions(hist, host), now - 60.0, now) < 100
  {
    assert (hist + [Request(host, now)])[..|hist|] == hist;
    BucketsTrackLogs(hist, host, now);
    AdmissionsOrdered(hist, host, now);
    PoppedIsWindow(Admissions(hist, host), BucketOf(After(hist), host), now);
  }

  // An admission leaves room: before it, every closed window that contains it holds fewer than the limit.
  lemma AdmissionFits(hist: seq<Request>, host: Host, now: Time, start: Time)
    requires ClockNeverSteppedBack(hist) && NoneLater(hist, now)
    requires LastAdmitted(hist + [Request(host, now)])
    requires start <= now <= start + WINDOW
    ensures CountIn(Admissions(hist, host), start, start + WINDOW) < MAX_PER_WINDOW
  {
    var log := Admissions(hist, host);
    ExactlyTheWindow(hist, host, now);
    AdmissionsOrdered(hist, host, now);
    CountUpTo(log, start, start + WINDOW, now);
    CountMonotone(log, start, now, now - WINDOW, now);
  }

  lemma WindowAfterOneMore(hist: seq<Request>, r: Request, host: Host, start: Time)
    requires ClockNeverSteppedBack(hist) && NoneLater(hist, r.at)
    requires CountIn(Admissions(hist, host), start, start + WINDOW) <= MAX_PER_WINDOW
    ensures CountIn(Admissions(hist + [r], host), start, start + WINDOW) <= MAX_PER_WINDOW
  {
    var log := Admissions(hist, host);
    AdmissionsOneMore(hist, r, host);
    if r.host == host && LastAdmitted(hist + [r]) {
      CountSnoc(log, r.at, start, start + WINDOW);
      if start <= r.at <= start + WINDOW {
        assert r == Request(host, r.at);
        AdmissionFits(hist, host, r.at, start);
      }
    } else {
      assert log + [] == log;
    }
  }

  // No closed window of 60 s, wherever it starts, ever holds more than 100 admissions of one host.
  lemma {:induction false} NoWindowOverflows(hist: seq<Request>, host: Host, start: Time)
    requires ClockNeverSteppedBack(hist)
    ensures CountIn(Admissions(hist, host), start, start + 60.0) <= 100
  {
    if hist != [] {
      var h0, r := hist[..|hist| - 1], hist[|hist| - 1];
      assert hist == h0 + [r];
      assert ClockNeverSteppedBack(h0) && NoneLater(h0, r.at);
      NoWindowOverflows(h0, host, start);
      WindowAfterOneMore(h0, r, host, start);
    }
  }

  lemma {:induction false} CountUpTo(times: seq<Time>, lo: Time, hi: Time, last: Time)
    requires forall i :: 0 <= i < |times| ==> times[i] <= last
    requires last <= hi
    ensures CountIn(times, lo, hi) == CountIn(times, lo, last)
  {
    if times != [] { CountUpTo(times[..|times| - 1], lo, hi, last); }
  }

  // The requests of one host, in order.
  function OnlyFrom(hist: seq<Request>, host: Host): seq<Request> {
    if hist == [] then []
    else
      var n := |hist| - 1;
      OnlyFrom(hist[..n], host) + (if hist[n].host == host then [hist[n]] else [])
  }

  // Hosts never affect each other: a host's bucket and admission log are those of its own requests alone.
  lemma {:induction false} HostsAreIsolated(hist: seq<Request>, host: Host)
    ensures BucketOf(After(hist), host) == BucketOf(After(OnlyFrom(hist, host)), host)
    ensures Admissions(hist, host) == Admissions(OnlyFrom(hist, host), host)
  {
    if hist != [] {
      var n := |hist| - 1;
      var own := OnlyFrom(hist[..n], host);
      HostsAreIsolated(hist[..n], host);
      if hist[n].host == host {
        assert OnlyFrom(hist, host)[..|own|] == own;
      } else {
        assert own + [] == own;
        assert Admissions(hist[..n], host) + [] == Admissions(hist[..n], host);
      }
    }
  }

  // ---------------------------------------------------------------------------------------------
  // The class
  // ---------------------------------------------------------------------------------------------

  class RateLimiter {
    var buckets: Buckets
    ghost var history: seq<Request>

    // The buckets are those of the requests seen so far.
    ghost predicate Valid()
      reads this
    {
      buckets == After(history)
    }

    constructor ()
      ensures Valid() && history == []
    {
      buckets := map[];
      history := [];
    }

    // Whether a request would be admitted now.
    ghost predicate Admits(host: Host, now: Time)
      reads this
    {
      LastAdmitted(history + [Request(host, now)])
    }

    method Check(host: Host, now: Time) returns (admitted: bool)
      requires Valid()
      modifies this
      ensures Valid()
      ensures history == old(history) + [Request(host, now)]
      ensures admitted == old(Admits(host, now))
    {
      var bucket := if host in buckets then buckets[host] else [];
      ghost var before := bucket;
      while bucket != [] && bucket[0] < now - WINDOW
        invariant Popped(bucket, now) == Popped(before, now)
        decreases |bucket|
      {
        bucket := bucket[1..];
      }
      admitted := |bucket| < MAX_PER_WINDOW;
      if admitted {
        bucket := bucket + [now];
      }
      assert Next(before, now) == bucket by {
        assert Popped(before, now) + [] == Popped(before, now);
      }
      assert (history + [Request(host, now)])[..|history|] == history;
      buckets := buckets[host := bucket];
      history := history + [Request(host, now)];
    }
  }
}
