// The revocation receiver under load: common/revocation/internal_events.py admits at most 100 events of one
// host in any 60 s, and common/revocation/jti_denylist.py forgets an entry for capacity only after as many
// newer ones as its cap. Together they bound from below how long a revocation stays recorded.

module EventTraffic {
  import opened Common
  import opened Denylist
  import Dispatcher
  import RL = RateLimit
  import RS = RevocationSystem

  // A request to POST /internal/events, or any other step of the agent. valid says whether the request
  // carries the shared secret and a known event type.
  datatype Step =
    | Post(at: Time, host: RL.Host, valid: bool, jti: Jti, exp: Time)
    | Other(e: RS.Timed)

  function At(s: Step): Time {
    match s
    case Post(at, _, _, _, _) => at
    case Other(e) => e.at
  }

  // The requests the rate limiter sees.
  function Requests(steps: seq<Step>): seq<RL.Request> {
    if steps == [] then []
    else
      var s := steps[|steps| - 1];
      Requests(steps[..|steps| - 1]) + (if s.Post? then [RL.Request(s.host, s.at)] else [])
  }

  // Whether the last step is an event that is acknowledged: admitted by the limiter, and valid.
  predicate EndsInAck(steps: seq<Step>) {
    steps != [] && steps[|steps| - 1].Post? && steps[|steps| - 1].valid && RL.LastAdmitted(Requests(steps))
  }

  // The steps of the agent: an acknowledged event is a revocation, any other request changes nothing.
  function AgentSteps(steps: seq<Step>): seq<RS.Timed> {
    if steps == [] then []
    else
      var s := steps[|steps| - 1];
      AgentSteps(steps[..|steps| - 1])
      + (match s
         case Post(at, _, _, jti, exp) => if EndsInAck(steps) then [RS.Timed(at, RS.Revoke(jti, exp))] else []
         case Other(e) => [e])
  }

  ghost predicate InOrder(steps: seq<Step>) {
    forall i, k :: 0 <= i < k < |steps| ==> At(steps[i]) <= At(steps[k])
  }

  ghost predicate NoneAfter(steps: seq<Step>, now: Time) {
    forall i :: 0 <= i < |steps| ==> At(steps[i]) <= now
  }

  // Only these hosts know the shared secret.
  ghost predicate OnlyFrom(steps: seq<Step>, hosts: set<RL.Host>) {
    forall i :: 0 <= i < |steps| && steps[i].Post? && steps[i].valid ==> steps[i].host in hosts
  }

  // In order of time, and with every revocation an event that came in through the receiver, from one of
  // these hosts.
  ghost predicate IsTraffic(steps: seq<Step>, hosts: set<RL.Host>) {
    && InOrder(steps) && OnlyFrom(steps, hosts)
    && forall i :: 0 <= i < |steps| && steps[i].Other? ==> !steps[i].e.event.Revoke?
  }

  // ---------------------------------------------------------------------------------------------
  // Which requests change anything
  // ---------------------------------------------------------------------------------------------

  // A request as it arrives.
  datatype Delivery = Delivery(at: Time, host: RL.Host, secret: Option<string>, kind: string, jti: Jti, exp: Time)

  // valid is whether it carries the shared secret and the one known event type.
  function StepFor(sharedSecret: string, d: Delivery): Step {
    Post(d.at, d.host, d.secret == Some(sharedSecret) && d.kind == "session-revoked", d.jti, d.exp)
  }

  lemma AgentStepsOneMore(before: seq<Step>, p: Step)
    requires p.Post?
    ensures AgentSteps(before + [p])
         == AgentSteps(before) + (if EndsInAck(before + [p]) then [RS.Timed(p.at, RS.Revoke(p.jti, p.exp))] else [])
  {
    assert (before + [p])[..|before|] == before;
  }

  lemma LastInOrder(before: seq<Step>, s: Step)
    requires InOrder(before + [s])
    ensures InOrder(before) && NoneAfter(before, At(s))
  {
    forall i | 0 <= i < |before| ensures At(before[i]) <= At(s) {
      assert At((before + [s])[i]) <= At((before + [s])[|before|]);
    }
    forall i, k | 0 <= i < k < |before| ensures At(before[i]) <= At(before[k]) {
      assert At((before + [s])[i]) <= At((before + [s])[k]);
    }
  }

  // Request r, after a history of requests that were not later, is admitted.
  ghost predicate Admitted(hist: seq<RL.Request>, r: RL.Request) {
    RL.CountIn(RL.Admissions(hist, r.host), r.at - 60.0, r.at) < 100
  }

  lemma AdmittedIff(hist: seq<RL.Request>, r: RL.Request, more: seq<RL.Request>)
    requires RL.ClockNeverSteppedBack(hist) && RL.NoneLater(hist, r.at) && more == hist + [r]
    ensures RL.LastAdmitted(more) <==> Admitted(hist, r)
  {
    RL.ExactlyTheWindow(hist, r.host, r.at);
  }

  lemma EndsInAckIff(before: seq<Step>, p: Step, steps: seq<Step>)
    requires InOrder(before) && NoneAfter(before, At(p)) && p.Post?
    requires steps != [] && steps[|steps| - 1] == p
    requires Requests(steps) == Requests(before) + [RL.Request(p.host, p.at)]
    ensures EndsInAck(steps) <==> p.valid && Admitted(Requests(before), RL.Request(p.host, p.at))
  {
    RequestsInOrder(before, p.at);
    AdmittedIff(Requests(before), RL.Request(p.host, p.at), Requests(steps));
  }

  lemma AckRevokes(s: RS.State, at: Time, j: Jti, exp: Time, cap: nat)
    requires RS.Inv(s) && at >= s.clock
    ensures var n := RS.Next(s, RS.Timed(at, RS.Revoke(j, exp)), cap);
            && n.deny != [] && n.deny[|n.deny| - 1] == Entry(j, exp)
            && (j != "" ==> !Dispatcher.Carries(n.caches, j)) && j !in n.caches.index
            && n.flows == s.flows
  {
    if j != "" { Dispatcher.RevokeIsExact(s.caches, j); }
  }

  // What a request makes of the agent: with an admitted and valid one its jti is recorded last, with its
  // expiry, and no longer cached or indexed; any other changes nothing.
  ghost predicate ChangesFor(before: RS.State, after: RS.State, counts: bool, j: Jti, exp: Time) {
    if counts then
      && after.deny != [] && after.deny[|after.deny| - 1] == Entry(j, exp)
      && (j != "" ==> !Dispatcher.Carries(after.caches, j)) && j !in after.caches.index
      && after.flows == before.flows
    else after == before
  }

  // es is a run of the agent that ends in state s.
  ghost predicate LeadsTo(es: seq<RS.Timed>, cap: nat, s: RS.State) {
    RS.IsRun(es, cap) && RS.After(es, cap) == s
  }

  lemma RevocationChanges(es: seq<RS.Timed>, s: RS.State, at: Time, j: Jti, exp: Time, cap: nat) returns (n: RS.State)
    requires LeadsTo(es, cap, s) && at >= s.clock
    ensures LeadsTo(es + [RS.Timed(at, RS.Revoke(j, exp))], cap, n)
    ensures ChangesFor(s, n, true, j, exp)
  {
    RS.OneMore(es, RS.Timed(at, RS.Revoke(j, exp)), cap);
    RS.ReachableInv(es, cap);
    AckRevokes(s, at, j, exp, cap);
    n := RS.Next(s, RS.Timed(at, RS.Revoke(j, exp)), cap);
  }

  lemma PostChanges(before: seq<Step>, p: Step, cap: nat, s: RS.State, counts: bool) returns (n: RS.State)
    requires p.Post? && (counts <==> EndsInAck(before + [p]))
    requires LeadsTo(AgentSteps(before), cap, s) && p.at >= s.clock
    ensures LeadsTo(AgentSteps(before + [p]), cap, n) && ChangesFor(s, n, counts, p.jti, p.exp)
  {
    AgentStepsOneMore(before, p);
    if counts {
      n := RevocationChanges(AgentSteps(before), s, p.at, p.jti, p.exp, cap);
    } else {
      assert AgentSteps(before) + [] == AgentSteps(before);
      n := s;
    }
  }

  // After any history of requests and steps, a request changes the denylist and the agent's caches exactly
  // if fewer than 100 requests of its host were admitted in the last 60 s, it carries the shared secret, and
  // its type is session-revoked.
  lemma EventCountsIff(sharedSecret: string, before: seq<Step>, d: Delivery, cap: nat, s: RS.State)
    returns (n: RS.State)
    requires InOrder(before + [StepFor(sharedSecret, d)])
    requires LeadsTo(AgentSteps(before), cap, s) && d.at >= s.clock
    ensures LeadsTo(AgentSteps(before + [StepFor(sharedSecret, d)]), cap, n)
    ensures ChangesFor(s, n,
              Admitted(Requests(before), RL.Request(d.host, d.at))
                && d.secret == Some(sharedSecret) && d.kind == "session-revoked",
              d.jti, d.exp)
  {
    var p := StepFor(sharedSecret, d);
    var counts := Admitted(Requests(before), RL.Request(d.host, d.at))
                  && d.secret == Some(sharedSecret) && d.kind == "session-revoked";
    LastInOrder(before, p);
    RequestsOneMore(before, p);
    EndsInAckIff(before, p, before + [p]);
    n := PostChanges(before, p, cap, s, counts);
  }

  // ---------------------------------------------------------------------------------------------
  // How many events are acknowledged in a span of time
  // ---------------------------------------------------------------------------------------------

  // The acknowledged events of these hosts between lo and hi.
  function Acks(steps: seq<Step>, hosts: set<RL.Host>, lo: Time, hi: Time): nat {
    if steps == [] then 0
    else
      var s := steps[|steps| - 1];
      Acks(steps[..|steps| - 1], hosts, lo, hi)
      + (if EndsInAck(steps) && s.host in hosts && lo <= s.at <= hi then 1 else 0)
  }

  lemma RequestsOneMore(before: seq<Step>, s: Step)
    ensures Requests(before + [s]) == Requests(before) + (if s.Post? then [RL.Request(s.host, s.at)] else [])
  {
    assert (before + [s])[..|before|] == before;
  }

  lemma AcksOneMore(before: seq<Step>, s: Step, hosts: set<RL.Host>, lo: Time, hi: Time)
    ensures Acks(before + [s], hosts, lo, hi)
         == Acks(before, hosts, lo, hi)
            + (if EndsInAck(before + [s]) && s.host in hosts && lo <= s.at <= hi then 1 else 0)
  {
    assert (before + [s])[..|before|] == before;
  }

  // What one more request adds to its host's log.
  lemma OneAdmission(hist: seq<RL.Request>, r: RL.Request, host: RL.Host, lo: Time, hi: Time)
    ensures RL.CountIn(RL.Admissions(hist + [r], host), lo, hi)
         == RL.CountIn(RL.Admissions(hist, host), lo, hi)
            + (if r.host == host && RL.LastAdmitted(hist + [r]) && lo <= r.at <= hi then 1 else 0)
  {
    RL.AdmissionsOneMore(hist, r, host);
    if r.host == host && RL.LastAdmitted(hist + [r]) {
      RL.CountSnoc(RL.Admissions(hist, host), r.at, lo, hi);
    } else {
      assert RL.Admissions(hist, host) + [] == RL.Admissions(hist, host);
    }
  }

  lemma {:induction false} AcksAreAdmissions(steps: seq<Step>, host: RL.Host, lo: Time, hi: Time)
    ensures Acks(steps, {host}, lo, hi) <= RL.CountIn(RL.Admissions(Requests(steps), host), lo, hi)
  {
    if steps != [] {
      var before, s := steps[..|steps| - 1], steps[|steps| - 1];
      AcksAreAdmissions(before, host, lo, hi);
      assert steps == before + [s];
      AcksOneMore(before, s, {host}, lo, hi);
      RequestsOneMore(before, s);
      if s.Post? {
        OneAdmission(Requests(before), RL.Request(s.host, s.at), host, lo, hi);
      } else {
        assert Requests(before) + [] == Requests(before);
      }
    }
  }

  lemma {:induction false} RequestsInOrder(steps: seq<Step>, now: Time)
    requires InOrder(steps) && NoneAfter(steps, now)
    ensures RL.ClockNeverSteppedBack(Requests(steps)) && RL.NoneLater(Requests(steps), now)
  {
    if steps != [] { RequestsInOrder(steps[..|steps| - 1], At(steps[|steps| - 1])); }
  }

  lemma {:induction false} MoreHosts(steps: seq<Step>, host: RL.Host, hosts: set<RL.Host>, lo: Time, hi: Time)
    ensures Acks(steps, hosts + {host}, lo, hi) <= Acks(steps, {host}, lo, hi) + Acks(steps, hosts, lo, hi)
  {
    if steps != [] { MoreHosts(steps[..|steps| - 1], host, hosts, lo, hi); }
  }

  lemma {:induction false} NoHosts(steps: seq<Step>, lo: Time, hi: Time)
    ensures Acks(steps, {}, lo, hi) == 0
  {
    if steps != [] { NoHosts(steps[..|steps| - 1], lo, hi); }
  }

  lemma {:induction false} AcksInWindow(steps: seq<Step>, hosts: set<RL.Host>, start: Time)
    requires InOrder(steps)
    ensures Acks(steps, hosts, start, start + RL.WINDOW) <= RL.MAX_PER_WINDOW * |hosts|
    decreases hosts
  {
    if hosts == {} {
      NoHosts(steps, start, start + RL.WINDOW);
    } else {
      var host :| host in hosts;
      var rest := hosts - {host};
      assert hosts == rest + {host};
      AcksInWindow(steps, rest, start);
      MoreHosts(steps, host, rest, start, start + RL.WINDOW);
      AcksAreAdmissions(steps, host, start, start + RL.WINDOW);
      if steps != [] {
        RequestsInOrder(steps, At(steps[|steps| - 1]));
      }
      RL.NoWindowOverflows(Requests(steps), host, start);
    }
  }

  lemma {:induction false} AcksSplit(steps: seq<Step>, hosts: set<RL.Host>, lo: Time, mid: Time, hi: Time)
    ensures Acks(steps, hosts, lo, hi) <= Acks(steps, hosts, lo, mid) + Acks(steps, hosts, mid, hi)
  {
    if steps != [] { AcksSplit(steps[..|steps| - 1], hosts, lo, mid, hi); }
  }

  lemma {:induction false} NoAcksInEmptySpan(steps: seq<Step>, hosts: set<RL.Host>, lo: Time, hi: Time)
    requires hi < lo
    ensures Acks(steps, hosts, lo, hi) == 0
  {
    if steps != [] { NoAcksInEmptySpan(steps[..|steps| - 1], hosts, lo, hi); }
  }

  // n windows, one after the other.
  function Windows(n: nat): Time {
    if n == 0 then 0.0 else Windows(n - 1) + RL.WINDOW
  }

  lemma {:induction false} WindowsAreMinutes(n: nat)
    ensures Windows(n) == 60.0 * n as real
  {
    if n > 0 { WindowsAreMinutes(n - 1); }
  }

  // n full loads of events.
  function Loads(n: nat, load: nat): nat {
    if n == 0 then 0 else Loads(n - 1, load) + load
  }

  lemma {:induction false} LoadsAreProduct(n: nat, load: nat)
    ensures Loads(n, load) == n * load
  {
    if n > 0 { LoadsAreProduct(n - 1, load); }
  }

  lemma FirstWindow(steps: seq<Step>, hosts: set<RL.Host>, lo: Time, hi: Time)
    requires InOrder(steps)
    ensures Acks(steps, hosts, lo, hi) <= RL.MAX_PER_WINDOW * |hosts| + Acks(steps, hosts, lo + RL.WINDOW, hi)
  {
    AcksSplit(steps, hosts, lo, lo + RL.WINDOW, hi);
    AcksInWindow(steps, hosts, lo);
  }

  lemma {:induction false} LoadsInSpan(steps: seq<Step>, hosts: set<RL.Host>, lo: Time, hi: Time, n: nat, load: nat)
    requires InOrder(steps) && hi < lo + Windows(n)
    requires load == RL.MAX_PER_WINDOW * |hosts|
    ensures Acks(steps, hosts, lo, hi) <= Loads(n, load)
    decreases n
  {
    if n == 0 {
      NoAcksInEmptySpan(steps, hosts, lo, hi);
    } else {
      FirstWindow(steps, hosts, lo, hi);
      LoadsInSpan(steps, hosts, lo + RL.WINDOW, hi, n - 1, load);
    }
  }

  // A span shorter than n windows is covered by n of them.
  lemma AcksInSpan(steps: seq<Step>, hosts: set<RL.Host>, lo: Time, hi: Time, n: nat)
    requires InOrder(steps) && hi < lo + Windows(n)
    ensures Acks(steps, hosts, lo, hi) <= n * (RL.MAX_PER_WINDOW * |hosts|)
  {
    LoadsInSpan(steps, hosts, lo, hi, n, RL.MAX_PER_WINDOW * |hosts|);
    LoadsAreProduct(n, RL.MAX_PER_WINDOW * |hosts|);
  }

  // ---------------------------------------------------------------------------------------------
  // What is recorded after an acknowledgement
  // ---------------------------------------------------------------------------------------------

  // Step p is an event for j that is acknowledged ...
  predicate AckedAt(steps: seq<Step>, p: nat, j: Jti) {
    p < |steps| && EndsInAck(steps[..p + 1]) && steps[p].jti == j
  }

  // ... and no later one is.
  ghost predicate LastAcked(steps: seq<Step>, p: nat, j: Jti) {
    AckedAt(steps, p, j) && forall i: nat :: p < i < |steps| ==> !AckedAt(steps, i, j)
  }

  lemma AckedEarlier(before: seq<Step>, s: Step, i: nat, j: Jti)
    requires i < |before|
    ensures AckedAt(before + [s], i, j) <==> AckedAt(before, i, j)
  {
    assert (before + [s])[..i + 1] == before[..i + 1];
  }

  lemma LastAckedBefore(before: seq<Step>, s: Step, p: nat, j: Jti)
    requires LastAcked(before + [s], p, j) && p < |before|
    ensures LastAcked(before, p, j) && !AckedAt(before + [s], |before|, j)
  {
    AckedEarlier(before, s, p, j);
    forall i: nat | p < i < |before| ensures !AckedAt(before, i, j) {
      AckedEarlier(before, s, i, j);
    }
  }

  // How the denylist's history stands to the acknowledgement in step p: that one is its last add of j, and
  // no more ids were added since than events acknowledged.
  ghost predicate RecordedSince(steps: seq<Step>, hosts: set<RL.Host>, h: seq<Op>, p: nat, j: Jti, now: Time)
  {
    && p < |steps| && steps[p].Post?
    && LastAdd(h, j) >= 0 && h[LastAdd(h, j)].exp == steps[p].exp
    && |AddedAfter(h, LastAdd(h, j))| < Acks(steps, hosts, steps[p].at, now)
  }

  lemma OtherOp(h: seq<Op>, op: Op, j: Jti)
    requires LastAdd(h, j) >= 0 && !(op.Add? && op.jti == j)
    ensures LastAdd(h + [op], j) == LastAdd(h, j)
    ensures |AddedAfter(h + [op], LastAdd(h, j))| <= |AddedAfter(h, LastAdd(h, j))| + (if op.Add? then 1 else 0)
  {
    LastAddSkips(h, op, j);
    AddedAfterStep(h, op, LastAdd(h, j));
  }

  lemma OwnAdd(h: seq<Op>, j: Jti, exp: Time)
    ensures LastAdd(h + [Op.Add(j, exp)], j) == |h|
    ensures AddedAfter(h + [Op.Add(j, exp)], |h|) == {}
  {
  }

  lemma RecordedNow(before: seq<Step>, s: Step, hosts: set<RL.Host>, h0: seq<Op>, now: Time)
    requires EndsInAck(before + [s]) && s.host in hosts && s.at <= now
    ensures RecordedSince(before + [s], hosts, h0 + [Op.Add(s.jti, s.exp)], |before|, s.jti, now)
  {
    OwnAdd(h0, s.jti, s.exp);
  }

  // What one step does to the denylist.
  function StepOps(steps: seq<Step>): seq<Op>
    requires steps != []
  {
    var s := steps[|steps| - 1];
    if EndsInAck(steps) then [Op.Add(s.jti, s.exp)] else if s.Other? then RS.DenyOps(s.e) else []
  }

  lemma HistoryOneMore(steps: seq<Step>)
    requires steps != []
    ensures RS.DenyHistory(AgentSteps(steps))
         == RS.DenyHistory(AgentSteps(steps[..|steps| - 1])) + StepOps(steps)
  {
    var before, s := AgentSteps(steps[..|steps| - 1]), steps[|steps| - 1];
    if EndsInAck(steps) {
      RS.HistoryOneMore(before, RS.Timed(s.at, RS.Revoke(s.jti, s.exp)));
    } else if s.Other? {
      RS.HistoryOneMore(before, s.e);
    } else {
      assert before + [] == before;
    }
  }

  lemma RecordedLater(before: seq<Step>, s: Step, hosts: set<RL.Host>, h0: seq<Op>, p: nat, j: Jti, now: Time)
    requires RecordedSince(before, hosts, h0, p, j, now)
    requires EndsInAck(before + [s]) ==> s.host in hosts && before[p].at <= s.at <= now && s.jti != j
    requires s.Other? ==> !s.e.event.Revoke?
    ensures RecordedSince(before + [s], hosts, h0 + StepOps(before + [s]), p, j, now)
  {
    var steps := before + [s];
    assert steps[..|before|] == before;
    if StepOps(steps) == [] {
      assert h0 + [] == h0;
    } else {
      OtherOp(h0, StepOps(steps)[0], j);
    }
  }

  lemma LastStepAcks(before: seq<Step>, s: Step, j: Jti)
    ensures AckedAt(before + [s], |before|, j) <==> EndsInAck(before + [s]) && s.jti == j
  {
    assert (before + [s])[..|before| + 1] == before + [s];
  }

  lemma RecordedStep(before: seq<Step>, s: Step, hosts: set<RL.Host>, h0: seq<Op>, p: nat, j: Jti, now: Time)
    requires IsTraffic(before + [s], hosts) && NoneAfter(before + [s], now) && LastAcked(before + [s], p, j)
    requires p < |before| ==> RecordedSince(before, hosts, h0, p, j, now)
    ensures RecordedSince(before + [s], hosts, h0 + StepOps(before + [s]), p, j, now)
  {
    var steps := before + [s];
    assert steps[|before|] == s;
    LastStepAcks(before, s, j);
    if p == |before| {
      RecordedNow(before, s, hosts, h0, now);
    } else {
      LastAckedBefore(before, s, p, j);
      assert At(steps[p]) <= At(steps[|before|]) <= now;
      RecordedLater(before, s, hosts, h0, p, j, now);
    }
  }

  lemma EarlierTraffic(before: seq<Step>, s: Step, hosts: set<RL.Host>, now: Time)
    requires IsTraffic(before + [s], hosts) && NoneAfter(before + [s], now)
    ensures IsTraffic(before, hosts) && NoneAfter(before, now)
  {
    assert forall i :: 0 <= i < |before| ==> (before + [s])[i] == before[i];
  }

  lemma {:induction false} LastAckRecorded(steps: seq<Step>, hosts: set<RL.Host>, p: nat, j: Jti, now: Time)
    requires IsTraffic(steps, hosts) && NoneAfter(steps, now) && LastAcked(steps, p, j)
    ensures RecordedSince(steps, hosts, RS.DenyHistory(AgentSteps(steps)), p, j, now)
  {
    var before, s := steps[..|steps| - 1], steps[|steps| - 1];
    assert before + [s] == steps;
    if p < |before| {
      EarlierTraffic(before, s, hosts, now);
      LastAckedBefore(before, s, p, j);
      LastAckRecorded(before, hosts, p, j, now);
    }
    RecordedStep(before, s, hosts, RS.DenyHistory(AgentSteps(before)), p, j, now);
    HistoryOneMore(steps);
  }

  // ---------------------------------------------------------------------------------------------
  // Main results
  // ---------------------------------------------------------------------------------------------

  // For as many windows after its last acknowledgement as full loads of events fit the cap, no jti is
  // crowded out of the denylist.
  lemma NotCrowdedOut(steps: seq<Step>, cap: nat, hosts: set<RL.Host>, n: nat, p: nat, j: Jti, now: Time)
    requires IsTraffic(steps, hosts) && LastAcked(steps, p, j)
    requires NoneAfter(steps, now)
    requires n * (RL.MAX_PER_WINDOW * |hosts|) <= cap
    requires now < At(steps[p]) + Windows(n)
    ensures var h := RS.DenyHistory(AgentSteps(steps));
            LastAdd(h, j) >= 0 && h[LastAdd(h, j)].exp == steps[p].exp && |AddedAfter(h, LastAdd(h, j))| < cap
  {
    LastAckRecorded(steps, hosts, p, j, now);
    AcksInSpan(steps, hosts, steps[p].at, now, n);
  }

  // So crowding is no escape for a token that reaches its buffer within that time: in every run, once its
  // jti was last acknowledged with an expiry that late, it is never served again.
  lemma RevokedStaysRevoked(steps: seq<Step>, cap: nat, hosts: set<RL.Host>, n: nat, p: nat,
                            key: Dispatcher.Key, now: Time)
    requires IsTraffic(steps, hosts) && RS.IsRun(AgentSteps(steps), cap) && cap >= 1
    requires now >= RS.After(AgentSteps(steps), cap).clock
    requires NoneAfter(steps, now)
    requires n * (RL.MAX_PER_WINDOW * |hosts|) <= cap
    requires RS.ServedIn(RS.After(AgentSteps(steps), cap), key, now).Some?
    ensures var t := RS.ServedIn(RS.After(AgentSteps(steps), cap), key, now).value.token;
            t.jti != "" && LastAcked(steps, p, t.jti) && steps[p].exp >= t.expiresAt - Dispatcher.EXPIRY_BUFFER ==>
              At(steps[p]) + Windows(n) < t.expiresAt - Dispatcher.EXPIRY_BUFFER
  {
    var es := AgentSteps(steps);
    RS.ReachableInv(es, cap);
    var t := RS.ServedIn(RS.After(es, cap), key, now).value.token;
    if t.jti != "" && LastAcked(steps, p, t.jti) && now < At(steps[p]) + Windows(n) {
      NotCrowdedOut(steps, cap, hosts, n, p, t.jti, now);
      RS.RevokedTokenNeverServed(es, cap, key, now);
    }
  }

  // As deployed, with a cap of 10,000 and one host that sends events: a token of up to 100 minutes that is
  // revoked, once received, with an expiry no earlier than its own minus the buffer is never served again.
  lemma DeployedRevocationHolds(steps: seq<Step>, host: RL.Host, p: nat, key: Dispatcher.Key, now: Time)
    requires IsTraffic(steps, {host}) && RS.IsRun(AgentSteps(steps), 10_000)
    requires now >= RS.After(AgentSteps(steps), 10_000).clock
    requires NoneAfter(steps, now)
    requires RS.ServedIn(RS.After(AgentSteps(steps), 10_000), key, now).Some?
    ensures var t := RS.ServedIn(RS.After(AgentSteps(steps), 10_000), key, now).value.token;
            t.jti != "" && LastAcked(steps, p, t.jti) && At(steps[p]) >= RS.Arrival(t) && t.expiresIn <= 6030 ==>
              steps[p].exp < t.expiresAt - Dispatcher.EXPIRY_BUFFER
  {
    WindowsAreMinutes(100);
    RevokedStaysRevoked(steps, 10_000, {host}, 100, p, key, now);
  }
}
