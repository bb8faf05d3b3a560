// common/auth/actor_token_provider.py, ActorTokenProvider: the single-flight cache of the agent's own
// token. ensure_valid_token is double-checked locking around an await; invalidate takes no lock.
//
// A caller's code between two awaits is one step. The lock may go to any waiter, which covers the
// first-come order asyncio gives.

module SingleFlight {
  import opened Common

  type Caller = nat

  // mintedAt is the clock when the mint finished; expiresAt is the cache's capped view of expiry.
  datatype ActorToken = ActorToken(mintedAt: Time, expiresAt: Time)

  const REFRESH_BUFFER: Time := 2.0
  const MAX_TTL: Time := 10.0

  predicate IsFresh(cached: Option<ActorToken>, now: Time) {
    cached.Some? && now < cached.value.expiresAt - REFRESH_BUFFER
  }

  // A mint finishing now with a token the identity server lets live until expiresAt.
  function Capped(now: Time, expiresAt: Time): ActorToken {
    ActorToken(now, if now + MAX_TTL < expiresAt then now + MAX_TTL else expiresAt)
  }

  // force marks a caller of force_refresh.
  datatype Pc = Waiting(force: bool) | Minting

  datatype State = State(clock: Time, cached: Option<ActorToken>, holder: Option<Caller>, pcs: map<Caller, Pc>)

  datatype Event =
    | Ensure(c: Caller)                        // ensure_valid_token up to the lock, or its fast path
    | Force(c: Caller)                         // force_refresh up to the lock
    | Acquire(c: Caller)                       // lock obtained: re-check, then return or start the mint
    | MintOk(c: Caller, expiresAt: Time)       // the mint returned; lock released
    | MintFail(c: Caller)                      // the mint raised, or its caller was cancelled; lock released
    | Abandon(c: Caller)                       // a caller cancelled while waiting
    | Invalidate

  datatype Timed = Timed(at: Time, event: Event)

  predicate Enabled(s: State, e: Timed) {
    && e.at >= s.clock
    && match e.event
       case Ensure(c) => c !in s.pcs
       case Force(c) => c !in s.pcs
       case Acquire(c) => c in s.pcs && s.pcs[c].Waiting? && s.holder == None
       case MintOk(c, _) => c in s.pcs && s.pcs[c].Minting?
       case MintFail(c) => c in s.pcs && s.pcs[c].Minting?
       case Abandon(c) => c in s.pcs && s.pcs[c].Waiting?
       case Invalidate => true
  }

  // Whether this step starts a mint.
  predicate StartsMint(s: State, e: Timed)
    requires Enabled(s, e)
  {
    e.event.Acquire? && (s.pcs[e.event.c].force || !IsFresh(s.cached, e.at))
  }

  // The cached token this step hands to its caller, if it is a cache hit (before or after the lock).
  function FromCache(s: State, e: Timed): Option<ActorToken>
    requires Enabled(s, e)
  {
    match e.event
    case Ensure(_) => if IsFresh(s.cached, e.at) then s.cached else None
    case Acquire(c) => if StartsMint(s, e) then None else s.cached
    case _ => None
  }

  function Next(s: State, e: Timed): State
    requires Enabled(s, e)
  {
    var t := s.(clock := e.at);
    match e.event
    case Ensure(c) => if IsFresh(s.cached, e.at) then t else t.(pcs := s.pcs[c := Waiting(false)])
    case Force(c) => t.(pcs := s.pcs[c := Waiting(true)])
    case Acquire(c) =>
      if StartsMint(s, e) then t.(holder := Some(c), pcs := s.pcs[c := Minting]) else t.(pcs := s.pcs - {c})
    case MintOk(c, expiresAt) => t.(cached := Some(Capped(e.at, expiresAt)), holder := None, pcs := s.pcs - {c})
    case MintFail(c) => t.(holder := None, pcs := s.pcs - {c})
    case Abandon(c) => t.(pcs := s.pcs - {c})
    case Invalidate => t.(cached := None)
  }

  const INITIAL: State := State(0.0, None, None, map[])

  ghost predicate IsRun(s: State, es: seq<Timed>)
    decreases |es|
  {
    es == [] || (Enabled(s, es[0]) && IsRun(Next(s, es[0]), es[1..]))
  }

  ghost function Exec(s: State, es: seq<Timed>): State
    requires IsRun(s, es)
    decreases |es|
  {
    if es == [] then s else Exec(Next(s, es[0]), es[1..])
  }

  // ---------------------------------------------------------------------------------------------
  // Mutual exclusion and the age of what is served
  // ---------------------------------------------------------------------------------------------

  ghost predicate Inv(s: State) {
    && (forall c :: c in s.pcs && s.pcs[c].Minting? <==> s.holder == Some(c))
    && (s.cached.Some? ==>
          s.cached.value.expiresAt <= s.cached.value.mintedAt + MAX_TTL && s.cached.value.mintedAt <= s.clock)
  }

  lemma InvStep(s: State, e: Timed)
    requires Inv(s) && Enabled(s, e)
    ensures Inv(Next(s, e))
  {
  }

  lemma {:induction false} RunKeepsInv(s: State, es: seq<Timed>)
    requires Inv(s) && IsRun(s, es)
    ensures Inv(Exec(s, es))
    decreases |es|
  {
    if es != [] {
      InvStep(s, es[0]);
      RunKeepsInv(Next(s, es[0]), es[1..]);
    }
  }

  // In every run of any number of callers at most one mint is in progress, and it is the lock holder's.
  lemma AtMostOneMint(es: seq<Timed>, a: Caller, b: Caller)
    requires IsRun(INITIAL, es)
    requires a in Exec(INITIAL, es).pcs && Exec(INITIAL, es).pcs[a].Minting?
    requires b in Exec(INITIAL, es).pcs && Exec(INITIAL, es).pcs[b].Minting?
    ensures a == b && Exec(INITIAL, es).holder == Some(a)
  {
    RunKeepsInv(INITIAL, es);
  }

  // What a step does for its caller: it starts a mint, or it hands over the cached token, or it leaves the
  // caller waiting. ensure_valid_token hands over the cached token, without the lock or behind it, exactly
  // if that is more than 2 s from its expiry; a mint starts behind the lock otherwise, and always for
  // force_refresh.
  lemma HandedOverIff(s: State, e: Timed)
    requires Enabled(s, e)
    ensures var usable := s.cached.Some? && e.at < s.cached.value.expiresAt - 2.0;
            && (e.event.Ensure? ==>
                  if usable then FromCache(s, e) == s.cached && Next(s, e).pcs == s.pcs
                  else FromCache(s, e) == None && Next(s, e).pcs == s.pcs[e.event.c := Waiting(false)])
            && (e.event.Force? ==> FromCache(s, e) == None && Next(s, e).pcs == s.pcs[e.event.c := Waiting(true)])
            && (e.event.Acquire? && usable && !s.pcs[e.event.c].force ==>
                  && FromCache(s, e) == s.cached && !StartsMint(s, e)
                  && Next(s, e).pcs == s.pcs - {e.event.c} && Next(s, e).holder == None)
            && (e.event.Acquire? && !(usable && !s.pcs[e.event.c].force) ==>
                  && FromCache(s, e) == None && StartsMint(s, e)
                  && Next(s, e).pcs == s.pcs[e.event.c := Minting] && Next(s, e).holder == Some(e.event.c))
            && (!e.event.Ensure? && !e.event.Force? && !e.event.Acquire? ==>
                  FromCache(s, e) == None && !StartsMint(s, e))
  {
  }

  // Step p is a mint that leaves t in the cache: minted then, to be used until 10 s later, or until the
  // expiry the identity server gave it if that is earlier.
  ghost predicate MintedAt(es: seq<Timed>, p: nat, t: ActorToken) {
    && p < |es| && es[p].event.MintOk?
    && t.mintedAt == es[p].at
    && t.expiresAt == if es[p].event.expiresAt <= es[p].at + 10.0 then es[p].event.expiresAt else es[p].at + 10.0
  }

  // From step i on, no mint succeeds and nobody invalidates the cache.
  ghost predicate UntouchedFrom(es: seq<Timed>, i: nat) {
    forall k :: i <= k < |es| ==> !es[k].event.MintOk? && !es[k].event.Invalidate?
  }

  ghost predicate LastMint(es: seq<Timed>, p: nat, t: ActorToken) {
    MintedAt(es, p, t) && UntouchedFrom(es, p + 1)
  }

  lemma OneStepEarlier(es: seq<Timed>, p: nat, t: ActorToken)
    requires es != []
    ensures LastMint(es, p + 1, t) <==> LastMint(es[1..], p, t)
    ensures UntouchedFrom(es, 1) <==> UntouchedFrom(es[1..], 0)
  {
    var rest := es[1..];
    assert forall i :: 0 <= i < |rest| ==> rest[i] == es[i + 1];
    assert forall i :: 0 < i < |es| ==> es[i] == rest[i - 1];
  }

  // In every run the cached token is that of the last mint that succeeded, unless it has been invalidated.
  lemma {:induction false} CachedIff(s: State, es: seq<Timed>, t: ActorToken)
    requires IsRun(s, es)
    ensures Exec(s, es).cached == Some(t)
       <==> (exists p: nat :: LastMint(es, p, t)) || (s.cached == Some(t) && UntouchedFrom(es, 0))
    decreases |es|
  {
    if es != [] {
      var n, rest := Next(s, es[0]), es[1..];
      CachedIff(n, rest, t);
      OneStepEarlier(es, 0, t);
      if p: nat :| LastMint(rest, p, t) {
        OneStepEarlier(es, p, t);
        assert LastMint(es, p + 1, t);
      }
      if p: nat :| LastMint(es, p, t) {
        if p > 0 { OneStepEarlier(es, p - 1, t); }
      }
      assert n.cached == Some(t) && UntouchedFrom(es, 1) ==> LastMint(es, 0, t) || s.cached == Some(t);
    }
  }

  // A token served from the cache was minted less than 8 s before, whatever lifetime it was issued with.
  lemma ServedTokensAreYoung(es: seq<Timed>, e: Timed)
    requires IsRun(INITIAL, es) && Enabled(Exec(INITIAL, es), e)
    requires FromCache(Exec(INITIAL, es), e).Some?
    ensures var t := FromCache(Exec(INITIAL, es), e).value;
            t.mintedAt <= e.at < t.mintedAt + 8.0
  {
    RunKeepsInv(INITIAL, es);
  }

  // ---------------------------------------------------------------------------------------------
  // Spacing and bursts
  // ---------------------------------------------------------------------------------------------

  // Steps of a stretch in which nobody invalidates the cache or gets a forced refresh.
  predicate Quiet(s: State, e: Timed)
    requires Enabled(s, e)
  {
    match e.event
    case Invalidate => false
    case Acquire(c) => !s.pcs[c].force
    case _ => true
  }

  ghost predicate QuietRun(s: State, es: seq<Timed>)
    requires IsRun(s, es)
    decreases |es|
  {
    es == [] || (Quiet(s, es[0]) && QuietRun(Next(s, es[0]), es[1..]))
  }

  // While nothing disturbs it, the cached token stays until a mint starts, and none does while it is fresh.
  ghost predicate UndisturbedUntilStale(s: State, t: ActorToken) {
    (s.cached == Some(t) && s.holder == None) || s.clock >= t.expiresAt - REFRESH_BUFFER
  }

  lemma {:induction false} StaysUndisturbed(s: State, es: seq<Timed>, t: ActorToken)
    requires Inv(s) && IsRun(s, es) && QuietRun(s, es)
    requires UndisturbedUntilStale(s, t)
    ensures UndisturbedUntilStale(Exec(s, es), t)
    decreases |es|
  {
    if es != [] {
      InvStep(s, es[0]);
      StaysUndisturbed(Next(s, es[0]), es[1..], t);
    }
  }

  // After a successful mint of a token that lives at least 10 s, and with no invalidate or forced refresh
  // since, no ensure_valid_token starts another mint for at least 8 s.
  lemma MintsAreSpaced(before: seq<Timed>, mint: Timed, quiet: seq<Timed>, e: Timed)
    requires IsRun(INITIAL, before) && Enabled(Exec(INITIAL, before), mint)
    requires mint.event.MintOk? && mint.event.expiresAt >= mint.at + MAX_TTL
    requires var s := Next(Exec(INITIAL, before), mint); IsRun(s, quiet) && QuietRun(s, quiet)
    requires var s := Exec(Next(Exec(INITIAL, before), mint), quiet);
             Enabled(s, e) && Quiet(s, e) && StartsMint(s, e)
    ensures e.at >= mint.at + 8.0
  {
    RunKeepsInv(INITIAL, before);
    var s := Next(Exec(INITIAL, before), mint);
    InvStep(Exec(INITIAL, before), mint);
    StaysUndisturbed(s, quiet, s.cached.value);
  }

  // How many mints a run starts.
  ghost function MintStarts(s: State, es: seq<Timed>): nat
    requires IsRun(s, es)
    decreases |es|
  {
    if es == [] then 0 else (if StartsMint(s, es[0]) then 1 else 0) + MintStarts(Next(s, es[0]), es[1..])
  }

  // Every mint of the stretch succeeds with a token still fresh at the end of it.
  ghost predicate MintsSucceedAndLast(es: seq<Timed>, end: Time) {
    forall i :: 0 <= i < |es| ==>
      && !es[i].event.MintFail?
      && (es[i].event.MintOk? ==> end < Capped(es[i].at, es[i].event.expiresAt).expiresAt - REFRESH_BUFFER)
  }

  ghost predicate NobodyGetsTheLock(es: seq<Timed>) {
    forall i :: 0 <= i < |es| ==> !es[i].event.Acquire?
  }

  // No usable token and no mint under way.
  predicate Dry(s: State) {
    s.holder == None && !IsFresh(s.cached, s.clock)
  }

  // A mint is under way, or a usable token lasts to the end.
  predicate Supplied(s: State, end: Time) {
    s.holder.Some? || IsFresh(s.cached, end)
  }

  lemma {:induction false} ClockEndsLater(s: State, es: seq<Timed>)
    requires IsRun(s, es)
    ensures Exec(s, es).clock >= s.clock
    decreases |es|
  {
    if es != [] { ClockEndsLater(Next(s, es[0]), es[1..]); }
  }

  lemma {:induction false} SuppliedMintsNoMore(s: State, es: seq<Timed>, end: Time)
    requires Inv(s) && IsRun(s, es) && QuietRun(s, es)
    requires end >= Exec(s, es).clock && MintsSucceedAndLast(es, end)
    requires Supplied(s, end)
    ensures MintStarts(s, es) == 0
    decreases |es|
  {
    if es != [] {
      var n := Next(s, es[0]);
      InvStep(s, es[0]);
      ClockEndsLater(n, es[1..]);
      assert MintsSucceedAndLast(es[1..], end);
      SuppliedMintsNoMore(n, es[1..], end);
    }
  }

  // A burst that finds no usable token causes exactly one mint if that mint succeeds and stays fresh until
  // the last caller is through: every later caller is served by it. Without anybody getting as far as the
  // lock there is none.
  lemma {:induction false} BurstMintsOnce(s: State, es: seq<Timed>)
    requires Inv(s) && IsRun(s, es) && QuietRun(s, es)
    requires Dry(s) && MintsSucceedAndLast(es, Exec(s, es).clock)
    ensures MintStarts(s, es) == if NobodyGetsTheLock(es) then 0 else 1
    decreases |es|
  {
    if es != [] {
      var n := Next(s, es[0]);
      InvStep(s, es[0]);
      assert MintsSucceedAndLast(es[1..], Exec(s, es).clock);
      if es[0].event.Acquire? {
        SuppliedMintsNoMore(n, es[1..], Exec(s, es).clock);
        assert !NobodyGetsTheLock(es);
      } else {
        assert Dry(n);
        BurstMintsOnce(n, es[1..]);
        assert NobodyGetsTheLock(es) <==> NobodyGetsTheLock(es[1..]) by {
          assert es == [es[0]] + es[1..];
        }
      }
    }
  }

  // A step hands its caller this token, unless the caller waits or mints, or it is a step of no caller's.
  ghost predicate ServesOnly(s: State, e: Timed, t: ActorToken)
    requires Enabled(s, e)
  {
    && (FromCache(s, e).Some? ==> FromCache(s, e) == Some(t))
    && (e.event.Acquire? ==> FromCache(s, e) == Some(t))
    && (e.event.Ensure? ==> FromCache(s, e) == Some(t) || e.event.c in Next(s, e).pcs)
  }

  ghost predicate AllServed(s: State, es: seq<Timed>, t: ActorToken)
    requires IsRun(s, es)
    decreases |es|
  {
    es == [] || (ServesOnly(s, es[0], t) && AllServed(Next(s, es[0]), es[1..], t))
  }

  lemma {:induction false} SuppliedServesAll(s: State, es: seq<Timed>, t: ActorToken)
    requires Inv(s) && IsRun(s, es) && QuietRun(s, es)
    requires s.cached == Some(t) && s.holder == None && Exec(s, es).clock < t.expiresAt - REFRESH_BUFFER
    ensures AllServed(s, es, t)
    decreases |es|
  {
    if es != [] {
      var n := Next(s, es[0]);
      InvStep(s, es[0]);
      ClockEndsLater(n, es[1..]);
      SuppliedServesAll(n, es[1..], t);
    }
  }

  // While a mint is under way nobody gets the lock, and nobody is handed anything if the cache is stale.
  lemma {:induction false} MintingServesNone(s: State, es: seq<Timed>, end: Time) returns (m: nat)
    requires Inv(s) && IsRun(s, es) && QuietRun(s, es)
    requires s.holder.Some? && !IsFresh(s.cached, s.clock)
    requires end == Exec(s, es).clock && MintsSucceedAndLast(es, end)
    ensures ServedByOneMint(s, es, m)
    decreases |es|
  {
    if es == [] {
      m := 0;
    } else {
      var n, rest := Next(s, es[0]), es[1..];
      InvStep(s, es[0]);
      ClockEndsLater(n, rest);
      assert MintsSucceedAndLast(rest, end);
      if es[0].event.MintOk? {
        SuppliedServesAll(n, rest, n.cached.value);
        m := 0;
      } else {
        var r := MintingServesNone(n, rest, end);
        m := r + 1;
      }
    }
  }

  // Until step m no caller is handed a token; step m, if the run gets that far, is the mint that succeeds,
  // and every caller behind it is handed the token of that mint.
  ghost predicate ServedByOneMint(s: State, es: seq<Timed>, m: nat)
    requires IsRun(s, es)
    decreases |es|
  {
    if es == [] then m == 0
    else if m == 0 then
      && es[0].event.MintOk?
      && var end := es[0].event.expiresAt;
         AllServed(Next(s, es[0]), es[1..],
                   ActorToken(es[0].at, if end <= es[0].at + 10.0 then end else es[0].at + 10.0))
    else FromCache(s, es[0]) == None && ServedByOneMint(Next(s, es[0]), es[1..], m - 1)
  }

  // In a burst that finds no usable token, every caller that is through is the one that minted, or was handed
  // the token of that mint.
  lemma {:induction false} BurstServesOneToken(s: State, es: seq<Timed>) returns (m: nat)
    requires Inv(s) && IsRun(s, es) && QuietRun(s, es)
    requires Dry(s) && MintsSucceedAndLast(es, Exec(s, es).clock)
    ensures ServedByOneMint(s, es, m)
    decreases |es|
  {
    if es == [] {
      m := 0;
    } else {
      var n, rest := Next(s, es[0]), es[1..];
      InvStep(s, es[0]);
      assert MintsSucceedAndLast(rest, Exec(s, es).clock);
      if es[0].event.Acquire? {
        var r := MintingServesNone(n, rest, Exec(s, es).clock);
        m := r + 1;
      } else {
        var r := BurstServesOneToken(n, rest);
        m := r + 1;
      }
    }
  }

  // ---------------------------------------------------------------------------------------------
  // The class
  // ---------------------------------------------------------------------------------------------

  class ActorTokenProvider {
    var cached: Option<ActorToken>
    var lockHolder: Option<Caller>

    // What the provider contributes to the state of the machine.
    ghost predicate Shows(s: State)
      reads this
    {
      s.cached == cached && s.holder == lockHolder
    }

    constructor ()
      ensures Shows(INITIAL)
    {
      cached := None;
      lockHolder := None;
    }

    // ensure_valid_token up to the lock.
    method TryFastPath(now: Time) returns (token: Option<ActorToken>)
      ensures token == if cached.Some? && now < cached.value.expiresAt - 2.0 then cached else None
    {
      token := None;
      if cached.Some? && now < cached.value.expiresAt - REFRESH_BUFFER {
        token := cached;
      }
    }

    // The body of ensure_valid_token (or force_refresh) from the lock to the mint: a waiter that finds
    // the token fresh by now returns it and releases, any other starts the mint.
    method AcquireLock(c: Caller, ghost s: State, now: Time, force: bool) returns (token: Option<ActorToken>)
      requires Shows(s) && Enabled(s, Timed(now, Acquire(c))) && s.pcs[c] == Waiting(force)
      modifies this
      ensures Shows(Next(s, Timed(now, Acquire(c))))
      ensures token == FromCache(s, Timed(now, Acquire(c)))
      ensures cached == old(cached)
      ensures token == if !force && cached.Some? && now < cached.value.expiresAt - 2.0 then cached else None
      ensures lockHolder == if token.Some? then None else Some(c)
    {
      lockHolder := Some(c);
      token := None;
      if !force {
        token := TryFastPath(now);
        if token.Some? {
          lockHolder := None;
        }
      }
    }

    // The mint returned a token, or raised.
    method FinishMint(c: Caller, ghost s: State, now: Time, minted: Option<Time>) returns (token: Option<ActorToken>)
      requires Shows(s)
      requires Enabled(s, Timed(now, if minted.Some? then MintOk(c, minted.value) else MintFail(c)))
      modifies this
      ensures Shows(Next(s, Timed(now, if minted.Some? then MintOk(c, minted.value) else MintFail(c))))
      ensures lockHolder == None && token == if minted.Some? then cached else None
      ensures cached == match minted
                        case None => old(cached)
                        case Some(expiresAt) =>
                          Some(ActorToken(now, if expiresAt <= now + 10.0 then expiresAt else now + 10.0))
    {
      token := None;
      if minted.Some? {
        var cap := now + MAX_TTL;
        cached := Some(ActorToken(now, if cap < minted.value then cap else minted.value));
        token := cached;
      }
      lockHolder := None;
    }

    method Invalidate()
      modifies this`cached
      ensures cached == None && lockHolder == old(lockHolder)
    {
      cached := None;
    }
  }
}
