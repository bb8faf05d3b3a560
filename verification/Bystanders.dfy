// What the jti index of hr_agent/ciba/orchestrator.py remembers over a run of the agent, and so which
// cached tokens a revocation drops although they carry another jti.

module Bystanders {
  import opened Common
  import opened Denylist
  import CibaPoll
  import opened Dispatcher
  import opened RevocationSystem

  // Step p of the run caches a token with this jti under this key.
  ghost predicate StoresAt(es: seq<Timed>, cap: nat, p: nat, j: Jti, k: Key) {
    && p < |es| && es[p].event.Store?
    && IsRun(es[..p], cap) && Enabled(After(es[..p], cap), es[p])
    && var flow := After(es[..p], cap).flows[es[p].event.id];
       flow.key == k && flow.phase.token.jti == j
  }

  // Step p makes the index forget the jti: it is revoked, or a lookup finds its token denied.
  ghost predicate ForgetsAt(es: seq<Timed>, cap: nat, p: nat, j: Jti) {
    && p < |es|
    && IsRun(es[..p], cap)
    && match es[p].event
       case Revoke(revoked, _) => revoked == j
       case Lookup(key) =>
         var s := After(es[..p], cap);
         key in s.caches.tokens && s.caches.tokens[key].token.jti == j && IsDenied(s.deny, j)
       case _ => false
  }

  ghost predicate NeverForgotten(es: seq<Timed>, cap: nat, p: nat, j: Jti) {
    forall i: nat :: p < i < |es| ==> !ForgetsAt(es, cap, i, j)
  }

  // A token with this jti was cached under the key, and the jti not forgotten since.
  ghost predicate Remembered(es: seq<Timed>, cap: nat, j: Jti, k: Key) {
    exists p: nat :: StoresAt(es, cap, p, j, k) && NeverForgotten(es, cap, p, j)
  }

  // What happened in a run happened in every longer one.
  lemma LongerRun(es: seq<Timed>, e: Timed, cap: nat, p: nat, j: Jti, k: Key)
    requires p < |es|
    ensures StoresAt(es + [e], cap, p, j, k) <==> StoresAt(es, cap, p, j, k)
    ensures ForgetsAt(es + [e], cap, p, j) <==> ForgetsAt(es, cap, p, j)
  {
    assert (es + [e])[..p] == es[..p];
  }

  lemma NewStep(es: seq<Timed>, e: Timed, cap: nat)
    ensures (es + [e])[..|es|] == es && (es + [e])[|es|] == e
  {
  }

  // A jti is cached at most once: no flow can be about to store one that was stored before.
  lemma {:induction false} StoredBefore(es: seq<Timed>, cap: nat, p: nat, j: Jti, k: Key)
    requires IsRun(es, cap) && StoresAt(es, cap, p, j, k)
    ensures exists id :: id in After(es, cap).flows && After(es, cap).flows[id].phase.Stored?
                         && JtiOf(After(es, cap).flows[id].phase) == j
  {
    var before, e := es[..|es| - 1], es[|es| - 1];
    assert es == before + [e];
    if p < |before| {
      LongerRun(before, e, cap, p, j, k);
      StoredBefore(before, cap, p, j, k);
      var id :| id in After(before, cap).flows && After(before, cap).flows[id].phase.Stored?
                && JtiOf(After(before, cap).flows[id].phase) == j;
      assert After(es, cap).flows[id] == After(before, cap).flows[id];
    } else {
      assert es[..p] == before;
      assert After(es, cap).flows[e.event.id].phase.Stored?;
    }
  }

  lemma StoredOnce(es: seq<Timed>, e: Timed, cap: nat, p: nat, j: Jti, k: Key)
    requires IsRun(es, cap) && Enabled(After(es, cap), e) && e.event.Store?
    requires j != "" && StoresAt(es, cap, p, j, k)
    ensures After(es, cap).flows[e.event.id].phase.token.jti != j
  {
    StoredBefore(es, cap, p, j, k);
    ReachableInv(es, cap);
    var s := After(es, cap);
    var id :| id in s.flows && s.flows[id].phase.Stored? && JtiOf(s.flows[id].phase) == j;
    assert e.event.id != id;
    assert JtiOf(s.flows[e.event.id].phase) == s.flows[e.event.id].phase.token.jti;
  }

  // What is remembered after one more step was cached in it, or remembered before and not forgotten in it;
  // and the other way round.
  lemma RememberedBefore(es: seq<Timed>, e: Timed, cap: nat, j: Jti, k: Key)
    requires Remembered(es + [e], cap, j, k) && !StoresAt(es + [e], cap, |es|, j, k)
    ensures Remembered(es, cap, j, k) && !ForgetsAt(es + [e], cap, |es|, j)
  {
    var n := es + [e];
    var p: nat :| StoresAt(n, cap, p, j, k) && NeverForgotten(n, cap, p, j);
    LongerRun(es, e, cap, p, j, k);
    forall i: nat | p < i < |es| ensures !ForgetsAt(es, cap, i, j) {
      LongerRun(es, e, cap, i, j, k);
    }
    assert NeverForgotten(es, cap, p, j);
  }

  lemma RememberedAfter(es: seq<Timed>, e: Timed, cap: nat, j: Jti, k: Key)
    requires Remembered(es, cap, j, k) && !ForgetsAt(es + [e], cap, |es|, j)
    ensures Remembered(es + [e], cap, j, k)
  {
    var n := es + [e];
    var p: nat :| StoresAt(es, cap, p, j, k) && NeverForgotten(es, cap, p, j);
    LongerRun(es, e, cap, p, j, k);
    forall i: nat | p < i < |n| ensures !ForgetsAt(n, cap, i, j) {
      if i < |es| { LongerRun(es, e, cap, i, j, k); }
    }
    assert NeverForgotten(n, cap, p, j);
  }

  // How one step changes what is remembered.
  lemma RememberedStep(es: seq<Timed>, e: Timed, cap: nat, j: Jti, k: Key)
    ensures Remembered(es + [e], cap, j, k)
       <==> StoresAt(es + [e], cap, |es|, j, k)
            || (Remembered(es, cap, j, k) && !ForgetsAt(es + [e], cap, |es|, j))
  {
    if StoresAt(es + [e], cap, |es|, j, k) {
      assert NeverForgotten(es + [e], cap, |es|, j);
    } else if Remembered(es + [e], cap, j, k) {
      RememberedBefore(es, e, cap, j, k);
    } else if Remembered(es, cap, j, k) && !ForgetsAt(es + [e], cap, |es|, j) {
      RememberedAfter(es, e, cap, j, k);
    }
  }

  ghost predicate Indexes(c: Caches, j: Jti, k: Key) {
    j in c.index && c.index[j] == k
  }

  // How one step changes the index.
  lemma IndexStep(es: seq<Timed>, e: Timed, cap: nat, j: Jti, k: Key)
    requires IsRun(es, cap) && Enabled(After(es, cap), e) && j != ""
    ensures var c := After(es, cap).caches;
            var stores := e.event.Store? && After(es, cap).flows[e.event.id].phase.token.jti == j;
            Indexes(Next(After(es, cap), e, cap).caches, j, k)
            <==>
            StoresAt(es + [e], cap, |es|, j, k)
            || (Indexes(c, j, k) && !stores && !ForgetsAt(es + [e], cap, |es|, j))
  {
    NewStep(es, e, cap);
  }

  // The index sends j to k exactly when a token with jti j was cached under k and the jti has not been
  // revoked, nor its token found denied by a lookup, since.
  lemma {:induction false} IndexIffRemembered(es: seq<Timed>, cap: nat, j: Jti, k: Key)
    requires IsRun(es, cap) && j != ""
    ensures Indexes(After(es, cap).caches, j, k) <==> Remembered(es, cap, j, k)
  {
    if es != [] {
      var before, e := es[..|es| - 1], es[|es| - 1];
      assert es == before + [e];
      IndexIffRemembered(before, cap, j, k);
      IndexStep(before, e, cap, j, k);
      RememberedStep(before, e, cap, j, k);
      if Remembered(before, cap, j, k) && e.event.Store? {
        var p: nat :| StoresAt(before, cap, p, j, k) && NeverForgotten(before, cap, p, j);
        StoredOnce(before, e, cap, p, j, k);
      }
    }
  }

  // What is cached under a key is what was last cached under it.
  ghost predicate LastStoredAt(es: seq<Timed>, cap: nat, q: nat, j: Jti, k: Key) {
    && StoresAt(es, cap, q, j, k)
    && forall i: nat, other :: StoresAt(es, cap, i, other, k) ==> i <= q
  }

  lemma StaysLast(es: seq<Timed>, e: Timed, cap: nat, q: nat, j: Jti, k: Key)
    requires LastStoredAt(es, cap, q, j, k)
    requires forall other :: !StoresAt(es + [e], cap, |es|, other, k)
    ensures LastStoredAt(es + [e], cap, q, j, k)
  {
    forall i: nat, other | StoresAt(es + [e], cap, i, other, k) ensures i <= q {
      if i < |es| { LongerRun(es, e, cap, i, other, k); }
    }
    LongerRun(es, e, cap, q, j, k);
  }

  lemma {:induction false} CachedIsLastStored(es: seq<Timed>, cap: nat, k: Key)
    requires IsRun(es, cap) && k in After(es, cap).caches.tokens
    ensures exists q: nat :: LastStoredAt(es, cap, q, After(es, cap).caches.tokens[k].token.jti, k)
  {
    if es != [] {
      var before, e := es[..|es| - 1], es[|es| - 1];
      var j := After(es, cap).caches.tokens[k].token.jti;
      assert es == before + [e];
      NewStep(before, e, cap);
      if e.event.Store? && After(before, cap).flows[e.event.id].key == k {
        assert LastStoredAt(es, cap, |before|, j, k);
      } else {
        CachedIsLastStored(before, cap, k);
        var q: nat :| LastStoredAt(before, cap, q, j, k);
        StaysLast(before, e, cap, q, j, k);
      }
    }
  }

  // A token with jti j was cached under the key, then one with another jti over it, and j has not been
  // forgotten since it was cached.
  ghost predicate Overwritten(es: seq<Timed>, cap: nat, j: Jti, other: Jti, k: Key) {
    exists p: nat, q: nat :: p < q && StoresAt(es, cap, p, j, k) && StoresAt(es, cap, q, other, k)
                             && NeverForgotten(es, cap, p, j)
  }

  // In every run, revoking j drops a cached token with another jti exactly when that token overwrote one
  // with jti j, and since j was cached it has been neither revoked nor found denied.
  lemma RevocationDropsBystanderIff(es: seq<Timed>, cap: nat, at: Time, j: Jti, exp: Time, k: Key)
    requires IsRun(es, cap) && at >= After(es, cap).clock && j != ""
    requires k in After(es, cap).caches.tokens && After(es, cap).caches.tokens[k].token.jti != j
    ensures var next := es + [Timed(at, Revoke(j, exp))];
            var bystander := After(es, cap).caches.tokens[k].token.jti;
            IsRun(next, cap)
            && (k !in After(next, cap).caches.tokens <==> Overwritten(es, cap, j, bystander, k))
  {
    var c := After(es, cap).caches;
    OneMore(es, Timed(at, Revoke(j, exp)), cap);
    ReachableInv(es, cap);
    RevokeDropsBystanderIff(c, j, k);
    IndexIffRemembered(es, cap, j, k);
    if Remembered(es, cap, j, k) {
      var p: nat :| StoresAt(es, cap, p, j, k) && NeverForgotten(es, cap, p, j);
      CachedIsLastStored(es, cap, k);
      var q: nat :| LastStoredAt(es, cap, q, c.tokens[k].token.jti, k);
      assert p != q;
      assert Overwritten(es, cap, j, c.tokens[k].token.jti, k);
    }
  }

  // ---------------------------------------------------------------------------------------------
  // It happens
  // ---------------------------------------------------------------------------------------------

  function Flows(first: Phase, second: Phase): map<FlowId, Flow> {
    map["one" := Flow("user", "scope", Key("user", "scope"), first),
        "two" := Flow("user", "scope", Key("user", "scope"), second)]
  }

  // Two requests of one user for one scope are under way, as when the first is still pending.
  function BothStarted(): seq<Timed> {
    [Timed(0.0, Initiate("one", "user", "scope"))] + [Timed(0.0, Initiate("two", "user", "scope"))]
  }

  function BothReceived(first: CibaPoll.OAuthToken, second: CibaPoll.OAuthToken): seq<Timed> {
    BothStarted() + [Timed(Arrival(first), Receive("one", first))] + [Timed(Arrival(second), Receive("two", second))]
  }

  function BothStored(first: CibaPoll.OAuthToken, second: CibaPoll.OAuthToken): seq<Timed> {
    BothReceived(first, second) + [Timed(Arrival(second), Store("one"))] + [Timed(Arrival(second), Store("two"))]
  }

  ghost predicate ArriveInOrder(first: CibaPoll.OAuthToken, second: CibaPoll.OAuthToken) {
    0.0 <= Arrival(first) <= Arrival(second)
  }

  lemma BothStartedState(cap: nat)
    ensures IsRun(BothStarted(), cap)
    ensures After(BothStarted(), cap) == State(0.0, NOTHING_CACHED, [], Flows(Polling, Polling))
  {
    var e0, e1 := Timed(0.0, Initiate("one", "user", "scope")), Timed(0.0, Initiate("two", "user", "scope"));
    OneMore([], e0, cap);
    assert [] + [e0] == [e0];
    OneMore([e0], e1, cap);
  }

  lemma OneReceivedState(cap: nat, first: CibaPoll.OAuthToken)
    requires Arrival(first) >= 0.0
    ensures var one := BothStarted() + [Timed(Arrival(first), Receive("one", first))];
            IsRun(one, cap)
            && After(one, cap) == State(Arrival(first), NOTHING_CACHED, [], Flows(Calling(first), Polling))
  {
    BothStartedState(cap);
    OneMore(BothStarted(), Timed(Arrival(first), Receive("one", first)), cap);
  }

  lemma BothReceivedState(cap: nat, first: CibaPoll.OAuthToken, second: CibaPoll.OAuthToken)
    requires first.jti != second.jti && ArriveInOrder(first, second)
    ensures IsRun(BothReceived(first, second), cap)
    ensures After(BothReceived(first, second), cap)
         == State(Arrival(second), NOTHING_CACHED, [], Flows(Calling(first), Calling(second)))
  {
    OneReceivedState(cap, first);
    OneMore(BothStarted() + [Timed(Arrival(first), Receive("one", first))],
            Timed(Arrival(second), Receive("two", second)), cap);
  }

  lemma BothStoredState(cap: nat, first: CibaPoll.OAuthToken, second: CibaPoll.OAuthToken)
    requires first.jti != second.jti && ArriveInOrder(first, second)
    ensures IsRun(BothStored(first, second), cap)
    ensures After(BothStored(first, second), cap).clock == Arrival(second)
    ensures var k := Key("user", "scope");
            After(BothStored(first, second), cap).caches == AfterStore(AfterStore(NOTHING_CACHED, k, first), k, second)
  {
    BothReceivedState(cap, first, second);
    OneMore(BothReceived(first, second), Timed(Arrival(second), Store("one")), cap);
    var one := BothReceived(first, second) + [Timed(Arrival(second), Store("one"))];
    assert After(one, cap).flows["two"] == Flow("user", "scope", Key("user", "scope"), Calling(second));
    OneMore(one, Timed(Arrival(second), Store("two")), cap);
  }

  // In this run revoking the first token's jti drops the second token.
  lemma BystanderDropped(cap: nat, first: CibaPoll.OAuthToken, second: CibaPoll.OAuthToken, exp: Time)
    requires first.jti != "" && second.jti != "" && first.jti != second.jti && ArriveInOrder(first, second)
    ensures var run := BothStored(first, second);
            var next := run + [Timed(Arrival(second), Revoke(first.jti, exp))];
            && IsRun(next, cap)
            && Carries(After(run, cap).caches, second.jti)
            && !Carries(After(next, cap).caches, second.jti)
  {
    BothStoredState(cap, first, second);
    BystandersExist(Key("user", "scope"), first, second);
    OneMore(BothStored(first, second), Timed(Arrival(second), Revoke(first.jti, exp)), cap);
  }
}
