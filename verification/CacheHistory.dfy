// Which token a dispatch is served, told from the events of a run alone: hr_agent/ciba/orchestrator.py caches
// what a flow obtained, and drops it for a refusal, a revocation or a denied lookup.

module CacheHistory {
  import opened Common
  import opened Denylist
  import CibaPoll
  import opened Dispatcher
  import opened RevocationSystem
  import Bystanders

  // Step i starts flow id for the user and scope of k.
  ghost predicate StartedAt(es: seq<Timed>, i: nat, id: FlowId, k: Key) {
    i < |es| && es[i].event == Initiate(id, k.user, k.scope)
  }

  // Step r brings its token.
  ghost predicate ReceivedAt(es: seq<Timed>, r: nat, id: FlowId, t: CibaPoll.OAuthToken) {
    r < |es| && es[r].event == Receive(id, t)
  }

  // Before step p, flow id was started for k and received t.
  ghost predicate Obtained(es: seq<Timed>, p: nat, id: FlowId, t: CibaPoll.OAuthToken, k: Key) {
    exists i: nat, r: nat :: i < r < p && StartedAt(es, i, id, k) && ReceivedAt(es, r, id, t)
  }

  // Step p caches t under k: the MCP call of the flow that obtained it succeeds.
  ghost predicate StoresToken(es: seq<Timed>, p: nat, t: CibaPoll.OAuthToken, k: Key) {
    p < |es| && es[p].event.Store? && Obtained(es, p, es[p].event.id, t, k)
  }

  // The denylist before step p, as its history of adds and sweeps makes it, has this jti.
  ghost predicate ListedBefore(es: seq<Timed>, cap: nat, p: nat, j: Jti) {
    p <= |es| && j != "" && Has(Replay(DenyHistory(es[..p]), cap), j)
  }

  // Step p takes t away from under k: another token is cached there, the MCP server refuses a token served
  // for k, a lookup of k finds t's jti denied, or a jti is revoked that the index still sends to k.
  ghost predicate TakesAway(es: seq<Timed>, cap: nat, p: nat, t: CibaPoll.OAuthToken, k: Key) {
    p < |es|
    && match es[p].event
       case Store(_) => exists other :: StoresToken(es, p, other, k)
       case Refused(key) => key == k
       case Lookup(key) => key == k && ListedBefore(es, cap, p, t.jti)
       case Revoke(j, _) => j != "" && Bystanders.Remembered(es[..p], cap, j, k)
       case _ => false
  }

  ghost predicate NeverTakenAway(es: seq<Timed>, cap: nat, q: nat, t: CibaPoll.OAuthToken, k: Key) {
    forall p: nat :: q < p < |es| ==> !TakesAway(es, cap, p, t, k)
  }

  // t was cached under k and nothing has taken it away since.
  ghost predicate StillCached(es: seq<Timed>, cap: nat, t: CibaPoll.OAuthToken, k: Key) {
    exists q: nat :: StoresToken(es, q, t, k) && NeverTakenAway(es, cap, q, t, k)
  }

  // ---------------------------------------------------------------------------------------------
  // Flows and the events that made them
  // ---------------------------------------------------------------------------------------------

  ghost predicate HoldsToken(phase: Phase, t: CibaPoll.OAuthToken) {
    phase == Calling(t) || phase == Stored(t) || phase == Over(Some(t))
  }

  lemma {:induction false} FlowOfStart(es: seq<Timed>, cap: nat, i: nat, id: FlowId, k: Key)
    requires IsRun(es, cap) && StartedAt(es, i, id, k)
    ensures id in After(es, cap).flows && After(es, cap).flows[id].key == k
  {
    var before, e := es[..|es| - 1], es[|es| - 1];
    if i < |before| { FlowOfStart(before, cap, i, id, k); }
  }

  lemma {:induction false} FlowOfReceipt(es: seq<Timed>, cap: nat, r: nat, id: FlowId, t: CibaPoll.OAuthToken)
    requires IsRun(es, cap) && ReceivedAt(es, r, id, t)
    ensures id in After(es, cap).flows && HoldsToken(After(es, cap).flows[id].phase, t)
  {
    var before, e := es[..|es| - 1], es[|es| - 1];
    if r < |before| { FlowOfReceipt(before, cap, r, id, t); }
  }

  lemma {:induction false} StartOfFlow(es: seq<Timed>, cap: nat, id: FlowId) returns (i: nat)
    requires IsRun(es, cap) && id in After(es, cap).flows
    ensures StartedAt(es, i, id, After(es, cap).flows[id].key)
  {
    var before, e := es[..|es| - 1], es[|es| - 1];
    if id in After(before, cap).flows {
      i := StartOfFlow(before, cap, id);
    } else {
      i := |before|;
    }
  }

  // A flow that holds t held it before or receives it now.
  lemma HeldBefore(s: State, e: Timed, cap: nat, id: FlowId, t: CibaPoll.OAuthToken)
    requires Enabled(s, e) && id in Next(s, e, cap).flows && HoldsToken(Next(s, e, cap).flows[id].phase, t)
    ensures id in s.flows && Next(s, e, cap).flows[id].key == s.flows[id].key
    ensures HoldsToken(s.flows[id].phase, t) || e.event == Receive(id, t)
  {
  }

  // The token of a flow was received in some step, after the one that started the flow.
  lemma {:induction false} ReceiptOfFlow(es: seq<Timed>, cap: nat, id: FlowId, t: CibaPoll.OAuthToken)
    returns (i: nat, r: nat)
    requires IsRun(es, cap) && id in After(es, cap).flows && HoldsToken(After(es, cap).flows[id].phase, t)
    ensures i < r && StartedAt(es, i, id, After(es, cap).flows[id].key) && ReceivedAt(es, r, id, t)
  {
    var before, e := es[..|es| - 1], es[|es| - 1];
    HeldBefore(After(before, cap), e, cap, id, t);
    if HoldsToken(After(before, cap).flows[id].phase, t) {
      i, r := ReceiptOfFlow(before, cap, id, t);
    } else {
      i := StartOfFlow(before, cap, id);
      r := |before|;
    }
  }

  // What the next step stores, told from the events, is the token and key of its flow.
  lemma NextStores(es: seq<Timed>, e: Timed, cap: nat, t: CibaPoll.OAuthToken, k: Key)
    requires IsRun(es, cap) && Enabled(After(es, cap), e)
    ensures StoresToken(es + [e], |es|, t, k)
       <==> e.event.Store? && After(es, cap).flows[e.event.id].key == k
            && After(es, cap).flows[e.event.id].phase == Calling(t)
  {
    var n := es + [e];
    assert n[|es|] == e;
    if e.event.Store? {
      var id, flow := e.event.id, After(es, cap).flows[e.event.id];
      if StoresToken(n, |es|, t, k) {
        var i: nat, r: nat :| i < r < |es| && StartedAt(n, i, id, k) && ReceivedAt(n, r, id, t);
        FlowOfStart(es, cap, i, id, k);
        FlowOfReceipt(es, cap, r, id, t);
      }
      if flow.key == k && flow.phase == Calling(t) {
        var i, r := ReceiptOfFlow(es, cap, id, t);
        assert StartedAt(n, i, id, k) && ReceivedAt(n, r, id, t);
      }
    }
  }

  // ---------------------------------------------------------------------------------------------
  // The cache and the events that made it
  // ---------------------------------------------------------------------------------------------

  // What happened in a run happened in every longer one.
  lemma SameBefore(es: seq<Timed>, e: Timed, cap: nat, p: nat, t: CibaPoll.OAuthToken, k: Key)
    requires p < |es|
    ensures StoresToken(es + [e], p, t, k) <==> StoresToken(es, p, t, k)
  {
    var n := es + [e];
    assert n[p] == es[p];
    if es[p].event.Store? {
      var id := es[p].event.id;
      if Obtained(es, p, id, t, k) {
        var i: nat, r: nat :| i < r < p && StartedAt(es, i, id, k) && ReceivedAt(es, r, id, t);
        assert StartedAt(n, i, id, k) && ReceivedAt(n, r, id, t);
      }
      if Obtained(n, p, id, t, k) {
        var i: nat, r: nat :| i < r < p && StartedAt(n, i, id, k) && ReceivedAt(n, r, id, t);
        assert StartedAt(es, i, id, k) && ReceivedAt(es, r, id, t);
      }
    }
  }

  lemma SameTakenBefore(es: seq<Timed>, e: Timed, cap: nat, p: nat, t: CibaPoll.OAuthToken, k: Key)
    requires p < |es|
    ensures TakesAway(es + [e], cap, p, t, k) <==> TakesAway(es, cap, p, t, k)
  {
    assert (es + [e])[..p] == es[..p] && (es + [e])[p] == es[p];
    if es[p].event.Store? {
      forall other ensures StoresToken(es + [e], p, other, k) <==> StoresToken(es, p, other, k) {
        SameBefore(es, e, cap, p, other, k);
      }
    }
  }

  lemma StillCachedBefore(es: seq<Timed>, e: Timed, cap: nat, t: CibaPoll.OAuthToken, k: Key)
    requires StillCached(es + [e], cap, t, k) && !StoresToken(es + [e], |es|, t, k)
    ensures StillCached(es, cap, t, k) && !TakesAway(es + [e], cap, |es|, t, k)
  {
    var n := es + [e];
    var q: nat :| StoresToken(n, q, t, k) && NeverTakenAway(n, cap, q, t, k);
    SameBefore(es, e, cap, q, t, k);
    forall p: nat | q < p < |es| ensures !TakesAway(es, cap, p, t, k) {
      SameTakenBefore(es, e, cap, p, t, k);
    }
    assert NeverTakenAway(es, cap, q, t, k);
  }

  lemma StillCachedAfter(es: seq<Timed>, e: Timed, cap: nat, t: CibaPoll.OAuthToken, k: Key)
    requires StillCached(es, cap, t, k) && !TakesAway(es + [e], cap, |es|, t, k)
    ensures StillCached(es + [e], cap, t, k)
  {
    var n := es + [e];
    var q: nat :| StoresToken(es, q, t, k) && NeverTakenAway(es, cap, q, t, k);
    SameBefore(es, e, cap, q, t, k);
    forall p: nat | q < p < |n| ensures !TakesAway(n, cap, p, t, k) {
      if p < |es| { SameTakenBefore(es, e, cap, p, t, k); }
    }
    assert NeverTakenAway(n, cap, q, t, k);
  }

  lemma StillCachedStep(es: seq<Timed>, e: Timed, cap: nat, t: CibaPoll.OAuthToken, k: Key)
    ensures StillCached(es + [e], cap, t, k)
       <==> StoresToken(es + [e], |es|, t, k)
            || (StillCached(es, cap, t, k) && !TakesAway(es + [e], cap, |es|, t, k))
  {
    if StoresToken(es + [e], |es|, t, k) {
      assert NeverTakenAway(es + [e], cap, |es|, t, k);
    } else if StillCached(es + [e], cap, t, k) {
      StillCachedBefore(es, e, cap, t, k);
    } else if StillCached(es, cap, t, k) && !TakesAway(es + [e], cap, |es|, t, k) {
      StillCachedAfter(es, e, cap, t, k);
    }
  }

  ghost predicate InCache(c: Caches, t: CibaPoll.OAuthToken, k: Key) {
    k in c.tokens && c.tokens[k].token == t
  }

  lemma {:induction false} NoEmptyJtiIndexed(es: seq<Timed>, cap: nat)
    requires IsRun(es, cap)
    ensures "" !in After(es, cap).caches.index
  {
    if es != [] { NoEmptyJtiIndexed(es[..|es| - 1], cap); }
  }

  // How one step changes the cache.
  lemma InCacheStep(es: seq<Timed>, e: Timed, cap: nat, t: CibaPoll.OAuthToken, k: Key)
    requires IsRun(es, cap) && Enabled(After(es, cap), e)
    ensures InCache(Next(After(es, cap), e, cap).caches, t, k)
       <==> StoresToken(es + [e], |es|, t, k)
            || (InCache(After(es, cap).caches, t, k) && !TakesAway(es + [e], cap, |es|, t, k))
  {
    var s := After(es, cap);
    assert (es + [e])[..|es|] == es && (es + [e])[|es|] == e;
    NextStores(es, e, cap, t, k);
    match e.event {
      case Store(id) =>
        NextStores(es, e, cap, s.flows[id].phase.token, k);
        forall other ensures StoresToken(es + [e], |es|, other, k) ==> s.flows[id].key == k {
          NextStores(es, e, cap, other, k);
        }
      case Lookup(key) => DenylistReplaysHistory(es, cap);
      case Revoke(j, _) =>
        if j == "" {
          NoEmptyJtiIndexed(es, cap);
        } else {
          Bystanders.IndexIffRemembered(es, cap, j, k);
        }
      case _ =>
    }
  }

  // In every run, a token is cached under a key exactly if it was cached there by the flow that obtained it
  // and nothing has taken it away since.
  lemma {:induction false} CachedIff(es: seq<Timed>, cap: nat, t: CibaPoll.OAuthToken, k: Key)
    requires IsRun(es, cap)
    ensures InCache(After(es, cap).caches, t, k) <==> StillCached(es, cap, t, k)
  {
    if es != [] {
      var before, e := es[..|es| - 1], es[|es| - 1];
      assert es == before + [e];
      CachedIff(before, cap, t, k);
      InCacheStep(before, e, cap, t, k);
      StillCachedStep(before, e, cap, t, k);
    }
  }

  // So a dispatch is served t for its key exactly if t is still cached there, its jti is not listed, and it
  // is more than 30 s from its expiry; and it is served with the times of its receipt and its expiry.
  lemma ServedIff(es: seq<Timed>, cap: nat, k: Key, now: Time, t: CibaPoll.OAuthToken)
    requires IsRun(es, cap)
    ensures ServedIn(After(es, cap), k, now).Some? && ServedIn(After(es, cap), k, now).value.token == t
       <==> StillCached(es, cap, t, k) && !ListedBefore(es, cap, |es|, t.jti) && now < t.expiresAt - 30.0
    ensures ServedIn(After(es, cap), k, now).Some? ==>
              var c := ServedIn(After(es, cap), k, now).value;
              c.expiresAt == c.token.expiresAt && c.iat == c.token.expiresAt - c.token.expiresIn as real
  {
    assert es[..|es|] == es;
    ReachableInv(es, cap);
    DenylistReplaysHistory(es, cap);
    CachedIff(es, cap, t, k);
  }
}
