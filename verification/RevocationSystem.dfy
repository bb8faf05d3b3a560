// The agent as one state machine: dispatches, background tasks, revocation events and sweeps interleaved
// in any order. Sources: hr_agent/ciba/orchestrator.py, common/revocation/internal_events.py and
// common/revocation/jti_denylist.py.
//
// Every step is the code between two awaits and carries the clock reading it makes; the clock never
// steps back. A flow is one CIBA request; the identity server issues at most one token for it, and
// never the same jti twice (section 4.1.7 of RFC 7519).

module RevocationSystem {
  import opened Common
  import opened Denylist
  import opened CibaPoll
  import opened Dispatcher

  type FlowId = string

  datatype Phase =
    | Polling                        // poll_for_token is running
    | Calling(token: OAuthToken)     // token received, MCP call under way
    | Stored(token: OAuthToken)      // MCP call succeeded, token cached
    | Over(last: Option<OAuthToken>) // ended without caching

  // hint and scope are what the flow was started with at the identity server; key is where the
  // dispatcher will cache its token.
  datatype Flow = Flow(hint: string, scope: string, key: Key, phase: Phase)

  datatype Event =
    | Lookup(key: Key)                                           // cache lookup of a dispatch
    | Refused(key: Key)                                          // MCP refused a served token
    | Initiate(id: FlowId, user: string, scope: string)          // CIBA initiation answered
    | Receive(id: FlowId, token: OAuthToken)                     // poll returned a token
    | GiveUp(id: FlowId)                                         // poll or MCP call failed
    | Store(id: FlowId)                                          // MCP call succeeded
    | Revoke(jti: Jti, exp: Time)                                // /internal/events accepted
    | SweepNow                                                   // one pass of the sweeper

  datatype Timed = Timed(at: Time, event: Event)

  datatype State = State(clock: Time, caches: Caches, deny: seq<Entry>, flows: map<FlowId, Flow>)

  const INITIAL: State := State(0.0, Caches(map[], map[]), [], map[])

  // The jti of the token a flow has received, "" if none.
  function JtiOf(p: Phase): Jti {
    match p
    case Polling => ""
    case Calling(t) => t.jti
    case Stored(t) => t.jti
    case Over(t) => if t.Some? then t.value.jti else ""
  }

  ghost predicate JtiUsed(s: State, j: Jti) {
    exists id :: id in s.flows && JtiOf(s.flows[id].phase) == j
  }

  // Which steps can happen: the environment's guarantees, nothing of the dispatcher's. A token expires as
  // long after its receipt as the reply says (common/auth/models.py, OAuthToken.from_response).
  ghost predicate Enabled(s: State, e: Timed) {
    && e.at >= s.clock
    && match e.event
       case Initiate(id, _, _) => id !in s.flows
       case Receive(id, t) =>
         && id in s.flows && s.flows[id].phase.Polling?
         && t.expiresAt == e.at + t.expiresIn as real
         && (t.jti != "" ==> !JtiUsed(s, t.jti))
       case GiveUp(id) => id in s.flows && (s.flows[id].phase.Polling? || s.flows[id].phase.Calling?)
       case Store(id) => id in s.flows && s.flows[id].phase.Calling?
       case _ => true
  }

  ghost function Next(s: State, e: Timed, cap: nat): State
    requires Enabled(s, e)
  {
    var t := s.(clock := e.at);
    match e.event
    case Lookup(key) => t.(caches := AfterLookup(s.caches, s.deny, key))
    case Refused(key) => t.(caches := AfterRejection(s.caches, key))
    case Initiate(id, user, scope) => t.(flows := s.flows[id := Flow(user, scope, Key(user, scope), Polling)])
    case Receive(id, token) => t.(flows := s.flows[id := s.flows[id].(phase := Calling(token))])
    case GiveUp(id) =>
      var phase := s.flows[id].phase;
      t.(flows := s.flows[id := s.flows[id].(phase := Over(if phase.Calling? then Some(phase.token) else None))])
    case Store(id) =>
      var flow := s.flows[id];
      t.(caches := AfterStore(s.caches, flow.key, flow.phase.token),
         flows := s.flows[id := flow.(phase := Stored(flow.phase.token))])
    case Revoke(j, exp) => t.(deny := Added(s.deny, cap, j, exp), caches := AfterRevoke(s.caches, j))
    case SweepNow => t.(deny := Swept(s.deny, e.at))
  }

  // What a dispatch looking up this key at this time would send to the MCP server.
  function ServedIn(s: State, key: Key, now: Time): Option<CachedToken> {
    Served(s.caches, s.deny, key, now)
  }

  // ---------------------------------------------------------------------------------------------
  // Runs
  // ---------------------------------------------------------------------------------------------

  ghost predicate IsRun(es: seq<Timed>, cap: nat)
    decreases |es|, 0
  {
    es == [] || (IsRun(es[..|es| - 1], cap) && Enabled(After(es[..|es| - 1], cap), es[|es| - 1]))
  }

  ghost function After(es: seq<Timed>, cap: nat): State
    requires IsRun(es, cap)
    decreases |es|, 1
  {
    if es == [] then INITIAL else Next(After(es[..|es| - 1], cap), es[|es| - 1], cap)
  }

  lemma OneMore(es: seq<Timed>, e: Timed, cap: nat)
    requires IsRun(es, cap) && Enabled(After(es, cap), e)
    ensures IsRun(es + [e], cap) && After(es + [e], cap) == Next(After(es, cap), e, cap)
  {
    assert (es + [e])[..|es|] == es;
  }

  // What one step does to the denylist.
  function DenyOps(e: Timed): seq<Op> {
    match e.event
    case Revoke(j, exp) => [Op.Add(j, exp)]
    case SweepNow => [Sweep(e.at)]
    case _ => []
  }

  // The adds and sweeps of a run, in order.
  function DenyHistory(es: seq<Timed>): seq<Op> {
    if es == [] then [] else DenyHistory(es[..|es| - 1]) + DenyOps(es[|es| - 1])
  }

  lemma HistoryOneMore(es: seq<Timed>, e: Timed)
    ensures DenyHistory(es + [e]) == DenyHistory(es) + DenyOps(e)
  {
    assert (es + [e])[..|es|] == es;
  }

  ghost predicate NoSweepAhead(h: seq<Op>, now: Time) {
    forall i :: 0 <= i < |h| && h[i].Sweep? ==> h[i].cutoff <= now
  }

  lemma DenyStep(s: State, e: Timed, cap: nat, h: seq<Op>)
    requires Enabled(s, e) && s.deny == Replay(h, cap)
    ensures Next(s, e, cap).deny == Replay(h + DenyOps(e), cap)
  {
    match e.event
    case Revoke(j, exp) => ReplayOneMore(h, Op.Add(j, exp), cap);
    case SweepNow => ReplayOneMore(h, Sweep(e.at), cap);
    case _ => assert h + [] == h;
  }

  lemma NoSweepAheadStep(h: seq<Op>, e: Timed, now: Time)
    requires NoSweepAhead(h, now) && now <= e.at
    ensures NoSweepAhead(h + DenyOps(e), e.at)
  {
  }

  lemma {:induction false} DenylistReplaysHistory(es: seq<Timed>, cap: nat)
    requires IsRun(es, cap)
    ensures After(es, cap).deny == Replay(DenyHistory(es), cap)
    ensures NoSweepAhead(DenyHistory(es), After(es, cap).clock)
  {
    if es != [] {
      var before := es[..|es| - 1];
      DenylistReplaysHistory(before, cap);
      DenyStep(After(before, cap), es[|es| - 1], cap, DenyHistory(before));
      NoSweepAheadStep(DenyHistory(before), es[|es| - 1], After(before, cap).clock);
    }
  }

  // ---------------------------------------------------------------------------------------------
  // What every step keeps
  // ---------------------------------------------------------------------------------------------

  // One flow stored this token under this key.
  ghost predicate StoredBy(s: State, id: FlowId, k: Key, t: OAuthToken) {
    && id in s.flows
    && s.flows[id].phase == Stored(t)
    && s.flows[id].key == k == Key(s.flows[id].hint, s.flows[id].scope)
  }

  ghost predicate Provenance(s: State) {
    forall k :: k in s.caches.tokens ==>
      && s.caches.tokens[k].expiresAt == s.caches.tokens[k].token.expiresAt
      && s.caches.tokens[k].iat == Arrival(s.caches.tokens[k].token)
      && exists id :: StoredBy(s, id, k, s.caches.tokens[k].token)
  }

  ghost predicate UniqueJtis(flows: map<FlowId, Flow>) {
    forall a, b :: a in flows && b in flows && a != b && JtiOf(flows[a].phase) == JtiOf(flows[b].phase)
      ==> JtiOf(flows[a].phase) == ""
  }

  ghost predicate KeysMatch(s: State) {
    forall id :: id in s.flows ==> s.flows[id].key == Key(s.flows[id].hint, s.flows[id].scope)
  }

  // When a token was received.
  function Arrival(t: OAuthToken): Time {
    t.expiresAt - t.expiresIn as real
  }

  ghost predicate NoneFromTheFuture(s: State) {
    forall id :: id in s.flows && (s.flows[id].phase.Calling? || s.flows[id].phase.Stored?) ==>
      Arrival(s.flows[id].phase.token) <= s.clock
  }

  ghost predicate Inv(s: State) {
    Indexed(s.caches) && Provenance(s) && UniqueJtis(s.flows) && KeysMatch(s) && NoneFromTheFuture(s)
  }

  lemma ArrivalsStep(s: State, e: Timed, cap: nat)
    requires NoneFromTheFuture(s) && Enabled(s, e)
    ensures NoneFromTheFuture(Next(s, e, cap))
  {
  }

  lemma StoredByStays(s: State, e: Timed, cap: nat, id: FlowId, k: Key, t: OAuthToken)
    requires Enabled(s, e) && StoredBy(s, id, k, t)
    ensures StoredBy(Next(s, e, cap), id, k, t)
  {
  }

  lemma UniqueAfterUpdate(flows: map<FlowId, Flow>, id: FlowId, flow: Flow)
    requires UniqueJtis(flows)
    requires JtiOf(flow.phase) != "" ==>
               forall a :: a in flows && a != id ==> JtiOf(flows[a].phase) != JtiOf(flow.phase)
    ensures UniqueJtis(flows[id := flow])
  {
  }

  lemma FlowsStep(s: State, e: Timed, cap: nat)
    requires UniqueJtis(s.flows) && KeysMatch(s) && Enabled(s, e)
    ensures UniqueJtis(Next(s, e, cap).flows) && KeysMatch(Next(s, e, cap))
  {
    var n := Next(s, e, cap);
    match e.event {
      case Initiate(id, _, _) => UniqueAfterUpdate(s.flows, id, n.flows[id]);
      case Receive(id, _) => UniqueAfterUpdate(s.flows, id, n.flows[id]);
      case GiveUp(id) => UniqueAfterUpdate(s.flows, id, n.flows[id]);
      case Store(id) => UniqueAfterUpdate(s.flows, id, n.flows[id]);
      case _ =>
    }
  }

  // A token about to be stored carries a jti no cached token carries.
  lemma StoredJtiIsNew(s: State, id: FlowId, k: Key)
    requires Inv(s) && id in s.flows && s.flows[id].phase.Calling?
    requires k in s.caches.tokens && s.flows[id].phase.token.jti != ""
    ensures s.caches.tokens[k].token.jti != s.flows[id].phase.token.jti
  {
    var src :| StoredBy(s, src, k, s.caches.tokens[k].token);
    assert JtiOf(s.flows[src].phase) == s.caches.tokens[k].token.jti;
  }

  lemma IndexedStep(s: State, e: Timed, cap: nat)
    requires Inv(s) && Enabled(s, e)
    ensures Indexed(Next(s, e, cap).caches)
  {
    match e.event {
      case Store(id) =>
        forall k | k in s.caches.tokens && s.flows[id].phase.token.jti != ""
          ensures s.caches.tokens[k].token.jti != s.flows[id].phase.token.jti
        {
          StoredJtiIsNew(s, id, k);
        }
      case _ =>
    }
  }

  lemma ProvenanceStep(s: State, e: Timed, cap: nat)
    requires Inv(s) && Enabled(s, e)
    ensures Provenance(Next(s, e, cap))
  {
    var n := Next(s, e, cap);
    forall k | k in n.caches.tokens
      ensures n.caches.tokens[k].expiresAt == n.caches.tokens[k].token.expiresAt
      ensures n.caches.tokens[k].iat == Arrival(n.caches.tokens[k].token)
      ensures exists id :: StoredBy(n, id, k, n.caches.tokens[k].token)
    {
      if e.event.Store? && k == s.flows[e.event.id].key {
        assert StoredBy(n, e.event.id, k, n.caches.tokens[k].token);
      } else {
        assert k in s.caches.tokens && n.caches.tokens[k] == s.caches.tokens[k];
        var id :| StoredBy(s, id, k, s.caches.tokens[k].token);
        StoredByStays(s, e, cap, id, k, s.caches.tokens[k].token);
      }
    }
  }

  lemma {:induction false} ReachableInv(es: seq<Timed>, cap: nat)
    requires IsRun(es, cap)
    ensures Inv(After(es, cap))
  {
    if es != [] {
      var before, e := es[..|es| - 1], es[|es| - 1];
      ReachableInv(before, cap);
      FlowsStep(After(before, cap), e, cap);
      ArrivalsStep(After(before, cap), e, cap);
      IndexedStep(After(before, cap), e, cap);
      ProvenanceStep(After(before, cap), e, cap);
    }
  }

  // ---------------------------------------------------------------------------------------------
  // Main results
  // ---------------------------------------------------------------------------------------------

  // In every reachable state each cached token with a jti is indexed under its own key, so a revocation
  // leaves no cached token with that jti.
  lemma NothingCachedAfterRevoke(es: seq<Timed>, cap: nat, at: Time, j: Jti, exp: Time)
    requires IsRun(es, cap) && at >= After(es, cap).clock && j != ""
    ensures Indexed(After(es, cap).caches)
    ensures var next := es + [Timed(at, Revoke(j, exp))];
            IsRun(next, cap) && !Carries(After(next, cap).caches, j)
  {
    var e := Timed(at, Revoke(j, exp));
    ReachableInv(es, cap);
    RevokeIsExact(After(es, cap).caches, j);
    OneMore(es, e, cap);
    assert After(es + [e], cap).caches == AfterRevoke(After(es, cap).caches, j);
  }

  // Token provenance: a token served for (user, scope) came from a flow started with that same login hint
  // and scope, and had been accepted by one MCP call.
  lemma ServedTokenProvenance(es: seq<Timed>, cap: nat, key: Key, now: Time)
    requires IsRun(es, cap)
    requires ServedIn(After(es, cap), key, now).Some?
    ensures exists id :: id in After(es, cap).flows
              && After(es, cap).flows[id].hint == key.user
              && After(es, cap).flows[id].scope == key.scope
              && After(es, cap).flows[id].phase == Stored(ServedIn(After(es, cap), key, now).value.token)
  {
    ReachableInv(es, cap);
    var s := After(es, cap);
    var id :| StoredBy(s, id, key, s.caches.tokens[key].token);
  }

  // A token with a lifetime of no more than the buffer is near expiry from the start and never served.
  lemma ShortLivedNeverServed(es: seq<Timed>, cap: nat, key: Key, now: Time)
    requires IsRun(es, cap) && now >= After(es, cap).clock
    requires ServedIn(After(es, cap), key, now).Some?
    ensures ServedIn(After(es, cap), key, now).value.token.expiresIn as real > EXPIRY_BUFFER
  {
    ReachableInv(es, cap);
    var s := After(es, cap);
    var id :| StoredBy(s, id, key, s.caches.tokens[key].token);
  }

  // The condition a cascade has to meet for j: the last acknowledged expiry reaches into the buffer
  // before the token's real one, and the entry has not been crowded out.
  ghost predicate RevokedInTime(h: seq<Op>, cap: nat, j: Jti, expiresAt: Time) {
    && LastAdd(h, j) >= 0
    && h[LastAdd(h, j)].exp >= expiresAt - EXPIRY_BUFFER
    && |AddedAfter(h, LastAdd(h, j))| < cap
  }

  // Revocation safety, over every interleaving: such a token is never served again, even when it enters
  // the cache only after its revocation and even when the sweeper has already forgotten it.
  lemma RevokedTokenNeverServed(es: seq<Timed>, cap: nat, key: Key, now: Time)
    requires cap >= 1 && IsRun(es, cap) && now >= After(es, cap).clock
    requires ServedIn(After(es, cap), key, now).Some?
    ensures var t := ServedIn(After(es, cap), key, now).value.token;
            t.jti != "" ==> !RevokedInTime(DenyHistory(es), cap, t.jti, t.expiresAt)
  {
    var s, h := After(es, cap), DenyHistory(es);
    ReachableInv(es, cap);
    DenylistReplaysHistory(es, cap);
    var c := ServedIn(s, key, now).value;
    var j := c.token.jti;
    if j != "" && RevokedInTime(h, cap, j, c.token.expiresAt) {
      if !SweptAfter(h, LastAdd(h, j), h[LastAdd(h, j)].exp) {
        Survival(h, cap, j);
      }
    }
  }

  // The cascade sends the token_exp of the result payload, which always meets the condition.
  lemma HonestCascadeSuffices(h: seq<Op>, cap: nat, t: OAuthToken)
    requires LastAdd(h, t.jti) >= 0
    requires h[LastAdd(h, t.jti)].exp == PayloadFor(t).tokenExp as real
    requires |AddedAfter(h, LastAdd(h, t.jti))| < cap
    ensures RevokedInTime(h, cap, t.jti, t.expiresAt)
  {
    WireExpiryIsClose(t);
  }

  // t is served although its revocation, last acknowledged with expiry exp, has not been crowded out.
  ghost predicate ServedDespite(es: seq<Timed>, cap: nat, key: Key, now: Time, t: OAuthToken, exp: Time) {
    var h := DenyHistory(es);
    && IsRun(es, cap) && now >= After(es, cap).clock
    && LastAdd(h, t.jti) >= 0 && h[LastAdd(h, t.jti)].exp == exp
    && |AddedAfter(h, LastAdd(h, t.jti))| < cap
    && ServedIn(After(es, cap), key, now).Some? && ServedIn(After(es, cap), key, now).value.token == t
  }

  // The leak: while the token's MCP call is in flight its revocation arrives, first with one expiry and
  // then with an earlier one; a sweep forgets it; the token is cached and served after all.
  function InFlight(t: OAuthToken): seq<Timed> {
    [Timed(0.0, Initiate("flow", "user", "scope"))] + [Timed(Arrival(t), Receive("flow", t))]
  }

  function Acked(t: OAuthToken, exp: Time): seq<Timed> {
    InFlight(t) + [Timed(Arrival(t), Revoke(t.jti, exp))]
  }

  function AckedTwice(t: OAuthToken, first: Time, exp: Time): seq<Timed> {
    Acked(t, first) + [Timed(Arrival(t), Revoke(t.jti, exp))]
  }

  function Forgotten(t: OAuthToken, first: Time, exp: Time, swept: Time): seq<Timed> {
    AckedTwice(t, first, exp) + [Timed(swept, SweepNow)]
  }

  function LeakyRun(t: OAuthToken, first: Time, exp: Time, swept: Time): seq<Timed> {
    Forgotten(t, first, exp, swept) + [Timed(swept, Store("flow"))]
  }

  const NOTHING_CACHED: Caches := Caches(map[], map[])

  function FlowOf(phase: Phase): map<FlowId, Flow> {
    map["flow" := Flow("user", "scope", Key("user", "scope"), phase)]
  }

  lemma InFlightState(cap: nat, t: OAuthToken)
    requires Arrival(t) >= 0.0
    ensures IsRun(InFlight(t), cap)
    ensures After(InFlight(t), cap) == State(Arrival(t), NOTHING_CACHED, [], FlowOf(Calling(t)))
  {
    var e0, e1 := Timed(0.0, Initiate("flow", "user", "scope")), Timed(Arrival(t), Receive("flow", t));
    OneMore([], e0, cap);
    assert [] + [e0] == [e0];
    assert After([e0], cap) == State(0.0, NOTHING_CACHED, [], FlowOf(Polling));
    OneMore([e0], e1, cap);
    assert FlowOf(Polling)["flow" := FlowOf(Polling)["flow"].(phase := Calling(t))] == FlowOf(Calling(t));
  }

  lemma AckedState(cap: nat, t: OAuthToken, exp: Time)
    requires Arrival(t) >= 0.0
    ensures IsRun(Acked(t, exp), cap)
    ensures After(Acked(t, exp), cap)
         == State(Arrival(t), NOTHING_CACHED, [Entry(t.jti, exp)], FlowOf(Calling(t)))
  {
    InFlightState(cap, t);
    OneMore(InFlight(t), Timed(Arrival(t), Revoke(t.jti, exp)), cap);
  }

  // A list of one entry, recorded again and swept.
  lemma OnlyEntry(cap: nat, j: Jti, first: Time, exp: Time, swept: Time)
    ensures Added([Entry(j, first)], cap, j, exp) == [Entry(j, exp)]
    ensures exp < swept ==> Swept([Entry(j, exp)], swept) == []
  {
    assert Entry(j, first) in [Entry(j, first)];
    assert [Entry(j, first)][1..] == [] && [Entry(j, exp)][1..] == [];
    assert Without([Entry(j, first)], j) == [] + Without([], j);
    assert Swept([], swept) == [];
  }

  lemma AckedTwiceState(cap: nat, t: OAuthToken, first: Time, exp: Time)
    requires Arrival(t) >= 0.0
    ensures IsRun(AckedTwice(t, first, exp), cap)
    ensures After(AckedTwice(t, first, exp), cap)
         == State(Arrival(t), NOTHING_CACHED, [Entry(t.jti, exp)], FlowOf(Calling(t)))
  {
    AckedState(cap, t, first);
    OneMore(Acked(t, first), Timed(Arrival(t), Revoke(t.jti, exp)), cap);
    OnlyEntry(cap, t.jti, first, exp, 0.0);
  }

  lemma ForgottenState(cap: nat, t: OAuthToken, first: Time, exp: Time, swept: Time)
    requires 0.0 <= Arrival(t) <= swept && exp < swept
    ensures IsRun(Forgotten(t, first, exp, swept), cap)
    ensures After(Forgotten(t, first, exp, swept), cap) == State(swept, NOTHING_CACHED, [], FlowOf(Calling(t)))
  {
    AckedTwiceState(cap, t, first, exp);
    OneMore(AckedTwice(t, first, exp), Timed(swept, SweepNow), cap);
    OnlyEntry(cap, t.jti, first, exp, swept);
  }

  lemma LeakyState(cap: nat, t: OAuthToken, first: Time, exp: Time, swept: Time)
    requires 0.0 <= Arrival(t) <= swept && exp < swept
    ensures IsRun(LeakyRun(t, first, exp, swept), cap)
    ensures After(LeakyRun(t, first, exp, swept), cap)
         == State(swept, AfterStore(NOTHING_CACHED, Key("user", "scope"), t), [], FlowOf(Stored(t)))
  {
    ForgottenState(cap, t, first, exp, swept);
    OneMore(Forgotten(t, first, exp, swept), Timed(swept, Store("flow")), cap);
    assert FlowOf(Calling(t))["flow" := FlowOf(Calling(t))["flow"].(phase := Stored(t))] == FlowOf(Stored(t));
  }

  lemma AckedHistory(t: OAuthToken, exp: Time)
    ensures DenyHistory(Acked(t, exp)) == [Op.Add(t.jti, exp)]
  {
    var e0, e1 := Timed(0.0, Initiate("flow", "user", "scope")), Timed(Arrival(t), Receive("flow", t));
    HistoryOneMore([], e0);
    assert [] + [e0] == [e0];
    HistoryOneMore([e0], e1);
    HistoryOneMore(InFlight(t), Timed(Arrival(t), Revoke(t.jti, exp)));
  }

  lemma LeakyHistory(t: OAuthToken, first: Time, exp: Time, swept: Time)
    ensures DenyHistory(LeakyRun(t, first, exp, swept))
         == [Op.Add(t.jti, first), Op.Add(t.jti, exp), Sweep(swept)]
  {
    AckedHistory(t, first);
    HistoryOneMore(Acked(t, first), Timed(Arrival(t), Revoke(t.jti, exp)));
    HistoryOneMore(AckedTwice(t, first, exp), Timed(swept, SweepNow));
    HistoryOneMore(Forgotten(t, first, exp, swept), Timed(swept, Store("flow")));
  }

  lemma LeakyRunServes(cap: nat, t: OAuthToken, first: Time, exp: Time, swept: Time)
    requires cap >= 1 && t.jti != ""
    requires 0.0 <= Arrival(t) <= swept && exp < swept < t.expiresAt - EXPIRY_BUFFER
    ensures ServedDespite(LeakyRun(t, first, exp, swept), cap, Key("user", "scope"), swept, t, exp)
  {
    LeakyState(cap, t, first, exp, swept);
    LeakyHistory(t, first, exp, swept);
    var h := [Op.Add(t.jti, first), Op.Add(t.jti, exp), Sweep(swept)];
    assert LastAdd(h, t.jti) == 1;
    assert AddedAfter(h, 1) == {};
  }

  // A moment between the arrival and a too early recorded expiry, and the start of the buffer.
  function Between(t: OAuthToken, exp: Time): (swept: Time)
    requires t.expiresIn as real > EXPIRY_BUFFER && exp < t.expiresAt - EXPIRY_BUFFER
    ensures Arrival(t) <= swept && exp < swept < t.expiresAt - EXPIRY_BUFFER
  {
    ((if exp > Arrival(t) then exp else Arrival(t)) + t.expiresAt - EXPIRY_BUFFER) / 2.0
  }

  lemma AckedRevokesInTime(cap: nat, t: OAuthToken, exp: Time)
    requires cap >= 1 && exp >= t.expiresAt - EXPIRY_BUFFER
    ensures RevokedInTime(DenyHistory(Acked(t, exp)), cap, t.jti, t.expiresAt)
  {
    AckedHistory(t, exp);
    assert AddedAfter([Op.Add(t.jti, exp)], 0) == {};
  }

  lemma AppendThree<T>(xs: seq<T>, a: T, b: T, c: T)
    ensures xs + [a] + [b] + [c] == xs + [a, b, c]
  {
  }

  // A later event undoes an earlier one: after the first event of this run the token is revoked in time,
  // the second lowers the recorded expiry, and the token is served.
  lemma LaterEventUndoes(cap: nat, t: OAuthToken, first: Time, exp: Time)
    requires cap >= 1 && t.jti != "" && Arrival(t) >= 0.0 && t.expiresIn as real > EXPIRY_BUFFER
    requires exp < t.expiresAt - EXPIRY_BUFFER <= first
    ensures IsRun(Acked(t, first), cap) && RevokedInTime(DenyHistory(Acked(t, first)), cap, t.jti, t.expiresAt)
    ensures exists more, key, now :: ServedDespite(Acked(t, first) + more, cap, key, now, t, exp)
  {
    var swept := Between(t, exp);
    AckedState(cap, t, first);
    AckedRevokesInTime(cap, t, first);
    LeakyRunServes(cap, t, first, exp, swept);
    AppendThree(Acked(t, first), Timed(Arrival(t), Revoke(t.jti, exp)), Timed(swept, SweepNow),
                Timed(swept, Store("flow")));
  }

  // The condition is exact: a token is safe from being served after its revocation, in every run, if and
  // only if the last acknowledged expiry is no earlier than its own minus the buffer, or the token lives
  // no longer than the buffer. The clock starts at zero.
  lemma RevocationSafeIff(cap: nat, t: OAuthToken, exp: Time)
    requires cap >= 1 && t.jti != "" && Arrival(t) >= 0.0
    ensures exp >= t.expiresAt - EXPIRY_BUFFER || t.expiresIn as real <= EXPIRY_BUFFER
       <==> forall es, key, now :: !ServedDespite(es, cap, key, now, t, exp)
  {
    if exp >= t.expiresAt - EXPIRY_BUFFER || t.expiresIn as real <= EXPIRY_BUFFER {
      forall es, key, now ensures !ServedDespite(es, cap, key, now, t, exp) {
        if ServedDespite(es, cap, key, now, t, exp) {
          RevokedTokenNeverServed(es, cap, key, now);
          ShortLivedNeverServed(es, cap, key, now);
        }
      }
    } else {
      LeakyRunServes(cap, t, exp, exp, Between(t, exp));
    }
  }
}
