// The agent and its rendezvous together: RevocationSystem says what happens to tokens, Rendezvous what
// happens to the callers that wait for them. Here both run side by side, tied where the code ties them:
// hr_agent/ciba/orchestrator.py registers a pending cell when a flow starts and writes the flow's report
// into it in the same step that caches the token or gives the flow up; and the polling loop of
// common/auth/ciba_client.py looks at the cell's cancel event before every request.

module AgentSystem {
  import opened Common
  import opened Denylist
  import CibaPoll
  import opened Pending
  import opened Dispatcher
  import RS = RevocationSystem
  import RV = Rendezvous

  // inFlight are the flows with a poll request under way.
  datatype State = State(agent: RS.State, router: RV.State, inFlight: set<string>)

  datatype Event =
    | Begin(at: Time, id: string, user: string, scope: string)     // CIBA initiated, cell registered
    | Poll(id: string)                                             // the loop sends a request
    | Wait(id: string)                                             // its reply says to wait
    | Receive(at: Time, id: string, token: CibaPoll.OAuthToken)             // its reply is a token
    | Succeed(at: Time, id: string)                                // MCP accepted: cached, result written
    | Fail(at: Time, id: string, outcome: CibaPoll.Outcome, mcp: McpReply)  // given up: error written, or nothing
    | Agent(step: RS.Timed)                                        // a step of the agent alone
    | Router(move: RV.Event)                                       // a step of the rendezvous alone

  const INITIAL: State := State(RS.INITIAL, RV.EMPTY, {})

  ghost predicate IsPolling(s: State, id: string) {
    id in s.agent.flows && id in s.router.cells && s.agent.flows[id].phase.Polling?
  }

  // The ways a flow can fail from where it is. The task can be torn down wherever it is suspended; before
  // a request the loop gives up for the deadline or the cancel event, after one for what the reply says.
  ghost predicate CanFail(s: State, id: string, outcome: CibaPoll.Outcome, mcp: McpReply)
    requires id in s.agent.flows && id in s.router.cells
  {
    match s.agent.flows[id].phase
    case Polling =>
      || outcome.Killed?
      || (id !in s.inFlight && (outcome.TimedOut? || (outcome.Cancelled? && s.router.cells[id].cancelled)))
      || (id in s.inFlight && (outcome.Denied? || outcome.Expired? || outcome.PollError? || outcome.OtherError?))
    case Calling(t) => outcome == CibaPoll.Issued(t) && !mcp.Accepted?
    case _ => false
  }

  ghost function ReportFor(s: State, id: string, outcome: CibaPoll.Outcome, mcp: McpReply): Report
    requires id in s.router.cells
  {
    ReportOf(outcome, mcp, s.router.cells[id].cancelled)
  }

  // When a joint step can happen, beyond what its parts ask for themselves.
  ghost predicate Permitted(s: State, e: Event) {
    match e
    case Begin(_, _, _, _) => true
    case Poll(id) => IsPolling(s, id) && id !in s.inFlight && !s.router.cells[id].cancelled
    case Wait(id) => id in s.inFlight
    case Receive(_, id, _) => id in s.inFlight
    case Succeed(_, id) => id in s.agent.flows && s.agent.flows[id].phase.Calling?
    case Fail(_, id, outcome, mcp) => id in s.agent.flows && id in s.router.cells && CanFail(s, id, outcome, mcp)
    case Agent(step) =>
      !step.event.Initiate? && !step.event.Receive? && !step.event.Store? && !step.event.GiveUp?
    case Router(move) => !move.Register? && !move.Complete?
  }

  // The agent's own step in a joint one, and the rendezvous's, if they take part.
  ghost function AgentStep(e: Event): Option<RS.Timed> {
    match e
    case Begin(at, id, user, scope) => Some(RS.Timed(at, RS.Initiate(id, user, scope)))
    case Receive(at, id, token) => Some(RS.Timed(at, RS.Receive(id, token)))
    case Succeed(at, id) => Some(RS.Timed(at, RS.Store(id)))
    case Fail(at, id, _, _) => Some(RS.Timed(at, RS.GiveUp(id)))
    case Agent(step) => Some(step)
    case _ => None
  }

  ghost function RouterStep(s: State, e: Event): Option<RV.Event>
    requires Permitted(s, e)
  {
    match e
    case Begin(_, id, _, _) => Some(RV.Register(id))
    case Succeed(_, id) => Some(RV.Complete(id, Result(PayloadFor(s.agent.flows[id].phase.token))))
    case Fail(_, id, outcome, mcp) => Some(RV.Complete(id, ReportFor(s, id, outcome, mcp)))
    case Router(move) => Some(move)
    case _ => None
  }

  ghost predicate Enabled(s: State, e: Event) {
    && Permitted(s, e)
    && (AgentStep(e).Some? ==> RS.Enabled(s.agent, AgentStep(e).value))
    && (RouterStep(s, e).Some? ==> RV.Enabled(s.router, RouterStep(s, e).value))
  }

  ghost function InFlightAfter(s: State, e: Event): set<string> {
    match e
    case Poll(id) => s.inFlight + {id}
    case Wait(id) => s.inFlight - {id}
    case Receive(_, id, _) => s.inFlight - {id}
    case Fail(_, id, _, _) => s.inFlight - {id}
    case _ => s.inFlight
  }

  ghost function Next(s: State, e: Event, cap: nat): State
    requires Enabled(s, e)
  {
    State(if AgentStep(e).Some? then RS.Next(s.agent, AgentStep(e).value, cap) else s.agent,
          if RouterStep(s, e).Some? then RV.Next(s.router, RouterStep(s, e).value) else s.router,
          InFlightAfter(s, e))
  }

  ghost predicate IsRun(es: seq<Event>, cap: nat)
    decreases |es|, 0
  {
    es == [] || (IsRun(es[..|es| - 1], cap) && Enabled(After(es[..|es| - 1], cap), es[|es| - 1]))
  }

  ghost function After(es: seq<Event>, cap: nat): State
    requires IsRun(es, cap)
    decreases |es|, 1
  {
    if es == [] then INITIAL else Next(After(es[..|es| - 1], cap), es[|es| - 1], cap)
  }

  // The steps the agent takes in a joint run.
  ghost function AgentRun(es: seq<Event>): seq<RS.Timed> {
    if es == [] then []
    else
      var step := AgentStep(es[|es| - 1]);
      AgentRun(es[..|es| - 1]) + (if step.Some? then [step.value] else [])
  }

  // A joint run is a run of the agent.
  lemma {:induction false} AgentRunIsRun(es: seq<Event>, cap: nat)
    requires IsRun(es, cap)
    ensures RS.IsRun(AgentRun(es), cap)
    ensures RS.After(AgentRun(es), cap) == After(es, cap).agent
  {
    if es != [] {
      var before, e := es[..|es| - 1], es[|es| - 1];
      AgentRunIsRun(before, cap);
      if AgentStep(e).Some? {
        RS.OneMore(AgentRun(before), AgentStep(e).value, cap);
      } else {
        assert AgentRun(before) + [] == AgentRun(before);
      }
    }
  }

  // ---------------------------------------------------------------------------------------------
  // The tie between flows and cells
  // ---------------------------------------------------------------------------------------------

  // What a flow's cell says about the flow.
  ghost predicate CellMatches(phase: RS.Phase, cell: RV.Cell) {
    match cell.done
    case None => phase.Polling? || phase.Calling?
    case Some(Result(p)) => phase.Stored? && p == PayloadFor(phase.token)
    case Some(report) => phase.Over? && (report == CANCELLED ==> cell.cancelled)
  }

  ghost predicate Tied(s: State) {
    && s.agent.flows.Keys == s.router.cells.Keys
    && (forall id :: id in s.agent.flows ==> CellMatches(s.agent.flows[id].phase, s.router.cells[id]))
    && (forall id :: id in s.inFlight ==> IsPolling(s, id))
  }

  // A step that touches one flow and its cell.
  lemma OneCellTied(s: State, n: State, id: string)
    requires Tied(s)
    requires id in n.agent.flows && id in n.router.cells
    requires n.agent.flows == s.agent.flows[id := n.agent.flows[id]]
    requires n.router.cells == s.router.cells[id := n.router.cells[id]]
    requires CellMatches(n.agent.flows[id].phase, n.router.cells[id])
    requires n.inFlight <= s.inFlight + {id} && (id in n.inFlight ==> n.agent.flows[id].phase.Polling?)
    ensures Tied(n)
  {
  }

  lemma FailureTied(s: State, e: Event, cap: nat)
    requires Tied(s) && Enabled(s, e) && e.Fail?
    ensures Tied(Next(s, e, cap))
  {
    ReportIff(e.outcome, e.mcp, s.router.cells[e.id].cancelled);
    OneCellTied(s, Next(s, e, cap), e.id);
  }

  lemma ProgressTied(s: State, e: Event, cap: nat)
    requires Tied(s) && Enabled(s, e) && (e.Begin? || e.Receive? || e.Succeed?)
    ensures Tied(Next(s, e, cap))
  {
    OneCellTied(s, Next(s, e, cap), e.id);
  }

  lemma RouterTied(s: State, e: Event, cap: nat)
    requires Tied(s) && Enabled(s, e) && e.Router?
    ensures Tied(Next(s, e, cap))
  {
    if e.move.Cancel? && e.move.id in s.router.cells { OneCellTied(s, Next(s, e, cap), e.move.id); }
  }

  lemma TiedStep(s: State, e: Event, cap: nat)
    requires Tied(s) && Enabled(s, e)
    ensures Tied(Next(s, e, cap))
  {
    match e {
      case Poll(_) =>
      case Wait(_) =>
      case Agent(_) =>
      case Router(_) => RouterTied(s, e, cap);
      case Fail(_, _, _, _) => FailureTied(s, e, cap);
      case _ => ProgressTied(s, e, cap);
    }
  }

  lemma {:induction false} ReachableTied(es: seq<Event>, cap: nat)
    requires IsRun(es, cap)
    ensures Tied(After(es, cap))
    ensures RV.Inv(After(es, cap).router)
    ensures RS.Inv(After(es, cap).agent)
  {
    AgentRunIsRun(es, cap);
    RS.ReachableInv(AgentRun(es), cap);
    if es != [] {
      var before, e := es[..|es| - 1], es[|es| - 1];
      var s := After(before, cap);
      ReachableTied(before, cap);
      TiedStep(s, e, cap);
      if RouterStep(s, e).Some? {
        RV.InvStep(s.router, RouterStep(s, e).value);
      }
    }
  }

  // ---------------------------------------------------------------------------------------------
  // Main results
  // ---------------------------------------------------------------------------------------------

  // What an await told its caller about flow id.
  ghost predicate Told(s: State, a: RV.AwaitId, id: string, p: ResultPayload) {
    a in s.router.waits && s.router.waits[a] == RV.Woken(id, Result(p))
  }

  // The token a caller is told about is the one its own flow obtained and cached for its user and scope.
  lemma ResultNamesTheCachedToken(es: seq<Event>, cap: nat, a: RV.AwaitId, id: string, p: ResultPayload)
    requires IsRun(es, cap) && Told(After(es, cap), a, id, p)
    ensures var flows := After(es, cap).agent.flows;
            id in flows && flows[id].phase.Stored? && p == PayloadFor(flows[id].phase.token)
            && flows[id].key == Key(flows[id].hint, flows[id].scope)
  {
    ReachableTied(es, cap);
  }

  // Step i ends flow id's task without a report: it is torn down in the poll or in the MCP call.
  ghost predicate TornDownAt(es: seq<Event>, i: nat, id: string) {
    && i < |es| && es[i].Fail? && es[i].id == id
    && (es[i].outcome.Killed? || (es[i].outcome.Issued? && es[i].mcp.McpAborted?))
  }

  // A cell is complete without a report exactly if its task was torn down.
  lemma {:induction false} NothingIff(es: seq<Event>, cap: nat, id: string)
    requires IsRun(es, cap) && id in After(es, cap).router.cells
    ensures After(es, cap).router.cells[id].done == Some(Nothing) <==> exists i: nat :: TornDownAt(es, i, id)
  {
    var before, e := es[..|es| - 1], es[|es| - 1];
    if id in After(before, cap).router.cells {
      NothingIff(before, cap, id);
      NothingStep(After(before, cap), e, cap, id);
      if i: nat :| TornDownAt(before, i, id) { assert TornDownAt(es, i, id); }
      if i: nat :| TornDownAt(es, i, id) && i < |before| { assert TornDownAt(before, i, id); }
      assert TornDownAt(es, |before|, id) ==> exists i: nat :: TornDownAt(es, i, id);
    } else {
      if i: nat :| TornDownAt(es, i, id) { NoFailureBeforeBegin(es, cap, i, id); }
    }
  }

  lemma NothingStep(s: State, e: Event, cap: nat, id: string)
    requires Enabled(s, e) && id in s.router.cells
    ensures id in Next(s, e, cap).router.cells
    ensures Next(s, e, cap).router.cells[id].done == Some(Nothing)
       <==> s.router.cells[id].done == Some(Nothing) || TornDownAt([e], 0, id)
  {
    if e.Fail? { ReportIff(e.outcome, e.mcp, s.router.cells[e.id].cancelled); }
  }

  lemma {:induction false} NoFailureBeforeBegin(es: seq<Event>, cap: nat, i: nat, id: string)
    requires IsRun(es, cap) && TornDownAt(es, i, id)
    ensures id in After(es[..|es| - 1], cap).router.cells
  {
    var before, e := es[..|es| - 1], es[|es| - 1];
    if i < |before| {
      assert TornDownAt(before, i, id);
      NoFailureBeforeBegin(before, cap, i, id);
      CellsStay(After(before[..|before| - 1], cap), before[|before| - 1], cap, id);
    }
  }

  lemma CellsStay(s: State, e: Event, cap: nat, id: string)
    requires Enabled(s, e) && id in s.router.cells
    ensures id in Next(s, e, cap).router.cells
  {
  }

  // What a woken caller is sent: its own flow's report unchanged, and the fallback exactly if that flow's
  // task was torn down.
  lemma WokenCallerIsSentItsReport(es: seq<Event>, cap: nat, a: RV.AwaitId)
    requires IsRun(es, cap)
    requires var s := After(es, cap); a in s.router.waits && s.router.waits[a].Woken?
    ensures var s := After(es, cap);
            var id, reply := s.router.waits[a].id, RV.PayloadOf(s.router.waits[a].report);
            && id in s.router.cells && s.router.cells[id].done.Some?
            && (reply == s.router.cells[id].done.value <==> !exists i: nat :: TornDownAt(es, i, id))
            && (reply == Error(ErrorPayload("ERR-AGENT-001", "completion_set_but_no_result"))
                <==> exists i: nat :: TornDownAt(es, i, id))
  {
    ReachableTied(es, cap);
    var s := After(es, cap);
    var id := s.router.waits[a].id;
    NothingIff(es, cap, id);
    RV.PayloadIff(s.router.waits[a].report);
    NoFallbackWritten(es, cap, id);
  }

  // No task writes the fallback of the await handler itself.
  lemma {:induction false} NoFallbackWritten(es: seq<Event>, cap: nat, id: string)
    requires IsRun(es, cap) && id in After(es, cap).router.cells
    ensures After(es, cap).router.cells[id].done
         != Some(Error(ErrorPayload("ERR-AGENT-001", "completion_set_but_no_result")))
  {
    var before, e := es[..|es| - 1], es[|es| - 1];
    if id in After(before, cap).router.cells { NoFallbackWritten(before, cap, id); }
    if e.Fail? { OtherReason(e.outcome, e.mcp, After(before, cap).router.cells[e.id].cancelled); }
  }

  lemma OtherReason(outcome: CibaPoll.Outcome, mcp: McpReply, cancelled: bool)
    ensures ReportOf(outcome, mcp, cancelled) != Error(ErrorPayload("ERR-AGENT-001", "completion_set_but_no_result"))
  {
    ReportIff(outcome, mcp, cancelled);
  }

  // ---------------------------------------------------------------------------------------------
  // Cancellation
  // ---------------------------------------------------------------------------------------------

  // The flow's cancel event is set and no request of its is under way.
  ghost predicate CancelledBetweenPolls(s: State, id: string) {
    IsPolling(s, id) && id !in s.inFlight && s.router.cells[id].cancelled
  }

  // Such a flow, and what can become of it.
  ghost predicate Doomed(s: State, id: string) {
    || CancelledBetweenPolls(s, id)
    || (id in s.agent.flows && id in s.router.cells && s.agent.flows[id].phase.Over?
        && (s.router.cells[id].done == Some(CANCELLED) || s.router.cells[id].done == Some(Nothing)))
  }

  // The only step such a flow can take is to give up, and then it says so.
  lemma DoomedFails(s: State, e: Event, cap: nat)
    requires Tied(s) && Enabled(s, e) && e.Fail? && Doomed(s, e.id)
    ensures Doomed(Next(s, e, cap), e.id)
  {
    ReportIff(e.outcome, e.mcp, true);
  }

  lemma DoomedStep(s: State, e: Event, cap: nat, id: string)
    requires Tied(s) && Enabled(s, e) && Doomed(s, id)
    ensures Doomed(Next(s, e, cap), id)
  {
    if e.Fail? && e.id == id { DoomedFails(s, e, cap); }
  }

  lemma {:induction false} StaysDoomed(es: seq<Event>, more: seq<Event>, cap: nat, id: string)
    requires IsRun(es, cap) && Doomed(After(es, cap), id)
    requires IsRun(es + more, cap)
    ensures Doomed(After(es + more, cap), id)
  {
    if more == [] {
      assert es + more == es;
    } else {
      var n := |more| - 1;
      assert (es + more)[..|es + more| - 1] == es + more[..n];
      StaysDoomed(es, more[..n], cap, id);
      ReachableTied(es + more[..n], cap);
      DoomedStep(After(es + more[..n], cap), more[n], cap, id);
    }
  }

  // A flow that is cancelled before its last request never caches a token and never reports a result: in
  // every continuation, a caller that is woken for it is told that it was cancelled, unless the task was
  // torn down without reporting anything.
  lemma CancelledFlowSaysSo(es: seq<Event>, more: seq<Event>, cap: nat, id: string, a: RV.AwaitId)
    requires IsRun(es, cap) && CancelledBetweenPolls(After(es, cap), id)
    requires IsRun(es + more, cap)
    ensures var s := After(es + more, cap);
            && id in s.agent.flows && !s.agent.flows[id].phase.Calling? && !s.agent.flows[id].phase.Stored?
            && (a in s.router.waits && s.router.waits[a].Woken? && s.router.waits[a].id == id ==>
                  s.router.waits[a].report == CANCELLED || s.router.waits[a].report.Nothing?)
  {
    StaysDoomed(es, more, cap, id);
    ReachableTied(es + more, cap);
  }

  // And nobody is told so about a flow whose cancel event was not set.
  lemma ToldCancelledMeansCancelled(es: seq<Event>, cap: nat, a: RV.AwaitId, id: string)
    requires IsRun(es, cap)
    requires var s := After(es, cap); a in s.router.waits && s.router.waits[a] == RV.Woken(id, CANCELLED)
    ensures id in After(es, cap).router.cells && After(es, cap).router.cells[id].cancelled
  {
    ReachableTied(es, cap);
  }

  // ---------------------------------------------------------------------------------------------
  // Revocation
  // ---------------------------------------------------------------------------------------------

  // What the awaiting caller is told is enough to revoke: if the last event acknowledged for the reported
  // jti carried the reported expiry and was not crowded out, then in no interleaving is a token with that
  // jti served again.
  lemma ReportedTokenCanBeRevoked(es: seq<Event>, cap: nat, a: RV.AwaitId, id: string, p: ResultPayload,
                                  key: Key, now: Time)
    requires cap >= 1 && IsRun(es, cap) && Told(After(es, cap), a, id, p) && p.tokenJti != ""
    requires var h := RS.DenyHistory(AgentRun(es));
             && LastAdd(h, p.tokenJti) >= 0 && h[LastAdd(h, p.tokenJti)].exp == p.tokenExp as real
             && |AddedAfter(h, LastAdd(h, p.tokenJti))| < cap
    requires now >= After(es, cap).agent.clock
    ensures var served := RS.ServedIn(After(es, cap).agent, key, now);
            served.Some? ==> served.value.token.jti != p.tokenJti
  {
    var s := After(es, cap).agent;
    ReachableTied(es, cap);
    AgentRunIsRun(es, cap);
    var served := RS.ServedIn(s, key, now);
    if served.Some? && served.value.token.jti == p.tokenJti {
      SameJtiSameToken(s, key, id);
      RS.HonestCascadeSuffices(RS.DenyHistory(AgentRun(es)), cap, served.value.token);
      RS.RevokedTokenNeverServed(AgentRun(es), cap, key, now);
    }
  }

  lemma SameJtiSameToken(s: RS.State, key: Key, id: string)
    requires RS.Inv(s) && key in s.caches.tokens
    requires id in s.flows && s.flows[id].phase.Stored?
    requires s.caches.tokens[key].token.jti == s.flows[id].phase.token.jti != ""
    ensures s.caches.tokens[key].token == s.flows[id].phase.token
  {
    var src :| RS.StoredBy(s, src, key, s.caches.tokens[key].token);
    assert RS.JtiOf(s.flows[src].phase) == RS.JtiOf(s.flows[id].phase);
  }
}
