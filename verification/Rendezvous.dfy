// common/a2a/server.py: the two-phase rendezvous of message/send, await and cancel over the shared
// pending map.
//
// An await is two atomic steps: the lookup, and the wake-up or timeout. The same event loop runs them,
// so any other step may come between. auth_req_ids are unique, so an id is registered at most once.

module Rendezvous {
  import opened Common
  import opened Pending

  type FlowId = string
  type AwaitId = nat

  datatype Cell = Cell(done: Option<Report>, cancelled: bool)

  datatype Wait =
    | Waiting(id: FlowId)
    | NotFound(id: FlowId)
    | TimedOut(id: FlowId)
    | Woken(id: FlowId, report: Report)

  // cells outlive their map entry: an await that looked one up keeps hold of it.
  datatype State = State(cells: map<FlowId, Cell>, pending: set<FlowId>, waits: map<AwaitId, Wait>)

  datatype Event =
    | Register(id: FlowId)
    | Complete(id: FlowId, report: Report)
    | Await(a: AwaitId, id: FlowId)
    | Wake(a: AwaitId)
    | Expire(a: AwaitId)
    | Cancel(id: FlowId)

  ghost predicate Enabled(s: State, e: Event) {
    match e
    case Register(id) => id !in s.cells
    case Complete(id, _) => id in s.cells && s.cells[id].done == None
    case Await(a, _) => a !in s.waits
    case Wake(a) => a in s.waits && s.waits[a].Waiting? && s.waits[a].id in s.cells && s.cells[s.waits[a].id].done.Some?
    case Expire(a) => a in s.waits && s.waits[a].Waiting?
    case Cancel(_) => true
  }

  ghost function Next(s: State, e: Event): State
    requires Enabled(s, e)
  {
    match e
    case Register(id) => s.(cells := s.cells[id := Cell(None, false)], pending := s.pending + {id})
    case Complete(id, report) => s.(cells := s.cells[id := s.cells[id].(done := Some(report))])
    case Await(a, id) => s.(waits := s.waits[a := if id in s.pending then Waiting(id) else NotFound(id)])
    case Wake(a) =>
      var id := s.waits[a].id;
      s.(pending := s.pending - {id}, waits := s.waits[a := Woken(id, s.cells[id].done.value)])
    case Expire(a) =>
      var id := s.waits[a].id;
      s.(pending := s.pending - {id}, waits := s.waits[a := TimedOut(id)])
    case Cancel(id) =>
      if id in s.pending && id in s.cells then s.(cells := s.cells[id := s.cells[id].(cancelled := true)]) else s
  }

  // Whether a cancel for id finds a flow.
  predicate CancelFinds(s: State, id: FlowId) {
    id in s.pending
  }

  ghost predicate IsRun(s: State, es: seq<Event>)
    decreases |es|
  {
    es == [] || (Enabled(s, es[0]) && IsRun(Next(s, es[0]), es[1..]))
  }

  ghost function Exec(s: State, es: seq<Event>): State
    requires IsRun(s, es)
    decreases |es|
  {
    if es == [] then s else Exec(Next(s, es[0]), es[1..])
  }

  const EMPTY: State := State(map[], {}, map[])

  // Some await has taken id away.
  ghost predicate Consumed(s: State, id: FlowId) {
    exists a :: a in s.waits && s.waits[a].id == id && (s.waits[a].TimedOut? || s.waits[a].Woken?)
  }

  ghost predicate Inv(s: State) {
    && s.pending <= s.cells.Keys
    && (forall a :: a in s.waits && !s.waits[a].NotFound? ==> s.waits[a].id in s.cells)
    && (forall a :: a in s.waits && s.waits[a].Woken? ==> s.cells[s.waits[a].id].done == Some(s.waits[a].report))
    && (forall id :: id in s.cells ==> (id in s.pending <==> !Consumed(s, id)))
  }

  lemma ConsumedStays(s: State, e: Event, id: FlowId)
    requires Inv(s) && Enabled(s, e)
    ensures Consumed(s, id) ==> Consumed(Next(s, e), id)
    ensures Consumed(Next(s, e), id) <==> Consumed(s, id) || ((e.Wake? || e.Expire?) && s.waits[e.a].id == id)
  {
    var n := Next(s, e);
    if Consumed(s, id) {
      var a :| a in s.waits && s.waits[a].id == id && (s.waits[a].TimedOut? || s.waits[a].Woken?);
      assert a in n.waits && n.waits[a] == s.waits[a];
    }
    if (e.Wake? || e.Expire?) && s.waits[e.a].id == id {
      assert e.a in n.waits && n.waits[e.a].id == id;
    }
  }

  lemma InvStep(s: State, e: Event)
    requires Inv(s) && Enabled(s, e)
    ensures Inv(Next(s, e))
  {
    var n := Next(s, e);
    forall id | id in n.cells ensures id in n.pending <==> !Consumed(n, id) {
      ConsumedStays(s, e, id);
    }
  }

  lemma {:induction false} RunKeepsInv(s: State, es: seq<Event>)
    requires Inv(s) && IsRun(s, es)
    ensures Inv(Exec(s, es))
    decreases |es|
  {
    if es != [] {
      InvStep(s, es[0]);
      RunKeepsInv(Next(s, es[0]), es[1..]);
    }
  }

  // An outcome, once written, never changes.
  lemma {:induction false} OutcomesAreFinal(s: State, es: seq<Event>, id: FlowId)
    requires IsRun(s, es) && id in s.cells && s.cells[id].done.Some?
    ensures id in Exec(s, es).cells && Exec(s, es).cells[id].done == s.cells[id].done
    decreases |es|
  {
    if es != [] { OutcomesAreFinal(Next(s, es[0]), es[1..], id); }
  }

  // ---------------------------------------------------------------------------------------------
  // Main results
  // ---------------------------------------------------------------------------------------------

  // For every schedule: an await that is woken returns the outcome its own flow's task wrote, so two
  // awaits woken for one flow return the same; and a flow has left the map exactly when an await took it.
  lemma AwaitsReturnTheirOwnOutcome(es: seq<Event>)
    requires IsRun(EMPTY, es)
    ensures var s := Exec(EMPTY, es);
            && (forall a :: a in s.waits && s.waits[a].Woken? ==>
                  s.waits[a].id in s.cells && s.cells[s.waits[a].id].done == Some(s.waits[a].report))
            && (forall a, b :: a in s.waits && b in s.waits && s.waits[a].Woken? && s.waits[b].Woken? ==>
                  s.waits[a].id == s.waits[b].id ==> s.waits[a].report == s.waits[b].report)
            && (forall id :: id in s.cells ==> (id in s.pending <==> !Consumed(s, id)))
  {
    RunKeepsInv(EMPTY, es);
  }

  lemma {:induction false} RunSplits(s: State, es: seq<Event>, more: seq<Event>)
    requires IsRun(s, es + more)
    ensures IsRun(s, es) && IsRun(Exec(s, es), more) && Exec(s, es + more) == Exec(Exec(s, es), more)
    decreases |es|
  {
    if es == [] {
      assert es + more == more;
    } else {
      assert (es + more)[0] == es[0] && (es + more)[1..] == es[1..] + more;
      RunSplits(Next(s, es[0]), es[1..], more);
    }
  }

  lemma {:induction false} StaysConsumed(s: State, es: seq<Event>, id: FlowId)
    requires Inv(s) && IsRun(s, es) && id in s.cells && Consumed(s, id)
    ensures id !in Exec(s, es).pending
    decreases |es|
  {
    if es != [] {
      InvStep(s, es[0]);
      ConsumedStays(s, es[0], id);
      StaysConsumed(Next(s, es[0]), es[1..], id);
    }
  }

  // Once an await has consumed a flow, every await or cancel that looks it up later in the run gets
  // not-found.
  lemma ConsumedMeansNotFound(es: seq<Event>, more: seq<Event>, id: FlowId, a: AwaitId)
    requires IsRun(EMPTY, es) && Consumed(Exec(EMPTY, es), id)
    requires IsRun(EMPTY, es + more) && Enabled(Exec(EMPTY, es + more), Await(a, id))
    ensures var s := Exec(EMPTY, es + more);
            Next(s, Await(a, id)).waits[a] == NotFound(id) && !CancelFinds(s, id) && Next(s, Cancel(id)) == s
  {
    RunSplits(EMPTY, es, more);
    RunKeepsInv(EMPTY, es);
    StaysConsumed(Exec(EMPTY, es), more, id);
  }

  // An await finds a flow, and a cancel signals it, exactly if it was registered and no await has consumed it;
  // neither changes anything else.
  lemma FoundUntilConsumed(es: seq<Event>, id: FlowId, a: AwaitId)
    requires IsRun(EMPTY, es) && Enabled(Exec(EMPTY, es), Await(a, id))
    ensures var s := Exec(EMPTY, es);
            var found := id in s.cells && !Consumed(s, id);
            && Next(s, Await(a, id)) == s.(waits := s.waits[a := if found then Waiting(id) else NotFound(id)])
            && (CancelFinds(s, id) <==> found)
            && (if found then Next(s, Cancel(id)) == s.(cells := s.cells[id := Cell(s.cells[id].done, true)])
                else Next(s, Cancel(id)) == s)
  {
    RunKeepsInv(EMPTY, es);
  }

  // Only an await's own wake-up or timeout removes a flow; in particular no number of cancels does.
  lemma OnlyAwaitsRemove(s: State, e: Event, id: FlowId)
    requires Inv(s) && Enabled(s, e) && id in s.pending
    ensures id !in Next(s, e).pending <==> (e.Wake? || e.Expire?) && s.waits[e.a].id == id
  {
  }

  // ---------------------------------------------------------------------------------------------
  // The router
  // ---------------------------------------------------------------------------------------------

  // The payload of an await's reply. Nothing is the defensive fallback.
  function PayloadOf(report: Report): Report {
    if report.Nothing? then Error(ErrorPayload("ERR-AGENT-001", "completion_set_but_no_result")) else report
  }

  // What is sent is the report unchanged; the fallback stands for a report that is missing, and only for one.
  lemma PayloadIff(report: Report)
    ensures !report.Nothing? ==> PayloadOf(report) == report
    ensures report.Nothing? ==>
              PayloadOf(report) == Error(ErrorPayload("ERR-AGENT-001", "completion_set_but_no_result"))
  {
  }

  class A2ARouter {
    var pending: map<FlowId, PendingState>

    ghost predicate Valid()
      reads this
    {
      forall id :: id in pending ==> pending[id].authReqId == id
    }

    constructor ()
      ensures Valid() && pending == map[]
    {
      pending := map[];
    }

    method PendingRegister(state: PendingState)
      requires Valid()
      modifies this
      ensures Valid() && pending == old(pending)[state.authReqId := state]
    {
      pending := pending[state.authReqId := state];
    }

    // /a2a/await up to the wait: null is the not-found reply.
    method AwaitLookup(id: FlowId) returns (state: PendingState?)
      requires Valid()
      ensures state != null <==> id in pending
      ensures state != null ==> state == pending[id] && state.authReqId == id
    {
      state := if id in pending then pending[id] else null;
    }

    // /a2a/await once completion is set, on the cell the lookup returned.
    method AwaitWoken(id: FlowId, state: PendingState) returns (reply: Report)
      requires Valid() && state.completion
      modifies this
      ensures Valid() && pending == old(pending) - {id}
      ensures reply == PayloadOf(state.Reported())
      // a written result is the reply, else a written error, and the fallback only if neither was written
      ensures state.result.Some? ==> reply == Result(state.result.value)
      ensures state.result.None? && state.error.Some? ==> reply == Error(state.error.value)
      ensures state.result.None? && state.error.None? ==>
                reply == Error(ErrorPayload("ERR-AGENT-001", "completion_set_but_no_result"))
    {
      pending := pending - {id};
      if state.result != None {
        return Result(state.result.value);
      }
      if state.error != None {
        return Error(state.error.value);
      }
      return Error(ErrorPayload("ERR-AGENT-001", "completion_set_but_no_result"));
    }

    // /a2a/await after await_max_wait_seconds.
    method AwaitExpired(id: FlowId) returns (reply: Report)
      requires Valid()
      modifies this
      ensures Valid() && pending == old(pending) - {id}
      ensures reply == Error(ErrorPayload("ERR-CIBA-010", "server_await_timeout"))
    {
      pending := pending - {id};
      return Error(ErrorPayload("ERR-CIBA-010", "server_await_timeout"));
    }

    // /a2a/cancel: signals the flow and leaves it in the map.
    method Cancel(id: FlowId) returns (found: bool)
      requires Valid()
      modifies (if id in pending then {pending[id]} else {})`cancelEvent
      ensures Valid() && pending == old(pending)
      ensures found <==> id in pending
      ensures found ==> pending[id].cancelEvent
      ensures forall other :: other in pending && (!found || pending[other] != pending[id]) ==>
                pending[other].cancelEvent == old(pending[other].cancelEvent)
    {
      if id !in pending {
        return false;
      }
      pending[id].cancelEvent := true;
      return true;
    }
  }
}
