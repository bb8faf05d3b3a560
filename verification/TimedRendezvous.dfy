// The rendezvous of common/a2a/server.py in time: background tasks that take as long as the polling loop of
// common/auth/ciba_client.py makes them, and awaits that expire after await_max_wait_seconds.
//
// Scheduling is prompt, as sleeps are exact: a task completes when it is due, and an await whose flow is
// complete is woken before time moves on.

module TimedRendezvous {
  import opened Common
  import CP = CibaPoll
  import Pending
  import RV = Rendezvous

  // How the task of a flow goes: what its polling loop meets, where that ends, and the MCP call.
  datatype Plan = Plan(env: CP.Env, i0: int, last: nat, mcp: Time)

  datatype Event =
    | Begin(id: RV.FlowId, plan: Plan)
    | Finish(id: RV.FlowId, report: Pending.Report)
    | Await(a: RV.AwaitId, id: RV.FlowId)
    | Wake(a: RV.AwaitId)
    | Expire(a: RV.AwaitId)
    | Cancel(id: RV.FlowId)

  datatype Timed = Timed(at: Time, event: Event)

  // due is when a flow's task completes, since when an await began.
  datatype State = State(clock: Time, router: RV.State, due: map<RV.FlowId, Time>, since: map<RV.AwaitId, Time>)

  const INITIAL: State := State(0.0, RV.EMPTY, map[], map[])

  function RouterEvent(e: Event): RV.Event {
    match e
    case Begin(id, _) => RV.Register(id)
    case Finish(id, report) => RV.Complete(id, report)
    case Await(a, id) => RV.Await(a, id)
    case Wake(a) => RV.Wake(a)
    case Expire(a) => RV.Expire(a)
    case Cancel(id) => RV.Cancel(id)
  }

  // When a task that starts now completes.
  ghost function Due(plan: Plan, now: Time): Time {
    CP.EndTime(plan.env, now, CP.AGENT_BUDGET, plan.i0, plan.last) + plan.mcp
  }

  ghost predicate IsDone(s: State, id: RV.FlowId) {
    id in s.router.cells && s.router.cells[id].done.Some?
  }

  ghost predicate IsWaiting(s: State, a: RV.AwaitId) {
    a in s.router.waits && s.router.waits[a].Waiting?
  }

  // Nothing has to happen before time moves on to now.
  ghost predicate CanPass(s: State, now: Time) {
    && (forall id :: id in s.due && !IsDone(s, id) ==> now <= s.due[id])
    && (forall a :: IsWaiting(s, a) ==> !IsDone(s, s.router.waits[a].id))
  }

  ghost predicate Enabled(s: State, e: Timed) {
    && e.at >= s.clock && (e.at > s.clock ==> CanPass(s, e.at))
    && RV.Enabled(s.router, RouterEvent(e.event))
    && match e.event
       case Begin(_, plan) => CP.Awaited(plan.env, e.at, plan.i0, plan.last, plan.mcp, e.at)
       case Finish(id, _) => id in s.due && e.at == s.due[id]
       case Expire(a) => a in s.since && e.at >= s.since[a] + CP.AWAIT_LIMIT
       case _ => true
  }

  ghost function Next(s: State, e: Timed): State
    requires Enabled(s, e)
  {
    State(e.at, RV.Next(s.router, RouterEvent(e.event)),
          if e.event.Begin? then s.due[e.event.id := Due(e.event.plan, e.at)] else s.due,
          if e.event.Await? then s.since[e.event.a := e.at] else s.since)
  }

  ghost predicate IsRun(s: State, es: seq<Timed>)
    decreases |es|
  {
    es == [] || (Enabled(s, es[0]) && IsRun(Next(s, es[0]), es[1..]))
  }

  // ---------------------------------------------------------------------------------------------
  // No await expires ...
  // ---------------------------------------------------------------------------------------------

  // Every task is due within the limit of an await, and none overdue.
  ghost predicate DueSoon(s: State) {
    && s.due.Keys == s.router.cells.Keys
    && (forall id :: id in s.due ==> s.due[id] < s.clock + CP.AWAIT_LIMIT)
    && (forall id :: id in s.due && !IsDone(s, id) ==> s.clock <= s.due[id])
  }

  // Every waiting await is younger than its limit, and its flow is due before the limit.
  ghost predicate AwaitsYoung(s: State) {
    && s.since.Keys == s.router.waits.Keys
    && forall a :: IsWaiting(s, a) ==>
         && s.router.waits[a].id in s.due
         && s.clock < s.since[a] + CP.AWAIT_LIMIT
         && s.due[s.router.waits[a].id] < s.since[a] + CP.AWAIT_LIMIT
  }

  ghost predicate Inv(s: State) {
    RV.Inv(s.router) && DueSoon(s) && AwaitsYoung(s)
  }

  // The task of a new flow is not due before now, and before an await that starts now would expire.
  lemma DueInTime(plan: Plan, now: Time)
    requires CP.Awaited(plan.env, now, plan.i0, plan.last, plan.mcp, now) && CP.OutlastedInterval(plan.i0)
    ensures now <= Due(plan, now) < now + CP.AWAIT_LIMIT
  {
    CP.AwaitIsLongEnough(plan.env, now, plan.i0, plan.last, plan.mcp, now);
    CP.StartsInOrder(plan.env, now, plan.i0, 0, plan.last);
  }

  // Time cannot pass an await's limit: its flow is due before, and once that is complete it is woken.
  lemma StaysYoung(s: State, e: Timed, a: RV.AwaitId)
    requires Inv(s) && Enabled(s, e) && IsWaiting(s, a)
    ensures e.at < s.since[a] + CP.AWAIT_LIMIT
  {
    var id := s.router.waits[a].id;
    if e.at > s.clock {
      assert !IsDone(s, id);
      assert e.at <= s.due[id];
    }
  }

  lemma NotExpired(s: State, e: Timed)
    requires Inv(s) && Enabled(s, e)
    ensures !e.event.Expire?
  {
    if e.event.Expire? { StaysYoung(s, e, e.event.a); }
  }

  ghost predicate SafePlan(e: Timed) {
    e.event.Begin? ==> CP.OutlastedInterval(e.event.plan.i0)
  }

  // What a step leaves of the flows and awaits there were.
  ghost predicate FlowsKept(s: State, n: State) {
    forall id :: IsDone(s, id) ==> IsDone(n, id)
  }

  lemma FlowsAfter(s: State, e: Timed)
    requires Enabled(s, e)
    ensures var n, added := Next(s, e), if e.event.Begin? then {e.event.id} else {};
            n.router.cells.Keys == s.router.cells.Keys + added && n.due.Keys == s.due.Keys + added && FlowsKept(s, n)
  {
  }

  ghost predicate AwaitsKept(s: State, n: State, e: Timed) {
    forall a :: IsWaiting(n, a) ==>
      || (IsWaiting(s, a) && n.router.waits[a] == s.router.waits[a])
      || (e.event.Await? && e.event.a == a && e.event.id in s.router.pending
          && n.router.waits[a] == RV.Waiting(e.event.id))
  }

  lemma AwaitsAfter(s: State, e: Timed)
    requires Enabled(s, e)
    ensures var n, added := Next(s, e), if e.event.Await? then {e.event.a} else {};
            && n.router.waits.Keys == s.router.waits.Keys + added && n.since.Keys == s.since.Keys + added
            && AwaitsKept(s, n, e)
  {
  }

  lemma DueKept(s: State, n: State, e: Timed)
    requires DueSoon(s) && FlowsKept(s, n) && n.clock == e.at >= s.clock
    requires e.at > s.clock ==> CanPass(s, e.at)
    requires n.due.Keys == n.router.cells.Keys
    requires forall id :: id in n.due ==>
               (id in s.due && n.due[id] == s.due[id]) || e.at <= n.due[id] < e.at + CP.AWAIT_LIMIT
    ensures DueSoon(n)
  {
  }

  lemma DueStep(s: State, e: Timed)
    requires Inv(s) && Enabled(s, e) && SafePlan(e)
    ensures DueSoon(Next(s, e))
  {
    if e.event.Begin? { DueInTime(e.event.plan, e.at); }
    FlowsAfter(s, e);
    DueKept(s, Next(s, e), e);
  }

  lemma AwaitsStep(s: State, e: Timed)
    requires Inv(s) && Enabled(s, e)
    ensures AwaitsYoung(Next(s, e))
  {
    var n := Next(s, e);
    AwaitsAfter(s, e);
    forall a | IsWaiting(n, a)
      ensures n.router.waits[a].id in n.due
      ensures n.clock < n.since[a] + CP.AWAIT_LIMIT
      ensures n.due[n.router.waits[a].id] < n.since[a] + CP.AWAIT_LIMIT
    {
      if IsWaiting(s, a) { StaysYoung(s, e, a); }
    }
  }

  lemma InvStep(s: State, e: Timed)
    requires Inv(s) && Enabled(s, e) && SafePlan(e)
    ensures Inv(Next(s, e))
  {
    RV.InvStep(s.router, RouterEvent(e.event));
    DueStep(s, e);
    AwaitsStep(s, e);
  }

  ghost predicate AllSafe(es: seq<Timed>) {
    forall i :: 0 <= i < |es| ==> SafePlan(es[i])
  }

  ghost predicate SomeAwaitExpires(es: seq<Timed>) {
    exists i :: 0 <= i < |es| && es[i].event.Expire?
  }

  lemma {:induction false} NoneExpires(s: State, es: seq<Timed>)
    requires Inv(s) && IsRun(s, es) && AllSafe(es)
    ensures !SomeAwaitExpires(es)
    decreases |es|
  {
    if es != [] {
      assert SafePlan(es[0]);
      NotExpired(s, es[0]);
      InvStep(s, es[0]);
      assert forall i :: 0 <= i < |es[1..]| ==> es[1..][i] == es[i + 1];
      NoneExpires(Next(s, es[0]), es[1..]);
      assert forall i :: 0 < i < |es| ==> es[i] == es[1..][i - 1];
    }
  }

  // ---------------------------------------------------------------------------------------------
  // ... exactly for the first intervals that an await outlasts
  // ---------------------------------------------------------------------------------------------

  ghost predicate OnlyInterval(es: seq<Timed>, i0: int) {
    forall i :: 0 <= i < |es| && es[i].event.Begin? ==> es[i].event.plan.i0 == i0
  }

  // One flow begun at time zero, and an await on it.
  ghost function Begun(due: Time): State {
    State(0.0, RV.State(map["flow" := RV.Cell(None, false)], {"flow"}, map[]), map["flow" := due], map[])
  }

  ghost function Awaiting(due: Time, start: Time): State {
    State(start, RV.State(map["flow" := RV.Cell(None, false)], {"flow"}, map[0 := RV.Waiting("flow")]),
          map["flow" := due], map[0 := start])
  }

  lemma BeginStep(plan: Plan)
    requires CP.Awaited(plan.env, 0.0, plan.i0, plan.last, plan.mcp, 0.0)
    ensures Enabled(INITIAL, Timed(0.0, Begin("flow", plan)))
    ensures Next(INITIAL, Timed(0.0, Begin("flow", plan))) == Begun(Due(plan, 0.0))
  {
  }

  lemma AwaitStep(due: Time, start: Time)
    requires 0.0 <= start <= due
    ensures Enabled(Begun(due), Timed(start, Await(0, "flow")))
    ensures Next(Begun(due), Timed(start, Await(0, "flow"))) == Awaiting(due, start)
  {
  }

  lemma ExpireStep(due: Time, start: Time)
    requires start + CP.AWAIT_LIMIT <= due
    ensures Enabled(Awaiting(due, start), Timed(start + CP.AWAIT_LIMIT, Expire(0)))
  {
  }

  // A flow, an await and its expiry.
  lemma ExpiringRun(i0: int) returns (es: seq<Timed>)
    requires !CP.AwaitOutlastsPoll(0.0, i0)
    ensures IsRun(INITIAL, es) && OnlyInterval(es, i0) && SomeAwaitExpires(es)
  {
    var env, last, mcp, start :| CP.Awaited(env, 0.0, i0, last, mcp, start)
      && CP.EndTime(env, 0.0, CP.AGENT_BUDGET, i0, last) + mcp >= start + CP.AWAIT_LIMIT;
    var plan := Plan(env, i0, last, mcp);
    var e0, e1 := Timed(0.0, Begin("flow", plan)), Timed(start, Await(0, "flow"));
    var e2 := Timed(start + CP.AWAIT_LIMIT, Expire(0));
    BeginStep(plan);
    AwaitStep(Due(plan, 0.0), start);
    ExpireStep(Due(plan, 0.0), start);
    ThreeSteps(INITIAL, e0, e1, e2);
    es := [e0] + ([e1] + [e2]);
    assert es[0] == e0 && es[1] == e1 && es[2] == e2;
  }

  lemma ThreeSteps(s: State, e0: Timed, e1: Timed, e2: Timed)
    requires Enabled(s, e0) && Enabled(Next(s, e0), e1) && Enabled(Next(Next(s, e0), e1), e2)
    ensures IsRun(s, [e0] + ([e1] + [e2]))
  {
    OneStep(Next(Next(s, e0), e1), e2, []);
    assert [e2] + [] == [e2];
    OneStep(Next(s, e0), e1, [e2]);
    OneStep(s, e0, [e1] + [e2]);
  }

  lemma OneStep(s: State, e: Timed, more: seq<Timed>)
    requires Enabled(s, e) && IsRun(Next(s, e), more)
    ensures IsRun(s, [e] + more)
  {
    assert ([e] + more)[1..] == more;
  }

  // In every schedule of flows with first interval i0, of awaits started at any time and of cancels, no await
  // ever expires, if and only if i0 is one of the intervals an await outlasts.
  lemma AwaitsNeverExpireIff(i0: int)
    ensures CP.OutlastedInterval(i0)
       <==> forall es :: IsRun(INITIAL, es) && OnlyInterval(es, i0) ==> !SomeAwaitExpires(es)
  {
    CP.AwaitOutlastsPollIff(0.0, i0);
    if CP.OutlastedInterval(i0) {
      forall es | IsRun(INITIAL, es) && OnlyInterval(es, i0) ensures !SomeAwaitExpires(es) {
        NoneExpires(INITIAL, es);
      }
    } else {
      var es := ExpiringRun(i0);
    }
  }
}
