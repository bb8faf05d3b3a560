// common/auth/ciba_client.py, CIBAClient.poll_for_token: the CIBA polling loop (sections 7.3, 10.1 and 11
// of OpenID CIBA Core 1.0), with common/auth/models.py, OAuthToken.from_response.
//
// The environment is a function giving, for every iteration, whether the cancel event is set at its
// head, what the token endpoint replies, how long the request takes and by how much the sleep overshoots.

module CibaPoll {
  import opened Common

  // jti is what an unverified decode of the access token yields, "" when it yields nothing.
  datatype OAuthToken = OAuthToken(accessToken: string, jti: string, expiresIn: int, expiresAt: Time)

  datatype Reply =
    | NetworkError                   // httpx.NetworkError, the one failure that is retried
    | Raised                         // any other Exception raised by the request
    | Aborted                        // a BaseException: the task itself is being cancelled
    | Body(accessToken: string, jti: string, error: string, expiresIn: Option<int>)

  datatype Round = Round(cancelled: bool, reply: Reply, latency: Time, oversleep: Time)

  type Env = nat -> Round

  datatype Outcome =
    | Issued(token: OAuthToken)
    | Denied                         // CIBADeniedError
    | Expired                        // CIBAExpiredError
    | TimedOut                       // CIBATimeoutError, budget spent
    | Cancelled                      // CIBATimeoutError, cancel event seen
    | PollError(error: string)       // CIBAPollError
    | OtherError                     // any other Exception
    | Killed                         // BaseException

  datatype Step = Retry | SlowDown | Stop(outcome: Outcome)

  // A body without expires_in makes the token constructor raise.
  function FromResponse(body: Reply, now: Time): Outcome
    requires body.Body?
  {
    match body.expiresIn
    case None => OtherError
    case Some(s) => Issued(OAuthToken(body.accessToken, body.jti, s, now + s as real))
  }

  // What one reply, received at now, means for the loop. An access token outranks an error code.
  function Classify(reply: Reply, now: Time): Step {
    match reply
    case NetworkError => Retry
    case Raised => Stop(OtherError)
    case Aborted => Stop(Killed)
    case Body(accessToken, _, error, _) =>
      if accessToken != "" then Stop(FromResponse(reply, now))
      else if error == "authorization_pending" then Retry
      else if error == "slow_down" then SlowDown
      else if error == "expired_token" then Stop(Expired)
      else if error == "access_denied" then Stop(Denied)
      else Stop(PollError(error))
  }

  // asyncio.sleep returns at once for a delay that is not positive.
  function Slept(interval: int): Time {
    if interval > 0 then interval as real else 0.0
  }

  ghost predicate Fair(env: Env) {
    forall k: nat :: env(k).latency >= 0.0 && env(k).oversleep >= 0.0
  }

  ghost predicate TakesAtLeast(env: Env, eps: Time) {
    eps > 0.0 && forall k: nat :: env(k).latency >= eps
  }

  // No request is answered in less than some positive time, however short.
  ghost predicate RequestsTakeTime(env: Env) {
    exists eps :: TakesAtLeast(env, eps)
  }

  // ---------------------------------------------------------------------------------------------
  // The timetable: when iteration k begins, as long as nothing stopped the loop earlier
  // ---------------------------------------------------------------------------------------------

  predicate IsSlowDown(reply: Reply) {
    reply.Body? && reply.accessToken == "" && reply.error == "slow_down"
  }

  // slow_down replies among the first k.
  function SlowDowns(env: Env, k: nat): nat {
    if k == 0 then 0 else SlowDowns(env, k - 1) + (if IsSlowDown(env(k - 1).reply) then 1 else 0)
  }

  function Interval(env: Env, i0: int, k: nat): int {
    i0 + 5 * SlowDowns(env, k)
  }

  function Start(env: Env, t0: Time, i0: int, k: nat): Time {
    if k == 0 then t0
    else Start(env, t0, i0, k - 1) + env(k - 1).latency + Slept(Interval(env, i0, k)) + env(k - 1).oversleep
  }

  // The times of the first n requests.
  function Timetable(env: Env, t0: Time, i0: int, n: nat): seq<Time> {
    if n == 0 then [] else Timetable(env, t0, i0, n - 1) + [Start(env, t0, i0, n - 1)]
  }

  lemma {:induction false} TimetableAt(env: Env, t0: Time, i0: int, n: nat, k: nat)
    requires k < n
    ensures |Timetable(env, t0, i0, n)| == n && Timetable(env, t0, i0, n)[k] == Start(env, t0, i0, k)
  {
    if n > 1 { TimetableAt(env, t0, i0, n - 1, if k < n - 1 then k else 0); }
  }

  predicate Decisive(reply: Reply) {
    Classify(reply, 0.0).Stop?
  }

  predicate StopsAt(env: Env, t0: Time, budget: Time, i0: int, k: nat) {
    Start(env, t0, i0, k) >= t0 + budget || env(k).cancelled || Decisive(env(k).reply)
  }

  // The loop ends in iteration k.
  ghost predicate EndsIn(env: Env, t0: Time, budget: Time, i0: int, k: nat) {
    StopsAt(env, t0, budget, i0, k) && forall j: nat :: j < k ==> !StopsAt(env, t0, budget, i0, j)
  }

  // Whether the last iteration sends a request at all.
  predicate Polls(env: Env, t0: Time, budget: Time, i0: int, k: nat) {
    Start(env, t0, i0, k) < t0 + budget && !env(k).cancelled
  }

  // The times at which a loop that ends in iteration last sends its requests.
  function Sent(env: Env, t0: Time, budget: Time, i0: int, last: nat): seq<Time> {
    Timetable(env, t0, i0, if Polls(env, t0, budget, i0, last) then last + 1 else last)
  }

  // The outcome of a loop that ends in iteration k: the deadline first, then the cancel event, then the
  // classification of the first decisive reply.
  function OutcomeOf(env: Env, t0: Time, budget: Time, i0: int, k: nat): Outcome
    requires StopsAt(env, t0, budget, i0, k)
  {
    var start := Start(env, t0, i0, k);
    if start >= t0 + budget then TimedOut
    else if env(k).cancelled then Cancelled
    else
      DecisiveAnyTime(env(k).reply, start + env(k).latency);
      Classify(env(k).reply, start + env(k).latency).outcome
  }

  function EndTime(env: Env, t0: Time, budget: Time, i0: int, k: nat): Time {
    Start(env, t0, i0, k) + (if Polls(env, t0, budget, i0, k) then env(k).latency else 0.0)
  }

  lemma DecisiveAnyTime(reply: Reply, now: Time)
    ensures Decisive(reply) == Classify(reply, now).Stop?
  {
  }

  // ---------------------------------------------------------------------------------------------
  // What the outcome means
  // ---------------------------------------------------------------------------------------------

  // A reply with an access token and a lifetime.
  predicate HasToken(reply: Reply) {
    reply.Body? && reply.accessToken != "" && reply.expiresIn.Some?
  }

  // A reply with this error code and no token.
  predicate HasError(reply: Reply, error: string) {
    reply.Body? && reply.accessToken == "" && reply.error == error
  }

  predicate SaysWait(reply: Reply) {
    reply.NetworkError? || HasError(reply, "authorization_pending") || HasError(reply, "slow_down")
  }

  // A failed request, a token without a lifetime, or an error code there is no case for.
  predicate Unforeseen(reply: Reply) {
    || reply.Raised?
    || (reply.Body? && reply.accessToken != "" && reply.expiresIn.None?)
    || (reply.Body? && reply.accessToken == ""
        && reply.error != "authorization_pending" && reply.error != "slow_down"
        && reply.error != "expired_token" && reply.error != "access_denied")
  }

  lemma ClassifyIff(reply: Reply, now: Time)
    ensures var step := Classify(reply, now);
            && (step.Stop? <==> !SaysWait(reply))
            && (step.SlowDown? <==> HasError(reply, "slow_down"))
            && (step.Stop? && step.outcome.Issued? <==> HasToken(reply))
            && (HasToken(reply) ==>
                  step.outcome.token == OAuthToken(reply.accessToken, reply.jti, reply.expiresIn.value,
                                                   now + reply.expiresIn.value as real))
            && (step.Stop? && step.outcome.Denied? <==> HasError(reply, "access_denied"))
            && (step.Stop? && step.outcome.Expired? <==> HasError(reply, "expired_token"))
            && (step.Stop? && (step.outcome.PollError? || step.outcome.OtherError?) <==> Unforeseen(reply))
            && (step.Stop? && step.outcome.Killed? <==> reply.Aborted?)
            && (step.Stop? ==> !step.outcome.TimedOut? && !step.outcome.Cancelled?)
  {
  }

  // The outcome of a loop that ends in iteration last, each with exactly the condition for it: what the
  // first decisive reply says, unless the deadline or the cancel event came before its request.
  lemma OutcomeIff(env: Env, t0: Time, budget: Time, i0: int, last: nat)
    requires EndsIn(env, t0, budget, i0, last)
    ensures var outcome, reply := OutcomeOf(env, t0, budget, i0, last), env(last).reply;
            var polls := Polls(env, t0, budget, i0, last);
            && (outcome.Issued? <==> polls && HasToken(reply))
            && (outcome.Issued? ==>
                  var received := Start(env, t0, i0, last) + env(last).latency;
                  outcome.token == OAuthToken(reply.accessToken, reply.jti, reply.expiresIn.value,
                                              received + reply.expiresIn.value as real))
            && (outcome.Denied? <==> polls && HasError(reply, "access_denied"))
            && (outcome.Expired? <==> polls && HasError(reply, "expired_token"))
            && (outcome.PollError? || outcome.OtherError? <==> polls && Unforeseen(reply))
            && (outcome.Killed? <==> polls && reply.Aborted?)
            && (outcome.TimedOut? <==> Start(env, t0, i0, last) >= t0 + budget)
            && (outcome.Cancelled? <==> Start(env, t0, i0, last) < t0 + budget && env(last).cancelled)
  {
    ClassifyIff(env(last).reply, Start(env, t0, i0, last) + env(last).latency);
  }

  // Every iteration before the last began in time, was not cancelled and was told to wait.
  lemma EarlierRepliesSayWait(env: Env, t0: Time, budget: Time, i0: int, last: nat, k: nat)
    requires EndsIn(env, t0, budget, i0, last) && k < last
    ensures Polls(env, t0, budget, i0, k) && SaysWait(env(k).reply)
  {
    assert !StopsAt(env, t0, budget, i0, k);
    ClassifyIff(env(k).reply, 0.0);
  }

  // ---------------------------------------------------------------------------------------------
  // The loop
  // ---------------------------------------------------------------------------------------------

  // The loop is at the head of iteration k, with these values of its variables.
  ghost predicate AtHead(env: Env, t0: Time, budget: Time, i0: int, k: nat, interval: int, clock: Time,
                         starts: seq<Time>)
  {
    && interval == Interval(env, i0, k)
    && clock == Start(env, t0, i0, k)
    && starts == Timetable(env, t0, i0, k)
    && forall j: nat :: j < k ==> !StopsAt(env, t0, budget, i0, j)
  }

  // From there it sends a request, and stops on a decisive reply ...
  lemma StopsOnReply(env: Env, t0: Time, budget: Time, i0: int, k: nat, interval: int, clock: Time,
                     starts: seq<Time>)
    requires AtHead(env, t0, budget, i0, k, interval, clock, starts)
    requires clock < t0 + budget && !env(k).cancelled
    requires Classify(env(k).reply, clock + env(k).latency).Stop?
    ensures EndsIn(env, t0, budget, i0, k)
    ensures OutcomeOf(env, t0, budget, i0, k) == Classify(env(k).reply, clock + env(k).latency).outcome
    ensures EndTime(env, t0, budget, i0, k) == clock + env(k).latency
    ensures Sent(env, t0, budget, i0, k) == starts + [clock]
  {
    DecisiveAnyTime(env(k).reply, clock + env(k).latency);
  }

  // ... or sleeps and gets to the next head.
  lemma GoesOn(env: Env, t0: Time, budget: Time, i0: int, k: nat, interval: int, clock: Time,
               starts: seq<Time>, next: int)
    requires AtHead(env, t0, budget, i0, k, interval, clock, starts)
    requires clock < t0 + budget && !env(k).cancelled
    requires var step := Classify(env(k).reply, clock + env(k).latency);
             !step.Stop? && next == interval + if step.SlowDown? then 5 else 0
    ensures AtHead(env, t0, budget, i0, k + 1, next, clock + env(k).latency + Slept(next) + env(k).oversleep,
                   starts + [clock])
  {
    DecisiveAnyTime(env(k).reply, clock + env(k).latency);
  }

  // Something makes every round take time: the first interval, or the requests themselves.
  ghost predicate TimePasses(env: Env, i0: int) {
    Fair(env) && (i0 >= 1 || RequestsTakeTime(env))
  }

  // A time every round takes at least.
  ghost predicate Paces(pace: Time, env: Env, i0: int) {
    pace > 0.0 && forall k: nat :: env(k).latency + Slept(Interval(env, i0, k + 1)) >= pace
  }

  ghost function Pace(env: Env, i0: int): (pace: Time)
    requires TimePasses(env, i0)
    ensures Paces(pace, env, i0)
  {
    if i0 >= 1 then 1.0 else var eps :| TakesAtLeast(env, eps); eps
  }

  // k times a span, added up.
  function Times(k: nat, span: Time): Time {
    if k == 0 then 0.0 else Times(k - 1, span) + span
  }

  lemma {:induction false} TimesIsProduct(k: nat, span: Time)
    ensures Times(k, span) == k as real * span
  {
    if k > 0 { TimesIsProduct(k - 1, span); }
  }

  // More rounds than the budget has room for.
  ghost function MostRounds(budget: Time, pace: Time): nat
    requires pace > 0.0
  {
    if budget > 0.0 then (budget / pace).Floor + 1 else 0
  }

  lemma WithinBudget(k: nat, pace: Time, budget: Time)
    requires pace > 0.0 && Times(k, pace) < budget
    ensures k < MostRounds(budget, pace)
  {
    TimesIsProduct(k, pace);
    Quotient(k as real, pace, budget);
  }

  lemma Quotient(x: real, pace: real, budget: real)
    requires pace > 0.0 && 0.0 <= x && x * pace < budget
    ensures budget > 0.0 && x < budget / pace
  {
    assert budget / pace * pace == budget;
    if budget / pace <= x { ScaleMonotone(budget / pace, x, pace); }
  }

  lemma ScaleMonotone(x: real, y: real, span: real)
    requires x <= y && span >= 0.0
    ensures x * span <= y * span
  {
    assert (y - x) * span >= 0.0;
  }

  lemma ScaleStrict(x: real, y: real, span: real)
    requires x < y && span > 0.0
    ensures x * span < y * span
  {
    assert (y - x) * span > 0.0;
  }

  lemma {:induction false} ClockAdvances(env: Env, t0: Time, i0: int, k: nat)
    requires TimePasses(env, i0)
    ensures Start(env, t0, i0, k) >= t0 + Times(k, Pace(env, i0))
  {
    if k > 0 { ClockAdvances(env, t0, i0, k - 1); }
  }

  // Only so many iterations begin before the deadline.
  lemma FewIterations(env: Env, t0: Time, budget: Time, i0: int) returns (most: nat)
    requires TimePasses(env, i0)
    ensures forall k: nat :: Start(env, t0, i0, k) < t0 + budget ==> k < most
  {
    var pace := Pace(env, i0);
    most := MostRounds(budget, pace);
    forall k: nat | Start(env, t0, i0, k) < t0 + budget ensures k < most {
      ClockAdvances(env, t0, i0, k);
      WithinBudget(k, pace, budget);
    }
  }

  // Returns the outcome, the times at which requests were sent, the time of return and the cancel event
  // as it then stands; last is the iteration the loop ends in.
  method PollForToken(env: Env, t0: Time, budget: Time, i0: int)
    returns (outcome: Outcome, starts: seq<Time>, end: Time, cancelled: bool, last: nat)
    requires TimePasses(env, i0)
    ensures EndsIn(env, t0, budget, i0, last)
    ensures outcome == OutcomeOf(env, t0, budget, i0, last)
    ensures end == EndTime(env, t0, budget, i0, last)
    ensures cancelled == env(last).cancelled
    ensures starts == Sent(env, t0, budget, i0, last)
  {
    var deadline := t0 + budget;
    var interval := i0;
    var pollCount: nat := 0;
    var clock := t0;
    starts := [];
    ghost var most := FewIterations(env, t0, budget, i0);
    while clock < deadline
      invariant AtHead(env, t0, budget, i0, pollCount, interval, clock, starts)
      decreases most - pollCount
    {
      if env(pollCount).cancelled {
        return Cancelled, starts, clock, true, pollCount;
      }
      var round := env(pollCount);
      match Classify(round.reply, clock + round.latency) {
        case Stop(o) =>
          StopsOnReply(env, t0, budget, i0, pollCount, interval, clock, starts);
          return o, starts + [clock], clock + round.latency, false, pollCount;
        case Retry =>
          GoesOn(env, t0, budget, i0, pollCount, interval, clock, starts, interval);
        case SlowDown =>
          GoesOn(env, t0, budget, i0, pollCount, interval, clock, starts, interval + 5);
          interval := interval + 5;
      }
      starts := starts + [clock];
      clock := clock + round.latency + Slept(interval) + round.oversleep;
      pollCount := pollCount + 1;
    }
    return TimedOut, starts, clock, env(pollCount).cancelled, pollCount;
  }

  // ---------------------------------------------------------------------------------------------
  // Termination, and what a first interval of zero or less gives up
  // ---------------------------------------------------------------------------------------------

  lemma {:induction false} FirstStop(env: Env, t0: Time, budget: Time, i0: int, k: nat) returns (last: nat)
    requires StopsAt(env, t0, budget, i0, k)
    ensures EndsIn(env, t0, budget, i0, last)
  {
    if j: nat :| j < k && StopsAt(env, t0, budget, i0, j) {
      last := FirstStop(env, t0, budget, i0, j);
    } else {
      last := k;
    }
  }

  // The deadline ends the loop whatever interval the server sends, as long as requests take time.
  lemma LoopEnds(env: Env, t0: Time, budget: Time, i0: int)
    requires TimePasses(env, i0)
    ensures exists last: nat :: EndsIn(env, t0, budget, i0, last)
  {
    var k := FewIterations(env, t0, budget, i0);
    var last := FirstStop(env, t0, budget, i0, k);
  }

  // A loop that ends in iteration last, in an environment whose requests take time, sends more than n.
  ghost predicate SendsMoreThan(env: Env, t0: Time, budget: Time, i0: int, last: nat, n: nat) {
    && Fair(env) && RequestsTakeTime(env)
    && EndsIn(env, t0, budget, i0, last)
    && |Sent(env, t0, budget, i0, last)| > n
  }

  // Consent is always pending, and a reply takes this long.
  function PendingServer(latency: Time): Env {
    k => Round(false, Body("", "", "authorization_pending", None), latency, 0.0)
  }

  lemma {:induction false} WithoutInterval(latency: Time, t0: Time, i0: int, k: nat)
    requires i0 <= 0
    ensures SlowDowns(PendingServer(latency), k) == 0
    ensures Start(PendingServer(latency), t0, i0, k) == t0 + Times(k, latency)
  {
    if k > 0 { WithoutInterval(latency, t0, i0, k - 1); }
  }

  lemma TimetableLength(env: Env, t0: Time, i0: int, n: nat)
    ensures |Timetable(env, t0, i0, n)| == n
  {
    if n > 0 { TimetableAt(env, t0, i0, n, 0); }
  }

  lemma Share(budget: real, m: real)
    requires budget > 0.0 && m > 0.0
    ensures budget / m > 0.0 && m * (budget / m) == budget
  {
    assert budget / m * m == budget;
    if budget / m <= 0.0 { ScaleMonotone(budget / m, 0.0, m); }
  }

  // Fewer than all shares of the budget do not use it up.
  lemma SharesWithinBudget(k: nat, n: nat, budget: Time)
    requires budget > 0.0 && k <= n
    ensures budget / (n + 1) as real > 0.0
    ensures Times(k, budget / (n + 1) as real) < budget
  {
    var share := budget / (n + 1) as real;
    Share(budget, (n + 1) as real);
    TimesIsProduct(n + 1, share);
    TimesIsProduct(n, share);
    TimesIsProduct(k, share);
    ScaleMonotone(k as real, n as real, share);
  }

  // Without an interval a server that answers fast enough is polled more than n times.
  lemma UnpacedPolling(t0: Time, budget: Time, i0: int, n: nat) returns (env: Env, last: nat)
    requires budget > 0.0 && i0 <= 0
    ensures SendsMoreThan(env, t0, budget, i0, last, n)
  {
    var latency := budget / (n + 1) as real;
    SharesWithinBudget(0, n, budget);
    env := PendingServer(latency);
    assert TakesAtLeast(env, latency);
    LoopEnds(env, t0, budget, i0);
    last :| EndsIn(env, t0, budget, i0, last);
    WithoutInterval(latency, t0, i0, last);
    if last <= n { SharesWithinBudget(last, n, budget); }
    TimetableLength(env, t0, i0, last);
  }

  ghost predicate NeverSendsMoreThan(t0: Time, budget: Time, i0: int, n: nat) {
    forall env, last :: !SendsMoreThan(env, t0, budget, i0, last, n)
  }

  // However fast requests are answered, the number of requests is bounded if and only if the first
  // interval is at least one second: an interval that is not positive leaves no back-off at all.
  lemma RequestsBoundedIffIntervalPositive(t0: Time, budget: Time, i0: int)
    requires budget > 0.0
    ensures i0 >= 1 <==> exists n: nat :: NeverSendsMoreThan(t0, budget, i0, n)
  {
    if i0 >= 1 {
      var n := MostRounds(budget, 1.0);
      forall env, last ensures !SendsMoreThan(env, t0, budget, i0, last, n) {
        if SendsMoreThan(env, t0, budget, i0, last, n) {
          var final := if Polls(env, t0, budget, i0, last) then last else last - 1;
          TimetableLength(env, t0, i0, final + 1);
          assert final < last ==> !StopsAt(env, t0, budget, i0, final);
          ClockAdvances(env, t0, i0, final);
          WithinBudget(final, 1.0, budget);
        }
      }
      assert NeverSendsMoreThan(t0, budget, i0, n);
    } else {
      forall n: nat ensures !NeverSendsMoreThan(t0, budget, i0, n) {
        var env, last := UnpacedPolling(t0, budget, i0, n);
      }
    }
  }

  // ---------------------------------------------------------------------------------------------
  // Spacing and the poll-count bound
  // ---------------------------------------------------------------------------------------------

  // A request is never sent sooner after the previous reply than the interval then in force: the first
  // interval plus five seconds for every slow_down so far.
  lemma NeverCloserThanInterval(env: Env, t0: Time, budget: Time, i0: int, last: nat, k: nat)
    requires Fair(env) && EndsIn(env, t0, budget, i0, last)
    requires k + 1 < |Sent(env, t0, budget, i0, last)|
    ensures var sent := Sent(env, t0, budget, i0, last);
            sent[k + 1] - (sent[k] + env(k).latency) >= (i0 + 5 * SlowDowns(env, k + 1)) as real
  {
    var n := if Polls(env, t0, budget, i0, last) then last + 1 else last;
    TimetableLength(env, t0, i0, n);
    TimetableAt(env, t0, i0, n, k);
    TimetableAt(env, t0, i0, n, k + 1);
  }

  // The first k iterations' replies that say slow_down.
  ghost function SlowDownReplies(env: Env, k: nat): set<nat> {
    set j: nat | j < k && HasError(env(j).reply, "slow_down")
  }

  lemma OneMoreReply(env: Env, k: nat)
    ensures k !in SlowDownReplies(env, k)
    ensures SlowDownReplies(env, k + 1)
         == SlowDownReplies(env, k) + (if HasError(env(k).reply, "slow_down") then {k} else {})
  {
  }

  lemma {:induction false} SlowDownsCounted(env: Env, k: nat)
    ensures SlowDowns(env, k) == |SlowDownReplies(env, k)|
  {
    if k == 0 {
      assert SlowDownReplies(env, 0) == {};
    } else {
      SlowDownsCounted(env, k - 1);
      OneMoreReply(env, k - 1);
    }
  }

  // The sleep after the reply of iteration k: five seconds longer for each slow_down up to that reply, and
  // none at all for an interval that is not positive.
  ghost predicate SleepsFor(env: Env, i0: int, k: nat, sleep: Time) {
    var interval := i0 + 5 * |SlowDownReplies(env, k + 1)|;
    sleep == if interval > 0 then interval as real else 0.0
  }

  lemma SleepDue(env: Env, t0: Time, i0: int, k: nat)
    ensures SleepsFor(env, i0, k, Start(env, t0, i0, k + 1) - Start(env, t0, i0, k) - env(k).latency - env(k).oversleep)
  {
    SlowDownsCounted(env, k + 1);
  }

  // Exactly when a loop sends its requests: the first at once, each other after the reply before it and the
  // sleep then due, whatever the reply was.
  lemma ExactRequestTimes(env: Env, t0: Time, budget: Time, i0: int, last: nat, k: nat)
    requires k < |Sent(env, t0, budget, i0, last)|
    ensures var sent := Sent(env, t0, budget, i0, last);
            if k == 0 then sent[0] == t0
            else SleepsFor(env, i0, k - 1, sent[k] - sent[k - 1] - env(k - 1).latency - env(k - 1).oversleep)
  {
    var n := if Polls(env, t0, budget, i0, last) then last + 1 else last;
    TimetableLength(env, t0, i0, n);
    TimetableAt(env, t0, i0, n, k);
    if k > 0 {
      TimetableAt(env, t0, i0, n, k - 1);
      SleepDue(env, t0, i0, k - 1);
    }
  }

  // ... and when it returns: with the last reply, or after the last sleep.
  lemma ExactEndTime(env: Env, t0: Time, budget: Time, i0: int, last: nat)
    requires EndsIn(env, t0, budget, i0, last)
    ensures var sent, end := Sent(env, t0, budget, i0, last), EndTime(env, t0, budget, i0, last);
            if Polls(env, t0, budget, i0, last) then |sent| == last + 1 && end == sent[last] + env(last).latency
            else
              && |sent| == last
              && if last == 0 then end == t0
                 else
                   var sleep := end - sent[last - 1] - env(last - 1).latency - env(last - 1).oversleep;
                   SleepsFor(env, i0, last - 1, sleep)
  {
    var n := if Polls(env, t0, budget, i0, last) then last + 1 else last;
    TimetableLength(env, t0, i0, n);
    if n > 0 { TimetableAt(env, t0, i0, n, n - 1); }
    if n == last > 0 { SleepDue(env, t0, i0, last - 1); }
  }

  // 1 + 2 + ... + s.
  function Triangle(s: nat): nat {
    if s == 0 then 0 else Triangle(s - 1) + s
  }

  lemma {:induction false} TriangleClosed(s: nat)
    ensures 2 * Triangle(s) == s * (s + 1)
  {
    if s > 0 { TriangleClosed(s - 1); }
  }

  lemma BackoffClosed(s: nat)
    ensures 5 * s * (s + 1) / 2 == 5 * Triangle(s)
  {
    TriangleClosed(s);
    assert 5 * s * (s + 1) == 5 * (s * (s + 1));
  }

  lemma {:induction false} ElapsedAtLeast(env: Env, t0: Time, i0: int, k: nat)
    requires Fair(env)
    ensures Start(env, t0, i0, k) - t0 >= (k * i0 + 5 * Triangle(SlowDowns(env, k))) as real
  {
    if k > 0 {
      ElapsedAtLeast(env, t0, i0, k - 1);
      assert k * i0 == (k - 1) * i0 + i0;
      var step := Triangle(SlowDowns(env, k)) - Triangle(SlowDowns(env, k - 1));
      assert Slept(Interval(env, i0, k)) >= (i0 + 5 * step) as real;
    }
  }

  // A loop that sends n requests and sees s slow_downs among the first n - 1 replies has
  // (n - 1) * i0 + 5 * s * (s + 1) / 2 below its budget.
  lemma PollCountBound(env: Env, t0: Time, budget: Time, i0: int, last: nat)
    requires Fair(env) && EndsIn(env, t0, budget, i0, last)
    requires Sent(env, t0, budget, i0, last) != []
    ensures var n := |Sent(env, t0, budget, i0, last)|;
            var s := SlowDowns(env, n - 1);
            ((n - 1) * i0 + 5 * s * (s + 1) / 2) as real < budget
  {
    var n := if Polls(env, t0, budget, i0, last) then last + 1 else last;
    TimetableLength(env, t0, i0, n);
    assert n - 1 < last ==> !StopsAt(env, t0, budget, i0, n - 1);
    ElapsedAtLeast(env, t0, i0, n - 1);
    BackoffClosed(SlowDowns(env, n - 1));
  }

  // ---------------------------------------------------------------------------------------------
  // Cancellation
  // ---------------------------------------------------------------------------------------------

  // Once the cancel event is set no further request is sent: only iterations before k can have polled.
  lemma NoPollAfterCancel(env: Env, t0: Time, budget: Time, i0: int, last: nat, k: nat)
    requires EndsIn(env, t0, budget, i0, last)
    requires env(k).cancelled
    ensures last <= k
    ensures Polls(env, t0, budget, i0, last) ==> last < k
    ensures OutcomeOf(env, t0, budget, i0, last).Issued? ==> last < k
  {
    assert StopsAt(env, t0, budget, i0, k);
  }

  // ---------------------------------------------------------------------------------------------
  // The await outlasts the poll
  // ---------------------------------------------------------------------------------------------

  const AGENT_BUDGET: Time := 240.0
  const AWAIT_LIMIT: Time := 330.0
  const REQUEST_LIMIT: Time := 20.0
  const MCP_LIMIT: Time := 30.0

  // Sleeps are exact and no poll request takes longer than REQUEST_LIMIT.
  ghost predicate Punctual(env: Env) {
    forall k: nat :: 0.0 <= env(k).latency <= REQUEST_LIMIT && env(k).oversleep == 0.0
  }

  // A flow that ends in iteration last and then makes an MCP call, if it got a token, of at most MCP_LIMIT;
  // it is awaited from awaitStart on.
  ghost predicate Awaited(env: Env, t0: Time, i0: int, last: nat, mcp: Time, awaitStart: Time) {
    && Punctual(env)
    && EndsIn(env, t0, AGENT_BUDGET, i0, last)
    && 0.0 <= mcp <= (if OutcomeOf(env, t0, AGENT_BUDGET, i0, last).Issued? then MCP_LIMIT else 0.0)
    && awaitStart >= t0
  }

  // Every such await is woken by completion before its own timeout.
  ghost predicate AwaitOutlastsPoll(t0: Time, i0: int) {
    forall env, last, mcp, awaitStart :: Awaited(env, t0, i0, last, mcp, awaitStart) ==>
      EndTime(env, t0, AGENT_BUDGET, i0, last) + mcp < awaitStart + AWAIT_LIMIT
  }

  // The first intervals for which that is so.
  predicate OutlastedInterval(i0: int) {
    i0 <= 45 || 48 <= i0 <= 50 || 120 <= i0 <= 137 || 240 <= i0 <= 304
  }

  // The sleeps that raise the interval from i0 to i, as far as they are sleeps at all.
  function Climb(i: int, i0: int): nat
    decreases i
  {
    if i <= i0 || i <= 0 then 0 else i + Climb(i - 5, i0)
  }

  lemma {:induction false} ElapsedClimbing(env: Env, t0: Time, i0: int, k: nat)
    requires Fair(env)
    ensures Start(env, t0, i0, k) - t0 >= Climb(Interval(env, i0, k), i0) as real
  {
    if k > 0 { ElapsedClimbing(env, t0, i0, k - 1); }
  }

  // From a first interval of at most 45 s, or of 48 to 50 s, an interval above 65 s has used up the budget.
  lemma ClimbOverspends(i0: int, s: nat)
    requires i0 <= 45 || 48 <= i0 <= 50
    requires i0 + 5 * s > 65
    ensures Climb(i0 + 5 * s, i0) >= 240
  {
    var i := i0 + 5 * s;
    assert Climb(i, i0) == i + Climb(i - 5, i0);
    assert Climb(i - 5, i0) == i - 5 + Climb(i - 10, i0);
    assert Climb(i - 10, i0) == i - 10 + Climb(i - 15, i0);
    assert Climb(i - 15, i0) == i - 15 + Climb(i - 20, i0);
  }

  // A first interval of 120 s or more leaves room for one round before the last, and one of 240 s or
  // more for none.
  lemma FewRounds(env: Env, t0: Time, i0: int, last: nat)
    requires Fair(env) && EndsIn(env, t0, AGENT_BUDGET, i0, last) && i0 >= 120
    ensures last <= 2 && (i0 >= 240 ==> last <= 1)
  {
    if last > 2 {
      assert !StopsAt(env, t0, AGENT_BUDGET, i0, 2);
      ElapsedAtLeast(env, t0, i0, 2);
    } else if last == 2 {
      assert !StopsAt(env, t0, AGENT_BUDGET, i0, 1);
      ElapsedAtLeast(env, t0, i0, 1);
    }
  }

  lemma AwaitIsLongEnough(env: Env, t0: Time, i0: int, last: nat, mcp: Time, awaitStart: Time)
    requires OutlastedInterval(i0)
    requires Awaited(env, t0, i0, last, mcp, awaitStart)
    ensures EndTime(env, t0, AGENT_BUDGET, i0, last) + mcp < awaitStart + AWAIT_LIMIT
  {
    if Polls(env, t0, AGENT_BUDGET, i0, last) || last == 0 {
    } else if i0 <= 50 {
      assert !StopsAt(env, t0, AGENT_BUDGET, i0, last - 1);
      ElapsedClimbing(env, t0, i0, last - 1);
      if Interval(env, i0, last - 1) > 65 { ClimbOverspends(i0, SlowDowns(env, last - 1)); }
      assert Slept(Interval(env, i0, last)) <= 70.0;
    } else {
      FewRounds(env, t0, i0, last);
      assert Start(env, t0, i0, 1) <= t0 + REQUEST_LIMIT + (i0 + 5) as real;
      assert last == 2 ==> Start(env, t0, i0, 2) <= Start(env, t0, i0, 1) + REQUEST_LIMIT + (i0 + 10) as real;
    }
  }

  // A server that answers the first m requests alike, in the same time, and then says slow_down slowly.
  function SlowServer(m: nat, reply: string, latency: Time): Env {
    k => Round(false, Body("", "", if k < m then reply else "slow_down", None),
               if k < m then latency else REQUEST_LIMIT, 0.0)
  }

  lemma {:induction false} SlowServerTimes(m: nat, reply: string, latency: Time, t0: Time, i0: int, k: nat)
    requires i0 >= 1 && k <= m
    ensures SlowDowns(SlowServer(m, reply, latency), k) == if reply == "slow_down" then k else 0
    ensures Start(SlowServer(m, reply, latency), t0, i0, k)
         == t0 + (k * i0 + if reply == "slow_down" then 5 * Triangle(k) else 0) as real + Times(k, latency)
  {
    if k > 0 {
      SlowServerTimes(m, reply, latency, t0, i0, k - 1);
      assert k * i0 == (k - 1) * i0 + i0;
    }
  }

  lemma {:induction false} StartsInOrder(env: Env, t0: Time, i0: int, j: nat, k: nat)
    requires Fair(env) && j <= k
    ensures Start(env, t0, i0, j) <= Start(env, t0, i0, k)
  {
    if j < k { StartsInOrder(env, t0, i0, j, k - 1); }
  }

  // Such a server keeps the poll alive past the await if its m alike rounds can be stretched to end
  // before the deadline and yet late enough for the slow request and the next sleep to run past it.
  lemma SlowServerOutlivesAwait(m: nat, reply: string, t0: Time, i0: int)
    requires i0 >= 1 && (reply == "slow_down" || reply == "authorization_pending")
    requires var s := if reply == "slow_down" then m else 0;
             var sleeps, target := m * i0 + 5 * Triangle(s), 310 - (i0 + 5 * (s + 1));
             sleeps < 240 && target < 240 && target <= sleeps + 20 * m
    ensures !AwaitOutlastsPoll(t0, i0)
  {
    var s := if reply == "slow_down" then m else 0;
    var sleeps, target := m * i0 + 5 * Triangle(s), 310 - (i0 + 5 * (s + 1));
    var latency := Stretch(m, sleeps, target);
    SlowServerTimes(m, reply, latency, t0, i0, m);
    SlowServerEnds(m, reply, latency, t0, i0);
    assert Awaited(SlowServer(m, reply, latency), t0, i0, m + 1, 0.0, t0);
  }

  lemma SlowServerEnds(m: nat, reply: string, latency: Time, t0: Time, i0: int)
    requires i0 >= 1 && (reply == "slow_down" || reply == "authorization_pending")
    requires 0.0 <= latency <= REQUEST_LIMIT
    requires var env, s := SlowServer(m, reply, latency), if reply == "slow_down" then m else 0;
             t0 + 310.0 - (i0 + 5 * (s + 1)) as real <= Start(env, t0, i0, m) < t0 + AGENT_BUDGET
    ensures var env := SlowServer(m, reply, latency);
            && Punctual(env) && EndsIn(env, t0, AGENT_BUDGET, i0, m + 1)
            && !OutcomeOf(env, t0, AGENT_BUDGET, i0, m + 1).Issued?
            && EndTime(env, t0, AGENT_BUDGET, i0, m + 1) >= t0 + AWAIT_LIMIT
  {
    var env := SlowServer(m, reply, latency);
    SlowServerTimes(m, reply, latency, t0, i0, m);
    forall j: nat | j <= m ensures !StopsAt(env, t0, AGENT_BUDGET, i0, j) {
      StartsInOrder(env, t0, i0, j, m);
    }
    assert Start(env, t0, i0, m + 1) >= t0 + AWAIT_LIMIT;
  }

  // The latency at which m requests bring the elapsed time from sleeps up to target.
  lemma Stretch(m: nat, sleeps: int, target: int) returns (latency: Time)
    requires target <= sleeps + 20 * m
    ensures 0.0 <= latency <= REQUEST_LIMIT
    ensures sleeps as real + Times(m, latency) == (if target > sleeps then target else sleeps) as real
  {
    latency := if target > sleeps then (target - sleeps) as real / m as real else 0.0;
    TimesIsProduct(m, latency);
    if target > sleeps {
      assert m as real * latency == (target - sleeps) as real;
      if latency > REQUEST_LIMIT {
        ScaleStrict(REQUEST_LIMIT, latency, m as real);
      }
    }
  }

  // A schedule for every first interval the await is too short for.
  lemma AwaitIsTooShort(t0: Time, i0: int)
    requires 46 <= i0 <= 47 || 51 <= i0 <= 119 || 138 <= i0 <= 239 || i0 >= 305
    ensures !AwaitOutlastsPoll(t0, i0)
  {
    assert Triangle(2) == 3 && Triangle(3) == 6 && Triangle(4) == 10;
    if i0 <= 47 {
      SlowServerOutlivesAwait(4, "slow_down", t0, i0);
    } else if i0 <= 65 {
      SlowServerOutlivesAwait(3, "slow_down", t0, i0);
    } else if i0 <= 79 {
      SlowServerOutlivesAwait(3, "authorization_pending", t0, i0);
    } else if i0 <= 88 {
      SlowServerOutlivesAwait(2, "slow_down", t0, i0);
    } else if i0 <= 119 {
      SlowServerOutlivesAwait(2, "authorization_pending", t0, i0);
    } else if i0 <= 234 {
      SlowServerOutlivesAwait(1, "slow_down", t0, i0);
    } else if i0 <= 239 {
      SlowServerOutlivesAwait(1, "authorization_pending", t0, i0);
    } else {
      SlowServerOutlivesAwait(0, "slow_down", t0, i0);
    }
  }

  // With a 240 s budget, poll requests of at most 20 s and an MCP call of at most 30 s after a token, a
  // task always completes before an await of 330 s that started no earlier, for exactly these first
  // intervals. The back-off is what breaks it: one last sleep, begun just before the deadline.
  lemma AwaitOutlastsPollIff(t0: Time, i0: int)
    ensures AwaitOutlastsPoll(t0, i0)
       <==> i0 <= 45 || 48 <= i0 <= 50 || 120 <= i0 <= 137 || 240 <= i0 <= 304
  {
    if OutlastedInterval(i0) {
      forall env, last, mcp, awaitStart | Awaited(env, t0, i0, last, mcp, awaitStart)
        ensures EndTime(env, t0, AGENT_BUDGET, i0, last) + mcp < awaitStart + AWAIT_LIMIT
      {
        AwaitIsLongEnough(env, t0, i0, last, mcp, awaitStart);
      }
    } else {
      AwaitIsTooShort(t0, i0);
    }
  }
}
