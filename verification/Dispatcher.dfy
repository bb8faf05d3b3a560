// hr_agent/ciba/orchestrator.py, HRDispatcher: the per-(user, scope) token cache, its jti index, the
// revocation hook, and the last step of the background task.
//
// The dispatcher runs on one event loop, so the code between two awaits is one atomic step. Each method
// of the class is one such step and is proved against a function on the two maps; the runs of those
// steps are the subject of the module RevocationSystem.

module Dispatcher {
  import opened Common
  import opened Denylist
  import DenylistStore
  import opened CibaPoll
  import opened Pending

  // (user_sub, ciba_scope)
  datatype Key = Key(user: string, scope: string)

  datatype CachedToken = CachedToken(token: OAuthToken, iat: Time, expiresAt: Time)

  const EXPIRY_BUFFER: Time := 30.0

  predicate IsNearExpiry(c: CachedToken, now: Time) {
    now >= c.expiresAt - EXPIRY_BUFFER
  }

  datatype Caches = Caches(tokens: map<Key, CachedToken>, index: map<Jti, Key>)

  // _denylist_contains: a token whose jti cannot be decoded is never on the list.
  predicate IsDenied(deny: seq<Entry>, j: Jti) {
    j != "" && Has(deny, j)
  }

  // The cache lookup of one dispatch: a denied entry is dropped first ...
  function AfterLookup(c: Caches, deny: seq<Entry>, key: Key): Caches {
    if key in c.tokens && IsDenied(deny, c.tokens[key].token.jti)
    then Caches(c.tokens - {key}, c.index - {c.tokens[key].token.jti})
    else c
  }

  // ... and what is left is served unless it is near expiry.
  function Served(c: Caches, deny: seq<Entry>, key: Key, now: Time): Option<CachedToken> {
    if key in AfterLookup(c, deny, key).tokens && !IsNearExpiry(c.tokens[key], now)
    then Some(c.tokens[key])
    else None
  }

  // A served token the MCP server refused is dropped, whatever is cached under the key by then.
  function AfterRejection(c: Caches, key: Key): Caches {
    c.(tokens := c.tokens - {key})
  }

  function AfterStore(c: Caches, key: Key, t: OAuthToken): Caches {
    Caches(c.tokens[key := CachedToken(t, t.expiresAt - t.expiresIn as real, t.expiresAt)],
           if t.jti != "" then c.index[t.jti := key] else c.index)
  }

  function AfterRevoke(c: Caches, j: Jti): Caches {
    if j in c.index then Caches(c.tokens - {c.index[j]}, c.index - {j}) else c
  }

  // The forward direction of the index: every cached token with a jti is indexed under its own key.
  ghost predicate Indexed(c: Caches) {
    forall k :: k in c.tokens && c.tokens[k].token.jti != "" ==>
      c.tokens[k].token.jti in c.index && c.index[c.tokens[k].token.jti] == k
  }

  ghost predicate Carries(c: Caches, j: Jti) {
    exists k :: k in c.tokens && c.tokens[k].token.jti == j
  }

  // After revoke_jti(j) no cached token carries j, and only the key j was last cached under is touched.
  lemma RevokeIsExact(c: Caches, j: Jti)
    requires Indexed(c) && j != ""
    ensures !Carries(AfterRevoke(c, j), j)
    ensures Indexed(AfterRevoke(c, j))
    ensures forall k :: k in c.tokens && !(j in c.index && c.index[j] == k) ==>
              k in AfterRevoke(c, j).tokens && AfterRevoke(c, j).tokens[k] == c.tokens[k]
    ensures AfterRevoke(c, j).tokens.Keys <= c.tokens.Keys
  {
  }

  // The index is not an inverse: revoking a jti whose entry has been overwritten drops the newer token.
  // A revocation drops a token carrying another jti exactly when the index still sends j to its key; which
  // histories leave it doing so is the subject of the module Bystanders.
  lemma RevokeDropsBystanderIff(c: Caches, j: Jti, k: Key)
    requires Indexed(c) && j != "" && k in c.tokens && c.tokens[k].token.jti != j
    ensures k !in AfterRevoke(c, j).tokens <==> j in c.index && c.index[j] == k
  {
  }

  lemma BystandersExist(k: Key, first: OAuthToken, second: OAuthToken)
    requires first.jti != "" && second.jti != "" && first.jti != second.jti
    ensures var c := AfterStore(AfterStore(Caches(map[], map[]), k, first), k, second);
            Indexed(c) && Carries(c, second.jti) && !Carries(AfterRevoke(c, first.jti), second.jti)
  {
    var c := AfterStore(AfterStore(Caches(map[], map[]), k, first), k, second);
    assert k in c.tokens && c.tokens[k].token == second;
    assert AfterRevoke(c, first.jti).tokens == map[];
  }

  // ---------------------------------------------------------------------------------------------
  // The background task
  // ---------------------------------------------------------------------------------------------

  // The MCP call made with a fresh token. upstreamId is the error id of a structured refusal.
  datatype McpReply =
    | Accepted
    | HttpError(upstreamId: Option<string>)
    | McpRaised
    | McpAborted

  // int() of a timestamp truncates towards zero.
  function Truncated(t: Time): int {
    if t >= 0.0 then t.Floor else -((-t).Floor)
  }

  function PayloadFor(t: OAuthToken): ResultPayload {
    ResultPayload(t.jti, Truncated(t.expiresAt), Truncated(t.expiresAt - t.expiresIn as real))
  }

  // Truncation keeps the integer next to the time on the side of zero.
  lemma TruncatedIff(t: Time, i: int)
    ensures Truncated(t) == i
       <==> if t >= 0.0 then i as real <= t < i as real + 1.0 else i as real - 1.0 < t <= i as real
  {
  }

  // The wire expiry of a token is less than a second off its real one, and for a time after the epoch not
  // after it.
  lemma WireExpiryIsClose(t: OAuthToken)
    ensures t.expiresAt - 1.0 < PayloadFor(t).tokenExp as real < t.expiresAt + 1.0
    ensures t.expiresAt >= 0.0 ==> PayloadFor(t).tokenExp as real <= t.expiresAt
  {
    TruncatedIff(t.expiresAt, PayloadFor(t).tokenExp);
  }

  predicate Stores(poll: Outcome, mcp: McpReply) {
    poll.Issued? && mcp.Accepted?
  }

  // The BaseException cases: the task is torn down without reporting anything.
  predicate TornDown(poll: Outcome, mcp: McpReply) {
    poll.Killed? || (poll.Issued? && mcp.McpAborted?)
  }

  const DENIED: Report := Error(ErrorPayload("ERR-CIBA-005", "user_denied"))
  const EXPIRED: Report := Error(ErrorPayload("ERR-CIBA-009", "auth_req_id_expired"))
  const CANCELLED: Report := Error(ErrorPayload("ERR-CIBA-010", "cancelled"))
  const TIMED_OUT: Report := Error(ErrorPayload("ERR-CIBA-010", "polling_timeout"))
  const INTERNAL: Report := Error(ErrorPayload("ERR-AGENT-INTERNAL", ""))

  // The id of a structured refusal, if it names one.
  function RefusalId(upstream: Option<string>): string {
    if upstream.Some? && upstream.value != "" then upstream.value else "ERR-MCP-005"
  }

  // What the task reports, by the exception handlers of _run_to_completion. A CIBAPollError has no
  // handler of its own and falls through to the last one.
  function ReportOf(poll: Outcome, mcp: McpReply, cancelled: bool): Report {
    match poll
    case Issued(t) =>
      (match mcp
       case Accepted => Result(PayloadFor(t))
       case HttpError(upstream) =>
         Error(ErrorPayload(RefusalId(upstream), "mcp_http"))
       case McpRaised => INTERNAL
       case McpAborted => Nothing)
    case Denied => DENIED
    case Expired => EXPIRED
    case TimedOut => if cancelled then CANCELLED else TIMED_OUT
    case Cancelled => if cancelled then CANCELLED else TIMED_OUT
    case PollError(_) => INTERNAL
    case OtherError => INTERNAL
    case Killed => Nothing
  }

  // What the task of a flow whose loop ends in iteration last reports.
  function ReportIn(env: Env, t0: Time, budget: Time, i0: int, last: nat, mcp: McpReply): Report
    requires StopsAt(env, t0, budget, i0, last)
  {
    ReportOf(OutcomeOf(env, t0, budget, i0, last), mcp, env(last).cancelled)
  }

  lemma ReportIff(poll: Outcome, mcp: McpReply, cancelled: bool)
    ensures var report := ReportOf(poll, mcp, cancelled);
            && (report.Result? <==> poll.Issued? && mcp.Accepted?)
            && (report.Result? ==> report.payload == PayloadFor(poll.token))
            && (report.Error? && report.error.reason == "mcp_http" <==> poll.Issued? && mcp.HttpError?)
            && (poll.Issued? && mcp.HttpError? ==> report.error.errorId == RefusalId(mcp.upstreamId))
            && (report == DENIED <==> poll.Denied?)
            && (report == EXPIRED <==> poll.Expired?)
            && (report == CANCELLED <==> (poll.TimedOut? || poll.Cancelled?) && cancelled)
            && (report == TIMED_OUT <==> (poll.TimedOut? || poll.Cancelled?) && !cancelled)
            && (report == INTERNAL <==> poll.PollError? || poll.OtherError? || (poll.Issued? && mcp.McpRaised?))
            && (report.Nothing? <==> TornDown(poll, mcp))
  {
  }

  // One outcome per flow, read off the replies of the token endpoint and the MCP server: every report there
  // can be is listed with exactly the condition for it.
  lemma OneOutcomePerFlow(env: Env, t0: Time, budget: Time, i0: int, last: nat, mcp: McpReply)
    requires EndsIn(env, t0, budget, i0, last)
    ensures var report, reply := ReportIn(env, t0, budget, i0, last, mcp), env(last).reply;
            var received := Start(env, t0, i0, last) + env(last).latency;
            var polls := Polls(env, t0, budget, i0, last);
            var arrives := polls && HasToken(reply);
            // a result names the token that arrived, with the times of its arrival and its end
            && (report.Result? <==> arrives && mcp.Accepted?)
            && (report.Result? ==>
                  && report.payload.tokenJti == reply.jti
                  && report.payload.tokenExp == Truncated(received + reply.expiresIn.value as real)
                  && report.payload.tokenIat == Truncated(received))
            // a refusal by the MCP server carries the id the server gave, if any
            && (report.Error? && report.error.reason == "mcp_http" <==> arrives && mcp.HttpError?)
            && (arrives && mcp.HttpError? ==>
                  report.error.errorId == match mcp.upstreamId
                                          case None => "ERR-MCP-005"
                                          case Some(id) => if id != "" then id else "ERR-MCP-005")
            // the errors the token endpoint decides
            && (report == Error(ErrorPayload("ERR-CIBA-005", "user_denied"))
                <==> polls && HasError(reply, "access_denied"))
            && (report == Error(ErrorPayload("ERR-CIBA-009", "auth_req_id_expired"))
                <==> polls && HasError(reply, "expired_token"))
            // the two timeouts
            && (report == Error(ErrorPayload("ERR-CIBA-010", "cancelled")) <==> env(last).cancelled)
            && (report == Error(ErrorPayload("ERR-CIBA-010", "polling_timeout"))
                <==> Start(env, t0, i0, last) >= t0 + budget && !env(last).cancelled)
            // anything unforeseen, and the teardown of the task
            && (report == Error(ErrorPayload("ERR-AGENT-INTERNAL", ""))
                <==> (polls && Unforeseen(reply)) || (arrives && mcp.McpRaised?))
            && (report.Nothing? <==> (polls && reply.Aborted?) || (arrives && mcp.McpAborted?))
  {
    OutcomeIff(env, t0, budget, i0, last);
    ReportIff(OutcomeOf(env, t0, budget, i0, last), mcp, env(last).cancelled);
  }

  class HRDispatcher {
    var tokenCache: map<Key, CachedToken>
    var jtiToCacheKey: map<Jti, Key>
    var revocation: DenylistStore.JtiDenylist?

    ghost predicate Valid()
      reads this, revocation
    {
      revocation != null ==> revocation.Valid()
    }

    function View(): Caches
      reads this
    {
      Caches(tokenCache, jtiToCacheKey)
    }

    // Without an attached revocation state the denylist check is a no-op.
    ghost function Deny(): seq<Entry>
      requires Valid()
      reads this, revocation
    {
      if revocation == null then [] else revocation.Contents()
    }

    constructor ()
      ensures Valid() && View() == Caches(map[], map[]) && revocation == null
    {
      tokenCache := map[];
      jtiToCacheKey := map[];
      revocation := null;
    }

    method AttachRevocation(state: DenylistStore.JtiDenylist)
      requires state.Valid()
      modifies this`revocation
      ensures Valid() && revocation == state && View() == old(View())
    {
      revocation := state;
    }

    // __call__, step 1c: from the lookup to the MCP call on a hit, or to the actor-token request. prior
    // is the issue time of the entry found, denied or not; it marks the consent as a refresh.
    method LookupCache(key: Key, now: Time) returns (served: Option<CachedToken>, prior: Option<Time>)
      requires Valid()
      modifies this`tokenCache, this`jtiToCacheKey
      ensures Valid()
      ensures served == Served(old(View()), Deny(), key, now)
      ensures View() == AfterLookup(old(View()), Deny(), key)
      ensures prior == if key in old(tokenCache) then Some(old(tokenCache)[key].iat) else None
      // it serves exactly a cached token that is not denied and more than 30 s from its expiry
      ensures served.Some? ==> key in old(tokenCache) && served.value == old(tokenCache)[key]
      ensures served.Some? <==>
                && key in old(tokenCache)
                && var c := old(tokenCache)[key];
                   !(c.token.jti != "" && Has(Deny(), c.token.jti)) && now < c.expiresAt - 30.0
    {
      served, prior := None, None;
      if key !in tokenCache {
        return;
      }
      var cached := tokenCache[key];
      prior := Some(cached.iat);
      var denied := false;
      if revocation != null && cached.token.jti != "" {
        denied := revocation.Contains(cached.token.jti);
      }
      if denied {
        jtiToCacheKey := jtiToCacheKey - {cached.token.jti};
        tokenCache := tokenCache - {key};
        return;
      }
      if !IsNearExpiry(cached, now) {
        served := Some(cached);
      }
    }

    // __call__, after the MCP server refused a served token.
    method DropRejected(key: Key)
      modifies this`tokenCache
      ensures View() == AfterRejection(old(View()), key)
      ensures tokenCache == old(tokenCache) - {key} && jtiToCacheKey == old(jtiToCacheKey)
    {
      tokenCache := tokenCache - {key};
    }

    method RevokeJti(j: Jti)
      modifies this`tokenCache, this`jtiToCacheKey
      ensures View() == AfterRevoke(old(View()), j)
    {
      if j in jtiToCacheKey {
        var key := jtiToCacheKey[j];
        jtiToCacheKey := jtiToCacheKey - {j};
        tokenCache := tokenCache - {key};
      }
    }

    // _run_to_completion after its last await: caches an accepted token, writes the outcome, sets
    // completion. The timeout handler reads the cancel event.
    method Settle(state: PendingState, poll: Outcome, mcp: McpReply, key: Key)
      requires state.result == None && state.error == None
      modifies this`tokenCache, this`jtiToCacheKey, state`result, state`error, state`completion
      ensures state.completion
      ensures state.Reported() == ReportOf(poll, mcp, state.cancelEvent)
      ensures !(state.result.Some? && state.error.Some?)
      ensures state.result.None? && state.error.None? <==> TornDown(poll, mcp)
      ensures View() == if Stores(poll, mcp) then AfterStore(old(View()), key, poll.token) else old(View())
    {
      match poll {
        case Issued(t) =>
          match mcp {
            case Accepted =>
              tokenCache := tokenCache[key := CachedToken(t, t.expiresAt - t.expiresIn as real, t.expiresAt)];
              if t.jti != "" {
                jtiToCacheKey := jtiToCacheKey[t.jti := key];
              }
              state.result := Some(PayloadFor(t));
            case HttpError(upstream) =>
              var id := "ERR-MCP-005";
              if upstream.Some? && upstream.value != "" {
                id := upstream.value;
              }
              state.error := Some(ErrorPayload(id, "mcp_http"));
            case McpRaised =>
              state.error := Some(ErrorPayload("ERR-AGENT-INTERNAL", ""));
            case McpAborted =>
          }
        case Denied =>
          state.error := Some(ErrorPayload("ERR-CIBA-005", "user_denied"));
        case Expired =>
          state.error := Some(ErrorPayload("ERR-CIBA-009", "auth_req_id_expired"));
        case TimedOut =>
          state.error :=
            Some(ErrorPayload("ERR-CIBA-010", if state.cancelEvent then "cancelled" else "polling_timeout"));
        case Cancelled =>
          state.error :=
            Some(ErrorPayload("ERR-CIBA-010", if state.cancelEvent then "cancelled" else "polling_timeout"));
        case PollError(_) =>
          state.error := Some(ErrorPayload("ERR-AGENT-INTERNAL", ""));
        case OtherError =>
          state.error := Some(ErrorPayload("ERR-AGENT-INTERNAL", ""));
        case Killed =>
      }
      state.completion := true;
    }

    // What the steps of other dispatches, tasks and events have done while a task was suspended: the two
    // maps and the task's cancel event are as they left them.
    method Resume(state: PendingState, whileAway: Caches, cancelled: bool)
      modifies this`tokenCache, this`jtiToCacheKey, state`cancelEvent
      ensures View() == whileAway && state.cancelEvent == cancelled
    {
      tokenCache, jtiToCacheKey := whileAway.tokens, whileAway.index;
      state.cancelEvent := cancelled;
    }

    // The whole background task of one flow. It suspends in the poll and in the MCP call; whileAway is
    // what has become of the two maps when it resumes for the last time.
    method RunToCompletion(state: PendingState, env: Env, t0: Time, budget: Time, i0: int, mcp: McpReply, key: Key,
                           whileAway: Caches)
      returns (last: nat)
      requires TimePasses(env, i0)
      requires state.result == None && state.error == None
      modifies this`tokenCache, this`jtiToCacheKey, state`result, state`error, state`completion, state`cancelEvent
      ensures EndsIn(env, t0, budget, i0, last)
      ensures state.completion && state.cancelEvent == env(last).cancelled
      ensures state.Reported() == ReportIn(env, t0, budget, i0, last, mcp)
      ensures View() == if Polls(env, t0, budget, i0, last) && HasToken(env(last).reply) && mcp.Accepted?
                        then AfterStore(whileAway, key, OutcomeOf(env, t0, budget, i0, last).token)
                        else whileAway
    {
      var outcome, starts, end, cancelled, stop := PollForToken(env, t0, budget, i0);
      last := stop;
      Resume(state, whileAway, cancelled);
      Settle(state, outcome, mcp, key);
      OutcomeIff(env, t0, budget, i0, last);
    }
  }
}
