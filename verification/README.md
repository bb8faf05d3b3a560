# Lifecycle of an on-behalf-of token

This project models what happens to an on-behalf-of (OBO) token inside one specialist agent (`hr_agent`)
and its resource server (`hr_server`), and proves what the two promise about it: which token a dispatch may
reuse, when a revocation takes effect, how the CIBA polling loop behaves in time, how the agent's own token is
minted and shared, how a result reaches the caller that awaits it, and which tokens the server accepts.

`dafny verify dfyconfig.toml` checks the whole project.

## How it is organised

| file | what it models |
|---|---|
| `Denylist.dfy`, `DenylistStore.dfy` | the bounded, swept set of revoked token ids: theory over histories, then the class |
| `RateLimit.dfy` | the per-host sliding window in front of the revocation receiver |
| `InternalEvents.dfy` | the `POST /internal/events` receiver |
| `CibaPoll.dfy` | the polling loop as a timed loop over an arbitrary environment |
| `Pending.dfy`, `Dispatcher.dfy` | the token cache, its jti index, and the end of the background task |
| `RevocationSystem.dfy` | the agent as one state machine over every interleaving of those steps |
| `EventTraffic.dfy` | the receiver and the denylist under load: how long a revocation stays recorded |
| `Rendezvous.dfy` | send, await and cancel over the shared pending map |
| `TimedRendezvous.dfy` | the same in time: tasks as long as their polling, awaits that expire |
| `CacheHistory.dfy` | which token a dispatch is served, told from the events of a run |
| `Bystanders.dfy` | what the jti index remembers over a run, and which other tokens a revocation drops |
| `AgentSystem.dfy` | the agent and the rendezvous run side by side, tied where a flow is registered and reported |
| `SingleFlight.dfy`, `Mint.dfy` | the agent's own token: double-checked locking, and the login that mints it |
| `KeyCache.dfy` | the signing-key cache under concurrent calls |
| `Acceptance.dfy` | the resource server's acceptance decision |

Code that updates state in place is a class or a loop, proved against a function on its contents; a run of
such steps is then a sequence of those functions. The services run on one event loop, so the code between
two awaits is one atomic step, and any other step may come between two of them. Clocks are real numbers.

## Findings

Some promises hold only under a condition. Each has a lemma that gives the exact condition.

- A revocation that is not crowded out of the denylist protects the agent's cache exactly when the *last*
  acknowledged expiry is no earlier than the token's own minus the 30 s buffer, or the token lives no longer than
  the buffer and is never served at all (`RevocationSafeIff`, `ShortLivedNeverServed`). The `token_exp` the agent
  reports always qualifies (`HonestCascadeSuffices`), but a later event for the same jti with an earlier expiry
  replaces the good one and undoes it (`LaterEventUndoes`).
- The rate limit keeps entries from being crowded out: with n * 100 * m no more than the cap, events of m hosts
  cannot push an entry out within n minutes of its last acknowledgement (`NotCrowdedOut`). As deployed, with a cap
  of 10,000 and one host that sends events, that is 100 minutes (`DeployedRevocationHolds`).
- At the resource server the time check allows 30 s of leeway that the sweeper does not. A revoked token stays
  refused for as long as it passes the time check exactly when the recorded expiry covers the token's own plus
  the leeway (`RevocationOutlivesTokenIff`); a recorded bare `exp` does not.
- An await of 330 s outlasts a 240 s poll, whatever the token endpoint replies, exactly for first intervals of
  at most 45 s, of 48 to 50 s, of 120 to 137 s and of 240 to 304 s (`AwaitOutlastsPollIff`, with requests of at
  most 20 s, exact sleeps and an MCP call of at most 30 s). For any other first interval there are replies that
  put a sleep just before the deadline and let it outlive the await. In schedules of any number of flows,
  awaits and cancels, no await expires for exactly the same intervals (`AwaitsNeverExpireIff`).
- The deadline ends the loop for every first interval (`LoopEnds`), but the code does not check the interval it
  is sent: the number of requests is bounded, however fast they are answered, exactly when the first interval is
  positive (`RequestsBoundedIffIntervalPositive`).
- Revoking a jti drops a newer token with another jti exactly when that token overwrote the revoked one's cache
  entry and the jti has been neither revoked nor found denied since (`RevocationDropsBystanderIff`); such a run
  exists (`BystanderDropped`).

Where code and documentation disagree the model follows the code: `ERR-CIBA-008` never reaches a caller,
because the background task has no handler for it and reports `ERR-AGENT-INTERNAL`; the actor-token buffer is
2 s with a 10 s cap where the module text says 30 s; re-adding a jti moves it to the recent end of the
eviction order; the dispatcher is described as stateless and is not.

## Assumptions

`hard_cap` is at least 1. The identity server never issues the same jti or `auth_req_id` twice (section 4.1.7
of RFC 7519). The wall clock does not step back. No poll request is answered in less than some positive time, or
else the first interval is positive. In timed runs a task completes when it is due, and an await whose flow is
complete is woken before time moves on. A token whose jti cannot be decoded is never found revoked, so results
about revocation are about tokens with a jti.

## Model

| member | source | states |
|---|---|---|
| Denylist.SweepIsExact | common/revocation/jti_denylist.py:83-89 | a sweep deletes exactly the entries with exp below the cutoff; the rest keep their order |
| Denylist.ReplayOrdered | common/revocation/jti_denylist.py:51-89 | after any history the list is in order of last add, each entry with its latest expiry, and never longer than the cap |
| Denylist.Survival | common/revocation/jti_denylist.py:51-89 | a token id leaves only by a sweep beyond its last expiry or after cap distinct newer ids |
| Denylist.SweptMeansGone | common/revocation/jti_denylist.py:83-89 | the other half for sweeps: swept beyond its last expiry, an id is gone until re-added |
| Denylist.LastDistinctJtis | common/revocation/jti_denylist.py:62-75 | without sweeps the contents are exactly the last cap distinct ids of the history |
| DenylistStore.JtiDenylist.Contains | common/revocation/jti_denylist.py:77-78 | membership is membership in the ordered contents |
| DenylistStore.JtiDenylist.Add | common/revocation/jti_denylist.py:51-75 | the in-place ordered dict does what Added says, in each of its three branches |
| DenylistStore.JtiDenylist.SweepOnce | common/revocation/jti_denylist.py:83-89 | the delete loop leaves exactly the swept contents and returns how many went |
| RateLimit.RateLimiter.Check | common/revocation/internal_events.py:106-117 | the pop loop over the buckets implements the window over the request history |
| RateLimit.ExactlyTheWindow | common/revocation/internal_events.py:106-117 | a request is admitted iff fewer than 100 of its host's admissions lie in the closed last 60 s |
| RateLimit.NoWindowOverflows | common/revocation/internal_events.py:106-117 | no closed 60 s window anywhere holds more than 100 admissions of one host |
| RateLimit.HostsAreIsolated | common/revocation/internal_events.py:109-116 | a host's bucket and admissions depend on its own requests only |
| InternalEvents.EventReceiver.Receive | common/revocation/internal_events.py:119-206 | limited iff the host has 100 admissions in the last 60 s, else refused iff the secret is not the shared one, else unknown iff the type is not session-revoked, else acknowledged; exactly then denylist and cache change |
| InternalEvents.EventReceiver.Record | common/revocation/internal_events.py:165-173 | the denylist add and the hook together are the revocation step |
| CibaPoll.PollForToken | common/auth/ciba_client.py:376-534 | for every first interval the loop ends, in the first iteration that is past the deadline, cancelled or decisive, with that iteration's outcome, request times and end time |
| CibaPoll.OutcomeIff | common/auth/ciba_client.py:381-534 | each outcome has exactly one condition: timeout and cancellation come before the request, everything else is what the first decisive reply says |
| CibaPoll.EarlierRepliesSayWait | common/auth/ciba_client.py:385-469 | every earlier iteration sent its request in time and uncancelled, and got a network error, authorization_pending or slow_down |
| CibaPoll.ExactRequestTimes | common/auth/ciba_client.py:381-469 | the first request goes out at once, each other exactly the sleep then due after the reply before it, whatever that reply was |
| CibaPoll.ExactEndTime | common/auth/ciba_client.py:376-534 | the loop returns with the last reply, or exactly after the last sleep |
| CibaPoll.SlowDownsCounted | common/auth/ciba_client.py:460-461 | the interval grows with the number of slow_down replies |
| CibaPoll.LoopEnds | common/auth/ciba_client.py:381-469 | the deadline ends the loop for every first interval, as long as requests take some time or the interval is positive |
| CibaPoll.RequestsBoundedIffIntervalPositive | common/auth/ciba_client.py:382-469 | the number of requests is bounded, however little time they take, iff the first interval is positive |
| CibaPoll.NeverCloserThanInterval | common/auth/ciba_client.py:449-469 | each request the loop sends follows the previous reply by at least the current interval, 5 s more for every slow_down so far |
| CibaPoll.PollCountBound | common/auth/ciba_client.py:376-469 | the n requests the loop sends, with s slow_downs among the first n - 1 replies, have (n-1)*i0 + 5*s*(s+1)/2 below the budget |
| CibaPoll.NoPollAfterCancel | common/auth/ciba_client.py:385-402 | after the cancel event is set no request is sent and no token returned |
| CibaPoll.AwaitOutlastsPollIff | common/a2a/server.py:475-502 | with the deployed limits the task completes before the await's own timeout iff the first interval is at most 45 s, 48 to 50 s, 120 to 137 s or 240 to 304 s |
| CibaPoll.AwaitIsTooShort | common/auth/ciba_client.py:460-469 | for every other first interval a schedule of replies exists in which the poll outlives the await |
| Dispatcher.RevokeIsExact | hr_agent/ciba/orchestrator.py:361-391 | after revoke_jti(j) no cached token carries j, and only the key j was last cached under is touched |
| Dispatcher.TruncatedIff | hr_agent/ciba/orchestrator.py:815-820 | int() of a timestamp is the integer next to it on the side of zero |
| Dispatcher.WireExpiryIsClose | hr_agent/ciba/orchestrator.py:815-820 | the truncated token_exp is less than a second before the token's expiry |
| Dispatcher.OneOutcomePerFlow | hr_agent/ciba/orchestrator.py:752-901 | every report a flow can make, with its error id and with exactly the replies of the token endpoint and the MCP server that lead to it |
| Dispatcher.HRDispatcher.LookupCache | hr_agent/ciba/orchestrator.py:477-500 | a cached token is served iff its jti is not listed and it is more than 30 s from its expiry; a listed one is dropped with its index entry; the prior issue time is reported |
| Dispatcher.HRDispatcher.DropRejected | hr_agent/ciba/orchestrator.py:515-526 | a refused token's key is dropped, the index is not |
| Dispatcher.HRDispatcher.RevokeJti | hr_agent/ciba/orchestrator.py:375-378 | the two maps change as AfterRevoke says |
| Dispatcher.HRDispatcher.Settle | hr_agent/ciba/orchestrator.py:788-901 | completion is set, one of result and error is written and never both, none only on teardown, a timeout is called cancelled by the cell's cancel event, the cache changes only for an accepted token |
| Dispatcher.HRDispatcher.RunToCompletion | hr_agent/ciba/orchestrator.py:723-901 | the whole task of one flow, whatever other steps do to the caches meanwhile: poll, call, report, and cache exactly a token that arrived and was accepted |
| RevocationSystem.ReachableInv | hr_agent/ciba/orchestrator.py:477-533 | index, provenance and jti uniqueness hold in every reachable state |
| RevocationSystem.NothingCachedAfterRevoke | hr_agent/ciba/orchestrator.py:361-391 | in every run, right after a revocation of j nothing cached carries j |
| RevocationSystem.ServedTokenProvenance | hr_agent/ciba/orchestrator.py:644-694 | a served token came from a flow started with the same login hint and scope and had been accepted once |
| CacheHistory.CachedIff | hr_agent/ciba/orchestrator.py:477-526 | in every run a token is cached under a key iff the flow that obtained it cached it there and no later store, refusal, denied lookup or dropping revocation took it away |
| CacheHistory.ServedIff | hr_agent/ciba/orchestrator.py:477-500 | in every run a dispatch is served a token iff it is still cached, its jti is not on the denylist the history makes, and it is more than 30 s from its expiry |
| RevocationSystem.RevokedTokenNeverServed | hr_agent/ciba/orchestrator.py:484-533 | in every interleaving a token revoked in time is never served again, even if cached after its revocation |
| RevocationSystem.HonestCascadeSuffices | hr_agent/ciba/orchestrator.py:528-533 | an event carrying the reported token_exp always revokes in time |
| RevocationSystem.ShortLivedNeverServed | hr_agent/ciba/orchestrator.py:275-277 | a token with a lifetime of no more than the 30 s buffer is never served from the cache |
| RevocationSystem.RevocationSafeIff | hr_agent/ciba/orchestrator.py:484-500 | safe in every run iff the last acknowledged expiry reaches into the buffer before the token's own, or the token lives no longer than the buffer |
| RevocationSystem.LaterEventUndoes | common/revocation/internal_events.py:160-173 | a token that outlives the buffer and was revoked in time is served again after a later event lowers the recorded expiry |
| EventTraffic.EventCountsIff | common/revocation/internal_events.py:131-173 | after any history of requests and steps, a request changes the denylist and the agent exactly if the window admits it and it carries the shared secret and the known type |
| EventTraffic.AcksInSpan | common/revocation/internal_events.py:106-117 | fewer than n minutes hold at most n * 100 acknowledged events for each host that knows the secret |
| EventTraffic.NotCrowdedOut | common/revocation/jti_denylist.py:62-75 | for as many minutes after its last acknowledgement as full loads of events fit the cap, no jti is evicted for capacity |
| EventTraffic.RevokedStaysRevoked | hr_agent/ciba/orchestrator.py:484-500 | in every such run a token revoked with a late enough expiry, and reaching its buffer within that time, is never served again |
| EventTraffic.DeployedRevocationHolds | common/revocation/jti_denylist.py:47 | with a cap of 10,000 and one sending host this covers every token of up to 100 minutes |
| Bystanders.IndexIffRemembered | hr_agent/ciba/orchestrator.py:490-498 | in every run the index sends j to a key iff a token with jti j was cached there and j was neither revoked nor found denied since |
| Bystanders.CachedIsLastStored | hr_agent/ciba/orchestrator.py:792-803 | what is cached under a key is what was last stored under it |
| Bystanders.RevocationDropsBystanderIff | hr_agent/ciba/orchestrator.py:375-378 | in every run a revocation of j drops a token with another jti iff that token overwrote j's and j was not forgotten in between |
| Bystanders.BystanderDropped | hr_agent/ciba/orchestrator.py:794-803 | a run of two flows of one user and scope in which this happens |
| Rendezvous.AwaitsReturnTheirOwnOutcome | common/a2a/server.py:465-502 | a woken await returns its own flow's outcome; a flow is out of the map iff an await took it |
| Rendezvous.ConsumedMeansNotFound | common/a2a/server.py:465-489 | after an await consumed a flow, later awaits and cancels do not find it |
| Rendezvous.FoundUntilConsumed | common/a2a/server.py:465-472 | an await finds a flow, and a cancel signals it, iff it was registered and no await has consumed it |
| Rendezvous.OnlyAwaitsRemove | common/a2a/server.py:561-569 | only an await's wake-up or timeout on that flow removes it, never a cancel |
| Rendezvous.OutcomesAreFinal | common/a2a/server.py:488-495 | an outcome once written does not change |
| TimedRendezvous.NoneExpires | common/a2a/server.py:475-486 | in every timed run of flows with such first intervals, no await takes its timeout |
| TimedRendezvous.AwaitsNeverExpireIff | common/a2a/server.py:475-502 | no await ever expires, in any schedule of flows with this first interval, awaits and cancels, iff the interval is one an await outlasts |
| Rendezvous.A2ARouter.AwaitLookup | common/a2a/server.py:464-472 | found iff pending, and then that very cell |
| Rendezvous.PayloadIff | common/a2a/server.py:491-502 | what is sent is the report unchanged, and the fallback only for a missing one |
| Rendezvous.A2ARouter.AwaitWoken | common/a2a/server.py:488-502 | pops the flow; a written result is the reply, else a written error, and the fallback iff neither was written |
| Rendezvous.A2ARouter.AwaitExpired | common/a2a/server.py:480-486 | pops the flow and returns ERR-CIBA-010 |
| Rendezvous.A2ARouter.Cancel | common/a2a/server.py:561-569 | signals the flow iff it is pending and leaves the map alone |
| AgentSystem.AgentRunIsRun | hr_agent/ciba/orchestrator.py:665-697 | a run of agent and rendezvous together is, seen from the agent, one of the agent's own runs |
| AgentSystem.ReachableTied | hr_agent/ciba/orchestrator.py:665-697 | in every joint run each flow has one pending cell: empty while the flow works, a result naming its token exactly when that token was cached, an error (or nothing, on teardown) exactly when the flow was given up |
| AgentSystem.WokenCallerIsSentItsReport | common/a2a/server.py:488-502 | in every joint run a woken caller is sent its own flow's report unchanged, and the fallback iff that flow's task was torn down |
| AgentSystem.NothingIff | hr_agent/ciba/orchestrator.py:899-901 | a completed cell is without a report iff the task was torn down in the poll or the MCP call |
| AgentSystem.ResultNamesTheCachedToken | hr_agent/ciba/orchestrator.py:788-820 | the token an awaiting caller is told about is the one its own flow obtained and cached for its user and scope |
| AgentSystem.ReportedTokenCanBeRevoked | hr_agent/ciba/orchestrator.py:484-533 | what an await reported is enough to revoke: if the last acknowledged event for that jti carried that expiry and was not crowded out, no token with that jti is served again |
| AgentSystem.CancelledFlowSaysSo | common/auth/ciba_client.py:385-402 | a flow cancelled before its last request never caches a token nor reports a result, and whoever is woken for it is told it was cancelled, unless the task was torn down |
| AgentSystem.ToldCancelledMeansCancelled | hr_agent/ciba/orchestrator.py:847-862 | nobody is told so unless the flow's cancel event was set |
| SingleFlight.AtMostOneMint | common/auth/actor_token_provider.py:177-220 | in every run at most one mint is in progress, the lock holder's |
| SingleFlight.HandedOverIff | common/auth/actor_token_provider.py:177-220 | each step hands its caller the cached token, starts a mint or leaves it waiting, by exactly whether the token is more than 2 s from its expiry and the caller forces |
| SingleFlight.CachedIff | common/auth/actor_token_provider.py:459-470 | in every run the cached token is that of the last successful mint, capped at 10 s, unless invalidated |
| SingleFlight.ServedTokensAreYoung | common/auth/actor_token_provider.py:237-245 | a token served from the cache was minted less than 8 s before |
| SingleFlight.MintsAreSpaced | common/auth/actor_token_provider.py:459-469 | undisturbed, a successful mint is followed by no other for 8 s |
| SingleFlight.BurstMintsOnce | common/auth/actor_token_provider.py:189-200 | a burst that finds no usable token mints exactly once |
| SingleFlight.BurstServesOneToken | common/auth/actor_token_provider.py:189-200 | every caller of such a burst that gets through is the one that minted or is handed the token of that mint |
| SingleFlight.ActorTokenProvider.AcquireLock | common/auth/actor_token_provider.py:190-200 | after the lock: the cached token is returned and the lock released iff the caller does not force and the token is usable, else the lock is kept for the mint |
| SingleFlight.ActorTokenProvider.FinishMint | common/auth/actor_token_provider.py:199-200 | the capped token is cached and returned and the lock released; on failure only released |
| Mint.PickIsOfferedAndLocal | common/auth/actor_token_provider.py:104-126 | the id picked is that of the first local username-and-password authenticator offered, else of the first local one, else of the first |
| Mint.TakesPasswordIff | common/auth/actor_token_provider.py:119-122 | such an authenticator is local and has Basic, Username or Password in its name |
| Mint.Login | common/auth/actor_token_provider.py:334-418 | at most four authn posts, each to the right choice of the list that very step was offered; a code iff the login yields one |
| Mint.MintToken | common/auth/actor_token_provider.py:247-451 | one authorize, at most four authn and one token request; a token iff a code was obtained and exchanged; a failure names the step it failed in |
| Mint.CodeIff | common/auth/actor_token_provider.py:308-418 | exactly which replies yield which code: SUCCESS_COMPLETED on authorize, or the first code of at most four authn replies each asking for more |
| Mint.CodeIsUnique | common/auth/actor_token_provider.py:354-356 | the login yields at most one code |
| KeyCache.KeyCacheIsSound | common/auth/jwt_validator.py:145-173 | at most two fetches a call; a key is from the call's own last fetch or a fetch younger than the TTL; unknown only after an own fetch without it |
| KeyCache.CallAnsweredIff | common/auth/jwt_validator.py:145-160 | a call is answered without a fetch iff the key set is younger than an hour and has the kid |
| KeyCache.FetchAnswersIff | common/auth/jwt_validator.py:107-173 | a fetch replaces the key set and answers its call iff it brought the key, ends it as unknown on the second chance, and as failed if it fails |
| KeyCache.KeyMapFacts | common/auth/jwt_validator.py:136-140 | the key map holds exactly the response's non-empty kids, each with its last entry of the response |
| KeyCache.JWKSCache.FinishRefresh | common/auth/jwt_validator.py:136-173 | the loop builds the key map, replaces the cached one, and the call resumes on it |
| Acceptance.WalkActChain | common/auth/models.py:100-119 | the walk returns the named actors outermost first |
| Acceptance.ChainInOrder | common/auth/models.py:100-119 | the chain lists exactly the depths that name an actor, outermost first |
| Acceptance.SingleActorChain | common/auth/models.py:112-119 | the chain is one actor iff exactly one nesting level, at any depth, names one |
| Acceptance.ChainRefusedIff | common/auth/peer_trust.py:102-137 | for every depth limit, and whether or not a chain is required, refused iff no depth names an actor and one is required, too many do, or one is untrusted |
| Acceptance.ChainAcceptedIff | common/auth/peer_trust.py:102-137 | the chain passes iff exactly one level names an actor and it is trusted |
| Acceptance.SharedAcceptance | common/auth/jwt_validator.py:342-380 | the shared validator, for any audience and required scopes, is decided by its first failing check |
| Acceptance.HRServerTokenValidator.ValidateToken | hr_server/auth/validators.py:257-327 | claims are returned iff every check passes; otherwise the first failing check fixes the error |
| Acceptance.DecisionIs | hr_server/auth/validators.py:257-327 | the result spelled out: signature, audience, jti, actor, scopes and denylist in that order, each with its error id |
| Acceptance.RevokedNeverAccepted | hr_server/auth/validators.py:305-325 | a revoked jti that was not crowded out is refused until its recorded expiry |
| Acceptance.RevocationOutlivesTokenIff | hr_server/auth/validators.py:314-325 | revocation lasts as long as the token passes the time check iff the recorded expiry covers the leeway |

## Left out

- HTTP, routing, JSON-RPC envelopes, payload validation, logging and tracing: replies are typed inputs.
- JWT signatures, PKCE and constant-time comparison: the outcome of signature and issuer checking is an input, and a token carries the jti a decode of it would yield.
- Splitting the scope claim into words, and identity claims such as username and email.
- Tool lookup, required arguments, binding messages and consent payloads of a dispatch: they do not touch the caches.
- The second dispatcher built at startup, which no route uses, and the agent for IT, which follows the same design.
- Sizes of the jti index and of the pending map: the code does not bound them.
- The sweep loop's timing: a sweep may happen at any time.
- The payload returned to the caller on a cache hit, which repeats the served token's jti and times.
- Denylist.Survival: one direction only for capacity, because a sweep between two adds can spare an entry that cap newer ids would otherwise have evicted; LastDistinctJtis gives both directions without sweeps.
- RateLimit.ExactlyTheWindow: assumes the clock does not step back, which time.time() does not guarantee.
- SingleFlight.BurstMintsOnce: the lock may go to any waiter, not only the first in line.
