# Central-Auth: sessions, revocation and resilience, verified

This project models the stateful core of the Central-Auth service in Dafny and proves what
that core guarantees over whole runs: the circuit breaker in front of Redis, the BFF session
protocol (login, resolve, refresh, logout, logout-all), the session blacklist with its outage
path, the five-device cap, the audit consumer, the two rate limiters, the L1 cache wrappers,
the signing-key cache and the Kafka producer.

Each component has a pure description of its state and steps, a class whose methods are the
code and are proved to take exactly those steps, and lemmas about all runs of those steps.
Redis, PostgreSQL and the in-process cache are maps with end times; the clock is an integer
(a real number in the token bucket); outcomes of foreign services are parameters.

`dafny verify dfyconfig.toml` checks everything.

| file | component |
|---|---|
| `CircuitBreaker.dfy`, `BreakerHistory.dfy`, `BreakerProtocol.dfy` | circuit breaker, its history, its concurrent callers |
| `Sessions.dfy` | session store, refresh lock and blacklist in Redis |
| `BffProtocol.dfy` | the BFF operations as interleaving threads |
| `BffService.dfy` | the BFF operations as code, and as undisturbed steps of the protocol |
| `BffRevocation.dfy`, `BffIndex.dfy`, `BffLogoutAll.dfy`, `BffLock.dfy`, `BffTheorems.dfy`, `BffCompletion.dfy`, `BffWeakRuns.dfy` | what holds of every interleaving, and runs in which more fails |
| `ResilientBlacklist.dfy`, `OutageBlacklist.dfy` | blacklist behind the breaker, and one outage |
| `DeviceCap.dfy`, `DeviceRuns.dfy`, `DeviceLru.dfy` | device set and refresh tokens, their runs, the set as an LRU list |
| `DeviceSessions.dfy` | audit table and consumer |
| `L1Wrappers.dfy`, `L1Freshness.dfy` | breaker and cache around sessions and device tokens |
| `TokenBucket.dfy`, `HttpRateLimit.dfy` | rate limiters |
| `Jwks.dfy`, `Producer.dfy` | signing-key cache, Kafka producer |

## Main results

- Revocation is final (`BffTheorems.NoGrantAfterLogout`): once Logout's blacklist write is
  done, no ResolveSession or WhoAmI that starts later is granted, in any interleaving, with any
  failures, even if a racing refresh writes the session back. A Logout that ends without an error
  has done that write (`BffCompletion.NoGrantAfterCompletedLogout`).
- LogoutAll (`BffTheorems.NoGrantAfterLogoutAll`) gives the same, session by session, for what
  was in the index when it was read. When all sessions of the user share one lifetime that is
  every live session (`BffTheorems.LogoutAllEndsEverySession`); `BffIndex.IndexCompleteIff` says
  step by step exactly when a user's index stays complete, and
  `BffTheorems.GrantAfterLogoutAllIff` exactly when a session can come back.
- The breaker is CLOSED exactly when few failures followed the last success
  (`BreakerHistory.ClosedIffFewFailures`), admits exactly one probe per HALF-OPEN episode and is
  never stuck (`BreakerProtocol`), and probes rarely (`BreakerHistory.ProbesAreRare`).
- During an outage the blacklist agrees with a map of latest end times, with every call split
  between table and cache (`OutageBlacklist.NeverFalseBeforeEnd`, `NeverTrueLongAfterEnd`).
- The consumer's table converges to the log applied once under any crashes and redeliveries
  (`DeviceSessions.ConvergesToOnce`).
- The device set is an LRU of five (`DeviceLru.SetHoldsFiveMostRecent`). In every run a LogoutAll
  split into its Redis commands ends every token exactly if no login overtakes it and no earlier
  LogoutAll left an orphan (`DeviceRuns.LogoutAllFinishesIff`); in runs where none misses a login,
  no live token is ever without a listed device (`DeviceRuns.NoTokenWithoutDevice`).
- A key deleted from Redis can come back through the L1 cache exactly if a read or write of it
  lingers (`L1Freshness.DeletionFinalIff`).

## What the code does not do

Stated as lemmas, each with the exact condition where one exists:

- A login with a shorter life than a live session of the same user shortens the user's session
  index; afterwards a LogoutAll can succeed and leave the longer session usable
  (`BffWeakRuns.LongerSessionSurvivesLogoutAll`). The index also loses a session that a refresh
  writes back after its deletion, and one created while LogoutAll deletes the index
  (`BffIndex.IndexCompleteIff`).
- A session that was in the index when a LogoutAll read it, but that another LogoutAll deleted
  without blacklisting it before this one looked, is granted again after a refresh writes it
  back (`BffWeakRuns.RefreshOutlivesLogoutAll`).
- A blacklist lookup overtaken by an addition caches its old answer
  (`OutageBlacklist.OvertakenLookupHidesRevocation`), for one cache lifetime at most. A negative
  lifetime makes the cache say "blacklisted" for ever
  (`OutageBlacklist.NegativeLifetimeNeverEnds`, `BoundedIffLifetimeNotNegative`).
- The comment on the upsert says a replayed message cannot un-revoke a device; a redelivered
  stretch that contains an older login does (`DeviceSessions.ReplayKeepsRevokedIff`).
- The comment on the key cache promises retired keys the grace period after a refresh; the code
  counts it from the retired keys' own fetch, so a refresh made because the cache was stale
  leaves none (`Jwks.StaleRefreshLeavesNoGrace`), and any second refresh ends it
  (`Jwks.SecondRefreshEndsGrace`). `Jwks.RetiredKidAcceptedIff` is the exact condition.
- RotateRefreshToken does not look at the device set (`DeviceCap.RotationSafeIff`), and a login
  during LogoutAll leaves a token without a device (`DeviceRuns.LoginDuringLogoutAllIsOrphaned`),
  which a second LogoutAll does not find either (`DeviceRuns.RetryMissesOrphan`). The first
  refresh after a short login lets the token outlive the set
  (`DeviceCap.RefreshAfterShortLoginOutlivesSet`).
- The comment on Delete of the L1 wrapper says a deleted session is never served from the cache.
  It is after a read inside the Delete, or a read or write that straddles it
  (`L1Freshness.ReadInsideDeleteBringsBack`, `StraddlingReadBringsBack`,
  `StraddlingWriteBringsBack`).
- LogoutAll of the device tokens never evicts the L1 cache, so a deleted token is served until
  its cache item ends (`L1Freshness.LogoutAllLeavesCached`).
- A refresh that outlives its lock admits a second one (`BffWeakRuns.OverdueWinnerLosesExclusion`),
  and when it releases the lock a third (`BffWeakRuns.OverdueReleaseLetsInThird`).
- The comment above LogoutAll of the BFF says tokens are revoked before blacklisting; the code,
  and the model, blacklist first.

## Model

| member | source | states |
|---|---|---|
| `CircuitBreakers.CircuitBreaker.constructor` | internal/resilience/circuit_breaker.go:109-120 | for every configuration a new breaker is CLOSED with no failures, no probe and no trip |
| `CircuitBreakers.CircuitBreaker.Allow` | internal/resilience/circuit_breaker.go:131-154 | who is admitted, and that an elapsed OPEN becomes HALF-OPEN with the slot taken |
| `CircuitBreakers.CircuitBreaker.RecordSuccess` | internal/resilience/circuit_breaker.go:157-166 | closes, clears the counter and frees the slot |
| `CircuitBreakers.CircuitBreaker.RecordFailure` | internal/resilience/circuit_breaker.go:169-206 | for every configuration, in 64-bit arithmetic that wraps: trips at the threshold, re-opens a failed probe with a longer backoff, ignores failures while OPEN |
| `CircuitBreakers.NothingWraps` | internal/resilience/circuit_breaker.go:169-252 | with a jitter below 50 percent and a cap of at most 2^57 ns that is the unbounded effect, but for the next probe time at the very end of the clock, and the backoff stays within the jittered cap |
| `CircuitBreakers.CircuitBreaker.ResetBackoff` | internal/resilience/circuit_breaker.go:224-228 | the backoff becomes the jittered base |
| `CircuitBreakers.CircuitBreaker.ExtendBackoff` | internal/resilience/circuit_breaker.go:232-240 | the backoff becomes the jittered, capped double |
| `CircuitBreakers.CircuitBreaker.JitterInt64` | internal/resilience/circuit_breaker.go:244-252 | the jittered interval in 64-bit arithmetic that wraps |
| `CircuitBreakers.JitterDoesNotWrap` | internal/resilience/circuit_breaker.go:244-252 | in a sound configuration that equals the unbounded computation and stays under the jittered cap |
| `CircuitBreakers.JitterStaysClose` | internal/resilience/circuit_breaker.go:244-252 | jitter moves an interval by at most its percentage |
| `BreakerHistory.ClosedIffFewFailures` | internal/resilience/circuit_breaker.go:131-206 | CLOSED iff fewer failures than the limit since the last success, whatever Allow calls and time; the trip counter counts how often the limit was reached |
| `BreakerHistory.FewFailuresAdmitEverybody` | internal/resilience/circuit_breaker.go:131-135 | with fewer failures than the limit since the last success every caller is let through and nothing changes |
| `BreakerHistory.SuccessAdmitsEverybody` | internal/resilience/circuit_breaker.go:157-166 | after a success every caller is let through, whatever came before |
| `BreakerHistory.ProbeExactlyAfterBackoff` | internal/resilience/circuit_breaker.go:136-206 | after a trip or failed probe the next caller is let through, alone, exactly from one backoff later on; late failures and refused callers do not restart the wait |
| `BreakerHistory.TripWaitsForBase` | internal/resilience/circuit_breaker.go:222-228 | a trip waits for the base interval up to its jitter |
| `BreakerHistory.ThresholdBeyondCounterNeverTrips` | internal/resilience/circuit_breaker.go:184-186 | a threshold above the 32-bit counter never trips |
| `BreakerHistory.BackoffBounded` | internal/resilience/circuit_breaker.go:222-252 | every backoff after a trip lies between the jittered base and the jittered cap |
| `BreakerHistory.GrowsIffJitterBelowHalf` | internal/resilience/circuit_breaker.go:232-252 | an uncapped backoff grows for every draw iff the jitter is below 50 percent |
| `BreakerHistory.WaitsGrowThenStay` | internal/resilience/circuit_breaker.go:169-252 | after a trip, while no success is recorded, the waits of failed probes grow strictly until doubling reaches the cap, then stay within the jitter of it |
| `BreakerHistory.BackoffGrowsThenStays` | internal/resilience/circuit_breaker.go:232-252 | the same of any number of extensions in a row, from any backoff |
| `BreakerHistory.ProbesAreRare` | internal/resilience/circuit_breaker.go:136-206 | after a trip, probes admitted times the shortest backoff is at most the time passed |
| `BreakerProtocol.OneProbeInFlight` | internal/resilience/circuit_breaker.go:131-206 | in every interleaving HALF-OPEN iff the slot is taken, with exactly one call admitted in the episode and still in flight |
| `BreakerProtocol.NeverStuckHalfOpen` | internal/resilience/circuit_breaker.go:149-206 | in HALF-OPEN some call is in flight and any outcome of any call ends HALF-OPEN |
| `BreakerProtocol.ClosedAdmitsEverybody` | internal/resilience/circuit_breaker.go:131-135 | in CLOSED every caller gets in flight, in every interleaving |
| `BreakerProtocol.OpenAdmitsAfterBackoff` | internal/resilience/circuit_breaker.go:136-151 | in OPEN the next caller is admitted iff the backoff is over |
| `BreakerProtocol.WrapperCallIsTwoMoves` | internal/resilience/resilient_session_store.go:61-78 | a wrapper call is Allow and, if admitted, exactly one record |
| `Sessions.RedisStore.CreateSession` | internal/session/store.go:54-74 | session and index keys written with the session's remaining life, or the default one if it is over |
| `Sessions.RedisStore.GetSession` | internal/session/store.go:77-91 | the stored session until its end, nothing afterwards |
| `Sessions.RedisStore.UpdateSession` | internal/session/store.go:95-105 | rewrites the session up to its own end; refuses a session past it |
| `Sessions.RedisStore.DeleteSession` | internal/session/store.go:108-124 | removes session and index entry; nothing if the session is absent |
| `Sessions.RedisStore.GetAllForUser` | internal/session/store.go:129-164 | exactly the live sessions of the index, each once |
| `Sessions.RedisStore.DeleteAllForUser` | internal/session/store.go:168-186 | deletes every listed session and the index, and returns the ids |
| `Sessions.RedisStore.AcquireRefreshLock` | internal/session/store.go:191-194 | acquired iff no live lock, then held for its lifetime |
| `Sessions.RedisStore.ReleaseRefreshLock` | internal/session/store.go:197-199 | the lock is gone, nothing else changes |
| `Sessions.CreateThenRead` | internal/session/store.go:54-91 | a created session is read back exactly until its end, and its index lists it for as long; nothing else changes |
| `Sessions.UpdateThenRead` | internal/session/store.go:77-105 | an updated session is read back exactly until its own end; nothing else changes |
| `Sessions.DeleteThenRead` | internal/session/store.go:108-124 | a deleted session is gone from store and index; nothing else is |
| `Sessions.DeleteUserThenRead` | internal/session/store.go:168-186 | the listed sessions and the index are gone; nothing else is |
| `Sessions.LockThenRead` | internal/session/store.go:191-199 | a lock is held exactly for its lifetime or until released |
| `Sessions.BlacklistThenRead` | internal/blacklist/blacklist.go:53-73 | an entry answers "blacklisted" exactly for its life, a minute if that is not positive |
| `Sessions.BatchThenRead` | internal/blacklist/blacklist.go:67-88 | a batch answers exactly for its life, and is nothing if that is not positive |
| `Sessions.RedisBlacklist.Add` | internal/blacklist/blacklist.go:53-63 | an entry for the given life, or 60 seconds if that is not positive |
| `Sessions.RedisBlacklist.IsBlacklisted` | internal/blacklist/blacklist.go:67-73 | true iff the entry is live or the read fails, with the error |
| `Sessions.RedisBlacklist.AddBatch` | internal/blacklist/blacklist.go:76-88 | all ids for one life; nothing if that is not positive |
| `Sessions.MaxTtl` | internal/service/bff_service.go:374-381 | no remaining life is larger |
| `Sessions.MaxTtlIsAttained` | internal/service/bff_service.go:374-381 | it is the remaining life of one of the sessions |
| `Sessions.CollectForBatch` | internal/service/bff_service.go:374-381 | ids of all sessions in order, and the largest remaining life |
| `Sessions.AwaitWinner` | internal/service/bff_service.go:234-254 | at most ten polls; the first newer session is returned at once, the original if cancelled; after the whole wait what the last read answers, or the original if it fails |
| `BffRevocation.KeptByStep` | internal/service/bff_service.go:89-436 | every step keeps: stored copies are genuine and end with their session, blacklist entries outlive revoked sessions, late callers hold nothing |
| `BffRevocation.KeptByWriteBack` | internal/service/bff_service.go:275-281 | a refresh writes back the same owner, device and end |
| `BffRevocation.KeptByMarkRevoked` | internal/service/bff_service.go:299-315 | Logout's entry lasts at least as long as the session |
| `BffRevocation.KeptByMarkAll` | internal/service/bff_service.go:374-388 | the batch entry outlives every session in the batch |
| `BffRevocation.RevocationIsFinal` | internal/service/bff_service.go:187-349 | a call whose check came after the blacklist write is never granted |
| `BffRevocation.GrantKeepsIdentity` | internal/service/bff_service.go:222-291 | every result has the session id asked for, and the owner, device and end of its creation |
| `BffTheorems.NoGrantAfterLogout` | internal/service/bff_service.go:187-349 | after Logout's blacklist write no later call is granted, for every continuation |
| `BffCompletion.CompletedLogoutRevoked` | internal/service/bff_service.go:299-315 | in every run a Logout past its blacklist write, or ended without an error, has its session revoked |
| `BffCompletion.NoGrantAfterCompletedLogout` | internal/service/bff_service.go:187-349 | after a Logout that found its session ends without an error, no later call is granted it, for every continuation |
| `BffCompletion.CompletedLogoutAllListed` | internal/service/bff_service.go:357-372 | a LogoutAll that found its session and ends without an error has read the index |
| `BffCompletion.NoGrantAfterCompletedLogoutAll` | internal/service/bff_service.go:354-416 | and no later call is granted a session in that index, if it is revoked or under the condition of `NoGrantAfterLogoutAll` |
| `BffCompletion.PassesIff` | internal/service/bff_service.go:187-207 | a call passes its check iff the blacklist could be read and has no live entry, and gets a session iff that could be read and is live |
| `BffCompletion.FailedReadIsNeverGranted` | internal/service/bff_service.go:187-207 | a call whose read of blacklist or session failed is never granted, whatever follows |
| `BffCompletion.NearEndIsRefreshed` | internal/service/bff_service.go:209-218 | a session in hand is returned iff the call is a WhoAmI or its token is not near its end, and refreshed otherwise |
| `BffCompletion.LoserGetsNewerToken` | internal/service/bff_service.go:229-254 | a caller that lost the lock is granted the stored session as soon as its token is newer, and what is stored when the wait is over |
| `BffService.Bff.Login` | internal/service/bff_service.go:89-180 | a session for 7 or 30 days is created iff tokens were issued, and is that of the protocol's login |
| `BffService.Bff.Logout` | internal/service/bff_service.go:296-349 | has the effect and the answer of `LogoutCall`, whatever fails |
| `BffService.LogoutCallMeans` | internal/service/bff_service.go:296-349 | without an error a live session is blacklisted exactly until its end, and gone if nothing failed; with one, store and index are as before; other sessions are untouched |
| `BffService.LogoutStepsAreCall` | internal/service/bff_service.go:296-349 | the protocol steps of one Logout, undisturbed, have that effect and answer |
| `BffService.Bff.LogoutAll` | internal/service/bff_service.go:354-416 | looks the session up, lists the index, and has the effect and the answer of `LogoutAllCall`, whatever fails |
| `BffService.LogoutAllCallMeans` | internal/service/bff_service.go:374-416 | without an error every live session of the index is blacklisted for its life, and index and sessions are gone if nothing failed; sessions outside the index are untouched |
| `BffService.LogoutAllStarts` | internal/service/bff_service.go:357-372 | the protocol's first steps of a LogoutAll, with every failure |
| `BffService.CollectsFound` | internal/session/store.go:129-164 | looking up the listed ids one by one finds exactly the live sessions |
| `BffService.LogoutAllStepsAreCall` | internal/service/bff_service.go:374-416 | the protocol's other steps, undisturbed, have the effect and answer of the code |
| `BffService.Bff.Resolve` | internal/service/bff_service.go:187-291 | has the effect and the answer of `ResolveCall`; a caller that finds the lock taken waits as `AwaitWinner` does |
| `BffService.Bff.Refresh` | internal/service/bff_service.go:256-291 | new tokens and a stored session if all went well, the old session otherwise; the lock released |
| `BffService.ResolveCallMeans` | internal/service/bff_service.go:187-218 | a session is answered iff blacklist and session could be read, there is no live entry and the session is live; with new tokens, stored as well, iff it was near its end and the refresh went through |
| `BffService.ResolveStepsAreCall` | internal/service/bff_service.go:187-291 | the protocol steps of one call, undisturbed, have that effect and answer |
| `BffTheorems.NoGrantAfterLogoutAll` | internal/service/bff_service.go:354-416 | after LogoutAll's batch write no later call is granted a session that was in the index when it was read, if the LogoutAll found it or no refresh brings it back to harm after it was deleted; other sessions and users do not matter |
| `BffTheorems.GrantAfterLogoutAllIff` | internal/service/bff_service.go:187-416 | a session not settled by the batch write is granted to the next call; a settled one can be granted to a later call exactly after a step that brings it back unmarked, or while a call waits that was past its check before it was marked |
| `BffTheorems.LogoutAllEndsEverySession` | internal/service/bff_service.go:354-416 | if all sessions of the user share one lifetime, the same as the first of these for every session that was live when the index was read |
| `BffTheorems.LiveSessionIsGranted` | internal/service/bff_service.go:187-218 | a live, unrevoked session with a token that is not near its end is granted as stored |
| `BffTheorems.RefreshDelivers` | internal/service/bff_service.go:256-291 | a refresh delivers the new tokens, stores the same session, and releases the lock |
| `BffIndex.IndexCompleteIff` | internal/session/store.go:54-186 | a user's complete index stays complete iff the step's guard for that user holds (login not shortening, write-back of a present session, deletion of all live ids) |
| `BffIndex.NoGhostsKept` | internal/session/store.go:54-186 | an id in a live index that is not past its end is in the store |
| `BffIndex.IndexAlwaysComplete` | internal/session/store.go:54-186 | in runs guarded for a user every live session of that user is in the index, which does not expire first |
| `BffIndex.OneTtlKeepsIndexComplete` | internal/session/store.go:54-186 | if all logins of a user last equally long and the user's write-backs and index deletions are guarded, the index lists every live session in every state |
| `BffIndex.PurgeEmptiesUserIff` | internal/session/store.go:168-186 | the deletion leaves no live session of the user iff all were in the listed ids |
| `BffIndex.DeleteRemovesSession` | internal/session/store.go:108-124 | the session is neither live nor in any index |
| `BffLogoutAll.TrackedIff` | internal/service/bff_service.go:354-388 | a LogoutAll that read a session's id in the index will look for it, has found it, or it cannot be granted, exactly until a refresh brings it back unmarked after it was looked for in vain |
| `BffLogoutAll.NextCallGrantedIff` | internal/service/bff_service.go:187-218 | an undisturbed new call is granted a session iff it is live and was never marked as revoked |
| `BffLogoutAll.SettledIff` | internal/service/bff_service.go:275-281 | a session that no new call is granted becomes available again iff a refresh brings it back and it was never marked |
| `BffLogoutAll.BarredIff` | internal/service/bff_service.go:187-291 | a session that no later call can be granted stays so iff the step does not bring it back to harm |
| `BffLogoutAll.LogoutAllTouchesOnlyItsUser` | internal/service/bff_service.go:354-416 | sessions, entries and index of other users are untouched by every step |
| `BffLock.OneRefreshAtATime` | internal/service/bff_service.go:222-291 | if every winner of a session's lock releases in time, no two callers are between acquire and release for that session, whatever happens to others |
| `BffLock.ExclusionLostIff` | internal/service/bff_service.go:222-256 | exclusion is lost exactly when a caller is given a lock that is not live while another is between acquire and release |
| `BffLock.AskKeepsLockInv` | internal/session/store.go:191-194 | a live lock is not given to a second caller |
| `BffWeakRuns.LongerSessionSurvivesLogoutAll` | internal/session/store.go:67-69 | for any two sessions of a user that end at different times, the shorter created last, a LogoutAll can succeed and the longer session still be granted |
| `BffWeakRuns.RefreshOutlivesLogoutAll` | internal/service/bff_service.go:275-416 | for any two sessions of a user, a run in which a LogoutAll reads the index, goes through, and one of the sessions in it is granted afterwards |
| `BffWeakRuns.OverdueWinnerLosesExclusion` | internal/service/bff_service.go:223-256 | a winner that overstays its lock shares the section with a second caller |
| `BffWeakRuns.OverdueReleaseLetsInThird` | internal/service/bff_service.go:256-256 | its release then deletes the second caller's lock, and a third enters while the second is in time |
| `ResilientBlacklists.ResilientBlacklist.IsBlacklisted` | internal/resilience/resilient_blacklist.go:65-96 | Redis's answer, cached, when it gives one; otherwise cache, then table, then deny with an error; one breaker record per admitted call |
| `ResilientBlacklists.ResilientBlacklist.Add` | internal/resilience/resilient_blacklist.go:102-127 | cache after Redis, or table and cache without it; nothing if the table fails |
| `ResilientBlacklists.ResilientBlacklist.AddBatch` | internal/resilience/resilient_blacklist.go:190-221 | all ids through Redis, or the ids before the first failed write through the table |
| `ResilientBlacklists.ResilientBlacklist.AddBatchInOutage` | internal/resilience/resilient_blacklist.go:211-220 | table and cache hold exactly the prefix before the first failed write |
| `ResilientBlacklists.ResilientBlacklist.SyncFromPg` | internal/resilience/resilient_blacklist.go:163-187 | the cache gains exactly the active rows, each until its own end |
| `OutageBlacklist.NeverFalseBeforeEnd` | internal/resilience/resilient_blacklist.go:79-127 | while no lookup of the id was overtaken, whatever the order of calls, re-adds, syncs, clean-ups and table errors, "not blacklisted" is told before the latest end of the completed additions iff that very lookup was overtaken |
| `OutageBlacklist.SafeIffNotOvertaken` | internal/resilience/resilient_blacklist.go:86-127 | a step makes the cache, or its own answer, deny a revoked id iff it ends a lookup that read "no" before an addition, still in force, completed |
| `OutageBlacklist.MarkedIffAdditionCompleted` | internal/resilience/resilient_blacklist.go:86-127 | a lookup under way is marked as overtaken iff an addition of its id completed since its read |
| `OutageBlacklist.OvertakenLookupHidesRevocation` | internal/resilience/resilient_blacklist.go:86-95 | an overtaken lookup makes callers hear "not blacklisted" about a revoked id |
| `OutageBlacklist.OvertakenLookupMisleadsOneLifetime` | internal/resilience/resilient_blacklist.go:86-95 | in every run such an answer comes from a lookup that ended at most one cache lifetime ago |
| `OutageBlacklist.NeverTrueLongAfterEnd` | internal/resilience/resilient_blacklist.go:79-187 | where calls for the id take at most d to reach the cache, "blacklisted" is told at most d and one cache lifetime after the latest end given or held at the start, and only for ids that have one |
| `OutageBlacklist.NegativeLifetimeNeverEnds` | internal/resilience/resilient_blacklist.go:118-125 | after an addition with a negative life the cache says "blacklisted" at any later time |
| `OutageBlacklist.BoundedIffLifetimeNotNegative` | internal/resilience/resilient_blacklist.go:118-125 | a step of a call that takes at most d keeps that bound iff it does not complete an addition of the id with a negative life |
| `OutageBlacklist.UninterruptedLookupIsSafe` | internal/resilience/resilient_blacklist.go:79-96 | a lookup that nothing interrupts is never overtaken and is the whole-call lookup |
| `OutageBlacklist.LookupAnswers` | internal/resilience/resilient_blacklist.go:79-91 | a cached answer is told as it is; a table that is needed and fails denies with an error |
| `OutageBlacklist.LookupNotFalseBeforeEnd` | internal/resilience/resilient_blacklist.go:79-96 | a whole lookup answers "blacklisted" until the latest end of the completed additions, whatever answers, in every run in which no lookup of the id was overtaken |
| `OutageBlacklist.CacheCarriesAnswers` | internal/resilience/resilient_blacklist.go:80-125 | an addition is answered from the cache for its life even without the table, a lookup's answer for one cache lifetime |
| `OutageBlacklist.SyncIsSteps` | internal/resilience/resilient_blacklist.go:163-187 | listing the table and caching row by row is the whole sync |
| `OutageBlacklist.BatchIsAdditions` | internal/resilience/resilient_blacklist.go:211-220 | a batch prefix is its additions one by one |
| `DeviceCap.RedisRepository.SaveLoginScript` | internal/repository/redis_repository.go:55-100 | eviction, ZADD, token and expiry as the script does them, including its abort at a life that is not positive |
| `DeviceCap.RedisRepository.GetDeviceRefreshToken` | internal/repository/redis_repository.go:109-115 | the live token of the device, or none |
| `DeviceCap.RedisRepository.RotateRefreshToken` | internal/repository/redis_repository.go:119-121 | overwrites the token only; a life that is not positive means no expiry |
| `DeviceCap.RedisRepository.LogoutDeviceScript` | internal/repository/redis_repository.go:134-147 | removes the device and its token together |
| `DeviceCap.RedisRepository.LogoutAll` | internal/repository/redis_repository.go:158-180 | an uninterrupted call deletes tokens in chunks and the set last; a failure leaves the set and the later tokens |
| `DeviceRuns.UninterruptedLogoutAll` | internal/repository/redis_repository.go:158-180 | listing, deleting each token and dropping the set, taken in one go, are that call |
| `DeviceRuns.AlwaysCapped` | internal/repository/redis_repository.go:55-180 | in every run at most five devices, each once |
| `DeviceRuns.NoTokenWithoutDevice` | internal/repository/redis_repository.go:55-180 | in every run in which no LogoutAll drops the set when it misses a login, with LogoutAlls that stop anywhere, live tokens only of listed devices, and a set that does not expire before them |
| `DeviceRuns.BackedUnlessDropped` | internal/repository/redis_repository.go:55-180 | in every run, a live token written since the set was last dropped has its device listed in a set that lasts as long |
| `DeviceRuns.LogoutAllFinishesIff` | internal/repository/redis_repository.go:158-180 | in every run, dropping the set leaves no device; it leaves no live token, and none without a device, iff no login with a token still alive came after the listing for a device not listed or whose token was deleted already, or before the listing with the set dropped in between |
| `DeviceRuns.LoginDuringLogoutAllIsOrphaned` | internal/repository/redis_repository.go:160-179 | the run of listing, login and dropping the set: the device is gone and its token stays |
| `DeviceRuns.RetryFinishesIff` | internal/repository/redis_repository.go:154-180 | in every run, a LogoutAll that goes through while nobody logs in leaves no device, and no live token iff no earlier LogoutAll orphaned one that is still alive |
| `DeviceRuns.RetryMissesOrphan` | internal/repository/redis_repository.go:154-180 | the run of an overtaken LogoutAll and a second one in peace: the token stays |
| `DeviceRuns.SixthDeviceEvictsAnOldest` | internal/repository/redis_repository.go:65-83 | in every run a sixth device replaces exactly one, the first by login second and name, with its token; other tokens stay |
| `DeviceCap.LogoutDeviceRemovesOne` | internal/repository/redis_repository.go:134-138 | one device and its token go, nothing else |
| `DeviceCap.LoginIsRead` | internal/repository/redis_repository.go:55-115 | after a login the device's token is the new one exactly until its end, the set lasts at least as long, and other tokens stay but for an evicted device's |
| `DeviceCap.RotationIsRead` | internal/repository/redis_repository.go:109-121 | after a rotation the device's token is the new one, until its end if it has one; nothing else changes |
| `DeviceRuns.AlwaysSorted` | internal/repository/redis_repository.go:55-83 | in every run the set is in order of login time, and of name within a second |
| `DeviceCap.RotationSafeIff` | internal/repository/redis_repository.go:119-121 | rotation leaves every live token with a device iff the device is listed, the token expires and the set lasts as long |
| `DeviceCap.RefreshAfterShortLoginOutlivesSet` | internal/service/bff_service.go:283-285 | the first refresh after a short login, which always rotates with the long life, leaves a token that outlives the set, unless another device keeps the set longer |
| `DeviceLru.LoginIsTouch` | internal/repository/redis_repository.go:65-77 | a login moves its device to the back of the list and keeps five |
| `DeviceLru.DeviceSetIsLru` | internal/repository/redis_repository.go:55-147 | over any run of logins and logouts with increasing times the set is that list |
| `DeviceLru.SetHoldsFiveMostRecent` | internal/repository/redis_repository.go:55-100 | a device is in the set iff it logged in and fewer than five others did since |
| `DeviceSessions.DeviceSessionConsumer.SaveDeviceSession` | internal/repository/device_session_repository.go:47-75 | the row is inserted, or merged by the conflict rules |
| `DeviceSessions.DeviceSessionConsumer.UpdateLastUsedAt` | internal/repository/device_session_repository.go:78-87 | sets one row's last use, changes no other row |
| `DeviceSessions.DeviceSessionConsumer.RevokeDevice` | internal/repository/device_session_repository.go:90-99 | revokes one row, changes no other |
| `DeviceSessions.DeviceSessionConsumer.RevokeAllDevices` | internal/repository/device_session_repository.go:102-111 | revokes all rows of the identity, changes no other |
| `DeviceSessions.DeviceSessionConsumer.ProcessMessage` | internal/kafka/consumer.go:151-213 | skips malformed and foreign messages and rows that cannot be saved, upserts the row of an auth-session event |
| `DeviceSessions.DeviceSessionConsumer.Run` | internal/kafka/consumer.go:101-137 | processes the fetched messages in order until stopped, each committed afterwards whatever came of it; waits after each failed fetch as long as the failures in a row before it demand |
| `DeviceSessions.WaitsGrow` | internal/kafka/consumer.go:111-121 | those waits start at 100 ms, grow by half, and stay at 30 s |
| `DeviceSessions.RoundsAreEvents` | internal/kafka/consumer.go:101-137 | the loop is a run of the consumer whose crashes and redeliveries are studied below |
| `DeviceSessions.FoldRow` | internal/repository/device_session_repository.go:35-68 | after any log a row has the last JTI brought, the last context, the latest use, and is revoked iff it was and no other JTI came |
| `DeviceSessions.ReplayAbsorbed` | internal/repository/device_session_repository.go:47-75 | a redelivered stretch is absorbed by the rest of the log |
| `DeviceSessions.ConvergesToOnce` | internal/kafka/consumer.go:101-136 | under any crashes, lost commits and redeliveries, a consumer that has caught up has applied the log exactly once |
| `DeviceSessions.ReplayKeepsRevokedIff` | internal/repository/device_session_repository.go:43-66 | a revoked row survives a redelivery iff it brings no JTI but the row's own |
| `DeviceSessions.RedeliveredOldLoginUnrevokes` | internal/repository/device_session_repository.go:43-66 | two logins with different JTIs, redelivered after a revocation, un-revoke the row |
| `DeviceSessions.ReplayKeepsLatestUse` | internal/repository/device_session_repository.go:41-60 | after any delivery the last use is at least what it was and at least the time of every event for the row, and is one of these |
| `DeviceSessions.UnparsedTimeIsNow` | internal/kafka/consumer.go:175-184 | an event has its own time, or that of processing if it does not parse, and processing it again later changes nothing iff it parses |
| `TokenBuckets.TokenBucket.constructor` | internal/grpc/interceptor/token_bucket.go:18-26 | a new bucket is full |
| `TokenBuckets.TokenBucket.Allow` | internal/grpc/interceptor/token_bucket.go:29-46 | refills up to the cap and admits iff a whole token is there, which it spends |
| `TokenBuckets.WindowBound` | internal/grpc/interceptor/token_bucket.go:18-46 | in any window of T seconds at most rpm + rpm * T / 60 calls are admitted |
| `TokenBuckets.SpacedCallerNeverRefused` | internal/grpc/interceptor/token_bucket.go:18-46 | calls at least 60 / rpm seconds apart are all admitted |
| `TokenBuckets.BurstIsAdmitted` | internal/grpc/interceptor/token_bucket.go:37-45 | a bucket with n tokens admits n calls at one instant |
| `TokenBuckets.FullBurstAdmitted` | internal/grpc/interceptor/token_bucket.go:18-46 | a new bucket admits rpm calls at its first instant, and no more |
| `TokenBuckets.RefusalIsInvisible` | internal/grpc/interceptor/token_bucket.go:29-46 | a refused call costs nothing |
| `TokenBuckets.NoRateNoCalls` | internal/grpc/interceptor/token_bucket.go:37-43 | a rate of zero or less admits nothing |
| `HttpRateLimit.RateLimiter.Allow` | internal/http/middleware/rate_limit.go:72-89 | counts in the address's window, opening a new one when it is over; a limit of zero admits all |
| `HttpRateLimit.RateLimiter.Sweep` | internal/http/middleware/rate_limit.go:58-68 | forgets exactly the buckets stale for two windows |
| `HttpRateLimit.SweepingIsInvisible` | internal/http/middleware/rate_limit.go:54-89 | with sweeps anywhere, the answers are those of a limiter that never forgets |
| `HttpRateLimit.AtMostTwiceTheLimit` | internal/http/middleware/rate_limit.go:72-89 | at most 2 * limit - 1 admissions of an address in any half-open window-long interval |
| `HttpRateLimit.BoundIsReached` | internal/http/middleware/rate_limit.go:72-89 | for every limit a run with a forward clock reaches that bound |
| `HttpRateLimit.OthersDoNotMatter` | internal/http/middleware/rate_limit.go:54-89 | an address is answered as if its calls came alone |
| `HttpRateLimit.FirstCallsAdmitted` | internal/http/middleware/rate_limit.go:72-89 | within a window calls are admitted up to the limit |
| `HttpRateLimit.ZeroAdmitsAll` | internal/http/middleware/rate_limit.go:72-75 | a limit of zero admits everybody |
| `L1Wrappers.ResilientStore.Get` | internal/resilience/resilient_session_store.go:53-79 | cache first; then Redis through the breaker, caching a value found; the down answer otherwise |
| `L1Wrappers.ResilientStore.Put` | internal/resilience/resilient_session_store.go:82-115 | writes Redis and cache together, or neither |
| `L1Wrappers.ResilientStore.Delete` | internal/resilience/resilient_session_store.go:120-135 | the cache always lets go; Redis only if the call goes through |
| `L1Wrappers.ResilientStore.Logout` | internal/resilience/resilient_redis_repo.go:108-123 | Redis, then the cache, or neither |
| `L1Wrappers.ResilientStore.DeleteAll` | internal/resilience/resilient_session_store.go:158-173 | every reported id leaves Redis and cache, or none does |
| `L1Wrappers.ResilientStore.LogoutAll` | internal/resilience/resilient_redis_repo.go:126-140 | the tokens leave Redis, the cache keeps what it has |
| `L1Freshness.WholeCallsAreSteps` | internal/resilience/resilient_session_store.go:53-135 | uninterrupted reads, writes and deletions are the calls above |
| `L1Freshness.ReturnedWasHeldRecently` | internal/resilience/resilient_session_store.go:53-115 | where calls take at most d from Redis to the cache, whatever is returned is a value Redis held within the last L1 lifetime plus d, however Redis changes |
| `L1Freshness.UnoverlappedDeleteIsFinal` | internal/resilience/resilient_session_store.go:117-135 | after a Delete that no read or write of the session overlaps, no read returns it until it is written again |
| `L1Freshness.DeletionFinalIff` | internal/resilience/resilient_session_store.go:53-135 | a key gone from Redis can be returned without being written again iff a read or write of it has not reached the cache yet, or reached it after the last eviction and at most an L1 lifetime ago |
| `L1Freshness.ReadInsideDeleteBringsBack` | internal/resilience/resilient_session_store.go:120-135 | a read between the eviction and the deletion in Redis returns the deleted session to the cache |
| `L1Freshness.StraddlingReadBringsBack` | internal/resilience/resilient_session_store.go:65-79 | so does a read that straddles a whole Delete |
| `L1Freshness.StraddlingWriteBringsBack` | internal/resilience/resilient_session_store.go:82-115 | and a Create or Update whose Redis write a whole Delete follows |
| `L1Freshness.LogoutAllLeavesCached` | internal/resilience/resilient_redis_repo.go:126-140 | a cached device token is served after LogoutAll until its cache item ends |
| `Jwks.JwksCache.RefreshJwks` | internal/hydra/client.go:686-731 | rotates the generations iff the fetch brought a usable key; otherwise changes nothing |
| `Jwks.UsableKeysIff` | internal/hydra/client.go:709-724 | a kid is known iff an RSA entry for signatures with a key that parses has it; the last such entry gives the key |
| `Jwks.JwksCache.ResolveKey` | internal/hydra/client.go:670-684 | a cached key while fresh, otherwise one after a fetch |
| `Jwks.CacheIsLastTwo` | internal/hydra/client.go:226-233 | in every run the cache is the last two successful fetches |
| `Jwks.ResolvedFromLastTwo` | internal/hydra/client.go:205-239 | a resolved key is from the latest fetch, at most an hour old, or from the one before, younger than the grace period |
| `Jwks.LookupFindsIff` | internal/hydra/client.go:205-224 | each lookup, with any calls before it, finds exactly the kids of the last successful fetch and those of the one before while it is younger than the grace period |
| `Jwks.KidAcceptedIff` | internal/hydra/client.go:670-684 | in every run a kid is accepted iff the last fetch is fresh and it or the one before, within the grace period, has the kid; or this call's fetch succeeds and brings it, or succeeds while the last fetch has it and is within the grace period |
| `Jwks.RetiredKidAcceptedIff` | internal/hydra/client.go:205-239 | a kid retired by the last fetch and no longer published is accepted iff that fetch is at most the TTL old and the kid's own fetch is younger than the grace period |
| `Jwks.SecondRefreshEndsGrace` | internal/hydra/client.go:226-233 | a second refresh without the kid ends its grace at once |
| `Jwks.StaleRefreshLeavesNoGrace` | internal/hydra/client.go:170-176 | with a grace period of at most an hour, a refresh of a stale cache leaves the kids it retires no grace |
| `Producer.Topic.Offer` | internal/kafka/producer.go:195-230 | buffers the event if there is room, counts it as dropped otherwise |
| `Producer.Topic.CloseChannel` | internal/kafka/producer.go:245-249 | the channel is closed, once or many times |
| `Producer.Topic.WorkOnce` | internal/kafka/producer.go:281-301 | one round of the worker's loop is one move: the oldest event handled, or done signalled at a closed and empty channel |
| `Producer.Topic.Drain` | internal/kafka/producer.go:281-301 | after Close the worker's rounds are the moves that handle everything buffered, in order, and signal done |
| `Producer.NothingLostOrRepeated` | internal/kafka/producer.go:195-361 | published = dropped + handled + buffered; handled then buffered are the events that found room, each once, in order; done means nothing buffered |
| `Producer.DroppedIffFull` | internal/kafka/producer.go:195-230 | an event is dropped iff the buffer is full, and otherwise goes behind those there |
| `Producer.BurstFits` | internal/kafka/producer.go:195-230 | a burst that fits into the free room is not dropped |

## Left out

- Handlers, middleware other than the HTTP limiter, metrics, logging, configuration, the CSRF format, user-agent parsing and SQL migrations: they would only add easy members.
- Hydra and Kratos calls, JSON and RSA parsing: their outcomes are parameters.
- The auth, account and admin services, the idempotency guard and the instrumented wrappers: they sequence or repeat operations modelled here.
- Classification of Go errors: a call's fault is "none", "domain" or "infrastructure".
- `CircuitBreaker` methods are atomic: interleavings inside one method, where the slot is cleared before the state is stored, are not modelled.
- CircuitBreakers.CircuitBreaker.RecordFailure: where the random generator panics, for a jitter range that is negative or overflows, there is no answer and nothing is said.
- Sub-second rounding of Redis lifetimes, and the gap between computing a lifetime and writing it: both happen in one clock step.
- The BFF protocol runs on the plain Redis store and blacklist, without the resilient wrappers; the device-set and audit-table calls inside login, refresh and logout are not steps of it.
- Session ids are drawn at random; the protocol takes each new one to be unused.
- `OutageBlacklist` covers one outage: when Redis answers again only Redis is consulted, so nothing is claimed across a recovery.
- DeviceSessions.ConvergesToOnce: assumes parsed timestamps and successful writes on one partition; an event whose timestamp does not parse takes the time of processing, and a failed write skips its event.
- DeviceLru.DeviceSetIsLru: assumes strictly increasing login seconds; logins within one second are ordered by device name, and `DeviceRuns.SixthDeviceEvictsAnOldest` is what holds then.
- DeviceCap.RedisRepository.LogoutAll: one uninterrupted call; the interleavings of its commands with other calls are in `DeviceRuns`.
- DeviceRuns.NoTokenWithoutDevice: RotateRefreshToken is not a step of these runs, because it does not look at the device set; `DeviceCap.RotationSafeIff` says when it does no harm.
- Reads of the audit table for display.
- Contents and retries of Kafka writes: an event the worker took counts as handled whether or not the write succeeded.
- The token bucket uses real numbers, so floating-point rounding is not modelled.
