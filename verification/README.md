# A verified model of the URL shortener

This project models the backend of a URL shortener in Dafny and proves what its parts promise, one call at
a time and under arbitrary interleaving. `dafny verify dfyconfig.toml` checks everything.

## What is modelled

Each component that changes state is a class whose methods follow the source branch by branch. Every method
is proved against a specification function. The lemmas below are about those functions, and for each of them at
least one lemma says what it answers in terms of rows, entries, clocks and faults alone. Where the source
runs concurrently, a state machine takes one database statement, cache command, broker event or clock reading
per step. The theorems about it quantify over every reachable state or every run. Bridge lemmas show that a
URL service call, a delivery of any body, a migration run and a fault-free limiter call whose steps run without
interruption behave as the class methods specify.

| files | what they hold |
|---|---|
| `UrlService`, `RedisCache`, `PostgresUrlRepository`, `InMemoryUrlRepository`, `UrlRecords` | the URL service, its cache and both of its repositories |
| `RepositoryEquivalence` | when the two repositories answer alike |
| `CacheRefinement` | the cached service against the service with no cache, call by call |
| `UrlProtocol`, `UrlInvariant`, `UrlSafety`, `UrlAtomicity` | any number of calls, interleaved statement by statement, with failing cache commands, evictions, crashes and unrelated clocks |
| `RateLimiter`, `RateLimiterProtocol` | the sliding-window limiter, alone and with concurrent checks under clock skew |
| `MessageQueue`, `EventProcessor`, `ClickEvents`, `Worker` | publishing, classifying, idempotent writing and the retry loop |
| `PipelineProtocol`, `PipelineSafety`, `PipelineDrain`, `DeliveryAtomicity` | broker, dead-letter queue and any number of workers: conservation, justification, termination |
| `ReferentialIntegrity` | URL service and pipeline together over one database |
| `Migrations` | the migration runner, alone and concurrent |
| `Base62` | the numerals and the space of generated codes |

Times are integer microseconds. SQL statements, Redis transactions and broker operations are atomic.
Randomness (drawn codes, event ids, member ids), clock readings and faults are inputs. In the protocols
every instance reads its own clock, with no relation to Redis time unless a theorem states one. The urls table is
a map by primary key. That short codes are unique is not assumed but kept as an invariant.

## Where the code differs from its documentation

* `PostgresUrlRepository.exists` describes the alias pre-check as backed by an insert that still rejects a
  conflict. It does, but nothing translates that rejection: the collision leaves `create_short_url` uncaught.
  With nobody racing this happens exactly for a soft-deleted alias (`UrlServices.AliasOutcomes`); a lost race for
  a free alias is a reachable run (`UrlAtomicity.LostRaceEscapes`).
* `insert_idempotent` is described as safe to call twice. It is, if and only if the event id is not NULL
  (`ClickEvents.RedeliveryIsAbsorbedIff`). A body whose `event_id` is JSON `null` passes the field check, and
  each committing attempt adds a row (`Workers.NullEventIdIsCountedTwice`). So a URL's count exceeds its number
  of distinct events exactly when such a write has committed for it (`PipelineSafety.CountIsExact`).
* `resolve` calls its expiry check on a cache hit a defensive double-check. With one clock and uninterrupted
  calls it never fires (`CacheRefinement.RecheckNeverFires`). If Redis time at the cache write is ahead of the
  clock read for the TTL by more than truncation or the cache TTL left over, the entry's deadline is past its
  row's expiry (`UrlAtomicity.WriteEndsByExpiryIff`). Then a live entry can outlive its URL, and the check is what
  keeps the guarantee (`UrlAtomicity.DelayedWriteOutlivesExpiry`, `UrlSafety.NeverReturnsExpired`).
* `process` documents two exceptions. Another kind escapes, and leaves the message unsettled, exactly for bodies
  on which the parser raises something other than the two caught errors, for JSON numbers, booleans and `null`,
  and for lists or strings that contain both field names (`EventProcessing.CheckClassifies`).
* The two URL repositories share one interface, but they agree only on traces that never re-insert a deleted
  code (`RepositoryEquivalence.RepositoriesAgreeIff`).

## Model

| member | source | states |
|---|---|---|
| UrlSafety.CodeNeverRebound | backend/migrations/001_create_urls_table.sql:18-27 | in any two states of any interleaved run, rows with one code are one row with the same destination and dates |
| UrlSafety.ResolveReturnsTheRow | backend/app/services/url_service.py:187-227 | every successful resolve, hit or miss, under any interleaving, fault or eviction, shows the one row ever inserted for its code |
| UrlSafety.CacheHoldsTheRow | backend/app/services/url_service.py:210-225 | so does every cache entry, stale or not |
| UrlSafety.HitIsRecent | backend/app/services/url_service.py:197-202 | a hit's entry was written less than the cache TTL before, and if the code is deleted, by a reader whose repository read preceded the deletion |
| UrlSafety.StaleEntryNotRenewed | backend/app/services/url_service.py:258-265 | once no reader from before a deletion is in flight, the code's entry is never written again |
| UrlSafety.StalenessEnds | backend/app/services/url_service.py:197-225 | from then on a resolve succeeds only from the entry left at that moment, and only within the cache TTL of its write |
| UrlSafety.InvalidationIsFinal | backend/app/services/url_service.py:258-265 | if that entry is also gone, no later resolve of the code succeeds |
| UrlSafety.OnlyTheOwnerDeactivates | backend/app/services/url_service.py:249-258 | although read, check and update are separate, a row turns inactive only in a delete whose requester owns it, or if it has no owner |
| UrlSafety.DeactivatedOnce | backend/app/repositories/postgres_url_repository.py:101-109 | a deactivated row never becomes active again |
| UrlSafety.WinnerIsOnRecord | backend/app/services/url_service.py:249-267 | a delete that reports success is the recorded deleter of its code and was entitled to it |
| UrlSafety.DeleteAnswersFalseIff | backend/app/services/url_service.py:249-267 | a delete answers false if and only if its lookup or its later update finds no active row, so a delete that loses a race answers false and changes nothing |
| UrlSafety.RefusedForAnotherOwner | backend/app/services/url_service.py:249-256 | in every reachable state, a delete refused for ownership asked for a code whose one row belongs to somebody else |
| UrlSafety.AtMostOneDeleteSucceeds | backend/app/services/url_service.py:249-267 | of all deletes of one code over a whole run, at most one reports success; what the others answer is `DeleteAnswersFalseIff` and `RefusedForAnotherOwner` |
| UrlSafety.EveryRowHasOneMaker | backend/app/services/url_service.py:154-185 | every row was made by exactly one creation from its own arguments, which succeeded with that row or died right after its commit; one row per code |
| UrlSafety.CreateAddsItsOwnRow | backend/app/services/url_service.py:163-185 | a successful creation added one row, its own, under its alias if given; a failed one added none |
| UrlSafety.AliasCollisionIff | backend/app/services/url_service.py:167-169 | at its own statement, an alias insert ends in the uncaught collision exactly if a row, active or not, has the alias, and then changes no row |
| UrlSafety.AliasFailureMeansTaken | backend/app/services/url_service.py:163-169 | in every reachable state, a call that ended as taken or in the uncaught collision asked for an alias for which another call had made a row |
| UrlSafety.GivesUpOnlyWhenTaken | backend/app/services/url_service.py:172-185 | the random path gives up only after five draws, each of which has a row |
| UrlSafety.RejectedDrawWasTaken | backend/app/services/url_service.py:172-177 | each rejected draw had a row at its own insert, and changed none |
| UrlSafety.NeverReturnsExpired | backend/app/services/url_service.py:197-232 | no resolve returns a URL that was past expiry at its own check, hit or miss |
| UrlInvariant.NextKeeps | backend/app/services/url_service.py:154-267 | every statement, crash, eviction and clock step keeps the invariant and only grows the history of rows, deletions and makers |
| UrlInvariant.RunInv | backend/app/services/url_service.py:154-267 | the invariant holds in every state of every run |
| UrlInvariant.LaterGrows | backend/app/repositories/postgres_url_repository.py:47-109 | along any run rows are never removed or edited except from active to inactive, and recorded deletions and makers stay |
| UrlAtomicity.SoloResolve | backend/app/services/url_service.py:187-227 | the protocol's resolve, uninterrupted, answers and writes the cache as the service method specifies |
| UrlAtomicity.SoloDelete | backend/app/services/url_service.py:234-267 | the same for delete |
| UrlAtomicity.SoloCreate | backend/app/services/url_service.py:154-185 | the same for create, for any five draws |
| UrlAtomicity.LostRaceEscapes | backend/app/services/url_service.py:167-169 | for every alias there is a reachable run in which two requests pass the check, one creates and the other ends in the uncaught collision on an active row |
| UrlAtomicity.LostDeleteAnswersFalse | backend/app/services/url_service.py:249-267 | a reachable run in which two deletes by the owner both pass the check, one deletes and the other answers false |
| UrlAtomicity.DelayedWriteOutlivesExpiry | backend/app/services/url_service.py:218-225 | for every lifetime up to the cache TTL there is a reachable state with a live entry whose URL has expired |
| UrlAtomicity.WriteEndsByExpiryIff | backend/app/services/url_service.py:219-225 | a written entry ends by its row's expiry if and only if Redis time at the write is ahead of the TTL's clock reading by at most the left-over, which is under a second unless the cache TTL was the bound |
| UrlServices.UrlService.CreateShortUrl | backend/app/services/url_service.py:154-185 | the loop with its early return computes the first free draw, burning one id per rejected insert; the alias path does not retry |
| UrlServices.UrlService.Resolve | backend/app/services/url_service.py:187-227 | reply and cache for hit, miss, expired, missing row and failing cache commands, with or without a cache |
| UrlServices.UrlService.Delete | backend/app/services/url_service.py:234-267 | reply, table and cache for missing row, foreign owner, success and lost invalidation |
| UrlServices.CreateAddsOneRow | backend/app/services/url_service.py:154-185 | a creation adds exactly the row it reports, with its arguments and a code that had no row, or leaves the rows alone |
| UrlServices.GivesUpIff | backend/app/services/url_service.py:172-185 | giving up happens exactly when no alias was asked for and all five draws have rows, soft-deleted ones included |
| UrlServices.FirstFreeDrawWins | backend/app/services/url_service.py:172-177 | the random path takes the first draw without a row, under the id left after one id per rejected draw |
| UrlServices.InvalidIsRefusedFirst | backend/app/services/url_service.py:161 | an invalid URL, and only that, is refused before anything happens |
| UrlServices.AliasOutcomes | backend/app/services/url_service.py:163-169 | a free alias is created, an active one reported taken, a soft-deleted one escapes as a collision: three exact conditions |
| UrlServices.ResolveIff | backend/app/services/url_service.py:204-232 | without a cache, success, expiry and not-found each happen exactly on an active row not past its expiry, an active row past it, and no active row |
| UrlServices.ResolveAnswers | backend/app/services/url_service.py:204-232 | every active row resolves to its own destination and dates up to and including its expiry, and is expired after it |
| UrlServices.HitAnswers | backend/app/services/url_service.py:197-204 | a hit answers from its entry under the same rule; without a live entry, or when the get fails, the repository answers |
| UrlServices.ResolveCaches | backend/app/services/url_service.py:197-225 | exactly a miss on an active unexpired row with a working set and a positive TTL writes the cache: that row, under its key, for that long |
| UrlServices.DeleteAnswers | backend/app/services/url_service.py:249-267 | false, not-owner and done each under its exact condition, for every code |
| UrlServices.DeleteInvalidates | backend/app/services/url_service.py:258-265 | a delete forgets its own key, exactly if it deleted a row and the command works |
| UrlServices.TruncatesTowardZero | backend/app/services/url_service.py:221-224 | whole seconds are cut toward zero, for negative remainders too |
| UrlServices.TtlIsSmaller | backend/app/services/url_service.py:219-224 | the TTL is the smaller of two bounds, and positive exactly if a whole second is left |
| UrlServices.DeleteIff | backend/app/services/url_service.py:249-267 | a delete of an active row succeeds exactly for its owner or on an anonymous row; then only that row's active flag changes, otherwise nothing |
| UrlServices.CacheKeyInjective | backend/app/services/url_service.py:195 | two codes never share a cache entry |
| CacheRefinement.CachedRefinesDirect | backend/app/services/url_service.py:187-267 | after any calls, faults and clock advances the next call answers otherwise than without a cache if and only if it is a resolve that hits a live entry of a code without an active row; then the invalidation was lost less than a TTL ago and the answer is the deleted row instead of not-found |
| CacheRefinement.CacheIsTransparent | backend/app/services/url_service.py:187-267 | if invalidations succeed, the cache is unobservable whatever else fails |
| CacheRefinement.SameDatabase | backend/app/services/url_service.py:154-267 | the cache never influences the database |
| CacheRefinement.RecheckNeverFires | backend/app/services/url_service.py:189-193 | with one clock and uninterrupted calls no live entry is past its expiry |
| CacheRefinement.TtlIsLongest | backend/app/services/url_service.py:219-224 | the TTL is the longest whole number of seconds within both the cache TTL and the remaining life |
| CacheRefinement.LostInvalidationIsObservable | backend/app/core/cache.py:53-68 | the exception above is real: after a lost invalidation a deleted code resolves |
| CacheRefinement.LostInvalidationLasts | backend/app/services/url_service.py:258-265 | after any delete whose invalidation was lost while the code had a live entry, whatever calls follow, every resolve that reaches the cache before the entry's deadline still succeeds, unless the entry was evicted |
| CacheRefinement.LostMeans | backend/app/services/url_service.py:258-265 | the exception names real losses: a delete of the code that deactivated its row and whose invalidation failed, at the recorded time |
| CacheRefinement.StepKeepsInv | backend/app/services/url_service.py:154-267 | each call keeps: a live entry mirrors an active row and ends no later than it, or survived a lost invalidation by less than a TTL |
| Caching.RedisCache.Get | backend/app/core/cache.py:38-43 | a live entry's value; none if expired, absent or on error |
| Caching.RedisCache.Set | backend/app/core/cache.py:45-51 | stores with a deadline only for a positive TTL and a working server |
| Caching.RedisCache.Delete | backend/app/core/cache.py:53-68 | removes exactly the key, or nothing on error |
| Caching.StoredUntilDeadline | backend/app/core/cache.py:38-51 | a stored value is found from its write until its TTL has passed, and not later |
| Caching.OtherKeysStay | backend/app/core/cache.py:45-55 | a store replaces, a removal forgets, and neither touches another key |
| PostgresUrls.PostgresUrlRepository.Insert | backend/app/repositories/postgres_url_repository.py:47-72 | adds a row under a fresh id or reports a collision and burns the id; active and inactive rows collide alike |
| PostgresUrls.PostgresUrlRepository.Exists | backend/app/repositories/postgres_url_repository.py:74-86 | agrees with `get`; for any arguments an insert of the code collides if and only if it exists here or is soft-deleted |
| PostgresUrls.PostgresUrlRepository.Get | backend/app/repositories/postgres_url_repository.py:88-99 | the active row of the code, if any |
| PostgresUrls.PostgresUrlRepository.Delete | backend/app/repositories/postgres_url_repository.py:101-109 | only flips the active flag of the code's row; true exactly if it was active |
| PostgresUrls.InsertIff | backend/app/repositories/postgres_url_repository.py:54-72 | an insert uses one id whatever happens, is refused exactly if a row, active or not, has the code, and otherwise adds the active row of its arguments |
| PostgresUrls.InsertKeeps | backend/migrations/001_create_urls_table.sql:18-27 | inserts keep ids and short codes unique and all earlier rows |
| PostgresUrls.DeactivateKeeps | backend/app/repositories/postgres_url_repository.py:101-109 | soft deletes keep them too, and leave the code without an active row |
| PostgresUrls.DeactivatePresence | backend/app/repositories/postgres_url_repository.py:101-109 | a soft delete keeps every code bound and ends the activity of its own code only |
| PostgresUrls.ActiveRowIs | backend/app/repositories/postgres_url_repository.py:88-99 | the lookup by code is deterministic |
| InMemoryUrls.InMemoryUrlRepository.Exists | backend/app/repositories/url_repository.py:55-66 | agrees with `get`, and foretells exactly whether an insert collides |
| InMemoryUrls.InMemoryUrlRepository.Insert | backend/app/repositories/url_repository.py:58-77 | stores a numbered record, or collides without using a number |
| InMemoryUrls.InMemoryUrlRepository.Get | backend/app/repositories/url_repository.py:79-80 | the stored record, if any |
| InMemoryUrls.InMemoryUrlRepository.Delete | backend/app/repositories/url_repository.py:82-86 | frees the code; true exactly if it was stored |
| InMemoryUrls.MemoryInsertIff | backend/app/repositories/url_repository.py:65-77 | a collision uses no number and stores nothing; a free code takes the next number with its arguments |
| RepositoryEquivalence.RepositoriesAgreeIff | backend/app/repositories/url_repository.py:51-86 | for every operation trace, all replies agree up to one order-preserving renaming of ids if and only if the trace never re-inserts a deleted code |
| RepositoryEquivalence.StaysLinked | backend/app/repositories/url_repository.py:51-86 | on such traces the dictionary holds exactly the active rows, after every operation |
| RepositoryEquivalence.ReinsertionSeparates | backend/app/repositories/postgres_url_repository.py:54-72 | at the first re-insertion of a freed code the dictionary accepts and Postgres collides |
| RateLimiting.RateLimiter.IsAllowed | backend/app/core/rate_limiter.py:46-70 | answer and stored set for every fault, each failed transaction applied or not; no other identity's set changes |
| RateLimiting.RefusesIff | backend/app/core/rate_limiter.py:52-70 | for any stored set, clocks and fault: a call is refused if and only if its check worked and counted at least `limit` admissions younger than 60 seconds, so every Redis error fails open |
| RateLimiting.Leaves | backend/app/core/rate_limiter.py:51-70 | for any stored set, clocks and fault: which admissions stay, with which scores, and that the caller's own is added exactly if its check succeeded, it was not refused and the add was applied |
| RateLimiting.LimiterDecidesByHistory | backend/app/core/rate_limiter.py:48-64 | for every sequential run, the pruned and expiring set refuses exactly when the full history has `limit` admissions in (now-60, now] |
| RateLimiting.DenialLeavesNoTrace | backend/app/core/rate_limiter.py:57-58 | dropping a refused call from a run changes no later answer |
| RateLimiting.PrunedIsRecent | backend/app/core/rate_limiter.py:53-62 | key expiry is invisible: what pruning leaves is the last minute of the history |
| RateLimiting.StepRefines | backend/app/core/rate_limiter.py:46-64 | one call decides as the full history and keeps the two related |
| RateLimiterProtocol.AdmissionBound | backend/app/core/rate_limiter.py:46-64 | with at most k calls between check and add and clocks within d, every half-open window of 60-d seconds holds at most limit+k-1 admissions, in every state of every run |
| RateLimiterProtocol.SequentialBound | backend/app/core/rate_limiter.py:46-64 | with k=1 and d=0 any half-open minute holds at most `limit` |
| RateLimiterProtocol.BoundIsReached | backend/app/core/rate_limiter.py:51-64 | for every k, d and limit of at least 1 some run admits exactly limit+k-1 at one instant |
| RateLimiterProtocol.PassSeesWindow | backend/app/core/rate_limiter.py:52-58 | a check counts every admission of any window that contains its timestamp |
| RateLimiterProtocol.NextKeepsInv | backend/app/core/rate_limiter.py:46-64 | every check, add, crash and clock step keeps the bound over calls in flight and admissions together |
| RateLimiterProtocol.SoloCall | backend/app/core/rate_limiter.py:46-64 | a check followed at once by its add, or a refusal, is the limiter's call |
| RateLimiterProtocol.SoloCallExists | backend/app/core/rate_limiter.py:46-64 | from every state the uninterrupted call can be made and ends as the limiter's |
| Workers.HandleDelivery | backend/app/workers/worker.py:49-72 | attempts made, result, settlement sent and table left, for every sequence of faults, on a live or dead channel |
| Workers.SettledByAttempts | backend/app/workers/worker.py:49-72 | attempts end at the first success, at most at the third, and at once for other bodies; ack if and only if one succeeds; nack if and only if malformed or all three fail; nothing if and only if another exception escapes |
| Workers.AckedIsRecorded | backend/app/workers/worker.py:54-56 | an acknowledged event is in the table |
| Workers.DeadLetteredMayBeRecorded | backend/app/workers/worker.py:61-67 | a dead-lettered event may be in the table too, if its commit was not reported |
| Workers.AtMostOneRowPerEvent | backend/app/repositories/click_event_repository.py:86-96 | any number of attempts keeps all rows and adds at most one row for an event with a key, and none if the key was there |
| Workers.RejectionIsStable | backend/app/workers/event_processor.py:67-81 | retrying never changes whether the statement itself raises |
| Workers.KeylessAttemptsAddRows | backend/app/repositories/click_event_repository.py:86-96 | on an event without a key, n committing attempts add n rows |
| Workers.NullEventIdIsCountedTwice | backend/app/workers/event_processor.py:60-76 | a body with a null event id is an event, and if its first commit is not reported it is acknowledged with two rows and counted twice |
| EventProcessing.ClickEventProcessor.Process | backend/app/workers/event_processor.py:54-89 | outcome and table for every body, including one on which the parser raises another exception, and every fault; a duplicate is a success |
| EventProcessing.CheckClassifies | backend/app/workers/event_processor.py:55-65 | for all bodies, by kind: if and only if it is malformed, if and only if another exception escapes, if and only if it is an event |
| EventProcessing.EventBinds | backend/app/workers/event_processor.py:65-76 | an event binds its two required values, and null for an absent referrer or user agent, which is also what the parser gets |
| EventProcessing.OccursInIff | backend/app/workers/event_processor.py:61 | membership in a string body is occurrence as a substring |
| MessageQueue.BuiltMessageIsEvent | backend/app/core/message_queue.py:92-116 | a published message passes the worker's checks and yields exactly the values the redirect put in |
| MessageQueue.BuiltMessageHolds | backend/app/core/message_queue.py:108-116 | a message has exactly five fields with the given values, and null for an absent header |
| MessageQueue.RabbitMQPublisher.Publish | backend/app/core/message_queue.py:49-89 | the event reaches the queue once or is lost; the caller never sees which |
| ClickEvents.PostgresClickEventRepository.InsertIdempotent | backend/app/repositories/click_event_repository.py:62-96 | table and result for new, duplicate and rejected values: true exactly if nothing failed and the table grew, false exactly if nothing failed and the key was there, otherwise an exception, even after a commit that is not reported |
| ClickEvents.InsertOutcomeIff | backend/app/repositories/click_event_repository.py:86-96 | duplicate if and only if a row has the key, inserted if and only if the table grows by one, each also under its exact condition on key, URL and coercion |
| ClickEvents.AttemptAdds | backend/app/repositories/click_event_repository.py:86-96 | an attempt adds exactly its row, exactly if the statement is reached and new |
| ClickEvents.PostgresClickEventRepository.GetCountForUrl | backend/app/repositories/click_event_repository.py:98-102 | the cardinality of the set of table positions that hold a click of the URL |
| ClickEvents.CountIsFirstWrites | backend/app/repositories/click_event_repository.py:86-102 | for any writes whatever, a URL's count is the number of its writes that were keyless or first with their key |
| ClickEvents.CountIsDistinctEvents | backend/app/repositories/click_event_repository.py:86-102 | if equal keys mean equal rows, a URL's count is its number of distinct events plus its number of keyless writes |
| ClickEvents.TableRowsAreWrites | backend/app/repositories/click_event_repository.py:86-96 | the table holds exactly the written rows, keyless ones included |
| ClickEvents.OrderAndRepetitionDoNotMatter | backend/migrations/005_add_event_id_to_click_events.sql:24-27 | equal sets of writes, in any order and multiplicity, give the same rows, and the same counts if and only if as many writes were keyless |
| ClickEvents.RedeliveryIsAbsorbedIff | backend/app/repositories/click_event_repository.py:72-85 | repeating a write changes nothing if and only if its event id is not NULL |
| PipelineSafety.ExactlyOnePlace | backend/app/workers/worker.py:37-72 | in every reachable state an accepted message is in exactly one of ready, unacknowledged (under one tag), acknowledged and dead-lettered |
| PipelineSafety.SettledForAReason | backend/app/workers/worker.py:49-72 | acknowledged implies recorded; dead-lettered implies malformed or three failed attempts; no nack ever loses a message, because the dead-letter queue is declared before consumption |
| PipelineSafety.OnlyOwnDeliveryIsSettled | backend/app/workers/worker.py:109-143 | a settlement from a closed channel changes nothing at the broker, so it cannot settle a redelivered copy; on an open one it files exactly its own delivery |
| PipelineSafety.SettlementIsFinal | backend/app/workers/worker.py:49-67 | an acknowledged or dead-lettered message is never ready or delivered again |
| PipelineSafety.PrefetchBounds | backend/app/workers/worker.py:125 | in every reachable state no channel holds more than ten unacknowledged deliveries |
| PipelineSafety.CountIsFirstCommits | backend/app/repositories/click_event_repository.py:86-102 | in every reachable state, whatever was published, a URL's count is its number of committed writes that were keyless or first with their key |
| PipelineSafety.CountIsExact | backend/app/repositories/click_event_repository.py:98-102 | if no two different events share an id, a URL's count is its number of distinct committed events plus its committed keyless writes, over crashes, redeliveries and racing workers; it is the number of distinct events if and only if no keyless write for the URL has committed |
| PipelineSafety.RecordedAsItself | backend/app/workers/worker.py:54-56 | under the same condition a recorded event's own row is in the table |
| PipelineSafety.NextKeeps | backend/app/workers/worker.py:37-173 | every broker, worker and environment step keeps the invariant and loses no body, row or settlement |
| PipelineSafety.RunInv | backend/app/workers/worker.py:37-173 | the invariant holds in every state of every run |
| PipelineDrain.EveryRunDrains | backend/app/workers/worker.py:146-173 | with finitely many disturbances and no escaping exception, every infinite schedule that moves when it can reaches a state with every accepted message acknowledged or dead-lettered |
| PipelineDrain.EveryRunStops | backend/app/workers/worker.py:49-72 | no run takes such steps forever |
| PipelineDrain.DrainStepKeeps | backend/app/workers/worker.py:109-173 | every step descends lexicographically: disturbances left, workers' distance from consuming, ready, unacknowledged, attempts left |
| PipelineDrain.CanStep | backend/app/workers/worker.py:109-173 | no deadlock: while a message is unsettled, brokers and workers can move by themselves |
| PipelineDrain.InitWorks | backend/app/workers/worker.py:146-173 | a fresh pipeline with a worker satisfies the drain theorem's hypotheses |
| DeliveryAtomicity.SoloDelivery | backend/app/workers/worker.py:49-72 | for an event, the protocol's attempts, run without interruption, give the attempts, table and settlement of `HandleDelivery` |
| DeliveryAtomicity.SoloMalformed | backend/app/workers/worker.py:57-60 | the same for a malformed body: one attempt, no row, a dead-lettering nack |
| DeliveryAtomicity.SoloEscape | backend/app/workers/worker.py:109-143 | the same for an escaping exception: one attempt, no row, no settlement, and the message becomes ready again |
| DeliveryAtomicity.DeliveryBegins | backend/app/workers/worker.py:49-52 | every delivery, redelivered or not, starts counting its attempts at one |
| DeliveryAtomicity.AttemptIsLogged | backend/app/repositories/click_event_repository.py:86-96 | the committed writes that the counts speak of are exactly the statements that were reached and did not raise |
| ReferentialIntegrity.EveryUrlIdExists | backend/app/api/urls.py:149-161 | in every reachable state of service, cache, queue and events table, each url id in an entry, a redirect's message or a click row names an existing row, after deletes and stale hits too |
| ReferentialIntegrity.ForeignKeyAcceptsRedirects | backend/migrations/004_create_click_events_table.sql:32-34 | the foreign key never rejects a redirect's event: the insert raises only if the values do not coerce |
| ReferentialIntegrity.AcknowledgedRedirectIsRecorded | backend/app/services/click_event_service.py:50-67 | an acknowledged redirect's row carries the id of the URL it resolved to, and its event key is in the table; if accepted events share no ids, the row itself is |
| ReferentialIntegrity.NextKeeps | backend/app/api/urls.py:149-161 | every step of either protocol, every redirect and every foreign publish keeps the joint invariant |
| Migrations.RunMigrations | backend/app/core/migrate.py:35-63 | applies exactly the pending files in order; fails if and only if some pending script raises, and then at the first one, with exactly the files before it applied |
| Migrations.RunReports | backend/app/core/migrate.py:45-63 | a failing run names the first pending script that raises and has marked every file before it; any other run has marked every file |
| Migrations.PendingOne | backend/app/core/migrate.py:46-48 | a single file is pending exactly if it is not applied |
| Migrations.PendingDistributes | backend/app/core/migrate.py:45-48 | and longer lists are decided part by part, in order: an applied file is skipped and the loop goes on |
| Migrations.Database.ApplyAndMark | backend/app/core/migrate.py:53-58 | script and marker commit together or not at all; a marked file cannot commit |
| Migrations.SortedIffStartedFromPrefix | backend/app/core/migrate.py:40-58 | a complete run leaves the scripts in sorted order if and only if it started from a prefix of them |
| Migrations.RerunChangesNothing | backend/app/core/migrate.py:45-48 | a second run has nothing to apply |
| MigrationProtocol.SoloRun | backend/app/core/migrate.py:24-63 | a runner whose steps are not interrupted ends, for every set of failing scripts, as `RunMigrations` promises |
| MigrationProtocol.CommittedIsPrefix | backend/app/core/migrate.py:24-63 | for any number of concurrent or crashing runners with stale snapshots, the committed scripts are always a prefix of the sorted files, and a runner succeeded only if all are committed |
| MigrationProtocol.CommittedOnlyGrows | backend/app/core/migrate.py:53-58 | nothing committed is ever undone or reordered |
| MigrationProtocol.CommittedFileCannotCommitAgain | backend/app/core/migrate.py:53-61 | a runner with a stale snapshot cannot commit a file a second time |
| MigrationProtocol.CompleteIsFinal | backend/app/core/migrate.py:45-63 | once all are committed no runner changes the database |
| Base62.Encode | backend/app/core/base62.py:22-40 | the division loop and the reversal give the canonical numeral, and negative numbers an error |
| Base62.Decode | backend/app/core/base62.py:43-53 | the loop gives the positional value, and an error exactly if some character is outside the alphabet |
| Base62.IndexOf | backend/app/core/base62.py:18-51 | the search in the alphabet finds exactly the 62 digit characters, each at its rank |
| Base62.DigitsInOrder | backend/app/core/base62.py:18 | digit values run through 0-9, a-z, A-Z in this order |
| Base62.DecodeEncode | backend/app/core/base62.py:22-53 | decoding an encoded number gives it back |
| Base62.EncodeDecode | backend/app/core/base62.py:22-53 | encoding a decoded string removes exactly its leading zeros |
| Base62.StripsOnlyZeros | backend/app/core/base62.py:22-53 | what is removed is zeros, and no removable zero is left |
| Base62.CanonicalIff | backend/app/core/base62.py:22-40 | canonical strings are the non-empty digit strings without a leading zero, and "0" |
| Base62.EncodeOrder | backend/app/core/base62.py:18-53 | numeric order is shortlex order by alphabet position on encoded strings |
| Base62.CanonicalOrder | backend/app/core/base62.py:18-53 | the same from the side of the canonical strings |
| Base62.CodeSpace | backend/app/core/code_generator.py:28-49 | decoding maps the strings of length L one-to-one onto [0, 62^L) |
| CodeGenerator.GenerateShortCode | backend/app/core/code_generator.py:28-49 | the result is a code of the requested length over the alphabet |
| CodeGenerator.DefaultCodeSpace | backend/app/core/code_generator.py:25-49 | the default length has 3 521 614 606 208 codes |
| CodeGenerator.EveryCodeIsDrawn | backend/app/core/code_generator.py:25-49 | every code comes from exactly one sequence of draws |

## Left out

- HTTP routes, request schemas, CORS, the dashboard, the health server and settings: plumbing without deep state.
- Authentication, password hashing, tokens and the user repository: library cryptography and short branches. Deleting a user, which clears `owner_id`, is therefore not a step of the protocols.
- The user-agent library is an uninterpreted total function; URL validity is an uninterpreted predicate.
- JSON and ISO date text: serialising and reading back is taken as the identity on records, so a cache entry holds a record. A message body is modelled by its parse result; which bodies make the parser raise another exception is left open.
- Connection back-off, sleeping and logging: no effect on the state that the theorems are about.
- The endless loop of `run_consumer_forever` and the set-up in `_consume_once` are steps of the pipeline protocol (connect, declare, consume, notice, restart), not methods: a method that never ends has no postcondition.
- The non-idempotent click `insert` and `get_recent_for_url`: the worker does not use them.
- Probabilities of code collisions and the quality of randomness: draws are arbitrary inputs.
- The internals of the database, Redis and broker clients: each statement or command happens at one instant or not at all. A cache command that times out and is applied by the server at a later moment is not modelled.
- Database errors other than the unique violation, such as a code longer than the column, appear only as a crash of the call.
- InMemoryUrls.InMemoryUrlRepository.Insert: the dictionary's record has no active flag; the model marks stored records active so that both repositories can share one record type. The creation time is a parameter, so agreement with Postgres is for equal clock readings.
- RateLimiting.LimiterDecidesByHistory: for clock readings at or after the epoch that never decrease, and distinct members, as the source's `time.time()` on one machine and fresh UUIDs give.
- RateLimiterProtocol.AdmissionBound: Redis errors are not steps of this protocol, since the limiter then admits without recording.
- CacheRefinement.CachedRefinesDirect: one clock serves the service and Redis, and calls do not interleave; separate clocks and interleaving are covered by `UrlSafety`.
- UrlSafety.ResolveReturnsTheRow: the protocol's cache is keyed by short code instead of by the prefixed key, which `UrlServices.CacheKeyInjective` and `UrlAtomicity` justify; the service without a cache has no protocol of its own.
- PipelineDrain.EveryRunDrains: bodies that make another exception escape are excluded, since each of them ends a consumer.
- PipelineSafety.CountIsExact: requires that no two different accepted events share an id, as fresh ids give; `PipelineSafety.CountIsFirstCommits` needs no condition.
- Migrations.RunMigrations: the sorted directory listing is a parameter without repetitions, and a script is its name.
- `total_seconds()` is exact here; its floating-point rounding would matter only beyond 2^33 seconds, where the cache TTL is the smaller bound.
