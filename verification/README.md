# Verified model of the vacancy search service

The service searches several job sites at once. This project models its concurrent and
stateful core in Dafny and proves what the parts promise, each over all runs and all
inputs:

- **Circuit breaker** (`Breaker`, `BreakerRuns`): calls are admitted in one critical section
  and report in another, so calls from earlier episodes may finish late. The class changes
  its fields in place and is tied to the two step functions that the run theorems use.
- **Rate limiter** (`RateLimiter`): a one-slot token channel refilled by a ticker, with a
  tight bound on the grants in any window.
- **Job pool** (`Queue`, `Jobs`, `Pipeline`, `PipelineProgress`): bounded queue, workers,
  global semaphore and breaker, result channels of capacity one; conservation, delivery,
  exactly when a worker blocks for ever, and what a shutdown achieves.
- **Caches and index** (`Models`, `ShardedCache`, `ReverseIndex`, `SearchService`,
  `CacheRuns`): sharded tables refine a flat one, the reverse index agrees with the linear
  scan exactly when no parser names clash, and the exact condition under which the two
  caches stay coherent over all interleavings of searches, lookups and sweeps.
- **Fan-out** (`FanOut`) to the parsers, **one source's call** (`SourcePipeline`), and the
  path of a result **from worker to caller** (`SearchFlow`).
- **What the global breaker learns** of failing parsers (`GlobalBreaker`): pool, search and
  fan-out composed over all runs.
- **Text** (`SalaryFormat`, `HtmlCleaner`): thousands grouping and tag stripping.
- `Counting` holds the option type and the counting lemmas that the rest shares.

Concurrent parts are state machines. A run is any sequence of events, one event is one
critical section or one channel operation, and an event that is not enabled changes
nothing; timeouts, cancellations and departures may come at any time. Times are integers
that never run backwards.

## Where the code differs from its own description

The model follows the code.

- `DeleteItem` names one key but empties every shard: the loop variable hides the parameter
  (`parser/internal/inmemory_cache/cache.go:93-95`).
- The comment on the index entries says that their TTL is that of the search cache; the code
  uses the vacancy TTL (`parser/internal/parsers_manager/internal_func.go:55-56`). Coherence
  then depends on how the two are configured: `CacheRuns.CoherentIff`.
- Vacancy details are announced for the third cache but written into the search cache
  (`parser/internal/parsers_manager/cache.go:57-59`); the details cache stays empty for ever.
- A successful job sends two messages into a channel of capacity one
  (`parser/internal/jobs/base_job.go:34-38`), so a worker whose caller has left blocks with
  its slot: `PipelineProgress.BlockedForeverIff`, and every pool can get lost that way:
  `PipelineProgress.EveryPoolCanGetLost`.
- The fallback finds cached data "with a warning", but the caller drops data that comes with
  an error: `SearchFlow.FallbackDataIsLost`.
- A rate limiter's error is ignored by the caller, so a stopped limiter limits nothing:
  `SourcePipeline.StoppedLimitsNothing`.
- The interval cleaner sweeps once, because its `select` is not in a loop
  (`parser/internal/inmemory_cache/cleanup.go:14-20`). What expires after that sweep stays
  stored: `ShardedCache.UnsweptStays`. The other theorems hold for any number of sweeps.

## Model

| member | source | states |
|---|---|---|
| `Breaker.CircuitBreaker.constructor` | parser/internal/circuitbreaker/breaker.go:47-72 | starts closed with zero counters; each zero setting gets its default, each other one is kept, so every threshold is at least one |
| `Breaker.CircuitBreaker.TryAdmit` | parser/internal/circuitbreaker/breaker_methods.go:8-37 | the admitting critical section changes the fields exactly as the step `Admit` that the run theorems are about |
| `Breaker.CircuitBreaker.RecordFailure` | parser/internal/circuitbreaker/breaker_methods.go:59-77 | refines `OnFailure`: a completion in Open changes nothing, a failure in HalfOpen opens, in Closed it counts |
| `Breaker.CircuitBreaker.RecordSuccess` | parser/internal/circuitbreaker/breaker_methods.go:80-98 | refines `OnSuccess`: a success in Closed clears the failures, in HalfOpen it counts towards closing |
| `Breaker.CircuitBreaker.Record` | parser/internal/circuitbreaker/breaker_methods.go:39-55 | the reporting critical section changes the fields exactly as the step `Finish` of the runs |
| `Breaker.CircuitBreaker.GetStats` | parser/internal/circuitbreaker/breaker_methods.go:108-112 | returns the three totals, in this order, and changes nothing |
| `BreakerRuns.InvHolds` | parser/internal/circuitbreaker/breaker_methods.go:8-98 | over every run of overlapping calls: totals, counters, admissions per episode, and successes + probes in flight >= halfOpenAttempts + 1 in HalfOpen, stale completions included |
| `BreakerRuns.CountersRefineHistory` | parser/internal/circuitbreaker/breaker_methods.go:36-98 | requests = successes + failures + in flight; Closed iff failures < failureThreshold, otherwise failures = failureThreshold; in Closed, failures is the length of the trailing run of failures of this episode; successes stay below their threshold |
| `BreakerRuns.TrailingMeansSuffix` | parser/internal/circuitbreaker/breaker_methods.go:59-77 | the trailing-failures count is at least k iff the last k completions exist and all failed |
| `BreakerRuns.TripsExactlyOnConsecutiveFailures` | parser/internal/circuitbreaker/breaker_methods.go:59-69 | a closed breaker opens on a report iff it completes failureThreshold failures in a row of this closed episode |
| `BreakerRuns.HalfOpenVerdict` | parser/internal/circuitbreaker/breaker_methods.go:71-98 | a half-open breaker opens on any failure and closes exactly on the successThreshold-th completion when none failed |
| `BreakerRuns.HalfOpenAdmissionsBounded` | parser/internal/circuitbreaker/breaker_methods.go:18-33 | every half-open episode of every run admits at most halfOpenMaxRequests + 1 calls |
| `BreakerRuns.OpenShields` | parser/internal/circuitbreaker/breaker_methods.go:11-21 | after the breaker opens no call is admitted for resetTimeout, whatever stale calls report meanwhile |
| `BreakerRuns.AdmittedIff` | parser/internal/circuitbreaker/breaker_methods.go:8-37 | in every reachable state an arrival is admitted iff the breaker is closed, or open since at least resetTimeout, or half-open with at most halfOpenMaxRequests admissions in the episode; what an admission and a rejection leave behind |
| `BreakerRuns.ReopensExactlyAfterTimeout` | parser/internal/circuitbreaker/breaker_methods.go:15-24 | after any opening step, while nobody arrives, it stays open whatever is reported, and the next arrival is admitted and opens a half-open episode iff resetTimeout has passed since that step |
| `BreakerRuns.WedgedForever` | parser/internal/circuitbreaker/breaker_methods.go:26-32 | HalfOpen, full and with nothing in flight rejects every later call, for ever |
| `BreakerRuns.NeverWedged` | parser/internal/circuitbreaker/breaker_methods.go:11-32 | with successThreshold <= halfOpenMaxRequests + 1 no reachable state is wedged |
| `BreakerRuns.CanWedgeIff` | parser/internal/circuitbreaker/breaker_methods.go:11-98 | some run ends wedged iff successThreshold > halfOpenMaxRequests + 1 |
| `BreakerRuns.AlwaysRecoverableIff` | parser/internal/circuitbreaker/breaker_methods.go:11-98 | from every reachable state some continuation closes the breaker again iff successThreshold <= halfOpenMaxRequests + 1 |
| `RateLimiter.ChannelRateLimiter.constructor` | parser/internal/rate_limiter/rate_limiter.go:23-35 | starts with an empty slot, not stopped |
| `RateLimiter.ChannelRateLimiter.OnTick` | parser/internal/rate_limiter/rate_limiter.go:44-63 | one tick fills the slot, drops the token of a full slot, and does nothing once stopped |
| `RateLimiter.ChannelRateLimiter.Wait` | parser/internal/rate_limiter/rate_limiter.go:69-91 | grants by taking the token, waits on an empty slot, reports a stopped limiter |
| `RateLimiter.ChannelRateLimiter.Stop` | parser/internal/rate_limiter/rate_limiter.go:94-103 | sets the flag, also when called again; the slot is untouched |
| `RateLimiter.TicksConserved` | parser/internal/rate_limiter/rate_limiter.go:38-91 | over every run grants + buffered token + dropped ticks = ticks |
| `RateLimiter.GrantsWithinTicks` | parser/internal/rate_limiter/rate_limiter.go:38-91 | a closed window holds at most one grant more than ticks, whatever the ticks |
| `RateLimiter.SpacedWindow` | parser/internal/rate_limiter/rate_limiter.go:38-44 | n ticks at least `rate` apart in a closed window need a window of length (n - 1) * rate |
| `RateLimiter.RateBound` | parser/internal/rate_limiter/rate_limiter.go:38-91 | with ticks at least `rate` apart a closed window of length L holds at most floor(L / rate) + 2 grants |
| `RateLimiter.ConsecutiveGrantsSpan` | parser/internal/rate_limiter/rate_limiter.go:38-91 | any m + 1 consecutive grants span at least (m - 1) * rate |
| `RateLimiter.RateBoundTight` | parser/internal/rate_limiter/rate_limiter.go:38-91 | for every rate and k some run grants k + 2 times in a window of length k * rate, so the bound is the best possible |
| `RateLimiter.StopIsFinal` | parser/internal/rate_limiter/rate_limiter.go:69-103 | nothing is granted after the stop |
| `Queue.FIFOQueue.constructor` | parser/internal/queue/queue_models.go:10-15 | an empty open queue of the given capacity |
| `Queue.FIFOQueue.Enqueue` | parser/internal/queue/queue_methods.go:6-18 | appends iff open and not full; otherwise refuses and changes nothing |
| `Queue.AcceptsIff` | parser/internal/queue/queue_methods.go:6-18 | an item is taken, at the end, iff the queue is open and below its capacity |
| `Queue.FIFOQueue.Dequeue` | parser/internal/queue/queue_methods.go:21-33 | takes the oldest item, also from a closed queue; on an empty one it answers at once |
| `Queue.FIFOQueue.Size` | parser/internal/queue/queue_methods.go:36-38 | the number of queued items, never above the capacity |
| `Queue.FIFOQueue.Close` | parser/internal/queue/queue_methods.go:42-47 | refuses later items and keeps the queued ones |
| `Queue.FIFOQueue.Clear` | parser/internal/queue/queue_methods.go:50-67 | empties an open queue and leaves a closed one alone |
| `Jobs.BaseJob.constructor` | parser/internal/parsers_manager/parsers_jobs.go:15-37 | an empty channel of capacity one, nobody notified |
| `Jobs.BaseJob.Send` | parser/internal/jobs/base_job.go:34-38 | a send into the channel of capacity one goes through iff it is empty |
| `Jobs.BaseJob.Complete` | parser/internal/jobs/base_job.go:26-40 | only the first call sends; channel and blocked sends together are the messages in order, and with an empty channel it gets through unreceived iff the job failed |
| `Pipeline.InvHolds` | parser/internal/parsers_manager/parsers_workers.go:20-101 | the whole invariant of the pool over every interleaving: order, one place per job, semaphore and breaker counts, delivery through the mailboxes |
| `Pipeline.JobsConserved` | parser/internal/parsers_manager/parsers_workers.go:20-72 | dequeued + queued = accepted in order, the queue stays within its capacity, every accepted job is in exactly one of queue, one worker, finished, and no other job is anywhere |
| `Pipeline.SubmitAcceptedIff` | parser/internal/parsers_manager/parsers_jobs.go:40-48 | in every reachable state a submission is accepted iff the job is new and the queue below its capacity; it then goes to the end with a waiting caller |
| `Pipeline.SemaphoreBoundsTheBreaker` | parser/internal/parsers_manager/parsers_workers.go:51-62 | the semaphore counts exactly the workers between acquire and release, within its size; the breaker's unreported requests are the executing workers and never exceed it |
| `Pipeline.HeldOnce` | parser/internal/parsers_manager/parsers_workers.go:26-40 | two workers never hold the same job, and a held job is neither queued nor finished |
| `Pipeline.MailOfJob` | parser/internal/jobs/base_job.go:26-40 | what went through a job's channel is at any time a prefix of the sends of that job's output |
| `Pipeline.ReceivedIsOwnOutput` | parser/internal/parsers_manager/parsers_jobs.go:85-117 | what a waiting caller receives is data, error and flag of its own job |
| `Pipeline.WorkerEffect` | parser/internal/parsers_manager/parsers_workers.go:20-101 | a worker step moves only this worker along the legal transitions and keeps semaphore, breaker totals, dequeued jobs and waiters in step |
| `Pipeline.OutputComesFrom` | parser/internal/parsers_manager/parsers_workers.go:47-101 | every output was computed by one event of the run, by the worker that held the job: a slot timeout, a rejection or a return |
| `Pipeline.ComputedStays` | parser/internal/parsers_manager/parsers_workers.go:47-101 | and what such an event computes is the output of the job for the rest of the run |
| `PipelineProgress.BlockedForeverIff` | parser/internal/jobs/base_job.go:34-38 | a worker inside Complete never gets past it iff its job succeeded and its caller left before receiving |
| `PipelineProgress.StuckForever` | parser/internal/jobs/base_job.go:34-38 | such a worker keeps its slot in every continuation |
| `PipelineProgress.CanGetPast` | parser/internal/jobs/base_job.go:26-40 | any other worker gets past Complete by its own sends and the receive of its caller alone |
| `PipelineProgress.NextOutStays` | parser/internal/jobs/base_job.go:34-38 | the next step of such a worker (its send, the receive of its caller, or the release) stays enabled and the same under every other event, except that the caller leaves |
| `PipelineProgress.FairnessFreesSlot` | parser/internal/parsers_manager/parsers_workers.go:51-71 | so in every fair infinite execution in which the caller does not leave, the worker frees the slot it held for this job at some later time |
| `PipelineProgress.EveryPoolCanLeak` | parser/internal/parsers_manager/parsers_workers.go:51-71 | for every k up to the numbers of slots and workers some run blocks k workers with their slots in every continuation |
| `PipelineProgress.EveryPoolCanGetLost` | parser/internal/parsers_manager/parsers_workers.go:51-71 | every pool that can queue a job has a run, before any stop, after which abandoned successes hold every slot or every worker, whichever are fewer |
| `PipelineProgress.LostIff` | parser/internal/parsers_manager/parsers_workers.go:20-72 | a running pool can never bring a job to the breaker again iff abandoned successes hold every slot or every worker |
| `PipelineProgress.LostForever` | parser/internal/parsers_manager/parsers_workers.go:51-71 | a lost pool stays lost and its breaker admits nothing more, in any continuation |
| `PipelineProgress.FewMoreJobs` | parser/internal/parsers_manager/parsers_workers.go:23-31 | after the stop signal at most the workers already past their select take another job, one each |
| `PipelineProgress.StoppedPoolTerminates` | parser/internal/parsers_manager/parsers_workers.go:20-44 | every schedule of a stopped pool has a bounded number of worker steps |
| `PipelineProgress.ShutdownOutcome` | parser/internal/parsers_manager/parsers_workers.go:104-129 | a stopped pool that came to rest has only exited workers and workers blocked on an abandoned success, and the semaphore counts the latter; with none abandoned all exited and it is empty |
| `ShardedCache.InmemoryShardedCache.constructor` | parser/internal/inmemory_cache/cache.go:11-31 | all shards exist and are empty |
| `ShardedCache.InmemoryShardedCache.GetItem` | parser/internal/inmemory_cache/cache.go:36-55 | a lookup in one shard is a lookup in the flat table; the expiry time itself still counts as alive |
| `ShardedCache.InmemoryShardedCache.AddItemWithTTL` | parser/internal/inmemory_cache/cache.go:75-87 | writes the flat table at this key and nowhere else |
| `ShardedCache.InmemoryShardedCache.DeleteFromShard` | parser/internal/inmemory_cache/cache.go:92-99 | under one shard lock the loop deletes every item of this shard and touches no other, because its variable hides the key |
| `ShardedCache.InmemoryShardedCache.DeleteItem` | parser/internal/inmemory_cache/cache.go:90-100 | empties the whole cache whatever the key; it deletes just this key iff no other key is stored |
| `ShardedCache.InmemoryShardedCache.CleanUpShard` | parser/internal/inmemory_cache/cleanup.go:28-37 | under one shard lock the loop keeps exactly what is not expired at the start of the sweep and touches no other shard |
| `ShardedCache.InmemoryShardedCache.CleanUpExpired` | parser/internal/inmemory_cache/cleanup.go:24-38 | removes exactly the items expired at the start of the sweep, in all shards |
| `ShardedCache.KeysStayInTheirShard` | parser/internal/inmemory_cache/cache.go:58-72 | under every sequence of operations every key is stored only in its hash shard |
| `ShardedCache.FlatIsShard` | parser/internal/inmemory_cache/cache.go:36-72 | a key is in the flat table iff it is in its shard, with the same item |
| `ShardedCache.FlatOfPut` | parser/internal/inmemory_cache/cache.go:75-87 | writing one shard writes the flat table |
| `ShardedCache.FlatOfSwept` | parser/internal/inmemory_cache/cleanup.go:24-38 | sweeping every shard sweeps the flat table |
| `ShardedCache.ClearsReach` | parser/internal/inmemory_cache/cache.go:92-99 | deleting shard by shard under separate locks empties exactly the shards passed so far |
| `ShardedCache.SweepsReach` | parser/internal/inmemory_cache/cleanup.go:28-37 | likewise for the sweep |
| `ShardedCache.LookupIsLastWrite` | parser/internal/inmemory_cache/cache.go:36-100 | under every interleaving of writes, clears and sweeps of single shards a lookup returns the last unexpired write to its key not followed by a clear; sweeps up to the lookup time are invisible |
| `ShardedCache.UnsweptStays` | parser/internal/inmemory_cache/cleanup.go:6-21 | when no sweep comes after time t, an item that expires at t or later stays stored until it is overwritten or cleared, and only last writes are ever stored |
| `ReverseIndex.CompositeKeyInjective` | parser/internal/parsers_manager/internal_func.go:47 | composite keys determine source and ID among names that do not clash |
| `ReverseIndex.KeysMeetIff` | parser/internal/parsers_manager/internal_func.go:47 | two names share a composite key for some IDs iff one name followed by the separator is a prefix of the other |
| `ReverseIndex.IndexOne` | parser/internal/parsers_manager/internal_func.go:47-56 | one pass of the inner loop stores position, parser and hash under the composite key and nothing else |
| `ReverseIndex.IndexRow` | parser/internal/parsers_manager/internal_func.go:46-57 | the inner loop makes the writes of one parser's vacancies in order |
| `ReverseIndex.BuildReverseIndex` | parser/internal/parsers_manager/internal_func.go:44-59 | the nested loops make exactly the writes of all vacancies in reading order, each at its own clock reading |
| `ReverseIndex.Scan` | parser/internal/parsers_manager/search_vacancy_datails.go:60-73 | the nested scan shows ID, job, salary, company, area and URL of the last match in reading order and nothing else of it, or the empty vacancy iff there is none |
| `ReverseIndex.LastWriteWins` | parser/internal/parsers_manager/internal_func.go:55-56 | the entry of a key is its last write |
| `ReverseIndex.WriteAt` | parser/internal/parsers_manager/internal_func.go:45-57 | the vacancy at (r, i) makes the write number offset(r) + i |
| `ReverseIndex.WriteFrom` | parser/internal/parsers_manager/internal_func.go:45-57 | every write comes from some vacancy |
| `ReverseIndex.IndexAgreesWithScan` | parser/internal/parsers_manager/search_vacancy_datails.go:60-73 | after building, the entry of (source, ID) holds the position of the very vacancy the scan ends on, with duplicate IDs and repeated parsers too |
| `ReverseIndex.IndexLeavesOthers` | parser/internal/parsers_manager/internal_func.go:44-59 | without a match the entry is left as it was |
| `ReverseIndex.ClashMisleads` | parser/internal/parsers_manager/internal_func.go:47 | every clashing pair of names has results whose index entry answers for the other source while the scan shows the empty vacancy |
| `ReverseIndex.AgreesIff` | parser/internal/parsers_manager/search_vacancy_datails.go:60-73 | index and scan agree for a source on all results of the registered parsers and all IDs iff no other registered name clashes with it |
| `SearchService.ParsersManager.constructor` | parser/internal/parsers_manager/parsers_manager.go:60-90 | keeps the three caches it is given, with their contents |
| `SearchService.ParsersManager.TryGetFromCache` | parser/internal/parsers_manager/cache.go:10-37 | a hit is an unexpired value of the list type; a value of the other type is a miss |
| `SearchService.ParsersManager.CacheSearchResults` | parser/internal/parsers_manager/cache.go:40-54 | writes the search entry with the search TTL and the index entries with the vacancy TTL |
| `SearchService.ParsersManager.CacheDetailsResult` | parser/internal/parsers_manager/cache.go:57-62 | details land in the search cache; the details cache is unchanged |
| `SearchService.ParsersManager.FilterSuccessfulResults` | parser/internal/parsers_manager/search_vacansies.go:72-80 | the loop keeps the successful results in order |
| `SearchService.SuccessfulOnesExactly` | parser/internal/parsers_manager/search_vacansies.go:72-80 | the kept results are those at the positions without error and with some vacancy, each position once and in order |
| `SearchService.ParsersManager.ExecuteSearch` | parser/internal/parsers_manager/search_vacansies.go:35-69 | a hit is returned as it is; otherwise all results are returned and only successful ones cached, if there are any |
| `SearchService.SearchAnswers` | parser/internal/parsers_manager/search_vacansies.go:35-69 | an unexpired list under the hash is the answer and nothing changes; otherwise exactly what the parsers found is the answer, or an error with an empty list |
| `SearchService.SearchStores` | parser/internal/parsers_manager/search_vacansies.go:54-63 | what a miss stores: the results without error and with vacancies, in order, until the search TTL after the caching; nothing if there are none |
| `SearchService.SearchTwice` | parser/internal/parsers_manager/search_vacansies.go:35-69 | a second search of the hash with nothing in between is answered, until the search TTL is over, with exactly the successful results of the first, in order, without asking |
| `SearchService.ParsersManager.SearchVacancyDetails` | parser/internal/parsers_manager/search_vacancy_datails.go:140-178 | a details request changes at most the search cache, and only after a successful fetch |
| `SearchService.DetailsAnswers` | parser/internal/parsers_manager/search_vacancy_datails.go:140-178 | served details are the answer; otherwise what was fetched is the answer and is stored as it is in the search cache under the ID for the vacancy TTL; a failure stores nothing |
| `SearchService.ParsersManager.GetVacancyDetails` | parser/internal/parsers_manager/search_vacancy_datails.go:17-82 | the answer is what index, search cache and scan say, field by field for a found vacancy; a stale entry empties the whole index |
| `CacheRuns.InvHolds` | parser/internal/parsers_manager/search_vacansies.go:35-69 | over every interleaving of searches, details requests, lookups, sweeps and emptyings, without two searches of one hash in flight: what an index entry or a running lookup points into stays for its time |
| `CacheRuns.CoherentIff` | parser/internal/parsers_manager/cache.go:40-54 | over all interleavings, live index entries always point into live search entries holding their vacancy iff index entries are dead on arrival, or no two searches of one hash overlap, no vacancy ID is a search hash, and index TTL + indexing time <= search TTL |
| `CacheRuns.LateIndexingBreaks` | parser/internal/parsers_manager/internal_func.go:55-56 | a run that breaks coherence by indexing late whenever the inequality fails |
| `CacheRuns.OverlapBreaks` | parser/internal/parsers_manager/search_vacansies.go:35-69 | a run in which two searches of one hash miss together and leave an entry without its vacancy, whatever the TTLs |
| `CacheRuns.MixingBreaks` | parser/internal/parsers_manager/cache.go:57-62 | a run in which details overwrite the search results under the same key |
| `CacheRuns.HitsAreGood` | parser/internal/parsers_manager/search_vacansies.go:55-63 | in every interleaving without exception a search-cache hit is a non-empty list of error-free, non-empty results under a searched hash, and the details cache is empty |
| `CacheRuns.LookupSound` | parser/internal/parsers_manager/search_vacancy_datails.go:33-80 | whatever happens between the two halves of a lookup, within the spare lifetime it shows the six fields of the last match with the asked ID; never stale, wrong type or empty |
| `CacheRuns.SearchAlone` | parser/internal/parsers_manager/search_vacansies.go:35-69 | a search with nobody in between gives the results and the error, and leaves the caches, that `Execute` and so the method says |
| `CacheRuns.LookupAlone` | parser/internal/parsers_manager/search_vacancy_datails.go:33-77 | a lookup with nobody in between empties the index iff its entry is alive and the search results are not, and changes nothing else |
| `CacheRuns.SweepAlone` | parser/internal/inmemory_cache/cleanup.go:24-38 | a sweep of all shards leaves exactly what is not expired at its start and touches no other cache |
| `FanOut.InvHolds` | parser/internal/parsers_manager/parsers_conc_search.go:14-86 | the invariant of all goroutines, channels and the wait group over every interleaving |
| `FanOut.NoPanicNoBlock` | parser/internal/parsers_manager/parsers_conc_search.go:38-76 | nobody sends on the closed channel, it is open while an outer goroutine runs, and an inner one never blocks on its answer |
| `FanOut.OneEntryPerParser` | parser/internal/parsers_manager/parsers_conc_search.go:59-85 | the returned list has exactly one entry per selected parser: its real result, or, only if the context ended, a timeout entry without vacancies |
| `FanOut.EntriesCarryAnswers` | parser/internal/parsers_manager/parsers_conc_search.go:38-68 | field by field: each entry carries the vacancies, error and duration that its parser answered in this run, its name and the search hash, or, only if the context ended, its name, the timeout error and no vacancies |
| `FanOut.RealUnlessCancelled` | parser/internal/parsers_manager/parsers_conc_search.go:59-68 | in a run whose context never ends every entry is the real result |
| `FanOut.StepsShrink` | parser/internal/parsers_manager/parsers_conc_search.go:14-86 | every effective event but a cancellation decreases a measure |
| `FanOut.ReturnsOnceCancelled` | parser/internal/parsers_manager/parsers_conc_search.go:59-85 | once the context is done the call can return within that measure even if no search ever answers |
| `FanOut.GetAliveParsers` | parser/internal/parsers_manager/parsers_conc_search.go:89-101 | the nested loops select, per requested name, the registered parsers of that name in order |
| `FanOut.AliveInOrder` | parser/internal/parsers_manager/parsers_conc_search.go:89-101 | the selection follows the request name by name and the registration within a name, and leaves out no pair of requested name and parser of that name |
| `FanOut.AliveFitsChannel` | parser/internal/parsers_manager/parsers_conc_search.go:18-21 | with distinct names there are no more goroutines than channel slots, and a parser is started iff it was asked for |
| `FanOut.SendFindsRoom` | parser/internal/parsers_manager/parsers_conc_search.go:18-69 | then no outer goroutine ever waits for room |
| `SourcePipeline.InvHolds` | parser/internal/parser/base_parser.go:98-143 | permits, breaker totals and limiter grants are in step with the phases of all calls, over every interleaving |
| `SourcePipeline.EntersIff` | parser/internal/parser/base_parser.go:98-103 | a call enters iff the breaker is closed, or open since the reset timeout, or below its half-open limit |
| `SourcePipeline.RequestsBounded` | parser/internal/parser/base_parser.go:98-143 | concurrent requests never exceed maxConcurrent, and a permit is held exactly from acquisition to release on every way out |
| `SourcePipeline.RequestsRateLimited` | parser/internal/parser/base_parser.go:105-109 | until the limiter is stopped requests started <= grants <= ticks |
| `SourcePipeline.StoppedLimitsNothing` | parser/internal/parser/base_parser.go:105-109 | after a stop any number of requests start without one grant, because the error of Wait is ignored |
| `SourcePipeline.LimitedIff` | parser/internal/parser/base_parser.go:105-109 | requests never exceed grants in any run iff the limiter is never stopped or there are no permits |
| `SourcePipeline.OneOutcomePerCall` | parser/internal/parser/base_parser.go:98-103 | the breaker's totals are the calls that reported success, those that reported failure and those still open |
| `SourcePipeline.OutcomeIsFinal` | parser/internal/parser/base_parser.go:98-143 | a call reports once |
| `SourcePipeline.SuccessNeedsRequest` | parser/internal/parser/base_parser.go:105-143 | a call that reported success began its request and got its answer; successes never exceed requests started |
| `SourcePipeline.CanReport` | parser/internal/parser/base_parser.go:98-143 | every call can report by its own steps and ticks alone: with any outcome it is not yet bound to if it holds a permit, as busy if it waits for one |
| `SourcePipeline.CanSucceed` | parser/internal/parser/base_parser.go:98-143 | from every reachable state every call not bound to fail can still succeed, by its own steps, ticks and the steps of holders of a permit |
| `SourcePipeline.BusyOpensBreaker` | parser/internal/parser/base_parser.go:221-230 | failureThreshold busy calls open the breaker without one request having started |
| `SearchFlow.VerdictKept` | parser/internal/parsers_manager/result_handler.go:13-46 | a search job succeeds iff the protected function ran without error, and then with its list |
| `SearchFlow.NoPartialSuccess` | parser/internal/parsers_manager/search_vacansies.go:35-69 | a failed search has no results, so the partial-success branch is never taken; it fails exactly on a miss without fetched results |
| `SearchFlow.ErrorMeansEmpty` | parser/internal/parsers_manager/parsers_jobs.go:85-117 | however the wait ends, an error comes with an empty list |
| `SearchFlow.NoErrorIff` | parser/internal/parsers_manager/parsers_jobs.go:85-117 | a caller has no error iff its wait ended with an errorless message carrying search results, which are then its data; a message error and a cancellation reason arrive unchanged |
| `SearchFlow.CallerHasNoErrorIff` | parser/internal/parsers_manager/parsers_jobs.go:85-117 | over every run: a caller that left without receiving has an error; it has none iff it received the message of a job whose output is search results without error |
| `SearchFlow.PartialResultsKept` | parser/internal/parsers_manager/result_handler.go:20-31 | results that come with an error stay with it, marked as partial iff the error is one of the two of the breaker or mentions it anywhere |
| `SearchFlow.CallerGetsWorkersList` | parser/internal/parsers_manager/search_vacansies.go:15-32 | over every run a caller that received its message owes it to one event of its worker: exactly the list if the search was executed without error, otherwise an empty list with the error of that course |
| `SearchFlow.FallbackDataIsLost` | parser/internal/parsers_manager/result_handler.go:39-46 | after a rejection or a failed search, cached data found by the fallback is sent and then dropped by the caller |
| `GlobalBreaker.OpensIff` | parser/internal/parsers_manager/search_vacansies.go:54-69 | over all runs of the pool the global breaker can leave its closed state iff a search may find no parser to ask or a details request may fail; failing parsers alone never open it, whatever the fan-out returns |
| `GlobalBreaker.FailuresCountAsSuccesses` | parser/internal/parsers_manager/search_vacansies.go:55-69 | for any parsers and any k some run makes k searches in which every parser failed, and the breaker has counted k successes |
| `GlobalBreaker.AllMayFail` | parser/internal/parsers_manager/parsers_conc_search.go:59-68 | whatever parsers are asked, some run of the fan-out returns with every entry failed and empty |
| `GlobalBreaker.FailedSearchSucceeds` | parser/internal/parsers_manager/search_vacansies.go:54-69 | a search all of whose parsers failed returns their entries without an error and caches nothing |
| `SalaryFormat.StrippedIsDecimal` | parser/pkg/format_salary.go:16-23 | for every integer the text without spaces is the decimal numeral |
| `SalaryFormat.FormatReadsBack` | parser/pkg/format_salary.go:16-23 | stripping and parsing returns the number |
| `SalaryFormat.FormatInjective` | parser/pkg/format_salary.go:16-23 | different numbers print differently |
| `SalaryFormat.GroupsOfThree` | parser/pkg/format_salary.go:16-23 | first group one to three digits without leading zero, all later ones exactly three; at least two groups iff n >= 1000 |
| `SalaryFormat.SalaryLineTells` | parser/pkg/format_salary.go:5-13 | two lines in one currency are equal iff the salaries agree in the bounds that are shown |
| `SalaryFormat.LineReads` | parser/pkg/format_salary.go:5-13 | the shown bounds in groups of three, lower one first, the words for a missing bound, the currency at the end; a non-positive upper bound is shown as it is |
| `HtmlCleaner.CleanHTML` | parser/internal/parsers_manager/search_vacancy_datails.go:248-273 | the loop with its flag and builder computes the recursive form that the next lemmas are about |
| `HtmlCleaner.CleanHasNoBrackets` | parser/internal/parsers_manager/search_vacancy_datails.go:248-273 | no angle bracket in the output, for any text |
| `HtmlCleaner.CleanOfPlain` | parser/internal/parsers_manager/search_vacancy_datails.go:248-273 | on text without brackets cleaning is trimming |
| `HtmlCleaner.CleanIdempotent` | parser/internal/parsers_manager/search_vacancy_datails.go:248-273 | cleaning twice is cleaning once |
| `HtmlCleaner.CleanOfDocument` | parser/internal/parsers_manager/search_vacancy_datails.go:250-272 | a rendered sequence of texts and tags is cleaned to its texts, with newlines for p and br and bullets for li |
| `HtmlCleaner.TagBetween` | parser/internal/parsers_manager/search_vacancy_datails.go:250-270 | one tag between two texts: p and br become a newline, li a bullet, any other tag nothing |
| `HtmlCleaner.CleanIsTrimmed` | parser/internal/parsers_manager/search_vacancy_datails.go:272 | the result neither begins nor ends with a blank, newline or tab |
| `HtmlCleaner.CleanKeepsText` | parser/internal/parsers_manager/search_vacancy_datails.go:248-273 | text without brackets that begins and ends with visible characters is not changed |
| `HtmlCleaner.OutsideExactly` | parser/internal/parsers_manager/search_vacancy_datails.go:258-270 | on any text the loop keeps exactly the non-brackets outside tags, each once and in order |
| `HtmlCleaner.ReplacesLeftmost` | parser/internal/parsers_manager/search_vacancy_datails.go:250-252 | a replacement takes the leftmost occurrence and goes on behind it |
| `HtmlCleaner.ReplacesNothing` | parser/internal/parsers_manager/search_vacancy_datails.go:250-252 | without an occurrence the text stays as it is |
| `HtmlCleaner.UnclosedSwallows` | parser/internal/parsers_manager/search_vacancy_datails.go:258-270 | an opening bracket that is never closed swallows the rest |

## Left out

- HTTP requests, JSON decoding, URL building and the mapping of the sites' fields: a parser
  call is a step that returns an arbitrary result or error.
- Configuration files, console menu, input and output.
- SHA-256, FNV and the job ID generator: the shard hash is an arbitrary function into 32
  bits, a search hash an arbitrary string, and two jobs never share an ID. The error branches of
  hash generation are absent, because marshalling two strings and two integers cannot fail.
- `windowDuration` of the breaker: it is stored and never read.
- Wrap-around of unsigned counters: they are natural numbers.
- Panics inside a protected call, and a details request for an unknown source, which
  dereferences a missing parser: protected calls return, sources are registered.
- Races of `Stop` with a tick or a wait that already passed its check, and of `Close` and
  `Clear` with senders: each of these operations is one atomic step.
- The refill loop: a tick is an event, and only the theorems about time assume that ticks are
  at least `rate` apart.
- The retry loop of `tryEnqueueJob` and its pauses: every attempt is a `Submit` event, giving
  up is not submitting again; the waiter's timeout and its context are the `Leave` event.
- `sync.Once` inside the pipeline: every job is completed by one worker only, which
  `Pipeline.HeldOnce` shows; `Jobs.BaseJob.Complete` keeps the flag.
- The ten-second limit that `Shutdown` puts on its own waiting.
- SearchService.ParsersManager.constructor: takes existing caches on separate storage; the
  checks for missing arguments and the start of the workers are left out, and `Pipeline` begins
  with the workers started.
- Reading the clock just before a shard lock and using it under the lock: one event does both,
  except for a sweep, which uses the time of its own start.
- Parser status manager, factory, selection of healthy parsers and pool sizing: few branches;
  the selected names, sizes and capacities are parameters.
- Error values are texts; wrapping keeps no chain, and the check for a breaker error looks
  at the text. Messages for users are abbreviated.
- Dates and some descriptive fields of a vacancy, which are only copied.
- Text that is not valid UTF-8, and the cut of a long description before it is cleaned.
