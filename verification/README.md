# Verified model of the TV list aggregator's core

The aggregator fetches program lists from many sources, merges them and stores them. Most of it is
web framework, ORM and user interface. Underneath lies a hand-written layer of state machines and data
transformations, and that layer is what is modelled here, file by file:

| module | what it models |
|---|---|
| `Prelude`, `Text`, `Order` | options and results, failure streaks; Python's `strip`, `split`, `splitlines` and words; sorted sets and dictionary order |
| `CircuitBreaker` | the three-state breaker as an object, and every interleaving of its gate and report steps |
| `RateLimiter` | the token bucket as an object, every run of turns with exact, overlong or cancelled sleeps, and the schedule of a queue |
| `RateBounds` | how many grants a window of time can hold: the documented bound, the real one, and exactly when each is kept |
| `HttpClient` | `fetch`: bucket, breaker, status classification and retry composed, for one caller |
| `SharedFetcher` | any number of fetches on one fetcher, interleaved, delayed and cancelled at every await |
| `TtlCache` | the lazy-expiry cache as an object, and `get_or_set` as coroutine steps interleaved with everything else |
| `Programs`, `Dedup` | the program record and the merge service |
| `ProgramStore` | the program table and what runs of `upsert` do to it |
| `Sessions` | database sessions with their own pending writes, and the program repository that writes through one |
| `Aggregation` | `run_once` and the job record |
| `HealthCheck` | the health-check loop, the stored failure streaks, the operator's switches between ticks and in the middle of one |
| `Normalization`, `IdentityKey`, `M3uSource`, `M3uKeys` | title normalisation, the texts hashed into identity keys, the M3U scanner and the keys of its entries |

Objects whose methods assign fields are classes; their methods are proved equal to step functions on
the fields (`Gate`, `OnFailure`, `Acquired`, `Answer`, `Upserted`, `Tick`, ...), and whole runs are sequences of
those steps. `dafny verify dfyconfig.toml` checks the project.

## Where code and documentation part

The model follows the code. Where the code does not do what its comments say, the exact condition is proved.

- The breaker's docstring promises recovery after `reset_timeout`. `_on_success` clears `_opened_at` even when
  the state is OPEN, so a call admitted before the opening that succeeds late leaves a breaker whose gate
  fails its assertion. `DiesExactlyWhen`, `DeadForever` and `DeadForGoodIsReachable` say when this happens, when it is for good, and
  that it can happen under every configuration. Calls that do not overlap never meet it (`SerialRunsNeverDie`).
  Fetches that share a fetcher end in that assertion only after such a success (`AssertionOnlyByLateSuccess`), and
  none of them ever sends a request again exactly when the breaker is dead and the requests in flight cannot bring
  its count to the limit (`NobodyEverServedExactly`).
- HALF_OPEN is documented to admit one probe. It admits every caller (`HalfOpenAdmitsEveryone`).
- The bucket is documented as N tokens a minute. Time slept is credited twice, so a queue is served at twice the
  nominal rate (`BacklogSchedule`, `BoundIsAttained`). The code keeps to the documented `capacity + refill * elapsed`
  exactly where grants find a token on hand: turn by turn (`NominalCostExactly`), in every window without a slept
  grant (`NominalWindow`), and for a queue exactly if at most its last caller has to sleep (`QueueWithinNominalExactly`).
- Even `capacity + 2 * refill * elapsed` is not kept when sleeps end late. It holds in every window of every run
  of a fresh bucket exactly if no sleep is late by more than the refill time of `rate - 3/2` tokens
  (`DoubleRateExactly`); with exact sleeps, exactly from two requests a minute on (`ExactSleepsExactly`).
- Once the breaker opens during a fetch, its retry should meet an open breaker. With one caller this holds exactly
  from three requests a minute on (`QuietExactlyFrom3`): below that the bucket's sleep outlasts the reset timeout.
- `get_or_set` promises one factory run for concurrent callers of a key. A fill keeps that promise exactly if its
  value is not `None` and its time to live is positive (`FillShieldsExactly`); otherwise the very next caller runs
  its factory again.
- `run_once` describes one transaction that is rolled back on failure, so that nothing counts as saved. The session
  it opens holds none of the upserts, which go through the repository's own session: `FactoryRollsNothingBack`,
  against `RoutedThroughFactoryAllOrNothing`, which says what the comments describe. The job fails exactly if the
  commit does, an outage is met or two inserts clash, and it then reports zero saved exactly if the first upsert did
  not pass (`FailedFactoryJobReportsZeroExactly`). What it counted survives exactly if the first upsert did not pass,
  an outage stopped it and left the session its writes, or nothing clashed (`CountedUpsertsSurviveExactly`).
- `to_program`, through which the parsers build programs, gives them no id, and the table stores a missing id as the empty one, which is a primary key. So a
  crawl of theirs succeeds exactly if it brings no new key, or a single one to a table without the empty id
  (`IdlessCrawlSucceedsExactly`), and over any number of crawls the table gains one row at most
  (`IdlessCrawlsAddOneRow`). Two new programs are enough for a job that says it saved one and leaves nothing
  (`TwoIdlessPrograms`).
- An identity key is meant to name one program. Its text does so exactly if no other bar of title and channel id
  splits them into a title and a channel id that some program could have (`IdentityKey.SoleOwnerExactly`, with a real
  colliding pair in `CollidingPair`). The same holds of playlist entries and two bars (`M3uKeys.SoleOwnerExactly`,
  with a playlist in `CollidingEntries`).
- A source an operator disables in the middle of a tick is set to PAUSED all the same if its check fails at the
  threshold (`SwitchStaysExactly`, `DisabledInTickEndsPaused`).

## Model

| member | source | states |
|---|---|---|
| CircuitBreaker.AsyncCircuitBreaker.Enter | tv-list-aggregator/src/tv_list_aggregator/infrastructure/resilience/circuit_breaker.py:44-53 | the gate: admits unless OPEN and not yet due, turns OPEN into HALF_OPEN when due, fails its assertion without an opening time |
| CircuitBreaker.AsyncCircuitBreaker.ReportSuccess | tv-list-aggregator/src/tv_list_aggregator/infrastructure/resilience/circuit_breaker.py:64-69 | a success closes a HALF_OPEN breaker and clears count and opening time in every state |
| CircuitBreaker.AsyncCircuitBreaker.ReportFailure | tv-list-aggregator/src/tv_list_aggregator/infrastructure/resilience/circuit_breaker.py:71-76 | a failure counts, and opens the breaker from HALF_OPEN or at the limit |
| CircuitBreaker.AsyncCircuitBreaker.Call | tv-list-aggregator/src/tv_list_aggregator/infrastructure/resilience/circuit_breaker.py:41-62 | a call nothing overlaps: gate, then a success or failure report, or none if rejected or cancelled |
| CircuitBreaker.CallIsASerialRun | tv-list-aggregator/src/tv_list_aggregator/infrastructure/resilience/circuit_breaker.py:41-62 | such a call is a serial run of the interleaved steps, so the theorems about runs hold of the object |
| CircuitBreaker.EveryRunKeepsInv | tv-list-aggregator/src/tv_list_aggregator/infrastructure/resilience/circuit_breaker.py:44-76 | in every interleaving the count is the trailing run of failures in completion order; CLOSED has no opening time and a count below the limit; HALF_OPEN is at least `reset_timeout` past its opening |
| CircuitBreaker.ToldFromHistory | tv-list-aggregator/src/tv_list_aggregator/infrastructure/resilience/circuit_breaker.py:44-76 | in every interleaving state, count and opening time are told from the events alone: an opening time exactly while the failures since the last success reach the limit, and then that of the last failure; HALF_OPEN from the first arrival after the timeout until the next report; OPEN without opening time exactly after a success reported while OPEN |
| CircuitBreaker.AdmittedExactly | tv-list-aggregator/src/tv_list_aggregator/infrastructure/resilience/circuit_breaker.py:44-53 | the next arrival is let through if and only if, the limit being reached, the timeout since the last reported failure is over, or, the limit not being reached, no late success has broken the breaker |
| CircuitBreaker.DiesExactlyWhen | tv-list-aggregator/src/tv_list_aggregator/infrastructure/resilience/circuit_breaker.py:64-69 | in every reachable state that is not dead, a step leaves the breaker OPEN without opening time if and only if it reports a success while OPEN |
| CircuitBreaker.DeadOnlyByLateSuccess | tv-list-aggregator/src/tv_list_aggregator/infrastructure/resilience/circuit_breaker.py:44-69 | every run that ends dead contains a success reported while OPEN |
| CircuitBreaker.DeadForever | tv-list-aggregator/src/tv_list_aggregator/infrastructure/resilience/circuit_breaker.py:44-76 | a dead breaker admits no call in any continuation if and only if nobody is in flight or count plus calls in flight stay below the limit |
| CircuitBreaker.Revive | tv-list-aggregator/src/tv_list_aggregator/infrastructure/resilience/circuit_breaker.py:71-76 | otherwise some continuation admits a call |
| CircuitBreaker.NobodyEverAdmittedExactly | tv-list-aggregator/src/tv_list_aggregator/infrastructure/resilience/circuit_breaker.py:44-76 | in any world, live ones included, no continuation admits a call if and only if the breaker is dead and the calls in flight cannot bring the count to the limit |
| CircuitBreaker.DiesExactlyByLateSuccess | tv-list-aggregator/src/tv_list_aggregator/infrastructure/resilience/circuit_breaker.py:44-69 | a run from the initial state passes through a dead state if and only if it reports a success while OPEN |
| CircuitBreaker.DeadForGoodIsReachable | tv-list-aggregator/src/tv_list_aggregator/infrastructure/resilience/circuit_breaker.py:44-76 | for every configuration some run from the initial state ends dead for good |
| CircuitBreaker.HalfOpenAdmitsEveryone | tv-list-aggregator/src/tv_list_aggregator/infrastructure/resilience/circuit_breaker.py:46-53 | in HALF_OPEN any number of distinct callers is admitted, and all are then in flight |
| CircuitBreaker.SerialRunsNeverDie | tv-list-aggregator/src/tv_list_aggregator/infrastructure/resilience/circuit_breaker.py:41-76 | without overlap CLOSED holds exactly when there is no opening time, OPEN has nobody in flight, and the assertion never fails |
| CircuitBreaker.ProbePacing | tv-list-aggregator/src/tv_list_aggregator/infrastructure/resilience/circuit_breaker.py:46-49 | in a serial run of failures the k-th call admitted after an opening at o comes no earlier than o + k * reset_timeout, and the breaker never closes |
| CircuitBreaker.ClosedExactlyBelowFailMax | tv-list-aggregator/src/tv_list_aggregator/infrastructure/resilience/circuit_breaker.py:71-76 | from CLOSED with a clear count, in any interleaving without a success, CLOSED holds exactly while fewer than `fail_max` failures are in |
| CircuitBreaker.ProbeSuccessRestoresBudget | tv-list-aggregator/src/tv_list_aggregator/infrastructure/resilience/circuit_breaker.py:64-76 | one success on a probe restores the initial fields and with them the full budget of failures |
| RateLimiter.TokenBucket.Acquire | tv-list-aggregator/src/tv_list_aggregator/infrastructure/resilience/rate_limiter.py:18-29 | refill capped at capacity, then a token taken or a sleep for the missing part after which no token is left, or a cancelled sleep that changes no more; the time of the grant |
| RateLimiter.TurnsAreAcquires | tv-list-aggregator/src/tv_list_aggregator/infrastructure/resilience/rate_limiter.py:18-29 | the turns that make up runs are exactly what `acquire` may do: exact, overlong and cancelled sleeps |
| RateLimiter.EveryRunKeepsInv | tv-list-aggregator/src/tv_list_aggregator/infrastructure/resilience/rate_limiter.py:11-29 | tokens lie between 0 and capacity in every reachable state, and grants come in time order |
| RateLimiter.TwoGrantsPerInterval | tv-list-aggregator/src/tv_list_aggregator/infrastructure/resilience/rate_limiter.py:20-29 | short of a token, two queued callers take exactly one refill interval together and leave the tokens on hand as they were |
| RateLimiter.BacklogSchedule | tv-list-aggregator/src/tv_list_aggregator/infrastructure/resilience/rate_limiter.py:18-29 | short of a token, the exact moment the k-th queued caller is granted: two callers per refill interval |
| RateLimiter.QueueServedExactly | tv-list-aggregator/src/tv_list_aggregator/infrastructure/resilience/rate_limiter.py:18-29 | from every bucket state and for every queue, the exact moment the k-th caller is granted: the whole tokens on hand, min(capacity, tokens + elapsed * refill_rate), at once, the rest two a refill interval |
| RateLimiter.ServedAtOnceExactly | tv-list-aggregator/src/tv_list_aggregator/infrastructure/resilience/rate_limiter.py:20-23 | k callers are granted on the spot if and only if k is at most the capacity and at most tokens + elapsed * refill_rate |
| RateLimiter.FreshQueueExactly | tv-list-aggregator/src/tv_list_aggregator/infrastructure/resilience/rate_limiter.py:11-29 | a new bucket of N a minute grants N callers at once and the k-th after ceil((k - N) / 2) * 60 / N seconds |
| RateLimiter.IdleMinuteFills | tv-list-aggregator/src/tv_list_aggregator/infrastructure/resilience/rate_limiter.py:11-22 | a bucket left alone for a minute grants a full minute's callers at once |
| RateLimiter.CancelledLeavesNoTrace | tv-list-aggregator/src/tv_list_aggregator/infrastructure/resilience/rate_limiter.py:20-26 | after a caller cancelled in its sleep every later queue is granted as if it had not come |
| RateLimiter.SleeperLeavesItsSleep | tv-list-aggregator/src/tv_list_aggregator/infrastructure/resilience/rate_limiter.py:20-27 | right after a caller that slept, exactly the tokens refilled in its sleep are on hand: the time counts twice |
| RateLimiter.BacklogProgress | tv-list-aggregator/src/tv_list_aggregator/infrastructure/resilience/rate_limiter.py:18-29 | from any reachable state the k-th queued caller is granted within ceil(k/2) refill intervals when sleeps are exact |
| RateBounds.NominalCostExactly | tv-list-aggregator/src/tv_list_aggregator/infrastructure/resilience/rate_limiter.py:20-29 | a turn pays for its grant out of tokens on hand plus nominal refill if and only if it finds a token, the guard of the sleeping branch |
| RateBounds.NominalWindow | tv-list-aggregator/src/tv_list_aggregator/infrastructure/resilience/rate_limiter.py:18-29 | any window of any run none of whose grants slept keeps to capacity + refill_rate * elapsed |
| RateBounds.QueueWithinNominalExactly | tv-list-aggregator/src/tv_list_aggregator/infrastructure/resilience/rate_limiter.py:18-29 | a queue of k callers keeps to tokens on hand + refill_rate * elapsed at every moment if and only if k is at most the tokens on hand plus one |
| RateBounds.BoundIsAttained | tv-list-aggregator/src/tv_list_aggregator/infrastructure/resilience/rate_limiter.py:11-29 | for every rate and every number of refill intervals a queue at a fresh bucket gets exactly capacity + 2 * refill_rate * elapsed grants, more than nominal |
| RateBounds.CreditAfterTurn | tv-list-aggregator/src/tv_list_aggregator/infrastructure/resilience/rate_limiter.py:20-29 | a grant costs one unit of tokens on hand, fractions counted beyond a half, plus twice the refill to come; a cancelled sleep gains none |
| RateBounds.GrantsUpTo | tv-list-aggregator/src/tv_list_aggregator/infrastructure/resilience/rate_limiter.py:18-29 | from any state the grants up to a moment are at most that credit |
| RateBounds.WindowBound | tv-list-aggregator/src/tv_list_aggregator/infrastructure/resilience/rate_limiter.py:18-29 | between any two moments of any run at most capacity + 2 * refill_rate * elapsed grants, plus one only if a call sleeps across the opening of the window so long that more than capacity - 1/2 tokens are refilled meanwhile |
| RateBounds.DoubleRateExactly | tv-list-aggregator/src/tv_list_aggregator/infrastructure/resilience/rate_limiter.py:11-29 | with sleeps late by at most d seconds, every window of every run of a fresh bucket keeps to capacity + 2 * refill_rate * elapsed if and only if d refills at most rate - 3/2 tokens |
| RateBounds.ExactSleepsExactly | tv-list-aggregator/src/tv_list_aggregator/infrastructure/resilience/rate_limiter.py:11-29 | with exact sleeps that is so if and only if the rate is at least 2 a minute |
| RateBounds.LateRunIsRun | tv-list-aggregator/src/tv_list_aggregator/infrastructure/resilience/rate_limiter.py:11-29 | the run that breaks the bound otherwise, from a fresh bucket and with no sleep later than d |
| RateBounds.StraddleIsAttained | tv-list-aggregator/src/tv_list_aggregator/infrastructure/resilience/rate_limiter.py:20-27 | for every rate one sleep late by a minute lets capacity + 1 grants fall on one instant |
| HttpClient.RetryDiscipline | tv-list-aggregator/src/tv_list_aggregator/infrastructure/http/client.py:32-66 | whatever other callers do: at least one and at most the allowed attempts; every outcome is the one listed for what its attempt met, status by status; all but the last were admitted and met 429, 5xx or a transport error; fewer only after something else; a rejection ends it |
| HttpClient.ResilientHTTPFetcher.FetchOnce | tv-list-aggregator/src/tv_list_aggregator/infrastructure/http/client.py:38-66 | the body of `fetch`: one grant after an exact or late sleep, one gated request, and the state of bucket and breaker after it; a result exactly for a status below 400, and each exception exactly for its statuses |
| HttpClient.ResilientHTTPFetcher.Fetch | tv-list-aggregator/src/tv_list_aggregator/infrastructure/http/client.py:32-66 | the retry loop makes exactly the attempts of the specification, one to four, each ending as its reply demands, and leaves the state of the last |
| HttpClient.AttemptsFollowRetry | tv-list-aggregator/src/tv_list_aggregator/infrastructure/http/client.py:32-66 | a single caller's attempts follow the retry loop, so `RetryDiscipline` holds of them |
| HttpClient.RetriesComeAfter | tv-list-aggregator/src/tv_list_aggregator/infrastructure/http/client.py:32-37 | the attempts of a fetch come half a second, one and two seconds after the end of the one before |
| HttpClient.OneGrantPerAttempt | tv-list-aggregator/src/tv_list_aggregator/infrastructure/http/client.py:41-46 | the attempts, with sleeps exact or late, are one for one a legal run of bucket grants that leaves the bucket as they do; the breaker's assertion is not met |
| HttpClient.GapBound | tv-list-aggregator/src/tv_list_aggregator/infrastructure/http/client.py:32-41 | between an attempt and the next grant goes by the back-off or at most one refill interval, not their sum |
| HttpClient.QuietExactlyFrom3 | tv-list-aggregator/src/tv_list_aggregator/infrastructure/http/client.py:29-41 | with one caller and exact sleeps, in every session of fetches by a fresh client no request is sent after the breaker opens during a fetch, if and only if the rate is at least 3 a minute |
| HttpClient.SessionsNeverAssert | tv-list-aggregator/src/tv_list_aggregator/infrastructure/http/client.py:38-48 | over any number of fetches one caller never meets the breaker's failing assertion |
| HttpClient.ErrorResponsesNeverTrip | tv-list-aggregator/src/tv_list_aggregator/infrastructure/http/client.py:43-58 | any HTTP response resets the breaker: over any number of fetches answered with any statuses every attempt is admitted and the breaker stays in its initial state |
| HttpClient.FetchWithinBudgetNeverTrips | tv-list-aggregator/src/tv_list_aggregator/infrastructure/http/client.py:30-46 | with more failures to spare than attempts left a fetch cannot open the breaker |
| HttpClient.FreshFetchNeverTrips | tv-list-aggregator/src/tv_list_aggregator/infrastructure/http/client.py:29-46 | so one fetch of a fresh client never opens it |
| SharedFetcher.TurnsAreBucketRun | tv-list-aggregator/src/tv_list_aggregator/infrastructure/http/client.py:32-46 | in every interleaving of any number of fetches, cancelled ones included, the turns they take are a legal run of the bucket and the bucket is what that run leaves, with at most one caller asleep on its lock |
| SharedFetcher.RequestsKeepWindowBound | tv-list-aggregator/src/tv_list_aggregator/infrastructure/http/client.py:41-46 | so the requests sent by all fetches together keep to the bound of `WindowBound` in every window of time |
| SharedFetcher.EventsAreBreakerRun | tv-list-aggregator/src/tv_list_aggregator/infrastructure/http/client.py:44-48 | what the breaker sees is a legal interleaving of calls that leaves the same breaker, clock and calls in flight, and lets through exactly the requests sent |
| SharedFetcher.EachFetchFollowsRetry | tv-list-aggregator/src/tv_list_aggregator/infrastructure/http/client.py:32-66 | whoever interferes, a fetch takes one token for each attempt, at most four; all its attempts but the last were admitted and met 429, 5xx or a transport error; it ends with exactly the outcome listed for what the last met, a retryable one only after four |
| SharedFetcher.RetriesKeepPauses | tv-list-aggregator/src/tv_list_aggregator/infrastructure/http/client.py:32-41 | whoever interferes, a retry takes its turn at the bucket at least half a second, one and two seconds after the answer before it |
| SharedFetcher.NobodyEverServedExactly | tv-list-aggregator/src/tv_list_aggregator/infrastructure/http/client.py:41-46 | in any state, no continuation sends a request if and only if the breaker is dead and the requests in flight cannot bring its count to the limit |
| SharedFetcher.AssertionOnlyByLateSuccess | tv-list-aggregator/src/tv_list_aggregator/infrastructure/http/client.py:44-46 | a fetch ends in the breaker's failing assertion only after a request succeeded while the breaker was OPEN |
| SharedFetcher.FetchIsARun | tv-list-aggregator/src/tv_list_aggregator/infrastructure/http/client.py:32-66 | the uninterrupted fetch of one caller is one of these runs, with the same outcome and state |
| TtlCache.TTLCache.Get | tv-list-aggregator/src/tv_list_aggregator/core/cache.py:51-62 | the value if its deadline is ahead, else nothing, and then the expired entry alone is deleted |
| TtlCache.TTLCache.Set | tv-list-aggregator/src/tv_list_aggregator/core/cache.py:64-68 | overwrites the entry with deadline now + ttl |
| TtlCache.TTLCache.GetOrSet | tv-list-aggregator/src/tv_list_aggregator/core/cache.py:80-103 | without interruption: the factory runs exactly on a miss; its value is stored and returned, its exception stores nothing and is raised |
| TtlCache.LazyRefinesEager | tv-list-aggregator/src/tv_list_aggregator/core/cache.py:51-78 | in every sequence of get, set, invalidate, clear and time passing, each get answers as a map that drops entries the instant they are due |
| TtlCache.SingleFlight | tv-list-aggregator/src/tv_list_aggregator/core/cache.py:95-103 | in every interleaving at most one factory runs, and the lock holder is the coroutine running it |
| TtlCache.ReadsLastLiveWrite | tv-list-aggregator/src/tv_list_aggregator/core/cache.py:51-103 | at every point of every interleaving a read answers the last value written and not invalidated since, if now is before its write time + ttl, else nothing |
| TtlCache.NextFactoryOnlyAfter | tv-list-aggregator/src/tv_list_aggregator/core/cache.py:91-103 | after a non-None fill at t the next factory for the key starts only once the clock reached t + ttl or the entry was invalidated, cleared or overwritten |
| TtlCache.OneFactoryForAll | tv-list-aggregator/src/tv_list_aggregator/core/cache.py:80-103 | from any world where the key has no live value and no factory running, whatever else waits, runs or has returned: in a run with none of these the factory runs at most once, exactly once if a caller of the key returns, and all that return get the same value |
| TtlCache.FillShieldsExactly | tv-list-aggregator/src/tv_list_aggregator/core/cache.py:97-103 | after a fill no later caller starts a factory before deadline or disturbance if and only if the value is not None and the time to live is positive; else the next caller does, at the same instant |
| TtlCache.GetOrSetIsARun | tv-list-aggregator/src/tv_list_aggregator/core/cache.py:80-103 | the uninterrupted method is the run enter, take the lock, wait, then fill or abort |
| Order.SortedSetEqual | tv-list-aggregator/src/tv_list_aggregator/domain/services/dedup_service.py:26 | `sorted` of a set depends on its members only, and on all of them |
| Order.FirstsHomomorphism | tv-list-aggregator/src/tv_list_aggregator/domain/services/dedup_service.py:31-35 | deduplicating parts in dictionary order and then their concatenation is deduplicating the whole |
| Order.FirstsInOrder | tv-list-aggregator/src/tv_list_aggregator/domain/services/dedup_service.py:31-35 | the order is that of the first occurrences |
| Order.LessExactly | tv-list-aggregator/src/tv_list_aggregator/domain/services/dedup_service.py:26 | texts are ordered as proper prefixes or by the first character in which they differ |
| Dedup.DedupService.Merge | tv-list-aggregator/src/tv_list_aggregator/domain/services/dedup_service.py:16-38 | the loops over groups, tags and keys compute the specified merge |
| Dedup.DedupService.GroupByKey | tv-list-aggregator/src/tv_list_aggregator/domain/services/dedup_service.py:17-19 | the dictionary has the keys in first-occurrence order and each program, in order, under its key |
| Dedup.DedupService.MergeTags | tv-list-aggregator/src/tv_list_aggregator/domain/services/dedup_service.py:31-35 | the tag dictionary holds every tag of the group once, in first-occurrence order |
| Dedup.CombineConcat | tv-list-aggregator/src/tv_list_aggregator/domain/services/dedup_service.py:21-37 | folding two groups and then their results is folding them as one, in every field |
| Dedup.CombineKeepsFirst | tv-list-aggregator/src/tv_list_aggregator/domain/services/dedup_service.py:22-25 | id, key, title, channel, slot and times of a folded group are those of its first program; a group of one stays as it is |
| Dedup.CombineDescriptionExactly | tv-list-aggregator/src/tv_list_aggregator/domain/services/dedup_service.py:27-29 | its description is that of the first program, by index, that has one which is not empty, else that of the first program |
| Dedup.CombineCollects | tv-list-aggregator/src/tv_list_aggregator/domain/services/dedup_service.py:26-36 | for groups of two or more: source ids those of the group, sorted and once each; tags those of the group, once each in first-occurrence order; version the highest |
| Dedup.MergedKeysAndGroups | tv-list-aggregator/src/tv_list_aggregator/domain/services/dedup_service.py:17-38 | the merged batch has each key once, in first-occurrence order, with its whole group folded |
| Dedup.MergeHomomorphism | tv-list-aggregator/src/tv_list_aggregator/domain/services/dedup_service.py:16-38 | merge(xs + ys) equals merge(merge(xs) + merge(ys)) exactly, for all lists |
| Dedup.MergeIdempotent | tv-list-aggregator/src/tv_list_aggregator/domain/services/dedup_service.py:16-38 | merging a merged batch changes nothing |
| Dedup.MergedIsSameExactly | tv-list-aggregator/src/tv_list_aggregator/domain/services/dedup_service.py:16-38 | merging leaves a batch as it is if and only if no key comes twice in it |
| Dedup.MergeIgnoresOrder | tv-list-aggregator/src/tv_list_aggregator/domain/services/dedup_service.py:17-37 | reordering or repeating programs changes neither the keys nor, per key, source ids, tags and version |
| Dedup.ForKeyIsTheOne | tv-list-aggregator/src/tv_list_aggregator/domain/services/dedup_service.py:20-38 | the folded group is the one program of the merged batch with its key |
| Sessions.ProgramRepository.Upsert | tv-list-aggregator/src/tv_list_aggregator/infrastructure/persistence/program_repository_impl.py:74-94 | updates the row of the key as its session sees it, or inserts one unless its id is taken, which raises and rolls the session back; writes to its own session only, and returns what is stored, which `UpsertThenFind` gives field by field |
| Sessions.UpsertViaShowsInItsLane | tv-list-aggregator/src/tv_list_aggregator/infrastructure/persistence/program_repository_impl.py:18-19 | an upsert shows in the session it goes through as an upsert of the table, and neither in the committed rows nor in another session |
| ProgramStore.UpsertThenFind | tv-list-aggregator/src/tv_list_aggregator/infrastructure/persistence/program_repository_impl.py:74-102 | after an upsert its key finds the program, every field told: as given if new, a missing id as the empty one; else with its content, the old id, channel, zone and creation time, the version up by one, and the source ids of both sorted and once each; other keys find what they did |
| ProgramStore.UpsertsAddRows | tv-list-aggregator/src/tv_list_aggregator/infrastructure/persistence/program_repository_impl.py:91-118 | a run of upserts adds to the count exactly one row for each key new to the table |
| ProgramStore.UpsertsTellGroups | tv-list-aggregator/src/tv_list_aggregator/infrastructure/persistence/program_repository_impl.py:74-94 | after any run a row keeps id, channel, zone and creation time of its insert, has the inserted version plus the later upserts of its key, all source ids ever given, sorted once it was updated, and the last title, description, tags and times; a row nobody upserts stays as it is |
| ProgramStore.UpdatedAtExactly | tv-list-aggregator/src/tv_list_aggregator/infrastructure/persistence/program_repository_impl.py:74-94 | `updated_at` is when the key was last upserted, or as given if that was its insert |
| ProgramStore.UpsertsSucceedExactly | tv-list-aggregator/src/tv_list_aggregator/infrastructure/persistence/program_repository_impl.py:53-94 | a run succeeds if and only if the ids it inserts, missing ones being empty, are distinct and new to the table; ids stay unique |
| ProgramStore.IdlessUpsertsSucceedExactly | tv-list-aggregator/src/tv_list_aggregator/infrastructure/persistence/program_repository_impl.py:53-94 | a run of programs without ids succeeds if and only if it brings no new key, or a single one to a table without the empty id |
| ProgramStore.MergedInsertsTheSame | tv-list-aggregator/src/tv_list_aggregator/infrastructure/persistence/program_repository_impl.py:91-94 | a merged batch inserts the same ids in the same order as the raw one |
| ProgramStore.MergeThenUpsertAgrees | tv-list-aggregator/src/tv_list_aggregator/infrastructure/persistence/program_repository_impl.py:74-94 | for every table and batch, upserting merged or raw fails alike, and otherwise leaves the same keys, count, ids, channels, creation times and lists of source ids; versions, titles and times differ as stated |
| Aggregation.AggregationService.RunOnce | tv-list-aggregator/src/tv_list_aggregator/domain/services/aggregation_service.py:51-104 | committed rows, the repository session's writes and the job after a crawl, with or without a second session, whatever fails |
| Aggregation.AggregationService.SaveAll | tv-list-aggregator/src/tv_list_aggregator/domain/services/aggregation_service.py:68-78 | the loop stops at the first upsert that raises and counts those before it |
| Aggregation.SaveAppliesPrefix | tv-list-aggregator/src/tv_list_aggregator/domain/services/aggregation_service.py:76-78 | the table holds exactly the first programs of the batch applied, as many as were counted |
| Aggregation.SaveViaFollowsSave | tv-list-aggregator/src/tv_list_aggregator/domain/services/aggregation_service.py:70-78 | saving through a session does to what it sees what saving does to a table, touches no other session and commits nothing; a failed insert, or an outage that discards, leaves it the committed rows |
| Aggregation.JobAccountsForTable | tv-list-aggregator/src/tv_list_aggregator/domain/services/aggregation_service.py:59-104 | the repository's session sees exactly the first `items_saved` merged programs applied, or the committed rows only after a failed insert or an outage that discards; the next upsert is what stopped the job; PARTIAL_FAILURE exactly on failure with some counted, FAILED exactly with none |
| Aggregation.SaveEndsExactly | tv-list-aggregator/src/tv_list_aggregator/domain/services/aggregation_service.py:71-73 | the loop gets to the end if and only if the ids to insert are distinct and new and there is no outage, and nowhere if and only if the first upsert does not pass |
| Aggregation.SaveStopsExactly | tv-list-aggregator/src/tv_list_aggregator/domain/services/aggregation_service.py:71-73 | short of the end it is stopped by an outage if and only if one comes before the first clash of ids, and by such a clash otherwise |
| Aggregation.BatchInsertsTheSame | tv-list-aggregator/src/tv_list_aggregator/domain/services/aggregation_service.py:65-66 | normalising and merging change nothing about the ids a crawl inserts |
| Aggregation.BatchTells | tv-list-aggregator/src/tv_list_aggregator/domain/services/aggregation_service.py:65-66 | what a crawl saves under each key, told from the parsed programs: their group folded, its title the words of the first title joined by single spaces; keys in first-occurrence order |
| Aggregation.CountedUpsertsSurviveExactly | tv-list-aggregator/src/tv_list_aggregator/domain/services/aggregation_service.py:92-97 | from a clean session, what the session sees at the end is what the counted upserts made if and only if the first upsert did not pass, an outage stopped the run and discarded nothing, or the inserts of the crawl do not clash |
| Aggregation.SuccessSavesEveryKey | tv-list-aggregator/src/tv_list_aggregator/domain/services/aggregation_service.py:63-84 | SUCCESS means saved equals fetched equals the number of distinct identity keys parsed, and exactly these keys joined what the session sees |
| Aggregation.RecrawlAddsNoRows | tv-list-aggregator/src/tv_list_aggregator/domain/services/aggregation_service.py:63-84 | crawling stored programs again cannot fail but for an outage, adds no row, and counts each crawled row's version up by one |
| Aggregation.FactoryRollsNothingBack | tv-list-aggregator/src/tv_list_aggregator/domain/services/aggregation_service.py:68-78 | with the factory's session opened beside the repository's, its rollback discards nothing and its commit publishes nothing: the database ends as without a factory, and so does the job unless that commit fails |
| Aggregation.RoutedThroughFactoryAllOrNothing | tv-list-aggregator/src/tv_list_aggregator/domain/services/aggregation_service.py:29-30 | were the upserts routed through the factory's session, a failure would restore the database and a success commit the whole batch |
| Aggregation.NothingIsCommitted | tv-list-aggregator/src/tv_list_aggregator/domain/services/aggregation_service.py:68-78 | the code commits no program: that is left to the holder of the repository's session |
| Aggregation.FailedFactoryJobReportsZeroExactly | tv-list-aggregator/src/tv_list_aggregator/domain/services/aggregation_service.py:92-97 | a job of the factory path fails if and only if the commit fails, an outage is met or inserts clash, and reports zero saved if and only if the first upsert did not pass |
| Aggregation.IdlessCrawlSucceedsExactly | tv-list-aggregator/src/tv_list_aggregator/plugins/parsers/base.py:18-40 | an undisturbed crawl of programs as the parsers give them, without ids, succeeds if and only if it brings no new key, or a single one while the table has no row with the empty id; if it fails the session is left the committed rows |
| Aggregation.IdlessCrawlsAddOneRow | tv-list-aggregator/src/tv_list_aggregator/plugins/parsers/base.py:18-40 | over any number of such crawls, with or without outages, the table gains at most one row, and none once it has one with the empty id |
| Aggregation.TwoIdlessPrograms | tv-list-aggregator/src/tv_list_aggregator/plugins/parsers/json_parser.py:43-52 | two such programs with different new keys: PARTIAL_FAILURE with one saved, and the database as before |
| HealthCheck.SourceHealthRepository.Increment | tv-list-aggregator/src/tv_list_aggregator/infrastructure/persistence/source_health_repository.py:22-34 | adds one to the stored streak, starting a row at one, and returns it |
| HealthCheck.SourceHealthRepository.Reset | tv-list-aggregator/src/tv_list_aggregator/infrastructure/persistence/source_health_repository.py:36-42 | zeroes the streak of a row and creates none |
| HealthCheck.SourceRegistry.ListActive | tv-list-aggregator/src/tv_list_aggregator/domain/services/source_registry.py:14-15 | exactly the active sources, once each, in any order |
| HealthCheck.SourceRegistry.SetStatus | tv-list-aggregator/src/tv_list_aggregator/domain/services/source_registry.py:20-36 | enable, disable and pause set the status of a known source and ignore others |
| HealthCheck.HealthCheckLoop | tv-list-aggregator/src/tv_list_aggregator/interfaces/scheduler/jobs/health_check_job.py:27-45 | the loop over the active sources in any order equals checking all of them at once |
| HealthCheck.OrderDoesNotMatter | tv-list-aggregator/src/tv_list_aggregator/interfaces/scheduler/jobs/health_check_job.py:29-45 | checking distinct sources one by one in any order equals checking them at once |
| HealthCheck.StreakIsTrailingFailures | tv-list-aggregator/src/tv_list_aggregator/interfaces/scheduler/jobs/health_check_job.py:29-45 | over any run of ticks and operator steps the stored streak is the number of failed checks that end the source's own history |
| HealthCheck.RowTellsLastCheck | tv-list-aggregator/src/tv_list_aggregator/infrastructure/persistence/source_health_repository.py:22-42 | a source gets its row with its first failed check, and the row holds the message of the last check |
| HealthCheck.RestsUntilEnabled | tv-list-aggregator/src/tv_list_aggregator/interfaces/scheduler/jobs/health_check_job.py:28-29 | a source that is not active is not checked and keeps its streak until an operator enables it |
| HealthCheck.OperatorsSetStatus | tv-list-aggregator/src/tv_list_aggregator/domain/services/source_registry.py:20-36 | the status an operator gives a known source lasts until the next operator step on it, but for an active one that a failed check at the threshold pauses |
| HealthCheck.ThresholdEndsChecks | tv-list-aggregator/src/tv_list_aggregator/interfaces/scheduler/jobs/health_check_job.py:40-43 | the failed check that brings the streak to the threshold pauses the source and is its last until it is enabled |
| HealthCheck.RelapsePausesAtOnce | tv-list-aggregator/src/tv_list_aggregator/domain/services/source_registry.py:20-24 | a source active again with its streak at the threshold is paused by its first failed check, whatever operators and ticks did before that check |
| HealthCheck.PausedExactlyAfterConsecutiveFailures | tv-list-aggregator/src/tv_list_aggregator/interfaces/scheduler/jobs/health_check_job.py:27-45 | a source no operator touches is paused in a run if and only if threshold-many consecutive ticks found it dead |
| HealthCheck.UninterruptedTickIsTick | tv-list-aggregator/src/tv_list_aggregator/interfaces/scheduler/jobs/health_check_job.py:28-45 | the verdicts of a tick given one by one, with nobody in between, are the atomic tick |
| HealthCheck.PatrolStreakIsTrailingFailures | tv-list-aggregator/src/tv_list_aggregator/interfaces/scheduler/jobs/health_check_job.py:29-45 | with operators acting between the verdicts of a tick too, the stored streak is the number of failed checks that end the source's own history |
| HealthCheck.SwitchStaysExactly | tv-list-aggregator/src/tv_list_aggregator/interfaces/scheduler/jobs/health_check_job.py:40-42 | a status set in the middle of a tick stays if and only if no failed check of the source brings its streak to the threshold; then the stale copy writes PAUSED over it |
| HealthCheck.DisabledInTickEndsPaused | tv-list-aggregator/src/tv_list_aggregator/interfaces/scheduler/jobs/health_check_job.py:28-43 | a source one failure short of the threshold that an operator disables while the tick waits for its check ends PAUSED if the check fails |
| HealthCheck.AtMostOneMoreCheck | tv-list-aggregator/src/tv_list_aggregator/interfaces/scheduler/jobs/health_check_job.py:28-30 | a source switched off in the middle of a tick is checked at most once more, and only if the tick had listed it |
| Normalization.NormalizedIsJoinedWords | tv-list-aggregator/src/tv_list_aggregator/domain/services/normalization_service.py:10-13 | normalising equals splitting into maximal words and joining with single spaces |
| Normalization.NormalizationKeepsWords | tv-list-aggregator/src/tv_list_aggregator/domain/services/normalization_service.py:12-13 | it keeps the words, is idempotent, and two titles normalise alike if and only if their words are equal |
| IdentityKey.ProgramKeyDetermines | tv-list-aggregator/src/tv_list_aggregator/plugins/parsers/base.py:12-15 | among channels without a bar equal key texts mean equal title, channel and start |
| IdentityKey.SoleOwnerExactly | tv-list-aggregator/src/tv_list_aggregator/plugins/parsers/base.py:12-40 | no other valid program has the same key text if and only if no other bar of title and channel splits them into a valid key title and a valid channel id |
| IdentityKey.KeyTitleExactly | tv-list-aggregator/src/tv_list_aggregator/plugins/parsers/base.py:14-31 | for a lower-casing that keeps lengths and ends, the valid key titles are the trimmed, lower-case texts of 1 to 512 characters |
| IdentityKey.CollidingPair | tv-list-aggregator/src/tv_list_aggregator/plugins/parsers/base.py:14 | "a\|b" on channel "c" and "a" on channel "b\|c" are valid programs with the same key text |
| IdentityKey.BarredYetSole | tv-list-aggregator/src/tv_list_aggregator/plugins/parsers/base.py:14 | "news" on channel "BBC\|1" shares its text with no program |
| IdentityKey.M3uKeyDetermines | tv-list-aggregator/src/tv_list_aggregator/plugins/sources/m3u_source.py:19-25 | among sources and channels without a bar equal key texts mean equal source, channel and URL |
| M3uSource.Parse | tv-list-aggregator/src/tv_list_aggregator/plugins/sources/m3u_source.py:41-87 | the index loop over the lines of a text with the magic word computes the specified scan, entries with their day slot and keys included; other texts raise |
| M3uSource.ScanIsReadEach | tv-list-aggregator/src/tv_list_aggregator/plugins/sources/m3u_source.py:53-86 | the scanner reads exactly the headers that have an even number of headers directly before them |
| M3uSource.ScanSucceedsExactly | tv-list-aggregator/src/tv_list_aggregator/plugins/sources/m3u_source.py:55-69 | the file parses if and only if every header so read has a name of 1 to 255 characters and an id, its tvg-id or else the name, of 1 to 64 |
| M3uSource.ScanGivesEntries | tv-list-aggregator/src/tv_list_aggregator/plugins/sources/m3u_source.py:45-83 | every program of a file follows from its channel and URL: title, the day's slot, source, identity key and creation time |
| M3uSource.PaddingDoesNotMatter | tv-list-aggregator/src/tv_list_aggregator/plugins/sources/m3u_source.py:54-64 | whitespace around headers and URLs makes no difference |
| M3uSource.SamplePlaylist | tv-list-aggregator/src/tv_list_aggregator/plugins/sources/m3u_source.py:51-87 | one playlist written out, with an id from its attribute, one from the name, and a last header with neither name nor URL, and the programs it gives, written out |
| M3uSource.ProgramsPerRun | tv-list-aggregator/src/tv_list_aggregator/plugins/sources/m3u_source.py:53-86 | a parsed file yields ceil(r/2) programs for each maximal run of r consecutive header lines, and no others |
| M3uSource.PlaylistReadsBack | tv-list-aggregator/src/tv_list_aggregator/plugins/sources/m3u_source.py:51-87 | header and URL pairs with any other lines between them read back as exactly their names, tvg-ids and URLs, in order |
| M3uSource.FileReadsBack | tv-list-aggregator/src/tv_list_aggregator/plugins/sources/m3u_source.py:41-87 | the same for the written-out text of a whole playlist, with any line break and any last line that is no header |
| M3uSource.RefetchKeepsKeys | tv-list-aggregator/src/tv_list_aggregator/plugins/sources/m3u_source.py:19-25 | parsing the same lines at another time fails alike or gives the same entries but for their time stamps, identity keys included; the slot stays exactly on the same day |
| M3uKeys.EntryChannelExactly | tv-list-aggregator/src/tv_list_aggregator/plugins/sources/m3u_source.py:54-69 | the channel ids entries have are the texts of 1 to 64 characters on one line, without a quote unless trimmed |
| M3uKeys.EntryUrlExactly | tv-list-aggregator/src/tv_list_aggregator/plugins/sources/m3u_source.py:62-67 | the URLs entries have are the trimmed texts on one line |
| M3uKeys.SoleOwnerExactly | tv-list-aggregator/src/tv_list_aggregator/plugins/sources/m3u_source.py:19-25 | no other entry, of this or another source, has the same key text if and only if no other two bars of source, channel and URL cut them into a source, a channel id and a URL that an entry could have |
| M3uKeys.CollidingEntries | tv-list-aggregator/src/tv_list_aggregator/plugins/sources/m3u_source.py:51-87 | a playlist with two different entries that share a key text |
| Text.SplitLinesOfRender | tv-list-aggregator/src/tv_list_aggregator/plugins/sources/m3u_source.py:51 | splitting a text into lines undoes joining them with any line break, CR LF included, with or without a break at the end |

## Left out

- Floating point: times and tokens are real numbers; rounding of `time.monotonic` and of the token arithmetic is not modelled.
- RateLimiter.TokenBucket.constructor: rates below one a minute are excluded, because the source then divides by zero or refills backwards.
- HttpClient.QuietExactlyFrom3: one caller and exact sleeps only; other callers can drain the bucket or move the breaker between attempts. What holds under any interference is in `SharedFetcher`.
- HttpClient.ResilientHTTPFetcher.Fetch: one caller that nobody cancels; other callers and cancellation at every await are covered by the runs of `SharedFetcher`, of which this is one.
- HttpClient.ResilientHTTPFetcher.FetchOnce: likewise one caller that is not cancelled in the middle of an attempt.
- SharedFetcher.EachFetchFollowsRetry: the order in which waiting callers get the bucket's lock is any order; nothing is claimed about which of them is served first.
- The wrapped HTTP client, its connections, redirects and timeouts: a request is any response status, transport error or other exception, after any time.
- Tenacity is taken at its documented behaviour: four attempts, waits of 0.5, 1 and 2 seconds, the last exception raised again.
- Several threads on one `TTLCache`: the model is the single event loop.
- A factory that itself calls `get_or_set` on the same cache waits for its own lock; the model does not relate a factory to the coroutines it starts.
- Aliasing of program objects in `merge` and `run_once`: programs are values, so that a group of one is returned as the same object and titles are assigned in place is not visible.
- Sessions.ProgramRepository.Upsert: a failed flush discards everything its session flushed before in the same transaction, as the ORM does; whether a storage outage does so too is a parameter. Locking between sessions and column length limits are not modelled.
- Aggregation.SaveAppliesPrefix: counts upserts that returned, not rows that survive a discarding failure; `CountedUpsertsSurviveExactly` says when these differ.
- `list_by_range`, `find_by_identity`, `count`: one-step reads of the table; `UpsertThenFind` and `UpsertsAddRows` say what upserts do to the last two.
- Aggregation.AggregationService.RunOnce: calls to the job repository are taken to succeed, although a session that a failed flush rolled back refuses them; error text and time stamps of the job are not modelled.
- Commit of the outer database sessions: it belongs to the callers.
- HealthCheck.HealthCheckLoop: the method runs a tick without interruption; operators in the middle of one are covered by the interleaved moves. Of a source only its status is modelled, and check times and latencies are left out.
- SHA-1, UUIDs, `datetime` formatting and `str.lower`: identity keys are compared as the texts that are hashed, for any lower-casing; start times are any texts without a bar.
- M3uSource.Parse: starts from the decoded text; bytes that are not UTF-8 and the random ids are left out.
- FastAPI app, authentication, settings, logging, metrics, scheduler wrapper, plugin registry, LLM and browser adapters, seed data, user interface: plumbing or one-step facts that would only add easy members.
