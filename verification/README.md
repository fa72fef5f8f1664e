# A verified model of GatewayLLM's core

GatewayLLM is a stateless gateway in front of several LLM providers. This project models the parts of it
that hold state machines, loops and arithmetic, and proves what their comments and tests promise. Run
`dafny verify dfyconfig.toml` to check it.

- **Failover** (`Executor`, `ExecutorRuns`, `Providers`, `Backoff`). The retry and failover loops run
  against an adversary: what each provider call delivers and returns, what the breaker answers, when the
  request's context ends, and what the random generator draws are all arbitrary. A run keeps a log of its
  calls, of what it tells the breaker, and of its sleeps; the theorems are about every such log.
- **Circuit breaker** (`Breaker`, `BreakerStores`). The in-memory store and the Redis script are two
  transition systems. Over every history the script is compared with the in-memory store, and the
  reachable states, the cooldown, the recovery and the effect of key expiry are established.
- **Rate limiter** (`TokenBucket`, `BucketExpiry`, `RateLimit`). A token bucket over the reals, in memory
  and in Redis with a time to live, and the Retry-After header.
- **Router** (`WeightedOrder`, `Router`). Weighted selection without replacement by in-place deletion.
- **Response cache** (`Text`, `CacheKey`, `ResponseCache`). The length-prefixed text behind the exact key,
  and the two tiers with a ghost log of every Store, so that each hit is traced to the Store it came from.
- **Usage meter** (`Meter`). Producers, a bounded channel, the batching writer, its ticker and Close as
  interleaved steps, and an object whose methods take exactly those steps with a reused buffer.
- **Streams and translation** (`Sse`, `Gemini`). The event-stream writer and reader as a printer and
  parser, and the restructuring of a conversation into alternating turns.

Time is a reading of one clock. Theorems that need the clock not to go back say so (`Monotone`, `Starts`).
Randomness, the network, the answers of stores and sinks, and cancellation are inputs.

Some promises hold only under a condition. There the exact condition is proved, with an input that
breaks the promise where there is one:

- The Redis breaker agrees with the in-memory one on every history if and only if the open duration is a
  whole number of milliseconds (or not positive), because the script gets it truncated
  (`Breaker.ScriptRefinesLocalStore`).
- Dropping idle buckets is invisible if and only if the time to live covers a full refill
  (`BucketExpiry.ExpiryInvisibleIffCovered`). The comment on the TTL says that it always does. With the
  rate sent as six decimals it may not, for an extreme burst (`BucketExpiry.SixDecimalRateCanFallShort`);
  `BucketExpiry.PassedIsCoveredIff` is the exact test on the numbers that are sent.
- The Retry-After header of the in-memory limiter, documented as rounded up, can be early by less than a
  nanosecond because the duration was truncated before (`RateLimit.LocalHeaderIsExactUnlessTruncated`).
- The cache key determines the stop sequences only up to NUL (`CacheKey.DigestTellsRequest`,
  `CacheKey.StopsCanCollide`).
- The retry delay is bounded by the exponential over the integers if and only if no shift leaves bits of
  BaseBackoff that are positive and below MaxBackoff (`Backoff.ClampedIffBits`, `Backoff.ShiftCanWrap`).
- A request that fails through the client's own fault leaves no trace in the Redis breaker. In the in-memory
  one it does when it is the one to notice an elapsed cooldown and a success comes next
  (`ExecutorRuns.QuietRequestOnLocalStore`, `Breaker.LookCanMatter`).
- A stream reads back as it was written if and only if every line fits the reader's one-megabyte buffer
  (`Sse.RoundTrip`), and a failed stream that ends with the gateway's own error event reads back as a
  complete one if and only if the error body decodes as a chunk and every line fits
  (`Sse.ErrorEventReadsAsSuccess`).

## Model

| member | source | states |
|---|---|---|
| ExecutorRuns.RunIsDisciplined | internal/resilience/executor.go:99-198 | In every run, streaming or not, targets are called in list order, only if the breaker allowed them, skipping only those it did not; the attempts of a target are numbered 1, 2, ... up to max(1, MaxAttempts); a retry follows only a call that is to be retried, a failover only one that is not and may fail over; a success is the last call and names the target returned; a run stops with a failure only when the context ended, a chunk went out or the failure may not fail over, and returns the last call's error or the context's; an exhausted run has one failure per target, each the open circuit or the error of the last call to that target |
| ExecutorRuns.KeepsTrying | internal/resilience/executor.go:26-27 | No run gives up early: a failed call is retried iff its failure is a rate limit, a timeout or an unavailable provider, fewer than MaxAttempts attempts were made, the context has not ended before or during the sleep and no chunk went out; and the run moves on to the next allowed target, or exhausts the list if there is none, iff the failure is neither an invalid request nor a content filter, the target is done with, the context has not ended and no chunk went out |
| ExecutorRuns.StopsForClientFaults | internal/resilience/executor.go:132-136 | A run that stops with the context alive and nothing sent stops for an invalid request or a content filter, which is a 400 |
| ExecutorRuns.BudgetPerTarget | internal/resilience/executor.go:152-163 | No target is called more than max(1, MaxAttempts) times in a run |
| ExecutorRuns.NeverSplices | internal/resilience/executor.go:81-95 | In every streaming run all calls but the last delivered no chunk, so what the client received is what one call to one target delivered |
| ExecutorRuns.CachedTextIsOneCompletion | internal/api/chat.go:252-282 | When a streamed request is served, the accumulated text that is cached is exactly the text of the successful call to the target the answer is attributed to |
| ExecutorRuns.StopsWithContext | internal/resilience/executor.go:187-189 | No call follows one after whose failure the context had ended |
| ExecutorRuns.ExhaustionReport | internal/resilience/executor.go:245-298 | A single failure is returned as it is. Otherwise the joined error is classified iff some failure is; it is the first failure of the kind preferred in the order rate limit, context length, auth, timeout, unavailable, any other, without its Retry-After, and never an invalid_request or content_filter; the status is 429 iff some target was rate limited, 400 iff none was and some prompt exceeded a context length, 504 for a timeout, 502 for auth or unavailable, 500 for the rest |
| Executor.JoinErrors | internal/resilience/executor.go:248-280 | The loop returns the first failure of greatest rank without its Retry-After, the single failure as it is, or "no targets" |
| Executor.AttemptWithRetries | internal/resilience/executor.go:143-198 | The retry loop computes the specified sequence of attempts, for every environment; what that sequence retries, reports and sleeps is stated by KeepsTrying, BreakerIsTold and SleepsAreTheBackoffs |
| Executor.DoLoop | internal/resilience/executor.go:99-140 | The failover loop computes the specified run, and its error is that of the outcome |
| ExecutorRuns.SleepsAreTheBackoffs | internal/resilience/executor.go:190-195 | The executor sleeps once before each retry, for what the provider asked for, at most MaxBackoff, or else for the backoff of the failed attempt, and at no other time; one sleep more only when the context ends during it and the run stops |
| ExecutorRuns.BackoffBound | internal/resilience/executor.go:210-237 | Each sleep is in [0, MaxBackoff], and a request sleeps at most targets * (max(1, MaxAttempts) - 1) * MaxBackoff in total |
| Backoff.ClampedIsExponential | internal/resilience/executor.go:215-218 | For Base > 0, 0 < Max < 2^63 - 1 and Base * Max < 2^63, the clamped shift is min(Max, Base * 2^(attempt-1)) over the integers for every attempt |
| Backoff.ClampedIffHarmless | internal/resilience/executor.go:215-218 | In wrapping int64, for every Base > 0 and 0 < Max < 2^63 - 1, the clamped shift of one attempt is min(Max, Base * 2^(attempt-1)) over the integers iff it does not overflow, or wraps to at most 0 or at least Max |
| Backoff.ClampedIffBits | internal/resilience/executor.go:215-218 | It is so for all attempts iff for each overflowing shift by k the bits of Base that leave the low 63 are odd, or its other bits are all zero, or those shifted by k make at least Max |
| Backoff.ShiftCanWrap | internal/resilience/executor.go:215-218 | With Base 2^62 + 1 and Max one millisecond the third attempt asks for at most 4 ns |
| Backoff.FullJitter | internal/resilience/executor.go:219-227 | Without a Retry-After the delay ranges over exactly 0 to the capped exponential, iff no wrap-around shows in that attempt |
| ExecutorRuns.BreakerIsTold | internal/resilience/executor.go:117-207 | The whole log of what the breaker is told: for each target the run got to, in order, the question once, then for each of its calls in order a success, a failure iff the error is classified as auth, rate limit, timeout, unavailable or a kind of no name, and nothing for an invalid request, a content filter, a prompt too long, an internal or an unclassified error; and nothing else |
| ExecutorRuns.QuietRequestErasable | internal/resilience/executor.go:179-185 | A request whose calls all fail with an invalid request, a content filter, a prompt too long, an internal or an unclassified error can be erased from any history of a provider's Redis breaker without changing any other answer |
| ExecutorRuns.QuietRequestOnLocalStore | internal/resilience/breaker.go:79-109 | In a history of the in-memory breaker with other requests in between, erasing such a request leaves the state after every other entry the same iff one probe closes the circuit, or no success comes next after a look of the request that noticed the cooldown was over |
| ExecutorRuns.OpenCircuitSparesProvider | internal/resilience/redis_breaker.go:11-14 | Once a circuit has opened, no request that asks about it within the cooldown calls that provider while no success is recorded, and its place in the joined error says so |
| Breaker.ScriptRefinesLocalStore | internal/resilience/redis_breaker.go:42-82 | On all histories with a nondecreasing clock and no expiry, the script gives the state, counters and opening time of the in-memory store after a Snapshot and the same event, iff the open duration survives truncation to milliseconds |
| Breaker.ScriptRefinesSnapshotThenEvent | internal/resilience/redis_breaker.go:42-82 | Under that condition the two agree from every state and over every history, whatever the clock does |
| Breaker.FractionalCooldownDiverges | internal/resilience/redis_breaker.go:91-91 | With any other duration there is a history on which they part |
| Breaker.EventWithoutSnapshot | internal/resilience/breaker.go:92-129 | In reachable states an event without the Snapshot agrees with the script iff no cooldown has elapsed unnoticed, or one success is enough to close |
| Breaker.ReachableStates | internal/resilience/breaker.go:79-129 | After any calls at any times: closed iff failures < threshold; successes is 0 unless half-open, and then below HalfOpenProbes; while closed, failures is the run of failures since the last success |
| Breaker.OpensAtThreshold | internal/resilience/breaker.go:123-127 | A closed circuit opens exactly at the threshold-th consecutive failure |
| Breaker.Recovery | internal/resilience/breaker.go:79-109 | After the cooldown, a snapshot and any failure-free history leave the circuit closed with cleared counters iff it holds HalfOpenProbes successes, and half-open otherwise, in both stores |
| Breaker.FailedProbeReopens | internal/resilience/redis_breaker.go:63-67 | A failed probe reopens the circuit at once, and it answers open for a whole new cooldown |
| Breaker.FailureRestartsCooldown | internal/resilience/breaker.go:123-126 | From any reachable circuit, in both stores: if a failure leaves the circuit open, a look answers open, after any looks in between, iff it comes before a whole cooldown after that failure |
| Breaker.OpenSinceLastFailure | internal/resilience/redis_breaker.go:63-72 | Over every history of either store, an open circuit's opening time is that of the last failure recorded |
| Breaker.BusyKeyLives | internal/resilience/redis_breaker.go:49-80 | A key whose accesses come less than ten minutes or less than ten cooldowns apart never expires: its accesses are the script run on the same hash |
| Breaker.IdleKeyIsForgotten | internal/resilience/redis_breaker.go:49-80 | After that long without an access the circuit is an unused one |
| Breaker.CooldownSafety | internal/resilience/redis_breaker.go:49-80 | After an access opens the circuit, every access before the cooldown is over answers open, through failures and looks and despite the key's idle expiry |
| Breaker.ErasingLooks | internal/resilience/redis_breaker.go:49-52 | Erasing any of the looks from a history with a nondecreasing clock changes no remaining answer and no later one |
| Breaker.ErasingLocalLooks | internal/resilience/breaker.go:79-129 | In memory, from any reachable state, erasing any of the looks leaves the state after every other call the same iff one probe closes the circuit or no erased notice of an elapsed cooldown is followed next by a success |
| Breaker.LookCanMatter | internal/resilience/breaker.go:92-109 | With threshold 1, cooldown 10 and 2 probes: a failure at 0, a look at 10 and a success at 11 end half-open, and without the look closed |
| Breaker.LooksOnlyNotice | internal/resilience/breaker.go:79-90 | Looks alone change an in-memory circuit exactly by the open to half-open move, and only if the cooldown had elapsed at one of them |
| BreakerStores.LocalBreakerStore.Snapshot | internal/resilience/breaker.go:79-90 | Takes the provider's circuit through the look, and leaves every other provider's as it was |
| BreakerStores.LocalBreakerStore.RecordSuccess | internal/resilience/breaker.go:92-109 | Takes the provider's circuit through a success, and leaves every other as it was |
| BreakerStores.LocalBreakerStore.RecordFailure | internal/resilience/breaker.go:111-129 | Takes the provider's circuit through a failure, which sets the opening time anew if it leaves the circuit open (FailureRestartsCooldown), and leaves every other as it was |
| BreakerStores.RedisBreakerStore.Run | internal/resilience/redis_breaker.go:34-83 | The script reads the hash or a fresh one if it has expired, makes the transition, and writes hash and expiry for that key alone |
| BreakerStores.Guard.Allow | internal/resilience/breaker.go:144-156 | Says no exactly when the breaker is on, its store answered, and the answer is open |
| BreakerStores.Guard.Record | internal/resilience/breaker.go:159-168 | Reports the outcome to the store when the breaker is on, and ignores an unreachable store |
| TokenBucket.WindowBound | internal/api/redis_limiter.go:49-66 | In every run of one key, the requests admitted in any stretch number at most capacity + rate * length |
| TokenBucket.TokensStayInRange | internal/api/ratelimit.go:109-125 | Tokens stay between 0 and the capacity in every run |
| TokenBucket.DeniedAreInvisible | internal/api/ratelimit.go:109-126 | Erasing any denied requests from a run leaves every other decision the same, and the bucket the same for every later request |
| TokenBucket.RoundedUpIsLeast | internal/api/redis_limiter.go:59-64 | The script's retry_after is the least whole millisecond after which, absent other requests, the key is admitted |
| TokenBucket.RoundedDownNeedsOneMore | internal/api/ratelimit.go:116-123 | The in-memory wait plus one nanosecond is always enough, the wait itself iff it was whole, and less never is |
| TokenBucket.FreshKeyAdmitsCapacity | internal/api/ratelimit.go:102-106 | Of any number of requests at one moment an unused key is admitted exactly its capacity |
| BucketExpiry.ExpiryInvisibleIffCovered | internal/api/redis_limiter.go:66-69 | A store that drops a bucket after an idle time to live decides every run like one that never drops any, iff rate * ttl >= capacity |
| BucketExpiry.ExactRateIsCovered | internal/api/redis_limiter.go:95-97 | With the rate rpm/60 the computed time to live makes expiry invisible, for every rpm and every capacity whose duration fits int64 |
| BucketExpiry.SixDecimalRateIsCovered | internal/api/redis_limiter.go:97-104 | With the rate rounded to six decimals it still does if rpm is not 2 modulo 3, or the capacity is at most 40000 rpm^2 |
| BucketExpiry.PassedIsCoveredIff | internal/api/redis_limiter.go:95-104 | With the numbers Allow passes, overflow included, expiry is invisible iff the computed time to live times the rate in millionths is at least capacity * 10^9 |
| BucketExpiry.RateIsNearest | internal/api/redis_limiter.go:101-101 | The rate that is sent is within half a millionth of rpm/60 |
| BucketExpiry.TTLIsRefillAndMinute | internal/api/redis_limiter.go:95-97 | The time to live is that of a full refill and a minute, rounded down by no more than 10 milliseconds |
| BucketExpiry.SixDecimalRateCanFallShort | internal/api/redis_limiter.go:95-101 | With 2 requests a minute and a burst of 200000 some run is decided differently |
| BucketExpiry.TTLOverflows | internal/api/redis_limiter.go:97-97 | With a capacity of 153722868 and one request a minute the duration overflows int64 to a negative time to live, and some run is decided differently |
| RateLimit.LocalLimiter.Allow | internal/api/ratelimit.go:81-127 | Refills and spends the bucket of the key's id, or of the tenant if it has none, at the key's own limit or the default one, answers with the truncated wait, touches no other key, and lets everything through if there is no limit |
| RateLimit.LocalAdmitsAtMost | internal/api/ratelimit.go:90-113 | In every run of one key, a stretch of D nanoseconds admits at most c + r * D / 60000000000 requests, r and c being the key's own limit if it has one, and otherwise the default and the burst |
| RateLimit.LocalAdmitsBurst | internal/api/ratelimit.go:102-106 | Of any number of requests at one moment an unused key is admitted exactly c |
| RateLimit.LocalRefillTime | internal/api/ratelimit.go:109-117 | An empty bucket admits its next request D nanoseconds later iff D * r >= 60000000000 |
| RateLimit.LocalIsTokenBucket | internal/api/ratelimit.go:109-126 | With a clock that does not go back the in-memory bucket, decision, remainder and wait are those of the token bucket |
| RateLimit.RedisLimiter.Run | internal/api/redis_limiter.go:42-72 | The script serves the live bucket of its key, or a full one, and stores it with the new expiry |
| RateLimit.RedisLimiter.Allow | internal/api/redis_limiter.go:77-124 | Runs the script with the six-decimal rate and the computed time to live, for the request's key alone |
| RateLimit.RedisAdmitsAtMost | internal/api/redis_limiter.go:77-107 | While expiry goes unnoticed, a stretch of D milliseconds admits at most c + r * D / 60000 requests, up to the rounding of the rate |
| RateLimit.RedisAdmitsBurst | internal/api/redis_limiter.go:46-58 | Of any number of requests at one moment an unused key is admitted exactly c |
| RateLimit.RedisRefillTime | internal/api/redis_limiter.go:49-55 | An empty bucket admits its next request after 60000 / r milliseconds and not before, up to that rounding |
| RateLimit.HeaderIsLeast | internal/api/ratelimit.go:28-35 | The header is written iff the request is denied with a wait, and is the least whole number of seconds, at least 1, that covers it |
| RateLimit.RedisHeaderIsExact | internal/api/ratelimit.go:28-35 | A client of the Redis limiter that waits as long as the header says is admitted, and a second less is not enough |
| RateLimit.LocalHeaderIsExactUnlessTruncated | internal/api/ratelimit.go:28-35 | For the in-memory limiter the header is enough iff the truncated wait is not a whole number of seconds, or nothing was cut off |
| RateLimit.LocalHeaderCanBeEarly | internal/api/ratelimit.go:122-122 | After seven requests at one moment under a limit of seven a minute, a client that obeys the header of its eighth is denied again |
| WeightedOrder.EveryOrderHasTheSameCount | internal/router/router.go:119-155 | For positive weights every order of distinct targets comes from exactly as many pick vectors as the product of all weights, each pick drawn from the remaining total |
| WeightedOrder.ScanChooses | internal/router/router.go:140-148 | The scan stops at a target for exactly as many picks as its weight |
| WeightedOrder.OrderIsPermutation | internal/router/router.go:119-155 | For any weights and picks the order loses and repeats no target |
| WeightedOrder.ZeroWeightsLast | internal/router/router.go:135-139 | For weights that are not negative, the targets of weight zero come last, in the configured order |
| Router.DrawAll | internal/router/router.go:134-154 | Drawing by in-place deletion yields the specified order, the running total staying the sum of the remaining weights |
| Router.WeightedTargets | internal/router/router.go:122-155 | Yields that order, a permutation of the alias's targets, and writes to neither stored slice |
| Router.DeleteAt | internal/router/router.go:151-152 | Deletes one element of a slice by shifting its tail in place |
| Router.New | internal/router/router.go:64-90 | Succeeds iff every provider is registered; then every alias holds its resolved targets, its weights and their sum |
| Router.Router.Route | internal/router/router.go:94-117 | Resolves a model by its alias if it is one, or the default one, failing iff neither is configured or the alias is empty; priority gives the configured providers and models in order, weighted the drawn order |
| CacheKey.DigestTellsRequest | internal/cache/normalize.go:44-91 | Two requests give the same text to digest iff tenant, letters of the alias up to case and surrounding white space, roles, names, words of each message, rendered temperature (1 if none) and top_p, max_tokens (0 if none), and stop sequences cut at NUL all agree |
| CacheKey.AliasesToldApart | internal/cache/normalize.go:77-81 | Two aliases, each with any white space around it, give the same text in an otherwise like request iff they have the same length and lower-case to the same letters |
| CacheKey.DigestTellsStops | internal/cache/normalize.go:68-72 | Free of NUL, the stop sequences themselves are determined |
| CacheKey.StopsCanCollide | internal/cache/normalize.go:71-71 | With NUL, two different stop lists share a key |
| CacheKey.IgnoredFields | internal/cache/normalize.go:35-43 | Requests that differ only in stream, user, the case of the alias and white space around it give the same text, for a lower-casing that maps spaces and only spaces to spaces |
| CacheKey.LoweredAlias | internal/cache/normalize.go:77-81 | Writing the alias in lower case with any padding gives the same text, if lower-casing twice is lower-casing once |
| CacheKey.LayoutIgnored | internal/cache/normalize.go:83-91 | Replacing a stretch of white space in a message by another, either possibly empty, gives the same text iff both or neither are empty, or the stretch is at an end of the message or next to other white space |
| CacheKey.PaddingIgnored | internal/cache/normalize.go:83-91 | Indentation and trailing line breaks leave a normalized message as it was |
| CacheKey.ExactKeyText | internal/cache/normalize.go:44-72 | The writing loops produce exactly the text that DigestTellsRequest characterizes |
| CacheKey.BuildPromptText | internal/cache/normalize.go:103-114 | The embedded prompt has one line per message, role and normalized content, without a final line break |
| CacheKey.PromptTellsConversation | internal/cache/normalize.go:99-114 | For roles without colon or line break, two conversations are embedded as the same text iff they have the same number of messages, with the same roles and words |
| Text.EncodeInjective | internal/cache/normalize.go:47-53 | Length-prefixed fields, with lengths in bytes, determine the list of fields |
| Text.FieldsOfJoin | internal/cache/normalize.go:89-91 | Splitting normalized content gives its words back |
| Text.TrimIsCore | internal/cache/normalize.go:79-81 | Trimming gives the only text without white space at its ends that the text is up to white space around it |
| Text.ByteLenIsUtf8 | internal/cache/normalize.go:49-53 | Byte lengths are those of the UTF-8 encoding of RFC 3629 |
| Text.Utf8Decodes | internal/cache/normalize.go:49-53 | The encoding of every character decodes to it again |
| Text.WhiteSpace | internal/cache/normalize.go:89-91 | White space is the 25 characters that Go counts as space |
| ResponseCache.Cache.Lookup | internal/cache/cache.go:168-222 | Every hit comes from an earlier Store: an exact hit from one with an interchangeable request, within ExactTTL; a semantic hit from one of the same tenant and alias, with score, temperature, completion length and age in bounds. And nothing stored is lost: it is an exact hit with exactly the entry last written for an interchangeable request, if that is not past its time or removed, whenever the store answers; it is a semantic hit with the entry placed, whenever the search comes upon it, iff the tier is on, the score reaches the threshold and temperature, length and age are in bounds. A failed embedding or search never gives one |
| ResponseCache.KeptIsFound | internal/cache/cache.go:172-222 | With tiers that keep what was written, any answer by what the tiers hold finds the entry last written for an interchangeable request, and any placed point that is in bounds |
| ResponseCache.Cache.PlacedMayMatch | internal/cache/semantic.go:43-55 | A point placed and not overwritten is there for every search of its tenant and alias |
| ResponseCache.PointIDTells | internal/cache/semantic.go:32-41 | Free of NUL, tenant, alias and prompt are determined by the point's id, so that a prompt overwrites its own point and no other |
| ResponseCache.HitAnswersLikeRequest | internal/cache/cache.go:224-248 | When all entries come from the handler, a hit's text answered a cacheable request of the same tenant with the same key, or for the same alias at a temperature within MaxTempDelta |
| ResponseCache.Cache.Get | internal/cache/exact.go:28-45 | Answers the live slot, nothing, or an error, and evicts exactly a corrupt slot |
| ResponseCache.Cache.FindSimilar | internal/cache/semantic.go:59-89 | Returns the stored entry of the best match iff it decodes and its score reaches the threshold |
| ResponseCache.Cache.StoreExact | internal/cache/cache.go:252-261 | Stamps the entry, logs the Store, and unless the write was refused sets the request's key with ExactTTL, where Lookup finds it |
| ResponseCache.Cache.StoreSemantic | internal/cache/cache.go:263-284 | Overwrites exactly the point of tenant, alias and prompt, iff the tier is on, a vector is had and the write takes effect |
| ResponseCache.Cache.StoreAsync | internal/api/chat.go:286-315 | For a non-empty text logs one Store of an entry with the text and the request's own alias, temperature and max_tokens, stamped in seconds, and writes it to each tier that does not refuse it, where Lookup finds it; for an empty text changes nothing |
| ResponseCache.Cache.Serve | internal/cache/cache.go:147-163 | Looks nothing up iff caching is off, declined, or the temperature is above the maximum |
| Meter.EveryRunConserves | internal/meter/meter.go:109-183 | In every interleaving the accepted rows are, in order, the batches handed over, then the buffer, then the channel; Written + Failed counts the rows handed over; every batch has 1 to BatchSize rows |
| Meter.HistoryOnlyGrows | internal/meter/meter.go:173-177 | No later step alters a batch handed over or an accepted row, and a closing meter accepts and drops nothing more |
| Meter.EveryOfferIsCounted | internal/meter/meter.go:109-127 | Every row offered to an open meter is counted once, as enqueued or dropped, and none is dropped while the channel could hold them all |
| Meter.CountersFollowSink | internal/meter/meter.go:165-183 | Over every run Written counts exactly the rows of the batches the sink took, and Failed those of the batches it refused |
| Meter.BatchesWaitUntilFull | internal/meter/meter.go:142-159 | In every reachable state a receive hands the buffer over iff the row received makes it full, or the meter is closed, the channel empty and the buffer not; a tick iff the buffer is not empty; no other step does |
| Meter.TickLeavesNothingBuffered | internal/meter/meter.go:152-159 | After a tick only the channel holds accepted rows that were not handed over |
| Meter.CloseDeliversEverything | internal/meter/meter.go:142-145 | After Close, one receive more than the channel holds, mixed with any other steps, ends the writer with everything ever accepted handed over in order and counted |
| Meter.UsageMeter.Receive | internal/meter/meter.go:142-151 | One receive on the reused buffer is the specified step; slices handed over earlier keep their content |
| Meter.UsageMeter.Record | internal/meter/meter.go:109-127 | Enqueues or drops as specified, never blocking |
| Meter.UsageMeter.Tick | internal/meter/meter.go:152-159 | Flushes a non-empty buffer as specified |
| Sse.RoundTrip | internal/provider/openai.go:190-223 | Reading what send and done print gives back the same chunks and success, iff every chunk's line fits the scanner's buffer |
| Sse.NoiseIsInvisible | internal/provider/openai.go:196-205 | In any stream whatever, inserting a fitting line that carries no data between two lines changes nothing |
| Sse.NoiseKinds | internal/provider/openai.go:198-205 | Blank lines, comments, and event and id fields carry no data |
| Sse.CutStream | internal/provider/openai.go:218-222 | A stream cut at a line boundary before the terminator delivers exactly the chunks seen and fails |
| Sse.FirstTroubleEnds | internal/provider/openai.go:211-217 | The first chunk that is too long or does not decode ends the reading after the chunks before it, and one whose callback fails after that chunk too, whatever follows |
| Sse.DataLineForms | internal/provider/openai.go:197-206 | A line, white space around it aside, carries a chunk iff it begins with "data:", and then the rest without the white space around it |
| Sse.SuccessNeedsTerminator | internal/provider/openai.go:207-209 | No stream without a terminator line is ever taken as complete |
| Sse.ErrorEventReadsAsSuccess | internal/api/chat.go:269-271 | After a failure the error event and terminator read back as a complete stream iff the error body decodes as a chunk and every line fits, and then with the error as the last chunk; a fitting body that does not decode is a bad chunk after those sent |
| Sse.ParseSSE | internal/provider/openai.go:190-223 | The scanning loop computes the specified chunks and ending |
| Sse.SendAll | internal/api/chat.go:466-499 | Sending chunks and the terminator prints the specified stream |
| Sse.StreamLines | internal/api/chat.go:466-499 | What is written is a data line and a blank line for each chunk and for the terminator |
| Gemini.ToGemini | internal/provider/gemini.go:116-153 | No two adjacent turns share a role and none is empty; flattened they are the messages of other roles than "system" in order, with role "model" for "assistant" and "user" for any other; the system texts are joined in order, and absent iff there are none |
| Gemini.TurnsAreForced | internal/provider/gemini.go:108-115 | No other alternating turns flatten to the same conversation |
| Gemini.ParagraphsTellTexts | internal/provider/gemini.go:148-151 | System texts of one line each are the lines of the instruction, with a blank one between any two |

## Left out

- HTTP handlers, authentication, tracing, metrics, command-line tools, configuration defaults and pricing: plumbing around the modelled parts.
- Error texts, attempt reports and durations in the executor, and the copy of the request that carries the resolved model: they decide nothing.
- The status of a stream that fails before its first chunk: the header has been written by then.
- Redis and Qdrant as services: each script run or command is one atomic step of a map with expiry, LRU eviction is not modelled, and a search is any stored point that passes the tenant and alias filter.
- Concurrency inside one step: methods are the atomic steps; the two halves of Store are separate steps, so that lookups may come between them.
- SHA-256, UUIDs and JSON: the digest is taken as injective, point ids are the text they are made of, and a chunk is its JSON text with an arbitrary test of what decodes.
- The Python sidecar and the embedding models: an embedding is any vector or a failure.
- Executor.DoLoop: requires a MaxBackoff for which Int63n does not panic; the breaker's answers, the calls and the context are inputs and not goroutines.
- Breaker.ReachableStates: assumes a threshold and a probe count of at least 1, as the configuration defaults ensure.
- RateLimit.LocalLimiter.Allow: tokens are reals, so that IEEE rounding is not modelled.
- RateLimit.RedisLimiter.Run: the same, and the six-decimal rate is exact.
- TokenBucket.WindowBound: one rate and one capacity per key, and a clock that does not go back; the script would credit time twice after a step back.
- BucketExpiry.SixDecimalRateIsCovered: the bound on the capacity is sufficient; the exact condition is that of BucketExpiry.PassedIsCoveredIff.
- CacheKey.ExactKeyText: lower-casing and the six-digit rendering of floats are arbitrary functions; strings are valid UTF-8.
- ResponseCache.Cache.FindSimilar: payload numbers are kept exactly, not through float64.
- Meter.UsageMeter.Record: the check of the closing flag and the send are one step relative to Close, which the code does not lock together; logging and the row's time stamp are left out.
- Meter.CloseDeliversEverything: that the sink is closed after the writer has finished is not modelled.
- Sse.ParseSSE: the reader's chunks are texts and its input is a complete text followed by an end or a read error; arrival in pieces is the scanner's concern.
- Gemini.ToGemini: the response direction is not modelled.
