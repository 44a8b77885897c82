# Rate limiter admission logic, in Dafny

This project models the decision core of a Python API rate limiter and proves
properties of it. The limiter answers, for one key at a time, "may this request
go ahead now, and if not, how long until it may?". It has two algorithms:

- a **token bucket**: a bucket of at most `capacity` tokens, refilled continuously
  at `refill_rate` tokens per second; a request takes tokens when there are enough;
- a **sliding-window log**: the times of the admitted requests in the trailing
  `window_size_ms` milliseconds, of which there may be at most `max_requests`.

Each algorithm exists in two forms:

- in memory, with a per-key table that `check` reads and rewrites;
- against Redis, where a server-side script decides and the client maps the
  script's reply, or a connection failure, to a result.

The HTTP service adds its own Redis token-bucket client, the Retry-After header
conversion, and the choice of the client address from proxy headers.

Files, one module each:

| file | module | models |
|---|---|---|
| `wrappers.dfy` | `Wrappers` | `Option`, `Result` (raised exceptions), `dict.get` |
| `config.dfy` | `Config` | the config records and the constructors' checks |
| `results.dfy` | `Results` | `RateLimitResult`, `to_dict`, `retry_after_header_value`, `str(int)` |
| `in_memory_token_bucket.dfy` | `InMemoryTokenBucket` | `TokenBucketLimiter` |
| `in_memory_sliding_window.dfy` | `InMemorySlidingWindow` | `SlidingWindowLimiter` |
| `redis_limiters.dfy` | `RedisLimiters` | `RedisTokenBucketLimiter`, `RedisSlidingWindowLimiter` (client side) |
| `app_limiter.dfy` | `AppLimiter` | the service's `RedisTokenBucket`, `retry_after_header_value`, `client_ip_from_headers` |

How the model is built:

- The in-memory limiters are classes whose `state` field is the per-key table:
  `map<string, Bucket>` for the token bucket and `map<string, seq<int>>` for the
  window log. The log's deque becomes a sequence; popping from the front is a
  loop over it.
- Each `Check` method reads the key's entry, runs the body of the source's
  `check` on it (`CheckBucket`, `CheckLog`) and writes the new entry back. That
  body is proved equal to a pure step function (`TokenBucketStep`,
  `SlidingWindowStep`) applied to the key's old entry. The properties are lemmas
  about those step functions.
- The class invariant `Valid()` is kept by every call:
  - for the token bucket, `0 <= tokens <= capacity`;
  - for the window, the log is sorted and holds at most `max_requests` entries.
- Clock readings are parameters: `now` is in seconds (real) for the token bucket
  and `nowMs` is in whole milliseconds for the window and for Redis.
- The Redis call is a function parameter `run: (store key, script arguments) ->
  reply`. A reply is either the script's three values or a connection or timeout
  error.
- Float arithmetic is Dafny `real`. `float("inf")` is the `Unbounded`
  constructor of `Remaining`.
- Three behaviours of the code that the model keeps as they are:
  - A fail-closed Redis limiter reports `retry_after_ms = 0`; there is no
    configurable default wait.
  - The in-memory limiters never forget a key; there is no idle-key expiry.
  - The in-memory window log holds bare timestamps, with no per-entry sequence
    number.
- Both in-memory `check`s read the clock before they take the key's lock
  (rate_limiter/in_memory.py:28-29 and 78-81). Two concurrent checks on one key
  can therefore reach the lock in the opposite order to their clock readings,
  and the later one works with an older time:
  - the window appends a time older than the newest entry, and the log is no
    longer sorted (`InMemorySlidingWindow.OutOfOrderAppendUnsorts`); pruning of
    an unsorted log can keep expired entries
    (`InMemorySlidingWindow.UnsortedLogKeepsExpired`);
  - the token bucket earns nothing for a `now` behind the stored timestamp, and
    the wait it reports is too short to earn the missing tokens
    (`InMemoryTokenBucket.BackwardClockUnderReports`).

## Model

| member | source | states |
|---|---|---|
| `Config.CheckTokenBucketConfig` | rate_limiter/in_memory.py:14-17 | a token-bucket config is accepted iff `capacity > 0` and `refill_rate >= 0`; a bad capacity is reported before a bad rate |
| `Config.CheckSlidingWindowConfig` | rate_limiter/in_memory.py:67-70 | a window config is accepted iff `window_size_ms > 0` and `max_requests > 0`; a bad window is reported first |
| `Results.ToDict` | rate_limiter/results.py:14-20 | the dictionary has exactly the keys `allowed`, `remaining`, `retry_after_ms`, `metadata` |
| `Results.ToDictRoundTrip` | rate_limiter/results.py:14-20 | every field is carried through `to_dict` unchanged: reading the dictionary back gives the same result |
| `Results.DecimalString` | rate_limiter/results.py:28 | `str(n)` is non-empty decimal digits with no leading zero for `n > 0` |
| `Results.ParseDecimalString` | rate_limiter/results.py:28 | the decimal text of `n` denotes `n` |
| `Results.RetryAfterHeaderValue` | rate_limiter/results.py:23-28 | no header iff `retry_after_ms <= 0`; otherwise decimal seconds `s >= 1` with `(s-1)*1000 < ms <= s*1000`, i.e. the ceiling, never under-reporting |
| `Results.RetryAfterMonotone` | rate_limiter/results.py:27-28 | a longer wait never gives fewer Retry-After seconds |
| `Results.RetryAfterExamples` | rate_limiter/results.py:23-28 | 0 and negative waits give no header; 1, 200 and 1000 ms give "1"; 1001 ms gives "2" |
| `InMemoryTokenBucket.Ceil` | rate_limiter/in_memory.py:50 | `math.ceil`: the least integer not below `x` |
| `InMemoryTokenBucket.Elapsed` | rate_limiter/in_memory.py:37 | elapsed time is never negative, and it is `now - ts` when the clock moved forward |
| `InMemoryTokenBucket.Refill` | rate_limiter/in_memory.py:37-41 | refilling never takes tokens away from a bucket within `[0, capacity]` and keeps it within `[0, capacity]`; either the bucket is left as it was, or the clock is after the stored time and the timestamp becomes `now` |
| `InMemoryTokenBucket.TokenBucketStep` | rate_limiter/in_memory.py:30-52 | `remaining` is the tokens written back. An admission writes back the refilled tokens less the request, with wait 0; a denial writes back the refilled bucket unchanged; the timestamp written is the refilled one |
| `InMemoryTokenBucket.StepKeepsBounds` | rate_limiter/in_memory.py:30-52 | for a positive request, a new key or a bucket within `[0, capacity]` stays within `[0, capacity]`, and `remaining` is the tokens written back |
| `InMemoryTokenBucket.NewKeyStartsFull` | rate_limiter/in_memory.py:31-33 | a new key starts with `capacity` tokens stamped `now`; it is admitted iff the request fits in the capacity |
| `InMemoryTokenBucket.BackwardClockChangesNothing` | rate_limiter/in_memory.py:37-41 | a clock at or before the stored time adds no tokens, removes none, and leaves the timestamp |
| `InMemoryTokenBucket.RefillAfterElapsed` | rate_limiter/in_memory.py:37-41 | after time passes with a positive rate, tokens become `min(capacity, tokens + elapsed*rate)` and the timestamp becomes `now` |
| `InMemoryTokenBucket.ZeroRateFreezesBucket` | rate_limiter/in_memory.py:38-41 | with rate 0 the timestamp never moves and tokens never grow |
| `InMemoryTokenBucket.AdmissionIff` | rate_limiter/in_memory.py:43-51 | admitted iff the refilled tokens are at least the request. Admission subtracts exactly the request, with wait 0. Denial keeps the refilled bucket, and the wait is `ceil(missing/rate*1000) >= 1` ms, or 0 when rate is 0 |
| `InMemoryTokenBucket.WaitMsIsLeast` | rate_limiter/in_memory.py:48-50 | the wait `ceil(missing/rate*1000)` is the least whole number of milliseconds whose refill earns the missing tokens: `w` ms earn them and `w - 1` ms do not. With rate 0 the wait is 0 |
| `InMemoryTokenBucket.RetryAfterSuffices` | rate_limiter/in_memory.py:47-50 | with a positive refill rate, a stored bucket within `[0, capacity]` and a clock not behind the stored time, a denied request no larger than the capacity is admitted when repeated `retry_after_ms` later. With rate 0 the wait is 0 and the request stays denied (`ZeroRateWaitIsNoEstimate`). With a clock behind the stored time the wait is too short (`BackwardClockUnderReports`) |
| `InMemoryTokenBucket.ZeroRateWaitIsNoEstimate` | rate_limiter/in_memory.py:47-50 | with rate 0 a denial reports a wait of 0, meaning no estimate, and the same request is denied at every later time |
| `InMemoryTokenBucket.BackwardClockUnderReports` | rate_limiter/in_memory.py:28-50 | capacity 1, rate 1/s, a stored bucket of 0 tokens at 10.0 s checked at 9.0 s: denied with a 1000 ms wait and the bucket unchanged, and a retry after that wait, at 10.0 s, is denied again |
| `InMemoryTokenBucket.OversizedRequestNeverAdmitted` | rate_limiter/in_memory.py:43-50 | a request above the capacity is always denied, yet with a positive rate it is still given a finite wait |
| `InMemoryTokenBucket.ZeroRateAdmitsFirstK` | rate_limiter/in_memory.py:43-46 | with no refill, a bucket of `k` whole tokens admits exactly the first `k` single-token requests, whenever they come |
| `InMemoryTokenBucket.ZeroRateNoOverspend` | rate_limiter/in_memory.py:30-52 | `capacity + 1` single-token requests on a new non-refilling key: exactly `capacity` admitted, then one denied |
| `InMemoryTokenBucket.BurstThenThrottle` | tests/test_in_memory_token_bucket.py:8-15 | capacity 3, rate 0: allowed, allowed, allowed, denied |
| `InMemoryTokenBucket.RefillsOverTime` | tests/test_in_memory_token_bucket.py:18-26 | capacity 1, rate 10/s: allowed, denied within 100 ms, allowed once 100 ms have passed |
| `InMemoryTokenBucket.CheckBucket` | rate_limiter/in_memory.py:30-59 | the body of `check` on one key (start, refill, take or compute the wait) yields exactly the bucket and result of `TokenBucketStep`, the function the lemmas above are about |
| `InMemoryTokenBucket.TokenBucketLimiter.constructor` | rate_limiter/in_memory.py:13-22 | an accepted config gives a limiter with an empty table |
| `InMemoryTokenBucket.NewTokenBucketLimiter` | rate_limiter/in_memory.py:13-22 | construction fails with the config's error exactly when the checks reject it, else gives a fresh limiter with an empty table |
| `InMemoryTokenBucket.TokenBucketLimiter.Check` | rate_limiter/in_memory.py:24-59 | `tokens <= 0` fails and touches nothing. Otherwise the result is the step's result, the key's bucket is rewritten, every other key is unchanged, and the bounds invariant holds |
| `InMemoryTokenBucket.TokenBucketLimiter.Allow` | rate_limiter/in_memory.py:61-62 | `allow` is `check(...).allowed` with the same effect on the table |
| `InMemorySlidingWindow.LeadingExpired` | rate_limiter/in_memory.py:87-88 | the number of front entries at or before the cutoff: the entry at that index, if any, is not |
| `InMemorySlidingWindow.LeadingExpiredPrefix` | rate_limiter/in_memory.py:87-88 | every entry before index `LeadingExpired` is at or before the cutoff, so with `LeadingExpired` the count is the whole expired prefix |
| `InMemorySlidingWindow.Pruned` | rate_limiter/in_memory.py:87-88 | pruning never lengthens the log |
| `InMemorySlidingWindow.DropExpired` | rate_limiter/in_memory.py:87-88 | the pop-front loop leaves exactly the log without its expired prefix |
| `InMemorySlidingWindow.SurvivorsMembers` | rate_limiter/in_memory.py:79 | the reference filter keeps an entry iff it is after `now - window` |
| `InMemorySlidingWindow.PrunedIsSurvivors` | rate_limiter/in_memory.py:79-88 | on a sorted log, pruning removes exactly the entries `<= now - window` (the cutoff is excluded from the window) |
| `InMemorySlidingWindow.UnsortedLogKeepsExpired` | rate_limiter/in_memory.py:87-88 | on an unsorted log, pruning can keep an expired entry: exactness rests on sortedness |
| `InMemorySlidingWindow.PrunedFacts` | rate_limiter/in_memory.py:87-88 | pruning a sorted log whose newest entry is not after `now` leaves a sorted suffix, no longer than the log, whose entries all lie in `(cutoff, now]` |
| `InMemorySlidingWindow.DecideKeepsInvariant` | rate_limiter/in_memory.py:90-92 | deciding on a pruned log keeps it sorted, at most `max_requests` long and inside the window, and reports the free slots as remaining |
| `InMemorySlidingWindow.DecideKeepsWellFormed` | rate_limiter/in_memory.py:90-91 | appending a time not before the newest entry, only while there is room, keeps the log sorted and at most `max_requests` long |
| `InMemorySlidingWindow.Decide` | rate_limiter/in_memory.py:90-115 | admitted iff the pruned log holds fewer than `max_requests` entries; admission appends `now`, denial keeps the log as it is |
| `InMemorySlidingWindow.DecideRefusesFullLog` | rate_limiter/in_memory.py:90-109 | a full log is refused with a wait of `max(0, window - (now - oldest))` |
| `InMemorySlidingWindow.DecideIff` | rate_limiter/in_memory.py:90-109 | on a pruned log: admitted iff it holds fewer than `max_requests` entries, and then `now` is appended with wait 0; a denial keeps the full log and waits `window - (now - oldest)`, between 1 and `window` |
| `InMemorySlidingWindow.StepKeepsInvariant` | rate_limiter/in_memory.py:87-92 | if `now` is not before the newest entry, a check keeps the log sorted and at most `max_requests` long. Every entry lies in `(now - window, now]`, and `remaining = max_requests - len` on admission, 0 on denial |
| `InMemorySlidingWindow.StepKeepsSorted` | rate_limiter/in_memory.py:87-92 | a check on a sorted log whose newest entry is not after `now` leaves it sorted |
| `InMemorySlidingWindow.StepKeepsLength` | rate_limiter/in_memory.py:87-92 | a check never makes a log of at most `max_requests` entries longer than `max_requests` |
| `InMemorySlidingWindow.SlidingWindowStep` | rate_limiter/in_memory.py:79-115 | every result carries the sliding-window, memory and window-size metadata, and a denial reports 0 remaining |
| `InMemorySlidingWindow.OutOfOrderAppendUnsorts` | rate_limiter/in_memory.py:78-91 | window 100 ms, limit 5, a log `[10]` checked with the older time 5: admitted, and the log becomes `[10, 5]`, which is not sorted |
| `InMemorySlidingWindow.WindowAdmissionIff` | rate_limiter/in_memory.py:90-109 | admitted iff fewer than `max_requests` entries survive pruning, and then `now` is appended. On denial nothing is appended, and the wait is `window - (now - oldest)`, between 1 and `window` |
| `InMemorySlidingWindow.StepDecidesOnPruned` | rate_limiter/in_memory.py:87-109 | the same decision stated on the log left by the pop-front loop |
| `InMemorySlidingWindow.AdmitsOnceOldestExpires` | rate_limiter/in_memory.py:87-92 | a log of at most `max_requests` entries whose oldest is at or before the cutoff is admitted |
| `InMemorySlidingWindow.RefusesWhileOldestLive` | rate_limiter/in_memory.py:87-90 | a full log whose oldest entry is after the cutoff is refused |
| `InMemorySlidingWindow.RetryAfterExact` | rate_limiter/in_memory.py:104-105 | after a denial, a check `retry_after_ms` later is admitted, and one a millisecond earlier is still denied |
| `InMemorySlidingWindow.WaitUntilOldestExpires` | rate_limiter/in_memory.py:104-105 | for a full log and the wait `window - (now - oldest)`, a check on that log is admitted at `now + wait` and refused at every earlier moment |
| `InMemorySlidingWindow.AdmitsAtSameInstant` | rate_limiter/in_memory.py:87-92 | fewer than `max_requests` entries all at `t`, checked again at `t`: admitted, and the log gains one more `t` |
| `InMemorySlidingWindow.FillAtOnce` | rate_limiter/in_memory.py:87-92 | starting from `k` entries at `t`, `m` further checks at `t` with `k + m <= max_requests` are all admitted, leaving `k + m` copies of `t` |
| `InMemorySlidingWindow.FillStep` | rate_limiter/in_memory.py:87-92 | the first of `m` checks at `t` on fewer than `max_requests` copies of `t` is admitted, so if the remaining `m - 1` are all admitted then all `m` are |
| `InMemorySlidingWindow.WindowExactness` | rate_limiter/in_memory.py:79-105 | after `N = max_requests` requests at `t`, a request at `t + W - 1` is denied with a 1 ms wait and one at `t + W` is admitted |
| `InMemorySlidingWindow.FullLogAtOneInstant` | rate_limiter/in_memory.py:87-105 | a full log of entries all at `t` is refused at `t + W - 1` with a 1 ms wait and admitted at `t + W` |
| `InMemorySlidingWindow.FullLogFrom` | rate_limiter/in_memory.py:87-105 | a full log whose oldest entry is at `t` is refused at `t + W - 1` with a 1 ms wait and admitted at `t + W` |
| `InMemorySlidingWindow.FullLogFromRefuses` | rate_limiter/in_memory.py:87-109 | a full log whose oldest entry is at `t` still holds all its entries at `t + W - 1`, so the check is refused there with a 1 ms wait |
| `InMemorySlidingWindow.ThrottlesWhenLimitReached` | tests/test_in_memory_sliding_window.py:8-16 | window 200 ms, limit 2: allowed, allowed, denied within the window with a non-negative wait |
| `InMemorySlidingWindow.AllowsAfterWindowPasses` | tests/test_in_memory_sliding_window.py:19-27 | window 150 ms, limit 1: allowed, denied inside the window, allowed once it has passed |
| `InMemorySlidingWindow.SlidingWindowLimiter.constructor` | rate_limiter/in_memory.py:66-75 | an accepted config gives a limiter with an empty table |
| `InMemorySlidingWindow.NewSlidingWindowLimiter` | rate_limiter/in_memory.py:66-75 | construction fails with the config's error exactly when the checks reject it, else gives a fresh limiter with an empty table |
| `InMemorySlidingWindow.SlidingWindowLimiter.Check` | rate_limiter/in_memory.py:77-115 | the result is the step's result. The key's log becomes the pruned log, plus `now` if admitted, and lies inside the window. Other keys are unchanged and the invariant is kept |
| `InMemorySlidingWindow.SlidingWindowLimiter.Allow` | rate_limiter/in_memory.py:117-118 | `allow` is `check(...).allowed` with the same effect on the table |
| `InMemorySlidingWindow.CheckLog` | rate_limiter/in_memory.py:87-115 | the pop-front loop followed by the admit-or-refuse branch yields exactly the log and result of `SlidingWindowStep` |
| `RedisLimiters.NewRedisTokenBucketLimiter` | rate_limiter/redis_limiters.py:31-34 | accepted iff `capacity > 0` and `refill_rate >= 0`, with the same errors as in memory |
| `RedisLimiters.NewRedisSlidingWindowLimiter` | rate_limiter/redis_limiters.py:114-117 | accepted iff `window_size_ms > 0` and `max_requests > 0`, with the same errors as in memory |
| `RedisLimiters.StoreKey` | rate_limiter/redis_limiters.py:49-50 | the store key is the prefix followed directly by the key |
| `RedisLimiters.StoreKeyInjective` | rate_limiter/redis_limiters.py:49-50 | under one prefix, distinct keys never share a store key |
| `RedisLimiters.StoreKeyPrefixesOverlap` | rate_limiter/redis_limiters.py:132-133 | with no separator, different prefixes can produce the same store key |
| `RedisLimiters.TokenBucketScriptArgs` | rate_limiter/redis_limiters.py:58 | the script gets `now_ms`, `capacity`, the rate per millisecond (`rate_per_ms * 1000 = refill_rate`), `tokens`, in that order |
| `RedisLimiters.SlidingWindowScriptArgs` | rate_limiter/redis_limiters.py:138 | the script gets `now_ms`, `window_size_ms`, `max_requests`, in that order |
| `RedisLimiters.ReplyToResult` | rate_limiter/redis_limiters.py:71-101 | a reply passes through with `allowed` = "non-zero". A failure gives allowed, unbounded, wait 0 when failing open, and denied, 0.0, wait 0 when failing closed |
| `RedisLimiters.TokenBucketCheck` | rate_limiter/redis_limiters.py:52-101 | fails iff `tokens <= 0`, before any Redis call; otherwise the result is tagged token bucket. What the result holds is stated by `TokenBucketPassesReplyThrough` and `OutageFollowsFailureMode` |
| `RedisLimiters.TokenBucketAllow` | rate_limiter/redis_limiters.py:103-104 | `allow` is `check(...).allowed`, failing exactly when `check` fails |
| `RedisLimiters.SlidingWindowCheck` | rate_limiter/redis_limiters.py:135-181 | the result is tagged sliding window; what it holds is stated by `SlidingWindowPassesReplyThrough`, `OutageFollowsFailureMode` and `SlidingWindowAllow` |
| `RedisLimiters.SlidingWindowAllow` | rate_limiter/redis_limiters.py:183-184 | admitted iff the script replied non-zero or, on a failure, the limiter fails open |
| `RedisLimiters.TokenBucketPassesReplyThrough` | rate_limiter/redis_limiters.py:96-101 | when Redis answers for `prefix + key` with the per-ms rate, the caller gets the script's answer, whatever the failure mode |
| `RedisLimiters.SlidingWindowPassesReplyThrough` | rate_limiter/redis_limiters.py:176-181 | same for the sliding window |
| `RedisLimiters.OutageFollowsFailureMode` | rate_limiter/redis_limiters.py:71-94 | during an outage, both limiters admit every call when failing open and deny every call when failing closed, with wait 0 |
| `RedisLimiters.DefaultConfigFailsOpen` | rate_limiter/config.py:19-26 | with the default `RedisConfig`, store keys are `"rate:" + key`, and an outage admits the call with unbounded remaining and wait 0 |
| `AppLimiter.NewRedisTokenBucket` | app/limiter.py:27-35 | rejects `capacity <= 0` first, then `refill_rate_per_sec < 0`; otherwise stores the rate per millisecond (`rate_per_ms * 1000 = rate_per_sec`) |
| `AppLimiter.BucketKey` | app/limiter.py:41-42 | the bucket key is the prefix, a colon, then the key |
| `AppLimiter.BucketKeyInjective` | app/limiter.py:41-42 | under one prefix, distinct keys never share a bucket key |
| `AppLimiter.DefaultBucketKey` | app/limiter.py:23-42 | with the default prefix `"rl"`, the bucket key is `"rl:" + key` |
| `AppLimiter.Allow` | app/limiter.py:44-65 | a script reply passes through, with `allowed` = "non-zero". A connection or timeout failure is raised to the caller, not mapped to a decision |
| `AppLimiter.SameScriptArgsAsLibrary` | app/limiter.py:49 | from the same capacity and per-second rate, the service sends the script the same arguments as the library client |
| `AppLimiter.RetryAfterHeaderValue` | app/limiter.py:68-73 | no header iff the wait is not positive |
| `AppLimiter.RetryAfterMatchesLibrary` | app/limiter.py:68-73 | the service's copy equals the library's `retry_after_header_value` on every input |
| `AppLimiter.LeadingSpaces` | app/limiter.py:82 | counts the leading whitespace characters that `strip()` removes |
| `AppLimiter.TrailingSpaces` | app/limiter.py:82 | counts the trailing whitespace characters that `strip()` removes |
| `AppLimiter.Strip` | app/limiter.py:82 | `strip()` never lengthens its input, and the result neither starts nor ends with whitespace |
| `AppLimiter.StripSpec` | app/limiter.py:82 | `strip()` cuts only whitespace and only from the ends. The result neither starts nor ends with whitespace, and it is "" iff the input is all whitespace |
| `AppLimiter.AsciiSpaces` | app/limiter.py:82 | among ASCII characters, `strip()` treats as whitespace exactly tab, line feed, vertical tab, form feed, carriage return, the separators 0x1C-0x1F and space |
| `AppLimiter.FirstSegment` | app/limiter.py:85 | `split(",")[0]` is the prefix before the first comma and contains no comma |
| `AppLimiter.ClientIpFromHeaders` | app/limiter.py:76-86 | a non-empty `X-Real-IP` gives its stripped value. Otherwise a non-empty `X-Forwarded-For` gives its stripped first entry, which holds no comma. Otherwise the fallback |
| `AppLimiter.RealIpWins` | app/limiter.py:81-82 | a non-empty `X-Real-IP` gives its stripped value; a whitespace-only one gives "" rather than falling through |
| `AppLimiter.ForwardedForLeftMost` | app/limiter.py:83-85 | otherwise a non-empty `X-Forwarded-For` gives its left-most entry, stripped, and the result has no comma |
| `AppLimiter.FallbackWhenNoHeaders` | app/limiter.py:86 | with both headers absent or empty, the fallback is returned unchanged |
| `AppLimiter.RealIpExample` | app/limiter.py:76-86 | `" 10.0.0.2 "` in `X-Real-IP` gives `"10.0.0.2"` over any forwarded address, and `"  "` gives `""` |
| `AppLimiter.StripPadded` | app/limiter.py:82 | `" 10.0.0.2 "` strips to `"10.0.0.2"` |
| `AppLimiter.StripOneSpaceEachSide` | app/limiter.py:82 | a value that neither starts nor ends with whitespace, padded with one space on each side, strips back to itself |

## Left out

- Thread locking (`rate_limiter/_locks.py`, `KeyedLock`): its only job is mutual
  exclusion. Each `Check` is one method call, which is already indivisible. The
  lock table, which never shrinks, is not modelled.
- Reading the clocks (`time.monotonic`, `time.monotonic_ns`, `time.time`): the
  time is a parameter. The window's `Check` requires `nowMs` to be no earlier than
  the key's newest logged time, and sortedness depends on it. This holds when the
  calls on a key reach the lock in the order of their clock readings; it is not
  guaranteed under concurrent use, where the source can append out of order (see
  above).
- The Redis connection and the server-side scripts (`lua/token_bucket.lua`,
  `lua/sliding_window.lua`, `app/limiter.lua`) are not part of this model. So the
  server-side algorithms, key expiry, sequence counters and atomicity are not
  checked here; a script call is an abstract function from store key and arguments
  to a reply.
- Script caching: loading the script and caching its SHA (`script_load`, the
  `sha` field written with `object.__setattr__`, `self._sha`) only decides which
  Redis command is sent, not the decision.
- The `NoScriptError` fallback to `eval` is not modelled either. If that second
  call fails, its failure escapes `check` uncaught.
- Other Redis errors are not modelled. The Redis `check`s catch only
  `NoScriptError`, `ConnectionError` and `TimeoutError`
  (rate_limiter/redis_limiters.py:66-71 and 146-151). Anything else escapes
  `check` uncaught, and neither fail-open nor fail-closed applies: a
  `ResponseError` from a failing script, a reply that does not unpack into three
  values (:63, :143), or a value that `int` or `float` cannot convert (:97-99 for the token bucket,
  :177-179 for the sliding window).
  `RedisLimiters.StoreReply` has only the script's reply and the two caught
  errors, so the model cannot express these cases.
- Retries inside the Redis client are not modelled. When no client is passed
  in, the limiters build one with `retry_on_timeout=True`
  (rate_limiter/redis_limiters.py:43 and 126), so the client may repeat a
  timed-out call before the limiter sees a `TimeoutError`. In the model, one
  call of the executor stands for the whole exchange, retries included.
- `is_redis_available` (app/limiter.py:89-91) is not modelled. It classifies a
  foreign exception object for the HTTP route.
- IEEE-754 floating point: tokens, rates and times are exact reals. Rounding in
  `math.ceil(missing / rate * 1000.0)` and in the float comparison are not
  modelled.
- The `"error": str(exc)` metadata entry is not kept. Metadata is reduced to its
  algorithm, backend, mode and window tags.
- `RedisConfig` keeps only `key_prefix` and `fail_open`. The host, port, database,
  timeouts and `redis_url` only describe the connection.
- `app/main.py`, `app/settings.py`, `app/__main__.py`, `scripts/load_test.py`,
  `examples/usage_examples.py` and `rate_limiter/__init__.py` are not part of the
  model. They are HTTP routing, settings, startup, load generation, demos and
  import plumbing.
- `AppLimiter.RetryAfterHeaderValue`: its own contract states only when a header
  is produced. Everything else follows from `AppLimiter.RetryAfterMatchesLibrary`
  and the library function's contract.
