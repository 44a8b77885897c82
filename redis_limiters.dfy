/** The client side of the Redis-backed limiters of rate_limiter/redis_limiters.py
    (`RedisTokenBucketLimiter`, `RedisSlidingWindowLimiter`).

    The decision itself is taken by a script that Redis runs atomically; that
    script is not part of this model. What is modelled is what the client does
    around it: validating the configuration, naming the store key, building the
    script's arguments, and turning the script's reply, or a connection or
    timeout failure, into a `RateLimitResult` according to the fail-open or
    fail-closed setting. Running the script is a function parameter. */
module RedisLimiters {
  import opened Wrappers
  import opened Config
  import opened Results

  /** The arguments after the key, in the order the scripts read them. */
  datatype ScriptArgs =
    | TokenBucketArgs(nowMs: int, capacity: int, refillRatePerMs: real, tokens: int)
    | SlidingWindowArgs(nowMs: int, windowSizeMs: int, maxRequests: int)

  /** What one script call gives: the script's three-value reply, or one of the
      two client errors the limiters catch. */
  datatype StoreReply =
    | Reply(allowed: int, value: real, retryAfterMs: int)
    | ConnectionError
    | TimeoutError

  /** Runs the limiter's script on one store key. */
  type Executor = (string, ScriptArgs) -> StoreReply

  datatype RedisTokenBucketLimiter = RedisTokenBucketLimiter(cfg: TokenBucketConfig, redisCfg: RedisConfig)

  datatype RedisSlidingWindowLimiter = RedisSlidingWindowLimiter(cfg: SlidingWindowConfig, redisCfg: RedisConfig)

  /** `RedisTokenBucketLimiter(config, redis_config)`: the same checks as the
      in-memory token bucket. */
  function NewRedisTokenBucketLimiter(cfg: TokenBucketConfig, redisCfg: RedisConfig)
    : (r: Result<RedisTokenBucketLimiter, ConfigError>)
    ensures r.Success? <==> cfg.capacity > 0 && cfg.refillRate >= 0.0
    ensures r.Failure? ==> CheckTokenBucketConfig(cfg) == Rejected(r.error)
    ensures r.Success? ==> r.value.cfg == cfg && r.value.redisCfg == redisCfg
  {
    match CheckTokenBucketConfig(cfg)
    case Rejected(e) => Failure(e)
    case Accepted => Success(RedisTokenBucketLimiter(cfg, redisCfg))
  }

  /** `RedisSlidingWindowLimiter(config, redis_config)`: the same checks as the
      in-memory sliding window. */
  function NewRedisSlidingWindowLimiter(cfg: SlidingWindowConfig, redisCfg: RedisConfig)
    : (r: Result<RedisSlidingWindowLimiter, ConfigError>)
    ensures r.Success? <==> cfg.windowSizeMs > 0 && cfg.maxRequests > 0
    ensures r.Failure? ==> CheckSlidingWindowConfig(cfg) == Rejected(r.error)
    ensures r.Success? ==> r.value.cfg == cfg && r.value.redisCfg == redisCfg
  {
    match CheckSlidingWindowConfig(cfg)
    case Rejected(e) => Failure(e)
    case Accepted => Success(RedisSlidingWindowLimiter(cfg, redisCfg))
  }

  /** `_key`: the prefix followed directly by the caller's key, no separator. */
  function StoreKey(prefix: string, key: string): (k: string)
    ensures |k| == |prefix| + |key|
    ensures k[..|prefix|] == prefix && k[|prefix|..] == key
  {
    prefix + key
  }

  /** Under one prefix, distinct keys get distinct store keys. */
  lemma StoreKeyInjective(prefix: string, a: string, b: string)
    requires StoreKey(prefix, a) == StoreKey(prefix, b)
    ensures a == b
  {
    var k := StoreKey(prefix, a);
    assert a == k[|prefix|..] == b;
  }

  /** Without a separator, two prefixes can name the same store key. */
  lemma StoreKeyPrefixesOverlap()
    ensures StoreKey("rate:", "ab") == StoreKey("rate:a", "b")
  {
  }

  /** The token-bucket script's arguments: the time, the capacity, the refill rate
      converted from per second to per millisecond, and the tokens asked for. */
  function TokenBucketScriptArgs(cfg: TokenBucketConfig, nowMs: int, tokens: int): (a: ScriptArgs)
    ensures a.TokenBucketArgs? && a.nowMs == nowMs && a.capacity == cfg.capacity && a.tokens == tokens
    ensures a.refillRatePerMs * 1000.0 == cfg.refillRate
    ensures cfg.refillRate >= 0.0 ==> 0.0 <= a.refillRatePerMs <= cfg.refillRate
  {
    TokenBucketArgs(nowMs, cfg.capacity, cfg.refillRate / 1000.0, tokens)
  }

  /** The sliding-window script's arguments: the time, the window and the limit. */
  function SlidingWindowScriptArgs(cfg: SlidingWindowConfig, nowMs: int): (a: ScriptArgs)
    ensures a.SlidingWindowArgs?
    ensures a.nowMs == nowMs && a.windowSizeMs == cfg.windowSizeMs && a.maxRequests == cfg.maxRequests
  {
    SlidingWindowArgs(nowMs, cfg.windowSizeMs, cfg.maxRequests)
  }

  /** The result for a script reply or a client failure. A reply is passed through
      (`allowed` is "the script returned a non-zero integer"). A failure admits with
      an unbounded remainder when failing open, and refuses with nothing remaining
      when failing closed; the wait is 0 in both cases. */
  function ReplyToResult(reply: StoreReply, failOpen: bool, algorithm: Algorithm): (r: RateLimitResult)
    ensures r.metadata.algorithm == algorithm && r.metadata.backend == Redis
    ensures reply.Reply? ==>
      && r.allowed == (reply.allowed != 0)
      && r.remaining == Finite(reply.value)
      && r.retryAfterMs == reply.retryAfterMs
      && r.metadata.mode == None
    ensures !reply.Reply? ==> r.allowed == failOpen && r.retryAfterMs == 0
    ensures !reply.Reply? ==> r.remaining == (if failOpen then Unbounded else Finite(0.0))
    ensures !reply.Reply? ==> r.metadata.mode == Some(if failOpen then FailOpen else FailClosed)
  {
    match reply
    case Reply(allowed, value, retryAfterMs) =>
      RateLimitResult(allowed != 0, Finite(value), retryAfterMs, Metadata(algorithm, Redis, None, None))
    case _ =>
      if failOpen then
        RateLimitResult(true, Unbounded, 0, Metadata(algorithm, Redis, Some(FailOpen), None))
      else
        RateLimitResult(false, Finite(0.0), 0, Metadata(algorithm, Redis, Some(FailClosed), None))
  }

  /** `RedisTokenBucketLimiter.check(key, tokens)` at `nowMs`: rejects a request for
      no tokens before calling Redis, otherwise runs the script once on the
      prefixed key. */
  function TokenBucketCheck(lim: RedisTokenBucketLimiter, key: string, tokens: int, nowMs: int, run: Executor)
    : (r: Result<RateLimitResult, CheckError>)
    ensures r.Failure? <==> tokens <= 0
    ensures r.Success? ==> r.value.metadata.algorithm == TokenBucketAlgorithm
  {
    if tokens <= 0 then Failure(TokensNotPositive)
    else
      var reply := run(StoreKey(lim.redisCfg.keyPrefix, key), TokenBucketScriptArgs(lim.cfg, nowMs, tokens));
      Success(ReplyToResult(reply, lim.redisCfg.failOpen, TokenBucketAlgorithm))
  }

  /** `RedisTokenBucketLimiter.allow`: the `allowed` flag of `check`. */
  function TokenBucketAllow(lim: RedisTokenBucketLimiter, key: string, tokens: int, nowMs: int, run: Executor)
    : (r: Result<bool, CheckError>)
    ensures r.Failure? <==> tokens <= 0
    ensures r.Success? ==> r.value == TokenBucketCheck(lim, key, tokens, nowMs, run).value.allowed
  {
    var c := TokenBucketCheck(lim, key, tokens, nowMs, run);
    if c.Failure? then Failure(c.error) else Success(c.value.allowed)
  }

  /** `RedisSlidingWindowLimiter.check(key)` at `nowMs`: runs the script once on the
      prefixed key. */
  function SlidingWindowCheck(lim: RedisSlidingWindowLimiter, key: string, nowMs: int, run: Executor)
    : (r: RateLimitResult)
    ensures r.metadata.algorithm == SlidingWindowLog
  {
    var reply := run(StoreKey(lim.redisCfg.keyPrefix, key), SlidingWindowScriptArgs(lim.cfg, nowMs));
    ReplyToResult(reply, lim.redisCfg.failOpen, SlidingWindowLog)
  }

  /** `RedisSlidingWindowLimiter.allow`: the `allowed` flag of `check`. */
  function SlidingWindowAllow(lim: RedisSlidingWindowLimiter, key: string, nowMs: int, run: Executor): (allowed: bool)
    ensures var reply := run(StoreKey(lim.redisCfg.keyPrefix, key), SlidingWindowScriptArgs(lim.cfg, nowMs));
      allowed <==> if reply.Reply? then reply.allowed != 0 else lim.redisCfg.failOpen
  {
    SlidingWindowCheck(lim, key, nowMs, run).allowed
  }

  // ---------------------------------------------------------------------------
  // What a caller can rely on

  /** With `RedisConfig()`'s defaults, the store key is "rate:" followed by the
      key, and a failed call admits: the limiter fails open. */
  lemma DefaultConfigFailsOpen(cfg: SlidingWindowConfig, key: string, nowMs: int, run: Executor)
    requires !run("rate:" + key, SlidingWindowScriptArgs(cfg, nowMs)).Reply?
    ensures StoreKey(DefaultRedisConfig.keyPrefix, key) == "rate:" + key
    ensures var r := SlidingWindowCheck(RedisSlidingWindowLimiter(cfg, DefaultRedisConfig), key, nowMs, run);
      r.allowed && r.remaining == Unbounded && r.retryAfterMs == 0
  {
  }

  /** When Redis answers, the script is asked about `prefix + key` with the
      per-millisecond rate, and its answer is what the caller gets, whatever the
      failure mode. */
  lemma TokenBucketPassesReplyThrough(lim: RedisTokenBucketLimiter, key: string, tokens: int, nowMs: int, run: Executor)
    requires tokens > 0
    requires run(lim.redisCfg.keyPrefix + key,
                 TokenBucketArgs(nowMs, lim.cfg.capacity, lim.cfg.refillRate / 1000.0, tokens)).Reply?
    ensures var reply := run(lim.redisCfg.keyPrefix + key,
                             TokenBucketArgs(nowMs, lim.cfg.capacity, lim.cfg.refillRate / 1000.0, tokens));
      var r := TokenBucketCheck(lim, key, tokens, nowMs, run);
      && r.Success?
      && r.value.allowed == (reply.allowed != 0)
      && r.value.remaining == Finite(reply.value)
      && r.value.retryAfterMs == reply.retryAfterMs
      && r == TokenBucketCheck(lim.(redisCfg := lim.redisCfg.(failOpen := !lim.redisCfg.failOpen)), key, tokens, nowMs, run)
  {
  }

  /** Same for the sliding window. */
  lemma SlidingWindowPassesReplyThrough(lim: RedisSlidingWindowLimiter, key: string, nowMs: int, run: Executor)
    requires run(lim.redisCfg.keyPrefix + key,
                 SlidingWindowArgs(nowMs, lim.cfg.windowSizeMs, lim.cfg.maxRequests)).Reply?
    ensures var reply := run(lim.redisCfg.keyPrefix + key,
                             SlidingWindowArgs(nowMs, lim.cfg.windowSizeMs, lim.cfg.maxRequests));
      var r := SlidingWindowCheck(lim, key, nowMs, run);
      && r.allowed == (reply.allowed != 0)
      && r.remaining == Finite(reply.value)
      && r.retryAfterMs == reply.retryAfterMs
      && r == SlidingWindowCheck(lim.(redisCfg := lim.redisCfg.(failOpen := !lim.redisCfg.failOpen)), key, nowMs, run)
  {
  }

  /** During an outage (every call fails), a fail-open limiter admits every valid
      request with an unbounded remainder, and a fail-closed one refuses every
      request with nothing remaining and no wait to suggest. */
  lemma OutageFollowsFailureMode(tb: RedisTokenBucketLimiter, sw: RedisSlidingWindowLimiter,
                                 key: string, tokens: int, nowMs: int, run: Executor)
    requires forall k, a :: !run(k, a).Reply?
    requires tb.redisCfg.failOpen == sw.redisCfg.failOpen
    requires tokens > 0
    ensures var t := TokenBucketCheck(tb, key, tokens, nowMs, run).value;
      var s := SlidingWindowCheck(sw, key, nowMs, run);
      && t.allowed == s.allowed == tb.redisCfg.failOpen
      && t.retryAfterMs == s.retryAfterMs == 0
      && t.remaining == s.remaining == (if tb.redisCfg.failOpen then Unbounded else Finite(0.0))
  {
    assert !run(StoreKey(tb.redisCfg.keyPrefix, key), TokenBucketScriptArgs(tb.cfg, nowMs, tokens)).Reply?;
    assert !run(StoreKey(sw.redisCfg.keyPrefix, key), SlidingWindowScriptArgs(sw.cfg, nowMs)).Reply?;
  }
}
