/** The frozen configuration records of rate_limiter/config.py and the checks
    the limiter constructors make on them before accepting them. */
module Config {

  /** A token bucket of `capacity` tokens refilled at `refillRate` tokens per second. */
  datatype TokenBucketConfig = TokenBucketConfig(capacity: int, refillRate: real)

  /** At most `maxRequests` admissions in any trailing window of `windowSizeMs` milliseconds. */
  datatype SlidingWindowConfig = SlidingWindowConfig(windowSizeMs: int, maxRequests: int)

  /** The part of the Redis settings that the limiters act on: the namespace put in
      front of every key and what to do when Redis cannot be reached. */
  datatype RedisConfig = RedisConfig(keyPrefix: string, failOpen: bool)

  /** `RedisConfig()` with its defaults: prefix "rate:", fail open. */
  const DefaultRedisConfig := RedisConfig("rate:", true)

  /** The `ValueError`s a constructor raises, one per message. */
  datatype ConfigError =
    | CapacityNotPositive      // "capacity must be > 0"
    | RefillRateNegative       // "refill_rate must be >= 0"
    | WindowNotPositive        // "window_size_ms must be > 0"
    | MaxRequestsNotPositive   // "max_requests must be > 0"

  /** The `ValueError` a token-bucket `check` raises for a request of no tokens
      ("tokens must be > 0"), in memory and against Redis alike. */
  datatype CheckError = TokensNotPositive

  /** The outcome of a constructor's checks: accepted, or the error it raises. */
  datatype Validation = Accepted | Rejected(error: ConfigError)

  /** Capacity is checked before the refill rate, so a config wrong in both ways
      reports the capacity. */
  function CheckTokenBucketConfig(cfg: TokenBucketConfig): (v: Validation)
    ensures v == Accepted <==> cfg.capacity > 0 && cfg.refillRate >= 0.0
    ensures v == Rejected(CapacityNotPositive) <==> cfg.capacity <= 0
    ensures v == Rejected(RefillRateNegative) <==> cfg.capacity > 0 && cfg.refillRate < 0.0
  {
    if cfg.capacity <= 0 then Rejected(CapacityNotPositive)
    else if cfg.refillRate < 0.0 then Rejected(RefillRateNegative)
    else Accepted
  }

  /** The window size is checked before the request limit. */
  function CheckSlidingWindowConfig(cfg: SlidingWindowConfig): (v: Validation)
    ensures v == Accepted <==> cfg.windowSizeMs > 0 && cfg.maxRequests > 0
    ensures v == Rejected(WindowNotPositive) <==> cfg.windowSizeMs <= 0
    ensures v == Rejected(MaxRequestsNotPositive) <==> cfg.windowSizeMs > 0 && cfg.maxRequests <= 0
  {
    if cfg.windowSizeMs <= 0 then Rejected(WindowNotPositive)
    else if cfg.maxRequests <= 0 then Rejected(MaxRequestsNotPositive)
    else Accepted
  }
}
