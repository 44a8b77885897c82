/** The in-process token bucket of rate_limiter/in_memory.py (`TokenBucketLimiter`).

    Each key owns a bucket of at most `capacity` tokens, refilled continuously at
    `refillRate` tokens per second; a request for `tokens` tokens is admitted when
    that many are in the bucket and then takes them. Time is the process's
    monotonic clock in seconds, passed in as `now`. The per-key lock of the source
    only makes one `Check` indivisible, which a single method call already is. */
module InMemoryTokenBucket {
  import opened Wrappers
  import opened Config
  import opened Results

  /** What the limiter stores per key: the tokens left and the time, in seconds,
      of the last refill. */
  datatype Bucket = Bucket(tokens: real, ts: real)

  /** One decision: the bucket written back and the result returned. */
  datatype Step = Step(bucket: Bucket, result: RateLimitResult)

  const Meta := Metadata(TokenBucketAlgorithm, Memory, None, None)

  predicate InBounds(cfg: TokenBucketConfig, b: Bucket)
  {
    0.0 <= b.tokens <= cfg.capacity as real
  }

  /** `math.ceil`: the least integer not below `x`. */
  function Ceil(x: real): (c: int)
    ensures c as real - 1.0 < x <= c as real
  {
    -((-x).Floor)
  }

  /** `max(0.0, now - ts)`: time that has passed, never negative. */
  function Elapsed(ts: real, now: real): (d: real)
    ensures d >= 0.0
    ensures d > 0.0 <==> now > ts
    ensures now > ts ==> d == now - ts
  {
    if now - ts > 0.0 then now - ts else 0.0
  }

  function MinReal(a: real, b: real): real
  {
    if a <= b then a else b
  }

  /** The bucket a key is decided from: the stored one, or a full bucket stamped
      `now` for a key seen for the first time. */
  function Start(cfg: TokenBucketConfig, stored: Option<Bucket>, now: real): Bucket
  {
    if stored.None? then Bucket(cfg.capacity as real, now) else stored.value
  }

  /** Adds the tokens earned since `b.ts`, up to the capacity. The timestamp moves
      to `now` only when something was added. */
  function Refill(cfg: TokenBucketConfig, b: Bucket, now: real): (r: Bucket)
    ensures r == b || (now > b.ts && r.ts == now)
    ensures InBounds(cfg, b) ==> InBounds(cfg, r) && b.tokens <= r.tokens
  {
    var refill := Elapsed(b.ts, now) * cfg.refillRate;
    if refill > 0.0 then Bucket(MinReal(cfg.capacity as real, b.tokens + refill), now) else b
  }

  /** Milliseconds until `missing` tokens have been earned, rounded up; 0 when the
      bucket never refills. */
  function WaitMs(cfg: TokenBucketConfig, missing: real): int
  {
    if cfg.refillRate > 0.0 then Ceil(missing / cfg.refillRate * 1000.0) else 0
  }

  /** The decision `check` makes for a request of `tokens` tokens at time `now`
      against the stored bucket of its key. */
  function TokenBucketStep(cfg: TokenBucketConfig, stored: Option<Bucket>, now: real, tokens: int): (s: Step)
    ensures s.result.remaining == Finite(s.bucket.tokens) && s.result.metadata == Meta
    ensures s.bucket.ts == Refill(cfg, Start(cfg, stored, now), now).ts
    ensures s.result.allowed ==>
      && s.result.retryAfterMs == 0
      && s.bucket.tokens + tokens as real == Refill(cfg, Start(cfg, stored, now), now).tokens
    ensures !s.result.allowed ==> s.bucket == Refill(cfg, Start(cfg, stored, now), now)
  {
    var b := Refill(cfg, Start(cfg, stored, now), now);
    if b.tokens >= tokens as real then
      var left := b.tokens - tokens as real;
      Step(Bucket(left, b.ts), RateLimitResult(true, Finite(left), 0, Meta))
    else
      Step(b, RateLimitResult(false, Finite(b.tokens), WaitMs(cfg, tokens as real - b.tokens), Meta))
  }

  // ---------------------------------------------------------------------------
  // Properties of one decision

  /** Tokens stay within `[0, capacity]`, and the result reports what is left. */
  lemma StepKeepsBounds(cfg: TokenBucketConfig, stored: Option<Bucket>, now: real, tokens: int)
    requires CheckTokenBucketConfig(cfg) == Accepted
    requires tokens > 0
    requires stored.Some? ==> InBounds(cfg, stored.value)
    ensures InBounds(cfg, TokenBucketStep(cfg, stored, now, tokens).bucket)
    ensures TokenBucketStep(cfg, stored, now, tokens).result.remaining
            == Finite(TokenBucketStep(cfg, stored, now, tokens).bucket.tokens)
  {
  }

  /** A key seen for the first time starts full at `now`: it is admitted iff the
      request fits in the capacity. */
  lemma NewKeyStartsFull(cfg: TokenBucketConfig, now: real, tokens: int)
    requires CheckTokenBucketConfig(cfg) == Accepted
    ensures var s := TokenBucketStep(cfg, None, now, tokens);
      && s.bucket.ts == now
      && (s.result.allowed <==> tokens <= cfg.capacity)
      && s.bucket.tokens == (if s.result.allowed then (cfg.capacity - tokens) as real else cfg.capacity as real)
  {
  }

  /** A clock that stands still or runs backwards adds nothing, takes nothing and
      leaves the timestamp where it was. */
  lemma BackwardClockChangesNothing(cfg: TokenBucketConfig, b: Bucket, now: real)
    requires now <= b.ts
    ensures Refill(cfg, b, now) == b
  {
  }

  /** An idle bucket observed at `b.ts` and again at `now > b.ts` holds
      `min(capacity, tokens + (now - ts) * rate)` and is stamped `now`. */
  lemma RefillAfterElapsed(cfg: TokenBucketConfig, b: Bucket, now: real)
    requires cfg.refillRate > 0.0
    requires now > b.ts
    ensures Refill(cfg, b, now)
            == Bucket(MinReal(cfg.capacity as real, b.tokens + (now - b.ts) * cfg.refillRate), now)
  {
  }

  /** With a refill rate of zero the stored timestamp never moves and no token is
      ever added. */
  lemma ZeroRateFreezesBucket(cfg: TokenBucketConfig, b: Bucket, now: real, tokens: int)
    requires cfg.refillRate == 0.0
    requires tokens > 0
    ensures Refill(cfg, b, now) == b
    ensures TokenBucketStep(cfg, Some(b), now, tokens).bucket.ts == b.ts
    ensures TokenBucketStep(cfg, Some(b), now, tokens).bucket.tokens <= b.tokens
  {
  }

  /** Admission happens iff the refilled bucket holds the requested tokens. On
      admission exactly those tokens are taken and the wait is 0; on denial the
      refilled bucket is kept as it is, and the wait is the time to earn the
      missing tokens, at least 1 ms, or 0 when the bucket never refills. */
  lemma AdmissionIff(cfg: TokenBucketConfig, stored: Option<Bucket>, now: real, tokens: int)
    requires CheckTokenBucketConfig(cfg) == Accepted
    ensures var b := Refill(cfg, Start(cfg, stored, now), now);
      var s := TokenBucketStep(cfg, stored, now, tokens);
      && (s.result.allowed <==> b.tokens >= tokens as real)
      && (s.result.allowed ==> s.bucket == Bucket(b.tokens - tokens as real, b.ts) && s.result.retryAfterMs == 0)
      && (!s.result.allowed ==> s.bucket == b)
      && (!s.result.allowed && cfg.refillRate > 0.0 ==>
            s.result.retryAfterMs >= 1
            && (s.result.retryAfterMs - 1) as real < (tokens as real - b.tokens) / cfg.refillRate * 1000.0
            && (tokens as real - b.tokens) / cfg.refillRate * 1000.0 <= s.result.retryAfterMs as real)
      && (!s.result.allowed && cfg.refillRate == 0.0 ==> s.result.retryAfterMs == 0)
  {
    var b := Refill(cfg, Start(cfg, stored, now), now);
    if b.tokens < tokens as real && cfg.refillRate > 0.0 {
      var missing := tokens as real - b.tokens;
      assert missing / cfg.refillRate > 0.0;
    }
  }

  /** The wait reported for `missing` tokens is the least whole number of
      milliseconds in which the refill earns them; with no refill it is 0. */
  lemma WaitMsIsLeast(cfg: TokenBucketConfig, missing: real)
    ensures cfg.refillRate <= 0.0 ==> WaitMs(cfg, missing) == 0
    ensures cfg.refillRate > 0.0 ==>
      var w := WaitMs(cfg, missing);
      && w as real * cfg.refillRate >= missing * 1000.0
      && (w - 1) as real * cfg.refillRate < missing * 1000.0
  {
    if cfg.refillRate > 0.0 {
      var x := missing / cfg.refillRate * 1000.0;
      TimeToEarn(missing, cfg.refillRate);
      LeastCover(WaitMs(cfg, missing), x, cfg.refillRate, missing * 1000.0);
    }
  }

  /** `missing / rate * 1000` milliseconds at `rate` tokens per second earn
      exactly `missing` tokens (both sides scaled by 1000). */
  lemma TimeToEarn(missing: real, rate: real)
    requires rate > 0.0
    ensures (missing / rate * 1000.0) * rate == missing * 1000.0
  {
    assert (missing / rate) * rate == missing;
  }

  /** A ceiling `w` of `x`, scaled by a positive factor, covers `x`'s product and
      `w - 1` does not. */
  lemma LeastCover(w: int, x: real, k: real, target: real)
    requires k > 0.0 && (w - 1) as real < x <= w as real && x * k == target
    ensures w as real * k >= target && (w - 1) as real * k < target
  {
    ScaleWeak(x, w as real, k);
    ScaleStrict((w - 1) as real, x, k);
  }

  /** Multiplying both sides by a positive factor keeps a weak order. */
  lemma ScaleWeak(a: real, b: real, k: real)
    requires k > 0.0 && a <= b
    ensures a * k <= b * k
  {
    assert b * k - a * k == (b - a) * k;
  }

  /** Multiplying both sides by a positive factor keeps a strict order. */
  lemma ScaleStrict(a: real, b: real, k: real)
    requires k > 0.0 && a < b
    ensures a * k < b * k
  {
    assert b * k - a * k == (b - a) * k;
  }

  /** With no refill a denial reports a wait of 0, which means no estimate: the
      same request stays denied at every later time. */
  lemma ZeroRateWaitIsNoEstimate(cfg: TokenBucketConfig, b: Bucket, now: real, tokens: int)
    requires cfg.refillRate == 0.0
    requires !TokenBucketStep(cfg, Some(b), now, tokens).result.allowed
    ensures var s := TokenBucketStep(cfg, Some(b), now, tokens);
      && s.result.retryAfterMs == 0
      && forall later: real :: !TokenBucketStep(cfg, Some(s.bucket), later, tokens).result.allowed
  {
    var s := TokenBucketStep(cfg, Some(b), now, tokens);
    forall later: real
      ensures !TokenBucketStep(cfg, Some(s.bucket), later, tokens).result.allowed
    {
      assert Refill(cfg, s.bucket, later) == s.bucket;
    }
  }

  /** Waiting at least `missing / rate` earns at least `missing` tokens. */
  lemma WaitEarnsMissing(wait: real, missing: real, rate: real)
    requires rate > 0.0 && wait >= missing / rate
    ensures wait * rate >= missing
  {
    var extra := wait - missing / rate;
    assert extra >= 0.0;
    assert extra * rate >= 0.0;
    assert (missing / rate) * rate == missing;
    assert wait * rate == extra * rate + (missing / rate) * rate;
  }

  /** Waiting the reported `retryAfterMs` is enough: with a positive refill rate,
      a stored bucket within `[0, capacity]` and a clock not behind its timestamp,
      a denied request that fits in the bucket at all is admitted when it is made
      again that much later. (With rate 0 the wait reported is 0, meaning no
      estimate, and the request stays denied.) */
  lemma RetryAfterSuffices(cfg: TokenBucketConfig, b: Bucket, now: real, tokens: int)
    requires CheckTokenBucketConfig(cfg) == Accepted && cfg.refillRate > 0.0
    requires InBounds(cfg, b) && b.ts <= now
    requires 0 < tokens <= cfg.capacity
    requires !TokenBucketStep(cfg, Some(b), now, tokens).result.allowed
    ensures var s := TokenBucketStep(cfg, Some(b), now, tokens);
      s.result.retryAfterMs >= 1
      && TokenBucketStep(cfg, Some(s.bucket), now + s.result.retryAfterMs as real / 1000.0, tokens).result.allowed
  {
    var rate := cfg.refillRate;
    var b1 := Refill(cfg, b, now);
    var s := TokenBucketStep(cfg, Some(b), now, tokens);
    assert s.bucket == b1;
    assert b1.ts == now by {
      if Elapsed(b.ts, now) * rate <= 0.0 {
        assert Elapsed(b.ts, now) == 0.0;
      }
    }
    var missing := tokens as real - b1.tokens;
    assert missing > 0.0;
    AdmissionIff(cfg, Some(b), now, tokens);
    var retry := s.result.retryAfterMs;
    var wait := retry as real / 1000.0;
    assert missing / rate * 1000.0 <= retry as real;
    assert wait >= missing / rate;
    assert Elapsed(b1.ts, now + wait) == wait;
    WaitEarnsMissing(wait, missing, rate);
    var b2 := Refill(cfg, b1, now + wait);
    assert b2.tokens >= tokens as real;
  }

  /** The wait needs a clock not behind the stored time. A check whose `now` is
      before the bucket's timestamp (it read the clock before another check on the
      key took the lock and stamped a later time) earns nothing, and the wait it
      reports, counted from its own `now`, is too short. */
  lemma BackwardClockUnderReports()
    ensures var cfg := TokenBucketConfig(1, 1.0);
      var s := TokenBucketStep(cfg, Some(Bucket(0.0, 10.0)), 9.0, 1);
      && !s.result.allowed && s.result.retryAfterMs == 1000
      && s.bucket == Bucket(0.0, 10.0)
      && !TokenBucketStep(cfg, Some(s.bucket), 9.0 + s.result.retryAfterMs as real / 1000.0, 1).result.allowed
  {
    var cfg := TokenBucketConfig(1, 1.0);
    assert Elapsed(10.0, 9.0) == 0.0;
    assert WaitMs(cfg, 1.0) == 1000;
    assert Elapsed(10.0, 10.0) == 0.0;
  }

  /** A request for more than the capacity is never admitted, however long the
      caller waits, although a positive refill rate still reports a finite wait. */
  lemma OversizedRequestNeverAdmitted(cfg: TokenBucketConfig, stored: Option<Bucket>, now: real, tokens: int)
    requires CheckTokenBucketConfig(cfg) == Accepted
    requires stored.Some? ==> InBounds(cfg, stored.value)
    requires tokens > cfg.capacity
    ensures !TokenBucketStep(cfg, stored, now, tokens).result.allowed
    ensures cfg.refillRate > 0.0 ==> TokenBucketStep(cfg, stored, now, tokens).result.retryAfterMs >= 1
  {
    AdmissionIff(cfg, stored, now, tokens);
  }

  // ---------------------------------------------------------------------------
  // Sequences of decisions on one key

  /** The admissions of successive requests for `tokens` tokens made at `nows`. */
  function Decisions(cfg: TokenBucketConfig, stored: Option<Bucket>, nows: seq<real>, tokens: int): (d: seq<bool>)
    ensures |d| == |nows|
    decreases |nows|
  {
    if nows == [] then []
    else
      var s := TokenBucketStep(cfg, stored, nows[0], tokens);
      [s.result.allowed] + Decisions(cfg, Some(s.bucket), nows[1..], tokens)
  }

  /** With no refill, a bucket holding `k` whole tokens admits exactly the first
      `k` single-token requests, whenever they are made, and denies the rest. */
  lemma {:induction false} ZeroRateAdmitsFirstK(cfg: TokenBucketConfig, k: nat, ts: real, nows: seq<real>)
    requires cfg.refillRate == 0.0
    ensures Decisions(cfg, Some(Bucket(k as real, ts)), nows, 1) == seq(|nows|, i => i < k)
    decreases |nows|
  {
    if nows != [] {
      var s := TokenBucketStep(cfg, Some(Bucket(k as real, ts)), nows[0], 1);
      var k' := if k > 0 then k - 1 else 0;
      assert s.bucket == Bucket(k' as real, ts);
      ZeroRateAdmitsFirstK(cfg, k', ts, nows[1..]);
      assert Decisions(cfg, Some(Bucket(k as real, ts)), nows, 1) == [k > 0] + seq(|nows| - 1, i => i < k');
    }
  }

  /** No overspend: `capacity + 1` single-token requests against a new key that
      never refills see exactly `capacity` admissions and one denial. */
  lemma ZeroRateNoOverspend(cfg: TokenBucketConfig, nows: seq<real>)
    requires CheckTokenBucketConfig(cfg) == Accepted && cfg.refillRate == 0.0
    requires |nows| == cfg.capacity + 1
    ensures Decisions(cfg, None, nows, 1) == seq(cfg.capacity, i => true) + [false]
  {
    var s := TokenBucketStep(cfg, None, nows[0], 1);
    assert s.bucket == Bucket((cfg.capacity - 1) as real, nows[0]);
    ZeroRateAdmitsFirstK(cfg, cfg.capacity - 1, nows[0], nows[1..]);
    assert Decisions(cfg, None, nows, 1) == [true] + seq(|nows| - 1, i => i < cfg.capacity - 1);
  }

  /** Capacity 3 and no refill: three requests pass and the fourth is refused. */
  lemma BurstThenThrottle(t0: real, t1: real, t2: real, t3: real)
    ensures Decisions(TokenBucketConfig(3, 0.0), None, [t0, t1, t2, t3], 1) == [true, true, true, false]
  {
    ZeroRateNoOverspend(TokenBucketConfig(3, 0.0), [t0, t1, t2, t3]);
  }

  /** Capacity 1 refilled at 10 tokens per second: a request passes, a second one
      less than 100 ms later is refused, and one made once 100 ms have passed since
      the first is admitted again. */
  lemma RefillsOverTime(t0: real, t1: real, t2: real)
    requires t0 <= t1 < t0 + 0.1 && t0 + 0.1 <= t2
    ensures Decisions(TokenBucketConfig(1, 10.0), None, [t0, t1, t2], 1) == [true, false, true]
  {
    var cfg := TokenBucketConfig(1, 10.0);
    var s0 := TokenBucketStep(cfg, None, t0, 1);
    assert s0.bucket == Bucket(0.0, t0) && s0.result.allowed;
    var s1 := TokenBucketStep(cfg, Some(s0.bucket), t1, 1);
    assert !s1.result.allowed;
    assert s1.bucket.ts == t1 && s1.bucket.tokens == (t1 - t0) * 10.0;
    var s2 := TokenBucketStep(cfg, Some(s1.bucket), t2, 1);
    assert s2.result.allowed;
    assert Decisions(cfg, Some(s1.bucket), [t2], 1) == [true];
    assert [t1, t2][1..] == [t2];
    assert Decisions(cfg, Some(s0.bucket), [t1, t2], 1) == [false, true];
    assert [t0, t1, t2][1..] == [t1, t2];
  }

  // ---------------------------------------------------------------------------
  // The limiter object

  /** The body of `check` on one key, for a request of `tokens > 0` tokens:
      start from the stored bucket (or a full one), refill, then take the tokens
      or work out the wait. Returns the bucket to store and the result. */
  method CheckBucket(cfg: TokenBucketConfig, stored: Option<Bucket>, now: real, tokens: int)
    returns (b: Bucket, r: RateLimitResult)
    ensures Step(b, r) == TokenBucketStep(cfg, stored, now, tokens)
  {
    var currentTokens: real;
    var ts: real;
    if stored.None? {
      currentTokens := cfg.capacity as real;
      ts := now;
    } else {
      currentTokens := stored.value.tokens;
      ts := stored.value.ts;
    }
    var delta := Elapsed(ts, now);
    var refill := delta * cfg.refillRate;
    if refill > 0.0 {
      currentTokens := MinReal(cfg.capacity as real, currentTokens + refill);
      ts := now;
    }
    assert Bucket(currentTokens, ts) == Refill(cfg, Start(cfg, stored, now), now);
    var allowed := currentTokens >= tokens as real;
    var retryAfterMs := 0;
    if allowed {
      currentTokens := currentTokens - tokens as real;
    } else {
      var missing := tokens as real - currentTokens;
      if cfg.refillRate > 0.0 {
        retryAfterMs := Ceil(missing / cfg.refillRate * 1000.0);
      }
    }
    b := Bucket(currentTokens, ts);
    r := RateLimitResult(allowed, Finite(currentTokens), retryAfterMs, Meta);
  }

  /** The class invariant on the whole table: every key's bucket is in bounds. */
  ghost predicate AllInBounds(cfg: TokenBucketConfig, m: map<string, Bucket>)
  {
    forall k :: k in m ==> InBounds(cfg, m[k])
  }

  /** Storing an in-bounds bucket for one key keeps the table in bounds. */
  lemma StoreKeepsInBounds(cfg: TokenBucketConfig, m: map<string, Bucket>, key: string, b: Bucket)
    requires AllInBounds(cfg, m) && InBounds(cfg, b)
    ensures AllInBounds(cfg, m[key := b])
  {
  }

  class TokenBucketLimiter {
    const cfg: TokenBucketConfig
    /** key -> (tokens, ts); entries are never removed. */
    var state: map<string, Bucket>

    ghost predicate Valid()
      reads this
    {
      && CheckTokenBucketConfig(cfg) == Accepted
      && AllInBounds(cfg, state)
    }

    constructor (cfg: TokenBucketConfig)
      requires CheckTokenBucketConfig(cfg) == Accepted
      ensures Valid() && this.cfg == cfg && state == map[]
    {
      this.cfg := cfg;
      state := map[];
    }

    /** `check(key, tokens)` at time `now`: rejects a request for no tokens without
        touching any state; otherwise decides, writes the key's bucket back
        whether or not it admitted, and leaves every other key as it was. */
    method Check(key: string, tokens: int, now: real) returns (r: Result<RateLimitResult, CheckError>)
      requires Valid()
      modifies this
      ensures Valid()
      ensures tokens <= 0 ==> r == Failure(TokensNotPositive) && state == old(state)
      ensures tokens > 0 ==>
        var s := TokenBucketStep(cfg, Get(old(state), key), now, tokens);
        r == Success(s.result) && state == old(state)[key := s.bucket]
    {
      if tokens <= 0 {
        return Failure(TokensNotPositive);
      }
      var stored := Get(state, key);
      StepKeepsBounds(cfg, stored, now, tokens);
      var b, res := CheckBucket(cfg, stored, now, tokens);
      StoreKeepsInBounds(cfg, state, key, b);
      state := state[key := b];
      r := Success(res);
    }

    /** `allow(key, tokens)`: the `allowed` flag of `check`, with the same effect. */
    method Allow(key: string, tokens: int, now: real) returns (r: Result<bool, CheckError>)
      requires Valid()
      modifies this
      ensures Valid()
      ensures tokens <= 0 ==> r == Failure(TokensNotPositive) && state == old(state)
      ensures tokens > 0 ==>
        var s := TokenBucketStep(cfg, Get(old(state), key), now, tokens);
        r == Success(s.result.allowed) && state == old(state)[key := s.bucket]
    {
      var c := Check(key, tokens, now);
      r := if c.Success? then Success(c.value.allowed) else Failure(c.error);
    }
  }

  /** `TokenBucketLimiter(config)`: raises on a non-positive capacity or a negative
      refill rate, and otherwise starts with no stored keys. */
  method NewTokenBucketLimiter(cfg: TokenBucketConfig) returns (r: Result<TokenBucketLimiter, ConfigError>)
    ensures r.Failure? ==> CheckTokenBucketConfig(cfg) == Rejected(r.error)
    ensures r.Success? ==> CheckTokenBucketConfig(cfg) == Accepted
    ensures r.Success? ==> fresh(r.value) && r.value.Valid() && r.value.cfg == cfg && r.value.state == map[]
  {
    var v := CheckTokenBucketConfig(cfg);
    if v.Rejected? {
      return Failure(v.error);
    }
    var lim := new TokenBucketLimiter(cfg);
    r := Success(lim);
  }
}
