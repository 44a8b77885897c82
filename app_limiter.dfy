/** The limiter helpers of the HTTP service (app/limiter.py): its own Redis token
    bucket client, the Retry-After conversion, and the choice of the client
    address from proxy headers. */
module AppLimiter {
  import opened Wrappers
  import opened Config
  import Results
  import RedisLimiters

  // ---------------------------------------------------------------------------
  // RedisTokenBucket

  /** The service's result record: no metadata, `tokens_left` instead of `remaining`. */
  datatype AppRateLimitResult = AppRateLimitResult(allowed: bool, tokensLeft: real, retryAfterMs: int)

  /** A configured client: key namespace, capacity, and the refill rate already
      converted to tokens per millisecond. */
  datatype RedisTokenBucket = RedisTokenBucket(keyPrefix: string, capacity: int, refillRatePerMs: real)

  const DefaultKeyPrefix: string := "rl"

  /** Redis could not be reached; `allow` does not catch this, so it reaches the caller. */
  datatype AllowError = StoreUnavailable(timedOut: bool)

  /** `RedisTokenBucket(client, key_prefix=..., capacity=..., refill_rate_per_sec=...)`:
      capacity is checked before the rate; the rate is stored per millisecond. */
  function NewRedisTokenBucket(keyPrefix: string, capacity: int, refillRatePerSec: real)
    : (r: Result<RedisTokenBucket, ConfigError>)
    ensures r.Success? <==> capacity > 0 && refillRatePerSec >= 0.0
    ensures capacity <= 0 ==> r == Failure(CapacityNotPositive)
    ensures capacity > 0 && refillRatePerSec < 0.0 ==> r == Failure(RefillRateNegative)
    ensures r.Success? ==>
      && r.value.keyPrefix == keyPrefix && r.value.capacity == capacity
      && r.value.refillRatePerMs * 1000.0 == refillRatePerSec
      && 0.0 <= r.value.refillRatePerMs
  {
    if capacity <= 0 then Failure(CapacityNotPositive)
    else if refillRatePerSec < 0.0 then Failure(RefillRateNegative)
    else Success(RedisTokenBucket(keyPrefix, capacity, refillRatePerSec / 1000.0))
  }

  /** `_bucket_key`: prefix, a colon, then the caller's key. */
  function BucketKey(b: RedisTokenBucket, key: string): (k: string)
    ensures |k| == |b.keyPrefix| + 1 + |key|
    ensures k[..|b.keyPrefix|] == b.keyPrefix && k[|b.keyPrefix|] == ':'
    ensures k[|b.keyPrefix| + 1..] == key
  {
    b.keyPrefix + ":" + key
  }

  /** Under one prefix, distinct keys get distinct bucket keys. */
  lemma BucketKeyInjective(b: RedisTokenBucket, x: string, y: string)
    requires BucketKey(b, x) == BucketKey(b, y)
    ensures x == y
  {
    var k := BucketKey(b, x);
    assert x == k[|b.keyPrefix| + 1..] == y;
  }

  /** `allow(key=..., tokens=...)` at `nowMs`: runs the script once on the bucket
      key. A reply is passed through; a connection or timeout failure is raised to
      the caller, since this client has no failure mode. `tokens` is not checked. */
  function Allow(b: RedisTokenBucket, key: string, tokens: int, nowMs: int, run: RedisLimiters.Executor)
    : (r: Result<AppRateLimitResult, AllowError>)
    ensures var reply := run(BucketKey(b, key), RedisLimiters.TokenBucketArgs(nowMs, b.capacity, b.refillRatePerMs, tokens));
      && (r.Success? <==> reply.Reply?)
      && (r.Success? ==> r.value == AppRateLimitResult(reply.allowed != 0, reply.value, reply.retryAfterMs))
      && (r.Failure? ==> r.error.timedOut == reply.TimeoutError?)
  {
    var reply := run(BucketKey(b, key), RedisLimiters.TokenBucketArgs(nowMs, b.capacity, b.refillRatePerMs, tokens));
    match reply
    case Reply(allowed, left, retryAfterMs) => Success(AppRateLimitResult(allowed != 0, left, retryAfterMs))
    case ConnectionError => Failure(StoreUnavailable(false))
    case TimeoutError => Failure(StoreUnavailable(true))
  }

  /** Built from the same capacity and per-second rate, the service's client sends
      the token-bucket script exactly the arguments the library's client sends. */
  lemma SameScriptArgsAsLibrary(keyPrefix: string, capacity: int, ratePerSec: real, nowMs: int, tokens: int)
    requires NewRedisTokenBucket(keyPrefix, capacity, ratePerSec).Success?
    ensures var b := NewRedisTokenBucket(keyPrefix, capacity, ratePerSec).value;
      RedisLimiters.TokenBucketArgs(nowMs, b.capacity, b.refillRatePerMs, tokens)
      == RedisLimiters.TokenBucketScriptArgs(TokenBucketConfig(capacity, ratePerSec), nowMs, tokens)
  {
  }

  /** Under the default prefix "rl", a key `k` is stored as "rl:" followed by `k`. */
  lemma DefaultBucketKey(capacity: int, ratePerSec: real, key: string)
    requires NewRedisTokenBucket(DefaultKeyPrefix, capacity, ratePerSec).Success?
    ensures BucketKey(NewRedisTokenBucket(DefaultKeyPrefix, capacity, ratePerSec).value, key) == "rl:" + key
  {
  }

  // ---------------------------------------------------------------------------
  // Retry-After

  /** The service's copy of `retry_after_header_value`. */
  function RetryAfterHeaderValue(retryAfterMs: int): (h: Option<string>)
    ensures h.None? <==> retryAfterMs <= 0
  {
    if retryAfterMs <= 0 then None
    else
      var seconds := (retryAfterMs + 999) / 1000;
      var clamped := if 1 > seconds then 1 else seconds;
      Some(Results.DecimalString(clamped))
  }

  /** It agrees with the library's everywhere. */
  lemma RetryAfterMatchesLibrary(retryAfterMs: int)
    ensures RetryAfterHeaderValue(retryAfterMs) == Results.RetryAfterHeaderValue(retryAfterMs)
  {
  }

  // ---------------------------------------------------------------------------
  // Client address

  /** Python's `str.isspace` for one character, the set `str.strip()` removes. */
  predicate IsSpace(c: char)
  {
    var n := c as int;
    || 9 <= n <= 13 || 28 <= n <= 32 || n == 0x85 || n == 0xA0 || n == 0x1680
    || 0x2000 <= n <= 0x200A || n == 0x2028 || n == 0x2029 || n == 0x202F
    || n == 0x205F || n == 0x3000
  }

  /** Among ASCII characters, the whitespace is tab, line feed, vertical tab, form
      feed, carriage return, the four separators 0x1C-0x1F and space. */
  lemma AsciiSpaces()
    ensures forall c: char | c as int < 128 ::
      IsSpace(c) <==> c in {'\t', '\n', '\U{000B}', '\U{000C}', '\r', '\U{001C}', '\U{001D}', '\U{001E}', '\U{001F}', ' '}
  {
  }

  /** How many characters at the front of `s` are whitespace. */
  function LeadingSpaces(s: string): (n: nat)
    ensures n <= |s|
    ensures forall i :: 0 <= i < n ==> IsSpace(s[i])
    ensures n < |s| ==> !IsSpace(s[n])
    decreases |s|
  {
    if s != [] && IsSpace(s[0]) then 1 + LeadingSpaces(s[1..]) else 0
  }

  /** How many characters at the end of `s` are whitespace. */
  function TrailingSpaces(s: string): (n: nat)
    ensures n <= |s|
    ensures forall i :: |s| - n <= i < |s| ==> IsSpace(s[i])
    ensures n < |s| ==> !IsSpace(s[|s| - 1 - n])
    decreases |s|
  {
    if s != [] && IsSpace(s[|s| - 1]) then 1 + TrailingSpaces(s[..|s| - 1]) else 0
  }

  /** `str.strip()`. */
  function Strip(s: string): (r: string)
    ensures |r| <= |s|
    ensures r == [] || (!IsSpace(r[0]) && !IsSpace(r[|r| - 1]))
  {
    var t := s[LeadingSpaces(s)..];
    t[..|t| - TrailingSpaces(t)]
  }

  /** `strip()` removes whitespace from both ends and nothing else: the result is
      the stretch of `s` between some whitespace-only ends, and it neither starts
      nor ends with whitespace; a string of whitespace only strips to "". */
  lemma StripSpec(s: string)
    ensures var r := Strip(s);
      exists a, b :: 0 <= a <= b <= |s| && r == s[a..b]
        && (forall i :: 0 <= i < a ==> IsSpace(s[i]))
        && (forall i :: b <= i < |s| ==> IsSpace(s[i]))
    ensures Strip(s) == [] || (!IsSpace(Strip(s)[0]) && !IsSpace(Strip(s)[|Strip(s)| - 1]))
    ensures (forall i :: 0 <= i < |s| ==> IsSpace(s[i])) <==> Strip(s) == []
  {
    var a := LeadingSpaces(s);
    var t := s[a..];
    var b := a + |t| - TrailingSpaces(t);
    assert Strip(s) == s[a..b];
    assert forall i :: b <= i < |s| ==> IsSpace(s[i]) by {
      forall i | b <= i < |s| ensures IsSpace(s[i]) {
        assert s[i] == t[i - a];
      }
    }
    if Strip(s) == [] {
      assert TrailingSpaces(t) == |t|;
    } else {
      assert Strip(s)[0] == t[0];
    }
  }

  /** How many characters come before the first comma (all of them if none). */
  function CommaIndex(s: string): (n: nat)
    ensures n <= |s|
    ensures forall i :: 0 <= i < n ==> s[i] != ','
    ensures n < |s| ==> s[n] == ','
    decreases |s|
  {
    if s == [] || s[0] == ',' then 0 else 1 + CommaIndex(s[1..])
  }

  /** `s.split(",")[0]`: everything before the first comma. */
  function FirstSegment(s: string): (r: string)
    ensures ',' !in r
    ensures |r| <= |s| && r == s[..|r|]
    ensures |r| == |s| || s[|r|] == ','
  {
    s[..CommaIndex(s)]
  }

  /** `client_ip_from_headers`: a non-empty `X-Real-IP` wins; otherwise the
      left-most entry of a non-empty `X-Forwarded-For`; otherwise the fallback. */
  function ClientIpFromHeaders(xForwardedFor: Option<string>, xRealIp: Option<string>, fallback: string): (ip: string)
    ensures xRealIp.Some? && xRealIp.value != "" ==> ip == Strip(xRealIp.value)
    ensures (xRealIp.None? || xRealIp.value == "") && xForwardedFor.Some? && xForwardedFor.value != ""
            ==> ip == Strip(FirstSegment(xForwardedFor.value)) && ',' !in ip
    ensures (xRealIp.None? || xRealIp.value == "") && (xForwardedFor.None? || xForwardedFor.value == "")
            ==> ip == fallback
  {
    if xRealIp.Some? && xRealIp.value != "" then Strip(xRealIp.value)
    else if xForwardedFor.Some? && xForwardedFor.value != "" then Strip(FirstSegment(xForwardedFor.value))
    else fallback
  }

  /** A non-empty `X-Real-IP` decides alone, stripped, even when it is only
      whitespace (then the address is "" rather than the next header). */
  lemma RealIpWins(xForwardedFor: Option<string>, realIp: string, fallback: string)
    requires realIp != ""
    ensures ClientIpFromHeaders(xForwardedFor, Some(realIp), fallback) == Strip(realIp)
    ensures (forall i :: 0 <= i < |realIp| ==> IsSpace(realIp[i]))
            ==> ClientIpFromHeaders(xForwardedFor, Some(realIp), fallback) == ""
  {
    StripSpec(realIp);
  }

  /** Without `X-Real-IP`, a non-empty `X-Forwarded-For` gives its left-most
      comma-separated entry, stripped; the address never contains a comma. */
  lemma ForwardedForLeftMost(xRealIp: Option<string>, forwardedFor: string, fallback: string)
    requires xRealIp.None? || xRealIp.value == ""
    requires forwardedFor != ""
    ensures var ip := ClientIpFromHeaders(Some(forwardedFor), xRealIp, fallback);
      && ip == Strip(FirstSegment(forwardedFor))
      && ',' !in ip
  {
    var seg := FirstSegment(forwardedFor);
    StripSpec(seg);
    var ip := Strip(seg);
    var a, b :| 0 <= a <= b <= |seg| && ip == seg[a..b];
    assert forall i :: 0 <= i < |ip| ==> ip[i] == seg[a + i];
  }

  /** With neither header present (or both empty) the fallback is returned as it is. */
  lemma FallbackWhenNoHeaders(xForwardedFor: Option<string>, xRealIp: Option<string>, fallback: string)
    requires xForwardedFor.None? || xForwardedFor.value == ""
    requires xRealIp.None? || xRealIp.value == ""
    ensures ClientIpFromHeaders(xForwardedFor, xRealIp, fallback) == fallback
  {
  }

  /** `X-Real-IP` beats any `X-Forwarded-For`, even when it holds only spaces. */
  lemma RealIpExample(xForwardedFor: Option<string>)
    ensures ClientIpFromHeaders(xForwardedFor, Some(" 10.0.0.2 "), "unknown") == "10.0.0.2"
    ensures ClientIpFromHeaders(xForwardedFor, Some("  "), "unknown") == ""
  {
    StripPadded();
    RealIpWins(xForwardedFor, "  ", "unknown");
  }

  /** One space on each side of an address is stripped. */
  lemma StripPadded()
    ensures Strip(" 10.0.0.2 ") == "10.0.0.2"
  {
    assert " 10.0.0.2 " == [' '] + "10.0.0.2" + [' '];
    StripOneSpaceEachSide("10.0.0.2");
  }

  /** A value that neither starts nor ends with whitespace, padded with one space
      on each side, strips back to itself. */
  lemma StripOneSpaceEachSide(x: string)
    requires x != [] && !IsSpace(x[0]) && !IsSpace(x[|x| - 1])
    ensures Strip([' '] + x + [' ']) == x
  {
    var s := [' '] + x + [' '];
    assert LeadingSpaces(s) == 1 by {
      assert s[1..][0] == x[0];
    }
    assert s[1..] == x + [' '];
    assert TrailingSpaces(x + [' ']) == 1 by {
      assert (x + [' '])[..|x|] == x;
    }
  }

}
