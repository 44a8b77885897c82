/** The decision value every limiter returns (rate_limiter/results.py), its
    dictionary form, and the conversion of a wait in milliseconds into the
    seconds of an HTTP Retry-After header (section 10.2.3 of RFC 9110). */
module Results {
  import opened Wrappers

  /** Python's `float` for `remaining`: a real amount, or `float("inf")` when a
      failed-open Redis limiter cannot know the count. */
  datatype Remaining = Finite(amount: real) | Unbounded

  datatype Algorithm = TokenBucketAlgorithm | SlidingWindowLog
  datatype Backend = Memory | Redis
  datatype FailMode = FailOpen | FailClosed

  /** The metadata dict, reduced to its tags; the `"error"` text of a failed Redis
      call is not kept. */
  datatype Metadata = Metadata(
    algorithm: Algorithm,
    backend: Backend,
    mode: Option<FailMode>,
    windowSizeMs: Option<int>)

  datatype RateLimitResult = RateLimitResult(
    allowed: bool,
    remaining: Remaining,
    retryAfterMs: int,
    metadata: Metadata)

  /** The values a result's dictionary form holds. */
  datatype DictValue =
    | BoolValue(b: bool)
    | FloatValue(f: Remaining)
    | IntValue(i: int)
    | MetadataValue(m: Metadata)

  const DictKeys: set<string> := {"allowed", "remaining", "retry_after_ms", "metadata"}

  /** `RateLimitResult.to_dict`: one entry per field under the field's Python name. */
  function ToDict(r: RateLimitResult): (d: map<string, DictValue>)
    ensures d.Keys == DictKeys
  {
    map["allowed" := BoolValue(r.allowed),
        "remaining" := FloatValue(r.remaining),
        "retry_after_ms" := IntValue(r.retryAfterMs),
        "metadata" := MetadataValue(r.metadata)]
  }

  /** Reads a result back from its dictionary form, if the form is well shaped. */
  function FromDict(d: map<string, DictValue>): Option<RateLimitResult>
  {
    if DictKeys <= d.Keys
       && d["allowed"].BoolValue? && d["remaining"].FloatValue?
       && d["retry_after_ms"].IntValue? && d["metadata"].MetadataValue?
    then Some(RateLimitResult(d["allowed"].b, d["remaining"].f,
                              d["retry_after_ms"].i, d["metadata"].m))
    else None
  }

  /** `to_dict` loses nothing: every field is carried through unchanged. */
  lemma ToDictRoundTrip(r: RateLimitResult)
    ensures FromDict(ToDict(r)) == Some(r)
  {
  }

  // ---------------------------------------------------------------------------
  // Decimal text of a natural number, as Python's `str` writes it

  predicate IsDigit(c: char) { '0' <= c <= '9' }

  predicate AllDigits(s: string) { forall i :: 0 <= i < |s| ==> IsDigit(s[i]) }

  function DigitChar(d: nat): (c: char)
    requires d < 10
    ensures IsDigit(c) && c as int - '0' as int == d
  {
    ('0' as int + d) as char
  }

  /** `str(n)` for `n >= 0`: decimal digits, most significant first, no leading zero. */
  function DecimalString(n: nat): (s: string)
    ensures |s| >= 1 && AllDigits(s)
    ensures n > 0 ==> s[0] != '0'
    ensures n < 10 <==> |s| == 1
    decreases n
  {
    if n < 10 then [DigitChar(n)] else DecimalString(n / 10) + [DigitChar(n % 10)]
  }

  /** The value a string of decimal digits denotes. */
  function ParseDecimal(s: string): nat
    requires AllDigits(s)
  {
    if s == [] then 0
    else ParseDecimal(s[..|s| - 1]) * 10 + (s[|s| - 1] as int - '0' as int)
  }

  /** Reading back the decimal text of `n` gives `n`. */
  lemma {:induction false} ParseDecimalString(n: nat)
    ensures ParseDecimal(DecimalString(n)) == n
    decreases n
  {
    var s := DecimalString(n);
    if n >= 10 {
      assert s[..|s| - 1] == DecimalString(n / 10);
      ParseDecimalString(n / 10);
    } else {
      assert s[..|s| - 1] == [];
    }
  }

  // ---------------------------------------------------------------------------
  // Retry-After

  /** `retry_after_header_value`: no header for a wait of zero or less; otherwise
      the wait rounded UP to whole seconds, at least one, as decimal text. The
      seconds `s` it carries are the unique whole number with
      `(s - 1) * 1000 < ms <= s * 1000`, so the header never under-reports. */
  function RetryAfterHeaderValue(retryAfterMs: int): (h: Option<string>)
    ensures h.None? <==> retryAfterMs <= 0
    ensures h.Some? ==> |h.value| >= 1 && AllDigits(h.value) && h.value[0] != '0'
    ensures h.Some? ==>
      var s := ParseDecimal(h.value);
      s >= 1 && (s - 1) * 1000 < retryAfterMs <= s * 1000
  {
    if retryAfterMs <= 0 then None
    else
      var seconds := (retryAfterMs + 999) / 1000;
      var clamped := if 1 > seconds then 1 else seconds;
      ParseDecimalString(clamped);
      Some(DecimalString(clamped))
  }

  /** The number of seconds a Retry-After header carries. */
  function HeaderSeconds(h: Option<string>): nat
  {
    if h.Some? && AllDigits(h.value) then ParseDecimal(h.value) else 0
  }

  /** A longer wait never yields a shorter Retry-After. */
  lemma RetryAfterMonotone(a: int, b: int)
    requires 0 < a <= b
    ensures 1 <= HeaderSeconds(RetryAfterHeaderValue(a)) <= HeaderSeconds(RetryAfterHeaderValue(b))
  {
    var sa := HeaderSeconds(RetryAfterHeaderValue(a));
    var sb := HeaderSeconds(RetryAfterHeaderValue(b));
    assert (sa - 1) * 1000 < a && b <= sb * 1000;
  }

  /** Whole seconds: 1000 ms is one second, 1001 ms is two. */
  lemma RetryAfterExamples()
    ensures RetryAfterHeaderValue(0) == None
    ensures RetryAfterHeaderValue(-5) == None
    ensures RetryAfterHeaderValue(1) == Some("1")
    ensures RetryAfterHeaderValue(1000) == Some("1")
    ensures RetryAfterHeaderValue(1001) == Some("2")
    ensures RetryAfterHeaderValue(200) == Some("1")
  {
  }
}
