/** The in-process sliding-window log of rate_limiter/in_memory.py
    (`SlidingWindowLimiter`).

    Each key owns a log of the millisecond times of its admitted requests, oldest
    first. A check first drops from the front every time at or before
    `now - windowSizeMs`, then admits and logs `now` when fewer than `maxRequests`
    times are left. Time is the process's monotonic clock in whole milliseconds,
    passed in as `nowMs`. */
module InMemorySlidingWindow {
  import opened Wrappers
  import opened Config
  import opened Results

  /** One decision: the log written back and the result returned. */
  datatype Step = Step(log: seq<int>, result: RateLimitResult)

  function Meta(cfg: SlidingWindowConfig): Metadata
  {
    Metadata(SlidingWindowLog, Memory, None, Some(cfg.windowSizeMs))
  }

  /** Entries `i <= j` of `q`, when both exist, are in order. */
  predicate InOrder(q: seq<int>, i: int, j: int)
  {
    0 <= i <= j < |q| ==> q[i] <= q[j]
  }

  /** Oldest first. Stated through `InOrder` so that a proof uses sortedness only
      at the pairs of indices it names. */
  predicate Sorted(q: seq<int>)
  {
    forall i, j :: 0 <= i <= j < |q| ==> InOrder(q, i, j)
  }

  /** The log invariant the limiter keeps for every key. */
  predicate WellFormed(cfg: SlidingWindowConfig, q: seq<int>)
  {
    Sorted(q) && |q| <= cfg.maxRequests
  }

  /** The clock has not run backwards past the newest logged time. */
  predicate NotAfter(q: seq<int>, nowMs: int)
  {
    q == [] || q[|q| - 1] <= nowMs
  }

  /** Every logged time lies in the window `(nowMs - windowSizeMs, nowMs]`. */
  predicate InWindow(cfg: SlidingWindowConfig, q: seq<int>, nowMs: int)
  {
    forall i :: 0 <= i < |q| ==> nowMs - cfg.windowSizeMs < q[i] <= nowMs
  }

  function MaxInt(a: int, b: int): int
  {
    if a >= b then a else b
  }

  /** How many entries at the front of `q` are at or before `cutoff`: the entry at
      that index, if any, is not (and `LeadingExpiredPrefix`: every entry before
      it is). */
  function LeadingExpired(q: seq<int>, cutoff: int): (n: nat)
    ensures n <= |q|
    ensures n < |q| ==> q[n] > cutoff
  {
    ExpiredFrom(q, cutoff, 0)
  }

  /** Every entry before index `LeadingExpired(q, cutoff)` is at or before the
      cutoff. */
  lemma LeadingExpiredPrefix(q: seq<int>, cutoff: int)
    ensures forall i :: 0 <= i < LeadingExpired(q, cutoff) ==> q[i] <= cutoff
  {
  }

  /** The first index at or after `i` whose entry is after the cutoff (`|q|` if none),
      given that the entries before `i` are all expired. */
  function ExpiredFrom(q: seq<int>, cutoff: int, i: nat): (n: nat)
    requires i <= |q|
    ensures i <= n <= |q|
    ensures forall j :: i <= j < n ==> q[j] <= cutoff
    ensures n < |q| ==> q[n] > cutoff
    decreases |q| - i
  {
    if i < |q| && q[i] <= cutoff then ExpiredFrom(q, cutoff, i + 1) else i
  }

  /** The expired prefix is determined by its two defining properties. */
  lemma LeadingExpiredUnique(q: seq<int>, cutoff: int, n: nat)
    requires n <= |q|
    requires forall i :: 0 <= i < n ==> q[i] <= cutoff
    requires n < |q| ==> q[n] > cutoff
    ensures LeadingExpired(q, cutoff) == n
  {
    var m := LeadingExpired(q, cutoff);
    assert m <= n by {
      if m < |q| { assert q[m] > cutoff; }
    }
    assert n <= m by {
      if n < |q| { assert q[n] > cutoff; }
    }
  }

  /** An expired head is one more entry of the expired prefix. */
  lemma LeadingExpiredTail(q: seq<int>, cutoff: int)
    requires q != [] && q[0] <= cutoff
    ensures LeadingExpired(q, cutoff) == 1 + LeadingExpired(q[1..], cutoff)
  {
    var m := LeadingExpired(q[1..], cutoff);
    assert forall i :: 1 <= i < 1 + m ==> q[i] == q[1..][i - 1];
    LeadingExpiredUnique(q, cutoff, 1 + m);
  }

  /** What `while q and q[0] <= cutoff: q.popleft()` leaves of `q`. */
  function Pruned(q: seq<int>, cutoff: int): (p: seq<int>)
    ensures |p| <= |q|
  {
    q[LeadingExpired(q, cutoff)..]
  }

  /** The entries of `q` strictly after `cutoff`, in their order. */
  function Survivors(q: seq<int>, cutoff: int): (p: seq<int>)
    decreases |q|
  {
    if q == [] then []
    else (if q[0] > cutoff then [q[0]] else []) + Survivors(q[1..], cutoff)
  }

  /** `Survivors` keeps an entry iff it is after the cutoff, and never reorders. */
  lemma {:induction false} SurvivorsMembers(q: seq<int>, cutoff: int, x: int)
    ensures x in Survivors(q, cutoff) <==> x in q && x > cutoff
    ensures |Survivors(q, cutoff)| <= |q|
    decreases |q|
  {
    if q != [] {
      SurvivorsMembers(q[1..], cutoff, x);
      assert q == [q[0]] + q[1..];
    }
  }

  lemma {:induction false} SurvivorsOfAllAfter(q: seq<int>, cutoff: int)
    requires forall i :: 0 <= i < |q| ==> q[i] > cutoff
    ensures Survivors(q, cutoff) == q
    decreases |q|
  {
    if q != [] {
      SurvivorsOfAllAfter(q[1..], cutoff);
    }
  }

  /** On a sorted log, dropping from the front removes exactly the entries at or
      before the cutoff: the cutoff itself is outside the window. */
  lemma {:induction false} PrunedIsSurvivors(q: seq<int>, cutoff: int)
    requires Sorted(q)
    ensures Pruned(q, cutoff) == Survivors(q, cutoff)
    decreases |q|
  {
    if q != [] {
      if q[0] <= cutoff {
        forall i, j ensures InOrder(q[1..], i, j) {
          assert InOrder(q, i + 1, j + 1);
        }
        PrunedIsSurvivors(q[1..], cutoff);
        LeadingExpiredTail(q, cutoff);
        assert Pruned(q, cutoff) == Pruned(q[1..], cutoff);
      } else {
        forall i | 0 <= i < |q| ensures q[i] > cutoff {
          assert InOrder(q, 0, i);
        }
        SurvivorsOfAllAfter(q, cutoff);
      }
    }
  }

  /** Only sortedness makes front-dropping exact: an out-of-order log keeps an
      expired entry behind a live one. */
  lemma UnsortedLogKeepsExpired()
    ensures Pruned([5, 1], 2) == [5, 1]
    ensures Survivors([5, 1], 2) == [5]
  {
    assert [5, 1][1..] == [1];
  }

  /** What pruning leaves of a sorted log that ends no later than `nowMs`: a
      sorted suffix whose every entry lies in `(cutoff, nowMs]`. */
  lemma PrunedFacts(q: seq<int>, cutoff: int, nowMs: int)
    requires Sorted(q) && NotAfter(q, nowMs)
    ensures var p := Pruned(q, cutoff);
      && Sorted(p) && |p| <= |q|
      && forall i :: 0 <= i < |p| ==> cutoff < p[i] <= nowMs
  {
    var n := LeadingExpired(q, cutoff);
    var p := q[n..];
    forall i | 0 <= i < |p| ensures cutoff < p[i] <= nowMs {
      assert p[i] == q[n + i];
      assert InOrder(q, n, n + i) && InOrder(q, n + i, |q| - 1);
    }
    forall i, j | 0 <= i <= j < |p| ensures InOrder(p, i, j) {
      assert InOrder(q, n + i, n + j);
    }
  }

  /** Appending a time no earlier than the newest entry keeps a log sorted. */
  lemma SortedAppend(p: seq<int>, x: int)
    requires Sorted(p) && NotAfter(p, x)
    ensures Sorted(p + [x])
  {
    var r := p + [x];
    forall i, j ensures InOrder(r, i, j) {
      if 0 <= i <= j < |p| {
        assert InOrder(p, i, j);
      } else if 0 <= i < |p| {
        assert InOrder(p, i, |p| - 1);
      }
    }
  }

  /** The pruning loop of `check`. */
  method DropExpired(q: seq<int>, cutoff: int) returns (p: seq<int>)
    ensures p == Pruned(q, cutoff)
  {
    p := q;
    ghost var popped := 0;
    while p != [] && p[0] <= cutoff
      invariant popped <= LeadingExpired(q, cutoff)
      invariant p == q[popped..]
      decreases |p|
    {
      p := p[1..];
      popped := popped + 1;
    }
  }

  /** The decision `check` makes at `nowMs` on a log already pruned to `p`: admit
      and log `nowMs` while there is room, otherwise refuse until the oldest entry
      leaves the window. */
  function Decide(cfg: SlidingWindowConfig, p: seq<int>, nowMs: int): (s: Step)
    requires cfg.maxRequests > 0
    ensures s.result.allowed <==> |p| < cfg.maxRequests
    ensures s.log == (if s.result.allowed then p + [nowMs] else p)
  {
    if |p| < cfg.maxRequests then
      var log := p + [nowMs];
      Step(log, RateLimitResult(true, Finite((cfg.maxRequests - |log|) as real), 0, Meta(cfg)))
    else
      Step(p, RateLimitResult(false, Finite(0.0), MaxInt(0, cfg.windowSizeMs - (nowMs - p[0])), Meta(cfg)))
  }

  /** The decision `check` makes at `nowMs` for a key whose log is `q`. */
  function SlidingWindowStep(cfg: SlidingWindowConfig, q: seq<int>, nowMs: int): (s: Step)
    requires cfg.maxRequests > 0
    ensures s.result.metadata == Meta(cfg)
    ensures !s.result.allowed ==> s.result.remaining == Finite(0.0)
  {
    Decide(cfg, Pruned(q, nowMs - cfg.windowSizeMs), nowMs)
  }

  // ---------------------------------------------------------------------------
  // Properties of one decision

  /** Deciding on a pruned, well-formed log keeps it well formed and inside the
      window, and reports the free slots as remaining. */
  lemma DecideKeepsInvariant(cfg: SlidingWindowConfig, p: seq<int>, nowMs: int)
    requires CheckSlidingWindowConfig(cfg) == Accepted
    requires WellFormed(cfg, p) && InWindow(cfg, p, nowMs)
    ensures var s := Decide(cfg, p, nowMs);
      && WellFormed(cfg, s.log)
      && InWindow(cfg, s.log, nowMs)
      && s.result.remaining == Finite((cfg.maxRequests - (if s.result.allowed then |s.log| else cfg.maxRequests)) as real)
  {
    if |p| < cfg.maxRequests {
      var log := p + [nowMs];
      SortedAppend(p, nowMs);
      assert forall i :: 0 <= i < |log| ==> log[i] == (if i < |p| then p[i] else nowMs);
    }
  }

  /** `s` is the decision on the live entries `p` at `nowMs`: admitted iff there
      is room, logging `nowMs` after them; a refusal leaves the log as it is, full,
      with a wait of `windowSizeMs - (nowMs - oldest)`, between 1 and
      `windowSizeMs`. */
  predicate DecidedOn(cfg: SlidingWindowConfig, p: seq<int>, nowMs: int, s: Step)
  {
    && (s.result.allowed <==> |p| < cfg.maxRequests)
    && (s.result.allowed ==> s.log == p + [nowMs] && s.result.retryAfterMs == 0)
    && (!s.result.allowed ==>
          && s.log == p && 0 < |p| == cfg.maxRequests
          && s.result.retryAfterMs == cfg.windowSizeMs - (nowMs - p[0])
          && 1 <= s.result.retryAfterMs <= cfg.windowSizeMs)
  }

  /** On a pruned, well-formed log: admitted iff there is room; a refusal leaves
      the log as it is, full, with a wait between 1 and `windowSizeMs`. */
  lemma DecideIff(cfg: SlidingWindowConfig, p: seq<int>, nowMs: int)
    requires CheckSlidingWindowConfig(cfg) == Accepted
    requires WellFormed(cfg, p) && InWindow(cfg, p, nowMs)
    ensures DecidedOn(cfg, p, nowMs, Decide(cfg, p, nowMs))
  {
    if |p| >= cfg.maxRequests {
      assert nowMs - cfg.windowSizeMs < p[0] <= nowMs;
    }
  }

  /** A check keeps the log sorted, no longer than `maxRequests`, and inside the
      window ending at `nowMs`; what it reports as remaining is the free slots. */
  lemma StepKeepsInvariant(cfg: SlidingWindowConfig, q: seq<int>, nowMs: int)
    requires CheckSlidingWindowConfig(cfg) == Accepted
    requires WellFormed(cfg, q) && NotAfter(q, nowMs)
    ensures var s := SlidingWindowStep(cfg, q, nowMs);
      && WellFormed(cfg, s.log)
      && InWindow(cfg, s.log, nowMs)
      && s.result.remaining == Finite((cfg.maxRequests - (if s.result.allowed then |s.log| else cfg.maxRequests)) as real)
  {
    StepKeepsWellFormed(cfg, q, nowMs);
    StepStaysInWindow(cfg, q, nowMs);
    StepReportsFreeSlots(cfg, q, nowMs);
  }

  // The three parts of `StepKeepsInvariant`, each proved on its own to keep the
  // solver's search small.

  lemma StepKeepsWellFormed(cfg: SlidingWindowConfig, q: seq<int>, nowMs: int)
    requires CheckSlidingWindowConfig(cfg) == Accepted
    requires WellFormed(cfg, q) && NotAfter(q, nowMs)
    ensures WellFormed(cfg, SlidingWindowStep(cfg, q, nowMs).log)
  {
    StepKeepsSorted(cfg, q, nowMs);
    StepKeepsLength(cfg, q, nowMs);
  }

  /** A check on a sorted log not after `nowMs` leaves it sorted. */
  lemma StepKeepsSorted(cfg: SlidingWindowConfig, q: seq<int>, nowMs: int)
    requires cfg.maxRequests > 0
    requires Sorted(q) && NotAfter(q, nowMs)
    ensures Sorted(SlidingWindowStep(cfg, q, nowMs).log)
  {
    var p := Pruned(q, nowMs - cfg.windowSizeMs);
    assert Sorted(p) && NotAfter(p, nowMs) by {
      PrunedKeepsOrder(q, nowMs - cfg.windowSizeMs, nowMs);
    }
    DecideKeepsSorted(cfg, p, nowMs);
  }

  /** Deciding on a sorted log not after `nowMs` leaves it sorted. */
  lemma DecideKeepsSorted(cfg: SlidingWindowConfig, p: seq<int>, nowMs: int)
    requires cfg.maxRequests > 0
    requires Sorted(p) && NotAfter(p, nowMs)
    ensures Sorted(Decide(cfg, p, nowMs).log)
  {
    if |p| < cfg.maxRequests {
      SortedAppend(p, nowMs);
    }
  }

  /** A check never makes a log longer than `maxRequests`. */
  lemma StepKeepsLength(cfg: SlidingWindowConfig, q: seq<int>, nowMs: int)
    requires cfg.maxRequests > 0 && |q| <= cfg.maxRequests
    ensures |SlidingWindowStep(cfg, q, nowMs).log| <= cfg.maxRequests
  {
  }

  /** Pruning a sorted log not after `nowMs` leaves it sorted and not after `nowMs`. */
  lemma PrunedKeepsOrder(q: seq<int>, cutoff: int, nowMs: int)
    requires Sorted(q) && NotAfter(q, nowMs)
    ensures Sorted(Pruned(q, cutoff)) && NotAfter(Pruned(q, cutoff), nowMs)
  {
    var p := Pruned(q, cutoff);
    PrunedFacts(q, cutoff, nowMs);
    if p != [] {
      assert p[|p| - 1] <= nowMs;
    }
  }

  /** Deciding on a well-formed log that ends no later than `nowMs` keeps it well
      formed. */
  lemma DecideKeepsWellFormed(cfg: SlidingWindowConfig, p: seq<int>, nowMs: int)
    requires cfg.maxRequests > 0
    requires WellFormed(cfg, p) && NotAfter(p, nowMs)
    ensures WellFormed(cfg, Decide(cfg, p, nowMs).log)
  {
    if |p| < cfg.maxRequests {
      SortedAppend(p, nowMs);
    }
  }

  lemma StepStaysInWindow(cfg: SlidingWindowConfig, q: seq<int>, nowMs: int)
    requires CheckSlidingWindowConfig(cfg) == Accepted
    requires WellFormed(cfg, q) && NotAfter(q, nowMs)
    ensures InWindow(cfg, SlidingWindowStep(cfg, q, nowMs).log, nowMs)
  {
    PrunedInWindow(cfg, q, nowMs);
    DecideKeepsInvariant(cfg, Pruned(q, nowMs - cfg.windowSizeMs), nowMs);
  }

  /** `PrunedFacts` in terms of the two invariants `Decide` expects. */
  lemma PrunedInWindow(cfg: SlidingWindowConfig, q: seq<int>, nowMs: int)
    requires WellFormed(cfg, q) && NotAfter(q, nowMs)
    ensures WellFormed(cfg, Pruned(q, nowMs - cfg.windowSizeMs))
    ensures InWindow(cfg, Pruned(q, nowMs - cfg.windowSizeMs), nowMs)
  {
    PrunedFacts(q, nowMs - cfg.windowSizeMs, nowMs);
  }

  lemma StepReportsFreeSlots(cfg: SlidingWindowConfig, q: seq<int>, nowMs: int)
    requires cfg.maxRequests > 0
    ensures var s := SlidingWindowStep(cfg, q, nowMs);
      s.result.remaining == Finite((cfg.maxRequests - (if s.result.allowed then |s.log| else cfg.maxRequests)) as real)
  {
  }

  /** The invariant needs the clock: `check` reads the time before it takes the
      lock, so two concurrent checks can reach the log out of clock order. One that
      arrives with a time earlier than the newest entry is still admitted, and its
      time appended after a later one leaves the log unsorted. */
  lemma OutOfOrderAppendUnsorts()
    ensures var s := SlidingWindowStep(SlidingWindowConfig(100, 5), [10], 5);
      && s.result.allowed && s.log == [10, 5] && !Sorted(s.log)
  {
    NothingExpires(SlidingWindowConfig(100, 5), [10], 5);
    assert !InOrder([10, 5], 0, 1);
  }

  /** The window admits iff fewer than `maxRequests` logged times are after the
      cutoff. Admission logs `nowMs` after them; denial logs nothing and reports a
      wait of `windowSizeMs - (nowMs - oldest)`, the time until the oldest entry
      leaves the window, which is between 1 and `windowSizeMs` ms. */
  lemma WindowAdmissionIff(cfg: SlidingWindowConfig, q: seq<int>, nowMs: int)
    requires CheckSlidingWindowConfig(cfg) == Accepted
    requires WellFormed(cfg, q) && NotAfter(q, nowMs)
    ensures DecidedOn(cfg, Survivors(q, nowMs - cfg.windowSizeMs), nowMs, SlidingWindowStep(cfg, q, nowMs))
  {
    var cutoff := nowMs - cfg.windowSizeMs;
    PrunedIsSurvivors(q, cutoff);
    StepDecidesOnPruned(cfg, q, nowMs);
  }

  /** `WindowAdmissionIff` stated on the pruned log. */
  lemma StepDecidesOnPruned(cfg: SlidingWindowConfig, q: seq<int>, nowMs: int)
    requires CheckSlidingWindowConfig(cfg) == Accepted
    requires WellFormed(cfg, q) && NotAfter(q, nowMs)
    ensures DecidedOn(cfg, Pruned(q, nowMs - cfg.windowSizeMs), nowMs, SlidingWindowStep(cfg, q, nowMs))
  {
    PrunedInWindow(cfg, q, nowMs);
    DecideIff(cfg, Pruned(q, nowMs - cfg.windowSizeMs), nowMs);
  }


  /** A full log whose oldest entry has reached the cutoff admits. */
  lemma AdmitsOnceOldestExpires(cfg: SlidingWindowConfig, log: seq<int>, nowMs: int)
    requires cfg.maxRequests > 0
    requires 0 < |log| <= cfg.maxRequests && log[0] <= nowMs - cfg.windowSizeMs
    ensures SlidingWindowStep(cfg, log, nowMs).result.allowed
  {
    assert LeadingExpired(log, nowMs - cfg.windowSizeMs) >= 1;
  }

  /** A full log whose oldest entry is still after the cutoff refuses. */
  lemma RefusesWhileOldestLive(cfg: SlidingWindowConfig, log: seq<int>, nowMs: int)
    requires cfg.maxRequests > 0
    requires |log| == cfg.maxRequests && log[0] > nowMs - cfg.windowSizeMs
    ensures !SlidingWindowStep(cfg, log, nowMs).result.allowed
  {
    assert LeadingExpired(log, nowMs - cfg.windowSizeMs) == 0;
  }

  /** The reported wait is exact: after a denial, the same key is admitted
      `retryAfterMs` ms later and still refused one millisecond earlier. */
  lemma RetryAfterExact(cfg: SlidingWindowConfig, q: seq<int>, nowMs: int)
    requires CheckSlidingWindowConfig(cfg) == Accepted
    requires WellFormed(cfg, q) && NotAfter(q, nowMs)
    requires !SlidingWindowStep(cfg, q, nowMs).result.allowed
    ensures var s := SlidingWindowStep(cfg, q, nowMs);
      var wait := s.result.retryAfterMs;
      && SlidingWindowStep(cfg, s.log, nowMs + wait).result.allowed
      && !SlidingWindowStep(cfg, s.log, nowMs + wait - 1).result.allowed
  {
    var s := SlidingWindowStep(cfg, q, nowMs);
    assert |s.log| == cfg.maxRequests && s.result.retryAfterMs == cfg.windowSizeMs - (nowMs - s.log[0]) by {
      StepDecidesOnPruned(cfg, q, nowMs);
    }
    WaitUntilOldestExpires(cfg, s.log, nowMs, s.result.retryAfterMs);
  }

  /** A full log and a wait of `windowSizeMs - (nowMs - oldest)`: at `nowMs + wait`
      the cutoff is the oldest entry, which is dropped; at every earlier moment
      every entry is still after the cutoff, so `nowMs + wait` is the first moment
      a check on the unchanged log is admitted. */
  lemma WaitUntilOldestExpires(cfg: SlidingWindowConfig, log: seq<int>, nowMs: int, wait: int)
    requires cfg.maxRequests > 0
    requires |log| == cfg.maxRequests && wait == cfg.windowSizeMs - (nowMs - log[0])
    ensures SlidingWindowStep(cfg, log, nowMs + wait).result.allowed
    ensures !SlidingWindowStep(cfg, log, nowMs + wait - 1).result.allowed
    ensures forall t :: t < nowMs + wait ==> !SlidingWindowStep(cfg, log, t).result.allowed
  {
    AdmitsOnceOldestExpires(cfg, log, nowMs + wait);
    forall t | t < nowMs + wait
      ensures !SlidingWindowStep(cfg, log, t).result.allowed
    {
      RefusesWhileOldestLive(cfg, log, t);
    }
  }

  // ---------------------------------------------------------------------------
  // Sequences of decisions on one key

  /** The log left and the admissions made by successive checks at `nows`. */
  datatype Trace = Trace(log: seq<int>, decisions: seq<bool>)

  function Replay(cfg: SlidingWindowConfig, q: seq<int>, nows: seq<int>): (t: Trace)
    requires cfg.maxRequests > 0
    ensures |t.decisions| == |nows|
    decreases |nows|
  {
    if nows == [] then Trace(q, [])
    else
      var s := SlidingWindowStep(cfg, q, nows[0]);
      var rest := Replay(cfg, s.log, nows[1..]);
      Trace(rest.log, [s.result.allowed] + rest.decisions)
  }

  /** `n` copies of `x`. */
  function Repeat<T>(x: T, n: nat): (r: seq<T>)
    ensures |r| == n
    ensures forall i :: 0 <= i < n ==> r[i] == x
  {
    if n == 0 then [] else [x] + Repeat(x, n - 1)
  }

  /** Appending one more copy of `x` to `n` copies gives `n + 1` copies. */
  lemma RepeatSnoc<T>(x: T, n: nat)
    ensures Repeat(x, n) + [x] == Repeat(x, n + 1)
  {
    var a := Repeat(x, n) + [x];
    assert forall i :: 0 <= i < |a| ==> a[i] == x;
  }

  /** A log of `k < maxRequests` entries at `t`, checked again at `t`: admitted,
      and the log grows by one copy of `t`. */
  lemma AdmitsAtSameInstant(cfg: SlidingWindowConfig, t: int, k: nat)
    requires CheckSlidingWindowConfig(cfg) == Accepted
    requires k < cfg.maxRequests
    ensures SlidingWindowStep(cfg, Repeat(t, k), t).result.allowed
    ensures SlidingWindowStep(cfg, Repeat(t, k), t).log == Repeat(t, k + 1)
  {
    NothingExpires(cfg, Repeat(t, k), t);
    RepeatSnoc(t, k);
  }

  /** `k` entries at time `t` and then `m` more checks at `t`, `k + m <= maxRequests`:
      all are admitted and the log holds `k + m` copies of `t`. */
  lemma {:induction false} FillAtOnce(cfg: SlidingWindowConfig, t: int, k: nat, m: nat)
    requires CheckSlidingWindowConfig(cfg) == Accepted
    requires k + m <= cfg.maxRequests
    ensures Replay(cfg, Repeat(t, k), Repeat(t, m)) == Trace(Repeat(t, k + m), Repeat(true, m))
    decreases m, 1
  {
    if m == 0 {
      FillNone(cfg, t, k);
    } else {
      FillStep(cfg, t, k, m);
    }
  }

  /** The base case of `FillAtOnce`: with no checks the `k` copies of `t` are left
      as they are and nothing is recorded. */
  lemma FillNone(cfg: SlidingWindowConfig, t: int, k: nat)
    requires cfg.maxRequests > 0
    ensures Replay(cfg, Repeat(t, k), Repeat(t, 0)) == Trace(Repeat(t, k + 0), Repeat(true, 0))
  {
    assert Repeat(t, 0) == [] && Repeat(true, 0) == [];
  }

  /** The inductive step of `FillAtOnce`: the first of `m` checks at `t` on
      `k < maxRequests` copies of `t` is admitted, and the other `m - 1` checks,
      from `k + 1` copies, are all admitted by `FillAtOnce`. */
  lemma {:induction false} FillStep(cfg: SlidingWindowConfig, t: int, k: nat, m: nat)
    requires CheckSlidingWindowConfig(cfg) == Accepted
    requires 0 < m && k + m <= cfg.maxRequests
    ensures Replay(cfg, Repeat(t, k), Repeat(t, m)) == Trace(Repeat(t, k + m), Repeat(true, m))
    decreases m, 0
  {
    FillAtOnce(cfg, t, k + 1, m - 1);
    assert k + 1 + (m - 1) == k + m;
    assert Repeat(t, m) == [t] + Repeat(t, m - 1);
    assert Repeat(true, m) == [true] + Repeat(true, m - 1);
    AdmitsAtSameInstant(cfg, t, k);
    ReplayCons(cfg, Repeat(t, k), t, Repeat(t, m - 1));
  }

  /** One step of `Replay`: the first check, then the rest from its log. */
  lemma ReplayCons(cfg: SlidingWindowConfig, q: seq<int>, x: int, nows: seq<int>)
    requires cfg.maxRequests > 0
    ensures var s := SlidingWindowStep(cfg, q, x);
      var rest := Replay(cfg, s.log, nows);
      Replay(cfg, q, [x] + nows) == Trace(rest.log, [s.result.allowed] + rest.decisions)
  {
    assert ([x] + nows)[0] == x && ([x] + nows)[1..] == nows;
  }

  /** Window exactness: after `maxRequests` requests at time `t`, one more at
      `t + windowSizeMs - 1` is refused with a wait of 1 ms, and at
      `t + windowSizeMs` it is admitted, the oldest entries having aged out. */
  lemma WindowExactness(cfg: SlidingWindowConfig, t: int)
    requires CheckSlidingWindowConfig(cfg) == Accepted
    ensures var full := Replay(cfg, [], Repeat(t, cfg.maxRequests));
      && full.decisions == Repeat(true, cfg.maxRequests)
      && !SlidingWindowStep(cfg, full.log, t + cfg.windowSizeMs - 1).result.allowed
      && SlidingWindowStep(cfg, full.log, t + cfg.windowSizeMs - 1).result.retryAfterMs == 1
      && SlidingWindowStep(cfg, full.log, t + cfg.windowSizeMs).result.allowed
  {
    assert Repeat(t, 0) == [];
    FillAtOnce(cfg, t, 0, cfg.maxRequests);
    FullLogAtOneInstant(cfg, t);
  }

  /** A full log whose entries are all at `t`: refused with a wait of 1 ms at
      `t + windowSizeMs - 1`, admitted at `t + windowSizeMs`. */
  lemma FullLogAtOneInstant(cfg: SlidingWindowConfig, t: int)
    requires CheckSlidingWindowConfig(cfg) == Accepted
    ensures var log := Repeat(t, cfg.maxRequests);
      && !SlidingWindowStep(cfg, log, t + cfg.windowSizeMs - 1).result.allowed
      && SlidingWindowStep(cfg, log, t + cfg.windowSizeMs - 1).result.retryAfterMs == 1
      && SlidingWindowStep(cfg, log, t + cfg.windowSizeMs).result.allowed
  {
    var log := Repeat(t, cfg.maxRequests);
    assert log[0] == t;
    FullLogFrom(cfg, log, t);
  }

  /** A full log whose oldest entry is at `t`: refused with a wait of 1 ms at
      `t + windowSizeMs - 1`, admitted at `t + windowSizeMs`. */
  lemma FullLogFrom(cfg: SlidingWindowConfig, log: seq<int>, t: int)
    requires CheckSlidingWindowConfig(cfg) == Accepted
    requires |log| == cfg.maxRequests && log[0] == t
    ensures !SlidingWindowStep(cfg, log, t + cfg.windowSizeMs - 1).result.allowed
    ensures SlidingWindowStep(cfg, log, t + cfg.windowSizeMs - 1).result.retryAfterMs == 1
    ensures SlidingWindowStep(cfg, log, t + cfg.windowSizeMs).result.allowed
  {
    FullLogFromRefuses(cfg, log, t);
    AdmitsOnceOldestExpires(cfg, log, t + cfg.windowSizeMs);
  }

  /** The refusal half of `FullLogFrom`: one millisecond before the oldest entry
      leaves the window, nothing is pruned and the wait is 1 ms. */
  lemma FullLogFromRefuses(cfg: SlidingWindowConfig, log: seq<int>, t: int)
    requires CheckSlidingWindowConfig(cfg) == Accepted
    requires |log| == cfg.maxRequests && log[0] == t
    ensures var s := SlidingWindowStep(cfg, log, t + cfg.windowSizeMs - 1);
      !s.result.allowed && s.result.retryAfterMs == 1
  {
    var early := t + cfg.windowSizeMs - 1;
    assert LeadingExpired(log, early - cfg.windowSizeMs) == 0;
    assert Pruned(log, early - cfg.windowSizeMs) == log;
    DecideRefusesFullLog(cfg, log, early);
  }

  /** A log that is already full is refused, with a wait until its oldest entry
      leaves the window. */
  lemma DecideRefusesFullLog(cfg: SlidingWindowConfig, p: seq<int>, nowMs: int)
    requires cfg.maxRequests > 0 && |p| >= cfg.maxRequests
    ensures !Decide(cfg, p, nowMs).result.allowed
    ensures Decide(cfg, p, nowMs).result.retryAfterMs == MaxInt(0, cfg.windowSizeMs - (nowMs - p[0]))
  {
  }

  /** When the oldest entry is still inside the window, nothing is pruned. */
  lemma NothingExpires(cfg: SlidingWindowConfig, q: seq<int>, nowMs: int)
    requires cfg.maxRequests > 0
    requires q == [] || q[0] > nowMs - cfg.windowSizeMs
    ensures SlidingWindowStep(cfg, q, nowMs) == Decide(cfg, q, nowMs)
  {
    assert LeadingExpired(q, nowMs - cfg.windowSizeMs) == 0;
  }

  /** A log of one entry that has left the window is pruned to nothing. */
  lemma SingleExpires(cfg: SlidingWindowConfig, t: int, nowMs: int)
    requires cfg.maxRequests > 0
    requires t <= nowMs - cfg.windowSizeMs
    ensures SlidingWindowStep(cfg, [t], nowMs) == Decide(cfg, [], nowMs)
  {
    assert LeadingExpired([t], nowMs - cfg.windowSizeMs) == 1;
  }

  /** A window of 200 ms and 2 requests, three checks on one key within the
      window: two pass, the third is refused with a non-negative wait. */
  lemma ThrottlesWhenLimitReached(t0: int, t1: int, t2: int)
    requires t0 <= t1 <= t2 < t0 + 200
    ensures var cfg := SlidingWindowConfig(200, 2);
      var s1 := SlidingWindowStep(cfg, [], t0);
      var s2 := SlidingWindowStep(cfg, s1.log, t1);
      var s3 := SlidingWindowStep(cfg, s2.log, t2);
      && [s1.result.allowed, s2.result.allowed, s3.result.allowed] == [true, true, false]
      && s3.result.retryAfterMs >= 0
  {
    var cfg := SlidingWindowConfig(200, 2);
    NothingExpires(cfg, [], t0);
    assert SlidingWindowStep(cfg, [], t0).log == [t0];
    NothingExpires(cfg, [t0], t1);
    assert SlidingWindowStep(cfg, [t0], t1).log == [t0, t1];
    NothingExpires(cfg, [t0, t1], t2);
    assert !SlidingWindowStep(cfg, [t0, t1], t2).result.allowed;
  }

  /** A window of 150 ms and 1 request: the second check inside the window is
      refused, and a check once the window has passed is admitted again. */
  lemma AllowsAfterWindowPasses(t0: int, t1: int, t2: int)
    requires t0 <= t1 < t0 + 150 && t0 + 150 <= t2
    ensures var cfg := SlidingWindowConfig(150, 1);
      var s1 := SlidingWindowStep(cfg, [], t0);
      var s2 := SlidingWindowStep(cfg, s1.log, t1);
      var s3 := SlidingWindowStep(cfg, s2.log, t2);
      [s1.result.allowed, s2.result.allowed, s3.result.allowed] == [true, false, true]
  {
    var cfg := SlidingWindowConfig(150, 1);
    NothingExpires(cfg, [], t0);
    NothingExpires(cfg, [t0], t1);
    SingleExpires(cfg, t0, t2);
    assert SlidingWindowStep(cfg, [], t0).log == [t0];
    assert SlidingWindowStep(cfg, [t0], t1).log == [t0];
  }

  /** The body of `check` on one key's log `q`: prune from the front, then admit
      and append `nowMs` or refuse. Returns the log to keep and the result. */
  method CheckLog(cfg: SlidingWindowConfig, q: seq<int>, nowMs: int) returns (log: seq<int>, r: RateLimitResult)
    requires cfg.maxRequests > 0
    ensures Step(log, r) == SlidingWindowStep(cfg, q, nowMs)
  {
    log := DropExpired(q, nowMs - cfg.windowSizeMs);
    if |log| < cfg.maxRequests {
      log := log + [nowMs];
      r := RateLimitResult(true, Finite((cfg.maxRequests - |log|) as real), 0, Meta(cfg));
    } else {
      var oldest := log[0];
      var retryAfterMs := MaxInt(0, cfg.windowSizeMs - (nowMs - oldest));
      r := RateLimitResult(false, Finite(0.0), retryAfterMs, Meta(cfg));
    }
  }

  // ---------------------------------------------------------------------------
  // The limiter object

  /** The class invariant on the whole table: every key's log is well formed. */
  ghost predicate AllWellFormed(cfg: SlidingWindowConfig, m: map<string, seq<int>>)
  {
    forall k :: k in m ==> WellFormed(cfg, m[k])
  }

  /** Writing back a well-formed log for one key keeps the table well formed. */
  lemma StoreKeepsWellFormed(cfg: SlidingWindowConfig, m: map<string, seq<int>>, key: string, q: seq<int>)
    requires AllWellFormed(cfg, m) && WellFormed(cfg, q)
    ensures AllWellFormed(cfg, m[key := q])
  {
  }

  class SlidingWindowLimiter {
    const cfg: SlidingWindowConfig
    /** key -> logged admission times; entries are never removed. */
    var state: map<string, seq<int>>

    ghost predicate Valid()
      reads this
    {
      && CheckSlidingWindowConfig(cfg) == Accepted
      && AllWellFormed(cfg, state)
    }

    constructor (cfg: SlidingWindowConfig)
      requires CheckSlidingWindowConfig(cfg) == Accepted
      ensures Valid() && this.cfg == cfg && state == map[]
    {
      this.cfg := cfg;
      state := map[];
    }

    /** `check(key)` at `nowMs`: prunes the key's log in place, then admits and
        logs `nowMs` or refuses; the pruned log is kept either way and no other
        key changes. */
    method Check(key: string, nowMs: int) returns (r: RateLimitResult)
      requires Valid()
      requires key in state ==> NotAfter(state[key], nowMs)
      modifies this
      ensures Valid()
      ensures var s := SlidingWindowStep(cfg, if key in old(state) then old(state)[key] else [], nowMs);
        r == s.result && state == old(state)[key := s.log]
      ensures InWindow(cfg, state[key], nowMs)
    {
      ghost var before := if key in state then state[key] else [];
      StepKeepsWellFormed(cfg, before, nowMs);
      StepStaysInWindow(cfg, before, nowMs);
      var q: seq<int> := if key in state then state[key] else [];
      q, r := CheckLog(cfg, q, nowMs);
      StoreKeepsWellFormed(cfg, state, key, q);
      state := state[key := q];
    }

    /** `allow(key)`: the `allowed` flag of `check`, with the same effect. */
    method Allow(key: string, nowMs: int) returns (allowed: bool)
      requires Valid()
      requires key in state ==> NotAfter(state[key], nowMs)
      modifies this
      ensures Valid()
      ensures var s := SlidingWindowStep(cfg, if key in old(state) then old(state)[key] else [], nowMs);
        allowed == s.result.allowed && state == old(state)[key := s.log]
    {
      var r := Check(key, nowMs);
      allowed := r.allowed;
    }
  }

  /** `SlidingWindowLimiter(config)`: raises on a non-positive window or request
      limit, and otherwise starts with no stored keys. */
  method NewSlidingWindowLimiter(cfg: SlidingWindowConfig) returns (r: Result<SlidingWindowLimiter, ConfigError>)
    ensures r.Failure? ==> CheckSlidingWindowConfig(cfg) == Rejected(r.error)
    ensures r.Success? ==> CheckSlidingWindowConfig(cfg) == Accepted
    ensures r.Success? ==> fresh(r.value) && r.value.Valid() && r.value.cfg == cfg && r.value.state == map[]
  {
    var v := CheckSlidingWindowConfig(cfg);
    if v.Rejected? {
      return Failure(v.error);
    }
    var lim := new SlidingWindowLimiter(cfg);
    r := Success(lim);
  }
}
