/** The delay before an infrastructure failure is retried: exponential, jittered by a fifth, and bounded on both
    sides. Arithmetic is over `int` and `real`; the rounding of `Math.round` is modelled, the rounding of
    IEEE doubles is not. */
module Backoff {

  const MAX_CONFIGURED_DELAY_MS := 86_400_000
  const EXPONENT_CLAMP := 30

  function Pow2(n: nat): (p: nat)
    ensures p >= 1
  {
    if n == 0 then 1 else 2 * Pow2(n - 1)
  }

  function Min(a: int, b: int): int { if a <= b then a else b }

  function Max(a: int, b: int): int { if a >= b then a else b }

  function MinReal(a: real, b: real): real { if a <= b then a else b }

  /** JavaScript's `Math.round`: halves go up. */
  function Round(x: real): int { (x + 0.5).Floor }

  /** The ceiling the document gives: `min(base * 2^(attempt-1), max)`, with attempts below one read as one. */
  function DocumentedCeiling(attempt: int, baseMs: int, maxMs: int): int {
    Min(baseMs * Pow2(Max(attempt, 1) - 1), maxMs)
  }

  /** The ceiling the code computes, whose exponent is clamped so that it cannot overflow. */
  function CodedCeiling(attempt: int, baseMs: int, maxMs: int): int {
    Min(baseMs * Pow2(Min(Max(attempt, 1) - 1, EXPONENT_CLAMP)), maxMs)
  }

  /** `retryBackoffMs`; `draw` is the value of the injectable `random`. */
  function RetryBackoffMs(attempt: int, baseMs: int, maxMs: int, draw: real): int {
    var capped := CodedCeiling(attempt, baseMs, maxMs) as real;
    Max(baseMs, Round(MinReal(Jittered(capped, draw), maxMs as real)))
  }

  function Jittered(capped: real, draw: real): real {
    var jitter := capped * 0.2 * (draw * 2.0 - 1.0);
    capped + jitter
  }

  lemma {:induction false} Pow2Monotone(a: nat, b: nat)
    requires a <= b
    ensures Pow2(a) <= Pow2(b)
  {
    if a == b {
    } else {
      Pow2Monotone(a, b - 1);
    }
  }

  lemma Pow2OfClamp()
    ensures Pow2(EXPONENT_CLAMP) == 1_073_741_824
  {
    assert Pow2(10) == 1024;
    assert Pow2(20) == 1024 * 1024 by { Pow2Sum(10, 10); }
    Pow2Sum(20, 10);
  }

  lemma {:induction false} Pow2Sum(a: nat, b: nat)
    ensures Pow2(a + b) == Pow2(a) * Pow2(b)
  {
    if b == 0 {
    } else {
      Pow2Sum(a, b - 1);
    }
  }

  lemma MulMonotone(k: int, a: int, b: int)
    requires k >= 0 && a <= b
    ensures k * a <= k * b
  {
  }

  /** The clamp is invisible exactly where doubling thirty times already reaches the maximum, or the attempt
      never needs more than thirty doublings. */
  lemma ClampIsInvisible(attempt: int, baseMs: int, maxMs: int)
    requires baseMs >= 1
    ensures CodedCeiling(attempt, baseMs, maxMs) == DocumentedCeiling(attempt, baseMs, maxMs)
            <==> attempt <= EXPONENT_CLAMP + 1 || maxMs <= baseMs * Pow2(EXPONENT_CLAMP)
  {
    var n := Max(attempt, 1) - 1;
    if n > EXPONENT_CLAMP {
      DoublingGrows(EXPONENT_CLAMP, n, baseMs);
      CappedAlike(baseMs * Pow2(EXPONENT_CLAMP), baseMs * Pow2(n), maxMs);
    }
  }

  lemma DoublingGrows(k: nat, n: nat, baseMs: int)
    requires k < n && baseMs >= 1
    ensures baseMs * Pow2(n) >= 2 * (baseMs * Pow2(k)) >= 2
  {
    Pow2Monotone(k + 1, n);
    MulMonotone(baseMs, 2 * Pow2(k), Pow2(n));
    MulMonotone(baseMs, 1, Pow2(k));
    assert baseMs * (2 * Pow2(k)) == 2 * (baseMs * Pow2(k));
  }

  lemma CappedAlike(x: int, y: int, cap: int)
    requires x >= 1 && y >= 2 * x
    ensures Min(x, cap) == Min(y, cap) <==> cap <= x
  {}

  /** ... and that holds for every delay the configuration admits. */
  lemma ClampIsInvisibleWhenConfigured(attempt: int, baseMs: int, maxMs: int)
    requires 1 <= baseMs && maxMs <= MAX_CONFIGURED_DELAY_MS
    ensures CodedCeiling(attempt, baseMs, maxMs) == DocumentedCeiling(attempt, baseMs, maxMs)
  {
    Pow2OfClamp();
    MulMonotone(Pow2(EXPONENT_CLAMP), 1, baseMs);
    ClampIsInvisible(attempt, baseMs, maxMs);
  }

  /** The ceiling never falls as attempts accumulate, starts at the base and, once it reaches the maximum, stays. */
  lemma CeilingClimbs(attempt: int, later: int, baseMs: int, maxMs: int)
    requires 1 <= baseMs <= maxMs && attempt <= later
    ensures baseMs <= DocumentedCeiling(attempt, baseMs, maxMs) <= DocumentedCeiling(later, baseMs, maxMs) <= maxMs
    ensures attempt <= 1 ==> DocumentedCeiling(attempt, baseMs, maxMs) == baseMs
  {
    Pow2Monotone(Max(attempt, 1) - 1, Max(later, 1) - 1);
    MulMonotone(baseMs, Pow2(Max(attempt, 1) - 1), Pow2(Max(later, 1) - 1));
    MulMonotone(baseMs, 1, Pow2(Max(attempt, 1) - 1));
  }

  /** From the 28th attempt at the latest every configured backoff sits at its maximum. */
  lemma CeilingIsReached(attempt: int, baseMs: int, maxMs: int)
    requires 1 <= baseMs <= maxMs <= MAX_CONFIGURED_DELAY_MS && attempt >= 28
    ensures DocumentedCeiling(attempt, baseMs, maxMs) == maxMs
  {
    assert Pow2(27) == 134_217_728 by { assert Pow2(9) == 512; Pow2Sum(9, 9); Pow2Sum(18, 9); }
    Pow2Monotone(27, attempt - 1);
    MulMonotone(Pow2(attempt - 1), 1, baseMs);
  }

  /** The lowest and highest delay the code can return: a fifth either side of the ceiling, rounded, and pushed
      back inside [base, max]. */
  function LowestDelay(attempt: int, baseMs: int, maxMs: int): int {
    Max(baseMs, Round(0.8 * CodedCeiling(attempt, baseMs, maxMs) as real))
  }

  function HighestDelay(attempt: int, baseMs: int, maxMs: int): int {
    Max(baseMs, Round(MinReal(1.2 * CodedCeiling(attempt, baseMs, maxMs) as real, maxMs as real)))
  }

  /** Over the draws from 0 to 1 the jittered delay runs from 80% to 120% of the ceiling. */
  lemma JitterStaysInBand(c: real, draw: real)
    requires c >= 0.0 && 0.0 <= draw <= 1.0
    ensures 0.8 * c <= Jittered(c, draw) <= 1.2 * c
  {
    SwingStaysInReach(c * 0.2, draw * 2.0 - 1.0);
  }

  lemma SwingStaysInReach(reach: real, swing: real)
    requires reach >= 0.0 && -1.0 <= swing <= 1.0
    ensures -reach <= reach * swing <= reach
  {
    ProductNonNegative(reach, 1.0 - swing);
    ProductNonNegative(reach, 1.0 + swing);
    assert reach * (1.0 - swing) == reach - reach * swing;
    assert reach * (1.0 + swing) == reach + reach * swing;
  }

  lemma ProductNonNegative(a: real, b: real)
    requires a >= 0.0 && b >= 0.0
    ensures a * b >= 0.0
  {
  }

  lemma RoundMonotone(a: real, b: real)
    requires a <= b
    ensures Round(a) <= Round(b)
  {
  }

  lemma RoundOfInt(n: int)
    ensures Round(n as real) == n
  {
  }

  /** Bounds, for every attempt number and every draw: never below the base; never above the maximum exactly
      when the base does not exceed it. */
  lemma DelayStaysBounded(attempt: int, baseMs: int, maxMs: int, draw: real)
    ensures baseMs <= RetryBackoffMs(attempt, baseMs, maxMs, draw)
    ensures RetryBackoffMs(attempt, baseMs, maxMs, draw) <= maxMs <==> baseMs <= maxMs
  {
    var capped := CodedCeiling(attempt, baseMs, maxMs) as real;
    var raw := MinReal(Jittered(capped, draw), maxMs as real);
    RoundMonotone(raw, maxMs as real);
    RoundOfInt(maxMs);
  }

  /** The documented twenty per cent, up to the half millisecond that rounding to whole milliseconds costs. */
  lemma DelayStaysNearCeiling(attempt: int, baseMs: int, maxMs: int, draw: real)
    requires 1 <= baseMs <= maxMs <= MAX_CONFIGURED_DELAY_MS && 0.0 <= draw <= 1.0
    ensures var c := DocumentedCeiling(attempt, baseMs, maxMs) as real;
            var d := RetryBackoffMs(attempt, baseMs, maxMs, draw) as real;
            0.8 * c - 0.5 <= d <= 1.2 * c + 0.5
  {
    ClampIsInvisibleWhenConfigured(attempt, baseMs, maxMs);
    CeilingClimbs(attempt, attempt, baseMs, maxMs);
    var c := CodedCeiling(attempt, baseMs, maxMs) as real;
    JitterStaysInBand(c, draw);
    RoundBounds(MinReal(Jittered(c, draw), maxMs as real));
  }

  lemma RoundBounds(x: real)
    ensures x - 0.5 < Round(x) as real <= x + 0.5
  {
  }

  /** Without that half millisecond the twenty per cent would be false. */
  lemma RoundingCanExceedAFifth()
    ensures DocumentedCeiling(10, 1, 3) == 3
    ensures RetryBackoffMs(10, 1, 3, 0.0) == 2
    ensures (RetryBackoffMs(10, 1, 3, 0.0) as real) < 0.8 * 3.0
  {
    assert Pow2(9) == 512;
    assert CodedCeiling(10, 1, 3) == 3;
    assert Jittered(3.0, 0.0) == 2.4;
  }

  /** The jitter is not decorative: the delays some draw produces are exactly the whole milliseconds from the
      lowest to the highest. */
  lemma DrawsCoverExactlyTheBand(attempt: int, baseMs: int, maxMs: int, delay: int)
    requires 1 <= baseMs <= maxMs
    ensures (exists draw: real :: 0.0 <= draw <= 1.0 && RetryBackoffMs(attempt, baseMs, maxMs, draw) == delay)
            <==> LowestDelay(attempt, baseMs, maxMs) <= delay <= HighestDelay(attempt, baseMs, maxMs)
  {
    var cap := CodedCeiling(attempt, baseMs, maxMs);
    assert cap >= 1 by { MulMonotone(baseMs, 1, Pow2(Min(Max(attempt, 1) - 1, EXPONENT_CLAMP))); }
    forall draw: real | 0.0 <= draw <= 1.0
      ensures LowestDelay(attempt, baseMs, maxMs) <= RetryBackoffMs(attempt, baseMs, maxMs, draw)
              <= HighestDelay(attempt, baseMs, maxMs)
    {
      DrawStaysInBand(attempt, baseMs, maxMs, draw);
    }
    if LowestDelay(attempt, baseMs, maxMs) <= delay <= HighestDelay(attempt, baseMs, maxMs) {
      var draw := DrawFor(cap, delay);
      DrawForWorks(attempt, baseMs, maxMs, delay);
    }
  }

  lemma DrawStaysInBand(attempt: int, baseMs: int, maxMs: int, draw: real)
    requires 1 <= baseMs <= maxMs && 0.0 <= draw <= 1.0
    requires CodedCeiling(attempt, baseMs, maxMs) >= 1
    ensures LowestDelay(attempt, baseMs, maxMs) <= RetryBackoffMs(attempt, baseMs, maxMs, draw)
            <= HighestDelay(attempt, baseMs, maxMs)
  {
    var c := CodedCeiling(attempt, baseMs, maxMs) as real;
    JitterStaysInBand(c, draw);
    var raw := MinReal(Jittered(c, draw), maxMs as real);
    assert CodedCeiling(attempt, baseMs, maxMs) <= maxMs;
    RoundMonotone(0.8 * c, raw);
    RoundMonotone(raw, MinReal(1.2 * c, maxMs as real));
  }

  /** The draw that yields a given delay: the position of the delay between 80% and 120% of the ceiling. */
  function DrawFor(cap: int, delay: int): (draw: real)
    requires cap >= 1
  {
    var c := cap as real;
    var wanted := delay as real;
    if wanted <= 0.8 * c then 0.0
    else if wanted >= 1.2 * c then 1.0
    else (wanted - 0.8 * c) / (0.4 * c)
  }

  /** Inside the band that draw is admissible and the jittered delay it gives is the one wanted. */
  lemma DrawForIsExact(cap: int, delay: int)
    requires cap >= 1
    ensures var c := cap as real; var wanted := delay as real;
            0.0 <= DrawFor(cap, delay) <= 1.0
            && Jittered(c, DrawFor(cap, delay)) == if wanted <= 0.8 * c then 0.8 * c
                                                   else if wanted >= 1.2 * c then 1.2 * c else wanted
  {
    var c := cap as real;
    var wanted := delay as real;
    var draw := DrawFor(cap, delay);
    if 0.8 * c < wanted < 1.2 * c {
      var span := wanted - 0.8 * c;
      assert draw == span / (0.4 * c) && 0.0 < span < 0.4 * c;
      Inverse(0.4 * c, span, draw);
      assert c * 0.2 * (draw * 2.0 - 1.0) == (0.4 * c) * draw - 0.2 * c;
    }
  }

  lemma Inverse(w: real, span: real, draw: real)
    requires 0.0 < span < w && draw == span / w
    ensures w * draw == span && 0.0 <= draw <= 1.0
  {
  }

  lemma DrawForWorks(attempt: int, baseMs: int, maxMs: int, delay: int)
    requires 1 <= baseMs <= maxMs && CodedCeiling(attempt, baseMs, maxMs) >= 1
    requires LowestDelay(attempt, baseMs, maxMs) <= delay <= HighestDelay(attempt, baseMs, maxMs)
    ensures var draw := DrawFor(CodedCeiling(attempt, baseMs, maxMs), delay);
            0.0 <= draw <= 1.0 && RetryBackoffMs(attempt, baseMs, maxMs, draw) == delay
  {
    var cap := CodedCeiling(attempt, baseMs, maxMs);
    var c := cap as real;
    var wanted := delay as real;
    DrawForIsExact(cap, delay);
    RoundOfInt(delay);
    RoundOfInt(maxMs);
    RoundMonotone(MinReal(1.2 * c, maxMs as real), maxMs as real);
    assert delay <= maxMs;
    if wanted <= 0.8 * c {
      RoundMonotone(wanted, 0.8 * c);
      assert cap <= maxMs;
    } else if wanted >= 1.2 * c {
      RoundMonotone(MinReal(1.2 * c, maxMs as real), wanted);
    }
  }

  // ----- when the twenty per cent hold to the millisecond ----------------------------------------------------------

  predicate WithinAFifth(ceiling: int, delay: int) { 4 * ceiling <= 5 * delay <= 6 * ceiling }

  lemma RoundedFifths(c: int)
    ensures 4 * c <= 5 * Round(0.8 * c as real) <==> c % 5 <= 2
    ensures 5 * Round(1.2 * c as real) <= 6 * c <==> c % 5 <= 2
  {
    var q, r := c / 5, c % 5;
    assert c == 5 * q + r;
    assert 0.8 * c as real == (4 * q) as real + 0.8 * r as real;
    assert 1.2 * c as real == (6 * q) as real + 1.2 * r as real;
    RoundShifts(4 * q, 0.8 * r as real);
    RoundShifts(6 * q, 1.2 * r as real);
  }

  lemma RoundShifts(n: int, x: real)
    ensures Round(n as real + x) == n + Round(x)
  {}

  lemma RoundOfSmaller(ceiling: int, maxMs: int)
    ensures Round(MinReal(1.2 * ceiling as real, maxMs as real)) ==
            if 6 * ceiling <= 5 * maxMs then Round(1.2 * ceiling as real) else maxMs
  {
    RoundOfInt(maxMs);
  }

  /** No draw leaves the documented twenty per cent exactly when rounding is harmless at this ceiling, or base and
      maximum already confine every delay. */
  lemma FifthHoldsExactly(attempt: int, baseMs: int, maxMs: int)
    requires 1 <= baseMs <= maxMs
    ensures var c := CodedCeiling(attempt, baseMs, maxMs);
      (forall draw: real :: 0.0 <= draw <= 1.0 ==> WithinAFifth(c, RetryBackoffMs(attempt, baseMs, maxMs, draw)))
      <==> (c % 5 <= 2 || (4 * c <= 5 * baseMs && 5 * maxMs <= 6 * c))
  {
    ExtremesDecide(attempt, baseMs, maxMs);
    ExtremesInFifths(attempt, baseMs, maxMs);
  }

  lemma ExtremesDecide(attempt: int, baseMs: int, maxMs: int)
    requires 1 <= baseMs <= maxMs
    ensures var c := CodedCeiling(attempt, baseMs, maxMs);
      (forall draw: real :: 0.0 <= draw <= 1.0 ==> WithinAFifth(c, RetryBackoffMs(attempt, baseMs, maxMs, draw)))
      <==> (4 * c <= 5 * LowestDelay(attempt, baseMs, maxMs) && 5 * HighestDelay(attempt, baseMs, maxMs) <= 6 * c)
  {
    var low, high := LowestDelay(attempt, baseMs, maxMs), HighestDelay(attempt, baseMs, maxMs);
    CeilingIsBetween(attempt, baseMs, maxMs);
    forall draw: real | 0.0 <= draw <= 1.0
      ensures low <= RetryBackoffMs(attempt, baseMs, maxMs, draw) <= high
    {
      DrawStaysInBand(attempt, baseMs, maxMs, draw);
    }
    DrawStaysInBand(attempt, baseMs, maxMs, 0.5);
    DrawForWorks(attempt, baseMs, maxMs, low);
    DrawForWorks(attempt, baseMs, maxMs, high);
  }

  lemma ExtremesInFifths(attempt: int, baseMs: int, maxMs: int)
    requires 1 <= baseMs <= maxMs
    ensures var c := CodedCeiling(attempt, baseMs, maxMs);
      (4 * c <= 5 * LowestDelay(attempt, baseMs, maxMs) && 5 * HighestDelay(attempt, baseMs, maxMs) <= 6 * c)
      <==> (c % 5 <= 2 || (4 * c <= 5 * baseMs && 5 * maxMs <= 6 * c))
  {
    var c := CodedCeiling(attempt, baseMs, maxMs);
    CeilingIsBetween(attempt, baseMs, maxMs);
    RoundedFifths(c);
    RoundOfSmaller(c, maxMs);
  }

  lemma CeilingIsBetween(attempt: int, baseMs: int, maxMs: int)
    requires 1 <= baseMs <= maxMs
    ensures baseMs <= CodedCeiling(attempt, baseMs, maxMs) <= maxMs
  {
    MulMonotone(baseMs, 1, Pow2(Min(Max(attempt, 1) - 1, EXPONENT_CLAMP)));
  }
}
