/** Retry back-off (engine.py), over the reals: rounding is not modelled. */
module Backoff {
  datatype RetryPolicy = RetryPolicy(maxAttempts: int, initial: real, multiplier: real, maximum: real, jitter: real)

  /** What `_retry_policy` accepts. */
  predicate Accepted(p: RetryPolicy) {
    p.maxAttempts >= 1 && p.initial >= 0.0 && p.maximum >= 0.0 && p.multiplier >= 1.0 && 0.0 <= p.jitter <= 1.0
  }

  function Pow(m: real, n: nat): real {
    if n == 0 then 1.0 else m * Pow(m, n - 1)
  }

  function Lesser(a: real, b: real): real { if a <= b then a else b }

  /** The delay before jitter, after attempt `n`. */
  function Base(p: RetryPolicy, n: nat): real
    requires n >= 1
  {
    Lesser(p.maximum, p.initial * Pow(p.multiplier, n - 1))
  }

  function Jitter(base: real, j: real, unit: real): real {
    if base <= 0.0 || j <= 0.0 then base
    else
      var d := base * (1.0 - j + 2.0 * j * unit);
      if d >= 0.0 then d else 0.0
  }

  /** `retry_delay_seconds`; `unit` is the hash-derived fraction between 0 and 1. */
  function Delay(p: RetryPolicy, n: nat, unit: real): real
    requires n >= 1
  {
    Jitter(Base(p, n), p.jitter, unit)
  }

  lemma {:induction false} PowGrows(m: real, n: nat)
    requires m >= 1.0
    ensures 1.0 <= Pow(m, n) <= Pow(m, n + 1)
  {
    if n > 0 {
      PowGrows(m, n - 1);
      assert Pow(m, n) == m * Pow(m, n - 1);
      assert Pow(m, n + 1) == m * Pow(m, n);
      MulGrows(m, Pow(m, n - 1));
      MulGrows(m, Pow(m, n));
    }
  }

  lemma MulGrows(m: real, x: real)
    requires m >= 1.0 && x >= 0.0
    ensures m * x >= x
  {
    assert m * x == x + (m - 1.0) * x;
  }

  lemma Scale(a: real, x: real, y: real)
    requires a >= 0.0 && x <= y
    ensures a * x <= a * y
  {
  }

  /** The base delay never shrinks from one attempt to the next, and never exceeds the maximum. */
  lemma BaseGrowsToMaximum(p: RetryPolicy, n: nat)
    requires Accepted(p) && n >= 1
    ensures 0.0 <= Base(p, n) <= Base(p, n + 1) <= p.maximum
  {
    PowGrows(p.multiplier, n - 1);
    Scale(p.initial, Pow(p.multiplier, n - 1), Pow(p.multiplier, n));
    Scale(p.initial, 0.0, Pow(p.multiplier, n - 1));
  }

  /** The first delay is the initial one, each later one the multiple of the one before, capped. */
  lemma BaseFollowsPolicy(p: RetryPolicy, n: nat)
    requires Accepted(p) && n >= 1
    ensures Base(p, 1) == (if p.initial <= p.maximum then p.initial else p.maximum)
    ensures Base(p, n + 1) ==
            (if p.multiplier * Base(p, n) <= p.maximum then p.multiplier * Base(p, n) else p.maximum)
  {
    var m, x := p.multiplier, p.initial * Pow(p.multiplier, n - 1);
    assert Pow(p.multiplier, 0) == 1.0;
    assert p.initial * Pow(m, n) == m * x by {
      assert Pow(m, n) == m * Pow(m, n - 1);
      assert p.initial * (m * Pow(m, n - 1)) == m * (p.initial * Pow(m, n - 1));
    }
    MulGrows(m, p.maximum);
    if x > p.maximum { Scale(m, p.maximum, x); }
  }

  /** Jitter spreads a delay evenly from one end of its range to the other. */
  lemma JitterSpreads(p: RetryPolicy, n: nat, unit: real, base: real)
    requires Accepted(p) && n >= 1 && 0.0 <= unit <= 1.0 && base == Base(p, n)
    ensures Delay(p, n, 0.0) == base * (1.0 - p.jitter)
    ensures Delay(p, n, 1.0) == base * (1.0 + p.jitter)
    ensures Delay(p, n, unit) == Delay(p, n, 0.0) + unit * (Delay(p, n, 1.0) - Delay(p, n, 0.0))
  {
    BaseGrowsToMaximum(p, n);
    if base > 0.0 && p.jitter > 0.0 {
      JitterAt(base, p.jitter, 0.0);
      JitterAt(base, p.jitter, 1.0);
      JitterAt(base, p.jitter, unit);
      assert base * (1.0 - p.jitter + 2.0 * p.jitter * unit)
          == base * (1.0 - p.jitter) + unit * (base * (1.0 + p.jitter) - base * (1.0 - p.jitter));
    } else if base <= 0.0 {
      assert base == 0.0;
    }
  }

  lemma JitterAt(base: real, j: real, unit: real)
    requires base > 0.0 && 0.0 < j <= 1.0 && 0.0 <= unit <= 1.0
    ensures Jitter(base, j, unit) == base * (1.0 - j + 2.0 * j * unit)
  {
    JitterFactor(j, unit, 1.0 - j + 2.0 * j * unit);
    Multiples(base, 1.0 - j, 1.0 - j + 2.0 * j * unit, 1.0 + j);
  }

  lemma JitterFactor(j: real, unit: real, factor: real)
    requires 0.0 <= j <= 1.0 && 0.0 <= unit <= 1.0 && factor == 1.0 - j + 2.0 * j * unit
    ensures 0.0 <= 1.0 - j <= factor <= 1.0 + j
  {
    Scale(2.0 * j, unit, 1.0);
    Scale(2.0 * j, 0.0, unit);
  }

  /** `factor` stands between `low` and `high`, and so do their multiples. */
  lemma Multiples(base: real, low: real, factor: real, high: real)
    requires base >= 0.0 && 0.0 <= low <= factor <= high
    ensures 0.0 <= base * low <= base * factor <= base * high
  {
    Scale(base, 0.0, low);
    Scale(base, low, factor);
    Scale(base, factor, high);
  }

  lemma JitterIsMultiple(base: real, j: real, unit: real) returns (factor: real)
    requires base >= 0.0 && 0.0 <= j <= 1.0 && 0.0 <= unit <= 1.0
    ensures 1.0 - j <= factor <= 1.0 + j && Jitter(base, j, unit) == base * factor
  {
    if base <= 0.0 || j <= 0.0 {
      factor := 1.0;
    } else {
      factor := 1.0 - j + 2.0 * j * unit;
      JitterFactor(j, unit, factor);
      Multiples(base, 1.0 - j, factor, 1.0 + j);
    }
  }

  lemma JitterBounds(base: real, j: real, unit: real, low: real, high: real)
    requires base >= 0.0 && 0.0 <= j <= 1.0 && 0.0 <= unit <= 1.0 && low == 1.0 - j && high == 1.0 + j
    ensures 0.0 <= base * low <= Jitter(base, j, unit) <= base * high
  {
    var factor := JitterIsMultiple(base, j, unit);
    Multiples(base, low, factor, high);
  }

  /** Each delay lies within `base * (1 - jitter)` and `base * (1 + jitter)`. */
  lemma DelayWithinJitter(p: RetryPolicy, n: nat, unit: real)
    requires Accepted(p) && n >= 1 && 0.0 <= unit <= 1.0
    ensures 0.0 <= Base(p, n) * (1.0 - p.jitter) <= Delay(p, n, unit) <= Base(p, n) * (1.0 + p.jitter)
  {
    BaseGrowsToMaximum(p, n);
    JitterBounds(Base(p, n), p.jitter, unit, 1.0 - p.jitter, 1.0 + p.jitter);
  }

  function Longest(p: RetryPolicy): real { p.maximum * (1.0 + p.jitter) }

  lemma DelayBounded(p: RetryPolicy, n: nat, unit: real, high: real, longest: real)
    requires Accepted(p) && n >= 1 && 0.0 <= unit <= 1.0 && high == 1.0 + p.jitter && longest == p.maximum * high
    ensures 0.0 <= Delay(p, n, unit) <= longest
  {
    BaseGrowsToMaximum(p, n);
    JitterBounds(Base(p, n), p.jitter, unit, 1.0 - p.jitter, high);
    Scale(high, Base(p, n), p.maximum);
  }

  function Sum(d: nat -> real, i: nat, k: nat): real
    decreases k - i
  {
    if i >= k then 0.0 else d(i) + Sum(d, i + 1, k)
  }

  lemma OneMore(d: real, rest: real, n: nat, cap: real)
    requires 0.0 <= d <= cap && 0.0 <= rest <= n as real * cap
    ensures 0.0 <= d + rest <= (n + 1) as real * cap
  {
    assert (n + 1) as real * cap == cap + n as real * cap;
  }

  lemma {:induction false} SumBounded(d: nat -> real, i: nat, k: nat, cap: real)
    requires i <= k && forall n :: i <= n < k ==> 0.0 <= d(n) <= cap
    ensures 0.0 <= Sum(d, i, k) <= (k - i) as real * cap
    decreases k - i
  {
    if i < k {
      SumBounded(d, i + 1, k, cap);
      OneMore(d(i), Sum(d, i + 1, k), k - i - 1, cap);
    }
  }

  /** The sleep after attempt `n`, the fraction of that attempt being `unit(n)`. */
  function Delays(p: RetryPolicy, unit: nat -> real): nat -> real {
    n => if n >= 1 then Delay(p, n, unit(n)) else 0.0
  }

  lemma DelaysBounded(p: RetryPolicy, k: nat, unit: nat -> real, high: real, longest: real)
    requires Accepted(p) && high == 1.0 + p.jitter && longest == p.maximum * high &&
             forall n: nat :: 0.0 <= unit(n) <= 1.0
    ensures forall n :: 1 <= n < k ==> 0.0 <= Delays(p, unit)(n) <= longest
  {
    forall n: nat | 1 <= n < k ensures 0.0 <= Delays(p, unit)(n) <= longest {
      DelayBounded(p, n, unit(n), high, longest);
    }
  }

  /** A loop that makes `k` attempts sleeps at most `(k - 1) * max * (1 + jitter)`. */
  lemma TotalSleepBounded(p: RetryPolicy, k: nat, unit: nat -> real, longest: real)
    requires Accepted(p) && k >= 1 && longest == Longest(p) && forall n: nat :: 0.0 <= unit(n) <= 1.0
    ensures 0.0 <= Sum(Delays(p, unit), 1, k) <= (k - 1) as real * longest
  {
    DelaysBounded(p, k, unit, 1.0 + p.jitter, longest);
    SumBounded(Delays(p, unit), 1, k, longest);
  }
}
