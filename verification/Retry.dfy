/** Exponential backoff: the delays and the retry loop. Durations are whole milliseconds. */
module Retry {
  import opened Basics

  const U64_MAX: nat := 0xFFFF_FFFF_FFFF_FFFF

  type u64 = n: nat | n <= U64_MAX

  datatype RetryPolicy = RetryPolicy(maxRetries: nat, baseDelay: u64, maxDelay: u64, jitter: bool) {
    function MaxSleep(): nat { maxDelay + maxDelay / 4 }
  }

  const DEFAULT_POLICY := RetryPolicy(3, 200, 10000, true)

  /** The hash that spreads the jitter: 64-bit arithmetic that wraps around. */
  function SimpleHash(attempt: bv64): bv64 {
    var h := attempt * 6364136223846793005 + 1442695040888963407;
    h ^ (h >> 33)
  }

  /** The attempt as a 64-bit word, counted up from zero. */
  function Word(attempt: nat): bv64 {
    if attempt == 0 then 0 else Word(attempt - 1) + 1
  }

  function HashOf(attempt: nat): nat {
    SimpleHash(Word(attempt)) as nat
  }

  function Pow2(n: nat): (p: nat)
    ensures p > 0
  {
    if n == 0 then 1 else 2 * Pow2(n - 1)
  }

  function SaturatingMul(a: nat, b: nat): u64 {
    Min(a * b, U64_MAX)
  }

  function Capped(p: RetryPolicy, attempt: nat): nat {
    Min(SaturatingMul(p.baseDelay, Pow2(Min(attempt, 16))), p.maxDelay)
  }

  function Spread(hash: nat, quarter: nat): (r: nat)
    ensures r < Max(1, quarter) && (hash < Max(1, quarter) ==> r == hash)
  {
    hash % Max(1, quarter)
  }

  function JitteredDelay(p: RetryPolicy, attempt: nat, hash: nat): nat {
    var capped := Capped(p, attempt);
    Min(capped + Spread(hash, capped / 4), U64_MAX)
  }

  function DelayFor(p: RetryPolicy, attempt: nat): nat {
    if p.jitter then JitteredDelay(p, attempt, HashOf(attempt)) else Capped(p, attempt)
  }

  lemma {:induction false} Pow2Grows(a: nat, b: nat)
    requires a <= b
    ensures Pow2(a) <= Pow2(b)
    decreases b
  {
    if a < b { Pow2Grows(a, b - 1); }
  }

  lemma CappedGrows(p: RetryPolicy, a: nat, b: nat)
    requires a <= b
    ensures Capped(p, a) <= Capped(p, b)
  {
    Pow2Grows(Min(a, 16), Min(b, 16));
    ProductMonotone(p.baseDelay, Pow2(Min(a, 16)), Pow2(Min(b, 16)));
  }

  /** Every delay lies between the capped exponential and a quarter above it, so it never
      exceeds the maximum delay by more than a quarter. */
  lemma DelayBounds(p: RetryPolicy, attempt: nat)
    ensures Capped(p, attempt) <= DelayFor(p, attempt) <= Capped(p, attempt) + Capped(p, attempt) / 4
    ensures DelayFor(p, attempt) <= p.MaxSleep()
    ensures !p.jitter ==> DelayFor(p, attempt) <= p.maxDelay
  {
    assert Capped(p, attempt) <= p.maxDelay;
  }

  /** Without jitter the delays never shrink. */
  lemma DelaysGrow(p: RetryPolicy, a: nat, b: nat)
    requires a <= b && !p.jitter
    ensures DelayFor(p, a) <= DelayFor(p, b)
  {
    CappedGrows(p, a, b);
  }

  /** The first delay, before any jitter, is the base delay; each next one doubles up to the maximum;
      after sixteen doublings the delay stays. */
  lemma CappedExactly(p: RetryPolicy, attempt: nat)
    ensures Capped(p, 0) == Min(p.baseDelay, p.maxDelay)
    ensures attempt < 16 ==> Capped(p, attempt + 1) == Min(2 * Capped(p, attempt), p.maxDelay)
    ensures attempt >= 16 ==> Capped(p, attempt) == Capped(p, 16)
  {
    if attempt < 16 {
      Doubled(p.baseDelay, Pow2(attempt));
      DoubleCapped(p.baseDelay * Pow2(attempt), p.maxDelay);
    }
  }

  lemma DoubleCapped(x: nat, max: u64)
    ensures Min(Min(2 * x, U64_MAX), max) == Min(2 * Min(Min(x, U64_MAX), max), max)
  {
  }

  lemma Doubled(base: nat, x: nat)
    ensures base * (2 * x) == 2 * (base * x)
  {
  }

  lemma CappedDoubles(p: RetryPolicy, a: nat, b: nat)
    requires a < b <= 16 && p.baseDelay * Pow2(b) <= p.maxDelay
    ensures 2 * Capped(p, a) <= Capped(p, b)
  {
    var half := p.baseDelay * Pow2(b - 1);
    Doubled(p.baseDelay, Pow2(b - 1));
    assert Pow2(b) == 2 * Pow2(b - 1);
    assert Capped(p, b) == 2 * half;
    Pow2Grows(a, b - 1);
    ProductMonotone(p.baseDelay, Pow2(a), Pow2(b - 1));
    assert Capped(p, a) <= half;
  }

  /** Even with jitter they grow as long as the later one is not held down by the maximum
      or by the limit of sixteen doublings. */
  lemma JitteredDelaysGrow(p: RetryPolicy, a: nat, b: nat)
    requires a < b <= 16 && p.baseDelay * Pow2(b) <= p.maxDelay
    ensures DelayFor(p, a) <= DelayFor(p, b)
  {
    CappedDoubles(p, a, b);
    DelayBounds(p, a);
    DelayBounds(p, b);
    assert Capped(p, a) + Capped(p, a) / 4 <= 2 * Capped(p, a);
  }

  lemma ShippedPowers(b: nat)
    requires b <= 5
    ensures 200 * Pow2(b) <= 10000
  {
    Pow2Grows(b, 5);
    assert Pow2(5) == 32;
  }

  /** The shipped policy makes three retries, and its delays grow up to the sixth. */
  lemma ShippedDelaysGrow(a: nat, b: nat)
    requires a < b <= 5
    ensures DEFAULT_POLICY.maxRetries <= 5
    ensures DelayFor(DEFAULT_POLICY, a) <= DelayFor(DEFAULT_POLICY, b)
  {
    ShippedPowers(b);
    JitteredDelaysGrow(DEFAULT_POLICY, a, b);
  }

  // ---------------------------------------------------------------- when jittered delays shrink

  /** The longest delay any hash can give. */
  function Longest(p: RetryPolicy, attempt: nat): nat {
    Min(Capped(p, attempt) + Max(1, Capped(p, attempt) / 4) - 1, U64_MAX)
  }

  lemma JitteredBounds(p: RetryPolicy, attempt: nat, hash: nat)
    ensures Capped(p, attempt) <= JitteredDelay(p, attempt, hash) <= Longest(p, attempt)
  {
  }

  lemma ExtremeDelays(p: RetryPolicy, attempt: nat)
    ensures JitteredDelay(p, attempt, 0) == Capped(p, attempt)
    ensures JitteredDelay(p, attempt, Max(1, Capped(p, attempt) / 4) - 1) == Longest(p, attempt)
  {
  }

  /** Two jittered delays are in order whatever the hashes exactly when the most jitter on the
      first does not pass the second without jitter. At the maximum delay it does. */
  lemma JitterOrderExactly(p: RetryPolicy, a: nat, b: nat)
    ensures (forall g: nat, h: nat :: JitteredDelay(p, a, g) <= JitteredDelay(p, b, h))
            <==> Longest(p, a) <= Capped(p, b)
  {
    if Longest(p, a) <= Capped(p, b) {
      forall g: nat, h: nat
        ensures JitteredDelay(p, a, g) <= JitteredDelay(p, b, h)
      {
        JitteredBounds(p, a, g);
        JitteredBounds(p, b, h);
      }
    } else {
      ExtremeDelays(p, a);
      ExtremeDelays(p, b);
    }
  }

  lemma HashOfNine(a: nat)
    requires a == 9
    ensures HashOf(a) == 3379688834770628975
  {
    assert Word(3) == 3 && Word(6) == 6;
    assert Word(a) == 9;
    assert SimpleHash(9) == 3379688834770628975;
  }

  lemma HashOfTen(a: nat)
    requires a == 10
    ensures HashOf(a) == 9743825057177861040
  {
    assert Word(4) == 4 && Word(7) == 7;
    assert Word(a) == 10;
    assert SimpleHash(10) == 9743825057177861040;
  }

  lemma DelayIs(p: RetryPolicy, attempt: nat, hash: nat, capped: nat)
    requires p.jitter && HashOf(attempt) == hash && Capped(p, attempt) == capped
    ensures DelayFor(p, attempt) == Min(capped + Spread(hash, capped / 4), U64_MAX)
  {
  }

  lemma SpreadsShrink()
    ensures Spread(3379688834770628975, 2500) == 1475
    ensures Spread(9743825057177861040, 2500) == 1040
  {
  }

  /** The source's own hash makes a delay shrink: with the shipped delays, attempt 9 is followed
      by a wait of 11475 ms and attempt 10 by one of 11040 ms. */
  lemma DelaysShrink(p: RetryPolicy, a: nat, b: nat)
    requires p == DEFAULT_POLICY && a == 9 && b == 10
    ensures DelayFor(p, a) == 11475 && DelayFor(p, b) == 11040
  {
    HashOfNine(a);
    HashOfTen(b);
    ShippedCap(a);
    ShippedCap(b);
    SpreadsShrink();
    DelayIs(p, a, 3379688834770628975, 10000);
    DelayIs(p, b, 9743825057177861040, 10000);
  }

  lemma ShippedCap(attempt: nat)
    requires 6 <= attempt
    ensures Capped(DEFAULT_POLICY, attempt) == 10000
  {
    Pow2Grows(6, Min(attempt, 16));
    assert Pow2(6) == 64;
  }

  // ---------------------------------------------------------------- the loop

  /** Time slept after the first `n` failed attempts. */
  function SleepAfter(p: RetryPolicy, n: nat): nat {
    if n == 0 then 0 else SleepAfter(p, n - 1) + DelayFor(p, n - 1)
  }

  lemma NextPower(base: nat, x: nat)
    ensures base * (2 * x - 1) == base * (x - 1) + base * x
  {
  }

  lemma UncappedDelay(p: RetryPolicy, n: nat)
    requires n < 16 && p.baseDelay * Pow2(n) <= p.maxDelay
    ensures p.baseDelay * Pow2(n) <= DelayFor(p, n)
    ensures 4 * DelayFor(p, n) <= 5 * (p.baseDelay * Pow2(n))
    ensures !p.jitter ==> DelayFor(p, n) == p.baseDelay * Pow2(n)
  {
    DelayBounds(p, n);
    var whole := p.baseDelay * Pow2(n);
    assert Capped(p, n) == whole;
    FiveQuarters(whole, DelayFor(p, n));
    assert !p.jitter ==> DelayFor(p, n) == Capped(p, n);
  }

  lemma FiveQuarters(x: nat, d: nat)
    requires d <= x + x / 4
    ensures 4 * d <= 5 * x
  {
  }

  /** While the maximum delay is not reached, the sleeps of `n` failed attempts are a geometric
      sum; jitter adds at most a quarter to it. */
  lemma {:induction false} SleepIsGeometric(p: RetryPolicy, n: nat)
    requires n <= 16 && (n > 0 ==> p.baseDelay * Pow2(n - 1) <= p.maxDelay)
    ensures p.baseDelay * (Pow2(n) - 1) <= SleepAfter(p, n)
    ensures 4 * SleepAfter(p, n) <= 5 * (p.baseDelay * (Pow2(n) - 1))
    ensures !p.jitter ==> SleepAfter(p, n) == p.baseDelay * (Pow2(n) - 1)
    decreases n
  {
    if n > 0 {
      if n > 1 {
        Pow2Grows(n - 2, n - 1);
        ProductMonotone(p.baseDelay, Pow2(n - 2), Pow2(n - 1));
      }
      SleepIsGeometric(p, n - 1);
      UncappedDelay(p, n - 1);
      NextPower(p.baseDelay, Pow2(n - 1));
    }
  }

  lemma {:induction false} SleepBounded(p: RetryPolicy, n: nat)
    ensures SleepAfter(p, n) <= p.MaxSleep() * n
    decreases n
  {
    if n > 0 {
      SleepBounded(p, n - 1);
      DelayBounds(p, n - 1);
      assert p.MaxSleep() * n == p.MaxSleep() * (n - 1) + p.MaxSleep();
    }
  }

  /** A whole retry loop sleeps at most five quarters of the maximum delay per retry. */
  lemma RetrySleepBounded(p: RetryPolicy, calls: nat)
    requires 1 <= calls <= p.maxRetries + 1
    ensures SleepAfter(p, calls - 1) <= p.MaxSleep() * p.maxRetries
  {
    SleepBounded(p, calls - 1);
    ProductMonotone(p.MaxSleep(), calls - 1, p.maxRetries);
  }

  /** `attempt` gives the outcome of each call. The loop stops at the first success or after
      the last permitted attempt, and returns that outcome. */
  method RetryWithBackoff<T, E>(p: RetryPolicy, attempt: nat -> Result<T, E>)
    returns (r: Result<T, E>, calls: nat, slept: nat)
    ensures 1 <= calls <= p.maxRetries + 1
    ensures forall i :: 0 <= i < calls - 1 ==> attempt(i).Err?
    ensures r == attempt(calls - 1)
    ensures r.Err? ==> calls == p.maxRetries + 1
    ensures slept == SleepAfter(p, calls - 1)
  {
    var lastErr: Option<E> := None;
    calls, slept := 0, 0;
    while calls <= p.maxRetries
      invariant calls <= p.maxRetries + 1
      invariant forall i :: 0 <= i < calls ==> attempt(i).Err?
      invariant calls > 0 ==> lastErr.Some? && attempt(calls - 1) == Err(lastErr.value)
      invariant slept == SleepAfter(p, Min(calls, p.maxRetries))
    {
      var outcome := attempt(calls);
      calls := calls + 1;
      match outcome
      case Ok(v) =>
        return outcome, calls, slept;
      case Err(e) =>
        if calls - 1 < p.maxRetries {
          slept := slept + DelayFor(p, calls - 1);
        }
        lastErr := Some(e);
    }
    r := Err(lastErr.value);
  }
}
