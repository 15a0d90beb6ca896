/** Retry decisions and exponential back-off. */
module RetryPolicies {
  import opened Prelude

  datatype Policy = Policy(maxAttempts: int, baseDelay: int, maxDelay: int)

  /** What the policy's constructor insists on. */
  predicate ValidPolicy(p: Policy) {
    p.maxAttempts >= 1 && 0 <= p.baseDelay <= p.maxDelay
  }

  function Pow2(n: nat): nat {
    if n == 0 then 1 else 2 * Pow2(n - 1)
  }

  /** The delay recorded after a failed attempt; attempts count from one. */
  function NextDelay(p: Policy, attempt: nat): int
    requires attempt >= 1
  {
    Min(p.baseDelay * Pow2(attempt - 1), p.maxDelay)
  }

  /** All delays of the first `retries` retries. */
  function TotalDelay(p: Policy, retries: nat): int {
    if retries == 0 then 0 else TotalDelay(p, retries - 1) + NextDelay(p, retries)
  }

  lemma {:induction false} DelaysNeverShrink(p: Policy, a: nat, b: nat)
    requires ValidPolicy(p) && 1 <= a <= b
    ensures NextDelay(p, a) <= NextDelay(p, b) <= p.maxDelay
    decreases b
  {
    if a == b {
    } else {
      DelaysNeverShrink(p, a, b - 1);
      assert p.baseDelay * Pow2(b - 1) == 2 * (p.baseDelay * Pow2(b - 2)) by {
        assert Pow2(b - 1) == 2 * Pow2(b - 2);
      }
      NonNegative(p.baseDelay, Pow2(b - 2));
    }
  }

  /** The first delay is the base delay, every later one twice the one before, up to the cap. */
  lemma DelayDoubles(p: Policy, a: nat)
    requires ValidPolicy(p) && a >= 1
    ensures NextDelay(p, 1) == p.baseDelay
    ensures NextDelay(p, a + 1) == Min(2 * NextDelay(p, a), p.maxDelay)
  {
    assert p.baseDelay * Pow2(a) == 2 * (p.baseDelay * Pow2(a - 1)) by {
      assert Pow2(a) == 2 * Pow2(a - 1);
    }
    assert Pow2(0) == 1;
  }

  lemma NonNegative(a: int, b: nat)
    requires a >= 0
    ensures a * b >= 0
  {
  }

  lemma Geometric(b: int, r: nat)
    requires r > 0
    ensures b * (Pow2(r) - 1) == b * (Pow2(r - 1) - 1) + b * Pow2(r - 1)
    ensures r > 1 ==> b * Pow2(r - 1) == 2 * (b * Pow2(r - 2))
  {
    var h: int := Pow2(r - 1);
    assert Pow2(r) == 2 * h;
    assert b * (2 * h - 1) == b * (h - 1) + b * h;
  }

  lemma CapStep(r: nat, cap: int)
    requires r > 0
    ensures r * cap == (r - 1) * cap + cap
  {
  }

  lemma {:induction false} TotalWithinCap(p: Policy, r: nat)
    requires ValidPolicy(p)
    ensures TotalDelay(p, r) <= r * p.maxDelay
    decreases r
  {
    hide Pow2;
    if r == 0 {
    } else {
      TotalWithinCap(p, r - 1);
      CapStep(r, p.maxDelay);
    }
  }

  lemma {:induction false} TotalWithinSum(p: Policy, r: nat)
    requires ValidPolicy(p)
    ensures TotalDelay(p, r) <= p.baseDelay * (Pow2(r) - 1)
    decreases r
  {
    if r == 0 {
      PowZero(p.baseDelay);
    } else {
      hide Pow2;
      TotalWithinSum(p, r - 1);
      Geometric(p.baseDelay, r);
    }
  }

  lemma {:induction false} UncappedTotal(p: Policy, r: nat)
    requires ValidPolicy(p)
    requires r > 0 ==> p.baseDelay * Pow2(r - 1) <= p.maxDelay
    ensures TotalDelay(p, r) == p.baseDelay * (Pow2(r) - 1)
    decreases r
  {
    if r == 0 {
      PowZero(p.baseDelay);
    } else {
      hide Pow2;
      Geometric(p.baseDelay, r);
      if r > 1 {
        NonNegative(p.baseDelay, Pow2(r - 2));
      }
      UncappedTotal(p, r - 1);
    }
  }

  /** The total delay is bounded by the cap and by the uncapped geometric sum, and meets that sum
      as long as the last delay is not capped. */
  lemma TotalDelayBounded(p: Policy, r: nat)
    requires ValidPolicy(p)
    ensures TotalDelay(p, r) <= Min(r * p.maxDelay, p.baseDelay * (Pow2(r) - 1))
    ensures r > 0 && p.baseDelay * Pow2(r - 1) <= p.maxDelay ==> TotalDelay(p, r) == p.baseDelay * (Pow2(r) - 1)
  {
    hide TotalDelay, Pow2;
    TotalWithinCap(p, r);
    TotalWithinSum(p, r);
    if r > 0 && p.baseDelay * Pow2(r - 1) <= p.maxDelay {
      UncappedTotal(p, r);
    }
  }

  lemma PowZero(b: int)
    ensures b * (Pow2(0) - 1) == 0
  {
  }
}
