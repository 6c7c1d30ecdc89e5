/** Exponential backoff with full jitter, in u64 milliseconds. */
module Backoff {
  import opened Arithmetic

  const MAX_BACKOFF_SHIFT: nat := 32
  const U64_MAX: nat := 0xFFFF_FFFF_FFFF_FFFF

  type U64 = n: nat | n <= U64_MAX

  function Min(a: nat, b: nat): nat {
    if a <= b then a else b
  }

  function Pow2(n: nat): (p: nat)
    ensures p > 0
  {
    if n == 0 then 1 else 2 * Pow2(n - 1)
  }

  function SaturatingMul(a: nat, b: nat): U64 {
    Min(a * b, U64_MAX)
  }

  /** The largest delay a retry may draw. */
  function BackoffBound(base: U64, cap: U64, attempt: nat): U64 {
    if base == 0 || cap == 0 then 0
    else Min(SaturatingMul(base, Pow2(Min(attempt, MAX_BACKOFF_SHIFT))), cap)
  }

  /** A draw from 0 to `bound`: any of these values, picked by an arbitrary seed. */
  function Draw(seed: nat, bound: nat): (d: nat)
    ensures d <= bound
  {
    Min(seed, bound)
  }

  function ComputeBackoff(base: U64, cap: U64, attempt: nat, seed: nat): (delay: nat)
    ensures delay <= cap
  {
    if base == 0 || cap == 0 then 0 else Draw(seed, BackoffBound(base, cap, attempt))
  }

  /** A sleep, by the backoff that sets its length. */
  datatype Nap = Nap(base: U64, cap: U64, attempt: nat, seed: nat)

  function Length(n: Nap): nat {
    ComputeBackoff(n.base, n.cap, n.attempt, n.seed)
  }

  lemma {:induction false} Pow2Monotone(m: nat, n: nat)
    requires m <= n
    ensures Pow2(m) <= Pow2(n)
    decreases n
  {
    if m < n {
      Pow2Monotone(m, n - 1);
    }
  }

  lemma {:induction false} Pow2Grows(m: nat, n: nat)
    requires m < n
    ensures 2 * Pow2(m) <= Pow2(n)
  {
    Pow2Monotone(m, n - 1);
  }

  /** The clamped shift and the saturating multiplication compute min(cap, base * 2^attempt) exactly when the
      clamp is not reached, the base is zero, or the cap is no larger than base * 2^32. */
  lemma {:induction false} BoundIsExponential(base: U64, cap: U64, attempt: nat)
    ensures BackoffBound(base, cap, attempt) == Min(cap, base * Pow2(attempt)) <==>
      attempt <= 32 || base == 0 || cap <= base * Pow2(32)
  {
    if attempt > MAX_BACKOFF_SHIFT && base > 0 {
      Pow2Grows(MAX_BACKOFF_SHIFT, attempt);
      ScaleUp(base, Pow2(MAX_BACKOFF_SHIFT), Pow2(attempt));
    }
  }

  lemma {:induction false} ScaleUp(base: nat, p: nat, q: nat)
    requires base > 0 && p > 0 && 2 * p <= q
    ensures base * p < base * q
  {
    MulMonotone(2 * p, q, base);
    assert base * q == q * base && 2 * p * base == base * p + base * p;
  }

  lemma {:induction false} ShiftIs2To32()
    ensures Pow2(MAX_BACKOFF_SHIFT) == 0x1_0000_0000
  {
    assert Pow2(8) == 256;
    assert Pow2(16) == 65536 by { assert Pow2(12) == 4096; }
    assert Pow2(24) == 16777216 by { assert Pow2(20) == 1048576; }
    assert Pow2(28) == 268435456;
  }

  /** So with any base of at least 1 ms and any cap up to 2^32 ms the bound is the mathematical one. */
  lemma {:induction false} BoundUnderCap(base: U64, cap: U64, attempt: nat)
    requires base >= 1 && cap <= 0x1_0000_0000
    ensures BackoffBound(base, cap, attempt) == Min(cap, base * Pow2(attempt))
  {
    ShiftIs2To32();
    MulMonotone(1, base, Pow2(MAX_BACKOFF_SHIFT));
    BoundIsExponential(base, cap, attempt);
  }

  /** Later attempts never have a smaller bound, for any base and cap. */
  lemma {:induction false} BoundMonotone(base: U64, cap: U64, a: nat, b: nat)
    requires a <= b
    ensures BackoffBound(base, cap, a) <= BackoffBound(base, cap, b) <= cap
  {
    var p, q := Pow2(Min(a, MAX_BACKOFF_SHIFT)), Pow2(Min(b, MAX_BACKOFF_SHIFT));
    Pow2Monotone(Min(a, MAX_BACKOFF_SHIFT), Min(b, MAX_BACKOFF_SHIFT));
    MulMonotone(p, q, base);
    assert base * p == p * base && base * q == q * base;
  }

  /** Full jitter: a sleep can have every whole length up to the bound of its attempt, and none above it. */
  lemma {:induction false} JitterIsFull(base: U64, cap: U64, attempt: nat, delay: nat)
    ensures (exists seed :: Length(Nap(base, cap, attempt, seed)) == delay) <==> delay <= BackoffBound(base, cap, attempt)
  {
    if delay <= BackoffBound(base, cap, attempt) {
      assert Length(Nap(base, cap, attempt, delay)) == delay;
    }
  }
}
