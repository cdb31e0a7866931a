/** Powers of two and the bitwise AND with a mask of low bits, as JavaScript computes it. */
module BitMasks {

  function Pow2(k: nat): (p: nat)
    ensures p >= 1
  {
    if k == 0 then 1 else 2 * Pow2(k - 1)
  }

  ghost predicate IsPow2(n: nat) {
    exists k: nat :: Pow2(k) == n
  }

  /** `x & m` for a two's-complement `x` of any sign and a non-negative `m`:
      Euclidean `/ 2` is the arithmetic right shift and `% 2` the lowest bit. */
  function BitAnd(x: int, m: nat): nat
    decreases m
  {
    if m == 0 then 0 else 2 * BitAnd(x / 2, m / 2) + (if x % 2 == 1 && m % 2 == 1 then 1 else 0)
  }

  lemma {:induction false} BitAndSmall(x: nat, k: nat)
    requires x < Pow2(k)
    ensures BitAnd(x, Pow2(k) - 1) == x
  {
    if k == 0 {
    } else {
      BitAndSmall(x / 2, k - 1);
      assert (Pow2(k) - 1) / 2 == Pow2(k - 1) - 1;
    }
  }

  lemma {:induction false} BitAndPeriodic(x: int, k: nat)
    ensures BitAnd(x + Pow2(k), Pow2(k) - 1) == BitAnd(x, Pow2(k) - 1)
    decreases k
  {
    if k == 0 {
    } else {
      BitAndPeriodic(x / 2, k - 1);
      assert (Pow2(k) - 1) / 2 == Pow2(k - 1) - 1;
      assert (x + Pow2(k)) / 2 == x / 2 + Pow2(k - 1);
    }
  }

  /** Masking an index that left a ring of `cap` slots by at most one lap brings it back. */
  lemma MaskWraps(x: int, cap: nat)
    requires IsPow2(cap) && 0 <= x + cap && x < 2 * cap
    ensures BitAnd(x, cap - 1) == if x < 0 then x + cap else if x < cap then x else x - cap
  {
    var k: nat :| Pow2(k) == cap;
    if x < 0 {
      BitAndPeriodic(x, k);
      BitAndSmall(x + cap, k);
    } else if x < cap {
      BitAndSmall(x, k);
    } else {
      BitAndPeriodic(x - cap, k);
      BitAndSmall(x - cap, k);
    }
  }

  lemma DoublePow2(cap: nat)
    requires IsPow2(cap)
    ensures IsPow2(2 * cap)
  {
    var k: nat :| Pow2(k) == cap;
    assert Pow2(k + 1) == 2 * cap;
  }

  lemma HalfPow2(cap: nat)
    requires IsPow2(cap) && cap > 1
    ensures IsPow2(cap / 2) && cap % 2 == 0
  {
    var k: nat :| Pow2(k) == cap;
    assert Pow2(k - 1) == cap / 2;
  }
}
