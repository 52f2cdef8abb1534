/** Binomial coefficients by Pascal's rule, the reference the closed forms are proved against. */
module Combinatorics {

  function Choose(n: nat, k: nat): nat {
    if k == 0 then 1 else if n == 0 then 0 else Choose(n - 1, k - 1) + Choose(n - 1, k)
  }

  function Pow2(n: nat): (p: nat)
    ensures p >= 1
  {
    if n == 0 then 1 else 2 * Pow2(n - 1)
  }

  /** The integer part of the base-2 logarithm. */
  function FloorLog2(n: nat): (r: nat)
    requires n >= 1
    ensures Pow2(r) <= n < Pow2(r + 1)
  {
    if n == 1 then 0 else 1 + FloorLog2(n / 2)
  }

  ghost predicate IsPowerOfTwo(n: int) {
    exists k: nat :: n == Pow2(k)
  }

  lemma {:induction false} ChooseAbove(n: nat, k: nat)
    requires n < k
    ensures Choose(n, k) == 0
  {
    if n > 0 {
      ChooseAbove(n - 1, k - 1);
      ChooseAbove(n - 1, k);
    }
  }

  lemma {:induction false} ChooseAll(n: nat)
    ensures Choose(n, n) == 1
  {
    if n > 0 {
      ChooseAll(n - 1);
      ChooseAbove(n - 1, n);
    }
  }

  lemma {:induction false} Pow2Order(a: nat, b: nat)
    ensures a < b ==> 2 * Pow2(a) <= Pow2(b)
    ensures a <= b ==> Pow2(a) <= Pow2(b)
  {
    if a < b {
      Pow2Order(a, b - 1);
    }
  }

  lemma {:induction false} PowSum(a: nat, b: nat)
    ensures Pow2(a) * Pow2(b) == Pow2(a + b)
  {
    if a > 0 {
      PowSum(a - 1, b);
      assert 2 * Pow2(a - 1) * Pow2(b) == 2 * (Pow2(a - 1) * Pow2(b));
    }
  }

  /** The logarithm of a power of two is exact. */
  lemma ExactLog(n: nat)
    requires n > 0 && IsPowerOfTwo(n)
    ensures Pow2(FloorLog2(n)) == n
  {
    var k: nat :| n == Pow2(k);
    Pow2Order(k, FloorLog2(n));
    Pow2Order(FloorLog2(n) + 1, k);
  }
}
