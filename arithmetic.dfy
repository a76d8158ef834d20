/** Integer facts shared by the modules of this model. */
module Arithmetic {

  /** 2^k. */
  function Pow2(k: nat): (r: nat)
    ensures r >= 1
  {
    if k == 0 then 1 else 2 * Pow2(k - 1)
  }

  /** Powers of two grow with the exponent. */
  lemma {:induction false} Pow2Monotone(a: nat, b: nat)
    requires a <= b
    ensures Pow2(a) <= Pow2(b)
  {
    if a < b {
      Pow2Monotone(a, b - 1);
    }
  }

  /** m <= m * b when b is at least 1. */
  lemma {:induction false} MulAtLeast(m: nat, b: nat)
    requires b >= 1
    ensures m <= m * b
  {
    if b > 1 {
      MulAtLeast(m, b - 1);
      assert m * b == m * (b - 1) + m;
    }
  }
}
