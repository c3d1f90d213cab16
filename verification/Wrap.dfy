/** Fixed-width arithmetic of the source's unsigned counters. */
module Wrap {
  const TWO_64: nat := 0x1_0000_0000_0000_0000

  type uint64 = x: int | 0 <= x < TWO_64

  /** The value a uint64 holds after an unbounded result is stored in it. */
  function Wrap64(x: nat): uint64 {
    x % TWO_64
  }

  /** Wrapping early or late gives the same sum. */
  lemma WrapSum(x: nat, y: nat)
    ensures Wrap64(Wrap64(x) + y) == Wrap64(x + y)
    ensures Wrap64(x + Wrap64(y)) == Wrap64(x + y)
  {
    var q, p := x / TWO_64, y / TWO_64;
    assert x == q * TWO_64 + Wrap64(x);
    assert y == p * TWO_64 + Wrap64(y);
    WrapShift(Wrap64(x) + y, q);
    WrapShift(x + Wrap64(y), p);
  }

  /** Wrapping early or late gives the same product. */
  lemma WrapProduct(x: nat, k: nat)
    ensures Wrap64(Wrap64(x) * k) == Wrap64(x * k)
  {
    var q := x / TWO_64;
    assert x * k == Wrap64(x) * k + (q * k) * TWO_64 by {
      assert x == q * TWO_64 + Wrap64(x);
      assert (q * TWO_64 + Wrap64(x)) * k == (q * TWO_64) * k + Wrap64(x) * k;
      assert (q * TWO_64) * k == (q * k) * TWO_64;
    }
    WrapShift(Wrap64(x) * k, q * k);
  }

  lemma {:induction false} WrapShift(x: nat, q: nat)
    ensures Wrap64(x + q * TWO_64) == Wrap64(x)
  {
    if q > 0 {
      WrapShift(x, q - 1);
      assert x + q * TWO_64 == (x + (q - 1) * TWO_64) + TWO_64;
    }
  }
}
