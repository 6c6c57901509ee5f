/** Python's shift and bitwise-or on non-negative integers.
    Python integers are unbounded, so `x << n` and `x | y` are modelled on `nat`
    without any wrap-around. */
module Bits {

  /** 2 to the power n. */
  function Pow2(n: nat): (p: nat)
    ensures p >= 1
  {
    if n == 0 then 1 else 2 * Pow2(n - 1)
  }

  /** `x << n` on a non-negative Python integer. */
  function Shl(x: nat, n: nat): nat
  {
    x * Pow2(n)
  }

  /** `x | y` on non-negative Python integers, built bit by bit from the least
      significant end. */
  function BitOr(x: nat, y: nat): nat
    decreases x + y
  {
    if x == 0 && y == 0 then 0
    else 2 * BitOr(x / 2, y / 2) + (if x % 2 == 1 || y % 2 == 1 then 1 else 0)
  }

  /** Bit i (0 = least significant) of x: the reference BitOr is proved equal to, bit by bit. */
  function Bit(x: nat, i: nat): (b: nat)
    ensures b <= 1
  {
    if i == 0 then x % 2 else Bit(x / 2, i - 1)
  }

  /** BitOr is bitwise or: bit i of the result is set exactly when bit i is set
      in either operand. */
  lemma {:induction false} BitOrIsBitwise(x: nat, y: nat, i: nat)
    ensures Bit(BitOr(x, y), i) == 1 <==> Bit(x, i) == 1 || Bit(y, i) == 1
    decreases i
  {
    var z := BitOr(x, y);
    if x == 0 && y == 0 {
      BitOfZero(i);
    } else {
      assert z / 2 == BitOr(x / 2, y / 2);
      if i > 0 {
        BitOrIsBitwise(x / 2, y / 2, i - 1);
      }
    }
  }

  /** Every bit of 0 is clear. */
  lemma {:induction false} BitOfZero(i: nat)
    ensures Bit(0, i) == 0
  {
    if i > 0 {
      BitOfZero(i - 1);
    }
  }

  /** Or-ing with 0 leaves a number unchanged. */
  lemma {:induction false} BitOrZero(x: nat)
    ensures BitOr(x, 0) == x
    decreases x
  {
    if x > 0 {
      BitOrZero(x / 2);
    }
  }

  /** When b fits below bit k, or-ing it into a shifted by k is plain addition:
      the two operands have no set bit in common. */
  lemma {:induction false} OrOfDisjoint(a: nat, b: nat, k: nat)
    requires b < Pow2(k)
    ensures BitOr(Shl(a, k), b) == Shl(a, k) + b
    decreases k
  {
    if k == 0 {
      BitOrZero(a);
    } else {
      var half := a * Pow2(k - 1);
      var x := Shl(a, k);
      assert x == 2 * half;
      if x == 0 && b == 0 {
      } else {
        assert x / 2 == half && x % 2 == 0;
        OrOfDisjoint(a, b / 2, k - 1);
        assert BitOr(half, b / 2) == half + b / 2;
        assert BitOr(x, b) == 2 * (half + b / 2) + b % 2;
      }
    }
  }
}
