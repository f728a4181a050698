/**
 * Non-negative bigints used as bit fields: each bit stands for one sample
 * or one boolean. Bitwise operators are defined digit by digit.
 */
module Bits {
  function Pow2(i: nat): (p: nat)
    ensures p >= 1
  {
    if i == 0 then 1 else 2 * Pow2(i - 1)
  }

  /** Bit `i` of `n`, bit 0 being the least significant. */
  predicate Bit(n: nat, i: nat)
  {
    if i == 0 then n % 2 == 1 else Bit(n / 2, i - 1)
  }

  /** `a & b` */
  function And(a: nat, b: nat): nat
  {
    if a == 0 || b == 0 then 0
    else 2 * And(a / 2, b / 2) + (if a % 2 == 1 && b % 2 == 1 then 1 else 0)
  }

  /** `a | b` */
  function Or(a: nat, b: nat): nat
  {
    if a == 0 then b
    else if b == 0 then a
    else 2 * Or(a / 2, b / 2) + (if a % 2 == 1 || b % 2 == 1 then 1 else 0)
  }

  /** `a & ~b` on non-negative numbers */
  function AndNot(a: nat, b: nat): nat
  {
    if a == 0 then 0
    else 2 * AndNot(a / 2, b / 2) + (if a % 2 == 1 && b % 2 == 0 then 1 else 0)
  }

  /** Number of set bits. */
  function PopCount(n: nat): nat
  {
    if n == 0 then 0 else n % 2 + PopCount(n / 2)
  }

  /** Number of binary digits up to the highest set bit (0 for 0). */
  function BitLength(n: nat): nat
  {
    if n == 0 then 0 else 1 + BitLength(n / 2)
  }

  lemma {:induction false} BitOfZero(i: nat)
    ensures !Bit(0, i)
  {
    if i > 0 {
      BitOfZero(i - 1);
    }
  }

  lemma {:induction false} BitOfPow2(k: nat, i: nat)
    ensures Bit(Pow2(k), i) <==> i == k
  {
    if k == 0 {
      if i > 0 {
        BitOfZero(i - 1);
      }
    } else if i > 0 {
      BitOfPow2(k - 1, i - 1);
    }
  }

  lemma {:induction false} BitOfDouble(x: nat, c: nat, i: nat)
    requires c < 2
    ensures Bit(2 * x + c, i) <==> (if i == 0 then c == 1 else Bit(x, i - 1))
  {
  }

  /** Two bit fields with the same bits are the same number. */
  lemma {:induction false} BitsDetermine(a: nat, b: nat)
    requires forall i: nat :: Bit(a, i) <==> Bit(b, i)
    ensures a == b
    decreases a + b
  {
    if a != 0 || b != 0 {
      assert Bit(a, 0) <==> Bit(b, 0);
      forall i: nat
        ensures Bit(a / 2, i) <==> Bit(b / 2, i)
      {
        assert Bit(a, i + 1) <==> Bit(b, i + 1);
      }
      BitsDetermine(a / 2, b / 2);
    }
  }

  /** A number with no set bit is zero. */
  lemma {:induction false} NoBitIsZero(a: nat)
    requires forall i: nat :: !Bit(a, i)
    ensures a == 0
  {
    forall i: nat
      ensures Bit(a, i) <==> Bit(0, i)
    {
      BitOfZero(i);
    }
    BitsDetermine(a, 0);
  }

  lemma {:induction false} BitOfAnd(a: nat, b: nat, i: nat)
    ensures Bit(And(a, b), i) <==> Bit(a, i) && Bit(b, i)
    decreases a
  {
    if a == 0 || b == 0 {
      BitOfZero(i);
    } else {
      BitOfDouble(And(a / 2, b / 2), if a % 2 == 1 && b % 2 == 1 then 1 else 0, i);
      BitOfDouble(a / 2, a % 2, i);
      BitOfDouble(b / 2, b % 2, i);
      if i > 0 {
        BitOfAnd(a / 2, b / 2, i - 1);
      }
    }
  }

  lemma {:induction false} BitOfOr(a: nat, b: nat, i: nat)
    ensures Bit(Or(a, b), i) <==> Bit(a, i) || Bit(b, i)
    decreases a
  {
    if a == 0 || b == 0 {
      BitOfZero(i);
    } else {
      BitOfDouble(Or(a / 2, b / 2), if a % 2 == 1 || b % 2 == 1 then 1 else 0, i);
      BitOfDouble(a / 2, a % 2, i);
      BitOfDouble(b / 2, b % 2, i);
      if i > 0 {
        BitOfOr(a / 2, b / 2, i - 1);
      }
    }
  }

  lemma {:induction false} BitOfAndNot(a: nat, b: nat, i: nat)
    ensures Bit(AndNot(a, b), i) <==> Bit(a, i) && !Bit(b, i)
    decreases a
  {
    if a == 0 {
      BitOfZero(i);
    } else {
      BitOfDouble(AndNot(a / 2, b / 2), if a % 2 == 1 && b % 2 == 0 then 1 else 0, i);
      BitOfDouble(a / 2, a % 2, i);
      BitOfDouble(b / 2, b % 2, i);
      if i > 0 {
        BitOfAndNot(a / 2, b / 2, i - 1);
      }
    }
  }

  lemma {:induction false} AndSelf(a: nat)
    ensures And(a, a) == a
  {
    forall i: nat
      ensures Bit(And(a, a), i) <==> Bit(a, i)
    {
      BitOfAnd(a, a, i);
    }
    BitsDetermine(And(a, a), a);
  }

  lemma {:induction false} PopCountZero(n: nat)
    ensures PopCount(n) == 0 <==> n == 0
    decreases n
  {
    if n != 0 {
      PopCountZero(n / 2);
    }
  }

  /** `n & (n - 1)` clears exactly the lowest set bit of a positive `n`. */
  lemma {:induction false} ClearLowestBit(n: nat)
    requires n > 0
    ensures PopCount(And(n, n - 1)) == PopCount(n) - 1
    ensures And(n, n - 1) < n
    decreases n
  {
    if n % 2 == 1 {
      assert (n - 1) / 2 == n / 2;
      AndSelf(n / 2);
      if n - 1 != 0 {
        assert And(n, n - 1) == 2 * And(n / 2, n / 2);
      }
    } else {
      assert (n - 1) / 2 == n / 2 - 1;
      ClearLowestBit(n / 2);
      assert And(n, n - 1) == 2 * And(n / 2, n / 2 - 1);
    }
  }

  /** `n & (n - 1) != 0` holds exactly when `n` has at least two set bits. */
  lemma {:induction false} SeveralBits(n: nat)
    requires n > 0
    ensures And(n, n - 1) != 0 <==> PopCount(n) >= 2
  {
    ClearLowestBit(n);
    PopCountZero(And(n, n - 1));
  }

  /** Below `Pow2(w)` every set bit has index under `w`. */
  lemma {:induction false} BitBelowPow2(n: nat, w: nat, i: nat)
    requires n < Pow2(w)
    requires Bit(n, i)
    ensures i < w
  {
    if w == 0 {
      assert n == 0;
      BitOfZero(i);
    } else if i > 0 {
      BitBelowPow2(n / 2, w - 1, i - 1);
    }
  }

  /** A number whose bits all sit below `w` is below `Pow2(w)`. */
  lemma {:induction false} BitsBelowPow2(n: nat, w: nat)
    requires forall i: nat :: Bit(n, i) ==> i < w
    ensures n < Pow2(w)
    decreases w
  {
    if w == 0 {
      NoBitIsZero(n);
    } else {
      forall i: nat | Bit(n / 2, i)
        ensures i < w - 1
      {
        assert Bit(n, i + 1);
      }
      BitsBelowPow2(n / 2, w - 1);
    }
  }

  /** `Pow2(w) - 1`, the mask of the `w` lowest bits, has exactly those bits. */
  lemma {:induction false} BitOfLowMask(w: nat, i: nat)
    ensures Bit(Pow2(w) - 1, i) <==> i < w
  {
    if w > 0 {
      assert (Pow2(w) - 1) % 2 == 1;
      assert (Pow2(w) - 1) / 2 == Pow2(w - 1) - 1;
      if i > 0 {
        BitOfLowMask(w - 1, i - 1);
      }
    } else {
      BitOfZero(i);
    }
  }
}
