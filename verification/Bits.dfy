/** Bits of natural numbers, and the exclusive or that C++ unsigned words and
    Python integers share. Bit 0 is the least significant one. */
module Bits {
  function Pow2(w: nat): (p: nat)
    ensures p >= 1
  {
    if w == 0 then 1 else 2 * Pow2(w - 1)
  }

  predicate Bit(n: nat, k: nat)
    decreases k, n
  {
    if k == 0 then n % 2 == 1 else Bit(n / 2, k - 1)
  }

  /** Exclusive or. The verifier unfolds a function once or twice wherever it is mentioned.
      A few functions of this project, this one and those that take a whole step of the
      application or the executive, are costly to unfold and seldom need it. Each is written
      as a recursion that first counts a delay down, so that the free unfoldings are spent on
      idle turns, and comes with a lemma that unfolds it on request. The delay has no bearing
      on the value. */
  function Xor(a: nat, b: nat): nat {
    DelayedXor(a, b, 2)
  }

  /** From the lowest bit up. */
  function DelayedXor(a: nat, b: nat, delay: nat): nat
    decreases a + b, delay
  {
    if delay > 0 then DelayedXor(a, b, delay - 1)
    else if a == 0 && b == 0 then 0
    else (if a % 2 != b % 2 then 1 else 0) + 2 * DelayedXor(a / 2, b / 2, 2)
  }

  lemma {:induction false} UnfoldXor(a: nat, b: nat)
    ensures Xor(a, b) ==
            if a == 0 && b == 0 then 0 else (if a % 2 != b % 2 then 1 else 0) + 2 * Xor(a / 2, b / 2)
  {
    assert DelayedXor(a, b, 2) == DelayedXor(a, b, 1) == DelayedXor(a, b, 0);
  }

  lemma {:induction false} ZeroHasNoBit(k: nat)
    ensures !Bit(0, k)
    decreases k
  {
    if k == 0 {
    } else {
      ZeroHasNoBit(k - 1);
    }
  }

  lemma {:induction false} XorBit(a: nat, b: nat, k: nat)
    ensures Bit(Xor(a, b), k) == (Bit(a, k) != Bit(b, k))
    decreases k
  {
    UnfoldXor(a, b);
    if a == 0 && b == 0 {
      ZeroHasNoBit(k);
    } else if k > 0 {
      assert Xor(a, b) / 2 == Xor(a / 2, b / 2);
      XorBit(a / 2, b / 2, k - 1);
    }
  }

  lemma {:induction false} XorBound(a: nat, b: nat, w: nat)
    requires a < Pow2(w) && b < Pow2(w)
    ensures Xor(a, b) < Pow2(w)
    decreases w
  {
    UnfoldXor(a, b);
    if w == 0 {
    } else {
      XorBound(a / 2, b / 2, w - 1);
    }
  }

  /** A number below 2^w is determined by its low w bits. */
  lemma {:induction false} SameBits(a: nat, b: nat, w: nat)
    requires a < Pow2(w) && b < Pow2(w)
    requires forall k: nat :: k < w ==> Bit(a, k) == Bit(b, k)
    ensures a == b
    decreases w
  {
    if w == 0 {
    } else {
      assert Bit(a, 0) == Bit(b, 0);
      forall k: nat | k < w - 1
        ensures Bit(a / 2, k) == Bit(b / 2, k)
      {
        assert Bit(a, k + 1) == Bit(b, k + 1);
      }
      SameBits(a / 2, b / 2, w - 1);
    }
  }

  lemma {:induction false} TopBit(r: nat, w: nat)
    requires r < Pow2(w + 1)
    ensures Bit(r, w) <==> r >= Pow2(w)
    decreases w
  {
    if w == 0 {
    } else {
      TopBit(r / 2, w - 1);
    }
  }

  lemma {:induction false} ClearTopBit(r: nat, w: nat, k: nat)
    requires Pow2(w) <= r < Pow2(w + 1) && k < w
    ensures Bit(r - Pow2(w), k) == Bit(r, k)
    decreases k
  {
    if k == 0 {
    } else {
      assert (r - Pow2(w)) / 2 == r / 2 - Pow2(w - 1);
      ClearTopBit(r / 2, w - 1, k - 1);
    }
  }

  /** Bits of a number glued from a low part of `w` bits and a high part. */
  lemma {:induction false} GluedBit(low: nat, high: nat, w: nat, k: nat)
    requires low < Pow2(w)
    ensures Bit(low + Pow2(w) * high, k) == if k < w then Bit(low, k) else Bit(high, k - w)
    decreases w
  {
    if w == 0 {
    } else {
      var n := low + Pow2(w) * high;
      assert Pow2(w) * high == 2 * (Pow2(w - 1) * high);
      assert n / 2 == low / 2 + Pow2(w - 1) * high;
      if k > 0 {
        GluedBit(low / 2, high, w - 1, k - 1);
      }
    }
  }

  lemma {:induction false} PowerOfTwoBit(w: nat, k: nat)
    ensures Bit(Pow2(w), k) <==> k == w
    decreases w
  {
    if w > 0 && k > 0 {
      PowerOfTwoBit(w - 1, k - 1);
    } else if w == 0 && k > 0 {
      ZeroHasNoBit(k - 1);
    }
  }

  lemma {:induction false} XorZero(a: nat)
    ensures Xor(a, 0) == a
  {
    UnfoldXor(a, 0);
    if a == 0 {
    } else {
      XorZero(a / 2);
    }
  }

  lemma {:induction false} XorSelf(a: nat)
    ensures Xor(a, a) == 0
  {
    UnfoldXor(a, a);
    if a == 0 {
    } else {
      XorSelf(a / 2);
    }
  }

  lemma {:induction false} XorCommutes(a: nat, b: nat)
    ensures Xor(a, b) == Xor(b, a)
    decreases a + b
  {
    UnfoldXor(a, b);
    UnfoldXor(b, a);
    if a == 0 && b == 0 {
    } else {
      XorCommutes(a / 2, b / 2);
    }
  }

  lemma {:induction false} XorAssociates(a: nat, b: nat, c: nat)
    ensures Xor(Xor(a, b), c) == Xor(a, Xor(b, c))
    decreases a + b + c
  {
    if a != 0 || b != 0 || c != 0 {
      UnfoldXor(a, b);
      UnfoldXor(b, c);
      UnfoldXor(Xor(a, b), c);
      UnfoldXor(a, Xor(b, c));
      XorAssociates(a / 2, b / 2, c / 2);
    } else {
      UnfoldXor(0, 0);
    }
  }

  /** Exclusive or cancels: equal words are exactly those that differ by zero. */
  lemma {:induction false} XorIsZero(a: nat, b: nat)
    ensures Xor(a, b) == 0 <==> a == b
  {
    if Xor(a, b) == 0 {
      XorAssociates(a, b, b);
      XorSelf(b);
      XorZero(a);
      XorCommutes(0, b);
      XorZero(b);
    } else if a == b {
      XorSelf(a);
    }
  }

  /** Regrouping used by every linearity argument. */
  lemma {:induction false} XorSwapInner(a: nat, b: nat, c: nat, d: nat)
    ensures Xor(Xor(a, b), Xor(c, d)) == Xor(Xor(a, c), Xor(b, d))
  {
    XorAssociates(a, b, Xor(c, d));
    XorAssociates(b, c, d);
    XorCommutes(b, c);
    XorAssociates(c, b, d);
    XorAssociates(a, c, Xor(b, d));
  }
}
