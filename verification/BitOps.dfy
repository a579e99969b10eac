/**
 * Bitwise operators on unbounded naturals, each defined digit by digit, and the
 * algebra the codecs need. A machine word is a natural below a power of two.
 */
module BitOps {
  import opened Base

  function Xor(a: nat, b: nat): nat
    decreases a + b
  {
    if a == 0 && b == 0 then 0
    else 2 * Xor(a / 2, b / 2) + (if a % 2 != b % 2 then 1 else 0)
  }

  function Or(a: nat, b: nat): nat
    decreases a + b
  {
    if a == 0 && b == 0 then 0
    else 2 * Or(a / 2, b / 2) + (if a % 2 == 1 || b % 2 == 1 then 1 else 0)
  }

  /** `a >> k` */
  function Shr(a: nat, k: nat): nat {
    if k == 0 then a else Shr(a / 2, k - 1)
  }

  /** `a << k`, nothing dropped */
  function Shl(a: nat, k: nat): nat {
    if k == 0 then a else 2 * Shl(a, k - 1)
  }

  /** `a & (2^k - 1)` */
  function Low(a: nat, k: nat): nat {
    if k == 0 then 0 else 2 * Low(a / 2, k - 1) + a % 2
  }

  /** Bit `i` of `a`, counted from the least significant. */
  function Bit(a: nat, i: nat): bool {
    Shr(a, i) % 2 == 1
  }

  // ----------------------------------------------------------- XOR algebra

  lemma {:induction false} XorZero(a: nat)
    ensures Xor(a, 0) == a && Xor(0, a) == a
  {
    if a != 0 { XorZero(a / 2); }
  }

  lemma {:induction false} XorCommutes(a: nat, b: nat)
    ensures Xor(a, b) == Xor(b, a)
    decreases a + b
  {
    if a != 0 || b != 0 { XorCommutes(a / 2, b / 2); }
  }

  lemma XorUnfold(a: nat, b: nat)
    ensures Xor(a, b) / 2 == Xor(a / 2, b / 2)
    ensures Xor(a, b) % 2 == if a % 2 != b % 2 then 1 else 0
  {}

  lemma XorAppend(x: nat, p: nat, y: nat, q: nat)
    requires p < 2 && q < 2
    ensures Xor(2 * x + p, 2 * y + q) == 2 * Xor(x, y) + (if p != q then 1 else 0)
  {
    XorUnfold(2 * x + p, 2 * y + q);
  }

  lemma {:induction false} XorAssociates(a: nat, b: nat, c: nat)
    ensures Xor(Xor(a, b), c) == Xor(a, Xor(b, c))
    decreases a + b + c
  {
    if a != 0 || b != 0 || c != 0 {
      XorAssociates(a / 2, b / 2, c / 2);
      XorUnfold(a, b);
      XorUnfold(b, c);
      XorUnfold(Xor(a, b), c);
      XorUnfold(a, Xor(b, c));
    }
  }

  lemma {:induction false} XorSelf(a: nat)
    ensures Xor(a, a) == 0
  {
    if a != 0 { XorSelf(a / 2); }
  }

  lemma XorCancels(a: nat, b: nat)
    ensures Xor(Xor(a, b), b) == a
    ensures Xor(a, b) == 0 <==> a == b
  {
    XorAssociates(a, b, b);
    XorSelf(b);
    XorZero(a);
    XorZero(b);
  }

  lemma XorInterchange(a: nat, b: nat, c: nat, d: nat)
    ensures Xor(Xor(a, b), Xor(c, d)) == Xor(Xor(a, c), Xor(b, d))
  {
    XorAssociates(a, b, Xor(c, d));
    XorAssociates(b, c, d);
    XorCommutes(b, c);
    XorAssociates(c, b, d);
    XorAssociates(a, c, Xor(b, d));
  }

  // -------------------------------------------------- XOR meets the shifts

  lemma {:induction false} XorShr(a: nat, b: nat, k: nat)
    ensures Shr(Xor(a, b), k) == Xor(Shr(a, k), Shr(b, k))
    decreases k
  {
    if k > 0 {
      XorUnfold(a, b);
      XorShr(a / 2, b / 2, k - 1);
    }
  }

  lemma {:induction false} XorLow(a: nat, b: nat, k: nat)
    ensures Low(Xor(a, b), k) == Xor(Low(a, k), Low(b, k))
    decreases k
  {
    if k > 0 {
      var x, y := Low(a / 2, k - 1), Low(b / 2, k - 1);
      XorUnfold(a, b);
      XorLow(a / 2, b / 2, k - 1);
      XorAppend(x, a % 2, y, b % 2);
    }
  }

  lemma {:induction false} XorShl(a: nat, b: nat, k: nat)
    ensures Shl(Xor(a, b), k) == Xor(Shl(a, k), Shl(b, k))
    decreases k
  {
    if k > 0 {
      XorShl(a, b, k - 1);
      XorAppend(Shl(a, k - 1), 0, Shl(b, k - 1), 0);
    }
  }

  lemma XorBit(a: nat, b: nat, i: nat)
    ensures Bit(Xor(a, b), i) <==> Bit(a, i) != Bit(b, i)
  {
    XorShr(a, b, i);
    XorUnfold(Shr(a, i), Shr(b, i));
  }

  lemma {:induction false} XorFits(a: nat, b: nat, k: nat)
    requires a < Pow2(k) && b < Pow2(k)
    ensures Xor(a, b) < Pow2(k)
    decreases k
  {
    if k > 0 {
      XorUnfold(a, b);
      XorFits(a / 2, b / 2, k - 1);
    }
  }

  // ----------------------------------------------------- sizes and splices

  lemma {:induction false} Pow2Monotone(j: nat, k: nat)
    requires j <= k
    ensures Pow2(j) <= Pow2(k)
  {
    if j < k { Pow2Monotone(j, k - 1); }
  }

  lemma {:induction false} LowFits(a: nat, k: nat)
    ensures Low(a, k) < Pow2(k)
    ensures a < Pow2(k) ==> Low(a, k) == a
    decreases k
  {
    if k > 0 { LowFits(a / 2, k - 1); }
  }

  lemma {:induction false} ShlFits(a: nat, n: nat, k: nat)
    requires a < Pow2(n)
    ensures Shl(a, k) < Pow2(n + k)
    decreases k
  {
    if k > 0 { ShlFits(a, n, k - 1); }
  }

  lemma {:induction false} ShrFits(a: nat, n: nat, k: nat)
    requires a < Pow2(n + k)
    ensures Shr(a, k) < Pow2(n)
    decreases k
  {
    if k > 0 { ShrFits(a / 2, n, k - 1); }
  }

  /** A word is its high part and its low part side by side. */
  lemma {:induction false} Splice(a: nat, k: nat)
    ensures a == Shl(Shr(a, k), k) + Low(a, k)
    decreases k
  {
    if k > 0 { Splice(a / 2, k - 1); }
  }

  /** XOR and OR of a shifted word with something that fits below it just fill the gap. */
  lemma {:induction false} FillLow(a: nat, v: nat, k: nat)
    requires v < Pow2(k)
    ensures Xor(Shl(a, k), v) == Shl(a, k) + v
    ensures Or(Shl(a, k), v) == Shl(a, k) + v
    decreases k
  {
    if k == 0 {
      XorZero(a);
      OrZero(a);
    } else {
      FillLow(a, v / 2, k - 1);
    }
  }

  lemma {:induction false} OrZero(a: nat)
    ensures Or(a, 0) == a
  {
    if a != 0 { OrZero(a / 2); }
  }

  lemma {:induction false} ShlZero(a: nat, k: nat)
    ensures Shl(0, k) == 0
    ensures Shl(a, k) == 0 ==> a == 0
    ensures a <= Shl(a, k)
    decreases k
  {
    if k > 0 { ShlZero(a, k - 1); }
  }

  /** The low bits of a shifted word are clear. */
  lemma {:induction false} ShlBits(a: nat, k: nat, i: nat)
    requires i < k
    ensures !Bit(Shl(a, k), i)
    decreases i
  {
    if i > 0 {
      assert Shl(a, k) / 2 == Shl(a, k - 1);
      ShlBits(a, k - 1, i - 1);
    }
  }
}
