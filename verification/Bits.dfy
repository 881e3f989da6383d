/** Bitwise exclusive or on the natural numbers, the one bit operation the check values need. */
module Bits {
  import opened Bytes

  function Xor(a: nat, b: nat): nat {
    if a == 0 && b == 0 then 0 else 2 * Xor(a / 2, b / 2) + (a + b) % 2
  }

  function Exp2(n: nat): nat {
    if n == 0 then 1 else 2 * Exp2(n - 1)
  }

  /** The lowest bit and the bits above it. */
  lemma XorSplit(a: nat, b: nat)
    ensures Xor(a, b) % 2 == (a + b) % 2
    ensures Xor(a, b) / 2 == Xor(a / 2, b / 2)
  {
    if a == 0 && b == 0 {
      assert Xor(a, b) == 0;
    } else {
      Halves(Xor(a / 2, b / 2), (a + b) % 2);
    }
  }

  lemma Halves(q: nat, r: nat)
    requires r < 2
    ensures (2 * q + r) / 2 == q && (2 * q + r) % 2 == r
  {}

  lemma {:induction false} XorZero(a: nat)
    ensures Xor(a, 0) == a && Xor(0, a) == a
  {
    if a != 0 {
      XorZero(a / 2);
    }
  }

  lemma {:induction false} XorSelf(a: nat)
    ensures Xor(a, a) == 0
  {
    if a != 0 {
      XorSelf(a / 2);
    }
  }

  lemma {:induction false} XorCommutes(a: nat, b: nat)
    ensures Xor(a, b) == Xor(b, a)
  {
    if a != 0 || b != 0 {
      XorCommutes(a / 2, b / 2);
    }
  }

  lemma {:induction false} XorAssociates(a: nat, b: nat, c: nat)
    ensures Xor(Xor(a, b), c) == Xor(a, Xor(b, c))
    decreases a + b + c
  {
    if a != 0 || b != 0 || c != 0 {
      XorAssociates(a / 2, b / 2, c / 2);
      XorSplitTwice(a, b, c);
      XorSplitTwice(b, c, a);
      XorCommutes(Xor(b, c), a);
      XorCommutes(Xor(b / 2, c / 2), a / 2);
      SameBits(Xor(Xor(a, b), c), Xor(a, Xor(b, c)));
    }
  }

  lemma XorSplitTwice(a: nat, b: nat, c: nat)
    ensures Xor(Xor(a, b), c) % 2 == (a + b + c) % 2
    ensures Xor(Xor(a, b), c) / 2 == Xor(Xor(a / 2, b / 2), c / 2)
  {
    hide Xor;
    XorSplit(a, b);
    XorSplit(Xor(a, b), c);
    SameParity(Xor(a, b), a + b, c);
  }

  lemma SameParity(x: nat, y: nat, c: nat)
    requires x % 2 == y % 2
    ensures (x + c) % 2 == (y + c) % 2
  {}

  lemma SameBits(x: nat, y: nat)
    requires x / 2 == y / 2 && x % 2 == y % 2
    ensures x == y
  {}

  lemma {:induction false} XorBound(a: nat, b: nat, n: nat)
    requires a < Exp2(n) && b < Exp2(n)
    ensures Xor(a, b) < Exp2(n)
  {
    if n > 0 {
      XorBound(a / 2, b / 2, n - 1);
    }
  }

  /** A bit above both operands stays where it is. */
  lemma {:induction false} XorTopBit(a: nat, b: nat, n: nat)
    requires a < Exp2(n) && b < Exp2(n)
    ensures Xor(a, Exp2(n) + b) == Exp2(n) + Xor(a, b)
  {
    hide Xor;
    if n > 0 {
      XorTopBit(a / 2, b / 2, n - 1);
      XorSplit(a, b);
      XorSplit(a, Exp2(n) + b);
      DoubledAbove(a, b, Exp2(n - 1));
    } else {
      XorZero(1);
      XorZero(0);
    }
  }

  lemma DoubledAbove(a: nat, b: nat, e: nat)
    ensures (2 * e + b) / 2 == e + b / 2
    ensures (a + (2 * e + b)) % 2 == (a + b) % 2
  {}

  lemma Exp2Values()
    ensures Exp2(7) == 128 && Exp2(8) == 256 && Exp2(15) == 32768 && Exp2(16) == 65536
  {
    assert Exp2(4) == 16;
    assert Exp2(12) == 4096;
  }

  /** Applying the same operand twice restores the other, on either side. */
  lemma XorUndo(a: nat, b: nat)
    ensures Xor(Xor(a, b), b) == a && Xor(a, Xor(a, b)) == b
  {
    XorAssociates(a, b, b);
    XorAssociates(a, a, b);
    XorSelf(a);
    XorSelf(b);
    XorZero(a);
    XorZero(b);
  }

  lemma XorMeansEqual(a: nat, b: nat)
    ensures Xor(a, b) == 0 <==> a == b
  {
    XorUndo(a, b);
    XorZero(b);
    XorSelf(a);
  }

  lemma XorMoved(a: nat, m: nat, b: nat)
    ensures Xor(a, m) == b <==> a == Xor(b, m)
  {
    XorUndo(a, m);
    XorUndo(b, m);
  }

  function XorByte(a: byte, b: byte): byte {
    Exp2Values();
    XorBound(a, b, 8);
    Xor(a, b)
  }

  function XorWord(a: word, b: word): word {
    Exp2Values();
    XorBound(a, b, 16);
    Xor(a, b)
  }

  /** Exclusive or with a shifted byte leaves the bits below it alone. */
  lemma XorHighByte(a: nat, h: nat)
    ensures Xor(a, 256 * h) == 256 * Xor(a / 256, h) + a % 256
  {
    hide Xor;
    XorHighNibble(a, 16 * h);
    XorHighNibble(a / 16, h);
    Regrouped(a, h, 16, Xor(a / 16 / 16, h));
  }

  lemma XorHighNibble(a: nat, h: nat)
    ensures Xor(a, 16 * h) == 16 * Xor(a / 16, h) + a % 16
  {
    hide Xor;
    XorQuadrupled(a, 4 * h);
    XorQuadrupled(a / 4, h);
    Regrouped(a, h, 4, Xor(a / 4 / 4, h));
  }

  lemma XorQuadrupled(a: nat, h: nat)
    ensures Xor(a, 4 * h) == 4 * Xor(a / 4, h) + a % 4
  {
    hide Xor;
    XorDoubled(a, 2 * h);
    XorDoubled(a / 2, h);
    Regrouped(a, h, 2, Xor(a / 2 / 2, h));
  }

  lemma XorDoubled(a: nat, h: nat)
    ensures Xor(a, 2 * h) == 2 * Xor(a / 2, h) + a % 2
  {
    hide Xor;
    XorSplit(a, 2 * h);
    assert 2 * h / 2 == h && (a + 2 * h) % 2 == a % 2;
  }

  lemma Regrouped(a: nat, h: nat, k: nat, x: nat)
    requires k == 2 || k == 4 || k == 16
    ensures k * (k * h) == (k * k) * h
    ensures a / k / k == a / (k * k)
    ensures k * (k * x + a / k % k) + a % k == (k * k) * x + a % (k * k)
  {
    if k == 2 {
    } else if k == 4 {
    } else {
    }
  }
}
