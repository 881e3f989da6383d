/**
 What the check values stand for: the remainder of the message, as a polynomial over the
 two-element field, and the parity of its bits. Nothing here is a shift register.
 */
module Division {
  import opened Bits
  import opened Bytes
  import Crc

  /** A polynomial by its coefficients, highest first. */
  type Poly = seq<bool>

  function Differ(a: Poly, b: Poly): (r: Poly)
    requires |a| == |b|
    ensures |r| == |a| && forall k :: 0 <= k < |r| ==> r[k] == (a[k] != b[k])
  {
    seq(|a|, k requires 0 <= k < |a| => a[k] != b[k])
  }

  /** Long division: while the dividend is at least as long, take the divisor off its front. */
  function Remainder(dividend: Poly, divisor: Poly): Poly
    requires divisor != [] && divisor[0]
    decreases |dividend|
  {
    if |dividend| < |divisor| then dividend
    else if !dividend[0] then Remainder(dividend[1..], divisor)
    else Remainder(Differ(dividend[..|divisor|], divisor)[1..] + dividend[|divisor|..], divisor)
  }

  function Zeros(n: nat): (p: Poly)
    ensures |p| == n && forall k :: 0 <= k < n ==> !p[k]
  {
    seq(n, _ => false)
  }

  /** The bits of a number, most significant first. */
  function BitsOf(x: nat, n: nat): (p: Poly)
    ensures |p| == n
  {
    if n == 0 then [] else BitsOf(x / 2, n - 1) + [x % 2 == 1]
  }

  /** The same, least significant first. */
  function LowBitsOf(x: nat, n: nat): (p: Poly)
    ensures |p| == n
  {
    if n == 0 then [] else [x % 2 == 1] + LowBitsOf(x / 2, n - 1)
  }

  /** A message as it is sent with the high bit of each byte first, or the low bit. */
  function Sent(data: seq<byte>, lowFirst: bool): Poly {
    if data == [] then []
    else (if lowFirst then LowBitsOf(data[0], 8) else BitsOf(data[0], 8)) + Sent(data[1..], lowFirst)
  }

  // ------------------------------------------- a register as a partial remainder

  /** The register added onto the front of what is still to be divided. */
  function Onto(reg: Poly, rest: Poly): (p: Poly)
    requires |reg| <= |rest|
    ensures |p| == |rest|
  {
    Differ(reg, rest[..|reg|]) + rest[|reg|..]
  }

  function ShiftPoly(reg: Poly, divisor: Poly): (r: Poly)
    requires reg != [] && |divisor| == |reg| + 1
    ensures |r| == |reg|
  {
    var moved := reg[1..] + [false];
    if reg[0] then Differ(moved, divisor[1..]) else moved
  }

  /** Dividing past one zero bit is one shift of the register. */
  lemma ShiftDivides(reg: Poly, rest: Poly, divisor: Poly)
    requires reg != [] && |divisor| == |reg| + 1 && divisor[0] && |rest| >= |reg|
    ensures Remainder(Onto(reg, [false] + rest), divisor) == Remainder(Onto(ShiftPoly(reg, divisor), rest), divisor)
  {
    hide Remainder, Onto, ShiftPoly;
    var d := Onto(reg, [false] + rest);
    PastZero(reg, rest, divisor);
    FirstStep(d, divisor);
  }

  lemma FirstStep(dividend: Poly, divisor: Poly)
    requires divisor != [] && divisor[0] && |dividend| >= |divisor|
    ensures Remainder(dividend, divisor) ==
            Remainder(if !dividend[0] then dividend[1..]
                      else Differ(dividend[..|divisor|], divisor)[1..] + dividend[|divisor|..], divisor)
  {}

  lemma PastZero(reg: Poly, rest: Poly, divisor: Poly)
    requires reg != [] && |divisor| == |reg| + 1 && divisor[0] && |rest| >= |reg|
    ensures var d := Onto(reg, [false] + rest);
            Onto(ShiftPoly(reg, divisor), rest) ==
            if !d[0] then d[1..] else Differ(d[..|divisor|], divisor)[1..] + d[|divisor|..]
  {
    hide Onto, ShiftPoly, Differ;
    var n := |reg|;
    var zero: Poly := [false] + rest;
    var d, next := Onto(reg, zero), Onto(ShiftPoly(reg, divisor), rest);
    OntoAt(reg, zero, 0);
    assert zero[0] == false;
    forall k | 0 <= k < |rest|
      ensures next[k] == if reg[0] && k < n then d[k + 1] != divisor[k + 1] else d[k + 1]
    {
      OntoAt(reg, zero, k + 1);
      OntoAt(ShiftPoly(reg, divisor), rest, k);
      assert zero[k + 1] == rest[k];
      if k < n {
        ShiftAt(reg, divisor, k);
      }
    }
    if reg[0] {
      TakenAway(d, divisor, next);
    } else {
      assert d[1..] == next;
    }
  }

  lemma TakenAway(d: Poly, divisor: Poly, next: Poly)
    requires 0 < |divisor| <= |d| == |next| + 1
    requires forall k :: 0 <= k < |next| ==> next[k] == if k + 1 < |divisor| then d[k + 1] != divisor[k + 1] else d[k + 1]
    ensures next == Differ(d[..|divisor|], divisor)[1..] + d[|divisor|..]
  {}

  lemma OntoAt(reg: Poly, rest: Poly, k: nat)
    requires |reg| <= |rest| && k < |rest|
    ensures Onto(reg, rest)[k] == if k < |reg| then reg[k] != rest[k] else rest[k]
  {}

  lemma ShiftAt(reg: Poly, divisor: Poly, k: nat)
    requires reg != [] && |divisor| == |reg| + 1 && k < |reg|
    ensures var moved := if k + 1 < |reg| then reg[k + 1] else false;
            ShiftPoly(reg, divisor)[k] == if reg[0] then moved != divisor[k + 1] else moved
  {}

  function Shifts(reg: Poly, divisor: Poly, n: nat): (r: Poly)
    requires reg != [] && |divisor| == |reg| + 1
    ensures |r| == |reg|
  {
    if n == 0 then reg else ShiftPoly(Shifts(reg, divisor, n - 1), divisor)
  }

  lemma {:induction false} ShiftsDivide(reg: Poly, rest: Poly, divisor: Poly, n: nat)
    requires reg != [] && |divisor| == |reg| + 1 && divisor[0] && |rest| >= |reg|
    ensures Remainder(Onto(reg, Zeros(n) + rest), divisor) == Remainder(Onto(Shifts(reg, divisor, n), rest), divisor)
    decreases n
  {
    if n == 0 {
      assert Zeros(0) + rest == rest;
    } else {
      assert Zeros(n) + rest == Zeros(n - 1) + ([false] + rest);
      ShiftsDivide(reg, [false] + rest, divisor, n - 1);
      ShiftDivides(Shifts(reg, divisor, n - 1), rest, divisor);
    }
  }

  /** What is left when only zeros the length of the register remain: the register itself. */
  lemma RegisterLeft(reg: Poly, divisor: Poly)
    requires reg != [] && |divisor| == |reg| + 1 && divisor[0]
    ensures Remainder(Onto(reg, Zeros(|reg|)), divisor) == reg
  {
    assert Onto(reg, Zeros(|reg|)) == reg;
  }

  // -------------------------------------------------- numbers as registers

  lemma DifferCons(x: bool, a: Poly, y: bool, b: Poly)
    requires |a| == |b|
    ensures Differ([x] + a, [y] + b) == [x != y] + Differ(a, b)
  {}

  lemma DifferSnoc(a: Poly, x: bool, b: Poly, y: bool)
    requires |a| == |b|
    ensures Differ(a + [x], b + [y]) == Differ(a, b) + [x != y]
  {}

  lemma {:induction false} BitsXor(a: nat, b: nat, n: nat)
    ensures BitsOf(Xor(a, b), n) == Differ(BitsOf(a, n), BitsOf(b, n))
  {
    hide Xor, Differ;
    if n > 0 {
      XorSplit(a, b);
      BitsXor(a / 2, b / 2, n - 1);
      DifferSnoc(BitsOf(a / 2, n - 1), a % 2 == 1, BitsOf(b / 2, n - 1), b % 2 == 1);
    }
  }

  lemma {:induction false} LowBitsXor(a: nat, b: nat, n: nat)
    ensures LowBitsOf(Xor(a, b), n) == Differ(LowBitsOf(a, n), LowBitsOf(b, n))
  {
    hide Xor, Differ;
    if n > 0 {
      XorSplit(a, b);
      LowBitsXor(a / 2, b / 2, n - 1);
      DifferCons(a % 2 == 1, LowBitsOf(a / 2, n - 1), b % 2 == 1, LowBitsOf(b / 2, n - 1));
    }
  }

  lemma {:induction false} TopBit(x: nat, n: nat)
    requires n > 0 && x < Exp2(n)
    ensures BitsOf(x, n)[0] == (x >= Exp2(n - 1))
    ensures BitsOf(x, n)[1..] == BitsOf(if x >= Exp2(n - 1) then x - Exp2(n - 1) else x, n - 1)
  {
    if n > 1 {
      TopBit(x / 2, n - 1);
      assert BitsOf(x, n)[1..] == BitsOf(x / 2, n - 1)[1..] + [x % 2 == 1];
    }
  }

  /** One bit through a left-shifting register is one shift of its polynomial. */
  lemma LeftShift(r: nat, n: nat, p: nat, next: nat)
    requires n > 0 && r < Exp2(n)
    requires next == if r >= Exp2(n - 1) then Xor(2 * r - Exp2(n), p) else 2 * r
    ensures BitsOf(next, n) == ShiftPoly(BitsOf(r, n), [true] + BitsOf(p, n))
  {
    hide Xor, BitsOf, Exp2;
    TopBit(r, n);
    HalfBound(n);
    var half := if r >= Exp2(n - 1) then r - Exp2(n - 1) else r;
    Doubled(half, n);
    BitsXor(2 * half, p, n);
    assert ([true] + BitsOf(p, n))[1..] == BitsOf(p, n);
  }

  lemma HalfBound(n: nat)
    requires n > 0
    ensures Exp2(n) == 2 * Exp2(n - 1)
  {}

  lemma Doubled(x: nat, n: nat)
    requires n > 0
    ensures BitsOf(2 * x, n) == BitsOf(x, n - 1) + [false]
  {
    assert 2 * x / 2 == x && 2 * x % 2 == 0;
  }

  lemma {:induction false} LowPadded(x: nat, n: nat, k: nat)
    requires x < Exp2(n)
    ensures LowBitsOf(x, n + k) == LowBitsOf(x, n) + Zeros(k)
    decreases n + k
  {
    if n == 0 {
      if k > 0 {
        LowPadded(0, 0, k - 1);
        assert Zeros(k) == [false] + Zeros(k - 1);
        assert LowBitsOf(0, 0) + Zeros(k) == Zeros(k);
        assert LowBitsOf(0, 0) + Zeros(k - 1) == Zeros(k - 1);
      }
    } else {
      LowPadded(x / 2, n - 1, k);
    }
  }

  /** And through a right-shifting one, its bits read the other way. */
  lemma RightShift(r: nat, n: nat, p: nat, next: nat)
    requires n > 0 && r < Exp2(n)
    requires next == if r % 2 == 1 then Xor(r / 2, p) else r / 2
    ensures LowBitsOf(next, n) == ShiftPoly(LowBitsOf(r, n), [true] + LowBitsOf(p, n))
  {
    hide Xor;
    LowPadded(r / 2, n - 1, 1);
    assert Zeros(1) == [false];
    assert LowBitsOf(r, n)[1..] == LowBitsOf(r / 2, n - 1);
    LowBitsXor(r / 2, p, n);
    assert ([true] + LowBitsOf(p, n))[1..] == LowBitsOf(p, n);
  }

  lemma {:induction false} BitsPadded(x: nat, n: nat, k: nat)
    ensures BitsOf(x * Exp2(k), n + k) == BitsOf(x, n) + Zeros(k)
  {
    if k == 0 {
      assert BitsOf(x, n) + Zeros(0) == BitsOf(x, n);
    } else {
      assert x * Exp2(k) == 2 * (x * Exp2(k - 1));
      BitsPadded(x, n, k - 1);
      assert Zeros(k) == Zeros(k - 1) + [false];
    }
  }

  // ---------------------------------------------------------- whole messages

  function ByteBits(b: byte, lowFirst: bool): (p: Poly)
    ensures |p| == 8
  {
    if lowFirst then LowBitsOf(b, 8) else BitsOf(b, 8)
  }

  /** Adding a byte onto the front of the dividend is adding it to the register. */
  lemma ByteMixed(reg: Poly, b: Poly, rest: Poly)
    requires |reg| >= 8 && |b| == 8 && |rest| >= |reg|
    ensures Onto(reg, b + rest) == Onto(Differ(reg, b + Zeros(|reg| - 8)), Zeros(8) + rest)
  {}

  /** A register that takes in a byte and shifts eight times divides the message. */
  lemma {:induction false} FoldDivides<R(!new)>(
    step: (R, byte) -> R, bits: R -> Poly, n: nat, divisor: Poly, lowFirst: bool, r: R, data: seq<byte>)
    requires n >= 8 && |divisor| == n + 1 && divisor[0]
    requires forall q: R :: |bits(q)| == n
    requires forall q: R, b: byte ::
               bits(step(q, b)) == Shifts(Differ(bits(q), ByteBits(b, lowFirst) + Zeros(n - 8)), divisor, 8)
    ensures Remainder(Onto(bits(r), Sent(data, lowFirst) + Zeros(n)), divisor) == bits(Crc.Fold(step, r, data))
    decreases data
  {
    hide Remainder, Onto, Shifts, ByteBits;
    if data == [] {
      assert Sent(data, lowFirst) + Zeros(n) == Zeros(n);
      RegisterLeft(bits(r), divisor);
    } else {
      var first, rest := ByteBits(data[0], lowFirst), Sent(data[1..], lowFirst) + Zeros(n);
      assert Sent(data, lowFirst) + Zeros(n) == first + rest by {
        FirstSent(data, lowFirst);
      }
      var mixed := Differ(bits(r), first + Zeros(n - 8));
      ByteMixed(bits(r), first, rest);
      ShiftsDivide(mixed, rest, divisor, 8);
      FoldDivides(step, bits, n, divisor, lowFirst, step(r, data[0]), data[1..]);
    }
  }

  lemma FirstSent(data: seq<byte>, lowFirst: bool)
    requires data != []
    ensures Sent(data, lowFirst) == ByteBits(data[0], lowFirst) + Sent(data[1..], lowFirst)
  {}

  lemma OntoNothing(rest: Poly, n: nat)
    requires |rest| >= n
    ensures Onto(Zeros(n), rest) == rest
  {}

  lemma {:induction false} NoBits(n: nat)
    ensures BitsOf(0, n) == Zeros(n) && LowBitsOf(0, n) == Zeros(n)
  {
    if n > 0 {
      NoBits(n - 1);
    }
  }

  // ---------------------------------------------------------- the three CRCs

  const T := true
  const F := false

  /** x^8 + x^7 + x^6 + x^4 + x^2 + 1 */
  const DVB_S2: Poly := [T, T, T, F, T, F, T, F, T]

  /** x^16 + x^12 + x^5 + 1 */
  const CCITT: Poly := [T, F, F, F, T, F, F, F, F, F, F, T, F, F, F, F, T]

  /** x^16 + x^15 + x^2 + 1 */
  const ANSI: Poly := [T, T, F, F, F, F, F, F, F, F, F, F, F, F, T, F, T]

  /** A nibble's bits, written out. */
  function Nibble(d: nat): (p: Poly)
    ensures |p| == 4
  {
    [d / 8 % 2 == 1, d / 4 % 2 == 1, d / 2 % 2 == 1, d % 2 == 1]
  }

  function LowNibble(d: nat): (p: Poly)
    ensures |p| == 4
  {
    [d % 2 == 1, d / 2 % 2 == 1, d / 4 % 2 == 1, d / 8 % 2 == 1]
  }

  lemma NibbleBits(d: nat)
    requires d < 16
    ensures BitsOf(d, 4) == Nibble(d) && LowBitsOf(d, 4) == LowNibble(d)
  {
    assert d / 2 / 2 / 2 == d / 8 && d / 2 / 2 == d / 4;
    assert BitsOf(d / 2 / 2 / 2, 1) == [d / 8 % 2 == 1];
    assert BitsOf(d / 2 / 2, 2) == [d / 8 % 2 == 1, d / 4 % 2 == 1];
    assert LowBitsOf(d / 2 / 2 / 2, 1) == [d / 8 % 2 == 1];
    assert LowBitsOf(d / 2 / 2, 2) == [d / 4 % 2 == 1, d / 8 % 2 == 1];
  }

  lemma {:induction false} Glued(hi: nat, lo: nat, n: nat, k: nat)
    requires lo < Exp2(k)
    ensures BitsOf(hi * Exp2(k) + lo, n + k) == BitsOf(hi, n) + BitsOf(lo, k)
    ensures LowBitsOf(hi * Exp2(k) + lo, n + k) == LowBitsOf(lo, k) + LowBitsOf(hi, n)
    decreases k
  {
    if k > 0 {
      HalvesGlued(hi, Exp2(k - 1), lo);
      Glued(hi, lo / 2, n, k - 1);
      assert BitsOf(hi, n) + BitsOf(lo, k) == BitsOf(hi, n) + BitsOf(lo / 2, k - 1) + [lo % 2 == 1];
      assert LowBitsOf(lo, k) + LowBitsOf(hi, n) == [lo % 2 == 1] + (LowBitsOf(lo / 2, k - 1) + LowBitsOf(hi, n));
    } else {
      assert BitsOf(hi, n) + BitsOf(lo, 0) == BitsOf(hi, n);
      assert LowBitsOf(lo, 0) + LowBitsOf(hi, n) == LowBitsOf(hi, n);
    }
  }

  lemma HalvesGlued(hi: nat, e: nat, lo: nat)
    ensures (hi * (2 * e) + lo) / 2 == hi * e + lo / 2 && (hi * (2 * e) + lo) % 2 == lo % 2
  {
    assert hi * (2 * e) == 2 * (hi * e);
  }

  lemma Nibbles(hi: nat, lo: nat)
    requires hi < 16 && lo < 16
    ensures BitsOf(16 * hi + lo, 8) == Nibble(hi) + Nibble(lo)
    ensures LowBitsOf(16 * hi + lo, 8) == LowNibble(lo) + LowNibble(hi)
  {
    hide BitsOf, LowBitsOf;
    assert Exp2(4) == 16;
    Glued(hi, lo, 4, 4);
    NibbleBits(hi);
    NibbleBits(lo);
  }

  lemma Byted(hi: byte, lo: byte)
    ensures BitsOf(256 * hi + lo, 16) == BitsOf(hi, 8) + BitsOf(lo, 8)
    ensures LowBitsOf(256 * hi + lo, 16) == LowBitsOf(lo, 8) + LowBitsOf(hi, 8)
  {
    hide BitsOf, LowBitsOf;
    Exp2Values();
    Glued(hi, lo, 8, 8);
  }

  lemma {:induction false} D5Shifts(r: byte, k: nat)
    ensures BitsOf(Crc.Iterate(Crc.ShiftD5, r, k), 8) == Shifts(BitsOf(r, 8), DVB_S2, k)
  {
    hide Xor, BitsOf, ShiftPoly;
    if k > 0 {
      D5Shifts(r, k - 1);
      D5Shift(Crc.Iterate(Crc.ShiftD5, r, k - 1));
    }
  }

  lemma D5Shift(r: byte)
    ensures BitsOf(Crc.ShiftD5(r), 8) == ShiftPoly(BitsOf(r, 8), DVB_S2)
  {
    hide Xor, ShiftPoly, BitsOf, LowBitsOf;
    Exp2Values();
    LeftShift(r, 8, 0xD5, Crc.ShiftD5(r));
    Nibbles(0xD, 5);
    assert [true] + BitsOf(0xD5, 8) == DVB_S2;
  }

  /** The MSPv2 check value: the remainder of the message and eight zero bits. */
  lemma Crc8Divides(data: seq<byte>)
    ensures BitsOf(Crc.Crc8(data), 8) == Remainder(Sent(data, false) + Zeros(8), DVB_S2)
  {
    hide Xor, BitsOf, Remainder, Shifts, Crc.ShiftD5, Onto;
    var bits := (r: byte) => BitsOf(r, 8);
    forall q: byte, b: byte
      ensures bits(Crc.Crc8Step(q, b)) == Shifts(Differ(bits(q), ByteBits(b, false) + Zeros(0)), DVB_S2, 8)
    {
      BitsXor(q, b, 8);
      D5Shifts(XorByte(q, b), 8);
      assert ByteBits(b, false) + Zeros(0) == BitsOf(b, 8);
    }
    FoldDivides(Crc.Crc8Step, bits, 8, DVB_S2, false, 0, data);
    NoBits(8);
    OntoNothing(Sent(data, false) + Zeros(8), 8);
  }

  lemma {:induction false} Shifts1021(r: word, k: nat)
    ensures BitsOf(Crc.Iterate(Crc.Shift1021, r, k), 16) == Shifts(BitsOf(r, 16), CCITT, k)
  {
    hide Xor, BitsOf, ShiftPoly;
    if k > 0 {
      Shifts1021(r, k - 1);
      Shift1021Bits(Crc.Iterate(Crc.Shift1021, r, k - 1));
    }
  }

  lemma Shift1021Bits(r: word)
    ensures BitsOf(Crc.Shift1021(r), 16) == ShiftPoly(BitsOf(r, 16), CCITT)
  {
    hide Xor, ShiftPoly, BitsOf, LowBitsOf;
    Exp2Values();
    LeftShift(r, 16, 0x1021, Crc.Shift1021(r));
    Nibbles(1, 0);
    Nibbles(2, 1);
    Byted(0x10, 0x21);
    assert [true] + BitsOf(0x1021, 16) == CCITT;
  }

  /** The 4-way check value: the remainder of the message and sixteen zero bits. */
  lemma XmodemDivides(data: seq<byte>)
    ensures BitsOf(Crc.Xmodem(data), 16) == Remainder(Sent(data, false) + Zeros(16), CCITT)
  {
    hide Xor, BitsOf, Remainder, Shifts, Crc.Shift1021, Onto;
    var bits := (r: word) => BitsOf(r, 16);
    forall q: word, b: byte
      ensures bits(Crc.XmodemStep(q, b)) == Shifts(Differ(bits(q), ByteBits(b, false) + Zeros(8)), CCITT, 8)
    {
      BitsXor(q, Crc.Upper(b), 16);
      Exp2Values();
      BitsPadded(b, 8, 8);
      Shifts1021(XorWord(q, Crc.Upper(b)), 8);
    }
    FoldDivides(Crc.XmodemStep, bits, 16, CCITT, false, 0, data);
    NoBits(16);
    OntoNothing(Sent(data, false) + Zeros(16), 16);
  }

  lemma {:induction false} ShiftsA001(r: word, k: nat)
    ensures LowBitsOf(Crc.Iterate(Crc.ShiftA001, r, k), 16) == Shifts(LowBitsOf(r, 16), ANSI, k)
  {
    hide Xor, LowBitsOf, ShiftPoly;
    if k > 0 {
      ShiftsA001(r, k - 1);
      ShiftA001Bits(Crc.Iterate(Crc.ShiftA001, r, k - 1));
    }
  }

  lemma ShiftA001Bits(r: word)
    ensures LowBitsOf(Crc.ShiftA001(r), 16) == ShiftPoly(LowBitsOf(r, 16), ANSI)
  {
    hide Xor, ShiftPoly, BitsOf, LowBitsOf;
    Exp2Values();
    RightShift(r, 16, 0xA001, Crc.ShiftA001(r));
    Nibbles(0xA, 0);
    Nibbles(0, 1);
    Byted(0xA0, 0x01);
    assert [true] + LowBitsOf(0xA001, 16) == ANSI;
  }

  /** The bootloader's: the same with the low bit of each byte first, and of the check value. */
  lemma BootDivides(data: seq<byte>)
    ensures LowBitsOf(Crc.Boot(data), 16) == Remainder(Sent(data, true) + Zeros(16), ANSI)
  {
    hide Xor, LowBitsOf, Remainder, Shifts, Crc.ShiftA001, Onto;
    var bits := (r: word) => LowBitsOf(r, 16);
    forall q: word, b: byte
      ensures bits(Crc.BootStep(q, b)) == Shifts(Differ(bits(q), ByteBits(b, true) + Zeros(8)), ANSI, 8)
    {
      LowBitsXor(q, b, 16);
      Exp2Values();
      LowPadded(b, 8, 8);
      ShiftsA001(XorWord(q, b), 8);
    }
    FoldDivides(Crc.BootStep, bits, 16, ANSI, true, 0, data);
    NoBits(16);
    OntoNothing(Sent(data, true) + Zeros(16), 16);
  }

  // ---------------------------------------------------------------- parity

  /** How many bytes have a bit set, bit 0 being the highest. */
  function Ones(data: seq<byte>, k: nat): nat
    requires k < 8
  {
    if data == [] then 0 else (if BitsOf(data[0], 8)[k] then 1 else 0) + Ones(data[1..], k)
  }

  lemma {:induction false} XorFoldParity(r: byte, data: seq<byte>, k: nat)
    requires k < 8
    ensures BitsOf(Crc.Fold(XorByte, r, data), 8)[k] == (BitsOf(r, 8)[k] != (Ones(data, k) % 2 == 1))
    decreases data
  {
    hide Xor, BitsOf;
    if data != [] {
      BitsXor(r, data[0], 8);
      XorFoldParity(XorByte(r, data[0]), data[1..], k);
    }
  }

  /** Each bit of the MSPv1 check value is the parity of that bit over the message. */
  lemma XorSumParity(data: seq<byte>, k: nat)
    requires k < 8
    ensures BitsOf(Crc.XorSum(data), 8)[k] == (Ones(data, k) % 2 == 1)
  {
    hide BitsOf;
    XorFoldParity(0, data, k);
    NoBits(8);
  }
}
