/**
 The check values of the link stack: CRC-8 (polynomial 0xD5) and XOR for MSP,
 CRC16-XMODEM (0x1021) for 4-way, and the bootloader's reflected CRC16 (0xA001).

 Each is a fold of a register step over the message. Two facts about the step
 carry everything else: it is injective in the register and in the byte.
 */
module Crc {
  import opened Bits
  import opened Bytes

  // ---------------------------------------------------------------- folds

  function Fold<R>(step: (R, byte) -> R, r: R, data: seq<byte>): R
    decreases data
  {
    if data == [] then r else Fold(step, step(r, data[0]), data[1..])
  }

  function Iterate<R>(shift: R -> R, r: R, n: nat): R {
    if n == 0 then r else shift(Iterate(shift, r, n - 1))
  }

  ghost predicate Injective<R(!new)>(shift: R -> R) {
    forall r, s :: shift(r) == shift(s) ==> r == s
  }

  ghost predicate StepInjective<R(!new)>(step: (R, byte) -> R) {
    && (forall r, s, b: byte :: step(r, b) == step(s, b) ==> r == s)
    && (forall r, a: byte, b: byte :: step(r, a) == step(r, b) ==> a == b)
  }

  lemma {:induction false} IterateInjective<R(!new)>(shift: R -> R, r: R, s: R, n: nat)
    requires Injective(shift)
    requires Iterate(shift, r, n) == Iterate(shift, s, n)
    ensures r == s
  {
    if n > 0 {
      IterateInjective(shift, r, s, n - 1);
    }
  }

  lemma {:induction false} FoldAppend<R>(step: (R, byte) -> R, r: R, a: seq<byte>, b: seq<byte>)
    ensures Fold(step, r, a + b) == Fold(step, Fold(step, r, a), b)
    decreases a
  {
    if a == [] {
      assert a + b == b;
    } else {
      assert (a + b)[1..] == a[1..] + b;
      FoldAppend(step, step(r, a[0]), a[1..], b);
    }
  }

  lemma FoldSnoc<R>(step: (R, byte) -> R, r: R, data: seq<byte>, i: nat)
    requires i < |data|
    ensures Fold(step, r, data[..i + 1]) == step(Fold(step, r, data[..i]), data[i])
  {
    assert data[..i + 1] == data[..i] + [data[i]];
    FoldAppend(step, r, data[..i], [data[i]]);
    assert [data[i]][1..] == [];
  }

  lemma {:induction false} FoldInjective<R(!new)>(step: (R, byte) -> R, r: R, s: R, data: seq<byte>)
    requires StepInjective(step)
    requires Fold(step, r, data) == Fold(step, s, data)
    ensures r == s
    decreases data
  {
    if data != [] {
      FoldInjective(step, step(r, data[0]), step(s, data[0]), data[1..]);
    }
  }

  /** Changing one byte anywhere in a message changes the register at the end. */
  lemma FoldDetectsOneByte<R(!new)>(step: (R, byte) -> R, r: R, data: seq<byte>, i: nat, b: byte)
    requires StepInjective(step)
    requires i < |data| && b != data[i]
    ensures Fold(step, r, data[i := b]) != Fold(step, r, data)
  {
    var before, after := data[..i], data[i + 1..];
    assert data == before + ([data[i]] + after);
    assert data[i := b] == before + ([b] + after);
    FoldAppend(step, r, before, [data[i]] + after);
    FoldAppend(step, r, before, [b] + after);
    var m := Fold(step, r, before);
    assert ([data[i]] + after)[1..] == after && ([b] + after)[1..] == after;
    if Fold(step, step(m, data[i]), after) == Fold(step, step(m, b), after) {
      FoldInjective(step, step(m, data[i]), step(m, b), after);
    }
  }

  // ------------------------------------------------ CRC16-XMODEM (0x1021)

  /** One bit through the left-shifting register. */
  function Shift1021(r: word): word {
    if r >= 0x8000 then XorWord(r * 2 % 0x10000, 0x1021) else r * 2
  }

  function XmodemStep(r: word, b: byte): word {
    Iterate(Shift1021, XorWord(r, Upper(b)), 8)
  }

  function Upper(b: byte): word {
    (b as int) * 256
  }

  /** The check value of a 4-way frame body. */
  function Xmodem(data: seq<byte>): word {
    Fold(XmodemStep, 0, data)
  }

  /** The register loop of the 4-way server, and of its independent client. */
  method Crc16Xmodem(data: seq<byte>) returns (crc: word)
    ensures crc == Xmodem(data)
  {
    crc := 0;
    for i := 0 to |data|
      invariant crc == Fold(XmodemStep, 0, data[..i])
    {
      FoldSnoc(XmodemStep, 0, data, i);
      crc := ShiftByte1021(XorWord(crc, Upper(data[i])));
    }
    assert data[..|data|] == data;
  }

  method ShiftByte1021(start: word) returns (crc: word)
    ensures crc == Iterate(Shift1021, start, 8)
  {
    hide Xor;
    crc := start;
    for k := 0 to 8
      invariant crc == Iterate(Shift1021, start, k)
    {
      if crc >= 0x8000 {
        crc := XorWord(crc * 2 % 0x10000, 0x1021);
      } else {
        crc := crc * 2 % 0x10000;
      }
    }
  }

  lemma MarkedOdd(x: nat, poly: nat)
    requires x % 2 == 0 && poly % 2 == 1
    ensures Xor(x, poly) % 2 == 1
    ensures Xor(Xor(x, poly), poly) == x
  {
    hide Xor;
    XorSplit(x, poly);
    XorUndo(x, poly);
  }

  /** Bit 0 of 0x1021 is set, so bit 0 of the result tells whether a one was shifted out. */
  lemma Shift1021Injective()
    ensures Injective(Shift1021)
  {
    forall r: word, s: word | Shift1021(r) == Shift1021(s) ensures r == s {
      Shift1021Recovered(r, s);
    }
  }

  lemma Shift1021Recovered(r: word, s: word)
    requires Shift1021(r) == Shift1021(s)
    ensures r == s
  {
    hide Xor;
    MarkedOdd(r * 2 % 0x10000, 0x1021);
    MarkedOdd(s * 2 % 0x10000, 0x1021);
  }

  lemma XmodemStepInjective()
    ensures StepInjective(XmodemStep)
  {
    hide Xor;
    Shift1021Injective();
    forall r: word, s: word, b: byte | XmodemStep(r, b) == XmodemStep(s, b) ensures r == s {
      IterateInjective(Shift1021, XorWord(r, Upper(b)), XorWord(s, Upper(b)), 8);
      XorUndo(r, Upper(b));
      XorUndo(s, Upper(b));
    }
    forall r: word, a: byte, b: byte | XmodemStep(r, a) == XmodemStep(r, b) ensures a == b {
      IterateInjective(Shift1021, XorWord(r, Upper(a)), XorWord(r, Upper(b)), 8);
      XorUndo(r, Upper(a));
      XorUndo(r, Upper(b));
    }
  }

  /** Eight shifts of a register with an empty top byte never meet the polynomial. */
  lemma Shifts1021OfLowByte(r: byte)
    ensures Iterate<word>(Shift1021, r, 8) == Upper(r)
  {
    hide Xor;
    var w: word := r;
    assert Iterate(Shift1021, w, 2) == 4 * w;
    assert Iterate(Shift1021, w, 4) == 16 * w;
    assert Iterate(Shift1021, w, 6) == 64 * w;
  }

  /** Two bytes leave a zero register exactly when they are the register itself, high byte first. */
  lemma XmodemTwoBytes(c: word, hi: byte, lo: byte)
    ensures XmodemStep(XmodemStep(c, hi), lo) == 0 <==> c == U16(lo, hi)
  {
    hide Xor, Iterate;
    var x := XorWord(c, Upper(hi));
    XmodemLastByte(x, lo);
    XorMoved(c, Upper(hi), lo);
    XorHighByte(lo, hi);
    XorZero(hi);
  }

  lemma XmodemLastByte(x: word, lo: byte)
    ensures XmodemStep(Iterate(Shift1021, x, 8), lo) == 0 <==> x == lo
  {
    hide Xor, Iterate;
    Shift1021Injective();
    Shifts1021OfLowByte(lo);
    Shifts1021OfLowByte(0);
    var y: word := Iterate(Shift1021, x, 8);
    XorMeansEqual(y, Upper(lo));
    if Iterate(Shift1021, XorWord(y, Upper(lo)), 8) == 0 {
      IterateInjective<word>(Shift1021, XorWord(y, Upper(lo)), 0, 8);
      IterateInjective<word>(Shift1021, x, lo, 8);
    }
  }

  /** A frame passes its big-endian check exactly when the register over all of it ends at zero. */
  lemma XmodemResidue(frame: seq<byte>)
    requires |frame| >= 2
    ensures Xmodem(frame) == 0 <==>
            Xmodem(frame[..|frame| - 2]) == U16(frame[|frame| - 1], frame[|frame| - 2])
  {
    hide XmodemStep;
    var n := |frame|;
    FoldSnoc(XmodemStep, 0, frame, n - 2);
    FoldSnoc(XmodemStep, 0, frame, n - 1);
    assert frame[..n] == frame;
    XmodemTwoBytes(Fold(XmodemStep, 0, frame[..n - 2]), frame[n - 2], frame[n - 1]);
  }

  lemma XmodemDetectsOneByte(data: seq<byte>, i: nat, b: byte)
    requires i < |data| && b != data[i]
    ensures Xmodem(data[i := b]) != Xmodem(data)
  {
    XmodemStepInjective();
    FoldDetectsOneByte(XmodemStep, 0, data, i, b);
  }

  // -------------------------------------- bootloader CRC16, reflected (0xA001)

  /** One bit through the right-shifting register. */
  function ShiftA001(r: word): word {
    if r % 2 == 1 then XorWord(r / 2, 0xA001) else r / 2
  }

  function BootStep(r: word, b: byte): word {
    Iterate(ShiftA001, XorWord(r, b), 8)
  }

  /** The check value of a one-wire bootloader frame. */
  function Boot(data: seq<byte>): word {
    Fold(BootStep, 0, data)
  }

  /**
   The bootloader's loop: it never mixes the byte into the register, it compares
   the two low bits and shifts both.
   */
  method Crc16Boot(data: seq<byte>) returns (crc: word)
    ensures crc == Boot(data)
  {
    crc := 0;
    for i := 0 to |data|
      invariant crc == Fold(BootStep, 0, data[..i])
    {
      FoldSnoc(BootStep, 0, data, i);
      crc := BootByte(crc, data[i]);
    }
    assert data[..|data|] == data;
  }

  method BootByte(start: word, byte0: byte) returns (ret: word)
    ensures ret == BootStep(start, byte0)
  {
    hide Xor;
    ret := start;
    Exp2Values();
    var b: byte := byte0;
    for k := 0 to 8
      invariant XorWord(ret, b) == Iterate(ShiftA001, XorWord(start, byte0), k)
      invariant b < Exp2(8 - k)
    {
      BootBit(ret, b);
      if b % 2 != ret % 2 {
        ret := XorWord(ret / 2, 0xA001);
      } else {
        ret := ret / 2;
      }
      b := b / 2;
    }
    XorZero(ret);
  }

  /** Comparing the low bits and shifting both is one shift of the mixed register. */
  lemma BootBit(r: word, b: byte)
    ensures ShiftA001(XorWord(r, b)) ==
            XorWord(if b % 2 != r % 2 then XorWord(r / 2, 0xA001) else r / 2, b / 2)
  {
    hide Xor;
    XorSplit(r, b);
    XorAssociates(r / 2, b / 2, 0xA001);
    XorAssociates(r / 2, 0xA001, b / 2);
    XorCommutes(b / 2, 0xA001);
  }

  /** The top bit of 0xA001 is set, so the top bit of the result tells whether a one was shifted out. */
  lemma ShiftA001Injective()
    ensures Injective(ShiftA001)
  {
    hide Xor;
    forall r: word, s: word | ShiftA001(r) == ShiftA001(s) ensures r == s {
      TopBitSet(r / 2);
      TopBitSet(s / 2);
      XorUndo(r / 2, 0xA001);
      XorUndo(s / 2, 0xA001);
    }
  }

  lemma TopBitSet(h: nat)
    requires h < 0x8000
    ensures Xor(h, 0xA001) >= 0x8000
  {
    hide Xor;
    Exp2Values();
    XorTopBit(h, 0x2001, 15);
  }

  lemma BootStepInjective()
    ensures StepInjective(BootStep)
  {
    hide Xor;
    ShiftA001Injective();
    forall r: word, s: word, b: byte | BootStep(r, b) == BootStep(s, b) ensures r == s {
      IterateInjective(ShiftA001, XorWord(r, b), XorWord(s, b), 8);
      XorUndo(r, b);
      XorUndo(s, b);
    }
    forall r: word, a: byte, b: byte | BootStep(r, a) == BootStep(r, b) ensures a == b {
      IterateInjective(ShiftA001, XorWord(r, a), XorWord(r, b), 8);
      XorUndo(r, a);
      XorUndo(r, b);
    }
  }

  /** Eight shifts of a register with an empty low byte only move the top byte down. */
  lemma ShiftsA001OfHighByte(h: byte)
    ensures Iterate(ShiftA001, Upper(h), 8) == h
  {
    hide Xor;
    var w: word := Upper(h);
    assert Iterate(ShiftA001, w, 2) == 64 * h;
    assert Iterate(ShiftA001, w, 4) == 16 * h;
    assert Iterate(ShiftA001, w, 6) == 4 * h;
  }

  lemma BootTwoBytes(c: word, lo: byte, hi: byte)
    ensures BootStep(BootStep(c, lo), hi) == 0 <==> c == U16(lo, hi)
  {
    hide Xor, Iterate;
    var x := XorWord(c, lo);
    BootLastByte(x, hi);
    XorMoved(c, lo, Upper(hi));
    XorCommutes(Upper(hi), lo);
    XorHighByte(lo, hi);
    XorZero(hi);
  }

  lemma BootLastByte(x: word, hi: byte)
    ensures BootStep(Iterate(ShiftA001, x, 8), hi) == 0 <==> x == Upper(hi)
  {
    hide Xor, Iterate;
    ShiftA001Injective();
    ShiftsA001OfHighByte(hi);
    ShiftsA001OfHighByte(0);
    var y: word := Iterate(ShiftA001, x, 8);
    XorMeansEqual(y, hi);
    if Iterate(ShiftA001, XorWord(y, hi), 8) == 0 {
      IterateInjective<word>(ShiftA001, XorWord(y, hi), 0, 8);
      IterateInjective<word>(ShiftA001, x, Upper(hi), 8);
    }
  }

  /** A frame passes its little-endian check exactly when the register over all of it ends at zero. */
  lemma BootResidue(frame: seq<byte>)
    requires |frame| >= 2
    ensures Boot(frame) == 0 <==>
            Boot(frame[..|frame| - 2]) == U16(frame[|frame| - 2], frame[|frame| - 1])
  {
    hide BootStep;
    var n := |frame|;
    FoldSnoc(BootStep, 0, frame, n - 2);
    FoldSnoc(BootStep, 0, frame, n - 1);
    assert frame[..n] == frame;
    BootTwoBytes(Fold(BootStep, 0, frame[..n - 2]), frame[n - 2], frame[n - 1]);
  }

  lemma BootDetectsOneByte(data: seq<byte>, i: nat, b: byte)
    requires i < |data| && b != data[i]
    ensures Boot(data[i := b]) != Boot(data)
  {
    BootStepInjective();
    FoldDetectsOneByte(BootStep, 0, data, i, b);
  }

  // ------------------------------------------- MSP: CRC-8 (0xD5) and plain XOR

  function ShiftD5(r: byte): byte {
    if r >= 0x80 then XorByte(r * 2 % 0x100, 0xd5) else r * 2
  }

  function Crc8Step(r: byte, b: byte): byte {
    Iterate(ShiftD5, XorByte(r, b), 8)
  }

  /** The check value of a native MSPv2 frame. */
  function Crc8(data: seq<byte>): byte {
    Fold(Crc8Step, 0, data)
  }

  /** The check value of an MSPv1 frame. */
  function XorSum(data: seq<byte>): byte {
    Fold(XorByte, 0, data)
  }

  method Crc8Loop(data: seq<byte>) returns (crc: byte)
    ensures crc == Crc8(data)
  {
    crc := 0;
    for i := 0 to |data|
      invariant crc == Fold(Crc8Step, 0, data[..i])
    {
      FoldSnoc(Crc8Step, 0, data, i);
      crc := ShiftByteD5(XorByte(crc, data[i]));
    }
    assert data[..|data|] == data;
  }

  method ShiftByteD5(start: byte) returns (crc: byte)
    ensures crc == Iterate(ShiftD5, start, 8)
  {
    hide Xor;
    crc := start;
    for k := 0 to 8
      invariant crc == Iterate(ShiftD5, start, k)
    {
      crc := if crc >= 0x80 then XorByte(crc * 2 % 0x100, 0xd5) else crc * 2 % 0x100;
    }
  }

  lemma ShiftD5Injective()
    ensures Injective(ShiftD5)
  {
    forall r: byte, s: byte | ShiftD5(r) == ShiftD5(s) ensures r == s {
      ShiftD5Recovered(r, s);
    }
  }

  lemma ShiftD5Recovered(r: byte, s: byte)
    requires ShiftD5(r) == ShiftD5(s)
    ensures r == s
  {
    hide Xor;
    MarkedOdd(r * 2 % 0x100, 0xd5);
    MarkedOdd(s * 2 % 0x100, 0xd5);
  }

  lemma XorByteInjective()
    ensures StepInjective(XorByte)
  {
    hide Xor;
    forall r: byte, s: byte, b: byte | XorByte(r, b) == XorByte(s, b) ensures r == s {
      XorUndo(r, b);
      XorUndo(s, b);
    }
    forall r: byte, a: byte, b: byte | XorByte(r, a) == XorByte(r, b) ensures a == b {
      XorUndo(r, a);
      XorUndo(r, b);
    }
  }

  lemma Crc8StepInjective()
    ensures StepInjective(Crc8Step)
  {
    hide Xor, XorByte;
    ShiftD5Injective();
    XorByteInjective();
    forall r: byte, s: byte, b: byte | Crc8Step(r, b) == Crc8Step(s, b) ensures r == s {
      IterateInjective(ShiftD5, XorByte(r, b), XorByte(s, b), 8);
    }
    forall r: byte, a: byte, b: byte | Crc8Step(r, a) == Crc8Step(r, b) ensures a == b {
      IterateInjective(ShiftD5, XorByte(r, a), XorByte(r, b), 8);
    }
  }

  /** A message followed by its check byte ends at zero, and no other byte does that. */
  lemma Crc8Residue(data: seq<byte>, check: byte)
    ensures Crc8(data + [check]) == 0 <==> check == Crc8(data)
  {
    hide Xor;
    FoldAppend(Crc8Step, 0, data, [check]);
    assert [check][1..] == [];
    var c := Crc8(data);
    assert Iterate<byte>(ShiftD5, 0, 4) == 0;
    assert Iterate<byte>(ShiftD5, 0, 8) == 0;
    XorMeansEqual(c, check);
    ShiftD5Injective();
    if Crc8Step(c, check) == 0 {
      IterateInjective<byte>(ShiftD5, XorByte(c, check), 0, 8);
    }
  }

  lemma Crc8DetectsOneByte(data: seq<byte>, i: nat, b: byte)
    requires i < |data| && b != data[i]
    ensures Crc8(data[i := b]) != Crc8(data)
  {
    Crc8StepInjective();
    FoldDetectsOneByte(Crc8Step, 0, data, i, b);
  }

  lemma XorSumDetectsOneByte(data: seq<byte>, i: nat, b: byte)
    requires i < |data| && b != data[i]
    ensures XorSum(data[i := b]) != XorSum(data)
  {
    XorByteInjective();
    FoldDetectsOneByte(XorByte, 0, data, i, b);
  }
}
