/** The 16 bit DShot frame: eleven bits of value, a telemetry bit and four check bits. */
module DshotFrame {
  import opened Bits

  function Crc(v: nat, bidir: bool): nat {
    var sum := Xor(Xor(v, v / 16), v / 256) % 16;
    if bidir then 15 - sum else sum
  }

  /** Only eleven bits of the value are kept. */
  function Frame(value: nat, telem: bool, bidir: bool, corrupt: bool): (f: nat) {
    var v := value % 2048 * 2 + if telem then 1 else 0;
    var crc := Crc(v, bidir);
    v * 16 + if corrupt then Xor(crc, 5) else crc
  }

  /** A bidirectional frame's four nibbles have an xor of all ones. */
  predicate CheckReply(f: nat) {
    Xor(Xor(Xor(f, f / 16), f / 256), f / 4096) % 16 == 15
  }

  // ------------------------------------------------------------------ nibbles

  lemma Glued(low: nat, high: nat)
    requires low < 16
    ensures Xor(low, 16 * high) == low + 16 * high
  {
    hide Xor;
    XorHighNibble(low, high);
    XorZero(high);
  }

  lemma HighOnly(h: nat, k: nat)
    ensures Xor(16 * h, 16 * k) == 16 * Xor(h, k)
  {
    hide Xor;
    XorHighNibble(16 * h, k);
    Digit(0, h);
  }

  lemma Shuffled(p: nat, q: nat, r: nat, s: nat)
    ensures Xor(Xor(p, q), Xor(r, s)) == Xor(Xor(p, r), Xor(q, s))
  {
    hide Xor;
    XorAssociates(p, q, Xor(r, s));
    XorAssociates(q, r, s);
    XorCommutes(q, r);
    XorAssociates(r, q, s);
    XorAssociates(p, r, Xor(q, s));
  }

  lemma XorByDigits(al: nat, ah: nat, bl: nat, bh: nat)
    requires al < 16 && bl < 16
    ensures Xor(al + 16 * ah, bl + 16 * bh) == Xor(al, bl) + 16 * Xor(ah, bh)
    ensures Xor(al, bl) < 16
  {
    hide Xor;
    Glued(al, ah);
    Glued(bl, bh);
    Shuffled(al, 16 * ah, bl, 16 * bh);
    HighOnly(ah, bh);
    SmallXor(al, bl);
    Glued(Xor(al, bl), Xor(ah, bh));
  }

  /** The low nibble of an xor is the xor of the low nibbles. */
  lemma Low16(a: nat, b: nat)
    ensures Xor(a, b) % 16 == Xor(a % 16, b % 16)
  {
    hide Xor;
    Split(a);
    Split(b);
    XorByDigits(a % 16, a / 16, b % 16, b / 16);
    Digit(Xor(a % 16, b % 16), Xor(a / 16, b / 16));
  }

  lemma Split(a: nat)
    ensures a == a % 16 + 16 * (a / 16)
  {}

  lemma SmallXor(a: nat, b: nat)
    requires a < 16 && b < 16
    ensures Xor(a, b) < 16
  {
    assert Exp2(4) == 16;
    XorBound(a, b, 4);
  }

  function Nibbles(a: nat, b: nat, c: nat, d: nat): nat {
    Xor(Xor(Xor(a, b), c), d)
  }

  /** A word written as its nibbles, lowest first. */
  function Word(a: nat, b: nat, c: nat, d: nat): nat {
    a + 16 * b + 256 * c + 4096 * d
  }

  lemma WordParts(a: nat, b: nat, c: nat, d: nat)
    requires a < 16 && b < 16 && c < 16 && d < 16
    ensures var f := Word(a, b, c, d);
            && f < 65536 && f % 16 == a
            && f / 16 == b + 16 * c + 256 * d && f / 16 % 16 == b
            && f / 256 == c + 16 * d && f / 256 % 16 == c
            && f / 4096 == d && f / 4096 % 16 == d
  {
    Digit(a, b + 16 * c + 256 * d);
    Digit(b, c + 16 * d);
    Digit(c, d);
    Shifted(Word(a, b, c, d));
  }

  lemma Digit(low: nat, high: nat)
    requires low < 16
    ensures (low + 16 * high) % 16 == low && (low + 16 * high) / 16 == high
  {}

  lemma Shifted(f: nat)
    ensures f / 256 == f / 16 / 16 && f / 4096 == f / 16 / 16 / 16
  {}

  /** The check reads nothing but the four nibbles. */
  lemma CheckReadsNibbles(a: nat, b: nat, c: nat, d: nat)
    requires a < 16 && b < 16 && c < 16 && d < 16
    ensures CheckReply(Word(a, b, c, d)) <==> Nibbles(a, b, c, d) == 15
  {
    hide Xor, Word;
    var f := Word(a, b, c, d);
    WordParts(a, b, c, d);
    Low16(Xor(Xor(f, f / 16), f / 256), f / 4096);
    Low16(Xor(f, f / 16), f / 256);
    Low16(f, f / 16);
    SmallXor(a, b);
    SmallXor(Xor(a, b), c);
    SmallXor(Xor(Xor(a, b), c), d);
  }

  lemma CrcReadsNibbles(v: nat, bidir: bool)
    ensures var sum := Xor(Xor(v % 16, v / 16 % 16), v / 256 % 16);
            sum < 16 && Crc(v, bidir) == if bidir then Xor(sum, 15) else sum
  {
    hide Xor;
    Low16(Xor(v, v / 16), v / 256);
    Low16(v, v / 16);
    SmallXor(v % 16, v / 16 % 16);
    SmallXor(Xor(v % 16, v / 16 % 16), v / 256 % 16);
    Complement(Xor(Xor(v % 16, v / 16 % 16), v / 256 % 16), 15);
  }

  /** Complementing some bits is an xor with all of them. */
  lemma {:induction false} Complement(s: nat, m: nat)
    requires s <= m && m in {0, 1, 3, 7, 15}
    ensures Xor(s, m) == m - s
    decreases m
  {
    if m == 0 {
      XorZero(0);
    } else {
      hide Xor;
      XorSplit(s, m);
      Complement(s / 2, m / 2);
    }
  }

  // ------------------------------------------------------------------ the frame

  /** A frame is a 16 bit word from which value and telemetry bit can be read back. */
  lemma FrameReads(value: nat, telem: bool, bidir: bool, corrupt: bool)
    ensures var f := Frame(value, telem, bidir, corrupt);
            && f < 65536
            && f / 32 == value % 2048 && (f / 16 % 2 == 1 <==> telem)
            && (value < 2048 ==> f / 32 == value)
  {
    hide Xor, Crc;
    var v := value % 2048 * 2 + if telem then 1 else 0;
    CrcReadsNibbles(v, bidir);
    CheckNibble(v, bidir, corrupt);
  }

  /** The check nibble, damaged or not, against the rest of the frame. */
  lemma CheckNibble(v: nat, bidir: bool, corrupt: bool)
    ensures var sum := Xor(Xor(v % 16, v / 16 % 16), v / 256 % 16);
            var low := if corrupt then Xor(Crc(v, bidir), 5) else Crc(v, bidir);
            && low < 16 && Crc(v, bidir) < 16 && sum < 16
            && (Xor(low, sum) == 15 <==> bidir && !corrupt)
  {
    hide Xor, Crc;
    var sum := Xor(Xor(v % 16, v / 16 % 16), v / 256 % 16);
    CrcReadsNibbles(v, bidir);
    SmallXor(sum, 15);
    SmallXor(Crc(v, bidir), 5);
    LowNibbleXor(if corrupt then Xor(Crc(v, bidir), 5) else Crc(v, bidir), sum, bidir, corrupt);
  }

  /** The receiver of a bidirectional link accepts a frame exactly when it was made for one and left intact. */
  lemma FrameChecks(value: nat, telem: bool, bidir: bool, corrupt: bool)
    ensures CheckReply(Frame(value, telem, bidir, corrupt)) <==> bidir && !corrupt
  {
    hide Xor, CheckReply, Crc, Word;
    var v := value % 2048 * 2 + if telem then 1 else 0;
    CheckNibble(v, bidir, corrupt);
    var low := if corrupt then Xor(Crc(v, bidir), 5) else Crc(v, bidir);
    FrameIsWord(v, low);
    CheckReadsNibbles(low, v % 16, v / 16 % 16, v / 256);
    NibblesFirst(low, v % 16, v / 16 % 16, v / 256);
  }

  lemma FrameIsWord(v: nat, low: nat)
    requires v < 4096
    ensures v * 16 + low == Word(low, v % 16, v / 16 % 16, v / 256)
    ensures v / 256 < 16 && v / 256 % 16 == v / 256
  {
    assert v == 16 * (v / 16) + v % 16;
    assert v / 16 == 16 * (v / 256) + v / 16 % 16;
  }

  lemma NibblesFirst(a: nat, b: nat, c: nat, d: nat)
    ensures Nibbles(a, b, c, d) == Xor(a, Xor(Xor(b, c), d))
  {
    hide Xor;
    XorAssociates(a, b, c);
    XorAssociates(a, Xor(b, c), d);
  }

  lemma LowNibbleXor(low: nat, sum: nat, bidir: bool, corrupt: bool)
    requires sum < 16
    requires var crc := if bidir then Xor(sum, 15) else sum; low == if corrupt then Xor(crc, 5) else crc
    ensures Xor(low, sum) == 15 <==> bidir && !corrupt
  {
    hide Xor;
    var crc := if bidir then Xor(sum, 15) else sum;
    XorCommutes(sum, 15);
    XorUndo(15, sum);
    XorSelf(sum);
    if corrupt {
      XorCommutes(crc, 5);
      XorAssociates(5, crc, sum);
      FiveNeverFifteen();
    }
  }

  lemma FiveNeverFifteen()
    ensures Xor(5, 15) != 15 && Xor(5, 0) != 15
  {}

  /** Any damage within one nibble, so any flipped bit, turns a good frame into a refused one. */
  lemma NibbleDamageRefused(a: nat, b: nat, c: nat, d: nat, w: nat)
    requires a < 16 && b < 16 && c < 16 && d < 16 && w < 16
    ensures CheckReply(Word(a, b, c, d)) && CheckReply(Word(w, b, c, d)) ==> w == a
    ensures CheckReply(Word(a, b, c, d)) && CheckReply(Word(a, w, c, d)) ==> w == b
    ensures CheckReply(Word(a, b, c, d)) && CheckReply(Word(a, b, w, d)) ==> w == c
    ensures CheckReply(Word(a, b, c, d)) && CheckReply(Word(a, b, c, w)) ==> w == d
  {
    hide Xor, CheckReply, Word;
    CheckReadsNibbles(a, b, c, d);
    CheckReadsNibbles(w, b, c, d);
    CheckReadsNibbles(a, w, c, d);
    CheckReadsNibbles(a, b, w, d);
    CheckReadsNibbles(a, b, c, w);
    OtherNibble(a, w, b, c, d);
    OtherNibble(b, w, a, c, d);
    Swapped(a, b, c, d);
    Swapped(a, w, c, d);
    ThirdNibble(Xor(a, b), c, w, d);
    XorInjective(Xor(Xor(a, b), c), d, w);
  }

  lemma ThirdNibble(ab: nat, c: nat, w: nat, d: nat)
    ensures Xor(Xor(ab, c), d) == Xor(Xor(ab, w), d) ==> c == w
  {
    hide Xor;
    XorCommutes(Xor(ab, c), d);
    XorCommutes(Xor(ab, w), d);
    XorInjective(d, Xor(ab, c), Xor(ab, w));
    XorInjective(ab, c, w);
  }

  lemma XorInjective(x: nat, a: nat, b: nat)
    ensures Xor(x, a) == Xor(x, b) ==> a == b
  {
    hide Xor;
    XorUndo(a, x);
    XorUndo(b, x);
    XorCommutes(x, a);
    XorCommutes(x, b);
  }

  lemma OtherNibble(a: nat, w: nat, b: nat, c: nat, d: nat)
    ensures Nibbles(a, b, c, d) == Nibbles(w, b, c, d) ==> a == w
  {
    hide Xor;
    NibblesFirst(a, b, c, d);
    NibblesFirst(w, b, c, d);
    var rest := Xor(Xor(b, c), d);
    XorCommutes(a, rest);
    XorCommutes(w, rest);
    XorInjective(rest, a, w);
  }

  lemma Swapped(a: nat, b: nat, c: nat, d: nat)
    ensures Nibbles(a, b, c, d) == Nibbles(b, a, c, d)
  {
    hide Xor;
    XorCommutes(a, b);
  }

  // ------------------------------------------------------------------- replies

  datatype Reply = BadCrc | ErpmPeriod(us: nat) | Temp(c: nat) | Volt(quarters: nat) | Current(halves: nat) | Extended(raw: nat)

  function Decode(f: nat, edtExpected: bool): Reply {
    if !CheckReply(f) then BadCrc
    else
      var v := f / 16;
      if edtExpected && v / 256 % 2 == 0 && v != 0 then
        if v / 256 == 2 then Temp(v % 256)
        else if v / 256 == 4 then Volt(v % 256)
        else if v / 256 == 6 then Current(v % 256)
        else Extended(v)
      else ErpmPeriod(v % 512 * Exp2(v / 512))
  }

  /** How a speed is sent: nine bits with the top one set, shifted by up to seven. */
  function PeriodFrame(mantissa: nat, shift: nat): nat
    requires 256 <= mantissa < 512 && shift < 8
  {
    var v := shift * 512 + mantissa;
    v * 16 + Crc(v, true)
  }

  /** A normalised speed is never taken for extended telemetry, and reads back as its period. */
  lemma PeriodReads(mantissa: nat, shift: nat, edtExpected: bool)
    requires 256 <= mantissa < 512 && shift < 8
    ensures Decode(PeriodFrame(mantissa, shift), edtExpected) == ErpmPeriod(mantissa * Exp2(shift))
  {
    hide CheckReply, Crc, Xor, Exp2;
    var v := shift * 512 + mantissa;
    CheckNibble(v, true, false);
    PeriodFrameIs(mantissa, shift);
    FrameChecks(v / 2, v % 2 == 1, true, false);
    PeriodParts(mantissa, shift, Crc(v, true));
  }

  lemma PeriodFrameIs(mantissa: nat, shift: nat)
    requires 256 <= mantissa < 512 && shift < 8
    ensures var v := shift * 512 + mantissa; Frame(v / 2, v % 2 == 1, true, false) == PeriodFrame(mantissa, shift)
  {
    hide Crc, Xor;
    var v := shift * 512 + mantissa;
    assert v / 2 % 2048 == v / 2;
    assert v / 2 * 2 + v % 2 == v;
  }

  lemma PeriodParts(mantissa: nat, shift: nat, crc: nat)
    requires 256 <= mantissa < 512 && shift < 8 && crc < 16
    ensures var v := ((shift * 512 + mantissa) * 16 + crc) / 16;
            v == shift * 512 + mantissa && v % 512 == mantissa && v / 512 == shift && v / 256 % 2 == 1
  {}

  /** Different normalised speeds have different periods. */
  lemma {:induction false} PeriodsDistinct(m: nat, s: nat, n: nat, t: nat)
    requires 256 <= m < 512 && 256 <= n < 512 && m * Exp2(s) == n * Exp2(t)
    ensures m == n && s == t
    decreases s + t
  {
    if s > 0 && t > 0 {
      assert m * Exp2(s) == 2 * (m * Exp2(s - 1)) && n * Exp2(t) == 2 * (n * Exp2(t - 1));
      PeriodsDistinct(m, s - 1, n, t - 1);
    } else if s > 0 {
      AtLeastDouble(m, s);
    } else if t > 0 {
      AtLeastDouble(n, t);
    }
  }

  lemma {:induction false} AtLeastDouble(m: nat, s: nat)
    requires s > 0 && m >= 256
    ensures m * Exp2(s) >= 512
  {
    assert m * Exp2(s) == 2 * (m * Exp2(s - 1));
    if s > 1 {
      AtLeastDouble(m, s - 1);
    }
  }

  /** The four nibbles of an intact frame cancel on a plain link, and are all ones together on a bidirectional one. */
  lemma FrameNibbles(value: nat, telem: bool, bidir: bool)
    ensures var f := Frame(value, telem, bidir, false);
            Nibbles(f % 16, f / 16 % 16, f / 256 % 16, f / 4096 % 16) == if bidir then 15 else 0
  {
    hide Xor, Crc, Word;
    var v := value % 2048 * 2 + if telem then 1 else 0;
    var sum := Xor(Xor(v % 16, v / 16 % 16), v / 256 % 16);
    CrcReadsNibbles(v, bidir);
    CheckNibble(v, bidir, false);
    FrameIsWord(v, Crc(v, bidir));
    WordParts(Crc(v, bidir), v % 16, v / 16 % 16, v / 256);
    NibblesFirst(Crc(v, bidir), v % 16, v / 16 % 16, v / 256);
    XorCommutes(sum, 15);
    XorUndo(15, sum);
    XorSelf(sum);
  }

  /** A reply with the top bit of the mantissa clear: what kind of telemetry it is, and its value. */
  function TelemetryFrame(kind: nat, data: nat): nat
    requires kind < 16 && data < 256
  {
    var v := 256 * kind + data;
    v * 16 + Crc(v, true)
  }

  /** Extended telemetry reads back as its kind and value where it is expected, and as a period elsewhere. */
  lemma TelemetryReads(kind: nat, data: nat, expected: bool)
    requires kind < 16 && kind % 2 == 0 && data < 256 && kind + data > 0
    ensures Decode(TelemetryFrame(kind, data), expected) ==
            if !expected then ErpmPeriod(data * Exp2(kind / 2))
            else if kind == 2 then Temp(data)
            else if kind == 4 then Volt(data)
            else if kind == 6 then Current(data)
            else Extended(256 * kind + data)
  {
    hide CheckReply, Crc, Xor, Exp2;
    TelemetryAccepted(kind, data);
    CheckNibble(256 * kind + data, true, false);
    TelemetryParts(kind, data, Crc(256 * kind + data, true));
  }

  lemma TelemetryAccepted(kind: nat, data: nat)
    requires kind < 16 && data < 256
    ensures CheckReply(TelemetryFrame(kind, data))
  {
    hide CheckReply, Crc, Xor;
    var v := 256 * kind + data;
    assert v / 2 % 2048 == v / 2 && v / 2 * 2 + v % 2 == v;
    FrameChecks(v / 2, v % 2 == 1, true, false);
  }

  lemma TelemetryParts(kind: nat, data: nat, crc: nat)
    requires kind < 16 && data < 256 && crc < 16
    ensures var v := ((256 * kind + data) * 16 + crc) / 16;
            && v == 256 * kind + data && v / 256 == kind && v % 256 == data && v / 512 == kind / 2
            && v % 512 == 256 * (kind % 2) + data
  {
    assert 256 * kind + data == 512 * (kind / 2) + (256 * (kind % 2) + data);
  }
}
