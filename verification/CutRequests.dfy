/**
 Two sessions in which a faulty link makes the 4-way server run a flash write nobody sent:
 a write cut after six of its nine bytes, and delivered twice, or sent again whole.
 */
module CutRequests {
  import opened Bits
  import opened Bytes
  import Crc
  import opened LinkFaults
  import W = OneWire
  import opened FourWayServer
  import opened FourWaySession
  import opened FourWayClient
  import opened FourWayFaults
  import opened FourWayLink

  // ------------------------------------------------- the check value, by hand

  /** One bit of a number turned over: p is 1, 32 or 4096. */
  function Turned(x: nat, p: nat): nat
    requires p > 0
  {
    if x / p % 2 == 1 && x >= p then x - p else x + p
  }

  lemma TurnOne(x: nat)
    ensures Xor(x, 1) == Turned(x, 1)
  {
    hide Xor;
    XorSplit(x, 1);
    XorZero(x / 2);
  }

  lemma TurnInNibble(x: nat)
    ensures Xor(x, 2) == Turned(x, 2)
  {
    hide Xor;
    XorDoubled(x, 1);
    TurnOne(x / 2);
  }

  lemma TurnHigher(x: nat, p: nat)
    requires p == 1 || p == 2 || p == 16 || p == 256
    ensures Turned(x, 16 * p) == 16 * Turned(x / 16, p) + x % 16
  {
    assert x == 16 * (x / 16) + x % 16;
  }

  lemma Turn32(x: nat)
    ensures Xor(x, 32) == Turned(x, 32)
  {
    hide Xor, Turned;
    XorHighNibble(x, 2);
    TurnInNibble(x / 16);
    TurnHigher(x, 2);
  }

  lemma Turn4096(x: nat)
    ensures Xor(x, 4096) == Turned(x, 4096)
  {
    hide Xor, Turned;
    XorHighNibble(x, 256);
    XorHighNibble(x / 16, 16);
    XorHighNibble(x / 16 / 16, 1);
    TurnOne(x / 16 / 16 / 16);
    TurnHigher(x / 16 / 16, 1);
    TurnHigher(x / 16, 16);
    TurnHigher(x, 256);
  }

  function NextBit(r: nat): nat {
    if r >= 0x8000 then Turned(Turned(Turned(r * 2 - 0x10000, 1), 32), 4096) else r * 2
  }

  lemma NextBitIsShift(r: word)
    ensures Crc.Shift1021(r) == NextBit(r)
  {
    hide Xor, Turned;
    if r >= 0x8000 {
      var x := r * 2 - 0x10000;
      TurnOne(x);
      Turn32(Xor(x, 1));
      Turn4096(Xor(Xor(x, 1), 32));
      XorAssociates(x, 1, 32);
      XorAssociates(x, Xor(1, 32), 4096);
      Polynomial();
    }
  }

  lemma Polynomial()
    ensures Xor(Xor(1, 32), 4096) == 0x1021
  {
    hide Xor;
    Turn32(1);
    Turn4096(33);
  }

  /** A whole byte through the register, bit by bit. */
  lemma EightBits(r: seq<word>)
    requires |r| == 9 && forall k :: 0 <= k < 8 ==> r[k + 1] == NextBit(r[k])
    ensures Crc.Iterate(Crc.Shift1021, r[0], 8) == r[8]
  {
    hide NextBit, Crc.Shift1021;
    var k := 0;
    while k < 8
      invariant 0 <= k <= 8 && Crc.Iterate(Crc.Shift1021, r[0], k) == r[k]
    {
      NextBitIsShift(r[k]);
      k := k + 1;
    }
  }

  lemma Mixed0()
    ensures Xor(0x00, 0x2F) == 0x2F
  {
    hide Xor;
    XorZero(0x2F);
  }

  lemma Byte0()
    ensures Crc.XmodemStep(0x0000, 0x2F) == 0xD58D
  {
    hide Xor, Crc.Shift1021, Crc.Iterate;
    Mixed0();
    XorHighByte(0x0000, 0x2F);
    EightBits([0x2F00, 0x5E00, 0xBC00, 0x6821, 0xD042, 0xB0A5, 0x716B, 0xE2D6, 0xD58D]);
  }

  lemma Mixed1()
    ensures Xor(0xD5, 0x3B) == 0xEE
  {
    hide Xor;
    XorSplit(0xD5, 0x3B);
    XorSplit(0x6A, 0x1D);
    XorSplit(0x35, 0x0E);
    XorSplit(0x1A, 0x07);
    XorSplit(0x0D, 0x03);
    XorSplit(0x06, 0x01);
    XorZero(0x03);
  }

  lemma Byte1()
    ensures Crc.XmodemStep(0xD58D, 0x3B) == 0x91E0
  {
    hide Xor, Crc.Shift1021, Crc.Iterate;
    Mixed1();
    XorHighByte(0xD58D, 0x3B);
    EightBits([0xEE8D, 0xCD3B, 0x8A57, 0x048F, 0x091E, 0x123C, 0x2478, 0x48F0, 0x91E0]);
  }

  lemma Mixed2()
    ensures Xor(0x91, 0x00) == 0x91
  {
    hide Xor;
    XorZero(0x91);
  }

  lemma Byte2()
    ensures Crc.XmodemStep(0x91E0, 0x00) == 0x7398
  {
    hide Xor, Crc.Shift1021, Crc.Iterate;
    Mixed2();
    XorHighByte(0x91E0, 0x00);
    EightBits([0x91E0, 0x33E1, 0x67C2, 0xCF84, 0x8F29, 0x0E73, 0x1CE6, 0x39CC, 0x7398]);
  }

  lemma Mixed3()
    ensures Xor(0x73, 0x0C) == 0x7F
  {
    hide Xor;
    XorSplit(0x73, 0x0C);
    XorSplit(0x39, 0x06);
    XorSplit(0x1C, 0x03);
    XorSplit(0x0E, 0x01);
    XorZero(0x07);
  }

  lemma Byte3()
    ensures Crc.XmodemStep(0x7398, 0x0C) == 0x1778
  {
    hide Xor, Crc.Shift1021, Crc.Iterate;
    Mixed3();
    XorHighByte(0x7398, 0x0C);
    EightBits([0x7F98, 0xFF30, 0xEE41, 0xCCA3, 0x8967, 0x02EF, 0x05DE, 0x0BBC, 0x1778]);
  }

  lemma Mixed4()
    ensures Xor(0x17, 0x02) == 0x15
  {
    hide Xor;
    XorSplit(0x17, 0x02);
    XorSplit(0x0B, 0x01);
    XorZero(0x05);
  }

  lemma Byte4()
    ensures Crc.XmodemStep(0x1778, 0x02) == 0x3A94
  {
    hide Xor, Crc.Shift1021, Crc.Iterate;
    Mixed4();
    XorHighByte(0x1778, 0x02);
    EightBits([0x1578, 0x2AF0, 0x55E0, 0xABC0, 0x47A1, 0x8F42, 0x0EA5, 0x1D4A, 0x3A94]);
  }

  lemma Mixed5()
    ensures Xor(0x3A, 0x64) == 0x5E
  {
    hide Xor;
    XorSplit(0x3A, 0x64);
    XorSplit(0x1D, 0x32);
    XorSplit(0x0E, 0x19);
    XorSplit(0x07, 0x0C);
    XorSplit(0x03, 0x06);
    XorSplit(0x01, 0x03);
    XorZero(0x01);
  }

  lemma Byte5()
    ensures Crc.XmodemStep(0x3A94, 0x64) == 0x2F3B
  {
    hide Xor, Crc.Shift1021, Crc.Iterate;
    Mixed5();
    XorHighByte(0x3A94, 0x64);
    EightBits([0x5E94, 0xBD28, 0x6A71, 0xD4E2, 0xB9E5, 0x63EB, 0xC7D6, 0x9F8D, 0x2F3B]);
  }

  lemma Mixed6()
    ensures Xor(0x2F, 0x2F) == 0x00
  {
    hide Xor;
    XorSplit(0x2F, 0x2F);
    XorSplit(0x17, 0x17);
    XorSplit(0x0B, 0x0B);
    XorSplit(0x05, 0x05);
    XorSplit(0x02, 0x02);
    XorSplit(0x01, 0x01);
    XorZero(0x00);
  }

  lemma Byte6()
    ensures Crc.XmodemStep(0x2F3B, 0x2F) == 0x3B00
  {
    hide Xor, Crc.Shift1021, Crc.Iterate;
    Mixed6();
    XorHighByte(0x2F3B, 0x2F);
    EightBits([0x003B, 0x0076, 0x00EC, 0x01D8, 0x03B0, 0x0760, 0x0EC0, 0x1D80, 0x3B00]);
  }

  /** The first seven bytes of the cut write and its copy: their check value is the copy's next two. */
  const DOUBLED: seq<byte> := [0x2F, 0x3B, 0x00, 0x0C, 0x02, 0x64, 0x2F]

  lemma DoubledCheck()
    ensures Crc.Xmodem(DOUBLED) == 0x3B00
  {
    hide Crc.XmodemStep;
    Byte0();
    Byte1();
    Byte2();
    Byte3();
    Byte4();
    Byte5();
    Byte6();
    var d := DOUBLED;
    assert d[1..][1..][1..][1..][1..][1..][1..] == [];
  }

  // ---------------------------------------------------------------- the session

  const DOUBLED_FRAME: seq<byte> := DOUBLED + [0x3B, 0x00]

  /** The write, of a value of one's choice, and what the link does to it. */
  function WriteOf(value: byte, choice: Choice): Delivery {
    Delivery(DEVICE_WRITE, 0x000C, [0x64, value], choice)
  }

  const CUT_TWICE := Choice(false, Some(6), None, true)
  const CUT_ONCE := Choice(false, Some(6), None, false)
  const INTACT := Choice(false, None, None, false)

  lemma DoubledFrame()
    ensures var g := DOUBLED_FRAME;
            && |g| == 9 && IsFrame(g) && g[0] == REQ_MARK && g[1] == DEVICE_WRITE && CheckPasses(g)
            && Params(g) == [0x64, 0x2F] && U16(g[3], g[2]) == 0x000C
  {
    hide Crc.Xmodem;
    DoubledCheck();
    assert DOUBLED_FRAME[..7] == DOUBLED;
  }

  lemma WriteShape(value: byte, choice: Choice)
    requires choice in {CUT_TWICE, CUT_ONCE, INTACT}
    ensures var d := WriteOf(value, choice);
            var f := Asked(d);
            && IsFrame(f) && f[0] == REQ_MARK && CheckPasses(f) && |f| == 9 && f[6] == value
            && f[..6] == DOUBLED[..6]
            && Legal(d) && Spares(choice)
            && Damaged(f, choice) == if choice == INTACT then f else DOUBLED[..6]
  {
    hide Send, CheckPasses, DOUBLED;
    SendIsFrame(DEVICE_WRITE, 0x000C, [0x64, value]);
    WriteBytes(value);
    var f := Asked(WriteOf(value, choice));
    assert f[..|f|] == f;
  }

  lemma WriteBytes(value: byte)
    ensures var f := Send(DEVICE_WRITE, 0x000C, [0x64, value]);
            |f| == 9 && f[6] == value && f[..6] == DOUBLED[..6]
  {
    hide Crc.Xmodem;
  }

  lemma {:induction false} TooShort(b: seq<byte>)
    requires |b| < 8
    ensures FramesIn(b) == []
    decreases |b|
  {
    var a := b[IndexOf(b, REQ_MARK)..];
    assert PullAligned(a).NeedMore?;
  }

  /**
   A write of any value but the mark's, cut and delivered twice: the server runs a write of
   the mark instead, to the ESC that is connected, and answers it.
   */
  lemma RepeatedCutWrites(c: Setup, s: Session, value: byte)
    requires s.buf == [] && !s.exited && s.target in s.connected && value != REQ_MARK
    ensures var d := WriteOf(value, CUT_TWICE);
            && Legal(d) && Spares(d.choice) && CompletesItself(Asked(d), d.choice)
            && Ran(Arrived(d)) == [DOUBLED_FRAME] && Asked(d) != DOUBLED_FRAME
            && var (after, out) := Fed(c, s, Arrived(d));
               out != [] && s.log + [W.Frame(s.target, W.AddressFrame(0x000C), false)] <= after.log
  {
    hide Asked, FramesIn, CheckPasses, Delivered, Damaged, DOUBLED_FRAME, Fed, RunAll, CompletesItself, Ran, AllIn;
    var d := WriteOf(value, CUT_TWICE);
    WriteShape(value, CUT_TWICE);
    DeliveredIs(Asked(d), CUT_TWICE);
    DoubledFrames(DOUBLED[..6] + DOUBLED[..6]);
    assert s.buf + Arrived(d) == Arrived(d);
    FedRuns(c, s, Arrived(d));
    DoubledRuns(c, s);
    NotTheMark(Asked(d), value);
    OnlyItself(Asked(d), CUT_TWICE);
    Stranger(Asked(d));
  }

  lemma Stranger(f: seq<byte>)
    requires f != DOUBLED_FRAME
    ensures !AllIn([DOUBLED_FRAME], {f})
  {
    assert [DOUBLED_FRAME][0] == DOUBLED_FRAME;
  }

  lemma NotTheMark(f: seq<byte>, value: byte)
    requires |f| == 9 && f[6] == value != REQ_MARK
    ensures f != DOUBLED_FRAME
  {
    assert DOUBLED_FRAME[6] == REQ_MARK;
  }

  /** Six bytes of the write and then three more that begin it again. */
  lemma DoubledFrames(b: seq<byte>)
    requires 9 <= |b| < 17 && b[..9] == DOUBLED[..6] + DOUBLED[..3]
    ensures Ran(b) == [DOUBLED_FRAME]
  {
    hide FramesIn, CheckPasses, DOUBLED_FRAME;
    DoubledFrame();
    DoubledIs();
    assert b == DOUBLED_FRAME + b[9..];
    FirstWhole(DOUBLED_FRAME, b[9..]);
    TooShort(b[9..]);
    assert [DOUBLED_FRAME] + [] == [DOUBLED_FRAME];
    RanAlone(DOUBLED_FRAME);
  }

  lemma DoubledIs()
    ensures DOUBLED_FRAME == DOUBLED[..6] + DOUBLED[..3]
  {}

  lemma RanAlone(f: seq<byte>)
    requires IsFrame(f)
    ensures Frames([f]) && UntilExit([f]) == [f]
  {}

  /** The write cut once, and then whole: what arrives, and what each finds in the buffer. */
  lemma RetryFrames(value: byte)
    requires value != REQ_MARK
    ensures var first, retry := WriteOf(value, CUT_ONCE), WriteOf(value, INTACT);
            var f := Asked(retry);
            && Legal(first) && Legal(retry) && Asked(first) == f && |f| == 9 && f != DOUBLED_FRAME
            && Arrived(first) == f[..6] && Arrived(retry) == f
            && Ran(f[..6]) == [] && Head(f[..6]) == f[..6] && Ran(f[..6] + f) == [DOUBLED_FRAME]
  {
    hide Asked, FramesIn, CheckPasses, Delivered, Damaged, DOUBLED_FRAME, Ran, Head;
    WriteShape(value, CUT_ONCE);
    WriteShape(value, INTACT);
    SameRequest(value);
    var f := Asked(WriteOf(value, INTACT));
    DeliveredIs(f, CUT_ONCE);
    DeliveredIs(f, INTACT);
    HeadWaits(f);
    assert (f[..6] + f)[..9] == DOUBLED[..6] + DOUBLED[..3];
    DoubledFrames(f[..6] + f);
    NotTheMark(f, value);
  }

  lemma HeadWaits(f: seq<byte>)
    requires IsFrame(f) && |f| == 9 && f[0] == REQ_MARK
    ensures Ran(f[..6]) == [] && Head(f[..6]) == f[..6]
  {
    hide FramesIn, Pull;
    CutWaits(f, f[..6]);
  }

  /**
   The same write cut once, and then sent again whole by a client that got no answer: the
   first delivery runs nothing, and the second, undamaged, runs a write of the mark.
   */
  lemma RetriedCutWrites(c: Setup, s: Session, value: byte)
    requires s.buf == [] && !s.exited && s.target in s.connected && value != REQ_MARK
    ensures var first, retry := WriteOf(value, CUT_ONCE), WriteOf(value, INTACT);
            var f := Asked(retry);
            && Legal(first) && Legal(retry) && Arrived(retry) == f == Asked(first) && |f| == 9
            && Fed(c, s, Arrived(first)) == (s.(buf := f[..6]), [])
            && Ran(f[..6] + f) == [DOUBLED_FRAME] && f != DOUBLED_FRAME
            && RunsStranger({f}, f[..6] + f)
            && var (after, out) := Fed(c, s.(buf := f[..6]), f);
               out != [] && s.log + [W.Frame(s.target, W.AddressFrame(0x000C), false)] <= after.log
  {
    hide Asked, FramesIn, CheckPasses, Arrived, DOUBLED_FRAME, Fed, RunAll, RunsStranger, Ran, AllIn, Head, Legal;
    RetryFrames(value);
    var f := Asked(WriteOf(value, INTACT));
    assert s.buf + f[..6] == f[..6];
    FedRuns(c, s, f[..6]);
    RunNothing(c, s);
    Stranger(f);
    StrangerExactly({f}, f[..6] + f);
    var waiting := s.(buf := f[..6]);
    FedRuns(c, waiting, f);
    DoubledRuns(c, waiting);
  }

  /** So that conversation runs something that was not sent. */
  lemma RetryNotOnlySent(value: byte)
    requires value != REQ_MARK
    ensures var ds := [WriteOf(value, CUT_ONCE), WriteOf(value, INTACT)];
            AllLegal(ds) && !OnlySent({}, [], ds)
  {
    hide Asked, FramesIn, DOUBLED_FRAME, Ran, AllIn, Arrived, Legal, Head;
    RetryFrames(value);
    var first, retry := WriteOf(value, CUT_ONCE), WriteOf(value, INTACT);
    var f, ds := Asked(retry), [first, retry];
    Stranger(f);
    assert [] + f[..6] == f[..6] && ds[1..] == [retry];
    assert {} + {f} + {f} == {f};
  }

  lemma SameRequest(value: byte)
    ensures Asked(WriteOf(value, CUT_ONCE)) == Asked(WriteOf(value, INTACT))
  {}

  lemma DoubledRuns(c: Setup, s: Session)
    requires s.target in s.connected
    ensures IsFrame(DOUBLED_FRAME)
    ensures var (after, out) := RunAll(c, s, [DOUBLED_FRAME]);
            out != [] && s.log + [W.Frame(s.target, W.AddressFrame(0x000C), false)] <= after.log
  {
    hide Crc.Xmodem, Crc.Boot, W.AddressFrame, Params, DOUBLED_FRAME;
    DoubledFrame();
    var ready := s.(lastRequest := DOUBLED_FRAME);
    WriteRuns(c, ready, DOUBLED_FRAME);
    AnswerLength(c, ready, DOUBLED_FRAME);
    assert [DOUBLED_FRAME][1..] == [];
  }

  lemma WriteRuns(c: Setup, s: Session, f: seq<byte>)
    requires IsFrame(f) && f[1] == DEVICE_WRITE && U16(f[3], f[2]) == 0x000C && s.target in s.connected
    ensures var after := Respond(c, s, f).session;
            && after.exited == s.exited
            && s.log + [W.Frame(s.target, W.AddressFrame(0x000C), false)] <= after.log
            && ReplyTo(c, s, f).Some? && ReplyTo(c, s, f).value != []
  {
    hide Crc.Xmodem, Crc.Boot, W.AddressFrame, W.Acked;
    AnswerLength(c, s, f);
  }
}
