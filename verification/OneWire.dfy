/**
 The one-wire bootloader client. The simulated ESCs are an oracle: everything sent
 so far, and every reset, is a history, and the oracle says which bytes the last
 addressed ESC returns before the client stops waiting.
 */
module OneWire {
  import opened Bytes
  import Crc
  import opened SerialPackets

  datatype Event =
    | Frame(esc: nat, bytes: seq<byte>, gap: bool)
    | Reset(esc: nat)

  type History = seq<Event>
  type Answers = History -> seq<byte>

  const ACK_OK: byte := 0x30
  const ACK_BAD_CMD: byte := 0xC1

  function WithCrc(frame: seq<byte>): seq<byte> {
    frame + Le16(Crc.Boot(frame))
  }

  function ProbeFrame(): seq<byte> {
    [0, 0, 0, 0, 0, 0, 0, 0, 13, 66, 0, 0, 0, 0, 0, 0, 0x7d]
  }

  function AddressFrame(addr16: word): seq<byte> {
    WithCrc([0xFF, 0] + Be16(addr16))
  }

  /** 256 does not fit the size byte: it is sent as a set high byte and a zero size. */
  function BufferFrame(size: nat): seq<byte>
    requires 1 <= size <= 256
  {
    WithCrc(if size == 256 then [0xFE, 0, 1, 0] else [0xFE, 0, 0, size])
  }

  const PROG_FRAME: seq<byte> := WithCrc([0x01, 0])
  const ERASE_FRAME: seq<byte> := WithCrc([0x02, 0])
  const KEEP_ALIVE_FRAME: seq<byte> := WithCrc([0xFD, 0])
  const RUN_FRAME: seq<byte> := [0, 0, 0, 0]

  function ReadFrame(size: nat): seq<byte>
    requires 1 <= size <= 256
  {
    WithCrc([0x03, size % 256])
  }

  // -------------------------------------------------- operations on a history

  function Send(log: History, esc: nat, bytes: seq<byte>, gap: bool): History {
    log + [Frame(esc, bytes, gap)]
  }

  /** At most n bytes of the answer: all of them when there are enough, else what came. */
  function ReadSerial(answers: Answers, log: History, n: nat): seq<byte> {
    var got := answers(log);
    if |got| >= n then got[..n] else got
  }

  /** A read takes the front of what the ESC returned, as much as was asked for or all there is. */
  lemma ReadsFront(answers: Answers, log: History, n: nat)
    ensures var got := ReadSerial(answers, log, n);
            got <= answers(log) && |got| == if n < |answers(log)| then n else |answers(log)|
  {}

  predicate Acked(answers: Answers, log: History, want: byte) {
    ReadSerial(answers, log, 1) == [want]
  }

  predicate IsDeviceInfo(r: seq<byte>) {
    |r| == 9 && r[..3] == [0x34, 0x37, 0x31] && r[8] == ACK_OK
  }

  function ConnectOn(answers: Answers, esc: nat, log: History): (Option<seq<byte>>, History) {
    var sent := Send(log, esc, ProbeFrame(), false);
    var r := ReadSerial(answers, sent, 9);
    (if IsDeviceInfo(r) then Some(r) else None, sent)
  }

  function SetAddressOn(answers: Answers, esc: nat, addr16: word, log: History): (bool, History) {
    var sent := Send(log, esc, AddressFrame(addr16), false);
    (Acked(answers, sent, ACK_OK), sent)
  }

  function SetBufferOn(answers: Answers, esc: nat, payload: seq<byte>, log: History): (bool, History)
    requires 1 <= |payload| <= 256
  {
    var sent := Send(Send(log, esc, BufferFrame(|payload|), false), esc, WithCrc(payload), true);
    (Acked(answers, sent, ACK_OK), sent)
  }

  function ProgFlashOn(answers: Answers, esc: nat, log: History): (bool, History) {
    var sent := Send(log, esc, PROG_FRAME, false);
    (Acked(answers, sent, ACK_OK), sent)
  }

  function WriteOn(answers: Answers, esc: nat, addr16: word, payload: seq<byte>, log: History): (bool, History)
    requires 1 <= |payload| <= 256
  {
    var addressed := SetAddressOn(answers, esc, addr16, log);
    if !addressed.0 then (false, addressed.1)
    else
      var buffered := SetBufferOn(answers, esc, payload, addressed.1);
      if !buffered.0 then (false, buffered.1) else ProgFlashOn(answers, esc, buffered.1)
  }

  function EraseFlashOn(answers: Answers, esc: nat, addr16: word, log: History): (bool, History) {
    var addressed := SetAddressOn(answers, esc, addr16, log);
    if !addressed.0 then (false, addressed.1)
    else
      var sent := Send(addressed.1, esc, ERASE_FRAME, false);
      (Acked(answers, sent, ACK_OK), sent)
  }

  /** The data of a complete, acknowledged and correctly checked read, else None. */
  function ReadResult(r: seq<byte>, size: nat): (data: Option<seq<byte>>)
    ensures data.Some? ==> |data.value| == size
  {
    if |r| != size + 3 || r[size + 2] != ACK_OK then None
    else if U16(r[size], r[size + 1]) != Crc.Boot(r[..size]) then None
    else Some(r[..size])
  }

  function ReadFlashOn(answers: Answers, esc: nat, size: nat, addr16: word, log: History)
    : (r: (Option<seq<byte>>, History))
    requires 1 <= size <= 256
    ensures r.0.Some? ==> |r.0.value| == size
  {
    var addressed := SetAddressOn(answers, esc, addr16, log);
    if !addressed.0 then (None, addressed.1)
    else
      var sent := Send(addressed.1, esc, ReadFrame(size), false);
      (ReadResult(ReadSerial(answers, sent, size + 3), size), sent)
  }

  /** The bootloader answers a keep alive with its bad-command byte. */
  function KeepAliveOn(answers: Answers, esc: nat, log: History): (bool, History) {
    var sent := Send(log, esc, KEEP_ALIVE_FRAME, false);
    (Acked(answers, sent, ACK_BAD_CMD), sent)
  }

  function RunOn(esc: nat, log: History): History {
    Send(log, esc, RUN_FRAME, false)
  }

  // ------------------------------------------------------------ the client

  /** All one-wire clients of a bench, writing to one log. */
  class Bench {
    const answers: Answers
    var log: History

    constructor (answers: Answers)
      ensures this.answers == answers && log == []
    {
      this.answers := answers;
      log := [];
    }

    method SendSerial(esc: nat, bytes: seq<byte>, gap: bool)
      modifies this
      ensures log == Send(old(log), esc, bytes, gap)
    {
      log := log + [Frame(esc, bytes, gap)];
    }

    method ResetEsc(esc: nat)
      modifies this
      ensures log == old(log) + [Reset(esc)]
    {
      log := log + [Reset(esc)];
    }

    method Ack() returns (r: Option<byte>)
      ensures forall want: byte :: Acked(answers, log, want) <==> r == Some(want)
    {
      var got := ReadSerial(answers, log, 1);
      r := if |got| == 1 then Some(got[0]) else None;
      assert |got| == 1 ==> got == [got[0]];
    }

    method Connect(esc: nat) returns (info: Option<seq<byte>>)
      modifies this
      ensures (info, log) == ConnectOn(answers, esc, old(log))
    {
      SendSerial(esc, ProbeFrame(), false);
      var r := ReadSerial(answers, log, 9);
      info := if IsDeviceInfo(r) then Some(r) else None;
    }

    method SetAddress(esc: nat, addr16: word) returns (ok: bool)
      modifies this
      ensures (ok, log) == SetAddressOn(answers, esc, addr16, old(log))
    {
      SendSerial(esc, AddressFrame(addr16), false);
      var ack := Ack();
      ok := ack == Some(ACK_OK);
    }

    method SetBuffer(esc: nat, payload: seq<byte>) returns (ok: bool)
      requires 1 <= |payload| <= 256
      modifies this
      ensures (ok, log) == SetBufferOn(answers, esc, payload, old(log))
    {
      SendSerial(esc, BufferFrame(|payload|), false);
      SendSerial(esc, WithCrc(payload), true);
      var ack := Ack();
      ok := ack == Some(ACK_OK);
    }

    method ProgFlash(esc: nat) returns (ok: bool)
      modifies this
      ensures (ok, log) == ProgFlashOn(answers, esc, old(log))
    {
      SendSerial(esc, PROG_FRAME, false);
      var ack := Ack();
      ok := ack == Some(ACK_OK);
    }

    method Write(esc: nat, addr16: word, payload: seq<byte>) returns (ok: bool)
      requires 1 <= |payload| <= 256
      modifies this
      ensures (ok, log) == WriteOn(answers, esc, addr16, payload, old(log))
    {
      ok := SetAddress(esc, addr16);
      if !ok {
        return;
      }
      ok := SetBuffer(esc, payload);
      if !ok {
        return;
      }
      ok := ProgFlash(esc);
    }

    method EraseFlash(esc: nat, addr16: word) returns (ok: bool)
      modifies this
      ensures (ok, log) == EraseFlashOn(answers, esc, addr16, old(log))
    {
      ok := SetAddress(esc, addr16);
      if !ok {
        return;
      }
      SendSerial(esc, ERASE_FRAME, false);
      var ack := Ack();
      ok := ack == Some(ACK_OK);
    }

    method ReadFlash(esc: nat, size: nat, addr16: word) returns (data: Option<seq<byte>>)
      requires 1 <= size <= 256
      modifies this
      ensures (data, log) == ReadFlashOn(answers, esc, size, addr16, old(log))
    {
      var ok := SetAddress(esc, addr16);
      if !ok {
        return None;
      }
      SendSerial(esc, ReadFrame(size), false);
      data := ReadResult(ReadSerial(answers, log, size + 3), size);
    }

    method KeepAlive(esc: nat) returns (ok: bool)
      modifies this
      ensures (ok, log) == KeepAliveOn(answers, esc, old(log))
    {
      SendSerial(esc, KEEP_ALIVE_FRAME, false);
      var ack := Ack();
      ok := ack == Some(ACK_BAD_CMD);
    }

    method Run(esc: nat)
      modifies this
      ensures log == RunOn(esc, old(log))
    {
      SendSerial(esc, RUN_FRAME, false);
    }
  }

  // ------------------------------------------------- a write, on the wire

  /** The four frames of a complete write, in order. */
  function WriteFrames(esc: nat, addr16: word, payload: seq<byte>): History
    requires 1 <= |payload| <= 256
  {
    [Frame(esc, AddressFrame(addr16), false),
     Frame(esc, BufferFrame(|payload|), false),
     Frame(esc, WithCrc(payload), true),
     Frame(esc, PROG_FRAME, false)]
  }

  /**
   However the ESC answers, a write sends the first one, three or four of its
   frames. The upload follows only an acknowledged address, the program command
   only an acknowledged upload as well, and it succeeds exactly when all three
   acknowledgements came.
   */
  lemma WriteSendsPrefix(answers: Answers, esc: nat, addr16: word, payload: seq<byte>, log: History)
    requires 1 <= |payload| <= 256
    ensures var (ok, after) := WriteOn(answers, esc, addr16, payload, log);
            var frames := WriteFrames(esc, addr16, payload);
            var addressed := Acked(answers, log + frames[..1], ACK_OK);
            var buffered := addressed && Acked(answers, log + frames[..3], ACK_OK);
            && after == log + frames[..if !addressed then 1 else if !buffered then 3 else 4]
            && (ok <==> buffered && Acked(answers, log + frames, ACK_OK))
  {
    hide Crc.Boot;
    var frames := WriteFrames(esc, addr16, payload);
    assert log + frames[..1] == SetAddressOn(answers, esc, addr16, log).1;
    assert log + frames[..3] == SetBufferOn(answers, esc, payload, log + frames[..1]).1;
    assert log + frames[..4] == ProgFlashOn(answers, esc, log + frames[..3]).1;
    assert frames[..4] == frames;
  }

  /** Every byte sent to one ESC, in order. */
  function BytesTo(esc: nat, log: History): seq<byte> {
    if log == [] then []
    else
      (match log[0]
       case Frame(e, bytes, _) => if e == esc then bytes else []
       case Reset(_) => []) + BytesTo(esc, log[1..])
  }

  /** The packets that carry those bytes. */
  function PacketsTo(esc: nat, log: History): seq<seq<byte>> {
    if log == [] then []
    else
      (match log[0]
       case Frame(e, bytes, gap) => if e == esc then Packets(bytes, true, gap) else []
       case Reset(_) => []) + PacketsTo(esc, log[1..])
  }

  lemma {:induction false} ReassembleAppend(a: seq<seq<byte>>, b: seq<seq<byte>>)
    ensures Reassemble(a + b) == Reassemble(a) + Reassemble(b)
  {
    hide Unpack;
    if a == [] {
      assert a + b == b;
    } else {
      assert (a + b)[1..] == a[1..] + b;
      ReassembleAppend(a[1..], b);
    }
  }

  /** Whatever is sent, in whatever order, the ESC's receiver rebuilds exactly those bytes. */
  lemma {:induction false} HistoryReassembles(esc: nat, log: History)
    ensures Reassemble(PacketsTo(esc, log)) == BytesTo(esc, log)
  {
    if log != [] {
      HistoryReassembles(esc, log[1..]);
      match log[0]
      case Frame(e, bytes, gap) =>
        if e == esc {
          PacketsReassemble(bytes, true, gap);
          ReassembleAppend(Packets(bytes, true, gap), PacketsTo(esc, log[1..]));
        } else {
          assert [] + PacketsTo(esc, log[1..]) == PacketsTo(esc, log[1..]);
        }
      case Reset(_) =>
        assert [] + PacketsTo(esc, log[1..]) == PacketsTo(esc, log[1..]);
    }
  }

  /** Packets of four frames, when only the first so many of them are sent. */
  function Laid(address: seq<seq<byte>>, size: seq<seq<byte>>, upload: seq<seq<byte>>, program: seq<seq<byte>>, sent: nat)
    : seq<seq<byte>>
  {
    address + if sent < 3 then [] else size + (upload + if sent < 4 then [] else program)
  }

  lemma PacketsOfFrame(esc: nat, bytes: seq<byte>, gap: bool, rest: History)
    ensures PacketsTo(esc, [Frame(esc, bytes, gap)] + rest) == Packets(bytes, true, gap) + PacketsTo(esc, rest)
  {
    hide Packets;
    var log := [Frame(esc, bytes, gap)] + rest;
    assert log[1..] == rest;
  }

  lemma WritePacketsSent(esc: nat, a: seq<byte>, b: seq<byte>, u: seq<byte>, p: seq<byte>, sent: nat)
    requires sent == 1 || sent == 3 || sent == 4
    ensures var frames := [Frame(esc, a, false), Frame(esc, b, false), Frame(esc, u, true), Frame(esc, p, false)];
            PacketsTo(esc, frames[..sent]) ==
            Laid(Packets(a, true, false), Packets(b, true, false), Packets(u, true, true), Packets(p, true, false), sent)
  {
    hide Packets, PacketsTo;
    var frames := [Frame(esc, a, false), Frame(esc, b, false), Frame(esc, u, true), Frame(esc, p, false)];
    NoPacketsTo(esc);
    if sent == 1 {
      assert frames[..1] == [frames[0]] + [];
      PacketsOfFrame(esc, a, false, []);
    } else {
      var last: History := if sent == 3 then [] else [frames[3]];
      PacketsOfFrame(esc, p, false, []);
      assert [frames[3]] + [] == [frames[3]];
      PacketsOfFrame(esc, u, true, last);
      PacketsOfFrame(esc, b, false, [frames[2]] + last);
      PacketsOfFrame(esc, a, false, [frames[1]] + ([frames[2]] + last));
      assert frames[..sent] == [frames[0]] + ([frames[1]] + ([frames[2]] + last));
      assert Packets(p, true, false) + [] == Packets(p, true, false);
    }
  }

  lemma NoPacketsTo(esc: nat)
    ensures PacketsTo(esc, []) == []
  {}

  lemma FrameSizes(addr16: word, payload: seq<byte>)
    requires 1 <= |payload| <= 256
    ensures |AddressFrame(addr16)| == 6 && |BufferFrame(|payload|)| == 6 && |PROG_FRAME| == 4
    ensures |WithCrc(payload)| == |payload| + 2
  {
    hide Crc.Boot;
  }

  /**
   However the ESC answers a write, its packets rebuild the bytes sent, each carries 1 to
   200 of them, and exactly one asks for a gap before it: the first of the upload, which is
   the third packet.
   */
  lemma WriteGap(answers: Answers, esc: nat, addr16: word, payload: seq<byte>, log: History)
    requires 1 <= |payload| <= 256
    ensures log <= WriteOn(answers, esc, addr16, payload, log).1
    ensures var sent := WriteOn(answers, esc, addr16, payload, log).1[|log|..];
            var packets := PacketsTo(esc, sent);
            && Reassemble(packets) == BytesTo(esc, sent)
            && (forall i :: 0 <= i < |packets| ==> WellFormed(packets[i], i == 2))
            && |sent| != 0 && (|packets| > 2 <==> |sent| > 2)
            && (|sent| > 2 ==> sent[2] == Frame(esc, WithCrc(payload), true))
  {
    hide AddressFrame, BufferFrame, WithCrc, Acked, Packets, WellFormed, WellPacked, Reassemble, WriteOn, PacketsTo;
    WriteSendsPrefix(answers, esc, addr16, payload, log);
    var after := WriteOn(answers, esc, addr16, payload, log).1;
    var sent := after[|log|..];
    var frames := WriteFrames(esc, addr16, payload);
    assert sent == frames[..|sent|];
    HistoryReassembles(esc, sent);
    WritePacketsSent(esc, AddressFrame(addr16), BufferFrame(|payload|), WithCrc(payload), PROG_FRAME, |sent|);
    FrameSizes(addr16, payload);
    OnePacket(AddressFrame(addr16), true, false);
    PacketsReassemble(AddressFrame(addr16), true, false);
    OnePacket(BufferFrame(|payload|), true, false);
    PacketsReassemble(BufferFrame(|payload|), true, false);
    PacketsReassemble(WithCrc(payload), true, true);
    OnePacket(PROG_FRAME, true, false);
    PacketsReassemble(PROG_FRAME, true, false);
    UploadPackets(payload);
    GapInThird(Packets(AddressFrame(addr16), true, false), Packets(BufferFrame(|payload|), true, false),
               Packets(WithCrc(payload), true, true), Packets(PROG_FRAME, true, false), |sent|);
  }

  lemma GapInThird(
    address: seq<seq<byte>>, size: seq<seq<byte>>, upload: seq<seq<byte>>, program: seq<seq<byte>>, sent: nat)
    requires |address| == |size| == |program| == 1 && |upload| >= 1
    requires WellPacked(address, false) && WellPacked(size, false)
    requires WellPacked(upload, true) && WellPacked(program, false)
    ensures var packets := Laid(address, size, upload, program, sent);
            && (forall i :: 0 <= i < |packets| ==> WellFormed(packets[i], i == 2))
            && (|packets| > 2 <==> sent > 2)
  {
    hide WellFormed, WellPacked;
    var packets := Laid(address, size, upload, program, sent);
    forall i | 0 <= i < |packets| ensures WellFormed(packets[i], i == 2) {
      if i == 0 {
        WellPackedAt(address, false, 0);
      } else if i == 1 {
        WellPackedAt(size, false, 0);
      } else if i < 2 + |upload| {
        WellPackedAt(upload, true, i - 2);
      } else {
        WellPackedAt(program, false, 0);
      }
    }
  }

  lemma UploadPackets(payload: seq<byte>)
    requires 1 <= |payload| <= 256
    ensures |Packets(WithCrc(payload), true, true)| >= 1
  {
    hide PackSerial, Flags, Crc.Boot;
  }

  /** How the bootloader reads the size announced by a buffer command. */
  function AnnouncedSize(frame: seq<byte>): nat
    requires |frame| == 6
  {
    U16(frame[3], frame[2])
  }

  lemma BufferSizeRecovered(size: nat)
    requires 1 <= size <= 256
    ensures |BufferFrame(size)| == 6 && AnnouncedSize(BufferFrame(size)) == size
  {}

  /** Addresses and read sizes are recovered the same way, a read of 256 being sent as zero. */
  lemma RequestRecovered(addr16: word, size: nat)
    requires 1 <= size <= 256
    ensures var a := AddressFrame(addr16); |a| == 6 && a[0] == 0xFF && U16(a[3], a[2]) == addr16
    ensures var r := ReadFrame(size); |r| == 4 && r[0] == 0x03 && size == if r[1] == 0 then 256 else r[1]
  {
    hide Crc.Boot;
  }

  /** Each frame of a write passes the bootloader's check; none passes with one byte wrong. */
  lemma CheckedFrame(body: seq<byte>, i: nat, b: byte)
    ensures Crc.Boot(WithCrc(body)) == 0
    ensures i < |WithCrc(body)| && b != WithCrc(body)[i] ==> Crc.Boot(WithCrc(body)[i := b]) != 0
  {
    var frame := WithCrc(body);
    assert frame[..|frame| - 2] == body;
    Crc.BootResidue(frame);
    if i < |frame| && b != frame[i] {
      Crc.BootDetectsOneByte(frame, i, b);
    }
  }
}
