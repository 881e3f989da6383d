/**
 Flash transfers followed end to end: from the client's request through the 4-way server
 and the one-wire traffic to what the client reads.
 */
module FourWayTransfers {
  import opened Bytes
  import Crc
  import opened OneWire
  import opened FourWayServer
  import FourWayClient

  /** A complete, acknowledged reply whose data passes the bootloader's check. */
  predicate GoodRead(reply: seq<byte>, size: nat) {
    |reply| == size + 3 && reply[size + 2] == ACK_OK && Crc.Boot(reply[..size + 2]) == 0
  }

  lemma GoodReadResult(reply: seq<byte>, size: nat)
    ensures ReadResult(reply, size) == if GoodRead(reply, size) then Some(reply[..size]) else None
  {
    hide Crc.Boot;
    if |reply| == size + 3 {
      var frame := reply[..size + 2];
      assert frame[..|frame| - 2] == reply[..size];
      Crc.BootResidue(frame);
    }
  }

  predicate IsRead(cmd: byte) {
    cmd == DEVICE_READ || cmd == DEVICE_READ_EEPROM
  }

  predicate IsWrite(cmd: byte) {
    cmd == DEVICE_WRITE || cmd == DEVICE_WRITE_EEPROM
  }

  /**
   What a read brings back: exactly the bytes the ESC sent, and only when one is connected,
   it acknowledged the address and its reply was complete and passed the check; otherwise
   an error. On the wire are the address and then, if it was acknowledged, the read command.
   */
  lemma ReadEndToEnd(c: Setup, s: Session, cmd: byte, addr: word, size: nat, chunks: seq<seq<byte>>)
    requires IsRead(cmd) && s.buf == [] && !s.exited && 1 <= size <= 256
    ensures var f := FourWayClient.Send(cmd, addr, [size % 256]);
            var asked := s.log + [Frame(s.target, AddressFrame(addr), false)];
            var read := asked + [Frame(s.target, ReadFrame(size), false)];
            var acked := Acked(c.answers, asked, ACK_OK);
            var reply := ReadSerial(c.answers, read, size + 3);
            var good := s.target in s.connected && acked && GoodRead(reply, size);
            && Fed(c, s, f).0.log == (if s.target !in s.connected then s.log else if acked then read else asked)
            && (Join(chunks) == Fed(c, s, f).1 ==>
                  FourWayClient.ParseChunks([], chunks) ==
                  if good then FourWayClient.Answer(cmd, reply[..size], OK)
                  else FourWayClient.Answer(cmd, [0], GENERAL_ERROR))
  {
    hide *;
    var f := FourWayClient.Send(cmd, addr, [size % 256]);
    ByteParam(size % 256);
    FourWayClient.SendIsFrame(cmd, addr, [size % 256]);
    FourWayClient.Exchange(c, s, cmd, addr, [size % 256], chunks);
    ReadResponds(c, s.(lastRequest := f), f, addr, size);
    ReadOutcome(c, s.(lastRequest := f), addr, size);
  }

  lemma ByteParam(b: byte)
    ensures FourWayClient.Padded([b]) == [b]
  {}

  /** The server's part of a read. */
  lemma ReadOutcome(c: Setup, s: Session, addr: word, size: nat)
    requires 1 <= size <= 256
    ensures var asked := s.log + [Frame(s.target, AddressFrame(addr), false)];
            var read := asked + [Frame(s.target, ReadFrame(size), false)];
            var acked := Acked(c.answers, asked, ACK_OK);
            var reply := ReadSerial(c.answers, read, size + 3);
            ReadDevice(c, s, size, addr) ==
            if s.target !in s.connected then Outcome(s, [0], GENERAL_ERROR)
            else if acked && GoodRead(reply, size) then Outcome(s.(log := read), reply[..size], OK)
            else Outcome(s.(log := if acked then read else asked), [0], GENERAL_ERROR)
  {
    hide AddressFrame, ReadFrame, Acked, ReadSerial, ReadResult, GoodRead;
    var asked := s.log + [Frame(s.target, AddressFrame(addr), false)];
    GoodReadResult(ReadSerial(c.answers, asked + [Frame(s.target, ReadFrame(size), false)], size + 3), size);
  }

  lemma ReadResponds(c: Setup, s: Session, f: seq<byte>, addr: word, size: nat)
    requires IsFrame(f) && IsRead(f[1]) && U16(f[3], f[2]) == addr && Params(f) == [size % 256]
    requires 1 <= size <= 256
    ensures Respond(c, s, f) == ReadDevice(c, s, size, addr)
  {
    hide ReadDevice;
  }

  /**
   What a write does: where no ESC is connected, nothing; else a prefix of its four frames
   goes out, ending at the first acknowledgement that does not come, and the client is told
   it worked if and only if all three came.
   */
  lemma WriteEndToEnd(c: Setup, s: Session, cmd: byte, addr: word, payload: seq<byte>, chunks: seq<seq<byte>>)
    requires IsWrite(cmd) && s.buf == [] && !s.exited && 1 <= |payload| <= 256
    ensures var f := FourWayClient.Send(cmd, addr, payload);
            var frames := WriteFrames(s.target, addr, payload);
            var addressed := Acked(c.answers, s.log + frames[..1], ACK_OK);
            var buffered := addressed && Acked(c.answers, s.log + frames[..3], ACK_OK);
            var written := s.target in s.connected && buffered && Acked(c.answers, s.log + frames, ACK_OK);
            var sent := if s.target !in s.connected then 0 else if !addressed then 1 else if !buffered then 3 else 4;
            && Fed(c, s, f).0.log == s.log + frames[..sent]
            && (Join(chunks) == Fed(c, s, f).1 ==>
                  FourWayClient.ParseChunks([], chunks) ==
                  FourWayClient.Answer(cmd, [0], if written then OK else GENERAL_ERROR))
  {
    hide *;
    var f := FourWayClient.Send(cmd, addr, payload);
    FourWayClient.SendIsFrame(cmd, addr, payload);
    FourWayClient.Exchange(c, s, cmd, addr, payload, chunks);
    SameParam(payload);
    WriteResponds(c, s.(lastRequest := f), f, addr, payload);
    WriteOutcome(c, s.(lastRequest := f), addr, payload);
  }

  lemma SameParam(payload: seq<byte>)
    requires payload != []
    ensures FourWayClient.Padded(payload) == payload
  {}

  /** The server's part of a write. */
  lemma WriteOutcome(c: Setup, s: Session, addr: word, payload: seq<byte>)
    requires 1 <= |payload| <= 256
    ensures var frames := WriteFrames(s.target, addr, payload);
            var addressed := Acked(c.answers, s.log + frames[..1], ACK_OK);
            var buffered := addressed && Acked(c.answers, s.log + frames[..3], ACK_OK);
            var written := s.target in s.connected && buffered && Acked(c.answers, s.log + frames, ACK_OK);
            var sent := if s.target !in s.connected then 0 else if !addressed then 1 else if !buffered then 3 else 4;
            |frames| == 4 && WriteDevice(c, s, payload, addr) ==
                             Outcome(s.(log := s.log + frames[..sent]), [0], if written then OK else GENERAL_ERROR)
  {
    hide Acked, WriteOn, AddressFrame, BufferFrame, WithCrc;
    assert s.log + [] == s.log;
    WriteSendsPrefix(c.answers, s.target, addr, payload, s.log);
  }

  lemma WriteResponds(c: Setup, s: Session, f: seq<byte>, addr: word, payload: seq<byte>)
    requires IsFrame(f) && IsWrite(f[1]) && U16(f[3], f[2]) == addr && Params(f) == payload
    ensures 1 <= |payload| <= 256
    ensures Respond(c, s, f) == WriteDevice(c, s, payload, addr)
  {
    hide WriteDevice;
  }
}
