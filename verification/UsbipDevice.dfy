/**
 The virtual USB serial device: bytes for the host wait for bulk IN requests, or
 requests wait for bytes. Every function here is what one thread does while it
 holds the send lock (or, for rx, the receive lock).
 */
module UsbipDevice {
  import opened Bytes

  const ST_OK: int := 0
  const ST_STALL: int := -32
  const ST_UNLINKED: int := -104

  const STALL_REPLY: (int, seq<byte>) := (ST_STALL, [])

  const GET_LINE_CODING: byte := 0x21
  const SET_LINE_CODING: byte := 0x20

  /** 115200 baud, one stop bit, no parity, eight bits. */
  const DEFAULT_LINE: seq<byte> := [0, 0xC2, 1, 0, 0, 0, 8]

  datatype Urb = Urb(seqnum: nat, length: nat)

  /** What the device puts on the connection. */
  datatype Message =
    | RetSubmit(seqnum: nat, status: int, actual: nat, data: seq<byte>)
    | RetUnlink(seqnum: nat, status: int)

  datatype Device = Device(
    rx: seq<byte>, txHeld: seq<byte>, pending: seq<Urb>, intr: seq<nat>,
    live: bool, lineCoding: seq<byte>)

  /** Nothing is sent without a connection. */
  function Sent(d: Device, m: Message): seq<Message> {
    if d.live then [m] else []
  }

  // -------------------------------------------------------- bytes to the host

  datatype WriteStep = WriteStep(device: Device, rest: seq<byte>, sent: seq<Message>)

  /** One turn of the writer's loop; the lock is released between turns. */
  function WriteTurn(d: Device, data: seq<byte>): WriteStep {
    if d.pending == [] then WriteStep(d.(txHeld := d.txHeld + data), [], [])
    else
      var urb := d.pending[0];
      var n := Min(urb.length, |data|);
      WriteStep(d.(pending := d.pending[1..]), data[n..],
                Sent(d, RetSubmit(urb.seqnum, ST_OK, n, data[..n])))
  }

  /** A read request: completed from the held bytes, or queued. */
  function SubmitIn(d: Device, urb: Urb): (Device, seq<Message>) {
    if d.txHeld != [] then
      var n := Min(urb.length, |d.txHeld|);
      (d.(txHeld := d.txHeld[n..]), Sent(d, RetSubmit(urb.seqnum, ST_OK, n, d.txHeld[..n])))
    else (d.(pending := d.pending + [urb]), [])
  }

  function SubmitIntr(d: Device, seqnum: nat): Device {
    d.(intr := d.intr + [seqnum])
  }

  // ------------------------------------------------------ bytes from the host

  /** A transfer that does not fit is dropped whole, and acknowledged all the same. */
  function ReceiveOut(d: Device, rxMax: nat, data: seq<byte>): Device {
    if |d.rx| + |data| <= rxMax then d.(rx := d.rx + data) else d
  }

  function AckOut(d: Device, seqnum: nat, n: nat): seq<Message> {
    Sent(d, RetSubmit(seqnum, ST_OK, n, []))
  }

  // ------------------------------------------------------------------ unlink

  function IndexOfUrb(pending: seq<Urb>, victim: nat): (i: nat)
    ensures i <= |pending|
    ensures i < |pending| ==> pending[i].seqnum == victim
    ensures forall j :: 0 <= j < i ==> pending[j].seqnum != victim
  {
    if pending == [] || pending[0].seqnum == victim then 0 else 1 + IndexOfUrb(pending[1..], victim)
  }

  function IndexOfNat(s: seq<nat>, v: nat): (i: nat)
    ensures i <= |s|
    ensures i < |s| ==> s[i] == v
    ensures forall j :: 0 <= j < i ==> s[j] != v
  {
    if s == [] || s[0] == v then 0 else 1 + IndexOfNat(s[1..], v)
  }

  /** Remove a waiting request, if there is one, and say whether there was. */
  function Unlink(d: Device, seqnum: nat, victim: nat): (Device, int, seq<Message>) {
    var i, j := IndexOfUrb(d.pending, victim), IndexOfNat(d.intr, victim);
    var after :=
      if i < |d.pending| then d.(pending := d.pending[..i] + d.pending[i + 1..])
      else if j < |d.intr| then d.(intr := d.intr[..j] + d.intr[j + 1..])
      else d;
    var status := if i < |d.pending| || j < |d.intr| then ST_UNLINKED else 0;
    (after, status, Sent(d, RetUnlink(seqnum, status)))
  }

  // ----------------------------------------------------------------- control

  datatype SetupPacket = SetupPacket(rtype: byte, request: byte, value: word, index: word, wlength: word)

  /** Descriptors by type and index; None where the device stalls. */
  type Descriptors = (nat, nat) -> Option<seq<byte>>

  function Truncated(s: seq<byte>, n: nat): seq<byte> {
    s[..Min(n, |s|)]
  }

  /** The reply to a control transfer and the line coding after it. */
  function Control(descriptors: Descriptors, line: seq<byte>, setup: SetupPacket, data: seq<byte>)
    : ((int, seq<byte>), seq<byte>)
  {
    var standard := setup.rtype / 0x20 % 4 == 0;
    if standard && setup.request == 0x06 then
      match descriptors(setup.value / 256, setup.value % 256)
      case None => (STALL_REPLY, line)
      case Some(d) => ((ST_OK, Truncated(d, setup.wlength)), line)
    else if standard && setup.request in {0x01, 0x03, 0x05, 0x09, 0x0B} then ((ST_OK, []), line)
    else if standard && setup.request == 0x08 then ((ST_OK, [1]), line)
    else if standard && setup.request == 0x0A then ((ST_OK, [0]), line)
    else if standard && setup.request == 0x00 then ((ST_OK, Truncated([0, 0], setup.wlength)), line)
    else if setup.request == SET_LINE_CODING then ((ST_OK, []), if |data| >= 7 then data[..7] else line)
    else if setup.request == GET_LINE_CODING then ((ST_OK, Truncated(line, setup.wlength)), line)
    else if setup.request == 0x22 then ((ST_OK, []), line)
    else (STALL_REPLY, line)
  }

  function SubmitControl(descriptors: Descriptors, d: Device, seqnum: nat, toHost: bool,
                         setup: SetupPacket, data: seq<byte>): (Device, seq<Message>)
  {
    var ((status, reply), line) := Control(descriptors, d.lineCoding, setup, data);
    (d.(lineCoding := line),
     Sent(d, RetSubmit(seqnum, status, if toHost then |reply| else |data|, reply)))
  }

  function Attached(d: Device): Device {
    d.(live := true)
  }

  /** Detaching forgets requests and undelivered bytes, not what the host already sent. */
  function Detached(d: Device): Device {
    d.(live := false, pending := [], intr := [], txHeld := [])
  }

  // --------------------------------------------------------------- the server

  class UsbipServer {
    const rxMax: nat
    const descriptors: Descriptors
    var rx: seq<byte>
    var txHeld: seq<byte>
    var pending: seq<Urb>
    var intr: seq<nat>
    var conn: bool
    var lineCoding: seq<byte>
    var sent: seq<Message>

    constructor (rxMax: nat, descriptors: Descriptors)
      ensures this.rxMax == rxMax && this.descriptors == descriptors
      ensures State() == Device([], [], [], [], false, DEFAULT_LINE) && sent == []
    {
      this.rxMax, this.descriptors := rxMax, descriptors;
      rx, txHeld, pending, intr, conn, sent := [], [], [], [], false, [];
      lineCoding := DEFAULT_LINE;
    }

    function State(): Device
      reads this
    {
      Device(rx, txHeld, pending, intr, conn, lineCoding)
    }

    method RetSubmitTo(seqnum: nat, status: int, actual: nat, data: seq<byte>)
      modifies this`sent
      ensures sent == old(sent) + Sent(State(), RetSubmit(seqnum, status, actual, data))
    {
      if conn {
        sent := sent + [RetSubmit(seqnum, status, actual, data)];
      }
    }

    /** One turn of `write` under the send lock. */
    method WriteOnce(data: seq<byte>) returns (rest: seq<byte>)
      modifies this
      ensures var w := WriteTurn(old(State()), data);
              State() == w.device && rest == w.rest && sent == old(sent) + w.sent
    {
      if pending == [] {
        txHeld := txHeld + data;
        return [];
      }
      var urb := pending[0];
      pending := pending[1..];
      var n := Min(urb.length, |data|);
      RetSubmitTo(urb.seqnum, ST_OK, n, data[..n]);
      rest := data[n..];
    }

    /** `write` when no other thread takes the lock between its turns. */
    method Write(data: seq<byte>)
      modifies this
      ensures (State(), sent) == Written(old(State()), data, old(sent))
    {
      var rest := data;
      while rest != []
        invariant Written(old(State()), data, old(sent)) == Written(State(), rest, sent)
        decreases |pending|, |rest|
      {
        rest := WriteOnce(rest);
      }
    }

    method SubmitBulkIn(seqnum: nat, length: nat)
      modifies this
      ensures var (d, out) := SubmitIn(old(State()), Urb(seqnum, length));
              State() == d && sent == old(sent) + out
    {
      if txHeld != [] {
        var n := Min(length, |txHeld|);
        var chunk := txHeld[..n];
        txHeld := txHeld[n..];
        RetSubmitTo(seqnum, ST_OK, n, chunk);
      } else {
        pending := pending + [Urb(seqnum, length)];
      }
    }

    method SubmitInterrupt(seqnum: nat)
      modifies this
      ensures State() == SubmitIntr(old(State()), seqnum) && sent == old(sent)
    {
      intr := intr + [seqnum];
    }

    method SubmitBulkOut(data: seq<byte>)
      modifies this
      ensures State() == ReceiveOut(old(State()), rxMax, data) && sent == old(sent)
    {
      if |rx| + |data| <= rxMax {
        rx := rx + data;
      }
    }

    method AcknowledgeOut(seqnum: nat, n: nat)
      modifies this`sent
      ensures sent == old(sent) + AckOut(State(), seqnum, n)
    {
      RetSubmitTo(seqnum, ST_OK, n, []);
    }

    method ControlTransfer(seqnum: nat, toHost: bool, setup: SetupPacket, data: seq<byte>)
      modifies this`lineCoding, this`sent
      ensures var (d, out) := SubmitControl(descriptors, old(State()), seqnum, toHost, setup, data);
              State() == d && sent == old(sent) + out
    {
      var ((status, reply), line) := Control(descriptors, lineCoding, setup, data);
      lineCoding := line;
      RetSubmitTo(seqnum, status, if toHost then |reply| else |data|, reply);
    }

    method UnlinkUrb(seqnum: nat, victim: nat)
      modifies this
      ensures var (d, _, out) := Unlink(old(State()), seqnum, victim);
              State() == d && sent == old(sent) + out
    {
      var i := 0;
      while i < |pending| && pending[i].seqnum != victim
        invariant 0 <= i <= |pending|
        invariant IndexOfUrb(pending, victim) == i + IndexOfUrb(pending[i..], victim)
      {
        i := i + 1;
      }
      var found := i < |pending|;
      if found {
        pending := pending[..i] + pending[i + 1..];
      } else if victim in intr {
        var j := IndexOfNat(intr, victim);
        intr := intr[..j] + intr[j + 1..];
        found := true;
      }
      if conn {
        sent := sent + [RetUnlink(seqnum, if found then ST_UNLINKED else 0)];
      }
    }

    /** `read` and `drain` both take whatever has arrived. */
    method Drain() returns (out: seq<byte>)
      modifies this`rx
      ensures out == old(rx) && rx == []
    {
      out, rx := rx, [];
    }

    method Attach()
      modifies this
      ensures State() == Attached(old(State())) && sent == []
    {
      conn := true;
      sent := [];
    }

    method Detach()
      modifies this
      ensures State() == Detached(old(State())) && sent == old(sent)
    {
      conn := false;
      pending := [];
      intr := [];
      txHeld := [];
    }
  }

  /** A write with no interruption: requests in order, then whatever is left is held. */
  function Written(d: Device, data: seq<byte>, sent: seq<Message>): (Device, seq<Message>)
    decreases |d.pending|, |data|
  {
    if data == [] then (d, sent)
    else
      var w := WriteTurn(d, data);
      Written(w.device, w.rest, sent + w.sent)
  }

  // ------------------------------------------------------- control, as asked for

  predicate Standard(setup: SetupPacket) {
    setup.rtype % 128 < 32
  }

  /** No reply is longer than the host asked for, but the two that are always one byte. */
  lemma ReplyFits(descriptors: Descriptors, line: seq<byte>, setup: SetupPacket, data: seq<byte>)
    requires !(Standard(setup) && setup.request in {0x08, 0x0A})
    ensures |Control(descriptors, line, setup, data).0.1| <= setup.wlength
  {}

  /**
   Exactly the requests that stall: a descriptor the device does not have, and every request
   that is neither standard and known nor one of the three of a serial line.
   */
  lemma StallsExactly(descriptors: Descriptors, line: seq<byte>, setup: SetupPacket, data: seq<byte>)
    ensures Control(descriptors, line, setup, data).0.0 == -32 <==>
            if Standard(setup) && setup.request == 6 then
              descriptors(setup.value / 256, setup.value % 256).None?
            else
              setup.request !in {0x20, 0x21, 0x22} &&
              (Standard(setup) ==> setup.request !in {0, 1, 3, 5, 8, 9, 10, 11})
  {}
}
