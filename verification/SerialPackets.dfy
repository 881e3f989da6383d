/**
 Serial bytes on the simulated signal wire: type 4 packets of at most 200 bytes,
 the first of which may ask for a leading line idle.
 */
module SerialPackets {
  import opened Bytes

  const MAGIC: nat := 0x4453
  const TYPE_SERIAL: byte := 4
  const SERIAL_MAX := 200

  /** The flag bits that serial packets use: idle level (bit 0) and leading gap (bit 2). */
  function Flags(idleHigh: bool, gap: bool): word {
    (if idleHigh then 1 else 0) + (if gap then 4 else 0)
  }

  predicate HasGap(flags: word) {
    flags / 4 % 2 == 1
  }

  datatype Packet =
    | Value(ptype: byte, flags: word, value: word)
    | Serial(flags: word, data: seq<byte>)

  function PackSerial(payload: seq<byte>, flags: word): seq<byte>
    requires |payload| < 256
  {
    Le16(MAGIC) + [TYPE_SERIAL, |payload|] + Le16(flags) + payload
  }

  function Unpack(buf: seq<byte>): Option<Packet> {
    if |buf| < 7 || U16(buf[0], buf[1]) != MAGIC then None
    else
      var flags := U16(buf[4], buf[5]);
      if buf[2] == TYPE_SERIAL then
        if buf[3] < 1 || |buf| - 6 != buf[3] then None else Some(Serial(flags, buf[6..]))
      else if buf[3] != 4 || |buf| < 8 then None
      else Some(Value(buf[2], flags, U16(buf[6], buf[7])))
  }

  /** The packets for a run of bytes; only the first can carry the gap. */
  function Packets(payload: seq<byte>, idleHigh: bool, gap: bool): seq<seq<byte>>
    decreases |payload|
  {
    if payload == [] then []
    else
      var n := Min(|payload|, SERIAL_MAX);
      [PackSerial(payload[..n], Flags(idleHigh, gap))] + Packets(payload[n..], idleHigh, false)
  }

  method SendSerial(payload: seq<byte>, idleHigh: bool, gap: bool) returns (sent: seq<seq<byte>>)
    ensures sent == Packets(payload, idleHigh, gap)
  {
    hide Packets, PackSerial, Flags;
    sent := [];
    var lead := gap;
    var ofs := 0;
    NoPackets(idleHigh);
    assert payload[0..] == payload && payload[|payload|..] == [];
    while ofs < |payload|
      invariant 0 <= ofs <= |payload|
      invariant Packets(payload, idleHigh, gap) == sent + Packets(payload[ofs..], idleHigh, lead)
      decreases |payload| - ofs
    {
      var end := Min(ofs + SERIAL_MAX, |payload|);
      FirstPacket(payload, ofs, end, idleHigh, lead);
      sent := sent + [PackSerial(payload[ofs..end], Flags(idleHigh, lead))];
      lead := false;
      ofs := end;
    }
  }

  lemma NoPackets(idleHigh: bool)
    ensures forall gap :: Packets([], idleHigh, gap) == []
  {}

  lemma FirstPacket(payload: seq<byte>, ofs: nat, end: nat, idleHigh: bool, gap: bool)
    requires ofs < |payload| && end == Min(ofs + SERIAL_MAX, |payload|)
    ensures Packets(payload[ofs..], idleHigh, gap) ==
            [PackSerial(payload[ofs..end], Flags(idleHigh, gap))] + Packets(payload[end..], idleHigh, false)
  {
    hide PackSerial, Flags;
    assert payload[ofs..][..end - ofs] == payload[ofs..end];
    assert payload[ofs..][end - ofs..] == payload[end..];
  }

  /** What a receiver appends to its serial stream; anything malformed is ignored. */
  function Reassemble(packets: seq<seq<byte>>): seq<byte> {
    if packets == [] then []
    else
      (match Unpack(packets[0])
       case Some(Serial(_, data)) => data
       case _ => []) + Reassemble(packets[1..])
  }

  lemma UnpackPacked(payload: seq<byte>, flags: word)
    requires 1 <= |payload| < 256
    ensures Unpack(PackSerial(payload, flags)) == Some(Serial(flags, payload))
  {
    assert PackSerial(payload, flags)[6..] == payload;
  }

  /** One packet carries 1 to 200 bytes, and the gap flag exactly as asked. */
  predicate WellFormed(packet: seq<byte>, gap: bool) {
    match Unpack(packet)
    case Some(Serial(flags, data)) => 1 <= |data| <= SERIAL_MAX && HasGap(flags) == gap
    case _ => false
  }

  /** A run of packets, of which only the first may have the gap. */
  predicate WellPacked(packets: seq<seq<byte>>, gap: bool) {
    packets == [] || (WellFormed(packets[0], gap) && WellPacked(packets[1..], false))
  }

  /** Splitting loses nothing, reorders nothing, and marks only the first packet. */
  lemma {:induction false} PacketsReassemble(payload: seq<byte>, idleHigh: bool, gap: bool)
    ensures Reassemble(Packets(payload, idleHigh, gap)) == payload
    ensures WellPacked(Packets(payload, idleHigh, gap), gap)
    decreases |payload|
  {
    hide Unpack, PackSerial;
    if payload != [] {
      var n := Min(|payload|, SERIAL_MAX);
      UnpackPacked(payload[..n], Flags(idleHigh, gap));
      PacketsReassemble(payload[n..], idleHigh, false);
      assert payload == payload[..n] + payload[n..];
    }
  }

  lemma {:induction false} WellPackedAt(packets: seq<seq<byte>>, gap: bool, i: nat)
    requires WellPacked(packets, gap) && i < |packets|
    ensures WellFormed(packets[i], gap && i == 0)
    decreases |packets|
  {
    hide WellFormed;
    if i > 0 {
      WellPackedAt(packets[1..], false, i - 1);
    }
  }

  /** Up to 200 bytes travel in one packet. */
  lemma OnePacket(payload: seq<byte>, idleHigh: bool, gap: bool)
    requires 1 <= |payload| <= SERIAL_MAX
    ensures |Packets(payload, idleHigh, gap)| == 1
  {
    assert payload[|payload|..] == [];
  }

  /** A serial packet, byte by byte: "SD", type 4, length, idle and gap flags, and the bytes. */
  lemma PacketBytes(payload: seq<byte>, idleHigh: bool, gap: bool)
    requires |payload| < 256
    ensures PackSerial(payload, Flags(idleHigh, gap)) ==
            [0x53, 0x44, 4, |payload|, (if idleHigh then 1 else 0) + (if gap then 4 else 0), 0] + payload
  {}

  /** Everything but the last packet is full. */
  lemma {:induction false} PacketsFull(payload: seq<byte>, idleHigh: bool, gap: bool)
    ensures var packets := Packets(payload, idleHigh, gap);
            && |packets| == (|payload| + 199) / 200
            && forall k :: 0 <= k < |packets| - 1 ==> |packets[k]| == 206
    decreases |payload|
  {
    hide Flags;
    if payload != [] {
      var n := Min(|payload|, SERIAL_MAX);
      PacketsFull(payload[n..], idleHigh, false);
    }
  }
}
