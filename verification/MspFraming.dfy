/**
 MSPv1, native MSPv2 and MSPv2-over-v1 framing: the encoder and the incremental,
 resynchronising parser of the fake flight controller.
 */
module MspFraming {
  import opened Bytes
  import Crc

  const MAX_PAYLOAD := 1024

  const HASH: byte := 0x23
  const DOLLAR: byte := 0x24
  const FROM_HOST: byte := 0x3C
  const V1: byte := 0x4D
  const V2: byte := 0x58

  /** What the parser hands up. framing is 1 for MSPv1, 2 for native MSPv2, 3 for MSPv2 inside v1. */
  datatype Frame = Cli | Msp(cmd: nat, payload: seq<byte>, framing: nat)

  // ------------------------------------------------------------- encoder

  function V2Body(cmd: nat, payload: seq<byte>): seq<byte>
    requires cmd < 65536 && |payload| < 65536
  {
    var body := [0] + Le16(cmd) + Le16(|payload|) + payload;
    body + [Crc.Crc8(body)]
  }

  function V1Frame(cmd: byte, payload: seq<byte>, direction: byte): seq<byte>
    requires |payload| < 256
  {
    var body: seq<byte> := [|payload|, cmd] + payload;
    [DOLLAR, V1, direction] + body + [Crc.XorSum(body)]
  }

  /** Any version but 1 and 2 is sent as the third framing. */
  function FramingOf(version: nat): nat {
    if version == 1 || version == 2 then version else 3
  }

  /** None where the packing of a number into its field raises. */
  function Encode(cmd: nat, payload: seq<byte>, version: nat, direction: byte): Option<seq<byte>> {
    if version == 1 then
      if cmd < 256 && |payload| < 256 then Some(V1Frame(cmd, payload, direction)) else None
    else if cmd >= 65536 || |payload| >= 65536 then None
    else if version == 2 then Some([DOLLAR, V2, direction] + V2Body(cmd, payload))
    else if |payload| + 6 < 256 then Some(V1Frame(255, V2Body(cmd, payload), direction))
    else None
  }

  // -------------------------------------------------------------- parser

  /** One turn of the parser's loop: wait for more bytes, or consume n of them. */
  datatype Turn = Wait | Consume(n: nat, found: Option<Frame>)

  function TurnOf(buf: seq<byte>): (t: Turn)
    requires buf != []
    ensures t.Consume? ==> 0 < t.n <= |buf|
  {
    if buf[0] == HASH then Consume(1, Some(Cli))
    else if buf[0] != DOLLAR then Consume(1, None)
    else if |buf| < 3 then Wait
    else if (buf[1] != V1 && buf[1] != V2) || buf[2] != FROM_HOST then Consume(1, None)
    else
      var native := buf[1] == V2;
      var header := if native then 8 else 5;
      if |buf| < header then Wait
      else
        var size: nat := if native then U16(buf[6], buf[7]) else buf[3];
        if size > MAX_PAYLOAD then Consume(1, None)
        else if |buf| < header + size + 1 then Wait
        else Consume(header + size + 1, Unwrap(buf[..header + size + 1]))
  }

  /** The check value and, for command 255, the inner MSPv2 frame of one complete packet. */
  function Unwrap(data: seq<byte>): Option<Frame>
    requires |data| >= 6 && (data[1] == V2 ==> |data| >= 9)
  {
    var body, last := data[3..|data| - 1], data[|data| - 1];
    if data[1] == V2 then
      if Crc.Crc8(body) != last then None
      else Some(Msp(U16(data[4], data[5]), data[8..|data| - 1], 2))
    else if Crc.XorSum(body) != last then None
    else if data[4] == 255 then UnwrapInner(data[5..|data| - 1])
    else Some(Msp(data[4], data[5..|data| - 1], 1))
  }

  function UnwrapInner(payload: seq<byte>): Option<Frame> {
    if |payload| < 6 || Crc.Crc8(payload[..|payload| - 1]) != payload[|payload| - 1] then None
    else if U16(payload[3], payload[4]) != |payload| - 6 then None
    else Some(Msp(U16(payload[1], payload[2]), payload[5..|payload| - 1], 3))
  }

  /** What `next` returns, and the bytes it leaves. */
  function NextFrame(buf: seq<byte>): (Option<Frame>, seq<byte>)
    decreases |buf|
  {
    if buf == [] then (None, [])
    else
      match TurnOf(buf)
      case Wait => (None, buf)
      case Consume(n, Some(f)) => (Some(f), buf[n..])
      case Consume(n, None) => NextFrame(buf[n..])
  }

  datatype Drained = Drained(frames: seq<Frame>, rest: seq<byte>)

  function After(found: Option<Frame>, tail: Drained): Drained {
    if found.Some? then tail.(frames := [found.value] + tail.frames) else tail
  }

  /** Every frame in a buffer, and the bytes left when no more can be read. */
  function Drain(buf: seq<byte>): Drained
    decreases |buf|
  {
    if buf == [] then Drained([], [])
    else
      match TurnOf(buf)
      case Wait => Drained([], buf)
      case Consume(n, found) => After(found, Drain(buf[n..]))
  }

  class Parser {
    var buf: seq<byte>

    constructor ()
      ensures buf == []
    {
      buf := [];
    }

    method Next() returns (frame: Option<Frame>)
      modifies this
      ensures (frame, buf) == NextFrame(old(buf))
    {
      hide Unwrap;
      while buf != []
        invariant NextFrame(buf) == NextFrame(old(buf))
        decreases |buf|
      {
        if buf[0] == HASH {
          buf := buf[1..];
          return Some(Cli);
        }
        if buf[0] != DOLLAR {
          buf := buf[1..];
          continue;
        }
        if |buf| < 3 {
          return None;
        }
        if !(buf[1] in [V1, V2] && buf[2] == FROM_HOST) {
          buf := buf[1..];
          continue;
        }
        var native := buf[1] == V2;
        var header := if native then 8 else 5;
        if |buf| < header {
          return None;
        }
        var size: nat := if native then U16(buf[6], buf[7]) else buf[3];
        if size > MAX_PAYLOAD {
          buf := buf[1..];
          continue;
        }
        var total := header + size + 1;
        if |buf| < total {
          return None;
        }
        var data := buf[..total];
        buf := buf[total..];
        frame := Unwrap(data);
        if frame.Some? {
          return;
        }
      }
      return None;
    }

    /** The caller's loop: `next` until it has nothing more. */
    method DrainAll() returns (frames: seq<Frame>)
      modifies this
      ensures Drained(frames, buf) == Drain(old(buf))
    {
      frames := [];
      var frame := Next();
      NextThenDrain(old(buf));
      while frame.Some?
        invariant Drain(old(buf)) ==
                  if frame.Some? then Prefixed(frames, After(frame, Drain(buf))) else Drained(frames, buf)
        decreases if frame.Some? then |buf| + 1 else 0
      {
        frames := frames + [frame.value];
        ghost var before := buf;
        frame := Next();
        NextThenDrain(before);
      }
    }
  }

  function Prefixed(frames: seq<Frame>, tail: Drained): Drained {
    tail.(frames := frames + tail.frames)
  }

  lemma {:induction false} NextThenDrain(buf: seq<byte>)
    ensures var (frame, rest) := NextFrame(buf);
            if frame == None then Drain(buf) == Drained([], rest)
            else |rest| < |buf| && Drain(buf) == After(frame, Drain(rest))
    decreases |buf|
  {
    if buf != [] {
      match TurnOf(buf)
      case Wait =>
      case Consume(n, Some(f)) =>
      case Consume(n, None) => NextThenDrain(buf[n..]);
    }
  }

  // ------------------------------------------------ independence of chunking

  /** Once the parser has decided, further bytes do not change the decision. */
  lemma TurnStable(buf: seq<byte>, more: seq<byte>)
    requires buf != [] && TurnOf(buf).Consume?
    ensures TurnOf(buf + more) == TurnOf(buf)
  {
    var t := TurnOf(buf);
    assert (buf + more)[..t.n] == buf[..t.n];
  }

  /** Draining after a chunk and again after the next is draining once. */
  lemma {:induction false} DrainTwoChunks(a: seq<byte>, b: seq<byte>)
    ensures Drain(a + b) == Prefixed(Drain(a).frames, Drain(Drain(a).rest + b))
    decreases |a|
  {
    hide TurnOf;
    if a == [] {
      assert a + b == b;
    } else if TurnOf(a).Consume? {
      TurnStable(a, b);
      var n := TurnOf(a).n;
      assert (a + b)[n..] == a[n..] + b;
      DrainTwoChunks(a[n..], b);
    }
  }

  /** The parser fed one chunk at a time, drained after each. */
  function DrainChunks(buf: seq<byte>, chunks: seq<seq<byte>>): Drained
    decreases |chunks|
  {
    if chunks == [] then Drained([], buf)
    else
      var first := Drain(buf + chunks[0]);
      Prefixed(first.frames, DrainChunks(first.rest, chunks[1..]))
  }

  lemma {:induction false} DrainStops(buf: seq<byte>)
    ensures Drain(Drain(buf).rest) == Drained([], Drain(buf).rest)
    decreases |buf|
  {
    if buf != [] && TurnOf(buf).Consume? {
      DrainStops(buf[TurnOf(buf).n..]);
    }
  }

  /** Any way of splitting a stream gives the same frames and leaves the same bytes. */
  lemma {:induction false} ChunkingIrrelevant(buf: seq<byte>, chunks: seq<seq<byte>>)
    requires Drain(buf) == Drained([], buf)
    ensures DrainChunks(buf, chunks) == Drain(buf + Join(chunks))
    decreases |chunks|
  {
    if chunks == [] {
      assert buf + [] == buf;
    } else {
      var all := buf + chunks[0];
      assert buf + Join(chunks) == all + Join(chunks[1..]);
      DrainStops(all);
      ChunkingIrrelevant(Drain(all).rest, chunks[1..]);
      DrainTwoChunks(all, Join(chunks[1..]));
    }
  }

  // ------------------------------------------------------------ round trip

  /** The messages the two ends can exchange; narrower than what Encode accepts. */
  predicate Carried(cmd: nat, payload: seq<byte>, version: nat) {
    || (version == 1 && cmd <= 254 && |payload| <= 255)
    || (version == 2 && cmd < 65536 && |payload| <= MAX_PAYLOAD)
    || (version == 3 && cmd < 65536 && |payload| <= 249)
  }

  lemma V1Turn(cmd: byte, payload: seq<byte>)
    requires |payload| < 256
    ensures TurnOf(V1Frame(cmd, payload, FROM_HOST)) == Consume(|payload| + 6,
              if cmd == 255 then UnwrapInner(payload) else Some(Msp(cmd, payload, 1)))
  {
    var frame := V1Frame(cmd, payload, FROM_HOST);
    var body: seq<byte> := [|payload|, cmd] + payload;
    assert frame[..|payload| + 6] == frame;
    assert frame[3..|frame| - 1] == body;
    assert frame[5..|frame| - 1] == payload;
  }

  lemma V2Parts(cmd: nat, payload: seq<byte>)
    requires cmd < 65536 && |payload| < 65536
    ensures var b := V2Body(cmd, payload);
            && |b| == |payload| + 6
            && U16(b[1], b[2]) == cmd && U16(b[3], b[4]) == |payload|
            && b[5..|b| - 1] == payload
            && Crc.Crc8(b[..|b| - 1]) == b[|b| - 1]
  {
    var b := V2Body(cmd, payload);
    assert b[..|b| - 1] == [0] + Le16(cmd) + Le16(|payload|) + payload;
  }

  lemma V2Turn(cmd: nat, payload: seq<byte>)
    requires cmd < 65536 && |payload| < 65536
    ensures TurnOf([DOLLAR, V2, FROM_HOST] + V2Body(cmd, payload)) ==
            if |payload| > MAX_PAYLOAD then Consume(1, None)
            else Consume(|payload| + 9, Some(Msp(cmd, payload, 2)))
  {
    var b := V2Body(cmd, payload);
    var frame := [DOLLAR, V2, FROM_HOST] + b;
    V2Parts(cmd, payload);
    assert frame[4] == b[1] && frame[5] == b[2] && frame[6] == b[3] && frame[7] == b[4];
    assert frame[..|payload| + 9] == frame;
    assert frame[3..|frame| - 1] == b[..|b| - 1];
    assert frame[8..|frame| - 1] == payload;
  }

  /** One encoded message, whatever follows it, is read back whole and alone. */
  lemma TurnOfEncoded(cmd: nat, payload: seq<byte>, version: nat, more: seq<byte>)
    requires Carried(cmd, payload, version)
    ensures var e := Encode(cmd, payload, version, FROM_HOST);
            && e.Some?
            && TurnOf(e.value + more) == Consume(|e.value|, Some(Msp(cmd, payload, version)))
  {
    var e := Encode(cmd, payload, version, FROM_HOST).value;
    if version == 1 {
      V1Turn(cmd, payload);
    } else if version == 2 {
      V2Turn(cmd, payload);
    } else {
      V2Parts(cmd, payload);
      V1Turn(255, V2Body(cmd, payload));
    }
    TurnStable(e, more);
  }

  datatype Item = Item(noise: seq<byte>, cmd: nat, payload: seq<byte>, version: nat)

  /** Bytes among which no packet starts: neither the CLI's mark nor "$M<" or "$X<". */
  predicate HeaderFree(noise: seq<byte>) {
    forall i :: 0 <= i < |noise| ==>
      noise[i] != 0x23 &&
      (noise[i] == 0x24 && i + 2 < |noise| ==> !(noise[i + 1] in {0x4D, 0x58} && noise[i + 2] == 0x3C))
  }

  predicate Sendable(item: Item) {
    && HeaderFree(item.noise)
    && Carried(item.cmd, item.payload, item.version)
  }

  function Encoded(item: Item): seq<byte> {
    match Encode(item.cmd, item.payload, item.version, FROM_HOST)
    case Some(e) => e
    case None => []
  }

  /** The wire after sending a list of messages, each behind some line noise. */
  function Wire(items: seq<Item>): seq<byte> {
    if items == [] then []
    else items[0].noise + (Encoded(items[0]) + Wire(items[1..]))
  }

  function Messages(items: seq<Item>): seq<Frame> {
    if items == [] then []
    else [Msp(items[0].cmd, items[0].payload, items[0].version)] + Messages(items[1..])
  }

  lemma {:induction false} NoiseSkipped(noise: seq<byte>, buf: seq<byte>)
    requires HeaderFree(noise) && |buf| >= 2 && buf[0] == DOLLAR
    ensures Drain(noise + buf) == Drain(buf)
    decreases |noise|
  {
    if noise == [] {
      assert noise + buf == buf;
    } else {
      var all := noise + buf;
      assert all[1..] == noise[1..] + buf;
      assert all[1] == if |noise| > 1 then noise[1] else buf[0];
      assert |noise| > 1 ==> all[2] == if |noise| > 2 then noise[2] else buf[0];
      assert forall i :: 0 <= i < |noise| - 1 ==> noise[1..][i] == noise[i + 1];
      NoiseSkipped(noise[1..], buf);
    }
  }

  /** Mixed framings behind noise arrive as exactly the messages sent, with nothing left over. */
  lemma {:induction false} RoundTrip(items: seq<Item>)
    requires forall i :: 0 <= i < |items| ==> Sendable(items[i])
    ensures Drain(Wire(items)) == Drained(Messages(items), [])
    decreases |items|
  {
    if items != [] {
      var m := items[0];
      assert Sendable(m);
      var rest := Wire(items[1..]);
      TurnOfEncoded(m.cmd, m.payload, m.version, rest);
      var e := Encoded(m);
      NoiseSkipped(m.noise, e + rest);
      assert (e + rest)[|e|..] == rest;
      RoundTrip(items[1..]);
    }
  }

  lemma {:induction false} DrainedPayloadBound(buf: seq<byte>)
    ensures forall f :: f in Drain(buf).frames && f.Msp? ==> |f.payload| <= MAX_PAYLOAD
    decreases |buf|
  {
    if buf != [] && TurnOf(buf).Consume? {
      DrainedPayloadBound(buf[TurnOf(buf).n..]);
    }
  }

  /**
   Encode accepts more than can be carried: an MSPv1 command 255 is read as an
   MSPv2 envelope, and a native payload over MAX_PAYLOAD is skipped. Those are
   the only encodable messages that do not come back.
   */
  lemma RoundTripExactly(cmd: nat, payload: seq<byte>, version: nat)
    requires Encode(cmd, payload, version, FROM_HOST).Some?
    ensures Drain(Encode(cmd, payload, version, FROM_HOST).value) == Drained([Msp(cmd, payload, FramingOf(version))], [])
            <==> (version == 1 ==> cmd != 255) && (version == 2 ==> |payload| <= MAX_PAYLOAD)
  {
    hide TurnOf, V2Body;
    var e := Encode(cmd, payload, version, FROM_HOST).value;
    var sent := Msp(cmd, payload, FramingOf(version));
    if version == 1 && cmd == 255 {
      V1Turn(255, payload);
      assert e[|payload| + 6..] == [];
      assert Drain(e) == After(UnwrapInner(payload), Drained([], []));
      assert forall f :: f in Drain(e).frames ==> f.framing == 3;
      assert sent in [sent];
    } else if version == 2 && |payload| > MAX_PAYLOAD {
      V2Turn(cmd, payload);
      DrainedPayloadBound(e[1..]);
      assert sent !in Drain(e).frames;
    } else {
      TurnOfEncoded(cmd, payload, FramingOf(version), []);
      assert e + [] == e && e[|e|..] == [];
    }
  }

  // -------------------------------------------------------- line corruption

  /**
   A wrong byte anywhere behind the header of a message, other than in its length,
   makes the parser consume the packet and hand up nothing.
   */
  lemma CorruptedMessageDropped(cmd: nat, payload: seq<byte>, version: nat, i: nat, b: byte)
    requires Carried(cmd, payload, version)
    requires var e := Encode(cmd, payload, version, FROM_HOST);
             e.Some? && i < |e.value| && b != e.value[i]
    requires if version == 2 then i >= 3 && i != 6 && i != 7 else i >= 4
    ensures var e := Encode(cmd, payload, version, FROM_HOST).value;
            TurnOf(e[i := b]) == Consume(|e|, None)
  {
    var e := Encode(cmd, payload, version, FROM_HOST).value;
    TurnOfEncoded(cmd, payload, version, []);
    assert e + [] == e && e[..|e|] == e;
    SameLengthTurn(e, i, b);
    CheckFails(e, i, b);
  }

  /** Where the bytes of item k start on the wire, behind their noise. */
  function Start(items: seq<Item>, k: nat): nat
    requires k < |items|
  {
    |Wire(items[..k])| + |items[k].noise|
  }

  /** Among any messages, one such byte costs exactly its own message. */
  lemma OneMessageLost(items: seq<Item>, k: nat, i: nat, b: byte)
    requires k < |items| && forall j :: 0 <= j < |items| ==> Sendable(items[j])
    requires var e := Encoded(items[k]); i < |e| && b != e[i]
    requires if items[k].version == 2 then i >= 3 && i != 6 && i != 7 else i >= 4
    ensures Start(items, k) + i < |Wire(items)|
    ensures Drain(Wire(items)[Start(items, k) + i := b]) == Drained(Messages(items[..k] + items[k + 1..]), [])
  {
    hide TurnOf, Wire, Messages, Encode;
    var m, before, after := items[k], items[..k], items[k + 1..];
    var e, rest := Encoded(m), Wire(after);
    WireSplit(items, k);
    var wire := Wire(before) + (m.noise + (e + rest));
    assert wire[Start(items, k) + i := b] == Wire(before) + (m.noise + (e[i := b] + rest));
    DropOne(m, i, b, rest);
    RoundTrip(after);
    RoundTrip(before);
    DrainTwoChunks(Wire(before), m.noise + (e[i := b] + rest));
    assert [] + (m.noise + (e[i := b] + rest)) == m.noise + (e[i := b] + rest);
    MessagesAppend(before, after);
  }

  lemma DropOne(m: Item, i: nat, b: byte, rest: seq<byte>)
    requires Sendable(m) && i < |Encoded(m)| && b != Encoded(m)[i]
    requires if m.version == 2 then i >= 3 && i != 6 && i != 7 else i >= 4
    ensures Drain(m.noise + (Encoded(m)[i := b] + rest)) == Drain(rest)
  {
    hide TurnOf, Encode;
    var bad := Encoded(m)[i := b];
    TurnOfEncoded(m.cmd, m.payload, m.version, []);
    CorruptedMessageDropped(m.cmd, m.payload, m.version, i, b);
    TurnStable(bad, rest);
    EncodedStarts(m);
    NoiseSkipped(m.noise, bad + rest);
    assert (bad + rest)[|bad|..] == rest;
  }

  lemma EncodedStarts(m: Item)
    requires Sendable(m)
    ensures |Encoded(m)| >= 6 && Encoded(m)[0] == DOLLAR
  {
    hide Crc.Crc8, Crc.XorSum, HeaderFree;
  }

  lemma {:induction false} WireSplit(items: seq<Item>, k: nat)
    requires k < |items|
    ensures Wire(items) == Wire(items[..k]) + (items[k].noise + (Encoded(items[k]) + Wire(items[k + 1..])))
    decreases k
  {
    hide Encoded;
    if k == 0 {
      var all := Wire(items);
      assert [] + all == all;
    } else {
      WireSplit(items[1..], k - 1);
      assert items[..k][1..] == items[1..][..k - 1] && items[1..][k..] == items[k + 1..];
      var first, tail := items[..k], items[k].noise + (Encoded(items[k]) + Wire(items[k + 1..]));
      assert Wire(items) == items[0].noise + (Encoded(items[0]) + (Wire(first[1..]) + tail));
    }
  }

  lemma {:induction false} MessagesAppend(a: seq<Item>, b: seq<Item>)
    ensures Messages(a + b) == Messages(a) + Messages(b)
    decreases |a|
  {
    if a == [] {
      assert a + b == b;
    } else {
      assert (a + b)[1..] == a[1..] + b;
      MessagesAppend(a[1..], b);
    }
  }

  /** The turn taken on a single packet depends only on its header and length bytes. */
  lemma SameLengthTurn(e: seq<byte>, i: nat, b: byte)
    requires |e| >= 6 && TurnOf(e).Consume? && TurnOf(e).n == |e|
    requires i < |e|
    requires if e[1] == V2 then i >= 3 && i != 6 && i != 7 else i >= 4
    ensures TurnOf(e[i := b]).Consume? && TurnOf(e[i := b]).n == |e|
    ensures (e[1] == V2 ==> |e| >= 9) && TurnOf(e[i := b]).found == Unwrap(e[i := b])
  {
    hide Unwrap;
    var bad := e[i := b];
    assert bad[..|e|] == bad;
  }

  lemma CheckFails(e: seq<byte>, i: nat, b: byte)
    requires |e| >= 6 && (e[1] == V2 ==> |e| >= 9)
    requires Unwrap(e).Some? && 3 <= i < |e| && b != e[i]
    ensures Unwrap(e[i := b]) == None
  {
    var bad, body := e[i := b], e[3..|e| - 1];
    if i < |e| - 1 {
      assert bad[3..|e| - 1] == body[i - 3 := b];
      Crc.Crc8DetectsOneByte(body, i - 3, b);
      Crc.XorSumDetectsOneByte(body, i - 3, b);
    } else {
      assert bad[3..|e| - 1] == body;
    }
  }

  // ----------------------------------------------------------- byte by byte

  /** A packet of one of the three framings; flag is the byte that native readers skip. */
  function PacketOf(framing: nat, direction: byte, flag: byte, cmd: nat, payload: seq<byte>): seq<byte>
    requires cmd < 65536 && |payload| < 65536
    requires framing in {1, 2, 3}
    requires framing == 1 ==> cmd < 256 && |payload| < 256
    requires framing == 3 ==> |payload| < 250
  {
    var inner: seq<byte> := [flag, cmd % 256, cmd / 256, |payload| % 256, |payload| / 256] + payload;
    if framing == 2 then [0x24, 0x58, direction] + inner + [Crc.Crc8(inner)]
    else
      var body: seq<byte> := if framing == 1 then [|payload|, cmd] + payload
                  else [|payload| + 6, 255] + inner + [Crc.Crc8(inner)];
      [0x24, 0x4D, direction] + body + [Crc.XorSum(body)]
  }

  /** What is encoded is exactly such a packet, its flag zero; nothing is when it does not fit. */
  lemma EncodedBytes(cmd: nat, payload: seq<byte>, version: nat, direction: byte)
    ensures Encode(cmd, payload, version, direction) ==
            if version == 1 then
              if cmd <= 255 && |payload| <= 255 then Some(PacketOf(1, direction, 0, cmd, payload)) else None
            else if cmd > 65535 || |payload| > 65535 || (version != 2 && |payload| > 249) then None
            else Some(PacketOf(if version == 2 then 2 else 3, direction, 0, cmd, payload))
  {
    hide Crc.Crc8, Crc.XorSum, V2Body;
    if cmd < 65536 && |payload| < 65536 {
      BodyBytes(cmd, payload, direction);
    }
  }

  lemma BodyBytes(cmd: nat, payload: seq<byte>, direction: byte)
    requires cmd < 65536 && |payload| < 65536
    ensures var inner: seq<byte> := [0, cmd % 256, cmd / 256, |payload| % 256, |payload| / 256] + payload;
            && V2Body(cmd, payload) == inner + [Crc.Crc8(inner)]
            && [0x24, 0x58, direction] + V2Body(cmd, payload) == [0x24, 0x58, direction] + inner + [Crc.Crc8(inner)]
            && (|payload| < 250 ==>
                  [|payload| + 6, 255] + V2Body(cmd, payload) == [|payload| + 6, 255] + inner + [Crc.Crc8(inner)])
  {
    hide Crc.Crc8;
    var inner: seq<byte> := [0, cmd % 256, cmd / 256, |payload| % 256, |payload| / 256] + payload;
    assert [0] + Le16(cmd) + Le16(|payload|) + payload == inner;
  }

  /** Nothing else is ever delivered: what the parser hands up is what the packet's bytes say, flag aside. */
  lemma OnlyPackets(buf: seq<byte>) returns (flag: byte)
    requires buf != [] && TurnOf(buf).Consume? && TurnOf(buf).found.Some? && TurnOf(buf).found.value.Msp?
    ensures var t := TurnOf(buf);
            var m := t.found.value;
            && m.framing in {1, 2, 3} && m.cmd < 65536 && |m.payload| <= 1024
            && (m.framing == 1 ==> m.cmd < 255 && |m.payload| < 256) && (m.framing == 3 ==> |m.payload| < 250)
            && buf[..t.n] == PacketOf(m.framing, 0x3C, flag, m.cmd, m.payload)
  {
    hide Crc.Crc8, Crc.XorSum;
    var t := TurnOf(buf);
    var data := buf[..t.n];
    var m := t.found.value;
    flag := 0;
    if data[1] == V2 {
      flag := data[3];
      NativeBytes(data);
    } else if data[4] == 255 {
      flag := data[5];
      EnvelopeBytes(data);
    } else {
      PlainBytes(data);
    }
  }

  lemma NativeBytes(data: seq<byte>)
    requires |data| >= 9 && data[0] == 0x24 && data[1] == 0x58 && data[2] == 0x3C
    requires |data| == 9 + U16(data[6], data[7]) && Unwrap(data).Some?
    ensures var m := Unwrap(data).value;
            m.Msp? && m.framing == 2 && m.cmd < 65536 && |m.payload| == |data| - 9 && |m.payload| < 65536 &&
            data == PacketOf(2, 0x3C, data[3], m.cmd, m.payload)
  {
    hide Crc.Crc8, Crc.XorSum;
    var inner := data[3..|data| - 1];
    var m := Unwrap(data).value;
    assert inner == [data[3], m.cmd % 256, m.cmd / 256, |m.payload| % 256, |m.payload| / 256] + m.payload;
    assert data == [0x24, 0x58, 0x3C] + inner + [data[|data| - 1]];
  }

  lemma PlainBytes(data: seq<byte>)
    requires |data| >= 6 && data[0] == 0x24 && data[1] == 0x4D && data[2] == 0x3C && data[4] != 255
    requires |data| - 6 == data[3] && Unwrap(data).Some?
    ensures var m := Unwrap(data).value;
            m.Msp? && m.framing == 1 && m.cmd < 255 && |m.payload| < 256 &&
            data == PacketOf(1, 0x3C, 0, m.cmd, m.payload)
  {
    hide Crc.Crc8, Crc.XorSum;
    var body := data[3..|data| - 1];
    var m := Unwrap(data).value;
    assert body == [|m.payload|, m.cmd] + m.payload;
    assert data == [0x24, 0x4D, 0x3C] + body + [data[|data| - 1]];
  }

  lemma EnvelopeBytes(data: seq<byte>)
    requires |data| >= 6 && data[0] == 0x24 && data[1] == 0x4D && data[2] == 0x3C && data[4] == 255
    requires |data| - 6 == data[3] && Unwrap(data).Some?
    ensures |data| >= 12
    ensures var m := Unwrap(data).value;
            m.Msp? && m.framing == 3 && m.cmd < 65536 && |m.payload| == |data| - 12 && |m.payload| < 250 &&
            data == PacketOf(3, 0x3C, data[5], m.cmd, m.payload)
  {
    hide Crc.Crc8, Crc.XorSum;
    var payload := data[5..|data| - 1];
    var inner := payload[..|payload| - 1];
    var m := Unwrap(data).value;
    assert inner == [data[5], m.cmd % 256, m.cmd / 256, |m.payload| % 256, |m.payload| / 256] + m.payload;
    var body := data[3..|data| - 1];
    assert body == [|m.payload| + 6, 255] + inner + [payload[|payload| - 1]];
    assert data == [0x24, 0x4D, 0x3C] + body + [data[|data| - 1]];
  }

  /** The CLI's mark is the one byte that opens the command line, and always does. */
  lemma CliMark(buf: seq<byte>)
    requires buf != []
    ensures buf[0] == 0x23 ==> TurnOf(buf) == Consume(1, Some(Cli))
    ensures TurnOf(buf).Consume? && TurnOf(buf).found == Some(Cli) ==> buf[0] == 0x23
  {
    hide Crc.Crc8, Crc.XorSum;
  }
}
