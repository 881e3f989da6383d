/**
 The eeprom tool's own implementation of the 4-way framing, and its agreement with
 the server's, over a clean link and where one byte arrives wrong.
 */
module FourWayClient {
  import opened Bytes
  import Crc
  import opened FourWayServer
  import opened FourWaySession

  const LOCAL_ESCAPE: byte := 0x2F
  const REMOTE_ESCAPE: byte := 0x2E

  /** A command without a parameter still carries one zero byte, since zero length means 256. */
  function Padded(param: seq<byte>): seq<byte> {
    if param == [] then [0] else param
  }

  function SendBody(cmd: byte, addr: nat, param: seq<byte>): seq<byte> {
    [LOCAL_ESCAPE, cmd, addr / 256 % 256, addr % 256, |Padded(param)| % 256] + Padded(param)
  }

  function Send(cmd: byte, addr: nat, param: seq<byte>): seq<byte> {
    SendBody(cmd, addr, param) + Be16(Crc.Xmodem(SendBody(cmd, addr, param)))
  }

  // ---------------------------------------------------------- reading replies

  datatype Parsed = Waiting | BadCrc | Answer(cmd: byte, payload: seq<byte>, ack: byte)

  /** The reply once the buffer starts at its mark. */
  function ParseAligned(frame: seq<byte>): Parsed {
    if |frame| < 5 then Waiting
    else
      var plen := Length(frame[4]);
      var need := 5 + plen + 1 + 2;
      if |frame| < need then Waiting
      else if U16(frame[need - 1], frame[need - 2]) != Crc.Xmodem(frame[..need - 2]) then BadCrc
      else Answer(frame[1], frame[5..5 + plen], frame[5 + plen])
  }

  function ParseReply(buf: seq<byte>): Parsed {
    ParseAligned(buf[IndexOf(buf, REMOTE_ESCAPE)..])
  }

  /** What the reading loop makes of the chunks that arrive before its deadline. */
  function ParseChunks(buf: seq<byte>, chunks: seq<seq<byte>>): Parsed
    decreases |chunks|
  {
    if chunks == [] then Waiting
    else
      var b := buf + chunks[0];
      if ParseReply(b) == Waiting then ParseChunks(b, chunks[1..]) else ParseReply(b)
  }

  method ReadReply(chunks: seq<seq<byte>>) returns (r: Parsed)
    ensures r == ParseChunks([], chunks)
  {
    hide ParseReply;
    var buf := [];
    for i := 0 to |chunks|
      invariant ParseChunks([], chunks) == ParseChunks(buf, chunks[i..])
    {
      buf := buf + chunks[i];
      r := ParseReply(buf);
      if r != Waiting {
        return;
      }
    }
    return Waiting;
  }

  lemma ParseExtended(buf: seq<byte>, more: seq<byte>)
    ensures ParseReply(buf) != Waiting ==> ParseReply(buf + more) == ParseReply(buf)
  {
    hide IndexOf, ParseAligned;
    var start := IndexOf(buf, REMOTE_ESCAPE);
    IndexOfExtended(buf, more, REMOTE_ESCAPE);
    NothingWaits();
    assert buf[|buf|..] == [];
    if ParseReply(buf) != Waiting {
      assert (buf + more)[start..] == buf[start..] + more;
      AlignedExtended(buf[start..], more);
    }
  }

  lemma NothingWaits()
    ensures ParseAligned([]) == Waiting
  {}

  lemma NothingParsed()
    ensures ParseReply([]) == Waiting
  {
    hide IndexOf;
    var none: seq<byte> := [];
    assert none[IndexOf(none, REMOTE_ESCAPE)..] == none;
  }

  lemma AlignedExtended(frame: seq<byte>, more: seq<byte>)
    requires ParseAligned(frame) != Waiting
    ensures ParseAligned(frame + more) == ParseAligned(frame)
  {
    hide Crc.Xmodem;
    var need := 5 + Length(frame[4]) + 1 + 2;
    assert (frame + more)[..need - 2] == frame[..need - 2];
    assert (frame + more)[5..need - 3] == frame[5..need - 3];
  }

  /** How a reply is split on its way to the client does not matter. */
  lemma {:induction false} ReplyChunking(buf: seq<byte>, chunks: seq<seq<byte>>)
    requires chunks == [] ==> ParseReply(buf) == Waiting
    ensures ParseChunks(buf, chunks) == ParseReply(buf + Join(chunks))
    decreases |chunks|
  {
    hide ParseReply;
    if chunks == [] {
      assert buf + [] == buf;
    } else {
      var b := buf + chunks[0];
      assert buf + Join(chunks) == b + Join(chunks[1..]);
      if ParseReply(b) == Waiting {
        ReplyChunking(b, chunks[1..]);
      } else {
        ParseExtended(b, Join(chunks[1..]));
      }
    }
  }

  // -------------------------------------------------------------- round trips

  lemma SendIsFrame(cmd: byte, addr: nat, param: seq<byte>)
    requires |param| <= 256
    ensures var f := Send(cmd, addr, param);
            && IsFrame(f) && f[0] == REQ_MARK && f[1] == cmd
            && U16(f[3], f[2]) == addr % 65536 && Params(f) == Padded(param)
            && CheckPasses(f)
  {
    hide Crc.Xmodem;
    var f := Send(cmd, addr, param);
    assert f[..|f| - 2] == SendBody(cmd, addr, param);
    assert Params(f) == f[5..|f| - 2] == Padded(param);
    AddressBytes(addr);
  }

  lemma AddressBytes(addr: nat)
    ensures U16(addr % 256, addr / 256 % 256) == addr % 65536
  {}

  /** A request behind any mark-free noise is pulled out whole, whatever follows it. */
  lemma RequestRecovered(noise: seq<byte>, cmd: byte, addr: nat, param: seq<byte>, more: seq<byte>)
    requires |param| <= 256 && REQ_MARK !in noise
    ensures Pull(noise + (Send(cmd, addr, param) + more)) == Request(Send(cmd, addr, param), more)
  {
    hide Send, IndexOf, CheckPasses;
    var f := Send(cmd, addr, param);
    SendIsFrame(cmd, addr, param);
    NoiseBefore(noise, f + more, REQ_MARK);
    var all := noise + (f + more);
    assert all[IndexOf(all, REQ_MARK)..] == f + more;
    assert (f + more)[..|f|] == f && (f + more)[|f|..] == more;
  }

  lemma NoiseBefore(noise: seq<byte>, b: seq<byte>, mark: byte)
    requires mark !in noise && b != [] && b[0] == mark
    ensures IndexOf(noise + b, mark) == |noise|
  {
    assert IndexOf(b, mark) == 0;
    IndexOfExtended(noise, b, mark);
    IndexOfAbsent(noise, mark);
  }

  /** Every reply the server can send is read back as the same command, parameters and ack. */
  lemma ReplyRead(noise: seq<byte>, cmd: byte, address: word, params: seq<byte>, ack: byte, more: seq<byte>)
    requires 1 <= |params| <= 256 && RESP_MARK !in noise
    ensures Reply(cmd, address, params, ack).Some?
    ensures ParseReply(noise + Reply(cmd, address, params, ack).value + more) == Answer(cmd, params, ack)
    ensures var r := Reply(cmd, address, params, ack).value;
            |r| == 8 + |params| && U16(r[3], r[2]) == address
  {
    hide IndexOf, ParseAligned, Reply;
    ReplyParsed(cmd, address, params, ack);
    var r := Reply(cmd, address, params, ack).value;
    NoiseBefore(noise, r, RESP_MARK);
    var all := noise + r;
    assert all[IndexOf(all, RESP_MARK)..] == r;
    ParseExtended(all, more);
  }

  lemma ReplyParsed(cmd: byte, address: word, params: seq<byte>, ack: byte)
    requires 1 <= |params| <= 256
    ensures Reply(cmd, address, params, ack).Some?
    ensures var r := Reply(cmd, address, params, ack).value;
            && r != [] && r[0] == RESP_MARK && |r| == 8 + |params|
            && U16(r[3], r[2]) == address
            && ParseAligned(r) == Answer(cmd, params, ack)
  {
    hide Crc.Xmodem;
    var r := Reply(cmd, address, params, ack).value;
    assert r[..|r| - 2] == [RESP_MARK, cmd, address / 256, address % 256, |params| % 256] + params + [ack];
    assert r[5..5 + |params|] == params;
  }

  /**
   One exchange: the server recovers exactly what the client asked, answers once, and
   the client reads that answer, however the reply is split.
   */
  lemma Exchange(c: Setup, s: Session, cmd: byte, addr: nat, param: seq<byte>, chunks: seq<seq<byte>>)
    requires s.buf == [] && !s.exited && |param| <= 256
    ensures var f := Send(cmd, addr, param);
            IsFrame(f) && U16(f[3], f[2]) == addr % 65536 && Params(f) == Padded(param)
    ensures var f := Send(cmd, addr, param);
            var o := Respond(c, s.(lastRequest := f), f);
            && Fed(c, s, f).0 == o.session && 1 <= |o.params| <= 256
            && (Join(chunks) == Fed(c, s, f).1 ==> ParseChunks([], chunks) == Answer(cmd, o.params, o.ack))
  {
    hide Send, Respond, Pull, ReplyTo, Fed, ParseChunks, Params, CheckPasses, Join;
    var f := Send(cmd, addr, param);
    SendIsFrame(cmd, addr, param);
    RequestRecovered([], cmd, addr, param, []);
    assert [] + (f + []) == f;
    OneAnswer(c, s, f);
    AnswerLength(c, s.(lastRequest := f), f);
    AnswerRead(c, s.(lastRequest := f), f, chunks);
  }

  /** The server's answer to a frame, in whatever chunks it comes. */
  lemma AnswerRead(c: Setup, s: Session, f: seq<byte>, chunks: seq<seq<byte>>)
    requires IsFrame(f)
    ensures var o := Respond(c, s, f);
            ReplyTo(c, s, f) == Some(Join(chunks)) ==> ParseChunks([], chunks) == Answer(f[1], o.params, o.ack)
  {
    hide Respond, Reply, ParseReply, ParseChunks;
    AnswerLength(c, s, f);
    var o := Respond(c, s, f);
    var r := ReplyTo(c, s, f).value;
    ReplyRead([], f[1], U16(f[3], f[2]), o.params, o.ack, []);
    assert [] + r + [] == r && [] + Join(chunks) == Join(chunks);
    NothingParsed();
    if Join(chunks) == r {
      ReplyChunking([], chunks);
    }
  }

  /** A buffer holding exactly one request is served by one command and one reply. */
  lemma OneAnswer(c: Setup, s: Session, f: seq<byte>)
    requires !s.exited && s.buf == [] && Pull(f) == Request(f, [])
    ensures IsFrame(f)
    ensures var ready := s.(lastRequest := f);
            ReplyTo(c, ready, f).Some? &&
            Fed(c, s, f) == (Respond(c, ready, f).session, ReplyTo(c, ready, f).value)
  {
    hide Respond, Pull, ReplyTo, ServeOne, Served;
    assert s.buf + f == f;
    RequestServed(c, s, f);
    var t := ServeOne(c, s.(buf := f));
    EmptyServed(c, t.session);
    LastTurn(c, s.(buf := f));
  }

  /** When nothing is left after one turn, that turn is all there is. */
  lemma LastTurn(c: Setup, s: Session)
    requires var t := ServeOne(c, s); Served(c, t.session) == (t.session, [])
    ensures Served(c, s) == (ServeOne(c, s).session, ServeOne(c, s).out)
  {
    hide ServeOne;
    var t := ServeOne(c, s);
    assert t.out + [] == t.out;
  }

  lemma RequestServed(c: Setup, s: Session, f: seq<byte>)
    requires !s.exited && s.buf == [] && Pull(f) == Request(f, [])
    ensures IsFrame(f)
    ensures var ready := s.(lastRequest := f);
            var next := Respond(c, ready, f).session;
            && ReplyTo(c, ready, f).Some? && next.buf == []
            && ServeOne(c, s.(buf := f)) == Turn(next, ReplyTo(c, ready, f).value, !next.exited)
  {
    hide Respond, Pull, ReplyTo;
    var ready := s.(lastRequest := f);
    assert s.(buf := f).(buf := [], lastRequest := f) == ready;
    RespondKeepsBuffer(c, ready, f);
    AnswerLength(c, ready, f);
  }

  lemma EmptyServed(c: Setup, s: Session)
    requires s.buf == []
    ensures Served(c, s) == (s, [])
  {
    assert s.(buf := []) == s;
  }

  // --------------------------------------------------------------- bad links

  /** A request with one wrong byte, other than its start mark or length, runs nothing. */
  lemma CorruptRequestDropped(c: Setup, s: Session, cmd: byte, addr: nat, param: seq<byte>, i: nat, b: byte)
    requires s.buf == [] && |param| <= 256
    requires i < 7 + |Padded(param)| && i != 0 && i != 4
    ensures var f := Send(cmd, addr, param);
            |f| == 7 + |Padded(param)| && (b != f[i] ==> Fed(c, s, f[i := b]) == (s, []))
  {
    hide Send, Fed, Pull, CheckPasses;
    SendIsFrame(cmd, addr, param);
    var f := Send(cmd, addr, param);
    if b != f[i] {
      WrongBytePulled(f, i, b);
      DroppedServed(c, s, f[i := b]);
    }
  }

  lemma WrongBytePulled(f: seq<byte>, i: nat, b: byte)
    requires IsFrame(f) && f[0] == REQ_MARK && CheckPasses(f)
    requires i < |f| && b != f[i] && i != 0 && i != 4
    ensures Pull(f[i := b]) == Dropped([])
  {
    hide CheckPasses, Pull, PullAligned;
    var bad := f[i := b];
    WrongByteFails(f, i, b);
    AlreadyAligned(bad);
    WholeFrameDropped(bad);
  }

  lemma WholeFrameDropped(bad: seq<byte>)
    requires IsFrame(bad) && !CheckPasses(bad)
    ensures PullAligned(bad) == Dropped([])
  {
    hide CheckPasses;
    assert bad[..|bad|] == bad && bad[|bad|..] == [];
  }

  lemma DroppedServed(c: Setup, s: Session, data: seq<byte>)
    requires s.buf == [] && Pull(data) == Dropped([])
    ensures Fed(c, s, data) == (s, [])
  {
    hide Pull, ReplyTo, Respond;
    assert s.buf + data == data;
    assert s.(buf := data).(buf := []) == s;
    EmptyServed(c, s);
    BehindNothing((s, []));
  }

  lemma WrongByteFails(f: seq<byte>, i: nat, b: byte)
    requires |f| >= 2 && i < |f| && b != f[i] && CheckPasses(f)
    ensures !CheckPasses(f[i := b])
  {
    hide Crc.Xmodem;
    Crc.XmodemResidue(f);
    Crc.XmodemResidue(f[i := b]);
    Crc.XmodemDetectsOneByte(f, i, b);
  }

  /** A reply with one wrong byte, other than its start mark or length, is refused whatever follows it. */
  lemma CorruptReplyRefused(
    cmd: byte, address: word, params: seq<byte>, ack: byte, i: nat, b: byte, more: seq<byte>)
    requires 1 <= |params| <= 256 && i < 8 + |params| && i != 0 && i != 4
    ensures Reply(cmd, address, params, ack).Some?
    ensures var r := Reply(cmd, address, params, ack).value;
            |r| == 8 + |params| && (b != r[i] ==> ParseReply(r[i := b] + more) == BadCrc)
  {
    hide Reply, ParseReply, ParseAligned, IndexOf;
    ReplyChecked(cmd, address, params, ack);
    var r := Reply(cmd, address, params, ack).value;
    if b != r[i] {
      var bad := r[i := b];
      WrongByteFails(r, i, b);
      BadParsed(bad);
      assert bad[0..] == bad;
      MarkFirst(bad);
      ParseExtended(bad, more);
    }
  }

  lemma ReplyChecked(cmd: byte, address: word, params: seq<byte>, ack: byte)
    requires 1 <= |params| <= 256
    ensures Reply(cmd, address, params, ack).Some?
    ensures var r := Reply(cmd, address, params, ack).value;
            |r| == 8 + |params| && r[0] == RESP_MARK && Length(r[4]) == |params| && CheckPasses(r)
  {
    hide Crc.Xmodem;
    var r := Reply(cmd, address, params, ack).value;
    assert r[..|r| - 2] == [RESP_MARK, cmd, address / 256, address % 256, |params| % 256] + params + [ack];
  }

  lemma BadParsed(bad: seq<byte>)
    requires |bad| >= 9 && |bad| == 8 + Length(bad[4]) && !CheckPasses(bad)
    ensures ParseAligned(bad) == BadCrc
  {
    hide Crc.Xmodem;
  }

  lemma MarkFirst(b: seq<byte>)
    requires b != [] && b[0] == RESP_MARK
    ensures ParseReply(b) == ParseAligned(b)
  {
    assert b[0..] == b;
  }

  /**
   The start mark has to be excluded: when it is lost, the parser looks for another one,
   and a parameter that happens to hold a complete request is run instead.
   */
  lemma LostMarkRunsParameter(cmd: byte, addr: nat, cmd2: byte, b: byte)
    requires cmd != REQ_MARK && addr / 256 % 256 != REQ_MARK && addr % 256 != REQ_MARK && b != REQ_MARK
    ensures var inner := Send(cmd2, 0, []);
            var p := Pull(Send(cmd, addr, inner)[0 := b]);
            |inner| == 8 && p.Request? && p.frame == inner
  {
    hide Crc.Xmodem;
    var inner := Send(cmd2, 0, []);
    var f := Send(cmd, addr, inner);
    SendIsFrame(cmd2, 0, []);
    var head := f[0 := b][..5];
    var tail := Be16(Crc.Xmodem(SendBody(cmd, addr, inner)));
    assert f[0 := b] == head + (inner + tail);
    RequestRecovered(head, cmd2, 0, [], tail);
  }
}
