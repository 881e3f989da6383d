/** What holds of whole 4-way sessions, whatever the configurator sends and the ESCs answer. */
module FourWaySession {
  import opened Bytes
  import Crc
  import opened OneWire
  import opened FourWayServer

  // ------------------------------------------------ independence of chunking

  lemma PullAlignedExtended(b: seq<byte>, more: seq<byte>)
    ensures match PullAligned(b)
            case NeedMore(rest) => rest == b
            case Dropped(rest) => PullAligned(b + more) == Dropped(rest + more)
            case Request(frame, rest) => PullAligned(b + more) == Request(frame, rest + more)
  {
    hide CheckPasses;
    if |b| >= 5 && |b| >= 7 + Length(b[4]) {
      var total := 7 + Length(b[4]);
      assert (b + more)[..total] == b[..total];
      assert (b + more)[total..] == b[total..] + more;
    }
  }

  /** More bytes never change what was already pulled, and skipped noise stays skipped. */
  lemma PullExtended(buf: seq<byte>, more: seq<byte>)
    ensures match Pull(buf)
            case NeedMore(rest) => Pull(buf + more) == Pull(rest + more)
            case Dropped(rest) => Pull(buf + more) == Dropped(rest + more)
            case Request(frame, rest) => Pull(buf + more) == Request(frame, rest + more)
  {
    hide PullAligned, IndexOf;
    var start := IndexOf(buf, REQ_MARK);
    var b := buf[start..];
    IndexOfExtended(buf, more, REQ_MARK);
    PullAlignedExtended(b, more);
    if start < |buf| {
      assert (buf + more)[start..] == b + more;
      AlreadyAligned(b + more);
    } else {
      assert b == [] && [] + more == more;
      assert (buf + more)[start + IndexOf(more, REQ_MARK)..] == more[IndexOf(more, REQ_MARK)..];
    }
  }

  lemma AlreadyAligned(b: seq<byte>)
    requires b != [] && b[0] == REQ_MARK
    ensures Pull(b) == PullAligned(b)
  {
    assert b[0..] == b;
  }

  /** A command never looks at the bytes still waiting. */
  lemma RespondIgnoresBuffer(c: Setup, s: Session, buf: seq<byte>, frame: seq<byte>)
    requires IsFrame(frame)
    ensures var o := Respond(c, s, frame);
            Respond(c, s.(buf := buf), frame) == o.(session := o.session.(buf := buf))
  {
    hide ConnectEsc, KeepAliveOn, ReadFlashOn, WriteOn, EraseFlashOn;
  }

  lemma ServeOneExtended(c: Setup, s: Session, more: seq<byte>)
    ensures var t := ServeOne(c, s);
            if Pull(s.buf).NeedMore? then
              ServeOne(c, s.(buf := s.buf + more)) == ServeOne(c, t.session.(buf := t.session.buf + more))
            else
              ServeOne(c, s.(buf := s.buf + more)) == t.(session := t.session.(buf := t.session.buf + more))
  {
    hide Respond, Pull, ReplyTo;
    PullExtended(s.buf, more);
    match Pull(s.buf)
    case NeedMore(rest) =>
    case Dropped(rest) =>
    case Request(frame, rest) =>
      var ready := s.(buf := rest, lastRequest := frame);
      RespondIgnoresBuffer(c, ready, rest + more, frame);
      RespondKeepsBuffer(c, ready, frame);
      SameReply(c, ready, ready.(buf := rest + more), frame);
  }

  lemma SameReply(c: Setup, s: Session, t: Session, frame: seq<byte>)
    requires IsFrame(frame)
    requires Respond(c, s, frame).params == Respond(c, t, frame).params
    requires Respond(c, s, frame).ack == Respond(c, t, frame).ack
    ensures ReplyTo(c, s, frame) == ReplyTo(c, t, frame)
  {
    hide Respond, Reply;
  }

  lemma ServeOneStops(c: Setup, s: Session)
    ensures !ServeOne(c, s).again && !ServeOne(c, s).session.exited ==> Pull(s.buf).NeedMore?
    ensures s.exited ==> ServeOne(c, s).session.exited
  {
    hide Respond, Pull, ReplyTo;
    match Pull(s.buf)
    case NeedMore(rest) =>
    case Dropped(rest) =>
    case Request(frame, rest) =>
      RespondKeepsBuffer(c, s.(buf := rest, lastRequest := frame), frame);
  }

  /** If a chunk does not end the session, feeding it and then more is feeding both at once. */
  lemma {:induction false} ServedExtended(c: Setup, s: Session, more: seq<byte>)
    requires !Served(c, s).0.exited
    ensures var (after, out) := Served(c, s);
            Served(c, s.(buf := s.buf + more)) == Behind(out, Served(c, after.(buf := after.buf + more)))
    decreases |s.buf|
  {
    hide ServeOne, Pull;
    var t := ServeOne(c, s);
    var longer := s.(buf := s.buf + more);
    ServeOneExtended(c, s, more);
    ServeOneStops(c, s);
    if t.again {
      if Pull(s.buf).NeedMore? {
        NeedMoreStops(c, s);
      }
      ServedExtended(c, t.session, more);
      var (after, out) := Served(c, t.session);
      BehindTwice(t.out, out, Served(c, after.(buf := after.buf + more)));
    } else {
      NeedMoreStops(c, s);
      BehindNothing(Served(c, t.session.(buf := t.session.buf + more)));
    }
  }

  lemma NeedMoreStops(c: Setup, s: Session)
    requires Pull(s.buf).NeedMore?
    ensures !ServeOne(c, s).again && ServeOne(c, s).out == []
  {
    hide Respond, Pull, ReplyTo;
  }

  lemma FeedTwoChunks(c: Setup, s: Session, a: seq<byte>, b: seq<byte>)
    requires !Fed(c, s, a).0.exited
    ensures var (middle, first) := Fed(c, s, a);
            var (after, second) := Fed(c, middle, b);
            Fed(c, s, a + b) == (after, first + second)
  {
    hide ServeOne;
    ServedExtended(c, s.(buf := s.buf + a), b);
    assert s.buf + a + b == s.buf + (a + b);
  }

  /** Chunks fed one after another, until one of them ends the session. */
  function FedChunks(c: Setup, s: Session, chunks: seq<seq<byte>>): (Session, seq<byte>)
    decreases |chunks|
  {
    if chunks == [] || s.exited then (s, [])
    else
      var r := Fed(c, s, chunks[0]);
      Behind(r.1, FedChunks(c, r.0, chunks[1..]))
  }

  lemma {:induction false} ServedSettles(c: Setup, s: Session)
    requires !Served(c, s).0.exited
    ensures Served(c, Served(c, s).0) == (Served(c, s).0, [])
    decreases |s.buf|
  {
    hide ServeOne, Pull;
    var t := ServeOne(c, s);
    if t.again {
      ServedSettles(c, t.session);
    } else {
      ServeOneExtended(c, s, []);
      ServeOneStops(c, s);
      NeedMoreStops(c, s);
      assert s.buf + [] == s.buf && t.session.buf + [] == t.session.buf;
    }
  }

  /** A session that a buffer ends is the same however much follows; what follows is left unread. */
  lemma {:induction false} ServedPastExit(c: Setup, s: Session, more: seq<byte>)
    requires !s.exited && Served(c, s).0.exited
    ensures var (after, out) := Served(c, s);
            Served(c, s.(buf := s.buf + more)) == (after.(buf := after.buf + more), out)
    decreases |s.buf|
  {
    hide ServeOne, Pull;
    var t := ServeOne(c, s);
    EndsAtRequest(c, s);
    ServeOneExtended(c, s, more);
    if t.again {
      ServedPastExit(c, t.session, more);
    }
  }

  lemma EndsAtRequest(c: Setup, s: Session)
    requires !s.exited
    ensures var t := ServeOne(c, s);
            && (t.again ==> !t.session.exited)
            && (t.again || t.session.exited ==> !Pull(s.buf).NeedMore?)
  {
    hide Respond, Pull, ReplyTo;
  }

  /**
   For every ESC behaviour and every way of cutting up the byte stream, the chunks give
   the same replies, the same ESC traffic and the same state as the whole stream, whether
   or not it ends the session; an ended session differs only in the bytes left unread.
   */
  lemma {:induction false} ChunkingIrrelevant(c: Setup, s: Session, chunks: seq<seq<byte>>)
    requires !s.exited && Served(c, s) == (s, [])
    ensures var (whole, out) := Fed(c, s, Join(chunks));
            var (parts, pieces) := FedChunks(c, s, chunks);
            && out == pieces && whole.(buf := parts.buf) == parts
            && (!whole.exited ==> whole.buf == parts.buf)
    decreases |chunks|
  {
    hide ServeOne;
    if chunks == [] {
      assert s.buf + [] == s.buf;
      assert s.(buf := s.buf + []) == s;
    } else {
      var (middle, first) := Fed(c, s, chunks[0]);
      var rest := Join(chunks[1..]);
      assert s.buf + chunks[0] + rest == s.buf + Join(chunks);
      if middle.exited {
        ServedPastExit(c, s.(buf := s.buf + chunks[0]), rest);
        assert first + [] == first;
      } else {
        ServedSettles(c, s.(buf := s.buf + chunks[0]));
        ChunkingIrrelevant(c, middle, chunks[1..]);
        FeedTwoChunks(c, s, chunks[0], rest);
      }
    }
  }

  // ------------------------------------------------------- traffic only grows

  lemma {:induction false} ReprobeExtends(c: Setup, target: nat, log: History, n: nat)
    ensures log <= Reprobe(c, target, log, n).1
    decreases n
  {
    if n > 0 && ConnectOn(c.answers, target, log).0.None? {
      ReprobeExtends(c, target, ConnectOn(c.answers, target, log).1, n - 1);
    }
  }

  lemma ConnectExtends(c: Setup, target: nat, log: History)
    requires target < EscCount(c)
    ensures log <= ConnectEsc(c, target, log).1
  {
    var first := ConnectOn(c.answers, target, log);
    if first.0.None? {
      var after := if c.canReset[target] then first.1 + [Reset(target)] else first.1;
      ReprobeExtends(c, target, after, c.window(after));
    }
  }

  lemma WorkExtends(a: Answers, esc: nat, size: nat, addr16: word, payload: seq<byte>, log: History)
    requires 1 <= size <= 256 && 1 <= |payload| <= 256
    ensures log <= ReadFlashOn(a, esc, size, addr16, log).1
    ensures log <= WriteOn(a, esc, addr16, payload, log).1
    ensures log <= EraseFlashOn(a, esc, addr16, log).1
  {
    hide Crc.Boot, WithCrc, ReadResult, Acked;
  }

  /** A command adds to the traffic of the session; nothing already sent is forgotten. */
  lemma RespondExtends(c: Setup, s: Session, frame: seq<byte>)
    requires IsFrame(frame)
    ensures s.log <= Respond(c, s, frame).session.log
  {
    hide ConnectEsc, ReadFlashOn, WriteOn, EraseFlashOn, WithCrc;
    var params := Params(frame);
    if params[0] < EscCount(c) {
      ConnectExtends(c, params[0], s.log);
    }
    WorkExtends(c.answers, s.target, Length(params[0]), U16(frame[3], frame[2]), params, s.log);
  }

  lemma {:induction false} ServedExtendsLog(c: Setup, s: Session)
    ensures s.log <= Served(c, s).0.log
    decreases |s.buf|
  {
    hide Respond, ReplyTo, Pull;
    match Pull(s.buf)
    case NeedMore(_) =>
    case Dropped(_) => ServedExtendsLog(c, ServeOne(c, s).session);
    case Request(frame, rest) =>
      RespondExtends(c, s.(buf := rest, lastRequest := frame), frame);
      if ServeOne(c, s).again {
        ServedExtendsLog(c, ServeOne(c, s).session);
      }
  }

  // ------------------------------------------------ which commands a buffer runs

  predicate Frames(frames: seq<seq<byte>>) {
    forall k :: 0 <= k < |frames| ==> IsFrame(frames[k])
  }

  /** The requests in a buffer, by framing and check alone. */
  function FramesIn(buf: seq<byte>): (frames: seq<seq<byte>>)
    ensures forall k :: 0 <= k < |frames| ==> IsFrame(frames[k]) && |frames[k]| <= |buf|
    decreases |buf|
  {
    match Pull(buf)
    case NeedMore(_) => []
    case Dropped(rest) => FramesIn(rest)
    case Request(frame, rest) =>
      PulledFits(buf);
      [frame] + FramesIn(rest)
  }

  lemma PulledFits(buf: seq<byte>)
    ensures match Pull(buf)
            case NeedMore(_) => true
            case Dropped(rest) => |rest| <= |buf|
            case Request(frame, rest) => |frame| <= |buf| && |rest| <= |buf|
  {
    hide CheckPasses;
  }

  /** Commands run one after another, until one of them ends the session. */
  function RunAll(c: Setup, s: Session, frames: seq<seq<byte>>): (Session, seq<byte>)
    requires Frames(frames)
    decreases |frames|
  {
    if frames == [] then (s, [])
    else
      var ready := s.(lastRequest := frames[0]);
      AnswerLength(c, ready, frames[0]);
      var next := Respond(c, ready, frames[0]).session;
      var reply := ReplyTo(c, ready, frames[0]).value;
      if next.exited then (next, reply) else Behind(reply, RunAll(c, next, frames[1..]))
  }

  /** Feeding a buffer runs exactly the requests in it, in order, and changes nothing else but the buffer. */
  lemma {:induction false} ServedRunsFrames(c: Setup, s: Session, other: seq<byte>)
    requires !s.exited
    ensures var (after, out) := Served(c, s);
            var (same, replies) := RunAll(c, s.(buf := other), FramesIn(s.buf));
            after.(buf := other) == same && out == replies
    decreases |s.buf|
  {
    hide Respond, Pull, ReplyTo;
    match Pull(s.buf)
    case NeedMore(_) =>
    case Dropped(rest) =>
      ServedRunsFrames(c, s.(buf := rest), other);
      BehindNothing(Served(c, s.(buf := rest)));
    case Request(frame, rest) =>
      var ready := s.(buf := rest, lastRequest := frame);
      var other' := s.(buf := other, lastRequest := frame);
      assert other' == ready.(buf := other);
      RespondKeepsBuffer(c, ready, frame);
      RespondIgnoresBuffer(c, ready, other, frame);
      SameReply(c, ready, other', frame);
      AnswerLength(c, ready, frame);
      assert ([frame] + FramesIn(rest))[1..] == FramesIn(rest);
      var next := Respond(c, ready, frame).session;
      if !next.exited {
        ServedRunsFrames(c, next, other);
      }
  }

  /** What stays in the buffer once everything complete has been pulled. */
  function Head(buf: seq<byte>): seq<byte>
    decreases |buf|
  {
    match Pull(buf)
    case NeedMore(rest) => rest
    case Dropped(rest) => Head(rest)
    case Request(_, rest) => Head(rest)
  }

  /** The commands up to the first that ends the session. */
  function UntilExit(frames: seq<seq<byte>>): (r: seq<seq<byte>>)
    requires Frames(frames)
    ensures Frames(r)
  {
    if frames == [] then []
    else if frames[0][1] == INTERFACE_EXIT then [frames[0]]
    else [frames[0]] + UntilExit(frames[1..])
  }

  predicate Ends(frames: seq<seq<byte>>)
    requires Frames(frames)
  {
    frames != [] && frames[|frames| - 1][1] == INTERFACE_EXIT
  }

  /** The commands a buffer makes the server run. */
  function Ran(buf: seq<byte>): (r: seq<seq<byte>>)
    ensures Frames(r)
  {
    UntilExit(FramesIn(buf))
  }

  lemma {:induction false} RunUntilExit(c: Setup, s: Session, frames: seq<seq<byte>>)
    requires !s.exited && Frames(frames)
    ensures RunAll(c, s, UntilExit(frames)) == RunAll(c, s, frames)
    ensures RunAll(c, s, frames).0.exited <==> Ends(UntilExit(frames))
    decreases |frames|
  {
    hide Respond, ReplyTo;
    if frames != [] {
      var ready := s.(lastRequest := frames[0]);
      RespondKeepsBuffer(c, ready, frames[0]);
      AnswerLength(c, ready, frames[0]);
      var next := Respond(c, ready, frames[0]).session;
      var rest := UntilExit(frames[1..]);
      if next.exited {
        var last: seq<seq<byte>> := [frames[0]];
        assert last[1..] == [];
      } else {
        assert ([frames[0]] + rest)[1..] == rest;
        assert rest != [] ==> ([frames[0]] + rest)[|rest|] == rest[|rest| - 1];
        RunUntilExit(c, next, frames[1..]);
      }
    }
  }

  lemma {:induction false} RunIgnoresBuffer(c: Setup, s: Session, buf: seq<byte>, frames: seq<seq<byte>>)
    requires Frames(frames)
    ensures var (after, out) := RunAll(c, s, frames);
            RunAll(c, s.(buf := buf), frames) == (after.(buf := buf), out)
    decreases |frames|
  {
    hide Respond, ReplyTo;
    if frames != [] {
      var ready := s.(lastRequest := frames[0]);
      var other := ready.(buf := buf);
      assert s.(buf := buf).(lastRequest := frames[0]) == other;
      RespondIgnoresBuffer(c, ready, buf, frames[0]);
      SameReply(c, ready, other, frames[0]);
      AnswerLength(c, ready, frames[0]);
      var next := Respond(c, ready, frames[0]).session;
      if !next.exited {
        RunIgnoresBuffer(c, next, buf, frames[1..]);
      }
    }
  }

  /** Commands that do not end the session, and then more. */
  lemma {:induction false} RunAppend(c: Setup, s: Session, a: seq<seq<byte>>, b: seq<seq<byte>>)
    requires Frames(a) && Frames(b) && !RunAll(c, s, a).0.exited
    ensures var (after, out) := RunAll(c, s, a);
            RunAll(c, s, a + b) == Behind(out, RunAll(c, after, b))
    decreases |a|
  {
    hide Respond, ReplyTo;
    if a == [] {
      assert a + b == b;
      BehindNothing(RunAll(c, s, b));
    } else {
      var ready := s.(lastRequest := a[0]);
      AnswerLength(c, ready, a[0]);
      var next := Respond(c, ready, a[0]).session;
      assert (a + b)[1..] == a[1..] + b;
      RunAppend(c, next, a[1..], b);
      var (after, out) := RunAll(c, next, a[1..]);
      BehindTwice(ReplyTo(c, ready, a[0]).value, out, RunAll(c, after, b));
    }
  }

  lemma {:induction false} ServedHead(c: Setup, s: Session)
    requires !s.exited && !Served(c, s).0.exited
    ensures Served(c, s).0.buf == Head(s.buf)
    decreases |s.buf|
  {
    hide Respond, Pull, ReplyTo;
    match Pull(s.buf)
    case NeedMore(_) =>
    case Dropped(rest) => ServedHead(c, s.(buf := rest));
    case Request(frame, rest) =>
      var ready := s.(buf := rest, lastRequest := frame);
      RespondKeepsBuffer(c, ready, frame);
      if !Respond(c, ready, frame).session.exited {
        ServedHead(c, Respond(c, ready, frame).session);
      }
  }

  /** One feed, with whatever was waiting before it: the commands it runs and the bytes it leaves. */
  lemma FedRuns(c: Setup, s: Session, data: seq<byte>)
    requires !s.exited
    ensures var got := s.buf + data;
            var (after, out) := Fed(c, s, data);
            && (after.(buf := s.buf), out) == RunAll(c, s, Ran(got))
            && (after.exited <==> Ends(Ran(got)))
            && (!after.exited ==> after.buf == Head(got))
  {
    hide Served, RunAll, FramesIn, UntilExit, Head;
    var ready := s.(buf := s.buf + data);
    assert ready.(buf := s.buf) == s;
    ServedRunsFrames(c, ready, s.buf);
    RunUntilExit(c, s, FramesIn(ready.buf));
    if !Served(c, ready).0.exited {
      ServedHead(c, ready);
    }
  }
}
