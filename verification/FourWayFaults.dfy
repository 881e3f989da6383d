/**
 What a faulty link makes of one 4-way request. The endpoint joins the copies of a chunk
 before the server sees them, and the server keeps what it cannot complete: the head of a
 cut request is completed by its own second copy, or by the request after it.
 */
module FourWayFaults {
  import opened Bytes
  import Crc
  import opened LinkFaults
  import W = OneWire
  import opened FourWayServer
  import opened FourWaySession
  import opened FourWayClient

  // ------------------------------------------------- requests a damaged one runs

  lemma FramesFrom(b: seq<byte>)
    requires b != [] && b[0] == REQ_MARK
    ensures FramesIn(b) == match PullAligned(b)
                           case NeedMore(_) => []
                           case Dropped(rest) => FramesIn(rest)
                           case Request(frame, rest) => [frame] + FramesIn(rest)
  {
    hide PullAligned;
    AlreadyAligned(b);
  }

  /** A complete frame at the front is run if it passes its check, and is gone either way. */
  lemma FirstWhole(g: seq<byte>, more: seq<byte>)
    requires IsFrame(g) && g[0] == REQ_MARK
    ensures FramesIn(g + more) == (if CheckPasses(g) then [g] else []) + FramesIn(more)
    ensures Head(g + more) == Head(more)
  {
    hide CheckPasses, FramesIn;
    FramesFrom(g + more);
    AlreadyAligned(g + more);
    assert (g + more)[..|g|] == g && (g + more)[|g|..] == more;
    assert [] + FramesIn(more) == FramesIn(more);
  }

  lemma NothingIn()
    ensures FramesIn([]) == [] && Head([]) == []
  {}

  lemma WholeAlone(g: seq<byte>)
    requires IsFrame(g) && g[0] == REQ_MARK
    ensures FramesIn(g) == (if CheckPasses(g) then [g] else []) && Head(g) == []
  {
    hide CheckPasses, FramesIn, Head;
    FirstWhole(g, []);
    NothingIn();
    assert g + [] == g;
  }

  /** A cut request waits for the rest. */
  lemma CutWaits(f: seq<byte>, p: seq<byte>)
    requires IsFrame(f) && 1 <= |p| < |f| && p[0] == REQ_MARK && (|p| > 4 ==> p[4] == f[4])
    ensures FramesIn(p) == [] && Pull(p) == NeedMore(p)
  {
    hide FramesIn;
    FramesFrom(p);
    AlreadyAligned(p);
  }

  /** The frame that the second copy of a cut request makes of the first, if it reaches that far. */
  predicate Completes(p: seq<byte>, n: nat) {
    5 <= |p| < n <= 2 * |p|
  }

  /** A cut request sent twice: with fewer than five bytes of it, the second mark or command is read as a length. */
  lemma CutTwice(f: seq<byte>, p: seq<byte>)
    requires IsFrame(f) && 1 <= |p| < |f| && p[0] == REQ_MARK && (|p| > 4 ==> p[4] == f[4])
    ensures FramesIn(p + p) ==
            if Completes(p, |f|) then
              (if CheckPasses((p + p)[..|f|]) then [(p + p)[..|f|]] else []) + FramesIn(p[|f| - |p|..])
            else []
  {
    hide FramesIn, CheckPasses;
    var b := p + p;
    if Completes(p, |f|) {
      assert b == b[..|f|] + p[|f| - |p|..];
      FirstWhole(b[..|f|], p[|f| - |p|..]);
    } else {
      FramesFrom(b);
      StillShort(f, p);
    }
  }

  lemma StillShort(f: seq<byte>, p: seq<byte>)
    requires IsFrame(f) && 1 <= |p| < |f| && p[0] == REQ_MARK && (|p| > 4 ==> p[4] == f[4])
    requires !Completes(p, |f|)
    ensures PullAligned(p + p).NeedMore?
  {
    hide CheckPasses;
    var b := p + p;
    if |p| > 4 {
      assert b[4] == p[4];
    } else if |p| == 4 {
      assert b[4] == p[0];
    } else if |p| == 3 {
      assert b[4] == p[1];
    }
  }

  /** The bytes a flipped bit must leave alone: the start mark and the length. */
  predicate Spares(choice: Choice) {
    choice.flip.Some? ==> choice.flip.value.0 != 0 && choice.flip.value.0 != 4
  }

  lemma DamagedShape(f: seq<byte>, choice: Choice)
    requires IsFrame(f) && f[0] == REQ_MARK && CheckPasses(f) && Possible(choice, |f|) && Spares(choice)
    ensures var p := Damaged(f, choice);
            && 1 <= |p| <= |f| && p[0] == REQ_MARK && (|p| > 4 ==> p[4] == f[4])
            && (|p| == |f| <==> choice.cut.None?)
            && (choice.cut.None? && choice.flip.None? ==> p == f)
            && (choice.cut.None? && choice.flip.Some? ==> !CheckPasses(p))
  {
    hide CheckPasses;
    assert f[..|f|] == f;
    if choice.flip.Some? {
      var (i, bit) := choice.flip.value;
      FlipChanges(f[i], bit);
      if choice.cut.None? {
        WrongByteFails(f, i, FlipBit(f[i], bit));
      }
    }
  }

  /** Which requests the server finds in what the link delivers for one request that is not cut. */
  lemma UncutFrames(f: seq<byte>, choice: Choice)
    requires IsFrame(f) && f[0] == REQ_MARK && CheckPasses(f) && Possible(choice, |f|) && Spares(choice)
    requires !choice.drop && choice.cut.None?
    ensures FramesIn(Delivered(f, choice)) == if choice.flip.Some? then [] else if choice.twice then [f, f] else [f]
    ensures Head(Delivered(f, choice)) == []
  {
    hide CheckPasses, FramesIn, Delivered, Damaged, Head;
    var p := Damaged(f, choice);
    DeliveredIs(f, choice);
    DamagedShape(f, choice);
    NothingIn();
    WholeAlone(p);
    FirstWhole(p, p);
    assert [f] + [f] == [f, f];
  }

  /** The same for every choice: a cut one holds another request only if its second copy completes the first. */
  lemma DeliveredFrames(f: seq<byte>, choice: Choice)
    requires IsFrame(f) && f[0] == REQ_MARK && CheckPasses(f) && Possible(choice, |f|) && Spares(choice)
    ensures var p := Damaged(f, choice);
            FramesIn(Delivered(f, choice)) ==
            if choice.drop then []
            else if choice.cut.None? then
              if choice.flip.Some? then [] else if choice.twice then [f, f] else [f]
            else if choice.twice && Completes(p, |f|) then
              (if CheckPasses((p + p)[..|f|]) then [(p + p)[..|f|]] else []) + FramesIn(p[|f| - |p|..])
            else []
  {
    hide CheckPasses, FramesIn, Delivered, Damaged, Completes;
    if choice.drop {
      DeliveredIs(f, choice);
      NothingIn();
    } else if choice.cut.None? {
      UncutFrames(f, choice);
    } else {
      CutFrames(f, choice);
    }
  }

  lemma CutFrames(f: seq<byte>, choice: Choice)
    requires IsFrame(f) && f[0] == REQ_MARK && CheckPasses(f) && Possible(choice, |f|) && Spares(choice)
    requires !choice.drop && choice.cut.Some?
    ensures var p := Damaged(f, choice);
            FramesIn(Delivered(f, choice)) ==
            if choice.twice && Completes(p, |f|) then
              (if CheckPasses((p + p)[..|f|]) then [(p + p)[..|f|]] else []) + FramesIn(p[|f| - |p|..])
            else []
  {
    hide CheckPasses, FramesIn, Delivered, Damaged, Completes;
    var p := Damaged(f, choice);
    DeliveredIs(f, choice);
    DamagedShape(f, choice);
    CutWaits(f, p);
    CutTwice(f, p);
  }

  // ------------------------------------------------- one request, any buffer

  predicate AllIn(frames: seq<seq<byte>>, sent: set<seq<byte>>) {
    forall k :: 0 <= k < |frames| ==> frames[k] in sent
  }

  /** A buffer from its first mark on. */
  function Aligned(b: seq<byte>): seq<byte> {
    b[IndexOf(b, REQ_MARK)..]
  }

  /** How long the frame at the front of an aligned buffer says it is. */
  function Total(a: seq<byte>): nat
    requires |a| >= 5
  {
    7 + Length(a[4])
  }

  /**
   A buffer that makes the server run a request nobody sent: the frame completed at its
   front passes its check and was not sent, or something behind that frame is run, and was
   not sent.
   */
  predicate RunsStranger(sent: set<seq<byte>>, b: seq<byte>) {
    var a := Aligned(b);
    && |a| >= 5 && |a| >= Total(a)
    && var front, behind := a[..Total(a)], a[Total(a)..];
       if CheckPasses(front) then
         front !in sent || (front[1] != INTERFACE_EXIT && !AllIn(Ran(behind), sent))
       else !AllIn(Ran(behind), sent)
  }

  lemma RanFront(b: seq<byte>)
    ensures var a := Aligned(b);
            Ran(b) ==
            if |a| < 5 || |a| < Total(a) then []
            else
              var front, behind := a[..Total(a)], a[Total(a)..];
              if !CheckPasses(front) then Ran(behind)
              else if front[1] == INTERFACE_EXIT then [front] else [front] + Ran(behind)
  {
    hide CheckPasses, IndexOf;
    var a := Aligned(b);
    if |a| >= 5 && |a| >= Total(a) && CheckPasses(a[..Total(a)]) {
      var front, rest := a[..Total(a)], FramesIn(a[Total(a)..]);
      assert ([front] + rest)[1..] == rest;
    }
  }

  lemma AllInFront(front: seq<byte>, rest: seq<seq<byte>>, sent: set<seq<byte>>)
    ensures AllIn([front] + rest, sent) <==> front in sent && AllIn(rest, sent)
  {
    var all := [front] + rest;
    assert all[0] == front;
    if AllIn(all, sent) {
      forall k | 0 <= k < |rest| ensures rest[k] in sent {
        assert all[k + 1] == rest[k];
      }
    }
  }

  lemma StrangerExactly(sent: set<seq<byte>>, b: seq<byte>)
    ensures AllIn(Ran(b), sent) <==> !RunsStranger(sent, b)
  {
    hide CheckPasses, Ran, Aligned, AllIn;
    RanFront(b);
    NoneIn(sent);
    var a := Aligned(b);
    if |a| >= 5 && |a| >= Total(a) {
      var front := a[..Total(a)];
      AllInFront(front, Ran(a[Total(a)..]), sent);
      AllInFront(front, [], sent);
      assert [front] + [] == [front];
    }
  }

  lemma NoneIn(sent: set<seq<byte>>)
    ensures AllIn([], sent)
  {}

  /** In an empty buffer: cut and repeated, the copies together are another frame, or the rest of the second holds one. */
  predicate CompletesItself(f: seq<byte>, choice: Choice)
    requires Possible(choice, |f|)
  {
    var p := Damaged(f, choice);
    && !choice.drop && choice.twice && Completes(p, |f|)
    && var whole := (p + p)[..|f|];
       if CheckPasses(whole) then
         whole != f || (whole[1] != INTERFACE_EXIT && FramesIn(p[|f| - |p|..]) != [])
       else FramesIn(p[|f| - |p|..]) != []
  }

  /** A request of the client, and what the link does to it. */
  datatype Delivery = Delivery(cmd: byte, addr: nat, param: seq<byte>, choice: Choice)

  function Asked(d: Delivery): seq<byte> {
    Send(d.cmd, d.addr, d.param)
  }

  predicate Legal(d: Delivery) {
    |d.param| <= 256 && Possible(d.choice, |Asked(d)|)
  }

  function Arrived(d: Delivery): seq<byte>
    requires Legal(d)
  {
    Delivered(Asked(d), d.choice)
  }

  /**
   Whatever the link does to one request, flips of its mark and length included, and
   whatever earlier requests left in the buffer: the server runs that request and nothing
   else, if anything, except exactly where a stranger is completed.
   */
  lemma FaultyRequestHarmless(c: Setup, s: Session, d: Delivery)
    requires !s.exited && Legal(d)
    ensures var got := s.buf + Arrived(d);
            var (after, out) := Fed(c, s, Arrived(d));
            && (after.(buf := s.buf), out) == RunAll(c, s, Ran(got))
            && (!after.exited ==> after.buf == Head(got))
            && (AllIn(Ran(got), {Asked(d)}) <==> !RunsStranger({Asked(d)}, got))
  {
    hide *;
    FedRuns(c, s, Arrived(d));
    StrangerExactly({Asked(d)}, s.buf + Arrived(d));
  }

  /**
   In an empty buffer, and short of a flip of the mark or length, only a request that is
   cut and repeated can complete a stranger.
   */
  lemma StrangerInEmptyBuffer(d: Delivery)
    requires Legal(d) && Spares(d.choice)
    ensures RunsStranger({Asked(d)}, Arrived(d)) <==> CompletesItself(Asked(d), d.choice)
  {
    hide Send, CheckPasses, Ran, RunsStranger, CompletesItself, AllIn, Delivered;
    var f := Asked(d);
    SendIsFrame(d.cmd, d.addr, d.param);
    StrangerExactly({f}, Arrived(d));
    OnlyItself(f, d.choice);
  }

  lemma OnlyItself(f: seq<byte>, choice: Choice)
    requires IsFrame(f) && f[0] == REQ_MARK && CheckPasses(f) && Possible(choice, |f|) && Spares(choice)
    ensures AllIn(Ran(Delivered(f, choice)), {f}) <==> !CompletesItself(f, choice)
  {
    hide CheckPasses, FramesIn, Delivered, Damaged, AllIn, UntilExit;
    DamagedShape(f, choice);
    if !choice.drop && choice.cut.Some? && choice.twice && Completes(Damaged(f, choice), |f|) {
      OnlyItselfCut(f, choice);
    } else {
      DeliveredFrames(f, choice);
      CopiesOnly(f);
    }
  }

  lemma OnlyItselfCut(f: seq<byte>, choice: Choice)
    requires IsFrame(f) && f[0] == REQ_MARK && CheckPasses(f) && Possible(choice, |f|) && Spares(choice)
    requires !choice.drop && choice.cut.Some? && choice.twice && Completes(Damaged(f, choice), |f|)
    ensures AllIn(Ran(Delivered(f, choice)), {f}) <==> !CompletesItself(f, choice)
  {
    hide CheckPasses, FramesIn, Delivered, Damaged, AllIn, UntilExit;
    DeliveredFrames(f, choice);
    DamagedShape(f, choice);
    var p := Damaged(f, choice);
    assert (p + p)[4] == f[4];
    WholeThenBehind((p + p)[..|f|], FramesIn(p[|f| - |p|..]), f);
  }

  lemma CopiesOnly(f: seq<byte>)
    requires IsFrame(f)
    ensures Frames([]) && Frames([f]) && Frames([f, f])
    ensures AllIn(UntilExit([]), {f}) && AllIn(UntilExit([f]), {f}) && AllIn(UntilExit([f, f]), {f})
  {
    assert [f, f][1..] == [f];
  }

  lemma WholeThenBehind(whole: seq<byte>, behind: seq<seq<byte>>, f: seq<byte>)
    requires IsFrame(whole) && Frames(behind) && forall k :: 0 <= k < |behind| ==> |behind[k]| < |f|
    ensures Frames([whole] + behind) && Frames([] + behind)
    ensures AllIn(UntilExit([whole] + behind), {f}) <==>
            whole == f && (whole[1] == INTERFACE_EXIT || behind == [])
    ensures AllIn(UntilExit([] + behind), {f}) <==> behind == []
  {
    hide UntilExit, AllIn;
    assert [] + behind == behind;
    UntilExitFront(whole, behind);
    AllInFront(whole, UntilExit(behind), {f});
    AllInFront(whole, [], {f});
    NoneIn({f});
    ShorterAreOthers(behind, f);
    assert [whole] + [] == [whole];
  }

  lemma UntilExitFront(front: seq<byte>, rest: seq<seq<byte>>)
    requires IsFrame(front) && Frames(rest)
    ensures Frames([front] + rest)
    ensures UntilExit([front] + rest) == if front[1] == INTERFACE_EXIT then [front] else [front] + UntilExit(rest)
  {
    assert ([front] + rest)[1..] == rest;
  }

  lemma ShorterAreOthers(frames: seq<seq<byte>>, f: seq<byte>)
    requires Frames(frames) && forall k :: 0 <= k < |frames| ==> |frames[k]| < |f|
    ensures AllIn(UntilExit(frames), {f}) <==> frames == []
  {
    if frames != [] {
      assert UntilExit(frames)[0] == frames[0];
    }
  }

  /**
   Once the bytes that a session keeps waiting hold a length, they fix how many of the next
   bytes their frame takes, and that is at least one.
   */
  lemma HeadTakes(c: Setup, s: Session, data: seq<byte>)
    requires !s.exited && Served(c, s) == (s, []) && |s.buf| >= 5
    ensures Aligned(s.buf + data) == s.buf + data
    ensures Total(s.buf + data) == 7 + Length(s.buf[4]) > |s.buf|
  {
    hide *;
    SettledWaits(c, s);
    HeadTotal(s.buf, data);
  }

  lemma HeadTotal(h: seq<byte>, data: seq<byte>)
    requires |h| >= 5 && h[0] == REQ_MARK && PullAligned(h).NeedMore?
    ensures Aligned(h + data) == h + data
    ensures Total(h + data) == 7 + Length(h[4]) > |h|
  {
    assert (h + data)[0..] == h + data;
  }

  lemma SettledWaits(c: Setup, s: Session)
    requires !s.exited && Served(c, s) == (s, []) && s.buf != []
    ensures s.buf[0] == REQ_MARK && PullAligned(s.buf).NeedMore?
  {
    hide Respond, ReplyTo, PullAligned;
    ServedHead(c, s);
    HeadAligned(s.buf);
  }

  lemma {:induction false} HeadAligned(b: seq<byte>)
    ensures var h := Head(b);
            |h| <= |b| && PullAligned(h) == NeedMore(h) && (h != [] ==> h[0] == REQ_MARK)
    decreases |b|
  {
    hide PullAligned, IndexOf;
    PullAlignedExtended(b[IndexOf(b, REQ_MARK)..], []);
    match Pull(b)
    case NeedMore(_) =>
    case Dropped(rest) => HeadAligned(rest);
    case Request(_, rest) => HeadAligned(rest);
  }

  /**
   A request cut once and then sent again whole. The retry completes the first: it is run
   itself only if it repeats itself with the period of the cut.
   */
  lemma RetryAfterCut(f: seq<byte>, k: nat)
    requires IsFrame(f) && f[0] == REQ_MARK && CheckPasses(f) && 5 <= k < |f|
    ensures var whole := f[..k] + f[..|f| - k];
            FramesIn(f[..k] + f) == (if CheckPasses(whole) then [whole] else []) + FramesIn(f[|f| - k..])
    ensures f in FramesIn(f[..k] + f) <==> f[k..] == f[..|f| - k]
  {
    hide CheckPasses, FramesIn;
    var whole, behind := f[..k] + f[..|f| - k], f[|f| - k..];
    assert f[..k] + f == whole + behind;
    FirstWhole(whole, behind);
    SamePeriod(f, k);
    assert f in FramesIn(behind) ==> |f| <= |behind|;
  }

  lemma SamePeriod(f: seq<byte>, k: nat)
    requires k <= |f|
    ensures f == f[..k] + f[..|f| - k] <==> f[k..] == f[..|f| - k]
  {
    assert f == f[..k] + f[k..];
    assert (f[..k] + f[..|f| - k])[k..] == f[..|f| - k];
  }
}
