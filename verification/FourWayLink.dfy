/**
 A whole conversation over a faulty link: one request after another, each damaged in its
 own way, into whatever the ones before it left waiting.
 */
module FourWayLink {
  import opened Bytes
  import opened LinkFaults
  import opened FourWayServer
  import opened FourWaySession
  import opened FourWayClient
  import opened FourWayFaults

  predicate AllLegal(ds: seq<Delivery>) {
    forall k :: 0 <= k < |ds| ==> Legal(ds[k])
  }

  function Arrivals(ds: seq<Delivery>): seq<seq<byte>>
    requires AllLegal(ds)
  {
    if ds == [] then [] else [Arrived(ds[0])] + Arrivals(ds[1..])
  }

  /** The commands run by a conversation that finds h waiting. */
  function RanBy(h: seq<byte>, ds: seq<Delivery>): (r: seq<seq<byte>>)
    requires AllLegal(ds)
    ensures Frames(r)
    decreases |ds|
  {
    if ds == [] then []
    else
      var got := h + Arrived(ds[0]);
      if Ends(Ran(got)) then Ran(got) else Ran(got) + RanBy(Head(got), ds[1..])
  }

  /** A conversation, to its end or to an exit, is exactly those commands. */
  lemma {:induction false} ConversationRuns(c: Setup, s: Session, ds: seq<Delivery>)
    requires !s.exited && AllLegal(ds)
    ensures var (after, out) := FedChunks(c, s, Arrivals(ds));
            (after.(buf := s.buf), out) == RunAll(c, s, RanBy(s.buf, ds))
    decreases |ds|
  {
    hide Fed, Ran, RunAll, Arrived, Legal;
    if ds == [] {
      RunNothing(c, s);
    } else {
      var data, rest := Arrived(ds[0]), Arrivals(ds[1..]);
      var got := s.buf + data;
      var (next, out) := Fed(c, s, data);
      FedRuns(c, s, data);
      assert ([data] + rest)[1..] == rest;
      if next.exited {
        assert out + [] == out;
      } else {
        ConversationRuns(c, next, ds[1..]);
        RunAppend(c, s, Ran(got), RanBy(Head(got), ds[1..]));
        RunIgnoresBuffer(c, next, s.buf, RanBy(Head(got), ds[1..]));
      }
    }
  }

  lemma RunNothing(c: Setup, s: Session)
    ensures RunAll(c, s, []) == (s, [])
  {}

  // ----------------------------------------------------------- only what was sent

  /** Every command run is a request sent by then. */
  predicate OnlySent(sent: set<seq<byte>>, h: seq<byte>, ds: seq<Delivery>)
    requires AllLegal(ds)
    decreases |ds|
  {
    ds == [] ||
    var got, now := h + Arrived(ds[0]), sent + {Asked(ds[0])};
    AllIn(Ran(got), now) && (Ends(Ran(got)) || OnlySent(now, Head(got), ds[1..]))
  }

  /** No delivery, up to an exit, completes a frame that passes its check and was not sent. */
  predicate NoStranger(sent: set<seq<byte>>, h: seq<byte>, ds: seq<Delivery>)
    requires AllLegal(ds)
    decreases |ds|
  {
    ds == [] ||
    var got, now := h + Arrived(ds[0]), sent + {Asked(ds[0])};
    !RunsStranger(now, got) && (Ends(Ran(got)) || NoStranger(now, Head(got), ds[1..]))
  }

  /** For every conversation and every fault in it: exactly when nothing runs that was not sent. */
  lemma {:induction false} OnlySentExactly(sent: set<seq<byte>>, h: seq<byte>, ds: seq<Delivery>)
    requires AllLegal(ds)
    ensures OnlySent(sent, h, ds) <==> NoStranger(sent, h, ds)
    decreases |ds|
  {
    hide RunsStranger, AllIn, Ran, Asked, Arrived, Legal;
    if ds != [] {
      var got, now := h + Arrived(ds[0]), sent + {Asked(ds[0])};
      StrangerExactly(now, got);
      OnlySentExactly(now, Head(got), ds[1..]);
    }
  }

  function AskedIn(ds: seq<Delivery>): set<seq<byte>> {
    if ds == [] then {} else {Asked(ds[0])} + AskedIn(ds[1..])
  }

  lemma {:induction false} OnlySentMeans(sent: set<seq<byte>>, h: seq<byte>, ds: seq<Delivery>)
    requires AllLegal(ds) && OnlySent(sent, h, ds)
    ensures AllIn(RanBy(h, ds), sent + AskedIn(ds))
    decreases |ds|
  {
    hide Ran, Asked, Arrived, Legal;
    if ds != [] {
      var got, now := h + Arrived(ds[0]), sent + {Asked(ds[0])};
      if !Ends(Ran(got)) {
        OnlySentMeans(now, Head(got), ds[1..]);
        assert now + AskedIn(ds[1..]) == sent + AskedIn(ds);
      }
    }
  }

  // ------------------------------------------------------------- nothing is cut

  predicate Uncut(d: Delivery) {
    d.choice.cut.None? && Spares(d.choice)
  }

  /** What becomes of a request that is not cut. */
  function Copies(d: Delivery): (r: seq<seq<byte>>)
    requires |d.param| <= 256
    ensures Frames(r)
  {
    SendIsFrame(d.cmd, d.addr, d.param);
    if d.choice.drop || d.choice.flip.Some? then []
    else if d.choice.twice then [Asked(d), Asked(d)]
    else [Asked(d)]
  }

  function AllCopies(ds: seq<Delivery>): (r: seq<seq<byte>>)
    requires AllLegal(ds)
    ensures Frames(r)
  {
    if ds == [] then [] else Copies(ds[0]) + AllCopies(ds[1..])
  }

  lemma UncutDelivery(d: Delivery)
    requires Legal(d) && Uncut(d)
    ensures FramesIn(Arrived(d)) == Copies(d) && Head(Arrived(d)) == []
  {
    hide Send, FramesIn, Head, Delivered, CheckPasses;
    SendIsFrame(d.cmd, d.addr, d.param);
    if d.choice.drop {
      DeliveredIs(Asked(d), d.choice);
      NothingIn();
    } else {
      UncutFrames(Asked(d), d.choice);
    }
  }

  /**
   While nothing is cut, whatever is dropped, flipped and repeated: the requests that got
   through are run once or twice each, in the order they were sent, up to an exit, and
   nothing else is.
   */
  lemma {:induction false} UncutConversation(sent: set<seq<byte>>, ds: seq<Delivery>)
    requires AllLegal(ds) && forall k :: 0 <= k < |ds| ==> Uncut(ds[k])
    ensures RanBy([], ds) == UntilExit(AllCopies(ds))
    ensures OnlySent(sent, [], ds)
    decreases |ds|
  {
    hide FramesIn, Head, Arrived, Asked, Uncut, Possible, Copies, UntilExit, AllIn;
    if ds == [] {
      NothingUntilExit();
    } else {
      assert [] + Arrived(ds[0]) == Arrived(ds[0]);
      UncutDelivery(ds[0]);
      CopiesSent(ds[0], sent);
      UntilExitAppend(Copies(ds[0]), AllCopies(ds[1..]));
      UncutConversation(sent + {Asked(ds[0])}, ds[1..]);
    }
  }

  lemma CopiesSent(d: Delivery, sent: set<seq<byte>>)
    requires |d.param| <= 256
    ensures AllIn(UntilExit(Copies(d)), sent + {Asked(d)})
  {
    hide Send, AllIn, UntilExit;
    SendIsFrame(d.cmd, d.addr, d.param);
    CopiesOnly(Asked(d));
    SentBefore(UntilExit(Copies(d)), {Asked(d)}, sent);
  }

  lemma SentBefore(frames: seq<seq<byte>>, now: set<seq<byte>>, before: set<seq<byte>>)
    requires AllIn(frames, now)
    ensures AllIn(frames, before + now)
  {}

  lemma NothingUntilExit()
    ensures Frames([]) && UntilExit([]) == []
  {}

  lemma {:induction false} UntilExitAppend(a: seq<seq<byte>>, b: seq<seq<byte>>)
    requires Frames(a) && Frames(b)
    ensures Frames(a + b)
    ensures UntilExit(a + b) == if Ends(UntilExit(a)) then UntilExit(a) else UntilExit(a) + UntilExit(b)
    decreases |a|
  {
    hide UntilExit, Ends;
    if a == [] {
      assert a + b == b && [] + UntilExit(b) == UntilExit(b);
      NothingUntilExit();
      NothingEnds();
    } else {
      var first, rest := a[0], a[1..];
      Regrouped([first], rest, b);
      assert a == [first] + rest;
      UntilExitAppend(rest, b);
      UntilExitFront(first, rest);
      UntilExitFront(first, rest + b);
      EndsBehind(first, UntilExit(rest));
      OneEnds(first);
      Regrouped([first], UntilExit(rest), UntilExit(b));
    }
  }

  lemma NothingEnds()
    ensures Frames([]) && !Ends([])
  {}

  lemma OneEnds(first: seq<byte>)
    requires IsFrame(first)
    ensures Frames([first]) && (Ends([first]) <==> first[1] == INTERFACE_EXIT)
  {}

  lemma EndsBehind(first: seq<byte>, rest: seq<seq<byte>>)
    requires IsFrame(first) && Frames(rest)
    ensures Frames([first] + rest)
    ensures first[1] != INTERFACE_EXIT ==> (Ends([first] + rest) <==> Ends(rest))
  {
    assert rest != [] ==> ([first] + rest)[|rest|] == rest[|rest| - 1];
  }
}
