/**
 What the host is told when its requests complete: how long each completion is, which come
 short, and in which order bulk IN requests are served.
 */
module UsbipCompletions {
  import opened Bytes
  import opened UsbipDevice
  import opened UsbipSession

  // -------------------------------------------------------- every completion

  /** What a completion must be, by what was asked. */
  predicate CompletionRight(kind: Option<Kind>, m: Message) {
    m.RetSubmit? && kind.Some? &&
    match kind.value
    case BulkIn(asked) => m.status == 0 && m.actual == |m.data| <= asked
    case BulkOut(brought) => m.status == 0 && m.actual == brought && m.data == []
    case Interrupt => false
    case ControlPipe(toHost, brought) =>
      && (m.status == 0 || (m.status == -32 && m.data == []))
      && m.actual == if toHost then |m.data| else brought
    case Unknown => m.status == -32 && m.actual == 0 && m.data == []
  }

  predicate AllRight(trace: seq<Entry>) {
    trace == [] ||
    var before, last := trace[..|trace| - 1], trace[|trace| - 1];
    AllRight(before) && (last.Answered? ==> CompletionRight(KindOf(before, last.message.seqnum), last.message))
  }

  lemma RightMore(trace: seq<Entry>, e: Entry)
    requires AllRight(trace)
    requires e.Answered? ==> CompletionRight(KindOf(trace, e.message.seqnum), e.message)
    ensures AllRight(trace + [e])
  {
    Snoc(trace, e);
  }

  lemma RightLog(w: World, d: Device, sent: seq<Message>)
    requires AllRight(w.trace) && |sent| <= 1
    requires sent != [] ==> CompletionRight(KindOf(w.trace, sent[0].seqnum), sent[0])
    ensures AllRight(Log(w, d, sent).trace)
  {
    hide AllRight, CompletionRight, KindOf;
    if sent == [] {
      assert w.trace + [] == w.trace;
    } else {
      RightMore(w.trace, Answered(sent[0]));
    }
  }

  lemma RightSubmit(w: World, n: nat, kind: Kind)
    requires AllRight(w.trace)
    ensures AllRight(Submit(w, n, kind).trace) && KindOf(Submit(w, n, kind).trace, n) == Some(kind)
  {
    hide AllRight, KindOf, CompletionRight;
    RightMore(w.trace, Submitted(n, kind));
    SubmitEffect(w, n, kind, n);
  }

  lemma ControlReply(descriptors: Descriptors, line: seq<byte>, setup: SetupPacket, data: seq<byte>)
    ensures var (status, reply) := Control(descriptors, line, setup, data).0;
            status == 0 || (status == -32 && reply == [])
  {}

  lemma NextRight(l: Limits, w: World, step: Step)
    requires KindsKnown(w) && AllRight(w.trace)
    ensures AllRight(Next(l, w, step).trace)
  {
    hide KindOf, AllRight, Control;
    if Enabled(w, step) {
      match step
      case WriteCall(data) => RightMore(w.trace, Wrote(data));
      case WriterTurn =>
        var t := WriteTurn(w.device, w.rest);
        if w.device.pending != [] {
          assert w.device.pending[0] in w.device.pending;
        }
        RightLog(w.(rest := t.rest), t.device, t.sent);
      case SubmitBulkIn(n, length) =>
        var (d, sent) := SubmitIn(w.device, Urb(n, length));
        RightSubmit(w, n, BulkIn(length));
        RightLog(Submit(w, n, BulkIn(length)), d, sent);
      case SubmitInterrupt(n) => RightSubmit(w, n, Interrupt);
      case SubmitBulkOut(n, data) => RightSubmit(w, n, BulkOut(|data|));
      case AckBulkOut =>
        RightLog(w.(acking := None), w.device, AckOut(w.device, w.acking.value.0, w.acking.value.1));
      case SubmitControlTransfer(n, toHost, setup, data) =>
        var (d, sent) := SubmitControl(l.descriptors, w.device, n, toHost, setup, data);
        ControlReply(l.descriptors, w.device.lineCoding, setup, data);
        RightSubmit(w, n, ControlPipe(toHost, |data|));
        RightLog(Submit(w, n, ControlPipe(toHost, |data|)), d, sent);
      case SubmitUnknown(n) =>
        RightSubmit(w, n, Unknown);
        RightLog(Submit(w, n, Unknown), w.device, Sent(w.device, RetSubmit(n, ST_STALL, 0, [])));
      case UnlinkRequest(_, victim) => RightMore(w.trace, Unlinked(victim, Unlink(w.device, 0, victim).1));
      case Attach => RightStart(w.device.txHeld + w.rest);
      case _ =>
    }
  }

  lemma RightStart(held: seq<byte>)
    ensures AllRight([Began(held)])
  {
    RightMore([], Began(held));
    assert [] + [Began(held)] == [Began(held)];
  }

  /**
   In every run, every completion fits its request: a read brings at most what was asked and
   says how much, a write is acknowledged in full, and an interrupt request gets none.
   */
  lemma {:induction false} CompletionsRight(l: Limits, steps: seq<Step>)
    ensures AllRight(Run(l, steps).trace)
  {
    hide Next, AllRight;
    if steps == [] {
      NothingRight();
    } else {
      var w, step := Run(l, steps[..|steps| - 1]), steps[|steps| - 1];
      CompletionsRight(l, steps[..|steps| - 1]);
      RunKeepsAll(l, steps[..|steps| - 1]);
      NextRight(l, w, step);
    }
  }

  lemma NothingRight()
    ensures AllRight([])
  {}

  /** Read off at any place of a run. */
  lemma {:induction false} RightAt(trace: seq<Entry>, k: nat)
    requires AllRight(trace) && k < |trace| && trace[k].Answered?
    ensures CompletionRight(KindOf(trace[..k], trace[k].message.seqnum), trace[k].message)
    decreases |trace|
  {
    hide KindOf, CompletionRight;
    if k < |trace| - 1 {
      RightAt(trace[..|trace| - 1], k);
      assert trace[..|trace| - 1][..k] == trace[..k];
    }
  }

  // --------------------------------------------------------- short completions

  /** Where a bulk IN request completes in a step: with how many of how many bytes. */
  function Completed(w: World, step: Step): Option<(nat, nat)> {
    if !Enabled(w, step) || !w.device.live then None
    else
      match step
      case WriterTurn =>
        if w.device.pending == [] then None else Some((w.device.pending[0].length, |w.rest|))
      case SubmitBulkIn(_, length) =>
        if w.device.txHeld == [] then None else Some((length, |w.device.txHeld|))
      case _ => None
  }

  /**
   A step completes a bulk IN request exactly when one waits for the writer's bytes, or
   bytes wait for it; it then carries what was asked or, if there is less, all there is.
   */
  lemma CompletesExactly(l: Limits, w: World, step: Step)
    requires Queues(w) && KindsKnown(w) && !step.Attach?
    ensures var after := Next(l, w, step);
            match Completed(w, step)
            case Some((asked, there)) =>
              && after.trace != [] && var last := after.trace[|after.trace| - 1];
              && last.Answered? && last.message.RetSubmit?
              && KindOf(after.trace, last.message.seqnum) == Some(BulkIn(asked))
              && |last.message.data| == (if asked < there then asked else there)
            case None => Delivered(after.trace) == Delivered(w.trace)
  {
    hide KindOf, Delivered, Offered, Control;
    match step
    case WriterTurn =>
      if Enabled(w, step) {
        var t := WriteTurn(w.device, w.rest);
        if w.device.pending != [] {
          assert w.device.pending[0] in w.device.pending;
          LogEffect(w.(rest := t.rest), t.device, t.sent, w.device.pending[0].seqnum);
        } else {
          LogBytes(w.(rest := t.rest), t.device, t.sent);
        }
      }
    case SubmitBulkIn(n, length) =>
      if Enabled(w, step) {
        var (d, sent) := SubmitIn(w.device, Urb(n, length));
        SubmitEffect(w, n, BulkIn(length), n);
        LogEffect(Submit(w, n, BulkIn(length)), d, sent, n);
        LogBytes(Submit(w, n, BulkIn(length)), d, sent);
      }
    case _ => DeliversNothing(l, w, step);
  }

  lemma DeliversNothing(l: Limits, w: World, step: Step)
    requires KindsKnown(w) && !step.WriterTurn? && !step.SubmitBulkIn? && !step.Attach?
    ensures Delivered(Next(l, w, step).trace) == Delivered(w.trace)
  {
    hide KindOf, Delivered, Offered, Control, KindsKnown;
    if Enabled(w, step) {
      match step
      case WriteCall(data) => OneMoreByte(w.trace, Wrote(data));
      case SubmitInterrupt(n) => SubmitEffect(w, n, Interrupt, n);
      case SubmitBulkOut(n, data) => SubmitEffect(w, n, BulkOut(|data|), n);
      case AckBulkOut =>
        AckKind(w);
        LogBytes(w.(acking := None), w.device, AckOut(w.device, w.acking.value.0, w.acking.value.1));
      case SubmitControlTransfer(n, toHost, setup, data) =>
        var (d, sent) := SubmitControl(l.descriptors, w.device, n, toHost, setup, data);
        SubmitEffect(w, n, ControlPipe(toHost, |data|), n);
        LogBytes(Submit(w, n, ControlPipe(toHost, |data|)), d, sent);
      case SubmitUnknown(n) =>
        SubmitEffect(w, n, Unknown, n);
        LogBytes(Submit(w, n, Unknown), w.device, Sent(w.device, RetSubmit(n, ST_STALL, 0, [])));
      case UnlinkRequest(_, victim) =>
        OneMoreByte(w.trace, Unlinked(victim, Unlink(w.device, 0, victim).1));
      case _ =>
    }
  }

  /**
   After a short completion nothing is held, and nothing is unsent either: except exactly
   where a new request takes the held bytes while the writer still has some to hand over.
   */
  lemma ShortLeavesNothing(l: Limits, steps: seq<Step>, step: Step)
    requires var done := Completed(Run(l, steps), step); done.Some? && done.value.1 < done.value.0
    ensures var after := Run(l, steps + [step]);
            && after.device.txHeld == []
            && (after.rest != [] <==> step.SubmitBulkIn? && Run(l, steps).rest != [])
  {
    hide KindOf, Control;
    assert (steps + [step])[..|steps|] == steps;
    RunKeepsAll(l, steps);
  }

  /** A short completion with a byte unsent: the writer is between its call and its lock. */
  lemma ShortWithUnsent(l: Limits)
    ensures var steps := [Attach] + [WriteCall([1])] + [WriterTurn] + [WriteCall([2])];
            && Completed(Run(l, steps), SubmitBulkIn(5, 2)) == Some((2, 1))
            && Run(l, steps + [SubmitBulkIn(5, 2)]).rest == [2]
  {
    hide Control, KindOf, Run;
    BeforeShort(l);
    var w5 := Stepped(l, [Attach] + [WriteCall([1])] + [WriterTurn] + [WriteCall([2])], SubmitBulkIn(5, 2));
  }

  lemma BeforeShort(l: Limits)
    ensures var w := Run(l, [Attach] + [WriteCall([1])] + [WriterTurn] + [WriteCall([2])]);
            && w.device.live && w.device.pending == [] && w.device.txHeld == [1] && w.rest == [2]
            && w.acking.None? && KindOf(w.trace, 5) == None
  {
    hide Control, KindOf, Run;
    RunNothing(l);
    var w1 := Stepped(l, [], Attach);
    var none: seq<byte> := [];
    assert none + none == none && [] + [Attach] == [Attach];
    assert w1.trace == [] + [Began([])];
    OneMore([], Began([]), 5);
    NoKind(5);
    var w2 := Stepped(l, [Attach], WriteCall([1]));
    OneMore(w1.trace, Wrote([1]), 5);
    var w3 := Stepped(l, [Attach] + [WriteCall([1])], WriterTurn);
    assert w3.trace == w2.trace;
    var w4 := Stepped(l, [Attach] + [WriteCall([1])] + [WriterTurn], WriteCall([2]));
    OneMore(w3.trace, Wrote([2]), 5);
  }

  lemma RunNothing(l: Limits)
    ensures Run(l, []) == START
  {}

  lemma NoKind(k: nat)
    ensures KindOf([], k) == None
  {}

  lemma Stepped(l: Limits, steps: seq<Step>, step: Step) returns (w: World)
    ensures w == Run(l, steps + [step]) == Next(l, Run(l, steps), step)
  {
    assert (steps + [step])[..|steps|] == steps;
    w := Run(l, steps + [step]);
  }

  // ------------------------------------------------------------------- order

  function Without(s: seq<nat>, k: nat): seq<nat> {
    if s == [] then [] else (if s[0] == k then [] else [s[0]]) + Without(s[1..], k)
  }

  /** The bulk IN requests submitted and not unlinked in time, in order. */
  function Asked(trace: seq<Entry>): seq<nat> {
    if trace == [] then []
    else
      var before, last := Asked(trace[..|trace| - 1]), trace[|trace| - 1];
      match last
      case Submitted(k, BulkIn(_)) => before + [k]
      case Unlinked(k, status) => if status == -104 then Without(before, k) else before
      case _ => before
  }

  /** The bulk IN requests completed, in order. */
  function Served(trace: seq<Entry>): seq<nat> {
    if trace == [] then []
    else
      var init, last := trace[..|trace| - 1], trace[|trace| - 1];
      Served(init) +
      if last.Answered? && last.message.RetSubmit? && IsBulkIn(KindOf(init, last.message.seqnum))
      then [last.message.seqnum] else []
  }

  function Numbers(pending: seq<Urb>): seq<nat> {
    if pending == [] then [] else [pending[0].seqnum] + Numbers(pending[1..])
  }

  /** While attached, those served and those waiting are all that were asked for, in that order. */
  predicate InOrder(w: World) {
    && Served(w.trace) <= Asked(w.trace)
    && (w.device.live ==> Asked(w.trace) == Served(w.trace) + Numbers(w.device.pending))
  }

  lemma OrderMore(trace: seq<Entry>, e: Entry)
    ensures Asked(trace + [e]) ==
            if e.Submitted? && e.kind.BulkIn? then Asked(trace) + [e.seqnum]
            else if e.Unlinked? && e.status == -104 then Without(Asked(trace), e.victim)
            else Asked(trace)
    ensures Served(trace + [e]) ==
            if e.Answered? && e.message.RetSubmit? && IsBulkIn(KindOf(trace, e.message.seqnum))
            then Served(trace) + [e.message.seqnum] else Served(trace)
  {
    Snoc(trace, e);
    assert Served(trace) + [] == Served(trace);
  }

  lemma OrderLog(w: World, d: Device, sent: seq<Message>)
    requires |sent| <= 1
    ensures var t := Log(w, d, sent).trace;
            && Asked(t) == Asked(w.trace)
            && Served(t) == if sent != [] && sent[0].RetSubmit? && IsBulkIn(KindOf(w.trace, sent[0].seqnum))
                            then Served(w.trace) + [sent[0].seqnum] else Served(w.trace)
  {
    hide KindOf, Asked, Served;
    if sent == [] {
      assert w.trace + [] == w.trace;
    } else {
      OrderMore(w.trace, Answered(sent[0]));
    }
  }

  lemma OrderSubmit(w: World, n: nat, kind: Kind)
    ensures var t := Submit(w, n, kind).trace;
            && Asked(t) == (if kind.BulkIn? then Asked(w.trace) + [n] else Asked(w.trace))
            && Served(t) == Served(w.trace) && KindOf(t, n) == Some(kind)
  {
    hide KindOf, Asked, Served;
    OrderMore(w.trace, Submitted(n, kind));
    SubmitEffect(w, n, kind, n);
  }

  lemma {:induction false} NumbersAppend(a: seq<Urb>, b: seq<Urb>)
    ensures Numbers(a + b) == Numbers(a) + Numbers(b)
  {
    if a == [] {
      assert a + b == b;
    } else {
      assert (a + b)[1..] == a[1..] + b;
      NumbersAppend(a[1..], b);
    }
  }

  lemma {:induction false} WithoutAppend(a: seq<nat>, b: seq<nat>, k: nat)
    ensures Without(a + b, k) == Without(a, k) + Without(b, k)
  {
    if a == [] {
      assert a + b == b;
    } else {
      assert (a + b)[1..] == a[1..] + b;
      WithoutAppend(a[1..], b, k);
    }
  }

  lemma {:induction false} WithoutNone(s: seq<nat>, k: nat)
    requires k !in s
    ensures Without(s, k) == s
  {
    if s != [] {
      WithoutNone(s[1..], k);
      assert s == [s[0]] + s[1..];
    }
  }

  lemma {:induction false} NotCounted(p: seq<Urb>, k: nat)
    requires CountUrbs(p, k) == 0
    ensures k !in Numbers(p)
  {
    if p != [] {
      NotCounted(p[1..], k);
    }
  }

  lemma {:induction false} ServedCounted(trace: seq<Entry>, k: nat)
    requires Completions(trace, k) == 0
    ensures k !in Served(trace)
  {
    hide KindOf;
    if trace != [] {
      ServedCounted(trace[..|trace| - 1], k);
    }
  }

  /** Removing the one waiting request of a number. */
  lemma NumbersWithout(p: seq<Urb>, i: nat, k: nat)
    requires i < |p| && p[i].seqnum == k && CountUrbs(p, k) == 1
    ensures Without(Numbers(p), k) == Numbers(p[..i] + p[i + 1..])
  {
    hide CountUrbs;
    CountUrbsRemoved(p, i, k);
    NotCounted(p[..i] + p[i + 1..], k);
    assert p == p[..i] + ([p[i]] + p[i + 1..]);
    NumbersAppend(p[..i], [p[i]] + p[i + 1..]);
    NumbersAppend([p[i]], p[i + 1..]);
    NumbersAppend(p[..i], p[i + 1..]);
    OneNumber(p[i]);
    WithoutAppend(Numbers(p[..i]), [k] + Numbers(p[i + 1..]), k);
    WithoutAppend([k], Numbers(p[i + 1..]), k);
    WithoutNone(Numbers(p[..i]), k);
    WithoutNone(Numbers(p[i + 1..]), k);
    WithoutSelf(k);
  }

  lemma OneNumber(u: Urb)
    ensures Numbers([u]) == [u.seqnum]
  {
    assert [u][1..] == [];
  }

  lemma WithoutSelf(k: nat)
    ensures forall s :: Without([k], k) + s == s
  {
    assert [k][1..] == [];
  }

  lemma UnlinkOrder(l: Limits, w: World, seqnum: nat, victim: nat)
    requires Queues(w) && KindsKnown(w) && OneFate(w, victim) && InOrder(w)
    requires Enabled(w, UnlinkRequest(seqnum, victim))
    ensures InOrder(Next(l, w, UnlinkRequest(seqnum, victim)))
  {
    hide KindOf, Completions, Removals, CountUrbs, CountNats, Asked, Served, Numbers, Without, Queues;
    var i, j := IndexOfUrb(w.device.pending, victim), IndexOfNat(w.device.intr, victim);
    OrderMore(w.trace, Unlinked(victim, Unlink(w.device, 0, victim).1));
    UrbsCounted(w.device.pending, victim);
    NatsCounted(w.device.intr, victim);
    if i < |w.device.pending| || j < |w.device.intr| {
      if i < |w.device.pending| {
        assert w.device.pending[i] in w.device.pending;
      } else {
        assert w.device.intr[j] in w.device.intr;
      }
      ServedCounted(w.trace, victim);
      WithoutAppend(Served(w.trace), Numbers(w.device.pending), victim);
      WithoutNone(Served(w.trace), victim);
      if i < |w.device.pending| {
        NumbersWithout(w.device.pending, i, victim);
      } else {
        NotCounted(w.device.pending, victim);
        WithoutNone(Numbers(w.device.pending), victim);
      }
    }
  }

  lemma NextOrder(l: Limits, w: World, step: Step)
    requires Inv(l, w) && InOrder(w)
    ensures InOrder(Next(l, w, step))
  {
    hide KindOf, Control, Asked, Served, Numbers, Completions, Removals, Offered, Delivered, CountUrbs, CountNats;
    if Enabled(w, step) {
      match step
      case WriteCall(data) => OrderMore(w.trace, Wrote(data));
      case WriterTurn => WriterOrder(l, w);
      case SubmitBulkIn(n, length) => SubmitInOrder(l, w, n, length);
      case SubmitInterrupt(n) => OrderSubmit(w, n, Interrupt);
      case SubmitBulkOut(n, data) => OrderSubmit(w, n, BulkOut(|data|));
      case AckBulkOut =>
        OrderLog(w.(acking := None), w.device, AckOut(w.device, w.acking.value.0, w.acking.value.1));
      case SubmitControlTransfer(n, toHost, setup, data) =>
        var (d, sent) := SubmitControl(l.descriptors, w.device, n, toHost, setup, data);
        OrderSubmit(w, n, ControlPipe(toHost, |data|));
        OrderLog(Submit(w, n, ControlPipe(toHost, |data|)), d, sent);
      case SubmitUnknown(n) =>
        OrderSubmit(w, n, Unknown);
        OrderLog(Submit(w, n, Unknown), w.device, Sent(w.device, RetSubmit(n, ST_STALL, 0, [])));
      case UnlinkRequest(seqnum, victim) =>
        assert OneFate(w, victim);
        UnlinkOrder(l, w, seqnum, victim);
      case Attach => AttachOrder(l, w);
      case _ =>
    }
  }

  lemma WriterOrder(l: Limits, w: World)
    requires Queues(w) && KindsKnown(w) && InOrder(w) && Enabled(w, WriterTurn)
    ensures InOrder(Next(l, w, WriterTurn))
  {
    hide KindOf, Asked, Served;
    var t := WriteTurn(w.device, w.rest);
    OrderLog(w.(rest := t.rest), t.device, t.sent);
    if w.device.pending != [] {
      assert w.device.pending[0] in w.device.pending;
      assert Served(w.trace) + Numbers(w.device.pending) ==
             Served(w.trace) + [w.device.pending[0].seqnum] + Numbers(w.device.pending[1..]);
    }
  }

  lemma SubmitInOrder(l: Limits, w: World, n: nat, length: nat)
    requires Queues(w) && InOrder(w) && Enabled(w, SubmitBulkIn(n, length))
    ensures InOrder(Next(l, w, SubmitBulkIn(n, length)))
  {
    hide KindOf, Asked, Served;
    var (d, sent) := SubmitIn(w.device, Urb(n, length));
    OrderSubmit(w, n, BulkIn(length));
    OrderLog(Submit(w, n, BulkIn(length)), d, sent);
    NumbersAppend(w.device.pending, [Urb(n, length)]);
    OneNumber(Urb(n, length));
    assert Served(w.trace) + (Numbers(w.device.pending) + [n]) == Served(w.trace) + Numbers(w.device.pending) + [n];
  }

  lemma AttachOrder(l: Limits, w: World)
    requires Queues(w) && Enabled(w, Attach)
    ensures InOrder(Next(l, w, Attach))
  {
    OrderMore([], Began(w.device.txHeld + w.rest));
    assert [] + [Began(w.device.txHeld + w.rest)] == [Began(w.device.txHeld + w.rest)];
  }

  /**
   In every run bulk IN requests are served in the order they came: those completed are the
   first of those submitted and not unlinked, and while the host is attached the others wait.
   */
  lemma {:induction false} FirstComeFirstServed(l: Limits, steps: seq<Step>)
    ensures InOrder(Run(l, steps))
  {
    hide Next, Inv, InOrder;
    if steps == [] {
      NothingInOrder();
    } else {
      FirstComeFirstServed(l, steps[..|steps| - 1]);
      RunKeepsAll(l, steps[..|steps| - 1]);
      NextOrder(l, Run(l, steps[..|steps| - 1]), steps[|steps| - 1]);
    }
  }

  lemma NothingInOrder()
    ensures InOrder(START)
  {}

  // ---------------------------------------------------------- between sessions

  /**
   The bytes a host that attaches next is to get: what the writer still had in hand when the
   last one left, and what was written since. Held bytes do not outlive a session.
   */
  function WrittenSince(l: Limits, steps: seq<Step>): seq<byte> {
    if steps == [] then []
    else
      var before, step := steps[..|steps| - 1], steps[|steps| - 1];
      var w := Run(l, before);
      if !Enabled(w, step) then WrittenSince(l, before)
      else if step.Detach? then w.rest
      else if step.WriteCall? && !w.device.live then WrittenSince(l, before) + step.data
      else WrittenSince(l, before)
  }

  lemma {:induction false} AwayKept(l: Limits, steps: seq<Step>)
    ensures var w := Run(l, steps); !w.device.live ==> w.device.txHeld + w.rest == WrittenSince(l, steps)
  {
    hide Enabled, Next;
    if steps == [] {
    } else {
      var before, step := steps[..|steps| - 1], steps[|steps| - 1];
      AwayKept(l, before);
      RunKeepsAll(l, before);
      AwayStep(l, Run(l, before), step);
    }
  }

  /** One step, seen from a device without a host. */
  lemma AwayStep(l: Limits, w: World, step: Step)
    requires Queues(w)
    ensures var after := Next(l, w, step);
            !after.device.live ==>
              after.device.txHeld + after.rest ==
              if Enabled(w, step) && step.Detach? then w.rest
              else if Enabled(w, step) && step.WriteCall? then w.device.txHeld + w.rest + step.data
              else w.device.txHeld + w.rest
    ensures !Next(l, w, step).device.live && w.device.live ==> Enabled(w, step) && step.Detach?
  {
    hide KindOf, Control;
  }

  /** A session begins with exactly those bytes to deliver. */
  lemma AttachBegins(l: Limits, steps: seq<Step>)
    requires Enabled(Run(l, steps), Attach)
    ensures Run(l, steps + [Attach]).trace == [Began(WrittenSince(l, steps))]
  {
    hide KindOf;
    assert (steps + [Attach])[..|steps|] == steps;
    AwayKept(l, steps);
  }
}
