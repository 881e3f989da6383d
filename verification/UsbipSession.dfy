/**
 The USB/IP device under every interleaving of its writer, its session thread and its
 reader, one lock section at a time. The trace records what happened since the host attached.
 */
module UsbipSession {
  import opened Bytes
  import opened UsbipDevice

  /** What a request asks for: how many bytes to the host at most, or how many it brings. */
  datatype Kind =
    | BulkIn(asked: nat)
    | BulkOut(brought: nat)
    | Interrupt
    | ControlPipe(toHost: bool, brought: nat)
    | Unknown

  predicate IsBulkIn(kind: Option<Kind>) {
    kind.Some? && kind.value.BulkIn?
  }

  datatype Entry =
    | Began(held: seq<byte>)
    | Wrote(data: seq<byte>)
    | Submitted(seqnum: nat, kind: Kind)
    | Answered(message: Message)
    | Unlinked(victim: nat, status: int)

  /**
   rest is what the writer's current call has not yet handed over; acking is the bulk
   OUT request between its receive and its completion, which use different locks.
   taken and accepted are the bytes the reader got and those the device kept for it.
   */
  datatype World = World(
    device: Device, rest: seq<byte>, acking: Option<(nat, nat)>, trace: seq<Entry>,
    taken: seq<byte>, accepted: seq<byte>)

  datatype Step =
    | WriteCall(data: seq<byte>)
    | WriterTurn
    | SubmitBulkIn(seqnum: nat, length: nat)
    | SubmitInterrupt(seqnum: nat)
    | SubmitBulkOut(seqnum: nat, data: seq<byte>)
    | AckBulkOut
    | SubmitControlTransfer(seqnum: nat, toHost: bool, setup: SetupPacket, data: seq<byte>)
    | SubmitUnknown(seqnum: nat)
    | UnlinkRequest(seqnum: nat, victim: nat)
    | HostRead
    | Attach
    | Detach

  datatype Limits = Limits(rxMax: nat, descriptors: Descriptors)

  // -------------------------------------------------------- reading a trace

  function KindOf(trace: seq<Entry>, k: nat): Option<Kind> {
    if trace == [] then None
    else
      var last := trace[|trace| - 1];
      if last.Submitted? && last.seqnum == k then Some(last.kind) else KindOf(trace[..|trace| - 1], k)
  }

  predicate Answers(e: Entry, k: nat) {
    e.Answered? && e.message.RetSubmit? && e.message.seqnum == k
  }

  function Completions(trace: seq<Entry>, k: nat): nat {
    if trace == [] then 0
    else (if Answers(trace[|trace| - 1], k) then 1 else 0) + Completions(trace[..|trace| - 1], k)
  }

  function Removals(trace: seq<Entry>, k: nat): nat {
    if trace == [] then 0
    else (if trace[|trace| - 1] == Unlinked(k, ST_UNLINKED) then 1 else 0) + Removals(trace[..|trace| - 1], k)
  }

  /** The bytes waiting when the host attached, and all those written since. */
  function Offered(trace: seq<Entry>): seq<byte> {
    if trace == [] then []
    else
      Offered(trace[..|trace| - 1]) +
      (match trace[|trace| - 1]
       case Began(held) => held
       case Wrote(data) => data
       case _ => [])
  }

  /** The payloads of the completed bulk IN requests. */
  function Delivered(trace: seq<Entry>): seq<byte> {
    if trace == [] then []
    else
      var before := trace[..|trace| - 1];
      Delivered(before) +
      (match trace[|trace| - 1]
       case Answered(RetSubmit(k, _, _, data)) => if IsBulkIn(KindOf(before, k)) then data else []
       case _ => [])
  }

  lemma Snoc(trace: seq<Entry>, e: Entry)
    ensures var t := trace + [e]; t != [] && t[..|t| - 1] == trace && t[|t| - 1] == e
  {}

  // -------------------------------------------------------------- the machine

  predicate Free(w: World, k: nat) {
    w.device.live && w.acking.None? && KindOf(w.trace, k).None?
  }

  /** What the threads may do next: one writer, one session thread, fresh request numbers. */
  predicate Enabled(w: World, step: Step) {
    match step
    case WriteCall(_) => w.rest == []
    case WriterTurn => w.rest != []
    case SubmitBulkIn(k, _) => Free(w, k)
    case SubmitInterrupt(k) => Free(w, k)
    case SubmitBulkOut(k, _) => Free(w, k)
    case AckBulkOut => w.acking.Some?
    case SubmitControlTransfer(k, _, _, _) => Free(w, k)
    case SubmitUnknown(k) => Free(w, k)
    case UnlinkRequest(_, _) => w.device.live && w.acking.None?
    case HostRead => true
    case Attach => !w.device.live
    case Detach => w.device.live && w.acking.None?
  }

  function Log(w: World, d: Device, sent: seq<Message>): World {
    w.(device := d, trace := w.trace + if sent == [] then [] else [Answered(sent[0])])
  }

  function Submit(w: World, k: nat, kind: Kind): World {
    w.(trace := w.trace + [Submitted(k, kind)])
  }

  function Next(l: Limits, w: World, step: Step): World {
    if !Enabled(w, step) then w
    else
      match step
      case WriteCall(data) => w.(rest := data, trace := w.trace + [Wrote(data)])
      case WriterTurn =>
        var t := WriteTurn(w.device, w.rest);
        Log(w.(rest := t.rest), t.device, t.sent)
      case SubmitBulkIn(k, length) =>
        var (d, sent) := SubmitIn(w.device, Urb(k, length));
        Log(Submit(w, k, BulkIn(length)), d, sent)
      case SubmitInterrupt(k) => Submit(w, k, Interrupt).(device := SubmitIntr(w.device, k))
      case SubmitBulkOut(k, data) =>
        var d := ReceiveOut(w.device, l.rxMax, data);
        Submit(w, k, BulkOut(|data|)).(
          device := d, acking := Some((k, |data|)),
          accepted := w.accepted + if |w.device.rx| + |data| <= l.rxMax then data else [])
      case AckBulkOut =>
        Log(w.(acking := None), w.device, AckOut(w.device, w.acking.value.0, w.acking.value.1))
      case SubmitControlTransfer(k, toHost, setup, data) =>
        var (d, sent) := SubmitControl(l.descriptors, w.device, k, toHost, setup, data);
        Log(Submit(w, k, ControlPipe(toHost, |data|)), d, sent)
      case SubmitUnknown(k) =>
        Log(Submit(w, k, Unknown), w.device, Sent(w.device, RetSubmit(k, ST_STALL, 0, [])))
      case UnlinkRequest(_, victim) =>
        var (d, status, _) := Unlink(w.device, 0, victim);
        w.(device := d, trace := w.trace + [Unlinked(victim, status)])
      case HostRead => w.(device := w.device.(rx := []), taken := w.taken + w.device.rx)
      case Attach =>
        w.(device := Attached(w.device), trace := [Began(w.device.txHeld + w.rest)])
      case Detach => w.(device := Detached(w.device))
  }

  const START := World(Device([], [], [], [], false, DEFAULT_LINE), [], None, [], [], [])

  function Run(l: Limits, steps: seq<Step>): World {
    if steps == [] then START else Next(l, Run(l, steps[..|steps| - 1]), steps[|steps| - 1])
  }

  // --------------------------------------------------------------- invariants

  function CountUrbs(pending: seq<Urb>, k: nat): nat {
    if pending == [] then 0 else (if pending[0].seqnum == k then 1 else 0) + CountUrbs(pending[1..], k)
  }

  function CountNats(s: seq<nat>, k: nat): nat {
    if s == [] then 0 else (if s[0] == k then 1 else 0) + CountNats(s[1..], k)
  }

  /** How often a request number waits: in pending, in intr, or for its OUT completion. */
  function Waiting(w: World, k: nat): nat {
    CountUrbs(w.device.pending, k) + CountNats(w.device.intr, k) +
    if w.acking.Some? && w.acking.value.0 == k then 1 else 0
  }

  /** Held bytes and queued requests never meet, and queues exist only while attached. */
  predicate Queues(w: World) {
    && (w.device.txHeld != [] ==> w.device.pending == [])
    && (!w.device.live ==> w.device.pending == [] && w.device.intr == [] && w.acking.None?)
  }

  predicate KindsKnown(w: World) {
    && (forall u :: u in w.device.pending ==> KindOf(w.trace, u.seqnum) == Some(BulkIn(u.length)))
    && (forall k :: k in w.device.intr ==> KindOf(w.trace, k) == Some(Interrupt))
    && (w.acking.Some? ==> KindOf(w.trace, w.acking.value.0) == Some(BulkOut(w.acking.value.1)))
  }

  /** Delivered, held and unsent bytes together are exactly those offered, in order. */
  predicate StreamKept(w: World) {
    w.device.live ==> Offered(w.trace) == Delivered(w.trace) + w.device.txHeld + w.rest
  }

  /**
   A submitted request is waiting, completed once, or removed once, and only one of
   these; an interrupt request is never completed.
   */
  predicate OneFate(w: World, k: nat) {
    w.device.live ==>
    && Waiting(w, k) + Completions(w.trace, k) + Removals(w.trace, k) ==
       (if KindOf(w.trace, k).Some? then 1 else 0)
    && (KindOf(w.trace, k) == Some(Interrupt) ==> Completions(w.trace, k) == 0)
  }

  predicate Received(l: Limits, w: World) {
    w.accepted == w.taken + w.device.rx && |w.device.rx| <= l.rxMax
  }

  ghost predicate Inv(l: Limits, w: World) {
    && Queues(w) && KindsKnown(w) && StreamKept(w) && Received(l, w)
    && (forall k: nat :: OneFate(w, k))
  }

  // ------------------------------------------------------------ queue counting

  lemma {:induction false} CountUrbsAppend(a: seq<Urb>, b: seq<Urb>, k: nat)
    ensures CountUrbs(a + b, k) == CountUrbs(a, k) + CountUrbs(b, k)
  {
    if a == [] {
      assert a + b == b;
    } else {
      assert (a + b)[1..] == a[1..] + b;
      CountUrbsAppend(a[1..], b, k);
    }
  }

  lemma {:induction false} CountNatsAppend(a: seq<nat>, b: seq<nat>, k: nat)
    ensures CountNats(a + b, k) == CountNats(a, k) + CountNats(b, k)
  {
    if a == [] {
      assert a + b == b;
    } else {
      assert (a + b)[1..] == a[1..] + b;
      CountNatsAppend(a[1..], b, k);
    }
  }

  lemma CountUrbsRemoved(p: seq<Urb>, i: nat, k: nat)
    requires i < |p|
    ensures CountUrbs(p[..i] + p[i + 1..], k) == CountUrbs(p, k) - if p[i].seqnum == k then 1 else 0
  {
    assert p == p[..i] + ([p[i]] + p[i + 1..]);
    assert [p[i]][1..] == [];
    CountUrbsAppend(p[..i], p[i + 1..], k);
    CountUrbsAppend(p[..i], [p[i]] + p[i + 1..], k);
    CountUrbsAppend([p[i]], p[i + 1..], k);
  }

  lemma CountNatsRemoved(s: seq<nat>, i: nat, k: nat)
    requires i < |s|
    ensures CountNats(s[..i] + s[i + 1..], k) == CountNats(s, k) - if s[i] == k then 1 else 0
  {
    assert s == s[..i] + ([s[i]] + s[i + 1..]);
    assert [s[i]][1..] == [];
    CountNatsAppend(s[..i], s[i + 1..], k);
    CountNatsAppend(s[..i], [s[i]] + s[i + 1..], k);
    CountNatsAppend([s[i]], s[i + 1..], k);
  }

  // ------------------------------------------------------------- every step

  /** What one more entry does to everything read off a trace. */
  lemma OneMore(trace: seq<Entry>, e: Entry, k: nat)
    ensures KindOf(trace + [e], k) ==
            if e.Submitted? && e.seqnum == k then Some(e.kind) else KindOf(trace, k)
    ensures Completions(trace + [e], k) == Completions(trace, k) + if Answers(e, k) then 1 else 0
    ensures Removals(trace + [e], k) == Removals(trace, k) + if e == Unlinked(k, ST_UNLINKED) then 1 else 0
  {
    Snoc(trace, e);
  }

  lemma OneMoreByte(trace: seq<Entry>, e: Entry)
    ensures Offered(trace + [e]) ==
            if e.Began? then Offered(trace) + e.held else if e.Wrote? then Offered(trace) + e.data else Offered(trace)
    ensures Delivered(trace + [e]) ==
            if e.Answered? && e.message.RetSubmit? && IsBulkIn(KindOf(trace, e.message.seqnum))
            then Delivered(trace) + e.message.data else Delivered(trace)
  {
    Snoc(trace, e);
    assert Offered(trace) + [] == Offered(trace) && Delivered(trace) + [] == Delivered(trace);
  }

  /** Recording what was sent, if anything was. */
  lemma LogEffect(w: World, d: Device, sent: seq<Message>, k: nat)
    requires |sent| <= 1
    ensures var t := Log(w, d, sent).trace;
            && KindOf(t, k) == KindOf(w.trace, k)
            && Removals(t, k) == Removals(w.trace, k)
            && Completions(t, k) == Completions(w.trace, k) +
               (if sent != [] && Answers(Answered(sent[0]), k) then 1 else 0)
  {
    hide KindOf, Removals, Completions;
    if sent == [] {
      assert w.trace + [] == w.trace;
    } else {
      OneMore(w.trace, Answered(sent[0]), k);
    }
  }

  lemma LogBytes(w: World, d: Device, sent: seq<Message>)
    requires |sent| <= 1
    ensures var t := Log(w, d, sent).trace;
            && Offered(t) == Offered(w.trace)
            && Delivered(t) ==
               if sent != [] && sent[0].RetSubmit? && IsBulkIn(KindOf(w.trace, sent[0].seqnum))
               then Delivered(w.trace) + sent[0].data else Delivered(w.trace)
  {
    hide KindOf, Offered, Delivered;
    if sent == [] {
      assert w.trace + [] == w.trace;
    } else {
      OneMoreByte(w.trace, Answered(sent[0]));
    }
  }

  lemma SubmitEffect(w: World, n: nat, kind: Kind, k: nat)
    ensures var t := Submit(w, n, kind).trace;
            && KindOf(t, k) == (if k == n then Some(kind) else KindOf(w.trace, k))
            && Removals(t, k) == Removals(w.trace, k)
            && Completions(t, k) == Completions(w.trace, k)
            && Offered(t) == Offered(w.trace) && Delivered(t) == Delivered(w.trace)
  {
    hide KindOf, Removals, Completions, Offered, Delivered;
    OneMore(w.trace, Submitted(n, kind), k);
    OneMoreByte(w.trace, Submitted(n, kind));
  }

  lemma NextQueues(l: Limits, w: World, step: Step)
    requires Queues(w)
    ensures Queues(Next(l, w, step))
  {
    hide KindOf, Control;
  }

  /** A submitted request keeps its kind for the rest of the session. */
  lemma KindStable(l: Limits, w: World, step: Step, k: nat)
    requires KindOf(w.trace, k).Some? && !(step.Attach? && Enabled(w, step))
    ensures KindOf(Next(l, w, step).trace, k) == KindOf(w.trace, k)
  {
    hide KindOf, Control, Completions, Removals, Offered, Delivered;
    if Enabled(w, step) {
      match step
      case WriteCall(data) => OneMore(w.trace, Wrote(data), k);
      case WriterTurn =>
        var t := WriteTurn(w.device, w.rest);
        LogEffect(w.(rest := t.rest), t.device, t.sent, k);
      case SubmitBulkIn(n, length) =>
        var (d, sent) := SubmitIn(w.device, Urb(n, length));
        SubmitEffect(w, n, BulkIn(length), k);
        LogEffect(Submit(w, n, BulkIn(length)), d, sent, k);
      case SubmitInterrupt(n) => SubmitEffect(w, n, Interrupt, k);
      case SubmitBulkOut(n, data) => SubmitEffect(w, n, BulkOut(|data|), k);
      case AckBulkOut =>
        LogEffect(w.(acking := None), w.device, AckOut(w.device, w.acking.value.0, w.acking.value.1), k);
      case SubmitControlTransfer(n, toHost, setup, data) =>
        var (d, sent) := SubmitControl(l.descriptors, w.device, n, toHost, setup, data);
        SubmitEffect(w, n, ControlPipe(toHost, |data|), k);
        LogEffect(Submit(w, n, ControlPipe(toHost, |data|)), d, sent, k);
      case SubmitUnknown(n) =>
        SubmitEffect(w, n, Unknown, k);
        LogEffect(Submit(w, n, Unknown), w.device, Sent(w.device, RetSubmit(n, ST_STALL, 0, [])), k);
      case UnlinkRequest(_, victim) =>
        OneMore(w.trace, Unlinked(victim, Unlink(w.device, 0, victim).1), k);
      case _ =>
    }
  }

  lemma NextKinds(l: Limits, w: World, step: Step)
    requires Queues(w) && KindsKnown(w)
    ensures KindsKnown(Next(l, w, step))
  {
    hide KindOf, Control, Queues;
    var after := Next(l, w, step);
    if !Enabled(w, step) {
    } else if step.Attach? {
      AttachKinds(l, w);
    } else {
      forall k: nat | KindOf(w.trace, k).Some?
        ensures KindOf(after.trace, k) == KindOf(w.trace, k)
      {
        KindStable(l, w, step, k);
      }
      NewKind(l, w, step);
      UrbsFrom(l, w, step);
    }
  }

  lemma AttachKinds(l: Limits, w: World)
    requires Queues(w) && Enabled(w, Attach)
    ensures KindsKnown(Next(l, w, Attach))
  {
    hide KindOf;
  }

  /** Whatever waits after a step waited before it, or is the request just submitted. */
  lemma UrbsFrom(l: Limits, w: World, step: Step)
    requires Enabled(w, step) && !step.Attach?
    ensures var after := Next(l, w, step);
            && (forall u :: u in after.device.pending ==>
                  u in w.device.pending || (step.SubmitBulkIn? && u == Urb(step.seqnum, step.length)))
            && (forall k :: k in after.device.intr ==>
                  k in w.device.intr || (step.SubmitInterrupt? && k == step.seqnum))
            && (after.acking == None || after.acking == w.acking ||
                (step.SubmitBulkOut? && after.acking == Some((step.seqnum, |step.data|))))
  {
    hide KindOf, Control;
  }

  lemma NewKind(l: Limits, w: World, step: Step)
    requires Enabled(w, step)
    ensures step.SubmitBulkIn? ==> KindOf(Next(l, w, step).trace, step.seqnum) == Some(BulkIn(step.length))
    ensures step.SubmitInterrupt? ==> KindOf(Next(l, w, step).trace, step.seqnum) == Some(Interrupt)
    ensures step.SubmitBulkOut? ==> KindOf(Next(l, w, step).trace, step.seqnum) == Some(BulkOut(|step.data|))
  {
    hide KindOf, Control, Completions, Removals, Offered, Delivered;
    match step
    case SubmitBulkIn(n, length) =>
      var (d, sent) := SubmitIn(w.device, Urb(n, length));
      SubmitEffect(w, n, BulkIn(length), n);
      LogEffect(Submit(w, n, BulkIn(length)), d, sent, n);
    case SubmitInterrupt(n) => SubmitEffect(w, n, Interrupt, n);
    case SubmitBulkOut(n, data) => SubmitEffect(w, n, BulkOut(|data|), n);
    case _ =>
  }

  // --------------------------------------------------- stream order and fates

  lemma WriterTurnStream(l: Limits, w: World)
    requires Queues(w) && KindsKnown(w) && StreamKept(w) && Enabled(w, WriterTurn)
    ensures StreamKept(Next(l, w, WriterTurn))
  {
    hide KindOf, Offered, Delivered;
    var t := WriteTurn(w.device, w.rest);
    LogBytes(w.(rest := t.rest), t.device, t.sent);
    if w.device.pending != [] {
      assert w.device.pending[0] in w.device.pending;
      var n := Min(w.device.pending[0].length, |w.rest|);
      assert w.rest == w.rest[..n] + w.rest[n..];
      assert Delivered(w.trace) + w.device.txHeld == Delivered(w.trace);
      Regroup(Delivered(w.trace), w.rest[..n], w.rest[n..]);
    } else {
      Regroup(Delivered(w.trace), w.device.txHeld, w.rest);
      assert w.device.txHeld + w.rest + [] == w.device.txHeld + w.rest;
    }
  }

  lemma Regroup(a: seq<byte>, b: seq<byte>, c: seq<byte>)
    ensures a + (b + c) == a + b + c
    ensures a + b + [] + c == a + b + c && a + (b + c) + [] == a + b + c
  {}

  lemma SubmitInStream(l: Limits, w: World, n: nat, length: nat)
    requires Queues(w) && StreamKept(w) && Enabled(w, SubmitBulkIn(n, length))
    ensures StreamKept(Next(l, w, SubmitBulkIn(n, length)))
  {
    hide KindOf, Offered, Delivered;
    var (d, sent) := SubmitIn(w.device, Urb(n, length));
    SubmitEffect(w, n, BulkIn(length), n);
    LogBytes(Submit(w, n, BulkIn(length)), d, sent);
    if w.device.txHeld != [] {
      var m := Min(length, |w.device.txHeld|);
      assert w.device.txHeld == w.device.txHeld[..m] + w.device.txHeld[m..];
      Regroup(Delivered(w.trace), w.device.txHeld[..m], w.device.txHeld[m..]);
    }
  }

  /** Steps that neither offer nor deliver bytes. */
  lemma OtherStream(l: Limits, w: World, step: Step)
    requires StreamKept(w) && KindsKnown(w)
    requires !step.WriterTurn? && !step.SubmitBulkIn? && !step.Attach? && !step.WriteCall?
    requires !step.SubmitControlTransfer? && !step.SubmitUnknown?
    ensures StreamKept(Next(l, w, step))
  {
    hide KindOf, Offered, Delivered, KindsKnown;
    if Enabled(w, step) {
      match step
      case SubmitInterrupt(n) => SubmitEffect(w, n, Interrupt, n);
      case SubmitBulkOut(n, data) => SubmitEffect(w, n, BulkOut(|data|), n);
      case AckBulkOut =>
        AckKind(w);
        LogBytes(w.(acking := None), w.device, AckOut(w.device, w.acking.value.0, w.acking.value.1));
      case UnlinkRequest(_, victim) =>
        OneMoreByte(w.trace, Unlinked(victim, Unlink(w.device, 0, victim).1));
      case _ =>
    }
  }

  lemma DirectStream(l: Limits, w: World, step: Step)
    requires StreamKept(w) && Enabled(w, step) && (step.SubmitControlTransfer? || step.SubmitUnknown?)
    ensures StreamKept(Next(l, w, step))
  {
    hide KindOf, Offered, Delivered, Control;
    var n := step.seqnum;
    if step.SubmitControlTransfer? {
      var (d, sent) := SubmitControl(l.descriptors, w.device, n, step.toHost, step.setup, step.data);
      SubmitEffect(w, n, ControlPipe(step.toHost, |step.data|), n);
      LogBytes(Submit(w, n, ControlPipe(step.toHost, |step.data|)), d, sent);
    } else {
      SubmitEffect(w, n, Unknown, n);
      LogBytes(Submit(w, n, Unknown), w.device, Sent(w.device, RetSubmit(n, ST_STALL, 0, [])));
    }
  }

  lemma OfferStream(l: Limits, w: World, data: seq<byte>)
    requires StreamKept(w) && Enabled(w, WriteCall(data))
    ensures StreamKept(Next(l, w, WriteCall(data)))
  {
    hide KindOf, Offered, Delivered;
    OneMoreByte(w.trace, Wrote(data));
  }

  lemma NotEnabled(l: Limits, w: World, step: Step)
    requires !Enabled(w, step)
    ensures Next(l, w, step) == w
  {}

  lemma NextStream(l: Limits, w: World, step: Step)
    requires Queues(w) && KindsKnown(w) && StreamKept(w)
    ensures StreamKept(Next(l, w, step))
  {
    hide *;
    if Enabled(w, step) {
      match step
      case WriteCall(data) => OfferStream(l, w, data);
      case WriterTurn => WriterTurnStream(l, w);
      case SubmitBulkIn(n, length) => SubmitInStream(l, w, n, length);
      case SubmitControlTransfer(_, _, _, _) => DirectStream(l, w, step);
      case SubmitUnknown(_) => DirectStream(l, w, step);
      case Attach => AttachStream(l, w);
      case _ => OtherStream(l, w, step);
    } else {
      NotEnabled(l, w, step);
    }
  }

  lemma AckKind(w: World)
    requires KindsKnown(w) && w.acking.Some?
    ensures KindOf(w.trace, w.acking.value.0) == Some(BulkOut(w.acking.value.1))
  {}

  lemma AttachStream(l: Limits, w: World)
    requires Queues(w) && Enabled(w, Attach)
    ensures StreamKept(Next(l, w, Attach))
  {
    hide Offered, Delivered, KindOf;
    var held := w.device.txHeld + w.rest;
    NothingYet();
    OneMoreByte([], Began(held));
    assert [] + [Began(held)] == [Began(held)];
    assert [] + held == held && [] + w.device.txHeld + w.rest == held;
  }

  lemma NothingYet()
    ensures Offered([]) == [] && Delivered([]) == []
  {}

  lemma WriterTurnFate(l: Limits, w: World, k: nat)
    requires Queues(w) && KindsKnown(w) && OneFate(w, k) && Enabled(w, WriterTurn)
    ensures OneFate(Next(l, w, WriterTurn), k)
  {
    hide KindOf, Completions, Removals;
    var t := WriteTurn(w.device, w.rest);
    LogEffect(w.(rest := t.rest), t.device, t.sent, k);
    if w.device.pending != [] {
      assert w.device.pending[0] in w.device.pending;
    }
  }

  lemma SubmitInFate(l: Limits, w: World, n: nat, length: nat, k: nat)
    requires OneFate(w, k) && Enabled(w, SubmitBulkIn(n, length))
    ensures OneFate(Next(l, w, SubmitBulkIn(n, length)), k)
  {
    hide KindOf, Completions, Removals;
    var (d, sent) := SubmitIn(w.device, Urb(n, length));
    SubmitEffect(w, n, BulkIn(length), k);
    LogEffect(Submit(w, n, BulkIn(length)), d, sent, k);
    CountUrbsAppend(w.device.pending, [Urb(n, length)], k);
    assert [Urb(n, length)][1..] == [];
  }

  lemma UnlinkFate(l: Limits, w: World, seqnum: nat, victim: nat, k: nat)
    requires OneFate(w, k) && Enabled(w, UnlinkRequest(seqnum, victim))
    ensures OneFate(Next(l, w, UnlinkRequest(seqnum, victim)), k)
  {
    hide KindOf, Completions, Removals, CountUrbs, CountNats;
    OneMore(w.trace, Unlinked(victim, Unlink(w.device, 0, victim).1), k);
    var i, j := IndexOfUrb(w.device.pending, victim), IndexOfNat(w.device.intr, victim);
    if i < |w.device.pending| {
      CountUrbsRemoved(w.device.pending, i, k);
    } else if j < |w.device.intr| {
      CountNatsRemoved(w.device.intr, j, k);
    }
  }

  lemma OutFate(l: Limits, w: World, n: nat, data: seq<byte>, k: nat)
    requires OneFate(w, k) && Enabled(w, SubmitBulkOut(n, data))
    ensures OneFate(Next(l, w, SubmitBulkOut(n, data)), k)
  {
    hide KindOf, Completions, Removals, CountUrbs, CountNats;
    SubmitEffect(w, n, BulkOut(|data|), k);
  }

  lemma AckFate(l: Limits, w: World, k: nat)
    requires KindsKnown(w) && OneFate(w, k) && Enabled(w, AckBulkOut)
    ensures OneFate(Next(l, w, AckBulkOut), k)
  {
    hide KindOf, Completions, Removals, CountUrbs, CountNats, KindsKnown;
    AckKind(w);
    LogEffect(w.(acking := None), w.device, AckOut(w.device, w.acking.value.0, w.acking.value.1), k);
  }

  lemma InterruptFate(l: Limits, w: World, n: nat, k: nat)
    requires OneFate(w, k) && Enabled(w, SubmitInterrupt(n))
    ensures OneFate(Next(l, w, SubmitInterrupt(n)), k)
  {
    hide KindOf, Completions, Removals, CountUrbs, CountNats;
    SubmitEffect(w, n, Interrupt, k);
    CountNatsAppend(w.device.intr, [n], k);
    CountOne(n, k);
  }

  lemma CountOne(n: nat, k: nat)
    ensures CountNats([n], k) == if n == k then 1 else 0
  {
    assert [n][1..] == [];
  }

  /** Requests answered on the spot. */
  lemma DirectFate(l: Limits, w: World, step: Step, k: nat)
    requires OneFate(w, k) && Enabled(w, step) && (step.SubmitControlTransfer? || step.SubmitUnknown?)
    ensures OneFate(Next(l, w, step), k)
  {
    hide KindOf, Completions, Removals, CountUrbs, CountNats, Control;
    var n := step.seqnum;
    if step.SubmitControlTransfer? {
      var (d, sent) := SubmitControl(l.descriptors, w.device, n, step.toHost, step.setup, step.data);
      SubmitEffect(w, n, ControlPipe(step.toHost, |step.data|), k);
      LogEffect(Submit(w, n, ControlPipe(step.toHost, |step.data|)), d, sent, k);
    } else {
      SubmitEffect(w, n, Unknown, k);
      LogEffect(Submit(w, n, Unknown), w.device, Sent(w.device, RetSubmit(n, ST_STALL, 0, [])), k);
    }
  }

  lemma QuietFate(l: Limits, w: World, step: Step, k: nat)
    requires OneFate(w, k) && (!Enabled(w, step) || step.WriteCall? || step.HostRead? || step.Detach?)
    ensures OneFate(Next(l, w, step), k)
  {
    hide KindOf, Completions, Removals, CountUrbs, CountNats;
    if step.WriteCall? {
      OneMore(w.trace, Wrote(step.data), k);
    }
  }

  /** Each request number keeps its single fate through every step. */
  lemma NextFate(l: Limits, w: World, step: Step, k: nat)
    requires Queues(w) && KindsKnown(w) && OneFate(w, k)
    ensures OneFate(Next(l, w, step), k)
  {
    hide *;
    if Enabled(w, step) {
      match step
      case WriterTurn => WriterTurnFate(l, w, k);
      case SubmitBulkIn(n, length) => SubmitInFate(l, w, n, length, k);
      case SubmitInterrupt(n) => InterruptFate(l, w, n, k);
      case SubmitBulkOut(n, data) => OutFate(l, w, n, data, k);
      case AckBulkOut => AckFate(l, w, k);
      case SubmitControlTransfer(_, _, _, _) => DirectFate(l, w, step, k);
      case SubmitUnknown(_) => DirectFate(l, w, step, k);
      case UnlinkRequest(seqnum, victim) => UnlinkFate(l, w, seqnum, victim, k);
      case Attach => AttachFate(l, w, k);
      case _ => QuietFate(l, w, step, k);
    } else {
      QuietFate(l, w, step, k);
    }
  }

  lemma AttachFate(l: Limits, w: World, k: nat)
    requires Queues(w) && Enabled(w, Attach)
    ensures OneFate(Next(l, w, Attach), k)
  {
    OneMore([], Began(w.device.txHeld + w.rest), k);
    assert [] + [Began(w.device.txHeld + w.rest)] == [Began(w.device.txHeld + w.rest)];
  }

  lemma NextReceived(l: Limits, w: World, step: Step)
    requires Received(l, w)
    ensures Received(l, Next(l, w, step))
  {
    hide KindOf, Control;
  }

  /**
   Over every run of writer, session and reader: the stream to the host is neither lost,
   reordered nor repeated; every request meets exactly one fate; and what the reader gets
   is exactly what the device accepted, in order.
   */
  lemma {:induction false} RunKeepsAll(l: Limits, steps: seq<Step>)
    ensures Inv(l, Run(l, steps))
  {
    hide Next;
    if steps == [] {
    } else {
      var w, step := Run(l, steps[..|steps| - 1]), steps[|steps| - 1];
      RunKeepsAll(l, steps[..|steps| - 1]);
      NextQueues(l, w, step);
      NextKinds(l, w, step);
      NextStream(l, w, step);
      NextReceived(l, w, step);
      forall k: nat ensures OneFate(Next(l, w, step), k) {
        NextFate(l, w, step, k);
      }
    }
  }

  /** An unlink reports a removal exactly when its victim was waiting, and then it no longer is. */
  lemma UnlinkTellsTheTruth(l: Limits, w: World, seqnum: nat, victim: nat)
    requires Inv(l, w) && Enabled(w, UnlinkRequest(seqnum, victim))
    ensures var (d, status, sent) := Unlink(w.device, seqnum, victim);
            && sent == [RetUnlink(seqnum, status)]
            && (status == ST_UNLINKED <==> Waiting(w, victim) == 1)
            && (status == 0 <==> Waiting(w, victim) == 0)
            && CountUrbs(d.pending, victim) == 0 && CountNats(d.intr, victim) == 0
  {
    hide KindOf, Completions, Removals, CountUrbs, CountNats, StreamKept, KindsKnown, Received;
    assert OneFate(w, victim);
    var i, j := IndexOfUrb(w.device.pending, victim), IndexOfNat(w.device.intr, victim);
    UrbsCounted(w.device.pending, victim);
    NatsCounted(w.device.intr, victim);
    if i < |w.device.pending| {
      CountUrbsRemoved(w.device.pending, i, victim);
    } else if j < |w.device.intr| {
      CountNatsRemoved(w.device.intr, j, victim);
    }
  }

  lemma {:induction false} UrbsCounted(p: seq<Urb>, k: nat)
    ensures CountUrbs(p, k) > 0 <==> IndexOfUrb(p, k) < |p|
  {
    if p != [] {
      UrbsCounted(p[1..], k);
    }
  }

  lemma {:induction false} NatsCounted(s: seq<nat>, k: nat)
    ensures CountNats(s, k) > 0 <==> IndexOfNat(s, k) < |s|
  {
    if s != [] {
      NatsCounted(s[1..], k);
    }
  }

  // -------------------------------------------------------------- line coding

  /** The seven bytes a step sets, if it sets any. */
  function LineOf(step: Step): Option<seq<byte>> {
    if step.SubmitControlTransfer? && step.setup.request == SET_LINE_CODING && |step.data| >= 7
    then Some(step.data[..7]) else None
  }

  /** The last line coding the host set in a run, or the one the device starts with. */
  function LastLine(l: Limits, steps: seq<Step>): seq<byte> {
    if steps == [] then DEFAULT_LINE
    else
      var before, step := steps[..|steps| - 1], steps[|steps| - 1];
      if Enabled(Run(l, before), step) && LineOf(step).Some? then LineOf(step).value
      else LastLine(l, before)
  }

  /** Only a step that sets the line coding changes it. */
  lemma NextLine(l: Limits, w: World, step: Step)
    ensures Next(l, w, step).device.lineCoding ==
            if Enabled(w, step) && LineOf(step).Some? then LineOf(step).value else w.device.lineCoding
  {
    hide KindOf;
  }

  lemma {:induction false} RunLine(l: Limits, steps: seq<Step>)
    ensures Run(l, steps).device.lineCoding == LastLine(l, steps)
  {
    hide Next;
    if steps != [] {
      RunLine(l, steps[..|steps| - 1]);
      NextLine(l, Run(l, steps[..|steps| - 1]), steps[|steps| - 1]);
    }
  }

  /**
   After any run, through unplugging and plugging in again, the host that asks for the line
   coding is answered at once, with the last one that was set, cut to the length it asked for.
   */
  lemma LineReadsBack(l: Limits, steps: seq<Step>, k: nat, setup: SetupPacket, data: seq<byte>)
    requires setup.request == GET_LINE_CODING && Enabled(Run(l, steps), SubmitControlTransfer(k, true, setup, data))
    ensures var line := Truncated(LastLine(l, steps), setup.wlength);
            Run(l, steps + [SubmitControlTransfer(k, true, setup, data)]).trace ==
            Run(l, steps).trace + [Submitted(k, ControlPipe(true, |data|)), Answered(RetSubmit(k, ST_OK, |line|, line))]
  {
    hide KindOf;
    var step := SubmitControlTransfer(k, true, setup, data);
    assert (steps + [step])[..|steps|] == steps;
    RunLine(l, steps);
  }
}
