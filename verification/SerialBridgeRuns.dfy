/** Every run of the linker, judged event by event from what it wrote and when. */
module SerialBridgeRuns {
  import opened Bytes
  import opened Reals
  import opened SerialBridge

  /**
   What the events so far say: the chunks still to be echoed and when the wire will be
   free, the bytes sent since the last idle wire, whether the ESC was ever heard, the
   reset, and the resends since. `early` marks chunks echoed before they were due.
   */
  datatype Audit = Audit(
    clock: Time, owed: seq<Due>, busy: Time, frame: seq<byte>, whole: bool,
    heard: bool, resetAt: Option<Time>, lastSend: Time, resends: nat, early: bool)

  const UNUSED := Audit(0.0, [], 0.0, [], true, false, None, 0.0, 0, false)

  function Note(c: Config, a: Audit, e: Event): Audit {
    match e
    case ToWire(data, gap, at) =>
      var busy := Max(at, a.busy) + WireTime(|data|);
      a.(clock := at, busy := busy, lastSend := at,
         owed := if c.echo then a.owed + [Due(busy, data)] else a.owed,
         frame := if gap then data else a.frame + data, whole := gap)
    case Echoed(chunk, at) =>
      a.(clock := at, owed := if a.owed == [] then [] else a.owed[1..], early := a.early || at < chunk.at)
    case Replied(_, at) => a.(clock := at, heard := true, early := false)
    case EscReset(at) => a.(clock := at, resetAt := Some(at), lastSend := at, resends := 0)
    case Resent(data, at) =>
      a.(clock := at, busy := at + WireTime(|data|), lastSend := at, resends := a.resends + 1)
  }

  /** The frame since the wire was last idle; only its last 512 bytes once chunks were joined. */
  function Latest(a: Audit): seq<byte> {
    if a.whole then a.frame else LastBytes(a.frame, 512)
  }

  predicate Permitted(c: Config, a: Audit, e: Event) {
    match e
    case ToWire(data, gap, at) => at >= a.clock && !a.early && (gap <==> at > a.busy)
    case Echoed(chunk, at) => at >= a.clock && a.owed != [] && a.owed[0] == chunk
    case Replied(_, at) => at >= a.clock && a.owed == []
    case EscReset(at) =>
      at >= a.clock && !a.early && c.escReset && !a.heard && a.resetAt == None &&
      a.frame != [] && at - a.lastSend >= 0.5
    case Resent(data, at) =>
      at >= a.clock && !a.early && !a.heard && a.resetAt.Some? && at <= a.resetAt.value + 3.0 &&
      at - a.lastSend >= 0.1 &&
      data == Latest(a) != []
  }

  function Review(c: Config, a: Audit, es: seq<Event>): Audit
    decreases |es|
  {
    if es == [] then a else Review(c, Note(c, a, es[0]), es[1..])
  }

  predicate AllPermitted(c: Config, a: Audit, es: seq<Event>)
    decreases |es|
  {
    es == [] || (Permitted(c, a, es[0]) && AllPermitted(c, Note(c, a, es[0]), es[1..]))
  }

  lemma {:induction false} ReviewAppend(c: Config, a: Audit, es: seq<Event>, more: seq<Event>)
    ensures Review(c, a, es + more) == Review(c, Review(c, a, es), more)
    ensures AllPermitted(c, a, es + more) <==> AllPermitted(c, a, es) && AllPermitted(c, Review(c, a, es), more)
    decreases |es|
  {
    hide Permitted, Note;
    if es == [] {
      assert es + more == more;
    } else {
      assert (es + more)[1..] == es[1..] + more;
      ReviewAppend(c, Note(c, a, es[0]), es[1..], more);
    }
  }

  lemma ReviewOne(c: Config, a: Audit, e: Event)
    ensures Review(c, a, [e]) == Note(c, a, e)
    ensures AllPermitted(c, a, [e]) <==> Permitted(c, a, e)
  {
    hide Permitted, Note;
    assert [e][1..] == [];
  }

  // ---------------------------------------------------------------- invariant

  /** The notes agree with the linker, between turns. */
  predicate Agrees(c: Config, a: Audit, s: Linker) {
    && a.owed == s.echoDue && a.busy == s.busyUntil && a.heard == s.connected && !a.early
    && s.resetDone == a.resetAt.Some? && s.pendingAt == a.lastSend <= a.clock
    && (!s.connected ==> s.pending == Latest(a))
    && (!s.connected && s.resetDone ==> s.retryUntil == a.resetAt.value + RESET_WINDOW)
    && Paced(a)
  }

  /** A tenth of a second for each resend: no more than thirty fit the window. */
  predicate Paced(a: Audit) {
    match a.resetAt
    case None => a.resends == 0
    case Some(t) => a.resends as real * 0.1 <= a.lastSend - t && (a.resends > 0 ==> a.resends <= 30)
  }

  predicate Ordered(clock: Time, t: Turn) {
    clock <= t.readAt <= t.replyAt <= t.retryAt
  }

  lemma LastOfLast(s: seq<byte>, t: seq<byte>, n: nat)
    ensures LastBytes(LastBytes(s, n) + t, n) == LastBytes(s + t, n)
    ensures |s + t| <= n ==> LastBytes(s + t, n) == s + t
  {}

  lemma LastOfWhole(a: Audit, t: seq<byte>)
    ensures LastBytes(Latest(a) + t, 512) == LastBytes(a.frame + t, 512)
  {
    LastOfLast(a.frame, t, 512);
  }

  // --------------------------------------------------------------- every part

  lemma HeardPermitted(c: Config, a: Audit, s: Linker, t: Turn)
    requires Agrees(c, a, s) && Ordered(a.clock, t)
    ensures var (after, es) := Heard(c, s, t);
            && AllPermitted(c, a, es) && Agrees(c, Review(c, a, es), after)
            && Review(c, a, es).clock <= t.replyAt
  {
    hide LastBytes;
    if t.chunk != [] {
      ReviewOne(c, a, ToWire(t.chunk, t.readAt > s.busyUntil, t.readAt));
      LastOfWhole(a, t.chunk);
    }
  }

  /** Everything about the audit but the queue and the clock. */
  predicate SameButEchoes(a: Audit, b: Audit) {
    b == a.(clock := b.clock, owed := b.owed, early := b.early)
  }

  lemma {:induction false} EchoesPermitted(c: Config, a: Audit, due: seq<Due>, rest: seq<Due>, now: Time)
    requires a.owed == due + rest && a.clock <= now
    ensures var es := Echoes(due, now);
            var after := Review(c, a, es);
            && AllPermitted(c, a, es) && SameButEchoes(a, after) && a.clock <= after.clock <= now
            && after.owed == rest
            && (!a.early && (forall k :: 0 <= k < |due| ==> now >= due[k].at) ==> !after.early)
    decreases |due|
  {
    if due == [] {
      assert due + rest == rest;
    } else {
      var noted := Note(c, a, Echoed(due[0], now));
      assert noted.owed == due[1..] + rest;
      EchoesPermitted(c, noted, due[1..], rest, now);
    }
  }

  lemma {:induction false} RipeWhenDue(due: seq<Due>, now: Time)
    ensures forall k :: 0 <= k < Ripe(due, false, now) ==> now >= due[k].at
  {
    if due != [] && now >= due[0].at {
      RipeWhenDue(due[1..], now);
    }
  }

  lemma FlushPermitted(c: Config, a: Audit, s: Linker, now: Time)
    requires Agrees(c, a, s) && a.clock <= now
    ensures var (after, es) := Flush(s, false, now);
            && AllPermitted(c, a, es) && Agrees(c, Review(c, a, es), after) && Review(c, a, es).clock <= now
  {
    hide LastBytes;
    var n := Ripe(s.echoDue, false, now);
    assert s.echoDue == s.echoDue[..n] + s.echoDue[n..];
    EchoesPermitted(c, a, s.echoDue[..n], s.echoDue[n..], now);
    RipeWhenDue(s.echoDue, now);
  }

  lemma AnswerPermitted(c: Config, a: Audit, s: Linker, data: seq<byte>, now: Time)
    requires Agrees(c, a, s) && a.clock <= now
    ensures var (after, es) := FromEsc(s, data, now);
            && AllPermitted(c, a, es) && Agrees(c, Review(c, a, es), after) && Review(c, a, es).clock <= now
  {
    hide LastBytes;
    var n := |s.echoDue|;
    assert s.echoDue[..n] == s.echoDue == s.echoDue + [];
    EchoesPermitted(c, a, s.echoDue, [], now);
    var es := Echoes(s.echoDue, now);
    ReviewAppend(c, a, es, [Replied(data, now)]);
    ReviewOne(c, Review(c, a, es), Replied(data, now));
  }

  lemma RetryPermitted(c: Config, a: Audit, s: Linker, now: Time)
    requires Agrees(c, a, s) && a.clock <= now
    ensures var (after, es) := Retry(c, s, now);
            && AllPermitted(c, a, es) && Agrees(c, Review(c, a, es), after) && Review(c, a, es).clock <= now
  {
    hide LastBytes;
    ReviewOne(c, a, EscReset(now));
    ReviewOne(c, a, Resent(s.pending, now));
    assert s.pending != [] && !s.connected ==> a.frame != [] by { LatestOfNothing(a); }
  }

  lemma LatestOfNothing(a: Audit)
    ensures a.frame == [] ==> Latest(a) == []
  {}

  lemma LoopPermitted(c: Config, a: Audit, s: Linker, t: Turn)
    requires Agrees(c, a, s) && Ordered(a.clock, t)
    ensures var (after, es) := Loop(c, s, t);
            && AllPermitted(c, a, es) && Agrees(c, Review(c, a, es), after)
            && Review(c, a, es).clock <= t.retryAt
  {
    hide Agrees, Heard, Flush, FromEsc, Retry, Review, AllPermitted;
    var (heard, first) := Heard(c, s, t);
    HeardPermitted(c, a, s, t);
    var b := Review(c, a, first);
    if t.reply != [] {
      AnswerPermitted(c, b, heard, t.reply, t.replyAt);
      ReviewAppend(c, a, first, FromEsc(heard, t.reply, t.replyAt).1);
    } else {
      var (flushed, second) := Flush(heard, false, t.replyAt);
      FlushPermitted(c, b, heard, t.replyAt);
      ReviewAppend(c, a, first, second);
      RetryPermitted(c, Review(c, b, second), flushed, t.retryAt);
      ReviewAppend(c, a, first + second, Retry(c, flushed, t.retryAt).1);
    }
  }

  // ------------------------------------------------------------------ all runs

  predicate InTime(turns: seq<Turn>) {
    && (forall i :: 0 <= i < |turns| ==> 0.0 <= turns[i].readAt <= turns[i].replyAt <= turns[i].retryAt)
    && (forall i :: 0 < i < |turns| ==> turns[i - 1].retryAt <= turns[i].readAt)
  }

  function Run(c: Config, turns: seq<Turn>): (Linker, seq<Event>) {
    if turns == [] then (IDLE, [])
    else
      var before := Run(c, turns[..|turns| - 1]);
      var (after, es) := Loop(c, before.0, turns[|turns| - 1]);
      (after, before.1 + es)
  }

  /** Whatever the host and the ESC send and whenever, every event was one permitted at that point. */
  lemma {:induction false} RunPermitted(c: Config, turns: seq<Turn>)
    requires InTime(turns)
    ensures var (s, log) := Run(c, turns);
            && AllPermitted(c, UNUSED, log) && Agrees(c, Review(c, UNUSED, log), s)
            && Review(c, UNUSED, log).clock <= if turns == [] then 0.0 else turns[|turns| - 1].retryAt
  {
    hide Loop, Agrees, AllPermitted, Review;
    if turns == [] {
      StartAgrees(c);
    } else {
      var (before, log) := Run(c, turns[..|turns| - 1]);
      RunPermitted(c, turns[..|turns| - 1]);
      LoopPermitted(c, Review(c, UNUSED, log), before, turns[|turns| - 1]);
      ReviewAppend(c, UNUSED, log, Loop(c, before, turns[|turns| - 1]).1);
    }
  }

  lemma StartAgrees(c: Config)
    ensures Agrees(c, UNUSED, IDLE) && AllPermitted(c, UNUSED, []) && Review(c, UNUSED, []) == UNUSED
  {}

  // ------------------------------------------------- exactly what a turn writes

  /** The audit once the turn's chunk, if there is one, went to the wire. */
  function AfterChunk(c: Config, a: Audit, t: Turn): Audit {
    if t.chunk == [] then a else Note(c, a, ToWire(t.chunk, t.readAt > a.busy, t.readAt))
  }

  /** How many of the owed chunks have had their time, up to the first that has not. */
  predicate DueBy(owed: seq<Due>, now: Time, n: nat) {
    && n <= |owed| && (forall k :: 0 <= k < n ==> owed[k].at <= now)
    && (n < |owed| ==> owed[n].at > now)
  }

  predicate ResetDue(c: Config, a: Audit, now: Time) {
    c.escReset && !a.heard && a.resetAt == None && a.frame != [] && now - a.lastSend >= 0.5
  }

  predicate ResendDue(a: Audit, now: Time) {
    && !a.heard && a.resetAt.Some? && now <= a.resetAt.value + 3.0 && a.frame != []
    && now - a.lastSend >= 0.1
  }

  /** What a turn writes, from what was written before it and what it reads. */
  predicate TurnRight(c: Config, a: Audit, t: Turn, es: seq<Event>) {
    var first := if t.chunk == [] then [] else [ToWire(t.chunk, t.readAt > a.busy, t.readAt)];
    var b := AfterChunk(c, a, t);
    if t.reply != [] then es == first + Echoes(b.owed, t.replyAt) + [Replied(t.reply, t.replyAt)]
    else
      exists n :: 0 <= n <= |b.owed| && DueBy(b.owed, t.replyAt, n) &&
        es == first + Echoes(b.owed[..n], t.replyAt) +
              (if ResetDue(c, b, t.retryAt) then [EscReset(t.retryAt)]
               else if ResendDue(b, t.retryAt) then [Resent(Latest(b), t.retryAt)]
               else [])
  }

  lemma {:induction false} RipeIsDue(due: seq<Due>, now: Time)
    ensures DueBy(due, now, Ripe(due, false, now))
  {
    if due != [] && now >= due[0].at {
      RipeIsDue(due[1..], now);
    }
  }

  lemma ChunkNoted(c: Config, a: Audit, s: Linker, t: Turn)
    requires Agrees(c, a, s) && Ordered(a.clock, t)
    ensures Heard(c, s, t).1 == if t.chunk == [] then [] else [ToWire(t.chunk, t.readAt > a.busy, t.readAt)]
    ensures Agrees(c, AfterChunk(c, a, t), Heard(c, s, t).0)
    ensures AfterChunk(c, a, t).clock <= t.replyAt
  {
    hide LastBytes, Paced;
    HeardPermitted(c, a, s, t);
    if t.chunk != [] {
      ReviewOne(c, a, ToWire(t.chunk, t.readAt > s.busyUntil, t.readAt));
    }
  }

  /** The linker resets and resends when it is due, and not otherwise. */
  lemma RetryExactly(c: Config, a: Audit, s: Linker, now: Time)
    requires Agrees(c, a, s) && (a.resetAt.Some? ==> c.escReset)
    ensures Retry(c, s, now).1 ==
            if ResetDue(c, a, now) then [EscReset(now)]
            else if ResendDue(a, now) then [Resent(Latest(a), now)]
            else []
  {
    hide LastBytes;
    LatestOfNothing(a);
    LatestOfSome(a);
  }

  lemma RetryIgnoresEchoes(c: Config, s: Linker, due: seq<Due>, now: Time)
    ensures Retry(c, s.(echoDue := due), now).1 == Retry(c, s, now).1
  {}

  lemma LatestOfSome(a: Audit)
    ensures a.frame != [] ==> Latest(a) != []
  {}

  lemma LoopExactly(c: Config, a: Audit, s: Linker, t: Turn)
    requires Agrees(c, a, s) && Ordered(a.clock, t) && (a.resetAt.Some? ==> c.escReset)
    ensures TurnRight(c, a, t, Loop(c, s, t).1)
  {
    hide Heard, Retry, LastBytes, Latest, Paced, ResetDue, ResendDue, DueBy, Echoes;
    ChunkNoted(c, a, s, t);
    var b, heard := AfterChunk(c, a, t), Heard(c, s, t).0;
    if t.reply != [] {
      assert heard.echoDue[..|heard.echoDue|] == heard.echoDue;
    } else {
      var n := Ripe(heard.echoDue, false, t.replyAt);
      RipeIsDue(heard.echoDue, t.replyAt);
      RetryIgnoresEchoes(c, heard, heard.echoDue[n..], t.retryAt);
      RetryExactly(c, b, heard, t.retryAt);
      assert DueBy(b.owed, t.replyAt, n);
    }
  }

  /**
   After any run, what one more turn writes is decided by what was written so far and what
   the turn reads: the host's chunk goes to the wire; ESC bytes are handed on behind every
   echo that is owed; and without them each owed chunk that has had its time is echoed, the
   ESC is reset when that is due, and the frame is sent again when that is.
   */
  lemma TurnExactly(c: Config, turns: seq<Turn>, t: Turn)
    requires InTime(turns + [t])
    ensures Run(c, turns).1 <= Run(c, turns + [t]).1
    ensures var log := Run(c, turns).1;
            TurnRight(c, Review(c, UNUSED, log), t, Run(c, turns + [t]).1[|log|..])
  {
    hide Loop, Agrees, AllPermitted, Review, TurnRight;
    var all := turns + [t];
    assert all[..|turns|] == turns && all[|turns|] == t;
    assert forall i :: 0 <= i < |turns| ==> turns[i] == all[i];
    assert turns != [] ==> all[|turns| - 1] == turns[|turns| - 1];
    RunPermitted(c, turns);
    var (s, log) := Run(c, turns);
    ResetAllowed(c, UNUSED, log);
    LoopExactly(c, Review(c, UNUSED, log), s, t);
    assert Run(c, all).1 == log + Loop(c, s, t).1;
    assert (log + Loop(c, s, t).1)[|log|..] == Loop(c, s, t).1;
  }

  lemma {:induction false} ResetAllowed(c: Config, a: Audit, es: seq<Event>)
    requires AllPermitted(c, a, es) && (a.resetAt.Some? ==> c.escReset)
    ensures Review(c, a, es).resetAt.Some? ==> c.escReset
    decreases |es|
  {
    if es != [] {
      ResetAllowed(c, Note(c, a, es[0]), es[1..]);
    }
  }

  /**
   A turn without ESC bytes resets the ESC exactly when resetting is on, the ESC was never
   heard nor reset, and a frame has waited for half a second; it sends the frame again
   exactly when a reset at most three seconds ago was not answered and the last send was a
   tenth of a second ago.
   */
  lemma ResetsExactly(c: Config, turns: seq<Turn>, t: Turn)
    requires InTime(turns + [t]) && t.reply == []
    ensures Run(c, turns).1 <= Run(c, turns + [t]).1
    ensures var log := Run(c, turns).1;
            var es := Run(c, turns + [t]).1[|log|..];
            var b := AfterChunk(c, Review(c, UNUSED, log), t);
            && (EscReset(t.retryAt) in es <==> ResetDue(c, b, t.retryAt))
            && (Resent(Latest(b), t.retryAt) in es <==> ResendDue(b, t.retryAt))
            && (forall e :: e in es && e.EscReset? ==> e == EscReset(t.retryAt))
            && (forall e :: e in es && e.Resent? ==> e == Resent(Latest(b), t.retryAt))
  {
    hide Run, Review, Latest, ResetDue, ResendDue, DueBy;
    TurnExactly(c, turns, t);
    var a := Review(c, UNUSED, Run(c, turns).1);
    var b := AfterChunk(c, a, t);
    forall n | 0 <= n <= |b.owed| ensures forall e :: e in Echoes(b.owed[..n], t.replyAt) ==> e.Echoed? {
      OnlyEchoes(b.owed[..n], t.replyAt);
    }
    NotBoth(c, b, t.retryAt);
  }

  lemma NotBoth(c: Config, a: Audit, now: Time)
    ensures !(ResetDue(c, a, now) && ResendDue(a, now))
  {}

  lemma {:induction false} OnlyEchoes(due: seq<Due>, now: Time)
    ensures forall e :: e in Echoes(due, now) ==> e.Echoed?
  {
    if due != [] {
      OnlyEchoes(due[1..], now);
    }
  }

  /** The wire carries 19200 bits a second, ten to the byte. */
  lemma WireSpeed(n: nat)
    ensures 1920.0 * WireTime(n) == n as real
  {}

  lemma {:induction false} PermittedAt(c: Config, a: Audit, es: seq<Event>, k: nat)
    requires AllPermitted(c, a, es) && k < |es|
    ensures Permitted(c, Review(c, a, es[..k]), es[k])
  {
    hide Permitted, Note;
    assert es == es[..k] + ([es[k]] + es[k + 1..]);
    ReviewAppend(c, a, es[..k], [es[k]] + es[k + 1..]);
    assert ([es[k]] + es[k + 1..])[0] == es[k];
  }

  // ---------------------------------------------------------- bytes and counts

  function HostBytes(es: seq<Event>): seq<byte> {
    if es == [] then []
    else
      var last := es[|es| - 1];
      HostBytes(es[..|es| - 1]) + if last.ToWire? then last.data else []
  }

  function EchoedBytes(es: seq<Event>): seq<byte> {
    if es == [] then []
    else
      var last := es[|es| - 1];
      EchoedBytes(es[..|es| - 1]) + if last.Echoed? then last.chunk.data else []
  }

  function DueBytes(due: seq<Due>): seq<byte> {
    if due == [] then [] else due[0].data + DueBytes(due[1..])
  }

  lemma {:induction false} DueBytesSnoc(due: seq<Due>, d: Due)
    ensures DueBytes(due + [d]) == DueBytes(due) + d.data
  {
    if due == [] {
      assert [] + [d] == [d] && [d][1..] == [];
    } else {
      assert (due + [d])[1..] == due[1..] + [d];
      DueBytesSnoc(due[1..], d);
    }
  }

  /** With the echo on, what the host sent is what it was echoed and what it is still owed. */
  lemma {:induction false} EchoLedger(c: Config, es: seq<Event>)
    requires c.echo && AllPermitted(c, UNUSED, es)
    ensures HostBytes(es) == EchoedBytes(es) + DueBytes(Review(c, UNUSED, es).owed)
    decreases |es|
  {
    hide Review, AllPermitted, Latest, WireTime, Max;
    if es == [] {
      StartAgrees(c);
    } else {
      var before, last := es[..|es| - 1], es[|es| - 1];
      assert es == before + [last];
      ReviewAppend(c, UNUSED, before, [last]);
      ReviewOne(c, Review(c, UNUSED, before), last);
      EchoLedger(c, before);
      var owed := Review(c, UNUSED, before).owed;
      if last.ToWire? {
        DueBytesSnoc(owed, Due(Max(last.at, Review(c, UNUSED, before).busy) + WireTime(|last.data|), last.data));
      }
    }
  }

  /**
   The echo is an in-order prefix of what the host sent, complete whenever ESC bytes
   reach the host.
   */
  lemma EchoIsPrefix(c: Config, turns: seq<Turn>, k: nat)
    requires c.echo && InTime(turns) && k <= |Run(c, turns).1|
    ensures var es := Run(c, turns).1;
            && EchoedBytes(es[..k]) <= HostBytes(es[..k])
            && (k < |es| && es[k].Replied? ==> EchoedBytes(es[..k]) == HostBytes(es[..k]))
  {
    hide Run, Review, AllPermitted, HostBytes, EchoedBytes;
    var es := Run(c, turns).1;
    RunPermitted(c, turns);
    assert es == es[..k] + es[k..];
    ReviewAppend(c, UNUSED, es[..k], es[k..]);
    EchoLedger(c, es[..k]);
    if k < |es| {
      PermittedAt(c, UNUSED, es, k);
    }
  }

  /**
   A chunk echoed before its last bit was sent is followed, after more echoes at most, by
   ESC bytes.
   */
  lemma EarlyEchoMeansReply(c: Config, turns: seq<Turn>, k: nat) returns (n: nat)
    requires InTime(turns) && k < |Run(c, turns).1|
    requires var e := Run(c, turns).1[k]; e.Echoed? && e.at < e.chunk.at
    ensures var es := Run(c, turns).1;
            k < n < |es| && es[n].Replied? && forall j :: k < j < n ==> es[j].Echoed?
  {
    hide Run, Review, AllPermitted, Permitted;
    var es := Run(c, turns).1;
    RunPermitted(c, turns);
    assert es == es[..k] + ([es[k]] + es[k + 1..]);
    ReviewAppend(c, UNUSED, es[..k], [es[k]] + es[k + 1..]);
    var a := Review(c, UNUSED, es[..k]);
    ReviewAppend(c, a, [es[k]], es[k + 1..]);
    ReviewOne(c, a, es[k]);
    var m := ReplyAhead(c, Note(c, a, es[k]), es[k + 1..]);
    n := k + 1 + m;
    forall j | k < j < n ensures es[j].Echoed? {
      assert es[j] == es[k + 1..][j - k - 1];
    }
  }

  lemma {:induction false} ReplyAhead(c: Config, a: Audit, es: seq<Event>) returns (n: nat)
    requires a.early && AllPermitted(c, a, es) && !Review(c, a, es).early
    ensures n < |es| && es[n].Replied? && forall j :: 0 <= j < n ==> es[j].Echoed?
    decreases |es|
  {
    if es[0].Replied? {
      n := 0;
    } else {
      var m := ReplyAhead(c, Note(c, a, es[0]), es[1..]);
      n := m + 1;
    }
  }

  function Count(es: seq<Event>, resends: bool): nat {
    if es == [] then 0
    else
      var last := es[|es| - 1];
      Count(es[..|es| - 1], resends) + if (if resends then last.Resent? else last.EscReset?) then 1 else 0
  }

  lemma {:induction false} CountsNoted(c: Config, es: seq<Event>)
    requires AllPermitted(c, UNUSED, es)
    ensures var a := Review(c, UNUSED, es);
            && Count(es, false) == (if a.resetAt.Some? then 1 else 0)
            && Count(es, true) == a.resends && (a.resetAt.None? ==> a.resends == 0)
    decreases |es|
  {
    hide Review, AllPermitted, Latest, WireTime, Max;
    if es == [] {
      StartAgrees(c);
    } else {
      var before, last := es[..|es| - 1], es[|es| - 1];
      assert es == before + [last];
      ReviewAppend(c, UNUSED, before, [last]);
      ReviewOne(c, Review(c, UNUSED, before), last);
      CountsNoted(c, before);
    }
  }

  /** One reset and thirty resends are the most a run can hold. */
  lemma AtMostOneReset(c: Config, turns: seq<Turn>)
    requires InTime(turns)
    ensures Count(Run(c, turns).1, false) <= 1
    ensures Count(Run(c, turns).1, true) <= 30
    ensures !c.escReset ==> Count(Run(c, turns).1, false) == Count(Run(c, turns).1, true) == 0
  {
    hide Run, Review, AllPermitted, Count;
    RunPermitted(c, turns);
    CountsNoted(c, Run(c, turns).1);
    if !c.escReset {
      NeverReset(c, UNUSED, Run(c, turns).1);
    }
  }

  lemma {:induction false} NeverReset(c: Config, a: Audit, es: seq<Event>)
    requires !c.escReset && a.resetAt.None? && AllPermitted(c, a, es)
    ensures Review(c, a, es).resetAt.None?
    decreases |es|
  {
    if es != [] {
      NeverReset(c, Note(c, a, es[0]), es[1..]);
    }
  }
}
