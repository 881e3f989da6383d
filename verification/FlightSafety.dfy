/**
 Every run of the fake flight controller passes the audit: wires shared without overlap,
 accepted commands sent in full and in order, throttles held back when they must be.
 */
module FlightSafety {
  import opened Bytes
  import opened Reals
  import opened FlightController
  import opened FlightRuns
  import C = Configuration
  import D = DshotFrame
  import W = OneWire
  import S = FourWayServer
  import FourWaySession
  import A = FourWayAuthority

  // ------------------------------------------------------------- small facts

  lemma {:induction false} StampAppend(a: seq<Entry>, b: seq<Entry>, at: Time)
    ensures Stamp(a + b, at) == Stamp(a, at) + Stamp(b, at)
  {
    if a == [] {
      assert a + b == b;
    } else {
      assert (a + b)[1..] == a[1..] + b;
      StampAppend(a[1..], b, at);
    }
  }

  lemma StampOne(e: Entry, at: Time)
    ensures Stamp([e], at) == [OfMotor(e, at)]
  {
    assert [e][1..] == [];
  }

  lemma {:induction false} ExpandAppend(a: seq<Command>, b: seq<Command>)
    ensures Expand(a + b) == Expand(a) + Expand(b)
  {
    if a == [] {
      assert a + b == b;
    } else {
      assert (a + b)[1..] == a[1..] + b;
      ExpandAppend(a[1..], b);
    }
  }

  lemma ExpandOne(c: Command)
    ensures Expand([c]) == Copies(c.number, c.count)
  {
    assert [c][1..] == [];
  }

  /** Accepting a command owes it twenty times. */
  lemma BooksAccept(a: Audit, m: Motor, i: nat, c: nat, at: Time, after: Motor)
    requires Books(a, m) && after.commands == m.commands + [Command(c, 20)]
    requires after.value == m.value && after.readyAt == m.readyAt
    ensures Books(Note(a, i, OfMotor(Accepted(i, c), at)), after)
  {
    hide Expand, Copies;
    ExpandAppend(m.commands, [Command(c, 20)]);
    ExpandOne(Command(c, 20));
    assert a.sent + Expand(m.commands) + Copies(c, 20) == a.sent + (Expand(m.commands) + Copies(c, 20));
  }

  lemma PoppedExpand(m: Motor, now: Time)
    requires m.commands != [] && m.commands[0].count >= 1
    ensures Expand(m.commands) == [m.commands[0].number] + Expand(Popped(m, now).commands)
  {
    var head := m.commands[0];
    if head.count == 1 {
      assert Copies(head.number, 1) == [head.number];
    } else {
      var rest := [Command(head.number, head.count - 1)] + m.commands[1..];
      assert rest[1..] == m.commands[1..];
      assert Expand(rest) == Copies(head.number, head.count - 1) + Expand(m.commands[1..]);
    }
  }

  /** Two audits that differ at most in one motor's books. */
  predicate OnlyBooks(a: Audit, b: Audit) {
    b == a.(value := b.value, owed := b.owed, sent := b.sent, quiet := b.quiet, wire := b.wire)
  }

  // ----------------------------------------------------------- sender's turn

  predicate Timely(a: Audit, fc: Fc, now: Time, at: Time) {
    a.mode == MspMode && a.asked == fc.lastRequest && a.booted + 2.0 == fc.readyAt && now <= at && WireKept(a, fc)
  }

  predicate StoppedIfSilent(fc: Fc, m: Motor, now: Time) {
    now - fc.lastRequest > 2.0 ==> m.commands == [] && m.value == 1000
  }

  /** How many copies a queue still holds. */
  lemma {:induction false} ExpandLength(commands: seq<Command>)
    requires forall k :: 0 <= k < |commands| ==> commands[k].count >= 0
    requires forall k :: 0 < k < |commands| ==> commands[k].count == 20
    ensures |Expand(commands)| == if commands == [] then 0 else commands[0].count + 20 * (|commands| - 1)
  {
    if |commands| > 1 {
      ExpandLength(commands[1..]);
    }
  }

  /** The copy being sent is its command's last exactly when it completes a twenty. */
  lemma LastCopy(a: Audit, m: Motor)
    requires Books(a, m) && MotorSane(m) && m.commands != []
    ensures (|a.sent| + 1) % 20 == 0 <==> m.commands[0].count == 1
  {
    hide Expand;
    ExpandLength(m.commands);
    Twenties(|a.sent|, m.commands[0].count, |m.commands| - 1);
  }

  lemma Twenties(sent: nat, count: nat, more: nat)
    requires 1 <= count <= 20 && (sent + (count + 20 * more)) % 20 == 0
    ensures (sent + 1) % 20 == 0 <==> count == 1
  {}

  /** The frame itself, once an extended telemetry command may have been queued. */
  lemma FrameAudit(a: Audit, i: nat, k: nat, fc: Fc, m: Motor, now: Time, at: Time)
    requires Timely(a, fc, now, at) && MotorSane(m) && StoppedIfSilent(fc, m, now)
    requires k == i ==> Books(a, WithEdt(fc, m, now))
    ensures var (after, f) := SendMotor(fc, m, now);
            var e := OfMotor(Sent(k, f), at);
            && Permitted(a, i, e) && OnlyBooks(a, Note(a, i, e)) && WireKept(Note(a, i, e), fc)
            && (if k == i then Books(Note(a, i, e), after) else Note(a, i, e) == a)
  {
    hide Expand;
    var queued := WithEdt(fc, m, now);
    if k == i && queued.commands != [] {
      EdtSane(fc, m, now);
      LastCopy(a, queued);
    }
    if queued.commands != [] && now >= Deadline(fc, m) {
      PoppedExpand(queued, now);
      if k == i {
        assert a.sent + ([queued.commands[0].number] + Expand(Popped(queued, now).commands)) ==
               a.sent + [queued.commands[0].number] + Expand(Popped(queued, now).commands);
      }
    } else if k == i && now >= Deadline(fc, m) {
      NothingQueued(queued.commands);
      assert a.sent + [] == a.sent;
    }
  }

  lemma EdtSane(fc: Fc, m: Motor, now: Time)
    requires MotorSane(m)
    ensures MotorSane(WithEdt(fc, m, now))
  {}

  lemma NothingQueued(commands: seq<Command>)
    requires commands == []
    ensures Expand(commands) == []
  {}

  lemma OneMotorAudit(a: Audit, i: nat, k: nat, fc: Fc, m: Motor, now: Time, at: Time)
    requires Timely(a, fc, now, at) && MotorSane(m) && StoppedIfSilent(fc, m, now)
    requires k == i ==> Books(a, m)
    ensures var es := Stamp(SendEntries(fc, k, m, now), at);
            var after := Review(a, i, es);
            && AllPermitted(a, i, es) && OnlyBooks(a, after) && WireKept(after, fc)
            && (if k == i then Books(after, SendMotor(fc, m, now).0) else after == a)
  {
    hide SendMotor, Permitted, Review, AllPermitted, Stamp, FrameAllowed, Books;
    var sent := Sent(k, SendMotor(fc, m, now).1);
    StampOne(sent, at);
    if NeedsEdt(fc, m, now) {
      var c := if Wants(fc, m) then EDT_ENABLE else EDT_DISABLE;
      var noted := Note(a, i, OfMotor(Accepted(k, c), at));
      StampAppend([Accepted(k, c)], [sent], at);
      StampOne(Accepted(k, c), at);
      ReviewOne(a, i, OfMotor(Accepted(k, c), at));
      ReviewAppend(a, i, [OfMotor(Accepted(k, c), at)], [OfMotor(sent, at)]);
      if k == i {
        BooksAccept(a, m, i, c, at, WithEdt(fc, m, now));
      }
      FrameAudit(noted, i, k, fc, m, now, at);
      ReviewOne(noted, i, OfMotor(sent, at));
      if k == i {
        EdtOnlyStopped(a, fc, m, now);
      }
      assert Permitted(a, i, OfMotor(Accepted(k, c), at)) by { AcceptedPermitted(a, i, k, c, at, []); }
    } else {
      assert SendEntries(fc, k, m, now) == [sent];
      FrameAudit(a, i, k, fc, m, now, at);
      ReviewOne(a, i, OfMotor(sent, at));
    }
  }

  lemma EdtOnlyStopped(a: Audit, fc: Fc, m: Motor, now: Time)
    requires Books(a, m) && MotorSane(m) && NeedsEdt(fc, m, now)
    ensures a.value == 1000
  {}

  lemma AcceptedPermitted(a: Audit, i: nat, k: nat, c: nat, at: Time, payload: seq<byte>)
    ensures Permitted(a, i, OfMotor(Accepted(k, c), at)) <==> 1 <= c <= 47 && (k == i ==> a.value == 1000)
    ensures Permitted(a, i, MotorsSet(payload))
  {}

  lemma {:induction false} SendFromAudit(a: Audit, i: nat, k: nat, fc: Fc, now: Time, at: Time)
    requires k <= |fc.motors| && i < |fc.motors| && Timely(a, fc, now, at)
    requires forall j :: 0 <= j < |fc.motors| ==> MotorSane(fc.motors[j]) && StoppedIfSilent(fc, fc.motors[j], now)
    requires k <= i ==> Books(a, fc.motors[i])
    ensures var es := Stamp(SendFrom(fc, now, k).1, at);
            var after := Review(a, i, es);
            && AllPermitted(a, i, es) && OnlyBooks(a, after) && WireKept(after, fc)
            && (if k <= i then Books(after, SendMotor(fc, fc.motors[i], now).0) else after == a)
    decreases |fc.motors| - k
  {
    hide SendMotor, SendEntries, Permitted, MotorSane, Books, Note, StoppedIfSilent;
    if k < |fc.motors| {
      var first := SendEntries(fc, k, fc.motors[k], now);
      OneMotorAudit(a, i, k, fc, fc.motors[k], now, at);
      var middle := Review(a, i, Stamp(first, at));
      StampAppend(first, SendFrom(fc, now, k + 1).1, at);
      ReviewAppend(a, i, Stamp(first, at), Stamp(SendFrom(fc, now, k + 1).1, at));
      SendFromAudit(middle, i, k + 1, fc, now, at);
    }
  }

  lemma TurnAudit(a: Audit, i: nat, fc: Fc, now: Time, due: bool, at: Time)
    requires i < |fc.motors| && Agrees(a, fc) && now <= at && Books(a, fc.motors[i])
    requires forall j :: 0 <= j < |fc.motors| ==> MotorSane(fc.motors[j])
    ensures var (next, entries) := DshotTurn(fc, now, due);
            var after := Review(a, i, Stamp(entries, at));
            && AllPermitted(a, i, Stamp(entries, at)) && OnlyBooks(a, after)
            && |next.motors| == |fc.motors| && Agrees(after, next) && Books(after, next.motors[i])
            && ModeOf(next) == ModeOf(fc)
  {
    hide SendMotor, SendFrom, MotorSane, Expand;
    if MayDrive(fc) && due {
      if now - fc.lastRequest > 2.0 {
        var ready := fc.(motors := StopAll(fc.motors));
        var cleared := a.(value := 1000, owed := [], sent := []);
        StopAllSane(fc.motors);
        NothingQueued(ready.motors[i].commands);
        StampAppend([ClearedAll], SendFrom(ready, now, 0).1, at);
        StampOne(ClearedAll, at);
        ReviewOne(a, i, OfMotor(ClearedAll, at));
        ReviewAppend(a, i, [OfMotor(ClearedAll, at)], Stamp(SendFrom(ready, now, 0).1, at));
        SendFromAudit(cleared, i, 0, ready, now, at);
        SendFromEach(ready, now, 0);
      } else {
        assert [] + SendFrom(fc, now, 0).1 == SendFrom(fc, now, 0).1;
        SendFromAudit(a, i, 0, fc, now, at);
        SendFromEach(fc, now, 0);
      }
    }
  }

  // ---------------------------------------------------------------- requests

  /** A motor that takes these commands is stopped, unless they only stop it. */
  predicate MayTake(m: Motor, cs: seq<byte>) {
    m.value == 1000 || forall j :: 0 <= j < |cs| ==> cs[j] == 0
  }

  lemma {:induction false} QueueListAudit(a: Audit, i: nat, k: nat, m: Motor, cs: seq<byte>, at: Time)
    requires (k == i ==> Books(a, m) && MayTake(m, cs)) && forall j :: 0 <= j < |cs| ==> cs[j] <= 47
    ensures var es := Stamp(QueueEntries(k, cs), at);
            var after := Review(a, i, es);
            && AllPermitted(a, i, es) && OnlyBooks(a, after) && after.wire == a.wire
            && (if k == i then Books(after, QueueList(m, cs)) else after == a)
    decreases cs
  {
    hide Expand, Copies;
    if cs != [] {
      var e := if cs[0] == 0 then Cleared(k) else Accepted(k, cs[0]);
      var noted := Note(a, i, OfMotor(e, at));
      if k == i {
        if cs[0] == 0 {
          NothingQueued([]);
        } else {
          BooksAccept(a, m, i, cs[0], at, QueueOne(m, cs[0]));
        }
      }
      StampAppend([e], QueueEntries(k, cs[1..]), at);
      StampOne(e, at);
      ReviewOne(a, i, OfMotor(e, at));
      ReviewAppend(a, i, [OfMotor(e, at)], Stamp(QueueEntries(k, cs[1..]), at));
      QueueListAudit(noted, i, k, QueueOne(m, cs[0]), cs[1..], at);
    }
  }

  lemma {:induction false} QueueFromAudit(
    a: Audit, i: nat, k: nat, motors: seq<Motor>, which: byte, cs: seq<byte>, at: Time)
    requires k <= |motors| && i < |motors|
    requires (k <= i ==> Books(a, motors[i])) && forall j :: 0 <= j < |cs| ==> cs[j] <= 47
    requires Targeted(which, i) ==> MayTake(motors[i], cs)
    ensures var es := Stamp(QueueFrom(motors, which, cs, k).1, at);
            var after := Review(a, i, es);
            && AllPermitted(a, i, es) && OnlyBooks(a, after) && after.wire == a.wire
            && (if k <= i then Books(after, if Targeted(which, i) then QueueList(motors[i], cs) else motors[i])
                else after == a)
    decreases |motors| - k
  {
    hide Books, QueueList, QueueEntries, Targeted, Permitted, Note, MayTake;
    if k < |motors| {
      var tail := QueueFrom(motors, which, cs, k + 1).1;
      if Targeted(which, k) {
        var first := QueueEntries(k, cs);
        QueueListAudit(a, i, k, motors[k], cs, at);
        StampAppend(first, tail, at);
        ReviewAppend(a, i, Stamp(first, at), Stamp(tail, at));
        QueueFromAudit(Review(a, i, Stamp(first, at)), i, k + 1, motors, which, cs, at);
      } else {
        QueueFromAudit(a, i, k + 1, motors, which, cs, at);
      }
    }
  }

  /** Whether two states send in the same wire format. */
  predicate SameWire(fc: Fc, after: Fc) {
    after.outputProtocol == fc.outputProtocol && after.outputBidir == fc.outputBidir
  }

  /** Apart from reboots and queued commands, a request sets every value, stops every motor, or leaves them alone. */
  lemma DispatchKinds(fc: Fc, clock: Time, cmd: nat, payload: seq<byte>, written: bool, i: nat)
    requires Configured(fc) && i < |fc.motors|
    requires cmd != REBOOT && !(cmd == DSHOT_COMMANDS && CommandsAccepted(fc, payload))
    ensures var r := Dispatch(fc, clock, cmd, payload, written);
            && |r.fc.motors| == |fc.motors| && SameWire(fc, r.fc)
            && var m := r.fc.motors[i];
               && m.readyAt == fc.motors[i].readyAt
               && if cmd == SET_MOTOR && r.ok then
                 && r.entries == [] && m.commands == fc.motors[i].commands
                 && 2 * i + 1 < |payload| && m.value == ValueAt(payload, i)
               else
                 || (r.entries == [] && m.commands == fc.motors[i].commands && m.value == fc.motors[i].value)
                 || (r.entries == [ClearedAll] && m.commands == [] && m.value == 1000)
  {
    hide C.Shaped, C.Valid, C.WithMotor, C.WithRegister, C.Target, CommandsAccepted, QueueFrom, StopAll, MotorValues,
         SetMotors, Answered, Reboot, RebootEntries;
    StopEmpties(fc, clock, i);
    SetKeepsQueues(fc.motors, payload, i);
  }

  /** A motor and the entries of a restart: stopped, forgotten, and the ESCs reset if the format changes. */
  predicate Restarts(fc: Fc, after: Fc, entries: seq<Entry>, clock: Time, i: nat) {
    && i < |after.motors| == |fc.motors|
    && entries == [ClearedAll] + (if SameWire(fc, after) then [] else [EscsReset])
    && after.motors[i].commands == [] && after.motors[i].value == 1000 && after.motors[i].readyAt == 0.0
    && after.readyAt == clock + 2.0
  }

  lemma RebootRestarts(fc: Fc, clock: Time, i: nat)
    requires Configured(fc) && i < |fc.motors|
    ensures Restarts(fc, Reboot(fc, clock), RebootEntries(fc), clock, i)
  {
    hide C.Shaped;
  }

  /** What a restart leaves in the books. */
  lemma RestartAudit(a: Audit, i: nat, fc: Fc, after: Fc, entries: seq<Entry>, clock: Time)
    requires Restarts(fc, after, entries, clock, i) && WireKept(a, fc)
    ensures var es := Stamp(entries, clock) + [Rebooted(clock)];
            var b := Review(a, i, es);
            && AllPermitted(a, i, es) && Books(b, after.motors[i]) && WireKept(b, after)
            && OnlyBooks(a.(booted := clock), b)
  {
    hide Review, AllPermitted;
    var boot := Rebooted(clock);
    NothingQueued([]);
    StampOne(ClearedAll, clock);
    StampOne(EscsReset, clock);
    StampAppend([ClearedAll], [EscsReset], clock);
    NoEvents(a, i, clock);
    var stop, reset := OfMotor(ClearedAll, clock), OfMotor(EscsReset, clock);
    assert [stop] + [boot] + [] == [stop] + [boot];
    TwoEvents(a, i, stop, boot, []);
    TwoEvents(a, i, stop, reset, [boot]);
    ReviewOne(Note(Note(a, i, stop), i, reset), i, boot);
    NoEvents(Note(Note(a, i, stop), i, boot), i, clock);
    assert [ClearedAll] + [] == [ClearedAll];
  }

  lemma StopEmpties(fc: Fc, clock: Time, i: nat)
    requires Configured(fc) && i < |fc.motors|
    ensures |StopAll(fc.motors)| == |fc.motors| && |Reboot(fc, clock).motors| == |fc.motors|
    ensures var m := StopAll(fc.motors)[i]; m.commands == [] && m.value == 1000 && m.readyAt == fc.motors[i].readyAt
    ensures var m := Reboot(fc, clock).motors[i]; m.commands == [] && m.value == 1000 && m.readyAt == 0.0
  {
    hide C.Shaped;
  }

  lemma SetKeepsQueues(motors: seq<Motor>, payload: seq<byte>, i: nat)
    requires i < |motors|
    ensures var v := MotorValues(payload, |motors|);
            v.Some? ==> && |SetMotors(motors, v.value)| == |motors| && 2 * i + 1 < |payload|
                        && SetMotors(motors, v.value)[i] == motors[i].(value := ValueAt(payload, i))
  {}

  lemma CommandsReply(fc: Fc, clock: Time, payload: seq<byte>, written: bool)
    requires Configured(fc) && CommandsAccepted(fc, payload)
    ensures var r := QueueFrom(fc.motors, payload[1], payload[3..], 0);
            Dispatch(fc, clock, DSHOT_COMMANDS, payload, written) == Reply(fc.(motors := r.0), r.1, true)
  {
    hide C.Shaped, QueueFrom;
  }

  lemma TakersStopped(fc: Fc, payload: seq<byte>, i: nat)
    requires Configured(fc) && i < |fc.motors| && MotorSane(fc.motors[i]) && CommandsAccepted(fc, payload)
    ensures Targeted(payload[1], i) ==> MayTake(fc.motors[i], payload[3..])
  {
    hide C.Shaped;
  }

  lemma CommandsAudit(a: Audit, i: nat, fc: Fc, clock: Time, payload: seq<byte>)
    requires Configured(fc) && i < |fc.motors| && Books(a, fc.motors[i]) && MotorSane(fc.motors[i])
    requires CommandsAccepted(fc, payload)
    ensures var r := QueueFrom(fc.motors, payload[1], payload[3..], 0);
            var after := Review(a, i, Stamp(r.1, clock));
            && AllPermitted(a, i, Stamp(r.1, clock)) && OnlyBooks(a, after)
            && |r.0| == |fc.motors| && Books(after, r.0[i]) && after.wire == a.wire
  {
    hide C.Shaped, QueueFrom, Books, QueueList, Targeted, Permitted, Note;
    var which, cs := payload[1], payload[3..];
    TakersStopped(fc, payload, i);
    QueueFromAudit(a, i, 0, fc.motors, which, cs, clock);
    QueueFromEach(fc.motors, which, cs, 0);
  }

  /** What a request does to the motors, before a change of mode is added. */
  lemma DispatchAudit(a: Audit, i: nat, fc: Fc, clock: Time, cmd: nat, payload: seq<byte>, written: bool)
    requires Configured(fc) && i < |fc.motors| && Books(a, fc.motors[i]) && MotorSane(fc.motors[i]) && WireKept(a, fc)
    ensures var r := Dispatch(fc, clock, cmd, payload, written);
            var booted := cmd == REBOOT && r.ok;
            var es := Stamp(r.entries, clock) + SetEvent(cmd, payload, r.ok) + BootEvent(booted, clock);
            var after := Review(a, i, es);
            && AllPermitted(a, i, es) && OnlyBooks(if booted then a.(booted := clock) else a, after)
            && |r.fc.motors| == |fc.motors| && Books(after, r.fc.motors[i]) && WireKept(after, r.fc)
  {
    hide Dispatch, C.Shaped, Expand, QueueFrom, Review, AllPermitted, Stamp, Permitted, CommandsAccepted, Reboot,
         RebootEntries;
    var r := Dispatch(fc, clock, cmd, payload, written);
    NoEvents(a, i, clock);
    if cmd == REBOOT {
      RebootReply(fc, clock, payload, written);
      if r.ok {
        RebootRestarts(fc, clock, i);
        RestartAudit(a, i, fc, r.fc, r.entries, clock);
        assert Stamp(r.entries, clock) + [] == Stamp(r.entries, clock);
      } else {
        assert Stamp([], clock) + [] + [] == [];
      }
    } else if cmd == DSHOT_COMMANDS && CommandsAccepted(fc, payload) {
      CommandsReply(fc, clock, payload, written);
      CommandsAudit(a, i, fc, clock, payload);
      assert Stamp(r.entries, clock) + [] + [] == Stamp(r.entries, clock);
    } else {
      DispatchKinds(fc, clock, cmd, payload, written, i);
      NothingQueued([]);
      StopEvent(a, i, clock);
      ReviewOne(a, i, MotorsSet(payload));
      AcceptedPermitted(a, i, 0, 1, clock, payload);
      assert [] + SetEvent(cmd, payload, r.ok) + [] == SetEvent(cmd, payload, r.ok);
      assert [OfMotor(ClearedAll, clock)] + [] + [] == [OfMotor(ClearedAll, clock)];
    }
  }

  lemma RebootReply(fc: Fc, clock: Time, payload: seq<byte>, written: bool)
    requires Configured(fc)
    ensures Dispatch(fc, clock, REBOOT, payload, written) ==
            if payload == [] || payload == [0] then Reply(Reboot(fc, clock), RebootEntries(fc), true) else Reply(fc, [], false)
  {
    hide C.Shaped;
  }

  lemma NoEvents(a: Audit, i: nat, at: Time)
    ensures Review(a, i, []) == a && AllPermitted(a, i, []) && Stamp([], at) == []
  {}

  lemma StopEvent(a: Audit, i: nat, at: Time)
    ensures Stamp([ClearedAll], at) == [OfMotor(ClearedAll, at)]
    ensures AllPermitted(a, i, [OfMotor(ClearedAll, at)])
    ensures Review(a, i, [OfMotor(ClearedAll, at)]) == a.(value := 1000, owed := [], sent := [])
  {
    StampOne(ClearedAll, at);
    ReviewOne(a, i, OfMotor(ClearedAll, at));
  }

  // ---------------------------------------------------------------- CLI mode

  lemma CliStepKinds(fc: Fc, clock: Time, c: CliAction, i: nat)
    requires Configured(fc) && i < |fc.motors|
    ensures var (after, entries) := CliStep(fc, clock, c);
            && |after.motors| == |fc.motors| && after.inFourway == fc.inFourway
            && after.lastRequest == fc.lastRequest
            && (if Reboots(fc, c) then Restarts(fc, after, entries, clock, i)
                else entries == [] && after.motors[i] == fc.motors[i] && after.readyAt == fc.readyAt && SameWire(fc, after))
  {
    hide C.Shaped, C.Valid, C.WithSetting, Reboot, RebootEntries;
    RebootKeeps(fc, clock);
    RebootRestarts(fc, clock, i);
    if c.CliSave? {
      var saved := fc.(store := fc.store.(saved := fc.store.values));
      RebootKeeps(saved, clock);
      RebootRestarts(saved, clock, i);
    }
  }

  lemma RebootKeeps(fc: Fc, clock: Time)
    requires Configured(fc)
    ensures var r := Reboot(fc, clock);
            |r.motors| == |fc.motors| && r.inFourway == fc.inFourway && r.lastRequest == fc.lastRequest
  {
    hide C.Shaped;
  }

  /** The mode is judged at the end of the lock section; the rest agrees at every action. */
  predicate Follows(a: Audit, fc: Fc, i: nat) {
    && i < |fc.motors| && Books(a, fc.motors[i])
    && a.asked == fc.lastRequest && a.booted + 2.0 == fc.readyAt && WireKept(a, fc)
  }

  lemma {:induction false} CliRunAudit(a: Audit, i: nat, fc: Fc, clock: Time, cs: seq<CliAction>)
    requires Configured(fc) && Follows(a, fc, i)
    ensures var (next, es) := CliRun(fc, clock, cs);
            var after := Review(a, i, es);
            && AllPermitted(a, i, es) && Follows(after, next, i)
            && after.mode == a.mode && after.traffic == a.traffic && next.inFourway == fc.inFourway
    decreases |cs|
  {
    hide C.Shaped, C.Valid, CliStep, Reboots, Expand, Restarts, Stamp;
    if cs != [] {
      var (next, entries) := CliStep(fc, clock, cs[0]);
      var tail := CliRun(next, clock, cs[1..]).1;
      CliStepKinds(fc, clock, cs[0], i);
      if Reboots(fc, cs[0]) {
        var es := Stamp(entries, clock) + [Rebooted(clock)];
        RestartAudit(a, i, fc, next, entries, clock);
        RestartReady(fc, next, entries, clock, i);
        ReviewAppend(a, i, es, tail);
        CliRunAudit(Review(a, i, es), i, next, clock, cs[1..]);
      } else {
        NoEvents(a, i, clock);
        assert [] + [] + tail == tail;
        CliRunAudit(a, i, next, clock, cs[1..]);
      }
    }
  }

  lemma RestartReady(fc: Fc, after: Fc, entries: seq<Entry>, clock: Time, i: nat)
    requires Restarts(fc, after, entries, clock, i)
    ensures i < |after.motors| && after.readyAt == clock + 2.0
  {}

  lemma TwoEvents(a: Audit, i: nat, e: Event, f: Event, tail: seq<Event>)
    ensures var b := Note(Note(a, i, e), i, f);
            && Review(a, i, [e] + [f] + tail) == Review(b, i, tail)
            && (AllPermitted(a, i, [e] + [f] + tail) <==>
                Permitted(a, i, e) && Permitted(Note(a, i, e), i, f) && AllPermitted(b, i, tail))
  {
    hide Permitted, Note, Review, AllPermitted;
    ReviewAppend(a, i, [e] + [f], tail);
    ReviewAppend(a, i, [e], [f]);
    ReviewOne(a, i, e);
    ReviewOne(Note(a, i, e), i, f);
  }

  // --------------------------------------------------------------- every step

  /** A motor that is off, with no command waiting. */
  predicate IsStopped(m: Motor) {
    m.value == 1000 && m.commands == []
  }

  lemma StoppedBooks(a: Audit, m: Motor)
    requires Books(a, m) && IsStopped(m)
    ensures a.value == 1000 && a.sent == a.owed
  {
    assert a.sent + [] == a.sent;
  }

  lemma SwitchAudit(a: Audit, i: nat, before: Fc, after: Fc)
    requires a.mode == ModeOf(before)
    requires ModeOf(after) != ModeOf(before) && ModeOf(after) != MspMode ==>
               i < |after.motors| && Books(a, after.motors[i]) && IsStopped(after.motors[i])
    ensures AllPermitted(a, i, Switch(before, after))
    ensures Review(a, i, Switch(before, after)) ==
            if ModeOf(before) == ModeOf(after) then a else a.(mode := ModeOf(after), traffic := [])
    ensures forall m :: Books(a, m) ==> Books(Review(a, i, Switch(before, after)), m)
  {
    hide Expand;
    if ModeOf(before) != ModeOf(after) {
      if ModeOf(after) != MspMode {
        StoppedBooks(a, after.motors[i]);
      }
      ReviewOne(a, i, Became(ModeOf(after)));
    }
  }

  /** One motor's auditor after some more events. */
  lemma Extended(w: World, i: nat, es: seq<Event>)
    requires AllPermitted(UNUSED, i, w.trace)
    ensures Review(UNUSED, i, w.trace + es) == Review(Review(UNUSED, i, w.trace), i, es)
    ensures AllPermitted(UNUSED, i, w.trace + es) <==> AllPermitted(Review(UNUSED, i, w.trace), i, es)
  {
    hide Permitted, Note, Review, AllPermitted;
    ReviewAppend(UNUSED, i, w.trace, es);
  }

  lemma DispatchedAudited(b: Bench, w: World, written: bool, i: nat)
    requires FcSane(b, w.fc) && ThreadsSane(b, w) && w.msp.Holding? && i < |w.fc.motors| && Audited(w, i)
    ensures i < |Dispatched(w, written).fc.motors| && Audited(Dispatched(w, written), i)
  {
    hide FcSane, Permitted, Review, AllPermitted, Books, Dispatch, A.Sound;
    var a := Review(UNUSED, i, w.trace);
    assert Configured(w.fc) by { SaneConfigured(b, w.fc); }
    var r := Dispatch(w.fc, w.clock, w.msp.cmd, w.msp.payload, written);
    var booted := w.msp.cmd == REBOOT && r.ok;
    var es := Stamp(r.entries, w.clock) + SetEvent(w.msp.cmd, w.msp.payload, r.ok) + BootEvent(booted, w.clock);
    assert MotorSane(w.fc.motors[i]) by { SaneConfigured(b, w.fc); }
    DispatchAudit(a, i, w.fc, w.clock, w.msp.cmd, w.msp.payload, written);
    DispatchSane(b, w.fc, w.clock, w.msp.cmd, w.msp.payload, written);
    PassthroughStops(w.fc, w.clock, w.msp.cmd, w.msp.payload, written, i);
    SwitchAudit(Review(a, i, es), i, w.fc, r.fc);
    ReviewAppend(a, i, es, Switch(w.fc, r.fc));
    Extended(w, i, es + Switch(w.fc, r.fc));
  }

  /** A request that leaves MSP mode stops every motor. */
  lemma PassthroughStops(fc: Fc, clock: Time, cmd: nat, payload: seq<byte>, written: bool, i: nat)
    requires Configured(fc) && i < |fc.motors| && ModeOf(fc) == MspMode
    ensures var r := Dispatch(fc, clock, cmd, payload, written);
            ModeOf(r.fc) != MspMode ==> i < |r.fc.motors| && IsStopped(r.fc.motors[i])
  {
    hide C.Shaped, C.Valid, C.WithMotor, C.WithRegister, C.Target, CommandsAccepted, QueueFrom, MotorValues, SetMotors, Answered;
  }

  lemma {:induction false} CliKeepsStopped(fc: Fc, clock: Time, cs: seq<CliAction>, i: nat)
    requires Configured(fc) && i < |fc.motors| && IsStopped(fc.motors[i])
    ensures var next := CliRun(fc, clock, cs).0; i < |next.motors| && IsStopped(next.motors[i])
    decreases |cs|
  {
    hide C.Shaped, C.Valid, CliStep, Stamp;
    if cs != [] {
      CliStepStopped(fc, clock, cs[0], i);
      CliKeepsStopped(CliStep(fc, clock, cs[0]).0, clock, cs[1..], i);
    }
  }

  /** CLI text never opens a mode other than the plain one. */
  lemma {:induction false} CliModes(fc: Fc, clock: Time, cs: seq<CliAction>)
    requires Configured(fc) && !fc.inFourway
    ensures var next := CliRun(fc, clock, cs).0; ModeOf(next) == ModeOf(fc) || ModeOf(next) == MspMode
    decreases |cs|
  {
    hide C.Shaped, C.Valid, C.WithSetting, Stamp;
    if cs != [] {
      CliModes(CliStep(fc, clock, cs[0]).0, clock, cs[1..]);
    }
  }

  lemma CliStepStopped(fc: Fc, clock: Time, a: CliAction, i: nat)
    requires Configured(fc) && i < |fc.motors| && IsStopped(fc.motors[i])
    ensures var next := CliStep(fc, clock, a).0; i < |next.motors| && IsStopped(next.motors[i])
  {
    hide C.Shaped, C.Valid, C.WithSetting;
  }

  lemma SaneConfigured(b: Bench, fc: Fc)
    requires FcSane(b, fc)
    ensures Configured(fc) && forall j :: 0 <= j < |fc.motors| ==> MotorSane(fc.motors[j])
  {}

  lemma InCliAudited(b: Bench, w: World, begun: Fc, first: seq<Event>, cs: seq<CliAction>, i: nat)
    requires FcSane(b, w.fc) && !w.fc.inFourway && i < |w.fc.motors| && Audited(w, i) && !w.msp.Relaying?
    requires Configured(begun) && !begun.inFourway
    requires || (begun == w.fc && first == [])
             || (begun == EnterCli(w.fc) && first == [OfMotor(ClearedAll, w.clock)])
    ensures i < |InCli(w, begun, first, cs).fc.motors| && Audited(InCli(w, begun, first, cs), i)
  {
    hide FcSane, Permitted, Review, AllPermitted, Expand, CliRun;
    var a := Review(UNUSED, i, w.trace);
    var (next, es) := CliRun(begun, w.clock, cs);
    var ready := Review(a, i, first);
    NoEvents(a, i, w.clock);
    StopEvent(a, i, w.clock);
    NothingQueued([]);
    CliRunAudit(ready, i, begun, w.clock, cs);
    if begun == EnterCli(w.fc) {
      CliKeepsStopped(begun, w.clock, cs, i);
    } else {
      CliModes(begun, w.clock, cs);
    }
    SwitchAudit(Review(ready, i, es), i, w.fc, next);
    ReviewAppend(a, i, first, es);
    ReviewAppend(a, i, first + es, Switch(w.fc, next));
    Extended(w, i, first + es + Switch(w.fc, next));
  }

  lemma TurnAudited(b: Bench, w: World, due: bool, i: nat)
    requires FcSane(b, w.fc) && ThreadsSane(b, w) && Enabled(w, SenderTurn(due)) && i < |w.fc.motors| && Audited(w, i)
    ensures var next := Next(b, w, SenderTurn(due)); i < |next.fc.motors| && Audited(next, i)
  {
    hide FcSane, Permitted, Review, AllPermitted, Books, DshotTurn, A.Sound;
    assert Configured(w.fc) by { SaneConfigured(b, w.fc); }
    SaneConfigured(b, w.fc);
    var a := Review(UNUSED, i, w.trace);
    TurnAudit(a, i, w.fc, w.sampled.value, due, w.clock);
    Extended(w, i, Stamp(DshotTurn(w.fc, w.sampled.value, due).1, w.clock));
  }

  lemma RequestAudited(b: Bench, w: World, cmd: nat, payload: seq<byte>, i: nat)
    requires Configured(w.fc) && Enabled(w, Request(cmd, payload)) && i < |w.fc.motors| && Audited(w, i)
    ensures Audited(Next(b, w, Request(cmd, payload)), i)
  {
    hide C.Shaped, Review, AllPermitted, Expand;
    var a := Review(UNUSED, i, w.trace);
    ReviewOne(a, i, Asked(w.clock));
    Extended(w, i, [Asked(w.clock)]);
  }

  lemma RelayAudited(b: Bench, w: World, i: nat)
    requires Configured(w.fc) && ThreadsSane(b, w) && Enabled(w, Relay) && i < |w.fc.motors| && Audited(w, i)
    ensures Audited(Next(b, w, Relay), i)
  {
    hide C.Shaped, Review, AllPermitted, Expand, A.Sound;
    var a := Review(UNUSED, i, w.trace);
    var e := Traffic(w.msp.left[0]);
    ReviewOne(a, i, e);
    Extended(w, i, [e]);
    assert a.traffic + w.msp.left == a.traffic + [w.msp.left[0]] + w.msp.left[1..];
  }

  lemma ChunkAudited(b: Bench, w: World, data: seq<byte>, i: nat)
    requires Configured(w.fc) && Enabled(w, Chunk(data)) && i < |w.fc.motors| && Audited(w, i)
    ensures var next := Next(b, w, Chunk(data)); next.fc == w.fc && Audited(next, i)
  {
    hide C.Shaped, Review, AllPermitted, Expand, S.Served;
    FourWaySession.ServedExtendsLog(b.setup, w.session.(buf := w.session.buf + data));
  }

  lemma EndAudited(b: Bench, w: World, i: nat)
    requires FcSane(b, w.fc) && ThreadsSane(b, w) && Enabled(w, EndSession) && i < |w.fc.motors| && Audited(w, i)
    ensures i < |SessionEnded(w).fc.motors| && Audited(SessionEnded(w), i)
  {
    hide C.Shaped, Review, AllPermitted, Expand, A.Sound, MotorSane, Restarts, Stamp, RebootEntries;
    var a := Review(UNUSED, i, w.trace);
    var entries := RebootEntries(w.fc);
    var fc := Reboot(w.fc, w.clock).(inFourway := false);
    var first := Restarted(w.session.connected);
    var es := Stamp(entries, w.clock) + [Rebooted(w.clock)];
    RebootSane(b, w.fc, w.clock);
    RebootRestarts(w.fc, w.clock, i);
    RestartReady(w.fc, Reboot(w.fc, w.clock), entries, w.clock, i);
    ReviewOne(a, i, first);
    RestartAudit(a, i, w.fc, Reboot(w.fc, w.clock), entries, w.clock);
    ReviewAppend(a, i, [first], es);
    SwitchAudit(Review(a, i, es), i, w.fc, fc);
    ReviewAppend(a, i, [first] + es, Switch(w.fc, fc));
    assert [first] + Stamp(entries, w.clock) + [Rebooted(w.clock)] == [first] + es;
    Extended(w, i, [first] + es + Switch(w.fc, fc));
  }

  lemma NextAudited(b: Bench, w: World, step: Step, i: nat)
    requires FcSane(b, w.fc) && ThreadsSane(b, w) && i < |w.fc.motors| && Audited(w, i)
    ensures var next := Next(b, w, step); i < |next.fc.motors| && Audited(next, i)
  {
    hide FcSane, ThreadsSane, AllPermitted, Review, Books, Agrees, C.Shaped, DshotTurn, Dispatched, InCli,
         SessionEnded, ChunkBegun, Stamp;
    SaneConfigured(b, w.fc);
    if Enabled(w, step) {
      match step
      case SenderTurn(due) => TurnAudited(b, w, due, i);
      case EdtSeen(j) => EdtAudited(w, j, i);
      case Request(cmd, payload) => RequestAudited(b, w, cmd, payload, i);
      case Answer(written) => DispatchedAudited(b, w, written, i);
      case OpenCli(cs) => InCliAudited(b, w, EnterCli(w.fc), [OfMotor(ClearedAll, w.clock)], cs, i);
      case CliChunk(cs) => InCliAudited(b, w, w.fc, [], cs, i);
      case Chunk(data) => ChunkAudited(b, w, data, i);
      case Relay => RelayAudited(b, w, i);
      case ChunkDone => assert Review(UNUSED, i, w.trace).traffic + [] == Review(UNUSED, i, w.trace).traffic;
      case EndSession => EndAudited(b, w, i);
      case _ =>
    }
  }

  lemma EdtAudited(w: World, j: nat, i: nat)
    requires j < |w.fc.motors| && i < |w.fc.motors| && Audited(w, i)
    ensures Audited(w.(fc := w.fc.(motors := w.fc.motors[j := w.fc.motors[j].(edtSeen := true)])), i)
  {
    hide AllPermitted, Review, Expand;
  }

  lemma NextSane(b: Bench, w: World, step: Step)
    requires FcSane(b, w.fc) && ThreadsSane(b, w)
    ensures FcSane(b, Next(b, w, step).fc)
  {
    hide C.SaneStore, DshotTurn, Dispatch, CliRun, Reboot, A.Sound, Stamp, S.Served;
    assert Configured(w.fc) by { SaneConfigured(b, w.fc); }
    if Enabled(w, step) {
      match step
      case SenderTurn(due) => TurnSane(b, w.fc, w.sampled.value, due);
      case Answer(written) => DispatchSane(b, w.fc, w.clock, w.msp.cmd, w.msp.payload, written);
      case OpenCli(cs) =>
        StopAllSane(w.fc.motors);
        CliRunSane(b, EnterCli(w.fc), w.clock, cs);
      case CliChunk(cs) => CliRunSane(b, w.fc, w.clock, cs);
      case EndSession => RebootSane(b, w.fc, w.clock);
      case _ =>
    }
  }

  lemma NextThreads(b: Bench, w: World, step: Step)
    requires S.ValidSetup(b.setup) && FcSane(b, w.fc) && ThreadsSane(b, w)
    ensures ThreadsSane(b, Next(b, w, step))
  {
    hide FcSane, C.Shaped, DshotTurn, Dispatched, ChunkBegun, CliRun, Reboot, A.Sound, Stamp, S.ValidSetup;
    assert Configured(w.fc) by { SaneConfigured(b, w.fc); }
    if Enabled(w, step) {
      match step
      case SenderTurn(due) => TurnKeepsMode(w.fc, w.sampled.value, due);
      case Answer(written) => AnswerThreads(b, w, written);
      case Chunk(data) => ChunkThreads(b, w, data);
      case _ =>
    }
  }

  lemma AnswerThreads(b: Bench, w: World, written: bool)
    requires S.ValidSetup(b.setup) && FcSane(b, w.fc) && ThreadsSane(b, w) && w.msp.Holding?
    ensures ThreadsSane(b, Dispatched(w, written))
  {
    hide FcSane, C.Shaped, Dispatch, A.Sound, Stamp, S.ValidSetup;
    assert Configured(w.fc) by { SaneConfigured(b, w.fc); }
    A.FreshSound(b.setup, false);
  }

  lemma ChunkThreads(b: Bench, w: World, data: seq<byte>)
    requires ThreadsSane(b, w) && Enabled(w, Chunk(data))
    ensures ThreadsSane(b, ChunkBegun(b, w, data))
  {
    hide A.Sound, S.Served;
    MoreBufferSound(b, w.session, data);
    A.ServedSound(b.setup, w.session.(buf := w.session.buf + data), false);
  }

  lemma TurnKeepsMode(fc: Fc, now: Time, due: bool)
    ensures ModeOf(DshotTurn(fc, now, due).0) == ModeOf(fc)
  {
    hide SendFrom;
  }

  lemma MoreBufferSound(b: Bench, s: S.Session, data: seq<byte>)
    requires A.Sound(b.setup, s, false)
    ensures A.Sound(b.setup, s.(buf := s.buf + data), false)
  {}

  // ----------------------------------------------------------------- all runs

  lemma NextInv(b: Bench, w: World, step: Step)
    requires S.ValidSetup(b.setup) && Inv(b, w) && Configured(w.fc)
    ensures Inv(b, Next(b, w, step))
  {
    hide FcSane, ThreadsSane, Audited, Next, C.Shaped, S.ValidSetup;
    NextSane(b, w, step);
    NextThreads(b, w, step);
    SameCount(b, w.fc);
    SameCount(b, Next(b, w, step).fc);
    forall i: nat | i < |w.fc.motors|
      ensures Audited(Next(b, w, step), i)
    {
      NextAudited(b, w, step, i);
    }
  }

  lemma SameCount(b: Bench, fc: Fc)
    requires FcSane(b, fc)
    ensures |fc.motors| == Count(b)
  {}

  lemma StartInv(b: Bench)
    requires ValidBench(b)
    ensures Inv(b, Start(b))
  {
    hide C.Shaped;
    A.FreshSound(b.setup, false);
    NothingQueued([]);
  }

  /** Any steps of the two threads, the host and the clock, from power up. */
  function Run(b: Bench, steps: seq<Step>): (w: World)
    requires ValidBench(b)
    ensures Inv(b, w)
    ensures Configured(w.fc)
  {
    if steps == [] then
      StartInv(b);
      Start(b)
    else
      var before := Run(b, steps[..|steps| - 1]);
      NextInv(b, before, steps[|steps| - 1]);
      SaneConfigured(b, Next(b, before, steps[|steps| - 1]).fc);
      Next(b, before, steps[|steps| - 1])
  }

  /** In every run, every event was one the audit permits at that point, for every motor. */
  lemma EveryEventPermitted(b: Bench, steps: seq<Step>, i: nat, k: nat)
    requires ValidBench(b) && i < Count(b) && k < |Run(b, steps).trace|
    ensures var t := Run(b, steps).trace; Permitted(Review(UNUSED, i, t[..k]), i, t[k])
  {
    hide Run, Permitted, Review, AllPermitted, Agrees, Books, TrafficKept;
    SameCount(b, Run(b, steps).fc);
    assert Audited(Run(b, steps), i);
    PermittedAt(UNUSED, i, Run(b, steps).trace, k);
  }

  /** Every value a run sends fits the eleven bits of a frame, so the ESC reads what was meant. */
  lemma FramesCarryTheirValue(b: Bench, steps: seq<Step>, k: nat, bidir: bool)
    requires ValidBench(b) && k < |Run(b, steps).trace| && IsFrame(Run(b, steps).trace[k])
    ensures var f := Run(b, steps).trace[k].entry.frame;
            D.Frame(f.value, f.telem, bidir, false) / 32 == f.value
  {
    hide Run, Review;
    EveryEventPermitted(b, steps, 0, k);
    var f := Run(b, steps).trace[k].entry.frame;
    D.FrameReads(f.value, f.telem, bidir, false);
  }

  predicate IsFrame(e: Event) {
    e.OfMotor? && e.entry.Sent?
  }

  predicate NoSwitch(es: seq<Event>) {
    forall n :: 0 <= n < |es| ==> !es[n].Became?
  }

  lemma {:induction false} ModeHolds(a: Audit, i: nat, es: seq<Event>)
    requires NoSwitch(es)
    ensures Review(a, i, es).mode == a.mode
    decreases |es|
  {
    if es != [] {
      ModeHolds(Note(a, i, es[0]), i, es[1..]);
    }
  }

  lemma NoteMode(a: Audit, i: nat, e: Event)
    ensures Note(a, i, e).mode == if e.Became? then e.mode else a.mode
  {}

  lemma {:induction false} LastSwitch(a: Audit, i: nat, es: seq<Event>) returns (j: nat)
    requires Review(a, i, es).mode != a.mode
    ensures j < |es| && es[j] == Became(Review(a, i, es).mode) && NoSwitch(es[j + 1..])
    decreases |es|
  {
    hide Note;
    var before, last := es[..|es| - 1], es[|es| - 1];
    assert es == before + [last];
    NoteMode(Review(a, i, before), i, last);
    ReviewAppend(a, i, before, [last]);
    ReviewOne(Review(a, i, before), i, last);
    if last.Became? {
      j := |es| - 1;
    } else {
      j := LastSwitch(a, i, before);
      assert es[j + 1..] == before[j + 1..] + [last];
    }
  }

  /**
   The signal wires are never shared: between a change to 4-way or CLI mode and the next
   change of mode no DShot frame is sent, and 4-way traffic happens only in 4-way mode.
   */
  lemma WiresNeverShared(b: Bench, steps: seq<Step>, j: nat, k: nat)
    requires ValidBench(b) && j < k < |Run(b, steps).trace|
    requires var t := Run(b, steps).trace; t[j].Became? && NoSwitch(t[j + 1..k])
    ensures var t := Run(b, steps).trace;
            && (IsFrame(t[k]) ==> t[j].mode == MspMode)
            && (t[k].Traffic? ==> t[j].mode == FourWayMode)
  {
    hide Run, Review;
    var t := Run(b, steps).trace;
    EveryEventPermitted(b, steps, 0, k);
    assert t[..k] == t[..j] + ([t[j]] + t[j + 1..k]);
    ReviewAppend(UNUSED, 0, t[..j], [t[j]] + t[j + 1..k]);
    var a := Review(UNUSED, 0, t[..j]);
    ReviewAppend(a, 0, [t[j]], t[j + 1..k]);
    ReviewOne(a, 0, t[j]);
    ModeHolds(Note(a, 0, t[j]), 0, t[j + 1..k]);
  }

  /** 4-way traffic never comes before the first session has begun. */
  lemma TrafficNeedsSession(b: Bench, steps: seq<Step>, k: nat) returns (j: nat)
    requires ValidBench(b) && k < |Run(b, steps).trace| && Run(b, steps).trace[k].Traffic?
    ensures var t := Run(b, steps).trace; j < k && t[j] == Became(FourWayMode) && NoSwitch(t[j + 1..k])
  {
    hide Run, Review;
    var t := Run(b, steps).trace;
    EveryEventPermitted(b, steps, 0, k);
    j := LastSwitch(UNUSED, 0, t[..k]);
    assert t[..k][j + 1..] == t[j + 1..k];
  }

  /**
   Every command accepted since a motor was last stopped has been sent twenty times, in
   order, or is still in its queue, with exactly the missing repeats; and every frame of
   4-way traffic in the session under way went to an ESC that had answered.
   */
  lemma NothingLost(b: Bench, steps: seq<Step>, i: nat)
    requires ValidBench(b) && i < Count(b)
    ensures var w := Run(b, steps);
            var a := Review(UNUSED, i, w.trace);
            && |w.fc.motors| == Count(b)
            && a.owed == a.sent + Expand(w.fc.motors[i].commands)
            && (w.fc.motors[i].commands == [] ==> a.sent == a.owed)
            && MotorSane(w.fc.motors[i])
            && (a.mode == FourWayMode ==> A.Authorised(b.setup.answers, a.traffic, false))
  {
    hide Run, Review, AllPermitted, A.Authorised, A.Live, MotorSane, C.SaneStore;
    var w := Run(b, steps);
    var a := Review(UNUSED, i, w.trace);
    assert Audited(w, i);
    if w.fc.motors[i].commands == [] {
      assert a.sent + [] == a.sent;
    }
    if a.mode == FourWayMode && w.msp.Relaying? {
      PrefixAuthorised(b.setup.answers, a.traffic, w.msp.left);
    }
  }

  lemma {:induction false} PrefixAuthorised(answers: W.Answers, log: W.History, more: W.History)
    requires A.Authorised(answers, log + more, false)
    ensures A.Authorised(answers, log, false)
    decreases |more|
  {
    hide A.Live, A.NeedsLive;
    if more == [] {
      assert log + more == log;
    } else {
      assert (log + more)[..|log + more| - 1] == log + more[..|more| - 1];
      PrefixAuthorised(answers, log, more[..|more| - 1]);
    }
  }

  // ------------------------------------------------------------- the watchdog

  lemma {:induction false} SentExactly(fc: Fc, now: Time, k: nat, i: nat, f: Frame)
    requires k <= |fc.motors| && i < |fc.motors|
    ensures Sent(i, f) in SendFrom(fc, now, k).1 <==> k <= i && f == SendMotor(fc, fc.motors[i], now).1
    decreases |fc.motors| - k
  {
    hide SendMotor;
    if k < |fc.motors| {
      SentExactly(fc, now, k + 1, i, f);
    }
  }

  /** The frame a turn sends to a motor, stopped first if the link was silent. */
  function SentBy(fc: Fc, now: Time, i: nat): Frame
    requires i < |fc.motors|
  {
    SendMotor(fc, if now - fc.lastRequest > 2.0 then Stopped(fc.motors[i]) else fc.motors[i], now).1
  }

  /** Where a turn sends at all, it sends each motor that one frame. */
  lemma TurnSends(fc: Fc, now: Time, i: nat)
    requires i < |fc.motors|
    ensures forall f :: Sent(i, f) in DshotTurn(fc, now, true).1 <==> MayDrive(fc) && f == SentBy(fc, now, i)
  {
    hide SendFrom, SendMotor;
    if MayDrive(fc) {
      var ready := if now - fc.lastRequest > 2.0 then fc.(motors := StopAll(fc.motors)) else fc;
      FrameIgnoresMotors(fc, ready, i, ready.motors[i], now);
      forall f ensures Sent(i, f) in DshotTurn(fc, now, true).1 <==> f == SentBy(fc, now, i) {
        SentExactly(ready, now, 0, i, f);
      }
    }
  }

  predicate Throttle(f: Frame) {
    !f.telem && f.value > 0
  }

  /** A frame that the silence rule does not allow over two seconds after the last request. */
  predicate Drives(f: Frame) {
    !Silent(f) && !(f.telem && f.value in {13, 14})
  }

  /**
   A turn sends a motor more than silence or a telemetry switch exactly when the time
   sampled before the lock is past the deadlines and at most two seconds after the last
   request, and the motor has another command queued, or none and is on.
   */
  lemma DrivenExactly(fc: Fc, now: Time, i: nat)
    requires i < |fc.motors|
    ensures (exists f :: Sent(i, f) in DshotTurn(fc, now, true).1 && Drives(f)) <==>
            && MayDrive(fc) && now - fc.lastRequest <= 2.0 && now >= Deadline(fc, fc.motors[i])
            && var commands := fc.motors[i].commands;
               if commands == [] then fc.motors[i].value > 1000 else commands[0].number !in {13, 14}
  {
    hide DshotTurn, MayDrive;
    TurnSends(fc, now, i);
    DshotValueRange(fc.motors[i].value);
    if MayDrive(fc) {
      assert Sent(i, SentBy(fc, now, i)) in DshotTurn(fc, now, true).1;
    }
  }

  /**
   A turn drives a motor exactly when the time sampled before the lock is past the
   deadlines and at most two seconds after the last request, the motor is on and its
   queue is empty.
   */
  lemma ThrottleSentExactly(fc: Fc, now: Time, i: nat)
    requires i < |fc.motors|
    ensures (exists f :: Sent(i, f) in DshotTurn(fc, now, true).1 && Throttle(f)) <==>
            && MayDrive(fc) && now - fc.lastRequest <= 2.0 && now >= Deadline(fc, fc.motors[i])
            && fc.motors[i].commands == [] && fc.motors[i].value > 1000
  {
    hide DshotTurn, MayDrive;
    TurnSends(fc, now, i);
    DshotValueRange(fc.motors[i].value);
    if MayDrive(fc) {
      assert Sent(i, SentBy(fc, now, i)) in DshotTurn(fc, now, true).1;
    }
  }

  /**
   Judged by the time the frame leaves, the two seconds are not kept: the sender samples
   its time, waits seven seconds for the lock, and still drives the motor.
   */
  lemma StaleSampleDrives(b: Bench, payload: seq<byte>)
    requires ValidBench(b) && Count(b) == 1 && C.Protocol(b.values) != 9
    requires |payload| == 2 && 1000 < ValueAt(payload, 0) <= 2000
    ensures var w := Run(b, StaleSteps(payload));
            && w.sampled == Some(2.0) && w.clock - w.fc.lastRequest > 2.0
            && exists f :: Sent(0, f) in DshotTurn(w.fc, 2.0, true).1 && Throttle(f)
  {
    hide C.Shaped, C.Valid, DshotTurn, Dispatched, Run, Inv, FcSane;
    var w1 := RunOn(b, [], Request(SET_MOTOR, payload));
    assert [] + [Request(SET_MOTOR, payload)] == [Request(SET_MOTOR, payload)];
    RunNothing(b);
    var w2 := RunOn(b, [Request(SET_MOTOR, payload)], Answer(false));
    SetMotorAnswered(w1, payload);
    var w3 := RunOn(b, [Request(SET_MOTOR, payload)] + [Answer(false)], Tick(2.0));
    var w4 := RunOn(b, [Request(SET_MOTOR, payload)] + [Answer(false)] + [Tick(2.0)], SampleTime);
    var w := RunOn(b, [Request(SET_MOTOR, payload)] + [Answer(false)] + [Tick(2.0)] + [SampleTime], Tick(7.0));
    ThrottleSentExactly(w.fc, 2.0, 0);
  }

  function StaleSteps(payload: seq<byte>): seq<Step> {
    [Request(SET_MOTOR, payload)] + [Answer(false)] + [Tick(2.0)] + [SampleTime] + [Tick(7.0)]
  }

  lemma RunNothing(b: Bench)
    requires ValidBench(b)
    ensures Run(b, []) == Start(b)
  {}

  lemma RunOn(b: Bench, steps: seq<Step>, step: Step) returns (w: World)
    requires ValidBench(b)
    ensures w == Run(b, steps + [step]) == Next(b, Run(b, steps), step)
  {
    hide Next;
    w := Run(b, steps + [step]);
    assert (steps + [step])[..|steps + [step]| - 1] == steps;
  }

  lemma SetMotorAnswered(w: World, payload: seq<byte>)
    requires Configured(w.fc) && |w.fc.motors| == 1 && w.msp == Holding(SET_MOTOR, payload)
    requires |payload| == 2 && 1000 < ValueAt(payload, 0) <= 2000
    ensures Dispatched(w, false) ==
            w.(msp := Waiting, fc := w.fc.(motors := [w.fc.motors[0].(value := ValueAt(payload, 0))]),
               trace := w.trace + [MotorsSet(payload)])
  {
    hide C.Shaped, C.Valid, MotorSane;
    assert [] + [MotorsSet(payload)] + [] + [] == [MotorsSet(payload)];
    SetMotorAllOrNone(w.fc, w.clock, payload, 0);
  }
}
