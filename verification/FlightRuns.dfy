/**
 The fake flight controller under every interleaving of its DShot and MSP threads, one
 lock section or outside event at a time. The trace holds everything that reached the
 shared signal wires, with the events needed to judge it.
 */
module FlightRuns {
  import opened Bytes
  import opened Reals
  import opened FlightController
  import C = Configuration
  import W = OneWire
  import S = FourWayServer
  import FourWaySession
  import A = FourWayAuthority

  datatype Mode = MspMode | CliMode | FourWayMode

  datatype Event =
    | OfMotor(entry: Entry, at: Time)
    | MotorsSet(payload: seq<byte>)
    | Became(mode: Mode)
    | Asked(at: Time)
    | Rebooted(at: Time)
    | Traffic(frame: W.Event)
    | Restarted(escs: set<nat>)

  /**
   What the MSP thread is doing: waiting for bytes; holding a request whose time it has
   noted but whose lock it has not taken; passing on a chunk of a 4-way session; or about
   to end that session.
   */
  datatype MspThread =
    | Waiting
    | Holding(cmd: nat, payload: seq<byte>)
    | Relaying(left: W.History, after: S.Session)
    | Ending

  datatype World = World(
    fc: Fc, session: S.Session, msp: MspThread,
    clock: Time, sampled: Option<Time>, trace: seq<Event>)

  datatype Step =
    | Tick(dt: Time)
    | SampleTime
    | SenderTurn(due: bool)
    | EdtSeen(motor: nat)
    | Request(cmd: nat, payload: seq<byte>)
    | Answer(written: bool)
    | OpenCli(actions: seq<CliAction>)
    | CliChunk(actions: seq<CliAction>)
    | Chunk(data: seq<byte>)
    | Relay
    | ChunkDone
    | EndSession

  /** The bench: how its ESCs answer, and the settings it starts with. */
  datatype Bench = Bench(setup: S.Setup, values: C.Values, debugModes: byte)

  function Count(b: Bench): nat {
    |b.setup.canReset|
  }

  predicate ValidBench(b: Bench) {
    S.ValidSetup(b.setup) && C.Sane(b.values, Count(b), b.debugModes)
  }

  // -------------------------------------------------------------- the machine

  function ModeOf(fc: Fc): Mode {
    if fc.inFourway then FourWayMode else if fc.cli then CliMode else MspMode
  }

  function Stamp(entries: seq<Entry>, at: Time): seq<Event> {
    if entries == [] then [] else [OfMotor(entries[0], at)] + Stamp(entries[1..], at)
  }

  function Switch(before: Fc, after: Fc): seq<Event> {
    if ModeOf(before) == ModeOf(after) then [] else [Became(ModeOf(after))]
  }

  predicate Enabled(w: World, step: Step) {
    match step
    case Tick(dt) => dt >= 0.0
    case SampleTime => w.sampled.None?
    case SenderTurn(_) => w.sampled.Some?
    case EdtSeen(i) => i < |w.fc.motors|
    case Request(_, _) => w.msp.Waiting? && !w.fc.inFourway && !w.fc.cli
    case Answer(_) => w.msp.Holding?
    case OpenCli(_) => w.msp.Waiting? && !w.fc.inFourway && !w.fc.cli
    case CliChunk(_) => w.msp.Waiting? && !w.fc.inFourway && w.fc.cli
    case Chunk(_) => w.msp.Waiting? && w.fc.inFourway
    case Relay => w.msp.Relaying? && w.msp.left != []
    case ChunkDone => w.msp.Relaying? && w.msp.left == []
    case EndSession => w.msp.Ending?
  }

  predicate Reboots(fc: Fc, a: CliAction)
    requires Configured(fc)
  {
    a.CliExit? || (a.CliSave? && C.Valid(fc.store.values) && a.written)
  }

  /** A chunk of CLI text is handled to its end under one lock, even past an exit. */
  function CliRun(fc: Fc, clock: Time, actions: seq<CliAction>): (r: (Fc, seq<Event>))
    requires Configured(fc)
    ensures Configured(r.0)
    decreases |actions|
  {
    if actions == [] then (fc, [])
    else
      var (next, entries) := CliStep(fc, clock, actions[0]);
      var tail := CliRun(next, clock, actions[1..]);
      (tail.0, Stamp(entries, clock) + BootEvent(Reboots(fc, actions[0]), clock) + tail.1)
  }

  /** An accepted change of motor values. */
  function SetEvent(cmd: nat, payload: seq<byte>, ok: bool): seq<Event> {
    if cmd == SET_MOTOR && ok then [MotorsSet(payload)] else []
  }

  function BootEvent(booted: bool, clock: Time): seq<Event> {
    if booted then [Rebooted(clock)] else []
  }

  function Dispatched(w: World, written: bool): World
    requires w.msp.Holding? && Configured(w.fc)
  {
    var r := Dispatch(w.fc, w.clock, w.msp.cmd, w.msp.payload, written);
    w.(fc := r.fc, msp := Waiting,
       session := if w.msp.cmd == SET_PASSTHROUGH then S.FRESH else w.session,
       trace := w.trace + (Stamp(r.entries, w.clock) + SetEvent(w.msp.cmd, w.msp.payload, r.ok) +
                           BootEvent(w.msp.cmd == REBOOT && r.ok, w.clock) +
                           Switch(w.fc, r.fc)))
  }

  function InCli(w: World, begun: Fc, first: seq<Event>, actions: seq<CliAction>): World
    requires Configured(begun)
  {
    var r := CliRun(begun, w.clock, actions);
    w.(fc := r.0, trace := w.trace + (first + r.1 + Switch(w.fc, r.0)))
  }

  function ChunkBegun(b: Bench, w: World, data: seq<byte>): World {
    var after := S.Fed(b.setup, w.session, data).0;
    FourWaySession.ServedExtendsLog(b.setup, w.session.(buf := w.session.buf + data));
    w.(msp := Relaying(after.log[|w.session.log|..], after))
  }

  function SessionEnded(w: World): World
    requires Configured(w.fc)
  {
    var fc := Reboot(w.fc, w.clock).(inFourway := false);
    w.(fc := fc, msp := Waiting,
       trace := w.trace + ([Restarted(w.session.connected)] + Stamp(RebootEntries(w.fc), w.clock) +
                           [Rebooted(w.clock)] + Switch(w.fc, fc)))
  }

  function Next(b: Bench, w: World, step: Step): World
    requires Configured(w.fc)
  {
    if !Enabled(w, step) then w
    else
      match step
      case Tick(dt) => w.(clock := w.clock + dt)
      case SampleTime => w.(sampled := Some(w.clock))
      case SenderTurn(due) =>
        var (fc, entries) := DshotTurn(w.fc, w.sampled.value, due);
        w.(fc := fc, sampled := None, trace := w.trace + Stamp(entries, w.clock))
      case EdtSeen(i) =>
        w.(fc := w.fc.(motors := w.fc.motors[i := w.fc.motors[i].(edtSeen := true)]))
      case Request(cmd, payload) =>
        w.(fc := w.fc.(lastRequest := w.clock), msp := Holding(cmd, payload),
           trace := w.trace + [Asked(w.clock)])
      case Answer(written) => Dispatched(w, written)
      case OpenCli(actions) => InCli(w, EnterCli(w.fc), [OfMotor(ClearedAll, w.clock)], actions)
      case CliChunk(actions) => InCli(w, w.fc, [], actions)
      case Chunk(data) => ChunkBegun(b, w, data)
      case Relay =>
        w.(msp := w.msp.(left := w.msp.left[1..]), trace := w.trace + [Traffic(w.msp.left[0])])
      case ChunkDone =>
        w.(session := w.msp.after, msp := if w.msp.after.exited then Ending else Waiting)
      case EndSession => SessionEnded(w)
  }

  function Start(b: Bench): World
    requires ValidBench(b)
  {
    World(Started(C.Store(b.values, b.values), Count(b), 0.0), S.FRESH, Waiting, 0.0, None, [])
  }

  // ------------------------------------------------------------------ the audit

  /**
   What the events so far say, as one motor's auditor would note it down: the mode, the
   motor value, the command frames owed and sent since the last stop, until when the motor
   is to be left quiet, the wire format its ESC has seen since it last started, the 4-way
   traffic of this session, and when the last request and reboot were.
   */
  datatype Audit = Audit(
    mode: Mode, value: nat, owed: seq<nat>, sent: seq<nat>, quiet: Time, wire: Option<(byte, bool)>,
    traffic: W.History, asked: Time, booted: Time)

  const UNUSED := Audit(MspMode, 1000, [], [], 0.0, None, [], 0.0, 0.0)

  function Copies(command: nat, n: int): (r: seq<nat>)
    ensures |r| == (if n < 0 then 0 else n) && forall k :: 0 <= k < |r| ==> r[k] == command
    decreases n
  {
    if n <= 0 then [] else [command] + Copies(command, n - 1)
  }

  function Expand(commands: seq<Command>): seq<nat> {
    if commands == [] then [] else Copies(commands[0].number, commands[0].count) + Expand(commands[1..])
  }

  /**
   Until when a motor is quiet after a frame: each command is sent twenty times, and the
   last copy of a settings save or of a beacon leaves the ESC busy.
   */
  function QuietAfter(a: Audit, f: Frame): Time {
    if !f.telem || |a.sent + [f.value]| % 20 != 0 then a.quiet
    else if f.value == 12 then f.now + 0.04
    else if 1 <= f.value <= 5 then f.now + 0.3
    else a.quiet
  }

  function Note(a: Audit, i: nat, e: Event): Audit {
    match e
    case OfMotor(Accepted(j, c), _) => if j == i then a.(owed := a.owed + Copies(c, 20)) else a
    case OfMotor(Cleared(j), _) => if j == i then a.(value := 1000, owed := [], sent := []) else a
    case OfMotor(ClearedAll, _) => a.(value := 1000, owed := [], sent := [])
    case OfMotor(EscsReset, _) => a.(wire := None)
    case OfMotor(Sent(j, f), _) =>
      if j == i then
        a.(sent := if f.telem then a.sent + [f.value] else a.sent,
           quiet := QuietAfter(a, f), wire := Some((f.protocol, f.bidir)))
      else a
    case MotorsSet(payload) => if 2 * i + 1 < |payload| then a.(value := ValueAt(payload, i)) else a
    case Became(m) => a.(mode := m, traffic := [])
    case Asked(t) => a.(asked := t)
    case Rebooted(t) => a.(booted := t, quiet := 0.0)
    case Traffic(f) => a.(traffic := a.traffic + [f])
    case Restarted(_) => a
  }

  function Review(a: Audit, i: nat, es: seq<Event>): Audit
    decreases |es|
  {
    if es == [] then a else Review(Note(a, i, es[0]), i, es[1..])
  }

  predicate Silent(f: Frame) {
    f.value == 0 && !f.telem
  }

  /** What any frame on any wire must satisfy. */
  predicate FrameAllowed(a: Audit, f: Frame, at: Time) {
    && a.mode == MspMode
    && f.now <= at
    && (if f.telem then 1 <= f.value <= 47 else f.value == 0 || 49 <= f.value <= 2047)
    && f.deadline >= a.booted + 2.0
    && (at < f.deadline ==> Silent(f))
    && (f.now - a.asked > 2.0 ==> Silent(f) || (f.telem && f.value in {13, 14}))
  }

  /**
   What a frame to the audited motor must be: in the format its ESC has seen since it
   started, held back until two seconds after the reboot and while the motor is quiet, and
   carrying the next command owed, else the motor's value.
   */
  predicate FrameRight(a: Audit, f: Frame) {
    && (a.wire == None || a.wire == Some((f.protocol, f.bidir)))
    && f.deadline == Max(a.booted + 2.0, a.quiet)
    && if f.telem then a.sent + [f.value] <= a.owed
    else if f.now < f.deadline then f.value == 0
    else f.value == DshotValue(a.value) && a.sent == a.owed
  }

  predicate Permitted(a: Audit, i: nat, e: Event) {
    match e
    case OfMotor(Sent(j, f), at) => FrameAllowed(a, f, at) && (j == i ==> FrameRight(a, f))
    case OfMotor(Accepted(j, c), _) => 1 <= c <= 47 && (j == i ==> a.value == 1000)
    case Traffic(_) => a.mode == FourWayMode
    case Restarted(_) => a.mode == FourWayMode
    case Became(m) => m != a.mode && (m != MspMode ==> a.value == 1000 && a.sent == a.owed)
    case _ => true
  }

  predicate AllPermitted(a: Audit, i: nat, es: seq<Event>)
    decreases |es|
  {
    es == [] || (Permitted(a, i, es[0]) && AllPermitted(Note(a, i, es[0]), i, es[1..]))
  }

  lemma {:induction false} ReviewAppend(a: Audit, i: nat, es: seq<Event>, more: seq<Event>)
    ensures Review(a, i, es + more) == Review(Review(a, i, es), i, more)
    ensures AllPermitted(a, i, es + more) <==> AllPermitted(a, i, es) && AllPermitted(Review(a, i, es), i, more)
    decreases |es|
  {
    hide Permitted, Note;
    if es == [] {
      assert es + more == more;
    } else {
      assert (es + more)[1..] == es[1..] + more;
      ReviewAppend(Note(a, i, es[0]), i, es[1..], more);
    }
  }

  lemma ReviewOne(a: Audit, i: nat, e: Event)
    ensures Review(a, i, [e]) == Note(a, i, e)
    ensures AllPermitted(a, i, [e]) <==> Permitted(a, i, e)
  {
    hide Permitted, Note;
    assert [e][1..] == [];
  }

  /** Read off at any place of a passed audit. */
  lemma {:induction false} PermittedAt(a: Audit, i: nat, es: seq<Event>, k: nat)
    requires AllPermitted(a, i, es) && k < |es|
    ensures Permitted(Review(a, i, es[..k]), i, es[k])
  {
    hide Permitted, Note;
    assert es == es[..k] + ([es[k]] + es[k + 1..]);
    ReviewAppend(a, i, es[..k], [es[k]] + es[k + 1..]);
    assert ([es[k]] + es[k + 1..])[0] == es[k];
  }

  // ------------------------------------------------------------------ invariant

  /** Every accepted command is sent or still queued, and the motor value is the one last set. */
  predicate Books(a: Audit, m: Motor) {
    a.owed == a.sent + Expand(m.commands) && |a.owed| % 20 == 0 && a.value == m.value && a.quiet == m.readyAt
  }

  predicate MotorSane(m: Motor) {
    && 1000 <= m.value <= 2000 && |m.commands| <= 32
    && (forall k :: 0 <= k < |m.commands| ==> 1 <= m.commands[k].number <= 47 && 1 <= m.commands[k].count <= 20)
    && (forall k :: 0 < k < |m.commands| ==> m.commands[k].count == 20)
  }

  predicate FcSane(b: Bench, fc: Fc) {
    && |fc.motors| == Count(b)
    && (forall i :: 0 <= i < |fc.motors| ==> MotorSane(fc.motors[i]))
    && C.SaneStore(fc.store, Count(b), b.debugModes)
    && fc.outputProtocol in {5, 6, 7, 9}
    && !(fc.cli && fc.inFourway)
  }

  predicate WireKept(a: Audit, fc: Fc) {
    a.wire == None || a.wire == Some((fc.outputProtocol, fc.outputBidir))
  }

  /** The notes agree with the controller. */
  predicate Agrees(a: Audit, fc: Fc) {
    && WireKept(a, fc)
    && a.mode == ModeOf(fc)
    && a.asked == fc.lastRequest
    && a.booted + 2.0 == fc.readyAt
  }

  predicate ThreadsSane(b: Bench, w: World) {
    && (w.msp.Holding? ==> ModeOf(w.fc) == MspMode)
    && (w.msp.Relaying? || w.msp.Ending? ==> ModeOf(w.fc) == FourWayMode)
    && (w.sampled.Some? ==> w.sampled.value <= w.clock)
    && A.Sound(b.setup, w.session, false)
    && (w.msp.Relaying? ==> A.Sound(b.setup, w.msp.after, false))
  }

  /** What the session has put on the wires is what its log says. */
  predicate TrafficKept(a: Audit, w: World) {
    a.mode == FourWayMode ==>
      if w.msp.Relaying? then a.traffic + w.msp.left == w.msp.after.log else a.traffic == w.session.log
  }

  predicate Audited(w: World, i: nat)
    requires i < |w.fc.motors|
  {
    var a := Review(UNUSED, i, w.trace);
    && AllPermitted(UNUSED, i, w.trace)
    && Agrees(a, w.fc) && Books(a, w.fc.motors[i]) && TrafficKept(a, w)
  }

  predicate Inv(b: Bench, w: World) {
    FcSane(b, w.fc) && ThreadsSane(b, w) && forall i :: 0 <= i < |w.fc.motors| ==> Audited(w, i)
  }

  // ------------------------------------------------------- each motor's sanity

  lemma StopAllSane(motors: seq<Motor>)
    ensures forall i :: 0 <= i < |motors| ==> MotorSane(StopAll(motors)[i])
  {}

  lemma SentSane(fc: Fc, m: Motor, now: Time)
    requires MotorSane(m)
    ensures MotorSane(SendMotor(fc, m, now).0)
  {}

  lemma {:induction false} SendFromEach(fc: Fc, now: Time, i: nat)
    requires i <= |fc.motors|
    ensures var r := SendFrom(fc, now, i).0;
            |r| == |fc.motors| - i &&
            forall j :: 0 <= j < |r| ==> r[j] == SendMotor(fc, fc.motors[i + j], now).0
    decreases |fc.motors| - i
  {
    hide SendMotor, SendEntries;
    if i < |fc.motors| {
      SendFromEach(fc, now, i + 1);
    }
  }

  lemma {:induction false} QueueListSane(m: Motor, cs: seq<byte>)
    requires MotorSane(m) && |m.commands| + |cs| <= QUEUE_MAX
    requires forall k :: 0 <= k < |cs| ==> cs[k] <= 47
    ensures MotorSane(QueueList(m, cs))
    decreases cs
  {
    if cs != [] {
      QueueListSane(QueueOne(m, cs[0]), cs[1..]);
    }
  }

  lemma {:induction false} QueueFromEach(motors: seq<Motor>, which: byte, cs: seq<byte>, i: nat)
    requires i <= |motors|
    ensures var r := QueueFrom(motors, which, cs, i).0;
            |r| == |motors| - i &&
            forall j :: 0 <= j < |r| ==>
              r[j] == if Targeted(which, i + j) then QueueList(motors[i + j], cs) else motors[i + j]
    decreases |motors| - i
  {
    hide QueueList, QueueEntries, Targeted;
    if i < |motors| {
      QueueFromEach(motors, which, cs, i + 1);
    }
  }

  lemma TurnSane(b: Bench, fc: Fc, now: Time, due: bool)
    requires FcSane(b, fc)
    ensures FcSane(b, DshotTurn(fc, now, due).0)
  {
    hide SendMotor, SendFrom, MotorSane, C.SaneStore;
    if MayDrive(fc) && due {
      var ready := if now - fc.lastRequest > 2.0 then fc.(motors := StopAll(fc.motors)) else fc;
      StopAllSane(fc.motors);
      SendFromEach(ready, now, 0);
      forall i | 0 <= i < |fc.motors|
        ensures MotorSane(SendMotor(ready, ready.motors[i], now).0)
      {
        SentSane(ready, ready.motors[i], now);
      }
    }
  }

  lemma QueuedSane(b: Bench, fc: Fc, payload: seq<byte>)
    requires FcSane(b, fc) && CommandsAccepted(fc, payload)
    ensures FcSane(b, fc.(motors := QueueFrom(fc.motors, payload[1], payload[3..], 0).0))
  {
    hide MotorSane, C.SaneStore, QueueList, QueueFrom;
    var which, cs := payload[1], payload[3..];
    QueueFromEach(fc.motors, which, cs, 0);
    forall i | 0 <= i < |fc.motors| && Targeted(which, i)
      ensures MotorSane(QueueList(fc.motors[i], cs))
    {
      QueueListSane(fc.motors[i], cs);
    }
  }

  lemma StoredSane(b: Bench, fc: Fc, next: Option<C.Values>)
    requires FcSane(b, fc)
    requires next.Some? ==> C.Sane(next.value, Count(b), b.debugModes)
    ensures FcSane(b, WithValues(fc, next).fc)
  {
    hide C.Shaped, C.Valid, MotorSane;
    StopAllSane(fc.motors);
  }

  lemma SetMotorSane(b: Bench, fc: Fc, payload: seq<byte>)
    requires FcSane(b, fc)
    ensures var v := MotorValues(payload, |fc.motors|);
            v.Some? ==> FcSane(b, fc.(motors := SetMotors(fc.motors, v.value)))
  {
    hide C.Shaped, C.Valid, C.Unsupported;
  }

  lemma RebootSane(b: Bench, fc: Fc, clock: Time)
    requires FcSane(b, fc)
    ensures FcSane(b, Reboot(fc, clock)) && FcSane(b, Reboot(fc, clock).(inFourway := false))
    ensures Reboot(fc, clock).inFourway == fc.inFourway && !Reboot(fc, clock).cli
  {
    hide C.Shaped;
  }

  lemma DispatchSane(b: Bench, fc: Fc, clock: Time, cmd: nat, payload: seq<byte>, written: bool)
    requires FcSane(b, fc) && ModeOf(fc) == MspMode
    ensures var r := Dispatch(fc, clock, cmd, payload, written);
            && FcSane(b, r.fc) && !r.fc.cli
            && (r.fc.inFourway <==> cmd == SET_PASSTHROUGH)
            && r.fc.lastRequest == fc.lastRequest
            && r.fc.readyAt == if cmd == REBOOT && r.ok then clock + 2.0 else fc.readyAt
  {
    hide C.Shaped, C.WithMotor, C.WithRegister, C.Valid, CommandsAccepted, QueueFrom, MotorSane;
    StopAllSane(fc.motors);
    if cmd == SET_MOTOR {
      SetMotorSane(b, fc, payload);
    } else if cmd == SET_MOTOR_CONFIG {
      C.MotorKeeps(fc.store.values, Count(b), b.debugModes, payload);
      StoredSane(b, fc, C.WithMotor(fc.store.values, payload));
    } else if C.Target(cmd).Some? {
      C.RegisterKeeps(fc.store.values, Count(b), b.debugModes, cmd, payload);
      StoredSane(b, fc, C.WithRegister(fc.store.values, Count(b), cmd, payload));
    } else if cmd == REBOOT {
      RebootSane(b, fc, clock);
    } else if cmd == DSHOT_COMMANDS {
      if CommandsAccepted(fc, payload) {
        QueuedSane(b, fc, payload);
      }
    }
  }

  lemma CliStepSane(b: Bench, fc: Fc, clock: Time, a: CliAction)
    requires FcSane(b, fc) && !fc.inFourway
    ensures var r := CliStep(fc, clock, a).0;
            && FcSane(b, r) && !r.inFourway && r.lastRequest == fc.lastRequest
            && r.readyAt == if Reboots(fc, a) then clock + 2.0 else fc.readyAt
  {
    hide C.Shaped, C.Valid, C.WithSetting, MotorSane;
    if a.CliSet? {
      C.SettingKeeps(fc.store.values, Count(b), b.debugModes, a.setting);
    } else {
      RebootSane(b, if a.CliSave? then fc.(store := fc.store.(saved := fc.store.values)) else fc, clock);
    }
  }

  lemma {:induction false} CliRunSane(b: Bench, fc: Fc, clock: Time, actions: seq<CliAction>)
    requires FcSane(b, fc) && !fc.inFourway
    ensures var r := CliRun(fc, clock, actions).0;
            FcSane(b, r) && !r.inFourway && r.lastRequest == fc.lastRequest
    decreases |actions|
  {
    hide CliStep, C.Shaped, C.Valid, C.Unsupported, Reboots, MotorSane;
    if actions != [] {
      CliStepSane(b, fc, clock, actions[0]);
      CliRunSane(b, CliStep(fc, clock, actions[0]).0, clock, actions[1..]);
    }
  }
}
