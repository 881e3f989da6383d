/**
 The fake flight controller: motor values and DShot command queues, the MSP requests
 that change them, and one turn of the DShot sender. Times are seconds.
 */
module FlightController {
  import opened Bytes
  import opened Reals
  import C = Configuration

  /** A queued DShot command and how many more times it is to be sent. */
  datatype Command = Command(number: nat, count: int)

  const REPEATS: nat := 20
  const QUEUE_MAX: nat := 32
  const EDT_ENABLE: nat := 13
  const EDT_DISABLE: nat := 14

  datatype Motor = Motor(
    value: nat, commands: seq<Command>, readyAt: Time,
    edtSeen: bool, edtOverride: Option<bool>, edtCommanded: Option<bool>, lastEdtCmd: Time)

  const IDLE_MOTOR := Motor(1000, [], 0.0, false, None, None, 0.0)

  datatype Fc = Fc(
    motors: seq<Motor>, readyAt: Time, lastRequest: Time,
    inFourway: bool, cli: bool, outputProtocol: byte, outputBidir: bool, store: C.Store)

  /** A DShot frame: what it carries, its wire format, and the times that decided it. */
  datatype Frame = Frame(
    value: nat, telem: bool, protocol: byte, bidir: bool, now: Time, deadline: Time, lastRequest: Time)

  /** What happens to a motor's queue and wire, in order. */
  datatype Entry =
    | Accepted(motor: nat, command: nat)
    | Cleared(motor: nat)
    | ClearedAll
    | EscsReset
    | Sent(motor: nat, frame: Frame)

  // ------------------------------------------------------------- motor values

  /** Motor values 1000..2000 as an 11 bit throttle; everything up to 1000 is off. */
  function DshotValue(v: nat): nat {
    if v <= 1000 then 0 else 48 + ((if v < 2000 then v else 2000) - 1000) * (2047 - 48) / 1000
  }

  lemma DshotValueRange(v: nat)
    ensures DshotValue(v) == 0 || 49 <= DshotValue(v) <= 2047
    ensures DshotValue(v) == 0 <==> v <= 1000
    ensures v >= 2000 ==> DshotValue(v) == 2047
  {}

  /** Between off and full the throttle is the whole part of the straight line from 48 to 2047. */
  lemma DshotValueLinear(v: nat)
    requires 1000 < v <= 2000
    ensures 1000 * (DshotValue(v) - 48) <= 1999 * (v - 1000) < 1000 * (DshotValue(v) - 47)
  {}

  lemma DshotValueMonotone(v: nat, w: nat)
    requires v <= w
    ensures DshotValue(v) <= DshotValue(w)
  {}

  function Stopped(m: Motor): Motor {
    m.(value := 1000, commands := [])
  }

  function StopAll(motors: seq<Motor>): seq<Motor> {
    seq(|motors|, i requires 0 <= i < |motors| => Stopped(motors[i]))
  }

  // ------------------------------------------------------------- DShot sender

  function Wants(fc: Fc, m: Motor): bool {
    match m.edtOverride
    case Some(on) => on
    case None => fc.store.values.edt != C.EdtOff
  }

  function Deadline(fc: Fc, m: Motor): Time {
    Max(fc.readyAt, m.readyAt)
  }

  /** Whether the sender first queues an extended telemetry command of its own. */
  predicate NeedsEdt(fc: Fc, m: Motor, now: Time) {
    && fc.outputBidir
    && (m.edtCommanded != Some(Wants(fc, m)) || (Wants(fc, m) && !m.edtSeen))
    && DshotValue(m.value) == 0 && now >= Deadline(fc, m) && m.commands == []
    && now - m.lastEdtCmd > 0.5
  }

  function WithEdt(fc: Fc, m: Motor, now: Time): Motor {
    if NeedsEdt(fc, m, now) then
      m.(commands := m.commands + [Command(if Wants(fc, m) then EDT_ENABLE else EDT_DISABLE, REPEATS)],
         edtCommanded := Some(Wants(fc, m)), lastEdtCmd := now)
    else m
  }

  /** The motor after its head command was sent once. */
  function Popped(m: Motor, now: Time): Motor
    requires m.commands != []
  {
    var head := m.commands[0];
    if head.count != 1 then
      m.(commands := [Command(head.number, head.count - 1)] + m.commands[1..])
    else
      var ready :=
        if head.number == 12 then now + 0.04
        else if 1 <= head.number <= 5 then now + 0.3
        else m.readyAt;
      m.(commands := m.commands[1..], readyAt := ready)
  }

  function FrameOf(fc: Fc, m: Motor, value: nat, telem: bool, now: Time): Frame {
    Frame(value, telem, fc.outputProtocol, fc.outputBidir, now, Deadline(fc, m), fc.lastRequest)
  }

  /** One motor's frame: a queued command when there is one and it is time, else the throttle. */
  function SendMotor(fc: Fc, m: Motor, now: Time): (Motor, Frame) {
    var ready := now >= Deadline(fc, m);
    var queued := WithEdt(fc, m, now);
    if queued.commands != [] && ready then
      (Popped(queued, now), FrameOf(fc, m, queued.commands[0].number, true, now))
    else
      (queued, FrameOf(fc, m, if ready then DshotValue(m.value) else 0, false, now))
  }

  function SendEntries(fc: Fc, i: nat, m: Motor, now: Time): seq<Entry> {
    (if NeedsEdt(fc, m, now) then [Accepted(i, if Wants(fc, m) then EDT_ENABLE else EDT_DISABLE)] else []) +
    [Sent(i, SendMotor(fc, m, now).1)]
  }

  /** A frame to every motor from the i-th on. */
  function SendFrom(fc: Fc, now: Time, i: nat): (seq<Motor>, seq<Entry>)
    requires i <= |fc.motors|
    decreases |fc.motors| - i
  {
    if i == |fc.motors| then ([], [])
    else
      var tail := SendFrom(fc, now, i + 1);
      ([SendMotor(fc, fc.motors[i], now).0] + tail.0, SendEntries(fc, i, fc.motors[i], now) + tail.1)
  }

  /** The sender may drive the wire: no 4-way session, no CLI, and a DShot protocol. */
  predicate MayDrive(fc: Fc) {
    !fc.inFourway && !fc.cli && fc.outputProtocol != 9
  }

  /** One turn of the sender under the output lock, at its sampled time, when a frame is due. */
  function DshotTurn(fc: Fc, now: Time, due: bool): (Fc, seq<Entry>) {
    if !MayDrive(fc) || !due then (fc, [])
    else
      var silent := now - fc.lastRequest > 2.0;
      var ready := if silent then fc.(motors := StopAll(fc.motors)) else fc;
      var sent := SendFrom(ready, now, 0);
      (ready.(motors := sent.0), (if silent then [ClearedAll] else []) + sent.1)
  }

  // ---------------------------------------------------------------- requests

  function Forgotten(m: Motor): Motor {
    m.(edtSeen := false, edtOverride := None, edtCommanded := None, lastEdtCmd := 0.0, readyAt := 0.0)
  }

  function RebootedMotor(m: Motor): Motor {
    Forgotten(Stopped(m))
  }

  predicate Configured(fc: Fc) {
    C.Shaped(fc.store.values) && C.Shaped(fc.store.saved)
  }

  function Reboot(fc: Fc, clock: Time): Fc
    requires Configured(fc)
  {
    var saved := fc.store.saved;
    fc.(motors := seq(|fc.motors|, i requires 0 <= i < |fc.motors| => RebootedMotor(fc.motors[i])),
        store := fc.store.(values := saved),
        outputProtocol := C.Protocol(saved), outputBidir := saved.bidir,
        readyAt := clock + 2.0, cli := false)
  }

  /** A reboot that changes the wire format restarts the ESCs, which detect it only at startup. */
  predicate WireChanges(fc: Fc)
    requires Configured(fc)
  {
    fc.outputProtocol != C.Protocol(fc.store.saved) || fc.outputBidir != fc.store.saved.bidir
  }

  function RebootEntries(fc: Fc): seq<Entry>
    requires Configured(fc)
  {
    [ClearedAll] + if WireChanges(fc) then [EscsReset] else []
  }

  function StopMotors(fc: Fc): Fc {
    fc.(motors := StopAll(fc.motors))
  }

  function ValueAt(payload: seq<byte>, i: nat): nat
    requires 2 * i + 1 < |payload|
  {
    U16(payload[2 * i], payload[2 * i + 1])
  }

  /** The values of an MSP_SET_MOTOR payload for n motors; None when it is refused. */
  function MotorValues(payload: seq<byte>, n: nat): (r: Option<seq<nat>>)
    ensures r.Some? ==> |r.value| == n
  {
    if |payload| < 2 || |payload| > 16 || |payload| % 2 != 0 || |payload| < n * 2 then None
    else if forall i :: 0 <= i < n ==> 1000 <= ValueAt(payload, i) <= 2000 then
      Some(seq(n, i requires 0 <= i < n => ValueAt(payload, i)))
    else None
  }

  function SetMotors(motors: seq<Motor>, values: seq<nat>): seq<Motor>
    requires |motors| == |values|
  {
    seq(|motors|, i requires 0 <= i < |motors| => motors[i].(value := values[i]))
  }

  /** One command for one motor: zero stops it, the rest are queued. */
  function QueueOne(m: Motor, c: byte): Motor {
    if c == 0 then Stopped(m)
    else
      var switched :=
        if c == EDT_ENABLE || c == EDT_DISABLE then
          m.(edtOverride := Some(c == EDT_ENABLE), edtCommanded := Some(c == EDT_ENABLE), edtSeen := false)
        else m;
      switched.(commands := m.commands + [Command(c, REPEATS)])
  }

  function QueueList(m: Motor, cs: seq<byte>): Motor
    decreases cs
  {
    if cs == [] then m else QueueList(QueueOne(m, cs[0]), cs[1..])
  }

  function QueueEntries(i: nat, cs: seq<byte>): seq<Entry> {
    if cs == [] then []
    else [if cs[0] == 0 then Cleared(i) else Accepted(i, cs[0])] + QueueEntries(i, cs[1..])
  }

  /** Motor 255 addresses them all. */
  predicate Targeted(which: byte, i: nat) {
    which == 255 || i == which
  }

  function QueueFrom(motors: seq<Motor>, which: byte, cs: seq<byte>, i: nat): (seq<Motor>, seq<Entry>)
    requires i <= |motors|
    decreases |motors| - i
  {
    if i == |motors| then ([], [])
    else
      var tail := QueueFrom(motors, which, cs, i + 1);
      if Targeted(which, i) then ([QueueList(motors[i], cs)] + tail.0, QueueEntries(i, cs) + tail.1)
      else ([motors[i]] + tail.0, tail.1)
  }

  /** A well-formed DShot command request that no addressed motor refuses. */
  predicate CommandsAccepted(fc: Fc, payload: seq<byte>)
    requires Configured(fc)
  {
    && |payload| >= 4 && payload[0] <= 1
    && (payload[1] == 255 || payload[1] < |fc.motors|)
    && payload[2] == |payload| - 3
    && (forall j :: 3 <= j < |payload| ==> payload[j] <= 47)
    && C.Protocol(fc.store.values) != 9
    && (forall i :: 0 <= i < |fc.motors| && Targeted(payload[1], i) ==>
          && (fc.motors[i].value > 1000 ==> forall j :: 3 <= j < |payload| ==> payload[j] == 0)
          && |fc.motors[i].commands| + (|payload| - 3) <= QUEUE_MAX)
  }

  const SET_PASSTHROUGH: nat := 245
  const SET_MOTOR: nat := 214
  const SET_MOTOR_CONFIG: nat := 222
  const EEPROM_WRITE: nat := 250
  const REBOOT: nat := 68
  const ARMING_DISABLE: nat := 99
  const DSHOT_COMMANDS: nat := 0x3003

  const OUTPUT_REORDERING: nat := 0x3002
  const MSP2_TEXT: nat := 0x3006

  /** The requests that only read, or that a bench has nothing to do for. */
  const READS: set<nat> := {
    1, 2, 3, 4, 5, 10, 32, 38, 58, 70, 79, 80, 96, 101, 102, 104, 105, 108, 109, 110, 116, 119, 125, 126,
    128, 129, 130, 131, 139, 150, 160, 205, 240, 246, 254, 0x3001, 0x300A, 0x300C}

  /** Everything else is answered, unless it is unknown or asks for other outputs. */
  predicate Answered(count: nat, cmd: nat, payload: seq<byte>) {
    if cmd == OUTPUT_REORDERING then
      |payload| == count + 1 && payload[0] == count && forall j :: 1 <= j <= count ==> payload[j] == j - 1
    else if cmd == MSP2_TEXT then |payload| == 1
    else cmd in READS || cmd in C.REGISTERS
  }

  /** The outcome of a request: the state, what happened to the motors, and whether it was refused. */
  datatype Reply = Reply(fc: Fc, entries: seq<Entry>, ok: bool)

  function WithValues(fc: Fc, next: Option<C.Values>): Reply {
    match next
    case Some(v) => Reply(StopMotors(fc).(store := fc.store.(values := v)), [ClearedAll], true)
    case None => Reply(StopMotors(fc), [ClearedAll], false)
  }

  /** written says whether an EEPROM_WRITE reached the settings file. */
  function Dispatch(fc: Fc, clock: Time, cmd: nat, payload: seq<byte>, written: bool): Reply
    requires Configured(fc)
  {
    if cmd == SET_PASSTHROUGH then Reply(StopMotors(fc).(inFourway := true), [ClearedAll], true)
    else if cmd == SET_MOTOR then
      match MotorValues(payload, |fc.motors|)
      case Some(values) => Reply(fc.(motors := SetMotors(fc.motors, values)), [], true)
      case None => Reply(fc, [], false)
    else if cmd == SET_MOTOR_CONFIG then WithValues(fc, C.WithMotor(fc.store.values, payload))
    else if C.Target(cmd).Some? then
      WithValues(fc, C.WithRegister(fc.store.values, |fc.motors|, cmd, payload))
    else if cmd == EEPROM_WRITE then
      if C.Valid(fc.store.values) && written then Reply(fc.(store := fc.store.(saved := fc.store.values)), [], true)
      else Reply(fc, [], false)
    else if cmd == REBOOT then
      if payload == [] || payload == [0] then Reply(Reboot(fc, clock), RebootEntries(fc), true) else Reply(fc, [], false)
    else if cmd == ARMING_DISABLE then
      if |payload| != 2 then Reply(fc, [], false)
      else if payload[0] != 0 then Reply(StopMotors(fc), [ClearedAll], true)
      else Reply(fc, [], true)
    else if cmd == DSHOT_COMMANDS then
      if CommandsAccepted(fc, payload) then
        var (motors, entries) := QueueFrom(fc.motors, payload[1], payload[3..], 0);
        Reply(fc.(motors := motors), entries, true)
      else Reply(fc, [], false)
    else Reply(fc, [], Answered(|fc.motors|, cmd, payload))
  }

  /** MSP_SET_MOTOR sets every motor or none. */
  lemma SetMotorAllOrNone(fc: Fc, clock: Time, payload: seq<byte>, i: nat)
    requires Configured(fc) && i < |fc.motors|
    ensures var r := Dispatch(fc, clock, SET_MOTOR, payload, false);
            && |r.fc.motors| == |fc.motors|
            && (r.ok <==> 2 <= |payload| <= 16 && |payload| % 2 == 0 && 2 * |fc.motors| <= |payload|
                          && forall j :: 0 <= j < |fc.motors| ==> 1000 <= ValueAt(payload, j) <= 2000)
            && (r.ok ==> r.fc.motors[i] == fc.motors[i].(value := ValueAt(payload, i)))
            && (!r.ok ==> r.fc == fc)
  {}

  // ---------------------------------------------------------------- CLI mode

  datatype CliAction =
    | CliSet(setting: C.Setting)
    | CliSave(written: bool)
    | CliExit

  function EnterCli(fc: Fc): Fc {
    StopMotors(fc).(cli := true)
  }

  /** save and exit reboot; a save that fails only prints an error. */
  function CliStep(fc: Fc, clock: Time, a: CliAction): (r: (Fc, seq<Entry>))
    requires Configured(fc)
    ensures Configured(r.0)
  {
    match a
    case CliSet(setting) =>
      (match C.WithSetting(fc.store.values, setting)
       case Some(v) => (fc.(store := fc.store.(values := v)), [])
       case None => (fc, []))
    case CliSave(written) =>
      if C.Valid(fc.store.values) && written then
        var saved := fc.(store := fc.store.(saved := fc.store.values));
        (Reboot(saved, clock), RebootEntries(saved))
      else (fc, [])
    case CliExit => (Reboot(fc, clock), RebootEntries(fc))
  }

  /** What is sent to a motor depends on the deadlines and settings, not on other motors. */
  lemma FrameIgnoresMotors(a: Fc, b: Fc, i: nat, m: Motor, now: Time)
    requires b == a.(motors := b.motors)
    ensures SendMotor(b, m, now) == SendMotor(a, m, now) && SendEntries(b, i, m, now) == SendEntries(a, i, m, now)
  {}

  // ------------------------------------------------------------- the class

  /** The controller's fields and handlers; `log` is what reached queues and wires. */
  class StubFc {
    var motors: seq<Motor>
    var readyAt: Time
    var lastRequest: Time
    var inFourway: bool
    var cli: bool
    var outputProtocol: byte
    var outputBidir: bool
    var store: C.Store
    var log: seq<Entry>

    constructor (store: C.Store, count: nat, clock: Time)
      requires C.Shaped(store.values) && 1 <= count <= 8
      ensures State() == Started(store, count, clock) && log == []
    {
      motors := seq(count, _ => IDLE_MOTOR);
      readyAt, lastRequest := clock + 2.0, clock;
      inFourway, cli := false, false;
      outputProtocol, outputBidir := C.Protocol(store.values), store.values.bidir;
      this.store := store;
      log := [];
    }

    function State(): Fc
      reads this
    {
      Fc(motors, readyAt, lastRequest, inFourway, cli, outputProtocol, outputBidir, store)
    }

    method StopMotor()
      modifies this`motors, this`log
      ensures State() == StopMotors(old(State())) && log == old(log) + [ClearedAll]
    {
      for i := 0 to |motors|
        invariant |motors| == |old(motors)| && log == old(log)
        invariant forall j :: 0 <= j < |motors| ==>
                    motors[j] == if j < i then Stopped(old(motors)[j]) else old(motors)[j]
      {
        motors := motors[i := Stopped(motors[i])];
      }
      assert motors == StopAll(old(motors));
      log := log + [ClearedAll];
    }

    method SendTo(i: nat, now: Time)
      requires i < |motors|
      modifies this`motors, this`log
      ensures motors == old(motors)[i := SendMotor(old(State()), old(motors)[i], now).0]
      ensures log == old(log) + SendEntries(old(State()), i, old(motors)[i], now)
    {
      var fc := State();
      var m := motors[i];
      var deadline := Deadline(fc, m);
      var ready := now >= deadline;
      var value := if ready then DshotValue(m.value) else 0;
      if NeedsEdt(fc, m, now) {
        var wanted := Wants(fc, m);
        var c := if wanted then EDT_ENABLE else EDT_DISABLE;
        m := m.(commands := m.commands + [Command(c, REPEATS)], edtCommanded := Some(wanted), lastEdtCmd := now);
        log := log + [Accepted(i, c)];
      }
      var telem := false;
      if m.commands != [] && ready {
        value := m.commands[0].number;
        telem := true;
        m := Popped(m, now);
      }
      motors := motors[i := m];
      log := log + [Sent(i, Frame(value, telem, outputProtocol, outputBidir, now, deadline, lastRequest))];
    }

    method SendAll(now: Time)
      modifies this`motors, this`log
      ensures motors == SendFrom(old(State()), now, 0).0
      ensures log == old(log) + SendFrom(old(State()), now, 0).1
    {
      hide SendMotor, SendEntries;
      ghost var start := State();
      assert motors[..0] + SendFrom(start, now, 0).0 == SendFrom(start, now, 0).0;
      for i := 0 to |motors|
        invariant |motors| == |start.motors| && State() == start.(motors := motors)
        invariant forall j :: i <= j < |motors| ==> motors[j] == start.motors[j]
        invariant SendFrom(start, now, 0).0 == motors[..i] + SendFrom(start, now, i).0
        invariant old(log) + SendFrom(start, now, 0).1 == log + SendFrom(start, now, i).1
      {
        ghost var m, before, rest, logged := motors[i], motors[..i], SendFrom(start, now, i + 1), log;
        FrameIgnoresMotors(start, State(), i, m, now);
        SendTo(i, now);
        Regrouped(logged, SendEntries(start, i, m, now), rest.1);
        Regrouped(before, [motors[i]], rest.0);
        assert motors[..i + 1] == before + [motors[i]];
      }
      assert motors[..|motors|] == motors;
    }

    method Turn(now: Time, due: bool)
      modifies this`motors, this`log
      ensures State() == DshotTurn(old(State()), now, due).0
      ensures log == old(log) + DshotTurn(old(State()), now, due).1
    {
      hide SendFrom;
      if inFourway || cli || outputProtocol == 9 || !due {
        return;
      }
      if now - lastRequest > 2.0 {
        StopMotor();
      }
      SendAll(now);
    }

    /** `_reboot`: stop, restore the saved settings, and start the readiness delay again. */
    method RebootFc(clock: Time)
      requires Configured(State())
      modifies this
      ensures State() == Reboot(old(State()), clock) && log == old(log) + RebootEntries(old(State()))
    {
      hide C.Shaped;
      StopMotor();
      store := store.(values := store.saved);
      if outputProtocol != C.Protocol(store.values) || outputBidir != store.values.bidir {
        log := log + [EscsReset];
      }
      outputProtocol := C.Protocol(store.values);
      outputBidir := store.values.bidir;
      ForgetTelemetry();
      assert motors == Reboot(old(State()), clock).motors;
      readyAt := clock + 2.0;
      cli := false;
    }

    method ForgetTelemetry()
      modifies this`motors
      ensures |motors| == |old(motors)|
      ensures forall j :: 0 <= j < |motors| ==> motors[j] == Forgotten(old(motors)[j])
    {
      for i := 0 to |motors|
        invariant |motors| == |old(motors)|
        invariant forall j :: 0 <= j < |motors| ==>
                    motors[j] == if j < i then Forgotten(old(motors)[j]) else old(motors)[j]
      {
        motors := motors[i := motors[i].(edtSeen := false, edtOverride := None, edtCommanded := None,
                                         lastEdtCmd := 0.0, readyAt := 0.0)];
      }
    }

    method QueueTo(i: nat, cs: seq<byte>)
      requires i < |motors|
      modifies this`motors, this`log
      ensures motors == old(motors)[i := QueueList(old(motors)[i], cs)]
      ensures log == old(log) + QueueEntries(i, cs)
    {
      for k := 0 to |cs|
        invariant |motors| == |old(motors)| && motors == old(motors)[i := motors[i]]
        invariant QueueList(old(motors)[i], cs) == QueueList(motors[i], cs[k..])
        invariant old(log) + QueueEntries(i, cs) == log + QueueEntries(i, cs[k..])
      {
        assert cs[k..][0] == cs[k] && cs[k..][1..] == cs[k + 1..];
        if cs[k] == 0 {
          motors := motors[i := Stopped(motors[i])];
          log := log + [Cleared(i)];
        } else {
          var m := motors[i];
          if cs[k] == EDT_ENABLE || cs[k] == EDT_DISABLE {
            m := m.(edtOverride := Some(cs[k] == EDT_ENABLE), edtCommanded := Some(cs[k] == EDT_ENABLE), edtSeen := false);
          }
          motors := motors[i := m.(commands := m.commands + [Command(cs[k], REPEATS)])];
          log := log + [Accepted(i, cs[k])];
        }
      }
    }

    method QueueCommands(which: byte, cs: seq<byte>)
      modifies this`motors, this`log
      ensures var (queued, entries) := QueueFrom(old(motors), which, cs, 0);
              motors == queued && log == old(log) + entries
    {
      hide QueueList, QueueEntries, Targeted;
      ghost var start := motors;
      assert motors[..0] + QueueFrom(start, which, cs, 0).0 == QueueFrom(start, which, cs, 0).0;
      for i := 0 to |motors|
        invariant |motors| == |start| && forall j :: i <= j < |motors| ==> motors[j] == start[j]
        invariant QueueFrom(start, which, cs, 0).0 == motors[..i] + QueueFrom(start, which, cs, i).0
        invariant old(log) + QueueFrom(start, which, cs, 0).1 == log + QueueFrom(start, which, cs, i).1
      {
        ghost var m, before, rest, logged := motors[i], motors[..i], QueueFrom(start, which, cs, i + 1), log;
        if Targeted(which, i) {
          QueueTo(i, cs);
          Regrouped(logged, QueueEntries(i, cs), rest.1);
        }
        Regrouped(before, [motors[i]], rest.0);
        assert motors[..i + 1] == before + [motors[i]];
      }
      assert motors[..|motors|] == motors;
    }

    /** `_dispatch`, after `last_request` was noted; ok is false where it raises. */
    method Handle(clock: Time, cmd: nat, payload: seq<byte>, written: bool) returns (ok: bool)
      requires Configured(State())
      modifies this
      ensures Reply(State(), log, ok) ==
              var r := Dispatch(old(State()), clock, cmd, payload, written); r.(entries := old(log) + r.entries)
    {
      hide C.Valid, C.WithMotor, C.WithRegister, Answered;
      assert log + [] == log;
      ok := true;
      if cmd == SET_PASSTHROUGH {
        StopMotor();
        inFourway := true;
      } else if cmd == SET_MOTOR {
        var values := MotorValues(payload, |motors|);
        if values.None? {
          return false;
        }
        motors := SetMotors(motors, values.value);
      } else if cmd == SET_MOTOR_CONFIG {
        StopMotor();
        ok := StoreValues(C.WithMotor(store.values, payload));
      } else if C.Target(cmd).Some? {
        StopMotor();
        ok := StoreValues(C.WithRegister(store.values, |motors|, cmd, payload));
      } else if cmd == EEPROM_WRITE {
        ok := C.Valid(store.values) && written;
        if ok {
          store := store.(saved := store.values);
        }
      } else if cmd == REBOOT {
        if payload != [] && payload != [0] {
          return false;
        }
        RebootFc(clock);
      } else if cmd == ARMING_DISABLE {
        if |payload| != 2 {
          return false;
        }
        if payload[0] != 0 {
          StopMotor();
        }
      } else if cmd == DSHOT_COMMANDS {
        if !CommandsAccepted(State(), payload) {
          return false;
        }
        QueueCommands(payload[1], payload[3..]);
      } else {
        ok := Answered(|motors|, cmd, payload);
      }
    }

    method OpenCli()
      modifies this`motors, this`log, this`cli
      ensures State() == EnterCli(old(State())) && log == old(log) + [ClearedAll]
    {
      StopMotor();
      cli := true;
    }

    method CliCommand(clock: Time, a: CliAction)
      requires Configured(State())
      modifies this
      ensures (State(), log) == var r := CliStep(old(State()), clock, a); (r.0, old(log) + r.1)
    {
      hide C.Valid, C.WithSetting;
      assert log + [] == log;
      match a
      case CliSet(setting) =>
        var ok := StoreValues(C.WithSetting(store.values, setting));
      case CliSave(written) =>
        if C.Valid(store.values) && written {
          store := store.(saved := store.values);
          RebootFc(clock);
        }
      case CliExit => RebootFc(clock);
    }

    /** The end of a 4-way session: the settings start over and the sender may drive again. */
    method EndFourway(clock: Time)
      requires Configured(State())
      modifies this
      ensures State() == Reboot(old(State()), clock).(inFourway := false)
      ensures log == old(log) + RebootEntries(old(State()))
    {
      RebootFc(clock);
      inFourway := false;
    }

    method StoreValues(next: Option<C.Values>) returns (ok: bool)
      modifies this`store
      ensures ok == next.Some?
      ensures store == if ok then old(store).(values := next.value) else old(store)
    {
      ok := next.Some?;
      if ok {
        store := store.(values := next.value);
      }
    }
  }

  function Started(store: C.Store, count: nat, clock: Time): Fc
    requires C.Shaped(store.values)
  {
    Fc(seq(count, _ => IDLE_MOTOR), clock + 2.0, clock, false, false,
       C.Protocol(store.values), store.values.bidir, store)
  }
}
