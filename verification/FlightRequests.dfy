/** What single requests do to the flight controller, in terms of their bytes. */
module FlightRequests {
  import opened Bytes
  import opened Reals
  import opened FlightController
  import C = Configuration

  // ---------------------------------------------------------- DShot commands

  predicate Addressed(payload: seq<byte>, i: nat)
    requires |payload| >= 2
  {
    payload[1] == 255 || payload[1] == i
  }

  /** Off, or only asked to stop. */
  predicate Obeys(m: Motor, payload: seq<byte>) {
    m.value <= 1000 || forall j :: 3 <= j < |payload| ==> payload[j] == 0
  }

  /**
   Request 0x3003 is accepted exactly when it is well formed, the outputs are on, and every
   motor it addresses is off (or only asked to stop) and has room; a refused one changes
   nothing.
   */
  lemma CommandsExactly(fc: Fc, clock: Time, payload: seq<byte>, written: bool)
    requires Configured(fc)
    ensures var r := Dispatch(fc, clock, 0x3003, payload, written);
            && (r.ok <==>
                && |payload| >= 4 && payload[0] in {0, 1} && payload[2] == |payload| - 3
                && (payload[1] < |fc.motors| || payload[1] == 255)
                && (forall j :: 3 <= j < |payload| ==> 0 <= payload[j] < 48)
                && fc.store.values.registers[90][3] != 9
                && forall i :: 0 <= i < |fc.motors| && Addressed(payload, i) ==>
                     Obeys(fc.motors[i], payload) && |fc.motors[i].commands| + |payload| <= 35)
            && (!r.ok ==> r.fc == fc && r.entries == [])
  {
    hide QueueFrom;
  }

  /** The commands behind the last stop in a list, all of them when there is none. */
  function BehindStop(cs: seq<byte>): (r: seq<byte>) {
    if cs == [] then []
    else if cs[|cs| - 1] == 0 then []
    else BehindStop(cs[..|cs| - 1]) + [cs[|cs| - 1]]
  }

  /** The last telemetry switch in a list: on for 13, off for 14. */
  function LastSwitch(cs: seq<byte>): Option<bool> {
    if cs == [] then None
    else if cs[|cs| - 1] == 13 then Some(true)
    else if cs[|cs| - 1] == 14 then Some(false)
    else LastSwitch(cs[..|cs| - 1])
  }

  /** Each command of a list, to be sent twenty times. */
  function TwentyEach(cs: seq<byte>): seq<Command> {
    seq(|cs|, k requires 0 <= k < |cs| => Command(cs[k], 20))
  }

  /** What a list of commands makes of a motor. */
  predicate Obeyed(m: Motor, cs: seq<byte>, after: Motor) {
    && after.commands == (if 0 in cs then [] else m.commands) + TwentyEach(BehindStop(cs))
    && after.value == (if 0 in cs then 1000 else m.value)
    && after.readyAt == m.readyAt && after.lastEdtCmd == m.lastEdtCmd
    && match LastSwitch(cs)
       case None => after.edtOverride == m.edtOverride && after.edtCommanded == m.edtCommanded && after.edtSeen == m.edtSeen
       case Some(on) => after.edtOverride == after.edtCommanded == Some(on) && !after.edtSeen
  }

  lemma {:induction false} QueueListSnoc(m: Motor, cs: seq<byte>, c: byte)
    ensures QueueList(m, cs + [c]) == QueueOne(QueueList(m, cs), c)
    decreases cs
  {
    hide QueueOne;
    if cs == [] {
      assert [] + [c] == [c] && [c][1..] == [];
    } else {
      assert (cs + [c])[1..] == cs[1..] + [c];
      QueueListSnoc(QueueOne(m, cs[0]), cs[1..], c);
    }
  }

  lemma {:induction false} QueueObeyed(m: Motor, cs: seq<byte>)
    ensures Obeyed(m, cs, QueueList(m, cs))
    decreases cs
  {
    if cs == [] {
      assert m.commands + TwentyEach([]) == m.commands;
    } else {
      var init, c := cs[..|cs| - 1], cs[|cs| - 1];
      assert cs == init + [c];
      QueueListSnoc(m, init, c);
      QueueObeyed(m, init);
      if c == 0 {
        assert cs[|cs| - 1] in cs;
        assert [] + TwentyEach([]) == [];
      } else {
        assert 0 in cs <==> 0 in init;
        TwentySnoc(BehindStop(init), c);
        var kept := if 0 in cs then [] else m.commands;
        assert kept + TwentyEach(BehindStop(init)) + [Command(c, 20)] == kept + (TwentyEach(BehindStop(init)) + [Command(c, 20)]);
      }
    }
  }

  lemma TwentySnoc(cs: seq<byte>, c: byte)
    ensures TwentyEach(cs + [c]) == TwentyEach(cs) + [Command(c, 20)]
  {}

  lemma {:induction false} QueueFromAt(motors: seq<Motor>, which: byte, cs: seq<byte>, k: nat, i: nat)
    requires k <= i < |motors|
    ensures |QueueFrom(motors, which, cs, k).0| == |motors| - k
    ensures QueueFrom(motors, which, cs, k).0[i - k] == if Targeted(which, i) then QueueList(motors[i], cs) else motors[i]
    decreases |motors| - k
  {
    hide QueueList, QueueEntries, Targeted;
    if k < i {
      QueueFromAt(motors, which, cs, k + 1, i);
    } else {
      QueueFromLength(motors, which, cs, k);
    }
  }

  lemma {:induction false} QueueFromLength(motors: seq<Motor>, which: byte, cs: seq<byte>, k: nat)
    requires k <= |motors|
    ensures |QueueFrom(motors, which, cs, k).0| == |motors| - k
    decreases |motors| - k
  {
    hide QueueList, QueueEntries, Targeted;
    if k < |motors| {
      QueueFromLength(motors, which, cs, k + 1);
    }
  }

  /**
   An accepted request has every motor it addresses drop all it had up to the last stop in
   the list and queue the commands behind it twenty times each; the others, and everything
   else, are as before.
   */
  lemma CommandsObeyed(fc: Fc, clock: Time, payload: seq<byte>, written: bool, i: nat)
    requires Configured(fc) && Dispatch(fc, clock, 0x3003, payload, written).ok && i < |fc.motors|
    ensures |payload| >= 4
    ensures var after := Dispatch(fc, clock, 0x3003, payload, written).fc;
            && |after.motors| == |fc.motors| && after == fc.(motors := after.motors)
            && if Addressed(payload, i) then Obeyed(fc.motors[i], payload[3..], after.motors[i])
               else after.motors[i] == fc.motors[i]
  {
    hide QueueList, QueueFrom, Obeyed, C.Shaped;
    QueueFromAt(fc.motors, payload[1], payload[3..], 0, i);
    QueueObeyed(fc.motors[i], payload[3..]);
  }

  // -------------------------------------------------------- every other request

  /** The requests that stop the motors whatever comes of them: 4-way access, and any change of settings. */
  const STOPPING: set<nat> := {245, 222, 37, 43, 62, 91, 93, 95, 217}

  predicate Off(m: Motor) {
    m.value == 1000 && m.commands == []
  }

  /**
   Which requests stop the motors: those above, a reboot that is accepted, and an arming
   request that disables. No other touches a motor, but MSP_SET_MOTOR and DShot commands.
   */
  lemma StopsExactly(fc: Fc, clock: Time, cmd: nat, payload: seq<byte>, written: bool)
    requires Configured(fc) && cmd != 214 && cmd != 0x3003
    ensures var r := Dispatch(fc, clock, cmd, payload, written);
            var stops := cmd in STOPPING || (cmd == 68 && |payload| <= 1 && (payload == [0] || payload == []))
                         || (cmd == 99 && |payload| == 2 && payload[0] != 0);
            && |r.fc.motors| == |fc.motors|
            && (stops ==> ClearedAll in r.entries && forall i :: 0 <= i < |fc.motors| ==> Off(r.fc.motors[i]))
            && (!stops ==> r.fc.motors == fc.motors && r.entries == [])
  {
    hide C.Shaped, C.Valid, C.WithMotor, C.WithRegister, Answered;
  }

  /** The requests that are answered whatever their payload. */
  const ANSWERED: set<nat> :=
    {1, 2, 3, 4, 5, 10, 32, 36, 38, 42, 58, 61, 70, 79, 80, 90, 92, 94, 96, 101, 102, 104, 105, 108, 109, 110,
     116, 119, 124, 125, 126, 128, 129, 130, 131, 139, 150, 160, 205, 240, 246, 254, 0x3001, 0x300A, 0x300C}

  /**
   Which requests are accepted, where the settings do not decide it: 4-way access always,
   some by the form of the payload, and of the others exactly those listed.
   */
  lemma AcceptsExactly(fc: Fc, clock: Time, cmd: nat, payload: seq<byte>, written: bool)
    requires Configured(fc)
    ensures var ok := Dispatch(fc, clock, cmd, payload, written).ok;
            && (cmd == 245 ==> ok)
            && (cmd == 68 ==> (ok <==> payload == [] || payload == [0]))
            && (cmd == 99 ==> (ok <==> |payload| == 2))
            && (cmd == 0x3006 ==> (ok <==> |payload| == 1))
            && (cmd == 0x3002 ==>
                  (ok <==> |payload| == |fc.motors| + 1 && payload[0] == |fc.motors| &&
                           forall j :: 1 <= j < |payload| ==> payload[j] == j - 1))
            && (cmd !in STOPPING && cmd !in {68, 99, 214, 250, 0x3002, 0x3003, 0x3006} ==> (ok <==> cmd in ANSWERED))
  {
    hide C.Shaped, C.Valid, C.WithMotor, C.WithRegister, CommandsAccepted, QueueFrom, MotorValues, SetMotors;
  }

  // ------------------------------------------------- settings and the controller

  /** The request of the settings store that an MSP request amounts to. */
  function StoreRequest(cmd: nat, payload: seq<byte>, written: bool): Option<C.Request> {
    if cmd == 222 then Some(C.Motor(payload))
    else if C.Target(cmd).Some? then Some(C.Register(cmd, payload))
    else if cmd == 250 then Some(C.Save(written))
    else if cmd == 68 && (payload == [] || payload == [0]) then Some(C.Reboot)
    else None
  }

  /** The controller's settings change as the store's own requests say, and not otherwise. */
  lemma StoreFollows(fc: Fc, clock: Time, cmd: nat, payload: seq<byte>, written: bool)
    requires Configured(fc)
    ensures var r := Dispatch(fc, clock, cmd, payload, written);
            match StoreRequest(cmd, payload, written)
            case Some(q) => (r.fc.store, r.ok) == C.Apply(fc.store, |fc.motors|, q)
            case None => r.fc.store == fc.store
  {
    hide C.Valid, C.WithMotor, C.WithRegister, Answered, CommandsAccepted, QueueFrom, MotorValues, SetMotors;
  }

  /** So do the command line's. */
  lemma CliStoreFollows(fc: Fc, clock: Time, a: CliAction)
    requires Configured(fc)
    ensures var after := CliStep(fc, clock, a).0.store;
            match a
            case CliSet(setting) => after == C.Apply(fc.store, |fc.motors|, C.Cli(setting)).0
            case CliExit => after == C.Apply(fc.store, |fc.motors|, C.Reboot).0
            case CliSave(written) =>
              var (saved, ok) := C.Apply(fc.store, |fc.motors|, C.Save(written));
              after == if ok then C.Apply(saved, |fc.motors|, C.Reboot).0 else fc.store
  {
    hide C.Valid, C.WithSetting;
  }

  /**
   A reboot: off, nothing queued, nothing known of the ESCs, silent for two seconds, in the
   format of the saved settings, and out of the command line.
   */
  lemma RebootStartsOver(fc: Fc, clock: Time, i: nat)
    requires Configured(fc) && i < |fc.motors|
    ensures var after := Reboot(fc, clock);
            && |after.motors| == |fc.motors| && after.motors[i] == IDLE_MOTOR
            && after.store.values == after.store.saved == fc.store.saved
            && after.readyAt == clock + 2.0 && !after.cli
            && after.outputProtocol == fc.store.saved.registers[90][3] && after.outputBidir == fc.store.saved.bidir
            && after.inFourway == fc.inFourway && after.lastRequest == fc.lastRequest
    ensures EscsReset in RebootEntries(fc) <==>
            fc.outputProtocol != fc.store.saved.registers[90][3] || fc.outputBidir != fc.store.saved.bidir
  {
    hide C.Shaped;
  }

  // ------------------------------------------------------- extended telemetry

  /**
   Exactly when a turn queues a telemetry switch of its own for a motor: the link is
   bidirectional, the switch is not what the ESC was last told, or on and not yet seen, the
   motor is off and idle past its deadlines, and half a second passed since the last one.
   */
  lemma EdtExactly(fc: Fc, now: Time, m: Motor)
    ensures var wanted := match m.edtOverride
                          case Some(on) => on
                          case None => fc.store.values.edt != C.EdtOff;
            var asks := && fc.outputBidir && (m.edtCommanded != Some(wanted) || (wanted && !m.edtSeen))
                        && m.value <= 1000 && m.commands == [] && now - m.lastEdtCmd > 0.5
                        && now >= fc.readyAt && now >= m.readyAt;
            WithEdt(fc, m, now) ==
            if asks then
              m.(commands := [Command(if wanted then 13 else 14, 20)], edtCommanded := Some(wanted), lastEdtCmd := now)
            else m
  {
    DshotValueRange(m.value);
  }

  /** And that it goes out at once: its first copy is this turn's frame. */
  lemma EdtSent(fc: Fc, now: Time, m: Motor)
    requires NeedsEdt(fc, m, now)
    ensures var (after, f) := SendMotor(fc, m, now);
            && f.telem && f.value == (if Wants(fc, m) then 13 else 14)
            && after.commands == [Command(f.value, 19)]
  {}
}
