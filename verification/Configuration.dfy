/** The simulated flight controller's settings: validated, saved and restored as a whole. */
module Configuration {
  import opened Bytes

  datatype Edt = EdtOff | EdtOn | EdtForce

  /** Registers are raw MSP payloads keyed by the command that reads them. */
  datatype Values = Values(
    poles: nat, bidir: bool, edt: Edt,
    minthrottle: nat, maxthrottle: nat, mincommand: nat,
    registers: map<nat, seq<byte>>)

  const FEATURES: nat := 36
  const MIXER: nat := 42
  const ADVANCED: nat := 90
  const REGISTERS: set<nat> := {36, 42, 61, 90, 92, 94, 124}

  /** The length of each register, fixed by its wire layout. */
  function RegisterLength(cmd: nat): nat
    requires cmd in REGISTERS
  {
    if cmd == 36 then 4
    else if cmd == 42 then 2
    else if cmd == 61 then 3
    else if cmd == 90 then 20
    else if cmd == 92 then 49
    else if cmd == 94 then 61
    else 6
  }

  function Zeros(n: nat): seq<byte> {
    seq(n, _ => 0)
  }

  function MixerType(motorCount: nat): byte {
    if motorCount == 8 then 13 else 23
  }

  function Defaults(poles: nat, motorCount: nat): Values {
    Values(poles, true, EdtOn, 1070, 2000, 1000,
           map[36 := Zeros(4),
               42 := [MixerType(motorCount), 0],
               61 := [5, 0, 25],
               90 := [1, 4, 0, 7] + Le16(480) + Le16(550) + [0, 0, 0, 0, 48] + Le16(125) + Zeros(4) + [1],
               92 := Zeros(49),
               94 := Zeros(47) + [100] + Zeros(13),
               124 := Le16(1406) + Le16(1514) + Le16(1460)])
  }

  /** Every register is present and has its own length. */
  predicate Shaped(v: Values) {
    v.registers.Keys == REGISTERS && forall k :: k in REGISTERS ==> |v.registers[k]| == RegisterLength(k)
  }

  function Protocol(v: Values): byte
    requires Shaped(v)
  {
    v.registers[ADVANCED][3]
  }

  predicate InRange(x: nat) {
    1000 <= x <= 2000
  }

  /** What `validate` accepts. */
  predicate Valid(v: Values)
    requires Shaped(v)
  {
    && 2 <= v.poles <= 100 && v.poles % 2 == 0
    && Protocol(v) in {5, 6, 7, 9}
    && InRange(v.minthrottle) && InRange(v.maxthrottle) && InRange(v.mincommand)
  }

  // -------------------------------------------------------------- operations

  /** None is a rejected request; the caller then keeps what it had. */
  function WithMotor(v: Values, payload: seq<byte>): (r: Option<Values>)
    requires Shaped(v)
    ensures r.Some? ==> Shaped(r.value)
  {
    if |payload| != 8 then None
    else
      var next := v.(minthrottle := U16(payload[0], payload[1]),
                     maxthrottle := U16(payload[2], payload[3]),
                     mincommand := U16(payload[4], payload[5]),
                     poles := payload[6], bidir := payload[7] != 0);
      if Valid(next) then Some(next) else None
  }

  /** The register a set command writes. */
  function Target(cmd: nat): Option<nat> {
    if cmd == 37 then Some(36)
    else if cmd == 43 then Some(42)
    else if cmd == 62 then Some(61)
    else if cmd == 91 then Some(90)
    else if cmd == 93 then Some(92)
    else if cmd == 95 then Some(94)
    else if cmd == 217 then Some(124)
    else None
  }

  /** Bits 12 and 27 of the little-endian feature word: 3D and the UART sensor. */
  predicate Unsupported(payload: seq<byte>)
    requires |payload| == 4
  {
    payload[1] / 16 % 2 == 1 || payload[3] / 8 % 2 == 1
  }

  function WithRegister(v: Values, motorCount: nat, cmd: nat, payload: seq<byte>): (r: Option<Values>)
    requires Shaped(v)
    ensures r.Some? ==> Shaped(r.value)
  {
    match Target(cmd)
    case None => None
    case Some(r) =>
      var was := v.registers[r];
      if |payload| != (if r == ADVANCED then |was| - 1 else |was|) then None
      else if r == FEATURES && Unsupported(payload) then None
      else if r == MIXER && payload[0] != MixerType(motorCount) then None
      else
        var next := v.(registers := v.registers[r := payload + if r == ADVANCED then was[|was| - 1..] else []]);
        if Valid(next) then Some(next) else None
  }

  /** A CLI assignment, after the key and the upper-cased value have been read. */
  datatype Setting =
    | MotorProtocol(protocol: byte)
    | DshotBidir(on: bool)
    | DshotEdt(edt: Edt)
    | MotorPoles(poles: nat)
    | BadSetting

  function WithSetting(v: Values, setting: Setting): (r: Option<Values>)
    requires Shaped(v)
    ensures r.Some? ==> Shaped(r.value)
  {
    match setting
    case MotorProtocol(p) =>
      if p in {5, 6, 7, 9} then
        var data: seq<byte> := v.registers[ADVANCED][3 := p];
        Some(v.(registers := v.registers[ADVANCED := data]))
      else None
    case DshotBidir(on) => Some(v.(bidir := on))
    case DshotEdt(edt) => Some(v.(edt := edt))
    case MotorPoles(n) => if 2 <= n <= 100 && n % 2 == 0 then Some(v.(poles := n)) else None
    case BadSetting => None
  }

  // ------------------------------------------------------------- the class

  datatype Store = Store(values: Values, saved: Values)

  class Configuration {
    const motorCount: nat
    var values: Values
    var saved: Values

    constructor (poles: nat, motorCount: nat)
      requires 1 <= motorCount <= 8
      ensures this.motorCount == motorCount
      ensures values == saved == Defaults(poles, motorCount)
    {
      this.motorCount := motorCount;
      values := Defaults(poles, motorCount);
      saved := Defaults(poles, motorCount);
    }

    method Validate() returns (ok: bool)
      requires Shaped(values)
      ensures ok <==> Valid(values)
    {
      if values.poles < 2 || values.poles > 100 || values.poles % 2 != 0 {
        return false;
      }
      if Protocol(values) !in {5, 6, 7, 9} {
        return false;
      }
      return InRange(values.minthrottle) && InRange(values.maxthrottle) && InRange(values.mincommand);
    }

    /** Writing the file is left to the caller; a failure there leaves `saved` alone. */
    method Save(written: bool) returns (ok: bool)
      requires Shaped(values)
      modifies this`saved
      ensures ok <==> Valid(old(values)) && written
      ensures saved == if ok then values else old(saved)
    {
      ok := Validate();
      ok := ok && written;
      if ok {
        saved := values;
      }
    }

    method Reboot()
      modifies this`values
      ensures values == saved
    {
      values := saved;
    }

    /** Assign, validate, and put the old values back if that fails. */
    method SetMotor(payload: seq<byte>) returns (ok: bool)
      requires Shaped(values)
      modifies this`values
      ensures ok <==> WithMotor(old(values), payload).Some?
      ensures values == if ok then WithMotor(old(values), payload).value else old(values)
    {
      if |payload| != 8 {
        return false;
      }
      var before := values;
      values := values.(minthrottle := U16(payload[0], payload[1]),
                        maxthrottle := U16(payload[2], payload[3]),
                        mincommand := U16(payload[4], payload[5]),
                        poles := payload[6], bidir := payload[7] != 0);
      ok := Validate();
      if !ok {
        values := before;
      }
    }

    method SetRegister(cmd: nat, payload: seq<byte>) returns (ok: bool)
      requires Shaped(values) && Target(cmd).Some?
      modifies this`values
      ensures ok <==> WithRegister(old(values), motorCount, cmd, payload).Some?
      ensures values == if ok then WithRegister(old(values), motorCount, cmd, payload).value else old(values)
    {
      var r := Target(cmd).value;
      var before := values.registers[r];
      if |payload| != (if r == ADVANCED then |before| - 1 else |before|) {
        return false;
      }
      if r == FEATURES && Unsupported(payload) {
        return false;
      }
      if r == MIXER && payload[0] != MixerType(motorCount) {
        return false;
      }
      var all := values;
      values := values.(registers := values.registers[r := payload + if r == ADVANCED then before[|before| - 1..] else []]);
      ok := Validate();
      if !ok {
        values := values.(registers := values.registers[r := before]);
        assert values.registers == all.registers;
      }
    }

    method CliSet(setting: Setting) returns (ok: bool)
      requires Shaped(values)
      modifies this`values
      ensures ok <==> WithSetting(old(values), setting).Some?
      ensures values == if ok then WithSetting(old(values), setting).value else old(values)
    {
      match setting
      case MotorProtocol(p) =>
        if p !in {5, 6, 7, 9} {
          return false;
        }
        var data: seq<byte> := values.registers[ADVANCED];
        data := data[3 := p];
        values := values.(registers := values.registers[ADVANCED := data]);
        return true;
      case DshotBidir(on) =>
        values := values.(bidir := on);
        return true;
      case DshotEdt(edt) =>
        values := values.(edt := edt);
        return true;
      case MotorPoles(n) =>
        if n < 2 || n > 100 || n % 2 != 0 {
          return false;
        }
        values := values.(poles := n);
        return true;
      case BadSetting =>
        return false;
    }
  }

  // ------------------------------------------------------- runs of requests

  datatype Request =
    | Motor(payload: seq<byte>)
    | Register(cmd: nat, payload: seq<byte>)
    | Cli(setting: Setting)
    | Save(written: bool)
    | Reboot

  /** The store after a request, and whether the request was accepted. */
  function Apply(s: Store, motorCount: nat, r: Request): (Store, bool)
    requires Shaped(s.values)
  {
    match r
    case Save(written) => if Valid(s.values) && written then (s.(saved := s.values), true) else (s, false)
    case Reboot => (s.(values := s.saved), true)
    case _ =>
      var next := match r
        case Motor(payload) => WithMotor(s.values, payload)
        case Register(cmd, payload) => WithRegister(s.values, motorCount, cmd, payload)
        case Cli(setting) => WithSetting(s.values, setting)
        case _ => None;
      if next.Some? then (s.(values := next.value), true) else (s, false)
  }

  /** What a bench may rely on in any settings derived from others. */
  predicate Sane(v: Values, motorCount: nat, debugModes: byte) {
    && Shaped(v) && Valid(v)
    && v.registers[MIXER][0] == MixerType(motorCount)
    && v.registers[ADVANCED][19] == debugModes
  }

  /** No request brings in unsupported features; a settings file may already hold some. */
  predicate FeaturesFrom(start: Store, v: Values)
    requires Shaped(start.values) && Shaped(start.saved) && Shaped(v)
  {
    || v.registers[FEATURES] == start.values.registers[FEATURES]
    || v.registers[FEATURES] == start.saved.registers[FEATURES]
    || !Unsupported(v.registers[FEATURES])
  }

  lemma MotorKeeps(v: Values, motorCount: nat, debugModes: byte, payload: seq<byte>)
    requires Sane(v, motorCount, debugModes)
    ensures var next := WithMotor(v, payload); next.Some? ==> Sane(next.value, motorCount, debugModes)
  {}

  lemma RegisterKeeps(v: Values, motorCount: nat, debugModes: byte, cmd: nat, payload: seq<byte>)
    requires Sane(v, motorCount, debugModes)
    ensures var next := WithRegister(v, motorCount, cmd, payload);
            next.Some? ==> Sane(next.value, motorCount, debugModes) && FeaturesFrom(Store(v, v), next.value)
  {
    if Target(cmd).Some? {
      assert payload + [] == payload;
    }
  }

  lemma SettingKeeps(v: Values, motorCount: nat, debugModes: byte, setting: Setting)
    requires Sane(v, motorCount, debugModes)
    ensures var next := WithSetting(v, setting);
            next.Some? ==> Sane(next.value, motorCount, debugModes)
  {}

  lemma ApplyKeeps(s: Store, motorCount: nat, debugModes: byte, r: Request)
    requires Sane(s.values, motorCount, debugModes) && Sane(s.saved, motorCount, debugModes)
    ensures var (next, ok) := Apply(s, motorCount, r);
            && Sane(next.values, motorCount, debugModes) && Sane(next.saved, motorCount, debugModes)
            && (!ok ==> next == s)
            && (!r.Save? ==> next.saved == s.saved)
            && (r == Reboot ==> next.values == s.saved)
            && FeaturesFrom(s, next.values) && FeaturesFrom(s, next.saved)
  {
    match r
    case Motor(payload) => MotorKeeps(s.values, motorCount, debugModes, payload);
    case Register(cmd, payload) => RegisterKeeps(s.values, motorCount, debugModes, cmd, payload);
    case Cli(setting) => SettingKeeps(s.values, motorCount, debugModes, setting);
    case _ =>
  }

  // ------------------------------------------------- what is accepted, in bytes

  /** A motor protocol a bench can drive: DShot150, 300 and 600, or none. */
  predicate Drivable(p: byte) {
    p == 5 || p == 6 || p == 7 || p == 9
  }

  lemma MotorAccepted(v: Values, payload: seq<byte>)
    requires Shaped(v)
    ensures WithMotor(v, payload).Some? <==>
            && |payload| == 8
            && 1000 <= U16(payload[0], payload[1]) <= 2000
            && 1000 <= U16(payload[2], payload[3]) <= 2000
            && 1000 <= U16(payload[4], payload[5]) <= 2000
            && 2 <= payload[6] <= 100 && payload[6] % 2 == 0
            && Drivable(v.registers[90][3])
  {}

  /** Four bytes, least significant first. */
  function U32(s: seq<byte>): nat
    requires |s| == 4
  {
    U16(s[0], s[1]) + 0x1_0000 * U16(s[2], s[3])
  }

  /** The payload lengths of the requests that set a register. */
  function SetLength(cmd: nat): nat {
    if cmd == 37 then 4 else if cmd == 43 then 2 else if cmd == 62 then 3 else if cmd == 91 then 19
    else if cmd == 93 then 49 else if cmd == 95 then 61 else 6
  }

  /**
   A register is accepted exactly with its length, without the features 3D (bit 12) and UART
   sensor (bit 27), with the bench's mixer, and with a protocol that can be driven.
   */
  lemma RegisterAccepted(v: Values, motorCount: nat, cmd: nat, payload: seq<byte>)
    requires Shaped(v) && Valid(v)
    ensures WithRegister(v, motorCount, cmd, payload).Some? <==>
            && cmd in {37, 43, 62, 91, 93, 95, 217} && |payload| == SetLength(cmd)
            && (cmd == 37 ==>
                  var features := U32(payload);
                  features / 0x1000 % 2 == 0 && features / 0x800_0000 % 2 == 0)
            && (cmd == 43 ==> payload[0] == if motorCount == 8 then 13 else 23)
            && (cmd == 91 ==> Drivable(payload[3]))
  {
    if cmd == 37 && |payload| == 4 {
      FeatureBits(payload);
    }
    assert payload + [] == payload;
  }

  lemma FeatureBits(payload: seq<byte>)
    requires |payload| == 4
    ensures var features := U32(payload);
            Unsupported(payload) <==> features / 0x1000 % 2 == 1 || features / 0x800_0000 % 2 == 1
  {
    var b0: nat, b1: nat, b2: nat, b3: nat := payload[0], payload[1], payload[2], payload[3];
    Bit12(b0, b1, U16(b2, b3));
    Bit27(b0 + 256 * b1 + 0x1_0000 * b2, b3);
  }

  lemma Bit12(low: nat, b: nat, high: nat)
    requires low < 256
    ensures (low + 256 * b + 0x1_0000 * high) / 0x1000 % 2 == b / 16 % 2
  {
    var x, q := low + 256 * b + 0x1_0000 * high, b / 16 + 16 * high;
    assert b == 16 * (b / 16) + b % 16;
    assert x == (low + 256 * (b % 16)) + 0x1000 * q && low + 256 * (b % 16) < 0x1000;
    assert x / 0x1000 == q;
    assert q % 2 == (b / 16 + 2 * (8 * high)) % 2;
  }

  lemma Bit27(low: nat, b: nat)
    requires low < 0x100_0000
    ensures (low + 0x100_0000 * b) / 0x800_0000 == b / 8
  {
    assert b == 8 * (b / 8) + b % 8;
    assert low + 0x100_0000 * b == (low + 0x100_0000 * (b % 8)) + 0x800_0000 * (b / 8);
  }

  lemma SettingAccepted(v: Values, setting: Setting)
    requires Shaped(v)
    ensures WithSetting(v, setting).Some? <==>
            match setting
            case MotorProtocol(p) => Drivable(p)
            case MotorPoles(n) => exists k :: 1 <= k <= 50 && n == 2 * k
            case BadSetting => false
            case _ => true
  {
    if setting.MotorPoles? {
      assert setting.poles % 2 == 0 ==> setting.poles == 2 * (setting.poles / 2);
    }
  }

  // ------------------------------------------------------------- reading back

  /** The reply to a read of the motor settings. */
  function ReadMotor(v: Values, motorCount: nat): seq<byte>
    requires Shaped(v) && Valid(v) && motorCount <= 8
  {
    Le16(v.minthrottle) + Le16(v.maxthrottle) + Le16(v.mincommand) +
    [motorCount, v.poles, if v.bidir then 1 else 0, 0]
  }

  /** Accepted motor settings are read back as they were sent, and touch nothing else. */
  lemma MotorReadsBack(v: Values, motorCount: nat, payload: seq<byte>)
    requires Shaped(v) && motorCount <= 8 && WithMotor(v, payload).Some?
    ensures var next := WithMotor(v, payload).value;
            && |payload| == 8 && Valid(next) && next.registers == v.registers && next.edt == v.edt
            && ReadMotor(next, motorCount) ==
               payload[..6] + [motorCount, payload[6], if payload[7] != 0 then 1 else 0, 0]
  {
    Le16OfU16(payload[0], payload[1]);
    Le16OfU16(payload[2], payload[3]);
    Le16OfU16(payload[4], payload[5]);
    assert payload[..6] == [payload[0], payload[1]] + [payload[2], payload[3]] + [payload[4], payload[5]];
  }

  lemma Le16OfU16(lo: byte, hi: byte)
    ensures Le16(U16(lo, hi)) == [lo, hi]
  {}

  /** An accepted register is read back as it was sent, with its old read-only tail; no other changes. */
  lemma RegisterReadsBack(v: Values, motorCount: nat, cmd: nat, payload: seq<byte>)
    requires Shaped(v) && WithRegister(v, motorCount, cmd, payload).Some?
    ensures var next := WithRegister(v, motorCount, cmd, payload).value;
            && Target(cmd).Some? && Target(cmd).value in REGISTERS
            && var r := Target(cmd).value;
               && next.(registers := v.registers) == v
               && (forall k :: k in REGISTERS && k != r ==> next.registers[k] == v.registers[k])
               && |payload| <= |v.registers[r]|
               && next.registers[r] == payload + v.registers[r][|payload|..]
               && (|payload| < |v.registers[r]| <==> r == ADVANCED)
  {
    var r := Target(cmd).value;
    assert v.registers[r][|v.registers[r]|..] == [];
  }

  /** What the CLI prints of the settings. */
  datatype CliView = CliView(protocol: byte, bidir: bool, edt: Edt, poles: nat)

  function CliGet(v: Values): CliView
    requires Shaped(v)
  {
    CliView(Protocol(v), v.bidir, v.edt, v.poles)
  }

  /** A setting accepted by the CLI is shown by it, and the other three are as before. */
  lemma SettingReadsBack(v: Values, setting: Setting)
    requires Shaped(v) && WithSetting(v, setting).Some?
    ensures var next := WithSetting(v, setting).value;
            && CliGet(next) == (match setting
               case MotorProtocol(p) => CliGet(v).(protocol := p)
               case DshotBidir(on) => CliGet(v).(bidir := on)
               case DshotEdt(edt) => CliGet(v).(edt := edt)
               case MotorPoles(n) => CliGet(v).(poles := n)
               case BadSetting => CliGet(v))
            && (forall k :: k in REGISTERS && k != ADVANCED ==> next.registers[k] == v.registers[k])
            && (forall j :: 0 <= j < 20 && j != 3 ==> next.registers[ADVANCED][j] == v.registers[ADVANCED][j])
  {}

  predicate SaneStore(s: Store, motorCount: nat, debugModes: byte) {
    Sane(s.values, motorCount, debugModes) && Sane(s.saved, motorCount, debugModes)
  }

  function ApplyAll(s: Store, motorCount: nat, debugModes: byte, rs: seq<Request>): (r: Store)
    requires SaneStore(s, motorCount, debugModes)
    ensures SaneStore(r, motorCount, debugModes)
  {
    if rs == [] then s
    else
      var before := ApplyAll(s, motorCount, debugModes, rs[..|rs| - 1]);
      ApplyKeeps(before, motorCount, debugModes, rs[|rs| - 1]);
      Apply(before, motorCount, rs[|rs| - 1]).0
  }

  /** The values at the last save that went through, or those the run started with. */
  function LastSaved(s: Store, motorCount: nat, debugModes: byte, rs: seq<Request>): Values
    requires SaneStore(s, motorCount, debugModes)
  {
    if rs == [] then s.saved
    else if rs[|rs| - 1] == Save(true) then ApplyAll(s, motorCount, debugModes, rs[..|rs| - 1]).values
    else LastSaved(s, motorCount, debugModes, rs[..|rs| - 1])
  }

  /**
   After any run of requests from valid settings: everything is still valid, the register
   lengths, mixer type and read-only byte are what they were, the features are as they were
   or supported, and a reboot brings back exactly what was last saved.
   */
  lemma {:induction false} RunKeepsSettings(s: Store, motorCount: nat, debugModes: byte, rs: seq<Request>)
    requires SaneStore(s, motorCount, debugModes)
    ensures SaneStore(ApplyAll(s, motorCount, debugModes, rs), motorCount, debugModes)
    ensures FeaturesFrom(s, ApplyAll(s, motorCount, debugModes, rs).values)
    ensures ApplyAll(s, motorCount, debugModes, rs).saved == LastSaved(s, motorCount, debugModes, rs)
    ensures ApplyAll(s, motorCount, debugModes, rs + [Reboot]).values == LastSaved(s, motorCount, debugModes, rs)
  {
    hide Apply, Valid, FeaturesFrom;
    RunFeatures(s, motorCount, debugModes, rs);
    RunSaved(s, motorCount, debugModes, rs);
    assert (rs + [Reboot])[..|rs|] == rs;
    ApplyKeeps(ApplyAll(s, motorCount, debugModes, rs), motorCount, debugModes, Reboot);
  }

  lemma {:induction false} RunFeatures(s: Store, motorCount: nat, debugModes: byte, rs: seq<Request>)
    requires SaneStore(s, motorCount, debugModes)
    ensures var after := ApplyAll(s, motorCount, debugModes, rs);
            FeaturesFrom(s, after.values) && FeaturesFrom(s, after.saved)
  {
    hide Apply, Valid, Unsupported;
    if rs != [] {
      RunFeatures(s, motorCount, debugModes, rs[..|rs| - 1]);
      ApplyKeeps(ApplyAll(s, motorCount, debugModes, rs[..|rs| - 1]), motorCount, debugModes, rs[|rs| - 1]);
    }
  }

  lemma {:induction false} RunSaved(s: Store, motorCount: nat, debugModes: byte, rs: seq<Request>)
    requires SaneStore(s, motorCount, debugModes)
    ensures ApplyAll(s, motorCount, debugModes, rs).saved == LastSaved(s, motorCount, debugModes, rs)
  {
    hide Sane;
    if rs != [] {
      RunSaved(s, motorCount, debugModes, rs[..|rs| - 1]);
      ApplyKeeps(ApplyAll(s, motorCount, debugModes, rs[..|rs| - 1]), motorCount, debugModes, rs[|rs| - 1]);
      SavedWhenValid(ApplyAll(s, motorCount, debugModes, rs[..|rs| - 1]), motorCount, debugModes, rs[|rs| - 1]);
    }
  }

  lemma SavedWhenValid(s: Store, motorCount: nat, debugModes: byte, r: Request)
    requires SaneStore(s, motorCount, debugModes)
    ensures Apply(s, motorCount, r).0.saved == if r == Save(true) then s.values else s.saved
  {
    ApplyKeeps(s, motorCount, debugModes, r);
  }

  /** The factory settings are such a start for every even pole count in range. */
  lemma DefaultsSane(poles: nat, motorCount: nat)
    requires 2 <= poles <= 100 && poles % 2 == 0
    ensures Sane(Defaults(poles, motorCount), motorCount, 1)
    ensures !Unsupported(Defaults(poles, motorCount).registers[FEATURES])
  {
    hide Le16, Zeros;
    AdvancedDefaults();
    ZerosLength();
  }

  lemma ZerosLength()
    ensures |Zeros(4)| == 4 && |Zeros(49)| == 49 && |Zeros(47)| == 47 && |Zeros(13)| == 13
    ensures Zeros(4) == [0, 0, 0, 0]
  {}

  lemma AdvancedDefaults()
    ensures var advanced := [1, 4, 0, 7] + Le16(480) + Le16(550) + [0, 0, 0, 0, 48] + Le16(125) + Zeros(4) + [1];
            |advanced| == 20 && advanced[3] == 7 && advanced[19] == 1
  {
    hide Le16;
  }
}
