/**
 The flight-controller side of the BLHeli 4-way protocol: frames in, one-wire
 bootloader transactions out, one reply per valid frame.
 */
module FourWayServer {
  import opened Bytes
  import Crc
  import opened OneWire

  const REQ_MARK: byte := 0x2F
  const RESP_MARK: byte := 0x2E

  const TEST_ALIVE: byte := 0x30
  const PROTOCOL_GET_VERSION: byte := 0x31
  const INTERFACE_GET_NAME: byte := 0x32
  const INTERFACE_GET_VERSION: byte := 0x33
  const INTERFACE_EXIT: byte := 0x34
  const DEVICE_RESET: byte := 0x35
  const DEVICE_INIT_FLASH: byte := 0x37
  const DEVICE_PAGE_ERASE: byte := 0x39
  const DEVICE_READ: byte := 0x3A
  const DEVICE_WRITE: byte := 0x3B
  const DEVICE_C2CK_LOW: byte := 0x3C
  const DEVICE_READ_EEPROM: byte := 0x3D
  const DEVICE_WRITE_EEPROM: byte := 0x3E
  const INTERFACE_SET_MODE: byte := 0x3F

  const OK: byte := 0x00
  const INVALID_CMD: byte := 0x02
  const GENERAL_ERROR: byte := 0x0F

  const PROTOCOL_VERSION: byte := 107
  const INTERFACE_NAME: seq<byte> := [0x6D, 0x34, 0x77, 0x46, 0x43, 0x49, 0x6E, 0x74, 0x66]
  const INTERFACE_VERSION: seq<byte> := [20, 1]

  /**
   The bench a server is built for. canReset says, per ESC, whether a state port is
   configured and resetting is allowed; window bounds how many retries fit in the
   three seconds after a reset.
   */
  datatype Setup = Setup(canReset: seq<bool>, answers: Answers, window: History -> nat)

  predicate ValidSetup(c: Setup) {
    1 <= |c.canReset| <= 8
  }

  function EscCount(c: Setup): nat {
    |c.canReset|
  }

  /** log is everything that went to the ESCs since `begin`. */
  datatype Session = Session(
    buf: seq<byte>, exited: bool, connected: set<nat>, target: nat,
    lastRequest: seq<byte>, log: History)

  const FRESH := Session([], false, {}, 0, [], [])

  // --------------------------------------------------------------- framing

  /** A length byte of zero means 256. */
  function Length(b: byte): nat {
    if b == 0 then 256 else b
  }

  predicate IsFrame(frame: seq<byte>) {
    |frame| >= 8 && |frame| == 7 + Length(frame[4])
  }

  function Params(frame: seq<byte>): seq<byte>
    requires IsFrame(frame)
  {
    frame[5..|frame| - 2]
  }

  predicate CheckPasses(frame: seq<byte>)
    requires |frame| >= 2
  {
    Crc.Xmodem(frame[..|frame| - 2]) == U16(frame[|frame| - 1], frame[|frame| - 2])
  }

  datatype Pulled =
    | NeedMore(rest: seq<byte>)
    | Dropped(rest: seq<byte>)
    | Request(frame: seq<byte>, rest: seq<byte>)

  /** The next request once the buffer starts at a mark. */
  function PullAligned(b: seq<byte>): (p: Pulled)
    ensures !p.NeedMore? ==> |p.rest| < |b|
    ensures p.Request? ==> IsFrame(p.frame)
  {
    if |b| < 5 then NeedMore(b)
    else
      var total := 7 + Length(b[4]);
      if |b| < total then NeedMore(b)
      else if CheckPasses(b[..total]) then Request(b[..total], b[total..])
      else Dropped(b[total..])
  }

  /** Bytes before the mark are line noise, or the tail of something older. */
  function Pull(buf: seq<byte>): (p: Pulled)
    ensures !p.NeedMore? ==> |p.rest| < |buf|
    ensures p.Request? ==> IsFrame(p.frame)
  {
    PullAligned(buf[IndexOf(buf, REQ_MARK)..])
  }

  /** None is the source's `ValueError` for an over-long response. */
  function Reply(cmd: byte, address: word, params: seq<byte>, ack: byte): Option<seq<byte>> {
    if |params| > 256 then None
    else
      var body := [RESP_MARK, cmd, address / 256, address % 256, |params| % 256] + params + [ack];
      Some(body + Be16(Crc.Xmodem(body)))
  }

  // -------------------------------------------------------------- commands

  /** Probe until the ESC answers, at most n times. */
  function Reprobe(c: Setup, target: nat, log: History, n: nat): (Option<seq<byte>>, History)
    decreases n
  {
    if n == 0 then (None, log)
    else
      var tried := ConnectOn(c.answers, target, log);
      if tried.0.Some? then tried else Reprobe(c, target, tried.1, n - 1)
  }

  /** One probe, then one reset where that is possible, then probes until the window closes. */
  function ConnectEsc(c: Setup, target: nat, log: History): (r: (Option<seq<byte>>, History))
    requires target < EscCount(c)
  {
    var first := ConnectOn(c.answers, target, log);
    if first.0.Some? then first
    else
      var after := if c.canReset[target] then first.1 + [Reset(target)] else first.1;
      Reprobe(c, target, after, c.window(after))
  }

  datatype Outcome = Outcome(session: Session, params: seq<byte>, ack: byte)

  function DeviceParams(info: seq<byte>): seq<byte>
    requires |info| == 9
  {
    [info[5], info[4], info[3], info[6]]
  }

  function TestAlive(c: Setup, s: Session): Outcome {
    if s.target !in s.connected then Outcome(s, [0], OK)
    else
      var (alive, log) := KeepAliveOn(c.answers, s.target, s.log);
      if alive then Outcome(s.(log := log), [0], OK)
      else Outcome(s.(log := log, connected := s.connected - {s.target}), [0], GENERAL_ERROR)
  }

  function InitFlash(c: Setup, s: Session, target: nat): Outcome {
    if target >= EscCount(c) then Outcome(s, [0], INVALID_CMD)
    else
      var (info, log) := ConnectEsc(c, target, s.log);
      ConnectShape(c, target, s.log);
      match info
      case None => Outcome(s.(target := target, log := log), [0], GENERAL_ERROR)
      case Some(i) =>
        Outcome(s.(target := target, log := log, connected := s.connected + {target}),
                DeviceParams(i), OK)
  }

  function ResetDevice(c: Setup, s: Session, target: nat): Outcome {
    if target >= EscCount(c) then Outcome(s, [0], INVALID_CMD)
    else Outcome(s.(log := RunOn(target, s.log), connected := s.connected - {target}), [0], OK)
  }

  function ReadDevice(c: Setup, s: Session, size: nat, address: word): Outcome
    requires 1 <= size <= 256
  {
    if s.target !in s.connected then Outcome(s, [0], GENERAL_ERROR)
    else
      var (data, log) := ReadFlashOn(c.answers, s.target, size, address, s.log);
      match data
      case None => Outcome(s.(log := log), [0], GENERAL_ERROR)
      case Some(d) => Outcome(s.(log := log), d, OK)
  }

  function WriteDevice(c: Setup, s: Session, params: seq<byte>, address: word): Outcome
    requires 1 <= |params| <= 256
  {
    if s.target !in s.connected then Outcome(s, [0], GENERAL_ERROR)
    else
      var (ok, log) := WriteOn(c.answers, s.target, address, params, s.log);
      Outcome(s.(log := log), [0], if ok then OK else GENERAL_ERROR)
  }

  function EraseDevice(c: Setup, s: Session, page: byte, address: word): Outcome {
    if s.target !in s.connected then Outcome(s, [page], GENERAL_ERROR)
    else
      var (ok, log) := EraseFlashOn(c.answers, s.target, address, s.log);
      Outcome(s.(log := log), [page], if ok then OK else GENERAL_ERROR)
  }

  function Respond(c: Setup, s: Session, frame: seq<byte>): Outcome
    requires IsFrame(frame)
  {
    var cmd := frame[1];
    var address := U16(frame[3], frame[2]);
    var params := Params(frame);
    if cmd == PROTOCOL_GET_VERSION then Outcome(s, [PROTOCOL_VERSION], OK)
    else if cmd == INTERFACE_GET_NAME then Outcome(s, INTERFACE_NAME, OK)
    else if cmd == INTERFACE_GET_VERSION then Outcome(s, INTERFACE_VERSION, OK)
    else if cmd == INTERFACE_EXIT then Outcome(s.(exited := true), [0], OK)
    else if cmd == INTERFACE_SET_MODE || cmd == DEVICE_C2CK_LOW then Outcome(s, [0], OK)
    else if cmd == TEST_ALIVE then TestAlive(c, s)
    else if cmd == DEVICE_INIT_FLASH then InitFlash(c, s, params[0])
    else if cmd == DEVICE_RESET then ResetDevice(c, s, params[0])
    else if cmd == DEVICE_READ || cmd == DEVICE_READ_EEPROM then
      ReadDevice(c, s, Length(params[0]), address)
    else if cmd == DEVICE_WRITE || cmd == DEVICE_WRITE_EEPROM then WriteDevice(c, s, params, address)
    else if cmd == DEVICE_PAGE_ERASE then EraseDevice(c, s, params[0], address)
    else Outcome(s, [0], INVALID_CMD)
  }

  function ReplyTo(c: Setup, s: Session, frame: seq<byte>): Option<seq<byte>>
    requires IsFrame(frame)
  {
    var o := Respond(c, s, frame);
    Reply(frame[1], U16(frame[3], frame[2]), o.params, o.ack)
  }

  lemma {:induction false} ReprobeShape(c: Setup, target: nat, log: History, n: nat)
    ensures var r := Reprobe(c, target, log, n).0;
            r.Some? ==> IsDeviceInfo(r.value)
    decreases n
  {
    if n > 0 && ConnectOn(c.answers, target, log).0.None? {
      ReprobeShape(c, target, ConnectOn(c.answers, target, log).1, n - 1);
    }
  }

  lemma ConnectShape(c: Setup, target: nat, log: History)
    requires target < EscCount(c)
    ensures var r := ConnectEsc(c, target, log).0;
            r.Some? ==> IsDeviceInfo(r.value)
  {
    var first := ConnectOn(c.answers, target, log);
    if first.0.None? {
      var after := if c.canReset[target] then first.1 + [Reset(target)] else first.1;
      ReprobeShape(c, target, after, c.window(after));
    }
  }

  /** No answer is ever empty or too long, so the over-long error cannot occur. */
  lemma AnswerLength(c: Setup, s: Session, frame: seq<byte>)
    requires IsFrame(frame)
    ensures 1 <= |Respond(c, s, frame).params| <= 256
    ensures ReplyTo(c, s, frame).Some?
  {
    hide Crc.Xmodem, ConnectEsc, KeepAliveOn, ReadFlashOn, WriteOn, EraseFlashOn;
    ConnectAnswer(c, s, Params(frame)[0]);
  }

  lemma ConnectAnswer(c: Setup, s: Session, target: nat)
    ensures |InitFlash(c, s, target).params| == 1 || |InitFlash(c, s, target).params| == 4
  {
    hide ConnectEsc;
  }

  // ------------------------------------------------------------------ feed

  lemma RespondKeepsBuffer(c: Setup, s: Session, frame: seq<byte>)
    requires IsFrame(frame)
    ensures Respond(c, s, frame).session.buf == s.buf
    ensures Respond(c, s, frame).session.lastRequest == s.lastRequest
    ensures Respond(c, s, frame).session.exited == (s.exited || frame[1] == INTERFACE_EXIT)
  {
    hide ConnectEsc, KeepAliveOn, ReadFlashOn, WriteOn, EraseFlashOn;
  }

  /** One turn of the loop: the session after it, what it sends, and whether the loop goes on. */
  datatype Turn = Turn(session: Session, out: seq<byte>, again: bool)

  function ServeOne(c: Setup, s: Session): (t: Turn)
    ensures t.again ==> |t.session.buf| < |s.buf|
  {
    match Pull(s.buf)
    case NeedMore(rest) => Turn(s.(buf := rest), [], false)
    case Dropped(rest) => Turn(s.(buf := rest), [], true)
    case Request(frame, rest) =>
      var ready := s.(buf := rest, lastRequest := frame);
      RespondKeepsBuffer(c, ready, frame);
      AnswerLength(c, ready, frame);
      var next := Respond(c, ready, frame).session;
      Turn(next, ReplyTo(c, ready, frame).value, !next.exited)
  }

  /** Handle every complete frame in the buffer, stopping after an exit. */
  function Served(c: Setup, s: Session): (Session, seq<byte>)
    decreases |s.buf|
  {
    var t := ServeOne(c, s);
    if t.again then Behind(t.out, Served(c, t.session)) else (t.session, t.out)
  }

  function Behind(out: seq<byte>, tail: (Session, seq<byte>)): (Session, seq<byte>) {
    (tail.0, out + tail.1)
  }

  lemma BehindNothing(tail: (Session, seq<byte>))
    ensures Behind([], tail) == tail
  {
    assert [] + tail.1 == tail.1;
  }

  lemma BehindTwice(a: seq<byte>, b: seq<byte>, tail: (Session, seq<byte>))
    ensures Behind(a, Behind(b, tail)) == Behind(a + b, tail)
  {
    assert a + (b + tail.1) == a + b + tail.1;
  }

  function Fed(c: Setup, s: Session, data: seq<byte>): (Session, seq<byte>) {
    Served(c, s.(buf := s.buf + data))
  }

  // ------------------------------------------------------------ the server

  class Server {
    const setup: Setup
    const bench: Bench
    var buf: seq<byte>
    var exited: bool
    var connected: set<nat>
    var target: nat
    var lastRequest: seq<byte>

    constructor (setup: Setup)
      requires ValidSetup(setup)
      ensures this.setup == setup && fresh(bench) && bench.answers == setup.answers
      ensures State() == FRESH
    {
      this.setup := setup;
      bench := new Bench(setup.answers);
      buf, exited, connected, target, lastRequest := [], false, {}, 0, [];
    }

    function State(): Session
      reads this, bench
    {
      Session(buf, exited, connected, target, lastRequest, bench.log)
    }

    /** A new passthrough session starts from scratch; the traffic log restarts with it. */
    method Begin()
      modifies this, bench
      ensures State() == FRESH
    {
      exited := false;
      buf := [];
      lastRequest := [];
      connected := {};
      target := 0;
      bench.log := [];
    }

    method NextFrame() returns (pulled: Pulled)
      modifies this
      ensures pulled == Pull(old(buf))
      ensures State() ==
              if pulled.Request? then old(State()).(buf := pulled.rest, lastRequest := pulled.frame)
              else old(State()).(buf := pulled.rest)
    {
      hide Crc.Xmodem, IndexOf;
      var start := IndexOf(buf, REQ_MARK);
      if start == |buf| {
        buf := [];
        return NeedMore([]);
      }
      if start > 0 {
        buf := buf[start..];
      }
      assert buf == old(buf)[start..];
      if |buf| < 5 {
        return NeedMore(buf);
      }
      var total := 7 + Length(buf[4]);
      if |buf| < total {
        return NeedMore(buf);
      }
      var frame := buf[..total];
      buf := buf[total..];
      var crc := Crc.Crc16Xmodem(frame[..|frame| - 2]);
      if crc != U16(frame[|frame| - 1], frame[|frame| - 2]) {
        return Dropped(buf);
      }
      lastRequest := frame;
      return Request(frame, buf);
    }

    method Connect(esc: nat) returns (info: Option<seq<byte>>)
      requires esc < EscCount(setup) && bench.answers == setup.answers
      modifies this, bench
      ensures (info, bench.log) == ConnectEsc(setup, esc, old(bench.log))
      ensures State() == old(State()).(
                log := bench.log,
                connected := if info.Some? then old(connected) + {esc} else old(connected))
    {
      info := bench.Connect(esc);
      if info.None? {
        if setup.canReset[esc] {
          bench.ResetEsc(esc);
        }
        ghost var start := bench.log;
        var left := setup.window(bench.log);
        while info.None? && left > 0
          invariant Reprobe(setup, esc, start, setup.window(start)) ==
                    if info.Some? then (info, bench.log) else Reprobe(setup, esc, bench.log, left)
          invariant State() == old(State()).(log := bench.log)
          decreases left
        {
          info := bench.Connect(esc);
          left := left - 1;
        }
      }
      if info.Some? {
        connected := connected + {esc};
      }
    }

    method Handle(frame: seq<byte>) returns (reply: seq<byte>)
      requires IsFrame(frame) && bench.answers == setup.answers
      modifies this, bench
      ensures State() == Respond(setup, old(State()), frame).session
      ensures Some(reply) == ReplyTo(setup, old(State()), frame)
    {
      hide Crc.Xmodem, TestAlive, InitFlash, ResetDevice, ReadDevice, WriteDevice, EraseDevice;
      var cmd := frame[1];
      var address: word := U16(frame[3], frame[2]);
      var params := Params(frame);
      var answer, ack := [0], OK;
      if cmd == PROTOCOL_GET_VERSION {
        answer := [PROTOCOL_VERSION];
      } else if cmd == INTERFACE_GET_NAME {
        answer := INTERFACE_NAME;
      } else if cmd == INTERFACE_GET_VERSION {
        answer := INTERFACE_VERSION;
      } else if cmd == INTERFACE_EXIT {
        exited := true;
      } else if cmd == INTERFACE_SET_MODE || cmd == DEVICE_C2CK_LOW {
      } else if cmd == TEST_ALIVE {
        ack := HandleTestAlive();
      } else if cmd == DEVICE_INIT_FLASH {
        answer, ack := HandleInitFlash(params[0]);
      } else if cmd == DEVICE_RESET {
        ack := HandleReset(params[0]);
      } else if cmd == DEVICE_READ || cmd == DEVICE_READ_EEPROM {
        answer, ack := HandleRead(Length(params[0]), address);
      } else if cmd == DEVICE_WRITE || cmd == DEVICE_WRITE_EEPROM {
        ack := HandleWrite(params, address);
      } else if cmd == DEVICE_PAGE_ERASE {
        answer, ack := HandleErase(params[0], address);
      } else {
        ack := INVALID_CMD;
      }
      AnswerLength(setup, old(State()), frame);
      reply := Reply(cmd, address, answer, ack).value;
    }

    method HandleInitFlash(esc: byte) returns (answer: seq<byte>, ack: byte)
      requires bench.answers == setup.answers
      modifies this, bench
      ensures Outcome(State(), answer, ack) == InitFlash(setup, old(State()), esc)
    {
      if esc >= EscCount(setup) {
        return [0], INVALID_CMD;
      }
      target := esc;
      ConnectShape(setup, esc, bench.log);
      var info := Connect(esc);
      if info.None? {
        return [0], GENERAL_ERROR;
      }
      return DeviceParams(info.value), OK;
    }

    method HandleTestAlive() returns (ack: byte)
      requires bench.answers == setup.answers
      modifies this, bench
      ensures Outcome(State(), [0], ack) == TestAlive(setup, old(State()))
    {
      if target in connected {
        var alive := bench.KeepAlive(target);
        if !alive {
          connected := connected - {target};
          return GENERAL_ERROR;
        }
      }
      return OK;
    }

    method HandleReset(esc: byte) returns (ack: byte)
      modifies this, bench
      ensures Outcome(State(), [0], ack) == ResetDevice(setup, old(State()), esc)
    {
      if esc >= EscCount(setup) {
        return INVALID_CMD;
      }
      bench.Run(esc);
      connected := connected - {esc};
      return OK;
    }

    method HandleRead(size: nat, address: word) returns (answer: seq<byte>, ack: byte)
      requires 1 <= size <= 256 && bench.answers == setup.answers
      modifies this, bench
      ensures Outcome(State(), answer, ack) == ReadDevice(setup, old(State()), size, address)
    {
      var data := None;
      if target in connected {
        data := bench.ReadFlash(target, size, address);
      }
      if data.None? {
        return [0], GENERAL_ERROR;
      }
      return data.value, OK;
    }

    method HandleWrite(params: seq<byte>, address: word) returns (ack: byte)
      requires 1 <= |params| <= 256 && bench.answers == setup.answers
      modifies this, bench
      ensures Outcome(State(), [0], ack) == WriteDevice(setup, old(State()), params, address)
    {
      var ok := false;
      if target in connected {
        ok := bench.Write(target, address, params);
      }
      ack := if ok then OK else GENERAL_ERROR;
    }

    method HandleErase(page: byte, address: word) returns (answer: seq<byte>, ack: byte)
      requires bench.answers == setup.answers
      modifies this, bench
      ensures Outcome(State(), answer, ack) == EraseDevice(setup, old(State()), page, address)
    {
      var ok := false;
      if target in connected {
        ok := bench.EraseFlash(target, address);
      }
      return [page], if ok then OK else GENERAL_ERROR;
    }

    method FeedOne() returns (out: seq<byte>, again: bool)
      requires bench.answers == setup.answers
      modifies this, bench
      ensures Turn(State(), out, again) == ServeOne(setup, old(State()))
    {
      hide ReplyTo, Respond;
      var pulled := NextFrame();
      match pulled
      case NeedMore(_) => return [], false;
      case Dropped(_) => return [], true;
      case Request(frame, _) =>
        RespondKeepsBuffer(setup, State(), frame);
        AnswerLength(setup, State(), frame);
        out := Handle(frame);
        again := !exited;
    }

    method Feed(data: seq<byte>) returns (out: seq<byte>)
      requires bench.answers == setup.answers
      modifies this, bench
      ensures (State(), out) == Fed(setup, old(State()), data)
    {
      hide ServeOne;
      buf := buf + data;
      var again := true;
      out := [];
      BehindNothing(Served(setup, State()));
      while again
        invariant Fed(setup, old(State()), data) ==
                  if again then Behind(out, Served(setup, State())) else (State(), out)
        decreases again, |buf|
      {
        var reply;
        reply, again := FeedOne();
        BehindTwice(out, reply, Served(setup, State()));
        out := out + reply;
      }
    }
  }
}
