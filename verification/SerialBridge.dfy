/**
 The one-wire USB linker: host bytes go out on the signal wire and are echoed back at
 wire speed, ESC bytes follow, and an ESC that does not answer is reset once. Times are
 seconds.
 */
module SerialBridge {
  import opened Bytes
  import opened Reals

  const PROBE_TIMEOUT: Time := 0.5
  const PROBE_RETRY_INTERVAL: Time := 0.1
  const RESET_WINDOW: Time := 3.0
  const BYTE_TIME: Time := 10.0 / 19200.0

  datatype Config = Config(echo: bool, escReset: bool)

  /** A chunk the host sent and the time its last bit leaves the wire. */
  datatype Due = Due(at: Time, data: seq<byte>)

  datatype Linker = Linker(
    connected: bool, resetDone: bool, pending: seq<byte>, pendingAt: Time,
    retryUntil: Time, busyUntil: Time, echoDue: seq<Due>)

  const IDLE := Linker(false, false, [], 0.0, 0.0, 0.0, [])

  datatype Event =
    | ToWire(data: seq<byte>, gap: bool, at: Time)
    | Echoed(chunk: Due, at: Time)
    | Replied(data: seq<byte>, at: Time)
    | EscReset(at: Time)
    | Resent(data: seq<byte>, at: Time)

  function LastBytes(s: seq<byte>, n: nat): seq<byte> {
    if |s| <= n then s else s[|s| - n..]
  }

  function WireTime(n: nat): Time {
    n as real * BYTE_TIME
  }

  // --------------------------------------------------------- what each part does

  function ToEsc(c: Config, s: Linker, data: seq<byte>, now: Time): Linker {
    var busy := Max(now, s.busyUntil) + WireTime(|data|);
    s.(busyUntil := busy,
       echoDue := if c.echo then s.echoDue + [Due(busy, data)] else s.echoDue,
       pending := if now > s.busyUntil then data else LastBytes(s.pending + data, 512),
       pendingAt := now)
  }

  /** How many chunks at the front of the queue may be echoed. */
  function Ripe(due: seq<Due>, force: bool, now: Time): (n: nat)
    ensures n <= |due|
    ensures force ==> n == |due|
  {
    if due == [] || !(force || now >= due[0].at) then 0 else 1 + Ripe(due[1..], force, now)
  }

  function Echoes(due: seq<Due>, now: Time): (es: seq<Event>)
    ensures |es| == |due|
  {
    if due == [] then [] else [Echoed(due[0], now)] + Echoes(due[1..], now)
  }

  function Flush(s: Linker, force: bool, now: Time): (Linker, seq<Event>) {
    var n := Ripe(s.echoDue, force, now);
    (s.(echoDue := s.echoDue[n..]), Echoes(s.echoDue[..n], now))
  }

  function FromEsc(s: Linker, data: seq<byte>, now: Time): (Linker, seq<Event>) {
    (s.(echoDue := [], connected := true, pending := [], retryUntil := 0.0),
     Flush(s, true, now).1 + [Replied(data, now)])
  }

  function Retry(c: Config, s: Linker, now: Time): (Linker, seq<Event>) {
    if s.connected || !c.escReset || s.pending == [] then (s, [])
    else if !s.resetDone then
      if now - s.pendingAt < PROBE_TIMEOUT then (s, [])
      else (s.(resetDone := true, retryUntil := now + RESET_WINDOW, pendingAt := now), [EscReset(now)])
    else if now > s.retryUntil || now - s.pendingAt < PROBE_RETRY_INTERVAL then (s, [])
    else
      (s.(busyUntil := now + WireTime(|s.pending|), pendingAt := now), [Resent(s.pending, now)])
  }

  /** One turn of the loop: what was read from either side, and the clock at its three uses. */
  datatype Turn = Turn(chunk: seq<byte>, reply: seq<byte>, readAt: Time, replyAt: Time, retryAt: Time)

  function Heard(c: Config, s: Linker, t: Turn): (Linker, seq<Event>) {
    if t.chunk == [] then (s, [])
    else (ToEsc(c, s, t.chunk, t.readAt), [ToWire(t.chunk, t.readAt > s.busyUntil, t.readAt)])
  }

  function Loop(c: Config, s: Linker, t: Turn): (Linker, seq<Event>) {
    var heard := Heard(c, s, t);
    if t.reply != [] then
      var (after, es) := FromEsc(heard.0, t.reply, t.replyAt);
      (after, heard.1 + es)
    else
      var flushed := Flush(heard.0, false, t.replyAt);
      var retried := Retry(c, flushed.0, t.retryAt);
      (retried.0, heard.1 + flushed.1 + retried.1)
  }

  // -------------------------------------------------------------- the class

  class Bridge {
    const config: Config
    var connected: bool
    var resetDone: bool
    var pending: seq<byte>
    var pendingAt: Time
    var retryUntil: Time
    var busyUntil: Time
    var echoDue: seq<Due>
    var log: seq<Event>

    constructor (config: Config)
      ensures this.config == config && State() == IDLE && log == []
    {
      this.config := config;
      connected, resetDone := false, false;
      pending, pendingAt, retryUntil, busyUntil, echoDue := [], 0.0, 0.0, 0.0, [];
      log := [];
    }

    function State(): Linker
      reads this
    {
      Linker(connected, resetDone, pending, pendingAt, retryUntil, busyUntil, echoDue)
    }

    method Hear(data: seq<byte>, now: Time)
      modifies this
      ensures State() == ToEsc(config, old(State()), data, now)
      ensures log == old(log) + [ToWire(data, now > old(busyUntil), now)]
    {
      var gap := now > busyUntil;
      busyUntil := Max(now, busyUntil) + WireTime(|data|);
      log := log + [ToWire(data, gap, now)];
      if config.echo {
        echoDue := echoDue + [Due(busyUntil, data)];
      }
      pending := if gap then data else LastBytes(pending + data, 512);
      pendingAt := now;
    }

    method FlushEcho(force: bool, now: Time)
      modifies this`echoDue, this`log
      ensures State() == Flush(old(State()), force, now).0
      ensures log == old(log) + Flush(old(State()), force, now).1
    {
      hide Flush;
      while echoDue != [] && (force || now >= echoDue[0].at)
        invariant Flush(State(), force, now).0 == Flush(old(State()), force, now).0
        invariant log + Flush(State(), force, now).1 == old(log) + Flush(old(State()), force, now).1
        decreases |echoDue|
      {
        FlushOne(State(), force, now);
        Regrouped(log, [Echoed(echoDue[0], now)], Flush(State().(echoDue := echoDue[1..]), force, now).1);
        log := log + [Echoed(echoDue[0], now)];
        echoDue := echoDue[1..];
      }
      FlushNone(State(), force, now);
    }

    method Answer(data: seq<byte>, now: Time)
      modifies this
      ensures State() == FromEsc(old(State()), data, now).0
      ensures log == old(log) + FromEsc(old(State()), data, now).1
    {
      FlushEcho(true, now);
      log := log + [Replied(data, now)];
      connected := true;
      pending := [];
      retryUntil := 0.0;
    }

    method TryAgain(now: Time)
      modifies this
      ensures State() == Retry(config, old(State()), now).0
      ensures log == old(log) + Retry(config, old(State()), now).1
    {
      if connected || !config.escReset || pending == [] {
        return;
      }
      if !resetDone {
        if now - pendingAt < PROBE_TIMEOUT {
          return;
        }
        resetDone := true;
        log := log + [EscReset(now)];
        retryUntil := now + RESET_WINDOW;
        pendingAt := now;
        return;
      }
      if now > retryUntil || now - pendingAt < PROBE_RETRY_INTERVAL {
        return;
      }
      log := log + [Resent(pending, now)];
      busyUntil := now + WireTime(|pending|);
      pendingAt := now;
    }

    method LoopOnce(t: Turn)
      modifies this
      ensures State() == Loop(config, old(State()), t).0
      ensures log == old(log) + Loop(config, old(State()), t).1
    {
      hide ToEsc, Flush, Retry;
      if t.chunk != [] {
        Hear(t.chunk, t.readAt);
      }
      if t.reply != [] {
        Answer(t.reply, t.replyAt);
      } else {
        FlushEcho(false, t.replyAt);
        if pending != [] {
          TryAgain(t.retryAt);
        } else {
          NothingToRetry(config, State(), t.retryAt);
        }
      }
    }
  }

  lemma NothingToRetry(c: Config, s: Linker, now: Time)
    requires s.pending == []
    ensures Retry(c, s, now) == (s, [])
  {}

  /** One chunk echoed, then the rest. */
  lemma FlushOne(s: Linker, force: bool, now: Time)
    requires s.echoDue != [] && (force || now >= s.echoDue[0].at)
    ensures var rest := Flush(s.(echoDue := s.echoDue[1..]), force, now);
            Flush(s, force, now) == (rest.0, [Echoed(s.echoDue[0], now)] + rest.1)
  {
    var n := Ripe(s.echoDue, force, now);
    assert s.echoDue[..n][1..] == s.echoDue[1..][..n - 1];
    assert s.echoDue[n..] == s.echoDue[1..][n - 1..];
  }

  lemma FlushNone(s: Linker, force: bool, now: Time)
    requires !(s.echoDue != [] && (force || now >= s.echoDue[0].at))
    ensures Flush(s, force, now) == (s, [])
  {
    assert s.echoDue[0..] == s.echoDue;
  }
}
