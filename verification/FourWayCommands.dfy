/**
 The 4-way commands other than transfers, end to end: from the client's request to the
 answer it reads, and exactly what goes to the ESC meanwhile.
 */
module FourWayCommands {
  import opened Bytes
  import Crc
  import opened OneWire
  import opened FourWayServer
  import FourWayClient

  // ------------------------------------------------------------- on the wire

  /** The frames of the one-wire bootloader, byte by byte. */
  lemma FrameBytes(addr: word, n: nat)
    requires 1 <= n <= 256
    ensures AddressFrame(addr) == WithCrc([0xFF, 0, addr / 256, addr % 256])
    ensures BufferFrame(n) == WithCrc([0xFE, 0, n / 256, n % 256])
    ensures ReadFrame(n) == WithCrc([0x03, n % 256])
    ensures PROG_FRAME == WithCrc([0x01, 0]) && ERASE_FRAME == WithCrc([0x02, 0])
    ensures KEEP_ALIVE_FRAME == WithCrc([0xFD, 0]) && RUN_FRAME == [0, 0, 0, 0]
  {
    hide WithCrc;
    assert [0xFF, 0] + Be16(addr) == [0xFF, 0, addr / 256, addr % 256];
  }

  /** The check value follows a frame low byte first. */
  lemma CheckBytes(body: seq<byte>)
    ensures WithCrc(body) == body + [Crc.Boot(body) % 256, Crc.Boot(body) / 256]
  {
    hide Crc.Boot;
  }

  /** A request and its reply, byte by byte. */
  lemma MessageBytes(cmd: byte, addr: word, params: seq<byte>, ack: byte)
    requires 1 <= |params| <= 256
    ensures var head: seq<byte> := [0x2F, cmd, addr / 256, addr % 256, |params| % 256] + params;
            var check := Crc.Xmodem(head);
            FourWayClient.Send(cmd, addr, params) == head + [check / 256, check % 256]
    ensures var head: seq<byte> := [0x2E, cmd, addr / 256, addr % 256, |params| % 256] + params + [ack];
            var check := Crc.Xmodem(head);
            Reply(cmd, addr, params, ack) == Some(head + [check / 256, check % 256])
  {
    hide Crc.Xmodem;
  }

  // -------------------------------------------------------------- selecting

  /** The traffic of a selection up to the k-th probe after the first, with the reset between. */
  function Tries(c: Setup, esc: nat, log: History, k: nat): History
    requires esc < EscCount(c)
  {
    var probe := Frame(esc, [0, 0, 0, 0, 0, 0, 0, 0, 13, 66, 0, 0, 0, 0, 0, 0, 0x7d], false);
    if k == 0 then log + [probe]
    else if k == 1 then log + [probe] + (if c.canReset[esc] then [Reset(esc)] else []) + [probe]
    else Tries(c, esc, log, k - 1) + [probe]
  }

  /** How many more probes fit the three seconds after the reset. */
  function Retries(c: Setup, esc: nat, log: History): nat
    requires esc < EscCount(c)
  {
    c.window(Tries(c, esc, log, 0) + if c.canReset[esc] then [Reset(esc)] else [])
  }

  /** The ESC's answer to the k-th probe: nine bytes, "471" first and the acknowledgement last. */
  function InfoAt(c: Setup, esc: nat, log: History, k: nat): seq<byte>
    requires esc < EscCount(c)
  {
    ReadSerial(c.answers, Tries(c, esc, log, k), 9)
  }

  predicate AnsweredAt(c: Setup, esc: nat, log: History, k: nat)
    requires esc < EscCount(c)
  {
    var r := InfoAt(c, esc, log, k);
    |r| == 9 && r[0] == 0x34 && r[1] == 0x37 && r[2] == 0x31 && r[8] == 0x30
  }

  lemma {:induction false} ReprobeTries(c: Setup, esc: nat, log: History, k: nat, n: nat) returns (m: nat)
    requires esc < EscCount(c) && k >= 1 && n >= 1
    ensures k <= m < k + n && (forall j :: k <= j < m ==> !AnsweredAt(c, esc, log, j))
    ensures AnsweredAt(c, esc, log, m) || m == k + n - 1
    ensures var before := Tries(c, esc, log, k)[..|Tries(c, esc, log, k)| - 1];
            Reprobe(c, esc, before, n) ==
            (if AnsweredAt(c, esc, log, m) then Some(InfoAt(c, esc, log, m)) else None, Tries(c, esc, log, m))
    decreases n
  {
    hide InfoAt, AnsweredAt;
    var before := Tries(c, esc, log, k)[..|Tries(c, esc, log, k)| - 1];
    OneProbe(c, esc, log, k);
    if AnsweredAt(c, esc, log, k) || n == 1 {
      m := k;
      NoMore(c, esc, Tries(c, esc, log, k));
    } else {
      assert Tries(c, esc, log, k + 1)[..|Tries(c, esc, log, k + 1)| - 1] == Tries(c, esc, log, k);
      m := ReprobeTries(c, esc, log, k + 1, n - 1);
    }
  }

  lemma NoMore(c: Setup, esc: nat, log: History)
    ensures Reprobe(c, esc, log, 0) == (None, log)
  {}

  lemma OneProbe(c: Setup, esc: nat, log: History, k: nat)
    requires esc < EscCount(c)
    ensures var tries := Tries(c, esc, log, k);
            && tries != [] && tries[..|tries| - 1] + [tries[|tries| - 1]] == tries
            && ConnectOn(c.answers, esc, tries[..|tries| - 1]) ==
               (if AnsweredAt(c, esc, log, k) then Some(InfoAt(c, esc, log, k)) else None, tries)
  {
    var tries := Tries(c, esc, log, k);
    var probe := Frame(esc, ProbeFrame(), false);
    assert tries[|tries| - 1] == probe;
    assert tries[..|tries| - 1] + [probe] == tries;
    var r := InfoAt(c, esc, log, k);
    assert |r| == 9 ==> r[..3] == [r[0], r[1], r[2]];
  }

  /** The whole connect procedure, probe by probe. */
  lemma ConnectTries(c: Setup, esc: nat, log: History) returns (k: nat)
    requires esc < EscCount(c)
    ensures k <= Retries(c, esc, log) && (forall j :: 0 <= j < k ==> !AnsweredAt(c, esc, log, j))
    ensures AnsweredAt(c, esc, log, k) || k == Retries(c, esc, log)
    ensures var answered := AnsweredAt(c, esc, log, k);
            && (ConnectEsc(c, esc, log).0 == if answered then Some(InfoAt(c, esc, log, k)) else None)
            && ConnectEsc(c, esc, log).1 ==
               if k == 0 && !answered && c.canReset[esc] then Tries(c, esc, log, 0) + [Reset(esc)] else Tries(c, esc, log, k)
  {
    hide InfoAt, AnsweredAt, Reprobe;
    var first := Tries(c, esc, log, 0);
    assert first[..|first| - 1] == log;
    OneProbe(c, esc, log, 0);
    k := 0;
    if !AnsweredAt(c, esc, log, 0) {
      var after := first + if c.canReset[esc] then [Reset(esc)] else [];
      var n := Retries(c, esc, log);
      NoMore(c, esc, after);
      assert first + [] == first;
      if n > 0 {
        var second := Tries(c, esc, log, 1);
        assert second[..|second| - 1] == after;
        k := ReprobeTries(c, esc, log, 1, n);
      }
    }
  }

  /**
   What selecting an ESC brings the client: the four signature bytes of the ESC's own answer
   if it answered a probe, general error if it answered none, and invalid command for an
   index out of range. The wire has the probes up to the first answered, and one reset after
   the first where that is possible. k counts the probes after the first.
   */
  lemma SelectEndToEnd(c: Setup, s: Session, addr: nat, param: seq<byte>, chunks: seq<seq<byte>>) returns (k: nat)
    requires s.buf == [] && !s.exited && |param| <= 256
    ensures var esc := FourWayClient.Padded(param)[0];
            var f := FourWayClient.Send(0x37, addr, param);
            var (after, out) := Fed(c, s, f);
            if esc >= EscCount(c) then
              && after == s.(lastRequest := f)
              && (Join(chunks) == out ==> FourWayClient.ParseChunks([], chunks) == FourWayClient.Answer(0x37, [0], 0x02))
            else
              var answered := AnsweredAt(c, esc, s.log, k);
              && k <= Retries(c, esc, s.log) && (forall j :: 0 <= j < k ==> !AnsweredAt(c, esc, s.log, j))
              && (answered || k == Retries(c, esc, s.log))
              && after.target == esc
              && after.connected == (if answered then s.connected + {esc as nat} else s.connected)
              && after.log == (if k == 0 && !answered && c.canReset[esc] then Tries(c, esc, s.log, 0) + [Reset(esc)]
                               else Tries(c, esc, s.log, k))
              && (Join(chunks) == out ==>
                    FourWayClient.ParseChunks([], chunks) ==
                    if answered then
                      var info := InfoAt(c, esc, s.log, k);
                      FourWayClient.Answer(0x37, [info[5], info[4], info[3], info[6]], 0x00)
                    else FourWayClient.Answer(0x37, [0], 0x0F))
  {
    hide FourWayClient.Send, Fed, FourWayClient.ParseChunks, Respond, ConnectEsc, AnsweredAt, InfoAt, Tries, Retries;
    var f := FourWayClient.Send(0x37, addr, param);
    FourWayClient.SendIsFrame(0x37, addr, param);
    FourWayClient.Exchange(c, s, 0x37, addr, param, chunks);
    var esc := FourWayClient.Padded(param)[0];
    var ready := s.(lastRequest := f);
    SelectResponds(c, ready, f);
    k := 0;
    if esc < EscCount(c) {
      k := ConnectTries(c, esc, s.log);
      InfoLength(c, esc, s.log, k);
    }
  }

  lemma InfoLength(c: Setup, esc: nat, log: History, k: nat)
    requires esc < EscCount(c)
    ensures AnsweredAt(c, esc, log, k) ==> |InfoAt(c, esc, log, k)| == 9
  {}

  lemma SelectResponds(c: Setup, s: Session, f: seq<byte>)
    requires IsFrame(f) && f[1] == 0x37
    ensures Respond(c, s, f) == InitFlash(c, s, Params(f)[0])
  {
    hide InitFlash;
  }

  // ------------------------------------------- alive, reset, erase, and the rest

  /**
   A keep alive goes to a connected target only, which answers it with its bad-command byte;
   one that does not is dropped. Without a target the interface itself answers.
   */
  lemma AliveEndToEnd(c: Setup, s: Session, addr: nat, param: seq<byte>, chunks: seq<seq<byte>>)
    requires s.buf == [] && !s.exited && |param| <= 256
    ensures var f := FourWayClient.Send(0x30, addr, param);
            var (after, out) := Fed(c, s, f);
            var asked := s.log + [Frame(s.target, KEEP_ALIVE_FRAME, false)];
            var there := s.target in s.connected;
            var alive := !there || ReadSerial(c.answers, asked, 1) == [0xC1];
            && after == s.(lastRequest := f, log := if there then asked else s.log,
                           connected := if alive then s.connected else s.connected - {s.target})
            && (Join(chunks) == out ==>
                  FourWayClient.ParseChunks([], chunks) == FourWayClient.Answer(0x30, [0], if alive then 0x00 else 0x0F))
  {
    hide FourWayClient.Send, Fed, FourWayClient.ParseChunks, ReadSerial, KEEP_ALIVE_FRAME, Respond, Params;
    var f := FourWayClient.Send(0x30, addr, param);
    FourWayClient.SendIsFrame(0x30, addr, param);
    FourWayClient.Exchange(c, s, 0x30, addr, param, chunks);
    AliveResponds(c, s.(lastRequest := f), f);
  }

  lemma AliveResponds(c: Setup, s: Session, f: seq<byte>)
    requires IsFrame(f) && f[1] == 0x30
    ensures var asked := s.log + [Frame(s.target, KEEP_ALIVE_FRAME, false)];
            var there := s.target in s.connected;
            var alive := !there || ReadSerial(c.answers, asked, 1) == [0xC1];
            Respond(c, s, f) ==
            Outcome(s.(log := if there then asked else s.log,
                       connected := if alive then s.connected else s.connected - {s.target}),
                    [0], if alive then 0x00 else 0x0F)
  {
    hide ReadSerial, KEEP_ALIVE_FRAME, Params;
  }

  /** A reset sends the run frame to any ESC in range, which is then no longer connected. */
  lemma ResetEndToEnd(c: Setup, s: Session, addr: nat, param: seq<byte>, chunks: seq<seq<byte>>)
    requires s.buf == [] && !s.exited && |param| <= 256
    ensures var f := FourWayClient.Send(0x35, addr, param);
            var (after, out) := Fed(c, s, f);
            var esc: nat := FourWayClient.Padded(param)[0];
            var known := esc < EscCount(c);
            && after == (if known then s.(lastRequest := f, log := s.log + [Frame(esc, [0, 0, 0, 0], false)],
                                          connected := s.connected - {esc})
                         else s.(lastRequest := f))
            && (Join(chunks) == out ==>
                  FourWayClient.ParseChunks([], chunks) == FourWayClient.Answer(0x35, [0], if known then 0x00 else 0x02))
  {
    hide FourWayClient.Send, Fed, FourWayClient.ParseChunks;
    var f := FourWayClient.Send(0x35, addr, param);
    FourWayClient.SendIsFrame(0x35, addr, param);
    FourWayClient.Exchange(c, s, 0x35, addr, param, chunks);
  }

  /** What an erase puts on the wire, and whether both its frames were acknowledged. */
  function Erased(c: Setup, esc: nat, addr: word, log: History): (History, bool) {
    var asked := log + [Frame(esc, AddressFrame(addr), false)];
    var erased := asked + [Frame(esc, ERASE_FRAME, false)];
    if ReadSerial(c.answers, asked, 1) != [0x30] then (asked, false)
    else (erased, ReadSerial(c.answers, erased, 1) == [0x30])
  }

  /** An erase needs a connected target and both its acknowledgements, and echoes the page asked for. */
  lemma EraseEndToEnd(c: Setup, s: Session, addr: word, param: seq<byte>, chunks: seq<seq<byte>>)
    requires s.buf == [] && !s.exited && |param| <= 256
    ensures var f := FourWayClient.Send(0x39, addr, param);
            var (after, out) := Fed(c, s, f);
            var (log, done) := if s.target in s.connected then Erased(c, s.target, addr, s.log) else (s.log, false);
            && after == s.(lastRequest := f, log := log)
            && (Join(chunks) == out ==>
                  FourWayClient.ParseChunks([], chunks) ==
                  FourWayClient.Answer(0x39, [FourWayClient.Padded(param)[0]], if done then 0x00 else 0x0F))
  {
    hide *;
    var f := FourWayClient.Send(0x39, addr, param);
    FourWayClient.SendIsFrame(0x39, addr, param);
    FourWayClient.Exchange(c, s, 0x39, addr, param, chunks);
    EraseResponds(c, s.(lastRequest := f), f, addr);
  }

  lemma EraseResponds(c: Setup, s: Session, f: seq<byte>, addr: word)
    requires IsFrame(f) && f[1] == 0x39 && U16(f[3], f[2]) == addr
    ensures var (log, done) := if s.target in s.connected then Erased(c, s.target, addr, s.log) else (s.log, false);
            Respond(c, s, f) == Outcome(s.(log := log), [Params(f)[0]], if done then 0x00 else 0x0F)
  {
    hide ReadSerial, AddressFrame, ERASE_FRAME, Params;
  }

  /** Who the interface says it is, and what else it answers without touching an ESC. */
  function Spoken(cmd: byte): (seq<byte>, byte) {
    if cmd == 0x31 then ([107], 0x00)
    else if cmd == 0x32 then ([0x6D, 0x34, 0x77, 0x46, 0x43, 0x49, 0x6E, 0x74, 0x66], 0x00)
    else if cmd == 0x33 then ([20, 1], 0x00)
    else if cmd in {0x34, 0x3C, 0x3F} then ([0], 0x00)
    else ([0], 0x02)
  }

  /** Every other command: answered by the interface, no traffic, and only an exit ends the session. */
  lemma InterfaceEndToEnd(c: Setup, s: Session, cmd: byte, addr: nat, param: seq<byte>, chunks: seq<seq<byte>>)
    requires s.buf == [] && !s.exited && |param| <= 256
    requires cmd !in {0x30, 0x35, 0x37, 0x39, 0x3A, 0x3B, 0x3D, 0x3E}
    ensures var f := FourWayClient.Send(cmd, addr, param);
            var (after, out) := Fed(c, s, f);
            && after == s.(lastRequest := f, exited := cmd == 0x34)
            && (Join(chunks) == out ==>
                  FourWayClient.ParseChunks([], chunks) == FourWayClient.Answer(cmd, Spoken(cmd).0, Spoken(cmd).1))
  {
    hide FourWayClient.Send, Fed, FourWayClient.ParseChunks, Respond, Spoken;
    var f := FourWayClient.Send(cmd, addr, param);
    FourWayClient.SendIsFrame(cmd, addr, param);
    FourWayClient.Exchange(c, s, cmd, addr, param, chunks);
    InterfaceResponds(c, s.(lastRequest := f), f);
  }

  lemma InterfaceResponds(c: Setup, s: Session, f: seq<byte>)
    requires IsFrame(f) && !s.exited && f[1] !in {0x30, 0x35, 0x37, 0x39, 0x3A, 0x3B, 0x3D, 0x3E}
    ensures Respond(c, s, f) == Outcome(s.(exited := f[1] == 0x34), Spoken(f[1]).0, Spoken(f[1]).1)
  {}
}
