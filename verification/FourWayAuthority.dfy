/**
 Which ESC a 4-way session may talk to. An ESC is live from a probe it answers until it
 is told to run, fails a keep alive or, counting strictly, is reset through its state port.
 */
module FourWayAuthority {
  import opened Bytes
  import Crc
  import opened OneWire
  import opened FourWayServer
  import opened FourWaySession
  import FourWayClient

  predicate IsProbe(ev: Event) {
    ev.Frame? && !ev.gap && ev.bytes == ProbeFrame()
  }

  predicate IsRun(ev: Event) {
    ev.Frame? && !ev.gap && ev.bytes == RUN_FRAME
  }

  predicate IsKeepAlive(ev: Event) {
    ev.Frame? && !ev.gap && ev.bytes == KEEP_ALIVE_FRAME
  }

  /** Flash traffic and keep alives: everything but probes, run commands and resets. */
  predicate NeedsLive(ev: Event) {
    ev.Frame? && !IsProbe(ev) && !IsRun(ev)
  }

  /** The live ESCs after a history. */
  function Live(a: Answers, log: History, strict: bool): set<nat> {
    if log == [] then {}
    else
      var before := Live(a, log[..|log| - 1], strict);
      var ev := log[|log| - 1];
      if ev.Reset? then (if strict then before - {ev.esc} else before)
      else if IsProbe(ev) then (if IsDeviceInfo(ReadSerial(a, log, 9)) then before + {ev.esc} else before)
      else if IsRun(ev) then before - {ev.esc}
      else if IsKeepAlive(ev) then (if Acked(a, log, ACK_BAD_CMD) then before else before - {ev.esc})
      else before
  }

  /** Every privileged frame in a history went to an ESC that was live just before it. */
  predicate Authorised(a: Answers, log: History, strict: bool) {
    log == [] ||
    var before := log[..|log| - 1];
    && Authorised(a, before, strict)
    && (NeedsLive(log[|log| - 1]) ==> log[|log| - 1].esc in Live(a, before, strict))
  }

  lemma Appended(log: History, ev: Event)
    ensures var l := log + [ev]; l != [] && l[..|l| - 1] == log && l[|l| - 1] == ev
  {}

  // ------------------------------------------------ what each operation does

  predicate Plain(bytes: seq<byte>, gap: bool) {
    gap || (bytes != [] && bytes[0] != 0 && bytes[0] != 0xFD)
  }

  lemma PlainSent(a: Answers, log: History, esc: nat, bytes: seq<byte>, gap: bool, strict: bool)
    requires Plain(bytes, gap)
    ensures Live(a, Send(log, esc, bytes, gap), strict) == Live(a, log, strict)
    ensures Authorised(a, log, strict) && esc in Live(a, log, strict)
            ==> Authorised(a, Send(log, esc, bytes, gap), strict)
  {
    Appended(log, Frame(esc, bytes, gap));
    assert KEEP_ALIVE_FRAME[0] == 0xFD;
  }

  /** A log grown only by flash traffic to a live ESC. */
  predicate Worked(a: Answers, before: History, after: History, esc: nat, strict: bool) {
    && Live(a, after, strict) == Live(a, before, strict)
    && (Authorised(a, before, strict) && esc in Live(a, before, strict) ==> Authorised(a, after, strict))
  }

  lemma AddressWorked(a: Answers, esc: nat, addr16: word, log: History, strict: bool)
    ensures Worked(a, log, SetAddressOn(a, esc, addr16, log).1, esc, strict)
  {
    PlainSent(a, log, esc, AddressFrame(addr16), false, strict);
  }

  lemma WriteWorked(a: Answers, esc: nat, addr16: word, payload: seq<byte>, log: History, strict: bool)
    requires 1 <= |payload| <= 256
    ensures Worked(a, log, WriteOn(a, esc, addr16, payload, log).1, esc, strict)
  {
    hide Live, Authorised, Acked;
    AddressWorked(a, esc, addr16, log, strict);
    var addressed := SetAddressOn(a, esc, addr16, log).1;
    PlainSent(a, addressed, esc, BufferFrame(|payload|), false, strict);
    var sized := Send(addressed, esc, BufferFrame(|payload|), false);
    PlainSent(a, sized, esc, WithCrc(payload), true, strict);
    var buffered := Send(sized, esc, WithCrc(payload), true);
    PlainSent(a, buffered, esc, PROG_FRAME, false, strict);
  }

  lemma EraseWorked(a: Answers, esc: nat, addr16: word, log: History, strict: bool)
    ensures Worked(a, log, EraseFlashOn(a, esc, addr16, log).1, esc, strict)
  {
    hide Live, Authorised, Acked;
    AddressWorked(a, esc, addr16, log, strict);
    PlainSent(a, SetAddressOn(a, esc, addr16, log).1, esc, ERASE_FRAME, false, strict);
  }

  lemma ReadWorked(a: Answers, esc: nat, size: nat, addr16: word, log: History, strict: bool)
    requires 1 <= size <= 256
    ensures Worked(a, log, ReadFlashOn(a, esc, size, addr16, log).1, esc, strict)
  {
    hide Live, Authorised, Acked, ReadResult;
    AddressWorked(a, esc, addr16, log, strict);
    PlainSent(a, SetAddressOn(a, esc, addr16, log).1, esc, ReadFrame(size), false, strict);
  }

  lemma KeepAliveWorked(a: Answers, esc: nat, log: History, strict: bool)
    ensures var (ok, after) := KeepAliveOn(a, esc, log);
            && Live(a, after, strict) ==
               (if ok then Live(a, log, strict) else Live(a, log, strict) - {esc})
            && (Authorised(a, log, strict) && esc in Live(a, log, strict) ==> Authorised(a, after, strict))
  {
    Appended(log, Frame(esc, KEEP_ALIVE_FRAME, false));
    assert KEEP_ALIVE_FRAME[0] == 0xFD;
  }

  lemma RunWorked(a: Answers, esc: nat, log: History, strict: bool)
    ensures Live(a, RunOn(esc, log), strict) == Live(a, log, strict) - {esc}
    ensures Authorised(a, log, strict) ==> Authorised(a, RunOn(esc, log), strict)
  {
    Appended(log, Frame(esc, RUN_FRAME, false));
  }

  lemma ProbeWorked(a: Answers, esc: nat, log: History, strict: bool)
    ensures var (info, after) := ConnectOn(a, esc, log);
            && Live(a, after, strict) == (if info.Some? then Live(a, log, strict) + {esc} else Live(a, log, strict))
            && (Authorised(a, log, strict) ==> Authorised(a, after, strict))
  {
    Appended(log, Frame(esc, ProbeFrame(), false));
  }

  lemma ResetWorked(a: Answers, esc: nat, log: History, strict: bool)
    ensures Live(a, log + [Reset(esc)], strict) ==
            if strict then Live(a, log, strict) - {esc} else Live(a, log, strict)
    ensures Authorised(a, log, strict) ==> Authorised(a, log + [Reset(esc)], strict)
  {
    Appended(log, Reset(esc));
  }

  lemma {:induction false} ReprobeWorked(c: Setup, esc: nat, log: History, n: nat, strict: bool)
    ensures var (info, after) := Reprobe(c, esc, log, n);
            && Live(c.answers, after, strict) ==
               (if info.Some? then Live(c.answers, log, strict) + {esc} else Live(c.answers, log, strict))
            && (Authorised(c.answers, log, strict) ==> Authorised(c.answers, after, strict))
    decreases n
  {
    hide Live, Authorised, ConnectOn;
    if n > 0 {
      ProbeWorked(c.answers, esc, log, strict);
      ReprobeWorked(c, esc, ConnectOn(c.answers, esc, log).1, n - 1, strict);
    }
  }

  /** The whole connect procedure: only a failure after a strictly counted reset costs the ESC its standing. */
  lemma ConnectWorked(c: Setup, esc: nat, log: History, strict: bool)
    requires esc < EscCount(c)
    ensures var (info, after) := ConnectEsc(c, esc, log);
            var live := Live(c.answers, log, strict);
            && Live(c.answers, after, strict) ==
               (if info.Some? then live + {esc}
                else if strict && c.canReset[esc] then live - {esc} else live)
            && (Authorised(c.answers, log, strict) ==> Authorised(c.answers, after, strict))
  {
    hide Live, Authorised, ConnectOn, Reprobe;
    var first := ConnectOn(c.answers, esc, log);
    ProbeWorked(c.answers, esc, log, strict);
    if first.0.None? {
      var after := if c.canReset[esc] then first.1 + [Reset(esc)] else first.1;
      ResetWorked(c.answers, esc, first.1, strict);
      ReprobeWorked(c, esc, after, c.window(after), strict);
    }
  }

  // -------------------------------------------------------------- sessions

  predicate Sound(c: Setup, s: Session, strict: bool) {
    && s.target < EscCount(c)
    && (forall e :: e in s.connected ==> e < EscCount(c))
    && s.connected <= Live(c.answers, s.log, strict)
    && Authorised(c.answers, s.log, strict)
  }

  /**
   Selecting an ESC that is already connected, when it no longer answers and the reset
   does not bring it back: it stays in the connected set.
   */
  predicate StaleReinit(c: Setup, s: Session, frame: seq<byte>)
    requires IsFrame(frame)
  {
    var target := Params(frame)[0];
    && frame[1] == DEVICE_INIT_FLASH && target < EscCount(c)
    && target in s.connected && c.canReset[target]
    && ConnectEsc(c, target, s.log).0.None?
  }

  /**
   In every session, the indices stay in range, and flash traffic and keep alives reach
   only ESCs that answered a probe since the session began and have neither been told to
   run nor failed a keep alive since. Counting resets as well, a command keeps that
   exactly when it is not a stale re-selection.
   */
  lemma RespondSound(c: Setup, s: Session, frame: seq<byte>, strict: bool)
    requires IsFrame(frame) && Sound(c, s, strict)
    ensures Sound(c, Respond(c, s, frame).session, strict) <==> !(strict && StaleReinit(c, s, frame))
    ensures Authorised(c.answers, Respond(c, s, frame).session.log, strict)
  {
    hide Live, Authorised, ConnectEsc, KeepAliveOn, ReadFlashOn, WriteOn, EraseFlashOn, RunOn;
    var cmd, params := frame[1], Params(frame);
    var address: word := U16(frame[3], frame[2]);
    if cmd == TEST_ALIVE {
      KeepAliveWorked(c.answers, s.target, s.log, strict);
    } else if cmd == DEVICE_INIT_FLASH {
      InitFlashSound(c, s, params[0], strict);
    } else if cmd == DEVICE_RESET {
      RunWorked(c.answers, params[0], s.log, strict);
    } else if cmd == DEVICE_READ || cmd == DEVICE_READ_EEPROM {
      ReadWorked(c.answers, s.target, Length(params[0]), address, s.log, strict);
    } else if cmd == DEVICE_WRITE || cmd == DEVICE_WRITE_EEPROM {
      WriteWorked(c.answers, s.target, address, params, s.log, strict);
    } else if cmd == DEVICE_PAGE_ERASE {
      EraseWorked(c.answers, s.target, address, s.log, strict);
    }
  }

  lemma InitFlashSound(c: Setup, s: Session, target: byte, strict: bool)
    requires Sound(c, s, strict)
    ensures var after := InitFlash(c, s, target).session;
            && Authorised(c.answers, after.log, strict)
            && (Sound(c, after, strict) <==>
                !(strict && target < EscCount(c) && target in s.connected && c.canReset[target]
                  && ConnectEsc(c, target, s.log).0.None?))
  {
    hide Live, Authorised, ConnectEsc;
    if target < EscCount(c) {
      ConnectWorked(c, target, s.log, strict);
      var after := InitFlash(c, s, target).session;
      var live, was := Live(c.answers, after.log, strict), Live(c.answers, s.log, strict);
      if ConnectEsc(c, target, s.log).0.Some? {
        assert live == was + {target} && after.connected == s.connected + {target};
      } else if strict && c.canReset[target] {
        assert live == was - {target} && after.connected == s.connected;
        if target in s.connected {
          assert target !in live;
          assert !(after.connected <= live);
        }
      } else {
        assert live == was && after.connected == s.connected;
      }
    }
  }

  /** No command of the buffer, at the moment it is handled, is a stale re-selection. */
  predicate NeverStale(c: Setup, s: Session)
    decreases |s.buf|
  {
    && (match Pull(s.buf)
        case Request(frame, rest) => !StaleReinit(c, s.(buf := rest, lastRequest := frame), frame)
        case _ => true)
    && (ServeOne(c, s).again ==> NeverStale(c, ServeOne(c, s).session))
  }

  lemma ServeOneSound(c: Setup, s: Session, strict: bool)
    requires Sound(c, s, strict) && (strict ==> NeverStale(c, s))
    ensures Sound(c, ServeOne(c, s).session, strict)
  {
    hide Respond, ReplyTo, Pull, StaleReinit;
    match Pull(s.buf)
    case NeedMore(_) =>
    case Dropped(_) =>
    case Request(frame, rest) =>
      RespondSound(c, s.(buf := rest, lastRequest := frame), frame, strict);
  }

  /** The invariant over all of a feed, whatever it contains. */
  lemma {:induction false} ServedSound(c: Setup, s: Session, strict: bool)
    requires Sound(c, s, strict) && (strict ==> NeverStale(c, s))
    ensures Sound(c, Served(c, s).0, strict)
    decreases |s.buf|
  {
    hide ServeOne, Sound, Pull, StaleReinit;
    ServeOneSound(c, s, strict);
    if ServeOne(c, s).again {
      ServedSound(c, ServeOne(c, s).session, strict);
    }
  }

  lemma FreshSound(c: Setup, strict: bool)
    requires ValidSetup(c)
    ensures Sound(c, FRESH, strict)
  {}

  /** Where no ESC can be reset, no command is stale and the strict reading holds too. */
  lemma {:induction false} WithoutResetsNeverStale(c: Setup, s: Session)
    requires forall e :: 0 <= e < EscCount(c) ==> !c.canReset[e]
    ensures NeverStale(c, s)
    decreases |s.buf|
  {
    hide Pull, ServeOne, ConnectEsc;
    if ServeOne(c, s).again {
      WithoutResetsNeverStale(c, ServeOne(c, s).session);
    }
  }

  // ------------------------------------------------- when authority is broken

  /** A command that sends flash traffic or a keep alive to the selected ESC. */
  predicate Privileged(s: Session, frame: seq<byte>)
    requires IsFrame(frame)
  {
    && s.target in s.connected
    && frame[1] in {TEST_ALIVE, DEVICE_READ, DEVICE_READ_EEPROM, DEVICE_WRITE, DEVICE_WRITE_EEPROM, DEVICE_PAGE_ERASE}
  }

  lemma {:induction false} NeverMended(a: Answers, log: History, longer: History, strict: bool)
    requires log <= longer && !Authorised(a, log, strict)
    ensures !Authorised(a, longer, strict)
    decreases |longer|
  {
    hide Live, NeedsLive;
    if |longer| > |log| {
      NeverMended(a, log, longer[..|longer| - 1], strict);
    } else {
      assert log == longer;
    }
  }

  /** A privileged frame to an ESC that is not live breaks authority, whatever follows it. */
  lemma FrameBreaks(a: Answers, log: History, esc: nat, bytes: seq<byte>, longer: History, strict: bool)
    requires esc !in Live(a, log, strict) && Send(log, esc, bytes, false) <= longer && bytes != [] && bytes[0] != 0
    ensures !Authorised(a, longer, strict)
  {
    hide Live;
    Appended(log, Frame(esc, bytes, false));
    assert ProbeFrame()[0] == 0 && RUN_FRAME[0] == 0;
    NeverMended(a, Send(log, esc, bytes, false), longer, strict);
  }

  /** Reads, writes and erases begin with the address frame. */
  lemma AddressFirst(a: Answers, esc: nat, size: nat, addr16: word, payload: seq<byte>, log: History)
    requires 1 <= size <= 256 && 1 <= |payload| <= 256
    ensures var first := Send(log, esc, AddressFrame(addr16), false);
            && first <= ReadFlashOn(a, esc, size, addr16, log).1
            && first <= WriteOn(a, esc, addr16, payload, log).1
            && first <= EraseFlashOn(a, esc, addr16, log).1
    ensures AddressFrame(addr16) != [] && AddressFrame(addr16)[0] == 0xFF
  {
    hide Crc.Boot, ReadResult, Acked;
  }

  /**
   Exactly when one command keeps every frame authorised: when it sends none that needs a
   live ESC, or its ESC is live.
   */
  lemma RespondAuthorised(c: Setup, s: Session, frame: seq<byte>, strict: bool)
    requires IsFrame(frame) && Authorised(c.answers, s.log, strict)
    ensures Authorised(c.answers, Respond(c, s, frame).session.log, strict) <==>
            (Privileged(s, frame) ==> s.target in Live(c.answers, s.log, strict))
  {
    hide Live, Authorised, ConnectEsc, KeepAliveOn, ReadFlashOn, WriteOn, EraseFlashOn, RunOn, AddressFrame;
    var cmd, params := frame[1], Params(frame);
    var address: word := U16(frame[3], frame[2]);
    if Privileged(s, frame) {
      PrivilegedAuthorised(c, s, frame, strict);
    } else if cmd == DEVICE_INIT_FLASH && params[0] < EscCount(c) {
      ConnectWorked(c, params[0], s.log, strict);
    } else if cmd == DEVICE_RESET {
      RunWorked(c.answers, params[0], s.log, strict);
    }
  }

  lemma PrivilegedAuthorised(c: Setup, s: Session, frame: seq<byte>, strict: bool)
    requires IsFrame(frame) && Authorised(c.answers, s.log, strict) && Privileged(s, frame)
    ensures Authorised(c.answers, Respond(c, s, frame).session.log, strict) <==>
            s.target in Live(c.answers, s.log, strict)
  {
    hide Live, Authorised, ConnectEsc, KeepAliveOn, ReadFlashOn, WriteOn, EraseFlashOn, AddressFrame;
    var cmd, params, after := frame[1], Params(frame), Respond(c, s, frame).session.log;
    var address: word := U16(frame[3], frame[2]);
    if cmd == TEST_ALIVE {
      KeepAliveWorked(c.answers, s.target, s.log, strict);
      if s.target !in Live(c.answers, s.log, strict) {
        KeepAliveSends(c.answers, s.target, s.log);
        FrameBreaks(c.answers, s.log, s.target, KEEP_ALIVE_FRAME, after, strict);
      }
    } else {
      ReadWorked(c.answers, s.target, Length(params[0]), address, s.log, strict);
      WriteWorked(c.answers, s.target, address, params, s.log, strict);
      EraseWorked(c.answers, s.target, address, s.log, strict);
      if s.target !in Live(c.answers, s.log, strict) {
        AddressFirst(c.answers, s.target, Length(params[0]), address, params, s.log);
        FrameBreaks(c.answers, s.log, s.target, AddressFrame(address), after, strict);
      }
    }
  }

  lemma KeepAliveSends(a: Answers, esc: nat, log: History)
    ensures KeepAliveOn(a, esc, log).1 == Send(log, esc, KEEP_ALIVE_FRAME, false)
    ensures KEEP_ALIVE_FRAME != [] && KEEP_ALIVE_FRAME[0] == 0xFD
  {}

  // ------------------------------------------------------------- stale ESCs

  /** The connected ESCs that were reset and have not answered since, after one more command. */
  function NextStale(c: Setup, s: Session, stale: set<nat>, frame: seq<byte>): set<nat>
    requires IsFrame(frame)
  {
    var target := Params(frame)[0];
    if frame[1] == DEVICE_INIT_FLASH && target < EscCount(c) then
      if ConnectEsc(c, target, s.log).0.Some? then stale - {target}
      else if StaleReinit(c, s, frame) then stale + {target}
      else stale
    else if frame[1] == DEVICE_RESET && target < EscCount(c) then stale - {target}
    else if frame[1] == TEST_ALIVE && s.target in s.connected && !KeepAliveOn(c.answers, s.target, s.log).0 then
      stale - {s.target}
    else stale
  }

  /** Of the connected ESCs, exactly those not stale are live, counting resets. */
  predicate Standing(c: Setup, s: Session, stale: set<nat>) {
    && stale <= s.connected
    && forall e :: e in s.connected ==> (e in Live(c.answers, s.log, true) <==> e !in stale)
  }

  lemma RespondStanding(c: Setup, s: Session, stale: set<nat>, frame: seq<byte>)
    requires IsFrame(frame) && Standing(c, s, stale)
    ensures Standing(c, Respond(c, s, frame).session, NextStale(c, s, stale, frame))
  {
    hide Live, Authorised, ConnectEsc, KeepAliveOn, ReadFlashOn, WriteOn, EraseFlashOn, RunOn;
    var cmd, params := frame[1], Params(frame);
    var address: word := U16(frame[3], frame[2]);
    if cmd == TEST_ALIVE {
      KeepAliveWorked(c.answers, s.target, s.log, true);
    } else if cmd == DEVICE_INIT_FLASH {
      if params[0] < EscCount(c) {
        ConnectWorked(c, params[0], s.log, true);
      }
    } else if cmd == DEVICE_RESET {
      RunWorked(c.answers, params[0], s.log, true);
    } else if Privileged(s, frame) {
      ReadWorked(c.answers, s.target, Length(params[0]), address, s.log, true);
      WriteWorked(c.answers, s.target, address, params, s.log, true);
      EraseWorked(c.answers, s.target, address, s.log, true);
    }
  }

  /** No request of the list is privileged while its ESC is stale. */
  predicate NeverTouches(c: Setup, s: Session, stale: set<nat>, frames: seq<seq<byte>>)
    requires Frames(frames)
    decreases |frames|
  {
    frames == [] ||
    var ready := s.(lastRequest := frames[0]);
    var next := Respond(c, ready, frames[0]).session;
    && !(Privileged(ready, frames[0]) && ready.target in stale)
    && (next.exited || NeverTouches(c, next, NextStale(c, ready, stale, frames[0]), frames[1..]))
  }

  /** The stale ESCs after a list of requests. */
  function StaleAfter(c: Setup, s: Session, stale: set<nat>, frames: seq<seq<byte>>): set<nat>
    requires Frames(frames)
    decreases |frames|
  {
    if frames == [] then stale
    else
      var ready := s.(lastRequest := frames[0]);
      var next := Respond(c, ready, frames[0]).session;
      if next.exited then NextStale(c, ready, stale, frames[0])
      else StaleAfter(c, next, NextStale(c, ready, stale, frames[0]), frames[1..])
  }

  /**
   Counting resets, all traffic of a session is authorised if and only if no request is
   privileged while its ESC is stale.
   */
  lemma {:induction false} RunAuthorised(c: Setup, s: Session, stale: set<nat>, frames: seq<seq<byte>>)
    requires Frames(frames)
    requires Standing(c, s, stale) && Authorised(c.answers, s.log, true)
    ensures Authorised(c.answers, RunAll(c, s, frames).0.log, true) <==> NeverTouches(c, s, stale, frames)
    ensures Standing(c, RunAll(c, s, frames).0, StaleAfter(c, s, stale, frames))
    decreases |frames|
  {
    hide Respond, NextStale, Standing, Privileged, Authorised, Live;
    if frames != [] {
      var ready := s.(lastRequest := frames[0]);
      var next := Respond(c, ready, frames[0]).session;
      var after := NextStale(c, ready, stale, frames[0]);
      StandingOf(c, s, ready, stale);
      RespondAuthorised(c, ready, frames[0], true);
      RespondStanding(c, ready, stale, frames[0]);
      TouchesNotLive(c, ready, stale, frames[0]);
      if !next.exited {
        if Authorised(c.answers, next.log, true) {
          RunAuthorised(c, next, after, frames[1..]);
        } else {
          RunExtends(c, next, frames[1..]);
          NeverMended(c.answers, next.log, RunAll(c, next, frames[1..]).0.log, true);
          StandingRun(c, next, after, frames[1..]);
        }
      }
    }
  }

  lemma {:induction false} StandingRun(c: Setup, s: Session, stale: set<nat>, frames: seq<seq<byte>>)
    requires Frames(frames)
    requires Standing(c, s, stale)
    ensures Standing(c, RunAll(c, s, frames).0, StaleAfter(c, s, stale, frames))
    decreases |frames|
  {
    hide Respond, NextStale, Standing;
    if frames != [] {
      var ready := s.(lastRequest := frames[0]);
      StandingOf(c, s, ready, stale);
      RespondStanding(c, ready, stale, frames[0]);
      if !Respond(c, ready, frames[0]).session.exited {
        StandingRun(c, Respond(c, ready, frames[0]).session, NextStale(c, ready, stale, frames[0]), frames[1..]);
      }
    }
  }

  lemma {:induction false} RunExtends(c: Setup, s: Session, frames: seq<seq<byte>>)
    requires Frames(frames)
    ensures s.log <= RunAll(c, s, frames).0.log
    decreases |frames|
  {
    hide Respond;
    if frames != [] {
      var ready := s.(lastRequest := frames[0]);
      RespondExtends(c, ready, frames[0]);
      if !Respond(c, ready, frames[0]).session.exited {
        RunExtends(c, Respond(c, ready, frames[0]).session, frames[1..]);
      }
    }
  }

  lemma StandingOf(c: Setup, s: Session, t: Session, stale: set<nat>)
    requires Standing(c, s, stale) && t.connected == s.connected && t.log == s.log
    ensures Standing(c, t, stale)
  {
    hide Live;
  }

  lemma TouchesNotLive(c: Setup, s: Session, stale: set<nat>, frame: seq<byte>)
    requires IsFrame(frame) && Standing(c, s, stale)
    ensures Privileged(s, frame) ==> (s.target in Live(c.answers, s.log, true) <==> s.target !in stale)
  {
    hide Live;
  }

  /** The same for everything one feed may contain, from any point of a session. */
  lemma FedAuthorised(c: Setup, s: Session, stale: set<nat>, data: seq<byte>)
    requires !s.exited && Standing(c, s, stale) && Authorised(c.answers, s.log, true)
    ensures var frames := FramesIn(s.buf + data);
            var after := Fed(c, s, data).0;
            && (Authorised(c.answers, after.log, true) <==> NeverTouches(c, s, stale, frames))
            && Standing(c, after, StaleAfter(c, s, stale, frames))
  {
    hide Standing, Authorised, NeverTouches, StaleAfter, RunAll, FramesIn, Served;
    ServedRunsFrames(c, s.(buf := s.buf + data), s.buf);
    assert s.(buf := s.buf + data).(buf := s.buf) == s;
    RunAuthorised(c, s, stale, FramesIn(s.buf + data));
    StandingOf(c, RunAll(c, s, FramesIn(s.buf + data)).0, Fed(c, s, data).0, StaleAfter(c, s, stale, FramesIn(s.buf + data)));
  }

  lemma FreshStanding(c: Setup)
    ensures Standing(c, FRESH, {}) && Authorised(c.answers, FRESH.log, true)
  {}

  /** Where no ESC can be reset, none ever becomes stale, so the strict reading holds in every session. */
  lemma {:induction false} WithoutResetsAuthorised(c: Setup, s: Session, frames: seq<seq<byte>>)
    requires forall e :: 0 <= e < EscCount(c) ==> !c.canReset[e]
    requires Frames(frames)
    ensures NeverTouches(c, s, {}, frames) && StaleAfter(c, s, {}, frames) == {}
    ensures Standing(c, s, {}) && Authorised(c.answers, s.log, true) ==>
              Authorised(c.answers, RunAll(c, s, frames).0.log, true)
    decreases |frames|
  {
    hide Respond, Authorised, Standing, Privileged, ConnectEsc, KeepAliveOn, RunAll;
    if frames != [] {
      var ready := s.(lastRequest := frames[0]);
      assert NextStale(c, ready, {}, frames[0]) == {};
      if !Respond(c, ready, frames[0]).session.exited {
        WithoutResetsAuthorised(c, Respond(c, ready, frames[0]).session, frames[1..]);
      }
    }
    if Standing(c, s, {}) && Authorised(c.answers, s.log, true) {
      RunAuthorised(c, s, {}, frames);
    }
  }

  /**
   What a stale re-selection leads to: the next command for that ESC reaches it although it
   was reset and has not answered since.
   */
  lemma StaleReinitReachesResetEsc(c: Setup, s: Session, init: seq<byte>, next: seq<byte>)
    requires IsFrame(init) && IsFrame(next) && StaleReinit(c, s, init)
    requires Sound(c, s, true) && Privileged(Respond(c, s, init).session, next)
    ensures var selected := Respond(c, s, init).session;
            !Authorised(c.answers, Respond(c, selected, next).session.log, true)
  {
    hide Live, Authorised, ConnectEsc, Privileged;
    var target := Params(init)[0];
    ConnectWorked(c, target, s.log, true);
    var selected := Respond(c, s, init).session;
    assert selected.target == target && target !in Live(c.answers, selected.log, true);
    RespondAuthorised(c, selected, next, true);
    assert Privileged(selected, next);
  }

  // --------------------------------------------------------------- an example

  /** An ESC that answers its first probe and nothing after, with any number of retries allowed. */
  function OnceBench(window: History -> nat): Setup {
    Setup([true], (h: History) => if |h| == 1 then DeviceInfo() else [], window)
  }

  function DeviceInfo(): seq<byte> {
    [0x34, 0x37, 0x31, 0, 0, 0, 0, 0, ACK_OK]
  }

  lemma OnceValid(window: History -> nat)
    ensures ValidSetup(OnceBench(window))
  {}

  lemma OnceConnects(window: History -> nat)
    ensures var r := ConnectEsc(OnceBench(window), 0, []);
            r.0.Some? && r.1 == [Frame(0, ProbeFrame(), false)]
  {}

  lemma {:induction false} OnceSilent(window: History -> nat, log: History, n: nat)
    requires log != []
    ensures Reprobe(OnceBench(window), 0, log, n).0.None?
    decreases n
  {
    if n > 0 {
      OnceSilent(window, log + [Frame(0, ProbeFrame(), false)], n - 1);
    }
  }

  lemma OnceStale(window: History -> nat, log: History)
    requires log != []
    ensures ConnectEsc(OnceBench(window), 0, log).0.None?
  {
    var first := ConnectOn(OnceBench(window).answers, 0, log).1;
    OnceSilent(window, first + [Reset(0)], window(first + [Reset(0)]));
  }

  /** One request fed whole runs as one command. */
  lemma OneCommand(c: Setup, s: Session, cmd: byte, param: byte)
    requires s.buf == [] && !s.exited && cmd != INTERFACE_EXIT
    ensures var f := FourWayClient.Send(cmd, 0, [param]);
            && IsFrame(f) && f[1] == cmd && Params(f) == [param]
            && Fed(c, s, f).0 == Respond(c, s.(lastRequest := f), f).session
            && Fed(c, s, f).0.buf == [] && !Fed(c, s, f).0.exited
  {
    hide Respond, Fed, FourWayClient.Send, FourWayClient.ParseChunks, ReplyTo, Params;
    var f := FourWayClient.Send(cmd, 0, [param]);
    FourWayClient.SendIsFrame(cmd, 0, [param]);
    FourWayClient.Exchange(c, s, cmd, 0, [param], []);
    RespondKeepsBuffer(c, s.(lastRequest := f), f);
  }

  /**
   The strict reading fails in a session from scratch: the ESC is selected, selected again
   when it no longer answers, and read from. The reset did not bring it back, yet the read
   is sent.
   */
  lemma StaleReinitHappens(window: History -> nat)
    ensures var c := OnceBench(window);
            var select := FourWayClient.Send(DEVICE_INIT_FLASH, 0, [0]);
            var read := FourWayClient.Send(DEVICE_READ, 0, [1]);
            var selected := Fed(c, FRESH, select).0;
            var again := Fed(c, selected, select).0;
            && ValidSetup(c) && again.connected == {0}
            && Authorised(c.answers, again.log, true)
            && !Authorised(c.answers, Fed(c, again, read).0.log, true)
  {
    hide Live, Authorised, ConnectEsc, Respond, Fed, FourWayClient.Send, NextStale, Standing, OnceBench;
    var c := OnceBench(window);
    var select := FourWayClient.Send(DEVICE_INIT_FLASH, 0, [0]);
    var read := FourWayClient.Send(DEVICE_READ, 0, [1]);
    OneCommand(c, FRESH, DEVICE_INIT_FLASH, 0);
    var selected := Fed(c, FRESH, select).0;
    OneCommand(c, selected, DEVICE_INIT_FLASH, 0);
    var again := Fed(c, selected, select).0;
    OneCommand(c, again, DEVICE_READ, 1);
    FreshStanding(c);
    OnceSelected(window, FRESH.(lastRequest := select), select);
    RespondAuthorised(c, FRESH.(lastRequest := select), select, true);
    FreshStanding(c);
    StandingOf(c, FRESH, FRESH.(lastRequest := select), {});
    RespondStanding(c, FRESH.(lastRequest := select), {}, select);
    OnceReselected(window, selected.(lastRequest := select), select);
    ReadPrivileged(again.(lastRequest := read), read);
    OnceValid(window);
    NotPrivileged(FRESH.(lastRequest := select), select);
    NotPrivileged(selected.(lastRequest := select), select);
    RespondAuthorised(c, selected.(lastRequest := select), select, true);
    StandingOf(c, selected, selected.(lastRequest := select), {});
    RespondStanding(c, selected.(lastRequest := select), {}, select);
    StandingOf(c, again, again.(lastRequest := read), {0});
    TouchesNotLive(c, again.(lastRequest := read), {0}, read);
    RespondAuthorised(c, again.(lastRequest := read), read, true);
  }

  lemma NotPrivileged(s: Session, frame: seq<byte>)
    requires IsFrame(frame) && frame[1] == DEVICE_INIT_FLASH
    ensures !Privileged(s, frame)
  {}

  lemma OnceSelected(window: History -> nat, s: Session, select: seq<byte>)
    requires IsFrame(select) && select[1] == DEVICE_INIT_FLASH && Params(select) == [0] && s.log == [] && s.connected == {}
    ensures var c := OnceBench(window);
            var after := Respond(c, s, select).session;
            && after.connected == {0} && after.log != []
            && NextStale(c, s, {}, select) == {}
  {
    hide ConnectEsc, Live;
    OnceConnects(window);
    ConnectShape(OnceBench(window), 0, s.log);
  }

  lemma OnceReselected(window: History -> nat, s: Session, select: seq<byte>)
    requires IsFrame(select) && select[1] == DEVICE_INIT_FLASH && Params(select) == [0] && s.log != [] && s.connected == {0}
    ensures var c := OnceBench(window);
            var after := Respond(c, s, select).session;
            && after.connected == {0} && after.target == 0
            && NextStale(c, s, {}, select) == {0}
  {
    hide ConnectEsc, Live;
    OnceStale(window, s.log);
  }

  lemma ReadPrivileged(s: Session, read: seq<byte>)
    requires IsFrame(read) && read[1] == DEVICE_READ && s.target in s.connected
    ensures Privileged(s, read)
  {}
}
