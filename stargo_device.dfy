/** The StarGo driver object (class LX200StarGo in indi-avalon/lx200stargo.cpp): the
    motion fields the mount's frames update, the scope status derived from them, the
    pier side and coordinate format, and the serial line the driver talks over. Every
    operation that talks to the mount goes through SendQuery, whose two read loops are
    proved to do what StarGoLink.Query says. */
module StarGoDevice {
  import opened CText
  import opened StarGoProtocol
  import opened StarGoLink

  /** A phase that has already done the reads with `timeouts` and logged `warnings`. */
  function Resume(ph: Phase, timeouts: seq<int>, warnings: nat): Phase
  {
    ph.(timeouts := timeouts + ph.timeouts, warnings := warnings + ph.warnings)
  }

  lemma ResumeResume(ph: Phase, t1: seq<int>, w1: nat, t2: seq<int>, w2: nat)
    ensures Resume(Resume(ph, t2, w2), t1, w1) == Resume(ph, t1 + t2, w1 + w2)
  {
  }

  class StarGo {
    var motorsState: MotorsState
    var trackMode: TrackMode
    var slewRate: SlewRate
    /** TrackState: the scope status. */
    var trackState: ScopeStatus
    var pierSide: PierSide
    /** controller_format */
    var controllerFormat: CoordinateFormat
    /** The serial line: what its reads and writes will meet, and what the driver did. */
    var port: Port
    /** AVALON_TIMEOUT: the timeout of a waiting read. */
    const avalonTimeout: int

    constructor(port0: Port, timeout: int, m: Motion, status: ScopeStatus, side: PierSide,
                format: CoordinateFormat)
      ensures port == port0 && avalonTimeout == timeout && MotionState() == m
      ensures trackState == status && pierSide == side && controllerFormat == format
    {
      port := port0;
      avalonTimeout := timeout;
      motorsState, trackMode, slewRate := m.motors, m.track, m.slew;
      trackState, pierSide, controllerFormat := status, side, format;
    }

    /** The three fields a motion frame sets. */
    function MotionState(): Motion
      reads this
    {
      Motion(motorsState, trackMode, slewRate)
    }

    /** sendQuery with the driver's timeout and frame parser. */
    function Ask(p: Port, m: Motion, cmd: string, wait: bool): QueryResult
    {
      Query(p, m, cmd, wait, avalonTimeout, MotionParser)
    }

    /** The port and the motion state are those the query `q` leaves. */
    predicate After(q: QueryResult)
      reads this
    {
      port == q.port && MotionState() == q.motion
    }

    /** The status, the pier side and the coordinate format are as they were. */
    twostate predicate StatusKept()
      reads this
    {
      trackState == old(trackState) && pierSide == old(pierSide) && controllerFormat == old(controllerFormat)
    }

    /** Only the port has changed. */
    twostate predicate OnlyPortChanged()
      reads this
    {
      StatusKept() && MotionState() == old(MotionState())
    }

    // -------------------------------------------------------------------------
    // Transport

    /** receive: one section read with AVALON_TIMEOUT when waiting and no timeout
        otherwise. A frame comes back less a final `#`; a failed read leaves the buffer
        as it was and warns unless it is a timeout while not waiting. */
    method Receive(buffer: string, wait: bool) returns (ok: bool, received: string)
      modifies this
      ensures var (o, rest) := NextRead(old(port.incoming));
        ok == o.Frame? && received == (if ok then Received(o.raw) else buffer)
        && port == old(port).(incoming := rest, timeouts := old(port.timeouts) + [ReadTimeout(wait, avalonTimeout)],
                              warnings := old(port.warnings) + (if ReadWarns(o, wait) then 1 else 0))
      ensures OnlyPortChanged()
    {
      var timeout := if wait then avalonTimeout else 0;
      var o: ReadOutcome := TimedOut;
      if port.incoming != [] {
        o := port.incoming[0];
        port := port.(incoming := port.incoming[1..]);
      }
      port := port.(timeouts := port.timeouts + [timeout]);
      if !o.Frame? {
        if !(o.TimedOut? && !wait) {
          port := port.(warnings := port.warnings + 1);
        }
        return false, buffer;
      }
      var raw := o.raw;
      if raw != [] && raw[|raw| - 1] == '#' {
        received := CStr(raw[..|raw| - 1]);
      } else {
        received := CStr(raw);
      }
      ok := true;
    }

    /** transmit: one write of `cmd`; a failed write warns. */
    method Transmit(cmd: string) returns (ok: bool)
      modifies this
      ensures var (written, rest) := NextWrite(old(port.writeResults));
        ok == written
        && port == old(port).(writeResults := rest, sent := old(port.sent) + [cmd],
                              warnings := old(port.warnings) + (if written then 0 else 1))
      ensures OnlyPortChanged()
    {
      ok := true;
      if port.writeResults != [] {
        ok := port.writeResults[0];
        port := port.(writeResults := port.writeResults[1..]);
      }
      port := port.(sent := port.sent + [cmd]);
      if !ok {
        port := port.(warnings := port.warnings + 1);
      }
    }

    // -------------------------------------------------------------------------
    // Motion frames

    /** ParseMotionState: a frame `:Z1` plus three digits sets each field whose digit is
        0..3 and reports success; any other frame changes nothing. */
    method ParseMotionState(state: string) returns (parsed: bool)
      modifies this
      ensures (parsed, MotionState()) == ParseMotion(state, old(MotionState()))
      ensures StatusKept() && port == old(port)
    {
      var sc := Scan(MotionFormat, state);
      if sc.ret != 3 {
        return false;
      }
      var lmotor, lmode, lslew := IntOf(sc.items[0]), IntOf(sc.items[1]), IntOf(sc.items[2]);
      if lmotor == 0 { motorsState := MotorsOff; }
      else if lmotor == 1 { motorsState := MotorsDecOnly; }
      else if lmotor == 2 { motorsState := MotorsRaOnly; }
      else if lmotor == 3 { motorsState := MotorsOn; }
      if lmode == 0 { trackMode := TrackNone; }
      else if lmode == 1 { trackMode := TrackLunar; }
      else if lmode == 2 { trackMode := TrackSolar; }
      else if lmode == 3 { trackMode := TrackSidereal; }
      if lslew == 0 { slewRate := SlewGuide; }
      else if lslew == 1 { slewRate := SlewCentering; }
      else if lslew == 2 { slewRate := SlewFind; }
      else if lslew == 3 { slewRate := SlewMax; }
      parsed := true;
    }

    // -------------------------------------------------------------------------
    // The transaction

    /** What is left of the drain phase from port `p` and motion `m`, with what the
        port has logged so far. */
    function DrainTotal(p: Port, m: Motion): Phase
    {
      Resume(Drain(p.incoming, m, MotionParser), p.timeouts, p.warnings)
    }

    /** What is left of the collect phase, read with `lwait` and buffer `buffer`. */
    function CollectTotal(p: Port, m: Motion, lwait: bool, buffer: string): Phase
    {
      Resume(Collect(p.incoming, m, lwait, buffer, avalonTimeout, MotionParser), p.timeouts, p.warnings)
    }

    /** One pass of the drain loop: a read without waiting, and the parse of the frame
        it brings. */
    method DrainOne() returns (received: bool)
      modifies this
      ensures DrainTotal(old(port), old(MotionState()))
        == if received then DrainTotal(port, MotionState())
           else Phase(port.incoming, MotionState(), "", port.timeouts, port.warnings)
      ensures port.writeResults == old(port.writeResults) && port.sent == old(port.sent)
      ensures |port.incoming| <= |old(port.incoming)| && (received ==> |port.incoming| < |old(port.incoming)|)
      ensures StatusKept()
    {
      var (o, rest) := NextRead(port.incoming);
      ResumeResume(if o.Frame? then Drain(rest, MotionParser.update(Received(o.raw), MotionState()), MotionParser)
                   else Phase(rest, MotionState(), "", [], 0),
                   port.timeouts, port.warnings, [0], if ReadWarns(o, false) then 1 else 0);
      var lresponse: string;
      received, lresponse := Receive("", false);
      if received {
        MotionParserParses(lresponse, MotionState());
        var _ := ParseMotionState(lresponse);
      }
    }

    /** One pass of the collect loop: a read with `lwait`, the parse of the frame it
        brings, and the wait mode for the next read. */
    method CollectOne(lwait: bool, buffer: string) returns (received: bool, lresponse: string, lwait': bool)
      modifies this
      ensures CollectTotal(old(port), old(MotionState()), lwait, buffer)
        == if received then CollectTotal(port, MotionState(), lwait', lresponse)
           else Phase(port.incoming, MotionState(), lresponse, port.timeouts, port.warnings)
      ensures port.writeResults == old(port.writeResults) && port.sent == old(port.sent)
      ensures |port.incoming| <= |old(port.incoming)| && (received ==> |port.incoming| < |old(port.incoming)|)
      ensures StatusKept()
    {
      var (o, rest) := NextRead(port.incoming);
      var f := if o.Frame? then Received(o.raw) else buffer;
      ResumeResume(if o.Frame? then Collect(rest, MotionParser.update(f, MotionState()), lwait && MotionParser.accepts(f),
                                            f, avalonTimeout, MotionParser)
                   else Phase(rest, MotionState(), buffer, [], 0),
                   port.timeouts, port.warnings, [ReadTimeout(lwait, avalonTimeout)], if ReadWarns(o, lwait) then 1 else 0);
      received, lresponse := Receive(buffer, lwait);
      lwait' := lwait;
      if received {
        MotionParserParses(lresponse, MotionState());
        var parsed := ParseMotionState(lresponse);
        if !parsed {
          lwait' := false;
        }
      }
    }

    /** The first loop of sendQuery: read without waiting until a read fails, parsing
        every frame and dropping it. */
    method DrainPending()
      modifies this
      ensures var d := Drain(old(port.incoming), old(MotionState()), MotionParser);
        port == old(port).(incoming := d.rest, timeouts := old(port.timeouts) + d.timeouts,
                           warnings := old(port.warnings) + d.warnings)
        && MotionState() == d.motion
      ensures StatusKept()
    {
      ghost var total := DrainTotal(port, MotionState());
      var received := DrainOne();
      while received
        invariant total == if received then DrainTotal(port, MotionState())
                           else Phase(port.incoming, MotionState(), "", port.timeouts, port.warnings)
        invariant port.writeResults == old(port.writeResults) && port.sent == old(port.sent)
        invariant StatusKept()
        decreases |port.incoming| + (if received then 1 else 0)
      {
        received := DrainOne();
      }
    }

    /** The second loop of sendQuery: read until a read fails, the first read waiting
        when `wait` does and a frame that is not a motion frame switching the waiting
        off; every frame is parsed, and the buffer ends with the last one. */
    method CollectReplies(wait: bool) returns (response: string)
      modifies this
      ensures var c := Collect(old(port.incoming), old(MotionState()), wait, "", avalonTimeout, MotionParser);
        port == old(port).(incoming := c.rest, timeouts := old(port.timeouts) + c.timeouts,
                           warnings := old(port.warnings) + c.warnings)
        && MotionState() == c.motion && response == c.response
      ensures StatusKept()
    {
      ghost var total := CollectTotal(port, MotionState(), wait, "");
      var received, lresponse, lwait := CollectOne(wait, "");
      while received
        invariant total == if received then CollectTotal(port, MotionState(), lwait, lresponse)
                           else Phase(port.incoming, MotionState(), lresponse, port.timeouts, port.warnings)
        invariant port.writeResults == old(port.writeResults) && port.sent == old(port.sent)
        invariant StatusKept()
        decreases |port.incoming| + (if received then 1 else 0)
      {
        received, lresponse, lwait := CollectOne(lwait, lresponse);
      }
      response := lresponse;
    }

    /** sendQuery: drain the buffered frames without waiting, parsing each; transmit
        `cmd`; then, unless the write failed, read until a read fails, parsing each
        frame, waiting (when `wait`) only while every frame so far was a motion frame,
        and answer the last frame read. */
    method SendQuery(cmd: string, wait: bool) returns (ok: bool, response: string)
      modifies this
      ensures var q := Ask(old(port), old(MotionState()), cmd, wait);
        ok == q.ok && response == q.response && After(q)
      ensures StatusKept()
    {
      response := "";
      DrainPending();
      var written := Transmit(cmd);
      if !written {
        return false, "";
      }
      response := CollectReplies(wait);
      ok := true;
    }

    // -------------------------------------------------------------------------
    // Motion state and scope status

    /** queryMountMotionState: `:X3C#` without waiting; the mount answers with a motion
        frame, which sendQuery parses on the way. */
    method QueryMountMotionState() returns (ok: bool)
      modifies this
      ensures var q := Ask(old(port), old(MotionState()), ":X3C#", false);
        ok == q.ok && After(q)
      ensures StatusKept()
    {
      var response;
      ok, response := SendQuery(":X3C#", false);
    }

    /** SetParked: the status becomes PARKED, or TRACKING when unparking. */
    method SetParked(isParked: bool)
      modifies this
      ensures trackState == ParkedStatus(isParked)
      ensures port == old(port) && MotionState() == old(MotionState())
      ensures pierSide == old(pierSide) && controllerFormat == old(controllerFormat)
    {
      trackState := if isParked then ScopeParked else ScopeTracking;
    }

    /** UpdateMotionStatus: query the motion state; on success run the motors switch and
        then the tracking-mode switch over the status. A failed query changes no status. */
    method UpdateMotionStatus() returns (ok: bool)
      modifies this
      ensures var q := Ask(old(port), old(MotionState()), ":X3C#", false);
        ok == q.ok && After(q)
        && trackState == (if ok then UpdatedStatus(old(trackState), q.motion.motors, q.motion.track)
                          else old(trackState))
      ensures pierSide == old(pierSide) && controllerFormat == old(controllerFormat)
    {
      ok := QueryMountMotionState();
      if !ok {
        return;
      }
      if motorsState == MotorsOff {
        if trackState == ScopeParking {
          SetParked(true);
        }
      } else if trackState != ScopeParking && trackState != ScopeSlewing {
        trackState := ScopeTracking;
      }
      var moving := trackState != ScopeParked && trackState != ScopeParking && trackState != ScopeSlewing;
      match trackMode
      case TrackNone =>
        if moving {
          trackState := ScopeIdle;
        }
      case _ =>
        if moving {
          trackState := if motorsState == MotorsOff then ScopeIdle else ScopeTracking;
        }
      // The slew-rate switch only assigns CurrentSlewRate the value it already has.
    }

    /** isIdle: query the motion state, then answer whether the tracking mode is
        SIDEREAL, whether or not the query succeeded. */
    method IsIdle() returns (idle: bool)
      modifies this
      ensures var q := Ask(old(port), old(MotionState()), ":X3C#", false);
        After(q) && idle == StarGoProtocol.IsIdle(q.motion.track)
      ensures StatusKept()
    {
      var _ := QueryMountMotionState();
      idle := trackMode == TrackSidereal;
    }

    /** queryIsSlewComplete: `:X34#`; false when the query fails, otherwise the
        decoding of the reply. */
    method QueryIsSlewComplete() returns (complete: bool)
      modifies this
      ensures var q := Ask(old(port), old(MotionState()), ":X34#", true);
        complete == (q.ok && SlewComplete(q.response)) && After(q)
      ensures StatusKept()
    {
      var ok, response := SendQuery(":X34#", true);
      if !ok {
        return false;
      }
      complete := SlewComplete(response);
    }

    /** The status branch of ReadScopeStatus: while slewing, a finished slew asks isIdle
        and settles on IDLE or TRACKING; while parking, a finished slew parks; in any
        other status nothing is sent. */
    method ReadScopeStatus()
      modifies this
      ensures var s := old(trackState);
        var q := Ask(old(port), old(MotionState()), ":X34#", true);
        var done := q.ok && SlewComplete(q.response);
        if s == ScopeSlewing && done then
          var q2 := Ask(q.port, q.motion, ":X3C#", false);
          After(q2) && trackState == SlewDoneStatus(s, true, q2.motion.track)
        else if s == ScopeSlewing || s == ScopeParking then
          After(q) && trackState == SlewDoneStatus(s, done, q.motion.track)
        else
          port == old(port) && MotionState() == old(MotionState()) && trackState == s
      ensures pierSide == old(pierSide) && controllerFormat == old(controllerFormat)
    {
      if trackState == ScopeSlewing {
        var complete := QueryIsSlewComplete();
        if complete {
          var idle := IsIdle();
          if idle {
            trackState := ScopeIdle;
          } else {
            trackState := ScopeTracking;
          }
        }
      } else if trackState == ScopeParking {
        var complete := QueryIsSlewComplete();
        if complete {
          SetParked(true);
        }
      }
    }

    // -------------------------------------------------------------------------
    // Status queries

    /** queryParkSync: `:X38#`; on a reply the decoder accepts, the parked and synced
        flags it gives, and otherwise the caller's flags and false. */
    method QueryParkSync(parked0: bool, synced0: bool) returns (ok: bool, parked: bool, synced: bool)
      modifies this
      ensures var q := Ask(old(port), old(MotionState()), ":X38#", true);
        var d := ParkSync(q.response, parked0, synced0);
        ok == (q.ok && d.Some?) && (parked, synced) == (if ok then d.value else (parked0, synced0))
        && After(q)
      ensures StatusKept()
    {
      parked, synced := parked0, synced0;
      var ok0, response := SendQuery(":X38#", true);
      if !ok0 {
        return false, parked, synced;
      }
      var d := ParkSync(response, parked0, synced0);
      if d.None? {
        return false, parked, synced;
      }
      ok := true;
      parked, synced := d.value.0, d.value.1;
    }

    /** The shared shape of the three `v<letter><digit>` status queries. */
    method QueryFlag(cmd: string, letter: char, onValue: int, enabled0: bool) returns (ok: bool, enabled: bool)
      modifies this
      ensures var q := Ask(old(port), old(MotionState()), cmd, true);
        var d := StatusFlag(letter, q.response, onValue);
        ok == (q.ok && d.Some?) && enabled == (if ok then d.value else enabled0) && After(q)
      ensures StatusKept()
    {
      enabled := enabled0;
      var ok0, response := SendQuery(cmd, true);
      if !ok0 {
        return false, enabled;
      }
      var d := StatusFlag(letter, response, onValue);
      if d.None? {
        return false, enabled;
      }
      ok, enabled := true, d.value;
    }

    /** queryGetST4Status: `:TTGFh#`, enabled on `vh1`. */
    method QueryGetST4Status(enabled0: bool) returns (ok: bool, enabled: bool)
      modifies this
      ensures var q := Ask(old(port), old(MotionState()), ":TTGFh#", true);
        var d := ST4Status(q.response);
        ok == (q.ok && d.Some?) && enabled == (if ok then d.value else enabled0) && After(q)
      ensures StatusKept()
    {
      ok, enabled := QueryFlag(":TTGFh#", 'h', 1, enabled0);
    }

    /** queryGetMeridianFlipEnabledStatus: `:TTGFs#`, enabled on `vs0`. */
    method QueryGetMeridianFlipEnabledStatus(enabled0: bool) returns (ok: bool, enabled: bool)
      modifies this
      ensures var q := Ask(old(port), old(MotionState()), ":TTGFs#", true);
        var d := FlipEnabledStatus(q.response);
        ok == (q.ok && d.Some?) && enabled == (if ok then d.value else enabled0) && After(q)
      ensures StatusKept()
    {
      ok, enabled := QueryFlag(":TTGFs#", 's', 0, enabled0);
    }

    /** queryGetMeridianFlipForcedStatus: `:TTGFd#`, forced on `vd1`. */
    method QueryGetMeridianFlipForcedStatus(enabled0: bool) returns (ok: bool, enabled: bool)
      modifies this
      ensures var q := Ask(old(port), old(MotionState()), ":TTGFd#", true);
        var d := FlipForcedStatus(q.response);
        ok == (q.ok && d.Some?) && enabled == (if ok then d.value else enabled0) && After(q)
      ensures StatusKept()
    {
      ok, enabled := QueryFlag(":TTGFd#", 'd', 1, enabled0);
    }

    /** syncSideOfPier: `:X39#`; a `P` reply sets the pier side from its letter (an
        unknown letter keeps it); any other reply, or a failed query, is a failure. */
    method SyncSideOfPier() returns (ok: bool)
      modifies this
      ensures var q := Ask(old(port), old(MotionState()), ":X39#", true);
        var d := PierReply(q.response, old(pierSide));
        ok == (q.ok && d.Some?) && pierSide == (if ok then d.value else old(pierSide)) && After(q)
      ensures trackState == old(trackState) && controllerFormat == old(controllerFormat)
    {
      var ok0, response := SendQuery(":X39#", true);
      if !ok0 {
        return false;
      }
      var d := PierReply(response, pierSide);
      if d.None? {
        return false;
      }
      pierSide := d.value;
      ok := true;
    }

    /** getLocalDate: `:GC#`; the reply's date in ISO form, or false. */
    method GetLocalDate(date0: string) returns (ok: bool, date: string)
      modifies this
      ensures var q := Ask(old(port), old(MotionState()), ":GC#", true);
        var d := LocalDate(q.response);
        ok == (q.ok && d.Some?) && date == (if ok then d.value else date0) && After(q)
      ensures StatusKept()
    {
      date := date0;
      var ok0, response := SendQuery(":GC#", true);
      if !ok0 {
        return false, date;
      }
      var d := LocalDate(response);
      if d.None? {
        return false, date;
      }
      ok, date := true, d.value;
    }

    /** checkLX200Format: the format is LONG until the `:GR#` reply decides it; a
        low-precision reply first sends `:U#` (toggle precision, no wait) and asks
        again. A failed query leaves LONG. The result is false on every path. */
    method CheckLX200Format() returns (r: bool)
      modifies this
      ensures !r
      ensures var q1 := Ask(old(port), old(MotionState()), ":GR#", true);
        if !q1.ok then After(q1) && controllerFormat == LongFormat
        else if !ShortPrecision(q1.response) then After(q1) && controllerFormat == CoordinateFormatOf(q1.response)
        else
          var q2 := Ask(q1.port, q1.motion, ":U#", false);
          if !q2.ok then After(q2) && controllerFormat == LongFormat
          else
            var q3 := Ask(q2.port, q2.motion, ":GR#", true);
            After(q3) && controllerFormat == (if q3.ok then CoordinateFormatOf(q3.response) else LongFormat)
      ensures trackState == old(trackState) && pierSide == old(pierSide)
    {
      controllerFormat := LongFormat;
      var ok, response := SendQuery(":GR#", true);
      if !ok {
        return false;
      }
      if |response| <= 5 || response[5] == '.' {
        ok, response := SendQuery(":U#", false);
        if !ok {
          return false;
        }
        ok, response := SendQuery(":GR#", true);
        if !ok {
          return false;
        }
      }
      if |response| <= 5 || response[5] == '.' {
        controllerFormat := ShortFormat;
      } else if |response| > 8 && response[8] == '.' {
        controllerFormat := LongerFormat;
      } else {
        controllerFormat := LongFormat;
      }
      return false;
    }

    // -------------------------------------------------------------------------
    // Commands

    /** SendPulseCmd: `:Mg<letter><duration>#` without waiting; 1 when sent, 0 when the
        query fails, and 1 without sending anything for an unknown direction. */
    method SendPulseCmd(direction: int, duration: nat) returns (r: int)
      requires -128 <= direction < 128 && duration < 0x1_0000_0000
      modifies this
      ensures match PulseCommand(direction, duration)
        case None => r == 1 && port == old(port) && MotionState() == old(MotionState())
        case Some(cmd) =>
          var q := Ask(old(port), old(MotionState()), cmd, false);
          r == (if q.ok then 1 else 0) && After(q)
      ensures StatusKept()
    {
      var letter: char;
      if direction == 0 { letter := 'n'; }
      else if direction == 3 { letter := 's'; }
      else if direction == 2 { letter := 'e'; }
      else if direction == 1 { letter := 'w'; }
      else { return 1; }
      var cmd := ":Mg" + [letter] + FormatInt(AsSigned32(duration), 4, true, false) + "#";
      var ok, response := SendQuery(cmd, false);
      r := if ok then 1 else 0;
    }

    /** The shared shape of the no-wait commands: nothing is sent and the result is
        false when there is no command, otherwise the query's success. */
    method SendCommand(cmd: Option<string>) returns (ok: bool)
      modifies this
      ensures match cmd
        case None => !ok && port == old(port) && MotionState() == old(MotionState())
        case Some(c) => var q := Ask(old(port), old(MotionState()), c, false); ok == q.ok && After(q)
      ensures StatusKept()
    {
      if cmd.None? {
        return false;
      }
      var response;
      ok, response := SendQuery(cmd.value, false);
    }

    /** setSlewMode: the `:R` command of an LX200 slew code, without waiting. */
    method SetSlewMode(mode: int) returns (ok: bool)
      modifies this
      ensures match SlewModeCommand(mode)
        case None => !ok && port == old(port) && MotionState() == old(MotionState())
        case Some(c) => var q := Ask(old(port), old(MotionState()), c, false); ok == q.ok && After(q)
      ensures StatusKept()
    {
      var cmd: Option<string> := None;
      if mode == 0 { cmd := Some(":RS#"); }
      else if mode == 1 { cmd := Some(":RM#"); }
      else if mode == 2 { cmd := Some(":RC#"); }
      else if mode == 3 { cmd := Some(":RG#"); }
      ok := SendCommand(cmd);
    }

    /** SetSlewRate: setSlewMode of `3 - index`. */
    method SetSlewRate(index: int) returns (ok: bool)
      modifies this
      ensures match SlewRateCommand(index)
        case None => !ok && port == old(port) && MotionState() == old(MotionState())
        case Some(c) => var q := Ask(old(port), old(MotionState()), c, false); ok == q.ok && After(q)
      ensures StatusKept()
    {
      ok := SetSlewMode(3 - index);
    }

    /** SetTrackMode: the `:T` command of a tracking-mode code, without waiting. */
    method SetTrackMode(mode: int) returns (ok: bool)
      requires 0 <= mode < 256
      modifies this
      ensures match TrackModeCommand(mode)
        case None => !ok && port == old(port) && MotionState() == old(MotionState())
        case Some(c) => var q := Ask(old(port), old(MotionState()), c, false); ok == q.ok && After(q)
      ensures StatusKept()
    {
      var cmd: Option<string> := None;
      if mode == 0 { cmd := Some(":TQ#"); }
      else if mode == 1 { cmd := Some(":TS#"); }
      else if mode == 2 { cmd := Some(":TL#"); }
      else if mode == 3 { cmd := Some(":TM#"); }
      ok := SendCommand(cmd);
    }

    /** setGuidingSpeeds: `:X20` with the RA speed, then, if that succeeded, `:X21`
        with the DEC speed; true when both succeed. */
    method SetGuidingSpeeds(raSpeed: int, decSpeed: int) returns (ok: bool)
      modifies this
      ensures var q1 := Ask(old(port), old(MotionState()), GuidingSpeedCommand('0', raSpeed), true);
        if !q1.ok then !ok && After(q1)
        else var q2 := Ask(q1.port, q1.motion, GuidingSpeedCommand('1', decSpeed), true);
          ok == q2.ok && After(q2)
      ensures StatusKept()
    {
      var response;
      ok, response := SendQuery(GuidingSpeedCommand('0', raSpeed), true);
      if !ok {
        return false;
      }
      ok, response := SendQuery(GuidingSpeedCommand('1', decSpeed), true);
    }

    /** setLocalDate: `:SC MM/DD/YY#`; false when the query fails or the reply starts
        with `0`. */
    method SetLocalDate(days: nat, months: nat, years: nat) returns (ok: bool)
      requires days < 256 && months < 256 && years < 65536
      modifies this
      ensures var q := Ask(old(port), old(MotionState()), LocalDateCommand(days, months, years), true);
        ok == (q.ok && LocalDateAccepted(q.response)) && After(q)
      ensures StatusKept()
    {
      var cmd := LocalDateCommand(days, months, years);
      var response;
      ok, response := SendQuery(cmd, true);
      if !ok {
        return false;
      }
      ok := !(|response| > 0 && response[0] == '0');
    }

    /** querySetSiteLatitude, from the degrees, minutes and seconds of the latitude. */
    method QuerySetSiteLatitude(d: int, m: int, s: int) returns (ok: bool)
      modifies this
      ensures var q := Ask(old(port), old(MotionState()), SiteLatitudeCommand(d, m, s), true);
        ok == q.ok && After(q)
      ensures StatusKept()
    {
      var response;
      ok, response := SendQuery(SiteLatitudeCommand(d, m, s), true);
    }

    /** querySetSiteLongitude, from the degrees, minutes and seconds of the normalised
        longitude. */
    method QuerySetSiteLongitude(d: int, m: int, s: int) returns (ok: bool)
      modifies this
      ensures var q := Ask(old(port), old(MotionState()), SiteLongitudeCommand(d, m, s), true);
        ok == q.ok && After(q)
      ensures StatusKept()
    {
      var response;
      ok, response := SendQuery(SiteLongitudeCommand(d, m, s), true);
    }
  }
}
