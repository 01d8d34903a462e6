/** The NexDome driver object (class NexDome in indi-nexdome/nex_dome.cpp): the `@`
    commands it sends, the exchange with the firmware over the serial line, the
    matching of a `get` reply among the event lines, and the event poll. */
module NexDomeDriver {
  import opened CText
  import opened NexDomeText

  /** ND::Targets. */
  datatype Target = Rotator | Shutter

  /** The letter a command puts after its verb for the target. */
  function TargetLetter(t: Target): (c: char)
    ensures c == 'R' <==> t == Rotator
  {
    if t == Rotator then 'R' else 'S'
  }

  // ---------------------------------------------------------------------------
  // Transport

  /** What one read meets: the bytes it delivers, or an error (a timeout included). */
  datatype DomeRead = Bytes(data: string) | ReadError

  /** How a read was made: a section read ending at the stop character, with the reply
      timeout or with the event timeout, or a read of a fixed count of bytes. */
  datatype ReadMode = ReplySection | EventSection | FixedCount(n: nat)

  /** The serial line: the outcomes its reads and writes will meet, and what the driver
      wrote and how it read. */
  datatype DomePort = DomePort(incoming: seq<DomeRead>, writeResults: seq<bool>,
                               written: seq<string>, readModes: seq<ReadMode>)

  /** The next read; once the script is used up every read fails. */
  function NextRead(incoming: seq<DomeRead>): (DomeRead, seq<DomeRead>)
  {
    if incoming == [] then (ReadError, []) else (incoming[0], incoming[1..])
  }

  /** The next write's success; once the script is used up every write succeeds. */
  function NextWrite(writeResults: seq<bool>): (bool, seq<bool>)
  {
    if writeResults == [] then (true, []) else (writeResults[0], writeResults[1..])
  }

  // ---------------------------------------------------------------------------
  // Framing

  /** setParameter: `@` + code + `W` + target letter + `,` + the value in decimal. The
      value is an `int32_t`, for which `isnan` never holds, so the `,value` part is
      always there. */
  function SetCommand(code: string, target: Target, value: int): string
  {
    "@" + code + "W" + [TargetLetter(target)] + "," + FormatInt(value, 0, false, false)
  }

  /** getParameter: `@` + code + `R` + target letter. */
  function GetCommand(code: string, target: Target): string
  {
    "@" + code + "R" + [TargetLetter(target)]
  }

  /** sendCommand without an explicit length: `snprintf("%s\r\n")` into a buffer of
      twice DRIVER_LEN. */
  function Framed(cmd: string, driverLen: nat): string
  {
    Snprintf(CStr(cmd) + "\r\n", 2 * driverLen)
  }

  /** The C string a section read leaves once its last byte (the stop character) is
      overwritten with NUL. */
  function SectionText(data: string): string
  {
    if data == [] then "" else CStr(data[..|data| - 1])
  }

  /** sendCommand: write `cmd` (its first `cmdLen` bytes when `cmdLen` is positive,
      otherwise framed by CR LF); a failed write ends it; without a reply buffer it
      succeeds there; otherwise one read (of `resLen` bytes when positive, otherwise a
      section read) decides, and a section reply loses its last byte. A failure leaves
      the reply buffer as it was. */
  function Exchange(p: DomePort, cmd: string, res: Option<string>, cmdLen: int, resLen: int,
                    driverLen: nat): (bool, string, DomePort)
    requires cmdLen > 0 ==> cmdLen <= |cmd|
  {
    var line := if cmdLen > 0 then cmd[..cmdLen] else Framed(cmd, driverLen);
    var (written, writesLeft) := NextWrite(p.writeResults);
    var p1 := p.(writeResults := writesLeft, written := p.written + [line]);
    var buffer := if res.Some? then res.value else "";
    if !written then (false, buffer, p1)
    else if res.None? then (true, buffer, p1)
    else
      var (o, rest) := NextRead(p1.incoming);
      var p2 := p1.(incoming := rest, readModes := p1.readModes + [if resLen > 0 then FixedCount(resLen) else ReplySection]);
      if o.ReadError? then (false, buffer, p2)
      else (true, if resLen > 0 then o.data else SectionText(o.data), p2)
  }

  /** A failed write reads nothing and fails; a command without a reply buffer reads
      nothing and succeeds exactly when its write does. */
  lemma ExchangeWithoutRead(p: DomePort, cmd: string, res: Option<string>, cmdLen: int, resLen: int,
                            driverLen: nat)
    requires cmdLen > 0 ==> cmdLen <= |cmd|
    requires !NextWrite(p.writeResults).0 || res.None?
    ensures var (ok, _, p') := Exchange(p, cmd, res, cmdLen, resLen, driverLen);
      ok == NextWrite(p.writeResults).0 && p'.incoming == p.incoming && p'.readModes == p.readModes
      && |p'.written| == |p.written| + 1
  {
  }

  /** A short command without NUL goes out as itself and CR LF. */
  lemma FramedLine(cmd: string, driverLen: nat)
    requires forall i :: 0 <= i < |cmd| ==> cmd[i] != '\0'
    requires |cmd| + 2 < 2 * driverLen
    ensures Framed(cmd, driverLen) == cmd + "\r\n"
  {
    CStrPlain(cmd);
  }

  /** A section reply of text and one stop character gives back the text. */
  lemma SectionReply(text: string, stop: char)
    requires forall i :: 0 <= i < |text| ==> text[i] != '\0'
    ensures SectionText(text + [stop]) == text
  {
    assert (text + [stop])[..|text|] == text;
    CStrPlain(text);
  }

  /** The value of a set command reads back with `%d`: the command is the prefix
      `@<code>W<target>,` then a numeral that `strtol` reads back as the value. */
  lemma SetCommandDecodes(code: string, target: Target, value: int)
    ensures var cmd := SetCommand(code, target, value);
      cmd[..|code| + 4] == "@" + code + "W" + [TargetLetter(target)] + ","
      && ReadInt(SkipSpace(cmd[|code| + 4..])) == Some((value, ""))
  {
    var cmd := SetCommand(code, target, value);
    var num := FormatInt(value, 0, false, false);
    assert cmd == ("@" + code + "W" + [TargetLetter(target)] + ",") + num;
    assert cmd[|code| + 4..] == num + "";
    ReadFormatInt(value, 0, false, false, "");
  }

  /** Set commands for different values differ. */
  lemma SetCommandInjective(code: string, target: Target, v1: int, v2: int)
    requires SetCommand(code, target, v1) == SetCommand(code, target, v2)
    ensures v1 == v2
  {
    SetCommandDecodes(code, target, v1);
    SetCommandDecodes(code, target, v2);
  }

  // ---------------------------------------------------------------------------
  // Matching a get reply

  /** The characters ECMAScript's `.` does not match. */
  predicate LineTerminator(c: char)
  {
    c == '\n' || c == '\r' || c == '\U{2028}' || c == '\U{2029}'
  }

  /** `regex_match(line, ":" + verb + "(.+)")`: the whole line is `:`, the verb and at
      least one more character, none of them a line terminator. */
  predicate Answers(line: string, verb: string)
  {
    |line| > |verb| + 1 && line[..|verb| + 1] == ":" + verb
    && forall k :: |verb| + 1 <= k < |line| ==> !LineTerminator(line[k])
  }

  /** The value of the last line that answers `verb`, each line trimmed first. */
  function LastAnswer(lines: seq<string>, verb: string): Option<string>
  {
    if lines == [] then None
    else
      var t := Stripped(lines[|lines| - 1], TrimChars);
      if Answers(t, verb) then Some(t[|verb| + 1..]) else LastAnswer(lines[..|lines| - 1], verb)
  }

  /** Whether the trimmed line at `i` answers `verb`. */
  predicate AnswersAt(lines: seq<string>, i: int, verb: string)
    requires 0 <= i < |lines|
  {
    Answers(Stripped(lines[i], TrimChars), verb)
  }

  /** There is an answer exactly when some trimmed line answers the verb. */
  lemma {:induction false} LastAnswerFound(lines: seq<string>, verb: string)
    ensures LastAnswer(lines, verb).Some? <==> exists i :: 0 <= i < |lines| && AnswersAt(lines, i, verb)
    decreases |lines|
  {
    if lines != [] {
      var n := |lines| - 1;
      if !AnswersAt(lines, n, verb) {
        var init := lines[..n];
        LastAnswerFound(init, verb);
        assert forall i :: 0 <= i < n ==> AnswersAt(init, i, verb) == AnswersAt(lines, i, verb);
      }
    }
  }

  /** An answer is the value of a trimmed line that answers the verb, and no later
      line answers it. */
  lemma {:induction false} LastAnswerLine(lines: seq<string>, verb: string) returns (i: nat)
    requires LastAnswer(lines, verb).Some?
    ensures i < |lines| && AnswersAt(lines, i, verb)
    ensures Stripped(lines[i], TrimChars) == ":" + verb + LastAnswer(lines, verb).value
    ensures forall j :: i < j < |lines| ==> !AnswersAt(lines, j, verb)
    decreases |lines|
  {
    var n := |lines| - 1;
    var t := Stripped(lines[n], TrimChars);
    if Answers(t, verb) {
      assert t == t[..|verb| + 1] + t[|verb| + 1..];
      i := n;
    } else {
      var init := lines[..n];
      i := LastAnswerLine(init, verb);
      assert forall j :: 0 <= j < n ==> AnswersAt(init, j, verb) == AnswersAt(lines, j, verb);
      assert init[i] == lines[i];
    }
  }

  /** A reply of an event line, then `:`, the verb and a value: the answer is the
      value, whatever the event line holds. */
  lemma ReplyAfterEvent(event: string, verb: string, value: string)
    requires '\n' !in event && '\n' !in verb
    requires value != [] && value[|value| - 1] !in TrimChars
    requires forall k :: 0 <= k < |value| ==> !LineTerminator(value[k])
    ensures LastAnswer(Split(event + "\n" + ":" + verb + value, '\n'), verb) == Some(value)
  {
    var line := ":" + verb + value;
    var lines := [event, line];
    assert Split(event + "\n" + ":" + verb + value, '\n') == lines by {
      assert '\n' !in line by {
        assert forall k :: 0 <= k < |value| ==> value[k] != '\n';
        assert forall k :: 0 <= k < |line| ==> line[k] != '\n';
      }
      assert event + "\n" + ":" + verb + value == event + ['\n'] + line;
      SplitTwo(event, line);
    }
    assert LastAnswer(lines, verb) == Some(value) by {
      AnswerLine(verb, value);
      TrimPlain(line);
      AnswerOfLast(lines, verb);
    }
  }

  /** Two lines without a line feed, joined by one, split back into them. */
  lemma SplitTwo(a: string, b: string)
    requires '\n' !in a && '\n' !in b && b != []
    ensures Split(a + ['\n'] + b, '\n') == [a, b]
  {
    PiecesCut(a, '\n', b);
    PiecesOne(b, '\n');
  }

  /** A last line that answers gives the answer. */
  lemma AnswerOfLast(lines: seq<string>, verb: string)
    requires |lines| > 0 && AnswersAt(lines, |lines| - 1, verb)
    ensures LastAnswer(lines, verb) == Some(Stripped(lines[|lines| - 1], TrimChars)[|verb| + 1..])
  {
  }

  /** `:`, the verb and a value free of line terminators answer the verb. */
  lemma AnswerLine(verb: string, value: string)
    requires value != [] && forall k :: 0 <= k < |value| ==> !LineTerminator(value[k])
    ensures Answers(":" + verb + value, verb) && (":" + verb + value)[|verb| + 1..] == value
  {
    var line := ":" + verb + value;
    assert line[..|verb| + 1] == ":" + verb;
    assert forall k :: |verb| + 1 <= k < |line| ==> line[k] == value[k - |verb| - 1];
  }

  /** A version reply after an event line: found, with the version as its value. */
  lemma VersionReplyFound()
    ensures LastAnswer(Split(":SER,0" + "\n" + ":" + "SVR" + "3.1", '\n'), "SVR") == Some("3.1")
  {
    ReplyAfterEvent(":SER,0", "SVR", "3.1");
  }

  /** Text without a separator is one piece. */
  lemma {:induction false} PiecesOne(s: string, sep: char)
    requires sep !in s
    ensures Pieces(s, sep) == [s]
  {
    if s != [] {
      PiecesOne(s[1..], sep);
      assert s == [s[0]] + s[1..];
    }
  }

  /** A separator-free head and a separator start the pieces. */
  lemma {:induction false} PiecesCut(a: string, sep: char, b: string)
    requires sep !in a
    ensures Pieces(a + [sep] + b, sep) == [a] + Pieces(b, sep)
  {
    if a != [] {
      PiecesCut(a[1..], sep, b);
      assert (a + [sep] + b)[1..] == a[1..] + [sep] + b;
      assert a == [a[0]] + a[1..];
    } else {
      assert (a + [sep] + b)[1..] == b;
    }
  }

  /** A line that neither starts nor ends with a trimmed character trims to itself. */
  lemma TrimPlain(s: string)
    requires s != [] && s[0] !in TrimChars && s[|s| - 1] !in TrimChars
    ensures Stripped(s, TrimChars) == s
  {
  }

  // ---------------------------------------------------------------------------
  // Events

  /** What checkEvents returns: the success and the response, or the `out_of_range`
      that `substr(1)` throws when the buffer's C string is empty. */
  datatype EventCheck = Checked(ok: bool, response: string) | OutOfRange

  /** checkEvents: false on a read error or under three bytes; otherwise the C string
      of the buffer less its first character (the stop character stays). */
  function EventCheckOf(o: DomeRead, response0: string): EventCheck
  {
    if o.ReadError? || |o.data| < 3 then Checked(false, response0)
    else
      var t := CStr(o.data);
      if t == [] then OutOfRange else Checked(true, t[1..])
  }

  /** An event frame of three bytes or more without NUL loses only its first byte. */
  lemma EventFrame(lead: char, rest: string, response0: string)
    requires lead != '\0' && |rest| >= 2 && forall i :: 0 <= i < |rest| ==> rest[i] != '\0'
    ensures EventCheckOf(Bytes([lead] + rest), response0) == Checked(true, rest)
  {
    CStrPlain([lead] + rest);
  }

  /** Short reads and errors leave the response as it was. */
  lemma EventRejects(o: DomeRead, response0: string)
    requires o.ReadError? || |o.data| < 3
    ensures EventCheckOf(o, response0) == Checked(false, response0)
  {
  }

  class NexDome {
    var port: DomePort
    /** m_ShutterConnected */
    var shutterConnected: bool
    /** ND::DRIVER_LEN: the size of the reply buffers. */
    const driverLen: nat

    constructor(port0: DomePort, len: nat, connected: bool)
      ensures port == port0 && driverLen == len && shutterConnected == connected
    {
      port := port0;
      driverLen := len;
      shutterConnected := connected;
    }

    /** sendCommand, over the scripted line; the flushes around it are not modelled. */
    method SendCommand(cmd: string, res: Option<string>, cmdLen: int, resLen: int) returns (ok: bool, reply: string)
      requires cmdLen > 0 ==> cmdLen <= |cmd|
      modifies this
      ensures (ok, reply, port) == Exchange(old(port), cmd, res, cmdLen, resLen, driverLen)
      ensures shutterConnected == old(shutterConnected)
    {
      reply := if res.Some? then res.value else "";
      var line := if cmdLen > 0 then cmd[..cmdLen] else Snprintf(CStr(cmd) + "\r\n", 2 * driverLen);
      var written := true;
      if port.writeResults != [] {
        written := port.writeResults[0];
        port := port.(writeResults := port.writeResults[1..]);
      }
      port := port.(written := port.written + [line]);
      if !written {
        return false, reply;
      }
      if res.None? {
        return true, reply;
      }
      var o: DomeRead := ReadError;
      if port.incoming != [] {
        o := port.incoming[0];
        port := port.(incoming := port.incoming[1..]);
      }
      port := port.(readModes := port.readModes + [if resLen > 0 then FixedCount(resLen) else ReplySection]);
      if o.ReadError? {
        return false, reply;
      }
      if resLen > 0 {
        reply := o.data;
      } else if o.data != [] {
        reply := CStr(o.data[..|o.data| - 1]);
      } else {
        reply := "";
      }
      ok := true;
    }

    /** setParameter: send the set command, expecting no reply. */
    method SetParameter(code: string, target: Target, value: int) returns (ok: bool)
      requires -0x8000_0000 <= value < 0x8000_0000
      modifies this
      ensures var (ok', _, p) := Exchange(old(port), SetCommand(code, target, value), None, 0, 0, driverLen);
        ok == ok' && port == p
      ensures shutterConnected == old(shutterConnected)
    {
      var cmd := "@" + code + "W" + [if target == Rotator then 'R' else 'S'] + "," + FormatInt(value, 0, false, false);
      var reply;
      ok, reply := SendCommand(cmd, None, 0, 0);
    }

    /** processEvent: the match object is never filled, so every entry of the events
        table is skipped; nothing changes and the result is false. */
    method ProcessEvent(event: string) returns (handled: bool)
      ensures !handled
    {
      handled := false;
    }

    /** The loop of getParameter over the reply's lines: a trimmed line that answers
        the verb sets the value and the flag, and any other goes to processEvent. */
    method MatchReplies(lines: seq<string>, verb: string, value0: string) returns (found: bool, value: string)
      ensures found == LastAnswer(lines, verb).Some?
      ensures value == if found then LastAnswer(lines, verb).value else value0
    {
      found, value := false, value0;
      for i := 0 to |lines|
        invariant found == LastAnswer(lines[..i], verb).Some?
        invariant value == if found then LastAnswer(lines[..i], verb).value else value0
      {
        assert lines[..i + 1][..i] == lines[..i];
        var t := Trim(lines[i], TrimChars);
        if Answers(t, verb) {
          value := t[|verb| + 1..];
          found := true;
        } else {
          var _ := ProcessEvent(t);
        }
      }
      assert lines[..|lines|] == lines;
    }

    /** getParameter as written: `value` is taken by value, so the match it records
        never reaches the caller, whose string stays as it was; only the flag comes
        back. */
    method GetParameter(code: string, target: Target, value: string) returns (found: bool)
      modifies this
      ensures var (ok, res, p) := Exchange(old(port), GetCommand(code, target), Some(""), 0, 0, driverLen);
        port == p && found == (ok && LastAnswer(Split(res, '\n'), code + "R").Some?)
      ensures shutterConnected == old(shutterConnected)
    {
      var recorded;
      found, recorded := GetParameterValue(code, target, value);
    }

    /** getParameter with the value passed back: the value of the last reply line that
        answers the get command, or the caller's value when none does. */
    method GetParameterValue(code: string, target: Target, value0: string) returns (found: bool, value: string)
      modifies this
      ensures var (ok, res, p) := Exchange(old(port), GetCommand(code, target), Some(""), 0, 0, driverLen);
        var a := if ok then LastAnswer(Split(res, '\n'), code + "R") else None;
        port == p && found == a.Some? && value == (if found then a.value else value0)
      ensures shutterConnected == old(shutterConnected)
    {
      var verb := code + "R";
      var cmd := "@" + verb + [if target == Rotator then 'R' else 'S'];
      assert cmd == GetCommand(code, target);
      var ok, res := SendCommand(cmd, Some(""), 0, 0);
      found, value := false, value0;
      if ok {
        var all := Split(res, '\n');
        found, value := MatchReplies(all, verb, value0);
      }
    }

    /** checkEvents: one section read with the event timeout. */
    method CheckEvents(response0: string) returns (r: EventCheck)
      modifies this
      ensures var (o, rest) := NextRead(old(port.incoming));
        r == EventCheckOf(o, response0)
        && port == old(port).(incoming := rest, readModes := old(port.readModes) + [EventSection])
      ensures shutterConnected == old(shutterConnected)
    {
      var o: DomeRead := ReadError;
      if port.incoming != [] {
        o := port.incoming[0];
        port := port.(incoming := port.incoming[1..]);
      }
      port := port.(readModes := port.readModes + [EventSection]);
      if o.ReadError? || |o.data| < 3 {
        return Checked(false, response0);
      }
      var response := CStr(o.data);
      if response == [] {
        return OutOfRange;
      }
      r := Checked(true, response[1..]);
    }
  }
}
