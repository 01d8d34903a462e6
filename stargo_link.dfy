/** The transaction engine of the StarGo driver (sendQuery, receive and transmit in
    indi-avalon/lx200stargo.cpp), stated on values: what a read does to the serial
    port, how the drain and collect phases of a query consume the incoming frames, and
    what a whole query answers. The phases hand every frame to a frame parser; the
    driver's parser is ParseMotionState, `MotionParser` below. The driver object in
    StarGoDevice runs the same steps with loops and is proved to agree with these
    functions. */
module StarGoLink {
  import opened CText
  import opened StarGoProtocol

  /** What one `tty_read_section(fd, buf, '#', timeout, &n)` delivers: the bytes of a
      frame, a timeout, or another read error. */
  datatype ReadOutcome = Frame(raw: string) | TimedOut | Failed

  /** The serial port as the driver sees it: the outcomes its reads will meet in turn
      (once they are used up every read times out), the results its writes will meet in
      turn (once they are used up every write succeeds), and the log of what the driver
      did: what it wrote, the timeout of each read, and the number of warnings. */
  datatype Port = Port(incoming: seq<ReadOutcome>, writeResults: seq<bool>,
                       sent: seq<string>, timeouts: seq<int>, warnings: nat)

  /** A frame parser: which frames it accepts, and what it makes of the motion state. */
  datatype Parser = Parser(accepts: string -> bool, update: (string, Motion) -> Motion)

  /** ParseMotionState. */
  const MotionParser: Parser := Parser(IsMotionFrame, (f, m) => ParseMotion(f, m).1)

  /** A frame is a motion frame when the three digits scan. */
  predicate IsMotionFrame(f: string)
  {
    Scan(MotionFormat, f).ret == 3
  }

  /** The driver's parser is ParseMotion: it accepts what ParseMotion accepts, it
      updates as ParseMotion does, and a frame it rejects changes nothing. */
  lemma MotionParserParses(f: string, m: Motion)
    ensures (MotionParser.accepts(f), MotionParser.update(f, m)) == ParseMotion(f, m)
    ensures !MotionParser.accepts(f) ==> MotionParser.update(f, m) == m
  {
  }

  /** The next read outcome and the script after it. */
  function NextRead(incoming: seq<ReadOutcome>): (r: (ReadOutcome, seq<ReadOutcome>))
    ensures incoming == [] ==> r == (TimedOut, [])
    ensures incoming != [] ==> r == (incoming[0], incoming[1..])
  {
    if incoming == [] then (TimedOut, []) else (incoming[0], incoming[1..])
  }

  /** The next write result and the script after it. */
  function NextWrite(writeResults: seq<bool>): (r: (bool, seq<bool>))
    ensures writeResults == [] ==> r == (true, [])
    ensures writeResults != [] ==> r == (writeResults[0], writeResults[1..])
  {
    if writeResults == [] then (true, []) else (writeResults[0], writeResults[1..])
  }

  /** What receive keeps of a frame: the final byte is dropped when it is `#`, and the
      buffer is then read as a C string. */
  function Received(raw: string): (f: string)
    ensures |f| <= |raw|
    ensures raw != [] && raw[|raw| - 1] == '#' ==> f == CStr(raw[..|raw| - 1])
    ensures !(raw != [] && raw[|raw| - 1] == '#') ==> f == CStr(raw)
  {
    if raw != [] && raw[|raw| - 1] == '#' then CStr(raw[..|raw| - 1]) else CStr(raw)
  }

  /** A frame without NUL bytes reaches the parser as sent, less its `#`. */
  lemma ReceivedFrame(f: string)
    requires forall i :: 0 <= i < |f| ==> f[i] != '\0'
    ensures Received(f + "#") == f
  {
    assert (f + "#")[..|f|] == f;
    CStrPlain(f);
  }

  /** A frame that does not end in `#` is kept whole, up to the first NUL. */
  lemma ReceivedUnterminated(raw: string)
    requires raw == [] || raw[|raw| - 1] != '#'
    requires forall i :: 0 <= i < |raw| ==> raw[i] != '\0'
    ensures Received(raw) == raw
  {
    CStrPlain(raw);
  }

  /** receive warns on every failure except a timeout while not waiting. */
  predicate ReadWarns(o: ReadOutcome, wait: bool)
  {
    o.Failed? || (o.TimedOut? && wait)
  }

  /** The timeout receive hands to the port. */
  function ReadTimeout(wait: bool, avalonTimeout: int): int
  {
    if wait then avalonTimeout else 0
  }

  /** The outcome of one phase of a query: the script left over, the motion state after
      the frames it parsed, the last frame it kept, the timeout of each of its reads and
      the warnings it logged. */
  datatype Phase = Phase(rest: seq<ReadOutcome>, motion: Motion, response: string,
                         timeouts: seq<int>, warnings: nat)

  /** The drain phase: non-blocking reads until one fails; every frame goes through the
      parser and is then dropped. */
  function Drain(incoming: seq<ReadOutcome>, m: Motion, parser: Parser): (d: Phase)
    decreases |incoming|
  {
    var (o, rest) := NextRead(incoming);
    if o.Frame? then
      var d := Drain(rest, parser.update(Received(o.raw), m), parser);
      d.(timeouts := [0] + d.timeouts)
    else Phase(rest, m, "", [0], if ReadWarns(o, false) then 1 else 0)
  }

  /** The collect phase: reads until one fails, the first with `lwait`; a frame the
      parser accepts keeps the wait mode and any other frame switches it off; the buffer
      keeps the last frame received. */
  function Collect(incoming: seq<ReadOutcome>, m: Motion, lwait: bool, response: string,
                   avalonTimeout: int, parser: Parser): (c: Phase)
    decreases |incoming|
  {
    var timeout := ReadTimeout(lwait, avalonTimeout);
    var (o, rest) := NextRead(incoming);
    if o.Frame? then
      var f := Received(o.raw);
      var c := Collect(rest, parser.update(f, m), lwait && parser.accepts(f), f, avalonTimeout, parser);
      c.(timeouts := [timeout] + c.timeouts)
    else Phase(rest, m, response, [timeout], if ReadWarns(o, lwait) then 1 else 0)
  }

  datatype QueryResult = QueryResult(ok: bool, response: string, port: Port, motion: Motion)

  /** sendQuery: drain, transmit `cmd`, and, if the write succeeded, collect. */
  function Query(p: Port, m: Motion, cmd: string, wait: bool, avalonTimeout: int, parser: Parser): QueryResult
  {
    var d := Drain(p.incoming, m, parser);
    var (written, writesLeft) := NextWrite(p.writeResults);
    var p1 := p.(incoming := d.rest, writeResults := writesLeft, sent := p.sent + [cmd],
                 timeouts := p.timeouts + d.timeouts,
                 warnings := p.warnings + d.warnings + (if written then 0 else 1));
    if !written then QueryResult(false, "", p1, d.motion)
    else
      var c := Collect(d.rest, d.motion, wait, "", avalonTimeout, parser);
      QueryResult(true, c.response,
                  p1.(incoming := c.rest, timeouts := p1.timeouts + c.timeouts,
                      warnings := p1.warnings + c.warnings),
                  c.motion)
  }

  // ---------------------------------------------------------------------------
  // Reference definitions

  /** The outcomes of reading the frames `raws` one after another. */
  function Frames(raws: seq<string>): (r: seq<ReadOutcome>)
    ensures |r| == |raws| && forall i :: 0 <= i < |raws| ==> r[i] == Frame(raws[i])
  {
    seq(|raws|, i requires 0 <= i < |raws| => Frame(raws[i]))
  }

  /** The motion state after parsing the frames `raws` in order. */
  function ApplyFrames(raws: seq<string>, m: Motion, parser: Parser): Motion
    decreases |raws|
  {
    if raws == [] then m else ApplyFrames(raws[1..], parser.update(Received(raws[0]), m), parser)
  }

  /** The parser accepts all of the frames `raws`. */
  predicate AllAccepted(raws: seq<string>, parser: Parser)
  {
    forall j :: 0 <= j < |raws| ==> parser.accepts(Received(raws[j]))
  }

  /** `n` zero timeouts. */
  function Repeat0(n: nat): (z: seq<int>)
    ensures |z| == n && forall i :: 0 <= i < n ==> z[i] == 0
  {
    seq(n, _ => 0)
  }

  /** The wait modes of the collect reads: read `i` waits when `wait` does and the parser
      accepted every frame before it. */
  function CollectTimeouts(raws: seq<string>, wait: bool, avalonTimeout: int, parser: Parser): (t: seq<int>)
    ensures |t| == |raws| + 1
  {
    seq(|raws| + 1, i requires 0 <= i <= |raws| =>
      ReadTimeout(wait && AllAccepted(raws[..i], parser), avalonTimeout))
  }

  lemma FramesSplit(raws: seq<string>, o: ReadOutcome, rest: seq<ReadOutcome>)
    requires raws != []
    ensures NextRead(Frames(raws) + [o] + rest) == (Frame(raws[0]), Frames(raws[1..]) + [o] + rest)
  {
    assert (Frames(raws) + [o] + rest)[1..] == Frames(raws[1..]) + [o] + rest;
  }

  lemma FramesEnd(o: ReadOutcome, rest: seq<ReadOutcome>)
    ensures NextRead(Frames([]) + [o] + rest) == (o, rest)
  {
    assert Frames([]) + [o] + rest == [o] + rest;
  }

  /** The drain phase parses every frame buffered before the first failed read, in
      order, and drops them all: it reads without waiting, leaves the script after that
      failed read, and warns only when the read was an error rather than a timeout. */
  lemma {:induction false} DrainFrames(raws: seq<string>, o: ReadOutcome, rest: seq<ReadOutcome>,
                                       m: Motion, parser: Parser)
    requires !o.Frame?
    ensures Drain(Frames(raws) + [o] + rest, m, parser)
      == Phase(rest, ApplyFrames(raws, m, parser), "", Repeat0(|raws| + 1), if o.Failed? then 1 else 0)
    decreases |raws|
  {
    if raws == [] {
      FramesEnd(o, rest);
    } else {
      FramesSplit(raws, o, rest);
      DrainFrames(raws[1..], o, rest, parser.update(Received(raws[0]), m), parser);
      assert [0] + Repeat0(|raws|) == Repeat0(|raws| + 1);
    }
  }

  /** Accepting a non-empty run of frames is accepting the first and the rest. */
  lemma AllAcceptedSplit(raws: seq<string>, parser: Parser)
    requires raws != []
    ensures AllAccepted(raws, parser) <==> parser.accepts(Received(raws[0])) && AllAccepted(raws[1..], parser)
  {
    assert forall j | 0 <= j < |raws| - 1 :: raws[1..][j] == raws[j + 1];
  }

  lemma AcceptedPrefixStep(raws: seq<string>, i: nat, parser: Parser)
    requires 0 < i <= |raws|
    ensures AllAccepted(raws[..i], parser)
      <==> parser.accepts(Received(raws[0])) && AllAccepted(raws[1..][..i - 1], parser)
  {
    assert raws[..i][1..] == raws[1..][..i - 1];
    AllAcceptedSplit(raws[..i], parser);
  }

  lemma CollectTimeoutsStep(raws: seq<string>, wait: bool, avalonTimeout: int, parser: Parser)
    requires raws != []
    ensures CollectTimeouts(raws, wait, avalonTimeout, parser)
      == [ReadTimeout(wait, avalonTimeout)]
         + CollectTimeouts(raws[1..], wait && parser.accepts(Received(raws[0])), avalonTimeout, parser)
  {
    var w1 := wait && parser.accepts(Received(raws[0]));
    var a := CollectTimeouts(raws, wait, avalonTimeout, parser);
    var c := CollectTimeouts(raws[1..], w1, avalonTimeout, parser);
    var b := [ReadTimeout(wait, avalonTimeout)] + c;
    assert a[0] == b[0] by {
      assert raws[..0] == [];
    }
    forall i | 1 <= i < |a| ensures a[i] == b[i] {
      assert a[i] == ReadTimeout(wait && AllAccepted(raws[..i], parser), avalonTimeout);
      assert b[i] == c[i - 1] == ReadTimeout(w1 && AllAccepted(raws[1..][..i - 1], parser), avalonTimeout);
      AcceptedPrefixStep(raws, i, parser);
    }
  }

  /** The collect phase, for the frames `raws` that arrive before the first failed read:
      all of them are parsed in order, the response is the last of them (the old buffer
      when there is none), read `i` waits when `wait` does and every frame before it was
      accepted, and the final failed read warns when it was an error, or a timeout while
      still waiting. */
  lemma {:induction false} CollectFrames(raws: seq<string>, o: ReadOutcome, rest: seq<ReadOutcome>,
                                         m: Motion, wait: bool, response: string, avalonTimeout: int,
                                         parser: Parser)
    requires !o.Frame?
    ensures var c := Collect(Frames(raws) + [o] + rest, m, wait, response, avalonTimeout, parser);
      c.rest == rest && c.motion == ApplyFrames(raws, m, parser)
      && c.response == (if raws == [] then response else Received(raws[|raws| - 1]))
      && c.timeouts == CollectTimeouts(raws, wait, avalonTimeout, parser)
      && c.warnings == (if o.Failed? || (o.TimedOut? && wait && AllAccepted(raws, parser)) then 1 else 0)
    decreases |raws|
  {
    if raws == [] {
      FramesEnd(o, rest);
      assert CollectTimeouts(raws, wait, avalonTimeout, parser)[0] == ReadTimeout(wait, avalonTimeout) by {
        assert raws[..0] == [];
      }
    } else {
      var f := Received(raws[0]);
      var w1 := wait && parser.accepts(f);
      FramesSplit(raws, o, rest);
      CollectFrames(raws[1..], o, rest, parser.update(f, m), w1, f, avalonTimeout, parser);
      CollectTimeoutsStep(raws, wait, avalonTimeout, parser);
      AllAcceptedSplit(raws, parser);
      if |raws| > 1 {
        assert raws[1..][|raws[1..]| - 1] == raws[|raws| - 1];
      }
    }
  }

  // ---------------------------------------------------------------------------
  // Properties of a query

  /** sendQuery fails exactly when the write fails; then the response is empty and no
      read follows the write. Otherwise it succeeds whatever the reads bring, even
      nothing at all, and the port has been read up to the first failed read after the
      write. */
  lemma QueryOutcome(p: Port, m: Motion, cmd: string, wait: bool, avalonTimeout: int, parser: Parser)
    ensures var r := Query(p, m, cmd, wait, avalonTimeout, parser);
      var d := Drain(p.incoming, m, parser);
      (r.ok <==> NextWrite(p.writeResults).0)
      && r.port.sent == p.sent + [cmd]
      && (!r.ok ==> r.response == "" && r.port.incoming == d.rest && r.motion == d.motion
                    && r.port.timeouts == p.timeouts + d.timeouts)
      && (r.ok ==> r.port.incoming == Collect(d.rest, d.motion, wait, "", avalonTimeout, parser).rest)
  {
  }

  /** A query whose write succeeds, with the frames `strays` buffered before it and the
      frames `replies` arriving after it, each run ended by a failed read: the strays
      never become the response; the response is the last reply ("" when there is none);
      the motion state has seen the strays and then the replies, in order; the drain
      reads never wait and the collect reads wait as CollectTimeouts says. */
  lemma QueryAnswer(strays: seq<string>, o1: ReadOutcome, replies: seq<string>, o2: ReadOutcome,
                    after: seq<ReadOutcome>, p: Port, m: Motion, cmd: string, wait: bool,
                    avalonTimeout: int, parser: Parser)
    requires !o1.Frame? && !o2.Frame?
    requires p.incoming == Frames(strays) + [o1] + (Frames(replies) + [o2] + after)
    requires NextWrite(p.writeResults).0
    ensures var r := Query(p, m, cmd, wait, avalonTimeout, parser);
      r.ok && r.response == (if replies == [] then "" else Received(replies[|replies| - 1]))
      && r.motion == ApplyFrames(replies, ApplyFrames(strays, m, parser), parser)
      && r.port.incoming == after
      && r.port.timeouts == p.timeouts + Repeat0(|strays| + 1) + CollectTimeouts(replies, wait, avalonTimeout, parser)
  {
    DrainFrames(strays, o1, Frames(replies) + [o2] + after, m, parser);
    CollectFrames(replies, o2, after, ApplyFrames(strays, m, parser), wait, "", avalonTimeout, parser);
  }

  /** A reply that is not a motion frame is rejected and returned as it came. */
  lemma ReplyFrame(m: Motion)
    ensures Received("reply#") == "reply"
    ensures !MotionParser.accepts("reply") && MotionParser.update("reply", m) == m
  {
    ReceivedFrame("reply");
    ParseMotionNeedsPrefix("reply", m);
  }

  /** The frame of a motion state reaches ParseMotionState as sent, less its `#`, and
      sets that state. */
  lemma ReceivedMotionFrame(m: Motion, m0: Motion)
    ensures Received(MotionFrame(m) + "#") == MotionFrame(m)
    ensures MotionParser.accepts(MotionFrame(m)) && MotionParser.update(MotionFrame(m), m0) == m
  {
    var f := MotionFrame(m);
    assert forall i | 0 <= i < |f| :: f[i] == ':' || f[i] == 'Z' || f[i] == '1' || IsDigit(f[i]);
    ReceivedFrame(f);
    MotionFrameRoundTrip(m, m0, []);
    assert f + [] == f;
  }

  /** Two stray frames are buffered before a waiting query, and then a reply the parser
      rejects arrives: both strays are parsed in order and dropped, the reply is parsed
      last and returned, and the only waiting read is the first one after the write. */
  lemma StraysThenReply(a: string, b: string, reply: string, p: Port, m: Motion, cmd: string,
                        avalonTimeout: int, parser: Parser)
    requires p.incoming == Frames([a, b]) + [TimedOut] + (Frames([reply]) + [TimedOut] + [])
    requires p.writeResults == [] && !parser.accepts(Received(reply))
    ensures var r := Query(p, m, cmd, true, avalonTimeout, parser);
      r.ok && r.response == Received(reply)
      && r.motion == parser.update(Received(reply), parser.update(Received(b), parser.update(Received(a), m)))
      && r.port.incoming == [] && r.port.timeouts == p.timeouts + [0, 0, 0, avalonTimeout, 0]
  {
    var strays, replies := [a, b], [reply];
    var m2 := parser.update(Received(b), parser.update(Received(a), m));
    assert ApplyFrames(replies, ApplyFrames(strays, m, parser), parser) == parser.update(Received(reply), m2) by {
      ApplyTwo(a, b, m, parser);
      ApplyOne(reply, m2, parser);
    }
    assert CollectTimeouts(replies, true, avalonTimeout, parser) == [avalonTimeout, 0] by {
      assert replies[..0] == [] && replies[..1] == replies;
      assert !AllAccepted(replies, parser);
    }
    assert Repeat0(|strays| + 1) + [avalonTimeout, 0] == [0, 0, 0, avalonTimeout, 0];
    QueryAnswer(strays, TimedOut, replies, TimedOut, [], p, m, cmd, true, avalonTimeout, parser);
  }

  /** With the driver's parser, for the frames of StraysThenReply: two stray motion
      frames leave the state of the second, and the reply `reply#` is rejected, keeps
      that state and is returned as `reply`. */
  lemma TwoStraysThenReply(m1: Motion, m2: Motion, m: Motion)
    ensures Received(MotionFrame(m1) + "#") == MotionFrame(m1) && MotionParser.update(MotionFrame(m1), m) == m1
    ensures Received(MotionFrame(m2) + "#") == MotionFrame(m2) && MotionParser.update(MotionFrame(m2), m1) == m2
    ensures Received("reply#") == "reply" && !MotionParser.accepts("reply")
      && MotionParser.update("reply", m2) == m2
  {
    ReceivedMotionFrame(m1, m);
    ReceivedMotionFrame(m2, m1);
    ReplyFrame(m2);
  }

  lemma ApplyTwo(a: string, b: string, m: Motion, parser: Parser)
    ensures ApplyFrames([a, b], m, parser) == parser.update(Received(b), parser.update(Received(a), m))
  {
    assert [a, b][1..] == [b];
    ApplyOne(b, parser.update(Received(a), m), parser);
  }

  lemma ApplyOne(a: string, m: Motion, parser: Parser)
    ensures ApplyFrames([a], m, parser) == parser.update(Received(a), m)
  {
    assert [a][1..] == [];
  }

  /** A query with nothing to read: with or without waiting it succeeds with the empty
      response and leaves the motion state as it was; only a waiting read warns. */
  lemma QuerySilent(p: Port, m: Motion, cmd: string, wait: bool, avalonTimeout: int, parser: Parser)
    requires p.incoming == [] && p.writeResults == []
    ensures var r := Query(p, m, cmd, wait, avalonTimeout, parser);
      r.ok && r.response == "" && r.motion == m
      && r.port.timeouts == p.timeouts + [0, ReadTimeout(wait, avalonTimeout)]
      && r.port.warnings == p.warnings + (if wait then 1 else 0)
  {
  }

  /** A failed write ends the query before any read of a reply, with the empty response. */
  lemma QueryWriteFails(p: Port, m: Motion, cmd: string, wait: bool, avalonTimeout: int, parser: Parser)
    requires p.incoming == [] && p.writeResults == [false]
    ensures var r := Query(p, m, cmd, wait, avalonTimeout, parser);
      !r.ok && r.response == "" && r.motion == m && r.port.incoming == []
      && r.port.timeouts == p.timeouts + [0] && r.port.writeResults == []
      && r.port.warnings == p.warnings + 1
  {
  }
}
