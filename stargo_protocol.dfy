/** The Avalon StarGo mount protocol as the driver in indi-avalon/lx200stargo.cpp
    speaks it: the pushed `:Z1mts` motion frame, the decoders of the query replies,
    the command strings the driver builds from integer components, and the rules
    that derive the scope status from the motion state. Everything here is a value
    computation; the transaction engine is in StarGoLink and the driver object in
    StarGoDevice. */
module StarGoProtocol {
  import opened CText

  // ---------------------------------------------------------------------------
  // Motion state

  datatype MotorsState = MotorsOff | MotorsDecOnly | MotorsRaOnly | MotorsOn
  datatype TrackMode = TrackNone | TrackLunar | TrackSolar | TrackSidereal
  datatype SlewRate = SlewGuide | SlewCentering | SlewFind | SlewMax

  /** The three fields a motion frame updates. */
  datatype Motion = Motion(motors: MotorsState, track: TrackMode, slew: SlewRate)

  /** `m` of a motion frame: 0..3 name a motors state, any other value keeps `current`. */
  function MotorsOfDigit(d: int, current: MotorsState): MotorsState
  {
    if d == 0 then MotorsOff else if d == 1 then MotorsDecOnly
    else if d == 2 then MotorsRaOnly else if d == 3 then MotorsOn else current
  }

  function TrackOfDigit(d: int, current: TrackMode): TrackMode
  {
    if d == 0 then TrackNone else if d == 1 then TrackLunar
    else if d == 2 then TrackSolar else if d == 3 then TrackSidereal else current
  }

  function SlewOfDigit(d: int, current: SlewRate): SlewRate
  {
    if d == 0 then SlewGuide else if d == 1 then SlewCentering
    else if d == 2 then SlewFind else if d == 3 then SlewMax else current
  }

  /** The digit the mount reports for each value; the digit mapping inverts it. */
  function MotorsDigit(s: MotorsState): (d: nat)
    ensures d < 4 && forall current :: MotorsOfDigit(d, current) == s
  {
    match s
    case MotorsOff => 0 case MotorsDecOnly => 1 case MotorsRaOnly => 2 case MotorsOn => 3
  }

  function TrackDigit(t: TrackMode): (d: nat)
    ensures d < 4 && forall current :: TrackOfDigit(d, current) == t
  {
    match t
    case TrackNone => 0 case TrackLunar => 1 case TrackSolar => 2 case TrackSidereal => 3
  }

  function SlewDigit(r: SlewRate): (d: nat)
    ensures d < 4 && forall current :: SlewOfDigit(d, current) == r
  {
    match r
    case SlewGuide => 0 case SlewCentering => 1 case SlewFind => 2 case SlewMax => 3
  }

  /** `sscanf(state, ":Z1%01d%01d%01d", ...)`. */
  const MotionFormat: Format := Lits(":Z1", Digits(3))

  /** A motion frame without white space: `:Z1` and three digits. */
  predicate MotionShaped(frame: string)
  {
    |frame| >= 6 && frame[..3] == ":Z1" && AllDigits(frame[3..6])
  }

  /** What a frame does to the motion state: accepted iff all three digits scan,
      and then each digit 0..3 sets its field while any other digit keeps it. */
  function ParseMotion(frame: string, m: Motion): (r: (bool, Motion))
    ensures !r.0 ==> r.1 == m
  {
    var sc := Scan(MotionFormat, frame);
    if sc.ret == 3 then
      (true, Motion(MotorsOfDigit(IntOf(sc.items[0]), m.motors),
                    TrackOfDigit(IntOf(sc.items[1]), m.track),
                    SlewOfDigit(IntOf(sc.items[2]), m.slew)))
    else (false, m)
  }

  /** In a frame of that shape each digit 0..3 names its field's value and 4..9 keep the field. */
  lemma ParseMotionFields(frame: string, m: Motion)
    requires MotionShaped(frame)
    ensures ParseMotion(frame, m) == (true, Motion(
      MotorsOfDigit(DigitValue(frame[3]), m.motors),
      TrackOfDigit(DigitValue(frame[4]), m.track),
      SlewOfDigit(DigitValue(frame[5]), m.slew)))
  {
    var d := frame[3..6];
    ScanLitsDigits(":Z1", 3, frame);
    DigitItemsAt(d, 0);
    DigitItemsAt(d, 1);
    DigitItemsAt(d, 2);
    assert d[0] == frame[3] && d[1] == frame[4] && d[2] == frame[5];
  }

  /** Without white space, a frame is a motion frame iff it has that shape. */
  lemma ParseMotionAccepts(frame: string, m: Motion)
    requires NoSpace(frame)
    ensures ParseMotion(frame, m).0 <==> MotionShaped(frame)
  {
    if MotionShaped(frame) {
      ParseMotionFields(frame, m);
    } else {
      ScanLitsDigitsShort(":Z1", 3, frame);
    }
  }

  /** A frame that does not start with `:Z1` is never a motion frame and changes nothing. */
  lemma ParseMotionNeedsPrefix(frame: string, m: Motion)
    requires |frame| < 3 || frame[..3] != ":Z1"
    ensures ParseMotion(frame, m) == (false, m)
  {
    ScanLitsMismatch(":Z1", Digits(3), frame, []);
  }

  /** The digit mapping: 0..3 name OFF/DEC_ONLY/RA_ONLY/ON, NONE/LUNAR/SOLAR/SIDEREAL and
      GUIDE/CENTERING/FIND/MAX in that order; any other value leaves the field as it was. */
  lemma DigitMapping(d: int, m: Motion)
    ensures 0 <= d < 4 ==> MotorsOfDigit(d, m.motors) == [MotorsOff, MotorsDecOnly, MotorsRaOnly, MotorsOn][d]
    ensures 0 <= d < 4 ==> TrackOfDigit(d, m.track) == [TrackNone, TrackLunar, TrackSolar, TrackSidereal][d]
    ensures 0 <= d < 4 ==> SlewOfDigit(d, m.slew) == [SlewGuide, SlewCentering, SlewFind, SlewMax][d]
    ensures !(0 <= d < 4) ==>
      MotorsOfDigit(d, m.motors) == m.motors && TrackOfDigit(d, m.track) == m.track && SlewOfDigit(d, m.slew) == m.slew
  {
  }

  /** A frame reporting motion state `m`, as the mount pushes it (without the `#`). */
  function MotionFrame(m: Motion): (f: string)
    ensures MotionShaped(f)
  {
    ":Z1" + [DigitChar(MotorsDigit(m.motors)), DigitChar(TrackDigit(m.track)), DigitChar(SlewDigit(m.slew))]
  }

  /** The frame the mount pushes for a motion state sets exactly that state, whatever the
      state was before and whatever follows the frame. */
  lemma MotionFrameRoundTrip(m: Motion, m0: Motion, rest: string)
    ensures ParseMotion(MotionFrame(m) + rest, m0) == (true, m)
  {
    var f := MotionFrame(m) + rest;
    assert f[..6] == MotionFrame(m);
    assert f[..3] == ":Z1" && f[3..6] == MotionFrame(m)[3..6];
    ParseMotionFields(f, m0);
  }

  /** Applying the same frame twice leaves the state the first application made. */
  lemma ParseMotionIdempotent(frame: string, m: Motion)
    ensures var r := ParseMotion(frame, m); ParseMotion(frame, r.1) == r
  {
  }

  /** `%1d` skips white space, so blanks between `:Z1` and the digits change nothing. */
  lemma ParseMotionPadded(k: nat, rest: string, m: Motion)
    ensures ParseMotion(":Z1" + Repeat(' ', k) + rest, m) == ParseMotion(":Z1" + rest, m)
  {
    var padded := ":Z1" + Repeat(' ', k) + rest;
    var plain := ":Z1" + rest;
    assert padded[..3] == ":Z1" && padded[3..] == Repeat(' ', k) + rest;
    assert plain[..3] == ":Z1" && plain[3..] == rest;
    ScanLits(":Z1", Digits(3), padded, []);
    ScanLits(":Z1", Digits(3), plain, []);
    SkipPadding(k, rest);
    assert Digits(3) == Then(Digit1, Digits(2));
  }

  // ---------------------------------------------------------------------------
  // Reply decoders

  /** `sscanf(response, "m%01d%01d", &x, &y)` in queryIsSlewComplete. */
  const SlewFormat: Format := Lits("m", Digits(2))

  /** queryIsSlewComplete as written: false when `sscanf` returns 0 or EOF, otherwise
      `x < 2 && y < 2`; when only `x` was scanned, `y` is the uninitialised local,
      passed here as `staleY`, and it is read only when `x < 2`. */
  function SlewCompleteAsWritten(reply: string, staleY: int): bool
  {
    var sc := Scan(SlewFormat, reply);
    if sc.ret <= 0 then false
    else
      var x := IntOf(sc.items[0]);
      var y := if sc.ret >= 2 then IntOf(sc.items[1]) else staleY;
      x < 2 && y < 2
  }

  /** The slew-complete test with both motor digits required: complete iff the reply
      is `m` and two motor phases each 0 (stopped) or 1 (back to tracking). */
  function SlewComplete(reply: string): bool
  {
    var sc := Scan(SlewFormat, reply);
    sc.ret == 2 && IntOf(sc.items[0]) < 2 && IntOf(sc.items[1]) < 2
  }

  lemma SlewCompleteIff(reply: string)
    requires NoSpace(reply)
    ensures SlewComplete(reply) <==>
      |reply| >= 3 && reply[0] == 'm' && reply[1] in "01" && reply[2] in "01"
  {
    if |reply| >= 3 && reply[..1] == "m" && AllDigits(reply[1..3]) {
      var d := reply[1..3];
      assert d[0] == reply[1] && d[1] == reply[2];
      ScanLitsDigits("m", 2, reply);
      DigitItemsAt(d, 0);
      DigitItemsAt(d, 1);
      MotorDigit(reply[1]);
      MotorDigit(reply[2]);
    } else {
      ScanLitsDigitsShort("m", 2, reply);
      assert !(|reply| >= 3 && reply[0] == 'm' && reply[1] in "01" && reply[2] in "01") by {
        if |reply| >= 3 && reply[0] == 'm' && reply[1] in "01" && reply[2] in "01" {
          assert reply[..1] == "m" && AllDigits(reply[1..3]);
        }
      }
    }
  }

  /** A digit is below 2 exactly when it is `0` or `1`. */
  lemma MotorDigit(c: char)
    requires IsDigit(c)
    ensures DigitValue(c) < 2 <==> c in "01"
  {
  }

  /** Both decoders agree on every reply that carries both digits, and on every reply
      whose first digit already rules the slew out. */
  lemma SlewCompleteAgrees(reply: string, staleY: int)
    requires Scan(SlewFormat, reply).ret != 1 || IntOf(Scan(SlewFormat, reply).items[0]) >= 2
    ensures SlewCompleteAsWritten(reply, staleY) == SlewComplete(reply)
  {
    ScanBound(SlewFormat, reply, []);
    LitsAssigns("m", Digits(2));
    assert Assigns(Digits(2)) == 2;
  }

  lemma SlewCompleteExamples()
    ensures SlewComplete("m00") && SlewComplete("m10") && !SlewComplete("m25")
  {
    SlewCompleteIff("m00");
    SlewCompleteIff("m10");
    SlewCompleteIff("m25");
  }

  /** Replies without both digits never report a finished slew. */
  lemma SlewCompleteRejects()
    ensures !SlewComplete("m") && !SlewComplete("") && !SlewComplete("m0") && !SlewComplete("x00")
  {
    SlewCompleteIff("m");
    SlewCompleteIff("");
    SlewCompleteIff("m0");
    SlewCompleteIff("x00");
  }

  /** The reply `m0` makes the as-written test depend on the uninitialised `y`. */
  lemma SlewCompleteStaleRead()
    ensures SlewCompleteAsWritten("m0", 0) && !SlewCompleteAsWritten("m0", 5)
  {
    ScanLits("m", Digits(2), "m0", []);
    assert "m0"[1..] == "0" && SkipSpace("0") == "0" && SkipSpace("") == "";
  }

  /** `sscanf(response, "p%01d", &answer)` in queryParkSync. */
  const ParkFormat: Format := Lits("p", Digits(1))

  /** queryParkSync's decoding: `!sscanf(...)` catches only a return of 0, so an empty
      reply (EOF) proceeds with the initial answer 0; answers 0, 1 and 2 set
      (parked, synced), and any other digit leaves both outputs as they were. */
  function ParkSync(reply: string, parked0: bool, synced0: bool): Option<(bool, bool)>
  {
    var sc := Scan(ParkFormat, reply);
    if sc.ret == 0 then None
    else
      var answer := if sc.ret == 1 then IntOf(sc.items[0]) else 0;
      if answer == 0 then Some((false, false))
      else if answer == 1 then Some((false, true))
      else if answer == 2 then Some((true, true))
      else Some((parked0, synced0))
  }

  /** `p` and a digit: 0 unparked, 1 at home (synced), 2 parked; other digits keep
      the outputs. */
  lemma ParkSyncDigit(d: nat, parked0: bool, synced0: bool)
    requires d < 10
    ensures ParkSync(['p', DigitChar(d)], parked0, synced0) == Some(
      if d == 0 then (false, false) else if d == 1 then (false, true)
      else if d == 2 then (true, true) else (parked0, synced0))
  {
    var r := ['p', DigitChar(d)];
    assert r[..1] == "p" && r[1..2] == [DigitChar(d)];
    ScanLitsDigits("p", 1, r);
    DigitItemsAt(r[1..2], 0);
  }

  /** Without white space, the decoder fails exactly on a reply that is not `p` and a
      digit, except that an empty reply or a bare `p` (EOF) counts as answer 0. */
  lemma ParkSyncFails(reply: string, parked0: bool, synced0: bool)
    requires NoSpace(reply)
    ensures ParkSync(reply, parked0, synced0).None? <==>
      reply != [] && (reply[0] != 'p' || (|reply| > 1 && !IsDigit(reply[1])))
    ensures reply == [] || reply == "p" ==> ParkSync(reply, parked0, synced0) == Some((false, false))
  {
    assert |reply| >= 2 ==> (reply[..1] == "p" <==> reply[0] == 'p') && (AllDigits(reply[1..2]) <==> IsDigit(reply[1]));
    if |reply| >= 2 && reply[..1] == "p" && AllDigits(reply[1..2]) {
      ScanLitsDigits("p", 1, reply);
    } else {
      ScanLitsDigitsShort("p", 1, reply);
    }
  }

  /** A parked mount is always reported as synced, provided the caller's outputs were
      consistent to begin with. */
  lemma ParkSyncParkedIsSynced(reply: string, parked0: bool, synced0: bool)
    requires parked0 ==> synced0
    ensures ParkSync(reply, parked0, synced0).Some? ==>
      ParkSync(reply, parked0, synced0).value.0 ==> ParkSync(reply, parked0, synced0).value.1
  {
  }

  /** The ST4 and meridian-flip status replies `v<letter><digit>`: None when `sscanf`
      returns 0; otherwise enabled iff the answer (still 0 after EOF) equals `onValue`. */
  function StatusFlag(letter: char, reply: string, onValue: int): Option<bool>
  {
    var sc := Scan(Lits(['v', letter], Digits(1)), reply);
    if sc.ret == 0 then None
    else Some((if sc.ret == 1 then IntOf(sc.items[0]) else 0) == onValue)
  }

  /** queryGetST4Status: `vh1` is enabled. */
  function ST4Status(reply: string): Option<bool> { StatusFlag('h', reply, 1) }

  /** queryGetMeridianFlipEnabledStatus: `vs0` is enabled. */
  function FlipEnabledStatus(reply: string): Option<bool> { StatusFlag('s', reply, 0) }

  /** queryGetMeridianFlipForcedStatus: `vd1` is forced. */
  function FlipForcedStatus(reply: string): Option<bool> { StatusFlag('d', reply, 1) }

  /** A well-formed reply is enabled exactly when its digit is the one that means enabled. */
  lemma StatusFlagDigit(letter: char, d: nat, onValue: int)
    requires d < 10
    ensures StatusFlag(letter, ['v', letter, DigitChar(d)], onValue) == Some(d == onValue)
  {
    var r := ['v', letter, DigitChar(d)];
    assert r[..2] == ['v', letter] && r[2..3] == [DigitChar(d)];
    ScanLitsDigits(['v', letter], 1, r);
    DigitItemsAt(r[2..3], 0);
  }

  /** Without white space: a failure exactly when the reply is neither `v`, the letter
      and a digit, nor a beginning of `v` and the letter; such a truncated reply
      (EOF) reads as the answer 0. */
  lemma StatusFlagFails(letter: char, reply: string, onValue: int)
    requires NoSpace(reply)
    ensures StatusFlag(letter, reply, onValue).None? <==>
      !(|reply| >= 3 && reply[..2] == ['v', letter] && IsDigit(reply[2])) &&
      !(|reply| <= 2 && reply == ['v', letter][..|reply|])
    ensures |reply| <= 2 && reply == ['v', letter][..|reply|] ==>
      StatusFlag(letter, reply, onValue) == Some(0 == onValue)
  {
    var p := ['v', letter];
    assert |reply| >= 3 ==> reply[2..3] == [reply[2]];
    if |reply| >= 3 && reply[..2] == p && AllDigits(reply[2..3]) {
      ScanLitsDigits(p, 1, reply);
    } else {
      ScanLitsDigitsShort(p, 1, reply);
    }
  }

  datatype PierSide = PierUnknown | PierWest | PierEast

  /** The pier-side letter switch: `X`, `W` and `E`; any other letter keeps `current`. */
  function PierOfLetter(c: char, current: PierSide): PierSide
  {
    if c == 'X' then PierUnknown else if c == 'W' then PierWest
    else if c == 'E' then PierEast else current
  }

  /** `sscanf(response, "P%c", &answer)` in syncSideOfPier. */
  const PierFormat: Format := Lits("P", Then(Chr, End))

  /** syncSideOfPier as written: `!sscanf(...)` catches a return of 0 only; on EOF (a
      reply of "" or "P") the switch reads the uninitialised `answer`, passed here as
      `staleAnswer`. */
  function PierReplyAsWritten(reply: string, staleAnswer: char, current: PierSide): Option<PierSide>
  {
    var sc := Scan(PierFormat, reply);
    if sc.ret == 0 then None
    else
      var answer := if sc.ret == 1 && sc.items[0].CharItem? then sc.items[0].c else staleAnswer;
      Some(PierOfLetter(answer, current))
  }

  /** syncSideOfPier with the letter required: the reply must be `P` and one more character. */
  function PierReply(reply: string, current: PierSide): Option<PierSide>
  {
    var sc := Scan(PierFormat, reply);
    if sc.ret == 1 && sc.items[0].CharItem? then Some(PierOfLetter(sc.items[0].c, current)) else None
  }

  lemma PierScan(reply: string)
    ensures var sc := Scan(PierFormat, reply);
      if |reply| >= 2 && reply[0] == 'P' then sc == Scanned(1, [CharItem(reply[1])])
      else if reply == [] || reply == "P" then sc.ret == -1
      else sc.ret == 0
  {
    if reply != [] && reply[0] == 'P' {
      ScanLits("P", Then(Chr, End), reply, []);
      if |reply| >= 2 {
        ScanChr(End, reply[1..], []);
      } else {
        assert reply == "P";
      }
    } else {
      ScanLitsMismatch("P", Then(Chr, End), reply, []);
    }
  }

  /** A reply of `P` and a letter decodes the letter; every other reply is a failure. */
  lemma PierReplyDecodes(reply: string, current: PierSide)
    ensures PierReply(reply, current).Some? <==> |reply| >= 2 && reply[0] == 'P'
    ensures PierReply(reply, current).Some? ==>
      PierReply(reply, current).value == PierOfLetter(reply[1], current)
  {
    PierScan(reply);
  }

  lemma PierReplyExamples(current: PierSide)
    ensures PierReply("PX", current) == Some(PierUnknown)
    ensures PierReply("PW", current) == Some(PierWest)
    ensures PierReply("PE", current) == Some(PierEast)
    ensures PierReply("PQ", current) == Some(current)
    ensures PierReply("P", current) == None && PierReply("", current) == None
  {
    PierReplyDecodes("PX", current);
    PierReplyDecodes("PW", current);
    PierReplyDecodes("PE", current);
    PierReplyDecodes("PQ", current);
    PierReplyDecodes("P", current);
    PierReplyDecodes("", current);
  }

  /** Both agree except on the two EOF replies, where the as-written switch reads the
      stale byte. */
  lemma PierReplyAgrees(reply: string, staleAnswer: char, current: PierSide)
    requires reply != [] && reply != "P"
    ensures PierReplyAsWritten(reply, staleAnswer, current) == PierReply(reply, current)
  {
    PierScan(reply);
  }

  /** With the reply "P" the as-written switch reports whatever the stale byte names. */
  lemma PierReplyStaleRead()
    ensures PierReplyAsWritten("P", 'W', PierEast) == Some(PierWest)
    ensures PierReplyAsWritten("P", '?', PierEast) == Some(PierEast)
    ensures PierReplyAsWritten("", 'X', PierEast) == Some(PierUnknown)
  {
    PierScan("P");
    PierScan("");
  }

  // ---------------------------------------------------------------------------
  // Local date

  /** `%02d`. */
  function Pad2(v: int): string { FormatInt(v, 2, true, false) }

  /** `MM/DD/YY` as the mount writes it and as `:SC` carries it. */
  function DateText(mm: int, dd: int, yy: int): string
  {
    Pad2(mm) + ("/" + (Pad2(dd) + ("/" + Pad2(yy))))
  }

  /** `sscanf(response, "%d%*c%d%*c%d", &mm, &dd, &yy)` in getLocalDate. */
  const DateFormat: Format := Then(Int, Then(SkipChr, Then(Int, Then(SkipChr, Then(Int, End)))))

  /** The century getLocalDate puts in front of a two-digit year: `19` above 50, `20`
      otherwise (so the year 50 becomes 2050). */
  function Century(yy: int): (c: string)
    ensures |c| == 2 && c[0] in "12"
    ensures yy > 50 <==> c == "19"
  {
    if yy > 50 then "19" else "20"
  }

  /** getLocalDate: None when fewer than three numbers scan, otherwise the date as
      `%s%02d-%02d-%02d` of the century, year, month and day, cut to the 32-byte buffer. */
  function LocalDate(reply: string): Option<string>
  {
    var sc := Scan(DateFormat, reply);
    if sc.ret < 3 then None
    else
      var mm, dd, yy := IntOf(sc.items[0]), IntOf(sc.items[1]), IntOf(sc.items[2]);
      Some(Snprintf(Century(yy) + Pad2(yy) + "-" + Pad2(mm) + "-" + Pad2(dd), 32))
  }

  /** A reply written as `MM/DD/YY` scans back to its three numbers, negative or not. */
  lemma DateTextScans(mm: int, dd: int, yy: int)
    ensures Scan(DateFormat, DateText(mm, dd, yy)) == Scanned(3, [IntItem(mm), IntItem(dd), IntItem(yy)])
  {
    var r2 := "/" + Pad2(yy);
    var r1 := "/" + (Pad2(dd) + r2);
    ReadFormatInt(mm, 2, true, false, r1);
    assert r1[1..] == Pad2(dd) + r2;
    ReadFormatInt(dd, 2, true, false, r2);
    assert r2[1..] == Pad2(yy) + [];
    ReadFormatInt(yy, 2, true, false, []);
    ScanThreeInts(DateText(mm, dd, yy), mm, dd, yy, r1, r2);
  }

  /** `%02d` of a number below 100 is two digits. */
  lemma Pad2Small(v: int)
    requires 0 <= v < 100
    ensures |Pad2(v)| == 2 && AllDigits(Pad2(v))
  {
    FormatIntShape(v, 2, true, false);
    if v >= 10 {
      assert v / 10 < 10;
    }
  }

  /** A `MM/DD/YY` reply of two-digit numbers becomes the ten characters `YYYY-MM-DD`:
      the century chosen by the year, then year, month and day, each as `%02d`; nothing
      is cut off. */
  lemma LocalDateIso(mm: int, dd: int, yy: int)
    requires 0 <= mm < 100 && 0 <= dd < 100 && 0 <= yy < 100
    ensures LocalDate(DateText(mm, dd, yy)) == Some(Century(yy) + Pad2(yy) + "-" + Pad2(mm) + "-" + Pad2(dd))
    ensures |Century(yy) + Pad2(yy) + "-" + Pad2(mm) + "-" + Pad2(dd)| == 10
  {
    DateTextScans(mm, dd, yy);
    Pad2Small(mm);
    Pad2Small(dd);
    Pad2Small(yy);
  }

  /** Replies with fewer than three numbers give no date. */
  lemma LocalDateRejects(mm: int, dd: int)
    ensures LocalDate("") == None
    ensures LocalDate(Pad2(mm) + ("/" + Pad2(dd))) == None
  {
    assert Scan(DateFormat, "").ret == -1;
    var r1 := "/" + Pad2(dd);
    ReadFormatInt(mm, 2, true, false, r1);
    assert r1[1..] == Pad2(dd) + [];
    ReadFormatInt(dd, 2, true, false, []);
    ScanTwoOfThreeInts(Pad2(mm) + r1, mm, dd, r1);
    assert Scan(DateFormat, Pad2(mm) + r1).ret == 2;
  }

  /** `:SC MM/DD/YY#`, sent by setLocalDate with the year taken modulo 100. */
  function LocalDateCommand(days: nat, months: nat, years: nat): string
  {
    Snprintf(":SC " + DateText(months, days, years % 100) + "#", 64)
  }

  /** setLocalDate fails on a reply that starts with `0`. */
  function LocalDateAccepted(response: string): (ok: bool)
    ensures ok <==> !(|response| > 0 && response[0] == '0')
  {
    response == [] || response[0] != '0'
  }

  /** For day and month below 100 the `:SC` command carries the date getLocalDate reads
      back: the date text between `:SC ` and `#` decodes to the year modulo 100, the
      month and the day. */
  lemma LocalDateRoundTrip(days: nat, months: nat, years: nat)
    requires days < 100 && months < 100
    ensures var cmd := LocalDateCommand(days, months, years);
      |cmd| == 13 && cmd[..4] == ":SC " && cmd[12] == '#'
      && LocalDate(cmd[4..12]) == Some(Century(years % 100) + Pad2(years % 100) + "-" + Pad2(months) + "-" + Pad2(days))
  {
    var yy := years % 100;
    Pad2Small(months);
    Pad2Small(days);
    Pad2Small(yy);
    var text := ":SC " + DateText(months, days, yy) + "#";
    assert |text| == 13;
    assert text[4..12] == DateText(months, days, yy);
    LocalDateIso(months, days, yy);
  }

  // ---------------------------------------------------------------------------
  // Commands

  /** The LX200 direction codes of SendPulseCmd (NORTH, WEST, EAST, SOUTH = 0..3) and
      the letter each puts in `:Mg<letter>`. */
  function PulseLetter(direction: int): Option<char>
  {
    if direction == 0 then Some('n') else if direction == 1 then Some('w')
    else if direction == 2 then Some('e') else if direction == 3 then Some('s') else None
  }

  /** SendPulseCmd: `:Mg<letter>%04d#`; `%d` reads the unsigned 32-bit duration as a
      signed int. An unknown direction sends nothing. */
  function PulseCommand(direction: int, duration: nat): Option<string>
    requires duration < 0x1_0000_0000
  {
    match PulseLetter(direction)
    case None => None
    case Some(c) => Some(":Mg" + [c] + FormatInt(AsSigned32(duration), 4, true, false) + "#")
  }

  /** A pulse command exists exactly for the four directions; it carries the direction's
      letter and a number that `%d` reads back as the duration (as a signed 32-bit value),
      and for pulses under ten seconds it is nine characters long. */
  lemma PulseCommandDecodes(direction: int, duration: nat)
    requires duration < 0x1_0000_0000
    ensures PulseCommand(direction, duration).Some? <==> 0 <= direction < 4
    ensures PulseCommand(direction, duration).Some? ==>
      var cmd := PulseCommand(direction, duration).value;
      |cmd| >= 9 && cmd[..3] == ":Mg" && Some(cmd[3]) == PulseLetter(direction)
      && ReadInt(SkipSpace(cmd[4..])) == Some((AsSigned32(duration), "#"))
      && (duration < 10000 ==> |cmd| == 9)
  {
    if 0 <= direction < 4 {
      var c := PulseLetter(direction).value;
      var num := FormatInt(AsSigned32(duration), 4, true, false);
      var cmd := ":Mg" + [c] + num + "#";
      assert cmd[..3] == ":Mg" && cmd[3] == c;
      assert cmd[4..] == num + "#";
      ReadFormatInt(AsSigned32(duration), 4, true, false, "#");
      FormatIntShape(AsSigned32(duration), 4, true, false);
      if duration < 10000 {
        assert AsSigned32(duration) == duration;
        DecimalBelow(duration, 4);
      }
    }
  }

  /** Different pulses give different commands. */
  lemma PulseCommandInjective(d1: int, t1: nat, d2: int, t2: nat)
    requires t1 < 0x1_0000_0000 && t2 < 0x1_0000_0000
    requires PulseCommand(d1, t1).Some? && PulseCommand(d1, t1) == PulseCommand(d2, t2)
    ensures d1 == d2 && t1 == t2
  {
    PulseCommandDecodes(d1, t1);
    PulseCommandDecodes(d2, t2);
    assert AsUnsigned32(AsSigned32(t1)) == t1 && AsUnsigned32(AsSigned32(t2)) == t2;
  }

  /** setSlewMode: the LX200 slew codes MAX, FIND, CENTER, GUIDE = 0..3 select
      `:RS#`, `:RM#`, `:RC#` and `:RG#`; any other code sends nothing. */
  function SlewModeCommand(mode: int): Option<string>
  {
    if mode == 0 then Some(":RS#") else if mode == 1 then Some(":RM#")
    else if mode == 2 then Some(":RC#") else if mode == 3 then Some(":RG#") else None
  }

  /** SetSlewRate converts the switch index (GUIDE, CENTERING, FIND, MAX = 0..3, the
      order of the motion frame's slew digit) into the LX200 code by `3 - index`. */
  function SlewRateCommand(index: int): Option<string>
  {
    SlewModeCommand(3 - index)
  }

  /** Every slew rate selects its own command, and only the four indexes select one. */
  lemma SlewRateCommands(index: int)
    ensures SlewRateCommand(index).Some? <==> 0 <= index < 4
    ensures SlewRateCommand(SlewDigit(SlewGuide)) == Some(":RG#")
    ensures SlewRateCommand(SlewDigit(SlewCentering)) == Some(":RC#")
    ensures SlewRateCommand(SlewDigit(SlewFind)) == Some(":RM#")
    ensures SlewRateCommand(SlewDigit(SlewMax)) == Some(":RS#")
    ensures forall r1: SlewRate, r2: SlewRate :: SlewRateCommand(SlewDigit(r1)) == SlewRateCommand(SlewDigit(r2)) ==> r1 == r2
  {
  }

  /** The tracking-mode codes SetTrackMode receives: the switch index of the mode
      (SIDEREAL, SOLAR, LUNAR, NONE = 0..3). */
  function TrackModeCode(t: TrackMode): nat
  {
    match t
    case TrackSidereal => 0 case TrackSolar => 1 case TrackLunar => 2 case TrackNone => 3
  }

  /** SetTrackMode: `:TQ#`, `:TS#`, `:TL#` or `:TM#`; any other code sends nothing. */
  function TrackModeCommand(mode: int): Option<string>
  {
    if mode == 0 then Some(":TQ#") else if mode == 1 then Some(":TS#")
    else if mode == 2 then Some(":TL#") else if mode == 3 then Some(":TM#") else None
  }

  /** Every tracking mode selects its own `:T` command, and only the four codes do. */
  lemma TrackModeCommands(mode: int)
    ensures TrackModeCommand(mode).Some? <==> 0 <= mode < 4
    ensures forall t :: (TrackModeCommand(TrackModeCode(t)).Some?
      && TrackModeCommand(TrackModeCode(t)).value[..2] == ":T")
    ensures forall t1, t2 :: TrackModeCommand(TrackModeCode(t1)) == TrackModeCommand(TrackModeCode(t2)) ==> t1 == t2
  {
  }

  /** setGuidingSpeeds: `:X20%2d#` sets the RA guiding speed and `:X21%2d#` the DEC one. */
  function GuidingSpeedCommand(axis: char, speed: int): string
  {
    ":X2" + [axis] + FormatInt(speed, 2, false, false) + "#"
  }

  /** A guiding-speed command names its axis and carries a number that `%d` reads back
      as the speed; a percentage below 100 takes exactly two characters, the ones below
      10 padded with a space. */
  lemma GuidingSpeedCommandDecodes(axis: char, speed: int)
    ensures var cmd := GuidingSpeedCommand(axis, speed);
      |cmd| >= 7 && cmd[..3] == ":X2" && cmd[3] == axis && cmd[|cmd| - 1] == '#'
      && ReadInt(SkipSpace(cmd[4..])) == Some((speed, "#"))
      && (0 <= speed < 100 ==> |cmd| == 7)
      && (0 <= speed < 10 ==> cmd[4] == ' ')
  {
    var num := FormatInt(speed, 2, false, false);
    var cmd := ":X2" + [axis] + num + "#";
    assert cmd[..3] == ":X2" && cmd[3] == axis;
    assert cmd[4..] == num + "#";
    ReadFormatInt(speed, 2, false, false, "#");
    FormatIntShape(speed, 2, false, false);
    if 0 <= speed < 100 {
      DecimalBelow(speed, 2);
    }
    if 0 <= speed < 10 {
      DecimalBelow(speed, 1);
      assert Fill(speed, 2, false) == 1;
    }
  }

  /** What `sscanf(text, "%d%*c%d%*c%d")` reads: three numbers, each of the first two
      followed by one separator character, and the text after the third. */
  function ReadTriple(t: string): Option<(int, int, int, string)>
  {
    match ReadInt(SkipSpace(t))
    case None => None
    case Some((a, r1)) =>
      if r1 == [] then None
      else match ReadInt(SkipSpace(r1[1..]))
        case None => None
        case Some((b, r2)) =>
          if r2 == [] then None
          else match ReadInt(SkipSpace(r2[1..]))
            case None => None
            case Some((c, r3)) => Some((a, b, c, r3))
  }

  /** Three numbers printed by `f1`, `f2`, `f3` with one separator after each of the first
      two read back as those numbers. */
  lemma ReadTripleFormatted(a: int, wa: nat, za: bool, pa: bool, sep1: char,
                            b: int, wb: nat, sep2: char, c: int, wc: nat, tail: string)
    requires !IsDigit(sep1) && !IsDigit(sep2) && (tail == [] || !IsDigit(tail[0]))
    ensures ReadTriple(FormatInt(a, wa, za, pa) + ([sep1] + (FormatInt(b, wb, true, false)
                       + ([sep2] + (FormatInt(c, wc, true, false) + tail)))))
      == Some((a, b, c, tail))
  {
    var t3 := FormatInt(c, wc, true, false) + tail;
    var t2 := FormatInt(b, wb, true, false) + ([sep2] + t3);
    ReadFormatInt(a, wa, za, pa, [sep1] + t2);
    assert ([sep1] + t2)[1..] == t2;
    ReadFormatInt(b, wb, true, false, [sep2] + t3);
    assert ([sep2] + t3)[1..] == t3;
    ReadFormatInt(c, wc, true, false, tail);
  }

  /** querySetSiteLatitude, from the degree, minute and second components:
      `:St%+03d*%02d:%02d#` in a 32-byte buffer. */
  function SiteLatitudeCommand(d: int, m: int, s: int): string
  {
    Snprintf(":St" + FormatInt(d, 3, true, true) + "*" + Pad2(m) + ":" + Pad2(s) + "#", 32)
  }

  /** A latitude command for a latitude under 100 degrees always carries its sign and
      is 13 characters long, and its numbers read back as the components. */
  lemma SiteLatitudeRoundTrip(d: int, m: int, s: int)
    requires -100 < d < 100 && 0 <= m < 100 && 0 <= s < 100
    ensures var cmd := SiteLatitudeCommand(d, m, s);
      |cmd| == 13 && cmd[..3] == ":St" && cmd[3] == (if d < 0 then '-' else '+')
      && cmd[6] == '*' && cmd[9] == ':'
      && ReadTriple(cmd[3..]) == Some((d, m, s, "#"))
  {
    DecimalBelow(Abs(d), 2);
    SignedDms(":St", d, 3, m, s);
  }

  /** The layout `<p>%+0<w>d*%02d:%02d#` with a degree field of its full width: its
      sign comes first and its numbers read back as the components. */
  lemma SignedDms(p: string, d: int, width: nat, m: int, s: int)
    requires |p| == 3 && width > 0 && 1 + |Decimal(Abs(d))| <= width && 0 <= m < 100 && 0 <= s < 100
    ensures var text := p + FormatInt(d, width, true, true) + "*" + Pad2(m) + ":" + Pad2(s) + "#";
      |text| == width + 10 && text[..3] == p && text[3] == (if d < 0 then '-' else '+')
      && text[3 + width] == '*' && text[6 + width] == ':'
      && ReadTriple(text[3..]) == Some((d, m, s, "#"))
  {
    var a := FormatInt(d, width, true, true);
    assert |a| == width && a[0] == (if d < 0 then '-' else '+') by {
      FormatWidth(d, width, true, true);
    }
    assert |Pad2(m)| == 2 && |Pad2(s)| == 2 by {
      Pad2Small(m);
      Pad2Small(s);
    }
    DmsFields(p, a, Pad2(m), Pad2(s));
    ReadTripleFormatted(d, width, true, true, '*', m, 2, ':', s, 2, "#");
  }

  /** querySetSiteLongitude, from the components: `:Sg+%03d*%02d:%02d#`, or
      `:Sg%04d*%02u:%02u#` when any component is negative, in a 32-byte buffer; `%u`
      prints a negative `int` as its unsigned 32-bit value. */
  function SiteLongitudeCommand(d: int, m: int, s: int): string
  {
    var text :=
      if d < 0 || m < 0 || s < 0 then
        ":Sg" + FormatInt(d, 4, true, false) + "*" + Pad2(AsUnsigned32(m)) + ":" + Pad2(AsUnsigned32(s)) + "#"
      else ":Sg" + ("+" + FormatInt(d, 3, true, false)) + "*" + Pad2(m) + ":" + Pad2(s) + "#";
    Snprintf(text, 32)
  }

  /** A longitude command for a longitude under 1000 degrees either way is 14
      characters long, its sign is `-` exactly for a negative longitude, and its
      numbers read back as the components. */
  lemma SiteLongitudeRoundTrip(d: int, m: int, s: int)
    requires -1000 < d < 1000 && 0 <= m < 100 && 0 <= s < 100
    ensures var cmd := SiteLongitudeCommand(d, m, s);
      |cmd| == 14 && cmd[..3] == ":Sg" && cmd[3] == (if d < 0 then '-' else '+')
      && cmd[7] == '*' && cmd[10] == ':'
      && ReadTriple(cmd[3..]) == Some((d, m, s, "#"))
  {
    DecimalBelow(Abs(d), 3);
    SignedDms(":Sg", d, 4, m, s);
    SiteLongitudeSigned(d, m, s);
  }

  /** Both branches of querySetSiteLongitude print the degrees as `%+04d` would. */
  lemma SiteLongitudeSigned(d: int, m: int, s: int)
    requires -1000 < d < 1000 && 0 <= m < 100 && 0 <= s < 100
    ensures SiteLongitudeCommand(d, m, s)
      == ":Sg" + FormatInt(d, 4, true, true) + "*" + Pad2(m) + ":" + Pad2(s) + "#"
  {
    var text := ":Sg" + FormatInt(d, 4, true, true) + "*" + Pad2(m) + ":" + Pad2(s) + "#";
    assert |text| == 14 by {
      DecimalBelow(Abs(d), 3);
      FormatWidth(d, 4, true, true);
      Pad2Small(m);
      Pad2Small(s);
    }
    if d < 0 {
      assert FormatInt(d, 4, true, true) == FormatInt(d, 4, true, false);
      assert AsUnsigned32(m) == m && AsUnsigned32(s) == s;
    } else {
      PlusPrefix(d, 3);
    }
  }

  /** A signed field of the width it is printed to. */
  lemma FormatWidth(v: int, width: nat, zeroPad: bool, plus: bool)
    requires |SignOf(v, plus)| + |Decimal(Abs(v))| <= width
    ensures |FormatInt(v, width, zeroPad, plus)| == width
    ensures zeroPad && SignOf(v, plus) != "" ==> FormatInt(v, width, zeroPad, plus)[0] == SignOf(v, plus)[0]
  {
  }

  /** `%+0<w+1>d` of a non-negative number is `+` before its `%0<w>d`. */
  lemma PlusPrefix(v: nat, width: nat)
    ensures "+" + FormatInt(v, width, true, false) == FormatInt(v, width + 1, true, true)
  {
    assert Fill(v, width, false) == Fill(v, width + 1, true);
  }

  /** The layout `<p><a>*<b>:<c>#` of a coordinate command. */
  lemma DmsFields(p: string, a: string, b: string, c: string)
    requires |p| == 3 && |b| == 2 && |c| == 2 && a != []
    ensures var text := p + a + "*" + b + ":" + c + "#";
      |text| == |a| + 10 && text[..3] == p && text[3] == a[0]
      && text[3 + |a|] == '*' && text[6 + |a|] == ':'
      && text[3..] == a + ("*" + (b + (":" + (c + "#"))))
  {
  }

  // ---------------------------------------------------------------------------
  // Coordinate format

  datatype CoordinateFormat = ShortFormat | LongFormat | LongerFormat

  /** checkLX200Format's test of an RA reply: at most five characters, or a `.` at
      index 5, is the low-precision format. */
  predicate ShortPrecision(r: string)
  {
    |r| <= 5 || r[5] == '.'
  }

  /** The format checkLX200Format settles on for the final RA reply. */
  function CoordinateFormatOf(r: string): (f: CoordinateFormat)
    ensures f == ShortFormat <==> ShortPrecision(r)
    ensures f == LongerFormat <==> !ShortPrecision(r) && |r| > 8 && r[8] == '.'
    ensures f == LongFormat <==> !ShortPrecision(r) && !(|r| > 8 && r[8] == '.')
  {
    if ShortPrecision(r) then ShortFormat
    else if |r| > 8 && r[8] == '.' then LongerFormat
    else LongFormat
  }

  /** The usual replies: `HH:MM.T`, `HH:MM:SS` and `HH:MM:SS.SS`. */
  lemma CoordinateFormatExamples()
    ensures CoordinateFormatOf("12:34.5") == ShortFormat
    ensures CoordinateFormatOf("12:34:56") == LongFormat
    ensures CoordinateFormatOf("12:34:56.78") == LongerFormat
    ensures CoordinateFormatOf("") == ShortFormat
  {
  }

  /** Every reply in the three shapes an RA reply takes, whatever its digits: `HH:MM.T`
      is low precision, `HH:MM:SS` high precision and `HH:MM:SS.F…` ultra-high
      precision. */
  lemma CoordinateFormatShapes(h: string, m: string, s: string, t: char, f: string)
    requires |h| == 2 && |m| == 2 && |s| == 2
    ensures CoordinateFormatOf(h + ":" + m + "." + [t]) == ShortFormat
    ensures CoordinateFormatOf(h + ":" + m + ":" + s) == LongFormat
    ensures CoordinateFormatOf(h + ":" + m + ":" + s + "." + f) == LongerFormat
  {
    var short := h + ":" + m + "." + [t];
    assert short[5] == '.';
    var long := h + ":" + m + ":" + s;
    assert |long| == 8 && long[5] == ':';
    var longer := long + "." + f;
    assert longer[5] == long[5] && longer[8] == '.';
  }

  // ---------------------------------------------------------------------------
  // Scope status

  datatype ScopeStatus = ScopeIdle | ScopeSlewing | ScopeTracking | ScopeParking | ScopeParked

  /** SetParked: PARKED when parked, otherwise TRACKING. */
  function ParkedStatus(isParked: bool): (s: ScopeStatus)
    ensures s == ScopeParked <==> isParked
    ensures s != ScopeParked ==> s == ScopeTracking
  {
    if isParked then ScopeParked else ScopeTracking
  }

  /** The motors switch of UpdateMotionStatus. */
  function MotorsStep(s: ScopeStatus, motors: MotorsState): ScopeStatus
  {
    if motors == MotorsOff then (if s == ScopeParking then ParkedStatus(true) else s)
    else if s != ScopeParking && s != ScopeSlewing then ScopeTracking
    else s
  }

  /** The tracking-mode switch of UpdateMotionStatus. */
  function TrackStep(s: ScopeStatus, motors: MotorsState, track: TrackMode): ScopeStatus
  {
    if s == ScopeParked || s == ScopeParking || s == ScopeSlewing then s
    else if track == TrackNone then ScopeIdle
    else if motors == MotorsOff then ScopeIdle
    else ScopeTracking
  }

  /** The status UpdateMotionStatus leaves after the two switches. */
  function UpdatedStatus(s: ScopeStatus, motors: MotorsState, track: TrackMode): ScopeStatus
  {
    TrackStep(MotorsStep(s, motors), motors, track)
  }

  /** UpdateMotionStatus, case by case: parking with the motors off completes the park;
      a slew or a park in progress is otherwise left alone; a parked mount stays parked
      while the motors are off; in every other case the mount is TRACKING exactly when
      a motor runs and a tracking mode is set, and IDLE otherwise. */
  lemma UpdatedStatusCases(s: ScopeStatus, motors: MotorsState, track: TrackMode)
    ensures s == ScopeParking && motors == MotorsOff ==> UpdatedStatus(s, motors, track) == ScopeParked
    ensures s == ScopeSlewing || (s == ScopeParking && motors != MotorsOff) ==> UpdatedStatus(s, motors, track) == s
    ensures s == ScopeParked && motors == MotorsOff ==> UpdatedStatus(s, motors, track) == ScopeParked
    ensures s != ScopeSlewing && s != ScopeParking && !(s == ScopeParked && motors == MotorsOff) ==>
      UpdatedStatus(s, motors, track) == (if motors != MotorsOff && track != TrackNone then ScopeTracking else ScopeIdle)
  {
  }

  /** What the next motion update makes of the status SetParked leaves: a parked mount
      stays parked while its motors are off, and otherwise the update settles on TRACKING
      when a motor runs and a tracking mode is set, and on IDLE when not. */
  lemma ParkThenUpdate(isParked: bool, motors: MotorsState, track: TrackMode)
    ensures UpdatedStatus(ParkedStatus(isParked), motors, track)
      == if isParked && motors == MotorsOff then ScopeParked
         else if motors != MotorsOff && track != TrackNone then ScopeTracking
         else ScopeIdle
  {
    UpdatedStatusCases(ParkedStatus(isParked), motors, track);
  }

  /** A second update with the same motion state changes nothing. */
  lemma UpdatedStatusIdempotent(s: ScopeStatus, motors: MotorsState, track: TrackMode)
    ensures UpdatedStatus(UpdatedStatus(s, motors, track), motors, track) == UpdatedStatus(s, motors, track)
  {
  }

  /** isIdle: true exactly when the tracking mode is SIDEREAL. */
  function IsIdle(track: TrackMode): bool { track == TrackSidereal }

  /** The state branch of ReadScopeStatus: a finished slew becomes IDLE when isIdle holds
      and TRACKING otherwise; a finished park becomes PARKED; nothing else changes. */
  function SlewDoneStatus(s: ScopeStatus, slewComplete: bool, track: TrackMode): (r: ScopeStatus)
    ensures !slewComplete || (s != ScopeSlewing && s != ScopeParking) ==> r == s
    ensures slewComplete && s == ScopeSlewing ==> (r == ScopeIdle <==> track == TrackSidereal)
    ensures slewComplete && s == ScopeSlewing ==> r in {ScopeIdle, ScopeTracking}
    ensures slewComplete && s == ScopeParking ==> r == ScopeParked
  {
    if s == ScopeSlewing then
      if slewComplete then (if IsIdle(track) then ScopeIdle else ScopeTracking) else s
    else if s == ScopeParking then
      if slewComplete then ParkedStatus(true) else s
    else s
  }
}
