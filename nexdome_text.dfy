/** The string helpers of the NexDome driver (class NexDome in
    indi-nexdome/nex_dome.cpp): the hex dump its debug log uses, the split of a reply
    into lines, and the three trims. */
module NexDomeText {

  newtype byte = b: int | 0 <= b < 256

  /** The characters `trim` removes when the caller names none: the white space of
      the C locale. */
  const TrimChars: string := "\t\n\U{0B}\U{0C}\r "

  // ---------------------------------------------------------------------------
  // hexDump

  /** An upper-case hexadecimal digit, as `%X` prints it. */
  function HexDigit(d: nat): (c: char)
    requires d < 16
    ensures '0' <= c <= '9' || 'A' <= c <= 'F'
  {
    if d < 10 then ('0' as int + d) as char else ('A' as int + d - 10) as char
  }

  /** The value of an upper-case hexadecimal digit, and -1 for any other character. */
  function HexValue(c: char): int
  {
    if '0' <= c <= '9' then c as int - '0' as int
    else if 'A' <= c <= 'F' then c as int - 'A' as int + 10
    else -1
  }

  /** `%02X` of one byte. */
  function Hex2(b: byte): (s: string)
    ensures |s| == 2
  {
    [HexDigit(b as int / 16), HexDigit(b as int % 16)]
  }

  /** The buffer hexDump fills before it cuts the final space: `%02X ` per byte. */
  function HexSpaced(data: seq<byte>): (s: string)
    ensures |s| == 3 * |data|
  {
    if data == [] then "" else HexSpaced(data[..|data| - 1]) + Hex2(data[|data| - 1]) + " "
  }

  /** The text hexDump leaves for a non-empty input: the bytes in hexadecimal, one
      space between two of them. */
  function HexText(data: seq<byte>): (s: string)
    requires |data| > 0
  {
    HexSpaced(data)[..3 * |data| - 1]
  }

  /** Byte `i` sits at characters 3i, 3i+1 and is followed by a space. */
  lemma {:induction false} HexSpacedAt(data: seq<byte>, i: nat)
    requires i < |data|
    ensures HexSpaced(data)[3 * i..3 * i + 3] == Hex2(data[i]) + " "
    decreases |data|
  {
    var init := data[..|data| - 1];
    assert HexSpaced(data) == HexSpaced(init) + Hex2(data[|data| - 1]) + " ";
    if i < |data| - 1 {
      HexSpacedAt(init, i);
      assert HexSpaced(data)[3 * i..3 * i + 3] == HexSpaced(init)[3 * i..3 * i + 3];
    }
  }

  /** The two digits of a byte read back as the byte. */
  lemma Hex2Decodes(b: byte)
    ensures 16 * HexValue(Hex2(b)[0]) + HexValue(Hex2(b)[1]) == b as int
  {
    var hi, lo := b as int / 16, b as int % 16;
    assert HexValue(HexDigit(hi)) == hi && HexValue(HexDigit(lo)) == lo;
  }

  /** Character `k` of the hex dump: a digit of byte k / 3, or the space after it. */
  lemma HexTextAt(data: seq<byte>, k: nat)
    requires k < 3 * |data| - 1
    ensures HexText(data)[k] == (Hex2(data[k / 3]) + " ")[k % 3]
  {
    var i := k / 3;
    HexSpacedAt(data, i);
    assert HexText(data)[k] == HexSpaced(data)[k];
    assert HexSpaced(data)[k] == HexSpaced(data)[3 * i..3 * i + 3][k - 3 * i];
  }

  /** The hex dump has 3n - 1 characters, none of them NUL; its pairs of digits read
      back as the bytes, and a space separates two pairs. */
  lemma HexTextDecodes(data: seq<byte>)
    requires |data| > 0
    ensures |HexText(data)| == 3 * |data| - 1
    ensures forall k :: 0 <= k < 3 * |data| - 1 ==> HexText(data)[k] != '\0'
    ensures forall i :: 0 <= i < |data| ==>
      16 * HexValue(HexText(data)[3 * i]) + HexValue(HexText(data)[3 * i + 1]) == data[i] as int
    ensures forall i :: 0 <= i < |data| - 1 ==> HexText(data)[3 * i + 2] == ' '
  {
    HexTextPairs(data);
    HexTextSpaces(data);
    HexTextNoNul(data);
  }

  lemma HexTextPairs(data: seq<byte>)
    requires |data| > 0
    ensures forall i :: 0 <= i < |data| ==>
      16 * HexValue(HexText(data)[3 * i]) + HexValue(HexText(data)[3 * i + 1]) == data[i] as int
  {
    forall i | 0 <= i < |data|
      ensures 16 * HexValue(HexText(data)[3 * i]) + HexValue(HexText(data)[3 * i + 1]) == data[i] as int
    {
      HexTextAt(data, 3 * i);
      HexTextAt(data, 3 * i + 1);
      Hex2Decodes(data[i]);
    }
  }

  lemma HexTextSpaces(data: seq<byte>)
    requires |data| > 0
    ensures forall i :: 0 <= i < |data| - 1 ==> HexText(data)[3 * i + 2] == ' '
  {
    forall i | 0 <= i < |data| - 1
      ensures HexText(data)[3 * i + 2] == ' '
    {
      HexTextAt(data, 3 * i + 2);
    }
  }

  lemma HexTextNoNul(data: seq<byte>)
    requires |data| > 0
    ensures forall k :: 0 <= k < 3 * |data| - 1 ==> HexText(data)[k] != '\0'
  {
    forall k | 0 <= k < 3 * |data| - 1
      ensures HexText(data)[k] != '\0'
    {
      HexTextAt(data, k);
    }
  }

  /** `sprintf(buf + at, "%02X ", b)`: two digits, a space and the closing NUL. */
  method PrintHexByte(buf: array<char>, at: nat, b: byte)
    requires at + 4 <= buf.Length
    modifies buf
    ensures buf[..at] == old(buf[..at])
    ensures buf[at..at + 4] == Hex2(b) + " \0"
    ensures forall k :: at + 4 <= k < buf.Length ==> buf[k] == old(buf[k])
  {
    var h := Hex2(b);
    buf[at], buf[at + 1], buf[at + 2], buf[at + 3] := h[0], h[1], ' ', '\0';
  }

  /** hexDump: `%02X ` for every byte, each `sprintf` also writing its NUL after the
      space; then, when there was a byte, the final space becomes NUL. The buffer must
      hold the last `sprintf`'s NUL. */
  method HexDump(buf: array<char>, data: seq<byte>)
    requires buf.Length > 3 * |data|
    modifies buf
    ensures |data| == 0 ==> buf[..] == old(buf[..])
    ensures |data| > 0 ==> buf[..3 * |data| + 1] == HexText(data) + "\0\0"
    ensures forall k :: 3 * |data| + 1 <= k < buf.Length ==> buf[k] == old(buf[k])
  {
    for i := 0 to |data|
      invariant buf[..3 * i] == HexSpaced(data[..i])
      invariant if i > 0 then buf[3 * i] == '\0' else buf[0] == old(buf[0])
      invariant forall k :: 3 * i + 1 <= k < buf.Length ==> buf[k] == old(buf[k])
    {
      ghost var done := buf[..3 * i];
      PrintHexByte(buf, 3 * i, data[i]);
      assert data[..i + 1][..i] == data[..i];
      assert buf[..3 * i + 3] == done + Hex2(data[i]) + " " by {
        assert buf[..3 * i + 3] == buf[..3 * i] + buf[3 * i..3 * i + 4][..3];
      }
    }
    assert data[..|data|] == data;
    if |data| > 0 {
      CutLastSpace(buf, data);
    }
  }

  /** The end of hexDump: the space after the last byte becomes NUL. */
  method CutLastSpace(buf: array<char>, data: seq<byte>)
    requires 0 < |data| && 3 * |data| < buf.Length
    requires buf[..3 * |data|] == HexSpaced(data) && buf[3 * |data|] == '\0'
    modifies buf
    ensures buf[..3 * |data| + 1] == HexText(data) + "\0\0"
    ensures forall k :: 3 * |data| + 1 <= k < buf.Length ==> buf[k] == old(buf[k])
  {
    var n := 3 * |data|;
    assert buf[..n - 1] == HexText(data);
    buf[n - 1] := '\0';
    assert buf[..n + 1] == buf[..n - 1] + "\0\0";
  }

  // ---------------------------------------------------------------------------
  // split

  /** The pieces of `s` between the `sep` characters: k separators give k + 1 pieces,
      empty ones included. */
  function Pieces(s: string, sep: char): (r: seq<string>)
    ensures |r| >= 1
  {
    if s == [] then [""]
    else if s[0] == sep then [""] + Pieces(s[1..], sep)
    else var p := Pieces(s[1..], sep); [[s[0]] + p[0]] + p[1..]
  }

  /** split(input, sep) with a one-character pattern, as a token iterator with
      submatch -1 yields: every piece before a separator, empty ones included, then
      the rest after the last separator only when it is not empty. */
  function Split(s: string, sep: char): seq<string>
  {
    var p := Pieces(s, sep);
    if |p| > 1 && p[|p| - 1] == "" then p[..|p| - 1] else p
  }

  /** The pieces with `sep` between them. */
  function Join(parts: seq<string>, sep: char): string
    requires |parts| >= 1
  {
    if |parts| == 1 then parts[0] else parts[0] + [sep] + Join(parts[1..], sep)
  }

  /** The pieces join back into `s`. */
  lemma {:induction false} PiecesJoin(s: string, sep: char)
    ensures Join(Pieces(s, sep), sep) == s
  {
    if s != [] {
      PiecesJoin(s[1..], sep);
      var q := Pieces(s[1..], sep);
      if s[0] == sep {
        JoinEmptyHead(q, sep);
      } else {
        JoinHead(s[0], q, sep);
      }
      assert s == [s[0]] + s[1..];
    }
  }

  /** An empty first part puts a separator before the rest. */
  lemma JoinEmptyHead(q: seq<string>, sep: char)
    requires |q| >= 1
    ensures Join([""] + q, sep) == [sep] + Join(q, sep)
  {
    var p := [""] + q;
    assert p[1..] == q;
  }

  /** A character before the first part comes first. */
  lemma JoinHead(c: char, q: seq<string>, sep: char)
    requires |q| >= 1
    ensures Join([[c] + q[0]] + q[1..], sep) == [c] + Join(q, sep)
  {
    var p := [[c] + q[0]] + q[1..];
    if |q| > 1 {
      assert p[1..] == q[1..];
    }
  }

  /** No piece holds the separator. */
  lemma {:induction false} PiecesNoSep(s: string, sep: char)
    ensures forall i :: 0 <= i < |Pieces(s, sep)| ==> sep !in Pieces(s, sep)[i]
  {
    if s != [] {
      PiecesNoSep(s[1..], sep);
    }
  }

  /** There is more than one piece exactly when `s` holds a separator, and the last is
      empty exactly when `s` is empty or ends with the separator. */
  lemma {:induction false} PiecesEnd(s: string, sep: char)
    ensures var p := Pieces(s, sep);
      (|p| > 1 <==> sep in s) && (p[|p| - 1] == "" <==> s == [] || s[|s| - 1] == sep)
  {
    if s != [] {
      PiecesEnd(s[1..], sep);
      var q := Pieces(s[1..], sep);
      var p := Pieces(s, sep);
      assert s == [s[0]] + s[1..];
      assert p[|p| - 1] == if s[0] == sep || |q| > 1 then q[|q| - 1] else [s[0]] + q[0];
      if s[1..] != [] {
        assert s[|s| - 1] == s[1..][|s[1..]| - 1];
      }
    }
  }

  /** Joining all but the last piece, then the separator and the last piece. */
  lemma {:induction false} JoinLast(parts: seq<string>, sep: char)
    requires |parts| >= 2
    ensures Join(parts, sep) == Join(parts[..|parts| - 1], sep) + [sep] + parts[|parts| - 1]
    decreases |parts|
  {
    if |parts| > 2 {
      JoinLast(parts[1..], sep);
      assert parts[1..][..|parts| - 2] == parts[..|parts| - 1][1..];
    }
  }

  /** split loses only a final separator: the lines, joined again, give the input
      less a trailing separator; no line holds one, and there is always a line. */
  lemma SplitJoin(s: string, sep: char)
    ensures var lines := Split(s, sep);
      |lines| >= 1
      && (forall i :: 0 <= i < |lines| ==> sep !in lines[i])
      && (if s != [] && s[|s| - 1] == sep then Join(lines, sep) + [sep] == s else Join(lines, sep) == s)
  {
    PiecesJoin(s, sep);
    PiecesNoSep(s, sep);
    PiecesEnd(s, sep);
    var p := Pieces(s, sep);
    if |p| > 1 && p[|p| - 1] == "" {
      JoinLast(p, sep);
    }
  }

  /** The lines of some replies. */
  lemma SplitExamples()
    ensures Split("", '\n') == [""]
    ensures Split("a\nb", '\n') == ["a", "b"]
    ensures Split("a\n", '\n') == ["a"]
    ensures Split("a\n\nb", '\n') == ["a", "", "b"]
  {
    assert "b"[1..] == "" && "\nb"[1..] == "b" && "a\nb"[1..] == "\nb";
    assert "\n"[1..] == "" && "a\n"[1..] == "\n" && "\n\nb"[1..] == "\nb" && "a\n\nb"[1..] == "\n\nb";
    assert Pieces("", '\n') == [""];
    assert ['b'] + "" == "b" && ['a'] + "" == "a";
    assert Pieces("b", '\n') == ["b"];
    assert Pieces("\nb", '\n') == ["", "b"];
    assert Pieces("a\nb", '\n') == ["a", "b"];
    assert Pieces("\n", '\n') == ["", ""];
    assert Pieces("a\n", '\n') == ["a", ""];
    assert Pieces("\n\nb", '\n') == ["", "", "b"];
    assert Pieces("a\n\nb", '\n') == ["a", "", "b"];
  }

  // ---------------------------------------------------------------------------
  // ltrim, rtrim, trim

  /** What ltrim leaves: `s` less its longest prefix of characters in `chars`. */
  function LStrip(s: string, chars: string): string
  {
    if s != [] && s[0] in chars then LStrip(s[1..], chars) else s
  }

  /** What rtrim leaves: `s` less its longest suffix of characters in `chars`. */
  function RStrip(s: string, chars: string): string
  {
    if s != [] && s[|s| - 1] in chars then RStrip(s[..|s| - 1], chars) else s
  }

  /** What trim leaves: rtrim, then ltrim. */
  function Stripped(s: string, chars: string): string
  {
    LStrip(RStrip(s, chars), chars)
  }

  /** ltrim removes a prefix made of `chars` and stops at a character outside them. */
  lemma {:induction false} LStripSpec(s: string, chars: string)
    ensures var r := LStrip(s, chars);
      |r| <= |s| && r == s[|s| - |r|..]
      && (r == [] || r[0] !in chars) && forall i :: 0 <= i < |s| - |r| ==> s[i] in chars
  {
    if s != [] && s[0] in chars {
      var t := s[1..];
      LStripSpec(t, chars);
      var r := LStrip(t, chars);
      forall i | 1 <= i < |s| - |r|
        ensures s[i] in chars
      {
        assert s[i] == t[i - 1];
      }
    }
  }

  /** rtrim removes a suffix made of `chars` and stops at a character outside them. */
  lemma {:induction false} RStripSpec(s: string, chars: string)
    ensures var r := RStrip(s, chars);
      |r| <= |s| && r == s[..|r|]
      && (r == [] || r[|r| - 1] !in chars) && forall i :: |r| <= i < |s| ==> s[i] in chars
  {
    if s != [] && s[|s| - 1] in chars {
      var t := s[..|s| - 1];
      RStripSpec(t, chars);
      var r := RStrip(t, chars);
      forall i | |r| <= i < |s| - 1
        ensures s[i] in chars
      {
        assert s[i] == t[i];
      }
    }
  }

  /** ltrim keeps the end of a string. */
  lemma LStripKeepsEnd(s: string, chars: string)
    requires LStrip(s, chars) != []
    ensures LStrip(s, chars)[|LStrip(s, chars)| - 1] == s[|s| - 1]
  {
    LStripSpec(s, chars);
  }

  /** trim leaves a string that neither starts nor ends with a character of `chars`. */
  lemma TrimEnds(s: string, chars: string)
    ensures var r := Stripped(s, chars); r == [] || (r[0] !in chars && r[|r| - 1] !in chars)
  {
    var m := RStrip(s, chars);
    RStripSpec(s, chars);
    LStripSpec(m, chars);
    if LStrip(m, chars) != [] {
      LStripKeepsEnd(m, chars);
    }
  }

  /** `r` is the piece of `s` at `a`, and what lies on either side of it is made of
      `chars`. */
  predicate CutFrom(s: string, r: string, a: nat, chars: string)
  {
    a + |r| <= |s| && r == s[a..a + |r|]
    && (forall i :: 0 <= i < a ==> s[i] in chars) && (forall i :: a + |r| <= i < |s| ==> s[i] in chars)
  }

  /** trim leaves a piece of the input, and what it cut off is made of `chars`. */
  lemma TrimPiece(s: string, chars: string) returns (a: nat)
    ensures CutFrom(s, Stripped(s, chars), a, chars)
  {
    var m := RStrip(s, chars);
    var r := LStrip(m, chars);
    RStripSpec(s, chars);
    LStripSpec(m, chars);
    a := |m| - |r|;
    assert r == s[a..a + |r|] by {
      assert r == m[a..] && m == s[..|m|];
    }
    forall i | 0 <= i < a
      ensures s[i] in chars
    {
      assert s[i] == m[i];
    }
  }

  /** rtrim of a string made only of `chars` leaves nothing. */
  lemma {:induction false} RStripAll(s: string, chars: string)
    requires forall i :: 0 <= i < |s| ==> s[i] in chars
    ensures RStrip(s, chars) == ""
  {
    if s != [] {
      RStripAll(s[..|s| - 1], chars);
    }
  }

  /** A string made only of `chars` trims to nothing. */
  lemma TrimAllChars(s: string, chars: string)
    requires forall i :: 0 <= i < |s| ==> s[i] in chars
    ensures Stripped(s, chars) == ""
  {
    RStripAll(s, chars);
  }

  /** Trimming twice is trimming once. */
  lemma TrimIdempotent(s: string, chars: string)
    ensures Stripped(Stripped(s, chars), chars) == Stripped(s, chars)
  {
    TrimEnds(s, chars);
  }

  /** ltrim: find the first character outside `chars` and erase what comes before it
      (everything when there is none). */
  method LTrim(str: string, chars: string) returns (r: string)
    ensures r == LStrip(str, chars)
  {
    var k := 0;
    while k < |str| && str[k] in chars
      invariant 0 <= k <= |str|
      invariant LStrip(str[k..], chars) == LStrip(str, chars)
    {
      assert str[k..][1..] == str[k + 1..];
      k := k + 1;
    }
    r := str[k..];
  }

  /** rtrim: find the last character outside `chars` and erase what comes after it
      (everything when there is none). */
  method RTrim(str: string, chars: string) returns (r: string)
    ensures r == RStrip(str, chars)
  {
    var k := |str|;
    assert str[..k] == str;
    while k > 0 && str[k - 1] in chars
      invariant 0 <= k <= |str|
      invariant RStrip(str[..k], chars) == RStrip(str, chars)
    {
      assert str[..k][..k - 1] == str[..k - 1];
      k := k - 1;
    }
    r := str[..k];
  }

  /** trim: ltrim of rtrim. */
  method Trim(str: string, chars: string) returns (r: string)
    ensures r == Stripped(str, chars)
  {
    r := RTrim(str, chars);
    r := LTrim(r, chars);
  }
}
