/** Decimal formatting and scanning as the C library's printf and sscanf families
    do them, restricted to the conversions the two drivers use: `%d` with a field
    width and the `0` and `+` flags, `%u` of a 32-bit int, and the `sscanf`
    directives literal character, `%1d`, `%d`, `%c` and `%*c`. Each driver module
    builds its command strings and decodes its replies through these definitions. */
module CText {

  datatype Option<T> = None | Some(value: T)

  predicate IsDigit(c: char) { '0' <= c <= '9' }

  /** The characters isspace() accepts in the C locale. */
  predicate IsSpace(c: char)
  {
    c == ' ' || c == '\t' || c == '\n' || c == '\U{0B}' || c == '\U{0C}' || c == '\r'
  }

  function DigitChar(d: nat): (c: char)
    requires d < 10
    ensures IsDigit(c) && c as int - '0' as int == d
  {
    ('0' as int + d) as char
  }

  function DigitValue(c: char): (d: nat)
    requires IsDigit(c)
    ensures d < 10 && DigitChar(d) == c
  {
    c as int - '0' as int
  }

  function Abs(v: int): nat { if v < 0 then -v else v }

  function Repeat(c: char, n: nat): (s: string)
    ensures |s| == n && forall i :: 0 <= i < n ==> s[i] == c
  {
    seq(n, _ => c)
  }

  predicate AllDigits(s: string) { forall i :: 0 <= i < |s| ==> IsDigit(s[i]) }

  /** The decimal numeral of `n`, without leading zeros. */
  function Decimal(n: nat): (s: string)
    ensures |s| >= 1 && AllDigits(s)
    ensures n < 10 <==> |s| == 1
    decreases n
  {
    if n < 10 then [DigitChar(n)] else Decimal(n / 10) + [DigitChar(n % 10)]
  }

  /** Ten to the power `k`. */
  function Pow10(k: nat): (p: nat)
    ensures p >= 1
  {
    if k == 0 then 1 else 10 * Pow10(k - 1)
  }

  /** A number below 10^k has at most k digits. */
  lemma {:induction false} DecimalBelow(n: nat, k: nat)
    requires k >= 1 && n < Pow10(k)
    ensures |Decimal(n)| <= k
  {
    if n >= 10 {
      assert k > 1;
      assert n / 10 < Pow10(k - 1);
      DecimalBelow(n / 10, k - 1);
    }
  }

  /** Reads the digits of `s` left to right into `acc`, as strtol does. */
  function Accumulate(acc: int, s: string): int
    requires AllDigits(s)
    decreases |s|
  {
    if s == [] then acc else Accumulate(acc * 10 + DigitValue(s[0]), s[1..])
  }

  lemma {:induction false} AccumulateAppend(acc: int, a: string, b: string)
    requires AllDigits(a) && AllDigits(b)
    ensures AllDigits(a + b)
    ensures Accumulate(acc, a + b) == Accumulate(Accumulate(acc, a), b)
    decreases |a|
  {
    if a == [] {
      assert a + b == b;
    } else {
      var acc' := acc * 10 + DigitValue(a[0]);
      assert (a + b)[0] == a[0] && (a + b)[1..] == a[1..] + b;
      AccumulateAppend(acc', a[1..], b);
      calc {
        Accumulate(acc, a + b);
        Accumulate(acc', a[1..] + b);
        Accumulate(Accumulate(acc', a[1..]), b);
      }
    }
  }

  lemma {:induction false} AccumulateZeros(n: nat)
    ensures AllDigits(Repeat('0', n)) && Accumulate(0, Repeat('0', n)) == 0
  {
    if n > 0 {
      assert Repeat('0', n)[1..] == Repeat('0', n - 1);
      AccumulateZeros(n - 1);
    }
  }

  /** Reading back a numeral gives the number it was printed from. */
  lemma {:induction false} DecimalRoundTrip(n: nat)
    ensures Accumulate(0, Decimal(n)) == n
    decreases n
  {
    if n >= 10 {
      DecimalRoundTrip(n / 10);
      AccumulateAppend(0, Decimal(n / 10), [DigitChar(n % 10)]);
    }
  }

  /** The sign `%d` prints: `-` for a negative value, `+` only under the `+` flag. */
  function SignOf(v: int, plus: bool): string
  {
    if v < 0 then "-" else if plus then "+" else ""
  }

  /** The padding `%<width>d` adds to reach the field width. */
  function Fill(v: int, width: nat, plus: bool): nat
  {
    var len := |SignOf(v, plus)| + |Decimal(Abs(v))|;
    if len < width then width - len else 0
  }

  /** `printf("%[+][0]<width>d", v)`: the sign, then the digits, padded on the left to
      `width` with spaces before the sign or, under the `0` flag, with zeros after it. */
  function FormatInt(v: int, width: nat, zeroPad: bool, plus: bool): string
  {
    var sign, body, fill := SignOf(v, plus), Decimal(Abs(v)), Fill(v, width, plus);
    if zeroPad then sign + Repeat('0', fill) + body else Repeat(' ', fill) + sign + body
  }

  /** `%u` applied to a 32-bit `int`: the two's-complement value read as unsigned. */
  function AsUnsigned32(v: int): (u: nat)
    ensures u < 0x1_0000_0000
    ensures 0 <= v < 0x1_0000_0000 ==> u == v
    ensures -0x1_0000_0000 <= v < 0 ==> u == v + 0x1_0000_0000
  {
    v % 0x1_0000_0000
  }

  /** `%d` applied to a `uint32_t` argument: the bits read as a signed 32-bit int. */
  function AsSigned32(u: nat): (v: int)
    requires u < 0x1_0000_0000
    ensures -0x8000_0000 <= v < 0x8000_0000
    ensures AsUnsigned32(v) == u
  {
    if u < 0x8000_0000 then u else u - 0x1_0000_0000
  }

  /** `snprintf(buf, size, ...)` stores at most `size - 1` characters of the text. */
  function Snprintf(text: string, size: nat): (s: string)
    ensures |s| <= |text| && s == text[..|s|]
    ensures size > 0 && |text| < size ==> s == text
  {
    if size == 0 then "" else if |text| < size then text else text[..size - 1]
  }

  /** The C string a character buffer holds: everything before its first NUL. */
  function CStr(s: string): (r: string)
    ensures |r| <= |s| && r == s[..|r|]
    ensures forall i :: 0 <= i < |r| ==> r[i] != '\0'
    ensures |r| < |s| ==> s[|r|] == '\0'
  {
    if s == [] || s[0] == '\0' then "" else [s[0]] + CStr(s[1..])
  }

  /** Text without NUL is its own C string. */
  lemma {:induction false} CStrPlain(s: string)
    requires forall i :: 0 <= i < |s| ==> s[i] != '\0'
    ensures CStr(s) == s
  {
    if s != [] {
      CStrPlain(s[1..]);
    }
  }

  // ---------------------------------------------------------------------------
  // sscanf

  /** One directive of a `sscanf` format string. */
  datatype Directive =
    | Lit(c: char)   // an ordinary character, matched exactly
    | Digit1         // %1d (written %01d in the drivers): one digit after optional white space
    | Int            // %d: optional white space, optional sign, one or more digits
    | Chr            // %c: the next character, white space included
    | SkipChr        // %*c: the next character, not assigned

  datatype Item = IntItem(i: int) | CharItem(c: char)

  /** What `sscanf` returns (`ret`, -1 standing for EOF) and the values it assigned. */
  datatype Scanned = Scanned(ret: int, items: seq<Item>)

  /** Leading white space removed, as the numeric conversions skip it. */
  function SkipSpace(s: string): (t: string)
    ensures |t| <= |s|
    ensures t == [] || !IsSpace(t[0])
  {
    if s != [] && IsSpace(s[0]) then SkipSpace(s[1..]) else s
  }

  /** The length of the run of digits `s` starts with. */
  function DigitRun(s: string): (n: nat)
    ensures n <= |s| && AllDigits(s[..n])
    ensures n < |s| ==> !IsDigit(s[n])
  {
    if s != [] && IsDigit(s[0]) then
      assert s[..1 + DigitRun(s[1..])] == [s[0]] + s[1..][..DigitRun(s[1..])];
      1 + DigitRun(s[1..])
    else 0
  }

  /** The text `%d` converts (after white space): an optional sign and the longest
      run of digits, with the rest of the input; None when no digit follows. */
  function ReadInt(t: string): Option<(int, string)>
  {
    var signed := t != [] && (t[0] == '-' || t[0] == '+');
    var u := if signed then t[1..] else t;
    var n := DigitRun(u);
    if n == 0 then None
    else Some((if signed && t[0] == '-' then -Accumulate(0, u[..n]) else Accumulate(0, u[..n]), u[n..]))
  }

  /** An input failure: EOF when nothing has been assigned yet. */
  function InputFailure(items: seq<Item>): Scanned
  {
    Scanned(if items == [] then -1 else |items|, items)
  }

  /** A format string as the list of its directives. */
  datatype Format = End | Then(d: Directive, next: Format)

  /** `sscanf` from the directives `ds` on, with `items` assigned so far. */
  function ScanFrom(ds: Format, s: string, items: seq<Item>): (r: Scanned)
    ensures |items| <= |r.items| && r.items[..|items|] == items
    ensures r.ret == |r.items| || (r.ret == -1 && r.items == [])
  {
    match ds
    case End => Scanned(|items|, items)
    case Then(d, next) =>
      match d
      case Lit(c) =>
        if s == [] then InputFailure(items)
        else if s[0] != c then Scanned(|items|, items)
        else ScanFrom(next, s[1..], items)
      case Digit1 =>
        var t := SkipSpace(s);
        if t == [] then InputFailure(items)
        else if !IsDigit(t[0]) then Scanned(|items|, items)
        else ScanFrom(next, t[1..], items + [IntItem(DigitValue(t[0]))])
      case Int =>
        var t := SkipSpace(s);
        if t == [] then InputFailure(items)
        else (match ReadInt(t)
          case None => Scanned(|items|, items)
          case Some((v, rest)) => ScanFrom(next, rest, items + [IntItem(v)]))
      case Chr =>
        if s == [] then InputFailure(items) else ScanFrom(next, s[1..], items + [CharItem(s[0])])
      case SkipChr =>
        if s == [] then InputFailure(items) else ScanFrom(next, s[1..], items)
  }

  /** The number of directives of a format that assign a value. */
  function Assigns(ds: Format): nat
  {
    match ds
    case End => 0
    case Then(d, next) => (if d.Lit? || d.SkipChr? then 0 else 1) + Assigns(next)
  }

  /** `sscanf` assigns at most one value per assigning directive. */
  lemma {:induction false} ScanBound(ds: Format, s: string, items: seq<Item>)
    ensures |ScanFrom(ds, s, items).items| <= |items| + Assigns(ds)
  {
    match ds
    case End =>
    case Then(d, next) =>
      match d
      case Lit(c) =>
        if s != [] && s[0] == c { ScanBound(next, s[1..], items); }
      case Digit1 =>
        var t := SkipSpace(s);
        if t != [] && IsDigit(t[0]) { ScanBound(next, t[1..], items + [IntItem(DigitValue(t[0]))]); }
      case Int =>
        var t := SkipSpace(s);
        if t != [] && ReadInt(t).Some? {
          ScanBound(next, ReadInt(t).value.1, items + [IntItem(ReadInt(t).value.0)]);
        }
      case Chr =>
        if s != [] { ScanBound(next, s[1..], items + [CharItem(s[0])]); }
      case SkipChr =>
        if s != [] { ScanBound(next, s[1..], items); }
  }

  /** `sscanf(s, format)` for the format written as the directives `ds`. */
  function Scan(ds: Format, s: string): Scanned
  {
    ScanFrom(ds, s, [])
  }

  /** The integer a scanned item holds (the digit conversions only produce integers). */
  function IntOf(it: Item): int
  {
    match it
    case IntItem(i) => i
    case CharItem(c) => c as int
  }

  /** The ordinary characters `p` of a format, followed by the directives `f`. */
  function Lits(p: string, f: Format): Format
    decreases |p|
  {
    if p == [] then f else Then(Lit(p[0]), Lits(p[1..], f))
  }

  lemma {:induction false} LitsAssigns(p: string, f: Format)
    ensures Assigns(Lits(p, f)) == Assigns(f)
    decreases |p|
  {
    if p != [] {
      LitsAssigns(p[1..], f);
    }
  }

  /** `n` directives `%1d` in a row. */
  function Digits(n: nat): Format
  {
    if n == 0 then End else Then(Digit1, Digits(n - 1))
  }

  /** The items `%1d` assigns for a run of digits. */
  function DigitItems(s: string): (r: seq<Item>)
    requires AllDigits(s)
    ensures |r| == |s|
  {
    if s == [] then [] else [IntItem(DigitValue(s[0]))] + DigitItems(s[1..])
  }

  lemma {:induction false} DigitItemsAt(s: string, i: nat)
    requires AllDigits(s) && i < |s|
    ensures DigitItems(s)[i] == IntItem(DigitValue(s[i]))
  {
    if i > 0 {
      DigitItemsAt(s[1..], i - 1);
    }
  }

  /** Text without white space, where `%1d` and `%d` have nothing to skip. */
  predicate NoSpace(s: string) { forall i :: 0 <= i < |s| ==> !IsSpace(s[i]) }

  /** Input that starts with the literal characters of the format passes them. */
  lemma {:induction false} ScanLits(p: string, f: Format, s: string, items: seq<Item>)
    requires |p| <= |s| && s[..|p|] == p
    ensures ScanFrom(Lits(p, f), s, items) == ScanFrom(f, s[|p|..], items)
    decreases |p|
  {
    if p != [] {
      assert s[0] == p[0];
      assert s[1..][..|p| - 1] == p[1..];
      ScanLits(p[1..], f, s[1..], items);
      assert s[1..][|p| - 1..] == s[|p|..];
    }
  }

  /** Input that does not start with them stops the scan: EOF when the input ends
      inside the literal, a matching failure otherwise. */
  lemma {:induction false} ScanLitsMismatch(p: string, f: Format, s: string, items: seq<Item>)
    requires !(|p| <= |s| && s[..|p|] == p)
    ensures ScanFrom(Lits(p, f), s, items)
      == if |s| < |p| && s == p[..|s|] then InputFailure(items) else Scanned(|items|, items)
    decreases |p|
  {
    if s != [] && s[0] == p[0] {
      if |p| <= |s| {
        assert s[..|p|] == [s[0]] + s[1..][..|p| - 1];
      }
      ScanLitsMismatch(p[1..], f, s[1..], items);
      assert (|s| < |p| && s == p[..|s|]) <==> (|s| - 1 < |p| - 1 && s[1..] == p[1..][..|s| - 1]) by {
        if |s| < |p| && s[1..] == p[1..][..|s| - 1] {
          assert s == [s[0]] + s[1..] && p[..|s|] == [p[0]] + p[1..][..|s| - 1];
        }
      }
    }
  }

  /** A run of `n` digits scans as `n` single-digit items. */
  lemma {:induction false} ScanDigits(n: nat, s: string, items: seq<Item>)
    requires n <= |s| && AllDigits(s[..n])
    ensures ScanFrom(Digits(n), s, items) == Scanned(|items| + n, items + DigitItems(s[..n]))
  {
    if n > 0 {
      var t := s[..n];
      assert t[0] == s[0] && IsDigit(t[0]);
      assert SkipSpace(s) == s;
      assert s[1..][..n - 1] == t[1..];
      var first := IntItem(DigitValue(s[0]));
      ScanDigits(n - 1, s[1..], items + [first]);
      assert DigitItems(t) == [first] + DigitItems(t[1..]);
      assert items + [first] + DigitItems(t[1..]) == items + DigitItems(t);
    }
  }

  /** Without white space, `n` directives `%1d` fall short of `n` items when the input
      has fewer than `n` leading digits; the result is EOF only when nothing had been
      assigned and the input is empty. */
  lemma {:induction false} ScanDigitsShort(n: nat, s: string, items: seq<Item>)
    requires NoSpace(s) && !(n <= |s| && AllDigits(s[..n]))
    ensures ScanFrom(Digits(n), s, items).ret < |items| + n
    ensures ScanFrom(Digits(n), s, items).ret == -1 <==> items == [] && s == []
  {
    assert n > 0 && Digits(n) == Then(Digit1, Digits(n - 1));
    if s == [] {
      assert SkipSpace(s) == [];
    } else if !IsDigit(s[0]) {
      assert SkipSpace(s) == s;
    } else {
      assert SkipSpace(s) == s;
      assert NoSpace(s[1..]) by {
        forall i | 0 <= i < |s[1..]| ensures !IsSpace(s[1..][i]) { assert s[1..][i] == s[i + 1]; }
      }
      if n <= |s| {
        assert forall i | 0 <= i < n :: s[..n][i] == (if i == 0 then s[0] else s[1..][..n - 1][i - 1]);
      }
      ScanDigitsShort(n - 1, s[1..], items + [IntItem(DigitValue(s[0]))]);
    }
  }

  /** The formats the replies are read with: literal characters, then `n` digits.
      Input with the literal followed by `n` digits scans as those digits. */
  lemma ScanLitsDigits(p: string, n: nat, s: string)
    requires |p| + n <= |s| && s[..|p|] == p && AllDigits(s[|p|..|p| + n])
    ensures Scan(Lits(p, Digits(n)), s) == Scanned(n, DigitItems(s[|p|..|p| + n]))
  {
    var t := s[|p|..];
    var d := s[|p|..|p| + n];
    assert t[..n] == d;
    ScanLits(p, Digits(n), s, []);
    ScanDigits(n, t, []);
    assert Scan(Lits(p, Digits(n)), s) == ScanFrom(Digits(n), t, []);
  }

  /** Input without white space that does not have that shape scans fewer items, and
      gives EOF exactly when it is a (possibly empty) beginning of the literal. */
  lemma ScanLitsDigitsShort(p: string, n: nat, s: string)
    requires n > 0 && NoSpace(s)
    requires !(|p| + n <= |s| && s[..|p|] == p && AllDigits(s[|p|..|p| + n]))
    ensures Scan(Lits(p, Digits(n)), s).ret < n
    ensures Scan(Lits(p, Digits(n)), s).ret == -1 <==> |s| <= |p| && s == p[..|s|]
  {
    if |p| <= |s| && s[..|p|] == p {
      ScanLits(p, Digits(n), s, []);
      var t := s[|p|..];
      assert !(n <= |t| && AllDigits(t[..n])) by {
        if n <= |t| { assert t[..n] == s[|p|..|p| + n]; }
      }
      assert NoSpace(t) by {
        forall i | 0 <= i < |t| ensures !IsSpace(t[i]) { assert t[i] == s[|p| + i]; }
      }
      ScanDigitsShort(n, t, []);
      assert t == [] <==> |s| <= |p|;
    } else {
      ScanLitsMismatch(p, Digits(n), s, []);
    }
  }

  lemma ScanChr(f: Format, s: string, items: seq<Item>)
    requires s != []
    ensures ScanFrom(Then(Chr, f), s, items) == ScanFrom(f, s[1..], items + [CharItem(s[0])])
    ensures ScanFrom(Then(SkipChr, f), s, items) == ScanFrom(f, s[1..], items)
  {
  }

  /** `%d` reads back a number `%[0]<width>d` printed, up to a non-digit. */
  lemma ScanFormatInt(f: Format, v: int, width: nat, zeroPad: bool, rest: string, items: seq<Item>)
    requires rest == [] || !IsDigit(rest[0])
    ensures ScanFrom(Then(Int, f), FormatInt(v, width, zeroPad, false) + rest, items)
      == ScanFrom(f, rest, items + [IntItem(v)])
  {
    ReadFormatInt(v, width, zeroPad, false, rest);
  }

  /** `%d%*c%d%*c%d` on three numbers that each end at one separator character. */
  lemma ScanThreeInts(s: string, a: int, b: int, c: int, r1: string, r2: string)
    requires ReadInt(SkipSpace(s)) == Some((a, r1)) && r1 != []
    requires ReadInt(SkipSpace(r1[1..])) == Some((b, r2)) && r2 != []
    requires ReadInt(SkipSpace(r2[1..])) == Some((c, []))
    ensures Scan(Then(Int, Then(SkipChr, Then(Int, Then(SkipChr, Then(Int, End))))), s)
      == Scanned(3, [IntItem(a), IntItem(b), IntItem(c)])
  {
    var f3 := Then(Int, End);
    var f2 := Then(Int, Then(SkipChr, f3));
    var i1, i2, i3 := [IntItem(a)], [IntItem(a), IntItem(b)], [IntItem(a), IntItem(b), IntItem(c)];
    assert [] + [IntItem(a)] == i1 && i1 + [IntItem(b)] == i2 && i2 + [IntItem(c)] == i3;
    calc {
      Scan(Then(Int, Then(SkipChr, f2)), s);
      { ScanInt(Then(SkipChr, f2), s, [], a, r1); }
      ScanFrom(Then(SkipChr, f2), r1, i1);
      { ScanChr(f2, r1, i1); }
      ScanFrom(f2, r1[1..], i1);
      { ScanInt(Then(SkipChr, f3), r1[1..], i1, b, r2); }
      ScanFrom(Then(SkipChr, f3), r2, i2);
      { ScanChr(f3, r2, i2); }
      ScanFrom(f3, r2[1..], i2);
      { ScanInt(End, r2[1..], i2, c, []); }
      ScanFrom(End, [], i3);
    }
  }

  /** The same format on two numbers and nothing more assigns only two values. */
  lemma ScanTwoOfThreeInts(s: string, a: int, b: int, r1: string)
    requires ReadInt(SkipSpace(s)) == Some((a, r1)) && r1 != []
    requires ReadInt(SkipSpace(r1[1..])) == Some((b, []))
    ensures Scan(Then(Int, Then(SkipChr, Then(Int, Then(SkipChr, Then(Int, End))))), s).ret == 2
  {
    var f3 := Then(Int, End);
    var f2 := Then(Int, Then(SkipChr, f3));
    var i1, i2 := [IntItem(a)], [IntItem(a), IntItem(b)];
    assert [] + [IntItem(a)] == i1 && i1 + [IntItem(b)] == i2;
    calc {
      Scan(Then(Int, Then(SkipChr, f2)), s);
      { ScanInt(Then(SkipChr, f2), s, [], a, r1); }
      ScanFrom(Then(SkipChr, f2), r1, i1);
      { ScanChr(f2, r1, i1); }
      ScanFrom(f2, r1[1..], i1);
      { ScanInt(Then(SkipChr, f3), r1[1..], i1, b, []); }
      ScanFrom(Then(SkipChr, f3), [], i2);
    }
  }

  lemma ScanInt(f: Format, s: string, items: seq<Item>, v: int, rest: string)
    requires ReadInt(SkipSpace(s)) == Some((v, rest))
    ensures ScanFrom(Then(Int, f), s, items) == ScanFrom(f, rest, items + [IntItem(v)])
  {
  }

  // ---------------------------------------------------------------------------
  // Printing and scanning agree

  lemma FormatIntShape(v: int, width: nat, zeroPad: bool, plus: bool)
    ensures var f := FormatInt(v, width, zeroPad, plus);
      |f| == (if width > |SignOf(v, plus)| + |Decimal(Abs(v))| then width
              else |SignOf(v, plus)| + |Decimal(Abs(v))|)
  {
  }

  /** The numeral `%d` prints is read back by `%d` as the same value, whatever the
      width and flags, provided the next character is not a digit. */
  lemma ReadFormatInt(v: int, width: nat, zeroPad: bool, plus: bool, rest: string)
    requires rest == [] || !IsDigit(rest[0])
    ensures ReadInt(SkipSpace(FormatInt(v, width, zeroPad, plus) + rest)) == Some((v, rest))
  {
    var sign, body, fill := SignOf(v, plus), Decimal(Abs(v)), Fill(v, width, plus);
    var digits := if zeroPad then Repeat('0', fill) + body else body;
    FormatIntSplit(v, width, zeroPad, plus, rest);
    NumeralValue(zeroPad, fill, body, Abs(v));
    PaddedNumeral(if zeroPad then 0 else fill, sign, digits, rest);
  }

  /** `%d` skips the padding and reads the signed numeral that follows it. */
  lemma PaddedNumeral(pad: nat, sign: string, digits: string, rest: string)
    requires sign == "" || sign == "-" || sign == "+"
    requires AllDigits(digits) && digits != []
    requires rest == [] || !IsDigit(rest[0])
    ensures var n := Accumulate(0, digits);
      ReadInt(SkipSpace(Repeat(' ', pad) + (sign + (digits + rest))))
        == Some((if sign == "-" then -n else n, rest))
  {
    var t := sign + (digits + rest);
    assert t[0] == (if sign == "" then digits[0] else sign[0]);
    SkipPadding(pad, t);
    ReadSignedNumeral(sign, digits, rest);
  }

  lemma FormatIntSplit(v: int, width: nat, zeroPad: bool, plus: bool, rest: string)
    ensures var sign, body, fill := SignOf(v, plus), Decimal(Abs(v)), Fill(v, width, plus);
      var digits := if zeroPad then Repeat('0', fill) + body else body;
      FormatInt(v, width, zeroPad, plus) + rest
        == Repeat(' ', if zeroPad then 0 else fill) + (sign + (digits + rest))
  {
  }

  lemma NumeralValue(zeroPad: bool, fill: nat, body: string, n: nat)
    requires body == Decimal(n)
    ensures var digits := if zeroPad then Repeat('0', fill) + body else body;
      AllDigits(digits) && digits != [] && IsDigit(digits[0]) && Accumulate(0, digits) == n
  {
    DecimalRoundTrip(n);
    if zeroPad {
      AccumulateZeros(fill);
      AccumulateAppend(0, Repeat('0', fill), body);
    }
  }

  lemma ReadSignedNumeral(sign: string, digits: string, rest: string)
    requires sign == "" || sign == "-" || sign == "+"
    requires AllDigits(digits) && digits != []
    requires rest == [] || !IsDigit(rest[0])
    ensures var n := Accumulate(0, digits);
      ReadInt(sign + (digits + rest)) == Some((if sign == "-" then -n else n, rest))
  {
    var t := sign + (digits + rest);
    DigitRunOf(digits, rest);
    var u := if t != [] && (t[0] == '-' || t[0] == '+') then t[1..] else t;
    assert u == digits + rest;
    assert u[..|digits|] == digits;
    assert u[|digits|..] == rest;
  }

  lemma {:induction false} SkipPadding(fill: nat, t: string)
    ensures SkipSpace(Repeat(' ', fill) + t) == SkipSpace(t)
  {
    if fill > 0 {
      var p := Repeat(' ', fill) + t;
      assert p[0] == ' ';
      assert p[1..] == Repeat(' ', fill - 1) + t;
      SkipPadding(fill - 1, t);
    } else {
      assert Repeat(' ', fill) + t == t;
    }
  }

  lemma {:induction false} DigitRunOf(digits: string, rest: string)
    requires AllDigits(digits)
    requires rest == [] || !IsDigit(rest[0])
    ensures DigitRun(digits + rest) == |digits|
  {
    if digits != [] {
      assert (digits + rest)[1..] == digits[1..] + rest;
      DigitRunOf(digits[1..], rest);
    }
  }
}
