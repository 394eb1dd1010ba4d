/** Time-frame resolution `get_timestamp` (sqlite/__init__.py:99-105,
    170-189): an integer literal is an absolute time in milliseconds, `now`
    is the current time, and `<number><unit>` lies that far before now. */
module TimeFrames {
  import opened Wrappers
  import opened Numeric

  const Minute: int := 60 * 1000
  const Hour: int := 60 * Minute
  const Day: int := 24 * Hour
  const Week: int := 7 * Day
  const Month: int := 30 * Day
  const Year: int := 365 * Day

  /** The table of frame units: minute, hour, day, week, month of 30 days,
      year of 365 days. */
  function UnitMs(u: char): Option<int> {
    match u
    case 'i' => Some(Minute)
    case 'h' => Some(Hour)
    case 'd' => Some(Day)
    case 'w' => Some(Week)
    case 'm' => Some(Month)
    case 'y' => Some(Year)
    case _ => None
  }

  /** A resolved frame is a time in milliseconds, with a flag for the
      "unknown time frame" warning; an unresolved frame is the text itself,
      returned when its last character is no unit. */
  datatype Frame = Resolved(ms: int, warned: bool) | Unresolved(text: string)

  /** The characters Python strips around a number. */
  predicate IsSpace(c: char) {
    c == ' ' || c == '\t' || c == '\n' || c == '\r' || c == 11 as char || c == 12 as char
  }

  /** `s.lstrip()`: the suffix of `s` after its leading white space. */
  function StripLeft(s: string): (r: string)
    ensures |r| > 0 ==> !IsSpace(r[0])
    ensures |s| > 0 && !IsSpace(s[|s| - 1]) ==> |r| > 0 && r[|r| - 1] == s[|s| - 1]
  {
    if |s| > 0 && IsSpace(s[0]) then StripLeft(s[1..]) else s
  }

  function StripRight(s: string): string
  {
    if |s| > 0 && IsSpace(s[|s| - 1]) then StripRight(s[..|s| - 1]) else s
  }

  /** `s.strip()`: without the surrounding white space. */
  function Strip(s: string): string {
    StripRight(StripLeft(s))
  }

  predicate IsDigit(c: char) {
    '0' <= c <= '9'
  }

  predicate AllDigits(s: string) {
    forall k :: 0 <= k < |s| ==> IsDigit(s[k])
  }

  function DigitsValue(s: string): nat
    requires AllDigits(s)
  {
    if |s| == 0 then 0 else DigitsValue(s[..|s| - 1]) * 10 + (s[|s| - 1] as int - '0' as int)
  }

  /** An optional sign and at least one digit; white space may separate the
      sign from the digits. */
  function SignedInt(u: string): Option<int> {
    if |u| > 0 && (u[0] == '-' || u[0] == '+') then
      var d := StripLeft(u[1..]);
      var v: int := if |d| > 0 && AllDigits(d) then DigitsValue(d) else 0;
      if |d| > 0 && AllDigits(d) then Some(if u[0] == '-' then -v else v) else None
    else if |u| > 0 && AllDigits(u) then Some(DigitsValue(u))
    else None
  }

  /** `int(s)`: an optional sign and at least one digit, with white space
      around. */
  function ParseInt(s: string): Option<int> {
    SignedInt(Strip(s))
  }

  function Pow10(n: nat): (r: nat)
    ensures r >= 1
  {
    if n == 0 then 1 else 10 * Pow10(n - 1)
  }

  /** The position of the first '.', or the length when there is none. */
  function DotAt(s: string): (i: nat)
    ensures i <= |s|
    ensures forall k :: 0 <= k < i ==> s[k] != '.'
    ensures i < |s| ==> s[i] == '.'
  {
    if |s| == 0 then 0 else if s[0] == '.' then 0 else 1 + DotAt(s[1..])
  }

  /** An unsigned decimal: digits, optionally a point and more digits, and at
      least one digit in all. */
  function ParseUnsigned(b: string): Option<real> {
    var i := DotAt(b);
    var whole := b[..i];
    var frac := if i < |b| then b[i + 1..] else [];
    if AllDigits(whole) && AllDigits(frac) && |whole| + |frac| > 0 then
      Some(DigitsValue(whole) as real + DigitsValue(frac) as real / Pow10(|frac|) as real)
    else None
  }

  /** An optional sign before an unsigned decimal. */
  function SignedDecimal(u: string): Option<real> {
    if |u| > 0 && (u[0] == '-' || u[0] == '+') then
      match ParseUnsigned(u[1..])
      case None => None
      case Some(x) => Some(if u[0] == '-' then -x else x)
    else ParseUnsigned(u)
  }

  /** `float(s)` on decimal notation: an optional sign before an unsigned
      decimal, with white space around. */
  function ParseDecimal(s: string): Option<real> {
    SignedDecimal(Strip(s))
  }

  /** `int(float(frame) * fac)`: the offset in whole milliseconds, truncated
      toward zero. */
  function Offset(x: real, fac: int): int {
    Trunc(x * fac as real)
  }

  /** `get_timestamp(frame)` at the current time `now`. Only the empty text
      fails, at `frame[-1]`. */
  function GetTimestamp(frame: string, now: int): (r: Result<Frame>)
    ensures r.Raised? <==> frame == ""
    ensures ParseInt(frame).Some? ==> r == Ok(Resolved(ParseInt(frame).value, false))
  {
    if ParseInt(frame).Some? then Ok(Resolved(ParseInt(frame).value, false))
    else if frame == "now" then Ok(Resolved(now, false))
    else if |frame| == 0 then Raised("IndexError")
    else
      match UnitMs(frame[|frame| - 1])
      case None => Ok(Unresolved(frame))
      case Some(fac) =>
        match ParseDecimal(frame[..|frame| - 1])
        case None => Ok(Resolved(now, true))
        case Some(x) => Ok(Resolved(now - Offset(x, fac), false))
  }

  /** A text without white space at either end is its own stripped form. */
  lemma StripClean(s: string)
    requires |s| > 0 ==> !IsSpace(s[0]) && !IsSpace(s[|s| - 1])
    ensures Strip(s) == s
  {
  }

  /** A text ending in neither a digit nor white space is no integer. */
  lemma ParseIntNone(s: string)
    requires |s| > 0 && !IsDigit(s[|s| - 1]) && !IsSpace(s[|s| - 1])
    ensures ParseInt(s).None?
  {
    var l := StripLeft(s);
    assert StripRight(l) == l;
    SignedIntNone(l);
  }

  lemma SignedIntNone(u: string)
    requires |u| > 0 && !IsDigit(u[|u| - 1]) && !IsSpace(u[|u| - 1])
    ensures SignedInt(u).None?
  {
    assert !AllDigits(u);
    if |u| > 1 {
      var d := StripLeft(u[1..]);
      assert d[|d| - 1] == u[|u| - 1];
    }
  }

  /** The decimal digits of n. */
  function NatToString(n: nat): (s: string)
    ensures |s| > 0 && AllDigits(s)
  {
    var d := [('0' as int + n % 10) as char];
    if n < 10 then d else NatToString(n / 10) + d
  }

  lemma {:induction false} NatToStringValue(n: nat)
    ensures DigitsValue(NatToString(n)) == n
  {
    var s := NatToString(n);
    if n >= 10 {
      NatToStringValue(n / 10);
      assert s[..|s| - 1] == NatToString(n / 10);
    }
  }

  lemma SignedDigits(d: string)
    requires |d| > 0 && AllDigits(d)
    ensures SignedInt(d) == Some(DigitsValue(d) as int)
  {
    assert IsDigit(d[0]);
  }

  lemma NegatedDigits(d: string)
    requires |d| > 0 && AllDigits(d)
    ensures SignedInt("-" + d) == Some(-(DigitsValue(d) as int))
  {
    var u := "-" + d;
    assert u[0] == '-' && u[1..] == d;
    assert StripLeft(d) == d by {
      assert IsDigit(d[0]);
    }
    Negated(u);
  }

  lemma Negated(u: string)
    requires |u| > 0 && u[0] == '-'
    ensures var d := StripLeft(u[1..]);
      SignedInt(u) == if |d| > 0 && AllDigits(d) then Some(-(DigitsValue(d) as int)) else None
  {
  }

  lemma DotAtDigits(d: string)
    requires AllDigits(d)
    ensures DotAt(d) == |d|
  {
  }

  lemma UnsignedWhole(d: string)
    requires |d| > 0 && AllDigits(d) && DotAt(d) == |d|
    ensures ParseUnsigned(d) == Some(DigitsValue(d) as real)
  {
    assert d[..|d|] == d;
  }

  lemma UnsignedDigits(d: string)
    requires |d| > 0 && AllDigits(d)
    ensures SignedDecimal(d) == Some(DigitsValue(d) as real)
  {
    DotAtDigits(d);
    UnsignedWhole(d);
    assert IsDigit(d[0]);
  }


  /** A digit string reads back as itself, as an integer and as a decimal. */
  lemma DigitsParse(d: string)
    requires |d| > 0 && AllDigits(d)
    ensures Strip(d) == d
    ensures ParseInt(d) == Some(DigitsValue(d) as int)
    ensures ParseDecimal(d) == Some(DigitsValue(d) as real)
  {
    StripClean(d);
    SignedDigits(d);
    UnsignedDigits(d);
  }

  /** Printing a count and reading it back as an absolute frame gives it back. */
  lemma NatFrameRoundTrip(n: nat, now: int)
    ensures GetTimestamp(NatToString(n), now) == Ok(Resolved(n, false))
  {
    DigitsParse(NatToString(n));
    NatToStringValue(n);
  }

  /** A negative absolute frame reads back too. */
  lemma NegativeFrameRoundTrip(n: nat, now: int)
    ensures GetTimestamp("-" + NatToString(n), now) == Ok(Resolved(-(n as int), false))
  {
    var d := NatToString(n);
    var s := "-" + d;
    StripClean(s);
    NegatedDigits(d);
    NatToStringValue(n);
  }

  /** `now` is the current time. */
  lemma NowFrame(now: int)
    ensures GetTimestamp("now", now) == Ok(Resolved(now, false))
  {
    ParseIntNone("now");
  }

  /** A unit character is a letter: neither digit nor white space. */
  lemma UnitIsLetter(u: char)
    requires UnitMs(u).Some?
    ensures !IsDigit(u) && !IsSpace(u)
  {
  }

  /** A text ending in a unit is no integer. */
  lemma UnitTextNotInt(s: string, u: char)
    requires UnitMs(u).Some?
    ensures ParseInt(s + [u]).None?
  {
    UnitIsLetter(u);
    ParseIntNone(s + [u]);
  }

  lemma UnitText(f: string, now: int)
    requires |f| > 0 && UnitMs(f[|f| - 1]).Some? && f != "now" && ParseInt(f).None?
    ensures ParseDecimal(f[..|f| - 1]).None? ==> GetTimestamp(f, now) == Ok(Resolved(now, true))
    ensures ParseDecimal(f[..|f| - 1]).Some? ==>
      GetTimestamp(f, now) == Ok(Resolved(now - Offset(ParseDecimal(f[..|f| - 1]).value, UnitMs(f[|f| - 1]).value), false))
  {
  }

  /** `<number><unit>` lies that many units before now, truncated toward zero
      to whole milliseconds; a number that does not parse leaves now, with a
      warning. */
  lemma UnitFrame(s: string, u: char, now: int)
    requires UnitMs(u).Some? && s + [u] != "now"
    ensures ParseDecimal(s).Some? ==>
      GetTimestamp(s + [u], now) == Ok(Resolved(now - Offset(ParseDecimal(s).value, UnitMs(u).value), false))
    ensures ParseDecimal(s).None? ==> GetTimestamp(s + [u], now) == Ok(Resolved(now, true))
  {
    var f := s + [u];
    UnitTextNotInt(s, u);
    assert f[|f| - 1] == u && f[..|f| - 1] == s;
    UnitText(f, now);
  }


  /** `<n><unit>` lies n units before now. */
  lemma RelativeFrame(n: nat, u: char, now: int)
    requires UnitMs(u).Some?
    ensures GetTimestamp(NatToString(n) + [u], now) == Ok(Resolved(now - n * UnitMs(u).value, false))
  {
    var d := NatToString(n);
    assert d + [u] != "now" by {
      assert IsDigit((d + [u])[0]);
    }
    UnitFrame(d, u, now);
    DigitsParse(d);
    NatToStringValue(n);
    OffsetWhole(n, UnitMs(u).value);
  }

  /** A whole number of units is an exact offset. */
  lemma OffsetWhole(n: int, fac: int)
    ensures Offset(n as real, fac) == n * fac
  {
    assert (n as real) * (fac as real) == (n * fac) as real;
  }

  /** A unit without a number resolves to now, with a warning. */
  lemma BareUnit(u: char, now: int)
    requires UnitMs(u).Some?
    ensures GetTimestamp([u], now) == Ok(Resolved(now, true))
  {
    assert [] + [u] == [u];
    UnitFrame([], u, now);
  }

  /** A text whose last character is no unit, digit or white space comes back
      unchanged. */
  lemma UnknownSuffix(s: string, now: int)
    requires |s| > 0 && UnitMs(s[|s| - 1]).None?
    requires !IsDigit(s[|s| - 1]) && !IsSpace(s[|s| - 1])
    ensures GetTimestamp(s, now) == Ok(Unresolved(s))
  {
    ParseIntNone(s);
    assert s != "now";
  }

  lemma DayExample(now: int)
    ensures GetTimestamp("1d", now) == Ok(Resolved(now - 86400000, false))
  {
    RelativeFrame(1, 'd', now);
    assert NatToString(1) + ['d'] == "1d";
  }

  lemma FractionExample(now: int)
    ensures GetTimestamp("1.5h", now) == Ok(Resolved(now - 5400000, false))
  {
    var h := "1.5";
    StripClean(h);
    assert DotAt(h) == 1;
    assert h[..1] == "1" && h[2..] == "5";
    assert ParseDecimal(h) == Some(1.5);
    assert h + ['h'] == "1.5h";
    UnitFrame(h, 'h', now);
    assert 1.5 * Hour as real == 5400000.0;
  }

  lemma OtherExamples(now: int)
    ensures GetTimestamp("3q", now) == Ok(Unresolved("3q"))
    ensures GetTimestamp("xd", now) == Ok(Resolved(now, true))
    ensures GetTimestamp(" 42 ", now) == Ok(Resolved(42, false))
  {
    UnknownSuffix("3q", now);
    StripClean("x");
    assert "x" + ['d'] == "xd";
    UnitFrame("x", 'd', now);
    assert StripLeft(" 42 ") == "42 ";
    assert StripRight("42 ") == "42";
    DigitsParse("42");
  }

  /** White space may separate the sign from the digits. */
  lemma SpacedSignExample(now: int)
    ensures GetTimestamp("- 5", now) == Ok(Resolved(-5, false))
  {
    StripClean("- 5");
    assert "- 5"[1..] == " 5";
    assert StripLeft(" 5") == "5";
    assert DigitsValue("5") == 5;
    assert ParseInt("- 5") == Some(-5);
  }
}
