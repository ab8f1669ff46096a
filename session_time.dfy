/**
 * Lap times on the session page: reading a lap time field ("1:23.456",
 * "0:34", "00:034", "34.5" or a number) as seconds, and writing seconds back
 * as "M:SS.sss" or "S.ssss".
 */
module SessionTime {
  import opened Text
  import opened JsValues
  import opened Numerals
  import opened Optional

  /** The malformed "00:034" form: "00:0" followed by digits only. */
  predicate DoubleZeroForm(c: string)
  {
    |c| >= 5 && c[0] == '0' && c[1] == '0' && c[2] == ':' && c[3] == '0' && AllDigits(c[4..])
  }

  /** The "0:34" form: "0:" followed by digits only. */
  predicate ZeroForm(c: string)
  {
    |c| >= 3 && c[0] == '0' && c[1] == ':' && AllDigits(c[2..])
  }

  /**
   * The general rule for a trimmed string: "minutes:seconds" reads whole
   * minutes and decimal seconds, each falling back to 0 when unreadable;
   * anything else is read as seconds, falling back to 0.
   */
  function ClockValue(c: string): (r: JsNum)
    ensures r.Finite?
  {
    var parts := Split(c, ':');
    if |parts| == 2 then
      Add(Mul(OrElse(JsParseInt(parts[0]), Finite(0.0)), Finite(60.0)), OrElse(JsParseFloat(parts[1]), Finite(0.0)))
    else OrElse(JsParseFloat(c), Finite(0.0))
  }

  /** Reading a lap time string: the two shortcut forms first, then the general rule. */
  function ParseTimeString(s: string): (r: JsNum)
    ensures r.Finite?
  {
    var c := JsTrim(s);
    if DoubleZeroForm(c) then JsParseIntDigits(c[4..]); JsParseInt(c[4..])
    else if ZeroForm(c) then JsParseIntDigits(c[2..]); JsParseInt(c[2..])
    else ClockValue(c)
  }

  /**
   * parseTime: null and the empty string are 0, a number is itself,
   * anything else is read from its string form. The result is never NaN or
   * infinite.
   */
  function ParseTime(t: Json): (r: JsNum)
    ensures r.Finite?
    ensures t.JNum? ==> r.v == t.x
    ensures t.JNull? || t == JStr("") ==> r.v == 0.0
  {
    match t
    case JNull => Finite(0.0)
    case JNum(x) => Finite(x)
    case JBool(b) => ParseTimeString(if b then "true" else "false")
    case JStr(s) => if s == "" then Finite(0.0) else ParseTimeString(s)
  }

  /** The shortcut forms agree with the general rule: they change no result. */
  lemma ShortcutsAgree(s: string)
    ensures ParseTimeString(s) == ClockValue(JsTrim(s))
  {
    var c := JsTrim(s);
    if DoubleZeroForm(c) {
      DoubleZeroAgrees(c);
    } else if ZeroForm(c) {
      ZeroAgrees(c);
    }
  }

  lemma DoubleZeroAgrees(c: string)
    requires DoubleZeroForm(c)
    ensures ClockValue(c) == JsParseInt(c[4..])
  {
    var d := c[4..];
    assert c == "00" + [':'] + ("0" + d);
    assert ':' !in "0" + d by { assert AllDigits("0" + d); }
    SplitTwo("00", ':', "0" + d);
    ClockValueOfTwo(c, "00", "0" + d);
    JsParseIntDigits("00");
    assert DigitsValue("00") == 0 by { assert "00"[..1] == "0"; }
    JsParseIntDigits(d);
    ZeroPrefixedFloat("0" + d, d);
  }

  lemma ZeroAgrees(c: string)
    requires ZeroForm(c)
    ensures ClockValue(c) == JsParseInt(c[2..])
  {
    var d := c[2..];
    assert c == "0" + [':'] + d;
    assert ':' !in d by { assert AllDigits(d); }
    SplitTwo("0", ':', d);
    ClockValueOfTwo(c, "0", d);
    ZeroMinutes();
    JsParseIntDigits(d);
    DigitsFloat(d);
    assert OrElse(JsParseFloat(d), Finite(0.0)) == JsParseFloat(d);
  }

  /** A minutes field "0" adds nothing. */
  lemma ZeroMinutes()
    ensures Mul(OrElse(JsParseInt("0"), Finite(0.0)), Finite(60.0)) == Finite(0.0)
  {
    JsParseIntDigits("0");
  }

  /** With exactly one colon the general rule reads minutes and seconds. */
  lemma ClockValueOfTwo(c: string, a: string, b: string)
    requires Split(c, ':') == [a, b]
    ensures ClockValue(c) == Add(Mul(OrElse(JsParseInt(a), Finite(0.0)), Finite(60.0)), OrElse(JsParseFloat(b), Finite(0.0)))
  {
  }

  lemma DigitsFloat(d: string)
    requires |d| >= 1 && AllDigits(d)
    ensures JsParseFloat(d) == Finite(DigitsValue(d) as real)
  {
    assert d + [] == d;
    ReadInteger(d, []);
    JsParseFloatFromDigit(d, DigitsValue(d) as real, |d|);
  }

  lemma ZeroPrefixedFloat(zd: string, d: string)
    requires |d| >= 1 && AllDigits(d) && zd == "0" + d
    ensures JsParseFloat(zd) == Finite(DigitsValue(d) as real)
  {
    assert zd == Repeat('0', 1) + d;
    LeadingZeros(1, d);
    DigitsFloat(zd);
  }

  /** A falsy value parses to 0. */
  lemma FalsyTimeIsZero(t: Json)
    requires !JsonTruthy(t)
    ensures ParseTime(t).v == 0.0
  {
    if t.JBool? {
      FalseIsZero("false");
    }
  }

  lemma FalseIsZero(s: string)
    requires s == "false"
    ensures ParseTimeString(s).v == 0.0
  {
    JsTrimNoSpace(s);
    assert ':' !in s;
    assert Split(s, ':') == [s];
    ReadNothing(s);
  }

  /** "0:00" parses to 0. */
  lemma ZeroClockIsZero(s: string)
    requires s == "0:00"
    ensures ParseTimeString(s).v == 0.0
  {
    JsTrimNoSpace(s);
    assert !DoubleZeroForm(s) && ZeroForm(s);
    var d := s[2..];
    assert d == Repeat('0', 2);
    ZerosValue(2);
    JsParseIntDigits(d);
  }

  // ----- writing -----

  /**
   * formatTime: "N/A" for a missing value or NaN; negative values count as
   * 0; with at least a minute "M:SS.sss", otherwise "S.sss" and an "s".
   */
  function FormatTime(seconds: Option<JsNum>): (r: string)
    ensures r == "N/A" <==> seconds.None? || seconds == Some(NaN)
  {
    match seconds
    case None => "N/A"
    case Some(NaN) => "N/A"
    case Some(NegInf) => FormatSeconds(0.0)
    // Math.floor(Infinity / 60) is Infinity and Infinity % 60 is NaN
    case Some(PosInf) => "Infinity:" + PadStart("NaN", 6, '0')
    case Some(Finite(x)) => FormatSeconds(if x < 0.0 then 0.0 else x)
  }

  /** Math.floor(t / 60) for a non-negative t. */
  function WholeMinutes(t: real): (m: nat)
    requires t >= 0.0
    ensures 60.0 * m as real <= t < 60.0 * m as real + 60.0
  {
    (t / 60.0).Floor
  }

  /**
   * The two forms of formatTime: under a minute the seconds end in "s",
   * from a minute on the seconds follow the minutes and a colon.
   */
  function FormatSeconds(t: real): (r: string)
    requires t >= 0.0
    ensures |r| > 0 && (r[|r| - 1] == 's' <==> t < 60.0)
    ensures t >= 60.0 ==> ':' in r
  {
    var mins := WholeMinutes(t);
    // t % 60, which for t >= 0 is t minus the whole minutes
    var secs := JsToFixed3(t - 60.0 * mins as real);
    if mins > 0 then NatToString(mins) + ":" + PadStart(secs, 6, '0')
    else JsNumToFixed3(JsParseFloat(secs)) + "s"
  }

  /** Any negative time is shown as zero seconds. */
  lemma FormatNegative(x: real)
    requires x < 0.0
    ensures FormatTime(Some(Finite(x))) == "0.000s"
  {
    FormatZero(0.0);
  }

  lemma FormatZero(z: real)
    requires z == 0.0
    ensures FormatSeconds(z) == "0.000s"
  {
    FormatUnderMinute(z);
    assert RoundHalfUp(z * 1000.0) == 0;
    ZeroWritten();
  }

  lemma ZeroWritten()
    ensures Fixed3(0) + "s" == "0.000s"
  {
    assert Pad3(0) == "000";
    assert NatToString(0) == "0";
  }

  /** Under a minute the time is written as its rounded thousandths and an "s". */
  lemma FormatUnderMinute(t: real)
    requires 0.0 <= t < 60.0
    ensures FormatSeconds(t) == Fixed3(RoundHalfUp(t * 1000.0)) + "s"
  {
    SecondsOnlyShape(t);
    JsToFixed3NonNegative(t);
    Refixed(RoundHalfUp(t * 1000.0));
  }

  /** Reading toFixed(3)'s output and writing it again changes nothing. */
  lemma Refixed(n: nat)
    ensures JsNumToFixed3(JsParseFloat(Fixed3(n))) == Fixed3(n)
  {
    JsParseFixed3(n);
    RewriteThousandths(n, JsParseFloat(Fixed3(n)));
  }

  lemma RewriteThousandths(n: nat, v: JsNum)
    requires v == Finite(n as real / 1000.0)
    ensures JsNumToFixed3(v) == Fixed3(n)
  {
    assert JsNumToFixed3(v) == JsToFixed3(n as real / 1000.0);
    JsToFixed3Exact(n);
  }

  lemma SecondsOnlyShape(t: real)
    requires 0.0 <= t < 60.0
    ensures FormatSeconds(t) == JsNumToFixed3(JsParseFloat(JsToFixed3(t))) + "s"
  {
    assert WholeMinutes(t) == 0;
    assert t - 60.0 * 0 as real == t;
  }

  /** From a minute on the time is written as minutes, a colon and the zero-filled seconds. */
  lemma FormatOverMinute(t: real, s: string)
    requires t >= 0.0 && WholeMinutes(t) > 0 && s == FormatSeconds(t)
    ensures s == NatToString(WholeMinutes(t)) + ":"
      + PadStart(Fixed3(RoundHalfUp((t - 60.0 * WholeMinutes(t) as real) * 1000.0)), 6, '0')
  {
    JsToFixed3NonNegative(t - 60.0 * WholeMinutes(t) as real);
  }

  lemma {:induction false} NoColonInFixed3(n: nat)
    ensures ':' !in Fixed3(n)
  {
    var w, f := NatToString(n / 1000), Pad3(n % 1000);
    assert Fixed3(n) == w + "." + f;
    assert ':' !in w by { assert AllDigits(w); }
    assert ':' !in f by { assert AllDigits(f); }
  }

  /**
   * Reading back what formatTime wrote gives the time again, up to the
   * rounding to thousandths: within half a millisecond.
   */
  lemma FormatThenParse(x: real)
    requires x >= 0.0
    ensures ParseTime(JStr(FormatTime(Some(Finite(x))))).v - x <= 0.0005
    ensures x - ParseTime(JStr(FormatTime(Some(Finite(x))))).v < 0.0005
  {
    var y := ReadFormatted(x);
    var mins := WholeMinutes(x);
    var r := x - 60.0 * mins as real;
    ThousandthsBound(r);
  }

  /** What formatTime writes for a non-negative time reads back as the minutes plus the rounded seconds. */
  lemma ReadFormatted(x: real) returns (y: real)
    requires x >= 0.0
    ensures y == ParseTime(JStr(FormatTime(Some(Finite(x))))).v
    ensures y == 60.0 * WholeMinutes(x) as real
               + RoundHalfUp((x - 60.0 * WholeMinutes(x) as real) * 1000.0) as real / 1000.0
  {
    var s := FormatSeconds(x);
    assert FormatTime(Some(Finite(x))) == s;
    ReadFormattedSeconds(x);
    FormatSecondsNonEmpty(x);
    NonEmptyParse(s);
    y := ParseTimeString(s).v;
  }

  lemma FormatSecondsNonEmpty(x: real)
    requires x >= 0.0
    ensures FormatSeconds(x) != ""
  {
  }

  lemma ReadFormattedSeconds(x: real)
    requires x >= 0.0
    ensures ParseTimeString(FormatSeconds(x)).v == 60.0 * WholeMinutes(x) as real
               + RoundHalfUp((x - 60.0 * WholeMinutes(x) as real) * 1000.0) as real / 1000.0
  {
    if WholeMinutes(x) > 0 {
      ReadOverMinute(x);
    } else {
      ReadUnderMinute(x);
    }
  }

  lemma ReadOverMinute(x: real)
    requires x >= 0.0 && WholeMinutes(x) > 0
    ensures ParseTimeString(FormatSeconds(x)).v == 60.0 * WholeMinutes(x) as real
               + RoundHalfUp((x - 60.0 * WholeMinutes(x) as real) * 1000.0) as real / 1000.0
  {
    var s := FormatSeconds(x);
    FormatOverMinute(x, s);
    var n := RoundHalfUp((x - 60.0 * WholeMinutes(x) as real) * 1000.0);
    ReadMinutesSeconds(WholeMinutes(x), n, s);
  }

  lemma ReadUnderMinute(x: real)
    requires x >= 0.0 && WholeMinutes(x) == 0
    ensures ParseTimeString(FormatSeconds(x)).v == 60.0 * WholeMinutes(x) as real
               + RoundHalfUp((x - 60.0 * WholeMinutes(x) as real) * 1000.0) as real / 1000.0
  {
    UnderMinuteValue(x);
    NoWholeMinutes(x);
  }

  lemma NoWholeMinutes(x: real)
    requires x >= 0.0 && WholeMinutes(x) == 0
    ensures 60.0 * WholeMinutes(x) as real == 0.0
    ensures RoundHalfUp((x - 60.0 * WholeMinutes(x) as real) * 1000.0) == RoundHalfUp(x * 1000.0)
  {
    assert x - 60.0 * WholeMinutes(x) as real == x;
  }

  lemma UnderMinuteValue(x: real)
    requires x >= 0.0 && WholeMinutes(x) == 0
    ensures ParseTimeString(FormatSeconds(x)).v == RoundHalfUp(x * 1000.0) as real / 1000.0
  {
    FormatUnderMinute(x);
    ReadSecondsOnly(RoundHalfUp(x * 1000.0));
  }

  lemma NonEmptyParse(s: string)
    requires s != ""
    ensures ParseTime(JStr(s)) == ParseTimeString(s)
  {
  }

  /** "M:SS.sss" reads back as M minutes and the seconds. */
  lemma ReadMinutesSeconds(mins: nat, n: nat, s: string)
    requires mins > 0 && s == NatToString(mins) + ":" + PadStart(Fixed3(n), 6, '0')
    ensures ParseTimeString(s).v == 60.0 * mins as real + n as real / 1000.0
  {
    var m := NatToString(mins);
    var p := PadStart(Fixed3(n), 6, '0');
    MinutesSecondsShape(mins, n);
    assert s == m + [':'] + p;
    SplitTwo(m, ':', p);
    ClockValueOfTwo(s, m, p);
    JsParseIntDigits(m);
    JsParsePadded(n);
  }

  /** parseFloat reads the zero-filled seconds field. */
  lemma JsParsePadded(n: nat)
    ensures JsParseFloat(PadStart(Fixed3(n), 6, '0')) == Finite(n as real / 1000.0)
  {
    var f := Fixed3(n);
    var p := PadStart(f, 6, '0');
    JsParsePaddedFixed3(n, |p| - |f|, []);
    assert Repeat('0', |p| - |f|) + f + [] == p;
  }

  /** "M:SS.sss" is already trimmed, takes neither shortcut and has one colon. */
  lemma MinutesSecondsShape(mins: nat, n: nat)
    requires mins > 0
    ensures var m, p := NatToString(mins), PadStart(Fixed3(n), 6, '0');
      ':' !in m && ':' !in p &&
      ParseTimeString(m + ":" + p) == ClockValue(m + ":" + p)
  {
    var m := NatToString(mins);
    var p := PadStart(Fixed3(n), 6, '0');
    var s := m + ":" + p;
    NoColonInDigits(m);
    NoColonInPadded(n);
    TrimmedMinutesSeconds(m, p);
    assert s[0] != '0';
  }

  lemma NoColonInPadded(n: nat)
    ensures ':' !in PadStart(Fixed3(n), 6, '0')
    ensures IsDigit(PadStart(Fixed3(n), 6, '0')[|PadStart(Fixed3(n), 6, '0')| - 1])
  {
    var f := Fixed3(n);
    var p := PadStart(f, 6, '0');
    NoColonInFixed3(n);
    assert p == Repeat('0', |p| - |f|) + f;
    assert p[|p| - 1] == Pad3(n % 1000)[2];
  }

  lemma TrimmedMinutesSeconds(m: string, p: string)
    requires AllDigits(m) && |m| >= 1 && p != [] && IsDigit(p[|p| - 1])
    ensures JsTrim(m + ":" + p) == m + ":" + p
  {
    var s := m + ":" + p;
    assert s[0] == m[0] && s[|s| - 1] == p[|p| - 1];
    JsTrimNoSpace(s);
  }

  /** "S.sss" followed by "s" reads back as the seconds. */
  lemma ReadSecondsOnly(n: nat)
    ensures ParseTimeString(Fixed3(n) + "s").v == n as real / 1000.0
  {
    var s := Fixed3(n) + "s";
    SecondsText(n, s);
    assert ParseTimeString(s) == ClockValue(s);
    assert ClockValue(s) == OrElse(JsParseFloat(s), Finite(0.0));
  }

  /** "S.sss" followed by "s": no white space, no shortcut form, no colon, and parseFloat reads the seconds. */
  lemma SecondsText(n: nat, s: string)
    requires s == Fixed3(n) + "s"
    ensures JsTrim(s) == s && !DoubleZeroForm(s) && !ZeroForm(s) && Split(s, ':') == [s]
    ensures JsParseFloat(s) == Finite(n as real / 1000.0)
  {
    var f := Fixed3(n);
    NoColonInFixed3(n);
    assert ':' !in s;
    assert IsDigit(s[0]) by { assert IsDigit(NatToString(n / 1000)[0]); }
    JsTrimNoSpace(s);
    assert !DoubleZeroForm(s) && !ZeroForm(s) by { assert s[2] != ':' && s[1] != ':'; }
    assert Split(s, ':') == [s];
    JsParsePaddedFixed3(n, 0, "s");
    assert Repeat('0', 0) + f + "s" == s;
  }

  /** A time of whole milliseconds survives formatting and reading back exactly. */
  lemma FormatThenParseExact(ms: nat)
    ensures ParseTime(JStr(FormatTime(Some(Finite(ms as real / 1000.0))))) == Finite(ms as real / 1000.0)
  {
    ExactRoundTrip(ms, ms as real / 1000.0);
  }

  lemma ExactRoundTrip(ms: nat, x: real)
    requires x == ms as real / 1000.0
    ensures ParseTime(JStr(FormatTime(Some(Finite(x))))) == Finite(x)
  {
    var y := ReadFormatted(x);
    ExactMilliseconds(ms, x);
    ParsedIsFinite(FormatTime(Some(Finite(x))));
  }

  lemma ParsedIsFinite(s: string)
    ensures ParseTime(JStr(s)) == Finite(ParseTime(JStr(s)).v)
  {
  }

  /** A whole number of milliseconds is its whole minutes plus its rounded remainder. */
  lemma ExactMilliseconds(ms: nat, x: real)
    requires x == ms as real / 1000.0
    ensures 60.0 * WholeMinutes(x) as real + RoundHalfUp((x - 60.0 * WholeMinutes(x) as real) * 1000.0) as real / 1000.0 == x
  {
    var mins := WholeMinutes(x);
    var r := x - 60.0 * mins as real;
    assert r * 1000.0 == (ms - 60000 * mins) as real;
    RoundIntegers(ms - 60000 * mins);
  }
}
