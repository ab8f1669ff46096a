/**
 * Lap times on the session list page. Reading differs from the session page:
 * a missing, empty or unreadable time, and any time that reads as 0 without
 * a colon, is Infinity, so that it sorts after every real time. Writing
 * shows "-" for Infinity and NaN.
 */
module IndexTime {
  import opened Text
  import opened JsValues
  import opened Numerals
  import opened SessionTime

  /** The string rule: "minutes:seconds" as on the session page, anything else its parseFloat or Infinity. */
  function IndexParseString(s: string): (r: JsNum)
    ensures !r.NaN? && !r.NegInf?
  {
    var parts := Split(s, ':');
    if |parts| == 2 then
      Add(Mul(OrElse(JsParseInt(parts[0]), Finite(0.0)), Finite(60.0)), OrElse(JsParseFloat(parts[1]), Finite(0.0)))
    else OrElse(JsParseFloat(s), PosInf)
  }

  /**
   * parseTime of the list page: null, a missing field and "" are Infinity,
   * a number is itself, anything else is read from its string form. The
   * result is never NaN and never minus Infinity.
   */
  function IndexParseTime(t: Json): (r: JsNum)
    ensures !r.NaN? && !r.NegInf?
    ensures t.JNull? || t == JStr("") ==> r == PosInf
    ensures t.JNum? ==> r == Finite(t.x)
  {
    match t
    case JNull => PosInf
    case JNum(x) => Finite(x)
    case JBool(b) => IndexParseString(if b then "true" else "false")
    case JStr(s) => if s == "" then PosInf else IndexParseString(s)
  }

  /** Without a colon, a string that reads as 0 (such as "0" or "0.000s") is Infinity, like an unreadable one. */
  lemma ZeroWithoutColonIsInfinity(s: string)
    requires s != "" && ':' !in s
    requires !Truthy(JsParseFloat(s))
    ensures IndexParseTime(JStr(s)) == PosInf
  {
    assert Split(s, ':') == [s];
  }

  /** "0" is Infinity. */
  lemma BareZeroIsInfinity(s: string)
    requires s == "0"
    ensures IndexParseTime(JStr(s)) == PosInf
  {
    DigitsFloat(s);
    ZeroWithoutColonIsInfinity(s);
  }

  /** JavaScript's `%` on a negative time: the remainder takes the sign of the time. */
  function NegativeRemainder(x: real): (r: real)
    requires x < 0.0
    ensures -60.0 < r <= 0.0
  {
    x + 60.0 * WholeMinutes(-x) as real
  }

  /**
   * formatTime of the list page: "-" for Infinity and NaN; with at least a
   * minute "M:SS.sss", otherwise the seconds with three decimals and an "s".
   */
  function IndexFormatTime(n: JsNum): (r: string)
    ensures r == "-" <==> n.PosInf? || n.NaN?
    ensures n.Finite? ==> |r| > 0 && (r[|r| - 1] == 's' <==> n.v < 60.0)
  {
    match n
    case PosInf => "-"
    case NaN => "-"
    // Math.floor(-Infinity / 60) is not positive and -Infinity % 60 is NaN
    case NegInf => "NaNs"
    case Finite(x) =>
      if x < 0.0 then JsToFixed3(NegativeRemainder(x)) + "s"
      else
        var mins := WholeMinutes(x);
        var secs := JsToFixed3(x - 60.0 * mins as real);
        if mins > 0 then NatToString(mins) + ":" + PadStart(secs, 6, '0')
        else secs + "s"
  }

  /** From a minute on the list page writes a time as the session page does. */
  lemma SameAsSessionPageOverMinute(x: real)
    requires x >= 0.0 && WholeMinutes(x) > 0
    ensures IndexFormatTime(Finite(x)) == FormatSeconds(x)
  {
    SameOverMinute(x, WholeMinutes(x));
  }

  lemma SameOverMinute(x: real, m: nat)
    requires x >= 0.0 && m == WholeMinutes(x) && m > 0
    ensures IndexFormatTime(Finite(x)) == FormatSeconds(x)
  {
    var r := x - 60.0 * m as real;
    IndexFormatOver(x, m, r);
    SessionFormatOver(x, m, r);
  }

  lemma SessionFormatOver(x: real, m: nat, r: real)
    requires x >= 0.0 && m == WholeMinutes(x) && m > 0 && r == x - 60.0 * m as real
    ensures FormatSeconds(x) == NatToString(m) + ":" + PadStart(JsToFixed3(r), 6, '0')
  {
  }

  /** From a minute on: the whole minutes, a colon and the zero-filled rest with three decimals. */
  lemma IndexFormatOver(x: real, m: nat, r: real)
    requires x >= 0.0 && m == WholeMinutes(x) && m > 0 && r == x - 60.0 * m as real
    ensures IndexFormatTime(Finite(x)) == NatToString(m) + ":" + PadStart(JsToFixed3(r), 6, '0')
  {
  }

  /**
   * Below 0 the list page writes what `%` leaves of the time: a minus sign
   * and the magnitude rounded to thousandths, halves away from zero, and an
   * "s"; a whole number of minutes leaves minus zero, written "0.000s".
   */
  lemma IndexFormatNegative(x: real)
    requires x < 0.0
    ensures NegativeRemainder(x) < 0.0 ==>
      IndexFormatTime(Finite(x)) == "-" + Fixed3(RoundHalfUp(-NegativeRemainder(x) * 1000.0)) + "s"
    ensures NegativeRemainder(x) == 0.0 ==> IndexFormatTime(Finite(x)) == "0.000s"
  {
    var r := NegativeRemainder(x);
    IndexFormatBelowZero(x, r);
    if r < 0.0 {
      JsToFixed3Negative(r);
    } else {
      JsToFixed3Exact(0);
      assert 0 as real / 1000.0 == 0.0;
    }
  }

  /** Below 0 the list page writes the remainder and an "s". */
  lemma IndexFormatBelowZero(x: real, r: real)
    requires x < 0.0 && r == NegativeRemainder(x)
    ensures IndexFormatTime(Finite(x)) == JsToFixed3(r) + "s"
  {
  }

  /** A negative time of whole milliseconds above minus a minute survives writing and reading back exactly. */
  lemma IndexNegativeRoundTrip(ms: nat, x: real)
    requires 0 < ms < 60000 && x == -(ms as real / 1000.0)
    ensures IndexParseTime(JStr(IndexFormatTime(Finite(x)))) == Finite(x)
  {
    var s := IndexFormatTime(Finite(x));
    IndexNegativeShape(ms, x, s);
    IndexReadNegativeSeconds(ms, s);
  }

  /** Above minus a minute, negative whole milliseconds are written as a minus sign, the seconds and an "s". */
  lemma IndexNegativeShape(ms: nat, x: real, s: string)
    requires 0 < ms < 60000 && x == -(ms as real / 1000.0) && s == IndexFormatTime(Finite(x))
    ensures s == "-" + Fixed3(ms) + "s"
  {
    UnderMinuteRemainder(x);
    assert -x * 1000.0 == ms as real;
    RoundIntegers(ms);
    IndexFormatNegative(x);
  }

  /** Above minus a minute `%` leaves a negative time as it is. */
  lemma UnderMinuteRemainder(x: real)
    requires -60.0 < x < 0.0
    ensures NegativeRemainder(x) == x
  {
    assert WholeMinutes(-x) == 0;
  }

  /** "-S.sss" followed by "s" reads back as minus the seconds. */
  lemma IndexReadNegativeSeconds(n: nat, s: string)
    requires n > 0 && s == "-" + Fixed3(n) + "s"
    ensures IndexParseTime(JStr(s)) == Finite(-(n as real / 1000.0))
  {
    NoColonInFixed3(n);
    assert ':' !in s;
    assert Split(s, ':') == [s];
    JsParseNegativeFixed3(n, "s");
  }

  /** -30.0625 lies halfway between two thousandths and is written with the larger magnitude. */
  lemma IndexFormatTieExample()
    ensures IndexFormatTime(Finite(-30.0625)) == "-30.063s"
  {
    IndexFormatNegative(-30.0625);
    assert WholeMinutes(30.0625) == 0;
    assert RoundHalfUp(30.0625 * 1000.0) == 30063;
    assert NatToString(30) == "30" by {
      assert NatToString(3) == "3";
    }
    assert Pad3(63) == "063";
  }

  /** A time of whole milliseconds, above 0, survives writing and reading back exactly. */
  lemma IndexRoundTrip(ms: nat, x: real)
    requires ms > 0 && x == ms as real / 1000.0
    ensures IndexParseTime(JStr(IndexFormatTime(Finite(x)))) == Finite(x)
  {
    var s := IndexFormatTime(Finite(x));
    IndexReadBack(ms, x, s);
  }

  lemma IndexReadBack(ms: nat, x: real, s: string)
    requires ms > 0 && x == ms as real / 1000.0
    requires s == IndexFormatTime(Finite(x))
    ensures IndexParseTime(JStr(s)) == Finite(x)
  {
    if WholeMinutes(x) > 0 {
      var n := IndexOverMinuteShape(x, s);
      ExactMilliseconds(ms, x);
      ReadBackOverMinute(WholeMinutes(x), n, x, s);
    } else {
      var n := IndexUnderMinuteShape(x, s);
      ReadBackUnderMinute(ms, x, n, s);
    }
  }

  lemma ReadBackOverMinute(mins: nat, n: nat, x: real, s: string)
    requires mins > 0 && 60.0 * mins as real + n as real / 1000.0 == x
    requires s == NatToString(mins) + ":" + PadStart(Fixed3(n), 6, '0')
    ensures IndexParseTime(JStr(s)) == Finite(x)
  {
    IndexReadMinutesSeconds(mins, n, s);
  }

  lemma ReadBackUnderMinute(ms: nat, x: real, n: nat, s: string)
    requires ms > 0 && x == ms as real / 1000.0 && WholeMinutes(x) == 0
    requires n == RoundHalfUp(x * 1000.0) && s == Fixed3(n) + "s"
    ensures IndexParseTime(JStr(s)) == Finite(x)
  {
    ExactMilliseconds(ms, x);
    NoWholeMinutes(x);
    IndexReadSeconds(n, s);
  }

  /** From a minute on: the whole minutes, a colon and the zero-filled rounded seconds. */
  lemma IndexOverMinuteShape(x: real, s: string) returns (n: nat)
    requires x >= 0.0 && WholeMinutes(x) > 0 && s == IndexFormatTime(Finite(x))
    ensures n == RoundHalfUp((x - 60.0 * WholeMinutes(x) as real) * 1000.0)
    ensures s == NatToString(WholeMinutes(x)) + ":" + PadStart(Fixed3(n), 6, '0')
  {
    var m := WholeMinutes(x);
    var r := x - 60.0 * m as real;
    IndexFormatOver(x, m, r);
    n := PaddedSeconds(m, r, s);
  }

  /** The seconds written after the colon are the remainder rounded to thousandths. */
  lemma PaddedSeconds(m: nat, r: real, s: string) returns (n: nat)
    requires r >= 0.0 && s == NatToString(m) + ":" + PadStart(JsToFixed3(r), 6, '0')
    ensures n == RoundHalfUp(r * 1000.0)
    ensures s == NatToString(m) + ":" + PadStart(Fixed3(n), 6, '0')
  {
    JsToFixed3NonNegative(r);
    n := RoundHalfUp(r * 1000.0);
  }

  /** Under a minute: the rounded seconds and an "s". */
  lemma IndexUnderMinuteShape(x: real, s: string) returns (n: nat)
    requires x >= 0.0 && WholeMinutes(x) == 0 && s == IndexFormatTime(Finite(x))
    ensures n == RoundHalfUp(x * 1000.0)
    ensures s == Fixed3(n) + "s"
  {
    assert x - 60.0 * WholeMinutes(x) as real == x;
    JsToFixed3NonNegative(x);
    n := RoundHalfUp(x * 1000.0);
  }

  /** "M:SS.sss" reads back as M minutes and the seconds. */
  lemma IndexReadMinutesSeconds(mins: nat, n: nat, s: string)
    requires mins > 0 && s == NatToString(mins) + ":" + PadStart(Fixed3(n), 6, '0')
    ensures IndexParseTime(JStr(s)) == Finite(60.0 * mins as real + n as real / 1000.0)
  {
    var m := NatToString(mins);
    var p := PadStart(Fixed3(n), 6, '0');
    assert ':' !in m by { NoColonInDigits(m); }
    assert ':' !in p by { NoColonInPadded(n); }
    assert JsParseInt(m) == Finite(mins as real) by { JsParseIntDigits(m); }
    assert JsParseFloat(p) == Finite(n as real / 1000.0) by { JsParsePadded(n); }
    IndexReadClock(m, p, s, mins as real, n as real / 1000.0);
  }

  /** "a:b" where both sides read as numbers: a minutes and b seconds. */
  lemma IndexReadClock(a: string, b: string, s: string, x: real, y: real)
    requires ':' !in a && ':' !in b && s == a + ":" + b
    requires JsParseInt(a) == Finite(x) && JsParseFloat(b) == Finite(y)
    ensures IndexParseTime(JStr(s)) == Finite(60.0 * x + y)
  {
    assert s == a + [':'] + b;
    SplitTwo(a, ':', b);
  }

  /** "S.sss" followed by "s" reads back as the seconds, when they are not 0. */
  lemma IndexReadSeconds(n: nat, s: string)
    requires n > 0 && s == Fixed3(n) + "s"
    ensures IndexParseTime(JStr(s)) == Finite(n as real / 1000.0)
  {
    NoColonInFixed3(n);
    assert ':' !in s;
    assert Split(s, ':') == [s];
    JsParsePaddedFixed3(n, 0, "s");
    assert Repeat('0', 0) + Fixed3(n) + "s" == s;
  }

  /** The round trip stops at 0: a zero time is written "0.000s", which reads back as Infinity. */
  lemma ZeroReadsBackAsInfinity(z: real)
    requires z == 0.0
    ensures IndexFormatTime(Finite(z)) == "0.000s"
    ensures IndexParseTime(JStr(IndexFormatTime(Finite(z)))) == PosInf
  {
    ZeroFormatted(z);
    ZeroWritten();
    ZeroRead(Fixed3(0) + "s");
  }

  lemma ZeroFormatted(z: real)
    requires z == 0.0
    ensures IndexFormatTime(Finite(z)) == Fixed3(0) + "s"
  {
    assert WholeMinutes(z) == 0;
    assert z - 60.0 * 0 as real == 0.0;
    JsToFixed3Exact(0);
    assert 0 as real / 1000.0 == 0.0;
  }

  lemma ZeroRead(s: string)
    requires s == Fixed3(0) + "s"
    ensures IndexParseTime(JStr(s)) == PosInf
  {
    NoColonInFixed3(0);
    assert ':' !in s;
    JsParsePaddedFixed3(0, 0, "s");
    assert Repeat('0', 0) + Fixed3(0) + "s" == s;
    ZeroWithoutColonIsInfinity(s);
  }
}
