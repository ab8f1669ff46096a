/**
 * The index generator at the root of the repository (generate_list.py): it
 * reads each session file, keeps the lap times that parse to a positive
 * number of seconds and writes one summary per session (id, the copied
 * descriptive fields, the lap count, the fastest and the average lap as
 * numbers and as "MM:SS.mmm" strings).
 *
 * A session file is given as the JSON values of its fields, a missing field
 * being null; a file that cannot be read (OSError) or is not JSON
 * (JSONDecodeError) is `None`. Each lap entry is given as the value of its
 * "time" field.
 */
module IndexScript {
  import opened Optional
  import opened Text
  import opened JsValues
  import opened Numerals
  import opened SessionTime
  import opened Timeline
  import opened Laps
  import opened RealArith

  // ----- parse_time_to_seconds -----

  /**
   * The string path of parse_time_to_seconds: blank is None, "M:S" is
   * M * 60 + S, a single part is float() of it, anything else (three or more
   * parts, or a part float() refuses) is None.
   */
  function ParseTimeText(s: string): (r: Option<real>)
    ensures PyStrip(s) == "" ==> r.None?
    ensures |Split(s, ':')| > 2 ==> r.None?
  {
    if PyStrip(s) == "" then None
    else
      var parts := Split(s, ':');
      if |parts| == 2 then
        match (PyFloat(parts[0]), PyFloat(parts[1]))
        case (Some(minutes), Some(seconds)) => Some(minutes * 60.0 + seconds)
        case _ => None
      else if |parts| == 1 then PyFloat(parts[0])
      else None
  }

  /**
   * parse_time_to_seconds on a JSON value. Python's truthiness agrees with
   * JsonTruthy on JSON values: null, false, 0 and "" are falsy. A number
   * goes through float(), and so does true, since bool is a subclass of int.
   */
  function ParseTimeToSeconds(t: Json): (r: Option<real>)
    ensures !JsonTruthy(t) ==> r.None?
    ensures t.JNum? && t.x != 0.0 ==> r == Some(t.x)
    ensures t == JBool(true) ==> r == Some(1.0)
    ensures t.JStr? && t.s != "" ==> r == ParseTimeText(t.s)
  {
    if !JsonTruthy(t) then None
    else
      match t
      case JNum(x) => Some(x)
      case JBool(_) => Some(1.0)
      case JStr(s) => ParseTimeText(s)
      case JNull => None
  }

  // ----- format_seconds_to_time -----

  /** timedelta(seconds=x).total_seconds(): `x` rounded to whole microseconds, halves to even. */
  function TotalSeconds(x: real): (t: real)
    ensures t - x <= 0.0000005 && x - t <= 0.0000005
  {
    RoundHalfEven(x * 1000000.0) as real / 1000000.0
  }

  /** Python's "%02d": zero-filled to two characters, a minus sign counting toward the width. */
  function TwoDigitField(m: int): (s: string)
    ensures |s| >= 2
  {
    if m < 0 then IntToString(m) else PadStart(NatToString(m), 2, '0')
  }

  /** Minutes from 0 to 99 take exactly two digits. */
  lemma {:induction false} TwoDigitMinutes(m: int)
    requires 0 <= m < 100
    ensures |TwoDigitField(m)| == 2
  {
    if m >= 10 {
      assert NatToString(m) == NatToString(m / 10) + [DigitChar(m % 10)];
    }
  }

  /** The whole minutes of a formatted time: int(total_seconds // 60). */
  function MinutesOf(x: real): int
  {
    MathFloor(TotalSeconds(x) / 60.0)
  }

  /** The seconds left over: total_seconds % 60, which Python keeps non-negative. */
  function RemainingSeconds(x: real): (r: real)
    ensures 0.0 <= r < 60.0
  {
    TotalSeconds(x) - 60.0 * MinutesOf(x) as real
  }

  /**
   * format_seconds_to_time: None for None; otherwise the whole minutes with
   * "%02d", a colon, and the seconds left over with "%06.3f" (three decimals,
   * halves to even, zero-filled to six characters).
   */
  function FormatSecondsToTime(seconds: Option<real>): (r: Option<string>)
    ensures r.Some? <==> seconds.Some?
  {
    match seconds
    case None => None
    case Some(x) => Some(TwoDigitField(MinutesOf(x)) + ":" + PadStart(PyFixed3(RemainingSeconds(x)), 6, '0'))
  }

  /** The thousandths written in the seconds field of a formatted time. */
  function ThousandthsOf(x: real): (k: nat)
    ensures k <= 60000
  {
    RoundHalfEven(RemainingSeconds(x) * 1000.0)
  }

  /** A formatted time is the minutes field, a colon and the zero-filled seconds field. */
  lemma {:induction false} FormatShape(x: real)
    ensures FormatSecondsToTime(Some(x)).Some?
    ensures FormatSecondsToTime(Some(x)).value
         == TwoDigitField(MinutesOf(x)) + ":" + PadStart(Fixed3(ThousandthsOf(x)), 6, '0')
  {
  }

  /**
   * The seconds field is exactly six characters, at most "60.000": a
   * remainder of 59.9995 seconds or more is written "60.000".
   */
  lemma {:induction false} SecondsFieldWidth(k: nat)
    requires k <= 60000
    ensures |PadStart(Fixed3(k), 6, '0')| == 6
  {
    var w := k / 1000;
    if w >= 10 {
      assert NatToString(w) == NatToString(w / 10) + [DigitChar(w % 10)];
    }
    assert |Fixed3(k)| == |NatToString(w)| + 4;
  }

  // ----- reading a formatted time back -----

  /**
   * What a field of a clock text reads back as: float() of it, when it has no
   * colon and no white space at either end, and None otherwise.
   */
  function FieldValue(f: string): Option<real>
  {
    if f != [] && ':' !in f && !IsPySpace(f[0]) && !IsPySpace(f[|f| - 1]) then PyFloat(f) else None
  }

  /** A digit string is a field worth its value. */
  lemma {:induction false} DigitsField(a: string)
    requires AllDigits(a) && |a| >= 1
    ensures FieldValue(a) == Some(DigitsValue(a) as real)
  {
    NoColonInDigits(a);
    PyStripNoSpace(a);
    ReadInteger(a, []);
    assert a + [] == a;
  }

  /** A minus sign and digits is a field worth minus their value. */
  lemma {:induction false} NegativeField(d: string, a: string)
    requires AllDigits(d) && |d| >= 1 && a == "-" + d
    ensures FieldValue(a) == Some(-(DigitsValue(d) as real))
  {
    assert a[0] == '-' && a[|a| - 1] == d[|d| - 1];
    NoColonInDigits(d);
    PyStripNoSpace(a);
    ReadInteger(d, []);
    assert d + [] == d;
    assert a[1..] == d;
  }

  /** The minutes field reads back as the minutes, negative ones included. */
  lemma {:induction false} MinutesField(m: int)
    ensures FieldValue(TwoDigitField(m)) == Some(m as real)
  {
    if m < 0 {
      NegativeField(NatToString(-m), TwoDigitField(m));
    } else {
      var d := NatToString(m);
      var a := PadStart(d, 2, '0');
      LeadingZeros(|a| - |d|, d);
      DigitsField(a);
    }
  }

  /** A string that starts and ends with a digit and is one whole numeral is a field worth that numeral. */
  lemma {:induction false} NumeralField(b: string, v: real)
    requires b != [] && IsDigit(b[0]) && IsDigit(b[|b| - 1]) && ':' !in b
    requires ReadNumeral(b) == Numeral(v, |b|)
    ensures FieldValue(b) == Some(v)
  {
    PyStripNoSpace(b);
  }

  /** The zero-filled seconds field reads back as its thousandths. */
  lemma {:induction false} SecondsField(k: nat) returns (b: string, v: real)
    ensures b == PadStart(Fixed3(k), 6, '0') && v == k as real / 1000.0
    ensures FieldValue(b) == Some(v)
  {
    var f := Fixed3(k);
    b, v := PadStart(f, 6, '0'), k as real / 1000.0;
    ZeroFilledSeconds(k, |b| - |f|, b);
    SecondsFieldEnds(k, b);
    NumeralField(b, v);
  }

  lemma {:induction false} SecondsFieldEnds(k: nat, b: string)
    requires b == PadStart(Fixed3(k), 6, '0')
    ensures b != [] && IsDigit(b[0]) && IsDigit(b[|b| - 1]) && ':' !in b
  {
    var f := Fixed3(k);
    PaddedFixed3StartsWithDigit(k, |b| - |f|, []);
    assert b == Repeat('0', |b| - |f|) + f + [];
    NoColonInPadded(k);
  }

  lemma {:induction false} ZeroFilledSeconds(k: nat, z: nat, b: string)
    requires b == PadStart(Fixed3(k), 6, '0') && z == |b| - |Fixed3(k)|
    ensures ReadNumeral(b) == Numeral(k as real / 1000.0, |b|)
  {
    assert b == Repeat('0', z) + Fixed3(k) + [];
    ReadFixed3(k, z, []);
  }

  /** Two fields joined by a colon read back as the first times 60 plus the second. */
  lemma {:induction false} ReadClock(a: string, b: string, s: string, u: real, v: real)
    requires s == a + ":" + b && FieldValue(a) == Some(u) && FieldValue(b) == Some(v)
    ensures ParseTimeText(s).Some? && ParseTimeText(s).value == u * 60.0 + v
  {
    assert s == a + [':'] + b;
    SplitTwo(a, ':', b);
    assert s[0] == a[0] && s[|s| - 1] == b[|b| - 1];
    PyStripNoSpace(s);
    ParseTwoFields(s, a, b, u, v);
  }

  lemma {:induction false} ParseTwoFields(s: string, a: string, b: string, u: real, v: real)
    requires PyStrip(s) == s && s != "" && Split(s, ':') == [a, b]
    requires PyFloat(a) == Some(u) && PyFloat(b) == Some(v)
    ensures ParseTimeText(s).Some? && ParseTimeText(s).value == u * 60.0 + v
  {
  }

  /**
   * Whatever the time, parse_time_to_seconds reads what
   * format_seconds_to_time wrote as the minutes plus the rounded seconds.
   */
  lemma {:induction false} FormatThenParse(x: real)
    ensures ParseTimeToSeconds(JStr(FormatSecondsToTime(Some(x)).value)).Some?
    ensures ParseTimeToSeconds(JStr(FormatSecondsToTime(Some(x)).value)).value
         == MinutesOf(x) as real * 60.0 + ThousandthsOf(x) as real / 1000.0
  {
    FormatShape(x);
    ReadFormattedClock(MinutesOf(x), ThousandthsOf(x), FormatSecondsToTime(Some(x)).value);
  }

  /** The clock text of any minutes and thousandths reads back as their value. */
  lemma {:induction false} ReadFormattedClock(m: int, k: nat, s: string)
    requires s == TwoDigitField(m) + ":" + PadStart(Fixed3(k), 6, '0')
    ensures ParseTimeText(s).Some? && ParseTimeText(s).value == m as real * 60.0 + k as real / 1000.0
  {
    MinutesField(m);
    ReadBeforeSeconds(TwoDigitField(m), k, s, m as real);
  }

  lemma {:induction false} ReadBeforeSeconds(a: string, k: nat, s: string, u: real)
    requires s == a + ":" + PadStart(Fixed3(k), 6, '0') && FieldValue(a) == Some(u)
    ensures ParseTimeText(s).Some? && ParseTimeText(s).value == u * 60.0 + k as real / 1000.0
  {
    var b, v := SecondsField(k);
    ReadClock(a, b, s, u, v);
  }

  /** Reading back moves a time by at most half a millisecond plus half a microsecond. */
  lemma FormatThenParseWithin(x: real)
    ensures ParseTimeToSeconds(JStr(FormatSecondsToTime(Some(x)).value)).Some?
    ensures ParseTimeToSeconds(JStr(FormatSecondsToTime(Some(x)).value)).value - x <= 0.0005005
    ensures x - ParseTimeToSeconds(JStr(FormatSecondsToTime(Some(x)).value)).value <= 0.0005005
  {
    FormatThenParse(x);
    var m := MinutesOf(x);
    var k := ThousandthsOf(x);
    var t := TotalSeconds(x);
    var r := RemainingSeconds(x);
    assert k as real - 0.5 <= r * 1000.0 <= k as real + 0.5;
    assert m as real * 60.0 + k as real / 1000.0 - t <= 0.0005;
    assert t - (m as real * 60.0 + k as real / 1000.0) <= 0.0005;
  }

  /** A time of whole milliseconds, of either sign, survives formatting and reading back exactly. */
  lemma FormatThenParseExact(n: int, x: real)
    requires x == n as real / 1000.0
    ensures ParseTimeToSeconds(JStr(FormatSecondsToTime(Some(x)).value)).Some?
    ensures ParseTimeToSeconds(JStr(FormatSecondsToTime(Some(x)).value)).value == x
  {
    ExactClock(n, x);
    ExactReadBack(x);
  }

  lemma {:induction false} ExactReadBack(x: real)
    requires MinutesOf(x) as real * 60.0 + ThousandthsOf(x) as real / 1000.0 == x
    ensures ParseTimeToSeconds(JStr(FormatSecondsToTime(Some(x)).value)).Some?
    ensures ParseTimeToSeconds(JStr(FormatSecondsToTime(Some(x)).value)).value == x
  {
    FormatThenParse(x);
  }

  /** Whole milliseconds are written without rounding: the clock fields add up to the time. */
  lemma {:induction false} ExactClock(n: int, x: real)
    requires x == n as real / 1000.0
    ensures MinutesOf(x) as real * 60.0 + ThousandthsOf(x) as real / 1000.0 == x
  {
    ExactMicroseconds(n, x);
    var m := MinutesOf(x);
    var r := RemainingSeconds(x);
    assert r * 1000.0 == (n - 60000 * m) as real;
    RoundIntegers(n - 60000 * m);
    assert ThousandthsOf(x) == n - 60000 * m;
  }

  lemma ExactMicroseconds(n: int, x: real)
    requires x == n as real / 1000.0
    ensures TotalSeconds(x) == x
  {
    assert x * 1000000.0 == (n * 1000) as real;
    RoundIntegers(n * 1000);
  }

  // ----- process_session_file -----

  /** The fields of a session file the summary reads; a missing field is null, a missing lap list empty. */
  datatype SessionFile = SessionFile(
    sessionId: Json, driver: Json, track: Json, sessionDate: Json, kart: Json,
    fastestLap: Json, lapTimes: seq<Json>)

  /** One entry of sessions-list.json. */
  datatype Summary = Summary(
    id: Json, driver: Json, track: Json, sessionDate: Json, kart: Json,
    fastestLap: Option<string>, averageLap: Option<string>,
    fastestLapS: Option<real>, averageLapS: Option<real>, lapsCount: nat)

  /** The lap times that parse to a positive number of seconds, in lap order. */
  function ValidTimes(laps: seq<Json>): (r: seq<real>)
    ensures |r| <= |laps|
    ensures forall v :: v in r ==> v > 0.0
  {
    if laps == [] then []
    else
      var init := ValidTimes(laps[..|laps| - 1]);
      match ParseTimeToSeconds(laps[|laps| - 1])
      case Some(v) => if v > 0.0 then init + [v] else init
      case None => init
  }

  /** Each lap contributes on its own: the valid times of a list are those of its parts, in order. */
  lemma {:induction false} ValidTimesAppend(a: seq<Json>, b: seq<Json>)
    ensures ValidTimes(a + b) == ValidTimes(a) + ValidTimes(b)
    decreases |b|
  {
    if b == [] {
      assert a + b == a;
    } else {
      var b' := b[..|b| - 1];
      assert (a + b)[..|a + b| - 1] == a + b';
      assert (a + b)[|a + b| - 1] == b[|b| - 1];
      ValidTimesAppend(a, b');
    }
  }

  /** A single lap counts exactly when its time parses to a positive number. */
  lemma ValidTimesOne(t: Json)
    ensures ValidTimes([t]) == match ParseTimeToSeconds(t)
      case Some(v) => if v > 0.0 then [v] else []
      case None => []
  {
    assert [t][..0] == [];
  }

  /** The loop of process_session_file that collects the positive lap times. */
  method CollectValidTimes(laps: seq<Json>) returns (times: seq<real>)
    ensures times == ValidTimes(laps)
  {
    times := [];
    var i := 0;
    while i < |laps|
      invariant 0 <= i <= |laps|
      invariant times == ValidTimes(laps[..i])
    {
      assert laps[..i + 1][..i] == laps[..i];
      var seconds := ParseTimeToSeconds(laps[i]);
      if seconds.Some? && seconds.value > 0.0 {
        times := times + [seconds.value];
      }
      i := i + 1;
    }
    assert laps[..|laps|] == laps;
  }

  /** The mean of a non-empty list of times. */
  function Average(times: seq<real>): real
    requires times != []
  {
    Sum(times) / |times| as real
  }

  lemma {:induction false} SumAtLeast(times: seq<real>, m: real)
    requires forall t :: t in times ==> m <= t
    ensures Sum(times) >= |times| as real * m
  {
    if times != [] {
      var init := times[..|times| - 1];
      assert forall t :: t in init ==> t in times;
      SumAtLeast(init, m);
      assert times[|times| - 1] in times;
    }
  }

  /** The fastest lap is never slower than the average lap. */
  lemma FastestAtMostAverage(times: seq<real>)
    requires times != []
    ensures Fastest(times) <= Average(times)
  {
    var f := Fastest(times);
    var n := |times| as real;
    SumAtLeast(times, f);
    AtLeastAfterDivision(Sum(times), n, f);
  }

  lemma AtLeastAfterDivision(s: real, n: real, f: real)
    requires n > 0.0 && s >= n * f
    ensures s / n >= f
  {
    DivMono(n * f, s, n);
    MulCancel(n, f);
  }

  /**
   * process_session_file: None for an unreadable file or a falsy session_id;
   * otherwise the summary of the positive lap times.
   */
  method ProcessSessionFile(file: Option<SessionFile>) returns (r: Option<Summary>)
    ensures file.None? || !JsonTruthy(file.value.sessionId) <==> r.None?
    ensures r.Some? ==> var f := file.value; var s := r.value; var times := ValidTimes(f.lapTimes);
      && s.id == f.sessionId && s.driver == f.driver && s.track == f.track
      && s.sessionDate == f.sessionDate && s.kart == f.kart
      && s.lapsCount == |times|
      && (times == [] ==>
            s.fastestLapS.None? && s.averageLapS.None? && s.fastestLap.None? && s.averageLap.None?)
      && (times != [] ==>
            && s.fastestLapS == Some(Fastest(times)) && s.averageLapS == Some(Average(times))
            && s.fastestLap == FormatSecondsToTime(s.fastestLapS)
            && s.averageLap == FormatSecondsToTime(s.averageLapS)
            && s.fastestLapS.value <= s.averageLapS.value)
  {
    if file.None? {
      return None;
    }
    var f := file.value;
    if !JsonTruthy(f.sessionId) {
      return None;
    }
    var times := CollectValidTimes(f.lapTimes);
    var fastestS: Option<real> := None;
    var averageS: Option<real> := None;
    var fastest: Option<string> := None;
    var average: Option<string> := None;
    if times != [] {
      fastestS := Some(Fastest(times));
      averageS := Some(Average(times));
      FastestAtMostAverage(times);
      fastest := FormatSecondsToTime(fastestS);
      average := FormatSecondsToTime(averageS);
    }
    r := Some(Summary(f.sessionId, f.driver, f.track, f.sessionDate, f.kart,
                      fastest, average, fastestS, averageS, |times|));
  }
}
