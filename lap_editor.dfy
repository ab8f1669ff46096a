/**
 * The lap list of the session editor: bulk import of pasted lap times,
 * adding, removing and editing laps, and the fastest lap written when the
 * session is saved. The lap list is a field the handlers change.
 */
module LapEditor {
  import opened Optional
  import opened Text
  import opened JsValues
  import opened Numerals
  import opened SessionTime

  /** One lap of the editor: its number and the time as typed. */
  datatype Lap = Lap(lap: int, time: string)

  /** Laps numbered 1, 2, … in list order. */
  predicate Numbered(laps: seq<Lap>)
  {
    forall i :: 0 <= i < |laps| ==> laps[i].lap == i + 1
  }

  function Times(laps: seq<Lap>): (r: seq<string>)
    ensures |r| == |laps| && forall i :: 0 <= i < |laps| ==> r[i] == laps[i].time
  {
    seq(|laps|, i requires 0 <= i < |laps| => laps[i].time)
  }

  // ----- reading a lap time -----

  /**
   * parseTime of the editor: an empty string is Infinity; "a:b" is
   * parseInt(a) * 60 + parseFloat(b), NaN when either side does not read;
   * anything else is its parseFloat, or Infinity when that is 0 or NaN.
   */
  function ManageParseTime(t: string): (r: JsNum)
    ensures !r.NegInf?
    ensures t == "" ==> r == PosInf
  {
    if t == "" then PosInf
    else
      var parts := Split(t, ':');
      if |parts| == 2 then Add(Mul(JsParseInt(parts[0]), Finite(60.0)), JsParseFloat(parts[1]))
      else OrElse(JsParseFloat(t), PosInf)
  }

  /** Unlike the other readers, a missing minute field gives NaN rather than 0. */
  lemma NoMinutesIsNaN(t: string)
    requires t == ":30"
    ensures ManageParseTime(t) == NaN
  {
    assert t == [] + [':'] + "30";
    SplitTwo([], ':', "30");
  }

  // ----- the time pattern of the bulk import -----

  /** `\d{k}:\d{2}` at the start of `s`. */
  predicate ClockAt(s: string, k: nat)
    requires 1 <= k <= 2
  {
    |s| >= k + 3 && AllDigits(s[..k]) && s[k] == ':' && IsDigit(s[k + 1]) && IsDigit(s[k + 2])
  }

  /** `(\.\d*)?` at the start of `s`, greedy. */
  function FractionAt(s: string): (r: string)
    ensures r == [] || (r[0] == '.' && AllDigits(r[1..]))
    ensures r <= s
  {
    if s != [] && s[0] == '.' then
      var k := DigitRun(s[1..]);
      assert s[..k + 1] == "." + s[1..][..k];
      "." + s[1..][..k]
    else ""
  }

  /**
   * The match of `\d{1,2}:\d{2}(\.\d*)?|\d{1,2}(\.\d*)?` at a position
   * holding a digit: the clock form with two, then one, leading digits, and
   * failing both the one or two digits there, each with its fraction.
   */
  function MatchAt(s: string): (m: string)
    requires s != [] && IsDigit(s[0])
    ensures m != [] && m <= s
  {
    if ClockAt(s, 2) then s[..5] + FractionAt(s[5..])
    else if ClockAt(s, 1) then s[..4] + FractionAt(s[4..])
    else
      var k := if |s| >= 2 && IsDigit(s[1]) then 2 else 1;
      s[..k] + FractionAt(s[k..])
  }

  /** The leftmost match in a line; the pattern matches wherever a digit stands, and nowhere else. */
  function MatchTime(s: string): (m: Option<string>)
    ensures m.None? <==> forall i :: 0 <= i < |s| ==> !IsDigit(s[i])
  {
    if s == [] then None
    else if IsDigit(s[0]) then Some(MatchAt(s))
    else
      assert forall i :: 1 <= i < |s| ==> s[i] == s[1..][i - 1];
      MatchTime(s[1..])
  }

  // ----- normalising a matched time -----

  /** Three decimals at least: ".000" added when there is no point, zeros up to three decimals otherwise. */
  function WithMillis(t: string): string
  {
    if '.' !in t then t + ".000"
    else if |Split(t, '.')[1]| < 3 then PadEnd(t, IndexOf(t, '.') + 4, '0')
    else t
  }

  /**
   * The time a bulk-import line contributes. Without a colon it is seconds:
   * under 60 they are written "00:" and zero-filled to six characters, from
   * 60 on as whole minutes and the rest with three decimals. With a colon the
   * minutes are zero-filled to two digits and the seconds given three
   * decimals.
   */
  function NormalizeTime(t: string): (r: string)
    ensures ':' in r
  {
    if ':' !in t then
      var w := WithMillis(t);
      match JsParseFloat(w)
      case Finite(x) =>
        if x < 60.0 then "00:" + PadStart(w, 6, '0')
        else
          var mins := WholeMinutes(x);
          NatToString(mins) + ":" + PadStart(JsToFixed3(x - 60.0 * mins as real), 6, '0')
      // Math.floor(NaN / 60) and (NaN % 60).toFixed(3) both write "NaN"
      case _ => "NaN:" + PadStart("NaN", 6, '0')
    else
      var parts := Split(t, ':');
      PadStart(parts[0], 2, '0') + ":" + WithMillis(parts[1])
  }

  /** Digits, and optionally a point and more digits. */
  function Decimal(w: string, dot: bool, f: string): string
  {
    if dot then w + "." + f else w
  }

  /** Zeros appended to at most three decimals, up to three. */
  function Millis3(f: string): string
    requires |f| <= 3
  {
    f + Repeat('0', 3 - |f|)
  }

  /** Appended zeros keep three digits worth the decimals' value. */
  lemma {:induction false} Millis3Value(f: string)
    requires AllDigits(f) && |f| <= 3
    ensures |Millis3(f)| == 3 && AllDigits(Millis3(f)) && FracValue(Millis3(f)) == FracValue(f)
  {
    TrailingZeros(f, 3 - |f|);
  }

  /** With digits before the point and at most three after, the point and three decimals are there. */
  lemma {:induction false} WithMillisShape(w: string, dot: bool, f: string)
    requires AllDigits(w) && AllDigits(f) && |f| <= 3 && (dot || f == "")
    ensures WithMillis(Decimal(w, dot, f)) == w + "." + Millis3(f)
  {
    if dot {
      WithMillisDotted(w, f);
    } else {
      WithMillisWhole(w);
    }
  }

  lemma {:induction false} WithMillisWhole(w: string)
    requires AllDigits(w)
    ensures WithMillis(w) == w + "." + Millis3("")
  {
    NoPointInDigits(w);
    assert Millis3("") == "000";
  }

  lemma {:induction false} WithMillisDotted(w: string, f: string)
    requires AllDigits(w) && AllDigits(f) && |f| <= 3
    ensures WithMillis(w + "." + f) == w + "." + Millis3(f)
  {
    var t := w + "." + f;
    WithMillisPoint(w, f, t);
    assert t + Repeat('0', 3 - |f|) == w + "." + Millis3(f);
  }

  lemma {:induction false} WithMillisPoint(w: string, f: string, t: string)
    requires AllDigits(w) && AllDigits(f) && |f| <= 3 && t == w + "." + f
    ensures WithMillis(t) == t + Repeat('0', 3 - |f|)
  {
    NoPointInDigits(w);
    NoPointInDigits(f);
    assert t == w + ['.'] + f;
    SplitTwo(w, '.', f);
    PointAfterDigits(w, f, t);
  }

  lemma {:induction false} PointAfterDigits(w: string, f: string, t: string)
    requires '.' !in w && t == w + ['.'] + f
    ensures '.' in t && IndexOf(t, '.') == |w|
  {
    assert t[|w|] == '.' && t[..|w|] == w;
    IndexOfFirst(t, '.', |w|);
  }

  lemma {:induction false} NoPointInDigits(w: string)
    requires AllDigits(w)
    ensures '.' !in w && ':' !in w
  {
    assert forall i :: 0 <= i < |w| ==> IsDigit(w[i]);
  }

  lemma {:induction false} MillisNoColon(w: string, f: string)
    requires AllDigits(w) && AllDigits(f) && |f| <= 3
    ensures ':' !in w + "." + Millis3(f)
  {
    Millis3Value(f);
    NoPointInDigits(w);
    NoPointInDigits(Millis3(f));
  }

  lemma {:induction false} DecimalNoColon(w: string, dot: bool, f: string)
    requires AllDigits(w) && AllDigits(f)
    ensures ':' !in Decimal(w, dot, f)
  {
    NoPointInDigits(w);
    NoPointInDigits(f);
  }

  lemma {:induction false} ReadPointedNumeral(d: string, f: string)
    requires 1 <= |d| && AllDigits(d) && AllDigits(f)
    ensures ReadNumeral(d + "." + f) == Numeral(DigitsValue(d) as real + FracValue(f), |d| + 1 + |f|)
  {
    ReadDecimal(d, f, []);
    assert d + "." + f + [] == d + "." + f;
  }

  /** parseFloat of digits, a point and digits is their value. */
  lemma {:induction false} ReadPointed(d: string, f: string, s: string)
    requires 1 <= |d| && AllDigits(d) && AllDigits(f) && s == d + "." + f
    ensures JsParseFloat(s) == Finite(DigitsValue(d) as real + FracValue(f))
  {
    ReadPointedNumeral(d, f);
    assert s[0] == d[0];
    JsParseFloatFromDigit(s, DigitsValue(d) as real + FracValue(f), |d| + 1 + |f|);
  }

  /** The seconds with three decimals read as the token's value. */
  lemma {:induction false} ReadMillis(w: string, f: string)
    requires 1 <= |w| && AllDigits(w) && AllDigits(f) && |f| <= 3
    ensures JsParseFloat(w + "." + Millis3(f)) == Finite(DigitsValue(w) as real + FracValue(f))
  {
    Millis3Value(f);
    ReadPointed(w, Millis3(f), w + "." + Millis3(f));
  }

  /** Leading zeros change nothing. */
  lemma {:induction false} ReadPadded(z: nat, w: string, f: string, s: string)
    requires 1 <= |w| && AllDigits(w) && AllDigits(f) && s == Repeat('0', z) + (w + "." + f)
    ensures JsParseFloat(s) == Finite(DigitsValue(w) as real + FracValue(f))
  {
    var zw := Repeat('0', z) + w;
    assert AllDigits(zw) && DigitsValue(zw) == DigitsValue(w) by { LeadingZeros(z, w); }
    assert s == zw + "." + f;
    ReadPointed(zw, f, s);
  }

  /**
   * Minutes `a` and seconds `b`, neither holding a colon, that parseInt and
   * parseFloat read as `x` and `y`: "a:b" is what parseTime reads as x
   * minutes and y seconds (ClockFieldsRead).
   */
  predicate ClockFields(a: string, b: string, x: real, y: real)
  {
    ':' !in a && ':' !in b && JsParseInt(a) == Finite(x) && JsParseFloat(b) == Finite(y)
  }

  /** The editor's parseTime of "a:b", when neither side has a colon. */
  lemma {:induction false} ReadClock(a: string, b: string, s: string)
    requires ':' !in a && ':' !in b && s == a + [':'] + b && s != ""
    ensures ManageParseTime(s) == Add(Mul(JsParseInt(a), Finite(60.0)), JsParseFloat(b))
  {
    SplitTwo(a, ':', b);
  }

  /** Clock fields joined by a colon read back as the minutes times 60 plus the seconds. */
  lemma {:induction false} ClockFieldsRead(a: string, b: string, x: real, y: real)
    requires ClockFields(a, b, x, y)
    ensures ManageParseTime(a + [':'] + b) == Finite(60.0 * x + y)
  {
    ReadClock(a, b, a + [':'] + b);
  }

  /** The value of a seconds token in whole milliseconds. */
  function Thousandths(w: string, f: string): nat
    requires Token(w, f)
  {
    DigitsValue(w) * 1000 + DigitsValue(Millis3(f))
  }

  lemma {:induction false} ThousandthsValue(w: string, f: string)
    requires Token(w, f)
    ensures Thousandths(w, f) as real / 1000.0 == DigitsValue(w) as real + FracValue(f)
  {
    Millis3Value(f);
    ThreeDigitFraction(Millis3(f));
  }

  /**
   * Normalising a seconds token under a minute: "00", a colon and the token
   * with three decimals zero-filled to six characters (UnderMinuteFields:
   * these read back as no minutes and the token's seconds).
   */
  lemma {:induction false} NormalizeUnderMinute(w: string, dot: bool, f: string)
    requires Token(w, f) && (dot || f == "") && Thousandths(w, f) < 60000
    ensures NormalizeTime(Decimal(w, dot, f)) == "00" + [':'] + PadStart(w + "." + Millis3(f), 6, '0')
  {
    TokenFacts(w, dot, f);
    UnderMinuteForm(Decimal(w, dot, f), w + "." + Millis3(f), DigitsValue(w) as real + FracValue(f));
  }

  /**
   * Normalising a seconds token from a minute on: its whole minutes, a colon
   * and the milliseconds past them with three decimals, zero-filled to six
   * characters (MinutesFields: these read back as those minutes and seconds).
   */
  lemma {:induction false} NormalizeOverMinute(w: string, dot: bool, f: string)
    requires Token(w, f) && (dot || f == "") && Thousandths(w, f) >= 60000
    ensures var n := Thousandths(w, f);
      NormalizeTime(Decimal(w, dot, f)) == NatToString(n / 60000) + [':'] + PadStart(Fixed3(n % 60000), 6, '0')
  {
    TokenFacts(w, dot, f);
    OverMinuteForm(Decimal(w, dot, f), w + "." + Millis3(f), DigitsValue(w) as real + FracValue(f), Thousandths(w, f));
  }

  /** What normalising a seconds token relies on: no colon, three decimals, and its value. */
  lemma {:induction false} TokenFacts(w: string, dot: bool, f: string)
    requires Token(w, f) && (dot || f == "")
    ensures ':' !in Decimal(w, dot, f)
    ensures WithMillis(Decimal(w, dot, f)) == w + "." + Millis3(f)
    ensures JsParseFloat(w + "." + Millis3(f)) == Finite(DigitsValue(w) as real + FracValue(f))
    ensures Thousandths(w, f) as real / 1000.0 == DigitsValue(w) as real + FracValue(f)
  {
    DecimalNoColon(w, dot, f);
    WithMillisShape(w, dot, f);
    ReadMillis(w, f);
    ThousandthsValue(w, f);
  }

  /** The shape of a normalised time without a colon, under a minute. */
  lemma {:induction false} UnderMinuteForm(t: string, wm: string, v: real)
    requires ':' !in t && WithMillis(t) == wm && JsParseFloat(wm) == Finite(v) && v < 60.0
    ensures NormalizeTime(t) == "00" + [':'] + PadStart(wm, 6, '0')
  {
    assert "00:" + PadStart(wm, 6, '0') == "00" + [':'] + PadStart(wm, 6, '0');
  }

  /** The shape of a normalised time without a colon, from a minute on, in milliseconds. */
  lemma {:induction false} OverMinuteForm(t: string, wm: string, v: real, n: nat)
    requires ':' !in t && WithMillis(t) == wm && JsParseFloat(wm) == Finite(v)
    requires v == n as real / 1000.0 && n >= 60000
    ensures NormalizeTime(t) == NatToString(n / 60000) + [':'] + PadStart(Fixed3(n % 60000), 6, '0')
  {
    MinutesOfThousandths(n, v);
    OverMinuteShape(t, wm, v, n / 60000, v - 60.0 * (n / 60000) as real, n % 60000);
  }

  /** The shape of a normalised time without a colon, from a minute on. */
  lemma {:induction false} OverMinuteShape(t: string, wm: string, v: real, m: nat, r: real, k: nat)
    requires ':' !in t && WithMillis(t) == wm && JsParseFloat(wm) == Finite(v) && v >= 60.0
    requires m == WholeMinutes(v) && r == v - 60.0 * m as real && JsToFixed3(r) == Fixed3(k)
    ensures NormalizeTime(t) == NatToString(m) + [':'] + PadStart(Fixed3(k), 6, '0')
  {
  }

  /** A whole number of milliseconds splits into whole minutes and the thousandths past them. */
  lemma {:induction false} MinutesOfThousandths(n: nat, v: real)
    requires v == n as real / 1000.0
    ensures WholeMinutes(v) == n / 60000
    ensures JsToFixed3(v - 60.0 * (n / 60000) as real) == Fixed3(n % 60000)
  {
    var q, k := n / 60000, n % 60000;
    assert v == 60.0 * q as real + k as real / 1000.0;
    assert v - 60.0 * q as real == k as real / 1000.0;
    JsToFixed3Exact(k);
  }

  /** Under a minute: "00" minutes, and the zero-filled seconds. */
  lemma {:induction false} UnderMinuteFields(w: string, f: string)
    requires Token(w, f)
    ensures ClockFields("00", PadStart(w + "." + Millis3(f), 6, '0'), 0.0, DigitsValue(w) as real + FracValue(f))
  {
    ZeroFilledSeconds(w, f);
    ZeroMinutes();
  }

  lemma ZeroMinutes()
    ensures ':' !in "00" && JsParseInt("00") == Finite(0.0)
  {
    JsParseIntDigits("00");
  }

  /** Zero-filled seconds have no colon and read as the seconds. */
  lemma {:induction false} ZeroFilledSeconds(w: string, f: string)
    requires Token(w, f)
    ensures var p := PadStart(w + "." + Millis3(f), 6, '0');
      ':' !in p && JsParseFloat(p) == Finite(DigitsValue(w) as real + FracValue(f))
  {
    var f3 := Millis3(f);
    var p := PadStart(w + "." + f3, 6, '0');
    var z := |p| - |w + "." + f3|;
    Millis3Value(f);
    ZeroFilledNoColon(z, w, f3, p);
    ReadPadded(z, w, f3, p);
  }

  lemma {:induction false} ZeroFilledNoColon(z: nat, w: string, f3: string, p: string)
    requires AllDigits(w) && AllDigits(f3) && p == Repeat('0', z) + (w + "." + f3)
    ensures ':' !in p
  {
    NoPointInDigits(w);
    NoPointInDigits(f3);
    ZerosHaveNoColon(z);
  }

  lemma ZerosHaveNoColon(z: nat)
    ensures ':' !in Repeat('0', z)
  {
  }

  /** Whole minutes, and thousandths of a second with three decimals zero-filled, are clock fields. */
  lemma {:induction false} MinutesFields(q: nat, k: nat)
    ensures ClockFields(NatToString(q), PadStart(Fixed3(k), 6, '0'), q as real, k as real / 1000.0)
  {
    var a := NatToString(q);
    NoColonInDigits(a);
    NoColonInPadded(k);
    JsParseIntDigits(a);
    JsParsePadded(k);
  }

  /**
   * Normalising a clock token "m:ss", with at most three decimals: the
   * minutes zero-filled to two digits, a colon and the seconds with three
   * decimals, which read back as the token's minutes and seconds.
   */
  lemma {:induction false} NormalizeClock(m: string, ss: string, dot: bool, f: string)
    requires 1 <= |m| && AllDigits(m) && Token(ss, f) && (dot || f == "")
    ensures var a, b := PadStart(m, 2, '0'), ss + "." + Millis3(f);
      NormalizeTime(m + ":" + Decimal(ss, dot, f)) == a + [':'] + b
      && ClockFields(a, b, DigitsValue(m) as real, DigitsValue(ss) as real + FracValue(f))
  {
    NoPointInDigits(m);
    DecimalNoColon(ss, dot, f);
    ClockForm(m, Decimal(ss, dot, f));
    WithMillisShape(ss, dot, f);
    ClockMinutes(m);
    SecondsField(ss, f);
  }

  /** A time with one colon: the minutes zero-filled to two digits, the seconds given three decimals. */
  lemma {:induction false} ClockForm(m: string, sec: string)
    requires ':' !in m && ':' !in sec
    ensures NormalizeTime(m + ":" + sec) == PadStart(m, 2, '0') + [':'] + WithMillis(sec)
  {
    var t := m + ":" + sec;
    assert t == m + [':'] + sec;
    SplitTwo(m, ':', sec);
    assert t[|m|] == ':';
  }

  /** Digits and at most three decimals after a point: a seconds token. */
  predicate Token(w: string, f: string)
  {
    1 <= |w| && AllDigits(w) && AllDigits(f) && |f| <= 3
  }

  /** Seconds with three decimals have no colon and read as the token's value. */
  lemma {:induction false} SecondsField(w: string, f: string)
    requires Token(w, f)
    ensures ':' !in w + "." + Millis3(f) && JsParseFloat(w + "." + Millis3(f)) == Finite(DigitsValue(w) as real + FracValue(f))
  {
    MillisNoColon(w, f);
    ReadMillis(w, f);
  }

  /** The zero-filled minutes have no colon and read as the minutes. */
  lemma {:induction false} ClockMinutes(m: string)
    requires 1 <= |m| && AllDigits(m)
    ensures ':' !in PadStart(m, 2, '0') && JsParseInt(PadStart(m, 2, '0')) == Finite(DigitsValue(m) as real)
  {
    var pm := PadStart(m, 2, '0');
    assert AllDigits(pm) && DigitsValue(pm) == DigitsValue(m) by { LeadingZeros(|pm| - |m|, m); }
    NoPointInDigits(pm);
    JsParseIntDigits(pm);
  }

  // ----- bulk import -----

  /** The time a line contributes: its first match, normalised; None when no digit is on it. */
  function LineTime(line: string): (r: Option<string>)
    ensures r.None? <==> MatchTime(JsTrim(line)).None?
  {
    match MatchTime(JsTrim(line))
    case None => None
    case Some(m) => Some(NormalizeTime(m))
  }

  /** The times `timeOf` finds in the lines, in line order. */
  function Collected(lines: seq<string>, timeOf: string -> Option<string>): (times: seq<string>)
    ensures |times| <= |lines|
  {
    if lines == [] then []
    else
      var n := |lines| - 1;
      Collected(lines[..n], timeOf) + (if timeOf(lines[n]).Some? then [timeOf(lines[n]).value] else [])
  }

  /** The normalised times of the lines where the pattern matches, in line order; blank lines are skipped. */
  function BulkTimes(lines: seq<string>): (times: seq<string>)
    ensures |times| <= |lines|
  {
    Collected(lines, LineTime)
  }

  /** One more line adds its time, if it has one. */
  lemma CollectedStep(lines: seq<string>, i: nat, timeOf: string -> Option<string>)
    requires i < |lines|
    ensures timeOf(lines[i]).None? ==> Collected(lines[..i + 1], timeOf) == Collected(lines[..i], timeOf)
    ensures timeOf(lines[i]).Some? ==>
      Collected(lines[..i + 1], timeOf) == Collected(lines[..i], timeOf) + [timeOf(lines[i]).value]
  {
    assert lines[..i + 1][..i] == lines[..i];
  }

  /** Nothing is collected exactly when no line has a time. */
  lemma {:induction false} CollectedEmpty(lines: seq<string>, timeOf: string -> Option<string>)
    ensures Collected(lines, timeOf) == [] <==> forall i :: 0 <= i < |lines| ==> timeOf(lines[i]).None?
  {
    if lines != [] {
      var n := |lines| - 1;
      CollectedEmpty(lines[..n], timeOf);
      assert forall i :: 0 <= i < n ==> lines[..n][i] == lines[i];
    }
  }

  /** The new laps for `times`, numbered on from `base`. */
  function NumberFrom(base: nat, times: seq<string>): (r: seq<Lap>)
    ensures |r| == |times|
    ensures forall k :: 0 <= k < |times| ==> r[k] == Lap(base + k + 1, times[k])
  {
    if times == [] then []
    else NumberFrom(base, times[..|times| - 1]) + [Lap(base + |times|, times[|times| - 1])]
  }

  lemma NumberFromStep(base: nat, times: seq<string>, t: string)
    ensures NumberFrom(base, times + [t]) == NumberFrom(base, times) + [Lap(base + |times| + 1, t)]
  {
    assert (times + [t])[..|times|] == times;
  }

  datatype BulkOutcome = Blank | NoneFound | Imported(count: nat)

  /** The lap list after processing pasted text. */
  function Bulk(laps: seq<Lap>, text: string): seq<Lap>
  {
    var times := BulkTimes(Split(text, '\n'));
    if JsTrim(text) == "" || times == [] then laps else laps + NumberFrom(|laps|, times)
  }

  /** No time is found exactly when no line holds a digit. */
  lemma NothingFound(lines: seq<string>)
    ensures BulkTimes(lines) == [] <==>
      forall i :: 0 <= i < |lines| ==> MatchTime(JsTrim(lines[i])).None?
  {
    CollectedEmpty(lines, LineTime);
  }

  /**
   * Bulk import appends one lap per line with a time, numbered on after the
   * existing laps, and leaves those unchanged; when nothing is found the list
   * stays as it was. A numbered list stays numbered.
   */
  lemma BulkAppends(laps: seq<Lap>, text: string)
    ensures var r := Bulk(laps, text);
      |laps| <= |r| && r[..|laps|] == laps
    ensures var times := BulkTimes(Split(text, '\n'));
      JsTrim(text) != "" && times != [] ==>
        |Bulk(laps, text)| == |laps| + |times|
        && forall k :: 0 <= k < |times| ==> Bulk(laps, text)[|laps| + k] == Lap(|laps| + k + 1, times[k])
    ensures BulkTimes(Split(text, '\n')) == [] ==> Bulk(laps, text) == laps
    ensures Numbered(laps) ==> Numbered(Bulk(laps, text))
  {
  }

  // ----- adding, removing and editing -----

  /** Where `splice(index, 1)` removes: a negative index counts from the end, one past the end removes nothing. */
  function SpliceStart(n: nat, index: int): (k: nat)
    ensures k <= n
    ensures 0 <= index <= n ==> k == index
    ensures -(n as int) <= index < 0 ==> k == n + index
  {
    if index < 0 then (if n + index < 0 then 0 else n + index)
    else if index > n then n else index
  }

  /** The list after `splice(index, 1)`. */
  function Spliced(laps: seq<Lap>, index: int): seq<Lap>
  {
    var k := SpliceStart(|laps|, index);
    if k < |laps| then laps[..k] + laps[k + 1..] else laps
  }

  /** Every lap numbered by its position, its time kept. */
  function Renumbered(laps: seq<Lap>): (r: seq<Lap>)
    ensures |r| == |laps| && Numbered(r) && Times(r) == Times(laps)
  {
    seq(|laps|, i requires 0 <= i < |laps| => Lap(i + 1, laps[i].time))
  }

  /**
   * Removing a lap shown at position `index` leaves one lap fewer, the other
   * times in order, numbered 1 to n.
   */
  lemma RemoveLapSpec(laps: seq<Lap>, index: int)
    requires 0 <= index < |laps|
    ensures var r := Renumbered(Spliced(laps, index));
      |r| == |laps| - 1 && Numbered(r)
      && Times(r) == Times(laps[..index]) + Times(laps[index + 1..])
  {
    var r := Renumbered(Spliced(laps, index));
    assert Times(r) == Times(Spliced(laps, index));
    assert Times(laps[..index] + laps[index + 1..]) == Times(laps[..index]) + Times(laps[index + 1..]);
  }

  /** Adding a lap keeps a numbered list numbered. */
  lemma AddKeepsNumbering(laps: seq<Lap>)
    requires Numbered(laps)
    ensures Numbered(laps + [Lap(|laps| + 1, "")])
  {
  }

  /** Editing a time changes that time and nothing else. */
  lemma UpdateChangesOnlyTime(laps: seq<Lap>, index: nat, value: string)
    requires index < |laps|
    ensures var r := laps[index := laps[index].(time := value)];
      Numbered(laps) == Numbered(r)
      && Times(r) == Times(laps)[index := value]
  {
    var r := laps[index := laps[index].(time := value)];
    assert forall i :: 0 <= i < |laps| ==> r[i].lap == laps[i].lap;
  }

  // ----- the fastest lap -----

  datatype Fastest = Fastest(time: JsNum, text: string)

  /**
   * What the scan needs of the time reader: it never gives minus Infinity,
   * and an empty time is not a finite one. The editor's reader is one.
   */
  ghost predicate TimeReader(parse: string -> JsNum)
  {
    !parse("").Finite? && forall t :: !parse(t).NegInf?
  }

  lemma ManageReader()
    ensures TimeReader(ManageParseTime)
  {
  }

  /** saveSession's scan: a lap takes the lead only when strictly faster; NaN never does. */
  function FastestOf(laps: seq<Lap>, parse: string -> JsNum): Fastest
  {
    if laps == [] then Fastest(PosInf, "")
    else
      var acc := FastestOf(laps[..|laps| - 1], parse);
      var last := laps[|laps| - 1];
      var t := parse(last.time);
      if Less(t, acc.time) then Fastest(t, last.time) else acc
  }

  /** The lap at `i` is faster than no other lap, and strictly faster than every lap before it. */
  predicate FirstFastestLap(laps: seq<Lap>, i: int, parse: string -> JsNum)
  {
    0 <= i < |laps| && parse(laps[i].time).Finite?
    && (forall j :: 0 <= j < |laps| ==> !Less(parse(laps[j].time), parse(laps[i].time)))
    && (forall j :: 0 <= j < i ==> Less(parse(laps[i].time), parse(laps[j].time)) || !parse(laps[j].time).Finite?)
  }

  /**
   * The fastest-lap field: empty when no lap reads as a finite time;
   * otherwise the time, as typed, of the first lap with the smallest time.
   */
  lemma {:induction false} FastestSpec(laps: seq<Lap>, parse: string -> JsNum)
    requires TimeReader(parse)
    ensures FastestOf(laps, parse).text == "" <==> forall j :: 0 <= j < |laps| ==> !parse(laps[j].time).Finite?
    ensures FastestOf(laps, parse).text != "" ==>
      exists i :: FirstFastestLap(laps, i, parse) && FastestOf(laps, parse) == Fastest(parse(laps[i].time), laps[i].time)
  {
    if laps != [] {
      var n := |laps| - 1;
      var init := laps[..n];
      FastestSpec(init, parse);
      if Less(parse(laps[n].time), FastestOf(init, parse).time) {
        FastestNewLead(laps, parse);
        FastestStep(laps, parse);
        assert FirstFastestLap(laps, n, parse);
      } else if FastestOf(init, parse).text != "" {
        var i :| FirstFastestLap(init, i, parse) && FastestOf(init, parse) == Fastest(parse(init[i].time), init[i].time);
        assert init[i] == laps[i];
        FastestKeptLead(laps, i, parse);
        FastestStep(laps, parse);
        assert FirstFastestLap(laps, i, parse);
      } else {
        FastestStillNone(laps, parse);
      }
    }
  }

  /** A lap strictly faster than the lead so far is the first fastest of the longer list. */
  lemma FastestNewLead(laps: seq<Lap>, parse: string -> JsNum)
    requires TimeReader(parse) && laps != []
    requires Less(parse(laps[|laps| - 1].time), FastestOf(laps[..|laps| - 1], parse).time)
    ensures FirstFastestLap(laps, |laps| - 1, parse)
  {
    var n := |laps| - 1;
    var init := laps[..n];
    var acc := FastestOf(init, parse);
    var t := parse(laps[n].time);
    forall j | 0 <= j < |laps|
      ensures !Less(parse(laps[j].time), t)
    {
      var tj := parse(laps[j].time);
      LessIsStrictOrder(tj, t, acc.time);
      if j < n {
        assert init[j] == laps[j];
        FastestBound(init, j, parse);
        LessIsStrictOrder(tj, acc.time, tj);
      }
    }
    forall j | 0 <= j < n
      ensures Less(t, parse(laps[j].time)) || !parse(laps[j].time).Finite?
    {
      assert init[j] == laps[j];
      FastestBound(init, j, parse);
      LessIsStrictOrder(t, acc.time, parse(laps[j].time));
    }
    assert t.Finite?;
  }

  /** One step of the scan: the last lap takes the lead when strictly faster, else the lead stays. */
  lemma FastestStep(laps: seq<Lap>, parse: string -> JsNum)
    requires laps != []
    ensures var acc, t := FastestOf(laps[..|laps| - 1], parse), parse(laps[|laps| - 1].time);
      FastestOf(laps, parse) == if Less(t, acc.time) then Fastest(t, laps[|laps| - 1].time) else acc
  {
  }

  /** A lap no faster than the first fastest so far leaves it the first fastest. */
  lemma FastestKeptLead(laps: seq<Lap>, i: int, parse: string -> JsNum)
    requires TimeReader(parse) && laps != []
    requires FirstFastestLap(laps[..|laps| - 1], i, parse)
    requires !Less(parse(laps[|laps| - 1].time), parse(laps[i].time))
    ensures FirstFastestLap(laps, i, parse)
  {
    var n := |laps| - 1;
    var init := laps[..n];
    var ti := parse(laps[i].time);
    assert init[i] == laps[i];
    forall j | 0 <= j < |laps|
      ensures !Less(parse(laps[j].time), ti)
    {
      if j < n {
        assert init[j] == laps[j];
      }
    }
    forall j | 0 <= j < i
      ensures Less(ti, parse(laps[j].time)) || !parse(laps[j].time).Finite?
    {
      assert init[j] == laps[j];
    }
  }

  /** While no lap reads as a finite time, neither does one that is no faster than Infinity. */
  lemma FastestStillNone(laps: seq<Lap>, parse: string -> JsNum)
    requires TimeReader(parse) && laps != []
    requires FastestOf(laps[..|laps| - 1], parse).text == ""
    requires forall j :: 0 <= j < |laps| - 1 ==> !parse(laps[j].time).Finite?
    requires !Less(parse(laps[|laps| - 1].time), FastestOf(laps[..|laps| - 1], parse).time)
    ensures FastestOf(laps, parse).text == ""
    ensures forall j :: 0 <= j < |laps| ==> !parse(laps[j].time).Finite?
  {
    var n := |laps| - 1;
    FastestTextEmpty(laps[..n], parse);
  }

  /** No lap of the scanned list is faster than the lead. */
  lemma {:induction false} FastestBound(laps: seq<Lap>, j: int, parse: string -> JsNum)
    requires TimeReader(parse)
    requires 0 <= j < |laps|
    ensures !Less(parse(laps[j].time), FastestOf(laps, parse).time)
  {
    var n := |laps| - 1;
    var init := laps[..n];
    var acc := FastestOf(init, parse);
    var t := parse(laps[n].time);
    if j < n {
      assert init[j] == laps[j];
      FastestBound(init, j, parse);
      if Less(t, acc.time) {
        LessIsStrictOrder(parse(laps[j].time), t, acc.time);
      }
    } else if !Less(t, acc.time) {
      LessIsStrictOrder(t, acc.time, t);
    } else {
      LessIsStrictOrder(t, t, t);
    }
  }

  /** While the text is empty the lead is still Infinity. */
  lemma {:induction false} FastestTextEmpty(laps: seq<Lap>, parse: string -> JsNum)
    requires TimeReader(parse)
    ensures FastestOf(laps, parse).text == "" ==> FastestOf(laps, parse).time == PosInf
  {
    if laps != [] {
      FastestTextEmpty(laps[..|laps| - 1], parse);
    }
  }

  /** The fastest_lap field saveSession writes; None when it refuses an empty lap list. */
  function FastestLapField(laps: seq<Lap>): Option<string>
  {
    if laps == [] then None else Some(FastestOf(laps, ManageParseTime).text)
  }

  /**
   * Saving refuses an empty list; otherwise the field is empty when no lap
   * reads as a time, and else holds the time, as typed, of the first fastest lap.
   */
  lemma FastestLapFieldSpec(laps: seq<Lap>)
    ensures FastestLapField(laps).None? <==> laps == []
    ensures laps != [] ==>
      (FastestLapField(laps) == Some("") <==> forall j :: 0 <= j < |laps| ==> !ManageParseTime(laps[j].time).Finite?)
    ensures FastestLapField(laps).Some? && FastestLapField(laps) != Some("") ==>
      exists i :: FirstFastestLap(laps, i, ManageParseTime) && FastestLapField(laps) == Some(laps[i].time)
  {
    ManageReader();
    FastestSpec(laps, ManageParseTime);
  }

  /** processBulkImport's loop, with LineTime reading each line: one new lap per line with a time, numbered on from `base`. */
  method CollectLaps(base: nat, lines: seq<string>) returns (newLaps: seq<Lap>)
    ensures newLaps == NumberFrom(base, BulkTimes(lines))
  {
    newLaps := CollectWith(base, lines, LineTime);
  }

  /** The loop over the lines: each line `timeOf` finds a time in becomes the next lap. */
  method CollectWith(base: nat, lines: seq<string>, timeOf: string -> Option<string>) returns (newLaps: seq<Lap>)
    ensures newLaps == NumberFrom(base, Collected(lines, timeOf))
  {
    newLaps := [];
    var i := 0;
    while i < |lines|
      invariant 0 <= i <= |lines|
      invariant newLaps == NumberFrom(base, Collected(lines[..i], timeOf))
    {
      ghost var before := Collected(lines[..i], timeOf);
      CollectedStep(lines, i, timeOf);
      var found := timeOf(lines[i]);
      if found.Some? {
        NumberFromStep(base, before, found.value);
        newLaps := newLaps + [Lap(base + |newLaps| + 1, found.value)];
      }
      i := i + 1;
    }
    assert lines[..i] == lines;
  }

  // ----- the editor -----

  class Editor {
    var laps: seq<Lap>

    constructor()
      ensures laps == []
    {
      laps := [];
    }

    /** populateForm: the laps of a loaded session, copied. */
    method Populate(loaded: seq<Lap>)
      modifies this
      ensures laps == loaded
    {
      laps := loaded;
    }

    /** The reset button, once confirmed. */
    method Reset()
      modifies this
      ensures laps == []
    {
      laps := [];
    }

    /** The bulk import button. */
    method ProcessBulk(text: string) returns (outcome: BulkOutcome)
      modifies this
      ensures laps == Bulk(old(laps), text)
      ensures outcome == if JsTrim(text) == "" then Blank
        else if BulkTimes(Split(text, '\n')) == [] then NoneFound
        else Imported(|BulkTimes(Split(text, '\n'))|)
    {
      if JsTrim(text) == "" {
        return Blank;
      }
      var lines := Split(text, '\n');
      var newLaps := CollectLaps(|laps|, lines);
      if |newLaps| > 0 {
        laps := laps + newLaps;
        outcome := Imported(|newLaps|);
      } else {
        outcome := NoneFound;
      }
    }

    /** The add-lap button. */
    method AddLap()
      modifies this
      ensures laps == old(laps) + [Lap(|old(laps)| + 1, "")]
    {
      laps := laps + [Lap(|laps| + 1, "")];
    }

    /** removeLap: splice the lap out, then renumber every lap by its position. */
    method RemoveLap(index: int)
      modifies this
      ensures laps == Renumbered(Spliced(old(laps), index))
    {
      var remaining := Spliced(laps, index);
      var i := 0;
      while i < |remaining|
        invariant 0 <= i <= |remaining| == |Spliced(old(laps), index)|
        invariant forall j :: 0 <= j < i ==> remaining[j] == Lap(j + 1, Spliced(old(laps), index)[j].time)
        invariant forall j :: i <= j < |remaining| ==> remaining[j] == Spliced(old(laps), index)[j]
      {
        remaining := remaining[i := remaining[i].(lap := i + 1)];
        i := i + 1;
      }
      laps := remaining;
    }

    /** updateLapTime; the list has a lap at every index the page shows. */
    method UpdateLapTime(index: int, value: string)
      requires 0 <= index < |laps|
      modifies this
      ensures laps == old(laps)[index := old(laps)[index].(time := value)]
    {
      laps := laps[index := laps[index].(time := value)];
    }

    /** saveSession's fastest lap: the scan over the laps, or None for an empty list. */
    method SaveSession() returns (fastestLap: Option<string>)
      ensures fastestLap == FastestLapField(laps)
    {
      if |laps| == 0 {
        return None;
      }
      var fastestTime := PosInf;
      var fastestLapStr := "";
      var i := 0;
      while i < |laps|
        invariant 0 <= i <= |laps|
        invariant Fastest(fastestTime, fastestLapStr) == FastestOf(laps[..i], ManageParseTime)
      {
        assert laps[..i + 1][..i] == laps[..i];
        var time := ManageParseTime(laps[i].time);
        if Less(time, fastestTime) {
          fastestTime := time;
          fastestLapStr := laps[i].time;
        }
        i := i + 1;
      }
      assert laps[..i] == laps;
      return Some(fastestLapStr);
    }
  }
}
