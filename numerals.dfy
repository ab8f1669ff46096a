/**
 * Reading and writing decimal numerals: JavaScript's parseFloat and
 * parseInt, Python's float() on strings, Number.prototype.toFixed(3) and
 * Python's "%.3f" formatting. Values are exact; a numeral's value is the
 * rational it denotes. Exponents, "Infinity" and hexadecimal forms are not
 * read (see README).
 */
module Numerals {
  import opened Optional
  import opened Text
  import opened JsValues

  /** The number of decimal digits at the start of `s`. */
  function DigitRun(s: string): (k: nat)
    ensures k <= |s| && AllDigits(s[..k])
    ensures k < |s| ==> !IsDigit(s[k])
  {
    if s != [] && IsDigit(s[0]) then
      var k := 1 + DigitRun(s[1..]);
      assert s[..k] == [s[0]] + s[1..][..k - 1];
      k
    else 0
  }

  lemma {:induction false} DigitRunOf(w: string, rest: string)
    requires AllDigits(w)
    requires rest == [] || !IsDigit(rest[0])
    ensures DigitRun(w + rest) == |w|
  {
    if w != [] {
      assert (w + rest)[1..] == w[1..] + rest;
      DigitRunOf(w[1..], rest);
    }
  }

  /** What reading a numeral gives: nothing, or its value and the number of characters it spans. */
  datatype Scan = NoNumeral | Numeral(value: real, length: nat)

  /** The longest unsigned numeral (digits, an optional point and digits) at the start of `u`. */
  function ReadUnsigned(u: string): Scan
  {
    var k := DigitRun(u);
    if k < |u| && u[k] == '.' then
      var f := DigitRun(u[k + 1..]);
      if k + f == 0 then NoNumeral
      else Numeral(DigitsValue(u[..k]) as real + FracValue(u[k + 1..][..f]), k + 1 + f)
    else if k == 0 then NoNumeral
    else Numeral(DigitsValue(u[..k]) as real, k)
  }

  /**
   * The longest decimal numeral at the start of `s` (an optional sign,
   * digits, an optional point and digits, at least one digit in all), as its
   * value and the number of characters it spans; NoNumeral when `s` does not
   * start with one.
   */
  function ReadNumeral(s: string): Scan
  {
    if s != [] && (s[0] == '+' || s[0] == '-') then
      match ReadUnsigned(s[1..])
      case NoNumeral => NoNumeral
      case Numeral(v, n) => Numeral(if s[0] == '-' then -v else v, n + 1)
    else ReadUnsigned(s)
  }

  /** An unsigned numeral with a point: its value is the integer part plus the fraction. */
  lemma {:induction false} ReadDecimal(w: string, f: string, rest: string)
    requires AllDigits(w) && AllDigits(f) && |w| >= 1
    requires rest == [] || !IsDigit(rest[0])
    ensures ReadNumeral(w + "." + f + rest) == Numeral(DigitsValue(w) as real + FracValue(f), |w| + 1 + |f|)
  {
    var s := w + "." + f + rest;
    DecimalParts(w, f, rest, s);
    ReadPointAt(s, |w|, |f|, w, f);
  }

  /** Where the digit runs of a decimal numeral stop. */
  lemma DecimalParts(w: string, f: string, rest: string, s: string)
    requires AllDigits(w) && AllDigits(f) && |w| >= 1
    requires rest == [] || !IsDigit(rest[0])
    requires s == w + "." + f + rest
    ensures DigitRun(s) == |w| && s[..|w|] == w && s[|w|] == '.'
    ensures DigitRun(s[|w| + 1..]) == |f| && s[|w| + 1..][..|f|] == f
    ensures ReadNumeral(s) == ReadUnsigned(s)
  {
    var tail := "." + f + rest;
    WholePart(w, tail, s);
    FractionPart(f, rest, tail);
  }

  /** Digits followed by a point: the digit run stops at the point, and no sign is read. */
  lemma WholePart(w: string, tail: string, s: string)
    requires AllDigits(w) && |w| >= 1 && tail != [] && tail[0] == '.' && s == w + tail
    ensures DigitRun(s) == |w| && s[..|w|] == w && s[|w|] == '.' && s[|w| + 1..] == tail[1..]
    ensures ReadNumeral(s) == ReadUnsigned(s)
  {
    DigitRunOf(w, tail);
    assert s[0] == w[0];
  }

  /** After the point, the digits `f` are the whole fraction. */
  lemma FractionPart(f: string, rest: string, tail: string)
    requires AllDigits(f) && (rest == [] || !IsDigit(rest[0])) && tail == "." + f + rest
    ensures DigitRun(tail[1..]) == |f| && tail[1..][..|f|] == f
  {
    assert tail[1..] == f + rest;
    DigitRunOf(f, rest);
  }

  /** Digits `a` up to a point at `k`, then the digits `b`: the unsigned numeral spans both. */
  lemma ReadPointAt(u: string, k: nat, f: nat, a: string, b: string)
    requires DigitRun(u) == k && k < |u| && u[k] == '.' && DigitRun(u[k + 1..]) == f && k > 0
    requires a == u[..k] && b == u[k + 1..][..f]
    ensures AllDigits(a) && AllDigits(b)
    ensures ReadUnsigned(u) == Numeral(DigitsValue(a) as real + FracValue(b), k + 1 + f)
  {
  }

  /** An unsigned numeral without a point. */
  lemma {:induction false} ReadInteger(w: string, rest: string)
    requires AllDigits(w) && |w| >= 1
    requires rest == [] || (!IsDigit(rest[0]) && rest[0] != '.')
    ensures ReadNumeral(w + rest) == Numeral(DigitsValue(w) as real, |w|)
  {
    DigitRunOf(w, rest);
    assert (w + rest)[..|w|] == w;
    assert IsDigit((w + rest)[0]);
  }

  /** Nothing is read from a string that starts with neither a sign, a digit nor a point. */
  lemma ReadNothing(s: string)
    requires s == [] || (!IsDigit(s[0]) && s[0] !in "+-.")
    ensures ReadNumeral(s) == NoNumeral
  {
  }

  /** parseFloat: skip leading white space and read the longest numeral; NaN when there is none. */
  function JsParseFloat(s: string): (r: JsNum)
    ensures !r.PosInf? && !r.NegInf?
  {
    match ReadNumeral(JsTrimStart(s))
    case NoNumeral => NaN
    case Numeral(v, _) => Finite(v)
  }

  /** parseInt with radix 10: skip leading white space, an optional sign and read the digits. */
  function JsParseInt(s: string): (r: JsNum)
    ensures !r.PosInf? && !r.NegInf?
  {
    var t := JsTrimStart(s);
    var signed := t != [] && (t[0] == '+' || t[0] == '-');
    var u := if signed then t[1..] else t;
    var k := DigitRun(u);
    var d: int := DigitsValue(u[..k]);
    if k == 0 then NaN
    else Finite((if signed && t[0] == '-' then -d else d) as real)
  }

  /** parseInt of a non-empty digit string is that string's value. */
  lemma JsParseIntDigits(d: string)
    requires |d| >= 1 && AllDigits(d)
    ensures JsParseInt(d) == Finite(DigitsValue(d) as real)
  {
    NoLeadingSpace(d);
    WholeDigitRun(d);
    assert d[..|d|] == d;
  }

  lemma NoLeadingSpace(s: string)
    requires s != [] && IsDigit(s[0])
    ensures JsTrimStart(s) == s
  {
  }

  lemma WholeDigitRun(d: string)
    requires AllDigits(d)
    ensures DigitRun(d) == |d|
  {
    DigitRunOf(d, []);
    assert d + [] == d;
  }

  /** parseFloat of a string starting with a digit reads the numeral there. */
  lemma JsParseFloatFromDigit(s: string, v: real, n: nat)
    requires s != [] && IsDigit(s[0])
    requires ReadNumeral(s) == Numeral(v, n)
    ensures JsParseFloat(s) == Finite(v)
  {
    NoLeadingSpace(s);
  }

  /** Python's float() on a string: the whole stripped string must be one numeral; None stands for ValueError. */
  function PyFloat(s: string): Option<real>
  {
    var t := PyStrip(s);
    match ReadNumeral(t)
    case NoNumeral => None
    case Numeral(v, n) => if n == |t| then Some(v) else None
  }

  /** Number(s) on a string: white space around one whole numeral, 0 for a blank string, NaN otherwise. */
  function JsStringToNumber(s: string): (r: JsNum)
    ensures !r.PosInf? && !r.NegInf?
  {
    var t := JsTrim(s);
    if t == [] then Finite(0.0)
    else match ReadNumeral(t)
      case NoNumeral => NaN
      case Numeral(v, n) => if n == |t| then Finite(v) else NaN
  }

  // ----- writing -----

  /** Rounding to the nearest integer, halves upward (as toFixed does on the exact value). */
  function RoundHalfUp(y: real): (n: int)
    ensures n as real - 0.5 <= y < n as real + 0.5
  {
    (y + 0.5).Floor
  }

  /** Rounding to the nearest integer, halves to the even neighbour (as Python's formatting does). */
  function RoundHalfEven(y: real): (n: int)
    ensures n as real - 0.5 <= y <= n as real + 0.5
    ensures y == n as real - 0.5 || y == n as real + 0.5 ==> n % 2 == 0
  {
    var f := y.Floor;
    var d := y - f as real;
    if d < 0.5 then f
    else if d > 0.5 then f + 1
    else if f % 2 == 0 then f
    else f + 1
  }

  /** Rounding leaves an integer unchanged. */
  lemma RoundIntegers(n: int)
    ensures RoundHalfUp(n as real) == n && RoundHalfEven(n as real) == n
  {
  }

  /** `n` thousandths written with exactly three decimals: 1234 is "1.234". */
  function Fixed3(n: nat): (s: string)
    ensures |s| >= 5 && s[|s| - 4] == '.'
    ensures IsDigit(s[0]) && IsDigit(s[|s| - 1])
  {
    NatToString(n / 1000) + "." + Pad3(n % 1000)
  }

  /**
   * Number.prototype.toFixed(3) on a finite number. A negative number is
   * written as a minus sign and its magnitude, so its halves round away from
   * zero; minus zero is not below zero and is written without a sign.
   */
  function JsToFixed3(x: real): (r: string)
    ensures |r| >= 5 && r[|r| - 4] == '.' && IsDigit(r[|r| - 1])
    ensures r[0] == '-' <==> x < 0.0
  {
    if x < 0.0 then "-" + Fixed3(RoundHalfUp(-x * 1000.0)) else Fixed3(RoundHalfUp(x * 1000.0))
  }

  /** toFixed(3) on any number: the special values are written by name. */
  function JsNumToFixed3(n: JsNum): string
  {
    match n
    case Finite(v) => JsToFixed3(v)
    case PosInf => "Infinity"
    case NegInf => "-Infinity"
    case NaN => "NaN"
  }

  /** On a non-negative number toFixed(3) writes the rounded thousandths. */
  lemma JsToFixed3NonNegative(x: real)
    requires x >= 0.0
    ensures RoundHalfUp(x * 1000.0) >= 0
    ensures JsToFixed3(x) == Fixed3(RoundHalfUp(x * 1000.0))
  {
  }

  /** On a negative number toFixed(3) writes a minus sign and toFixed(3) of the magnitude. */
  lemma JsToFixed3Negative(x: real)
    requires x < 0.0
    ensures RoundHalfUp(-x * 1000.0) >= 0
    ensures JsToFixed3(x) == "-" + Fixed3(RoundHalfUp(-x * 1000.0))
    ensures JsToFixed3(x) == "-" + JsToFixed3(-x)
  {
  }

  /** Python's "%.3f" on a non-negative number. */
  function PyFixed3(x: real): string
    requires x >= 0.0
  {
    Fixed3(RoundHalfEven(x * 1000.0))
  }

  /** Reading back `n` thousandths, with any number of leading zeros, gives n / 1000. */
  lemma {:induction false} ReadFixed3(n: nat, zeros: nat, rest: string)
    requires rest == [] || !IsDigit(rest[0])
    ensures ReadNumeral(Repeat('0', zeros) + Fixed3(n) + rest)
         == Numeral(n as real / 1000.0, zeros + |Fixed3(n)|)
  {
    var w := NatToString(n / 1000);
    var f := Pad3(n % 1000);
    var zw := Repeat('0', zeros) + w;
    assert AllDigits(zw) && DigitsValue(zw) == n / 1000 by { LeadingZeros(zeros, w); }
    assert Repeat('0', zeros) + Fixed3(n) + rest == zw + "." + f + rest;
    ReadDecimal(zw, f, rest);
    assert FracValue(f) == (n % 1000) as real / 1000.0 by { Pad3Fraction(n % 1000); }
    Thousandths(n);
  }

  /** Whole units and the thousandths left over make up n thousandths. */
  lemma Thousandths(n: nat)
    ensures (n / 1000) as real + (n % 1000) as real / 1000.0 == n as real / 1000.0
  {
    assert (n / 1000 * 1000 + n % 1000) as real == n as real;
  }

  /** toFixed(3) of a whole number of thousandths writes exactly those thousandths. */
  lemma JsToFixed3Exact(n: nat)
    ensures JsToFixed3(n as real / 1000.0) == Fixed3(n)
  {
    assert (n as real / 1000.0) * 1000.0 == n as real;
    RoundIntegers(n);
  }

  lemma PyFixed3Exact(n: nat)
    ensures PyFixed3(n as real / 1000.0) == Fixed3(n)
  {
    assert (n as real / 1000.0) * 1000.0 == n as real;
    RoundIntegers(n);
  }

  /** parseFloat reads back what toFixed(3) wrote, up to the rounding to thousandths. */
  lemma JsToFixed3RoundTrip(x: real)
    requires x >= 0.0
    ensures JsParseFloat(JsToFixed3(x)) == Finite(RoundHalfUp(x * 1000.0) as real / 1000.0)
    ensures JsParseFloat(JsToFixed3(x)).v - x <= 0.0005 && x - JsParseFloat(JsToFixed3(x)).v < 0.0005
  {
    var n := RoundHalfUp(x * 1000.0);
    var s := Fixed3(n);
    assert JsToFixed3(x) == s;
    JsParseFixed3(n);
    ThousandthsBound(x);
  }

  /** parseFloat reads toFixed(3) of a negative number back as minus its rounded magnitude. */
  lemma JsToFixed3RoundTripNegative(x: real)
    requires x < 0.0
    ensures JsParseFloat(JsToFixed3(x)) == Finite(-(RoundHalfUp(-x * 1000.0) as real / 1000.0))
    ensures JsParseFloat(JsToFixed3(x)).v - x < 0.0005 && x - JsParseFloat(JsToFixed3(x)).v <= 0.0005
  {
    var n := RoundHalfUp(-x * 1000.0);
    JsToFixed3Negative(x);
    JsParseNegativeFixed3(n, []);
    assert "-" + Fixed3(n) + [] == JsToFixed3(x);
    ThousandthsBound(-x);
  }

  /** parseFloat reads a minus sign and thousandths as minus those thousandths, whatever non-digit follows. */
  lemma JsParseNegativeFixed3(n: nat, rest: string)
    requires rest == [] || !IsDigit(rest[0])
    ensures JsParseFloat("-" + Fixed3(n) + rest) == Finite(-(n as real / 1000.0))
  {
    UnsignedFixed3(n, rest);
    JsParseNegated(Fixed3(n) + rest, n as real / 1000.0, |Fixed3(n)|);
    assert "-" + Fixed3(n) + rest == "-" + (Fixed3(n) + rest);
  }

  /** Thousandths followed by a non-digit read as an unsigned numeral. */
  lemma UnsignedFixed3(n: nat, rest: string)
    requires rest == [] || !IsDigit(rest[0])
    ensures ReadUnsigned(Fixed3(n) + rest) == Numeral(n as real / 1000.0, |Fixed3(n)|)
  {
    var u := Fixed3(n) + rest;
    ReadFixed3(n, 0, rest);
    assert Repeat('0', 0) + Fixed3(n) + rest == u;
    PaddedFixed3StartsWithDigit(n, 0, rest);
  }

  /** parseFloat reads a minus sign before an unsigned numeral as minus its value. */
  lemma JsParseNegated(u: string, v: real, len: nat)
    requires ReadUnsigned(u) == Numeral(v, len)
    ensures JsParseFloat("-" + u) == Finite(-v)
  {
    var s := "-" + u;
    assert s[0] == '-' && s[1..] == u;
    assert JsTrimStart(s) == s by { assert !IsJsSpace(s[0]); }
  }

  lemma JsParseFixed3(n: nat)
    ensures JsParseFloat(Fixed3(n)) == Finite(n as real / 1000.0)
  {
    JsParsePaddedFixed3(n, 0, []);
    assert Repeat('0', 0) + Fixed3(n) + [] == Fixed3(n);
  }

  /** parseFloat reads zero-filled thousandths, whatever follows that is not a digit. */
  lemma JsParsePaddedFixed3(n: nat, zeros: nat, rest: string)
    requires rest == [] || !IsDigit(rest[0])
    ensures JsParseFloat(Repeat('0', zeros) + Fixed3(n) + rest) == Finite(n as real / 1000.0)
  {
    var s := Repeat('0', zeros) + Fixed3(n) + rest;
    PaddedFixed3StartsWithDigit(n, zeros, rest);
    ReadFixed3(n, zeros, rest);
    JsParseFloatFromDigit(s, n as real / 1000.0, zeros + |Fixed3(n)|);
  }

  lemma PaddedFixed3StartsWithDigit(n: nat, zeros: nat, rest: string)
    ensures IsDigit((Repeat('0', zeros) + Fixed3(n) + rest)[0])
  {
    if zeros == 0 {
      assert (Repeat('0', zeros) + Fixed3(n) + rest)[0] == NatToString(n / 1000)[0];
    }
  }

  /** Rounding to thousandths moves a value by at most half a thousandth. */
  lemma ThousandthsBound(x: real)
    ensures RoundHalfUp(x * 1000.0) as real / 1000.0 - x <= 0.0005
    ensures x - RoundHalfUp(x * 1000.0) as real / 1000.0 < 0.0005
  {
    var n := RoundHalfUp(x * 1000.0);
    var y := n as real / 1000.0;
    assert y * 1000.0 == n as real;
    assert (y - x) * 1000.0 <= 0.5 && (x - y) * 1000.0 < 0.5;
  }
}
