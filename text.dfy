/** Optional values, used wherever the source returns null, None or "not found". */
module Optional {
  datatype Option<T> = None | Some(value: T)
}

/**
 * Characters and strings: digit strings and their values, decimal rendering
 * of naturals, padding, trimming, splitting and substring search, as the
 * JavaScript and Python code of the viewer use them.
 */
module Text {

  predicate IsDigit(c: char) { '0' <= c <= '9' }

  predicate AllDigits(s: string) { forall i :: 0 <= i < |s| ==> IsDigit(s[i]) }

  function DigitValue(c: char): nat
    requires IsDigit(c)
  {
    c as int - '0' as int
  }

  function DigitChar(d: nat): (c: char)
    requires d < 10
    ensures IsDigit(c) && DigitValue(c) == d
  {
    ('0' as int + d) as char
  }

  /** The value of a digit string, most significant digit first; "" is 0. */
  function DigitsValue(s: string): nat
    requires AllDigits(s)
  {
    if s == [] then 0 else DigitsValue(s[..|s| - 1]) * 10 + DigitValue(s[|s| - 1])
  }

  /** The value of the digits written after a decimal point: "25" is 0.25. */
  function FracValue(s: string): (v: real)
    requires AllDigits(s)
    ensures 0.0 <= v < 1.0
  {
    if s == [] then 0.0 else (DigitValue(s[0]) as real + FracValue(s[1..])) / 10.0
  }

  function Repeat(c: char, n: nat): (s: string)
    ensures |s| == n && forall i :: 0 <= i < n ==> s[i] == c
  {
    if n == 0 then [] else [c] + Repeat(c, n - 1)
  }

  /** String.prototype.padStart and Python's zero-fill: prefix `c` up to width `n`. */
  function PadStart(s: string, n: nat, c: char): (r: string)
    ensures |r| == if |s| >= n then |s| else n
    ensures r == Repeat(c, |r| - |s|) + s
  {
    if |s| >= n then s else Repeat(c, n - |s|) + s
  }

  /** String.prototype.padEnd: append `c` up to width `n`. */
  function PadEnd(s: string, n: nat, c: char): (r: string)
    ensures |r| == if |s| >= n then |s| else n
    ensures r == s + Repeat(c, |r| - |s|)
  {
    if |s| >= n then s else s + Repeat(c, n - |s|)
  }

  /** Decimal rendering of a natural, without leading zeros (String(n) in JavaScript, str(n) in Python). */
  function NatToString(n: nat): (s: string)
    ensures |s| >= 1 && AllDigits(s) && DigitsValue(s) == n
    ensures s[0] == '0' ==> n == 0
  {
    if n < 10 then [DigitChar(n)]
    else
      var init := NatToString(n / 10);
      var s := init + [DigitChar(n % 10)];
      assert s[..|s| - 1] == init;
      s
  }

  function IntToString(i: int): string
  {
    if i < 0 then "-" + NatToString(-i) else NatToString(i)
  }

  /** Leading zeros do not change the value of a digit string. */
  lemma {:induction false} LeadingZeros(k: nat, s: string)
    requires AllDigits(s)
    ensures AllDigits(Repeat('0', k) + s) && DigitsValue(Repeat('0', k) + s) == DigitsValue(s)
  {
    var z := Repeat('0', k);
    if s == [] {
      assert z + s == z;
      ZerosValue(k);
    } else {
      var init := s[..|s| - 1];
      LeadingZeros(k, init);
      assert (z + s)[..|z + s| - 1] == z + init;
    }
  }

  lemma {:induction false} ZerosValue(k: nat)
    ensures AllDigits(Repeat('0', k)) && DigitsValue(Repeat('0', k)) == 0
  {
    if k > 0 {
      ZerosValue(k - 1);
      var z := Repeat('0', k);
      assert z[..k - 1] == Repeat('0', k - 1);
    }
  }

  /** Trailing zeros after a decimal point do not change its value. */
  lemma {:induction false} TrailingZeros(f: string, k: nat)
    requires AllDigits(f)
    ensures AllDigits(f + Repeat('0', k)) && FracValue(f + Repeat('0', k)) == FracValue(f)
  {
    var z := Repeat('0', k);
    if f == [] {
      assert f + z == z;
      FracZeros(k);
    } else {
      TrailingZeros(f[1..], k);
      assert (f + z)[1..] == f[1..] + z;
    }
  }

  lemma {:induction false} FracZeros(k: nat)
    ensures AllDigits(Repeat('0', k)) && FracValue(Repeat('0', k)) == 0.0
  {
    if k > 0 {
      FracZeros(k - 1);
      assert Repeat('0', k)[1..] == Repeat('0', k - 1);
    }
  }

  /** Three digits after a point are worth their value in thousandths. */
  lemma ThreeDigitFraction(s: string)
    requires |s| == 3 && AllDigits(s)
    ensures FracValue(s) == DigitsValue(s) as real / 1000.0
  {
    var a, b, c := DigitValue(s[0]), DigitValue(s[1]), DigitValue(s[2]);
    assert s[1..][1..] == s[2..];
    assert FracValue(s[2..]) == c as real / 10.0 by { assert s[2..][1..] == []; }
    assert s[..2][..1] == s[..1];
    assert s[..1][..0] == [];
    assert DigitsValue(s[..1]) == a;
    assert DigitsValue(s[..2]) == a * 10 + b;
    assert DigitsValue(s) == (a * 10 + b) * 10 + c;
  }

  /** A natural below 1000 written with three digits, as the millisecond field of a time. */
  function Pad3(n: nat): (s: string)
    requires n < 1000
    ensures |s| == 3 && AllDigits(s) && DigitsValue(s) == n
  {
    var s := [DigitChar(n / 100), DigitChar(n / 10 % 10), DigitChar(n % 10)];
    assert s[..2][..1] == s[..1] && s[..1][..0] == [];
    assert DigitsValue(s[..1]) == n / 100;
    assert DigitsValue(s[..2]) == n / 100 * 10 + n / 10 % 10;
    assert (n / 100 * 10 + n / 10 % 10) * 10 + n % 10 == n;
    s
  }

  lemma Pad3Fraction(n: nat)
    requires n < 1000
    ensures FracValue(Pad3(n)) == n as real / 1000.0
  {
    ThreeDigitFraction(Pad3(n));
  }

  // ----- whitespace, trimming -----

  /** A Unicode space separator (general category Zs). */
  predicate IsSpaceSeparator(c: char)
  {
    c == ' ' || c as int == 0xA0 || c as int == 0x1680 || (0x2000 <= c as int <= 0x200A)
    || c as int == 0x202F || c as int == 0x205F || c as int == 0x3000
  }

  /**
   * The white space and line terminators that String.prototype.trim and
   * parseFloat skip: tab, vertical tab, form feed, the byte order mark, the
   * space separators, line feed, carriage return and the line and paragraph
   * separators.
   */
  predicate IsJsSpace(c: char)
  {
    c == '\t' || c as int == 11 || c as int == 12 || c as int == 0xFEFF || IsSpaceSeparator(c)
    || c == '\n' || c == '\r' || c as int == 0x2028 || c as int == 0x2029
  }

  /**
   * The characters that Python's str.strip() and float() skip (str.isspace):
   * the ASCII white space, the file, group, record and unit separators, next
   * line, the space separators and the line and paragraph separators.
   */
  predicate IsPySpace(c: char)
  {
    c == '\t' || c == '\n' || c as int == 11 || c as int == 12 || c == '\r'
    || (0x1C <= c as int <= 0x1F) || c as int == 0x85 || IsSpaceSeparator(c)
    || c as int == 0x2028 || c as int == 0x2029
  }

  function JsTrimStart(s: string): (r: string)
    ensures |r| <= |s|
    ensures r == [] || !IsJsSpace(r[0])
  {
    if s != [] && IsJsSpace(s[0]) then JsTrimStart(s[1..]) else s
  }

  function JsTrimEnd(s: string): (r: string)
    ensures |r| <= |s|
    ensures r == [] || !IsJsSpace(r[|r| - 1])
  {
    if s != [] && IsJsSpace(s[|s| - 1]) then JsTrimEnd(s[..|s| - 1]) else s
  }

  /** String.prototype.trim. */
  function JsTrim(s: string): string
  {
    JsTrimEnd(JsTrimStart(s))
  }

  function PyStripStart(s: string): (r: string)
    ensures |r| <= |s|
    ensures r == [] || !IsPySpace(r[0])
  {
    if s != [] && IsPySpace(s[0]) then PyStripStart(s[1..]) else s
  }

  function PyStripEnd(s: string): (r: string)
    ensures |r| <= |s|
    ensures r == [] || !IsPySpace(r[|r| - 1])
  {
    if s != [] && IsPySpace(s[|s| - 1]) then PyStripEnd(s[..|s| - 1]) else s
  }

  /** Python's str.strip() with no argument. */
  function PyStrip(s: string): string
  {
    PyStripEnd(PyStripStart(s))
  }

  /** A string that neither starts nor ends with white space is its own trim. */
  lemma JsTrimNoSpace(s: string)
    requires s != [] && !IsJsSpace(s[0]) && !IsJsSpace(s[|s| - 1])
    ensures JsTrim(s) == s
  {
  }

  lemma PyStripNoSpace(s: string)
    requires s != [] && !IsPySpace(s[0]) && !IsPySpace(s[|s| - 1])
    ensures PyStrip(s) == s
  {
  }

  // ----- splitting -----

  function IndexOf(s: string, c: char): (i: nat)
    requires c in s
    ensures i < |s| && s[i] == c && c !in s[..i]
  {
    if s[0] == c then 0 else 1 + IndexOf(s[1..], c)
  }

  /** String.prototype.split and Python's str.split with a one-character separator. */
  function Split(s: string, sep: char): (parts: seq<string>)
    ensures |parts| >= 1
    ensures sep in s ==> |parts| >= 2
    ensures forall k :: 0 <= k < |parts| ==> sep !in parts[k]
    decreases |s|
  {
    if sep !in s then [s]
    else
      var i := IndexOf(s, sep);
      [s[..i]] + Split(s[i + 1..], sep)
  }

  lemma SplitAt(a: string, sep: char, b: string)
    requires sep !in a
    ensures Split(a + [sep] + b, sep) == [a] + Split(b, sep)
  {
    var s := a + [sep] + b;
    assert s[|a|] == sep;
    assert s[..|a|] == a;
    assert s[|a| + 1..] == b;
    IndexOfFirst(s, sep, |a|);
  }

  lemma IndexOfFirst(s: string, c: char, i: nat)
    requires i < |s| && s[i] == c && c !in s[..i]
    ensures IndexOf(s, c) == i
  {
    if i > 0 {
      assert s[0] in s[..i];
      assert s[1..][..i - 1] == s[..i][1..];
      IndexOfFirst(s[1..], c, i - 1);
    }
  }

  /** Splitting "a:b" on ':' gives exactly the two sides. */
  lemma SplitTwo(a: string, sep: char, b: string)
    requires sep !in a && sep !in b
    ensures Split(a + [sep] + b, sep) == [a, b]
  {
    SplitAt(a, sep, b);
  }

  /** A digit string holds no colon. */
  lemma NoColonInDigits(m: string)
    requires AllDigits(m)
    ensures ':' !in m
  {
    assert forall i :: 0 <= i < |m| ==> IsDigit(m[i]);
  }

  // ----- case and search -----

  /** The lower-case letter of an ASCII or Latin-1 capital (À to Þ, but not ×); any other character as it is. */
  function ToLowerChar(c: char): char
  {
    if 'A' <= c <= 'Z' || (0xC0 <= c as int <= 0xDE && c as int != 0xD7) then (c as int + 32) as char else c
  }

  /** String.prototype.toLowerCase, for the ASCII and Latin-1 letters. */
  function ToLower(s: string): (r: string)
    ensures |r| == |s| && forall i :: 0 <= i < |s| ==> r[i] == ToLowerChar(s[i])
  {
    if s == [] then [] else [ToLowerChar(s[0])] + ToLower(s[1..])
  }

  /** String.prototype.includes: `sub` occurs in `s` at some position. */
  predicate Contains(s: string, sub: string)
  {
    sub <= s || (s != [] && Contains(s[1..], sub))
  }
}
