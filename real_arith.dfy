/** Facts of real arithmetic that the chart and the remote's seek bar rest on. */
module RealArith {

  lemma MulMono(a: real, b: real, c: real)
    requires a >= 0.0 && b <= c
    ensures a * b <= a * c && b * a <= c * a
  {
  }

  lemma MulBelow(d: real, p: real)
    requires d > 0.0 && 0.0 <= p < 1.0
    ensures 0.0 <= d * p < d
  {
  }

  lemma DivNonNegative(a: real, r: real)
    requires a >= 0.0 && r > 0.0
    ensures a / r >= 0.0
  {
  }

  lemma DivMono(a: real, b: real, r: real)
    requires a <= b && r > 0.0
    ensures a / r <= b / r
  {
  }

  lemma DivUnit(a: real, r: real)
    requires r > 0.0 && 0.0 <= a <= r
    ensures 0.0 <= a / r <= 1.0
  {
  }

  lemma DivBelowOne(a: real, r: real)
    requires r > 0.0 && 0.0 <= a < r
    ensures 0.0 <= a / r < 1.0
  {
    calc {
      a / r;
    <
      r / r;
    ==
      1.0;
    }
  }

  lemma DivCancel(a: real, r: real)
    requires r != 0.0
    ensures (a / r) * r == a && r * (a / r) == a
  {
  }

  lemma MulCancel(s: real, e: real)
    requires s != 0.0
    ensures (s * e) / s == e
  {
  }
}
