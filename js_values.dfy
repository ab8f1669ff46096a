/**
 * JavaScript values as the viewer's scripts meet them: JSON field values and
 * IEEE numbers with their special values. Finite numbers are exact reals;
 * binary rounding and the sign of zero are not represented.
 */
module JsValues {

  /** A JSON field value: null (or a missing field), a boolean, a number or a string. */
  datatype Json = JNull | JBool(b: bool) | JNum(x: real) | JStr(s: string)

  /** A JavaScript number. */
  datatype JsNum = Finite(v: real) | PosInf | NegInf | NaN

  /** ToBoolean on a number: 0 and NaN are falsy. */
  predicate Truthy(n: JsNum)
  {
    match n
    case Finite(v) => v != 0.0
    case NaN => false
    case _ => true
  }

  /** ToBoolean on a JSON value: null, false, 0 and "" are falsy. */
  predicate JsonTruthy(j: Json)
  {
    match j
    case JNull => false
    case JBool(b) => b
    case JNum(x) => x != 0.0
    case JStr(s) => s != ""
  }

  /** `a || b` on numbers. */
  function OrElse(a: JsNum, b: JsNum): JsNum
  {
    if Truthy(a) then a else b
  }

  function Neg(a: JsNum): JsNum
  {
    match a
    case Finite(v) => Finite(-v)
    case PosInf => NegInf
    case NegInf => PosInf
    case NaN => NaN
  }

  function Add(a: JsNum, b: JsNum): JsNum
  {
    if a.NaN? || b.NaN? then NaN
    else if a.Finite? && b.Finite? then Finite(a.v + b.v)
    // Infinity + -Infinity
    else if (a.PosInf? && b.NegInf?) || (a.NegInf? && b.PosInf?) then NaN
    else if a.PosInf? || b.PosInf? then PosInf
    else NegInf
  }

  function Sub(a: JsNum, b: JsNum): JsNum
  {
    Add(a, Neg(b))
  }

  /** The sign of a number that is not NaN: -1, 0 or 1. */
  function Sign(a: JsNum): int
    requires !a.NaN?
  {
    match a
    case Finite(v) => if v < 0.0 then -1 else if v > 0.0 then 1 else 0
    case PosInf => 1
    case NegInf => -1
  }

  function InfinityWithSign(s: int): JsNum
  {
    if s < 0 then NegInf else PosInf
  }

  function Mul(a: JsNum, b: JsNum): JsNum
  {
    if a.NaN? || b.NaN? then NaN
    else if a.Finite? && b.Finite? then Finite(a.v * b.v)
    else if Sign(a) == 0 || Sign(b) == 0 then NaN
    else InfinityWithSign(Sign(a) * Sign(b))
  }

  function Div(a: JsNum, b: JsNum): JsNum
  {
    if a.NaN? || b.NaN? then NaN
    else if a.Finite? && b.Finite? then
      if b.v != 0.0 then Finite(a.v / b.v)
      else if a.v == 0.0 then NaN
      else InfinityWithSign(Sign(a))
    else if !a.Finite? && !b.Finite? then NaN
    else if b.Finite? then InfinityWithSign(Sign(a) * (if b.v < 0.0 then -1 else 1))
    else Finite(0.0)
  }

  /** Math.floor on a finite number. */
  function MathFloor(y: real): (n: int)
    ensures n as real <= y < n as real + 1.0
  {
    y.Floor
  }

  /** The relational operator `<` on numbers: false whenever NaN is involved. */
  predicate Less(a: JsNum, b: JsNum)
  {
    if a.Finite? && b.Finite? then a.v < b.v
    else if a.NaN? || b.NaN? then false
    // -Infinity is below every other number, Infinity above every other
    else (a.NegInf? && !b.NegInf?) || (!a.PosInf? && b.PosInf?)
  }

  predicate Greater(a: JsNum, b: JsNum)
  {
    Less(b, a)
  }

  /** `<` is a strict order on the numbers other than NaN. */
  lemma LessIsStrictOrder(a: JsNum, b: JsNum, c: JsNum)
    ensures !Less(a, a)
    ensures Less(a, b) ==> !Less(b, a)
    ensures Less(a, b) && Less(b, c) ==> Less(a, c)
    ensures !a.NaN? && !b.NaN? ==> Less(a, b) || Less(b, a) || a == b
  {
  }
}
