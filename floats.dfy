/**
 * IEEE-754 doubles as numpy treats them. Only the parts the core relies on are
 * modelled: a finite value is an exact real, NaN never compares true, and the
 * signed infinities appear when a non-zero value is divided by zero.
 */
module Floats {

  datatype Float = Num(v: real) | NaN | Inf(positive: bool)

  /** np.abs */
  function Abs(x: Float): (r: Float)
    ensures r.NaN? <==> x.NaN?
    ensures !r.NaN? ==> Ge(r, Num(0.0))
    ensures x.Num? ==> r.Num? && (r.v == x.v || r.v == -x.v)
  {
    match x
    case Num(v) => Num(if v < 0.0 then -v else v)
    case NaN => NaN
    case Inf(_) => Inf(true)
  }

  /** x > y; false whenever either operand is NaN. */
  predicate Gt(x: Float, y: Float)
  {
    match (x, y)
    case (NaN, _) => false
    case (_, NaN) => false
    case (Inf(p), Inf(q)) => p && !q
    case (Inf(p), Num(_)) => p
    case (Num(_), Inf(q)) => !q
    case (Num(a), Num(b)) => a > b
  }

  /** x >= y; false whenever either operand is NaN. */
  predicate Ge(x: Float, y: Float)
  {
    !x.NaN? && !y.NaN? && !Gt(y, x)
  }

  /** x == y; NaN is equal to nothing, not even itself. */
  predicate Eq(x: Float, y: Float)
  {
    !x.NaN? && x == y
  }

  /** np.sign: -1, 0 or 1 for numbers and infinities, NaN for NaN. */
  function Sign(x: Float): (r: Float)
    ensures x.NaN? <==> r.NaN?
    ensures r.Num? ==> r.v == -1.0 || r.v == 0.0 || r.v == 1.0
  {
    match x
    case Num(v) => Num(if v < 0.0 then -1.0 else if v == 0.0 then 0.0 else 1.0)
    case NaN => NaN
    case Inf(p) => Num(if p then 1.0 else -1.0)
  }

  /** x / y in floating point: a zero divisor gives NaN for 0/0 and a signed infinity otherwise. */
  function Div(x: real, y: real): (r: Float)
    ensures y != 0.0 ==> r == Num(x / y)
    ensures y == 0.0 ==> (r.NaN? <==> x == 0.0)
    ensures y == 0.0 && x != 0.0 ==> r == Inf(x > 0.0)
  {
    if y != 0.0 then Num(x / y)
    else if x == 0.0 then NaN
    else Inf(x > 0.0)
  }

  /** Gt is a strict total order on the values that are not NaN. */
  lemma GtTrichotomy(x: Float, y: Float)
    requires !x.NaN? && !y.NaN?
    ensures Gt(x, y) || Gt(y, x) || x == y
    ensures !(Gt(x, y) && Gt(y, x))
  {
  }

  lemma GtTransitive(x: Float, y: Float, z: Float)
    requires Gt(x, y) && Gt(y, z)
    ensures Gt(x, z)
  {
  }
}
