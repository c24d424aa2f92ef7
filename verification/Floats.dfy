/**
 The source's `float` values without rounding: exact reals, with the infinities and
 the not-a-number that a division by zero gives.
 */
module Floats {

  datatype Float = Fin(v: real) | Inf(positive: bool) | NaN

  function FromInt(n: int): Float {
    Fin(n as real)
  }

  predicate Less(a: Float, b: Float) {
    match (a, b)
    case (Fin(x), Fin(y)) => x < y
    case (Fin(_), Inf(p)) => p
    case (Inf(p), Fin(_)) => !p
    case (Inf(p), Inf(q)) => !p && q
    case _ => false
  }

  function Add(a: Float, b: Float): Float {
    match (a, b)
    case (Fin(x), Fin(y)) => Fin(x + y)
    case (Inf(p), Fin(_)) => a
    case (Fin(_), Inf(_)) => b
    case (Inf(p), Inf(q)) => if p == q then a else NaN
    case _ => NaN
  }

  function Mul(a: Float, b: Float): Float {
    match (a, b)
    case (Fin(x), Fin(y)) => Fin(x * y)
    case (Inf(p), Fin(y)) => if y == 0.0 then NaN else Inf(p == (y > 0.0))
    case (Fin(x), Inf(q)) => if x == 0.0 then NaN else Inf(q == (x > 0.0))
    case (Inf(p), Inf(q)) => Inf(p == q)
    case _ => NaN
  }

  /** Zero divisors are positive zeros. */
  function Div(a: Float, b: Float): Float {
    match (a, b)
    case (Fin(x), Fin(y)) =>
      if y != 0.0 then Fin(x / y) else if x == 0.0 then NaN else Inf(x > 0.0)
    case (Inf(p), Fin(y)) => Inf(p == (y >= 0.0))
    case (Fin(_), Inf(_)) => Fin(0.0)
    case _ => NaN
  }

  /** `ticks * (100.0f / itv)`: a share of the interval in percent. */
  function Percent(ticks: nat, itv: nat): Float {
    Mul(FromInt(ticks), Div(Fin(100.0), FromInt(itv)))
  }

  lemma {:induction false} PercentValue(a: nat, itv: nat)
    ensures itv > 0 ==> Percent(a, itv) == Fin(a as real * (100.0 / itv as real))
    ensures itv == 0 ==> Percent(a, itv) == if a == 0 then NaN else Inf(true)
  {
  }

  lemma {:induction false} ProductOrder(a: int, b: int, c: real)
    requires c > 0.0
    ensures a as real * c < b as real * c <==> a < b
  {
    assert b as real * c - a as real * c == (b as real - a as real) * c;
  }

  lemma {:induction false} QuotientPositive(a: real, n: int)
    requires a > 0.0 && n > 0
    ensures a / n as real > 0.0
  {
  }

  /** The order of percentages of one interval is that of the ticks, unless the interval is empty. */
  lemma {:induction false} PercentOrder(a: nat, b: nat, itv: nat)
    ensures Less(Percent(a, itv), Percent(b, itv)) <==> itv > 0 && a < b
  {
    PercentValue(a, itv);
    PercentValue(b, itv);
    if itv > 0 {
      QuotientPositive(100.0, itv);
      ProductOrder(a, b, 100.0 / itv as real);
    }
  }

  /** A percentage is positive iff there are ticks, even for an empty interval. */
  lemma {:induction false} PercentPositive(a: nat, itv: nat)
    ensures Less(Fin(0.0), Percent(a, itv)) <==> a > 0
  {
    PercentValue(a, itv);
    if itv > 0 {
      QuotientPositive(100.0, itv);
      ProductOrder(0, a, 100.0 / itv as real);
    }
  }

  /** A number that stands for a float in a comparison of floats of one kind. */
  function Key(a: Float): real {
    if a.Fin? then a.v else 0.0
  }

  /** Both finite, or both out of range at the same end or undefined. */
  predicate SameKind(a: Float, b: Float) {
    a.Fin? == b.Fin? && a != Inf(false) && b != Inf(false)
  }

  lemma {:induction false} KeyOrder(a: Float, b: Float)
    requires SameKind(a, b)
    ensures Less(a, b) <==> Key(a) < Key(b)
  {
  }
}
