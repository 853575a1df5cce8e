/** The few facts about JavaScript numbers the amount parser relies on: exact
    reals stand for finite values, and the non-finite ones follow IEEE 754. */
module Numbers {
  datatype Num = Fin(v: real) | PosInf | NegInf | NaN

  /** `Math.round`: nearest integer, halves upwards. */
  function Round(x: real): (n: int)
    ensures n as real - 0.5 <= x < n as real + 0.5
  {
    (x + 0.5).Floor
  }

  /** An amount in minor units, possibly with a fraction of one. */
  function ToMinor(v: real, scale: real): real {
    v * scale
  }

  function FromMinor(n: int, scale: real): real
    requires scale > 0.0
  {
    n as real / scale
  }

  /** `Math.round(x * scale) / scale` */
  function Snap(x: Num, scale: real): Num
    requires scale > 0.0
  {
    match x
    case Fin(v) => Fin(FromMinor(Round(ToMinor(v, scale)), scale))
    case _ => x
  }

  predicate IsWhole(x: real) {
    x.Floor as real == x
  }

  lemma WholeIff(x: real, k: int)
    requires x == k as real
    ensures IsWhole(x) && x.Floor == k && Round(x) == k
  {
  }

  /** Amounts that are whole in minor units survive the rounding unchanged. */
  lemma SnapIsIdentity(v: real, scale: real)
    requires scale > 0.0 && IsWhole(ToMinor(v, scale))
    ensures Snap(Fin(v), scale) == Fin(v)
  {
    var k := ToMinor(v, scale).Floor;
    WholeIff(ToMinor(v, scale), k);
    assert FromMinor(k, scale) == v;
  }

  lemma MinorSum(v: real, w: real, scale: real)
    requires IsWhole(ToMinor(v, scale)) && IsWhole(ToMinor(w, scale))
    ensures IsWhole(ToMinor(v + w, scale)) && IsWhole(ToMinor(v - w, scale))
    ensures ToMinor(v + w, scale) == ToMinor(v, scale) + ToMinor(w, scale)
    ensures ToMinor(v - w, scale) == ToMinor(v, scale) - ToMinor(w, scale)
  {
    var k, m := ToMinor(v, scale).Floor, ToMinor(w, scale).Floor;
    assert ToMinor(v + w, scale) == ToMinor(v, scale) + ToMinor(w, scale);
    assert ToMinor(v - w, scale) == ToMinor(v, scale) - ToMinor(w, scale);
    WholeIff(ToMinor(v + w, scale), k + m);
    WholeIff(ToMinor(v - w, scale), k - m);
  }

  lemma SnapKeepsSign(v: real, scale: real)
    requires scale > 0.0 && v >= 0.0
    ensures Snap(Fin(v), scale).v >= 0.0
  {
  }

  function Neg(a: Num): Num {
    match a
    case Fin(v) => Fin(-v)
    case PosInf => NegInf
    case NegInf => PosInf
    case NaN => NaN
  }

  function Infinity(positive: bool): Num {
    if positive then PosInf else NegInf
  }

  /** An infinity times, or divided by, a finite number of the given sign. */
  function ScaleInfinity(a: Num, w: real): Num
    requires a == PosInf || a == NegInf
  {
    if w == 0.0 then NaN else Infinity(a.PosInf? == (w > 0.0))
  }

  function Mul(a: Num, b: Num): Num {
    match (a, b)
    case (Fin(v), Fin(w)) => Fin(v * w)
    case (NaN, _) => NaN
    case (_, NaN) => NaN
    case (Fin(v), _) => ScaleInfinity(b, v)
    case (_, Fin(w)) => ScaleInfinity(a, w)
    case (_, _) => Infinity(a == b)
  }

  /** Zero divisors are positive zeros here: they are literals. */
  function Div(a: Num, b: Num): Num {
    match (a, b)
    case (Fin(v), Fin(w)) =>
      if w != 0.0 then Fin(v / w) else if v == 0.0 then NaN else Infinity(v > 0.0)
    case (NaN, _) => NaN
    case (_, NaN) => NaN
    case (Fin(_), _) => Fin(0.0)
    case (_, Fin(w)) => if w == 0.0 then a else ScaleInfinity(a, w)
    case (_, _) => NaN
  }

  function Add(a: Num, b: Num): Num {
    match (a, b)
    case (Fin(v), Fin(w)) => Fin(v + w)
    case (NaN, _) => NaN
    case (_, NaN) => NaN
    case (Fin(_), _) => b
    case (_, Fin(_)) => a
    case (_, _) => if a == b then a else NaN
  }

  function Sub(a: Num, b: Num): Num {
    Add(a, Neg(b))
  }
}
