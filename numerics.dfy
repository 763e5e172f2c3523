/** Numbers as the renderer uses them, stated over the reals.  A ray-parameter
    bound may be one of the float infinities (the volume medium asks its
    boundary for hits over (-infinity, +infinity)), so bounds are extended
    reals.  Square roots and the random draw of the medium come from outside. */
module Numerics {

  /** A ray-parameter bound: a real, or one of the two float infinities. */
  datatype ExtReal = NegInf | Real(r: real) | PosInf

  /** The float comparison `a < b` on bounds. */
  predicate Lt(a: ExtReal, b: ExtReal)
  {
    match a
    case NegInf => !b.NegInf?
    case Real(x) => (b.Real? && x < b.r) || b.PosInf?
    case PosInf => false
  }

  /** The float comparison `a <= b` on bounds. */
  predicate Le(a: ExtReal, b: ExtReal)
  {
    !Lt(b, a)
  }

  /** The closed range test `lo <= t && t <= hi` of a hit's parameter. */
  predicate InRange(t: real, lo: ExtReal, hi: ExtReal)
  {
    Le(lo, Real(t)) && Le(Real(t), hi)
  }

  lemma LeTransitive(a: ExtReal, b: ExtReal, c: ExtReal)
    requires Le(a, b) && Le(b, c)
    ensures Le(a, c)
  {
  }

  lemma LeLt(a: ExtReal, b: ExtReal, c: ExtReal)
    requires Le(a, b) && Lt(b, c)
    ensures Lt(a, c)
  {
  }

  lemma LtLe(a: ExtReal, b: ExtReal, c: ExtReal)
    requires Lt(a, b) && Le(b, c)
    ensures Lt(a, c)
  {
  }

  /** `num / den` where the float division would give NaN or an infinity
      for a zero denominator; the model gives 0 there. */
  function Ratio(num: real, den: real): (q: real)
    ensures den != 0.0 ==> q * den == num
  {
    if den == 0.0 then 0.0 else num / den
  }

  /** A fraction `(x - lo) / (hi - lo)` of a point inside a non-degenerate
      range lies in the unit interval. */
  lemma RatioInUnitInterval(x: real, lo: real, hi: real)
    requires lo < hi && lo <= x <= hi
    ensures 0.0 <= Ratio(x - lo, hi - lo) <= 1.0
  {
    var n, d := x - lo, hi - lo;
    assert Ratio(n, d) == n / d;
    DivideBounds(n, d);
  }

  /** Dividing a value of [0, d] by a positive d lands in [0, 1]. */
  lemma DivideBounds(n: real, d: real)
    requires 0.0 < d && 0.0 <= n <= d
    ensures 0.0 <= n / d <= 1.0
  {
  }

  /** Equal factors give equal products; the solver does not always see
      this when a factor is a component of a computed vector. */
  lemma MulCongruence(t: real, u: real, w: real)
    requires u == w
    ensures t * u == t * w
  {
  }

  lemma MulPositive(a: real, b: real)
    requires a > 0.0 && b > 0.0
    ensures a * b > 0.0
  {
  }

  /** What a hit query takes from the platform: the square root behind
      Math.Sqrt and Vector3.Length, and ln(U) for the uniform draw U that a
      volume medium takes from the shared random source during the query. */
  datatype Platform = Platform(sqrt: real -> real, logDraw: real)

  /** The platform's square root is exact at `x`. */
  predicate SqrtExactAt(p: Platform, x: real)
  {
    x >= 0.0 ==> p.sqrt(x) >= 0.0 && p.sqrt(x) * p.sqrt(x) == x
  }
}
