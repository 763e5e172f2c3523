/** ConstantDensityMedium's interval logic: the boundary's entry and exit
    parameters are clipped to the query range, the entry is clamped at the
    ray origin, and the sampled free path decides whether, and where, the ray
    scatters inside. */
module Media {
  import opened Wrappers
  import opened Numerics

  /** The offset past the entry at which the exit is searched for. */
  const ExitSearchOffset: real := 0.0001

  /** The clipped interval `[newTMin, newTMax]`, before the clamp at zero. */
  datatype Clipped = Clipped(lo: real, hi: real)

  /** `newTMin = max(entry, tMin)`, `newTMax = min(exit, tMax)`, and no
      interval when `newTMin > newTMax`.  An infinite lower bound above, or
      upper bound below, every real leaves nothing. */
  function Clip(entry: real, exit: real, tMin: ExtReal, tMax: ExtReal): (r: Option<Clipped>)
    ensures r.Some? ==> r.value.lo <= r.value.hi
    ensures r.Some? ==> entry <= r.value.lo && Le(tMin, Real(r.value.lo))
    ensures r.Some? ==> r.value.hi <= exit && Le(Real(r.value.hi), tMax)
    ensures r.Some? ==> (r.value.lo == entry || tMin == Real(r.value.lo))
    ensures r.Some? ==> (r.value.hi == exit || tMax == Real(r.value.hi))
  {
    if tMin.PosInf? || tMax.NegInf? then None
    else
      var lo := if tMin.Real? && entry < tMin.r then tMin.r else entry;
      var hi := if tMax.Real? && tMax.r < exit then tMax.r else exit;
      if lo > hi then None else Some(Clipped(lo, hi))
  }

  /** The clip is empty exactly when no parameter is both inside the medium
      and inside the query range. */
  lemma ClipEmptyIff(entry: real, exit: real, tMin: ExtReal, tMax: ExtReal)
    ensures Clip(entry, exit, tMin, tMax).None?
            <==> forall t :: !(entry <= t <= exit && InRange(t, tMin, tMax))
  {
    var r := Clip(entry, exit, tMin, tMax);
    if r.Some? {
      assert entry <= r.value.lo <= exit && InRange(r.value.lo, tMin, tMax);
    } else {
      forall t | entry <= t <= exit
        ensures !InRange(t, tMin, tMax)
      {
      }
    }
  }

  /** The scattering parameter: the clipped entry, clamped at zero, plus the
      sampled distance divided by the ray's length; none when the distance
      exceeds the length of ray inside the medium.  A zero-length ray scatters
      at the clamped entry. */
  function ScatterAt(entry: real, exit: real, tMin: ExtReal, tMax: ExtReal,
                     rayLength: real, hitDistance: real): (r: Option<real>)
    ensures Clip(entry, exit, tMin, tMax).None? ==> r.None?
    ensures r.Some? ==> var c := Clip(entry, exit, tMin, tMax).value;
                        var lo := if c.lo < 0.0 then 0.0 else c.lo;
                        hitDistance <= (c.hi - lo) * rayLength
  {
    match Clip(entry, exit, tMin, tMax)
    case None => None
    case Some(c) =>
      var lo := if c.lo < 0.0 then 0.0 else c.lo;
      var distanceInsideBoundary := (c.hi - lo) * rayLength;
      if hitDistance > distanceInsideBoundary then None
      else Some(lo + Ratio(hitDistance, rayLength))
  }

  /** With a non-negative sampled distance and a ray of positive length, the
      scattering point is in the query range, in front of the origin, and
      inside the medium's boundary. */
  lemma ScatterInside(entry: real, exit: real, tMin: ExtReal, tMax: ExtReal,
                      rayLength: real, hitDistance: real)
    requires hitDistance >= 0.0 && rayLength > 0.0
    ensures var r := ScatterAt(entry, exit, tMin, tMax, rayLength, hitDistance);
            r.Some? ==> InRange(r.value, tMin, tMax) && 0.0 <= r.value && entry <= r.value <= exit
  {
    var r := ScatterAt(entry, exit, tMin, tMax, rayLength, hitDistance);
    if r.Some? {
      var c := Clip(entry, exit, tMin, tMax).value;
      var lo := if c.lo < 0.0 then 0.0 else c.lo;
      var step := Ratio(hitDistance, rayLength);
      assert r.value == lo + step;
      StepBounds(hitDistance, rayLength, c.hi - lo, step);
      LeTransitive(tMin, Real(c.lo), Real(lo));
      LeTransitive(Real(lo + step), Real(c.hi), tMax);
    }
  }

  lemma StepBounds(hitDistance: real, rayLength: real, room: real, step: real)
    requires hitDistance >= 0.0 && rayLength > 0.0
    requires hitDistance <= room * rayLength
    requires step * rayLength == hitDistance
    ensures 0.0 <= step <= room
  {
    assert (room - step) * rayLength >= 0.0;
  }

  /** The scattering point lies the sampled distance, measured along the ray,
      past the clamped entry. */
  lemma ScatterDistance(entry: real, exit: real, tMin: ExtReal, tMax: ExtReal,
                        rayLength: real, hitDistance: real)
    requires rayLength != 0.0
    ensures var r := ScatterAt(entry, exit, tMin, tMax, rayLength, hitDistance);
            r.Some? ==> var c := Clip(entry, exit, tMin, tMax).value;
                        var lo := if c.lo < 0.0 then 0.0 else c.lo;
                        (r.value - lo) * rayLength == hitDistance
  {
  }

  /** A medium whose exit lies behind the ray origin is never scattered in,
      although its clipped interval may be non-empty: the clamp at zero comes
      after the emptiness check. */
  lemma BehindOriginNoScatter(entry: real, exit: real, tMin: ExtReal, tMax: ExtReal,
                              rayLength: real, hitDistance: real)
    requires hitDistance >= 0.0 && rayLength > 0.0 && exit < 0.0
    ensures ScatterAt(entry, exit, tMin, tMax, rayLength, hitDistance).None?
  {
    ScatterInside(entry, exit, tMin, tMax, rayLength, hitDistance);
  }

  /** `-1 / density`, the factor turning `ln U` into a free path. */
  function NegativeInverseDensity(density: real): (n: real)
    requires density != 0.0
    ensures n * density == -1.0
    ensures density > 0.0 ==> n < 0.0
  {
    -1.0 / density
  }

  /** A positive density and a logarithm of a draw in (0, 1] give a
      non-negative free path. */
  lemma FreePathNonNegative(density: real, logDraw: real)
    requires density > 0.0 && logDraw <= 0.0
    ensures NegativeInverseDensity(density) * logDraw >= 0.0
  {
    var n := NegativeInverseDensity(density);
    assert n * logDraw == (-n) * (-logDraw);
  }
}
