/** Axis-aligned bounding boxes (Models/AABB.cs): the union of two boxes and
    the slab test that the hierarchy uses to reject rays early. */
module Aabb {
  import opened Wrappers
  import opened Numerics
  import opened Geometry

  datatype AABB = AABB(minimum: Vec3, maximum: Vec3)

  /** The box `new AABB()` holds: both corners at the origin. */
  const EmptyBox := AABB(Zero, Zero)

  /** The outcome of a BoundingBox query: its return value and the box it
      leaves in its `ref` argument. */
  datatype BoxOutcome = BoxOutcome(ok: bool, box: AABB)

  /** `outer` spans `inner` on every axis. */
  predicate Contains(outer: AABB, inner: AABB)
  {
    && outer.minimum.x <= inner.minimum.x && inner.maximum.x <= outer.maximum.x
    && outer.minimum.y <= inner.minimum.y && inner.maximum.y <= outer.maximum.y
    && outer.minimum.z <= inner.minimum.z && inner.maximum.z <= outer.maximum.z
  }

  /** The point lies in the closed box. */
  predicate ContainsPoint(b: AABB, q: Vec3)
  {
    && b.minimum.x <= q.x <= b.maximum.x
    && b.minimum.y <= q.y <= b.maximum.y
    && b.minimum.z <= q.z <= b.maximum.z
  }

  /** The point lies in the open interior of the box. */
  predicate StrictlyInside(b: AABB, q: Vec3)
  {
    && b.minimum.x < q.x < b.maximum.x
    && b.minimum.y < q.y < b.maximum.y
    && b.minimum.z < q.z < b.maximum.z
  }

  function Min(a: real, b: real): real
  {
    if a <= b then a else b
  }

  function Max(a: real, b: real): real
  {
    if a >= b then a else b
  }

  /** SurroundingBox: componentwise minimum of the minima and maximum of the
      maxima, so the result spans both boxes and nothing more. */
  function SurroundingBox(box0: AABB, box1: AABB): (r: AABB)
    ensures Contains(r, box0) && Contains(r, box1)
  {
    var minimum := Vec3(Min(box0.minimum.x, box1.minimum.x),
                        Min(box0.minimum.y, box1.minimum.y),
                        Min(box0.minimum.z, box1.minimum.z));
    var maximum := Vec3(Max(box0.maximum.x, box1.maximum.x),
                        Max(box0.maximum.y, box1.maximum.y),
                        Max(box0.maximum.z, box1.maximum.z));
    AABB(minimum, maximum)
  }

  /** Every box that spans both inputs spans their union: the union is the
      least such box. */
  lemma SurroundingBoxIsLeast(box0: AABB, box1: AABB, c: AABB)
    requires Contains(c, box0) && Contains(c, box1)
    ensures Contains(c, SurroundingBox(box0, box1))
  {
  }

  lemma SurroundingBoxCommutes(box0: AABB, box1: AABB)
    ensures SurroundingBox(box0, box1) == SurroundingBox(box1, box0)
  {
  }

  lemma SurroundingBoxIdempotent(b: AABB)
    ensures SurroundingBox(b, b) == b
  {
  }

  lemma SurroundingBoxAssociates(a: AABB, b: AABB, c: AABB)
    ensures SurroundingBox(SurroundingBox(a, b), c) == SurroundingBox(a, SurroundingBox(b, c))
  {
  }

  /** An AABB is itself hittable; its BoundingBox writes a copy of the
      receiver and always succeeds. */
  function BoundingBox(b: AABB, box: AABB, time0: real, time1: real): (r: BoxOutcome)
    ensures r.ok && r.box == b
  {
    BoxOutcome(true, AABB(b.minimum, b.maximum))
  }

  /** The entry and exit parameters of one slab, `(bound - origin) * (1 / d)`,
      swapped when the inverse direction is negative. */
  function SlabTimes(lo: real, hi: real, o: real, d: real): (ts: (real, real))
    requires d != 0.0
  {
    var invD := 1.0 / d;
    var t0 := (lo - o) * invD;
    var t1 := (hi - o) * invD;
    if invD < 0.0 then (t1, t0) else (t0, t1)
  }

  /** After the swap the entry parameter never exceeds the exit parameter of
      a well-formed slab. */
  lemma SlabTimesOrdered(lo: real, hi: real, o: real, d: real)
    requires d != 0.0 && lo <= hi
    ensures SlabTimes(lo, hi, o, d).0 <= SlabTimes(lo, hi, o, d).1
  {
    var invD := 1.0 / d;
    assert (hi - o) * invD - (lo - o) * invD == (hi - lo) * invD;
    if invD < 0.0 {
      assert (hi - lo) * invD <= 0.0;
    } else {
      assert (hi - lo) * invD >= 0.0;
    }
  }

  /** The working interval `[tMin, tMax]` of the slab test. */
  datatype Interval = Interval(lo: ExtReal, hi: ExtReal)

  /** The test `tMax <= tMin` that ends the slab test with a miss. */
  predicate Empty(iv: Interval)
  {
    Le(iv.hi, iv.lo)
  }

  /** One axis of the slab test.  A zero direction component makes the float
      inverse infinite: entry and exit become infinities of the sign of
      `bound - origin`, or NaN on the boundary, so an origin outside the slab
      empties the interval and any other origin leaves it as it is. */
  function Narrow(lo: real, hi: real, o: real, d: real, iv: Interval): (r: Interval)
    ensures Le(iv.lo, r.lo) && Le(r.hi, iv.hi)
  {
    if d == 0.0 then
      Interval(if o < lo then PosInf else iv.lo, if o > hi then NegInf else iv.hi)
    else
      var ts := SlabTimes(lo, hi, o, d);
      Interval(if Lt(iv.lo, Real(ts.0)) then Real(ts.0) else iv.lo,
               if Lt(Real(ts.1), iv.hi) then Real(ts.1) else iv.hi)
  }

  function NarrowX(b: AABB, ray: Ray, iv: Interval): Interval
  {
    Narrow(b.minimum.x, b.maximum.x, ray.origin.x, ray.direction.x, iv)
  }

  function NarrowY(b: AABB, ray: Ray, iv: Interval): Interval
  {
    Narrow(b.minimum.y, b.maximum.y, ray.origin.y, ray.direction.y, iv)
  }

  function NarrowZ(b: AABB, ray: Ray, iv: Interval): Interval
  {
    Narrow(b.minimum.z, b.maximum.z, ray.origin.z, ray.direction.z, iv)
  }

  /** The interval left after the X, Y and Z slabs, or None as soon as one
      of them empties it. */
  function SlabInterval(b: AABB, ray: Ray, tMin: ExtReal, tMax: ExtReal): (r: Option<Interval>)
    ensures r.Some? ==> !Empty(r.value)
    ensures r.Some? ==> Le(tMin, r.value.lo) && Le(r.value.hi, tMax)
  {
    var ix := NarrowX(b, ray, Interval(tMin, tMax));
    if Empty(ix) then None
    else
      var iy := NarrowY(b, ray, ix);
      if Empty(iy) then None
      else
        var iz := NarrowZ(b, ray, iy);
        if Empty(iz) then None else Some(iz)
  }

  /** The result of the slab test. */
  predicate BoxHit(b: AABB, ray: Ray, tMin: ExtReal, tMax: ExtReal)
  {
    SlabInterval(b, ray, tMin, tMax).Some?
  }

  /** One axis of Hit as the source writes it: compute both parameters, swap
      them through a temporary, then shrink the working interval. */
  method NarrowAxis(lo: real, hi: real, o: real, d: real, tMin: ExtReal, tMax: ExtReal)
    returns (newMin: ExtReal, newMax: ExtReal)
    ensures Interval(newMin, newMax) == Narrow(lo, hi, o, d, Interval(tMin, tMax))
  {
    if d == 0.0 {
      newMin := if o < lo then PosInf else tMin;
      newMax := if o > hi then NegInf else tMax;
      return;
    }
    var invD := 1.0 / d;
    var t0 := (lo - o) * invD;
    var t1 := (hi - o) * invD;
    if invD < 0.0 {
      var temp := t0;
      t0 := t1;
      t1 := temp;
    }
    assert t0 == SlabTimes(lo, hi, o, d).0 && t1 == SlabTimes(lo, hi, o, d).1;
    newMin := if Lt(tMin, Real(t0)) then Real(t0) else tMin;
    newMax := if Lt(Real(t1), tMax) then Real(t1) else tMax;
  }

  /** Hit: the slab test.  It never writes the record it is handed. */
  method Hit(b: AABB, hitResult: HitResult, ray: Ray, tMin: ExtReal, tMax: ExtReal)
    returns (hit: bool, resultOut: HitResult)
    ensures resultOut == hitResult
    ensures hit == BoxHit(b, ray, tMin, tMax)
  {
    resultOut := hitResult;
    var lo, hi := tMin, tMax;
    // Check X
    lo, hi := NarrowAxis(b.minimum.x, b.maximum.x, ray.origin.x, ray.direction.x, lo, hi);
    if Le(hi, lo) {
      return false, resultOut;
    }
    // Check Y
    lo, hi := NarrowAxis(b.minimum.y, b.maximum.y, ray.origin.y, ray.direction.y, lo, hi);
    if Le(hi, lo) {
      return false, resultOut;
    }
    // Check Z
    lo, hi := NarrowAxis(b.minimum.z, b.maximum.z, ray.origin.z, ray.direction.z, lo, hi);
    if Le(hi, lo) {
      return false, resultOut;
    }
    return true, resultOut;
  }

  /** `(bound - o) / d - t` is `(bound - (o + t d)) / d`. */
  lemma Shift(bound: real, o: real, d: real, t: real)
    requires d != 0.0
    ensures (bound - o) * (1.0 / d) - t == (bound - (o + t * d)) * (1.0 / d)
  {
    var invD := 1.0 / d;
    assert d * invD == 1.0;
    calc {
      (bound - (o + t * d)) * invD;
      (bound - o) * invD - t * (d * invD);
      (bound - o) * invD - t;
    }
  }

  lemma SignOfProduct(a: real, c: real)
    requires c != 0.0
    ensures c > 0.0 ==> (a * c < 0.0 <==> a < 0.0) && (a * c > 0.0 <==> a > 0.0)
    ensures c < 0.0 ==> (a * c < 0.0 <==> a > 0.0) && (a * c > 0.0 <==> a < 0.0)
  {
  }

  /** Where the ray stands against one slab bound at parameter t. */
  lemma BoundCrossing(bound: real, o: real, d: real, t: real)
    requires d != 0.0
    ensures d > 0.0 ==> ((bound - o) * (1.0 / d) < t <==> bound < o + t * d)
    ensures d < 0.0 ==> ((bound - o) * (1.0 / d) < t <==> bound > o + t * d)
    ensures d > 0.0 ==> (t < (bound - o) * (1.0 / d) <==> o + t * d < bound)
    ensures d < 0.0 ==> (t < (bound - o) * (1.0 / d) <==> o + t * d > bound)
  {
    Shift(bound, o, d, t);
    SignOfProduct(bound - (o + t * d), 1.0 / d);
  }

  /** On an axis with non-zero direction, the ray is strictly inside the slab
      exactly at the parameters strictly between entry and exit. */
  lemma SlabBracket(lo: real, hi: real, o: real, d: real, t: real)
    requires d != 0.0
    ensures (SlabTimes(lo, hi, o, d).0 < t < SlabTimes(lo, hi, o, d).1) <==> (lo < o + t * d < hi)
  {
    BoundCrossing(lo, o, d, t);
    BoundCrossing(hi, o, d, t);
  }

  /** One slab keeps a parameter t inside the working interval whenever the
      ray is strictly inside that slab at t. */
  lemma NarrowKeeps(lo: real, hi: real, o: real, d: real, iv: Interval, t: real)
    requires Le(iv.lo, Real(t)) && Lt(Real(t), iv.hi)
    requires lo < o + t * d < hi
    ensures Le(Narrow(lo, hi, o, d, iv).lo, Real(t)) && Lt(Real(t), Narrow(lo, hi, o, d, iv).hi)
    ensures !Empty(Narrow(lo, hi, o, d, iv))
  {
    if d != 0.0 {
      SlabBracket(lo, hi, o, d, t);
    }
    var r := Narrow(lo, hi, o, d, iv);
    LeLt(r.lo, Real(t), r.hi);
  }

  /** One slab confines every parameter strictly inside the narrowed
      interval to parameters at which the ray is inside the slab. */
  lemma NarrowConfines(lo: real, hi: real, o: real, d: real, iv: Interval, t: real)
    requires Lt(Narrow(lo, hi, o, d, iv).lo, Real(t)) && Lt(Real(t), Narrow(lo, hi, o, d, iv).hi)
    ensures lo <= o + t * d <= hi
  {
    if d != 0.0 {
      SlabBracket(lo, hi, o, d, t);
    }
  }

  /** Completeness of the slab test: a ray that is strictly inside the box at
      some parameter of `[tMin, tMax)` hits the box. */
  lemma BoxHitComplete(b: AABB, ray: Ray, tMin: ExtReal, tMax: ExtReal, t: real)
    requires Le(tMin, Real(t)) && Lt(Real(t), tMax)
    requires StrictlyInside(b, At(ray, t))
    ensures BoxHit(b, ray, tMin, tMax)
  {
    AtComponents(ray, t);
    var iv := Interval(tMin, tMax);
    var ix := NarrowX(b, ray, iv);
    var iy := NarrowY(b, ray, ix);
    NarrowKeeps(b.minimum.x, b.maximum.x, ray.origin.x, ray.direction.x, iv, t);
    NarrowKeeps(b.minimum.y, b.maximum.y, ray.origin.y, ray.direction.y, ix, t);
    NarrowKeeps(b.minimum.z, b.maximum.z, ray.origin.z, ray.direction.z, iy, t);
  }

  /** A parameter strictly between two bounds of a non-empty interval. */
  function Between(iv: Interval): (t: real)
    requires !Empty(iv)
    ensures Lt(iv.lo, Real(t)) && Lt(Real(t), iv.hi)
  {
    match (iv.lo, iv.hi)
    case (Real(a), Real(c)) => (a + c) / 2.0
    case (Real(a), _) => a + 1.0
    case (_, Real(c)) => c - 1.0
    case _ => 0.0
  }

  /** Soundness of the slab test: when it reports a hit, every parameter
      strictly inside the surviving interval puts the ray inside the closed
      box, and such parameters lie within `[tMin, tMax]`. */
  lemma BoxHitSound(b: AABB, ray: Ray, tMin: ExtReal, tMax: ExtReal)
    requires BoxHit(b, ray, tMin, tMax)
    ensures var iv := SlabInterval(b, ray, tMin, tMax).value;
            var t := Between(iv);
            Lt(tMin, Real(t)) && Lt(Real(t), tMax) && ContainsPoint(b, At(ray, t))
  {
    var iv := Interval(tMin, tMax);
    var ix := NarrowX(b, ray, iv);
    var iy := NarrowY(b, ray, ix);
    var iz := NarrowZ(b, ray, iy);
    assert SlabInterval(b, ray, tMin, tMax) == Some(iz);
    var t := Between(iz);
    InsideAllSlabs(b, ray, iv, t);
  }

  /** A parameter strictly inside the interval the three slabs leave puts the
      ray inside the closed box. */
  lemma InsideAllSlabs(b: AABB, ray: Ray, iv: Interval, t: real)
    requires var iz := NarrowZ(b, ray, NarrowY(b, ray, NarrowX(b, ray, iv)));
             Lt(iz.lo, Real(t)) && Lt(Real(t), iz.hi)
    ensures Lt(iv.lo, Real(t)) && Lt(Real(t), iv.hi)
    ensures ContainsPoint(b, At(ray, t))
  {
    var ix := NarrowX(b, ray, iv);
    var iy := NarrowY(b, ray, ix);
    AxisStep(b.minimum.z, b.maximum.z, ray.origin.z, ray.direction.z, iy, t);
    InsideTwoSlabs(b, ray, iv, t);
    AtComponents(ray, t);
  }

  lemma InsideTwoSlabs(b: AABB, ray: Ray, iv: Interval, t: real)
    requires var iy := NarrowY(b, ray, NarrowX(b, ray, iv));
             Lt(iy.lo, Real(t)) && Lt(Real(t), iy.hi)
    ensures Lt(iv.lo, Real(t)) && Lt(Real(t), iv.hi)
    ensures b.minimum.x <= ray.origin.x + t * ray.direction.x <= b.maximum.x
    ensures b.minimum.y <= ray.origin.y + t * ray.direction.y <= b.maximum.y
  {
    var ix := NarrowX(b, ray, iv);
    AxisStep(b.minimum.y, b.maximum.y, ray.origin.y, ray.direction.y, ix, t);
    AxisStep(b.minimum.x, b.maximum.x, ray.origin.x, ray.direction.x, iv, t);
  }

  /** One slab, read backwards: strictly inside the narrowed interval means
      strictly inside the interval before it and within the slab. */
  lemma AxisStep(lo: real, hi: real, o: real, d: real, iv: Interval, t: real)
    requires Lt(Narrow(lo, hi, o, d, iv).lo, Real(t)) && Lt(Real(t), Narrow(lo, hi, o, d, iv).hi)
    ensures Lt(iv.lo, Real(t)) && Lt(Real(t), iv.hi)
    ensures lo <= o + t * d <= hi
  {
    var r := Narrow(lo, hi, o, d, iv);
    LeLt(iv.lo, r.lo, Real(t));
    LtLe(Real(t), r.hi, iv.hi);
    NarrowConfines(lo, hi, o, d, iv, t);
  }

  /** A ray starting strictly inside the box hits it over `[0, +infinity)`,
      whatever its direction. */
  lemma InsideOriginHits(b: AABB, ray: Ray)
    requires StrictlyInside(b, ray.origin)
    ensures BoxHit(b, ray, Real(0.0), PosInf)
  {
    assert At(ray, 0.0) == ray.origin;
    BoxHitComplete(b, ray, Real(0.0), PosInf, 0.0);
  }
}
