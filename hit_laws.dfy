/** Laws every hit query obeys, proved by induction over the object tree:
    a miss leaves the caller's record alone, the answer does not depend on
    the incoming record beyond the texture coordinates a medium copies, and
    for well-formed objects every hit lies in the queried range and on the
    ray. */
module HitLaws {
  import opened Wrappers
  import opened Numerics
  import opened Geometry
  import Aabb
  import opened Rotation
  import opened Media
  import opened Spheres
  import opened Hittables

  /** A miss leaves the record the caller passed in. */
  lemma {:induction false} MissKeepsResult(h: Hittable, ray: Ray, tMin: ExtReal, tMax: ExtReal,
                                           result: HitResult, p: Platform)
    ensures !Hit(h, ray, tMin, tMax, result, p).hit ==> Hit(h, ray, tMin, tMax, result, p).result == result
    decreases h
  {
    match h
    case Box(_, _, sides) => ClosestMissKeepsAcc(sides, ray, tMin, tMax, Outcome(false, result), p);
    case List(objects) => ClosestMissKeepsAcc(objects, ray, tMin, tMax, Outcome(false, result), p);
    case Translate(obj, offset) =>
      MissKeepsResult(obj, Ray(Minus(ray.origin, offset), ray.direction, ray.time), tMin, tMax, result, p);
    case RotateY(obj, sin, cos, _, _) => MissKeepsResult(obj, ObjectRay(sin, cos, ray), tMin, tMax, result, p);
    case Bvh(left, right, box) =>
      if Aabb.BoxHit(box, ray, tMin, tMax) {
        var l := Hit(left, ray, tMin, tMax, result, p);
        MissKeepsResult(left, ray, tMin, tMax, result, p);
        MissKeepsResult(right, ray, tMin, if l.hit then Real(l.result.t) else tMax, l.result, p);
      }
    case _ =>
  }

  /** The scan ends either where it started or with a success. */
  lemma {:induction false} ClosestMissKeepsAcc(objs: seq<Hittable>, ray: Ray, tMin: ExtReal,
                                               closest: ExtReal, acc: Outcome, p: Platform)
    ensures var o := Closest(objs, ray, tMin, closest, acc, p);
            o == acc || o.hit
    decreases |objs|
  {
    if |objs| > 0 {
      var o := Hit(objs[0], ray, tMin, closest, EmptyResult, p);
      if o.hit {
        ClosestMissKeepsAcc(objs[1..], ray, tMin, Real(o.result.t), o, p);
      } else {
        ClosestMissKeepsAcc(objs[1..], ray, tMin, closest, acc, p);
      }
    }
  }

  /** Two records that agree on everything but the texture coordinates. */
  predicate AgreeBesidesUV(a: HitResult, b: HitResult)
  {
    a.t == b.t && a.p == b.p && a.normal == b.normal && a.frontFace == b.frontFace
    && a.material == b.material
  }

  /** Whether an object is hit, and where, does not depend on the record the
      caller passes in; only a medium reads it, for U and V. */
  lemma {:induction false} HitIgnoresRecord(h: Hittable, ray: Ray, tMin: ExtReal, tMax: ExtReal,
                                            r1: HitResult, r2: HitResult, p: Platform)
    ensures Hit(h, ray, tMin, tMax, r1, p).hit == Hit(h, ray, tMin, tMax, r2, p).hit
    ensures Hit(h, ray, tMin, tMax, r1, p).hit
            ==> AgreeBesidesUV(Hit(h, ray, tMin, tMax, r1, p).result, Hit(h, ray, tMin, tMax, r2, p).result)
    decreases h
  {
    match h
    case Box(_, _, sides) => ClosestAccOnly(sides, ray, tMin, tMax, Outcome(false, r1), Outcome(false, r2), p);
    case List(objects) => ClosestAccOnly(objects, ray, tMin, tMax, Outcome(false, r1), Outcome(false, r2), p);
    case Translate(obj, offset) =>
      HitIgnoresRecord(obj, Ray(Minus(ray.origin, offset), ray.direction, ray.time), tMin, tMax, r1, r2, p);
    case RotateY(obj, sin, cos, _, _) => HitIgnoresRecord(obj, ObjectRay(sin, cos, ray), tMin, tMax, r1, r2, p);
    case Bvh(left, right, box) =>
      if Aabb.BoxHit(box, ray, tMin, tMax) {
        var l1, l2 := Hit(left, ray, tMin, tMax, r1, p), Hit(left, ray, tMin, tMax, r2, p);
        HitIgnoresRecord(left, ray, tMin, tMax, r1, r2, p);
        var bound := if l1.hit then Real(l1.result.t) else tMax;
        HitIgnoresRecord(right, ray, tMin, bound, l1.result, l2.result, p);
        MissKeepsResult(right, ray, tMin, bound, l1.result, p);
        MissKeepsResult(right, ray, tMin, bound, l2.result, p);
      }
    case _ =>
  }

  /** Scans that differ only in their starting outcome end in those
      outcomes, or in the same outcome. */
  lemma {:induction false} ClosestAccOnly(objs: seq<Hittable>, ray: Ray, tMin: ExtReal, closest: ExtReal,
                                          a1: Outcome, a2: Outcome, p: Platform)
    ensures var o1, o2 := Closest(objs, ray, tMin, closest, a1, p), Closest(objs, ray, tMin, closest, a2, p);
            (o1 == a1 && o2 == a2) || o1 == o2
    decreases |objs|
  {
    if |objs| > 0 {
      var o := Hit(objs[0], ray, tMin, closest, EmptyResult, p);
      if !o.hit {
        ClosestAccOnly(objs[1..], ray, tMin, closest, a1, a2, p);
      }
    }
  }

  // ---------------------------------------------------------------------
  // Well-formed objects and platforms

  /** The conditions the hit laws need: a genuine rotation angle and a
      positive density (a non-positive negative inverse density). */
  predicate WellFormed(h: Hittable)
    decreases h
  {
    match h
    case Box(_, _, sides) => forall i :: 0 <= i < |sides| ==> WellFormed(sides[i])
    case List(objects) => forall i :: 0 <= i < |objects| ==> WellFormed(objects[i])
    case Translate(obj, _) => WellFormed(obj)
    case RotateY(obj, sin, cos, _, _) => UnitAngle(sin, cos) && WellFormed(obj)
    case Medium(boundary, _, negInvDensity) => negInvDensity <= 0.0 && WellFormed(boundary)
    case Bvh(left, right, _) => WellFormed(left) && WellFormed(right)
    case _ => true
  }

  /** A square root that is positive on positive arguments, and a uniform
      draw in (0, 1], whose logarithm is not positive. */
  ghost predicate PlatformOk(p: Platform)
  {
    p.logDraw <= 0.0 && forall x :: x > 0.0 ==> p.sqrt(x) > 0.0
  }

  /** A hit lies in the queried range, at the reported parameter of the ray. */
  predicate Within(o: Outcome, ray: Ray, tMin: ExtReal, tMax: ExtReal)
  {
    o.hit ==> InRange(o.result.t, tMin, tMax) && o.result.p == At(ray, o.result.t)
  }

  /** Every hit of a well-formed object lies in [tMin, tMax] and on the ray. */
  lemma {:induction false} HitWithin(h: Hittable, ray: Ray, tMin: ExtReal, tMax: ExtReal,
                                     result: HitResult, p: Platform)
    requires WellFormed(h) && PlatformOk(p) && ray.direction != Zero
    ensures Within(Hit(h, ray, tMin, tMax, result, p), ray, tMin, tMax)
    decreases h
  {
    match h
    case Box(_, _, sides) => ClosestWithin(sides, ray, tMin, tMax, Outcome(false, result), p);
    case List(objects) => ClosestWithin(objects, ray, tMin, tMax, Outcome(false, result), p);
    case Translate(obj, offset) =>
      HitWithin(obj, Ray(Minus(ray.origin, offset), ray.direction, ray.time), tMin, tMax, result, p);
      TranslateWithin(obj, offset, ray, tMin, tMax, result, p);
    case RotateY(obj, sin, cos, _, _) =>
      ObjectDirectionNonZero(sin, cos, ray.direction);
      HitWithin(obj, ObjectRay(sin, cos, ray), tMin, tMax, result, p);
      RotateWithin(h, ray, tMin, tMax, result, p);
    case Medium(boundary, phase, negInvDensity) =>
      MediumWithin(boundary, phase, negInvDensity, ray, tMin, tMax, result, p);
    case Bvh(left, right, box) =>
      if Aabb.BoxHit(box, ray, tMin, tMax) {
        var l := Hit(left, ray, tMin, tMax, result, p);
        HitWithin(left, ray, tMin, tMax, result, p);
        HitWithin(right, ray, tMin, if l.hit then Real(l.result.t) else tMax, l.result, p);
        BvhWithin(h, ray, tMin, tMax, result, p);
      }
    case _ =>
  }

  lemma TranslateWithin(obj: Hittable, offset: Vec3, ray: Ray, tMin: ExtReal, tMax: ExtReal,
                        result: HitResult, p: Platform)
    requires var moved := Ray(Minus(ray.origin, offset), ray.direction, ray.time);
             Within(Hit(obj, moved, tMin, tMax, result, p), moved, tMin, tMax)
    ensures Within(Hit(Translate(obj, offset), ray, tMin, tMax, result, p), ray, tMin, tMax)
  {
    var moved := Ray(Minus(ray.origin, offset), ray.direction, ray.time);
    var o := Hit(obj, moved, tMin, tMax, result, p);
    if o.hit {
      AtComponents(moved, o.result.t);
      AtComponents(ray, o.result.t);
    }
  }

  lemma RotateWithin(h: Hittable, ray: Ray, tMin: ExtReal, tMax: ExtReal, result: HitResult, p: Platform)
    requires h.RotateY? && UnitAngle(h.sinTheta, h.cosTheta)
    requires var rotated := ObjectRay(h.sinTheta, h.cosTheta, ray);
             Within(Hit(h.obj, rotated, tMin, tMax, result, p), rotated, tMin, tMax)
    ensures Within(Hit(h, ray, tMin, tMax, result, p), ray, tMin, tMax)
  {
    var o := Hit(h.obj, ObjectRay(h.sinTheta, h.cosTheta, ray), tMin, tMax, result, p);
    if o.hit {
      ObjectRayPoint(h.sinTheta, h.cosTheta, ray, o.result.t);
    }
  }

  lemma MediumWithin(boundary: Hittable, phase: Material, negInvDensity: real, ray: Ray,
                     tMin: ExtReal, tMax: ExtReal, result: HitResult, p: Platform)
    requires negInvDensity <= 0.0 && PlatformOk(p) && ray.direction != Zero
    ensures Within(MediumHit(boundary, phase, negInvDensity, ray, tMin, tMax, result, p), ray, tMin, tMax)
  {
    var first := Hit(boundary, ray, NegInf, PosInf, EmptyResult, p);
    var second := Hit(boundary, ray, Real(first.result.t + ExitSearchOffset), PosInf, EmptyResult, p);
    MediumHitIsAnswer(boundary, phase, negInvDensity, ray, tMin, tMax, result, p, first, second);
    MediumAnswerWithin(first, second, phase, negInvDensity, ray, tMin, tMax, result, p);
  }

  lemma MediumAnswerWithin(first: Outcome, second: Outcome, phase: Material, negInvDensity: real, ray: Ray,
                           tMin: ExtReal, tMax: ExtReal, result: HitResult, p: Platform)
    requires negInvDensity <= 0.0 && PlatformOk(p) && ray.direction != Zero
    ensures Within(MediumAnswer(first, second, phase, negInvDensity, ray, tMin, tMax, result, p), ray, tMin, tMax)
  {
    if first.hit && second.hit {
      ScatterWithin(first.result.t, second.result.t, phase, negInvDensity, ray, tMin, tMax, result, p);
    }
  }

  lemma ScatterWithin(entry: real, exit: real, phase: Material, negInvDensity: real, ray: Ray,
                      tMin: ExtReal, tMax: ExtReal, result: HitResult, p: Platform)
    requires negInvDensity <= 0.0 && PlatformOk(p) && ray.direction != Zero
    ensures Within(Scatter(entry, exit, phase, negInvDensity, ray, tMin, tMax, result, p), ray, tMin, tMax)
  {
    PositiveLength(ray.direction);
    assert p.sqrt(LengthSquared(ray.direction)) > 0.0;
    NonPositiveProduct(negInvDensity, p.logDraw);
    ScatterWithinFrom(entry, exit, phase, negInvDensity, ray, tMin, tMax, result, p);
  }

  /** ScatterWithin once the ray length and the free path are known to have
      the right signs. */
  lemma ScatterWithinFrom(entry: real, exit: real, phase: Material, negInvDensity: real, ray: Ray,
                          tMin: ExtReal, tMax: ExtReal, result: HitResult, p: Platform)
    requires p.sqrt(LengthSquared(ray.direction)) > 0.0 && negInvDensity * p.logDraw >= 0.0
    ensures Within(Scatter(entry, exit, phase, negInvDensity, ray, tMin, tMax, result, p), ray, tMin, tMax)
  {
    ScatterIsOutcome(entry, exit, phase, negInvDensity, ray, tMin, tMax, result, p);
    ScatterOutcomeWithin(entry, exit, phase, p.sqrt(LengthSquared(ray.direction)), negInvDensity * p.logDraw,
                         ray, tMin, tMax, result);
  }

  /** A scattering point with a positive ray length and a non-negative free
      path gives a record within range and on the ray. */
  lemma ScatterOutcomeWithin(entry: real, exit: real, phase: Material, rayLength: real, hitDistance: real,
                             ray: Ray, tMin: ExtReal, tMax: ExtReal, result: HitResult)
    requires rayLength > 0.0 && hitDistance >= 0.0
    ensures Within(ScatterOutcome(ScatterAt(entry, exit, tMin, tMax, rayLength, hitDistance), phase, ray, result),
                   ray, tMin, tMax)
  {
    ScatterInside(entry, exit, tMin, tMax, rayLength, hitDistance);
  }

  lemma BvhWithin(h: Hittable, ray: Ray, tMin: ExtReal, tMax: ExtReal, result: HitResult, p: Platform)
    requires h.Bvh?
    requires Within(Hit(h.left, ray, tMin, tMax, result, p), ray, tMin, tMax)
    requires var l := Hit(h.left, ray, tMin, tMax, result, p);
             var bound := if l.hit then Real(l.result.t) else tMax;
             Within(Hit(h.right, ray, tMin, bound, l.result, p), ray, tMin, bound)
    ensures Within(Hit(h, ray, tMin, tMax, result, p), ray, tMin, tMax)
  {
    if Aabb.BoxHit(h.box, ray, tMin, tMax) {
      var l := Hit(h.left, ray, tMin, tMax, result, p);
      var bound := if l.hit then Real(l.result.t) else tMax;
      MissKeepsResult(h.right, ray, tMin, bound, l.result, p);
      var r := Hit(h.right, ray, tMin, bound, l.result, p);
      if r.hit {
        LeTransitive(Real(r.result.t), bound, tMax);
      }
    }
  }

  /** The scan ends where it started, or with a hit in [tMin, closest]. */
  lemma {:induction false} ClosestWithin(objs: seq<Hittable>, ray: Ray, tMin: ExtReal, closest: ExtReal,
                                         acc: Outcome, p: Platform)
    requires forall i :: 0 <= i < |objs| ==> WellFormed(objs[i])
    requires PlatformOk(p) && ray.direction != Zero
    ensures var o := Closest(objs, ray, tMin, closest, acc, p);
            o == acc || (o.hit && Within(o, ray, tMin, closest))
    decreases objs
  {
    if |objs| > 0 {
      var o := Hit(objs[0], ray, tMin, closest, EmptyResult, p);
      HitWithin(objs[0], ray, tMin, closest, EmptyResult, p);
      if o.hit {
        ClosestWithin(objs[1..], ray, tMin, Real(o.result.t), o, p);
        var r := Closest(objs[1..], ray, tMin, Real(o.result.t), o, p);
        if r != o {
          LeTransitive(Real(r.result.t), Real(o.result.t), closest);
        }
      } else {
        ClosestWithin(objs[1..], ray, tMin, closest, acc, p);
      }
    }
  }

  lemma ObjectDirectionNonZero(sin: real, cos: real, d: Vec3)
    requires UnitAngle(sin, cos) && d != Zero
    ensures ToObject(sin, cos, d) != Zero
  {
    RotationsInverse(sin, cos, d);
  }

  lemma NonPositiveProduct(a: real, b: real)
    requires a <= 0.0 && b <= 0.0
    ensures a * b >= 0.0
  {
    assert a * b == (-a) * (-b);
  }
}
