/** The hittable objects as one closed datatype, and the two queries every
    object answers.  Both follow the newer by-reference interface: a query
    receives the caller's record (or box) and returns whether it succeeded
    together with the record as the object left it.  The older interface that
    returns a record or null is the `Some`/`None` view of the same query
    started from a fresh record. */
module Hittables {
  import opened Wrappers
  import opened Numerics
  import opened Geometry
  import opened Aabb
  import opened Rects
  import opened Spheres
  import opened Rotation
  import opened Media

  datatype Hittable =
    | XYRect(x0: real, x1: real, y0: real, y1: real, k: real, material: Material)
    | XZRect(x0: real, x1: real, z0: real, z1: real, k: real, material: Material)
    | YZRect(y0: real, y1: real, z0: real, z1: real, k: real, material: Material)
    | Sphere(center: Vec3, radius: real, material: Material)
    | MovingSphere(center0: Vec3, center1: Vec3, time0: real, time1: real, radius: real,
                   material: Material)
      /** The box keeps its corners and the scene of its six faces. */
    | Box(boxMin: Vec3, boxMax: Vec3, sides: seq<Hittable>)
    | Translate(obj: Hittable, offset: Vec3)
      /** The box fields are what the constructor computed. */
    | RotateY(obj: Hittable, sinTheta: real, cosTheta: real, hasBox: bool, bbox: AABB)
    | Medium(boundary: Hittable, phaseFunction: Material, negInvDensity: real)
    | Bvh(left: Hittable, right: Hittable, box: AABB)
      /** A Scene or HittableList, by its objects in order. */
    | List(objects: seq<Hittable>)

  /** The return value of a hit query and the record it leaves behind. */
  datatype Outcome = Outcome(hit: bool, result: HitResult)

  /** A primitive that computes a new record only on success. */
  function Adopt(r: Option<HitResult>, result: HitResult): (o: Outcome)
    ensures o.hit <==> r.Some?
    ensures o.result == if r.Some? then r.value else result
  {
    match r
    case None => Outcome(false, result)
    case Some(rec) => Outcome(true, rec)
  }

  /** The hit query of every object. */
  function Hit(h: Hittable, ray: Ray, tMin: ExtReal, tMax: ExtReal, result: HitResult,
               p: Platform): Outcome
    decreases h, 2
  {
    match h
    case XYRect(x0, x1, y0, y1, k, m) => Adopt(XYRectHit(x0, x1, y0, y1, k, m, ray, tMin, tMax), result)
    case XZRect(x0, x1, z0, z1, k, m) => Adopt(XZRectHit(x0, x1, z0, z1, k, m, ray, tMin, tMax), result)
    case YZRect(y0, y1, z0, z1, k, m) => Adopt(YZRectHit(y0, y1, z0, z1, k, m, ray, tMin, tMax), result)
    case Sphere(c, r, m) => Adopt(SphereHit(c, r, m, ray, tMin, tMax, p.sqrt), result)
    case MovingSphere(c0, c1, t0, t1, r, m) =>
      Adopt(MovingSphereHit(c0, c1, t0, t1, r, m, ray, tMin, tMax, p.sqrt), result)
    case Box(_, _, sides) => SceneHit(sides, ray, tMin, tMax, result, p)
    case Translate(obj, offset) => TranslateHit(obj, offset, ray, tMin, tMax, result, p)
    case RotateY(obj, sin, cos, _, _) => RotateYHit(obj, sin, cos, ray, tMin, tMax, result, p)
    case Medium(boundary, phase, negInvDensity) =>
      MediumHit(boundary, phase, negInvDensity, ray, tMin, tMax, result, p)
    case Bvh(left, right, box) => BvhHit(left, right, box, ray, tMin, tMax, result, p)
    case List(objects) => SceneHit(objects, ray, tMin, tMax, result, p)
  }

  /** Translate.Hit: the child is asked about the ray moved by -offset; a
      hit point is moved back. */
  function TranslateHit(obj: Hittable, offset: Vec3, ray: Ray, tMin: ExtReal, tMax: ExtReal,
                        result: HitResult, p: Platform): Outcome
    decreases obj, 3
  {
    var o := Hit(obj, Ray(Minus(ray.origin, offset), ray.direction, ray.time), tMin, tMax, result, p);
    if o.hit then Outcome(true, o.result.(p := Plus(o.result.p, offset))) else Outcome(false, o.result)
  }

  /** RotateY.Hit: the child is asked about the ray rotated into its frame;
      a hit is rotated back. */
  function RotateYHit(obj: Hittable, sin: real, cos: real, ray: Ray, tMin: ExtReal, tMax: ExtReal,
                      result: HitResult, p: Platform): Outcome
    decreases obj, 3
  {
    var o := Hit(obj, ObjectRay(sin, cos, ray), tMin, tMax, result, p);
    if o.hit then Outcome(true, WorldRecord(sin, cos, ray, o.result)) else Outcome(false, o.result)
  }

  /** ConstantDensityMedium.Hit: entry over (-inf, +inf), exit from just past
      the entry, then the clipped interval and the sampled free path.  The
      source only asks for the exit after an entry was found; the exit query
      is pure here, and its answer is ignored when there is no entry. */
  function MediumHit(boundary: Hittable, phase: Material, negInvDensity: real, ray: Ray,
                     tMin: ExtReal, tMax: ExtReal, result: HitResult, p: Platform): Outcome
    decreases boundary, 3
  {
    var first := Hit(boundary, ray, NegInf, PosInf, EmptyResult, p);
    var second := Hit(boundary, ray, Real(first.result.t + ExitSearchOffset), PosInf, EmptyResult, p);
    MediumAnswer(first, second, phase, negInvDensity, ray, tMin, tMax, result, p)
  }

  lemma MediumHitIsAnswer(boundary: Hittable, phase: Material, negInvDensity: real, ray: Ray,
                          tMin: ExtReal, tMax: ExtReal, result: HitResult, p: Platform,
                          first: Outcome, second: Outcome)
    requires first == Hit(boundary, ray, NegInf, PosInf, EmptyResult, p)
    requires second == Hit(boundary, ray, Real(first.result.t + ExitSearchOffset), PosInf, EmptyResult, p)
    ensures MediumHit(boundary, phase, negInvDensity, ray, tMin, tMax, result, p)
            == MediumAnswer(first, second, phase, negInvDensity, ray, tMin, tMax, result, p)
  {
  }

  /** The medium's answer once the boundary's two queries are known: a miss
      unless both found the boundary. */
  function MediumAnswer(first: Outcome, second: Outcome, phase: Material, negInvDensity: real, ray: Ray,
                        tMin: ExtReal, tMax: ExtReal, result: HitResult, p: Platform): Outcome
  {
    if !first.hit || !second.hit then Outcome(false, result)
    else Scatter(first.result.t, second.result.t, phase, negInvDensity, ray, tMin, tMax, result, p)
  }

  /** The medium's answer once the boundary's entry and exit are known: a
      scattering point with normal (1, 0, 0) on the front face, the phase
      function as material, and the incoming record's U and V. */
  function Scatter(entry: real, exit: real, phase: Material, negInvDensity: real, ray: Ray,
                   tMin: ExtReal, tMax: ExtReal, result: HitResult, p: Platform): Outcome
  {
    var rayLength := p.sqrt(LengthSquared(ray.direction));
    ScatterOutcome(ScatterAt(entry, exit, tMin, tMax, rayLength, negInvDensity * p.logDraw), phase, ray, result)
  }

  lemma ScatterIsOutcome(entry: real, exit: real, phase: Material, negInvDensity: real, ray: Ray,
                         tMin: ExtReal, tMax: ExtReal, result: HitResult, p: Platform)
    ensures Scatter(entry, exit, phase, negInvDensity, ray, tMin, tMax, result, p)
            == ScatterOutcome(ScatterAt(entry, exit, tMin, tMax, p.sqrt(LengthSquared(ray.direction)),
                                        negInvDensity * p.logDraw), phase, ray, result)
  {
  }

  /** The record of a scattering point, if the free path ended inside. */
  function ScatterOutcome(scatter: Option<real>, phase: Material, ray: Ray, result: HitResult): Outcome
  {
    if scatter.None? then Outcome(false, result)
    else
      var t := scatter.value;
      Outcome(true, HitResult(t, At(ray, t), Vec3(1.0, 0.0, 0.0), true, phase, result.u, result.v))
  }

  /** BVHNode.Hit: nothing unless the node box is hit; then the left child,
      and the right child over a range cut down to the left child's hit. */
  function BvhHit(left: Hittable, right: Hittable, box: AABB, ray: Ray, tMin: ExtReal, tMax: ExtReal,
                  result: HitResult, p: Platform): Outcome
    decreases Bvh(left, right, box), 1
  {
    if !BoxHit(box, ray, tMin, tMax) then Outcome(false, result)
    else
      var l := Hit(left, ray, tMin, tMax, result, p);
      var r := Hit(right, ray, tMin, if l.hit then Real(l.result.t) else tMax, l.result, p);
      Outcome(l.hit || r.hit, r.result)
  }

  /** Scene.Hit: the closest-hit scan, started from the caller's record. */
  function SceneHit(objs: seq<Hittable>, ray: Ray, tMin: ExtReal, tMax: ExtReal, result: HitResult,
                    p: Platform): Outcome
    decreases objs, 3
  {
    Closest(objs, ray, tMin, tMax, Outcome(false, result), p)
  }

  /** The rest of the scan: each object is queried with a fresh record over
      [tMin, closestSoFar]; a success narrows closestSoFar to its T and
      replaces the final record. */
  function Closest(objs: seq<Hittable>, ray: Ray, tMin: ExtReal, closestSoFar: ExtReal, acc: Outcome,
                   p: Platform): Outcome
    decreases objs, 2
  {
    if |objs| == 0 then acc
    else
      var o := Hit(objs[0], ray, tMin, closestSoFar, EmptyResult, p);
      if o.hit then Closest(objs[1..], ray, tMin, Real(o.result.t), o, p)
      else Closest(objs[1..], ray, tMin, closestSoFar, acc, p)
  }

  /** The older interface: the record, or null, of a query from a fresh record. */
  function HitRecord(h: Hittable, ray: Ray, tMin: ExtReal, tMax: ExtReal, p: Platform): (r: Option<HitResult>)
    ensures r.Some? <==> Hit(h, ray, tMin, tMax, EmptyResult, p).hit
    ensures r.Some? ==> r.value == Hit(h, ray, tMin, tMax, EmptyResult, p).result
  {
    var o := Hit(h, ray, tMin, tMax, EmptyResult, p);
    if o.hit then Some(o.result) else None
  }

  /** The bounding-box query.  Sphere and the lists define none and leave the
      caller's box alone. */
  function BoundingBox(h: Hittable, time0: real, time1: real, box: AABB): BoxOutcome
    decreases h
  {
    match h
    case XYRect(x0, x1, y0, y1, k, _) => BoxOutcome(true, XYRectBox(x0, x1, y0, y1, k))
    case XZRect(x0, x1, z0, z1, k, _) => BoxOutcome(true, XZRectBox(x0, x1, z0, z1, k))
    case YZRect(y0, y1, z0, z1, k, _) => BoxOutcome(true, YZRectBox(y0, y1, z0, z1, k))
    case Sphere(_, _, _) => BoxOutcome(false, box)
    case MovingSphere(c0, c1, t0, t1, r, _) => BoxOutcome(true, MovingSphereBox(c0, c1, t0, t1, r, time0, time1))
    case Box(p0, p1, _) => BoxOutcome(true, AABB(p0, p1))
    case Translate(obj, offset) =>
      var o := BoundingBox(obj, time0, time1, box);
      if o.ok then BoxOutcome(true, AABB(Plus(o.box.minimum, offset), Plus(o.box.maximum, offset)))
      else BoxOutcome(false, o.box)
    case RotateY(_, _, _, hasBox, bbox) => BoxOutcome(hasBox, bbox)
    case Medium(boundary, _, _) => BoundingBox(boundary, time0, time1, box)
    case Bvh(_, _, b) => BoxOutcome(true, b)
    case List(_) => BoxOutcome(false, box)
  }
}
