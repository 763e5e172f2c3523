/** The three axis-aligned rectangles.  Each lies in a plane `coordinate == k`
    and is bounded on the two other axes; a hit is the single point where the
    ray crosses that plane inside the rectangle. */
module Rects {
  import opened Wrappers
  import opened Numerics
  import opened Geometry
  import opened Aabb

  /** Half the thickness given to the bounding box of a flat rectangle. */
  const Thickness: real := 0.0001

  /** A plane crossing: the ray parameter and the two in-plane coordinates. */
  datatype Crossing = Crossing(t: real, a: real, b: real)

  /** The plane test shared by the rectangles.  `oK`/`dK` are the origin and
      direction components across the plane, `oA`/`dA` and `oB`/`dB` the two
      in-plane ones.  A ray parallel to the plane crosses it nowhere. */
  function PlaneCrossing(k: real, oK: real, dK: real, oA: real, dA: real, oB: real, dB: real,
                         a0: real, a1: real, b0: real, b1: real,
                         tMin: ExtReal, tMax: ExtReal): (r: Option<Crossing>)
    ensures r.Some? ==> dK != 0.0 && oK + r.value.t * dK == k
    ensures r.Some? ==> InRange(r.value.t, tMin, tMax)
    ensures r.Some? ==> r.value.a == oA + r.value.t * dA && r.value.b == oB + r.value.t * dB
    ensures r.Some? ==> a0 <= r.value.a <= a1 && b0 <= r.value.b <= b1
  {
    if dK == 0.0 then None
    else
      var t := Ratio(k - oK, dK);
      if Lt(Real(t), tMin) || Lt(tMax, Real(t)) then None
      else
        var a := oA + t * dA;
        var b := oB + t * dB;
        if a < a0 || a > a1 || b < b0 || b > b1 then None
        else Some(Crossing(t, a, b))
  }

  /** Conversely, any in-range parameter where a non-parallel ray meets the
      plane inside the rectangle is the crossing found. */
  lemma PlaneCrossingComplete(k: real, oK: real, dK: real, oA: real, dA: real, oB: real, dB: real,
                              a0: real, a1: real, b0: real, b1: real,
                              tMin: ExtReal, tMax: ExtReal, t: real)
    requires dK != 0.0 && oK + t * dK == k
    requires InRange(t, tMin, tMax)
    requires a0 <= oA + t * dA <= a1 && b0 <= oB + t * dB <= b1
    ensures PlaneCrossing(k, oK, dK, oA, dA, oB, dB, a0, a1, b0, b1, tMin, tMax)
            == Some(Crossing(t, oA + t * dA, oB + t * dB))
  {
    var q := Ratio(k - oK, dK);
    CancelFactor(q, t, dK);
  }

  lemma CancelFactor(q: real, t: real, d: real)
    requires d != 0.0 && q * d == t * d
    ensures q == t
  {
    assert (q - t) * d == 0.0;
  }

  /** A texture coordinate: where x sits between lo and hi, in [0, 1] when x
      lies in a non-degenerate range. */
  function TexCoord(x: real, lo: real, hi: real): (u: real)
    ensures lo < hi ==> lo + u * (hi - lo) == x
    ensures lo < hi && lo <= x <= hi ==> 0.0 <= u <= 1.0
  {
    if lo < hi && lo <= x <= hi then
      RatioInUnitInterval(x, lo, hi);
      Ratio(x - lo, hi - lo)
    else
      Ratio(x - lo, hi - lo)
  }

  /** XYRect.Hit: the rectangle [x0,x1] x [y0,y1] in the plane z = k. */
  function XYRectHit(x0: real, x1: real, y0: real, y1: real, k: real, material: Material,
                     ray: Ray, tMin: ExtReal, tMax: ExtReal): (r: Option<HitResult>)
    ensures ray.direction.z == 0.0 ==> r.None?
    ensures r.Some? ==> InRange(r.value.t, tMin, tMax) && r.value.p == At(ray, r.value.t)
    ensures r.Some? ==> x0 <= r.value.p.x <= x1 && y0 <= r.value.p.y <= y1 && r.value.p.z == k
    ensures r.Some? && x0 < x1 ==> 0.0 <= r.value.u <= 1.0
    ensures r.Some? && y0 < y1 ==> 0.0 <= r.value.v <= 1.0
    ensures r.Some? ==> r.value.material == material
    ensures r.Some? ==> (r.value.frontFace <==> ray.direction.z < 0.0)
    ensures r.Some? ==> r.value.normal in {Vec3(0.0, 0.0, 1.0), Vec3(0.0, 0.0, -1.0)}
    ensures r.Some? ==> Dot(ray.direction, r.value.normal) <= 0.0
  {
    var o, d := ray.origin, ray.direction;
    match PlaneCrossing(k, o.z, d.z, o.x, d.x, o.y, d.y, x0, x1, y0, y1, tMin, tMax)
    case None => None
    case Some(c) =>
      AtComponents(ray, c.t);
      var f := FaceNormal(d, Vec3(0.0, 0.0, 1.0));
      Some(HitResult(c.t, At(ray, c.t), f.normal, f.frontFace, material,
                     TexCoord(c.a, x0, x1), TexCoord(c.b, y0, y1)))
  }

  /** XZRect.Hit: the rectangle [x0,x1] x [z0,z1] in the plane y = k. */
  function XZRectHit(x0: real, x1: real, z0: real, z1: real, k: real, material: Material,
                     ray: Ray, tMin: ExtReal, tMax: ExtReal): (r: Option<HitResult>)
    ensures ray.direction.y == 0.0 ==> r.None?
    ensures r.Some? ==> InRange(r.value.t, tMin, tMax) && r.value.p == At(ray, r.value.t)
    ensures r.Some? ==> x0 <= r.value.p.x <= x1 && z0 <= r.value.p.z <= z1 && r.value.p.y == k
    ensures r.Some? && x0 < x1 ==> 0.0 <= r.value.u <= 1.0
    ensures r.Some? && z0 < z1 ==> 0.0 <= r.value.v <= 1.0
    ensures r.Some? ==> r.value.material == material
    ensures r.Some? ==> (r.value.frontFace <==> ray.direction.y < 0.0)
    ensures r.Some? ==> r.value.normal in {Vec3(0.0, 1.0, 0.0), Vec3(0.0, -1.0, 0.0)}
    ensures r.Some? ==> Dot(ray.direction, r.value.normal) <= 0.0
  {
    var o, d := ray.origin, ray.direction;
    match PlaneCrossing(k, o.y, d.y, o.x, d.x, o.z, d.z, x0, x1, z0, z1, tMin, tMax)
    case None => None
    case Some(c) =>
      AtComponents(ray, c.t);
      var f := FaceNormal(d, Vec3(0.0, 1.0, 0.0));
      Some(HitResult(c.t, At(ray, c.t), f.normal, f.frontFace, material,
                     TexCoord(c.a, x0, x1), TexCoord(c.b, z0, z1)))
  }

  /** YZRect.Hit: the rectangle [y0,y1] x [z0,z1] in the plane x = k.  The
      source's guard against a non-finite parameter is the `d.x == 0` case. */
  function YZRectHit(y0: real, y1: real, z0: real, z1: real, k: real, material: Material,
                     ray: Ray, tMin: ExtReal, tMax: ExtReal): (r: Option<HitResult>)
    ensures ray.direction.x == 0.0 ==> r.None?
    ensures r.Some? ==> InRange(r.value.t, tMin, tMax) && r.value.p == At(ray, r.value.t)
    ensures r.Some? ==> y0 <= r.value.p.y <= y1 && z0 <= r.value.p.z <= z1 && r.value.p.x == k
    ensures r.Some? && y0 < y1 ==> 0.0 <= r.value.u <= 1.0
    ensures r.Some? && z0 < z1 ==> 0.0 <= r.value.v <= 1.0
    ensures r.Some? ==> r.value.material == material
    ensures r.Some? ==> (r.value.frontFace <==> ray.direction.x < 0.0)
    ensures r.Some? ==> r.value.normal in {Vec3(1.0, 0.0, 0.0), Vec3(-1.0, 0.0, 0.0)}
    ensures r.Some? ==> Dot(ray.direction, r.value.normal) <= 0.0
  {
    var o, d := ray.origin, ray.direction;
    match PlaneCrossing(k, o.x, d.x, o.y, d.y, o.z, d.z, y0, y1, z0, z1, tMin, tMax)
    case None => None
    case Some(c) =>
      AtComponents(ray, c.t);
      var f := FaceNormal(d, Vec3(1.0, 0.0, 0.0));
      Some(HitResult(c.t, At(ray, c.t), f.normal, f.frontFace, material,
                     TexCoord(c.a, y0, y1), TexCoord(c.b, z0, z1)))
  }

  /** Any in-range parameter where a ray not parallel to the plane z = k
      meets the XY rectangle is the hit reported. */
  lemma XYRectHitComplete(x0: real, x1: real, y0: real, y1: real, k: real, material: Material,
                          ray: Ray, tMin: ExtReal, tMax: ExtReal, t: real)
    requires ray.direction.z != 0.0 && InRange(t, tMin, tMax)
    requires var q := At(ray, t); q.z == k && x0 <= q.x <= x1 && y0 <= q.y <= y1
    ensures var r := XYRectHit(x0, x1, y0, y1, k, material, ray, tMin, tMax);
            r.Some? && r.value.t == t
  {
    AtComponents(ray, t);
    var o, d := ray.origin, ray.direction;
    PlaneCrossingComplete(k, o.z, d.z, o.x, d.x, o.y, d.y, x0, x1, y0, y1, tMin, tMax, t);
  }

  lemma XZRectHitComplete(x0: real, x1: real, z0: real, z1: real, k: real, material: Material,
                          ray: Ray, tMin: ExtReal, tMax: ExtReal, t: real)
    requires ray.direction.y != 0.0 && InRange(t, tMin, tMax)
    requires var q := At(ray, t); q.y == k && x0 <= q.x <= x1 && z0 <= q.z <= z1
    ensures var r := XZRectHit(x0, x1, z0, z1, k, material, ray, tMin, tMax);
            r.Some? && r.value.t == t
  {
    AtComponents(ray, t);
    var o, d := ray.origin, ray.direction;
    PlaneCrossingComplete(k, o.y, d.y, o.x, d.x, o.z, d.z, x0, x1, z0, z1, tMin, tMax, t);
  }

  lemma YZRectHitComplete(y0: real, y1: real, z0: real, z1: real, k: real, material: Material,
                          ray: Ray, tMin: ExtReal, tMax: ExtReal, t: real)
    requires ray.direction.x != 0.0 && InRange(t, tMin, tMax)
    requires var q := At(ray, t); q.x == k && y0 <= q.y <= y1 && z0 <= q.z <= z1
    ensures var r := YZRectHit(y0, y1, z0, z1, k, material, ray, tMin, tMax);
            r.Some? && r.value.t == t
  {
    AtComponents(ray, t);
    var o, d := ray.origin, ray.direction;
    PlaneCrossingComplete(k, o.x, d.x, o.y, d.y, o.z, d.z, y0, y1, z0, z1, tMin, tMax, t);
  }

  /** The bounding boxes: the rectangle thickened by `Thickness` across its plane. */
  function XYRectBox(x0: real, x1: real, y0: real, y1: real, k: real): AABB
  {
    AABB(Vec3(x0, y0, k - Thickness), Vec3(x1, y1, k + Thickness))
  }

  function XZRectBox(x0: real, x1: real, z0: real, z1: real, k: real): AABB
  {
    AABB(Vec3(x0, k - Thickness, z0), Vec3(x1, k + Thickness, z1))
  }

  function YZRectBox(y0: real, y1: real, z0: real, z1: real, k: real): AABB
  {
    AABB(Vec3(k - Thickness, y0, z0), Vec3(k + Thickness, y1, z1))
  }

  /** Every hit point of a rectangle lies strictly inside its bounding box
      across the plane and within it on the other two axes. */
  lemma RectHitsInsideBoxes(x0: real, x1: real, y0: real, y1: real, z0: real, z1: real,
                            k: real, material: Material, ray: Ray, tMin: ExtReal, tMax: ExtReal)
    ensures var r := XYRectHit(x0, x1, y0, y1, k, material, ray, tMin, tMax);
            r.Some? ==> ContainsPoint(XYRectBox(x0, x1, y0, y1, k), r.value.p)
    ensures var r := XZRectHit(x0, x1, z0, z1, k, material, ray, tMin, tMax);
            r.Some? ==> ContainsPoint(XZRectBox(x0, x1, z0, z1, k), r.value.p)
    ensures var r := YZRectHit(y0, y1, z0, z1, k, material, ray, tMin, tMax);
            r.Some? ==> ContainsPoint(YZRectBox(y0, y1, z0, z1, k), r.value.p)
  {
  }
}
