/** The instance wrappers: Translate, RotateY (whose constructor computes
    the rotated bounding box with three nested loops) and
    ConstantDensityMedium. */
module Transforms {
  import opened Wrappers
  import opened Numerics
  import opened Geometry
  import opened Aabb
  import opened Rotation
  import opened Media
  import Spheres
  import Hittables
  import opened HitLaws

  // ---------------------------------------------------------------------
  // Translate

  /** A translated object is hit exactly where its child is hit by the ray
      moved by -offset; only the point of a hit moves. */
  lemma TranslateHitFacts(obj: Hittables.Hittable, offset: Vec3, ray: Ray, tMin: ExtReal, tMax: ExtReal,
                          result: HitResult, p: Platform)
    ensures var moved := Ray(Minus(ray.origin, offset), ray.direction, ray.time);
            var c := Hittables.Hit(obj, moved, tMin, tMax, result, p);
            var o := Hittables.Hit(Hittables.Translate(obj, offset), ray, tMin, tMax, result, p);
            && (o.hit <==> c.hit)
            && (o.hit ==> o.result.p == Plus(c.result.p, offset))
            && (o.hit ==> o.result.(p := c.result.p) == c.result)
            && (!o.hit ==> o.result == result)
  {
    var moved := Ray(Minus(ray.origin, offset), ray.direction, ray.time);
    MissKeepsResult(obj, moved, tMin, tMax, result, p);
  }

  /** Two translations in a row are one translation by the sum. */
  lemma TranslateComposes(h: Hittables.Hittable, a: Vec3, b: Vec3, ray: Ray, tMin: ExtReal, tMax: ExtReal,
                          result: HitResult, p: Platform)
    ensures Hittables.Hit(Hittables.Translate(Hittables.Translate(h, a), b), ray, tMin, tMax, result, p)
            == Hittables.Hit(Hittables.Translate(h, Plus(a, b)), ray, tMin, tMax, result, p)
  {
    var once := Ray(Minus(ray.origin, b), ray.direction, ray.time);
    var twice := Ray(Minus(once.origin, a), ray.direction, ray.time);
    assert twice == Ray(Minus(ray.origin, Plus(a, b)), ray.direction, ray.time);
    var c := Hittables.Hit(h, twice, tMin, tMax, result, p);
    var inner := Hittables.Hit(Hittables.Translate(h, a), once, tMin, tMax, result, p);
    assert inner == Hittables.TranslateHit(h, a, once, tMin, tMax, result, p);
    assert Plus(Plus(c.result.p, a), b) == Plus(c.result.p, Plus(a, b));
  }

  /** Translating by the zero vector changes nothing. */
  lemma TranslateByZero(h: Hittables.Hittable, ray: Ray, tMin: ExtReal, tMax: ExtReal,
                        result: HitResult, p: Platform)
    ensures Hittables.Hit(Hittables.Translate(h, Zero), ray, tMin, tMax, result, p)
            == Hittables.Hit(h, ray, tMin, tMax, result, p)
  {
    assert Minus(ray.origin, Zero) == ray.origin;
    var c := Hittables.Hit(h, ray, tMin, tMax, result, p);
    assert Plus(c.result.p, Zero) == c.result.p;
    MissKeepsResult(h, ray, tMin, tMax, result, p);
  }

  /** The translated box exists iff the child's does; it has the child's
      extent and holds every child-box point moved by the offset.  A failed
      child query leaves the box as the child left it. */
  lemma TranslateBox(h: Hittables.Hittable, offset: Vec3, time0: real, time1: real, box: AABB, q: Vec3)
    ensures var c := Hittables.BoundingBox(h, time0, time1, box);
            var o := Hittables.BoundingBox(Hittables.Translate(h, offset), time0, time1, box);
            && (o.ok <==> c.ok)
            && (!o.ok ==> o.box == c.box)
            && (o.ok ==> Minus(o.box.maximum, o.box.minimum) == Minus(c.box.maximum, c.box.minimum))
            && (o.ok && ContainsPoint(c.box, q) ==> ContainsPoint(o.box, Plus(q, offset)))
  {
  }

  /** Bounding boxes of nested translations compose like the hits do. */
  lemma TranslateBoxComposes(h: Hittables.Hittable, a: Vec3, b: Vec3, time0: real, time1: real, box: AABB)
    ensures Hittables.BoundingBox(Hittables.Translate(Hittables.Translate(h, a), b), time0, time1, box)
            == Hittables.BoundingBox(Hittables.Translate(h, Plus(a, b)), time0, time1, box)
  {
    var c := Hittables.BoundingBox(h, time0, time1, box);
    assert Plus(Plus(c.box.minimum, a), b) == Plus(c.box.minimum, Plus(a, b));
    assert Plus(Plus(c.box.maximum, a), b) == Plus(c.box.maximum, Plus(a, b));
  }

  // ---------------------------------------------------------------------
  // RotateY

  /** The RotateY constructor.  The sine and cosine of the angle are given:
      the conversion from degrees and the trigonometry are floating point.
      The child's box is requested over [0, 1]; the accumulators start at
      +inf and -inf and visit the corners in (i, j, k) order. */
  method NewRotateY(obj: Hittables.Hittable, sin: real, cos: real) returns (h: Hittables.Hittable)
    ensures h == Hittables.RotateY(obj, sin, cos, Hittables.BoundingBox(obj, 0.0, 1.0, EmptyBox).ok,
                                   RotatedBox(Hittables.BoundingBox(obj, 0.0, 1.0, EmptyBox).box, sin, cos))
  {
    var child := Hittables.BoundingBox(obj, 0.0, 1.0, EmptyBox);
    var hasBox := child.ok;
    var bbox := RotateBoxCorners(child.box, sin, cos);
    h := Hittables.RotateY(obj, sin, cos, hasBox, bbox);
  }

  /** The three nested loops of the constructor over the corners of the
      child's box. */
  method RotateBoxCorners(bbox: AABB, sin: real, cos: real) returns (r: AABB)
    ensures r == RotatedBox(bbox, sin, cos)
  {
    ghost var cs := Corners(bbox, sin, cos);
    var minX, minY, minZ := PosInf, PosInf, PosInf;
    var maxX, maxY, maxZ := NegInf, NegInf, NegInf;
    var i := 0;
    while i < 2
      invariant 0 <= i <= 2
      invariant Visited(cs, 4 * i, minX, minY, minZ, maxX, maxY, maxZ)
    {
      var j := 0;
      while j < 2
        invariant 0 <= j <= 2
        invariant Visited(cs, 4 * i + 2 * j, minX, minY, minZ, maxX, maxY, maxZ)
      {
        var k := 0;
        while k < 2
          invariant 0 <= k <= 2
          invariant Visited(cs, 4 * i + 2 * j + k, minX, minY, minZ, maxX, maxY, maxZ)
        {
          var corner := RotateCorner(bbox, sin, cos, i, j, k);
          var newX, y, newZ := corner.x, corner.y, corner.z;
          VisitStep(cs, 4 * i + 2 * j + k, corner, minX, minY, minZ, maxX, maxY, maxZ);
          minX := Lower(minX, newX);
          minY := Lower(minY, y);
          minZ := Lower(minZ, newZ);
          maxX := Upper(maxX, newX);
          maxY := Upper(maxY, y);
          maxZ := Upper(maxZ, newZ);
          k := k + 1;
        }
        j := j + 1;
      }
      i := i + 1;
    }
    VisitedAll(bbox, sin, cos, minX, minY, minZ, maxX, maxY, maxZ);
    r := AABB(Vec3(Finite(minX), Finite(minY), Finite(minZ)), Vec3(Finite(maxX), Finite(maxY), Finite(maxZ)));
  }

  /** The body of the innermost loop: corner (i, j, k) of the child's box,
      selected as `i * max + (1 - i) * min` per axis and rotated. */
  method RotateCorner(bbox: AABB, sin: real, cos: real, i: int, j: int, k: int) returns (c: Vec3)
    requires 0 <= i < 2 && 0 <= j < 2 && 0 <= k < 2
    ensures c == Corners(bbox, sin, cos)[4 * i + 2 * j + k]
  {
    var x := (i as real) * bbox.maximum.x + ((1 - i) as real) * bbox.minimum.x;
    var y := (j as real) * bbox.maximum.y + ((1 - j) as real) * bbox.minimum.y;
    var z := (k as real) * bbox.maximum.z + ((1 - k) as real) * bbox.minimum.z;
    var newX := cos * x + sin * z;
    var newZ := -sin * x + cos * z;
    PickAsWritten(i, bbox.maximum.x, bbox.minimum.x);
    PickAsWritten(j, bbox.maximum.y, bbox.minimum.y);
    PickAsWritten(k, bbox.maximum.z, bbox.minimum.z);
    CornerVisited(bbox, sin, cos, i, j, k, x, y, z);
    c := Vec3(newX, y, newZ);
  }

  /** The six accumulators after the first n corners. */
  ghost predicate Visited(cs: seq<Vec3>, n: int, minX: ExtReal, minY: ExtReal, minZ: ExtReal,
                          maxX: ExtReal, maxY: ExtReal, maxZ: ExtReal)
  {
    && 0 <= n <= |cs|
    && minX == Lowest(cs[..n], X) && minY == Lowest(cs[..n], Y) && minZ == Lowest(cs[..n], Z)
    && maxX == Highest(cs[..n], X) && maxY == Highest(cs[..n], Y) && maxZ == Highest(cs[..n], Z)
  }

  /** The point the loop body computes is corner 4i + 2j + k. */
  lemma CornerVisited(b: AABB, sin: real, cos: real, i: int, j: int, k: int, x: real, y: real, z: real)
    requires 0 <= i < 2 && 0 <= j < 2 && 0 <= k < 2
    requires x == Pick(i, b.maximum.x, b.minimum.x)
    requires y == Pick(j, b.maximum.y, b.minimum.y)
    requires z == Pick(k, b.maximum.z, b.minimum.z)
    ensures Corners(b, sin, cos)[4 * i + 2 * j + k] == Vec3(cos * x + sin * z, y, -sin * x + cos * z)
  {
    CornerAt(b, sin, cos, i, j, k);
  }

  /** Folding in one more corner extends each accumulator by that corner. */
  lemma VisitStep(cs: seq<Vec3>, n: int, c: Vec3, minX: ExtReal, minY: ExtReal, minZ: ExtReal,
                  maxX: ExtReal, maxY: ExtReal, maxZ: ExtReal)
    requires 0 <= n < |cs| && cs[n] == c
    requires Visited(cs, n, minX, minY, minZ, maxX, maxY, maxZ)
    ensures Visited(cs, n + 1, Lower(minX, c.x), Lower(minY, c.y), Lower(minZ, c.z),
                    Upper(maxX, c.x), Upper(maxY, c.y), Upper(maxZ, c.z))
  {
    assert cs[..n + 1][..n] == cs[..n];
  }

  /** After all eight corners the accumulators hold the box RotatedBox describes. */
  lemma VisitedAll(b: AABB, sin: real, cos: real, minX: ExtReal, minY: ExtReal, minZ: ExtReal,
                   maxX: ExtReal, maxY: ExtReal, maxZ: ExtReal)
    requires Visited(Corners(b, sin, cos), 8, minX, minY, minZ, maxX, maxY, maxZ)
    ensures AABB(Vec3(Finite(minX), Finite(minY), Finite(minZ)), Vec3(Finite(maxX), Finite(maxY), Finite(maxZ)))
            == RotatedBox(b, sin, cos)
  {
    var cs := Corners(b, sin, cos);
    assert cs[..8] == cs;
  }

  /** A rotation by the zero angle is hit where its child is, with the same
      parameter, point, material and texture coordinates. */
  lemma RotateByZeroAngle(h: Hittables.Hittable, hasBox: bool, bbox: AABB, ray: Ray, tMin: ExtReal, tMax: ExtReal,
                          result: HitResult, p: Platform)
    ensures var o := Hittables.Hit(Hittables.RotateY(h, 0.0, 1.0, hasBox, bbox), ray, tMin, tMax, result, p);
            var c := Hittables.Hit(h, ray, tMin, tMax, result, p);
            && (o.hit <==> c.hit)
            && (o.hit ==> o.result.t == c.result.t && o.result.p == c.result.p
                          && o.result.material == c.result.material
                          && o.result.u == c.result.u && o.result.v == c.result.v)
            && (!o.hit ==> o.result == result)
  {
    assert ObjectRay(0.0, 1.0, ray) == ray;
    var c := Hittables.Hit(h, ray, tMin, tMax, result, p);
    assert ToWorld(0.0, 1.0, c.result.p) == c.result.p;
    MissKeepsResult(h, ray, tMin, tMax, result, p);
  }

  /** Two rotations in a row are one rotation by the summed angle, by the
      angle-addition identities. */
  lemma RotationsCompose(s1: real, c1: real, s2: real, c2: real, v: Vec3)
    ensures ToWorld(s2, c2, ToWorld(s1, c1, v)) == ToWorld(s1 * c2 + c1 * s2, c1 * c2 - s1 * s2, v)
    ensures ToObject(s1, c1, ToObject(s2, c2, v)) == ToObject(s1 * c2 + c1 * s2, c1 * c2 - s1 * s2, v)
  {
    WorldCompose(s1, c1, s2, c2, v);
    ObjectCompose(s1, c1, s2, c2, v);
  }

  lemma WorldCompose(s1: real, c1: real, s2: real, c2: real, v: Vec3)
    ensures ToWorld(s2, c2, ToWorld(s1, c1, v)) == ToWorld(s1 * c2 + c1 * s2, c1 * c2 - s1 * s2, v)
  {
    var w := ToWorld(s1, c1, v);
    MulCongruence(c2, w.x, c1 * v.x + s1 * v.z);
    MulCongruence(s2, w.z, -s1 * v.x + c1 * v.z);
    MulCongruence(-s2, w.x, c1 * v.x + s1 * v.z);
    MulCongruence(c2, w.z, -s1 * v.x + c1 * v.z);
    AddAngleWorld(s1, c1, s2, c2, v.x, v.z);
    var l, r := ToWorld(s2, c2, w), ToWorld(s1 * c2 + c1 * s2, c1 * c2 - s1 * s2, v);
    assert l.x == r.x;
    assert l.z == r.z;
  }

  lemma ObjectCompose(s1: real, c1: real, s2: real, c2: real, v: Vec3)
    ensures ToObject(s1, c1, ToObject(s2, c2, v)) == ToObject(s1 * c2 + c1 * s2, c1 * c2 - s1 * s2, v)
  {
    var o := ToObject(s2, c2, v);
    MulCongruence(c1, o.x, c2 * v.x - s2 * v.z);
    MulCongruence(s1, o.z, s2 * v.x + c2 * v.z);
    MulCongruence(s1, o.x, c2 * v.x - s2 * v.z);
    MulCongruence(c1, o.z, s2 * v.x + c2 * v.z);
    AddAngleObject(s1, c1, s2, c2, v.x, v.z);
    var l, r := ToObject(s1, c1, o), ToObject(s1 * c2 + c1 * s2, c1 * c2 - s1 * s2, v);
    assert l.x == r.x;
    assert l.z == r.z;
  }

  /** The angle-addition identities, coordinate by coordinate. */
  lemma AddAngleWorld(s1: real, c1: real, s2: real, c2: real, x: real, z: real)
    ensures c2 * (c1 * x + s1 * z) + s2 * (-s1 * x + c1 * z) == (c1 * c2 - s1 * s2) * x + (s1 * c2 + c1 * s2) * z
    ensures -s2 * (c1 * x + s1 * z) + c2 * (-s1 * x + c1 * z) == -(s1 * c2 + c1 * s2) * x + (c1 * c2 - s1 * s2) * z
  {
  }

  lemma AddAngleObject(s1: real, c1: real, s2: real, c2: real, x: real, z: real)
    ensures c1 * (c2 * x - s2 * z) - s1 * (s2 * x + c2 * z) == (c1 * c2 - s1 * s2) * x - (s1 * c2 + c1 * s2) * z
    ensures s1 * (c2 * x - s2 * z) + c1 * (s2 * x + c2 * z) == (s1 * c2 + c1 * s2) * x + (c1 * c2 - s1 * s2) * z
  {
  }

  /** The box the constructor computes holds every point of the child's box
      rotated to world space, since the extremes of a linear map over a box
      are reached at corners. */
  lemma RotatedBoxBoundsChild(b: AABB, sin: real, cos: real, q: Vec3)
    requires ContainsPoint(b, q)
    ensures ContainsPoint(RotatedBox(b, sin, cos), ToWorld(sin, cos, q))
  {
    var cs := Corners(b, sin, cos);
    var w := ToWorld(sin, cos, q);
    FoldsFinite(b, sin, cos);
    // x = cos * x' + sin * z' and z = -sin * x' + cos * z'
    var xLo, zLo := if cos >= 0.0 then 0 else 1, if sin >= 0.0 then 0 else 1;
    FoldBelow(b, sin, cos, q, X, xLo, zLo);
    FoldAbove(b, sin, cos, q, X, 1 - xLo, 1 - zLo);
    var xLo', zLo' := if sin <= 0.0 then 0 else 1, if cos >= 0.0 then 0 else 1;
    FoldBelow(b, sin, cos, q, Z, xLo', zLo');
    FoldAbove(b, sin, cos, q, Z, 1 - xLo', 1 - zLo');
    // y is not rotated
    RotatedBoxKeepsY(b, sin, cos);
    assert Coord(w, X) == w.x && Coord(w, Z) == w.z;
  }

  /** Over the eight corners every fold ends on a real value. */
  lemma FoldsFinite(b: AABB, sin: real, cos: real)
    ensures var cs := Corners(b, sin, cos);
            && Lowest(cs, X).Real? && Lowest(cs, Y).Real? && Lowest(cs, Z).Real?
            && Highest(cs, X).Real? && Highest(cs, Y).Real? && Highest(cs, Z).Real?
  {
    var cs := Corners(b, sin, cos);
    LowestBounds(cs, X); LowestBounds(cs, Y); LowestBounds(cs, Z);
    HighestBounds(cs, X); HighestBounds(cs, Y); HighestBounds(cs, Z);
  }

  /** The coefficients of x' and z' in the rotated coordinate on `axis`. */
  function CoeffX(sin: real, cos: real, axis: Axis): real
  {
    if axis == X then cos else -sin
  }

  function CoeffZ(sin: real, cos: real, axis: Axis): real
  {
    if axis == X then sin else cos
  }

  /** Along a rotated axis, corner (i, 0, k) has coordinate
      a * x + c * z for the picked x and z. */
  lemma CornerCoord(b: AABB, sin: real, cos: real, axis: Axis, i: int, k: int)
    requires axis != Y && 0 <= i < 2 && 0 <= k < 2
    ensures Coord(Corners(b, sin, cos)[4 * i + k], axis)
            == CoeffX(sin, cos, axis) * Pick(i, b.maximum.x, b.minimum.x)
               + CoeffZ(sin, cos, axis) * Pick(k, b.maximum.z, b.minimum.z)
  {
    CornerAt(b, sin, cos, i, 0, k);
    RotatedCoord(sin, cos, Vec3(Pick(i, b.maximum.x, b.minimum.x), Pick(0, b.maximum.y, b.minimum.y),
                                Pick(k, b.maximum.z, b.minimum.z)), axis);
  }

  /** Along a rotated axis the fold's minimum lies below every rotated
      point of the child's box, ... */
  lemma FoldBelow(b: AABB, sin: real, cos: real, q: Vec3, axis: Axis, i: int, k: int)
    requires ContainsPoint(b, q) && axis != Y
    requires var a := CoeffX(sin, cos, axis); (i == 0 && a >= 0.0) || (i == 1 && a <= 0.0)
    requires var c := CoeffZ(sin, cos, axis); (k == 0 && c >= 0.0) || (k == 1 && c <= 0.0)
    ensures Le(Lowest(Corners(b, sin, cos), axis), Real(Coord(ToWorld(sin, cos, q), axis)))
  {
    CornerCoord(b, sin, cos, axis, i, k);
    CornerBelow(Corners(b, sin, cos), b, sin, cos, q, axis, i, k);
  }

  /** ... and the fold's maximum above. */
  lemma FoldAbove(b: AABB, sin: real, cos: real, q: Vec3, axis: Axis, i: int, k: int)
    requires ContainsPoint(b, q) && axis != Y
    requires var a := CoeffX(sin, cos, axis); (i == 0 && a <= 0.0) || (i == 1 && a >= 0.0)
    requires var c := CoeffZ(sin, cos, axis); (k == 0 && c <= 0.0) || (k == 1 && c >= 0.0)
    ensures Le(Real(Coord(ToWorld(sin, cos, q), axis)), Highest(Corners(b, sin, cos), axis))
  {
    CornerCoord(b, sin, cos, axis, i, k);
    CornerAbove(Corners(b, sin, cos), b, sin, cos, q, axis, i, k);
  }

  /** Corner (i, 0, k) lies below the rotated point along `axis` when i and k
      pick the lower ends for the coefficients' signs, so the fold's minimum
      does too. */
  lemma CornerBelow(cs: seq<Vec3>, b: AABB, sin: real, cos: real, q: Vec3, axis: Axis, i: int, k: int)
    requires ContainsPoint(b, q) && axis != Y && 0 <= 4 * i + k < |cs|
    requires var a := CoeffX(sin, cos, axis); (i == 0 && a >= 0.0) || (i == 1 && a <= 0.0)
    requires var c := CoeffZ(sin, cos, axis); (k == 0 && c >= 0.0) || (k == 1 && c <= 0.0)
    requires Coord(cs[4 * i + k], axis)
             == CoeffX(sin, cos, axis) * Pick(i, b.maximum.x, b.minimum.x)
                + CoeffZ(sin, cos, axis) * Pick(k, b.maximum.z, b.minimum.z)
    ensures Le(Lowest(cs, axis), Real(Coord(ToWorld(sin, cos, q), axis)))
  {
    LinearBelow(CoeffX(sin, cos, axis), CoeffZ(sin, cos, axis), b.minimum.x, b.maximum.x,
                b.minimum.z, b.maximum.z, q.x, q.z, i, k);
    RotatedCoord(sin, cos, q, axis);
    LowestBelow(cs, axis, 4 * i + k, Coord(ToWorld(sin, cos, q), axis));
  }

  lemma CornerAbove(cs: seq<Vec3>, b: AABB, sin: real, cos: real, q: Vec3, axis: Axis, i: int, k: int)
    requires ContainsPoint(b, q) && axis != Y && 0 <= 4 * i + k < |cs|
    requires var a := CoeffX(sin, cos, axis); (i == 0 && a <= 0.0) || (i == 1 && a >= 0.0)
    requires var c := CoeffZ(sin, cos, axis); (k == 0 && c <= 0.0) || (k == 1 && c >= 0.0)
    requires Coord(cs[4 * i + k], axis)
             == CoeffX(sin, cos, axis) * Pick(i, b.maximum.x, b.minimum.x)
                + CoeffZ(sin, cos, axis) * Pick(k, b.maximum.z, b.minimum.z)
    ensures Le(Real(Coord(ToWorld(sin, cos, q), axis)), Highest(cs, axis))
  {
    LinearAbove(CoeffX(sin, cos, axis), CoeffZ(sin, cos, axis), b.minimum.x, b.maximum.x,
                b.minimum.z, b.maximum.z, q.x, q.z, i, k);
    RotatedCoord(sin, cos, q, axis);
    HighestAbove(cs, axis, 4 * i + k, Coord(ToWorld(sin, cos, q), axis));
  }

  /** A value above some point is above the fold's minimum. */
  lemma LowestBelow(cs: seq<Vec3>, axis: Axis, n: int, v: real)
    requires 0 <= n < |cs| && Coord(cs[n], axis) <= v
    ensures Le(Lowest(cs, axis), Real(v))
  {
    LowestBounds(cs, axis);
    LeTransitive(Lowest(cs, axis), Real(Coord(cs[n], axis)), Real(v));
  }

  lemma HighestAbove(cs: seq<Vec3>, axis: Axis, n: int, v: real)
    requires 0 <= n < |cs| && v <= Coord(cs[n], axis)
    ensures Le(Real(v), Highest(cs, axis))
  {
    HighestBounds(cs, axis);
    LeTransitive(Real(v), Real(Coord(cs[n], axis)), Highest(cs, axis));
  }

  lemma RotatedCoord(sin: real, cos: real, q: Vec3, axis: Axis)
    requires axis != Y
    ensures Coord(ToWorld(sin, cos, q), axis) == CoeffX(sin, cos, axis) * q.x + CoeffZ(sin, cos, axis) * q.z
  {
  }

  /** a * x + c * z over a box is smallest at the corner chosen by the signs
      of a and c ... */
  lemma LinearBelow(a: real, c: real, x0: real, x1: real, z0: real, z1: real, x: real, z: real, i: int, k: int)
    requires x0 <= x <= x1 && z0 <= z <= z1
    requires (i == 0 && a >= 0.0) || (i == 1 && a <= 0.0)
    requires (k == 0 && c >= 0.0) || (k == 1 && c <= 0.0)
    ensures a * Pick(i, x1, x0) + c * Pick(k, z1, z0) <= a * x + c * z
  {
    ScaledPickBelow(a, x0, x1, x, i);
    ScaledPickBelow(c, z0, z1, z, k);
  }

  /** ... and largest at the opposite corner. */
  lemma LinearAbove(a: real, c: real, x0: real, x1: real, z0: real, z1: real, x: real, z: real, i: int, k: int)
    requires x0 <= x <= x1 && z0 <= z <= z1
    requires (i == 0 && a <= 0.0) || (i == 1 && a >= 0.0)
    requires (k == 0 && c <= 0.0) || (k == 1 && c >= 0.0)
    ensures a * x + c * z <= a * Pick(i, x1, x0) + c * Pick(k, z1, z0)
  {
    ScaledPickAbove(a, x0, x1, x, i);
    ScaledPickAbove(c, z0, z1, z, k);
  }

  /** One term of the sum: the end picked for the sign of a minimises a * x. */
  lemma ScaledPickBelow(a: real, lo: real, hi: real, x: real, i: int)
    requires lo <= x <= hi
    requires (i == 0 && a >= 0.0) || (i == 1 && a <= 0.0)
    ensures a * Pick(i, hi, lo) <= a * x
  {
    if i == 0 {
      assert a * x - a * lo == a * (x - lo);
    } else {
      assert a * hi - a * x == a * (hi - x);
    }
  }

  lemma ScaledPickAbove(a: real, lo: real, hi: real, x: real, i: int)
    requires lo <= x <= hi
    requires (i == 0 && a <= 0.0) || (i == 1 && a >= 0.0)
    ensures a * x <= a * Pick(i, hi, lo)
  {
    if i == 0 {
      assert a * x - a * lo == a * (x - lo);
    } else {
      assert a * hi - a * x == a * (hi - x);
    }
  }

  // ---------------------------------------------------------------------
  // ConstantDensityMedium

  /** The constructor taking a texture. */
  function NewMediumFromTexture(boundary: Hittables.Hittable, density: real, texture: Texture): (m: Hittables.Hittable)
    requires density != 0.0
    ensures m.Medium? && m.boundary == boundary && m.phaseFunction == Isotropic(texture)
    ensures m.negInvDensity * density == -1.0
  {
    Hittables.Medium(boundary, Isotropic(texture), NegativeInverseDensity(density))
  }

  /** The constructor taking a colour. */
  function NewMediumFromColor(boundary: Hittables.Hittable, density: real, color: Vec3): (m: Hittables.Hittable)
    requires density != 0.0
    ensures m.Medium? && m.boundary == boundary && m.phaseFunction == Isotropic(ColorTexture(color))
    ensures m.negInvDensity * density == -1.0
  {
    Hittables.Medium(boundary, Isotropic(ColorTexture(color)), NegativeInverseDensity(density))
  }

  /** A medium of positive density built by either constructor is well formed. */
  lemma NewMediumWellFormed(boundary: Hittables.Hittable, density: real, texture: Texture, color: Vec3)
    requires density > 0.0 && WellFormed(boundary)
    ensures WellFormed(NewMediumFromTexture(boundary, density, texture))
    ensures WellFormed(NewMediumFromColor(boundary, density, color))
  {
    assert NegativeInverseDensity(density) < 0.0;
  }

  /** What a medium hit reports: the boundary was entered and left, the
      point lies between entry and exit, in the query range and in front of
      the origin, with normal (1, 0, 0) on the front face, the phase
      function as material and the caller's texture coordinates. */
  lemma MediumHitFacts(boundary: Hittables.Hittable, phase: Material, negInvDensity: real, ray: Ray,
                       tMin: ExtReal, tMax: ExtReal, result: HitResult, p: Platform,
                       first: Hittables.Outcome, second: Hittables.Outcome)
    requires negInvDensity <= 0.0 && PlatformOk(p) && ray.direction != Zero
    requires first == Hittables.Hit(boundary, ray, NegInf, PosInf, EmptyResult, p)
    requires second == Hittables.Hit(boundary, ray, Real(first.result.t + ExitSearchOffset), PosInf, EmptyResult, p)
    ensures Hittables.MediumHit(boundary, phase, negInvDensity, ray, tMin, tMax, result, p).hit
            ==> first.hit && second.hit
    ensures ScatterFacts(Hittables.MediumHit(boundary, phase, negInvDensity, ray, tMin, tMax, result, p),
                         first.result.t, second.result.t, phase, ray, tMin, tMax, result)
    ensures Within(Hittables.MediumHit(boundary, phase, negInvDensity, ray, tMin, tMax, result, p), ray, tMin, tMax)
  {
    MediumWithin(boundary, phase, negInvDensity, ray, tMin, tMax, result, p);
    Hittables.MediumHitIsAnswer(boundary, phase, negInvDensity, ray, tMin, tMax, result, p, first, second);
    MediumAnswerFacts(first, second, phase, negInvDensity, ray, tMin, tMax, result, p);
  }

  lemma MediumAnswerFacts(first: Hittables.Outcome, second: Hittables.Outcome, phase: Material,
                          negInvDensity: real, ray: Ray, tMin: ExtReal, tMax: ExtReal, result: HitResult,
                          p: Platform)
    requires negInvDensity <= 0.0 && PlatformOk(p) && ray.direction != Zero
    ensures var o := Hittables.MediumAnswer(first, second, phase, negInvDensity, ray, tMin, tMax, result, p);
            o.hit ==>
              && first.hit && second.hit
              && ScatterFacts(o, first.result.t, second.result.t, phase, ray, tMin, tMax, result)
  {
    if first.hit && second.hit {
      Spheres.PositiveLength(ray.direction);
      assert p.sqrt(LengthSquared(ray.direction)) > 0.0;
      NonPositiveProduct(negInvDensity, p.logDraw);
      ScatterHitFacts(first.result.t, second.result.t, phase, negInvDensity, ray, tMin, tMax, result, p);
    }
  }

  /** The record of a scattering point between entry and exit. */
  predicate ScatterFacts(o: Hittables.Outcome, entry: real, exit: real, phase: Material, ray: Ray,
                         tMin: ExtReal, tMax: ExtReal, result: HitResult)
  {
    o.hit ==>
          && entry <= o.result.t <= exit && 0.0 <= o.result.t
          && o.result.normal == Vec3(1.0, 0.0, 0.0) && o.result.frontFace
          && o.result.material == phase
          && o.result.u == result.u && o.result.v == result.v
  }

  lemma ScatterHitFacts(entry: real, exit: real, phase: Material, negInvDensity: real, ray: Ray,
                        tMin: ExtReal, tMax: ExtReal, result: HitResult, p: Platform)
    requires p.sqrt(LengthSquared(ray.direction)) > 0.0 && negInvDensity * p.logDraw >= 0.0
    ensures ScatterFacts(Hittables.Scatter(entry, exit, phase, negInvDensity, ray, tMin, tMax, result, p),
                         entry, exit, phase, ray, tMin, tMax, result)
  {
    Hittables.ScatterIsOutcome(entry, exit, phase, negInvDensity, ray, tMin, tMax, result, p);
    ScatterOutcomeFacts(entry, exit, phase, p.sqrt(LengthSquared(ray.direction)), negInvDensity * p.logDraw,
                        ray, tMin, tMax, result);
  }

  lemma ScatterOutcomeFacts(entry: real, exit: real, phase: Material, rayLength: real, hitDistance: real,
                            ray: Ray, tMin: ExtReal, tMax: ExtReal, result: HitResult)
    requires rayLength > 0.0 && hitDistance >= 0.0
    ensures ScatterFacts(Hittables.ScatterOutcome(ScatterAt(entry, exit, tMin, tMax, rayLength, hitDistance),
                                                  phase, ray, result),
                         entry, exit, phase, ray, tMin, tMax, result)
  {
    ScatterInside(entry, exit, tMin, tMax, rayLength, hitDistance);
  }

  /** A miss leaves the caller's record, and the medium's box is its
      boundary's box. */
  lemma MediumMissAndBox(boundary: Hittables.Hittable, phase: Material, negInvDensity: real, ray: Ray,
                         tMin: ExtReal, tMax: ExtReal, result: HitResult, p: Platform,
                         time0: real, time1: real, box: AABB)
    ensures var o := Hittables.MediumHit(boundary, phase, negInvDensity, ray, tMin, tMax, result, p);
            !o.hit ==> o.result == result
    ensures Hittables.BoundingBox(Hittables.Medium(boundary, phase, negInvDensity), time0, time1, box)
            == Hittables.BoundingBox(boundary, time0, time1, box)
  {
    var first := Hittables.Hit(boundary, ray, NegInf, PosInf, EmptyResult, p);
    var second := Hittables.Hit(boundary, ray, Real(first.result.t + ExitSearchOffset), PosInf, EmptyResult, p);
    Hittables.MediumHitIsAnswer(boundary, phase, negInvDensity, ray, tMin, tMax, result, p, first, second);
    MediumAnswerMiss(first, second, phase, negInvDensity, ray, tMin, tMax, result, p);
  }

  lemma MediumAnswerMiss(first: Hittables.Outcome, second: Hittables.Outcome, phase: Material,
                         negInvDensity: real, ray: Ray, tMin: ExtReal, tMax: ExtReal, result: HitResult,
                         p: Platform)
    ensures var o := Hittables.MediumAnswer(first, second, phase, negInvDensity, ray, tMin, tMax, result, p);
            !o.hit ==> o.result == result
  {
    if first.hit && second.hit {
      Hittables.ScatterIsOutcome(first.result.t, second.result.t, phase, negInvDensity, ray, tMin, tMax, result, p);
    }
  }
}
