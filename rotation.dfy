/** RotateY's geometry: rotation about the y axis by an angle given through
    its sine and cosine, and the box around the eight rotated corners of the
    child's box. */
module Rotation {
  import opened Numerics
  import opened Geometry
  import opened Aabb

  /** The rotation applied to the incoming ray (world to object space). */
  function ToObject(sin: real, cos: real, v: Vec3): Vec3
  {
    Vec3(cos * v.x - sin * v.z, v.y, sin * v.x + cos * v.z)
  }

  /** The rotation applied to the child's hit point, normal and box corners
      (object to world space). */
  function ToWorld(sin: real, cos: real, v: Vec3): Vec3
  {
    Vec3(cos * v.x + sin * v.z, v.y, -sin * v.x + cos * v.z)
  }

  predicate UnitAngle(sin: real, cos: real)
  {
    sin * sin + cos * cos == 1.0
  }

  /** For a genuine angle the two rotations are inverse to each other. */
  lemma RotationsInverse(sin: real, cos: real, v: Vec3)
    requires UnitAngle(sin, cos)
    ensures ToWorld(sin, cos, ToObject(sin, cos, v)) == v
    ensures ToObject(sin, cos, ToWorld(sin, cos, v)) == v
  {
    WorldUndoesObject(sin, cos, v);
    ObjectUndoesWorld(sin, cos, v);
  }

  lemma WorldUndoesObject(sin: real, cos: real, v: Vec3)
    requires UnitAngle(sin, cos)
    ensures ToWorld(sin, cos, ToObject(sin, cos, v)) == v
  {
    var w := ToObject(sin, cos, v);
    MulCongruence(cos, w.x, cos * v.x - sin * v.z);
    MulCongruence(sin, w.z, sin * v.x + cos * v.z);
    MulCongruence(-sin, w.x, cos * v.x - sin * v.z);
    MulCongruence(cos, w.z, sin * v.x + cos * v.z);
    MulCongruence(v.x, sin * sin + cos * cos, 1.0);
    MulCongruence(v.z, sin * sin + cos * cos, 1.0);
    var r := ToWorld(sin, cos, w);
    assert r.x == v.x;
    assert r.z == v.z;
  }

  lemma ObjectUndoesWorld(sin: real, cos: real, v: Vec3)
    requires UnitAngle(sin, cos)
    ensures ToObject(sin, cos, ToWorld(sin, cos, v)) == v
  {
    var u := ToWorld(sin, cos, v);
    MulCongruence(cos, u.x, cos * v.x + sin * v.z);
    MulCongruence(sin, u.z, -sin * v.x + cos * v.z);
    MulCongruence(sin, u.x, cos * v.x + sin * v.z);
    MulCongruence(cos, u.z, -sin * v.x + cos * v.z);
    MulCongruence(v.x, sin * sin + cos * cos, 1.0);
    MulCongruence(v.z, sin * sin + cos * cos, 1.0);
    var r := ToObject(sin, cos, u);
    assert r.x == v.x;
    assert r.z == v.z;
  }

  /** ToWorld is linear. */
  lemma WorldLinear(sin: real, cos: real, a: Vec3, b: Vec3, t: real)
    ensures ToWorld(sin, cos, Plus(a, Scale(t, b)))
            == Plus(ToWorld(sin, cos, a), Scale(t, ToWorld(sin, cos, b)))
  {
    WorldLinearX(sin, cos, a, b, t);
    WorldLinearZ(sin, cos, a, b, t);
    SameComponents(ToWorld(sin, cos, Plus(a, Scale(t, b))), Plus(ToWorld(sin, cos, a), Scale(t, ToWorld(sin, cos, b))));
  }

  lemma WorldLinearX(sin: real, cos: real, a: Vec3, b: Vec3, t: real)
    ensures ToWorld(sin, cos, Plus(a, Scale(t, b))).x
            == Plus(ToWorld(sin, cos, a), Scale(t, ToWorld(sin, cos, b))).x
  {
    var v, wb := Plus(a, Scale(t, b)), ToWorld(sin, cos, b);
    MulCongruence(cos, v.x, a.x + t * b.x);
    MulCongruence(sin, v.z, a.z + t * b.z);
    MulCongruence(t, wb.x, cos * b.x + sin * b.z);
  }

  lemma WorldLinearZ(sin: real, cos: real, a: Vec3, b: Vec3, t: real)
    ensures ToWorld(sin, cos, Plus(a, Scale(t, b))).z
            == Plus(ToWorld(sin, cos, a), Scale(t, ToWorld(sin, cos, b))).z
  {
    var v, wb := Plus(a, Scale(t, b)), ToWorld(sin, cos, b);
    MulCongruence(-sin, v.x, a.x + t * b.x);
    MulCongruence(cos, v.z, a.z + t * b.z);
    MulCongruence(t, wb.z, -sin * b.x + cos * b.z);
  }

  /** ToObject is linear. */
  lemma ObjectLinear(sin: real, cos: real, a: Vec3, b: Vec3, t: real)
    ensures ToObject(sin, cos, Plus(a, Scale(t, b)))
            == Plus(ToObject(sin, cos, a), Scale(t, ToObject(sin, cos, b)))
  {
    ObjectLinearX(sin, cos, a, b, t);
    ObjectLinearZ(sin, cos, a, b, t);
    SameComponents(ToObject(sin, cos, Plus(a, Scale(t, b))), Plus(ToObject(sin, cos, a), Scale(t, ToObject(sin, cos, b))));
  }

  lemma ObjectLinearX(sin: real, cos: real, a: Vec3, b: Vec3, t: real)
    ensures ToObject(sin, cos, Plus(a, Scale(t, b))).x
            == Plus(ToObject(sin, cos, a), Scale(t, ToObject(sin, cos, b))).x
  {
    var v, ob := Plus(a, Scale(t, b)), ToObject(sin, cos, b);
    MulCongruence(cos, v.x, a.x + t * b.x);
    MulCongruence(sin, v.z, a.z + t * b.z);
    MulCongruence(t, ob.x, cos * b.x - sin * b.z);
  }

  lemma ObjectLinearZ(sin: real, cos: real, a: Vec3, b: Vec3, t: real)
    ensures ToObject(sin, cos, Plus(a, Scale(t, b))).z
            == Plus(ToObject(sin, cos, a), Scale(t, ToObject(sin, cos, b))).z
  {
    var v, ob := Plus(a, Scale(t, b)), ToObject(sin, cos, b);
    MulCongruence(sin, v.x, a.x + t * b.x);
    MulCongruence(cos, v.z, a.z + t * b.z);
    MulCongruence(t, ob.z, sin * b.x + cos * b.z);
  }

  /** Vectors that agree on every component are equal. */
  lemma SameComponents(u: Vec3, w: Vec3)
    requires u.x == w.x && u.y == w.y && u.z == w.z
    ensures u == w
  {
  }

  /** Both rotations keep the y component, and are linear. */
  lemma RotationLinear(sin: real, cos: real, a: Vec3, b: Vec3, t: real)
    ensures ToWorld(sin, cos, Plus(a, Scale(t, b)))
            == Plus(ToWorld(sin, cos, a), Scale(t, ToWorld(sin, cos, b)))
    ensures ToObject(sin, cos, Plus(a, Scale(t, b)))
            == Plus(ToObject(sin, cos, a), Scale(t, ToObject(sin, cos, b)))
    ensures ToWorld(sin, cos, a).y == a.y && ToObject(sin, cos, a).y == a.y
  {
    WorldLinear(sin, cos, a, b, t);
    ObjectLinear(sin, cos, a, b, t);
  }

  /** The ray handed to the child: origin and direction rotated, time kept. */
  function ObjectRay(sin: real, cos: real, ray: Ray): (r: Ray)
    ensures r.origin.y == ray.origin.y && r.direction.y == ray.direction.y && r.time == ray.time
  {
    Ray(ToObject(sin, cos, ray.origin), ToObject(sin, cos, ray.direction), ray.time)
  }

  /** A point on the child's ray maps back to the point at the same
      parameter on the original ray. */
  lemma ObjectRayPoint(sin: real, cos: real, ray: Ray, t: real)
    requires UnitAngle(sin, cos)
    ensures ToWorld(sin, cos, At(ObjectRay(sin, cos, ray), t)) == At(ray, t)
  {
    var o, d := ToObject(sin, cos, ray.origin), ToObject(sin, cos, ray.direction);
    RotationLinear(sin, cos, o, d, t);
    RotationsInverse(sin, cos, ray.origin);
    RotationsInverse(sin, cos, ray.direction);
  }

  /** The child's record taken back to world space: point and normal rotated,
      the face chosen against the original ray, the rest kept. */
  function WorldRecord(sin: real, cos: real, ray: Ray, h: HitResult): (r: HitResult)
    ensures r.t == h.t && r.material == h.material && r.u == h.u && r.v == h.v
    ensures r.p == ToWorld(sin, cos, h.p)
    ensures var n := ToWorld(sin, cos, h.normal);
            (r.frontFace <==> Dot(ray.direction, n) < 0.0) && (r.normal == n || r.normal == Neg(n))
    ensures Dot(ray.direction, r.normal) <= 0.0
  {
    var f := FaceNormal(ray.direction, ToWorld(sin, cos, h.normal));
    HitResult(h.t, ToWorld(sin, cos, h.p), f.normal, f.frontFace, h.material, h.u, h.v)
  }

  // ---------------------------------------------------------------------
  // The rotated bounding box

  /** The corner coordinate a loop index in {0, 1} selects: the upper end
      for 1, the lower end for 0. */
  function Pick(i: int, hi: real, lo: real): real
  {
    if i == 0 then lo else hi
  }

  /** The constructor writes the selection as `i * hi + (1 - i) * lo`. */
  lemma PickAsWritten(i: int, hi: real, lo: real)
    requires i == 0 || i == 1
    ensures (i as real) * hi + ((1 - i) as real) * lo == Pick(i, hi, lo)
  {
  }

  /** The child-box corner selected by (i, j, k), rotated to world space. */
  function RotatedCorner(b: AABB, sin: real, cos: real, i: int, j: int, k: int): Vec3
  {
    ToWorld(sin, cos, Vec3(Pick(i, b.maximum.x, b.minimum.x), Pick(j, b.maximum.y, b.minimum.y),
                           Pick(k, b.maximum.z, b.minimum.z)))
  }

  /** Corner n of the eight, with n = 4i + 2j + k. */
  function CornerNumber(b: AABB, sin: real, cos: real, n: int): Vec3
  {
    RotatedCorner(b, sin, cos, n / 4, (n / 2) % 2, n % 2)
  }

  /** The corners in the order the constructor's loops visit them: corner
      (i, j, k) comes at position 4i + 2j + k. */
  function Corners(b: AABB, sin: real, cos: real): (cs: seq<Vec3>)
    ensures |cs| == 8
  {
    seq(8, n => CornerNumber(b, sin, cos, n))
  }

  /** The loops' (i, j, k) visit position 4i + 2j + k. */
  lemma CornerAt(b: AABB, sin: real, cos: real, i: int, j: int, k: int)
    requires 0 <= i < 2 && 0 <= j < 2 && 0 <= k < 2
    ensures Corners(b, sin, cos)[4 * i + 2 * j + k] == RotatedCorner(b, sin, cos, i, j, k)
  {
    var n := 4 * i + 2 * j + k;
    assert n / 4 == i && (n / 2) % 2 == j && n % 2 == k;
  }

  /** Math.Min and Math.Max against an accumulator that starts at an infinity. */
  function Lower(acc: ExtReal, x: real): (r: ExtReal)
    ensures Le(r, acc) && Le(r, Real(x)) && (r == acc || r == Real(x))
  {
    if Lt(Real(x), acc) then Real(x) else acc
  }

  function Upper(acc: ExtReal, x: real): (r: ExtReal)
    ensures Le(acc, r) && Le(Real(x), r) && (r == acc || r == Real(x))
  {
    if Lt(acc, Real(x)) then Real(x) else acc
  }

  /** The running minimum and maximum along an axis, folded from the left. */
  function Lowest(pts: seq<Vec3>, axis: Axis): ExtReal
  {
    if |pts| == 0 then PosInf else Lower(Lowest(pts[..|pts| - 1], axis), Coord(pts[|pts| - 1], axis))
  }

  function Highest(pts: seq<Vec3>, axis: Axis): ExtReal
  {
    if |pts| == 0 then NegInf else Upper(Highest(pts[..|pts| - 1], axis), Coord(pts[|pts| - 1], axis))
  }

  /** The fold's minimum is attained and bounds every point from below. */
  lemma {:induction false} LowestBounds(pts: seq<Vec3>, axis: Axis)
    ensures |pts| > 0 ==> Lowest(pts, axis).Real?
    ensures |pts| > 0 ==> exists n :: 0 <= n < |pts| && Lowest(pts, axis) == Real(Coord(pts[n], axis))
    ensures forall n :: 0 <= n < |pts| ==> Le(Lowest(pts, axis), Real(Coord(pts[n], axis)))
  {
    if |pts| > 0 {
      var init := pts[..|pts| - 1];
      LowestBounds(init, axis);
      assert |init| == 0 ==> Lowest(init, axis) == PosInf;
      forall n | 0 <= n < |pts|
        ensures Le(Lowest(pts, axis), Real(Coord(pts[n], axis)))
      {
        if n < |pts| - 1 {
          assert pts[n] == init[n];
          LeTransitive(Lowest(pts, axis), Lowest(init, axis), Real(Coord(pts[n], axis)));
        }
      }
      if Lowest(pts, axis) == Real(Coord(pts[|pts| - 1], axis)) {
        assert 0 <= |pts| - 1 < |pts|;
      } else {
        var m :| 0 <= m < |init| && Lowest(init, axis) == Real(Coord(init[m], axis));
        assert init[m] == pts[m];
      }
    }
  }

  lemma {:induction false} HighestBounds(pts: seq<Vec3>, axis: Axis)
    ensures |pts| > 0 ==> Highest(pts, axis).Real?
    ensures |pts| > 0 ==> exists n :: 0 <= n < |pts| && Highest(pts, axis) == Real(Coord(pts[n], axis))
    ensures forall n :: 0 <= n < |pts| ==> Le(Real(Coord(pts[n], axis)), Highest(pts, axis))
  {
    if |pts| > 0 {
      var init := pts[..|pts| - 1];
      HighestBounds(init, axis);
      assert |init| == 0 ==> Highest(init, axis) == NegInf;
      forall n | 0 <= n < |pts|
        ensures Le(Real(Coord(pts[n], axis)), Highest(pts, axis))
      {
        if n < |pts| - 1 {
          assert pts[n] == init[n];
          LeTransitive(Real(Coord(pts[n], axis)), Highest(init, axis), Highest(pts, axis));
        }
      }
      if Highest(pts, axis) == Real(Coord(pts[|pts| - 1], axis)) {
        assert 0 <= |pts| - 1 < |pts|;
      } else {
        var m :| 0 <= m < |init| && Highest(init, axis) == Real(Coord(init[m], axis));
        assert init[m] == pts[m];
      }
    }
  }

  /** The real value of a fold over a non-empty sequence. */
  function Finite(e: ExtReal): real
  {
    if e.Real? then e.r else 0.0
  }

  /** The box the constructor computes: per axis, the minimum and maximum of
      the eight rotated corners. */
  function RotatedBox(b: AABB, sin: real, cos: real): AABB
  {
    var cs := Corners(b, sin, cos);
    AABB(Vec3(Finite(Lowest(cs, X)), Finite(Lowest(cs, Y)), Finite(Lowest(cs, Z))),
         Vec3(Finite(Highest(cs, X)), Finite(Highest(cs, Y)), Finite(Highest(cs, Z))))
  }

  /** The rotated box contains every rotated corner; in particular its
      minimum never exceeds its maximum. */
  lemma RotatedBoxContainsCorners(b: AABB, sin: real, cos: real)
    ensures forall n :: 0 <= n < 8 ==> ContainsPoint(RotatedBox(b, sin, cos), Corners(b, sin, cos)[n])
    ensures Contains(RotatedBox(b, sin, cos), RotatedBox(b, sin, cos))
    ensures var r := RotatedBox(b, sin, cos);
            r.minimum.x <= r.maximum.x && r.minimum.y <= r.maximum.y && r.minimum.z <= r.maximum.z
  {
    var cs := Corners(b, sin, cos);
    LowestBounds(cs, X); LowestBounds(cs, Y); LowestBounds(cs, Z);
    HighestBounds(cs, X); HighestBounds(cs, Y); HighestBounds(cs, Z);
    assert Coord(cs[0], X) == cs[0].x && Coord(cs[0], Y) == cs[0].y && Coord(cs[0], Z) == cs[0].z;
  }

  /** y is never rotated: the box's y extent is the child's. */
  lemma RotatedBoxKeepsY(b: AABB, sin: real, cos: real)
    requires b.minimum.y <= b.maximum.y
    ensures RotatedBox(b, sin, cos).minimum.y == b.minimum.y
    ensures RotatedBox(b, sin, cos).maximum.y == b.maximum.y
  {
    var cs := Corners(b, sin, cos);
    LowestBounds(cs, Y);
    HighestBounds(cs, Y);
    assert Pick(0, b.maximum.y, b.minimum.y) == b.minimum.y;
    assert Pick(1, b.maximum.y, b.minimum.y) == b.maximum.y;
    assert cs[0] == RotatedCorner(b, sin, cos, 0, 0, 0);
    assert cs[2] == RotatedCorner(b, sin, cos, 0, 1, 0);
    assert cs[0].y == b.minimum.y && cs[2].y == b.maximum.y;
    assert forall n :: 0 <= n < 8 ==> cs[n].y == b.minimum.y || cs[n].y == b.maximum.y;
    assert Coord(cs[0], Y) == cs[0].y && Coord(cs[2], Y) == cs[2].y;
  }
}
