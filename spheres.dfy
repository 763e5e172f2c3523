/** Sphere and MovingSphere: the nearer in-range root of the ray/sphere
    quadratic.  The square root is the platform's, and the facts about a hit
    point hold wherever that square root is exact. */
module Spheres {
  import opened Wrappers
  import opened Numerics
  import opened Geometry
  import opened Aabb

  /** The half-b form of |O + tD - C|^2 = r^2: a t^2 + 2 bHalf t + c = 0. */
  datatype Quadratic = Quadratic(a: real, bHalf: real, c: real)

  function SphereQuadratic(center: Vec3, radius: real, ray: Ray): Quadratic
  {
    var oc := Minus(ray.origin, center);
    Quadratic(LengthSquared(ray.direction), Dot(oc, ray.direction), LengthSquared(oc) - radius * radius)
  }

  function Discriminant(q: Quadratic): real
  {
    q.bHalf * q.bHalf - q.a * q.c
  }

  /** The two candidate roots for a given square root `s` of the discriminant. */
  function NearRoot(q: Quadratic, s: real): real
    requires q.a != 0.0
  {
    (-q.bHalf - s) / q.a
  }

  function FarRoot(q: Quadratic, s: real): real
    requires q.a != 0.0
  {
    (-q.bHalf + s) / q.a
  }

  /** Root selection: the nearer root when it is in range, otherwise the far
      root when it is, otherwise no hit.  A negative discriminant, and a ray
      without direction, give no hit. */
  function SphereRoot(center: Vec3, radius: real, ray: Ray, tMin: ExtReal, tMax: ExtReal,
                      sqrt: real -> real): (r: Option<real>)
    ensures var q := SphereQuadratic(center, radius, ray);
            Discriminant(q) < 0.0 || q.a == 0.0 ==> r.None?
    ensures r.Some? ==> InRange(r.value, tMin, tMax)
    ensures var q := SphereQuadratic(center, radius, ray);
            var s := sqrt(Discriminant(q));
            Discriminant(q) >= 0.0 && q.a != 0.0 ==>
              && (InRange(NearRoot(q, s), tMin, tMax) ==> r == Some(NearRoot(q, s)))
              && ((!InRange(NearRoot(q, s), tMin, tMax) && InRange(FarRoot(q, s), tMin, tMax))
                  ==> r == Some(FarRoot(q, s)))
              && ((!InRange(NearRoot(q, s), tMin, tMax) && !InRange(FarRoot(q, s), tMin, tMax))
                  ==> r.None?)
  {
    var q := SphereQuadratic(center, radius, ray);
    var disc := Discriminant(q);
    if disc < 0.0 || q.a == 0.0 then None
    else
      var s := sqrt(disc);
      var root := NearRoot(q, s);
      if Lt(Real(root), tMin) || Lt(tMax, Real(root)) then
        var root2 := FarRoot(q, s);
        if Lt(Real(root2), tMin) || Lt(tMax, Real(root2)) then None
        else Some(root2)
      else Some(root)
  }

  /** `(P - Center) / Radius`; a zero radius divides to the zero vector. */
  function OutwardNormal(center: Vec3, radius: real, p: Vec3): Vec3
  {
    Scale(Ratio(1.0, radius), Minus(p, center))
  }

  /** Sphere.Hit: the record at the selected root. */
  function SphereHit(center: Vec3, radius: real, material: Material, ray: Ray,
                     tMin: ExtReal, tMax: ExtReal, sqrt: real -> real): (r: Option<HitResult>)
    ensures r.Some? <==> SphereRoot(center, radius, ray, tMin, tMax, sqrt).Some?
    ensures r.Some? ==> r.value.t == SphereRoot(center, radius, ray, tMin, tMax, sqrt).value
    ensures r.Some? ==> r.value.p == At(ray, r.value.t) && r.value.material == material
    ensures r.Some? ==> r.value.u == 0.0 && r.value.v == 0.0
    ensures r.Some? ==> var n := OutwardNormal(center, radius, r.value.p);
                        && (r.value.frontFace <==> Dot(ray.direction, n) < 0.0)
                        && (r.value.normal == n || r.value.normal == Neg(n))
    ensures r.Some? ==> Dot(ray.direction, r.value.normal) <= 0.0
  {
    match SphereRoot(center, radius, ray, tMin, tMax, sqrt)
    case None => None
    case Some(t) =>
      var p := At(ray, t);
      var f := FaceNormal(ray.direction, OutwardNormal(center, radius, p));
      Some(HitResult(t, p, f.normal, f.frontFace, material, 0.0, 0.0))
  }

  /** MovingSphere.Center: linear motion from center0 at time0 to center1 at
      time1; equal times leave the sphere at center0. */
  function Center(center0: Vec3, center1: Vec3, time0: real, time1: real, time: real): (c: Vec3)
    ensures time == time0 ==> c == center0
    ensures time1 != time0 && time == time1 ==> c == center1
  {
    Plus(center0, Scale(Ratio(time - time0, time1 - time0), Minus(center1, center0)))
  }

  /** MovingSphere.Hit: a sphere hit against the centre at the ray's time. */
  function MovingSphereHit(center0: Vec3, center1: Vec3, time0: real, time1: real, radius: real,
                           material: Material, ray: Ray, tMin: ExtReal, tMax: ExtReal,
                           sqrt: real -> real): (r: Option<HitResult>)
    ensures r == SphereHit(Center(center0, center1, time0, time1, ray.time), radius, material,
                           ray, tMin, tMax, sqrt)
  {
    SphereHit(Center(center0, center1, time0, time1, ray.time), radius, material, ray, tMin, tMax, sqrt)
  }

  /** The cube of half-side `radius` around `c`. */
  function RadiusCube(c: Vec3, radius: real): AABB
  {
    var rv := Vec3(radius, radius, radius);
    AABB(Minus(c, rv), Plus(c, rv))
  }

  /** MovingSphere.BoundingBox: the union of the radius cubes at both times. */
  function MovingSphereBox(center0: Vec3, center1: Vec3, time0: real, time1: real, radius: real,
                           boxTime0: real, boxTime1: real): (b: AABB)
    ensures Contains(b, RadiusCube(Center(center0, center1, time0, time1, boxTime0), radius))
    ensures Contains(b, RadiusCube(Center(center0, center1, time0, time1, boxTime1), radius))
  {
    SurroundingBox(RadiusCube(Center(center0, center1, time0, time1, boxTime0), radius),
                   RadiusCube(Center(center0, center1, time0, time1, boxTime1), radius))
  }

  // ---------------------------------------------------------------------
  // The algebra of the quadratic

  /** |oc + t D|^2 expanded in t. */
  lemma ExpandLengthSquared(oc: Vec3, d: Vec3, t: real)
    ensures LengthSquared(Plus(oc, Scale(t, d)))
            == LengthSquared(oc) + 2.0 * t * Dot(oc, d) + t * t * LengthSquared(d)
  {
  }

  /** Both candidate roots solve the quadratic when `s` is an exact square
      root of the discriminant. */
  lemma CandidateSolves(q: Quadratic, s: real, t: real)
    requires q.a != 0.0 && s * s == Discriminant(q)
    requires t == NearRoot(q, s) || t == FarRoot(q, s)
    ensures q.a * t * t + 2.0 * q.bHalf * t + q.c == 0.0
  {
    var a, b, c := q.a, q.bHalf, q.c;
    var u := a * t;
    assert u == -b - s || u == -b + s;
    assert a * (a * t * t + 2.0 * b * t + c) == u * u + 2.0 * b * u + a * c;
    assert u * u + 2.0 * b * u + a * c == 0.0;
    ZeroProduct(a, a * t * t + 2.0 * b * t + c);
  }

  lemma ZeroProduct(a: real, e: real)
    requires a != 0.0 && a * e == 0.0
    ensures e == 0.0
  {
  }

  /** The candidates are the only solutions. */
  lemma OnlyCandidatesSolve(q: Quadratic, s: real, t: real)
    requires q.a != 0.0 && s * s == Discriminant(q)
    requires q.a * t * t + 2.0 * q.bHalf * t + q.c == 0.0
    ensures t == NearRoot(q, s) || t == FarRoot(q, s)
  {
    var a, b, c := q.a, q.bHalf, q.c;
    var u := a * t;
    assert a * (a * t * t + 2.0 * b * t + c) == (u + b - s) * (u + b + s);
    assert (u + b - s) * (u + b + s) == 0.0;
    if u + b - s == 0.0 {
      assert a * t == -b + s;
    } else {
      ZeroProduct(u + b - s, u + b + s);
      assert a * t == -b - s;
    }
  }

  /** With a positive direction length and a non-negative square root, the
      near root is the smaller one. */
  lemma NearBeforeFar(q: Quadratic, s: real)
    requires q.a > 0.0 && s >= 0.0
    ensures NearRoot(q, s) <= FarRoot(q, s)
  {
    DivideMonotone(-q.bHalf - s, -q.bHalf + s, q.a);
  }

  lemma DivideMonotone(x: real, y: real, a: real)
    requires a > 0.0 && x <= y
    ensures x / a <= y / a
  {
    assert (y / a - x / a) * a == y - x;
  }

  /** The point at parameter t is on the sphere exactly when t solves the
      quadratic. */
  lemma SphereEquation(center: Vec3, radius: real, ray: Ray, t: real)
    ensures var q := SphereQuadratic(center, radius, ray);
            LengthSquared(Minus(At(ray, t), center)) == radius * radius
            <==> q.a * t * t + 2.0 * q.bHalf * t + q.c == 0.0
  {
    var oc := Minus(ray.origin, center);
    assert Minus(At(ray, t), center) == Plus(oc, Scale(t, ray.direction));
    ExpandLengthSquared(oc, ray.direction, t);
  }

  // ---------------------------------------------------------------------
  // What a sphere hit means

  /** A hit point lies on the sphere (moving spheres: on the sphere at the
      ray's time). */
  lemma SphereHitOnSurface(center: Vec3, radius: real, material: Material, ray: Ray,
                           tMin: ExtReal, tMax: ExtReal, p: Platform)
    requires SqrtExactAt(p, Discriminant(SphereQuadratic(center, radius, ray)))
    ensures var r := SphereHit(center, radius, material, ray, tMin, tMax, p.sqrt);
            r.Some? ==> LengthSquared(Minus(r.value.p, center)) == radius * radius
  {
    var root := SphereRoot(center, radius, ray, tMin, tMax, p.sqrt);
    if root.Some? {
      RootOnSurface(center, radius, ray, root.value, p.sqrt(Discriminant(SphereQuadratic(center, radius, ray))));
    }
  }

  lemma RootOnSurface(center: Vec3, radius: real, ray: Ray, t: real, s: real)
    requires var q := SphereQuadratic(center, radius, ray);
             q.a != 0.0 && s * s == Discriminant(q) && (t == NearRoot(q, s) || t == FarRoot(q, s))
    ensures LengthSquared(Minus(At(ray, t), center)) == radius * radius
  {
    CandidateSolves(SphereQuadratic(center, radius, ray), s, t);
    SphereEquation(center, radius, ray, t);
  }

  /** The hit is the nearest point of the sphere within the range: every
      in-range parameter on the sphere is reported as a hit no nearer than
      the one returned. */
  lemma SphereHitNearest(center: Vec3, radius: real, material: Material, ray: Ray,
                         tMin: ExtReal, tMax: ExtReal, p: Platform, t: real)
    requires SqrtExactAt(p, Discriminant(SphereQuadratic(center, radius, ray)))
    requires ray.direction != Zero
    requires InRange(t, tMin, tMax)
    requires LengthSquared(Minus(At(ray, t), center)) == radius * radius
    ensures var r := SphereHit(center, radius, material, ray, tMin, tMax, p.sqrt);
            r.Some? && r.value.t <= t
  {
    SolutionIsCandidate(center, radius, ray, p, t);
    SelectionNearest(center, radius, ray, tMin, tMax, p.sqrt, t);
  }

  /** A parameter where a ray with a direction meets the sphere is one of the
      two candidate roots. */
  lemma SolutionIsCandidate(center: Vec3, radius: real, ray: Ray, p: Platform, t: real)
    requires SqrtExactAt(p, Discriminant(SphereQuadratic(center, radius, ray)))
    requires ray.direction != Zero
    requires LengthSquared(Minus(At(ray, t), center)) == radius * radius
    ensures var q := SphereQuadratic(center, radius, ray);
            var s := p.sqrt(Discriminant(q));
            && q.a != 0.0 && Discriminant(q) >= 0.0
            && NearRoot(q, s) <= FarRoot(q, s)
            && (t == NearRoot(q, s) || t == FarRoot(q, s))
  {
    var q := SphereQuadratic(center, radius, ray);
    PositiveLength(ray.direction);
    SphereEquation(center, radius, ray, t);
    DiscriminantOfSolvable(q, t);
    QuadraticCandidates(q, p.sqrt(Discriminant(q)), t);
  }

  /** A solution of a quadratic with positive leading coefficient is one of
      the two candidates, the near one first. */
  lemma QuadraticCandidates(q: Quadratic, s: real, t: real)
    requires q.a > 0.0 && s >= 0.0 && s * s == Discriminant(q)
    requires q.a * t * t + 2.0 * q.bHalf * t + q.c == 0.0
    ensures t == NearRoot(q, s) || t == FarRoot(q, s)
    ensures NearRoot(q, s) <= FarRoot(q, s)
  {
    OnlyCandidatesSolve(q, s, t);
    NearBeforeFar(q, s);
  }

  /** Root selection never passes over an in-range candidate nearer than
      the one it returns. */
  lemma SelectionNearest(center: Vec3, radius: real, ray: Ray, tMin: ExtReal, tMax: ExtReal,
                         sqrt: real -> real, t: real)
    requires var q := SphereQuadratic(center, radius, ray);
             var s := sqrt(Discriminant(q));
             && q.a != 0.0 && Discriminant(q) >= 0.0
             && NearRoot(q, s) <= FarRoot(q, s)
             && (t == NearRoot(q, s) || t == FarRoot(q, s))
    requires InRange(t, tMin, tMax)
    ensures var r := SphereRoot(center, radius, ray, tMin, tMax, sqrt);
            r.Some? && r.value <= t
  {
  }

  lemma PositiveLength(d: Vec3)
    requires d != Zero
    ensures LengthSquared(d) > 0.0
  {
    LengthSquaredNonNegative(d);
    if LengthSquared(d) == 0.0 {
      LengthSquaredNonNegative(Vec3(d.x, 0.0, 0.0));
      LengthSquaredNonNegative(Vec3(0.0, d.y, 0.0));
      LengthSquaredNonNegative(Vec3(0.0, 0.0, d.z));
      ZeroSquare(d.x);
      ZeroSquare(d.y);
      ZeroSquare(d.z);
      assert false;
    }
  }

  lemma LengthSquaredNonNegative(d: Vec3)
    ensures LengthSquared(d) >= 0.0
  {
  }

  lemma ZeroSquare(x: real)
    requires x * x == 0.0
    ensures x == 0.0
  {
    if x != 0.0 {
      ZeroProduct(x, x);
      assert false;
    }
  }

  lemma SquareNonNegative(x: real)
    ensures x * x >= 0.0
  {
    LengthSquaredNonNegative(Vec3(x, 0.0, 0.0));
  }

  /** A quadratic with a real solution has a non-negative discriminant. */
  lemma DiscriminantOfSolvable(q: Quadratic, t: real)
    requires q.a != 0.0 && q.a * t * t + 2.0 * q.bHalf * t + q.c == 0.0
    ensures Discriminant(q) >= 0.0
  {
    var u := q.a * t + q.bHalf;
    assert u * u == q.a * (q.a * t * t + 2.0 * q.bHalf * t + q.c) + Discriminant(q);
  }

  /** With a positive radius the outward normal of a point on the sphere has
      unit length. */
  lemma OutwardNormalUnit(center: Vec3, radius: real, q: Vec3)
    requires radius > 0.0
    requires LengthSquared(Minus(q, center)) == radius * radius
    ensures LengthSquared(OutwardNormal(center, radius, q)) == 1.0
  {
    var k := Ratio(1.0, radius);
    var w := Minus(q, center);
    assert LengthSquared(Scale(k, w)) == k * k * LengthSquared(w);
    assert k * radius == 1.0;
    assert k * k * (radius * radius) == (k * radius) * (k * radius);
  }

  /** The returned normal of a hit on a sphere of positive radius is a unit
      vector. */
  lemma SphereHitUnitNormal(center: Vec3, radius: real, material: Material, ray: Ray,
                            tMin: ExtReal, tMax: ExtReal, p: Platform)
    requires radius > 0.0
    requires SqrtExactAt(p, Discriminant(SphereQuadratic(center, radius, ray)))
    ensures var r := SphereHit(center, radius, material, ray, tMin, tMax, p.sqrt);
            r.Some? ==> LengthSquared(r.value.normal) == 1.0
  {
    var r := SphereHit(center, radius, material, ray, tMin, tMax, p.sqrt);
    if r.Some? {
      SphereHitOnSurface(center, radius, material, ray, tMin, tMax, p);
      var n := OutwardNormal(center, radius, r.value.p);
      OutwardNormalUnit(center, radius, r.value.p);
      assert LengthSquared(Neg(n)) == LengthSquared(n);
    }
  }

  /** A point within `radius` of the centre lies in the radius cube. */
  lemma BallInsideCube(c: Vec3, radius: real, q: Vec3)
    requires radius >= 0.0
    requires LengthSquared(Minus(q, c)) <= radius * radius
    ensures ContainsPoint(RadiusCube(c, radius), q)
  {
    var w := Minus(q, c);
    SquareNonNegative(w.x);
    SquareNonNegative(w.y);
    SquareNonNegative(w.z);
    SquareBound(w.x, radius);
    SquareBound(w.y, radius);
    SquareBound(w.z, radius);
  }

  lemma SquareBound(d: real, r: real)
    requires r >= 0.0 && d * d <= r * r
    ensures -r <= d <= r
  {
    if d > r {
      ProductPositive(d - r, d + r);
    } else if d < -r {
      ProductPositive(-d - r, -d + r);
    }
  }

  lemma ProductPositive(a: real, b: real)
    requires a > 0.0 && b > 0.0
    ensures a * b > 0.0
  {
  }

  /** The moving sphere at either box time lies in its bounding box. */
  lemma MovingSphereBoxBoundsEnds(center0: Vec3, center1: Vec3, time0: real, time1: real,
                                  radius: real, boxTime0: real, boxTime1: real, time: real, q: Vec3)
    requires radius >= 0.0
    requires time == boxTime0 || time == boxTime1
    requires LengthSquared(Minus(q, Center(center0, center1, time0, time1, time))) <= radius * radius
    ensures ContainsPoint(MovingSphereBox(center0, center1, time0, time1, radius, boxTime0, boxTime1), q)
  {
    BallInsideCube(Center(center0, center1, time0, time1, time), radius, q);
  }
}
