/** The two mutable object lists: Scene, which snapshots its list into an
    array on every Add and scans the array, and the older HittableList,
    which scans its list and returns a record or null.  Box builds its six
    faces through a Scene. */
module Scenes {
  import opened Wrappers
  import opened Numerics
  import opened Geometry
  import opened Hittables
  import Aabb
  import opened Rects

  class Scene {
    var objects: seq<Hittable>
    /** The snapshot `_objects.ToArray()`; null until the first Add. */
    var asArray: array?<Hittable>

    ghost predicate Valid()
      reads this, asArray
    {
      (asArray == null <==> objects == []) && (asArray != null ==> asArray[..] == objects)
    }

    constructor()
      ensures Valid() && objects == [] && asArray == null
    {
      objects := [];
      asArray := null;
    }

    /** Appends the object and replaces the snapshot by a fresh copy of the list. */
    method Add(obj: Hittable)
      requires Valid()
      modifies this
      ensures Valid() && objects == old(objects) + [obj]
      ensures asArray != null && fresh(asArray)
    {
      objects := objects + [obj];
      var snapshot := objects;
      asArray := new Hittable[|snapshot|](i requires 0 <= i < |snapshot| => snapshot[i]);
    }

    /** The closest-hit loop.  The snapshot must exist: before the first Add
        the source dereferences a null array. */
    method Hit(finalResult: HitResult, ray: Ray, tMin: ExtReal, tMax: ExtReal, p: Platform)
      returns (hitAnything: bool, resultOut: HitResult)
      requires Valid() && asArray != null
      ensures Outcome(hitAnything, resultOut) == SceneHit(objects, ray, tMin, tMax, finalResult, p)
    {
      var closestSoFar := tMax;
      hitAnything := false;
      resultOut := finalResult;
      var i := 0;
      while i < asArray.Length
        invariant 0 <= i <= asArray.Length
        invariant Closest(objects[i..], ray, tMin, closestSoFar, Outcome(hitAnything, resultOut), p)
                  == SceneHit(objects, ray, tMin, tMax, finalResult, p)
      {
        var obj := asArray[i];
        var tempResult := EmptyResult;
        assert objects[i..][0] == obj && objects[i..][1..] == objects[i + 1..];
        var o := Hittables.Hit(obj, ray, tMin, closestSoFar, tempResult, p);
        if o.hit {
          hitAnything := true;
          closestSoFar := Real(o.result.t);
          resultOut := o.result;
        }
        i := i + 1;
      }
    }
  }

  /** A null record as the outcome it stands for. */
  function AsOutcome(record: Option<HitResult>): (o: Outcome)
    ensures o.hit <==> record.Some?
    ensures record.Some? ==> o.result == record.value
  {
    match record
    case None => Outcome(false, EmptyResult)
    case Some(r) => Outcome(true, r)
  }

  class HittableList {
    var objects: seq<Hittable>

    constructor()
      ensures objects == []
    {
      objects := [];
    }

    method Add(obj: Hittable)
      modifies this
      ensures objects == old(objects) + [obj]
    {
      objects := objects + [obj];
    }

    method Clear()
      modifies this
      ensures objects == []
    {
      objects := [];
    }

    /** The closest-hit loop of the older interface: each object's record,
        or null, narrows closestSoFar; the last record found is returned. */
    method Hit(ray: Ray, tMin: ExtReal, tMax: ExtReal, p: Platform) returns (record: Option<HitResult>)
      ensures record == HitRecord(List(objects), ray, tMin, tMax, p)
    {
      record := None;
      var closestSoFar := tMax;
      var i := 0;
      while i < |objects|
        invariant 0 <= i <= |objects|
        invariant Closest(objects[i..], ray, tMin, closestSoFar, AsOutcome(record), p)
                  == SceneHit(objects, ray, tMin, tMax, EmptyResult, p)
      {
        var obj := objects[i];
        assert objects[i..][0] == obj && objects[i..][1..] == objects[i + 1..];
        var newRecord := HitRecord(obj, ray, tMin, closestSoFar, p);
        if newRecord.Some? {
          closestSoFar := Real(newRecord.value.t);
          record := newRecord;
        }
        i := i + 1;
      }
    }
  }

  // ---------------------------------------------------------------------
  // Box

  /** The six faces in the order the constructor adds them. */
  function BoxSides(p0: Vec3, p1: Vec3, material: Material): seq<Hittable>
  {
    [XYRect(p0.x, p1.x, p0.y, p1.y, p1.z, material),
     XYRect(p0.x, p1.x, p0.y, p1.y, p0.z, material),
     XZRect(p0.x, p1.x, p0.z, p1.z, p1.y, material),
     XZRect(p0.x, p1.x, p0.z, p1.z, p0.y, material),
     YZRect(p0.y, p1.y, p0.z, p1.z, p1.x, material),
     YZRect(p0.y, p1.y, p0.z, p1.z, p0.x, material)]
  }

  /** The Box constructor: a Scene filled by six Adds. */
  method NewBox(p0: Vec3, p1: Vec3, material: Material) returns (b: Hittable)
    ensures b == Box(p0, p1, BoxSides(p0, p1, material))
  {
    var scene := new Scene();
    scene.Add(XYRect(p0.x, p1.x, p0.y, p1.y, p1.z, material));
    scene.Add(XYRect(p0.x, p1.x, p0.y, p1.y, p0.z, material));
    scene.Add(XZRect(p0.x, p1.x, p0.z, p1.z, p1.y, material));
    scene.Add(XZRect(p0.x, p1.x, p0.z, p1.z, p0.y, material));
    scene.Add(YZRect(p0.y, p1.y, p0.z, p1.z, p1.x, material));
    scene.Add(YZRect(p0.y, p1.y, p0.z, p1.z, p0.x, material));
    b := Box(p0, p1, scene.objects);
  }

  /** The point lies on one of the six faces of the box. */
  predicate OnSurface(b: Aabb.AABB, q: Vec3)
  {
    && Aabb.ContainsPoint(b, q)
    && (|| q.x == b.minimum.x || q.x == b.maximum.x
        || q.y == b.minimum.y || q.y == b.maximum.y
        || q.z == b.minimum.z || q.z == b.maximum.z)
  }

  /** A rectangle lying in one of the faces of `b`. */
  predicate FaceOf(h: Hittable, b: Aabb.AABB)
  {
    && b.minimum.x <= b.maximum.x && b.minimum.y <= b.maximum.y && b.minimum.z <= b.maximum.z
    && match h
    case XYRect(x0, x1, y0, y1, k, _) =>
      b.minimum.x <= x0 && x1 <= b.maximum.x && b.minimum.y <= y0 && y1 <= b.maximum.y
      && (k == b.minimum.z || k == b.maximum.z)
    case XZRect(x0, x1, z0, z1, k, _) =>
      b.minimum.x <= x0 && x1 <= b.maximum.x && b.minimum.z <= z0 && z1 <= b.maximum.z
      && (k == b.minimum.y || k == b.maximum.y)
    case YZRect(y0, y1, z0, z1, k, _) =>
      b.minimum.y <= y0 && y1 <= b.maximum.y && b.minimum.z <= z0 && z1 <= b.maximum.z
      && (k == b.minimum.x || k == b.maximum.x)
    case _ => false
  }

  /** Every side of a box with ordered corners is a face of AABB(p0, p1). */
  lemma BoxSidesAreFaces(p0: Vec3, p1: Vec3, material: Material)
    requires p0.x <= p1.x && p0.y <= p1.y && p0.z <= p1.z
    ensures forall i :: 0 <= i < 6 ==> FaceOf(BoxSides(p0, p1, material)[i], Aabb.AABB(p0, p1))
  {
  }

  /** A face only reports points on the surface of its box. */
  lemma FaceHitOnSurface(h: Hittable, b: Aabb.AABB, ray: Ray, tMin: ExtReal, tMax: ExtReal,
                         result: HitResult, p: Platform)
    requires FaceOf(h, b)
    ensures Hit(h, ray, tMin, tMax, result, p).hit ==> OnSurface(b, Hit(h, ray, tMin, tMax, result, p).result.p)
  {
    match h
    case XYRect(x0, x1, y0, y1, k, m) =>
      var r := XYRectHit(x0, x1, y0, y1, k, m, ray, tMin, tMax);
      if r.Some? {
        assert Aabb.ContainsPoint(b, r.value.p);
      }
    case XZRect(x0, x1, z0, z1, k, m) =>
      var r := XZRectHit(x0, x1, z0, z1, k, m, ray, tMin, tMax);
      if r.Some? {
        assert Aabb.ContainsPoint(b, r.value.p);
      }
    case YZRect(y0, y1, z0, z1, k, m) =>
      var r := YZRectHit(y0, y1, z0, z1, k, m, ray, tMin, tMax);
      if r.Some? {
        assert Aabb.ContainsPoint(b, r.value.p);
      }
  }

  /** The scan over faces of `b` either keeps its starting outcome or ends
      on a point of the surface. */
  lemma {:induction false} ClosestOnSurface(objs: seq<Hittable>, b: Aabb.AABB, ray: Ray, tMin: ExtReal,
                                            closest: ExtReal, acc: Outcome, p: Platform)
    requires forall i :: 0 <= i < |objs| ==> FaceOf(objs[i], b)
    ensures var o := Closest(objs, ray, tMin, closest, acc, p);
            o == acc || (o.hit && OnSurface(b, o.result.p))
    decreases |objs|
  {
    if |objs| > 0 {
      var o := Hit(objs[0], ray, tMin, closest, EmptyResult, p);
      FaceHitOnSurface(objs[0], b, ray, tMin, closest, EmptyResult, p);
      if o.hit {
        ClosestOnSurface(objs[1..], b, ray, tMin, Real(o.result.t), o, p);
      } else {
        ClosestOnSurface(objs[1..], b, ray, tMin, closest, acc, p);
      }
    }
  }

  /** Box.Hit reports only points on the surface of the box. */
  lemma BoxHitOnSurface(p0: Vec3, p1: Vec3, material: Material, ray: Ray, tMin: ExtReal, tMax: ExtReal,
                        result: HitResult, p: Platform)
    requires p0.x <= p1.x && p0.y <= p1.y && p0.z <= p1.z
    ensures var o := Hit(Box(p0, p1, BoxSides(p0, p1, material)), ray, tMin, tMax, result, p);
            o.hit ==> OnSurface(Aabb.AABB(p0, p1), o.result.p)
  {
    BoxSidesAreFaces(p0, p1, material);
    ClosestOnSurface(BoxSides(p0, p1, material), Aabb.AABB(p0, p1), ray, tMin, tMax, Outcome(false, result), p);
  }
}
