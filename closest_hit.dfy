/** The closest-hit scan of Scene and HittableList, described query by
    query: which bound each object is asked with, and how the final answer
    relates to the answers along the way. */
module ClosestHit {
  import opened Numerics
  import opened Geometry
  import opened Hittables
  import opened HitLaws

  /** One object's query during the scan: the closestSoFar it was asked
      with, and its answer. */
  datatype Query = Query(bound: ExtReal, outcome: Outcome)

  /** closestSoFar after a query. */
  function NextBound(q: Query): ExtReal
  {
    if q.outcome.hit then Real(q.outcome.result.t) else q.bound
  }

  /** The queries of the scan, in order. */
  function Scan(objs: seq<Hittable>, ray: Ray, tMin: ExtReal, closest: ExtReal, p: Platform): (s: seq<Query>)
    ensures |s| == |objs|
    ensures forall i :: 0 <= i < |s| ==> s[i].outcome == Hit(objs[i], ray, tMin, s[i].bound, EmptyResult, p)
    ensures |s| > 0 ==> s[0].bound == closest
    ensures forall i :: 0 <= i < |s| - 1 ==> s[i + 1].bound == NextBound(s[i])
    decreases |objs|
  {
    if |objs| == 0 then []
    else
      var q := Query(closest, Hit(objs[0], ray, tMin, closest, EmptyResult, p));
      [q] + Scan(objs[1..], ray, tMin, NextBound(q), p)
  }

  /** The scan succeeds exactly when some object, asked over the whole
      starting range, is hit (or the starting outcome already was a hit). */
  lemma {:induction false} ClosestHitIff(objs: seq<Hittable>, ray: Ray, tMin: ExtReal, closest: ExtReal,
                                         acc: Outcome, p: Platform)
    ensures Closest(objs, ray, tMin, closest, acc, p).hit
            <==> acc.hit || exists i :: 0 <= i < |objs| && Hit(objs[i], ray, tMin, closest, EmptyResult, p).hit
    decreases |objs|
  {
    if |objs| > 0 {
      var o := Hit(objs[0], ray, tMin, closest, EmptyResult, p);
      if o.hit {
        ClosestMissKeepsAcc(objs[1..], ray, tMin, Real(o.result.t), o, p);
      } else {
        ClosestHitIff(objs[1..], ray, tMin, closest, acc, p);
        if exists i :: 0 <= i < |objs| && Hit(objs[i], ray, tMin, closest, EmptyResult, p).hit {
          var i :| 0 <= i < |objs| && Hit(objs[i], ray, tMin, closest, EmptyResult, p).hit;
          assert objs[1..][i - 1] == objs[i];
        }
      }
    }
  }

  /** An object hit during the scan that no later object supersedes. */
  predicate LastHit(s: seq<Query>, i: int)
  {
    0 <= i < |s| && s[i].outcome.hit && forall j :: i < j < |s| ==> !s[j].outcome.hit
  }

  /** When no object is hit during the scan, it ends with its starting outcome. */
  lemma {:induction false} ClosestWithoutHits(objs: seq<Hittable>, ray: Ray, tMin: ExtReal, closest: ExtReal,
                                              acc: Outcome, p: Platform)
    requires forall i :: 0 <= i < |objs| ==> !Scan(objs, ray, tMin, closest, p)[i].outcome.hit
    ensures Closest(objs, ray, tMin, closest, acc, p) == acc
    decreases |objs|
  {
    if |objs| > 0 {
      var s := Scan(objs, ray, tMin, closest, p);
      var rest := Scan(objs[1..], ray, tMin, NextBound(s[0]), p);
      assert s == [s[0]] + rest;
      forall j | 0 <= j < |rest| ensures !rest[j].outcome.hit {
        assert s[j + 1] == rest[j];
      }
      ClosestWithoutHits(objs[1..], ray, tMin, closest, acc, p);
    }
  }

  /** When some object is hit, the scan ends with the answer of the last such object. */
  lemma {:induction false} ClosestIsLastHit(objs: seq<Hittable>, ray: Ray, tMin: ExtReal, closest: ExtReal,
                                            acc: Outcome, p: Platform, i: int)
    requires LastHit(Scan(objs, ray, tMin, closest, p), i)
    ensures Closest(objs, ray, tMin, closest, acc, p) == Scan(objs, ray, tMin, closest, p)[i].outcome
    decreases |objs|
  {
    var s := Scan(objs, ray, tMin, closest, p);
    var rest := Scan(objs[1..], ray, tMin, NextBound(s[0]), p);
    ScanTail(objs, ray, tMin, closest, p);
    var next := if s[0].outcome.hit then s[0].outcome else acc;
    ClosestStep(objs, ray, tMin, closest, acc, p);
    if i > 0 {
      assert LastHit(rest, i - 1);
      ClosestIsLastHit(objs[1..], ray, tMin, NextBound(s[0]), next, p, i - 1);
    } else {
      ClosestWithoutHits(objs[1..], ray, tMin, NextBound(s[0]), next, p);
    }
  }

  /** The scan after the first object is the scan of the remaining objects
      from the first object's closestSoFar. */
  lemma ScanTail(objs: seq<Hittable>, ray: Ray, tMin: ExtReal, closest: ExtReal, p: Platform)
    requires |objs| > 0
    ensures var s := Scan(objs, ray, tMin, closest, p);
            forall j :: 0 <= j < |objs| - 1 ==> s[j + 1] == Scan(objs[1..], ray, tMin, NextBound(s[0]), p)[j]
  {
    var s := Scan(objs, ray, tMin, closest, p);
    assert s == [s[0]] + Scan(objs[1..], ray, tMin, NextBound(s[0]), p);
  }

  /** One step of the closest-hit scan, in terms of the first query. */
  lemma ClosestStep(objs: seq<Hittable>, ray: Ray, tMin: ExtReal, closest: ExtReal, acc: Outcome, p: Platform)
    requires |objs| > 0
    ensures var q := Scan(objs, ray, tMin, closest, p)[0];
            Closest(objs, ray, tMin, closest, acc, p)
            == Closest(objs[1..], ray, tMin, NextBound(q), if q.outcome.hit then q.outcome else acc, p)
  {
  }

  /** For well-formed objects the answer is the nearest of the hits seen
      during the scan. */
  lemma {:induction false} ClosestIsNearest(objs: seq<Hittable>, ray: Ray, tMin: ExtReal, closest: ExtReal,
                                            acc: Outcome, p: Platform)
    requires forall i :: 0 <= i < |objs| ==> WellFormed(objs[i])
    requires PlatformOk(p) && ray.direction != Zero
    ensures forall i :: 0 <= i < |objs| && Scan(objs, ray, tMin, closest, p)[i].outcome.hit ==>
                          && Closest(objs, ray, tMin, closest, acc, p).hit
                          && Closest(objs, ray, tMin, closest, acc, p).result.t
                             <= Scan(objs, ray, tMin, closest, p)[i].outcome.result.t
    decreases |objs|
  {
    if |objs| > 0 {
      var s := Scan(objs, ray, tMin, closest, p);
      var o := s[0].outcome;
      var rest := Scan(objs[1..], ray, tMin, NextBound(s[0]), p);
      assert s == [s[0]] + rest;
      var r := Closest(objs, ray, tMin, closest, acc, p);
      var next := if o.hit then o else acc;
      assert r == Closest(objs[1..], ray, tMin, NextBound(s[0]), next, p);
      ClosestIsNearest(objs[1..], ray, tMin, NextBound(s[0]), next, p);
      if o.hit {
        ClosestWithin(objs[1..], ray, tMin, Real(o.result.t), o, p);
      }
      forall i | 0 <= i < |s| && s[i].outcome.hit
        ensures r.hit && r.result.t <= s[i].outcome.result.t
      {
        if i > 0 {
          assert s[i] == rest[i - 1];
        }
      }
    }
  }

  /** closestSoFar never exceeds its starting value and never grows. */
  lemma {:induction false} ScanBoundsShrink(objs: seq<Hittable>, ray: Ray, tMin: ExtReal, closest: ExtReal,
                                            p: Platform)
    requires forall i :: 0 <= i < |objs| ==> WellFormed(objs[i])
    requires PlatformOk(p) && ray.direction != Zero
    ensures forall i :: 0 <= i < |objs| ==> Le(NextBound(Scan(objs, ray, tMin, closest, p)[i]),
                                               Scan(objs, ray, tMin, closest, p)[i].bound)
    ensures forall i :: 0 <= i < |objs| ==> Le(Scan(objs, ray, tMin, closest, p)[i].bound, closest)
    decreases |objs|
  {
    if |objs| > 0 {
      var s := Scan(objs, ray, tMin, closest, p);
      var rest := Scan(objs[1..], ray, tMin, NextBound(s[0]), p);
      assert s == [s[0]] + rest;
      HitWithin(objs[0], ray, tMin, closest, EmptyResult, p);
      assert Le(NextBound(s[0]), closest);
      ScanBoundsShrink(objs[1..], ray, tMin, NextBound(s[0]), p);
      forall i | 0 <= i < |s|
        ensures Le(NextBound(s[i]), s[i].bound) && Le(s[i].bound, closest)
      {
        if i > 0 {
          assert s[i] == rest[i - 1];
          LeTransitive(s[i].bound, NextBound(s[0]), closest);
        } else {
          assert Le(NextBound(s[0]), s[0].bound);
        }
      }
    }
  }
}
