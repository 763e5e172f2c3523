/** BVHNode: the recursive constructor over a range of a shared array, its
    comparators, and traversal seen as a two-object scene.  The random axis
    draw and the library sort are parameters: `axisOf(start, end)` is the
    axis drawn by the node built over [start, end), and `order(s, axis)` is
    the order Array.Sort leaves `s` in.  About the sort only one thing is
    assumed: it rearranges its input. */
module Bvh {
  import opened Wrappers
  import opened Numerics
  import opened Geometry
  import Aabb
  import opened Hittables
  import opened HitLaws

  /** The exceptions the constructor can end with.  The source overflows the
      stack on an empty list; here that is EmptyList. */
  datatype BuildError = EmptyList | NoBoxToCompare | NoBoxInNode

  /** float.Epsilon, the smallest positive single: 2^-149. */
  const FloatEpsilon: real := 1.0 / 713623846352979940529142984724747568191373312.0

  // ---------------------------------------------------------------------
  // Comparators

  /** The comparison of two minimum coordinates as CompareX/Y/Z write it:
      zero whenever the first is below the second plus epsilon. */
  function CompareAsWritten(a: real, b: real): int
  {
    if a - b < FloatEpsilon then 0 else if a < b then -1 else 1
  }

  /** As written, the comparison never reports "less". */
  lemma CompareAsWrittenNeverLess(a: real, b: real)
    ensures CompareAsWritten(a, b) >= 0
    ensures CompareAsWritten(a, b) == 0 <==> a - b < FloatEpsilon
  {
  }

  /** As written, 0 against 1 compares equal while 1 against 0 compares
      greater, so the comparison is not antisymmetric. */
  lemma CompareAsWrittenNotAntisymmetric()
    ensures CompareAsWritten(0.0, 1.0) == 0 && CompareAsWritten(1.0, 0.0) == 1
  {
  }

  /** The intended comparison: zero only within epsilon, otherwise the sign
      of the difference. */
  function CompareCorrected(a: real, b: real): (c: int)
    ensures c == -1 <==> a - b <= -FloatEpsilon
    ensures c == 1 <==> a - b >= FloatEpsilon
    ensures c == 0 <==> -FloatEpsilon < a - b < FloatEpsilon
  {
    var distance := if a < b then b - a else a - b;
    if distance < FloatEpsilon then 0 else if a < b then -1 else 1
  }

  /** The corrected comparison is antisymmetric, as Array.Sort requires. */
  lemma CompareCorrectedAntisymmetric(a: real, b: real)
    ensures CompareCorrected(a, b) == -CompareCorrected(b, a)
  {
  }

  /** Whether the object defines a bounding box: a sphere and a list do
      not, a rotated object decided when it was built, a translated object
      and a medium have one when their child has. */
  predicate HasBox(h: Hittable)
  {
    match h
    case Sphere(_, _, _) => false
    case List(_) => false
    case RotateY(_, _, _, hasBox, _) => hasBox
    case Translate(obj, _) => HasBox(obj)
    case Medium(boundary, _, _) => HasBox(boundary)
    case _ => true
  }

  /** CompareX/Y/Z on two objects, comparing their minimum corners along
      the axis as the source writes it; an object without a box throws. */
  function Compare(axis: Axis, a: Hittable, b: Hittable): (r: Result<int, BuildError>)
    ensures r.Failure? <==> !HasBox(a) || !HasBox(b)
    ensures r.Failure? ==> r.error == NoBoxToCompare
    ensures r.Success? ==> r.value >= 0
  {
    HasBoxAnyTime(a, 0.0, 0.0, Aabb.EmptyBox);
    HasBoxAnyTime(b, 0.0, 0.0, Aabb.EmptyBox);
    var boxA := BoundingBox(a, 0.0, 0.0, Aabb.EmptyBox);
    var boxB := BoundingBox(b, 0.0, 0.0, Aabb.EmptyBox);
    if !boxA.ok || !boxB.ok then Failure(NoBoxToCompare)
    else
      var ma := Coord(boxA.box.minimum, axis);
      var mb := Coord(boxB.box.minimum, axis);
      CompareAsWrittenNeverLess(ma, mb);
      Success(CompareAsWritten(ma, mb))
  }

  /** Left and right of a two-object node: in place when the comparison
      says "less", swapped otherwise. */
  function PairOrder(c: int, first: Hittable, second: Hittable): (lr: (Hittable, Hittable))
    ensures lr == (first, second) || lr == (second, first)
  {
    if c < 0 then (first, second) else (second, first)
  }

  /** With the comparison as written, a two-object node always swaps its objects. */
  lemma PairOrderAsWrittenSwaps(a: real, b: real, first: Hittable, second: Hittable)
    ensures PairOrder(CompareAsWritten(a, b), first, second) == (second, first)
  {
    CompareAsWrittenNeverLess(a, b);
  }

  /** With the corrected comparison, a two-object node keeps its objects in
      place exactly when the first lies clearly below the second. */
  lemma PairOrderCorrected(a: real, b: real, first: Hittable, second: Hittable)
    requires first != second
    ensures PairOrder(CompareCorrected(a, b), first, second) == (first, second) <==> a - b <= -FloatEpsilon
  {
  }

  // ---------------------------------------------------------------------
  // Boxes of the children

  /** Whether an object has a box does not depend on the times asked or on
      the box the caller passes in. */
  lemma {:induction false} HasBoxAnyTime(h: Hittable, time0: real, time1: real, box: Aabb.AABB)
    ensures BoundingBox(h, time0, time1, box).ok == HasBox(h)
    decreases h
  {
    match h
    case Translate(obj, _) => HasBoxAnyTime(obj, time0, time1, box);
    case Medium(boundary, _, _) => HasBoxAnyTime(boundary, time0, time1, box);
    case _ =>
  }

  function ChildBox(h: Hittable, time0: real, time1: real): Aabb.AABB
  {
    BoundingBox(h, time0, time1, Aabb.EmptyBox).box
  }

  /** An inner node over two children: the box surrounding their boxes. */
  function Node(left: Hittable, right: Hittable, time0: real, time1: real): Hittable
  {
    Bvh(left, right, Aabb.SurroundingBox(ChildBox(left, time0, time1), ChildBox(right, time0, time1)))
  }

  /** The node constructor's last step: the exception when either child
      has no box, otherwise the node over both, whose box holds both
      children's boxes. */
  function NewNode(left: Hittable, right: Hittable, time0: real, time1: real): (r: Result<Hittable, BuildError>)
    ensures r.Failure? <==> !HasBox(left) || !HasBox(right)
    ensures r.Failure? ==> r.error == NoBoxInNode
  {
    HasBoxAnyTime(left, time0, time1, Aabb.EmptyBox);
    HasBoxAnyTime(right, time0, time1, Aabb.EmptyBox);
    var boxLeft := BoundingBox(left, time0, time1, Aabb.EmptyBox);
    var boxRight := BoundingBox(right, time0, time1, Aabb.EmptyBox);
    if !boxLeft.ok || !boxRight.ok then Failure(NoBoxInNode)
    else Success(Bvh(left, right, Aabb.SurroundingBox(boxLeft.box, boxRight.box)))
  }

  /** The size of the left half of a split range: half the span, rounded
      down. */
  function Half(span: nat): (h: nat)
    ensures 2 * h <= span <= 2 * h + 1
  {
    span / 2
  }

  /** The split point of a range of three or more objects: both halves are
      non-empty and smaller, and they differ in size by at most one. */
  function Middle(start: int, end: int): (m: int)
    requires end - start >= 3
    ensures start < m < end && m - start == Half(end - start)
    ensures 0 <= (end - m) - (m - start) <= 1
  {
    start + Half(end - start)
  }

  // ---------------------------------------------------------------------
  // The shape of a built tree

  /** The objects a node built over `span` objects stands for, each as
      often as it occurs below the node. */
  ghost function Objects(h: Hittable, span: nat): multiset<Hittable>
    decreases span
  {
    match h
    case Bvh(left, right, _) =>
      if span == 0 then multiset{}
      else if span == 1 then multiset{left}
      else if span == 2 then multiset{left, right}
      else Objects(left, Half(span)) + Objects(right, span - Half(span))
    case _ => multiset{}
  }

  /** A node as the constructor builds it over `span` objects: a one-object
      node holds the object twice, inner nodes are split at the middle, and
      every box surrounds the boxes of its two children. */
  ghost predicate WellBuilt(h: Hittable, span: nat, time0: real, time1: real)
    decreases span
  {
    && h.Bvh?
    && BoundingBox(h.left, time0, time1, Aabb.EmptyBox).ok && BoundingBox(h.right, time0, time1, Aabb.EmptyBox).ok
    && h.box == Aabb.SurroundingBox(ChildBox(h.left, time0, time1), ChildBox(h.right, time0, time1))
    && (span == 1 ==> h.left == h.right)
    && (span >= 3 ==> WellBuilt(h.left, Half(span), time0, time1) && WellBuilt(h.right, span - Half(span), time0, time1))
  }

  predicate AllBoxed(s: seq<Hittable>)
  {
    forall i :: 0 <= i < |s| ==> HasBox(s[i])
  }

  lemma ContainsTransitive(a: Aabb.AABB, b: Aabb.AABB, c: Aabb.AABB)
    requires Aabb.Contains(a, b) && Aabb.Contains(b, c)
    ensures Aabb.Contains(a, c)
  {
  }

  /** A well-built node stands for `span` objects, each with a box inside
      the node's box. */
  lemma {:induction false} ObjectsInsideBox(h: Hittable, span: nat, time0: real, time1: real)
    requires span > 0 && WellBuilt(h, span, time0, time1)
    ensures forall o :: o in Objects(h, span) ==>
              HasBox(o) && Aabb.Contains(h.box, ChildBox(o, time0, time1))
    decreases span
  {
    HasBoxAnyTime(h.left, time0, time1, Aabb.EmptyBox);
    HasBoxAnyTime(h.right, time0, time1, Aabb.EmptyBox);
    if span >= 3 {
      var l, r := Half(span), span - Half(span);
      ObjectsInsideBox(h.left, l, time0, time1);
      ObjectsInsideBox(h.right, r, time0, time1);
      forall o | o in Objects(h, span)
        ensures Aabb.Contains(h.box, ChildBox(o, time0, time1))
      {
        if o in Objects(h.left, l) {
          ContainsTransitive(h.box, h.left.box, ChildBox(o, time0, time1));
        } else {
          ContainsTransitive(h.box, h.right.box, ChildBox(o, time0, time1));
        }
      }
    }
  }

  /** A node built over `span` objects stands for exactly `span` of them. */
  lemma {:induction false} ObjectCount(h: Hittable, span: nat, time0: real, time1: real)
    requires span > 0 && WellBuilt(h, span, time0, time1)
    ensures |Objects(h, span)| == span
    decreases span
  {
    if span >= 3 {
      var l, r := Half(span), span - Half(span);
      ObjectCount(h.left, l, time0, time1);
      ObjectCount(h.right, r, time0, time1);
      assert Objects(h, span) == Objects(h.left, l) + Objects(h.right, r);
    }
  }

  /** Rearranging objects keeps whether all of them have boxes. */
  lemma BoxedPermutation(s: seq<Hittable>, t: seq<Hittable>)
    requires multiset(s) == multiset(t)
    ensures AllBoxed(s) <==> AllBoxed(t)
  {
    if AllBoxed(s) {
      forall i | 0 <= i < |t| ensures HasBox(t[i]) {
        assert t[i] in multiset(t);
        var j :| 0 <= j < |s| && s[j] == t[i];
      }
    }
    if AllBoxed(t) {
      forall i | 0 <= i < |s| ensures HasBox(s[i]) {
        assert s[i] in multiset(s);
        var j :| 0 <= j < |t| && t[j] == s[i];
      }
    }
  }

  // ---------------------------------------------------------------------
  // Construction

  /** The library sort rearranges whatever it is given. */
  ghost predicate Permutes(order: (seq<Hittable>, Axis) -> seq<Hittable>)
  {
    forall s: seq<Hittable>, axis: Axis {:trigger multiset(order(s, axis))} :: multiset(order(s, axis)) == multiset(s)
  }

  /** The range in the sort's order. */
  function Sorted(range: seq<Hittable>, axis: Axis, order: (seq<Hittable>, Axis) -> seq<Hittable>)
    : (t: seq<Hittable>)
    requires Permutes(order)
    ensures |t| == |range|
  {
    var t := order(range, axis);
    assert |t| == |multiset(t)| == |range|;
    t
  }

  /** The sorted range holds the objects of the range. */
  lemma SortedPermutes(range: seq<Hittable>, axis: Axis, order: (seq<Hittable>, Axis) -> seq<Hittable>)
    requires Permutes(order)
    ensures multiset(Sorted(range, axis, order)) == multiset(range)
  {
    assert multiset(order(range, axis)) == multiset(range);
  }

  /** `node` is a well-built node over `span` objects that stands for
      exactly the objects of `objects`, each as often as it occurs there. */
  ghost predicate Represents(node: Hittable, span: nat, objects: multiset<Hittable>, time0: real, time1: real)
  {
    WellBuilt(node, span, time0, time1) && Objects(node, span) == objects
  }

  /** The one-object constructor: the node holds the object on both sides,
      and throws when the object has no box. */
  lemma SingleNode(obj: Hittable, time0: real, time1: real)
    ensures NewNode(obj, obj, time0, time1).Success? <==> HasBox(obj)
    ensures NewNode(obj, obj, time0, time1).Success? ==>
              Represents(NewNode(obj, obj, time0, time1).value, 1, multiset{obj}, time0, time1)
  {
  }

  /** The two-object constructor: the comparison throws when an object has
      no box, and otherwise decides which object goes left.  Since the
      comparison as written never says "less", the second object always
      goes left and the first right. */
  function PairNode(axis: Axis, first: Hittable, second: Hittable, time0: real, time1: real)
    : (r: Result<Hittable, BuildError>)
    ensures r.Success? <==> HasBox(first) && HasBox(second)
    ensures r.Failure? ==> r.error == NoBoxToCompare
    ensures r.Success? ==> r.value.Bvh?
                           && (r.value.left, r.value.right)
                              == PairOrder(Compare(axis, first, second).value, first, second)
    ensures r.Success? ==> r.value.left == second && r.value.right == first
  {
    var c := Compare(axis, first, second);
    if c.Failure? then Failure(c.error)
    else
      var lr := PairOrder(c.value, first, second);
      NewNode(lr.0, lr.1, time0, time1)
  }

  /** A two-object node holds both objects. */
  lemma PairNodeShape(axis: Axis, first: Hittable, second: Hittable, time0: real, time1: real)
    ensures PairNode(axis, first, second, time0, time1).Success? ==>
              Represents(PairNode(axis, first, second, time0, time1).value, 2, multiset{first, second}, time0, time1)
  {
    HasBoxAnyTime(first, time0, time1, Aabb.EmptyBox);
    HasBoxAnyTime(second, time0, time1, Aabb.EmptyBox);
  }

  lemma MultisetSplit(s: seq<Hittable>, at: int)
    requires 0 <= at <= |s|
    ensures multiset(s[..at]) + multiset(s[at..]) == multiset(s)
  {
    assert s == s[..at] + s[at..];
  }

  /** An inner node over two well-built halves is well built, and stands
      for the objects of both halves. */
  lemma SplitResult(left: Hittable, right: Hittable, leftSpan: nat, rightSpan: nat, span: nat,
                    time0: real, time1: real, leftObjects: multiset<Hittable>, rightObjects: multiset<Hittable>,
                    objects: multiset<Hittable>, node: Result<Hittable, BuildError>)
    requires span == leftSpan + rightSpan && span >= 3 && leftSpan == Half(span)
    requires Represents(left, leftSpan, leftObjects, time0, time1)
    requires Represents(right, rightSpan, rightObjects, time0, time1)
    requires leftObjects + rightObjects == objects
    requires node == NewNode(left, right, time0, time1)
    ensures node.Success? && Represents(node.value, span, objects, time0, time1)
  {
    HasBoxAnyTime(left, time0, time1, Aabb.EmptyBox);
    HasBoxAnyTime(right, time0, time1, Aabb.EmptyBox);
    assert node == Success(Node(left, right, time0, time1));
  }

  /** Both halves of a sequence whose objects all have boxes consist of
      objects with boxes. */
  lemma BoxedSlices(s: seq<Hittable>, at: int)
    requires 0 <= at <= |s|
    ensures AllBoxed(s) ==> AllBoxed(s[..at]) && AllBoxed(s[at..])
  {
    if AllBoxed(s) {
      forall i | 0 <= i < |s| - at ensures HasBox(s[at..][i]) {
        assert s[at..][i] == s[i + at];
      }
    }
  }

  /** Array.Sort on the copy of the range: it throws, leaving the copy as
      it was, when some object has no box (the comparator is applied to
      every object of a range of two or more); otherwise the copy ends up in
      the sort's order. */
  method SortRange(a: array<Hittable>, axis: Axis, order: (seq<Hittable>, Axis) -> seq<Hittable>)
    returns (ok: bool)
    requires Permutes(order)
    modifies a
    ensures ok <==> AllBoxed(old(a[..]))
    ensures !ok ==> a[..] == old(a[..])
    ensures ok ==> a[..] == Sorted(old(a[..]), axis, order)
  {
    if !AllBoxed(a[..]) {
      return false;
    }
    var sorted := Sorted(a[..], axis, order);
    forall i | 0 <= i < a.Length {
      a[i] := sorted[i];
    }
    ok := true;
  }

  /** Array.Copy of a whole array into `dest` at `at`. */
  method CopyInto(src: array<Hittable>, dest: array<Hittable>, at: int)
    requires src != dest && 0 <= at && at + src.Length <= dest.Length
    modifies dest
    ensures dest[..] == old(dest[..at]) + src[..] + old(dest[at + src.Length..])
  {
    forall i | 0 <= i < src.Length {
      dest[at + i] := src[i];
    }
    assert dest[..] == old(dest[..at]) + src[..] + old(dest[at + src.Length..]);
  }

  /** The constructor's sort of its range: a copy of the range is sorted
      and, when the sort does not throw, copied back.  The array changes
      only inside the range, and only when every object there has a box. */
  method SortSpan(objects: array<Hittable>, start: int, end: int, axis: Axis,
                  order: (seq<Hittable>, Axis) -> seq<Hittable>)
    returns (ok: bool)
    requires 0 <= start < end <= objects.Length
    requires Permutes(order)
    modifies objects
    ensures ok <==> AllBoxed(old(objects[start..end]))
    ensures !ok ==> objects[..] == old(objects[..])
    ensures ok ==> objects[..start] == old(objects[..start]) && objects[end..] == old(objects[end..])
    ensures ok ==> objects[start..end] == Sorted(old(objects[start..end]), axis, order)
  {
    var length := end - start;
    var subArray := new Hittable[length](i requires 0 <= i < length reads objects => objects[start + i]);
    assert subArray[..] == objects[start..end];
    ok := SortRange(subArray, axis, order);
    if ok {
      CopyInto(subArray, objects, start);
      Spliced(objects[..], old(objects[..start]), subArray[..], old(objects[end..]));
    }
  }

  lemma Spliced(a: seq<Hittable>, prefix: seq<Hittable>, middle: seq<Hittable>, suffix: seq<Hittable>)
    requires a == prefix + middle + suffix
    ensures a[..|prefix|] == prefix && a[|prefix|..|prefix| + |middle|] == middle
    ensures a[|prefix| + |middle|..] == suffix
  {
  }

  /** The tree the private constructor builds over `range`, the objects
      of objects[start..start + |range|): one object is held twice, two
      are ordered by the comparison, and three or more are sorted along
      the drawn axis and split at the middle.  An exception of a child
      constructor propagates. */
  function Construct(range: seq<Hittable>, start: int, time0: real, time1: real,
                     axisOf: (int, int) -> Axis, order: (seq<Hittable>, Axis) -> seq<Hittable>)
    : Result<Hittable, BuildError>
    requires |range| > 0 && Permutes(order)
    decreases |range|
  {
    var axis := axisOf(start, start + |range|);
    if |range| == 1 then NewNode(range[0], range[0], time0, time1)
    else if |range| == 2 then PairNode(axis, range[0], range[1], time0, time1)
    else if !AllBoxed(range) then Failure(NoBoxToCompare)
    else
      var sorted := Sorted(range, axis, order);
      var half := Half(|range|);
      var left := Construct(sorted[..half], start, time0, time1, axisOf, order);
      if left.Failure? then left
      else
        var right := Construct(sorted[half..], start + half, time0, time1, axisOf, order);
        if right.Failure? then right
        else NewNode(left.value, right.value, time0, time1)
  }

  /** The range as the private constructor leaves it: three or more
      objects with boxes are sorted, and then each half is arranged by the
      constructor of that half; otherwise the range stays as it was. */
  function Rearrange(range: seq<Hittable>, start: int, axisOf: (int, int) -> Axis,
                     order: (seq<Hittable>, Axis) -> seq<Hittable>): seq<Hittable>
    requires Permutes(order)
    decreases |range|
  {
    if |range| <= 2 || !AllBoxed(range) then range
    else
      var sorted := Sorted(range, axisOf(start, start + |range|), order);
      var half := Half(|range|);
      Rearrange(sorted[..half], start, axisOf, order) + Rearrange(sorted[half..], start + half, axisOf, order)
  }

  /** The result of the constructor over `range`, and the range as it
      leaves it.  The contracts below speak of these two names rather than
      of the recursive definitions, so that each proof looks a single level
      into the recursion. */
  function Build(range: seq<Hittable>, start: int, time0: real, time1: real,
                 axisOf: (int, int) -> Axis, order: (seq<Hittable>, Axis) -> seq<Hittable>)
    : Result<Hittable, BuildError>
    requires |range| > 0 && Permutes(order)
  {
    Construct(range, start, time0, time1, axisOf, order)
  }

  function Arranged(range: seq<Hittable>, start: int, axisOf: (int, int) -> Axis,
                    order: (seq<Hittable>, Axis) -> seq<Hittable>): seq<Hittable>
    requires Permutes(order)
  {
    Rearrange(range, start, axisOf, order)
  }

  /** The constructor throws exactly when some object of the range has no
      box: one object fails the node's box check, two or more fail the
      comparison. */
  lemma {:induction false} BuildSucceeds(range: seq<Hittable>, start: int, time0: real, time1: real,
                                         axisOf: (int, int) -> Axis, order: (seq<Hittable>, Axis) -> seq<Hittable>)
    requires |range| > 0 && Permutes(order)
    ensures Build(range, start, time0, time1, axisOf, order).Success? <==> AllBoxed(range)
    ensures Build(range, start, time0, time1, axisOf, order).Failure? ==>
              Build(range, start, time0, time1, axisOf, order).error
              == if |range| == 1 then NoBoxInNode else NoBoxToCompare
    ensures Build(range, start, time0, time1, axisOf, order).Success? ==>
              Build(range, start, time0, time1, axisOf, order).value.Bvh?
    decreases |range|
  {
    if |range| == 1 {
      assert range == [range[0]];
    } else if |range| == 2 {
      assert range == [range[0], range[1]];
    } else if AllBoxed(range) {
      var axis := axisOf(start, start + |range|);
      var sorted := Sorted(range, axis, order);
      var half := Half(|range|);
      BoxedHalves(range, sorted, half, axis, order);
      BuildSucceeds(sorted[..half], start, time0, time1, axisOf, order);
      BuildSucceeds(sorted[half..], start + half, time0, time1, axisOf, order);
    }
  }

  /** The sorted range is made of boxed objects when the range is, and so
      are its two halves. */
  lemma BoxedHalves(range: seq<Hittable>, sorted: seq<Hittable>, half: int, axis: Axis,
                    order: (seq<Hittable>, Axis) -> seq<Hittable>)
    requires Permutes(order) && sorted == Sorted(range, axis, order) && 0 <= half <= |range|
    requires AllBoxed(range)
    ensures AllBoxed(sorted[..half]) && AllBoxed(sorted[half..])
    ensures multiset(sorted[..half]) + multiset(sorted[half..]) == multiset(range)
  {
    SortedPermutes(range, axis, order);
    BoxedPermutation(sorted, range);
    BoxedSlices(sorted, half);
    MultisetSplit(sorted, half);
  }

  /** A node the constructor builds is well built and stands for exactly
      the objects of the range. */
  lemma {:induction false} BuildShape(range: seq<Hittable>, start: int, time0: real, time1: real,
                                      axisOf: (int, int) -> Axis, order: (seq<Hittable>, Axis) -> seq<Hittable>)
    requires |range| > 0 && Permutes(order) && AllBoxed(range)
    ensures Build(range, start, time0, time1, axisOf, order).Success?
    ensures Represents(Build(range, start, time0, time1, axisOf, order).value, |range|, multiset(range), time0, time1)
    decreases |range|
  {
    var axis := axisOf(start, start + |range|);
    if |range| == 1 {
      SmallMultiset(range);
      SingleNode(range[0], time0, time1);
    } else if |range| == 2 {
      SmallMultiset(range);
      PairNodeShape(axis, range[0], range[1], time0, time1);
    } else {
      var sorted := Sorted(range, axis, order);
      var half := Half(|range|);
      BoxedHalves(range, sorted, half, axis, order);
      BuildShape(sorted[..half], start, time0, time1, axisOf, order);
      BuildShape(sorted[half..], start + half, time0, time1, axisOf, order);
      ShapeOfHalves(range, start, time0, time1, axisOf, order, sorted, half);
    }
  }

  /** The objects of a range of one or two. */
  lemma SmallMultiset(range: seq<Hittable>)
    requires 1 <= |range| <= 2
    ensures |range| == 1 ==> multiset(range) == multiset{range[0]}
    ensures |range| == 2 ==> multiset(range) == multiset{range[0], range[1]}
  {
    if |range| == 1 {
      assert range == [range[0]];
    } else {
      assert range == [range[0], range[1]];
    }
  }

  /** The step of BuildShape over three or more objects: two halves that
      are built and represent their objects make a node that represents
      the whole range. */
  lemma ShapeOfHalves(range: seq<Hittable>, start: int, time0: real, time1: real,
                      axisOf: (int, int) -> Axis, order: (seq<Hittable>, Axis) -> seq<Hittable>,
                      sorted: seq<Hittable>, half: int)
    requires |range| >= 3 && Permutes(order) && AllBoxed(range)
    requires sorted == Sorted(range, axisOf(start, start + |range|), order) && half == Half(|range|)
    requires multiset(sorted[..half]) + multiset(sorted[half..]) == multiset(range)
    requires Build(sorted[..half], start, time0, time1, axisOf, order).Success?
    requires Build(sorted[half..], start + half, time0, time1, axisOf, order).Success?
    requires Represents(Build(sorted[..half], start, time0, time1, axisOf, order).value, |sorted[..half]|,
                        multiset(sorted[..half]), time0, time1)
    requires Represents(Build(sorted[half..], start + half, time0, time1, axisOf, order).value, |sorted[half..]|,
                        multiset(sorted[half..]), time0, time1)
    ensures Build(range, start, time0, time1, axisOf, order).Success?
    ensures Represents(Build(range, start, time0, time1, axisOf, order).value, |range|, multiset(range), time0, time1)
  {
    var left := Build(sorted[..half], start, time0, time1, axisOf, order);
    var right := Build(sorted[half..], start + half, time0, time1, axisOf, order);
    BuildOfHalves(range, start, time0, time1, axisOf, order, sorted, half);
    SplitResult(left.value, right.value, |sorted[..half]|, |sorted[half..]|, |range|, time0, time1,
                multiset(sorted[..half]), multiset(sorted[half..]), multiset(range),
                NewNode(left.value, right.value, time0, time1));
  }

  /** Over three or more objects with boxes, once both halves are built,
      the constructor's node is the node over the halves' nodes. */
  lemma BuildOfHalves(range: seq<Hittable>, start: int, time0: real, time1: real,
                      axisOf: (int, int) -> Axis, order: (seq<Hittable>, Axis) -> seq<Hittable>,
                      sorted: seq<Hittable>, half: int)
    requires |range| >= 3 && Permutes(order) && AllBoxed(range)
    requires sorted == Sorted(range, axisOf(start, start + |range|), order) && half == Half(|range|)
    requires Build(sorted[..half], start, time0, time1, axisOf, order).Success?
    requires Build(sorted[half..], start + half, time0, time1, axisOf, order).Success?
    ensures Build(range, start, time0, time1, axisOf, order)
            == NewNode(Build(sorted[..half], start, time0, time1, axisOf, order).value,
                       Build(sorted[half..], start + half, time0, time1, axisOf, order).value, time0, time1)
  {
  }

  /** The constructor only rearranges its range, and leaves it alone when
      it throws. */
  lemma {:induction false} ArrangedPermutes(range: seq<Hittable>, start: int, axisOf: (int, int) -> Axis,
                                            order: (seq<Hittable>, Axis) -> seq<Hittable>)
    requires Permutes(order)
    ensures multiset(Arranged(range, start, axisOf, order)) == multiset(range)
    ensures |Arranged(range, start, axisOf, order)| == |range|
    ensures !AllBoxed(range) ==> Arranged(range, start, axisOf, order) == range
    decreases |range|
  {
    if |range| > 2 && AllBoxed(range) {
      var sorted := Sorted(range, axisOf(start, start + |range|), order);
      var half := Half(|range|);
      SortedPermutes(range, axisOf(start, start + |range|), order);
      ArrangedPermutes(sorted[..half], start, axisOf, order);
      ArrangedPermutes(sorted[half..], start + half, axisOf, order);
      JoinedPermutation(Arranged(sorted[..half], start, axisOf, order),
                        Arranged(sorted[half..], start + half, axisOf, order), sorted, range, half);
    }
  }

  /** Rearrangements of the two halves of a rearranged range, put side by
      side, rearrange the range. */
  lemma JoinedPermutation(left: seq<Hittable>, right: seq<Hittable>, s: seq<Hittable>, range: seq<Hittable>,
                          at: int)
    requires 0 <= at <= |s|
    requires multiset(left) == multiset(s[..at]) && multiset(right) == multiset(s[at..])
    requires multiset(s) == multiset(range)
    ensures multiset(left + right) == multiset(range)
  {
    MultisetSplit(s, at);
  }

  /** The private constructor over objects[start..end): its node, and its
      rearrangement of the range, are those of Build and Arranged; the
      array outside the range is left alone. */
  method BuildNode(objects: array<Hittable>, start: int, end: int, time0: real, time1: real,
                   axisOf: (int, int) -> Axis, order: (seq<Hittable>, Axis) -> seq<Hittable>)
    returns (r: Result<Hittable, BuildError>)
    requires 0 <= start < end <= objects.Length
    requires Permutes(order)
    modifies objects
    ensures r == Build(old(objects[start..end]), start, time0, time1, axisOf, order)
    ensures objects[start..end] == Arranged(old(objects[start..end]), start, axisOf, order)
    ensures objects[..start] == old(objects[..start]) && objects[end..] == old(objects[end..])
    decreases end - start, 1
  {
    var axis := axisOf(start, end);
    if end - start == 1 {
      r := NewNode(objects[start], objects[start], time0, time1);
    } else if end - start == 2 {
      r := PairNode(axis, objects[start], objects[start + 1], time0, time1);
    } else {
      r := BuildSplit(objects, start, end, axis, time0, time1, axisOf, order);
    }
  }

  /** The constructor over three or more objects: sort the range, then
      build a node over each half and the node over both. */
  method BuildSplit(objects: array<Hittable>, start: int, end: int, axis: Axis, time0: real, time1: real,
                    axisOf: (int, int) -> Axis, order: (seq<Hittable>, Axis) -> seq<Hittable>)
    returns (r: Result<Hittable, BuildError>)
    requires 0 <= start && end - start >= 3 && end <= objects.Length
    requires Permutes(order) && axis == axisOf(start, end)
    modifies objects
    ensures r == Build(old(objects[start..end]), start, time0, time1, axisOf, order)
    ensures objects[start..end] == Arranged(old(objects[start..end]), start, axisOf, order)
    ensures objects[..start] == old(objects[..start]) && objects[end..] == old(objects[end..])
    decreases end - start, 0
  {
    ghost var range := objects[start..end];
    var sortedOk := SortSpan(objects, start, end, axis, order);
    if !sortedOk {
      return Failure(NoBoxToCompare);
    }
    ghost var sorted := objects[..];
    var middle := Middle(start, end);
    SortedHalves(sorted, start, middle, end, range, time0, time1, axisOf, order);
    var left := BuildNode(objects, start, middle, time0, time1, axisOf, order);
    ghost var afterLeft := objects[..];
    var right := BuildNode(objects, middle, end, time0, time1, axisOf, order);
    Assemble(sorted, afterLeft, objects[..], start, middle, end);
    SplitNode(sorted, start, middle, end, range, time0, time1, axisOf, order);
    SplitArranged(sorted, start, middle, end, range, axisOf, order);
    r := NewNode(left.value, right.value, time0, time1);
  }

  /** After the sort: both halves of the sorted range consist of objects
      with boxes, so the constructor of each half succeeds. */
  lemma SortedHalves(s: seq<Hittable>, start: int, middle: int, end: int, range: seq<Hittable>,
                     time0: real, time1: real, axisOf: (int, int) -> Axis, order: (seq<Hittable>, Axis) -> seq<Hittable>)
    requires 0 <= start < middle < end <= |s| && end - start == |range| && middle - start == Half(|range|)
    requires Permutes(order) && AllBoxed(range)
    requires s[start..end] == Sorted(range, axisOf(start, end), order)
    ensures s[start..middle] == s[start..end][..middle - start]
    ensures s[middle..end] == s[start..end][middle - start..]
    ensures Build(s[start..middle], start, time0, time1, axisOf, order).Success?
    ensures Build(s[middle..end], middle, time0, time1, axisOf, order).Success?
  {
    var sorted := s[start..end];
    SortedPermutes(range, axisOf(start, end), order);
    assert s[start..middle] == sorted[..middle - start];
    assert s[middle..end] == sorted[middle - start..];
    BoxedPermutation(sorted, range);
    BoxedSlices(sorted, middle - start);
    BuildSucceeds(s[start..middle], start, time0, time1, axisOf, order);
    BuildSucceeds(s[middle..end], middle, time0, time1, axisOf, order);
  }

  /** The two halves of a slice are the halves of the sequence it holds. */
  lemma Halves(s: seq<Hittable>, start: int, middle: int, end: int, sorted: seq<Hittable>)
    requires 0 <= start <= middle <= end <= |s| && s[start..end] == sorted
    ensures s[start..middle] == sorted[..middle - start] && s[middle..end] == sorted[middle - start..]
  {
  }

  /** After the sort, the constructor's node is the node over the two
      halves' nodes. */
  lemma SplitNode(s: seq<Hittable>, start: int, middle: int, end: int, range: seq<Hittable>,
                  time0: real, time1: real, axisOf: (int, int) -> Axis, order: (seq<Hittable>, Axis) -> seq<Hittable>)
    requires 0 <= start < middle < end <= |s| && end - start == |range| >= 3 && middle - start == Half(|range|)
    requires Permutes(order) && AllBoxed(range)
    requires s[start..end] == Sorted(range, axisOf(start, end), order)
    requires Build(s[start..middle], start, time0, time1, axisOf, order).Success?
    requires Build(s[middle..end], middle, time0, time1, axisOf, order).Success?
    ensures Build(range, start, time0, time1, axisOf, order)
            == NewNode(Build(s[start..middle], start, time0, time1, axisOf, order).value,
                       Build(s[middle..end], middle, time0, time1, axisOf, order).value, time0, time1)
  {
    var sorted := Sorted(range, axisOf(start, start + |range|), order);
    var half := Half(|range|);
    Halves(s, start, middle, end, sorted);
    BuildOfHalves(range, start, time0, time1, axisOf, order, sorted, half);
  }

  /** After the sort, the constructor's rearrangement is that of the two
      halves. */
  lemma SplitArranged(s: seq<Hittable>, start: int, middle: int, end: int, range: seq<Hittable>,
                      axisOf: (int, int) -> Axis, order: (seq<Hittable>, Axis) -> seq<Hittable>)
    requires 0 <= start < middle < end <= |s| && end - start == |range| >= 3 && middle - start == Half(|range|)
    requires Permutes(order) && AllBoxed(range)
    requires s[start..end] == Sorted(range, axisOf(start, end), order)
    ensures Arranged(range, start, axisOf, order)
            == Arranged(s[start..middle], start, axisOf, order) + Arranged(s[middle..end], middle, axisOf, order)
  {
    var sorted := Sorted(range, axisOf(start, start + |range|), order);
    var half := Half(|range|);
    Halves(s, start, middle, end, sorted);
  }

  /** The array after both halves are built: outside the range as after
      the sort, the right half as the sort left it until its own
      constructor ran, and the range the two arranged halves. */
  lemma Assemble(sorted: seq<Hittable>, afterLeft: seq<Hittable>, after: seq<Hittable>,
                 start: int, middle: int, end: int)
    requires 0 <= start < middle < end <= |sorted|
    requires |afterLeft| == |sorted| && |after| == |sorted|
    requires afterLeft[..start] == sorted[..start] && afterLeft[middle..] == sorted[middle..]
    requires after[..middle] == afterLeft[..middle] && after[end..] == afterLeft[end..]
    ensures afterLeft[middle..end] == sorted[middle..end]
    ensures after[..start] == sorted[..start] && after[end..] == sorted[end..]
    ensures after[start..end] == afterLeft[start..middle] + after[middle..end]
  {
    assert after[..start] == after[..middle][..start];
    assert afterLeft[..start] == afterLeft[..middle][..start];
    assert after[start..middle] == after[..middle][start..];
    assert afterLeft[start..middle] == afterLeft[..middle][start..];
    assert afterLeft[middle..end] == afterLeft[middle..][..end - middle];
    assert sorted[middle..end] == sorted[middle..][..end - middle];
    assert afterLeft[end..] == afterLeft[middle..][end - middle..];
    assert sorted[end..] == sorted[middle..][end - middle..];
    assert after[start..end] == after[start..middle] + after[middle..end];
  }

  /** BVHNode.Root: the constructor over a private copy of the whole list.
      It throws exactly when some object has no box, and otherwise the
      tree holds every object of the list, once per occurrence. */
  method Root(objects: seq<Hittable>, time0: real, time1: real,
              axisOf: (int, int) -> Axis, order: (seq<Hittable>, Axis) -> seq<Hittable>)
    returns (r: Result<Hittable, BuildError>)
    requires Permutes(order)
    ensures |objects| == 0 ==> r == Failure(EmptyList)
    ensures |objects| > 0 ==> (r.Success? <==> AllBoxed(objects))
    ensures |objects| > 0 && r.Failure? ==> r.error == if |objects| == 1 then NoBoxInNode else NoBoxToCompare
    ensures r.Success? ==> Represents(r.value, |objects|, multiset(objects), time0, time1)
  {
    if |objects| == 0 {
      return Failure(EmptyList);
    }
    var a := new Hittable[|objects|](i requires 0 <= i < |objects| => objects[i]);
    assert a[..] == objects && a[0..a.Length] == objects;
    r := BuildNode(a, 0, a.Length, time0, time1, axisOf, order);
    BuildSucceeds(objects, 0, time0, time1, axisOf, order);
    if AllBoxed(objects) {
      BuildShape(objects, 0, time0, time1, axisOf, order);
    }
  }

  // ---------------------------------------------------------------------
  // Traversal

  /** Outside its box a node misses and leaves the record alone; inside it
      answers like a scene of its two children: hit exactly when the scene
      is, at the same place. */
  lemma BvhAsPair(left: Hittable, right: Hittable, box: Aabb.AABB, ray: Ray, tMin: ExtReal, tMax: ExtReal,
                  result: HitResult, p: Platform)
    ensures !Aabb.BoxHit(box, ray, tMin, tMax) ==> Hit(Bvh(left, right, box), ray, tMin, tMax, result, p)
                                                    == Outcome(false, result)
    ensures Aabb.BoxHit(box, ray, tMin, tMax) ==>
              Hit(Bvh(left, right, box), ray, tMin, tMax, result, p).hit
              == SceneHit([left, right], ray, tMin, tMax, result, p).hit
    ensures Aabb.BoxHit(box, ray, tMin, tMax) && Hit(Bvh(left, right, box), ray, tMin, tMax, result, p).hit ==>
              AgreeBesidesUV(Hit(Bvh(left, right, box), ray, tMin, tMax, result, p).result,
                             SceneHit([left, right], ray, tMin, tMax, result, p).result)
    ensures Aabb.BoxHit(box, ray, tMin, tMax) && !Hit(Bvh(left, right, box), ray, tMin, tMax, result, p).hit ==>
              Hit(Bvh(left, right, box), ray, tMin, tMax, result, p).result == result
              && SceneHit([left, right], ray, tMin, tMax, result, p).result == result
  {
    var l := Hit(left, ray, tMin, tMax, result, p);
    var bound := if l.hit then Real(l.result.t) else tMax;
    var r := Hit(right, ray, tMin, bound, l.result, p);
    PairAnswer(left, right, ray, tMin, tMax, result, p, l, r);
  }

  /** BvhAsPair once the children's answers inside the node are known. */
  lemma PairAnswer(left: Hittable, right: Hittable, ray: Ray, tMin: ExtReal, tMax: ExtReal,
                   result: HitResult, p: Platform, l: Outcome, r: Outcome)
    requires l == Hit(left, ray, tMin, tMax, result, p)
    requires r == Hit(right, ray, tMin, if l.hit then Real(l.result.t) else tMax, l.result, p)
    ensures (l.hit || r.hit) == SceneHit([left, right], ray, tMin, tMax, result, p).hit
    ensures (l.hit || r.hit) ==> AgreeBesidesUV(r.result, SceneHit([left, right], ray, tMin, tMax, result, p).result)
    ensures !(l.hit || r.hit) ==> r.result == result && SceneHit([left, right], ray, tMin, tMax, result, p).result == result
  {
    var bound := if l.hit then Real(l.result.t) else tMax;
    var fl := Hit(left, ray, tMin, tMax, EmptyResult, p);
    var fr := Hit(right, ray, tMin, bound, EmptyResult, p);
    HitIgnoresRecord(left, ray, tMin, tMax, result, EmptyResult, p);
    HitIgnoresRecord(right, ray, tMin, bound, l.result, EmptyResult, p);
    MissKeepsResult(left, ray, tMin, tMax, result, p);
    MissKeepsResult(right, ray, tMin, bound, l.result, p);
    SceneOfTwo(left, right, ray, tMin, tMax, result, p);
  }

  /** The scene scan over two objects, written out: the second object's hit
      if it has one, else the first's, else the caller's record. */
  lemma SceneOfTwo(left: Hittable, right: Hittable, ray: Ray, tMin: ExtReal, tMax: ExtReal,
                   result: HitResult, p: Platform)
    ensures var fl := Hit(left, ray, tMin, tMax, EmptyResult, p);
            var fr := Hit(right, ray, tMin, if fl.hit then Real(fl.result.t) else tMax, EmptyResult, p);
            SceneHit([left, right], ray, tMin, tMax, result, p)
            == if fr.hit then fr else if fl.hit then fl else Outcome(false, result)
  {
    var fl := Hit(left, ray, tMin, tMax, EmptyResult, p);
    var bound := if fl.hit then Real(fl.result.t) else tMax;
    assert [left, right][1..] == [right];
    ClosestOfOne(right, ray, tMin, bound, if fl.hit then fl else Outcome(false, result), p);
  }

  /** The scan over one object: its hit, or the outcome so far. */
  lemma ClosestOfOne(h: Hittable, ray: Ray, tMin: ExtReal, closest: ExtReal, acc: Outcome, p: Platform)
    ensures var o := Hit(h, ray, tMin, closest, EmptyResult, p);
            Closest([h], ray, tMin, closest, acc, p) == if o.hit then o else acc
  {
    assert [h][1..] == [];
  }
}
