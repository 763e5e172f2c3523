# A verified model of the Weekend Ray Tracer's geometric core

This project models the geometric core of the C# "Ray Tracing in One Weekend" renderer (wknd-ray-tracer) in Dafny and proves properties of it:

- **Axis-aligned boxes.** This covers the box union and the three-slab ray test.
- **The bounding volume hierarchy (BVHNode).**
  - Its recursive constructor works over a range of a shared array. It sorts the range in a copy and copies it back, splits it at the midpoint and builds a box around both children.
  - Its traversal cuts the right child's search down to the left child's hit.
- **The closest-hit scans.** `Scene` keeps an array snapshot and uses the by-reference interface. `HittableList` uses the older record-or-null interface.
- **The primitives.** These are the three axis-aligned rectangles, the sphere, the moving sphere and the six-faced box.
- **The three wrappers.** These are `Translate`, `RotateY` (with its eight-corner box loop) and the constant-density medium.
- **Perlin's permutation tables.** This covers the Fisher–Yates shuffle over an `int` array and the `& 255` / XOR indexing of `GetNoise`.

## How the model is built

- **Coordinates** are Dafny `real`s. Infinite bounds of a query (`float.NegativeInfinity`, `float.PositiveInfinity`) are an `ExtReal`.
- **Every object is a value of one closed datatype, `Hittables.Hittable`.** `Hittables.Hit` gives the by-reference contract: it takes the caller's record and returns the `bool` together with the record the object leaves behind. `Hittables.HitRecord` is the older record-or-null view of the same query, started from a fresh record. `Hittables.BoundingBox` likewise returns the `bool` and the box left in the `ref` argument. A sphere and a list, which define no box, leave the caller's box alone.
- **The square root is a parameter** (`Numerics.Platform`), and so is the logarithm of the medium's uniform draw.
- **`RotateY` takes its sine and cosine directly.** The laws that need a real rotation assume `sin² + cos² = 1`.
- **The BVH's random axis choice and the library sort are parameters.** `axisOf(start, end)` is the axis drawn by the node over `[start, end)`. `order(s, axis)` is the order `Array.Sort` leaves `s` in. The only thing assumed about the sort is that it rearranges its input.
- **Perlin's `rand.Next(0, i + 1)` draws are a sequence `targets` with `0 <= targets[i] <= i`.**
- **The imperative parts stay imperative**, and each is proved equal to a pure definition whose properties are lemmas:
  - `Scene` and `HittableList` are classes over a `seq` and an array snapshot.
  - The BVH constructor works on an `array<Hittable>` and is proved against `Bvh.Build` / `Bvh.Arranged`.
  - The slab test keeps its axis-by-axis structure: three unrolled X, Y and Z blocks.
  - The eight-corner loop of RotateY is a method.
  - `Permute` swaps in place in a descending loop and is proved against `Perlin.Shuffle`.
  - `GetNoise` fills a 2×2×2 array.

The shown interface files declare hit queries that return a record. Every core implementation instead has the form `bool Hit(ref HitResult result, in Ray ray, float tMin, float tMax)`; `Sphere` and `HittableList` return a record or null. The model follows the implementations.

## Model

| member | source | states |
|---|---|---|
| Geometry.FaceNormal | WeekendRayTracer/Models/HitRecord.cs:13-17 | front face iff the direction has negative dot product with the outward normal; the stored normal is the outward normal or its negation, the outward one on the front face, and never has positive dot product with the direction |
| Aabb.SurroundingBox | WeekendRayTracer/Models/AABB.cs:17-30 | the union box contains both input boxes |
| Aabb.SurroundingBoxIsLeast | WeekendRayTracer/Models/AABB.cs:17-30 | any box containing both inputs contains their union, so the union is the smallest such box |
| Aabb.SurroundingBoxCommutes | WeekendRayTracer/Models/AABB.cs:19-27 | the union does not depend on argument order |
| Aabb.SurroundingBoxIdempotent | WeekendRayTracer/Models/AABB.cs:19-27 | the union of a box with itself is that box |
| Aabb.SurroundingBoxAssociates | WeekendRayTracer/Models/AABB.cs:17-30 | unions can be regrouped, so a tree of unions is the union of its leaves |
| Aabb.BoundingBox | WeekendRayTracer/Models/AABB.cs:32-36 | always succeeds and hands back a box equal to the receiver |
| Aabb.SlabTimesOrdered | WeekendRayTracer/Models/AABB.cs:41-50 | after the swap on a negative inverse direction, entry ≤ exit for a slab with min ≤ max |
| Aabb.SlabBracket | WeekendRayTracer/Models/AABB.cs:41-50 | a parameter lies strictly between the slab's entry and exit iff the ray point lies strictly inside the slab |
| Aabb.Narrow | WeekendRayTracer/Models/AABB.cs:52-53 | the working tMin never decreases and tMax never increases |
| Aabb.NarrowKeeps | WeekendRayTracer/Models/AABB.cs:52-53 | a parameter in the working interval whose ray point is strictly inside the slab survives the narrowing, so the interval stays non-empty |
| Aabb.NarrowConfines | WeekendRayTracer/Models/AABB.cs:52-53 | a parameter strictly inside the narrowed interval puts the ray point inside the slab |
| Aabb.AxisStep | WeekendRayTracer/Models/AABB.cs:52-58 | a parameter strictly inside the narrowed interval was strictly inside the previous interval and puts the ray inside this slab |
| Aabb.SlabInterval | WeekendRayTracer/Models/AABB.cs:55-101 | a surviving interval is non-empty and lies within the queried [tMin, tMax]; an emptied one ends the test |
| Aabb.NarrowAxis | WeekendRayTracer/Models/AABB.cs:41-53 | one axis as written (the two parameters, the swap through a temporary, the two conditional updates) computes the narrowing above |
| Aabb.Hit | WeekendRayTracer/Models/AABB.cs:38-102 | the method returns the slab test's verdict and gives the caller's record back unchanged |
| Aabb.InsideTwoSlabs | WeekendRayTracer/Models/AABB.cs:38-78 | a parameter strictly inside the interval left by X and Y puts the ray inside both slabs |
| Aabb.InsideAllSlabs | WeekendRayTracer/Models/AABB.cs:38-98 | a parameter strictly inside the final interval was in the queried range and puts the ray point inside the box |
| Aabb.BoxHitComplete | WeekendRayTracer/Models/AABB.cs:38-102 | if the ray is strictly inside the box at some t with tMin ≤ t < tMax, the test reports a hit |
| Aabb.BoxHitSound | WeekendRayTracer/Models/AABB.cs:38-102 | a reported hit has a parameter strictly inside (tMin, tMax) at which the ray point lies in the box |
| Aabb.InsideOriginHits | WeekendRayTracer/Models/AABB.cs:38-102 | a ray whose origin is strictly inside the box hits it over [0, +∞), whatever its direction, zero components included |
| Bvh.CompareAsWrittenNeverLess | WeekendRayTracer/Models/BVHNode.cs:100-107 | the comparator as written never returns −1, and returns 0 exactly when a − b < float.Epsilon |
| Bvh.CompareAsWrittenNotAntisymmetric | WeekendRayTracer/Models/BVHNode.cs:100-107 | as written, 0 against 1 compares equal while 1 against 0 compares greater |
| Bvh.CompareCorrected | WeekendRayTracer/Models/BVHNode.cs:100-107 | the intended comparison: −1, 0 or 1 according to whether a − b is at most −ε, strictly within ε, or at least ε |
| Bvh.CompareCorrectedAntisymmetric | WeekendRayTracer/Models/BVHNode.cs:100-107 | the corrected comparison is antisymmetric, as a sort comparer must be |
| Bvh.Compare | WeekendRayTracer/Models/BVHNode.cs:90-107 | comparing two objects fails with "No bounding box to compare" exactly when either has no box; otherwise it compares their minimum corners as CompareX/Y/Z write it, and so never reports "less" |
| Bvh.PairOrder | WeekendRayTracer/Models/BVHNode.cs:36-45 | a two-object node's Left and Right are the two objects, in one order or the other |
| Bvh.PairOrderAsWrittenSwaps | WeekendRayTracer/Models/BVHNode.cs:36-45 | with the as-written comparator a two-object node always swaps its objects |
| Bvh.PairOrderCorrected | WeekendRayTracer/Models/BVHNode.cs:36-45 | with the corrected comparator a two-object node keeps its order exactly when the first lies clearly below the second |
| Bvh.HasBoxAnyTime | WeekendRayTracer/Models/BVHNode.cs:60-66 | whether an object has a box does not depend on the times asked or the box passed in |
| Bvh.NewNode | WeekendRayTracer/Models/BVHNode.cs:60-68 | building a node fails with "No bounding box in node constructor" exactly when a child has no box |
| Bvh.Half | WeekendRayTracer/Models/BVHNode.cs:55 | span / 2 rounds down: the two halves differ by at most one |
| Bvh.Middle | WeekendRayTracer/Models/BVHNode.cs:55-57 | for a span of at least 3, start < middle < end, so both recursive ranges are non-empty and smaller |
| Bvh.ObjectsInsideBox | WeekendRayTracer/Models/BVHNode.cs:60-68 | every leaf object of a well-built node has a box, and the node's box contains it |
| Bvh.ObjectCount | WeekendRayTracer/Models/BVHNode.cs:28-58 | a well-built node over a span of n objects has n leaves, counted with repetition |
| Bvh.BoxedPermutation | WeekendRayTracer/Models/BVHNode.cs:48-53 | rearranging a range does not change whether all its objects have boxes |
| Bvh.Sorted | WeekendRayTracer/Models/BVHNode.cs:52 | the sort keeps the length of the range |
| Bvh.SortedPermutes | WeekendRayTracer/Models/BVHNode.cs:52 | the sort only rearranges the range (same multiset) |
| Bvh.SingleNode | WeekendRayTracer/Models/BVHNode.cs:30-33 | a one-object node succeeds iff the object has a box, and then has that object as both children and as its only leaf |
| Bvh.PairNode | WeekendRayTracer/Models/BVHNode.cs:34-46 | a two-object node succeeds iff both have boxes, else fails with "No bounding box to compare"; its children are the pair in the order the comparison chose, which is always swapped: Left is objects[start+1] and Right is objects[start] |
| Bvh.PairNodeShape | WeekendRayTracer/Models/BVHNode.cs:34-46 | a two-object node is well built and its leaves are exactly {objects[start], objects[start+1]} |
| Bvh.SplitResult | WeekendRayTracer/Models/BVHNode.cs:55-68 | a node over two well-built halves succeeds, is well built and has the union of their leaves |
| Bvh.SortRange | WeekendRayTracer/Models/BVHNode.cs:50-52 | sorting the copied sub-array succeeds iff every object has a box; it then leaves it in the sort's order, and on failure it is unchanged |
| Bvh.CopyInto | WeekendRayTracer/Models/BVHNode.cs:53 | Array.Copy back into the shared array overwrites exactly the target slots and keeps every other slot |
| Bvh.SortSpan | WeekendRayTracer/Models/BVHNode.cs:49-53 | the copy, sort and copy back rearranges only objects[start..end): the slots outside are unchanged, the range holds the sort's order, and a failed comparison leaves the array as it was |
| Bvh.BuildSucceeds | WeekendRayTracer/Models/BVHNode.cs:18-69 | construction over a non-empty range succeeds iff every object has a box; the exception is "No bounding box in node constructor" for one object and "No bounding box to compare" otherwise (for three or more objects .NET wraps it in an InvalidOperationException thrown by Array.Sort, which is not modelled); success yields a node |
| Bvh.BuildShape | WeekendRayTracer/Models/BVHNode.cs:28-68 | when every object has a box the node is well built (each box contains its children's) and its leaves are exactly the multiset of the range |
| Bvh.ShapeOfHalves | WeekendRayTracer/Models/BVHNode.cs:55-68 | a node built from two well-built sorted halves is well built with the range's leaves |
| Bvh.BuildOfHalves | WeekendRayTracer/Models/BVHNode.cs:55-58 | a range of three or more builds the node of the nodes of its two sorted halves |
| Bvh.ArrangedPermutes | WeekendRayTracer/Models/BVHNode.cs:48-57 | the constructor leaves the range rearranged (same multiset and length), and untouched when some object has no box |
| Bvh.SplitNode | WeekendRayTracer/Models/BVHNode.cs:55-57 | the recursive calls on [start, middle) and [middle, end) of the shared array build the halves of the sorted range |
| Bvh.SplitArranged | WeekendRayTracer/Models/BVHNode.cs:53-57 | after the split the range holds the two arranged halves, one after the other |
| Bvh.BuildNode | WeekendRayTracer/Models/BVHNode.cs:18-69 | the in-place constructor returns the node of the original range and leaves the range as the pure rearrangement; every slot outside [start, end) is unchanged |
| Bvh.BuildSplit | WeekendRayTracer/Models/BVHNode.cs:47-58 | the span ≥ 3 branch (copy, sort, copy back, recurse twice) returns the node of the original range and rearranges only [start, end) |
| Bvh.Root | WeekendRayTracer/Models/BVHNode.cs:13-16 | an empty list fails; a non-empty one succeeds iff every object has a box, with the exception kinds above; a success is well built over exactly the given objects |
| Bvh.BvhAsPair | WeekendRayTracer/Models/BVHNode.cs:71-82 | a node misses and keeps the caller's record when its box misses; otherwise it hits exactly when the scene of its two children does, at the same point, and keeps the record on a miss |
| Bvh.PairAnswer | WeekendRayTracer/Models/BVHNode.cs:78-81 | left then right over the range cut to the left's hit is hit iff the closest-hit scan of the two is, with the same T, point, normal, face and material |
| Bvh.SceneOfTwo | WeekendRayTracer/Scene.cs:23-41 | the scene of two objects answers with the second one's hit if it hits within the first one's hit, else the first one's, else a miss that keeps the record |
| Hittables.HitRecord | WeekendRayTracer/Models/IHittable.cs:6 | the older interface returns null exactly when the by-reference query from a fresh record misses, and otherwise that query's record |
| HitLaws.MissKeepsResult | WeekendRayTracer/Models/XYRect.cs:31-45 | no object writes the caller's record on a miss; this covers every kind, wrappers and lists included |
| HitLaws.ClosestMissKeepsAcc | WeekendRayTracer/Scene.cs:28-38 | the scan ends with its starting answer or with a hit |
| HitLaws.HitIgnoresRecord | WeekendRayTracer/Models/ConstantDensityMedium.cs:78-84 | whether and where an object is hit does not depend on the record passed in; only the texture coordinates can differ |
| HitLaws.ClosestAccOnly | WeekendRayTracer/Scene.cs:28-38 | two scans that differ only in their starting answer either both keep it or end with the same hit |
| HitLaws.HitWithin | WeekendRayTracer/Scene.cs:23-41 | every hit of a well-formed object (unit rotations, positive densities) on a ray with non-zero direction has T in [tMin, tMax] and P on the ray at T |
| HitLaws.TranslateWithin | WeekendRayTracer/Models/Translate.cs:28-41 | if the child's hits on the moved ray are in range and on it, the translated object's hits are in range and on the original ray |
| HitLaws.RotateWithin | WeekendRayTracer/Models/RotateY.cs:64-92 | with a unit rotation, child hits in range on the rotated ray give hits in range on the original ray |
| HitLaws.MediumWithin | WeekendRayTracer/Models/ConstantDensityMedium.cs:33-85 | with a positive density a medium's hits lie in [tMin, tMax] and on the ray |
| HitLaws.MediumAnswerWithin | WeekendRayTracer/Models/ConstantDensityMedium.cs:47-85 | whatever the boundary answered, the medium's hits lie in range and on the ray |
| HitLaws.ScatterWithin | WeekendRayTracer/Models/ConstantDensityMedium.cs:64-84 | a scattering point lies in range and on the ray |
| HitLaws.ScatterWithinFrom | WeekendRayTracer/Models/ConstantDensityMedium.cs:64-84 | the same for any positive ray length and non-negative free path |
| HitLaws.ScatterOutcomeWithin | WeekendRayTracer/Models/ConstantDensityMedium.cs:78-84 | a scattering record has T in range and P = ray.At(T) |
| HitLaws.BvhWithin | WeekendRayTracer/Models/BVHNode.cs:71-82 | if each child's hits lie in the range it was asked about, the node's hits lie in [tMin, tMax] |
| HitLaws.ClosestWithin | WeekendRayTracer/Scene.cs:28-38 | a scan of well-formed objects ends with its start or with a hit within [tMin, closestSoFar] on the ray |
| ClosestHit.Scan | WeekendRayTracer/Scene.cs:25-38 | the reference trace of the loop: one query per object, the first bounded by tMax, each later bound the previous hit's T or the previous bound |
| ClosestHit.ClosestHitIff | WeekendRayTracer/Scene.cs:25-40 | the scan reports a hit iff it started with one or some object is hit over [tMin, tMax] |
| ClosestHit.ClosestWithoutHits | WeekendRayTracer/Scene.cs:23-40 | when no query of the trace hits, the record is left untouched |
| ClosestHit.ClosestIsLastHit | WeekendRayTracer/Scene.cs:28-38 | the answer is the last successful query of the trace |
| ClosestHit.ClosestIsNearest | WeekendRayTracer/Scene.cs:28-38 | for well-formed objects the answer's T is at most the T of every successful query |
| ClosestHit.ScanBoundsShrink | WeekendRayTracer/Scene.cs:25-36 | closestSoFar starts at tMax and never increases along the scan |
| Media.Clip | WeekendRayTracer/Models/ConstantDensityMedium.cs:47-62 | the clipped interval is [max(entry, tMin), min(exit, tMax)] and is non-empty |
| Media.ClipEmptyIff | WeekendRayTracer/Models/ConstantDensityMedium.cs:47-62 | the medium gives up at the emptiness check iff no parameter lies both in [entry, exit] and in [tMin, tMax] |
| Media.ScatterAt | WeekendRayTracer/Models/ConstantDensityMedium.cs:47-78 | no scattering unless the clipped interval is non-empty; a scattering free path fits inside the interval with its start raised to 0 |
| Media.ScatterInside | WeekendRayTracer/Models/ConstantDensityMedium.cs:64-78 | with a non-negative free path and a positive ray length the scattering point lies in [max(tMin, 0), tMax] and inside the boundary |
| Media.ScatterDistance | WeekendRayTracer/Models/ConstantDensityMedium.cs:69-78 | the scattering parameter is the free path divided by the ray length past the raised start |
| Media.BehindOriginNoScatter | WeekendRayTracer/Models/ConstantDensityMedium.cs:64-76 | a boundary that lies wholly behind the ray origin never scatters |
| Media.NegativeInverseDensity | WeekendRayTracer/Models/ConstantDensityMedium.cs:17 | the stored value times the density is −1, negative for a positive density |
| Media.FreePathNonNegative | WeekendRayTracer/Models/ConstantDensityMedium.cs:76 | with a positive density and a draw in (0, 1] the sampled free path is non-negative |
| Rects.PlaneCrossing | WeekendRayTracer/Models/XYRect.cs:33-44 | a crossing meets the plane at T in [tMin, tMax], inclusive, and its in-plane coordinates lie in the rectangle's bounds |
| Rects.PlaneCrossingComplete | WeekendRayTracer/Models/XYRect.cs:33-44 | every in-range crossing inside the bounds of a ray not parallel to the plane is found |
| Rects.TexCoord | WeekendRayTracer/Models/XYRect.cs:47-48 | u locates x between the bounds and lies in [0, 1] for non-degenerate bounds |
| Rects.XYRectHit | WeekendRayTracer/Models/XYRect.cs:31-56 | a hit has T in range, P on the ray with z = K, x and y in bounds, u and v in [0, 1], the material, front face iff direction.Z < 0, normal ±(0,0,1) facing the ray |
| Rects.XZRectHit | WeekendRayTracer/Models/XZRect.cs:31-56 | the same for the plane y = K, with front face iff direction.Y < 0 and normal ±(0,1,0) |
| Rects.YZRectHit | WeekendRayTracer/Models/YZRect.cs:31-63 | the same for the plane x = K, with front face iff direction.X < 0 and normal ±(1,0,0); direction.X = 0 (the non-finite guard) is a miss |
| Rects.XYRectHitComplete | WeekendRayTracer/Models/XYRect.cs:31-56 | a ray not parallel to the plane that meets the rectangle at an in-range T is hit at that T |
| Rects.XZRectHitComplete | WeekendRayTracer/Models/XZRect.cs:31-56 | the same for XZRect |
| Rects.YZRectHitComplete | WeekendRayTracer/Models/YZRect.cs:31-63 | the same for YZRect |
| Rects.RectHitsInsideBoxes | WeekendRayTracer/Models/XYRect.cs:25-29 | every rectangle hit lies in the rectangle's bounding box of thickness 2 × 0.0001 |
| Rotation.RotationsInverse | WeekendRayTracer/Models/RotateY.cs:66-78 | with sin² + cos² = 1, rotating back undoes the rotation applied to the ray, in both orders |
| Rotation.WorldUndoesObject | WeekendRayTracer/Models/RotateY.cs:66-78 | the back rotation of a hit point inverts the ray's forward rotation |
| Rotation.ObjectUndoesWorld | WeekendRayTracer/Models/RotateY.cs:66-78 | the forward rotation inverts the back rotation |
| Rotation.RotationLinear | WeekendRayTracer/Models/RotateY.cs:66-78 | both rotations are linear and leave y alone |
| Rotation.ObjectRay | WeekendRayTracer/Models/RotateY.cs:66-72 | the rotated ray keeps origin.Y, direction.Y and Time |
| Rotation.ObjectRayPoint | WeekendRayTracer/Models/RotateY.cs:66-78 | rotating back the rotated ray's point at t gives the original ray's point at t |
| Rotation.WorldRecord | WeekendRayTracer/Models/RotateY.cs:76-87 | the returned record keeps T, material, u and v, rotates P back, rechooses the face from the rotated normal, and its normal faces the ray |
| Rotation.PickAsWritten | WeekendRayTracer/Models/RotateY.cs:38-40 | `i * hi + (1 - i) * lo` selects hi or lo for i in {0, 1} |
| Rotation.Corners | WeekendRayTracer/Models/RotateY.cs:32-43 | the loop visits eight corners |
| Rotation.CornerAt | WeekendRayTracer/Models/RotateY.cs:32-43 | the visit numbered 4i + 2j + k is the rotated corner (i, j, k) |
| Rotation.Lower | WeekendRayTracer/Models/RotateY.cs:45-47 | Math.Min of the accumulator and a coordinate is one of them and below both |
| Rotation.Upper | WeekendRayTracer/Models/RotateY.cs:48-50 | Math.Max of the accumulator and a coordinate is one of them and above both |
| Rotation.LowestBounds | WeekendRayTracer/Models/RotateY.cs:25-50 | the fold of Math.Min from +∞ over points is finite when there is one, is attained, and lies below every point |
| Rotation.HighestBounds | WeekendRayTracer/Models/RotateY.cs:25-50 | the fold of Math.Max from −∞ is finite, attained and above every point |
| Rotation.RotatedBoxContainsCorners | WeekendRayTracer/Models/RotateY.cs:25-55 | the constructed box contains all eight rotated corners and has min ≤ max on every axis |
| Rotation.RotatedBoxKeepsY | WeekendRayTracer/Models/RotateY.cs:39-49 | the Y extent of the box is the child's, since y is never rotated |
| Scenes.Scene.constructor | WeekendRayTracer/Scene.cs:12-15 | a new scene is empty and has no snapshot yet |
| Scenes.Scene.Add | WeekendRayTracer/Scene.cs:17-21 | appends the object and replaces the snapshot by a fresh array equal to the list in insertion order |
| Scenes.Scene.Hit | WeekendRayTracer/Scene.cs:23-41 | the loop over the snapshot computes the closest-hit scan started from the caller's record; it needs a prior Add |
| Scenes.AsOutcome | WeekendRayTracer/Models/HittableList.cs:27-40 | a null record is a miss, any other record a hit with that record |
| Scenes.HittableList.constructor | WeekendRayTracer/Models/HittableList.cs:10-13 | a new list is empty |
| Scenes.HittableList.Add | WeekendRayTracer/Models/HittableList.cs:15-18 | appends at the end |
| Scenes.HittableList.Clear | WeekendRayTracer/Models/HittableList.cs:20-23 | empties the list |
| Scenes.HittableList.Hit | WeekendRayTracer/Models/HittableList.cs:25-41 | the loop returns the record-or-null of the closest-hit scan over the list |
| Scenes.NewBox | WeekendRayTracer/Models/Box.cs:12-26 | the constructor's six Adds give the box with faces z = p1.Z, z = p0.Z, y = p1.Y, y = p0.Y, x = p1.X, x = p0.X, all of the given material |
| Scenes.BoxSidesAreFaces | WeekendRayTracer/Models/Box.cs:17-23 | each of the six faces lies on the surface of the box (p0, p1) |
| Scenes.FaceHitOnSurface | WeekendRayTracer/Models/Box.cs:28-31 | a hit on a face lies on the box's surface |
| Scenes.ClosestOnSurface | WeekendRayTracer/Models/Box.cs:28-31 | the scan over faces ends with its start or with a hit on the surface |
| Scenes.BoxHitOnSurface | WeekendRayTracer/Models/Box.cs:28-31 | every hit of a box lies on its surface |
| Spheres.SphereRoot | WeekendRayTracer/Models/Sphere.cs:20-44 | a negative discriminant (or a zero direction) gives no root; the near root when it is in [tMin, tMax], else the far root when in range, else none |
| Spheres.SphereHit | WeekendRayTracer/Models/Sphere.cs:18-56 | a hit exactly when a root is selected, with that T, P = ray.At(T), and the face chosen from (P − Center)/Radius, normal facing the ray; the material and u = v = 0 follow MovingSphere.cs:58, since Sphere.cs's HitRecord holds only P, Normal, T and FrontFace |
| Spheres.SphereHitOnSurface | WeekendRayTracer/Models/Sphere.cs:31-51 | with an exact square root, a hit point lies on the sphere |
| Spheres.SphereHitNearest | WeekendRayTracer/Models/Sphere.cs:31-44 | with an exact square root, any in-range parameter on the sphere is hit no earlier than the returned T |
| Spheres.SphereHitUnitNormal | WeekendRayTracer/Models/Sphere.cs:52-53 | for a positive radius, the stored normal has unit length |
| Spheres.OutwardNormalUnit | WeekendRayTracer/Models/Sphere.cs:52 | (P − Center)/Radius has unit length for P on the sphere |
| Spheres.SphereEquation | WeekendRayTracer/Models/Sphere.cs:20-24 | the ray point at t is on the sphere iff t solves the quadratic a t² + 2 b t + c = 0 |
| Spheres.CandidateSolves | WeekendRayTracer/Models/Sphere.cs:31-37 | both candidate roots solve the quadratic |
| Spheres.OnlyCandidatesSolve | WeekendRayTracer/Models/Sphere.cs:31-37 | only the two candidates solve it |
| Spheres.NearBeforeFar | WeekendRayTracer/Models/Sphere.cs:34-37 | the near root comes no later than the far one |
| Spheres.RootOnSurface | WeekendRayTracer/Models/Sphere.cs:31-51 | a candidate root puts the ray point on the sphere |
| Spheres.SolutionIsCandidate | WeekendRayTracer/Models/Sphere.cs:20-37 | a parameter on the sphere is one of the two ordered candidates |
| Spheres.QuadraticCandidates | WeekendRayTracer/Models/Sphere.cs:31-37 | for a > 0, a solution is one of the two ordered candidates |
| Spheres.SelectionNearest | WeekendRayTracer/Models/Sphere.cs:34-44 | the root preference yields a root no later than any in-range candidate |
| Spheres.DiscriminantOfSolvable | WeekendRayTracer/Models/Sphere.cs:24-29 | a solvable quadratic has a non-negative discriminant |
| Spheres.Center | WeekendRayTracer/Models/MovingSphere.cs:78-81 | Center(Time0) = Center0, and Center(Time1) = Center1 when Time0 ≠ Time1 |
| Spheres.MovingSphereHit | WeekendRayTracer/Models/MovingSphere.cs:26-61 | a moving sphere answers as the sphere at Center(ray.Time), so every sphere law above carries over |
| Spheres.MovingSphereBox | WeekendRayTracer/Models/MovingSphere.cs:63-76 | the box contains the radius cubes around Center(time0) and Center(time1) |
| Spheres.BallInsideCube | WeekendRayTracer/Models/MovingSphere.cs:63-76 | a ball lies in its radius cube |
| Spheres.MovingSphereBoxBoundsEnds | WeekendRayTracer/Models/MovingSphere.cs:63-76 | every point of the ball at either box time lies in the box |
| Transforms.TranslateHitFacts | WeekendRayTracer/Models/Translate.cs:28-41 | the child is asked about origin − Offset; Translate hits iff the child does; only P changes, by + Offset; a miss keeps the record |
| Transforms.TranslateComposes | WeekendRayTracer/Models/Translate.cs:28-41 | translating by a then b answers as translating by a + b |
| Transforms.TranslateByZero | WeekendRayTracer/Models/Translate.cs:28-41 | translating by zero changes nothing |
| Transforms.TranslateBox | WeekendRayTracer/Models/Translate.cs:16-26 | the box exists iff the child's does; it is shifted by + Offset with its extent unchanged; a shifted point of the child box lies in it |
| Transforms.TranslateBoxComposes | WeekendRayTracer/Models/Translate.cs:16-26 | boxes of nested translations compose additively |
| Transforms.NewRotateY | WeekendRayTracer/Models/RotateY.cs:15-56 | HasBox is the child's box success over [0, 1] and BBox is the box of the rotated corners; BoundingBox then returns these whatever the times |
| Transforms.RotateBoxCorners | WeekendRayTracer/Models/RotateY.cs:22-55 | the triple loop with six Math.Min/Math.Max accumulators computes the box of the eight rotated corners |
| Transforms.RotateCorner | WeekendRayTracer/Models/RotateY.cs:38-43 | one loop body computes the corner numbered 4i + 2j + k |
| Transforms.VisitStep | WeekendRayTracer/Models/RotateY.cs:45-50 | one update of the six accumulators extends the visited-corner invariant by one corner |
| Transforms.VisitedAll | WeekendRayTracer/Models/RotateY.cs:53-55 | after the eighth corner the accumulators form the rotated box |
| Transforms.RotatedBoxBoundsChild | WeekendRayTracer/Models/RotateY.cs:25-55 | every point of the child box, rotated, lies in BBox |
| Transforms.FoldsFinite | WeekendRayTracer/Models/RotateY.cs:25-55 | none of the six accumulators stays infinite |
| Transforms.RotateByZeroAngle | WeekendRayTracer/Models/RotateY.cs:64-92 | a rotation by zero hits exactly when the child does, with the child's T, P, material, u and v, and keeps the record on a miss |
| Transforms.RotationsCompose | WeekendRayTracer/Models/RotateY.cs:66-81 | two rotations compose as the rotation by the sum of the angles |
| Transforms.NewMediumFromTexture | WeekendRayTracer/Models/ConstantDensityMedium.cs:14-19 | the texture constructor keeps the boundary, uses an isotropic phase function with the texture, and stores −1/density |
| Transforms.NewMediumFromColor | WeekendRayTracer/Models/ConstantDensityMedium.cs:21-26 | the colour constructor does the same with a colour texture |
| Transforms.NewMediumWellFormed | WeekendRayTracer/Models/ConstantDensityMedium.cs:14-26 | a positive density over a well-formed boundary gives a well-formed medium |
| Transforms.MediumHitFacts | WeekendRayTracer/Models/ConstantDensityMedium.cs:33-85 | no hit unless the boundary is hit over (−∞, ∞) and again from entry + 0.0001; a hit lies in the clipped interval on the ray, with normal (1,0,0), front face, the phase function, and the incoming u and v |
| Transforms.MediumAnswerFacts | WeekendRayTracer/Models/ConstantDensityMedium.cs:47-84 | given the two boundary answers, a hit has the facts above |
| Transforms.ScatterHitFacts | WeekendRayTracer/Models/ConstantDensityMedium.cs:64-84 | a scattering record has those facts for any positive ray length and non-negative free path |
| Transforms.ScatterOutcomeFacts | WeekendRayTracer/Models/ConstantDensityMedium.cs:78-84 | the record built from a scattering point has those facts |
| Transforms.MediumMissAndBox | WeekendRayTracer/Models/ConstantDensityMedium.cs:28-39 | a miss keeps the record, and the medium's box is the boundary's |
| Transforms.MediumAnswerMiss | WeekendRayTracer/Models/ConstantDensityMedium.cs:47-76 | every early return keeps the record |
| Perlin.Swap | WeekendRayTracer/Models/Textures/Perlin.cs:66-68 | the swap exchanges the two entries and keeps every other one |
| Perlin.SwapPermutes | WeekendRayTracer/Models/Textures/Perlin.cs:66-68 | a swap keeps the multiset |
| Perlin.ShufflePermutes | WeekendRayTracer/Models/Textures/Perlin.cs:61-70 | the shuffle with draws 0 ≤ target ≤ i keeps the length and the multiset |
| Perlin.ShuffleKeepsAbove | WeekendRayTracer/Models/Textures/Perlin.cs:63-69 | once step i is done, positions above i are not touched again |
| Perlin.Permute | WeekendRayTracer/Models/Textures/Perlin.cs:61-70 | the in-place descending loop computes the shuffle and leaves a permutation of the initial contents |
| Perlin.IdentityOnce | WeekendRayTracer/Models/Textures/Perlin.cs:49-54 | the identity fill 0..n−1 holds each value below n once and nothing else |
| Perlin.TableEntries | WeekendRayTracer/Models/Textures/Perlin.cs:47-59 | a table holds each of 0..255 exactly once, so every entry is in [0, 255] |
| Perlin.GeneratePermutation | WeekendRayTracer/Models/Textures/Perlin.cs:47-59 | returns a fresh array of length 256: the shuffle of the identity, holding each of 0..255 exactly once |
| Perlin.Mask | WeekendRayTracer/Models/Textures/Perlin.cs:113-115 | `& 255` lies in [0, 255] for any int, negative floors included, and is the identity there |
| Perlin.LowBitsMod | WeekendRayTracer/Models/Textures/Perlin.cs:113-115 | keeping the low n bits of a two's-complement integer is the Euclidean remainder by 2ⁿ |
| Perlin.MaskIsLowBits | WeekendRayTracer/Models/Textures/Perlin.cs:113-115 | the mask keeps the low eight bits |
| Perlin.MaskIgnoresWrap | WeekendRayTracer/Models/Textures/Perlin.cs:113-115 | a 32-bit wrap-around of `i + di` does not change the masked index |
| Perlin.XorBelow | WeekendRayTracer/Models/Textures/Perlin.cs:113-115 | the XOR of two values below 2ⁿ is below 2ⁿ |
| Perlin.XorCancels | WeekendRayTracer/Models/Textures/Perlin.cs:113-115 | XOR with the same value twice cancels |
| Perlin.Xor | WeekendRayTracer/Models/Textures/Perlin.cs:112-115 | the XOR of three values in [0, 255] lies in [0, 255] |
| Perlin.Perlin.constructor | WeekendRayTracer/Models/Textures/Perlin.cs:14-27 | keeps the random vectors; each of the three tables is the shuffle of the identity and holds 0..255 once |
| Perlin.Perlin.CornerIndex | WeekendRayTracer/Models/Textures/Perlin.cs:112-115 | the hashed index is in bounds of RandomVectors |
| Perlin.Perlin.GetNoiseCorners | WeekendRayTracer/Models/Textures/Perlin.cs:97-118 | all eight cells of the 2×2×2 array hold the random vector at the hashed index of their corner; u, v, w are the fractional parts, in [0, 1) |

## Left out

- Floating point: the model computes over `real`. Rounding, the single-precision casts (`(float)root`, `(float)Math.Cos`) and the ±∞ and NaN that a division by zero produces are not modelled. The value float.Epsilon itself is kept exactly, as 2⁻¹⁴⁹. The other divisions by zero are degenerate rectangle bounds in u and v, a zero radius in the outward normal, and Time0 = Time1 in Center; each of these yields 0 in the model. The slab test is the exception: for a zero direction component it reproduces the IEEE outcome. An origin outside the slab empties the interval, and any other origin leaves it unchanged.
- Rects.XYRectHit, Rects.XZRectHit: a ray parallel to the plane is a miss. The source has no guard there. A ray off the plane gives t = ±∞, which the source lets through only over an unbounded range. A ray lying in the plane gives t = NaN; every comparison with NaN is false, so the source reports a hit with T = NaN over any range. YZRect.cs guards explicitly.
- Spheres.SphereRoot: a ray with zero direction (a = 0) is a miss; the source divides by zero.
- Spheres.Center: with Time0 = Time1 the source divides by zero; the model's ratio is 0 there, so the centre is Center0.
- Spheres.SphereHitOnSurface: the geometric laws of the sphere assume the platform square root is exact at the discriminant; a real Math.Sqrt is only close.
- Randomness: the BVH's axis draw (`StaticRandom.Next(0, 3)`), the medium's `Math.Log(StaticRandom.NextDouble())`, Perlin's `rand.Next(0, i + 1)` and its random unit vectors are all parameters.
- Platform.logDraw: there is one draw per query, shared by every medium the query reaches. The source draws afresh on every medium Hit, so two media in one scene, or one medium queried twice, get independent free paths. The model does not capture which medium scatters first under independent draws.
- Bvh.SortRange: `Array.Sort` is modelled only as some rearrangement (`order`). With the comparator as written the sort's order is unspecified, and .NET may throw on an inconsistent comparer; neither is modelled. When a comparison throws "No bounding box to compare" during the sort, .NET rethrows it as an InvalidOperationException with the original as the inner exception; the model reports NoBoxToCompare.
- Bvh.Root: on an empty list the source recurses on the empty range until the stack overflows; the model reports EmptyList.
- Bvh.BuildNode: the recursion is proved against the pure Build/Arranged definitions; the node values are immutable structs, so there is no aliasing to model.
- Transforms.NewMediumFromTexture, Transforms.NewMediumFromColor: require a non-zero density; the source stores −∞ for density 0.
- Perlin.Perlin.GetNoiseCorners: returns the fractional parts instead of the interpolated noise. PerlinInterpolation and GetTurbulence are floating-point accumulations and are not modelled. The `(int)Math.Floor` cast of a coordinate beyond the int range is not modelled.
- Perlin.Perlin.constructor: the tables are kept as `seq<int>` snapshots of the generated arrays; the class never changes them afterwards.
- Scenes.Scene.Hit: before the first Add the source dereferences a null array; the model requires a prior Add.
- Box keeps its six faces as a sequence instead of a Scene object; Scenes.NewBox proves the six Adds of a real Scene produce it.
- Trigonometry: RotateY's angle, its degree-to-radian conversion and Math.Sin/Math.Cos are replaced by the sine and cosine as parameters.
- Materials, textures other than Perlin's tables, the camera, the renderer and image I/O are not part of this model.

## Findings

| source | as written | input that shows it | evidently intended | confidence | as-written member | corrected member |
|---|---|---|---|---|---|---|
| WeekendRayTracer/Models/BVHNode.cs:100-107 | returns 0 whenever `a − b < float.Epsilon`, so the later `a < b ? -1 : 1` always yields 1 and the comparator never returns −1 | minimum coordinates 0 and 1: `CompareAsWritten(0.0, 1.0) == 0` but `CompareAsWritten(1.0, 0.0) == 1`; every two-object node swaps its objects, as `Bvh.PairNode` states | zero only when the distance is below epsilon, otherwise the sign of the difference (antisymmetric, as a sort comparer must be) | not executed | Bvh.CompareAsWrittenNotAntisymmetric | Bvh.CompareCorrectedAntisymmetric |

The builder (`Bvh.Compare`, `Bvh.PairNode`, and through them `Bvh.Build` and `Bvh.BuildNode`) uses the comparison as written, so its two-object nodes are swapped as in the source. `Bvh.CompareCorrected` and `Bvh.PairOrderCorrected` state the intended behaviour. The laws about the built tree (`Bvh.BuildShape`, `Bvh.BuildSucceeds`, `Bvh.ObjectsInsideBox`) hold under either comparison.
