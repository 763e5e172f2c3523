// The Perlin noise tables: three permutations of 0..255 built by an
// in-place shuffle, and the hashed lookup of the random vectors at the eight
// lattice corners around a point.  The random draws (the shuffle's swap
// targets, the 256 random unit vectors) are parameters.

module Perlin {
  import opened Geometry

  /** The number of lattice points in each table. */
  const PointCount: int := 256

  /** The array 0, 1, ..., n - 1 that the permutation starts from. */
  function Identity(n: nat): (s: seq<int>)
    ensures |s| == n && forall k :: 0 <= k < n ==> s[k] == k
  {
    seq(n, k => k)
  }

  /** The sequence with positions i and j exchanged. */
  function Swap(s: seq<int>, i: int, j: int): (t: seq<int>)
    requires 0 <= i < |s| && 0 <= j < |s|
    ensures |t| == |s| && t[i] == s[j] && t[j] == s[i]
    ensures forall k :: 0 <= k < |s| && k != i && k != j ==> t[k] == s[k]
  {
    s[i := s[j]][j := s[i]]
  }

  /** The draws of the shuffle: the draw for step i lies in [0, i], as
      Random.Next(0, i + 1) promises. */
  predicate Draws(targets: seq<int>, n: int)
  {
    |targets| == n && forall i :: 0 <= i < n ==> 0 <= targets[i] <= i
  }

  /** Permute from step i down: step i swaps position i with the draw for i,
      then the steps below it follow; step 0 and below do nothing. */
  function Shuffle(s: seq<int>, i: int, targets: seq<int>): seq<int>
    requires i < |s| && Draws(targets, |s|)
    decreases i
  {
    if i <= 0 then s else Shuffle(Swap(s, i, targets[i]), i - 1, targets)
  }

  /** The shuffle rearranges its input: each value keeps its multiplicity. */
  lemma {:induction false} ShufflePermutes(s: seq<int>, i: int, targets: seq<int>)
    requires i < |s| && Draws(targets, |s|)
    ensures |Shuffle(s, i, targets)| == |s|
    ensures multiset(Shuffle(s, i, targets)) == multiset(s)
    decreases i
  {
    if i > 0 {
      var t := Swap(s, i, targets[i]);
      SwapPermutes(s, i, targets[i]);
      ShufflePermutes(t, i - 1, targets);
    }
  }

  lemma SwapPermutes(s: seq<int>, i: int, j: int)
    requires 0 <= i < |s| && 0 <= j < |s|
    ensures multiset(Swap(s, i, j)) == multiset(s)
  {
    if i != j {
      assert Swap(s, i, j) == s[i := s[j]][j := s[i]];
      assert multiset(s[i := s[j]]) == multiset(s) - multiset{s[i]} + multiset{s[j]};
    }
  }

  /** Once step i is done no later step touches the positions above i:
      they hold what they held before step i + 1 ran. */
  lemma {:induction false} ShuffleKeepsAbove(s: seq<int>, i: int, targets: seq<int>)
    requires i < |s| && Draws(targets, |s|)
    ensures |Shuffle(s, i, targets)| == |s|
    ensures forall k :: i < k < |s| && 0 <= k ==> Shuffle(s, i, targets)[k] == s[k]
    decreases i
  {
    if i > 0 {
      ShuffleKeepsAbove(Swap(s, i, targets[i]), i - 1, targets);
    }
  }

  /** Permute: for i from n - 1 down to 1, swap values[i] with
      values[targets[i]].  The array ends as the shuffle of what it held, and
      so holds the same values. */
  method Permute(values: array<int>, n: int, targets: seq<int>)
    requires 0 <= n == values.Length && Draws(targets, n)
    modifies values
    ensures n > 0 ==> values[..] == Shuffle(old(values[..]), n - 1, targets)
    ensures multiset(values[..]) == multiset(old(values[..]))
  {
    if n == 0 {
      return;
    }
    ghost var start := values[..];
    var i := n - 1;
    while i > 0
      invariant 0 <= i < n
      invariant Shuffle(values[..], i, targets) == Shuffle(start, n - 1, targets)
      decreases i
    {
      var target := targets[i];
      ghost var before := values[..];
      values[i], values[target] := values[target], values[i];
      assert values[..] == Swap(before, i, target);
      i := i - 1;
    }
    ShufflePermutes(start, n - 1, targets);
  }

  /** A permutation table: each of 0..255 exactly once. */
  ghost predicate IsTable(s: seq<int>)
  {
    |s| == PointCount && multiset(s) == multiset(Identity(PointCount))
  }

  /** The identity sequence holds each of 0..n - 1 once and nothing else. */
  lemma {:induction false} IdentityOnce(n: nat)
    ensures forall v :: multiset(Identity(n))[v] == if 0 <= v < n then 1 else 0
  {
    if n > 0 {
      IdentityOnce(n - 1);
      assert Identity(n) == Identity(n - 1) + [n - 1];
    }
  }

  /** A table holds each index 0..255 exactly once, and its entries are
      indices into a table of 256. */
  lemma TableEntries(s: seq<int>)
    requires IsTable(s)
    ensures forall v :: 0 <= v < PointCount ==> multiset(s)[v] == 1
    ensures Indices(s)
  {
    IdentityOnce(PointCount);
    forall k | 0 <= k < |s| ensures 0 <= s[k] < PointCount {
      assert s[k] in multiset(s);
    }
  }

  /** Every entry is an index into a table of 256. */
  predicate Indices(s: seq<int>)
  {
    |s| == PointCount && forall k :: 0 <= k < |s| ==> 0 <= s[k] < PointCount
  }

  /** GeneratePermutation: the identity array 0..255, then Permute over it. */
  method GeneratePermutation(targets: seq<int>) returns (a: array<int>)
    requires Draws(targets, PointCount)
    ensures fresh(a) && a.Length == PointCount
    ensures a[..] == Shuffle(Identity(PointCount), PointCount - 1, targets)
    ensures IsTable(a[..])
  {
    a := new int[PointCount];
    var i := 0;
    while i < PointCount
      invariant 0 <= i <= PointCount
      invariant forall k :: 0 <= k < i ==> a[k] == k
    {
      a[i] := i;
      i := i + 1;
    }
    assert a[..] == Identity(PointCount);
    Permute(a, PointCount, targets);
  }

  function Pow2(n: nat): (p: nat)
    ensures p > 0
  {
    if n == 0 then 1 else 2 * Pow2(n - 1)
  }

  /** `x & (2^n - 1)`: the lowest n bits of x, taken one at a time.  Halving
      rounds down, so for a negative x these are the bits of its two's
      complement pattern, as C#'s `&` sees them. */
  function LowBits(x: int, n: nat): int
    decreases n
  {
    if n == 0 then 0 else 2 * LowBits(x / 2, n - 1) + x % 2
  }

  /** The lowest n bits of x are x modulo 2^n, never negative. */
  lemma {:induction false} LowBitsMod(x: int, n: nat)
    ensures LowBits(x, n) == x % Pow2(n)
    decreases n
  {
    if n > 0 {
      LowBitsMod(x / 2, n - 1);
      var m := Pow2(n - 1);
      var q, b := (x / 2) / m, (x / 2) % m;
      assert x == 2 * (x / 2) + x % 2;
      assert x / 2 == m * q + b;
      assert x == Pow2(n) * q + (2 * b + x % 2);
      ModUnique(x, Pow2(n), q, 2 * b + x % 2);
    }
  }

  /** The remainder is the one r in [0, m) with x == m * q + r. */
  lemma ModUnique(x: int, m: int, q: int, r: int)
    requires m > 0 && x == m * q + r && 0 <= r < m
    ensures x % m == r
  {
    var d := q - x / m;
    assert m * d == x % m - r by {
      assert x == m * (x / m) + x % m;
      assert m * q - m * (x / m) == m * d;
    }
    if d >= 1 {
      AtLeastFactor(m, d);
    } else if d <= -1 {
      AtLeastFactor(m, -d);
    }
  }

  lemma AtLeastFactor(m: int, d: int)
    requires m > 0 && d >= 1
    ensures m * d >= m && m * -d <= -m
  {
    assert m * d == m + m * (d - 1);
    assert m * (d - 1) >= 0;
  }

  /** `x & 255` on a C# int: the remainder modulo 256, never negative. */
  function Mask(x: int): (r: int)
    ensures 0 <= r < PointCount
    ensures 0 <= x < PointCount ==> r == x
  {
    x % 256
  }

  /** Mask takes the lowest eight bits, negative ints included. */
  lemma MaskIsLowBits(x: int)
    ensures Mask(x) == LowBits(x, 8)
  {
    LowBitsMod(x, 8);
    assert Pow2(8) == 256;
  }

  /** A 32-bit wrap-around of the sum does not change the mask, as 256
      divides 2^32. */
  lemma MaskIgnoresWrap(x: int, k: int)
    ensures Mask(x + k * 0x1_0000_0000) == Mask(x)
  {
    ModUnique(x + k * 0x1_0000_0000, 256, x / 256 + k * 0x100_0000, x % 256);
  }

  /** `a ^ b` on two non-negative ints, bit by bit from the lowest. */
  function XorBits(a: nat, b: nat): nat
    decreases a + b
  {
    if a == 0 && b == 0 then 0 else 2 * XorBits(a / 2, b / 2) + (if a % 2 == b % 2 then 0 else 1)
  }

  /** The XOR of two values below 2^n is below 2^n. */
  lemma {:induction false} XorBelow(a: nat, b: nat, n: nat)
    requires a < Pow2(n) && b < Pow2(n)
    ensures XorBits(a, b) < Pow2(n)
    decreases a + b
  {
    if !(a == 0 && b == 0) {
      if n == 0 {
        assert false;
      }
      XorBelow(a / 2, b / 2, n - 1);
    }
  }

  /** XOR with the same value twice gives back the first operand. */
  lemma {:induction false} XorCancels(a: nat, b: nat)
    ensures XorBits(XorBits(a, b), b) == a
    decreases a + b
  {
    if !(a == 0 && b == 0) {
      XorCancels(a / 2, b / 2);
    }
  }

  /** `a ^ b ^ c` on three table entries: an index into a table of 256. */
  function Xor(a: int, b: int, c: int): (r: int)
    requires 0 <= a < PointCount && 0 <= b < PointCount && 0 <= c < PointCount
    ensures 0 <= r < PointCount
  {
    XorBelow(a, b, 8);
    XorBelow(XorBits(a, b), c, 8);
    XorBits(XorBits(a, b), c)
  }

  class Perlin {
    const randomVectors: seq<Vec3>
    const permX: seq<int>
    const permY: seq<int>
    const permZ: seq<int>

    /** The tables as the constructor leaves them: 256 vectors and three
        permutations of 0..255, whose entries therefore index the vectors. */
    ghost predicate Valid()
    {
      && |randomVectors| == PointCount && IsTable(permX) && IsTable(permY) && IsTable(permZ)
      && Indices(permX) && Indices(permY) && Indices(permZ)
    }

    /** The constructor: the random unit vectors, then one permutation per
        axis, each from its own draws. */
    constructor(vectors: seq<Vec3>, targetsX: seq<int>, targetsY: seq<int>, targetsZ: seq<int>)
      requires |vectors| == PointCount
      requires Draws(targetsX, PointCount) && Draws(targetsY, PointCount) && Draws(targetsZ, PointCount)
      ensures Valid() && randomVectors == vectors
      ensures permX == Shuffle(Identity(PointCount), PointCount - 1, targetsX)
      ensures permY == Shuffle(Identity(PointCount), PointCount - 1, targetsY)
      ensures permZ == Shuffle(Identity(PointCount), PointCount - 1, targetsZ)
    {
      randomVectors := vectors;
      var x := GeneratePermutation(targetsX);
      var y := GeneratePermutation(targetsY);
      var z := GeneratePermutation(targetsZ);
      TableEntries(x[..]);
      TableEntries(y[..]);
      TableEntries(z[..]);
      permX, permY, permZ := x[..], y[..], z[..];
    }

    /** The index of the random vector at corner (di, dj, dk) of the cell
        whose lowest corner is (i, j, k). */
    function CornerIndex(i: int, j: int, k: int, di: int, dj: int, dk: int): (r: int)
      requires Valid()
      ensures 0 <= r < |randomVectors|
    {
      Xor(permX[Mask(i + di)], permY[Mask(j + dj)], permZ[Mask(k + dk)])
    }

    /** GetNoise up to the interpolation: every one of the eight cells of
        `vectors` receives the random vector hashed from its corner, and the
        interpolation weights are the fractional parts of the point. */
    method GetNoiseCorners(vectors: array3<Vec3>, point: Vec3) returns (u: real, v: real, w: real)
      requires Valid()
      requires vectors.Length0 == 2 && vectors.Length1 == 2 && vectors.Length2 == 2
      modifies vectors
      ensures forall di, dj, dk :: 0 <= di < 2 && 0 <= dj < 2 && 0 <= dk < 2 ==>
                vectors[di, dj, dk]
                == randomVectors[CornerIndex(point.x.Floor, point.y.Floor, point.z.Floor, di, dj, dk)]
      ensures 0.0 <= u < 1.0 && 0.0 <= v < 1.0 && 0.0 <= w < 1.0
      ensures point.x == point.x.Floor as real + u && point.y == point.y.Floor as real + v
              && point.z == point.z.Floor as real + w
    {
      u := point.x - point.x.Floor as real;
      v := point.y - point.y.Floor as real;
      w := point.z - point.z.Floor as real;
      var i, j, k := point.x.Floor, point.y.Floor, point.z.Floor;
      var di := 0;
      while di < 2
        invariant 0 <= di <= 2
        invariant forall a, b, c :: 0 <= a < di && 0 <= b < 2 && 0 <= c < 2 ==>
                    vectors[a, b, c] == randomVectors[CornerIndex(i, j, k, a, b, c)]
      {
        var dj := 0;
        while dj < 2
          invariant 0 <= dj <= 2
          invariant forall a, b, c :: 0 <= a < di && 0 <= b < 2 && 0 <= c < 2 ==>
                      vectors[a, b, c] == randomVectors[CornerIndex(i, j, k, a, b, c)]
          invariant forall b, c :: 0 <= b < dj && 0 <= c < 2 ==>
                      vectors[di, b, c] == randomVectors[CornerIndex(i, j, k, di, b, c)]
        {
          var dk := 0;
          while dk < 2
            invariant 0 <= dk <= 2
            invariant forall a, b, c :: 0 <= a < di && 0 <= b < 2 && 0 <= c < 2 ==>
                        vectors[a, b, c] == randomVectors[CornerIndex(i, j, k, a, b, c)]
            invariant forall b, c :: 0 <= b < dj && 0 <= c < 2 ==>
                        vectors[di, b, c] == randomVectors[CornerIndex(i, j, k, di, b, c)]
            invariant forall c :: 0 <= c < dk ==>
                        vectors[di, dj, c] == randomVectors[CornerIndex(i, j, k, di, dj, c)]
          {
            vectors[di, dj, dk] := randomVectors[CornerIndex(i, j, k, di, dj, dk)];
            dk := dk + 1;
          }
          dj := dj + 1;
        }
        di := di + 1;
      }
    }
  }
}
