/** The driver loops of triangles/other.cpp: the all-pairs scan of intersectionN_N, and the
    bounding box and id collection around the octree in intersectionOctree. */
module TriangleScan {
  import opened Vectors
  import opened Primitives

  /** ValId: a value tagged with its index in the input. */
  datatype ValId<T> = ValId(val: T, id: nat)

  type Hit = (ValId<Triangle>, ValId<Triangle>)

  /** The pair recorded for indices i and k. */
  function PairAt(data: seq<Triangle>, i: nat, k: nat): (p: Hit)
    requires i < |data| && k < |data|
    ensures p.0.id == i && p.1.id == k
  {
    (ValId(data[i], i), ValId(data[k], k))
  }

  // ---------------------------------------------------------------- intersectionN_N

  /** The pairs row i records once the inner loop has compared it with indices i+1 .. k-1. */
  function RowHits(data: seq<Triangle>, intersec: (Triangle, Triangle) -> bool, i: nat, k: nat): seq<Hit>
    requires i < k <= |data|
    decreases k
  {
    if k == i + 1 then []
    else RowHits(data, intersec, i, k - 1) +
         (if intersec(data[i], data[k - 1]) then [PairAt(data, i, k - 1)] else [])
  }

  /** The pairs recorded by the outer loop's first i rows. */
  function Rows(data: seq<Triangle>, intersec: (Triangle, Triangle) -> bool, i: nat): seq<Hit>
    requires i <= |data|
  {
    if i == 0 then [] else Rows(data, intersec, i - 1) + RowHits(data, intersec, i - 1, |data|)
  }

  /** The comparisons made by the first i rows of an n-element scan (row j makes n - j - 1). */
  function Comparisons(n: nat, i: nat): nat
    requires i <= n
  {
    if i == 0 then 0 else Comparisons(n, i - 1) + (n - i)
  }

  /** The ids of the pairs, collected pair by pair as the id set grows. */
  function IdsOf(pairs: seq<Hit>): set<nat> {
    if pairs == [] then {}
    else IdsOf(pairs[..|pairs| - 1]) + {pairs[|pairs| - 1].0.id, pairs[|pairs| - 1].1.id}
  }

  lemma IdsOfPush(s: seq<Hit>, h: Hit)
    ensures IdsOf(s + [h]) == IdsOf(s) + {h.0.id, h.1.id}
  {
    assert (s + [h])[..|s|] == s;
  }

  /** The id set holds exactly the ids that occur in some pair, as first or as second. */
  lemma {:induction false} IdsOfMeaning(pairs: seq<Hit>, x: nat)
    ensures x in IdsOf(pairs) <==> exists p :: p in pairs && (p.0.id == x || p.1.id == x)
  {
    if pairs != [] {
      var init, last := pairs[..|pairs| - 1], pairs[|pairs| - 1];
      IdsOfMeaning(init, x);
      assert pairs == init + [last];
      assert forall p :: p in pairs <==> p in init || p == last;
    }
  }

  /** intersectionN_N: every index pair i < k is compared once; a pair is recorded when the
      triangles intersect, and both ids go into the id set. */
  method IntersectionNN(data: seq<Triangle>, intersec: (Triangle, Triangle) -> bool)
    returns (pairs: seq<Hit>, ids: set<nat>, comparisons: nat)
    ensures pairs == Rows(data, intersec, |data|)
    ensures ids == IdsOf(pairs)
    ensures comparisons == |data| * (|data| - 1) / 2
  {
    var n := |data|;
    pairs, ids, comparisons := [], {}, 0;
    var i := 0;
    while i < n
      invariant i <= n
      invariant pairs == Rows(data, intersec, i)
      invariant ids == IdsOf(pairs)
      invariant comparisons == Comparisons(n, i)
    {
      pairs, ids, comparisons := ScanRow(data, intersec, i, pairs, ids, comparisons);
      i := i + 1;
    }
    ComparisonsTotal(n, n);
  }

  /** The inner loop of intersectionN_N for row i: compare data[i] with every later triangle,
      appending the intersecting pairs and their ids and counting the comparisons. */
  method ScanRow(data: seq<Triangle>, intersec: (Triangle, Triangle) -> bool, i: nat,
                 pairs0: seq<Hit>, ids0: set<nat>, comparisons0: nat)
    returns (pairs: seq<Hit>, ids: set<nat>, comparisons: nat)
    requires i < |data| && ids0 == IdsOf(pairs0)
    ensures pairs == pairs0 + RowHits(data, intersec, i, |data|)
    ensures ids == IdsOf(pairs)
    ensures comparisons == comparisons0 + (|data| - i - 1)
  {
    pairs, ids, comparisons := pairs0, ids0, comparisons0;
    var k := i + 1;
    while k < |data|
      invariant i + 1 <= k <= |data|
      invariant pairs == pairs0 + RowHits(data, intersec, i, k)
      invariant ids == IdsOf(pairs)
      invariant comparisons == comparisons0 + (k - i - 1)
    {
      if intersec(data[i], data[k]) {
        var hit := PairAt(data, i, k);
        IdsOfPush(pairs, hit);
        pairs := pairs + [hit];
        ids := ids + {i, k};
      }
      k := k + 1;
      comparisons := comparisons + 1;
    }
  }

  /** Closed form of the comparison count: 2 * Comparisons(n, i) == i * (2n - i - 1). */
  lemma {:induction false} ComparisonsTotal(n: nat, i: nat)
    requires i <= n
    ensures 2 * Comparisons(n, i) == i * (2 * n - i - 1)
    ensures i == n ==> Comparisons(n, i) == n * (n - 1) / 2
  {
    if i > 0 {
      ComparisonsTotal(n, i - 1);
    }
  }

  /** Every pair of row i has first id i and second id in (i, k), its two values are the
      input's triangles at those ids, and they intersect. */
  lemma {:induction false} RowHitsSound(data: seq<Triangle>, intersec: (Triangle, Triangle) -> bool, i: nat, k: nat)
    requires i < k <= |data|
    ensures forall p :: p in RowHits(data, intersec, i, k) ==>
              p.0.id == i && i < p.1.id < k && p == PairAt(data, p.0.id, p.1.id) && intersec(p.0.val, p.1.val)
    decreases k
  {
    if k > i + 1 {
      RowHitsSound(data, intersec, i, k - 1);
    }
  }

  lemma {:induction false} RowHitsComplete(data: seq<Triangle>, intersec: (Triangle, Triangle) -> bool, i: nat, k: nat, j: nat)
    requires i < j < k <= |data|
    requires intersec(data[i], data[j])
    ensures PairAt(data, i, j) in RowHits(data, intersec, i, k)
    decreases k
  {
    if j < k - 1 {
      RowHitsComplete(data, intersec, i, k - 1, j);
    }
  }

  /** Soundness of the recorded pairs: ids i < k < n, the triangles at those ids, intersecting. */
  lemma {:induction false} RowsSound(data: seq<Triangle>, intersec: (Triangle, Triangle) -> bool, i: nat)
    requires i <= |data|
    ensures forall p :: p in Rows(data, intersec, i) ==>
              p.0.id < i && p.0.id < p.1.id < |data| && p == PairAt(data, p.0.id, p.1.id) &&
              intersec(p.0.val, p.1.val)
  {
    if i > 0 {
      RowsSound(data, intersec, i - 1);
      RowHitsSound(data, intersec, i - 1, |data|);
    }
  }

  /** Completeness: every intersecting pair i < k of the first rows is recorded. */
  lemma {:induction false} RowsComplete(data: seq<Triangle>, intersec: (Triangle, Triangle) -> bool, i: nat, j: nat, k: nat)
    requires j < i <= |data| && j < k < |data|
    requires intersec(data[j], data[k])
    ensures PairAt(data, j, k) in Rows(data, intersec, i)
  {
    if j == i - 1 {
      RowHitsComplete(data, intersec, j, |data|, k);
    } else {
      RowsComplete(data, intersec, i - 1, j, k);
    }
  }

  /** A pair (i, k) with i < k is recorded by the whole scan exactly when the triangles intersect. */
  lemma RecordedIffIntersect(data: seq<Triangle>, intersec: (Triangle, Triangle) -> bool, i: nat, k: nat)
    requires i < k < |data|
    ensures PairAt(data, i, k) in Rows(data, intersec, |data|) <==> intersec(data[i], data[k])
  {
    RowsSound(data, intersec, |data|);
    if intersec(data[i], data[k]) {
      RowsComplete(data, intersec, |data|, i, k);
    }
  }

  /** (i, k) comes strictly before (i', k') in lexicographic order. */
  predicate Precedes(p: Hit, q: Hit) {
    p.0.id < q.0.id || (p.0.id == q.0.id && p.1.id < q.1.id)
  }

  predicate Ordered(s: seq<Hit>) {
    forall a, b :: 0 <= a < b < |s| ==> Precedes(s[a], s[b])
  }

  lemma {:induction false} RowHitsOrdered(data: seq<Triangle>, intersec: (Triangle, Triangle) -> bool, i: nat, k: nat)
    requires i < k <= |data|
    ensures Ordered(RowHits(data, intersec, i, k))
    decreases k
  {
    if k > i + 1 {
      RowHitsOrdered(data, intersec, i, k - 1);
      RowHitsSound(data, intersec, i, k - 1);
    }
  }

  /** The recorded pairs are in strictly increasing lexicographic (i, k) order, so each pair
      occurs once and has first.id < second.id. */
  lemma {:induction false} RowsOrdered(data: seq<Triangle>, intersec: (Triangle, Triangle) -> bool, i: nat)
    requires i <= |data|
    ensures Ordered(Rows(data, intersec, i))
  {
    if i > 0 {
      RowsOrdered(data, intersec, i - 1);
      RowsSound(data, intersec, i - 1);
      RowHitsOrdered(data, intersec, i - 1, |data|);
      RowHitsSound(data, intersec, i - 1, |data|);
      var s, t := Rows(data, intersec, i - 1), RowHits(data, intersec, i - 1, |data|);
      OrderedConcat(s, t, i - 1);
    }
  }

  /** Two ordered runs, the first with first ids below `row` and the second with first id
      `row`, stay ordered one after the other. */
  lemma OrderedConcat(s: seq<Hit>, t: seq<Hit>, row: nat)
    requires Ordered(s) && Ordered(t)
    requires forall p :: p in s ==> p.0.id < row
    requires forall p :: p in t ==> p.0.id == row
    ensures Ordered(s + t)
  {
    forall a, b | 0 <= a < b < |s + t|
      ensures Precedes((s + t)[a], (s + t)[b])
    {
      if b < |s| {
        assert (s + t)[a] == s[a] && (s + t)[b] == s[b];
      } else if a >= |s| {
        assert (s + t)[a] == t[a - |s|] && (s + t)[b] == t[b - |s|];
      } else {
        assert (s + t)[a] == s[a] && (s + t)[b] == t[b - |s|];
        assert s[a] in s && t[b - |s|] in t;
      }
    }
  }

  // ---------------------------------------------------------------- intersectionOctree

  /** The MIN and MAX macros: the least and the greatest of three values. */
  function Min3(a: real, b: real, c: real): (m: real)
    ensures m <= a && m <= b && m <= c && (m == a || m == b || m == c)
  {
    Min(a, Min(b, c))
  }

  function Max3(a: real, b: real, c: real): (m: real)
    ensures m >= a && m >= b && m >= c && (m == a || m == b || m == c)
  {
    Max(a, Max(b, c))
  }

  /** The box [lo, hi] holds point v. */
  predicate InBox(lo: Vec3, hi: Vec3, v: Vec3) {
    lo.x <= v.x <= hi.x && lo.y <= v.y <= hi.y && lo.z <= v.z <= hi.z
  }

  predicate BoxHoldsAll(data: seq<Triangle>, lo: Vec3, hi: Vec3, upTo: nat)
    requires upTo <= |data|
  {
    forall i :: 0 <= i < upTo ==>
      InBox(lo, hi, data[i].a) && InBox(lo, hi, data[i].b) && InBox(lo, hi, data[i].c)
  }

  datatype Axis = X | Y | Z

  function Coord(v: Vec3, axis: Axis): real {
    match axis
    case X => v.x
    case Y => v.y
    case Z => v.z
  }

  /** `value` is the coordinate along `axis` of some vertex of some triangle. */
  predicate Attained(data: seq<Triangle>, axis: Axis, value: real) {
    exists i :: 0 <= i < |data| &&
      (value == Coord(data[i].a, axis) || value == Coord(data[i].b, axis) || value == Coord(data[i].c, axis))
  }

  /** Every coordinate of both corners of the box is attained by a vertex. */
  predicate Tight(data: seq<Triangle>, lo: Vec3, hi: Vec3) {
    forall axis :: Attained(data, axis, Coord(lo, axis)) && Attained(data, axis, Coord(hi, axis))
  }

  /** The bounding-box loop of intersectionOctree: lo and hi start at the first triangle's A and
      B and take the componentwise min and max over all vertices. */
  method BoundingBox(data: seq<Triangle>) returns (lo: Vec3, hi: Vec3)
    requires |data| > 0
    ensures BoxHoldsAll(data, lo, hi, |data|)
    ensures Tight(data, lo, hi)
  {
    lo, hi := data[0].a, data[0].b;
    var i := 0;
    while i < |data|
      invariant i <= |data|
      invariant BoxHoldsAll(data, lo, hi, i)
      invariant Tight(data, lo, hi)
    {
      var tr := data[i];
      ghost var lo0, hi0 := lo, hi;
      lo := Vec3(Min(lo.x, Min3(tr.a.x, tr.b.x, tr.c.x)),
                 Min(lo.y, Min3(tr.a.y, tr.b.y, tr.c.y)),
                 Min(lo.z, Min3(tr.a.z, tr.b.z, tr.c.z)));
      hi := Vec3(Max(hi.x, Max3(tr.a.x, tr.b.x, tr.c.x)),
                 Max(hi.y, Max3(tr.a.y, tr.b.y, tr.c.y)),
                 Max(hi.z, Max3(tr.a.z, tr.b.z, tr.c.z)));
      forall axis
        ensures Attained(data, axis, Coord(lo, axis)) && Attained(data, axis, Coord(hi, axis))
      {
        StillAttained(data, i, axis, Coord(lo0, axis), Coord(lo, axis));
        StillAttained(data, i, axis, Coord(hi0, axis), Coord(hi, axis));
      }
      i := i + 1;
    }
  }

  /** A coordinate that is either an attained one or a coordinate of triangle i is attained. */
  lemma StillAttained(data: seq<Triangle>, i: nat, axis: Axis, before: real, after: real)
    requires i < |data| && Attained(data, axis, before)
    requires after == before || after == Coord(data[i].a, axis) ||
             after == Coord(data[i].b, axis) || after == Coord(data[i].c, axis)
    ensures Attained(data, axis, after)
  {
    if after != before {
      assert 0 <= i < |data|;
    }
  }

  /** The outcome of intersectionOctree: nothing happens for empty input; otherwise the box,
      the tree's pairs and the ids found in them. */
  datatype OctreeRun = Skipped | Ran(lo: Vec3, hi: Vec3, pairs: seq<Hit>, ids: set<nat>)

  /** intersectionOctree. The octree itself (add, msplit, getIntersections) is the parameter
      `treeIntersections`, given the tagged triangles and the box. */
  method IntersectionOctree(data: seq<Triangle>,
                            treeIntersections: (seq<ValId<Triangle>>, Vec3, Vec3) -> seq<Hit>)
    returns (run: OctreeRun)
    ensures |data| == 0 <==> run == Skipped
    ensures run.Ran? ==>
              && BoxHoldsAll(data, run.lo, run.hi, |data|) && Tight(data, run.lo, run.hi)
              && run.pairs == treeIntersections(Tagged(data), run.lo, run.hi)
              && run.ids == IdsOf(run.pairs)
  {
    if |data| == 0 {
      return Skipped;
    }
    var lo, hi := BoundingBox(data);
    var items: seq<ValId<Triangle>> := [];
    var i := 0;
    while i < |data|
      invariant i <= |data|
      invariant items == Tagged(data[..i])
    {
      TaggedAppend(data[..i], data[i]);
      assert data[..i + 1] == data[..i] + [data[i]];
      items := items + [ValId(data[i], i)];
      i := i + 1;
    }
    assert data[..|data|] == data;
    var res := treeIntersections(items, lo, hi);
    var ids: set<nat> := {};
    var j := 0;
    while j < |res|
      invariant j <= |res|
      invariant ids == IdsOf(res[..j])
    {
      assert res[..j + 1] == res[..j] + [res[j]];
      IdsOfPush(res[..j], res[j]);
      ids := ids + {res[j].0.id, res[j].1.id};
      j := j + 1;
    }
    assert res[..|res|] == res;
    return Ran(lo, hi, res, ids);
  }

  /** The triangles tagged with their positions, as added to the tree. */
  function Tagged(data: seq<Triangle>): (items: seq<ValId<Triangle>>)
    ensures |items| == |data|
    ensures forall i :: 0 <= i < |data| ==> items[i] == ValId(data[i], i)
  {
    seq(|data|, i requires 0 <= i < |data| => ValId(data[i], i))
  }

  lemma TaggedAppend(s: seq<Triangle>, t: Triangle)
    ensures Tagged(s + [t]) == Tagged(s) + [ValId(t, |s|)]
  {
  }
}
