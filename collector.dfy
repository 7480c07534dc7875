/** The scan shared by the edge/mesh intersection: the hits of one segment
    against the triangles of a mesh, in triangle order, stopping at the
    second. */
module Collector {
  import opened Geometry
  import opened Containment

  /** A segment/triangle test: segment endpoints, then triangle corners. */
  type HitTest = (Vec3, Vec3, Vec3, Vec3, Vec3) -> Option<Vec3>

  /** The hit of a segment with triangle `t`, whose corners are looked up
      in `world`, as a list of zero or one point. */
  function TriangleHit(p0: Vec3, p1: Vec3, world: seq<Vec3>, indices: seq<nat>, t: nat, test: HitTest): seq<Vec3>
    requires t < |indices| / 3 && TrianglesBelow(indices, |world|)
  {
    match test(p0, p1, Corner(world, indices, t, 0), Corner(world, indices, t, 1), Corner(world, indices, t, 2))
    case Some(x) => [x]
    case None => []
  }

  /** The hits against the first `n` triangles, in triangle order. */
  function SegmentHits(p0: Vec3, p1: Vec3, world: seq<Vec3>, indices: seq<nat>, n: nat, test: HitTest): seq<Vec3>
    requires n <= |indices| / 3 && TrianglesBelow(indices, |world|)
  {
    if n == 0 then []
    else SegmentHits(p0, p1, world, indices, n - 1, test) + TriangleHit(p0, p1, world, indices, n - 1, test)
  }

  /** Hits only accumulate: the hits against fewer triangles are a prefix. */
  lemma {:induction false} SegmentHitsPrefix(p0: Vec3, p1: Vec3, world: seq<Vec3>, indices: seq<nat>, m: nat, n: nat, test: HitTest)
    requires m <= n <= |indices| / 3 && TrianglesBelow(indices, |world|)
    ensures |SegmentHits(p0, p1, world, indices, m, test)| <= |SegmentHits(p0, p1, world, indices, n, test)|
    ensures SegmentHits(p0, p1, world, indices, m, test)
         == SegmentHits(p0, p1, world, indices, n, test)[..|SegmentHits(p0, p1, world, indices, m, test)|]
  {
    if m < n {
      SegmentHitsPrefix(p0, p1, world, indices, m, n - 1, test);
    }
  }

  /** One more triangle adds its hit, if any. */
  lemma HitStep(p0: Vec3, p1: Vec3, world: seq<Vec3>, indices: seq<nat>, i: nat, test: HitTest, hit: Option<Vec3>)
    requires i < |indices| / 3 && TrianglesBelow(indices, |world|)
    requires hit == test(p0, p1, Corner(world, indices, i, 0), Corner(world, indices, i, 1), Corner(world, indices, i, 2))
    ensures SegmentHits(p0, p1, world, indices, i + 1, test)
         == SegmentHits(p0, p1, world, indices, i, test) + (if hit.Some? then [hit.value] else [])
  {
  }

  /** The scan ends with the first two hits: either it reached the end with
      fewer, or it stopped at the second. */
  lemma ScanResult(p0: Vec3, p1: Vec3, world: seq<Vec3>, indices: seq<nat>, i: nat, test: HitTest)
    requires i <= |indices| / 3 && TrianglesBelow(indices, |world|)
    requires |SegmentHits(p0, p1, world, indices, i, test)| == 2
          || (i == |indices| / 3 && |SegmentHits(p0, p1, world, indices, i, test)| < 2)
    ensures SegmentHits(p0, p1, world, indices, i, test) == FirstTwo(SegmentHits(p0, p1, world, indices, |indices| / 3, test))
  {
    SegmentHitsPrefix(p0, p1, world, indices, i, |indices| / 3, test);
  }

  /** At most the first two elements. */
  function FirstTwo<T>(s: seq<T>): (r: seq<T>)
    ensures |r| <= 2 && |r| <= |s| && r == s[..|r|]
    ensures |r| < 2 ==> r == s
  {
    if |s| <= 2 then s else s[..2]
  }

  /** `points`, each carried into world space by `place`. */
  function Placed(points: seq<Vec3>, place: Vec3 -> Vec3): (w: seq<Vec3>)
    ensures |w| == |points|
    ensures forall k :: 0 <= k < |points| ==> w[k] == place(points[k])
  {
    seq(|points|, k requires 0 <= k < |points| => place(points[k]))
  }

  /** One pass of the loop body: the hit of triangle `i`, if any, is
      appended. */
  method AddTriangleHit(v0: Vec3, v1: Vec3, vertices: seq<Vec3>, indices: seq<nat>, place: Vec3 -> Vec3, test: HitTest,
                        i: nat, intersections: seq<Vec3>)
    returns (next: seq<Vec3>)
    requires i < |indices| / 3 && TrianglesBelow(indices, |vertices|)
    requires intersections == SegmentHits(v0, v1, Placed(vertices, place), indices, i, test)
    ensures next == SegmentHits(v0, v1, Placed(vertices, place), indices, i + 1, test)
  {
    var idx0, idx1, idx2 := indices[i * 3], indices[i * 3 + 1], indices[i * 3 + 2];
    var w2, w3, w4 := place(vertices[idx0]), place(vertices[idx1]), place(vertices[idx2]);
    var hit := test(v0, v1, w2, w3, w4);
    HitStep(v0, v1, Placed(vertices, place), indices, i, test, hit);
    next := intersections;
    if hit.Some? {
      next := next + [hit.value];
    }
  }

  /** The loop of `Shapes::GetEdgeIntersection`, for any placement of the
      vertices and any segment/triangle test: the triangles in order,
      stopping at the second hit. */
  method CollectFirstTwoHits(v0: Vec3, v1: Vec3, vertices: seq<Vec3>, indices: seq<nat>, place: Vec3 -> Vec3, test: HitTest)
    returns (intersections: seq<Vec3>)
    requires TrianglesBelow(indices, |vertices|)
    ensures intersections == FirstTwo(SegmentHits(v0, v1, Placed(vertices, place), indices, |indices| / 3, test))
  {
    ghost var world := Placed(vertices, place);
    intersections := [];
    var i := 0;
    while i < |indices| / 3
      invariant 0 <= i <= |indices| / 3
      invariant intersections == SegmentHits(v0, v1, world, indices, i, test)
      invariant |intersections| < 2
    {
      intersections := AddTriangleHit(v0, v1, vertices, indices, place, test, i, intersections);
      i := i + 1;
      if |intersections| == 2 {
        break;
      }
    }
    ScanResult(v0, v1, world, indices, i, test);
  }
}
