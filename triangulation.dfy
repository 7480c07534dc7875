/** Fan triangulation of a convex polygon whose points are already in
    boundary order. */
module Triangulation {
  import opened Geometry

  /** The orientation test of the source: the polygon's own normal, from its
      first three points, points away from the requested `normal`
      (`dot(normalize(cross(v1 - v0, v2 - v0)), normal) < 0`). `normalize`
      stands for `glm::normalize`. */
  predicate Opposed(polygon: seq<Vec3>, normal: Vec3, normalize: Vec3 -> Vec3)
    requires |polygon| >= 3
  {
    Dot(normalize(Cross(Sub(polygon[1], polygon[0]), Sub(polygon[2], polygon[0]))), normal) < 0.0
  }

  /** The index triple of the `k`-th triangle of an index list. */
  function Triple(ts: seq<nat>, k: nat): seq<nat>
    requires 3 * k + 3 <= |ts|
  {
    ts[3 * k .. 3 * k + 3]
  }

  /** The fan triangle anchored at point 0 over the edge (i, i + 1), with its
      last two corners swapped when `flip` holds. */
  function FanTriangle(i: nat, flip: bool): seq<nat> {
    if flip then [0, i + 1, i] else [0, i, i + 1]
  }

  /** `ts` is the fan over `n` points: triangle k is (0, k+1, k+2), or
      (0, k+2, k+1) for every k when `flip` holds. */
  ghost predicate IsFan(ts: seq<nat>, n: nat, flip: bool) {
    && n >= 3
    && |ts| == 3 * (n - 2)
    && forall k :: 0 <= k < n - 2 ==> Triple(ts, k) == FanTriangle(k + 1, flip)
  }

  /** A fan names only points of the polygon, every triangle has three
      distinct corners, all anchored at point 0, and the two windings differ
      exactly by swapping the last two corners of each triangle. */
  lemma FanProperties(ts: seq<nat>, n: nat, flip: bool, k: nat)
    requires IsFan(ts, n, flip) && k < n - 2
    ensures ts[3 * k] == 0
    ensures ts[3 * k + 1] < n && ts[3 * k + 2] < n
    ensures ts[3 * k] != ts[3 * k + 1] && ts[3 * k + 1] != ts[3 * k + 2] && ts[3 * k] != ts[3 * k + 2]
    ensures FanTriangle(k + 1, !flip) == [ts[3 * k], ts[3 * k + 2], ts[3 * k + 1]]
  {
    assert Triple(ts, k) == FanTriangle(k + 1, flip);
    assert Triple(ts, k)[0] == ts[3 * k] && Triple(ts, k)[1] == ts[3 * k + 1] && Triple(ts, k)[2] == ts[3 * k + 2];
  }

  /** `TriangulateConvexPolygon`: nothing for fewer than three points;
      otherwise the fan (0, i, i+1) for i = 1 .. n-2, in the opposite winding
      (0, i+1, i) when the polygon's own normal opposes `normal`. */
  method TriangulateConvexPolygon(polygonVertices: seq<Vec3>, normal: Vec3, normalize: Vec3 -> Vec3)
    returns (triangleIndices: seq<nat>)
    ensures |polygonVertices| < 3 ==> triangleIndices == []
    ensures |polygonVertices| >= 3 ==>
      IsFan(triangleIndices, |polygonVertices|, Opposed(polygonVertices, normal, normalize))
    ensures forall k :: 0 <= k < |triangleIndices| ==> triangleIndices[k] < |polygonVertices|
  {
    triangleIndices := [];
    var n := |polygonVertices|;
    if n < 3 {
      return;
    }
    var v0, v1, v2 := polygonVertices[0], polygonVertices[1], polygonVertices[2];
    var polygonNormal := normalize(Cross(Sub(v1, v0), Sub(v2, v0)));
    var anchorIndex := 0;
    ghost var flip := Opposed(polygonVertices, normal, normalize);
    var i := 1;
    while i < n - 1
      invariant 1 <= i <= n - 1
      invariant |triangleIndices| == 3 * (i - 1)
      invariant forall k :: 0 <= k < i - 1 ==> Triple(triangleIndices, k) == FanTriangle(k + 1, flip)
      invariant forall k :: 0 <= k < |triangleIndices| ==> triangleIndices[k] < n
    {
      ghost var before := triangleIndices;
      if Dot(polygonNormal, normal) < 0.0 {
        triangleIndices := triangleIndices + [anchorIndex, i + 1, i];
      } else {
        triangleIndices := triangleIndices + [anchorIndex, i, i + 1];
      }
      forall k | 0 <= k < i ensures Triple(triangleIndices, k) == FanTriangle(k + 1, flip) {
        if k < i - 1 {
          assert Triple(triangleIndices, k) == Triple(before, k);
        }
      }
      i := i + 1;
    }
  }
}
