/** The half-space containment test against a convex mesh, and the two
    collectors built on it that list the vertices of one mesh lying inside
    another. */
module Containment {
  import opened Geometry
  import opened Canonicalise

  /** Every index the `indices.size() / 3` triangles read names a position;
      trailing indices that make no whole triangle are never read. */
  predicate TrianglesBelow(indices: seq<nat>, n: nat) {
    forall k :: 0 <= k < 3 * (|indices| / 3) ==> indices[k] < n
  }

  /** The signed distance of `point` from the plane of triangle (v0, v1, v2):
      `dot(normalize(cross(v1 - v0, v2 - v0)), point - v0)`. */
  function SignedDistance(point: Vec3, v0: Vec3, v1: Vec3, v2: Vec3, normalize: Vec3 -> Vec3): real {
    Dot(normalize(Cross(Sub(v1, v0), Sub(v2, v0))), Sub(point, v0))
  }

  /** `point` is strictly on the outer side of triangle `t`'s plane. */
  predicate OutsideFace(point: Vec3, positions: seq<Vec3>, indices: seq<nat>, t: nat, normalize: Vec3 -> Vec3)
    requires t < |indices| / 3 && TrianglesBelow(indices, |positions|)
  {
    SignedDistance(point, Corner(positions, indices, t, 0), Corner(positions, indices, t, 1),
                   Corner(positions, indices, t, 2), normalize) > 0.0
  }

  /** `point` is on the non-positive side of every face plane. */
  ghost predicate Inside(point: Vec3, positions: seq<Vec3>, indices: seq<nat>, normalize: Vec3 -> Vec3)
    requires TrianglesBelow(indices, |positions|)
  {
    forall t :: 0 <= t < |indices| / 3 ==> !OutsideFace(point, positions, indices, t, normalize)
  }

  /** `Shapes::IsPointInsideConvexMesh`: false at the first triangle whose
      plane has `point` strictly on its positive side, true if there is none. */
  method IsPointInsideConvexMesh(point: Vec3, vertexPositions: seq<Vec3>, indices: seq<nat>, normalize: Vec3 -> Vec3)
    returns (inside: bool)
    requires TrianglesBelow(indices, |vertexPositions|)
    ensures inside <==> Inside(point, vertexPositions, indices, normalize)
    ensures !inside <==> exists t :: 0 <= t < |indices| / 3 && OutsideFace(point, vertexPositions, indices, t, normalize)
  {
    var triangleCount := |indices| / 3;
    var i := 0;
    while i < triangleCount
      invariant 0 <= i <= triangleCount
      invariant forall t :: 0 <= t < i ==> !OutsideFace(point, vertexPositions, indices, t, normalize)
    {
      var idx0, idx1, idx2 := indices[i * 3], indices[i * 3 + 1], indices[i * 3 + 2];
      var v0, v1, v2 := vertexPositions[idx0], vertexPositions[idx1], vertexPositions[idx2];
      var normal := normalize(Cross(Sub(v1, v0), Sub(v2, v0)));
      var dotProduct := Dot(normal, Sub(point, v0));
      if dotProduct > 0.0 {
        assert OutsideFace(point, vertexPositions, indices, i, normalize);
        return false;
      }
      i := i + 1;
    }
    return true;
  }

  /** The ids, ascending, of the first `n` points inside the mesh. */
  ghost function PassingIds(points: seq<Vec3>, n: nat, positions: seq<Vec3>, indices: seq<nat>, normalize: Vec3 -> Vec3): seq<nat>
    requires n <= |points| && TrianglesBelow(indices, |positions|)
  {
    if n == 0 then []
    else PassingIds(points, n - 1, positions, indices, normalize)
         + (if Inside(points[n - 1], positions, indices, normalize) then [n - 1] else [])
  }

  /** `PassingIds` lists, strictly ascending, exactly the ids i < n whose point
      is inside. */
  lemma PassingIdsExactly(points: seq<Vec3>, n: nat, positions: seq<Vec3>, indices: seq<nat>, normalize: Vec3 -> Vec3)
    requires n <= |points| && TrianglesBelow(indices, |positions|)
    ensures var ids := PassingIds(points, n, positions, indices, normalize);
      && (forall k :: 0 <= k < |ids| ==> ids[k] < n)
      && (forall j, k :: 0 <= j < k < |ids| ==> ids[j] < ids[k])
      && (forall i :: 0 <= i < n ==> (i in ids <==> Inside(points[i], positions, indices, normalize)))
  {
    PassingIdsAscending(points, n, positions, indices, normalize);
    PassingIdsMembers(points, n, positions, indices, normalize);
  }

  lemma {:induction false} PassingIdsAscending(points: seq<Vec3>, n: nat, positions: seq<Vec3>, indices: seq<nat>, normalize: Vec3 -> Vec3)
    requires n <= |points| && TrianglesBelow(indices, |positions|)
    ensures var ids := PassingIds(points, n, positions, indices, normalize);
      && (forall k :: 0 <= k < |ids| ==> ids[k] < n)
      && (forall j, k :: 0 <= j < k < |ids| ==> ids[j] < ids[k])
  {
    if n > 0 {
      PassingIdsAscending(points, n - 1, positions, indices, normalize);
      var prev := PassingIds(points, n - 1, positions, indices, normalize);
      var ids := PassingIds(points, n, positions, indices, normalize);
      assert forall k :: 0 <= k < |prev| ==> prev[k] < n - 1 by {
        assert var q := PassingIds(points, n - 1, positions, indices, normalize); forall k :: 0 <= k < |q| ==> q[k] < n - 1;
      }
      if Inside(points[n - 1], positions, indices, normalize) {
        assert ids == prev + [n - 1];
        assert forall k :: 0 <= k < |prev| ==> ids[k] == prev[k];
        assert ids[|prev|] == n - 1;
      } else {
        assert ids == prev;
      }
    }
  }

  lemma {:induction false} PassingIdsMembers(points: seq<Vec3>, n: nat, positions: seq<Vec3>, indices: seq<nat>, normalize: Vec3 -> Vec3)
    requires n <= |points| && TrianglesBelow(indices, |positions|)
    ensures var ids := PassingIds(points, n, positions, indices, normalize);
      forall i :: 0 <= i < n ==> (i in ids <==> Inside(points[i], positions, indices, normalize))
  {
    if n > 0 {
      PassingIdsMembers(points, n - 1, positions, indices, normalize);
      PassingIdsAscending(points, n - 1, positions, indices, normalize);
    }
  }

  /** `points` carried into world space by `model`. */
  function TransformAll(points: seq<Vec3>, model: Transform): (w: seq<Vec3>)
    ensures |w| == |points|
    ensures forall k :: 0 <= k < |points| ==> w[k] == Apply(model, points[k])
  {
    seq(|points|, k requires 0 <= k < |points| => Apply(model, points[k]))
  }

  /** Appends id `i` when `point` passes the containment test. */
  method AddIfInside(pointsWithin: seq<nat>, i: nat, point: Vec3, positions: seq<Vec3>, indices: seq<nat>, normalize: Vec3 -> Vec3)
    returns (r: seq<nat>)
    requires TrianglesBelow(indices, |positions|)
    ensures r == pointsWithin + (if Inside(point, positions, indices, normalize) then [i] else [])
  {
    var inside := IsPointInsideConvexMesh(point, positions, indices, normalize);
    r := pointsWithin;
    if inside {
      r := r + [i];
    }
  }

  /** The canonical index buffer of a well-formed mesh names canonical
      positions, so the containment test may read it. */
  lemma CanonicalTrianglesBelow(mesh: Mesh)
    requires IndicesBelow(mesh.indices, |mesh.vertices|)
    ensures TrianglesBelow(CanonicalIndices(Positions(mesh.vertices), mesh.indices),
                           |CanonicalPositions(Positions(mesh.vertices), mesh.indices)|)
  {
  }

  /** `Shapes::GetVertexesWithinMesh`: canonicalises both meshes in model
      space, then keeps the id of every canonical vertex of A whose
      `modelMatrixA` image passes the containment test against B's canonical
      positions. B's positions are NOT transformed: `modelMatrixB` is unused. */
  method GetVertexesWithinMesh(meshA: Mesh, modelMatrixA: Transform, meshB: Mesh, modelMatrixB: Transform, normalize: Vec3 -> Vec3)
    returns (pointsWithin: seq<nat>)
    requires IndicesBelow(meshA.indices, |meshA.vertices|) && IndicesBelow(meshB.indices, |meshB.vertices|)
    ensures var posA := CanonicalPositions(Positions(meshA.vertices), meshA.indices);
            var posB := CanonicalPositions(Positions(meshB.vertices), meshB.indices);
            var idsB := CanonicalIndices(Positions(meshB.vertices), meshB.indices);
      && TrianglesBelow(idsB, |posB|)
      && pointsWithin == PassingIds(TransformAll(posA, modelMatrixA), |posA|, posB, idsB, normalize)
      && (forall k :: 0 <= k < |pointsWithin| ==> pointsWithin[k] < |posA|)
      && (forall j, k :: 0 <= j < k < |pointsWithin| ==> pointsWithin[j] < pointsWithin[k])
      && (forall i :: 0 <= i < |posA| ==>
            (i in pointsWithin <==> Inside(Apply(modelMatrixA, posA[i]), posB, idsB, normalize)))
  {
    var vertexPositionA, indicesA := ExtractUniquePositionsAndIndices(meshA);
    var vertexPositionB, indicesB := ExtractUniquePositionsAndIndices(meshB);
    CanonicalTrianglesBelow(meshB);
    pointsWithin := CollectInsideTransformed(vertexPositionA, modelMatrixA, vertexPositionB, indicesB, normalize);
    TransformedPassingIds(vertexPositionA, modelMatrixA, vertexPositionB, indicesB, normalize);
  }

  /** The loop of `Shapes::GetVertexesWithinMesh`: each point is carried by
      `model` and tested against the mesh (positions, indices). */
  method CollectInsideTransformed(points: seq<Vec3>, model: Transform, positions: seq<Vec3>, indices: seq<nat>, normalize: Vec3 -> Vec3)
    returns (pointsWithin: seq<nat>)
    requires TrianglesBelow(indices, |positions|)
    ensures pointsWithin == PassingIds(TransformAll(points, model), |points|, positions, indices, normalize)
  {
    ghost var world := TransformAll(points, model);
    pointsWithin := [];
    var i := 0;
    while i < |points|
      invariant 0 <= i <= |points|
      invariant pointsWithin == PassingIds(world, i, positions, indices, normalize)
    {
      var worldV0 := Apply(model, points[i]);
      pointsWithin := AddIfInside(pointsWithin, i, worldV0, positions, indices, normalize);
      i := i + 1;
    }
  }

  /** `PassingIdsExactly` for the points carried by `model`. */
  lemma TransformedPassingIds(points: seq<Vec3>, model: Transform, positions: seq<Vec3>, indices: seq<nat>, normalize: Vec3 -> Vec3)
    requires TrianglesBelow(indices, |positions|)
    ensures var ids := PassingIds(TransformAll(points, model), |points|, positions, indices, normalize);
      && (forall k :: 0 <= k < |ids| ==> ids[k] < |points|)
      && (forall j, k :: 0 <= j < k < |ids| ==> ids[j] < ids[k])
      && (forall i :: 0 <= i < |points| ==> (i in ids <==> Inside(Apply(model, points[i]), positions, indices, normalize)))
  {
    var world := TransformAll(points, model);
    PassingIdsExactly(world, |points|, positions, indices, normalize);
    forall i | 0 <= i < |points| ensures world[i] == Apply(model, points[i]) {
    }
  }

  /** `Shapes::GetVertexesWithinMesh2`: the positions of A, in order, that
      pass the containment test against B (all already in world space). */
  method GetVertexesWithinMesh2(vertexPositionA: seq<Vec3>, vertexPositionB: seq<Vec3>, indicesA: seq<nat>,
                                 indicesB: seq<nat>, normalize: Vec3 -> Vec3)
    returns (pointsWithin: seq<Vec3>)
    requires TrianglesBelow(indicesB, |vertexPositionB|)
    ensures var ids := PassingIds(vertexPositionA, |vertexPositionA|, vertexPositionB, indicesB, normalize);
      && |pointsWithin| == |ids|
      && (forall k :: 0 <= k < |ids| ==> ids[k] < |vertexPositionA| && pointsWithin[k] == vertexPositionA[ids[k]])
    ensures forall k :: 0 <= k < |pointsWithin| ==> Inside(pointsWithin[k], vertexPositionB, indicesB, normalize)
  {
    pointsWithin := [];
    var i := 0;
    while i < |vertexPositionA|
      invariant 0 <= i <= |vertexPositionA|
      invariant var ids := PassingIds(vertexPositionA, i, vertexPositionB, indicesB, normalize);
        && |pointsWithin| == |ids|
        && (forall k :: 0 <= k < |ids| ==> ids[k] < i && pointsWithin[k] == vertexPositionA[ids[k]])
      invariant forall k :: 0 <= k < |pointsWithin| ==> Inside(pointsWithin[k], vertexPositionB, indicesB, normalize)
    {
      var inside := IsPointInsideConvexMesh(vertexPositionA[i], vertexPositionB, indicesB, normalize);
      if inside {
        pointsWithin := pointsWithin + [vertexPositionA[i]];
      }
      i := i + 1;
    }
    PassingIdsExactly(vertexPositionA, |vertexPositionA|, vertexPositionB, indicesB, normalize);
  }
}
