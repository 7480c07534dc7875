/** The separating-axis test between two meshes: candidate axes are the
    face normals of both meshes in world space, each mesh's vertices are
    projected onto an axis, and disjoint projection intervals on a
    non-degenerate axis prove the meshes apart. */
module Sat {
  import opened Geometry
  import opened Algebra
  import opened Containment

  /** The normal of triangle `t` of the world-space positions `world`:
      `normalize(cross(v1 - v0, v2 - v0))`. */
  function FaceNormal(world: seq<Vec3>, indices: seq<nat>, t: nat, normalize: Vec3 -> Vec3): Vec3
    requires t < |indices| / 3 && TrianglesBelow(indices, |world|)
  {
    var v0 := Corner(world, indices, t, 0);
    normalize(Cross(Sub(Corner(world, indices, t, 1), v0), Sub(Corner(world, indices, t, 2), v0)))
  }

  /** One normal per whole triangle, in triangle order. */
  function FaceNormals(world: seq<Vec3>, indices: seq<nat>, normalize: Vec3 -> Vec3): (ns: seq<Vec3>)
    requires TrianglesBelow(indices, |world|)
    ensures |ns| == |indices| / 3
  {
    seq(|indices| / 3, t requires 0 <= t < |indices| / 3 => FaceNormal(world, indices, t, normalize))
  }

  /** The index buffer of a well-formed mesh names positions in every
      triangle it holds. */
  lemma WellFormedTrianglesBelow(mesh: Mesh)
    requires WellFormed(mesh)
    ensures TrianglesBelow(mesh.indices, |mesh.vertices|)
  {
  }

  /** When `normalize` only rescales its argument, each face normal is
      orthogonal to both edges of its face from the first corner. */
  lemma FaceNormalIsOrthogonal(world: seq<Vec3>, indices: seq<nat>, t: nat, normalize: Vec3 -> Vec3, factor: Vec3 -> real)
    requires t < |indices| / 3 && TrianglesBelow(indices, |world|)
    requires forall v :: normalize(v) == Scale(v, factor(v))
    ensures var v0 := Corner(world, indices, t, 0);
      && Dot(FaceNormal(world, indices, t, normalize), Sub(Corner(world, indices, t, 1), v0)) == 0.0
      && Dot(FaceNormal(world, indices, t, normalize), Sub(Corner(world, indices, t, 2), v0)) == 0.0
  {
    var v0 := Corner(world, indices, t, 0);
    var e1, e2 := Sub(Corner(world, indices, t, 1), v0), Sub(Corner(world, indices, t, 2), v0);
    var c := Cross(e1, e2);
    CrossOrthogonal(e1, e2);
    ScaledDot(c, factor(c), e1);
    ScaledDot(c, factor(c), e2);
  }

  lemma ScaledDot(a: Vec3, k: real, b: Vec3)
    ensures Dot(Scale(a, k), b) == k * Dot(a, b)
  {
  }

  /** The normal of the face starting at slot `i` of the index buffer. */
  method NormalAt(mesh: Mesh, modelMatrix: Transform, normalize: Vec3 -> Vec3, i: nat) returns (normal: Vec3)
    requires WellFormed(mesh) && i + 3 <= |mesh.indices| && i % 3 == 0
    ensures TrianglesBelow(mesh.indices, |TransformAll(Positions(mesh.vertices), modelMatrix)|)
    ensures normal == FaceNormal(TransformAll(Positions(mesh.vertices), modelMatrix), mesh.indices, i / 3, normalize)
  {
    ghost var world := TransformAll(Positions(mesh.vertices), modelMatrix);
    var idx0, idx1, idx2 := mesh.indices[i], mesh.indices[i + 1], mesh.indices[i + 2];
    var v0 := Apply(modelMatrix, mesh.vertices[idx0].position);
    var v1 := Apply(modelMatrix, mesh.vertices[idx1].position);
    var v2 := Apply(modelMatrix, mesh.vertices[idx2].position);
    assert i == 3 * (i / 3);
    assert v0 == Corner(world, mesh.indices, i / 3, 0);
    assert v1 == Corner(world, mesh.indices, i / 3, 1);
    assert v2 == Corner(world, mesh.indices, i / 3, 2);
    var edge1 := Sub(v1, v0);
    var edge2 := Sub(v2, v0);
    normal := normalize(Cross(edge1, edge2));
  }

  /** `Shapes::CalculateFaceNormals`: the world-space normal of each
      triangle, in triangle order. */
  method CalculateFaceNormals(mesh: Mesh, modelMatrix: Transform, normalize: Vec3 -> Vec3) returns (normals: seq<Vec3>)
    requires WellFormed(mesh)
    ensures TrianglesBelow(mesh.indices, |TransformAll(Positions(mesh.vertices), modelMatrix)|)
    ensures normals == FaceNormals(TransformAll(Positions(mesh.vertices), modelMatrix), mesh.indices, normalize)
  {
    ghost var world := TransformAll(Positions(mesh.vertices), modelMatrix);
    WellFormedTrianglesBelow(mesh);
    normals := [];
    var i := 0;
    while i < |mesh.indices|
      invariant i % 3 == 0 && 0 <= i <= |mesh.indices|
      invariant |normals| == i / 3
      invariant forall t :: 0 <= t < |normals| ==> normals[t] == FaceNormal(world, mesh.indices, t, normalize)
    {
      var normal := NormalAt(mesh, modelMatrix, normalize, i);
      normals := normals + [normal];
      i := i + 3;
    }
  }

  /** The projection of each point onto `axis`. */
  function Projections(world: seq<Vec3>, axis: Vec3): (ps: seq<real>)
    ensures |ps| == |world|
  {
    seq(|world|, i requires 0 <= i < |world| => Dot(world[i], axis))
  }

  /** `min = +inf; min = std::min(min, p)` over the projections. */
  function MinFold(ps: seq<real>): Bound {
    if |ps| == 0 then PosInf else MinBound(MinFold(ps[..|ps| - 1]), Fin(ps[|ps| - 1]))
  }

  /** `max = -inf; max = std::max(max, p)` over the projections. */
  function MaxFold(ps: seq<real>): Bound {
    if |ps| == 0 then NegInf else MaxBound(MaxFold(ps[..|ps| - 1]), Fin(ps[|ps| - 1]))
  }

  /** Over no values the minimum stays +infinity; otherwise it is the least
      value. */
  lemma {:induction false} MinFoldIsMinimum(ps: seq<real>)
    ensures |ps| == 0 <==> MinFold(ps) == PosInf
    ensures |ps| > 0 ==>
      && MinFold(ps).Fin?
      && (exists i :: 0 <= i < |ps| && ps[i] == MinFold(ps).v)
      && (forall i :: 0 <= i < |ps| ==> MinFold(ps).v <= ps[i])
  {
    if |ps| > 0 {
      var p := ps[..|ps| - 1];
      MinFoldIsMinimum(p);
      if |p| > 0 {
        var i :| 0 <= i < |p| && p[i] == MinFold(p).v;
        if MinFold(ps) == MinFold(p) {
          assert ps[i] == MinFold(ps).v;
        }
        forall j | 0 <= j < |ps| ensures MinFold(ps).v <= ps[j] {
          if j < |p| {
            assert ps[j] == p[j];
          }
        }
      }
    }
  }

  /** Over no values the maximum stays -infinity; otherwise it is the
      greatest value. */
  lemma {:induction false} MaxFoldIsMaximum(ps: seq<real>)
    ensures |ps| == 0 <==> MaxFold(ps) == NegInf
    ensures |ps| > 0 ==>
      && MaxFold(ps).Fin?
      && (exists i :: 0 <= i < |ps| && ps[i] == MaxFold(ps).v)
      && (forall i :: 0 <= i < |ps| ==> ps[i] <= MaxFold(ps).v)
  {
    if |ps| > 0 {
      var p := ps[..|ps| - 1];
      MaxFoldIsMaximum(p);
      if |p| > 0 {
        var i :| 0 <= i < |p| && p[i] == MaxFold(p).v;
        if MaxFold(ps) == MaxFold(p) {
          assert ps[i] == MaxFold(ps).v;
        }
        forall j | 0 <= j < |ps| ensures ps[j] <= MaxFold(ps).v {
          if j < |p| {
            assert ps[j] == p[j];
          }
        }
      }
    }
  }

  /** Over a non-empty list the interval is well formed: min <= max. */
  lemma MinNotAboveMax(ps: seq<real>)
    requires |ps| > 0
    ensures MinFold(ps).Fin? && MaxFold(ps).Fin? && MinFold(ps).v <= MaxFold(ps).v
  {
    MinFoldIsMinimum(ps);
    MaxFoldIsMaximum(ps);
  }

  /** `Shapes::ProjectOntoAxis`: the least and the greatest projection of
      the vertices carried by `modelMatrix`, starting from +infinity and
      -infinity. */
  method ProjectOntoAxis(vertices: seq<Vertex>, axis: Vec3, modelMatrix: Transform) returns (min: Bound, max: Bound)
    ensures min == MinFold(Projections(TransformAll(Positions(vertices), modelMatrix), axis))
    ensures max == MaxFold(Projections(TransformAll(Positions(vertices), modelMatrix), axis))
  {
    ghost var ps := Projections(TransformAll(Positions(vertices), modelMatrix), axis);
    min := PosInf;
    max := NegInf;
    var i := 0;
    while i < |vertices|
      invariant 0 <= i <= |vertices|
      invariant min == MinFold(ps[..i]) && max == MaxFold(ps[..i])
    {
      var worldPos := Apply(modelMatrix, vertices[i].position);
      var projection := Dot(worldPos, axis);
      assert projection == ps[i];
      assert ps[..i + 1][..i] == ps[..i];
      min := MinBound(min, Fin(projection));
      max := MaxBound(max, Fin(projection));
      i := i + 1;
    }
    assert ps[..i] == ps;
  }

  /** `glm::length(axis) < 1e-6f`: the axis is skipped. */
  predicate Short(axis: Vec3) {
    SquaredLength(axis) < 0.000001 * 0.000001
  }

  /** The projection intervals of the two point sets on `axis` are
      disjoint: `maxA < minB || maxB < minA`. */
  predicate Disjoint(axis: Vec3, worldA: seq<Vec3>, worldB: seq<Vec3>) {
    var pa, pb := Projections(worldA, axis), Projections(worldB, axis);
    Less(MaxFold(pa), MinFold(pb)) || Less(MaxFold(pb), MinFold(pa))
  }

  /** `axis` is one the test accepts as separating. */
  predicate Separating(axis: Vec3, worldA: seq<Vec3>, worldB: seq<Vec3>) {
    !Short(axis) && Disjoint(axis, worldA, worldB)
  }

  /** A separating axis puts all of A strictly on one side of all of B:
      every projection of A lies below every projection of B, or every one
      lies above. In particular projection i of A differs from projection j
      of B, and the two meshes share no world-space vertex. */
  lemma SeparatingAxisSplitsVertices(axis: Vec3, worldA: seq<Vec3>, worldB: seq<Vec3>, i: nat, j: nat)
    requires Separating(axis, worldA, worldB)
    requires i < |worldA| && j < |worldB|
    ensures || (forall a, b :: 0 <= a < |worldA| && 0 <= b < |worldB| ==> Dot(worldA[a], axis) < Dot(worldB[b], axis))
            || (forall a, b :: 0 <= a < |worldA| && 0 <= b < |worldB| ==> Dot(worldB[b], axis) < Dot(worldA[a], axis))
    ensures Dot(worldA[i], axis) != Dot(worldB[j], axis)
    ensures worldA[i] != worldB[j]
  {
    var pa, pb := Projections(worldA, axis), Projections(worldB, axis);
    MinFoldIsMinimum(pa);
    MaxFoldIsMaximum(pa);
    MinFoldIsMinimum(pb);
    MaxFoldIsMaximum(pb);
    assert forall a :: 0 <= a < |worldA| ==> pa[a] == Dot(worldA[a], axis);
    assert forall b :: 0 <= b < |worldB| ==> pb[b] == Dot(worldB[b], axis);
  }

  /** A mesh without vertices is separated from any mesh by every axis the
      test does not skip: its interval is (+inf, -inf). */
  lemma EmptyMeshIsSeparated(axis: Vec3, worldA: seq<Vec3>, worldB: seq<Vec3>)
    requires |worldA| == 0 && !Short(axis)
    ensures Separating(axis, worldA, worldB)
  {
    MaxFoldIsMaximum(Projections(worldA, axis));
    MinFoldIsMinimum(Projections(worldB, axis));
  }

  /** Projects both meshes onto `axis` and compares the intervals. */
  method IntervalsDisjoint(meshA: Mesh, modelA: Transform, meshB: Mesh, modelB: Transform, axis: Vec3) returns (disjoint: bool)
    ensures disjoint == Disjoint(axis, TransformAll(Positions(meshA.vertices), modelA),
                                 TransformAll(Positions(meshB.vertices), modelB))
  {
    var minA, maxA := ProjectOntoAxis(meshA.vertices, axis, modelA);
    var minB, maxB := ProjectOntoAxis(meshB.vertices, axis, modelB);
    disjoint := Less(maxA, minB) || Less(maxB, minA);
  }

  /** The candidate axes: the face normals of A, then those of B. */
  function Axes(meshA: Mesh, modelA: Transform, meshB: Mesh, modelB: Transform, normalize: Vec3 -> Vec3): (axes: seq<Vec3>)
    requires WellFormed(meshA) && WellFormed(meshB)
    ensures |axes| == |meshA.indices| / 3 + |meshB.indices| / 3
  {
    WellFormedTrianglesBelow(meshA);
    WellFormedTrianglesBelow(meshB);
    FaceNormals(TransformAll(Positions(meshA.vertices), modelA), meshA.indices, normalize)
      + FaceNormals(TransformAll(Positions(meshB.vertices), modelB), meshB.indices, normalize)
  }

  /** `Shapes::AreMeshesIntersectingSAT`: false exactly when some candidate
      axis that is not skipped separates the projections of the two meshes'
      world-space vertices; true otherwise, also when there are no axes. */
  method AreMeshesIntersectingSAT(meshA: Mesh, modelA: Transform, meshB: Mesh, modelB: Transform, normalize: Vec3 -> Vec3)
    returns (r: bool)
    requires WellFormed(meshA) && WellFormed(meshB)
    ensures var axes := Axes(meshA, modelA, meshB, modelB, normalize);
      !r <==> exists k :: 0 <= k < |axes| && Separating(axes[k], TransformAll(Positions(meshA.vertices), modelA),
                                                        TransformAll(Positions(meshB.vertices), modelB))
  {
    var faceNormalsA := CalculateFaceNormals(meshA, modelA, normalize);
    var faceNormalsB := CalculateFaceNormals(meshB, modelB, normalize);
    var axes := faceNormalsA + faceNormalsB;
    assert axes == Axes(meshA, modelA, meshB, modelB, normalize);
    r := NoAxisSeparates(meshA, modelA, meshB, modelB, axes);
  }

  /** The loop over the axes: skips short ones and returns false at the
      first whose projection intervals are disjoint. */
  method NoAxisSeparates(meshA: Mesh, modelA: Transform, meshB: Mesh, modelB: Transform, axes: seq<Vec3>)
    returns (r: bool)
    ensures !r <==> exists k :: 0 <= k < |axes| && Separating(axes[k], TransformAll(Positions(meshA.vertices), modelA),
                                                               TransformAll(Positions(meshB.vertices), modelB))
  {
    ghost var worldA := TransformAll(Positions(meshA.vertices), modelA);
    ghost var worldB := TransformAll(Positions(meshB.vertices), modelB);
    r := true;
    var k := 0;
    while k < |axes|
      invariant 0 <= k <= |axes|
      invariant forall j :: 0 <= j < k ==> !Separating(axes[j], worldA, worldB)
    {
      var axis := axes[k];
      if !Short(axis) {
        var disjoint := IntervalsDisjoint(meshA, modelA, meshB, modelB, axis);
        if disjoint {
          r := false;
          break;
        }
      }
      k := k + 1;
    }
  }

  /** Two meshes whose world-space vertices coincide somewhere are never
      reported apart. */
  lemma SharedVertexMeansIntersecting(axes: seq<Vec3>, worldA: seq<Vec3>, worldB: seq<Vec3>, i: nat, j: nat)
    requires i < |worldA| && j < |worldB| && worldA[i] == worldB[j]
    ensures forall k :: 0 <= k < |axes| ==> !Separating(axes[k], worldA, worldB)
  {
    forall k | 0 <= k < |axes| ensures !Separating(axes[k], worldA, worldB) {
      if Separating(axes[k], worldA, worldB) {
        SeparatingAxisSplitsVertices(axes[k], worldA, worldB, i, j);
      }
    }
  }
}
