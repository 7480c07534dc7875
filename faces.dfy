/** `Shapes::GeneratePolygonIntersectionFaces` and the angle sort it uses.
    For every triangle of mesh A the source collects the points where the
    triangle's edges cross the triangles of mesh B and the vertices of
    either mesh that lie inside the other mesh and in the triangle, removes
    near-duplicates, orders them by angle about their centroid,
    fan-triangulates them, and emits a face when any point is left. */
module Faces {
  import opened Geometry
  import opened Sequences
  import opened Canonicalise
  import opened Containment
  import opened Collector
  import opened Primitives
  import opened Dedup
  import opened Triangulation
  import opened Sat

  // ---------------------------------------------------------------------
  // Centroid and angle key

  /** The component-wise sum of `points`, accumulated front to back. */
  function Sum(points: seq<Vec3>): Vec3 {
    if |points| == 0 then Vec3(0.0, 0.0, 0.0)
    else Add(Sum(points[..|points| - 1]), points[|points| - 1])
  }

  /** The mean of `points`. `None` for an empty list, where the source
      divides the zero vector by zero and obtains NaN components. */
  function Centroid(points: seq<Vec3>): Option<Vec3> {
    if |points| == 0 then None else Some(Mean(Sum(points), |points| as real))
  }

  /** `s / n`, component by component. */
  function Mean(s: Vec3, n: real): Vec3
    requires n != 0.0
  {
    Vec3(s.x / n, s.y / n, s.z / n)
  }

  /** `CalculateCentroid`: the running sum, divided by the point count. */
  method CalculateCentroid(points: seq<Vec3>) returns (centroid: Option<Vec3>)
    ensures centroid == Centroid(points)
  {
    var sum := Vec3(0.0, 0.0, 0.0);
    var i := 0;
    while i < |points|
      invariant 0 <= i <= |points|
      invariant sum == Sum(points[..i])
    {
      assert points[..i + 1][..i] == points[..i];
      sum := Add(sum, points[i]);
      i := i + 1;
    }
    assert points[..i] == points;
    if |points| == 0 {
      centroid := None;
    } else {
      var n := |points| as real;
      centroid := Some(Vec3(sum.x / n, sum.y / n, sum.z / n));
    }
  }

  /** `points`, each moved by `d`. */
  function Shifted(points: seq<Vec3>, d: Vec3): (r: seq<Vec3>)
    ensures |r| == |points|
  {
    seq(|points|, k requires 0 <= k < |points| => Add(points[k], d))
  }

  /** Moving every point by `d` adds `n d` to the sum of `n` points. */
  lemma {:induction false} SumShifted(points: seq<Vec3>, d: Vec3)
    ensures Sum(Shifted(points, d)) == Add(Sum(points), Scale(d, |points| as real))
  {
    var n := |points|;
    if n > 0 {
      var p := points[..n - 1];
      var q := Shifted(points, d);
      assert q[..n - 1] == Shifted(p, d);
      assert q[n - 1] == Add(points[n - 1], d);
      SumShifted(p, d);
      SumStep(Sum(p), points[n - 1], d, (n - 1) as real);
    }
  }

  lemma SumStep(a: Vec3, p: Vec3, d: Vec3, m: real)
    ensures Add(Add(a, Scale(d, m)), Add(p, d)) == Add(Add(a, p), Scale(d, m + 1.0))
  {
  }

  /** Adding `n d` to a sum of n points adds `d` to their mean. */
  lemma MeanOfShiftedSum(s: Vec3, d: Vec3, n: real)
    requires n > 0.0
    ensures Mean(Add(s, Scale(d, n)), n) == Add(Mean(s, n), d)
  {
    assert (s.x + d.x * n) / n == s.x / n + d.x;
    assert (s.y + d.y * n) / n == s.y / n + d.y;
    assert (s.z + d.z * n) / n == s.z / n + d.z;
  }

  /** The centroid moves with its points. */
  lemma CentroidOfShifted(points: seq<Vec3>, d: Vec3)
    requires |points| > 0
    ensures Centroid(Shifted(points, d)) == Some(Add(Centroid(points).value, d))
  {
    SumShifted(points, d);
    MeanOfShiftedSum(Sum(points), d, |points| as real);
  }

  /** `AngleBetweenPoints`: the angle of the point about the centroid in the
      x-y plane, `atan2(dy, dx)`; `atan2` stands for `std::atan2`. */
  function AngleBetweenPoints(point: Vec3, centroid: Vec3, atan2: (real, real) -> real): real {
    atan2(point.y - centroid.y, point.x - centroid.x)
  }

  /** The sort key of the source's comparator, for a fixed centroid. */
  function AngleKey(centroid: Vec3, atan2: (real, real) -> real): Vec3 -> real {
    p => AngleBetweenPoints(p, centroid, atan2)
  }

  /** Moving a polygon changes none of its angle keys: the keys, and so the
      order the sort produces, depend only on the shape. */
  lemma AngleKeysIgnoreTranslation(points: seq<Vec3>, d: Vec3, atan2: (real, real) -> real, k: nat)
    requires k < |points|
    ensures AngleKey(Centroid(Shifted(points, d)).value, atan2)(Shifted(points, d)[k])
         == AngleKey(Centroid(points).value, atan2)(points[k])
  {
    CentroidOfShifted(points, d);
    var c := Centroid(points).value;
    var p := points[k];
    assert Add(p, d).y - Add(c, d).y == p.y - c.y;
    assert Add(p, d).x - Add(c, d).x == p.x - c.x;
  }

  // ---------------------------------------------------------------------
  // Sorting by angle

  /** `s` is in non-decreasing order of `key`: no later element compares
      less than an earlier one. */
  predicate SortedBy<P>(s: seq<P>, key: P -> real) {
    forall i, j :: 0 <= i < j < |s| ==> key(s[i]) <= key(s[j])
  }

  /** Inserts `x` after the elements whose key does not exceed its own. */
  method InsertByKey<P>(sorted: seq<P>, x: P, key: P -> real) returns (r: seq<P>)
    requires SortedBy(sorted, key)
    ensures SortedBy(r, key)
    ensures multiset(r) == multiset(sorted) + multiset{x}
  {
    var j := 0;
    while j < |sorted| && key(sorted[j]) <= key(x)
      invariant 0 <= j <= |sorted|
      invariant forall k :: 0 <= k < j ==> key(sorted[k]) <= key(x)
    {
      j := j + 1;
    }
    assert forall k :: j <= k < |sorted| ==> key(x) < key(sorted[k]) by {
      if j < |sorted| {
        forall k | j <= k < |sorted| ensures key(x) < key(sorted[k]) {
          assert key(sorted[j]) <= key(sorted[k]) || j == k;
        }
      }
    }
    r := sorted[..j] + [x] + sorted[j..];
    InsertionIsSorted(sorted, x, key, j);
    assert sorted == sorted[..j] + sorted[j..];
  }

  /** Placing `x` between the elements whose key does not exceed its own and
      those whose key does keeps the order. */
  lemma InsertionIsSorted<P>(sorted: seq<P>, x: P, key: P -> real, j: nat)
    requires SortedBy(sorted, key) && j <= |sorted|
    requires forall k :: 0 <= k < j ==> key(sorted[k]) <= key(x)
    requires forall k :: j <= k < |sorted| ==> key(x) < key(sorted[k])
    ensures SortedBy(sorted[..j] + [x] + sorted[j..], key)
  {
    var r := sorted[..j] + [x] + sorted[j..];
    forall a, b | 0 <= a < b < |r| ensures key(r[a]) <= key(r[b]) {
      if b < j {
        assert r[a] == sorted[a] && r[b] == sorted[b];
      } else if b == j {
        assert r[a] == sorted[a] && r[b] == x;
      } else if a < j {
        assert r[a] == sorted[a] && r[b] == sorted[b - 1];
      } else if a == j {
        assert r[a] == x && r[b] == sorted[b - 1];
      } else {
        assert r[a] == sorted[a - 1] && r[b] == sorted[b - 1];
      }
    }
  }

  /** The `std::sort` call: any order that is sorted by the key and a
      permutation of the input meets its contract; this is an insertion
      sort. */
  method SortByKey<P>(points: seq<P>, key: P -> real) returns (sorted: seq<P>)
    ensures SortedBy(sorted, key)
    ensures multiset(sorted) == multiset(points)
  {
    sorted := [];
    var i := 0;
    while i < |points|
      invariant 0 <= i <= |points|
      invariant SortedBy(sorted, key)
      invariant multiset(sorted) == multiset(points[..i])
    {
      assert points[..i + 1] == points[..i] + [points[i]];
      sorted := InsertByKey(sorted, points[i], key);
      i := i + 1;
    }
    assert points[..i] == points;
  }

  /** `SortPointsByAngle`: a permutation of the points, ordered by their
      angle about the centroid of the input. */
  method SortPointsByAngle(points: seq<Vec3>, atan2: (real, real) -> real) returns (sorted: seq<Vec3>)
    ensures multiset(sorted) == multiset(points)
    ensures |points| > 0 ==> SortedBy(sorted, AngleKey(Centroid(points).value, atan2))
  {
    var centroid := CalculateCentroid(points);
    if centroid.None? {
      sorted := points;
    } else {
      sorted := SortByKey(points, AngleKey(centroid.value, atan2));
    }
  }

  /** A sorted permutation has as many points as its input, so the sort
      never empties or fills a face. */
  lemma PermutationKeepsSize(a: seq<Vec3>, b: seq<Vec3>)
    requires multiset(a) == multiset(b)
    ensures |a| == |b|
    ensures forall p :: p in a <==> p in b
  {
    assert |multiset(a)| == |a| && |multiset(b)| == |b|;
    forall p ensures p in a <==> p in b {
      assert p in a <==> p in multiset(a);
      assert p in b <==> p in multiset(b);
    }
  }

  // ---------------------------------------------------------------------
  // Candidate points of a face

  /** The data the face loop reads: both meshes canonicalised in world
      space, and each mesh's positions that lie inside the other mesh. */
  datatype Scene = Scene(worldA: seq<Vec3>, idsA: seq<nat>, worldB: seq<Vec3>, idsB: seq<nat>,
                         withinB: seq<Vec3>, withinA: seq<Vec3>)

  /** Both index buffers hold whole triangles naming existing positions. */
  predicate ValidScene(s: Scene) {
    && |s.idsA| % 3 == 0 && TrianglesBelow(s.idsA, |s.worldA|)
    && |s.idsB| % 3 == 0 && TrianglesBelow(s.idsB, |s.worldB|)
  }

  /** The hits of the edges (v0, v1), (v0, v2) and (v1, v2) of triangle t of
      A against the first n triangles of B, in the source's push order. */
  function EdgeHits(s: Scene, t: nat, n: nat, test: HitTest): seq<Vec3>
    requires ValidScene(s) && t < |s.idsA| / 3 && n <= |s.idsB| / 3
  {
    if n == 0 then []
    else
      var a0, a1, a2 := Corner(s.worldA, s.idsA, t, 0), Corner(s.worldA, s.idsA, t, 1), Corner(s.worldA, s.idsA, t, 2);
      EdgeHits(s, t, n - 1, test)
        + TriangleHit(a0, a1, s.worldB, s.idsB, n - 1, test)
        + TriangleHit(a0, a2, s.worldB, s.idsB, n - 1, test)
        + TriangleHit(a1, a2, s.worldB, s.idsB, n - 1, test)
  }

  /** The points, in order, that `IsPointInTriangle` accepts for triangle
      (v0, v1, v2) with its default tolerance. */
  function InTriangle(points: seq<Vec3>, v0: Vec3, v1: Vec3, v2: Vec3): seq<Vec3> {
    if |points| == 0 then []
    else
      var p := points[|points| - 1];
      InTriangle(points[..|points| - 1], v0, v1, v2) + (if IsPointInTriangle(p, v0, v1, v2, TriangleEpsilon) then [p] else [])
  }

  /** Everything pushed into `face.facePoints` for triangle t of A, before
      deduplication. */
  function Candidates(s: Scene, t: nat): seq<Vec3>
    requires ValidScene(s) && t < |s.idsA| / 3
  {
    var a0, a1, a2 := Corner(s.worldA, s.idsA, t, 0), Corner(s.worldA, s.idsA, t, 1), Corner(s.worldA, s.idsA, t, 2);
    EdgeHits(s, t, |s.idsB| / 3, LineIntersectsTriangle) + InTriangle(s.withinB, a0, a1, a2) + InTriangle(s.withinA, a0, a1, a2)
  }

  /** Each edge hit lies on one of the three edges of triangle t and on
      some triangle of B. */
  lemma {:induction false} EdgeHitsAreCrossings(s: Scene, t: nat, n: nat, x: Vec3)
    requires ValidScene(s) && t < |s.idsA| / 3 && n <= |s.idsB| / 3 && x in EdgeHits(s, t, n, LineIntersectsTriangle)
    ensures var a0, a1, a2 := Corner(s.worldA, s.idsA, t, 0), Corner(s.worldA, s.idsA, t, 1), Corner(s.worldA, s.idsA, t, 2);
      exists j :: 0 <= j < n && MeetsTriangleOfB(s, j, a0, a1, a2, x)
  {
    var a0, a1, a2 := Corner(s.worldA, s.idsA, t, 0), Corner(s.worldA, s.idsA, t, 1), Corner(s.worldA, s.idsA, t, 2);
    var j := n - 1;
    var h01 := TriangleHit(a0, a1, s.worldB, s.idsB, j, LineIntersectsTriangle);
    var h02 := TriangleHit(a0, a2, s.worldB, s.idsB, j, LineIntersectsTriangle);
    var h12 := TriangleHit(a1, a2, s.worldB, s.idsB, j, LineIntersectsTriangle);
    var prev := EdgeHits(s, t, j, LineIntersectsTriangle);
    assert EdgeHits(s, t, n, LineIntersectsTriangle) == prev + h01 + h02 + h12;
    if x in prev {
      EdgeHitsAreCrossings(s, t, j, x);
    } else {
      if x in h01 {
        TriangleHitMeets(a0, a1, s.worldB, s.idsB, j, x);
      } else if x in h02 {
        TriangleHitMeets(a0, a2, s.worldB, s.idsB, j, x);
      } else {
        TriangleHitMeets(a1, a2, s.worldB, s.idsB, j, x);
      }
      assert MeetsTriangleOfB(s, j, a0, a1, a2, x);
    }
  }

  /** A reported hit of segment p0 -> p1 with triangle j lies on both. */
  lemma TriangleHitMeets(p0: Vec3, p1: Vec3, world: seq<Vec3>, indices: seq<nat>, j: nat, x: Vec3)
    requires j < |indices| / 3 && TrianglesBelow(indices, |world|)
    requires x in TriangleHit(p0, p1, world, indices, j, LineIntersectsTriangle)
    ensures SegmentMeetsTriangle(p0, p1, Corner(world, indices, j, 0), Corner(world, indices, j, 1), Corner(world, indices, j, 2), x)
  {
    IntersectionIsOnSegmentAndTriangle(p0, p1, Corner(world, indices, j, 0), Corner(world, indices, j, 1), Corner(world, indices, j, 2));
  }

  /** `x` is where an edge of triangle (a0, a1, a2) meets triangle j of B. */
  ghost predicate MeetsTriangleOfB(s: Scene, j: nat, a0: Vec3, a1: Vec3, a2: Vec3, x: Vec3)
    requires ValidScene(s) && j < |s.idsB| / 3
  {
    var b0, b1, b2 := Corner(s.worldB, s.idsB, j, 0), Corner(s.worldB, s.idsB, j, 1), Corner(s.worldB, s.idsB, j, 2);
    || SegmentMeetsTriangle(a0, a1, b0, b1, b2, x)
    || SegmentMeetsTriangle(a0, a2, b0, b1, b2, x)
    || SegmentMeetsTriangle(a1, a2, b0, b1, b2, x)
  }

  /** The filter keeps exactly the points the triangle test accepts. */
  lemma {:induction false} InTriangleMembers(points: seq<Vec3>, v0: Vec3, v1: Vec3, v2: Vec3, x: Vec3)
    ensures x in InTriangle(points, v0, v1, v2) <==> x in points && IsPointInTriangle(x, v0, v1, v2, TriangleEpsilon)
  {
    if |points| > 0 {
      var p := points[..|points| - 1];
      InTriangleMembers(p, v0, v1, v2, x);
      assert points == p + [points[|points| - 1]];
    }
  }

  /** Where each candidate comes from: a crossing of an edge of triangle t
      with a triangle of B, or a contained vertex of B or of A that
      `IsPointInTriangle` accepts. */
  lemma CandidateOrigins(s: Scene, t: nat, x: Vec3)
    requires ValidScene(s) && t < |s.idsA| / 3 && x in Candidates(s, t)
    ensures var a0, a1, a2 := Corner(s.worldA, s.idsA, t, 0), Corner(s.worldA, s.idsA, t, 1), Corner(s.worldA, s.idsA, t, 2);
      || (exists j :: 0 <= j < |s.idsB| / 3 && MeetsTriangleOfB(s, j, a0, a1, a2, x))
      || (x in s.withinB && IsPointInTriangle(x, a0, a1, a2, TriangleEpsilon))
      || (x in s.withinA && IsPointInTriangle(x, a0, a1, a2, TriangleEpsilon))
  {
    var a0, a1, a2 := Corner(s.worldA, s.idsA, t, 0), Corner(s.worldA, s.idsA, t, 1), Corner(s.worldA, s.idsA, t, 2);
    var e := EdgeHits(s, t, |s.idsB| / 3, LineIntersectsTriangle);
    if x in e {
      EdgeHitsAreCrossings(s, t, |s.idsB| / 3, x);
    } else if x in InTriangle(s.withinB, a0, a1, a2) {
      InTriangleMembers(s.withinB, a0, a1, a2, x);
    } else {
      InTriangleMembers(s.withinA, a0, a1, a2, x);
    }
  }

  // ---------------------------------------------------------------------
  // Faces

  /** The source's `Face`: its normal, its points and its fan indices. */
  datatype Face = Face(normal: Vec3, facePoints: seq<Vec3>, indices: seq<nat>)

  /** `indices` is what `TriangulateConvexPolygon` returns for `points`. */
  ghost predicate Triangulates(indices: seq<nat>, points: seq<Vec3>, normal: Vec3, normalize: Vec3 -> Vec3) {
    && (|points| < 3 ==> indices == [])
    && (|points| >= 3 ==> IsFan(indices, |points|, Opposed(points, normal, normalize)))
  }

  /** `face` is the face the loop builds for triangle t of A: the
      triangle's normal, a permutation of its deduplicated candidates
      sorted by angle about their centroid, and their fan. */
  ghost predicate IsFaceOf(s: Scene, face: Face, t: nat, normalize: Vec3 -> Vec3, atan2: (real, real) -> real)
    requires ValidScene(s) && t < |s.idsA| / 3
  {
    var kept := GreedyDedup(Candidates(s, t), Near);
    && face.normal == FaceNormal(s.worldA, s.idsA, t, normalize)
    && multiset(face.facePoints) == multiset(kept)
    && (|kept| > 0 ==> SortedBy(face.facePoints, AngleKey(Centroid(kept).value, atan2)))
    && Triangulates(face.indices, face.facePoints, face.normal, normalize)
  }

  /** `faces` are the faces of the triangles `triangles` of A, and those are,
      in increasing order, exactly the triangles below n whose deduplicated
      candidate list is non-empty. */
  ghost predicate FacesUpTo(s: Scene, faces: seq<Face>, triangles: seq<nat>, n: nat,
                            normalize: Vec3 -> Vec3, atan2: (real, real) -> real)
    requires ValidScene(s) && n <= |s.idsA| / 3
  {
    && FacesMatch(s, faces, triangles, n, normalize, atan2)
    && Increasing(triangles)
    && EmittedExactly(s, triangles, n)
  }

  /** Face k is the face of triangle `triangles[k]`, which is below n. */
  ghost predicate FacesMatch(s: Scene, faces: seq<Face>, triangles: seq<nat>, n: nat,
                             normalize: Vec3 -> Vec3, atan2: (real, real) -> real)
    requires ValidScene(s) && n <= |s.idsA| / 3
  {
    && |triangles| == |faces|
    && (forall k :: 0 <= k < |triangles| ==> triangles[k] < n && IsFaceOf(s, faces[k], triangles[k], normalize, atan2))
  }

  predicate Increasing(xs: seq<nat>) {
    forall j, k :: 0 <= j < k < |xs| ==> xs[j] < xs[k]
  }

  /** The triangles below n listed are those with a point left. */
  ghost predicate EmittedExactly(s: Scene, triangles: seq<nat>, n: nat)
    requires ValidScene(s) && n <= |s.idsA| / 3
  {
    forall t :: 0 <= t < n ==> (t in triangles <==> GreedyDedup(Candidates(s, t), Near) != [])
  }

  /** The three tests of triangle u of B, whose indices start at j, against
      the edges (v0, v1), (v0, v2) and (v1, v2) of A's triangle, appended in
      the source's order. */
  method AddEdgeHits(hits: seq<Vec3>, s: Scene, j: nat, ghost u: nat, v0: Vec3, v1: Vec3, v2: Vec3, test: HitTest)
    returns (r: seq<Vec3>)
    requires ValidScene(s) && u < |s.idsB| / 3 && j == 3 * u
    ensures r == hits + TriangleHit(v0, v1, s.worldB, s.idsB, u, test)
                      + TriangleHit(v0, v2, s.worldB, s.idsB, u, test)
                      + TriangleHit(v1, v2, s.worldB, s.idsB, u, test)
  {
    var b0, b1, b2 := s.worldB[s.idsB[j]], s.worldB[s.idsB[j + 1]], s.worldB[s.idsB[j + 2]];
    r := hits;
    var intersect := test(v0, v1, b0, b1, b2);
    if intersect.Some? {
      r := r + [intersect.value];
    }
    intersect := test(v0, v2, b0, b1, b2);
    if intersect.Some? {
      r := r + [intersect.value];
    }
    intersect := test(v1, v2, b0, b1, b2);
    if intersect.Some? {
      r := r + [intersect.value];
    }
  }

  /** The inner loop over the triangles of B. */
  method CollectEdgeHits(s: Scene, t: nat, test: HitTest) returns (hits: seq<Vec3>)
    requires ValidScene(s) && t < |s.idsA| / 3
    ensures hits == EdgeHits(s, t, |s.idsB| / 3, test)
  {
    var i := 3 * t;
    var v0, v1, v2 := s.worldA[s.idsA[i]], s.worldA[s.idsA[i + 1]], s.worldA[s.idsA[i + 2]];
    assert v0 == Corner(s.worldA, s.idsA, t, 0) && v1 == Corner(s.worldA, s.idsA, t, 1) && v2 == Corner(s.worldA, s.idsA, t, 2);
    ghost var m := |s.idsB| / 3;
    assert |s.idsB| == 3 * m;
    hits := [];
    var j := 0;
    ghost var u := 0;
    while j < |s.idsB|
      invariant j == 3 * u && u <= m
      invariant hits == EdgeHits(s, t, u, test)
    {
      hits := AddEdgeHits(hits, s, j, u, v0, v1, v2, test);
      j := j + 3;
      u := u + 1;
    }
  }

  /** One of the loops over the contained points: appends, in order, the
      points inside triangle (v0, v1, v2). */
  method AddPointsInTriangle(facePoints: seq<Vec3>, points: seq<Vec3>, v0: Vec3, v1: Vec3, v2: Vec3)
    returns (r: seq<Vec3>)
    ensures r == facePoints + InTriangle(points, v0, v1, v2)
  {
    r := facePoints;
    var k := 0;
    while k < |points|
      invariant 0 <= k <= |points|
      invariant r == facePoints + InTriangle(points[..k], v0, v1, v2)
    {
      assert points[..k + 1][..k] == points[..k];
      if IsPointInTriangle(points[k], v0, v1, v2, TriangleEpsilon) {
        r := r + [points[k]];
      }
      k := k + 1;
    }
    assert points[..k] == points;
  }

  /** Everything the loop body pushes into `face.facePoints`: the edge hits
      against B, then the points of A inside B, then those of B inside A,
      that lie in the triangle. */
  method CollectCandidates(s: Scene, t: nat) returns (facePoints: seq<Vec3>)
    requires ValidScene(s) && t < |s.idsA| / 3
    ensures facePoints == Candidates(s, t)
  {
    var i := 3 * t;
    var v0, v1, v2 := s.worldA[s.idsA[i]], s.worldA[s.idsA[i + 1]], s.worldA[s.idsA[i + 2]];
    facePoints := CollectEdgeHits(s, t, LineIntersectsTriangle);
    facePoints := AddPointsInTriangle(facePoints, s.withinB, v0, v1, v2);
    facePoints := AddPointsInTriangle(facePoints, s.withinA, v0, v1, v2);
  }

  /** The body of the loop over the triangles of A, up to the emptiness test. */
  method AssembleFace(s: Scene, t: nat, normalize: Vec3 -> Vec3, atan2: (real, real) -> real) returns (face: Face)
    requires ValidScene(s) && t < |s.idsA| / 3
    ensures IsFaceOf(s, face, t, normalize, atan2)
  {
    var i := 3 * t;
    var v0, v1, v2 := s.worldA[s.idsA[i]], s.worldA[s.idsA[i + 1]], s.worldA[s.idsA[i + 2]];
    var normal := normalize(Cross(Sub(v1, v0), Sub(v2, v0)));
    assert normal == FaceNormal(s.worldA, s.idsA, t, normalize);
    var facePoints := CollectCandidates(s, t);
    var uniquePoints := DeduplicatePoints(facePoints, Near);
    uniquePoints := SortPointsByAngle(uniquePoints, atan2);
    var indices := TriangulateConvexPolygon(uniquePoints, normal, normalize);
    face := Face(normal, uniquePoints, indices);
  }

  /** The loop over the triangles of A: a face for every triangle with any
      point left after deduplication, in triangle order. */
  method AssembleFaces(s: Scene, normalize: Vec3 -> Vec3, atan2: (real, real) -> real)
    returns (faces: seq<Face>, ghost triangles: seq<nat>)
    requires ValidScene(s)
    ensures FacesUpTo(s, faces, triangles, |s.idsA| / 3, normalize, atan2)
  {
    faces := [];
    triangles := [];
    var i := 0;
    var t := 0;
    while i < |s.idsA|
      invariant i == 3 * t && t <= |s.idsA| / 3
      invariant FacesUpTo(s, faces, triangles, t, normalize, atan2)
    {
      faces, triangles := AddFace(s, faces, triangles, t, normalize, atan2);
      i := i + 3;
      t := t + 1;
    }
  }

  /** The body of the loop over the triangles of A: the face of triangle t,
      pushed when it has a point. */
  method AddFace(s: Scene, faces: seq<Face>, ghost triangles: seq<nat>, t: nat,
                 normalize: Vec3 -> Vec3, atan2: (real, real) -> real)
    returns (faces': seq<Face>, ghost triangles': seq<nat>)
    requires ValidScene(s) && t < |s.idsA| / 3
    requires FacesUpTo(s, faces, triangles, t, normalize, atan2)
    ensures FacesUpTo(s, faces', triangles', t + 1, normalize, atan2)
  {
    var face := AssembleFace(s, t, normalize, atan2);
    if |face.facePoints| > 0 {
      FacesUpToEmit(s, faces, triangles, t, face, normalize, atan2);
      faces' := faces + [face];
      triangles' := triangles + [t];
    } else {
      FacesUpToSkip(s, faces, triangles, t, face, normalize, atan2);
      faces' := faces;
      triangles' := triangles;
    }
  }

  /** A triangle whose face has points adds that face. */
  lemma FacesUpToEmit(s: Scene, faces: seq<Face>, triangles: seq<nat>, t: nat, face: Face,
                      normalize: Vec3 -> Vec3, atan2: (real, real) -> real)
    requires ValidScene(s) && t < |s.idsA| / 3
    requires FacesUpTo(s, faces, triangles, t, normalize, atan2)
    requires IsFaceOf(s, face, t, normalize, atan2) && |face.facePoints| > 0
    ensures FacesUpTo(s, faces + [face], triangles + [t], t + 1, normalize, atan2)
  {
    PermutationKeepsSize(face.facePoints, GreedyDedup(Candidates(s, t), Near));
    MatchEmit(s, faces, triangles, t, face, normalize, atan2);
    IncreasingEmit(triangles, t);
    ExactlyEmit(s, triangles, t);
  }

  lemma MatchEmit(s: Scene, faces: seq<Face>, triangles: seq<nat>, t: nat, face: Face,
                  normalize: Vec3 -> Vec3, atan2: (real, real) -> real)
    requires ValidScene(s) && t < |s.idsA| / 3
    requires FacesMatch(s, faces, triangles, t, normalize, atan2)
    requires IsFaceOf(s, face, t, normalize, atan2)
    ensures FacesMatch(s, faces + [face], triangles + [t], t + 1, normalize, atan2)
  {
    var fs, ts := faces + [face], triangles + [t];
    forall k | 0 <= k < |ts| ensures ts[k] < t + 1 && IsFaceOf(s, fs[k], ts[k], normalize, atan2) {
      if k < |triangles| {
        assert ts[k] == triangles[k] && fs[k] == faces[k];
      }
    }
  }

  lemma IncreasingEmit(triangles: seq<nat>, t: nat)
    requires Increasing(triangles) && forall k :: 0 <= k < |triangles| ==> triangles[k] < t
    ensures Increasing(triangles + [t])
  {
  }

  lemma ExactlyEmit(s: Scene, triangles: seq<nat>, t: nat)
    requires ValidScene(s) && t < |s.idsA| / 3
    requires EmittedExactly(s, triangles, t) && GreedyDedup(Candidates(s, t), Near) != []
    ensures EmittedExactly(s, triangles + [t], t + 1)
  {
    forall u | 0 <= u < t + 1 ensures u in triangles + [t] <==> GreedyDedup(Candidates(s, u), Near) != [] {
      assert u in triangles + [t] <==> u in triangles || u == t;
    }
  }

  /** A triangle whose face has no point adds nothing. */
  lemma FacesUpToSkip(s: Scene, faces: seq<Face>, triangles: seq<nat>, t: nat, face: Face,
                      normalize: Vec3 -> Vec3, atan2: (real, real) -> real)
    requires ValidScene(s) && t < |s.idsA| / 3
    requires FacesUpTo(s, faces, triangles, t, normalize, atan2)
    requires IsFaceOf(s, face, t, normalize, atan2) && |face.facePoints| == 0
    ensures FacesUpTo(s, faces, triangles, t + 1, normalize, atan2)
  {
    PermutationKeepsSize(face.facePoints, GreedyDedup(Candidates(s, t), Near));
    assert FacesMatch(s, faces, triangles, t + 1, normalize, atan2);
    ExactlySkip(s, triangles, t);
  }

  lemma ExactlySkip(s: Scene, triangles: seq<nat>, t: nat)
    requires ValidScene(s) && t < |s.idsA| / 3
    requires EmittedExactly(s, triangles, t) && GreedyDedup(Candidates(s, t), Near) == []
    requires forall k :: 0 <= k < |triangles| ==> triangles[k] < t
    ensures EmittedExactly(s, triangles, t + 1)
  {
    assert t !in triangles;
  }

  // ---------------------------------------------------------------------
  // The whole operation

  /** A strictly increasing list of naturals below n has at most n
      elements. */
  lemma {:induction false} IncreasingBelowIsShort(xs: seq<nat>, n: nat)
    requires Increasing(xs)
    requires forall k :: 0 <= k < |xs| ==> xs[k] < n
    ensures |xs| <= n
  {
    if |xs| > 0 {
      var last := xs[|xs| - 1];
      IncreasingBelowIsShort(xs[..|xs| - 1], last);
    }
  }

  /** A permutation of the points the greedy scan keeps from `c` holds
      only points of `c`. */
  lemma KeptAreCandidates(c: seq<Vec3>, points: seq<Vec3>)
    requires multiset(points) == multiset(GreedyDedup(c, Near))
    ensures forall x :: x in points ==> x in c
  {
    var kept := GreedyDedup(c, Near);
    GreedyDedupIsSubsequence(c, Near);
    var f :| SubsequenceAt(kept, c, f);
    forall x | x in points ensures x in c {
      assert x in multiset(kept);
      var k :| 0 <= k < |kept| && kept[k] == x;
      assert c[f[k]] == x;
    }
  }

  /** A permutation of the points the greedy scan keeps from `c` has a
      point near every point of `c`. */
  lemma CandidatesNearKept(c: seq<Vec3>, points: seq<Vec3>)
    requires multiset(points) == multiset(GreedyDedup(c, Near))
    ensures forall i :: 0 <= i < |c| ==> exists y :: y in points && Near(c[i], y)
  {
    var kept := GreedyDedup(c, Near);
    NearIsReflexiveAndSymmetric();
    forall i | 0 <= i < |c| ensures exists y :: y in points && Near(c[i], y) {
      GreedyDedupCovers(c, Near, i);
      var j :| 0 <= j < |kept| && Near(c[i], kept[j]);
      assert kept[j] in multiset(points);
    }
  }

  /** The face of triangle t has a point; it has no indices when it has
      fewer than three; each of its points is a candidate of t, and each
      candidate of t is near one of its points. */
  ghost predicate FaceSound(s: Scene, face: Face, t: nat)
    requires ValidScene(s) && t < |s.idsA| / 3
  {
    && |face.facePoints| > 0
    && (|face.facePoints| < 3 ==> face.indices == [])
    && (forall x :: x in face.facePoints ==> x in Candidates(s, t))
    && (forall i :: 0 <= i < |Candidates(s, t)| ==>
          exists y :: y in face.facePoints && Near(Candidates(s, t)[i], y))
  }

  /** The face the loop builds for a triangle with a point left is sound. */
  lemma FaceOfProperties(s: Scene, face: Face, t: nat, normalize: Vec3 -> Vec3, atan2: (real, real) -> real)
    requires ValidScene(s) && t < |s.idsA| / 3
    requires IsFaceOf(s, face, t, normalize, atan2)
    requires GreedyDedup(Candidates(s, t), Near) != []
    ensures FaceSound(s, face, t)
  {
    var c := Candidates(s, t);
    var kept := GreedyDedup(c, Near);
    assert multiset(face.facePoints) == multiset(kept);
    assert |face.facePoints| == |multiset(face.facePoints)| == |multiset(kept)| == |kept|;
    KeptAreCandidates(c, face.facePoints);
    CandidatesNearKept(c, face.facePoints);
  }

  /** What the faces up to triangle n amount to: at most one face per
      triangle; every face is sound for its triangle (it has a point, no
      indices below three points, only candidates of its triangle, and a
      point near every candidate); a triangle without a face has no
      candidate at all. */
  lemma FacesProperties(s: Scene, faces: seq<Face>, triangles: seq<nat>, n: nat,
                        normalize: Vec3 -> Vec3, atan2: (real, real) -> real)
    requires ValidScene(s) && n <= |s.idsA| / 3
    requires FacesUpTo(s, faces, triangles, n, normalize, atan2)
    ensures |faces| <= n
    ensures forall k :: 0 <= k < |faces| ==> triangles[k] < n && FaceSound(s, faces[k], triangles[k])
    ensures forall t :: 0 <= t < n && t !in triangles ==> Candidates(s, t) == []
  {
    IncreasingBelowIsShort(triangles, n);
    forall k | 0 <= k < |faces| ensures triangles[k] < n && FaceSound(s, faces[k], triangles[k]) {
      assert triangles[k] in triangles;
      FaceOfProperties(s, faces[k], triangles[k], normalize, atan2);
    }
    UnlistedHaveNoCandidates(s, triangles, n);
  }

  /** A triangle below n that the faces do not list has no candidate. */
  lemma UnlistedHaveNoCandidates(s: Scene, triangles: seq<nat>, n: nat)
    requires ValidScene(s) && n <= |s.idsA| / 3
    requires EmittedExactly(s, triangles, n)
    ensures forall t :: 0 <= t < n && t !in triangles ==> Candidates(s, t) == []
  {
    forall t | 0 <= t < n && t !in triangles ensures Candidates(s, t) == [] {
      if Candidates(s, t) != [] {
        GreedyDedupKeepsFirst(Candidates(s, t), Near);
      }
    }
  }

  /** The positions of `points`, in order, inside the mesh (positions,
      indices). */
  ghost function Within(points: seq<Vec3>, n: nat, positions: seq<Vec3>, indices: seq<nat>, normalize: Vec3 -> Vec3): seq<Vec3>
    requires n <= |points| && TrianglesBelow(indices, |positions|)
  {
    if n == 0 then []
    else Within(points, n - 1, positions, indices, normalize)
         + (if Inside(points[n - 1], positions, indices, normalize) then [points[n - 1]] else [])
  }

  /** `Within` lists the points `PassingIds` names. */
  lemma {:induction false} WithinIsPassing(points: seq<Vec3>, n: nat, positions: seq<Vec3>, indices: seq<nat>, normalize: Vec3 -> Vec3)
    requires n <= |points| && TrianglesBelow(indices, |positions|)
    ensures var ids := PassingIds(points, n, positions, indices, normalize);
            var w := Within(points, n, positions, indices, normalize);
      |w| == |ids| && forall k :: 0 <= k < |ids| ==> ids[k] < |points| && w[k] == points[ids[k]]
  {
    PassingIdsAscending(points, n, positions, indices, normalize);
    if n > 0 {
      WithinIsPassing(points, n - 1, positions, indices, normalize);
    }
  }

  /** The result of `GetVertexesWithinMesh2` is `Within`. */
  lemma WithinOfFilter(points: seq<Vec3>, positions: seq<Vec3>, indices: seq<nat>, normalize: Vec3 -> Vec3, r: seq<Vec3>)
    requires TrianglesBelow(indices, |positions|)
    requires var ids := PassingIds(points, |points|, positions, indices, normalize);
      && |r| == |ids|
      && (forall k :: 0 <= k < |ids| ==> ids[k] < |points| && r[k] == points[ids[k]])
    ensures r == Within(points, |points|, positions, indices, normalize)
  {
    WithinIsPassing(points, |points|, positions, indices, normalize);
  }

  /** The scene over two canonicalised meshes: their positions and index
      buffers, and the points of each inside the other. */
  ghost function SceneOf(pA: seq<Vec3>, iA: seq<nat>, pB: seq<Vec3>, iB: seq<nat>, normalize: Vec3 -> Vec3): (s: Scene)
    requires |iA| % 3 == 0 && IndicesBelow(iA, |pA|)
    requires |iB| % 3 == 0 && IndicesBelow(iB, |pB|)
    ensures ValidScene(s)
    ensures s.worldA == pA && s.idsA == iA && s.worldB == pB && s.idsB == iB
  {
    Scene(pA, iA, pB, iB, Within(pA, |pA|, pB, iB, normalize), Within(pB, |pB|, pA, iA, normalize))
  }

  /** The as-written world pass of `Shapes::ExtractUniquePositionsAndIndicesWorld`
      over a mesh: slot by slot, the map is searched by model-space position,
      and a new slot is keyed and filled with its world position. */
  function WorldScan(mesh: Mesh, model: Transform): (st: ScanState)
    requires WellFormed(mesh)
    ensures |st.ids| == |mesh.indices| && IndicesBelow(st.ids, |st.out|)
  {
    var local := Referenced(Positions(mesh.vertices), mesh.indices);
    var world := Referenced(Positions(WorldVertices(mesh.vertices, model)), mesh.indices);
    ScanValid(local, world, |mesh.indices|);
    Scan(local, world, |mesh.indices|)
  }

  /** The scene the source prepares: each mesh through the as-written world
      pass (searched by model-space position, filled with world positions),
      and the points of each inside the other. */
  ghost function Prepare(meshA: Mesh, modelA: Transform, meshB: Mesh, modelB: Transform, normalize: Vec3 -> Vec3): (s: Scene)
    requires WellFormed(meshA) && WellFormed(meshB)
    ensures ValidScene(s)
    ensures s.worldA == WorldScan(meshA, modelA).out && s.idsA == WorldScan(meshA, modelA).ids
    ensures s.worldB == WorldScan(meshB, modelB).out && s.idsB == WorldScan(meshB, modelB).ids
  {
    var stA, stB := WorldScan(meshA, modelA), WorldScan(meshB, modelB);
    SceneOf(stA.out, stA.ids, stB.out, stB.ids, normalize)
  }

  /** The scene with the intended world canonicaliser: each mesh
      deduplicated with its transformed position as the key. */
  ghost function PrepareIntended(meshA: Mesh, modelA: Transform, meshB: Mesh, modelB: Transform, normalize: Vec3 -> Vec3): (s: Scene)
    requires WellFormed(meshA) && WellFormed(meshB)
    ensures ValidScene(s)
    ensures s.worldA == CanonicalPositions(Positions(WorldVertices(meshA.vertices, modelA)), meshA.indices)
    ensures s.idsA == CanonicalIndices(Positions(WorldVertices(meshA.vertices, modelA)), meshA.indices)
    ensures s.worldB == CanonicalPositions(Positions(WorldVertices(meshB.vertices, modelB)), meshB.indices)
    ensures s.idsB == CanonicalIndices(Positions(WorldVertices(meshB.vertices, modelB)), meshB.indices)
  {
    var wA := Positions(WorldVertices(meshA.vertices, modelA));
    var wB := Positions(WorldVertices(meshB.vertices, modelB));
    SceneOf(CanonicalPositions(wA, meshA.indices), CanonicalIndices(wA, meshA.indices),
            CanonicalPositions(wB, meshB.indices), CanonicalIndices(wB, meshB.indices), normalize)
  }

  /** When the model matrix carries the first corner of the first triangle
      onto the model-space position of the second corner (the triangle
      (0,0,0), (1,0,0), (0,1,0) translated by +1 along x, say), the as-written
      pass finds the second corner under the first corner's world key: the
      prepared triangle repeats id 0 and is degenerate. The intended pass
      keeps the two corners apart whenever their world positions differ. */
  lemma ShiftedCornerCollapses(mesh: Mesh, model: Transform)
    requires WellFormed(mesh) && |mesh.indices| >= 3
    requires Apply(model, mesh.vertices[mesh.indices[0]].position) == mesh.vertices[mesh.indices[1]].position
    ensures WorldScan(mesh, model).ids[0] == 0 && WorldScan(mesh, model).ids[1] == 0
    ensures var world := Positions(WorldVertices(mesh.vertices, model));
      world[mesh.indices[0]] != world[mesh.indices[1]] ==>
        CanonicalIndices(world, mesh.indices)[0] != CanonicalIndices(world, mesh.indices)[1]
  {
    var local := Referenced(Positions(mesh.vertices), mesh.indices);
    var world := Referenced(Positions(WorldVertices(mesh.vertices, model)), mesh.indices);
    assert local[1] == world[0];
    assert Scan(local, world, 1) == ScanState([world[0]], [0], map[world[0] := 0]);
    assert Scan(local, world, 2).ids == [0, 0];
    ScanIdsPrefix(local, world, 2, |mesh.indices|);
  }

  /** All face points, face after face. */
  function AllPoints(faces: seq<Face>): seq<Vec3> {
    if |faces| == 0 then [] else AllPoints(faces[..|faces| - 1]) + faces[|faces| - 1].facePoints
  }

  /** Continuing the greedy scan over more points is the scan of the
      concatenation. */
  lemma GreedyDedupSnoc(points: seq<Vec3>, x: Vec3)
    ensures GreedyDedup(points + [x], Near) == GreedyStep(GreedyDedup(points, Near), x, Near)
  {
    assert (points + [x])[..|points|] == points;
  }

  /** The final loop: one greedy scan over the points of every face. Its
      result is only printed by the source. */
  method DeduplicateFacePoints(faces: seq<Face>) returns (uniquePoints: seq<Vec3>)
    ensures uniquePoints == GreedyDedup(AllPoints(faces), Near)
  {
    uniquePoints := [];
    var f := 0;
    while f < |faces|
      invariant 0 <= f <= |faces|
      invariant uniquePoints == GreedyDedup(AllPoints(faces[..f]), Near)
    {
      assert faces[..f + 1][..f] == faces[..f];
      uniquePoints := AddAllUnique(uniquePoints, AllPoints(faces[..f]), faces[f].facePoints);
      f := f + 1;
    }
    assert faces[..f] == faces;
  }

  /** The inner loop over one face's points, continuing the scan. */
  method AddAllUnique(uniquePoints: seq<Vec3>, ghost before: seq<Vec3>, points: seq<Vec3>) returns (r: seq<Vec3>)
    requires uniquePoints == GreedyDedup(before, Near)
    ensures r == GreedyDedup(before + points, Near)
  {
    r := uniquePoints;
    var k := 0;
    assert before + points[..0] == before;
    while k < |points|
      invariant 0 <= k <= |points|
      invariant r == GreedyDedup(before + points[..k], Near)
    {
      GreedyDedupSnoc(before + points[..k], points[k]);
      assert before + points[..k + 1] == before + points[..k] + [points[k]];
      r := AddUnique(r, points[k], Near);
      k := k + 1;
    }
    assert points[..k] == points;
  }

  /** `Shapes::GeneratePolygonIntersectionFaces`. `printed` is the
      deduplicated list of all face points that the source writes to the
      console. */
  method GeneratePolygonIntersectionFaces(meshA: Mesh, modelMatrixA: Transform, meshB: Mesh, modelMatrixB: Transform,
                                          normalize: Vec3 -> Vec3, atan2: (real, real) -> real)
    returns (faces: seq<Face>, printed: seq<Vec3>, ghost triangles: seq<nat>)
    requires WellFormed(meshA) && WellFormed(meshB)
    ensures var s := Prepare(meshA, modelMatrixA, meshB, modelMatrixB, normalize);
      FacesUpTo(s, faces, triangles, |s.idsA| / 3, normalize, atan2)
    ensures printed == GreedyDedup(AllPoints(faces), Near)
  {
    ghost var s := Prepare(meshA, modelMatrixA, meshB, modelMatrixB, normalize);
    var vertexPositionA, indicesA := ExtractUniquePositionsAndIndicesWorld(meshA, modelMatrixA);
    var vertexPositionB, indicesB := ExtractUniquePositionsAndIndicesWorld(meshB, modelMatrixB);
    faces, printed, triangles := FacesOfScene(vertexPositionA, indicesA, vertexPositionB, indicesB, normalize, atan2);
  }

  /** `GeneratePolygonIntersectionFaces` with the intended world
      canonicaliser in place of the as-written one. */
  method GeneratePolygonIntersectionFacesIntended(meshA: Mesh, modelMatrixA: Transform, meshB: Mesh, modelMatrixB: Transform,
                                                  normalize: Vec3 -> Vec3, atan2: (real, real) -> real)
    returns (faces: seq<Face>, printed: seq<Vec3>, ghost triangles: seq<nat>)
    requires WellFormed(meshA) && WellFormed(meshB)
    ensures var s := PrepareIntended(meshA, modelMatrixA, meshB, modelMatrixB, normalize);
      FacesUpTo(s, faces, triangles, |s.idsA| / 3, normalize, atan2)
    ensures printed == GreedyDedup(AllPoints(faces), Near)
  {
    ghost var s := PrepareIntended(meshA, modelMatrixA, meshB, modelMatrixB, normalize);
    var vertexPositionA, indicesA := ExtractUniqueWorldPositionsAndIndices(meshA, modelMatrixA);
    var vertexPositionB, indicesB := ExtractUniqueWorldPositionsAndIndices(meshB, modelMatrixB);
    faces, printed, triangles := FacesOfScene(vertexPositionA, indicesA, vertexPositionB, indicesB, normalize, atan2);
  }

  /** The rest of `GeneratePolygonIntersectionFaces` once both index buffers
      are built: the two containment filters, the face loop, and the final
      deduplication of the face points. */
  method FacesOfScene(vertexPositionA: seq<Vec3>, indicesA: seq<nat>, vertexPositionB: seq<Vec3>, indicesB: seq<nat>,
                      normalize: Vec3 -> Vec3, atan2: (real, real) -> real)
    returns (faces: seq<Face>, printed: seq<Vec3>, ghost triangles: seq<nat>)
    requires |indicesA| % 3 == 0 && IndicesBelow(indicesA, |vertexPositionA|)
    requires |indicesB| % 3 == 0 && IndicesBelow(indicesB, |vertexPositionB|)
    ensures var s := SceneOf(vertexPositionA, indicesA, vertexPositionB, indicesB, normalize);
      FacesUpTo(s, faces, triangles, |indicesA| / 3, normalize, atan2)
    ensures printed == GreedyDedup(AllPoints(faces), Near)
  {
    ghost var s := SceneOf(vertexPositionA, indicesA, vertexPositionB, indicesB, normalize);
    var pointsWithinB := GetVertexesWithinMesh2(vertexPositionA, vertexPositionB, indicesA, indicesB, normalize);
    var pointsWithinA := GetVertexesWithinMesh2(vertexPositionB, vertexPositionA, indicesB, indicesA, normalize);
    WithinOfFilter(vertexPositionA, vertexPositionB, indicesB, normalize, pointsWithinB);
    WithinOfFilter(vertexPositionB, vertexPositionA, indicesA, normalize, pointsWithinA);
    var scene := Scene(vertexPositionA, indicesA, vertexPositionB, indicesB, pointsWithinB, pointsWithinA);
    assert scene == s;
    faces, triangles := AssembleFaces(scene, normalize, atan2);
    printed := DeduplicateFacePoints(faces);
  }
}
