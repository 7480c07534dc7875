/** The greedy linear-scan deduplication used for candidate intersection
    points: a point is kept unless it is near a point kept before it. */
module Dedup {
  import opened Geometry
  import opened Sequences

  /** The tolerance of the source's duplicate test. */
  const Tolerance: real := 0.001

  /** `glm::length(a - b) < tolerance`, in exact reals. */
  function Near(a: Vec3, b: Vec3): bool {
    SquaredLength(Sub(a, b)) < Tolerance * Tolerance
  }

  ghost predicate Reflexive<P(!new)>(near: (P, P) -> bool) {
    forall a :: near(a, a)
  }

  ghost predicate Symmetric<P(!new)>(near: (P, P) -> bool) {
    forall a, b :: near(a, b) ==> near(b, a)
  }

  lemma NearIsReflexiveAndSymmetric()
    ensures Reflexive(Near) && Symmetric(Near)
  {
    forall a, b | Near(a, b) ensures Near(b, a) {
      assert Sub(b, a) == Scale(Sub(a, b), -1.0);
      assert SquaredLength(Sub(b, a)) == SquaredLength(Sub(a, b));
    }
  }

  /** Some kept point is near `point` (the source tests `near(point, kept)`). */
  ghost predicate NearSome<P>(kept: seq<P>, point: P, near: (P, P) -> bool) {
    exists j :: 0 <= j < |kept| && near(point, kept[j])
  }

  /** One step of the scan: keep `point` unless a kept point is near it. */
  ghost function GreedyStep<P>(kept: seq<P>, point: P, near: (P, P) -> bool): seq<P> {
    if NearSome(kept, point, near) then kept else kept + [point]
  }

  /** The points the scan keeps, in input order. */
  ghost function GreedyDedup<P>(points: seq<P>, near: (P, P) -> bool): seq<P> {
    if |points| == 0 then []
    else GreedyStep(GreedyDedup(points[..|points| - 1], near), points[|points| - 1], near)
  }

  /** The positions of the input that the scan keeps. */
  ghost function KeptIndices<P>(points: seq<P>, near: (P, P) -> bool): seq<nat> {
    if |points| == 0 then []
    else
      var f := KeptIndices(points[..|points| - 1], near);
      if NearSome(GreedyDedup(points[..|points| - 1], near), points[|points| - 1], near) then f
      else f + [|points| - 1]
  }

  /** The kept points are an order-preserving subsequence of the input,
      witnessed by `KeptIndices`. */
  lemma {:induction false} GreedyDedupSubsequenceAt<P>(points: seq<P>, near: (P, P) -> bool)
    ensures SubsequenceAt(GreedyDedup(points, near), points, KeptIndices(points, near))
    ensures forall k :: 0 <= k < |KeptIndices(points, near)| ==> KeptIndices(points, near)[k] < |points|
  {
    if |points| > 0 {
      var p := points[..|points| - 1];
      GreedyDedupSubsequenceAt(p, near);
    }
  }

  lemma GreedyDedupIsSubsequence<P>(points: seq<P>, near: (P, P) -> bool)
    ensures IsSubsequence(GreedyDedup(points, near), points)
  {
    GreedyDedupSubsequenceAt(points, near);
  }

  /** The first point is always kept, as the first kept point. */
  lemma {:induction false} GreedyDedupKeepsFirst<P>(points: seq<P>, near: (P, P) -> bool)
    requires |points| > 0
    ensures |GreedyDedup(points, near)| > 0 && GreedyDedup(points, near)[0] == points[0]
  {
    if |points| > 1 {
      var p := points[..|points| - 1];
      GreedyDedupKeepsFirst(p, near);
      assert p[0] == points[0];
    } else {
      assert GreedyDedup(points[..0], near) == [];
    }
  }

  /** For a symmetric `near`, no two kept points are near each other. */
  lemma {:induction false} GreedyDedupSeparated<P(!new)>(points: seq<P>, near: (P, P) -> bool, i: nat, j: nat)
    requires Symmetric(near)
    requires i < j < |GreedyDedup(points, near)|
    ensures !near(GreedyDedup(points, near)[i], GreedyDedup(points, near)[j])
    ensures !near(GreedyDedup(points, near)[j], GreedyDedup(points, near)[i])
  {
    var p := points[..|points| - 1];
    var kept := GreedyDedup(p, near);
    if j < |kept| {
      GreedyDedupSeparated(p, near, i, j);
    } else {
      var x := points[|points| - 1];
      assert !NearSome(kept, x, near);
      assert !near(x, kept[i]);
    }
  }

  /** For a reflexive `near`, every input point is near some kept point. */
  lemma {:induction false} GreedyDedupCovers<P(!new)>(points: seq<P>, near: (P, P) -> bool, i: nat)
    requires Reflexive(near)
    requires i < |points|
    ensures NearSome(GreedyDedup(points, near), points[i], near)
  {
    var p := points[..|points| - 1];
    var kept := GreedyDedup(p, near);
    var x := points[|points| - 1];
    if i < |p| {
      GreedyDedupCovers(p, near, i);
      var j :| 0 <= j < |kept| && near(p[i], kept[j]);
      assert GreedyDedup(points, near)[j] == kept[j];
    } else if !NearSome(kept, x, near) {
      assert GreedyDedup(points, near)[|kept|] == x;
      assert near(x, x);
    }
  }

  /** A point and a copy jittered by 1e-4 (below the 1e-3 tolerance) dedupe
      to the first one. */
  lemma JitteredDuplicateCollapses(p: Vec3)
    ensures GreedyDedup([p, Add(p, Vec3(0.0001, 0.0, 0.0))], Near) == [p]
  {
    var s := [p, Add(p, Vec3(0.0001, 0.0, 0.0))];
    assert s[..1] == [p];
    assert [p][..0] == [];
    assert GreedyDedup([p], Near) == [p] by {
      assert GreedyDedup([p][..0], Near) == [];
    }
    assert Sub(s[1], p) == Vec3(0.0001, 0.0, 0.0);
    assert Near(s[1], [p][0]);
  }

  /** The inner scan of the source: `isDuplicate` is set, and the scan left,
      at the first kept point near `point`; `point` is appended otherwise. */
  method AddUnique<P>(uniquePoints: seq<P>, point: P, near: (P, P) -> bool) returns (r: seq<P>)
    ensures r == GreedyStep(uniquePoints, point, near)
  {
    var isDuplicate := false;
    var j := 0;
    while j < |uniquePoints|
      invariant 0 <= j <= |uniquePoints|
      invariant forall k :: 0 <= k < j ==> !near(point, uniquePoints[k])
    {
      if near(point, uniquePoints[j]) {
        isDuplicate := true;
        break;
      }
      j := j + 1;
    }
    if !isDuplicate {
      r := uniquePoints + [point];
    } else {
      r := uniquePoints;
    }
  }

  /** The deduplication loop (used for the candidate points of a face and for
      the harvested intersection points): the greedy scan of `points`. */
  method DeduplicatePoints<P>(points: seq<P>, near: (P, P) -> bool) returns (uniquePoints: seq<P>)
    ensures uniquePoints == GreedyDedup(points, near)
  {
    uniquePoints := [];
    var i := 0;
    while i < |points|
      invariant 0 <= i <= |points|
      invariant uniquePoints == GreedyDedup(points[..i], near)
    {
      assert points[..i + 1][..i] == points[..i];
      uniquePoints := AddUnique(uniquePoints, points[i], near);
      i := i + 1;
    }
    assert points[..i] == points;
  }
}
