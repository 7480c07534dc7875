/** The adjacency query: the 1-ring of a vertex id in a triangle index buffer. */
module Adjacency {
  import opened Sequences

  /** Triangle `t` of the index buffer has `v` as one of its corners. */
  predicate TriangleHas(indices: seq<nat>, t: nat, v: nat)
    requires 3 * t + 2 < |indices|
  {
    indices[3 * t] == v || indices[3 * t + 1] == v || indices[3 * t + 2] == v
  }

  /** `x` and `v` are distinct corners of one triangle. */
  ghost predicate Adjacent(indices: seq<nat>, v: nat, x: nat) {
    x != v && exists t :: 0 <= t && 3 * t + 2 < |indices| && TriangleHas(indices, t, v) && TriangleHas(indices, t, x)
  }

  /** What one triangle adds to the set: its corners other than `v`, when it
      contains `v`. */
  function TriangleRing(indices: seq<nat>, t: nat, v: nat): set<nat>
    requires 3 * t + 2 < |indices|
  {
    if TriangleHas(indices, t, v) then {indices[3 * t], indices[3 * t + 1], indices[3 * t + 2]} - {v}
    else {}
  }

  /** The set after the first `n` triangles. */
  function RingUpTo(indices: seq<nat>, v: nat, n: nat): set<nat>
    requires 3 * n <= |indices|
  {
    if n == 0 then {} else RingUpTo(indices, v, n - 1) + TriangleRing(indices, n - 1, v)
  }

  /** The set after `n` triangles holds exactly the vertices that share one of
      those triangles with `v`. */
  lemma {:induction false} RingUpToMembers(indices: seq<nat>, v: nat, n: nat, x: nat)
    requires 3 * n <= |indices|
    ensures x in RingUpTo(indices, v, n) <==>
      x != v && exists t :: 0 <= t < n && TriangleHas(indices, t, v) && TriangleHas(indices, t, x)
  {
    if n > 0 {
      RingUpToMembers(indices, v, n - 1, x);
      if x in TriangleRing(indices, n - 1, v) {
        assert TriangleHas(indices, n - 1, x);
      }
      if x != v && TriangleHas(indices, n - 1, v) && TriangleHas(indices, n - 1, x) {
        assert x in TriangleRing(indices, n - 1, v);
      }
    }
  }

  /** `Shapes::GetConnectedVertices`: scans every triangle, and for each one
      containing `vertexIndex` inserts its other corners into a hash set, which
      is returned as a sequence in unspecified order. */
  method GetConnectedVertices(indices: seq<nat>, vertexIndex: nat) returns (r: seq<nat>)
    requires |indices| % 3 == 0
    ensures Distinct(r)
    ensures vertexIndex !in r
    ensures forall x :: x in r <==> Adjacent(indices, vertexIndex, x)
    ensures (forall t :: 0 <= t < |indices| / 3 ==> !TriangleHas(indices, t, vertexIndex)) ==> r == []
  {
    var connectedVertices: set<nat> := {};
    var i := 0;
    while i < |indices|
      invariant i % 3 == 0 && i <= |indices|
      invariant connectedVertices == RingUpTo(indices, vertexIndex, i / 3)
    {
      var idx1, idx2, idx3 := indices[i], indices[i + 1], indices[i + 2];
      assert (i + 3) / 3 == i / 3 + 1;
      if idx1 == vertexIndex || idx2 == vertexIndex || idx3 == vertexIndex {
        if idx1 != vertexIndex { connectedVertices := connectedVertices + {idx1}; }
        if idx2 != vertexIndex { connectedVertices := connectedVertices + {idx2}; }
        if idx3 != vertexIndex { connectedVertices := connectedVertices + {idx3}; }
      }
      i := i + 3;
    }
    forall x ensures x in connectedVertices <==> Adjacent(indices, vertexIndex, x) {
      RingUpToMembers(indices, vertexIndex, |indices| / 3, x);
    }
    r := [];
    var rest := connectedVertices;
    while rest != {}
      invariant Distinct(r)
      invariant forall x :: x in r ==> x !in rest
      invariant forall x :: x in connectedVertices <==> x in r || x in rest
      decreases |rest|
    {
      var x :| x in rest;
      r := r + [x];
      rest := rest - {x};
    }
    if r != [] {
      assert r[0] in r;
    }
  }
}
