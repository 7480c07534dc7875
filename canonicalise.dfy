/** The mesh canonicaliser: one pass over the index buffer that keeps a
    position-to-id map, appends each first-seen position, and emits a compact
    index buffer over the deduplicated positions. */
module Canonicalise {
  import opened Geometry
  import opened Sequences

  /** The position each slot of the index buffer refers to. */
  function Referenced(positions: seq<Vec3>, indices: seq<nat>): (r: seq<Vec3>)
    requires IndicesBelow(indices, |positions|)
    ensures |r| == |indices|
    ensures forall i :: 0 <= i < |indices| ==> r[i] == positions[indices[i]]
  {
    seq(|indices|, i requires 0 <= i < |indices| => positions[indices[i]])
  }

  /** The elements of `s` in order of first occurrence, each once. */
  function Uniq<T(==)>(s: seq<T>): seq<T> {
    if |s| == 0 then []
    else
      var u := Uniq(s[..|s| - 1]);
      if s[|s| - 1] in u then u else u + [s[|s| - 1]]
  }

  lemma {:induction false} UniqDistinctSameElements<T>(s: seq<T>)
    ensures Distinct(Uniq(s))
    ensures forall x :: x in Uniq(s) <==> x in s
  {
    if |s| > 0 {
      var p := s[..|s| - 1];
      UniqDistinctSameElements(p);
      assert s == p + [s[|s| - 1]];
    }
  }

  lemma UniqSnoc<T>(s: seq<T>, x: T)
    ensures Uniq(s + [x]) == if x in Uniq(s) then Uniq(s) else Uniq(s) + [x]
  {
    assert (s + [x])[..|s|] == s;
  }

  lemma UniqMember<T>(s: seq<T>, y: T)
    ensures y in Uniq(s) <==> y in s
  {
    UniqDistinctSameElements(s);
  }

  /** Uniq keeps first-occurrence order: earlier kept elements occur earlier
      in the input. */
  lemma {:induction false} UniqFirstOccurrenceOrder<T>(s: seq<T>, i: nat, j: nat)
    requires i < j < |Uniq(s)|
    ensures Uniq(s)[i] in s && Uniq(s)[j] in s
    ensures IndexOf(s, Uniq(s)[i]) < IndexOf(s, Uniq(s)[j])
  {
    UniqMember(s, Uniq(s)[i]);
    UniqMember(s, Uniq(s)[j]);
    var p := s[..|s| - 1];
    var x := s[|s| - 1];
    assert s == p + [x];
    var u := Uniq(p);
    UniqMember(p, u[i]);
    if j < |u| {
      UniqMember(p, u[j]);
      UniqFirstOccurrenceOrder(p, i, j);
      IndexOfPrefix(p, x, u[i]);
      IndexOfPrefix(p, x, u[j]);
    } else {
      // Uniq(s)[j] is the newly kept last element, absent from p.
      assert Uniq(s)[j] == x && x !in u;
      UniqMember(p, x);
      IndexOfPrefix(p, x, u[i]);
      IndexOfUnique(s, x, |p|);
    }
  }

  lemma IndexOfPrefix<T>(p: seq<T>, x: T, y: T)
    requires y in p
    ensures y in p + [x] && IndexOf(p + [x], y) == IndexOf(p, y)
  {
    var k := IndexOf(p, y);
    IndexOfUnique(p + [x], y, k);
  }

  lemma IndexOfUnique<T>(s: seq<T>, x: T, k: nat)
    requires k < |s| && s[k] == x
    requires forall j :: 0 <= j < k ==> s[j] != x
    ensures IndexOf(s, x) == k
  {
  }

  lemma {:induction false} UniqOfDistinct<T>(s: seq<T>)
    requires Distinct(s)
    ensures Uniq(s) == s
  {
    if |s| > 0 {
      var p := s[..|s| - 1];
      UniqOfDistinct(p);
      assert s[|s| - 1] !in p;
    }
  }

  /** The deduplicated positions the canonicaliser produces. */
  function CanonicalPositions(positions: seq<Vec3>, indices: seq<nat>): (u: seq<Vec3>)
    requires IndicesBelow(indices, |positions|)
  {
    Uniq(Referenced(positions, indices))
  }

  /** The compact index buffer: each slot's position, as an id into the
      deduplicated positions. */
  function CanonicalIndices(positions: seq<Vec3>, indices: seq<nat>): (ids: seq<nat>)
    requires IndicesBelow(indices, |positions|)
    ensures |ids| == |indices|
    ensures IndicesBelow(ids, |CanonicalPositions(positions, indices)|)
    ensures forall i :: 0 <= i < |indices| ==>
      CanonicalPositions(positions, indices)[ids[i]] == positions[indices[i]]
  {
    var r := Referenced(positions, indices);
    UniqDistinctSameElements(r);
    seq(|indices|, i requires 0 <= i < |indices| => IndexOf(Uniq(r), r[i]))
  }

  /** The canonical positions are duplicate-free, contain exactly the
      referenced positions, and are no more numerous than the vertices. */
  lemma CanonicalPositionsFacts(positions: seq<Vec3>, indices: seq<nat>)
    requires IndicesBelow(indices, |positions|)
    ensures Distinct(CanonicalPositions(positions, indices))
    ensures forall p :: p in CanonicalPositions(positions, indices) <==>
      exists i :: 0 <= i < |indices| && positions[indices[i]] == p
    ensures |CanonicalPositions(positions, indices)| <= |positions|
  {
    var r := Referenced(positions, indices);
    UniqDistinctSameElements(r);
    forall p | p in r ensures p in positions {
      var i :| 0 <= i < |r| && r[i] == p;
      assert positions[indices[i]] == p;
    }
    DistinctDrawnFromIsShorter(Uniq(r), positions);
  }

  /** Canonicalising a canonical mesh changes nothing. */
  lemma CanonicalisationIsIdempotent(positions: seq<Vec3>, indices: seq<nat>)
    requires IndicesBelow(indices, |positions|)
    ensures var u := CanonicalPositions(positions, indices);
            var ids := CanonicalIndices(positions, indices);
            CanonicalPositions(u, ids) == u && CanonicalIndices(u, ids) == ids
  {
    var u := CanonicalPositions(positions, indices);
    var ids := CanonicalIndices(positions, indices);
    var r := Referenced(positions, indices);
    assert Referenced(u, ids) == r;
    CanonicalPositionsFacts(positions, indices);
    var ids2 := CanonicalIndices(u, ids);
    forall i | 0 <= i < |ids| ensures ids2[i] == ids[i] {
      DistinctIndex(u, ids2[i], ids[i]);
    }
  }

  /** The state of a canonicalising pass after some slots: output
      positions, output ids, and the position-to-id map. */
  datatype ScanState = ScanState(out: seq<Vec3>, ids: seq<nat>, keys: map<Vec3, nat>)

  /** The canonicalising pass over the first `n` slots: slot i is looked up
      in the map as `local[i]`; if it is absent, `world[i]` is appended and
      stored in the map with the next id. In
      `Shapes::ExtractUniquePositionsAndIndices` both are the slot's position;
      in `Shapes::ExtractUniquePositionsAndIndicesWorld`, as written,
      `local[i]` is the model-space position and `world[i]` the transformed
      one. */
  function Scan(local: seq<Vec3>, world: seq<Vec3>, n: nat): ScanState
    requires n <= |local| == |world|
  {
    if n == 0 then ScanState([], [], map[])
    else
      var st := Scan(local, world, n - 1);
      var p := local[n - 1];
      if p !in st.keys then
        var w := world[n - 1];
        ScanState(st.out + [w], st.ids + [|st.out|], st.keys[w := |st.out|])
      else
        ScanState(st.out, st.ids + [st.keys[p]], st.keys)
  }

  /** Every pass emits a valid index buffer: one id per slot,
      each naming an output position; and every map entry names the output
      position equal to its key. */
  lemma {:induction false} ScanValid(local: seq<Vec3>, world: seq<Vec3>, n: nat)
    requires n <= |local| == |world|
    ensures var st := Scan(local, world, n);
      && |st.ids| == n
      && |st.out| <= n
      && IndicesBelow(st.ids, |st.out|)
      && (forall p :: p in st.keys ==> st.keys[p] < |st.out| && st.out[st.keys[p]] == p)
  {
    if n > 0 {
      ScanValid(local, world, n - 1);
    }
  }

  /** A shorter pass is a prefix of a longer one: the ids of slots already
      scanned do not change. */
  lemma {:induction false} ScanIdsPrefix(local: seq<Vec3>, world: seq<Vec3>, m: nat, n: nat)
    requires m <= n <= |local| == |world|
    ensures |Scan(local, world, m).ids| == m <= |Scan(local, world, n).ids|
    ensures Scan(local, world, m).ids == Scan(local, world, n).ids[..m]
  {
    ScanValid(local, world, m);
    ScanValid(local, world, n);
    if m < n {
      ScanIdsPrefix(local, world, m, n - 1);
      ScanValid(local, world, n - 1);
      assert Scan(local, world, n).ids[..n - 1] == Scan(local, world, n - 1).ids;
    }
  }

  /** When the stored positions are the looked-up ones, the pass
      keeps the first occurrences, and its map holds exactly the kept
      positions. */
  lemma {:induction false} ScanKeepsFirst(local: seq<Vec3>, world: seq<Vec3>, n: nat)
    requires n <= |local| == |world|
    requires forall i :: 0 <= i < n ==> world[i] == local[i]
    ensures var st := Scan(local, world, n);
      && st.out == Uniq(local[..n])
      && (forall p :: p in st.keys <==> p in st.out)
  {
    if n > 0 {
      var prev := Scan(local, world, n - 1);
      var p := local[n - 1];
      ScanKeepsFirst(local, world, n - 1);
      assert local[..n] == local[..n - 1] + [p];
      UniqSnoc(local[..n - 1], p);
      assert world[n - 1] == p;
    }
  }

  /** When the stored positions are the looked-up ones, each id the
      pass emits names the position of its slot. */
  lemma {:induction false} ScanNamesSlots(local: seq<Vec3>, world: seq<Vec3>, n: nat)
    requires n <= |local| == |world|
    requires forall i :: 0 <= i < n ==> world[i] == local[i]
    ensures var st := Scan(local, world, n);
      |st.ids| == n && forall i :: 0 <= i < n ==> st.ids[i] < |st.out| && st.out[st.ids[i]] == local[i]
  {
    if n > 0 {
      var prev := Scan(local, world, n - 1);
      var st := Scan(local, world, n);
      ScanNamesSlots(local, world, n - 1);
      ScanValid(local, world, n - 1);
      assert st.ids[..n - 1] == prev.ids;
      assert prev.out <= st.out;
      forall i | 0 <= i < n ensures st.ids[i] < |st.out| && st.out[st.ids[i]] == local[i] {
        if i < n - 1 {
          assert st.ids[i] == prev.ids[i];
        }
      }
    }
  }

  /** When the stored positions are the looked-up ones, the pass
      is the canonicaliser: first occurrences, and each id names its
      position. */
  lemma ScanWhenFixed(local: seq<Vec3>, world: seq<Vec3>, n: nat)
    requires n <= |local| == |world|
    requires forall i :: 0 <= i < n ==> world[i] == local[i]
    ensures var st := Scan(local, world, n);
      && |st.ids| == n
      && st.out == Uniq(local[..n])
      && (forall p :: p in st.keys <==> p in st.out)
      && (forall i :: 0 <= i < n ==> st.ids[i] < |st.out| && st.out[st.ids[i]] == local[i])
  {
    ScanKeepsFirst(local, world, n);
    ScanNamesSlots(local, world, n);
  }

  /** `Shapes::ExtractUniquePositionsAndIndices`: both outputs start empty;
      each slot's position is looked up in the map, appended with the next id
      if it is new, and its id is appended to the output index buffer. */
  method ExtractUniquePositionsAndIndices(mesh: Mesh) returns (outPositions: seq<Vec3>, outIndices: seq<nat>)
    requires IndicesBelow(mesh.indices, |mesh.vertices|)
    ensures outPositions == CanonicalPositions(Positions(mesh.vertices), mesh.indices)
    ensures outIndices == CanonicalIndices(Positions(mesh.vertices), mesh.indices)
    ensures |outIndices| == |mesh.indices|
    ensures forall i :: 0 <= i < |outIndices| ==>
      outIndices[i] < |outPositions| && outPositions[outIndices[i]] == mesh.vertices[mesh.indices[i]].position
    ensures Distinct(outPositions)
    ensures |outPositions| <= |mesh.vertices|
  {
    ghost var r := Referenced(Positions(mesh.vertices), mesh.indices);
    var positionToIndex: map<Vec3, nat> := map[];
    outPositions := [];
    outIndices := [];
    var i := 0;
    while i < |mesh.indices|
      invariant 0 <= i <= |mesh.indices|
      invariant Scan(r, r, i) == ScanState(outPositions, outIndices, positionToIndex)
    {
      var originalIndex := mesh.indices[i];
      var position := mesh.vertices[originalIndex].position;
      if position !in positionToIndex {
        var newIndex := |outPositions|;
        outPositions := outPositions + [position];
        positionToIndex := positionToIndex[position := newIndex];
      }
      outIndices := outIndices + [positionToIndex[position]];
      i := i + 1;
    }
    ScanWhenFixed(r, r, i);
    assert r[..i] == r;
    ScanIsCanonical(Positions(mesh.vertices), mesh.indices, outPositions, outIndices);
  }

  /** A scan result made of the first occurrences of the referenced
      positions, with one id per slot naming that slot's position, is the
      canonical form. */
  lemma ScanIsCanonical(positions: seq<Vec3>, indices: seq<nat>, outPositions: seq<Vec3>, outIndices: seq<nat>)
    requires IndicesBelow(indices, |positions|)
    requires outPositions == Uniq(Referenced(positions, indices)) && |outIndices| == |indices|
    requires forall j :: 0 <= j < |indices| ==>
      outIndices[j] < |outPositions| && outPositions[outIndices[j]] == Referenced(positions, indices)[j]
    ensures outPositions == CanonicalPositions(positions, indices)
    ensures outIndices == CanonicalIndices(positions, indices)
    ensures Distinct(outPositions) && |outPositions| <= |positions|
  {
    CanonicalPositionsFacts(positions, indices);
    var ids := CanonicalIndices(positions, indices);
    forall j | 0 <= j < |outIndices| ensures outIndices[j] == ids[j] {
      DistinctIndex(outPositions, outIndices[j], ids[j]);
    }
  }

  /** `Shapes::ExtractUniquePositionsAndIndicesWorld` (as written). */
  method ExtractUniquePositionsAndIndicesWorld(mesh: Mesh, model: Transform)
    returns (outPositions: seq<Vec3>, outIndices: seq<nat>)
    requires IndicesBelow(mesh.indices, |mesh.vertices|)
    ensures var st := Scan(Referenced(Positions(mesh.vertices), mesh.indices),
                                         Referenced(Positions(WorldVertices(mesh.vertices, model)), mesh.indices),
                                         |mesh.indices|);
      outPositions == st.out && outIndices == st.ids
    ensures |outIndices| == |mesh.indices| && IndicesBelow(outIndices, |outPositions|)
  {
    ghost var r := Referenced(Positions(mesh.vertices), mesh.indices);
    ghost var w := Referenced(Positions(WorldVertices(mesh.vertices, model)), mesh.indices);
    var positionToIndex: map<Vec3, nat> := map[];
    outPositions := [];
    outIndices := [];
    var i := 0;
    while i < |mesh.indices|
      invariant 0 <= i <= |mesh.indices|
      invariant Scan(r, w, i) == ScanState(outPositions, outIndices, positionToIndex)
    {
      var originalIndex := mesh.indices[i];
      var position := mesh.vertices[originalIndex].position;
      if position !in positionToIndex {
        var newIndex := |outPositions|;
        position := Apply(model, position);
        outPositions := outPositions + [position];
        positionToIndex := positionToIndex[position := newIndex];
      }
      outIndices := outIndices + [positionToIndex[position]];
      i := i + 1;
    }
    ScanValid(r, w, i);
  }

  /** A unit translation along x applied to two vertices one unit apart: the
      local position of the second vertex is found under the world key of the
      first, so both slots get id 0 and the second vertex's world position
      (2, 0, 0) is lost. */
  lemma WorldLookupUsesLocalKey()
    ensures var local := [Vec3(0.0, 0.0, 0.0), Vec3(1.0, 0.0, 0.0)];
            var model := Translation(Vec3(1.0, 0.0, 0.0));
            var world := [Apply(model, local[0]), Apply(model, local[1])];
            var st := Scan(local, world, 2);
      && st.out == [Vec3(1.0, 0.0, 0.0)] && st.ids == [0, 0]
      && st.out[st.ids[1]] != world[1]
  {
    var local := [Vec3(0.0, 0.0, 0.0), Vec3(1.0, 0.0, 0.0)];
    var model := Translation(Vec3(1.0, 0.0, 0.0));
    var world := [Apply(model, local[0]), Apply(model, local[1])];
    assert world == [Vec3(1.0, 0.0, 0.0), Vec3(2.0, 0.0, 0.0)];
    assert Scan(local, world, 0) == ScanState([], [], map[]);
    var st1 := Scan(local, world, 1);
    assert st1 == ScanState([Vec3(1.0, 0.0, 0.0)], [0], map[Vec3(1.0, 0.0, 0.0) := 0]);
  }

  /** Every vertex position carried into world space by `model`. */
  function WorldVertices(vertices: seq<Vertex>, model: Transform): (w: seq<Vertex>)
    ensures |w| == |vertices|
    ensures forall k :: 0 <= k < |vertices| ==> w[k].position == Apply(model, vertices[k].position)
  {
    seq(|vertices|, k requires 0 <= k < |vertices| =>
      Vertex(Apply(model, vertices[k].position), vertices[k].normal, vertices[k].color))
  }

  /** The world-space canonicaliser as intended: each position is transformed
      first, and the transformed position is both searched for and stored. */
  method ExtractUniqueWorldPositionsAndIndices(mesh: Mesh, model: Transform)
    returns (outPositions: seq<Vec3>, outIndices: seq<nat>)
    requires IndicesBelow(mesh.indices, |mesh.vertices|)
    ensures outPositions == CanonicalPositions(Positions(WorldVertices(mesh.vertices, model)), mesh.indices)
    ensures outIndices == CanonicalIndices(Positions(WorldVertices(mesh.vertices, model)), mesh.indices)
    ensures |outIndices| == |mesh.indices|
    ensures forall i :: 0 <= i < |outIndices| ==>
      outIndices[i] < |outPositions| && outPositions[outIndices[i]] == Apply(model, mesh.vertices[mesh.indices[i]].position)
    ensures Distinct(outPositions)
    ensures |outPositions| <= |mesh.vertices|
  {
    outPositions, outIndices := ExtractUniquePositionsAndIndices(Mesh(WorldVertices(mesh.vertices, model), mesh.indices));
  }

  /** When the transform fixes every referenced position, the as-written and
      the intended world-space canonicalisers agree. */
  lemma WorldAsWrittenAgreesWhenFixed(mesh: Mesh, model: Transform)
    requires IndicesBelow(mesh.indices, |mesh.vertices|)
    requires forall i :: 0 <= i < |mesh.indices| ==>
      Apply(model, mesh.vertices[mesh.indices[i]].position) == mesh.vertices[mesh.indices[i]].position
    ensures var world := Positions(WorldVertices(mesh.vertices, model));
            var st := Scan(Referenced(Positions(mesh.vertices), mesh.indices),
                                         Referenced(world, mesh.indices), |mesh.indices|);
      st.out == CanonicalPositions(world, mesh.indices) && st.ids == CanonicalIndices(world, mesh.indices)
  {
    var local := Referenced(Positions(mesh.vertices), mesh.indices);
    var world := Positions(WorldVertices(mesh.vertices, model));
    var w := Referenced(world, mesh.indices);
    var n := |mesh.indices|;
    assert w == local;
    ScanWhenFixed(local, w, n);
    assert local[..n] == local;
    var st := Scan(local, w, n);
    ScanValid(local, w, n);
    CanonicalPositionsFacts(world, mesh.indices);
    var ids := CanonicalIndices(world, mesh.indices);
    forall j | 0 <= j < n ensures st.ids[j] == ids[j] {
      DistinctIndex(st.out, st.ids[j], ids[j]);
    }
  }
}
