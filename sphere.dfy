/** The vertex grid and index buffer of `Shapes::CreateSphere`. Each vertex is
    modelled by its grid position (stack, sector); the trigonometric payload
    is not modelled. Stack 0 and stack `stackCount` are the poles: every
    vertex of such a row has the same position. */
module Sphere {

  /** The vertex of stack i (angle pi/2 - i pi / stackCount) and sector j
      (angle 2 j pi / sectorCount). */
  datatype GridPoint = GridPoint(stack: nat, sector: nat)

  /** The first `j` vertices of stack i. */
  function RowPrefix(i: nat, j: nat): (vs: seq<GridPoint>)
    ensures |vs| == j
  {
    if j == 0 then [] else RowPrefix(i, j - 1) + [GridPoint(i, j - 1)]
  }

  /** The vertices of the first `n` stacks, each of `sectorCount + 1`
      sectors. */
  function Rows(n: nat, sectorCount: nat): (vs: seq<GridPoint>)
    ensures |vs| == n * (sectorCount + 1)
  {
    if n == 0 then [] else Rows(n - 1, sectorCount) + RowPrefix(n - 1, sectorCount + 1)
  }

  function SphereVertices(stackCount: nat, sectorCount: nat): seq<GridPoint> {
    Rows(stackCount + 1, sectorCount)
  }

  /** The triangles of cell (i, j), with k1 its upper-left vertex and k2 the
      one below it: (k1, k2, k1 + 1) except in the first stack, and
      (k1 + 1, k2, k2 + 1) except in the last. */
  function Cell(stackCount: nat, k1: nat, k2: nat, i: nat): seq<nat> {
    (if i != 0 then [k1, k2, k1 + 1] else []) + (if i != stackCount - 1 then [k1 + 1, k2, k2 + 1] else [])
  }

  /** The cells (i, 0) .. (i, j - 1). */
  function RowCells(stackCount: nat, sectorCount: nat, i: nat, j: nat): seq<nat> {
    if j == 0 then []
    else
      var k1 := i * (sectorCount + 1) + (j - 1);
      RowCells(stackCount, sectorCount, i, j - 1) + Cell(stackCount, k1, k1 + sectorCount + 1, i)
  }

  /** The indices of the first `n` stacks. */
  function StackCells(stackCount: nat, sectorCount: nat, n: nat): seq<nat> {
    if n == 0 then [] else StackCells(stackCount, sectorCount, n - 1) + RowCells(stackCount, sectorCount, n - 1, sectorCount)
  }

  function SphereIndices(stackCount: nat, sectorCount: nat): seq<nat> {
    StackCells(stackCount, sectorCount, stackCount)
  }

  /** `Shapes::CreateSphere`, payloads aside: the vertex grid row by row,
      then the cells stack by stack. */
  method CreateSphere(sectorCount: nat, stackCount: nat) returns (vertices: seq<GridPoint>, indices: seq<nat>)
    ensures vertices == SphereVertices(stackCount, sectorCount)
    ensures indices == SphereIndices(stackCount, sectorCount)
  {
    vertices := [];
    var i := 0;
    while i <= stackCount
      invariant 0 <= i <= stackCount + 1
      invariant vertices == Rows(i, sectorCount)
    {
      vertices := AddRow(vertices, i, sectorCount);
      i := i + 1;
    }
    indices := [];
    i := 0;
    while i < stackCount
      invariant 0 <= i <= stackCount
      invariant indices == StackCells(stackCount, sectorCount, i)
    {
      indices := AddStack(indices, stackCount, sectorCount, i);
      i := i + 1;
    }
  }

  /** The inner vertex loop: the `sectorCount + 1` vertices of stack i. */
  method AddRow(vertices: seq<GridPoint>, i: nat, sectorCount: nat) returns (vertices': seq<GridPoint>)
    ensures vertices' == vertices + RowPrefix(i, sectorCount + 1)
  {
    vertices' := vertices;
    var j := 0;
    while j <= sectorCount
      invariant 0 <= j <= sectorCount + 1
      invariant vertices' == vertices + RowPrefix(i, j)
    {
      vertices' := vertices' + [GridPoint(i, j)];
      j := j + 1;
    }
  }

  /** The inner index loop: the cells of stack i, with k1 and k2 stepping
      along the stack and the one below it. */
  method AddStack(indices: seq<nat>, stackCount: nat, sectorCount: nat, i: nat) returns (indices': seq<nat>)
    ensures indices' == indices + RowCells(stackCount, sectorCount, i, sectorCount)
  {
    indices' := indices;
    var k1 := i * (sectorCount + 1);
    var k2 := k1 + sectorCount + 1;
    ghost var first := k1;
    var j := 0;
    while j < sectorCount
      invariant 0 <= j <= sectorCount
      invariant k1 == first + j && k2 == k1 + sectorCount + 1
      invariant indices' == indices + RowCells(stackCount, sectorCount, i, j)
    {
      RowCellsStep(stackCount, sectorCount, i, j, k1);
      indices' := AddCell(indices', stackCount, k1, k2, i);
      j := j + 1;
      k1 := k1 + 1;
      k2 := k2 + 1;
    }
  }

  /** The body of the inner index loop: the triangles of one cell. */
  method AddCell(indices: seq<nat>, stackCount: nat, k1: nat, k2: nat, i: nat) returns (indices': seq<nat>)
    ensures indices' == indices + Cell(stackCount, k1, k2, i)
  {
    indices' := indices;
    if i != 0 {
      indices' := indices' + [k1, k2, k1 + 1];
    }
    if i != stackCount - 1 {
      indices' := indices' + [k1 + 1, k2, k2 + 1];
    }
  }

  /** One more cell of stack i is its cell j, whose upper-left vertex is k1. */
  lemma RowCellsStep(stackCount: nat, sectorCount: nat, i: nat, j: nat, k1: nat)
    requires k1 == i * (sectorCount + 1) + j
    ensures RowCells(stackCount, sectorCount, i, j + 1)
         == RowCells(stackCount, sectorCount, i, j) + Cell(stackCount, k1, k1 + sectorCount + 1, i)
  {
  }

  /** Sizes: `(stackCount + 1) (sectorCount + 1)` vertices; no index for
      fewer than two stacks, and `6 sectorCount (stackCount - 1)` otherwise. */
  lemma SphereCounts(stackCount: nat, sectorCount: nat)
    ensures |SphereVertices(stackCount, sectorCount)| == (stackCount + 1) * (sectorCount + 1)
    ensures |SphereIndices(stackCount, sectorCount)| == if stackCount == 0 then 0 else 6 * sectorCount * (stackCount - 1)
  {
    StackCellsLength(stackCount, sectorCount, stackCount);
    if stackCount > 0 {
      assert sectorCount * StackSlots(stackCount, stackCount) == 6 * sectorCount * (stackCount - 1);
    }
  }

  /** The number of indices one cell of stack i contributes. */
  function CellSize(stackCount: nat, i: nat): nat {
    (if i != 0 then 3 else 0) + (if i != stackCount - 1 then 3 else 0)
  }

  lemma {:induction false} RowCellsLength(stackCount: nat, sectorCount: nat, i: nat, j: nat)
    ensures |RowCells(stackCount, sectorCount, i, j)| == j * CellSize(stackCount, i)
  {
    if j > 0 {
      RowCellsLength(stackCount, sectorCount, i, j - 1);
      assert (j - 1) * CellSize(stackCount, i) + CellSize(stackCount, i) == j * CellSize(stackCount, i);
    }
  }

  /** Indices per sector in the first n stacks: six per stack, less the
      upper triangle of the first stack and the lower one of the last. */
  function StackSlots(stackCount: nat, n: nat): int {
    if n == 0 then 0 else 6 * n - 3 - (if n == stackCount then 3 else 0)
  }

  lemma {:induction false} StackCellsLength(stackCount: nat, sectorCount: nat, n: nat)
    requires n <= stackCount
    ensures |StackCells(stackCount, sectorCount, n)| == sectorCount * StackSlots(stackCount, n)
  {
    if n > 0 {
      StackCellsLength(stackCount, sectorCount, n - 1);
      RowCellsLength(stackCount, sectorCount, n - 1, sectorCount);
      var c := CellSize(stackCount, n - 1);
      assert StackSlots(stackCount, n) == StackSlots(stackCount, n - 1) + c;
      assert sectorCount * StackSlots(stackCount, n) == sectorCount * StackSlots(stackCount, n - 1) + sectorCount * c;
    }
  }

  /** Entry j of a row prefix is sector j of that stack. */
  lemma {:induction false} RowPrefixAt(i: nat, m: nat, j: nat)
    requires j < m
    ensures RowPrefix(i, m)[j] == GridPoint(i, j)
  {
    if j < m - 1 {
      RowPrefixAt(i, m - 1, j);
    }
  }

  /** Vertex `i (sectorCount + 1) + j` is grid point (i, j). */
  lemma {:induction false} RowsAt(n: nat, sectorCount: nat, i: nat, j: nat, k: nat)
    requires i < n && j <= sectorCount && k == i * (sectorCount + 1) + j
    ensures k < |Rows(n, sectorCount)| && Rows(n, sectorCount)[k] == GridPoint(i, j)
  {
    var w := sectorCount + 1;
    assert (n - 1) * w + w == n * w;
    if i < n - 1 {
      RowsAt(n - 1, sectorCount, i, j, k);
      assert i * w + j < (n - 1) * w;
    } else {
      RowPrefixAt(i, w, j);
    }
  }

  /** Vertex `i (sectorCount + 1) + j` of the sphere is sector j of stack i. */
  lemma SphereVertexAt(stackCount: nat, sectorCount: nat, i: nat, j: nat)
    requires i <= stackCount && j <= sectorCount
    ensures var vs := SphereVertices(stackCount, sectorCount);
      i * (sectorCount + 1) + j < |vs| && vs[i * (sectorCount + 1) + j] == GridPoint(i, j)
  {
    RowsAt(stackCount + 1, sectorCount, i, j, i * (sectorCount + 1) + j);
  }

  /** The two vertices of an edge lie in the same pole row, where every
      vertex has the same position: the edge has length zero. */
  predicate PoleEdge(p: GridPoint, q: GridPoint, stackCount: nat) {
    p.stack == q.stack && (p.stack == 0 || p.stack == stackCount)
  }

  /** Triangle t has three different corners and no edge inside a pole row. */
  predicate NonDegenerate(ts: seq<nat>, vs: seq<GridPoint>, stackCount: nat, t: nat)
    requires 3 * t + 2 < |ts| && ts[3 * t] < |vs| && ts[3 * t + 1] < |vs| && ts[3 * t + 2] < |vs|
  {
    var a, b, c := ts[3 * t], ts[3 * t + 1], ts[3 * t + 2];
    && a != b && b != c && a != c
    && !PoleEdge(vs[a], vs[b], stackCount) && !PoleEdge(vs[b], vs[c], stackCount) && !PoleEdge(vs[a], vs[c], stackCount)
  }

  /** `ts` is a list of non-degenerate triangles over `vs`. */
  ghost predicate SoundTriangles(ts: seq<nat>, vs: seq<GridPoint>, stackCount: nat) {
    && |ts| % 3 == 0
    && (forall k :: 0 <= k < |ts| ==> ts[k] < |vs|)
    && (forall t :: 0 <= t < |ts| / 3 ==> NonDegenerate(ts, vs, stackCount, t))
  }

  lemma SoundTrianglesAppend(a: seq<nat>, b: seq<nat>, vs: seq<GridPoint>, stackCount: nat)
    requires SoundTriangles(a, vs, stackCount) && SoundTriangles(b, vs, stackCount)
    ensures SoundTriangles(a + b, vs, stackCount)
  {
    var ab := a + b;
    var n := |a| / 3;
    assert |a| == 3 * n;
    forall t | 0 <= t < |ab| / 3 ensures NonDegenerate(ab, vs, stackCount, t) {
      if t < n {
        assert ab[3 * t] == a[3 * t] && ab[3 * t + 1] == a[3 * t + 1] && ab[3 * t + 2] == a[3 * t + 2];
        assert NonDegenerate(a, vs, stackCount, t);
      } else {
        var u := t - n;
        assert 3 * t == |a| + 3 * u;
        assert ab[3 * t] == b[3 * u] && ab[3 * t + 1] == b[3 * u + 1] && ab[3 * t + 2] == b[3 * u + 2];
        assert NonDegenerate(b, vs, stackCount, u);
      }
    }
  }

  lemma OneTriangle(a: nat, b: nat, c: nat, vs: seq<GridPoint>, stackCount: nat)
    requires a < |vs| && b < |vs| && c < |vs| && a != b && b != c && a != c
    requires !PoleEdge(vs[a], vs[b], stackCount) && !PoleEdge(vs[b], vs[c], stackCount) && !PoleEdge(vs[a], vs[c], stackCount)
    ensures SoundTriangles([a, b, c], vs, stackCount)
  {
    assert NonDegenerate([a, b, c], vs, stackCount, 0);
  }

  /** The four corners of cell (i, j) in the vertex buffer. */
  lemma CellCorners(stackCount: nat, sectorCount: nat, i: nat, j: nat)
    requires i < stackCount && j < sectorCount
    ensures var vs, k1 := SphereVertices(stackCount, sectorCount), i * (sectorCount + 1) + j;
            var k2 := k1 + sectorCount + 1;
      && k2 + 1 < |vs|
      && vs[k1] == GridPoint(i, j) && vs[k1 + 1] == GridPoint(i, j + 1)
      && vs[k2] == GridPoint(i + 1, j) && vs[k2 + 1] == GridPoint(i + 1, j + 1)
  {
    var w := sectorCount + 1;
    var k1 := i * w + j;
    assert k1 + w == (i + 1) * w + j;
    RowsAt(stackCount + 1, sectorCount, i, j, k1);
    RowsAt(stackCount + 1, sectorCount, i, j + 1, k1 + 1);
    RowsAt(stackCount + 1, sectorCount, i + 1, j, k1 + w);
    RowsAt(stackCount + 1, sectorCount, i + 1, j + 1, k1 + w + 1);
  }

  /** Both triangles a cell may emit are non-degenerate: the upper one is
      left out of the first stack and the lower one out of the last, exactly
      where they would have an edge inside a pole row. */
  lemma CellIsSound(stackCount: nat, sectorCount: nat, i: nat, j: nat)
    requires i < stackCount && j < sectorCount
    ensures var k1 := i * (sectorCount + 1) + j;
      SoundTriangles(Cell(stackCount, k1, k1 + sectorCount + 1, i), SphereVertices(stackCount, sectorCount), stackCount)
  {
    var vs := SphereVertices(stackCount, sectorCount);
    var k1 := i * (sectorCount + 1) + j;
    var k2 := k1 + sectorCount + 1;
    CellCorners(stackCount, sectorCount, i, j);
    var upper: seq<nat> := if i != 0 then [k1, k2, k1 + 1] else [];
    var lower: seq<nat> := if i != stackCount - 1 then [k1 + 1, k2, k2 + 1] else [];
    if i != 0 {
      OneTriangle(k1, k2, k1 + 1, vs, stackCount);
    }
    if i != stackCount - 1 {
      OneTriangle(k1 + 1, k2, k2 + 1, vs, stackCount);
    }
    SoundTrianglesAppend(upper, lower, vs, stackCount);
  }

  lemma {:induction false} RowCellsSound(stackCount: nat, sectorCount: nat, i: nat, j: nat)
    requires i < stackCount && j <= sectorCount
    ensures SoundTriangles(RowCells(stackCount, sectorCount, i, j), SphereVertices(stackCount, sectorCount), stackCount)
  {
    if j > 0 {
      var k1 := i * (sectorCount + 1) + (j - 1);
      RowCellsSound(stackCount, sectorCount, i, j - 1);
      CellIsSound(stackCount, sectorCount, i, j - 1);
      SoundTrianglesAppend(RowCells(stackCount, sectorCount, i, j - 1), Cell(stackCount, k1, k1 + sectorCount + 1, i),
                           SphereVertices(stackCount, sectorCount), stackCount);
    }
  }

  lemma {:induction false} StackCellsSound(stackCount: nat, sectorCount: nat, n: nat)
    requires n <= stackCount
    ensures SoundTriangles(StackCells(stackCount, sectorCount, n), SphereVertices(stackCount, sectorCount), stackCount)
  {
    if n > 0 {
      StackCellsSound(stackCount, sectorCount, n - 1);
      RowCellsSound(stackCount, sectorCount, n - 1, sectorCount);
      SoundTrianglesAppend(StackCells(stackCount, sectorCount, n - 1), RowCells(stackCount, sectorCount, n - 1, sectorCount),
                           SphereVertices(stackCount, sectorCount), stackCount);
    }
  }

  /** Every index names a grid vertex, and every triangle has three
      different corners and no edge inside a pole row. */
  lemma SphereTrianglesSound(stackCount: nat, sectorCount: nat)
    ensures SoundTriangles(SphereIndices(stackCount, sectorCount), SphereVertices(stackCount, sectorCount), stackCount)
  {
    StackCellsSound(stackCount, sectorCount, stackCount);
  }
}
