/** The vertex layout and index buffer of `Shapes::CreateCylinder`. Each
    vertex is modelled by its role (which formula the source uses for its
    position and normal); the trigonometric payload is not modelled. */
module Cylinder {
  import opened Builders

  /** `Side(i, top)`: the side vertex at angle `i * sectorStep` on the bottom
      or top rim, with the radial normal. `Center(top)`: a cap centre.
      `Rim(i, top)`: a cap vertex at angle `i * sectorStep`, with the cap's
      normal. */
  datatype CylinderVertex = Side(step: nat, top: bool) | Center(top: bool) | Rim(step: nat, top: bool)

  /** The surface a vertex belongs to: 0 for the side, 1 for the bottom cap,
      2 for the top cap. */
  function Surface(v: CylinderVertex): nat {
    match v
    case Side(_, _) => 0
    case Center(top) => if top then 2 else 1
    case Rim(_, top) => if top then 2 else 1
  }

  /** The side vertices of the first `n` angles: bottom then top. */
  function SideVertices(n: nat): (vs: seq<CylinderVertex>)
    ensures |vs| == 2 * n
  {
    if n == 0 then [] else SideVertices(n - 1) + [Side(n - 1, false), Side(n - 1, true)]
  }

  /** The two side triangles between angles i and i + 1. */
  function SideQuad(i: nat): seq<nat> {
    [2 * i, 2 * i + 2, 2 * i + 1, 2 * i + 1, 2 * i + 2, 2 * i + 3]
  }

  function SideIndices(n: nat): (ts: seq<nat>)
    ensures |ts| == 6 * n
  {
    if n == 0 then [] else SideIndices(n - 1) + SideQuad(n - 1)
  }

  /** The cap vertices of the first `n` sectors: per sector a bottom pair
      (angle i + 1, then i) and a top pair (angle i, then i + 1). */
  function CapVertices(n: nat): (vs: seq<CylinderVertex>)
    ensures |vs| == 4 * n
  {
    if n == 0 then []
    else CapVertices(n - 1) + [Rim(n, false), Rim(n - 1, false), Rim(n - 1, true), Rim(n, true)]
  }

  /** The bottom and top cap triangles of sector `i`, with `sectorCount`
      sectors: (bottom centre, i0, i0 + 1) and (top centre, i1, i1 + 1). */
  function CapPair(sectorCount: nat, i: nat): seq<nat> {
    var base := 2 * (sectorCount + 1);
    var i0 := base + 2 + 4 * i;
    [base, i0, i0 + 1, base + 1, i0 + 2, i0 + 3]
  }

  function CapIndices(sectorCount: nat, n: nat): (ts: seq<nat>)
    ensures |ts| == 6 * n
  {
    if n == 0 then [] else CapIndices(sectorCount, n - 1) + CapPair(sectorCount, n - 1)
  }

  /** All vertices: the side pairs of angles 0 .. sectorCount, the two cap
      centres, then the cap pairs. */
  function CylinderVertices(sectorCount: nat): seq<CylinderVertex> {
    VerticesWithCaps(sectorCount, sectorCount)
  }

  function CylinderIndices(sectorCount: nat): seq<nat> {
    IndicesWithCaps(sectorCount, sectorCount)
  }

  /** The vertex buffer once the caps of the first `n` sectors are added. */
  function VerticesWithCaps(sectorCount: nat, n: nat): seq<CylinderVertex> {
    SideVertices(sectorCount + 1) + [Center(false), Center(true)] + CapVertices(n)
  }

  /** The index buffer once the caps of the first `n` sectors are added. */
  function IndicesWithCaps(sectorCount: nat, n: nat): seq<nat> {
    SideIndices(sectorCount) + CapIndices(sectorCount, n)
  }

  /** `Shapes::CreateCylinder`, payloads aside. */
  method CreateCylinder(sectorCount: nat) returns (vertices: seq<CylinderVertex>, indices: seq<nat>)
    ensures vertices == CylinderVertices(sectorCount)
    ensures indices == CylinderIndices(sectorCount)
  {
    vertices := [];
    indices := [];
    var i := 0;
    while i <= sectorCount
      invariant 0 <= i <= sectorCount + 1
      invariant vertices == SideVertices(i)
    {
      vertices := vertices + [Side(i, false), Side(i, true)];
      i := i + 1;
    }
    i := 0;
    while i < sectorCount
      invariant 0 <= i <= sectorCount
      invariant indices == SideIndices(i)
    {
      var k1 := i * 2;
      var k2 := k1 + 2;
      indices := indices + [k1, k2, k1 + 1];
      indices := indices + [k1 + 1, k2, k2 + 1];
      i := i + 1;
    }
    var baseIndex := |vertices|;
    var bottomCenterIndex := baseIndex;
    var topCenterIndex := baseIndex + 1;
    vertices := vertices + [Center(false), Center(true)];
    assert vertices == VerticesWithCaps(sectorCount, 0) && indices == IndicesWithCaps(sectorCount, 0);
    i := 0;
    while i < sectorCount
      invariant 0 <= i <= sectorCount
      invariant vertices == VerticesWithCaps(sectorCount, i)
      invariant indices == IndicesWithCaps(sectorCount, i)
    {
      vertices, indices := AddCapTriangles(sectorCount, i, vertices, indices, bottomCenterIndex, topCenterIndex);
      i := i + 1;
    }
  }

  /** One pass of the cap loop: the bottom pair of sector i and its
      triangle, then the top pair and its triangle. */
  method AddCapTriangles(sectorCount: nat, i: nat, vertices: seq<CylinderVertex>, indices: seq<nat>,
                         bottomCenterIndex: nat, topCenterIndex: nat)
    returns (vertices': seq<CylinderVertex>, indices': seq<nat>)
    requires vertices == VerticesWithCaps(sectorCount, i) && indices == IndicesWithCaps(sectorCount, i)
    requires bottomCenterIndex == 2 * (sectorCount + 1) && topCenterIndex == bottomCenterIndex + 1
    ensures vertices' == VerticesWithCaps(sectorCount, i + 1) && indices' == IndicesWithCaps(sectorCount, i + 1)
  {
    var i0 := |vertices|;
    vertices' := vertices + [Rim(i + 1, false), Rim(i, false)];
    indices' := indices + [bottomCenterIndex, i0, i0 + 1];
    var i1 := |vertices'|;
    vertices' := vertices' + [Rim(i, true), Rim(i + 1, true)];
    indices' := indices' + [topCenterIndex, i1, i1 + 1];
    CapStep(sectorCount, i, vertices, indices, vertices', indices');
  }

  /** One pass of the cap loop extends both buffers by sector i's part. */
  lemma CapStep(sectorCount: nat, i: nat, before: seq<CylinderVertex>, beforeIndices: seq<nat>,
                after: seq<CylinderVertex>, afterIndices: seq<nat>)
    requires before == VerticesWithCaps(sectorCount, i)
    requires beforeIndices == IndicesWithCaps(sectorCount, i)
    requires after == before + [Rim(i + 1, false), Rim(i, false)] + [Rim(i, true), Rim(i + 1, true)]
    requires afterIndices == beforeIndices + [2 * (sectorCount + 1), |before|, |before| + 1]
                             + [2 * (sectorCount + 1) + 1, |before| + 2, |before| + 3]
    ensures after == VerticesWithCaps(sectorCount, i + 1)
    ensures afterIndices == IndicesWithCaps(sectorCount, i + 1)
  {
    var p := SideVertices(sectorCount + 1) + [Center(false), Center(true)];
    var quad := [Rim(i + 1, false), Rim(i, false), Rim(i, true), Rim(i + 1, true)];
    assert [Rim(i + 1, false), Rim(i, false)] + [Rim(i, true), Rim(i + 1, true)] == quad;
    assert CapVertices(i + 1) == CapVertices(i) + quad;
    assert p + (CapVertices(i) + quad) == (p + CapVertices(i)) + quad;
    var sides := SideIndices(sectorCount);
    var base := 2 * (sectorCount + 1);
    assert |before| == base + 2 + 4 * i;
    var pair := CapPair(sectorCount, i);
    assert [base, |before|, |before| + 1] + [base + 1, |before| + 2, |before| + 3] == pair;
    assert CapIndices(sectorCount, i + 1) == CapIndices(sectorCount, i) + pair;
    assert sides + (CapIndices(sectorCount, i) + pair) == (sides + CapIndices(sectorCount, i)) + pair;
  }

  /** `6 * sectorCount + 4` vertices and `12 * sectorCount` indices. */
  lemma CylinderCounts(sectorCount: nat)
    ensures |CylinderVertices(sectorCount)| == 6 * sectorCount + 4
    ensures |CylinderIndices(sectorCount)| == 12 * sectorCount
  {
  }

  /** Side vertex `2 i + b` is the bottom (b = 0) or top (b = 1) vertex of
      angle i. */
  lemma {:induction false} SideVertexAt(n: nat, i: nat)
    requires i < n
    ensures SideVertices(n)[2 * i] == Side(i, false) && SideVertices(n)[2 * i + 1] == Side(i, true)
  {
    if i < n - 1 {
      SideVertexAt(n - 1, i);
    }
  }

  /** The four cap vertices of sector i. */
  lemma {:induction false} CapVertexAt(n: nat, i: nat)
    requires i < n
    ensures CapVertices(n)[4 * i] == Rim(i + 1, false) && CapVertices(n)[4 * i + 1] == Rim(i, false)
    ensures CapVertices(n)[4 * i + 2] == Rim(i, true) && CapVertices(n)[4 * i + 3] == Rim(i + 1, true)
  {
    if i < n - 1 {
      CapVertexAt(n - 1, i);
    }
  }

  /** The two side triangles of sector i < sectorCount lie on the side. */
  lemma SideQuadOnSide(sectorCount: nat, i: nat)
    requires i < sectorCount
    ensures OnSurfaces(SideQuad(i), CylinderVertices(sectorCount), Surface)
  {
    var vs := CylinderVertices(sectorCount);
    SideVertexAt(sectorCount + 1, i);
    SideVertexAt(sectorCount + 1, i + 1);
    VertexLookup(sectorCount);
    TwoTrianglesOnSurfaces(2 * i, 2 * i + 2, 2 * i + 1, 2 * i + 1, 2 * i + 2, 2 * i + 3, vs, Surface);
  }

  /** Where the three parts of the vertex buffer sit. */
  lemma VertexLookup(sectorCount: nat)
    ensures var vs := CylinderVertices(sectorCount);
      && |vs| == 6 * sectorCount + 4
      && (forall k :: 0 <= k < 2 * (sectorCount + 1) ==> vs[k] == SideVertices(sectorCount + 1)[k])
      && vs[2 * (sectorCount + 1)] == Center(false) && vs[2 * (sectorCount + 1) + 1] == Center(true)
      && (forall k :: 0 <= k < 4 * sectorCount ==> vs[2 * (sectorCount + 1) + 2 + k] == CapVertices(sectorCount)[k])
  {
  }

  lemma {:induction false} SideIndicesOnSide(sectorCount: nat, n: nat)
    requires n <= sectorCount
    ensures OnSurfaces(SideIndices(n), CylinderVertices(sectorCount), Surface)
  {
    if n > 0 {
      SideIndicesOnSide(sectorCount, n - 1);
      SideQuadOnSide(sectorCount, n - 1);
      OnSurfacesAppend(SideIndices(n - 1), SideQuad(n - 1), CylinderVertices(sectorCount), Surface);
    }
  }

  /** The cap vertices of sector i sit at `i0 .. i0 + 3`, after the side
      pairs and the two centres. */
  predicate CapSector(vs: seq<CylinderVertex>, sectorCount: nat, i: nat)
    requires |vs| == 6 * sectorCount + 4 && i < sectorCount
  {
    var i0 := 2 * (sectorCount + 1) + 2 + 4 * i;
    && vs[i0] == Rim(i + 1, false) && vs[i0 + 1] == Rim(i, false)
    && vs[i0 + 2] == Rim(i, true) && vs[i0 + 3] == Rim(i + 1, true)
  }

  /** Where the cap centres and the cap vertices of every sector sit. */
  ghost predicate CapLayout(vs: seq<CylinderVertex>, sectorCount: nat) {
    && |vs| == 6 * sectorCount + 4
    && vs[2 * (sectorCount + 1)] == Center(false) && vs[2 * (sectorCount + 1) + 1] == Center(true)
    && forall i :: 0 <= i < sectorCount ==> CapSector(vs, sectorCount, i)
  }

  /** The cap triangles of sector i: each on its own cap. */
  lemma CapPairOnCaps(sectorCount: nat, i: nat, vs: seq<CylinderVertex>)
    requires CapLayout(vs, sectorCount) && i < sectorCount
    ensures OnSurfaces(CapPair(sectorCount, i), vs, Surface)
  {
    var base := 2 * (sectorCount + 1);
    var i0 := base + 2 + 4 * i;
    assert CapSector(vs, sectorCount, i);
    TwoTrianglesOnSurfaces(base, i0, i0 + 1, base + 1, i0 + 2, i0 + 3, vs, Surface);
  }

  /** The cap vertices of sector i in the whole vertex buffer. */
  lemma CapVertexInBuffer(sectorCount: nat, i: nat)
    requires i < sectorCount
    ensures |CylinderVertices(sectorCount)| == 6 * sectorCount + 4
    ensures CapSector(CylinderVertices(sectorCount), sectorCount, i)
  {
    CapVertexAt(sectorCount, i);
    VertexLookup(sectorCount);
    var i0 := 2 * (sectorCount + 1) + 2 + 4 * i;
    assert i0 + 1 == 2 * (sectorCount + 1) + 2 + (4 * i + 1);
    assert i0 + 2 == 2 * (sectorCount + 1) + 2 + (4 * i + 2);
    assert i0 + 3 == 2 * (sectorCount + 1) + 2 + (4 * i + 3);
  }

  /** The generated vertex buffer has the cap layout. */
  lemma CapsLaidOut(sectorCount: nat)
    ensures CapLayout(CylinderVertices(sectorCount), sectorCount)
  {
    VertexLookup(sectorCount);
    forall i | 0 <= i < sectorCount ensures CapSector(CylinderVertices(sectorCount), sectorCount, i) {
      CapVertexInBuffer(sectorCount, i);
    }
  }

  lemma {:induction false} CapIndicesOnCaps(sectorCount: nat, n: nat, vs: seq<CylinderVertex>)
    requires CapLayout(vs, sectorCount) && n <= sectorCount
    ensures OnSurfaces(CapIndices(sectorCount, n), vs, Surface)
  {
    if n > 0 {
      CapIndicesOnCaps(sectorCount, n - 1, vs);
      CapPairOnCaps(sectorCount, n - 1, vs);
      OnSurfacesAppend(CapIndices(sectorCount, n - 1), CapPair(sectorCount, n - 1), vs, Surface);
    }
  }

  /** Every index names one of the generated vertices, and every triangle
      has three different corners on one surface: the side, the bottom cap
      or the top cap. */
  lemma CylinderTrianglesOnSurfaces(sectorCount: nat)
    ensures OnSurfaces(CylinderIndices(sectorCount), CylinderVertices(sectorCount), Surface)
  {
    SideIndicesOnSide(sectorCount, sectorCount);
    CapsLaidOut(sectorCount);
    CapIndicesOnCaps(sectorCount, sectorCount, CylinderVertices(sectorCount));
    OnSurfacesAppend(SideIndices(sectorCount), CapIndices(sectorCount, sectorCount), CylinderVertices(sectorCount), Surface);
  }
}
