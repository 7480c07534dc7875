/** `Shapes::CreateBox`: six faces of four corners each, every face drawn as
    the two triangles (0, 1, 2) and (0, 2, 3) of its corners. Positions and
    normals are exact; the colour is carried through. */
module Box {
  import opened Geometry
  import opened Builders

  /** The source's `Face` record: the face normal and its corners in order. */
  datatype Face = Face(normal: Vec3, v0: Vec3, v1: Vec3, v2: Vec3, v3: Vec3)

  /** The face table of the source for half extents w, h and l: front, back,
      left, right, top, bottom. */
  function BoxFaces(w: real, h: real, l: real): (faces: seq<Face>)
    ensures |faces| == 6
  {
    [ Face(Vec3(0.0, 0.0, 1.0), Vec3(-w, -h, l), Vec3(w, -h, l), Vec3(w, h, l), Vec3(-w, h, l)),
      Face(Vec3(0.0, 0.0, -1.0), Vec3(-w, -h, -l), Vec3(-w, h, -l), Vec3(w, h, -l), Vec3(w, -h, -l)),
      Face(Vec3(-1.0, 0.0, 0.0), Vec3(-w, -h, -l), Vec3(-w, -h, l), Vec3(-w, h, l), Vec3(-w, h, -l)),
      Face(Vec3(1.0, 0.0, 0.0), Vec3(w, -h, -l), Vec3(w, h, -l), Vec3(w, h, l), Vec3(w, -h, l)),
      Face(Vec3(0.0, 1.0, 0.0), Vec3(-w, h, -l), Vec3(-w, h, l), Vec3(w, h, l), Vec3(w, h, -l)),
      Face(Vec3(0.0, -1.0, 0.0), Vec3(-w, -h, -l), Vec3(w, -h, -l), Vec3(w, -h, l), Vec3(-w, -h, l)) ]
  }

  /** The six indices of the face whose first vertex is `index`. */
  function FaceIndices(index: nat): seq<nat> {
    [index, index + 1, index + 2, index, index + 2, index + 3]
  }

  /** The four vertex records of a face: its corners, its normal, the colour. */
  function FaceVertices(face: Face, color: Vec3): seq<Vertex> {
    [Vertex(face.v0, face.normal, color), Vertex(face.v1, face.normal, color),
     Vertex(face.v2, face.normal, color), Vertex(face.v3, face.normal, color)]
  }

  function BoxIndices(n: nat): (ts: seq<nat>)
    ensures |ts| == 6 * n
  {
    if n == 0 then [] else BoxIndices(n - 1) + FaceIndices(4 * (n - 1))
  }

  function BoxVertices(faces: seq<Face>, n: nat, color: Vec3): (vs: seq<Vertex>)
    requires n <= |faces|
    ensures |vs| == 4 * n
  {
    if n == 0 then [] else BoxVertices(faces, n - 1, color) + FaceVertices(faces[n - 1], color)
  }

  /** `Shapes::CreateBox`, without the upload to the graphics driver. */
  method CreateBox(width: real, height: real, length: real, color: Vec3) returns (vertices: seq<Vertex>, indices: seq<nat>)
    ensures vertices == BoxVertices(BoxFaces(width / 2.0, height / 2.0, length / 2.0), 6, color)
    ensures indices == BoxIndices(6)
  {
    var w := width / 2.0;
    var h := height / 2.0;
    var l := length / 2.0;
    var faces := BoxFaces(w, h, l);
    vertices := [];
    indices := [];
    var index := 0;
    var f := 0;
    while f < |faces|
      invariant 0 <= f <= |faces| && index == 4 * f
      invariant vertices == BoxVertices(faces, f, color)
      invariant indices == BoxIndices(f)
    {
      var face := faces[f];
      var faceIndices := [index, index + 1, index + 2, index, index + 2, index + 3];
      indices := indices + faceIndices;
      var corners := [face.v0, face.v1, face.v2, face.v3];
      vertices := vertices + [Vertex(corners[0], face.normal, color), Vertex(corners[1], face.normal, color),
                              Vertex(corners[2], face.normal, color), Vertex(corners[3], face.normal, color)];
      index := index + 4;
      f := f + 1;
    }
  }

  /** Face f owns vertices 4f .. 4f + 3 and indices 6f .. 6f + 5. */
  lemma {:induction false} BoxLayout(faces: seq<Face>, n: nat, color: Vec3, f: nat)
    requires n <= |faces| && f < n
    ensures BoxVertices(faces, n, color)[4 * f .. 4 * f + 4] == FaceVertices(faces[f], color)
    ensures BoxIndices(n)[6 * f .. 6 * f + 6] == FaceIndices(4 * f)
  {
    if f < n - 1 {
      BoxLayout(faces, n - 1, color, f);
      assert BoxVertices(faces, n, color)[4 * f .. 4 * f + 4] == BoxVertices(faces, n - 1, color)[4 * f .. 4 * f + 4];
      assert BoxIndices(n)[6 * f .. 6 * f + 6] == BoxIndices(n - 1)[6 * f .. 6 * f + 6];
    }
  }

  /** 24 vertices, 36 indices, and face f contributes
      [4f, 4f + 1, 4f + 2, 4f, 4f + 2, 4f + 3]. */
  lemma BoxCounts(width: real, height: real, length: real, color: Vec3)
    ensures |BoxVertices(BoxFaces(width / 2.0, height / 2.0, length / 2.0), 6, color)| == 24
    ensures |BoxIndices(6)| == 36
    ensures forall f :: 0 <= f < 6 ==> BoxIndices(6)[6 * f .. 6 * f + 6] == FaceIndices(4 * f)
  {
    forall f | 0 <= f < 6 ensures BoxIndices(6)[6 * f .. 6 * f + 6] == FaceIndices(4 * f) {
      BoxLayout(BoxFaces(width / 2.0, height / 2.0, length / 2.0), 6, color, f);
    }
  }

  function VertexNormal(v: Vertex): Vec3 { v.normal }

  /** The two triangles of face f join vertices of that face only. */
  lemma FaceOnItsPlane(faces: seq<Face>, color: Vec3, f: nat)
    requires f < |faces|
    ensures OnSurfaces(FaceIndices(4 * f), BoxVertices(faces, |faces|, color), VertexNormal)
  {
    var vs := BoxVertices(faces, |faces|, color);
    BoxLayout(faces, |faces|, color, f);
    assert vs[4 * f .. 4 * f + 4][0] == vs[4 * f];
    assert vs[4 * f .. 4 * f + 4][1] == vs[4 * f + 1];
    assert vs[4 * f .. 4 * f + 4][2] == vs[4 * f + 2];
    assert vs[4 * f .. 4 * f + 4][3] == vs[4 * f + 3];
    TwoTrianglesOnSurfaces(4 * f, 4 * f + 1, 4 * f + 2, 4 * f, 4 * f + 2, 4 * f + 3, vs, VertexNormal);
  }

  lemma {:induction false} FacesOnTheirPlanes(faces: seq<Face>, color: Vec3, n: nat)
    requires n <= |faces|
    ensures OnSurfaces(BoxIndices(n), BoxVertices(faces, |faces|, color), VertexNormal)
  {
    if n > 0 {
      FacesOnTheirPlanes(faces, color, n - 1);
      FaceOnItsPlane(faces, color, n - 1);
      OnSurfacesAppend(BoxIndices(n - 1), FaceIndices(4 * (n - 1)), BoxVertices(faces, |faces|, color), VertexNormal);
    }
  }

  /** Every index names one of the 24 vertices, and every triangle has three
      different corners sharing one face normal. */
  lemma BoxTrianglesOnFaces(width: real, height: real, length: real, color: Vec3)
    ensures OnSurfaces(BoxIndices(6), BoxVertices(BoxFaces(width / 2.0, height / 2.0, length / 2.0), 6, color), VertexNormal)
  {
    FacesOnTheirPlanes(BoxFaces(width / 2.0, height / 2.0, length / 2.0), color, 6);
  }

  /** Both triangles of a face turn counter-clockwise seen from outside:
      their geometric normal points along the face normal. */
  predicate WindsOutward(face: Face) {
    && Dot(Cross(Sub(face.v1, face.v0), Sub(face.v2, face.v0)), face.normal) > 0.0
    && Dot(Cross(Sub(face.v2, face.v0), Sub(face.v3, face.v0)), face.normal) > 0.0
  }

  /** For positive extents every face of the table winds outward. */
  lemma BoxWindsOutward(w: real, h: real, l: real, f: nat)
    requires w > 0.0 && h > 0.0 && l > 0.0 && f < 6
    ensures WindsOutward(BoxFaces(w, h, l)[f])
  {
    var wh, hl, wl := w * h, h * l, w * l;
    assert wh > 0.0 && hl > 0.0 && wl > 0.0;
  }
}
