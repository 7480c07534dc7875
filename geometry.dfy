/** Exact-real vector algebra, affine transforms and the indexed triangle mesh
    that the geometry kernel reads. The source computes in 32-bit floats; this
    model computes the same formulas over `real`. */
module Geometry {

  datatype Option<T> = None | Some(value: T)

  datatype Vec3 = Vec3(x: real, y: real, z: real)

  const Zero: Vec3 := Vec3(0.0, 0.0, 0.0)

  function Add(a: Vec3, b: Vec3): Vec3 { Vec3(a.x + b.x, a.y + b.y, a.z + b.z) }

  function Sub(a: Vec3, b: Vec3): Vec3 { Vec3(a.x - b.x, a.y - b.y, a.z - b.z) }

  function Scale(a: Vec3, k: real): Vec3 { Vec3(a.x * k, a.y * k, a.z * k) }

  function Dot(a: Vec3, b: Vec3): real { a.x * b.x + a.y * b.y + a.z * b.z }

  function Cross(a: Vec3, b: Vec3): Vec3 {
    Vec3(a.y * b.z - a.z * b.y, a.z * b.x - a.x * b.z, a.x * b.y - a.y * b.x)
  }

  /** Squared Euclidean length; `glm::length(v) < t` is `SquaredLength(v) < t * t`. */
  function SquaredLength(a: Vec3): real { Dot(a, a) }

  /** One row of a 4x4 matrix: the row's dot product with (p, 1). */
  datatype Row = Row(a: real, b: real, c: real, d: real)

  /** The first three rows of a 4x4 model matrix. `vec3(M * vec4(p, 1))`
      keeps only the x, y and z components, so the fourth row never matters. */
  datatype Transform = Transform(r0: Row, r1: Row, r2: Row)

  function ApplyRow(r: Row, p: Vec3): real { r.a * p.x + r.b * p.y + r.c * p.z + r.d }

  /** `glm::vec3(model * glm::vec4(p, 1.0f))`. */
  function Apply(m: Transform, p: Vec3): Vec3 {
    Vec3(ApplyRow(m.r0, p), ApplyRow(m.r1, p), ApplyRow(m.r2, p))
  }

  const Identity: Transform :=
    Transform(Row(1.0, 0.0, 0.0, 0.0), Row(0.0, 1.0, 0.0, 0.0), Row(0.0, 0.0, 1.0, 0.0))

  function Translation(t: Vec3): Transform {
    Transform(Row(1.0, 0.0, 0.0, t.x), Row(0.0, 1.0, 0.0, t.y), Row(0.0, 0.0, 1.0, t.z))
  }

  /** One vertex record of the 9-float stride: position, normal, colour. Only
      the position is read by the kernel. */
  datatype Vertex = Vertex(position: Vec3, normal: Vec3, color: Vec3)

  /** An indexed triangle mesh: vertex records and triangle-vertex indices. */
  datatype Mesh = Mesh(vertices: seq<Vertex>, indices: seq<nat>)

  /** Every index in the buffer names an existing vertex. */
  predicate IndicesBelow(indices: seq<nat>, n: nat) {
    forall k :: 0 <= k < |indices| ==> indices[k] < n
  }

  /** The caller contract of every kernel entry point: a whole number of
      triangles, and every index names a vertex. */
  predicate WellFormed(mesh: Mesh) {
    |mesh.indices| % 3 == 0 && IndicesBelow(mesh.indices, |mesh.vertices|)
  }

  /** The start of triangle `t`'s index triple. */
  function TriangleBase(t: nat): nat { 3 * t }

  /** The positions of the corners of triangle `t`, looked up through the
      index buffer. */
  function Corner(positions: seq<Vec3>, indices: seq<nat>, t: nat, c: nat): Vec3
    requires c < 3 && 3 * t + c < |indices| && indices[3 * t + c] < |positions|
  {
    positions[indices[3 * t + c]]
  }

  /** The positions of a vertex buffer, in order. */
  function Positions(vertices: seq<Vertex>): (ps: seq<Vec3>)
    ensures |ps| == |vertices|
    ensures forall k :: 0 <= k < |vertices| ==> ps[k] == vertices[k].position
  {
    seq(|vertices|, k requires 0 <= k < |vertices| => vertices[k].position)
  }

  /** float with its two infinities; `ProjectOntoAxis` starts from them. */
  datatype Bound = NegInf | Fin(v: real) | PosInf

  predicate Less(a: Bound, b: Bound) {
    match (a, b)
    case (NegInf, NegInf) => false
    case (NegInf, _) => true
    case (Fin(x), Fin(y)) => x < y
    case (Fin(_), PosInf) => true
    case _ => false
  }

  /** `std::min(a, b)`: `b < a ? b : a`. */
  function MinBound(a: Bound, b: Bound): Bound { if Less(b, a) then b else a }

  /** `std::max(a, b)`: `a < b ? b : a`. */
  function MaxBound(a: Bound, b: Bound): Bound { if Less(a, b) then b else a }
}
