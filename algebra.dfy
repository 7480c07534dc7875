/** Identities of the scalar triple product used to reason about the
    segment/triangle intersection test. */
module Algebra {
  import opened Geometry

  /** The 3x3 determinant with rows a, p and q, written out in coordinates. */
  function Det(ax: real, ay: real, az: real, px: real, py: real, pz: real, qx: real, qy: real, qz: real): real {
    ax * (py * qz - pz * qy) + ay * (pz * qx - px * qz) + az * (px * qy - py * qx)
  }

  /** One coordinate of the Cramer identity
      s * det(e1, d, e2) + d * det(e2, s, e1) == e1 * det(s, d, e2) + e2 * det(d, s, e1). */
  lemma CramerCoordinate(sx: real, sy: real, sz: real, dx: real, dy: real, dz: real,
                          ax: real, ay: real, az: real, qx: real, qy: real, qz: real)
    ensures sx * Det(ax, ay, az, dx, dy, dz, qx, qy, qz) + dx * Det(qx, qy, qz, sx, sy, sz, ax, ay, az)
         == ax * Det(sx, sy, sz, dx, dy, dz, qx, qy, qz) + qx * Det(dx, dy, dz, sx, sy, sz, ax, ay, az)
  {
  }

  /** The triple product in coordinates, read from each of its three cyclic
      coordinate orders. */
  lemma TripleProductIsDet(a: Vec3, b: Vec3, c: Vec3)
    ensures Dot(a, Cross(b, c)) == Det(a.x, a.y, a.z, b.x, b.y, b.z, c.x, c.y, c.z)
    ensures Dot(a, Cross(b, c)) == Det(a.y, a.z, a.x, b.y, b.z, b.x, c.y, c.z, c.x)
    ensures Dot(a, Cross(b, c)) == Det(a.z, a.x, a.y, b.z, b.x, b.y, c.z, c.x, c.y)
  {
  }

  /** The vector form of the Cramer identity: with a = e1 . (d x e2), the
      point s + t d equals u e1 + v e2 for t = e2 . (s x e1) / a,
      u = s . (d x e2) / a and v = d . (s x e1) / a. */
  lemma Cramer(s: Vec3, d: Vec3, e1: Vec3, e2: Vec3)
    ensures Add(Scale(s, Dot(e1, Cross(d, e2))), Scale(d, Dot(e2, Cross(s, e1))))
         == Add(Scale(e1, Dot(s, Cross(d, e2))), Scale(e2, Dot(d, Cross(s, e1))))
  {
    TripleProductIsDet(e1, d, e2);
    TripleProductIsDet(e2, s, e1);
    TripleProductIsDet(s, d, e2);
    TripleProductIsDet(d, s, e1);
    CramerCoordinate(s.x, s.y, s.z, d.x, d.y, d.z, e1.x, e1.y, e1.z, e2.x, e2.y, e2.z);
    CramerCoordinate(s.y, s.z, s.x, d.y, d.z, d.x, e1.y, e1.z, e1.x, e2.y, e2.z, e2.x);
    CramerCoordinate(s.z, s.x, s.y, d.z, d.x, d.y, e1.z, e1.x, e1.y, e2.z, e2.x, e2.y);
  }

  /** The triple product is invariant under cyclic shifts and changes sign
      when two factors swap. */
  lemma TripleProduct(a: Vec3, b: Vec3, c: Vec3)
    ensures Dot(a, Cross(b, c)) == Dot(b, Cross(c, a)) == Dot(c, Cross(a, b))
    ensures Dot(a, Cross(b, c)) == -Dot(b, Cross(a, c))
  {
    TripleProductIsDet(a, b, c);
    TripleProductIsDet(b, c, a);
    TripleProductIsDet(c, a, b);
    TripleProductIsDet(b, a, c);
    DetSymmetries(a.x, a.y, a.z, b.x, b.y, b.z, c.x, c.y, c.z);
  }

  /** Rotating the rows keeps the determinant; swapping two negates it. */
  lemma DetSymmetries(ax: real, ay: real, az: real, px: real, py: real, pz: real, qx: real, qy: real, qz: real)
    ensures Det(ax, ay, az, px, py, pz, qx, qy, qz) == Det(px, py, pz, qx, qy, qz, ax, ay, az)
    ensures Det(ax, ay, az, px, py, pz, qx, qy, qz) == Det(qx, qy, qz, ax, ay, az, px, py, pz)
    ensures Det(ax, ay, az, px, py, pz, qx, qy, qz) == -Det(px, py, pz, ax, ay, az, qx, qy, qz)
  {
  }

  /** A cross product is orthogonal to both factors. */
  lemma CrossOrthogonal(a: Vec3, b: Vec3)
    ensures Dot(a, Cross(a, b)) == 0.0 && Dot(b, Cross(a, b)) == 0.0
  {
  }

  lemma DotLinear(a: Vec3, b: Vec3, k: real, c: Vec3)
    ensures Dot(Add(a, Scale(b, k)), c) == Dot(a, c) + k * Dot(b, c)
  {
  }

  lemma DotLinear2(a: Vec3, k: real, b: Vec3, l: real, c: Vec3)
    ensures Dot(Add(Scale(a, k), Scale(b, l)), c) == k * Dot(a, c) + l * Dot(b, c)
  {
  }

  /** Dividing `a * x == y` by a non-zero `a`. */
  lemma Divide(a: real, x: real, y: real)
    requires a != 0.0 && a * x == y
    ensures x == (1.0 / a) * y
  {
  }
}
