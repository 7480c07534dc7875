/** Segment/triangle intersection (Möller–Trumbore) and the barycentric
    point-in-triangle test, in exact real arithmetic, and the collector that
    intersects one segment with a transformed mesh. */
module Primitives {
  import opened Geometry
  import opened Containment
  import opened Algebra
  import opened Collector

  /** `std::numeric_limits<float>::epsilon()`, 2^-23. */
  const FloatEpsilon: real := 1.0 / 8388608.0

  /** The tolerance of the point-in-triangle test when its caller passes
      none. Shapes.cpp:768 defines the test without a default, and the calls
      at Shapes.cpp:676 and 682 omit the argument, so the default comes from
      the class declaration of `Shapes`, which is not part of this model;
      0.0001 is an assumed value. */
  const TriangleEpsilon: real := 0.0001

  function Abs(x: real): real {
    if x < 0.0 then -x else x
  }

  /** `Shapes::LineIntersectsTriangle`: the point where segment p0 -> p1
      crosses triangle (v0, v1, v2), or `None` when the segment is parallel
      to the plane (|a| below `FloatEpsilon`) or misses the triangle or the
      segment's parameter range [0, 1]. */
  function LineIntersectsTriangle(p0: Vec3, p1: Vec3, v0: Vec3, v1: Vec3, v2: Vec3): Option<Vec3> {
    var dir := Sub(p1, p0);
    var e1 := Sub(v1, v0);
    var e2 := Sub(v2, v0);
    var h := Cross(dir, e2);
    var a := Dot(e1, h);
    if Abs(a) < FloatEpsilon then None
    else
      var s := Sub(p0, v0);
      var q := Cross(s, e1);
      AcceptCrossing(p0, dir, 1.0 / a, Dot(s, h), Dot(dir, q), Dot(e2, q))
  }

  /** The bounds tests of `LineIntersectsTriangle` once `f = 1 / a` and the
      three dot products are known: u = f (s . h), v = f (dir . q) and
      t = f (e2 . q). */
  function AcceptCrossing(p0: Vec3, dir: Vec3, f: real, sh: real, dq: real, eq: real): (r: Option<Vec3>)
    ensures r.Some? <==> 0.0 <= f * sh && 0.0 <= f * dq && f * sh + f * dq <= 1.0 && 0.0 <= f * eq <= 1.0
    ensures r.Some? ==> r.value == Add(p0, Scale(dir, f * eq))
  {
    var u := f * sh;
    if u < 0.0 || u > 1.0 then None
    else
      var v := f * dq;
      if v < 0.0 || u + v > 1.0 then None
      else
        var t := f * eq;
        if t < 0.0 || t > 1.0 then None
        else Some(Add(p0, Scale(dir, t)))
  }

  /** The determinant of the Möller–Trumbore system, e1 . (dir x e2). */
  function Determinant(p0: Vec3, p1: Vec3, v0: Vec3, v1: Vec3, v2: Vec3): real {
    Dot(Sub(v1, v0), Cross(Sub(p1, p0), Sub(v2, v0)))
  }

  /** `x` is the point at parameter t in [0, 1] of segment p0 -> p1 and at
      barycentric coordinates (1 - u - v, u, v), all non-negative, of the
      triangle. */
  ghost predicate SegmentMeetsTriangle(p0: Vec3, p1: Vec3, v0: Vec3, v1: Vec3, v2: Vec3, x: Vec3) {
    exists t: real, u: real, v: real ::
      && 0.0 <= t <= 1.0 && 0.0 <= u && 0.0 <= v && u + v <= 1.0
      && x == Add(p0, Scale(Sub(p1, p0), t))
      && x == Add(v0, Add(Scale(Sub(v1, v0), u), Scale(Sub(v2, v0), v)))
  }

  /** Every reported point lies both on the segment and on the triangle, and
      the segment is not parallel to the triangle's plane. */
  lemma IntersectionIsOnSegmentAndTriangle(p0: Vec3, p1: Vec3, v0: Vec3, v1: Vec3, v2: Vec3)
    requires LineIntersectsTriangle(p0, p1, v0, v1, v2).Some?
    ensures Abs(Determinant(p0, p1, v0, v1, v2)) >= FloatEpsilon
    ensures SegmentMeetsTriangle(p0, p1, v0, v1, v2, LineIntersectsTriangle(p0, p1, v0, v1, v2).value)
  {
    var dir, e1, e2 := Sub(p1, p0), Sub(v1, v0), Sub(v2, v0);
    var h := Cross(dir, e2);
    var a := Dot(e1, h);
    var s := Sub(p0, v0);
    var q := Cross(s, e1);
    var sh, dq, eq := Dot(s, h), Dot(dir, q), Dot(e2, q);
    assert LineIntersectsTriangle(p0, p1, v0, v1, v2) == AcceptCrossing(p0, dir, 1.0 / a, sh, dq, eq);
    SolvedSystem(s, dir, e1, e2);
    AcceptedMeets(p0, p1, v0, v1, v2, 1.0 / a, sh, dq, eq);
  }

  /** An accepted crossing whose three parameters solve the system is a
      meeting point of segment and triangle. */
  lemma AcceptedMeets(p0: Vec3, p1: Vec3, v0: Vec3, v1: Vec3, v2: Vec3, f: real, sh: real, dq: real, eq: real)
    requires AcceptCrossing(p0, Sub(p1, p0), f, sh, dq, eq).Some?
    requires Add(Sub(p0, v0), Scale(Sub(p1, p0), f * eq)) == Add(Scale(Sub(v1, v0), f * sh), Scale(Sub(v2, v0), f * dq))
    ensures SegmentMeetsTriangle(p0, p1, v0, v1, v2, AcceptCrossing(p0, Sub(p1, p0), f, sh, dq, eq).value)
  {
    var t, u, v := f * eq, f * sh, f * dq;
    var x := AcceptCrossing(p0, Sub(p1, p0), f, sh, dq, eq).value;
    ShiftOrigin(p0, v0, Scale(Sub(p1, p0), t));
    assert 0.0 <= t <= 1.0 && 0.0 <= u && 0.0 <= v && u + v <= 1.0;
    assert x == Add(p0, Scale(Sub(p1, p0), t));
    assert x == Add(v0, Add(Scale(Sub(v1, v0), u), Scale(Sub(v2, v0), v)));
  }

  /** Cramer's rule for s + t dir == u e1 + v e2, the system the source
      solves. */
  lemma SolvedSystem(s: Vec3, dir: Vec3, e1: Vec3, e2: Vec3)
    requires Dot(e1, Cross(dir, e2)) != 0.0
    ensures var f := 1.0 / Dot(e1, Cross(dir, e2));
      Add(s, Scale(dir, f * Dot(e2, Cross(s, e1))))
        == Add(Scale(e1, f * Dot(s, Cross(dir, e2))), Scale(e2, f * Dot(dir, Cross(s, e1))))
  {
    Cramer(s, dir, e1, e2);
    Quotient(Dot(e1, Cross(dir, e2)), Dot(e2, Cross(s, e1)));
    Quotient(Dot(e1, Cross(dir, e2)), Dot(s, Cross(dir, e2)));
    Quotient(Dot(e1, Cross(dir, e2)), Dot(dir, Cross(s, e1)));
    DivideSystem(s, dir, e1, e2, Dot(e1, Cross(dir, e2)), Dot(s, Cross(dir, e2)), Dot(dir, Cross(s, e1)), Dot(e2, Cross(s, e1)),
                 (1.0 / Dot(e1, Cross(dir, e2))) * Dot(e2, Cross(s, e1)),
                 (1.0 / Dot(e1, Cross(dir, e2))) * Dot(s, Cross(dir, e2)),
                 (1.0 / Dot(e1, Cross(dir, e2))) * Dot(dir, Cross(s, e1)));
  }

  /** (y / a) a == y for a != 0. */
  lemma Quotient(a: real, y: real)
    requires a != 0.0
    ensures ((1.0 / a) * y) * a == y
  {
  }

  /** Dividing the vector equation a s + eq d == sh e1 + dq e2 by a != 0:
      t, u and v are eq / a, sh / a and dq / a. */
  lemma DivideSystem(s: Vec3, d: Vec3, e1: Vec3, e2: Vec3, a: real, sh: real, dq: real, eq: real, t: real, u: real, v: real)
    requires a != 0.0 && t * a == eq && u * a == sh && v * a == dq
    requires Add(Scale(s, a), Scale(d, eq)) == Add(Scale(e1, sh), Scale(e2, dq))
    ensures Add(s, Scale(d, t)) == Add(Scale(e1, u), Scale(e2, v))
  {
    SystemCoordinates(s, d, e1, e2, a, sh, dq, eq);
    DivideCoordinate(a, s.x, d.x, e1.x, e2.x, sh, dq, eq, t, u, v);
    DivideCoordinate(a, s.y, d.y, e1.y, e2.y, sh, dq, eq, t, u, v);
    DivideCoordinate(a, s.z, d.z, e1.z, e2.z, sh, dq, eq, t, u, v);
    CoordinatesAgree(s, d, e1, e2, t, u, v);
  }

  lemma ShiftOrigin(p: Vec3, o: Vec3, w: Vec3)
    ensures Add(p, w) == Add(o, Add(Sub(p, o), w))
  {
  }

  lemma SystemCoordinates(s: Vec3, d: Vec3, e1: Vec3, e2: Vec3, a: real, sh: real, dq: real, eq: real)
    requires Add(Scale(s, a), Scale(d, eq)) == Add(Scale(e1, sh), Scale(e2, dq))
    ensures s.x * a + d.x * eq == e1.x * sh + e2.x * dq
    ensures s.y * a + d.y * eq == e1.y * sh + e2.y * dq
    ensures s.z * a + d.z * eq == e1.z * sh + e2.z * dq
  {
    assert Add(Scale(s, a), Scale(d, eq)).x == Add(Scale(e1, sh), Scale(e2, dq)).x;
    assert Add(Scale(s, a), Scale(d, eq)).y == Add(Scale(e1, sh), Scale(e2, dq)).y;
  }

  lemma CoordinatesAgree(s: Vec3, d: Vec3, e1: Vec3, e2: Vec3, t: real, u: real, v: real)
    requires s.x + d.x * t == e1.x * u + e2.x * v
    requires s.y + d.y * t == e1.y * u + e2.y * v
    requires s.z + d.z * t == e1.z * u + e2.z * v
    ensures Add(s, Scale(d, t)) == Add(Scale(e1, u), Scale(e2, v))
  {
  }

  /** One coordinate of `a s + eq d == sh e1 + dq e2`, divided by a. */
  lemma DivideCoordinate(a: real, s: real, d: real, e1: real, e2: real, sh: real, dq: real, eq: real,
                         t: real, u: real, v: real)
    requires a != 0.0 && t * a == eq && u * a == sh && v * a == dq
    requires s * a + d * eq == e1 * sh + e2 * dq
    ensures s + d * t == e1 * u + e2 * v
  {
    assert (s + d * t) * a == (e1 * u + e2 * v) * a;
  }

  /** Conversely, a non-parallel segment that meets the triangle is reported
      at the meeting point. */
  lemma CrossingIsReported(p0: Vec3, p1: Vec3, v0: Vec3, v1: Vec3, v2: Vec3, t: real, u: real, v: real)
    requires Abs(Determinant(p0, p1, v0, v1, v2)) >= FloatEpsilon
    requires 0.0 <= t <= 1.0 && 0.0 <= u && 0.0 <= v && u + v <= 1.0
    requires Add(p0, Scale(Sub(p1, p0), t)) == Add(v0, Add(Scale(Sub(v1, v0), u), Scale(Sub(v2, v0), v)))
    ensures LineIntersectsTriangle(p0, p1, v0, v1, v2) == Some(Add(p0, Scale(Sub(p1, p0), t)))
  {
    var dir, e1, e2 := Sub(p1, p0), Sub(v1, v0), Sub(v2, v0);
    var h := Cross(dir, e2);
    var a := Dot(e1, h);
    var s := Sub(p0, v0);
    var q := Cross(s, e1);
    var sh, dq, eq := Dot(s, h), Dot(dir, q), Dot(e2, q);
    ShiftOrigin(p0, v0, Scale(dir, t));
    assert Add(s, Scale(dir, t)) == Add(Scale(e1, u), Scale(e2, v));
    RecoverU(s, dir, e1, e2, t, u, v);
    RecoverV(s, dir, e1, e2, t, u, v);
    RecoverT(s, dir, e1, e2, t, u, v);
    AcceptAt(p0, dir, 1.0 / a, sh, dq, eq, t, u, v);
    assert LineIntersectsTriangle(p0, p1, v0, v1, v2) == AcceptCrossing(p0, dir, 1.0 / a, sh, dq, eq);
  }

  lemma AcceptAt(p0: Vec3, dir: Vec3, f: real, sh: real, dq: real, eq: real, t: real, u: real, v: real)
    requires u == f * sh && v == f * dq && t == f * eq
    requires 0.0 <= t <= 1.0 && 0.0 <= u && 0.0 <= v && u + v <= 1.0
    ensures AcceptCrossing(p0, dir, f, sh, dq, eq) == Some(Add(p0, Scale(dir, t)))
  {
  }

  /** Dotting s + t dir == u e1 + v e2 with dir x e2 gives u. */
  lemma RecoverU(s: Vec3, dir: Vec3, e1: Vec3, e2: Vec3, t: real, u: real, v: real)
    requires Dot(e1, Cross(dir, e2)) != 0.0
    requires Add(s, Scale(dir, t)) == Add(Scale(e1, u), Scale(e2, v))
    ensures u == (1.0 / Dot(e1, Cross(dir, e2))) * Dot(s, Cross(dir, e2))
  {
    var h := Cross(dir, e2);
    DotLinear(s, dir, t, h);
    DotLinear2(e1, u, e2, v, h);
    CrossOrthogonal(dir, e2);
    Divide(Dot(e1, h), u, Dot(s, h));
  }

  /** Dotting s + t dir == u e1 + v e2 with dir x e1 gives v. */
  lemma RecoverV(s: Vec3, dir: Vec3, e1: Vec3, e2: Vec3, t: real, u: real, v: real)
    requires Dot(e1, Cross(dir, e2)) != 0.0
    requires Add(s, Scale(dir, t)) == Add(Scale(e1, u), Scale(e2, v))
    ensures v == (1.0 / Dot(e1, Cross(dir, e2))) * Dot(dir, Cross(s, e1))
  {
    var g := Cross(dir, e1);
    DotLinear(s, dir, t, g);
    DotLinear2(e1, u, e2, v, g);
    CrossOrthogonal(dir, e1);
    TripleProduct(e1, dir, e2);
    TripleProduct(e2, dir, e1);
    TripleProduct(s, dir, e1);
    Divide(Dot(e1, Cross(dir, e2)), v, Dot(dir, Cross(s, e1)));
  }

  /** Dotting s + t dir == u e1 + v e2 with e1 x e2 gives t. */
  lemma RecoverT(s: Vec3, dir: Vec3, e1: Vec3, e2: Vec3, t: real, u: real, v: real)
    requires Dot(e1, Cross(dir, e2)) != 0.0
    requires Add(s, Scale(dir, t)) == Add(Scale(e1, u), Scale(e2, v))
    ensures t == (1.0 / Dot(e1, Cross(dir, e2))) * Dot(e2, Cross(s, e1))
  {
    var k := Cross(e1, e2);
    DotLinear(s, dir, t, k);
    DotLinear2(e1, u, e2, v, k);
    CrossOrthogonal(e1, e2);
    TripleProduct(s, e1, e2);
    TripleProduct(dir, e1, e2);
    Divide(Dot(e1, Cross(dir, e2)), t, Dot(e2, Cross(s, e1)));
  }

  lemma Reciprocal(a: real)
    requires a == -2.0
    ensures 1.0 / a == -0.5
  {
  }

  /** The vertical segment through (0.25, 0.25) crosses the unit right
      triangle in the z = 0 plane at (0.25, 0.25, 0). */
  lemma SegmentThroughTriangle(p0: Vec3, p1: Vec3, v0: Vec3, v1: Vec3, v2: Vec3)
    requires p0 == Vec3(0.25, 0.25, -1.0) && p1 == Vec3(0.25, 0.25, 1.0)
    requires v0 == Vec3(0.0, 0.0, 0.0) && v1 == Vec3(1.0, 0.0, 0.0) && v2 == Vec3(0.0, 1.0, 0.0)
    ensures LineIntersectsTriangle(p0, p1, v0, v1, v2) == Some(Vec3(0.25, 0.25, 0.0))
  {
    var dir := Vec3(0.0, 0.0, 2.0);
    assert Sub(p1, p0) == dir;
    var e1 := Sub(v1, v0);
    assert e1 == Vec3(1.0, 0.0, 0.0);
    var e2 := Sub(v2, v0);
    assert e2 == Vec3(0.0, 1.0, 0.0);
    var h := Cross(dir, e2);
    assert h == Vec3(-2.0, 0.0, 0.0);
    assert Dot(e1, h) == -2.0;
    var s := Sub(p0, v0);
    assert s == p0;
    assert Dot(s, h) == -0.5;
    var q := Cross(s, e1);
    assert q == Vec3(0.0, -1.0, -0.25);
    assert Dot(dir, q) == -0.5;
    assert Dot(e2, q) == -1.0;
    Reciprocal(Dot(e1, h));
    assert Scale(dir, 0.5) == Vec3(0.0, 0.0, 1.0);
  }

  /** The Gram determinant of the triangle's edge vectors. */
  function Denominator(v0: Vec3, v1: Vec3, v2: Vec3): real {
    var e1 := Sub(v1, v0);
    var e2 := Sub(v2, v0);
    Dot(e1, e1) * Dot(e2, e2) - Dot(e1, e2) * Dot(e1, e2)
  }

  /** `Shapes::IsPointInTriangle`: false for a degenerate triangle
      (|denominator| below `epsilon`, or zero, where the float division gives
      an infinity or NaN that fails every bound); otherwise the barycentric
      coordinates of the point's projection onto the plane all lie in
      [-epsilon, 1 + epsilon]. */
  function IsPointInTriangle(point: Vec3, v0: Vec3, v1: Vec3, v2: Vec3, epsilon: real): bool {
    var v0v1 := Sub(v1, v0);
    var v0v2 := Sub(v2, v0);
    var v0p := Sub(point, v0);
    BarycentricInside(Dot(v0v1, v0v1), Dot(v0v1, v0v2), Dot(v0v2, v0v2), Dot(v0p, v0v1), Dot(v0p, v0v2), epsilon)
  }

  /** The test of `IsPointInTriangle` on the five dot products. */
  function BarycentricInside(d00: real, d01: real, d11: real, d20: real, d21: real, epsilon: real): bool {
    var denom := d00 * d11 - d01 * d01;
    if Abs(denom) < epsilon || denom == 0.0 then false
    else
      var v := (d11 * d20 - d01 * d21) / denom;
      var w := (d00 * d21 - d01 * d20) / denom;
      var u := 1.0 - v - w;
      u >= -epsilon && v >= -epsilon && w >= -epsilon
      && u <= 1.0 + epsilon && v <= 1.0 + epsilon && w <= 1.0 + epsilon
  }

  /** Solving the 2x2 normal equations recovers the coordinates. */
  lemma SolveNormalEquations(d00: real, d01: real, d11: real, b1: real, b2: real)
    requires d00 * d11 - d01 * d01 != 0.0
    ensures (d11 * (b1 * d00 + b2 * d01) - d01 * (b1 * d01 + b2 * d11)) / (d00 * d11 - d01 * d01) == b1
    ensures (d00 * (b1 * d01 + b2 * d11) - d01 * (b1 * d00 + b2 * d01)) / (d00 * d11 - d01 * d01) == b2
  {
    var denom := d00 * d11 - d01 * d01;
    assert d11 * (b1 * d00 + b2 * d01) - d01 * (b1 * d01 + b2 * d11) == b1 * denom;
    assert d00 * (b1 * d01 + b2 * d11) - d01 * (b1 * d00 + b2 * d01) == b2 * denom;
  }

  /** For a point of the triangle's plane, v0 + b1 (v1 - v0) + b2 (v2 - v0),
      of a non-degenerate triangle, the test holds exactly when its three
      barycentric coordinates (1 - b1 - b2, b1, b2) lie in [-epsilon, 1 + epsilon]. */
  lemma PlanePointInTriangle(point: Vec3, v0: Vec3, v1: Vec3, v2: Vec3, b1: real, b2: real, epsilon: real)
    requires Abs(Denominator(v0, v1, v2)) >= epsilon && Denominator(v0, v1, v2) != 0.0
    requires point == Add(v0, Add(Scale(Sub(v1, v0), b1), Scale(Sub(v2, v0), b2)))
    ensures var u := 1.0 - b1 - b2;
      IsPointInTriangle(point, v0, v1, v2, epsilon) <==>
        (u >= -epsilon && b1 >= -epsilon && b2 >= -epsilon
         && u <= 1.0 + epsilon && b1 <= 1.0 + epsilon && b2 <= 1.0 + epsilon)
  {
    var e1, e2 := Sub(v1, v0), Sub(v2, v0);
    assert Sub(point, v0) == Add(Scale(e1, b1), Scale(e2, b2));
    var d00, d01, d11 := Dot(e1, e1), Dot(e1, e2), Dot(e2, e2);
    assert Denominator(v0, v1, v2) == d00 * d11 - d01 * d01;
    DotLinear2(e1, b1, e2, b2, e1);
    DotLinear2(e1, b1, e2, b2, e2);
    assert Dot(e2, e1) == d01;
    assert Dot(Sub(point, v0), e1) == b1 * d00 + b2 * d01;
    assert Dot(Sub(point, v0), e2) == b1 * d01 + b2 * d11;
    assert IsPointInTriangle(point, v0, v1, v2, epsilon)
        == BarycentricInside(d00, d01, d11, b1 * d00 + b2 * d01, b1 * d01 + b2 * d11, epsilon);
    BarycentricOfPlanePoint(d00, d01, d11, b1, b2, epsilon);
  }

  /** `BarycentricInside` on the dot products of v0 + b1 e1 + b2 e2 tests
      the coordinates (1 - b1 - b2, b1, b2) themselves. */
  lemma BarycentricOfPlanePoint(d00: real, d01: real, d11: real, b1: real, b2: real, epsilon: real)
    requires Abs(d00 * d11 - d01 * d01) >= epsilon && d00 * d11 - d01 * d01 != 0.0
    ensures var u := 1.0 - b1 - b2;
      BarycentricInside(d00, d01, d11, b1 * d00 + b2 * d01, b1 * d01 + b2 * d11, epsilon) <==>
        (u >= -epsilon && b1 >= -epsilon && b2 >= -epsilon
         && u <= 1.0 + epsilon && b1 <= 1.0 + epsilon && b2 <= 1.0 + epsilon)
  {
    SolveNormalEquations(d00, d01, d11, b1, b2);
  }

  /** A collinear triangle is degenerate: nothing is inside it. */
  lemma CollinearTriangleRejects(point: Vec3, v0: Vec3, d: Vec3, k: real, epsilon: real)
    ensures !IsPointInTriangle(point, v0, Add(v0, d), Add(v0, Scale(d, k)), epsilon)
  {
    var e1, e2 := Sub(Add(v0, d), v0), Sub(Add(v0, Scale(d, k)), v0);
    assert e1 == d && e2 == Scale(d, k);
    assert Dot(d, Scale(d, k)) == k * Dot(d, d);
    assert Dot(Scale(d, k), Scale(d, k)) == k * k * Dot(d, d);
    assert Dot(e1, e1) * Dot(e2, e2) - Dot(e1, e2) * Dot(e1, e2) == 0.0;
  }

  /** Every hit `LineIntersectsTriangle` collects lies on the segment and on
      one of the triangles. */
  lemma {:induction false} SegmentHitsAreCrossings(p0: Vec3, p1: Vec3, world: seq<Vec3>, indices: seq<nat>, n: nat, k: nat)
    requires n <= |indices| / 3 && TrianglesBelow(indices, |world|)
    requires k < |SegmentHits(p0, p1, world, indices, n, LineIntersectsTriangle)|
    ensures exists t :: 0 <= t < n && SegmentMeetsTriangle(p0, p1, Corner(world, indices, t, 0),
      Corner(world, indices, t, 1), Corner(world, indices, t, 2), SegmentHits(p0, p1, world, indices, n, LineIntersectsTriangle)[k])
  {
    var prev := SegmentHits(p0, p1, world, indices, n - 1, LineIntersectsTriangle);
    if k < |prev| {
      SegmentHitsAreCrossings(p0, p1, world, indices, n - 1, k);
    } else {
      var c0, c1, c2 := Corner(world, indices, n - 1, 0), Corner(world, indices, n - 1, 1), Corner(world, indices, n - 1, 2);
      IntersectionIsOnSegmentAndTriangle(p0, p1, c0, c1, c2);
    }
  }

  /** `Shapes::GetEdgeIntersection`: intersects segment v0 -> v1 with every
      triangle of the mesh carried by `modelMatrix`, in order, stopping at the
      second hit. The result is the first two hits, or all of them if there
      are fewer; each is a point of the segment and of one triangle
      (`SegmentHitsAreCrossings`). */
  method GetEdgeIntersection(v0: Vec3, v1: Vec3, vertices: seq<Vec3>, indices: seq<nat>, modelMatrix: Transform)
    returns (intersections: seq<Vec3>)
    requires TrianglesBelow(indices, |vertices|)
    ensures intersections == FirstTwo(SegmentHits(v0, v1, TransformAll(vertices, modelMatrix), indices, |indices| / 3, LineIntersectsTriangle))
  {
    var place := p => Apply(modelMatrix, p);
    intersections := CollectFirstTwoHits(v0, v1, vertices, indices, place, LineIntersectsTriangle);
    assert Placed(vertices, place) == TransformAll(vertices, modelMatrix);
  }
}
