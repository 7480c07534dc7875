/** What the shape builders promise about the index buffers they generate:
    a whole number of triangles, every index naming a generated vertex, three
    different corners per triangle, and each triangle lying on one surface of
    the shape. */
module Builders {

  /** Triangle `t` of `ts` has three different corners, all on the same
      surface of the shape. */
  predicate TriangleOnOneSurface<T, U(==)>(ts: seq<nat>, vs: seq<T>, surface: T -> U, t: nat)
    requires 3 * t + 2 < |ts| && ts[3 * t] < |vs| && ts[3 * t + 1] < |vs| && ts[3 * t + 2] < |vs|
  {
    var a, b, c := ts[3 * t], ts[3 * t + 1], ts[3 * t + 2];
    && a != b && b != c && a != c
    && surface(vs[a]) == surface(vs[b]) && surface(vs[b]) == surface(vs[c])
  }

  /** `ts` is a list of triangles over `vs`, each on one surface. */
  ghost predicate OnSurfaces<T, U>(ts: seq<nat>, vs: seq<T>, surface: T -> U) {
    && |ts| % 3 == 0
    && (forall k :: 0 <= k < |ts| ==> ts[k] < |vs|)
    && (forall t :: 0 <= t < |ts| / 3 ==> TriangleOnOneSurface(ts, vs, surface, t))
  }

  /** Appending well-placed triangles to well-placed triangles keeps them so. */
  lemma OnSurfacesAppend<T, U>(a: seq<nat>, b: seq<nat>, vs: seq<T>, surface: T -> U)
    requires OnSurfaces(a, vs, surface) && OnSurfaces(b, vs, surface)
    ensures OnSurfaces(a + b, vs, surface)
  {
    var ab := a + b;
    var n := |a| / 3;
    assert |a| == 3 * n;
    forall t | 0 <= t < |ab| / 3 ensures TriangleOnOneSurface(ab, vs, surface, t) {
      if t < n {
        assert ab[3 * t] == a[3 * t] && ab[3 * t + 1] == a[3 * t + 1] && ab[3 * t + 2] == a[3 * t + 2];
        assert TriangleOnOneSurface(a, vs, surface, t);
      } else {
        var u := t - n;
        assert 3 * t == |a| + 3 * u;
        assert ab[3 * t] == b[3 * u] && ab[3 * t + 1] == b[3 * u + 1] && ab[3 * t + 2] == b[3 * u + 2];
        assert TriangleOnOneSurface(b, vs, surface, u);
      }
    }
  }

  /** Two triangles (a, b, c) and (d, e, f), each with three different
      corners on one surface, form a well-placed index list. */
  lemma TwoTrianglesOnSurfaces<T, U>(a: nat, b: nat, c: nat, d: nat, e: nat, f: nat, vs: seq<T>, surface: T -> U)
    requires a < |vs| && b < |vs| && c < |vs| && d < |vs| && e < |vs| && f < |vs|
    requires a != b && b != c && a != c && d != e && e != f && d != f
    requires surface(vs[a]) == surface(vs[b]) == surface(vs[c])
    requires surface(vs[d]) == surface(vs[e]) == surface(vs[f])
    ensures OnSurfaces([a, b, c, d, e, f], vs, surface)
  {
    var q := [a, b, c, d, e, f];
    assert TriangleOnOneSurface(q, vs, surface, 0);
    assert TriangleOnOneSurface(q, vs, surface, 1);
  }
}
