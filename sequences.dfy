/** Facts about sequences shared by the kernel's collectors: distinctness,
    first occurrences, order-preserving subsequences and cardinality. */
module Sequences {

  predicate Distinct<T(==)>(s: seq<T>) {
    forall i, j :: 0 <= i < j < |s| ==> s[i] != s[j]
  }

  /** The position of the first occurrence of `x` in `s`. */
  function IndexOf<T(==)>(s: seq<T>, x: T): (i: nat)
    requires x in s
    ensures i < |s| && s[i] == x
    ensures forall j :: 0 <= j < i ==> s[j] != x
  {
    if s[0] == x then 0 else 1 + IndexOf(s[1..], x)
  }

  /** `f` lists, in strictly increasing order, the positions of `s` that make
      up `u`. */
  ghost predicate SubsequenceAt<T>(u: seq<T>, s: seq<T>, f: seq<nat>) {
    && |f| == |u|
    && (forall k :: 0 <= k < |f| ==> f[k] < |s| && s[f[k]] == u[k])
    && (forall j, k :: 0 <= j < k < |f| ==> f[j] < f[k])
  }

  /** `u` is obtained from `s` by deleting elements, keeping the order. */
  ghost predicate IsSubsequence<T>(u: seq<T>, s: seq<T>) {
    exists f :: SubsequenceAt(u, s, f)
  }

  function Elements<T>(s: seq<T>): set<T> {
    set x | x in s
  }

  lemma {:induction false} ElementsOfSnoc<T>(s: seq<T>, x: T)
    ensures Elements(s + [x]) == Elements(s) + {x}
  {
    assert forall y :: y in s + [x] <==> y in s || y == x;
  }

  lemma {:induction false} ElementsBound<T>(s: seq<T>)
    ensures |Elements(s)| <= |s|
  {
    if |s| > 0 {
      var p := s[..|s| - 1];
      assert s == p + [s[|s| - 1]];
      ElementsOfSnoc(p, s[|s| - 1]);
      ElementsBound(p);
    }
  }

  lemma {:induction false} DistinctElements<T>(s: seq<T>)
    requires Distinct(s)
    ensures |Elements(s)| == |s|
  {
    if |s| > 0 {
      var p := s[..|s| - 1];
      assert s == p + [s[|s| - 1]];
      ElementsOfSnoc(p, s[|s| - 1]);
      assert s[|s| - 1] !in p;
      DistinctElements(p);
    }
  }

  /** Pigeonhole: a duplicate-free sequence drawn from `s` is no longer than `s`. */
  lemma DistinctDrawnFromIsShorter<T>(u: seq<T>, s: seq<T>)
    requires Distinct(u)
    requires forall x :: x in u ==> x in s
    ensures |u| <= |s|
  {
    DistinctElements(u);
    ElementsBound(s);
    SubsetCardinality(Elements(u), Elements(s));
  }

  lemma {:induction false} SubsetCardinality<T>(a: set<T>, b: set<T>)
    requires a <= b
    ensures |a| <= |b|
  {
    if a != {} {
      var x :| x in a;
      SubsetCardinality(a - {x}, b - {x});
    }
  }

  /** The positions of a duplicate-free sequence are determined by its values. */
  lemma DistinctIndex<T>(s: seq<T>, i: nat, j: nat)
    requires Distinct(s) && i < |s| && j < |s| && s[i] == s[j]
    ensures i == j
  {
  }
}
