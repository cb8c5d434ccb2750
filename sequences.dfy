/**
 * Order-preserving selection over sequences: the shape shared by the
 * message filter's loop and the group classifier's list comprehension.
 */
module Sequences {

  /** The elements of `s` that satisfy `p`, in their original order. */
  function Filter<T>(p: T -> bool, s: seq<T>): (r: seq<T>)
    ensures |r| <= |s|
    ensures forall x :: x in r ==> x in s && p(x)
  {
    if s == [] then [] else (if p(s[0]) then [s[0]] else []) + Filter(p, s[1..])
  }

  /** `a` can be obtained from `b` by deleting elements, without reordering. */
  predicate IsSubsequence<T(==)>(a: seq<T>, b: seq<T>)
    decreases |b|
  {
    a == [] ||
    (b != [] &&
     ((a[0] == b[0] && IsSubsequence(a[1..], b[1..])) || IsSubsequence(a, b[1..])))
  }

  /** Selection keeps the relative order of what it keeps. */
  lemma {:induction false} FilterIsSubsequence<T>(p: T -> bool, s: seq<T>)
    ensures IsSubsequence(Filter(p, s), s)
  {
    if s != [] {
      FilterIsSubsequence(p, s[1..]);
      var r := Filter(p, s);
      if p(s[0]) {
        assert r == [s[0]] + Filter(p, s[1..]);
        assert r[1..] == Filter(p, s[1..]);
      } else {
        assert r == Filter(p, s[1..]);
      }
    }
  }

  /** Completeness: every element that satisfies `p` is kept. */
  lemma {:induction false} FilterComplete<T>(p: T -> bool, s: seq<T>, x: T)
    requires x in s && p(x)
    ensures x in Filter(p, s)
  {
    if s[0] != x {
      FilterComplete(p, s[1..], x);
    }
  }

  /** Two tests that agree on every element of `s` select the same elements. */
  lemma {:induction false} FilterSameTest<T>(p: T -> bool, q: T -> bool, s: seq<T>)
    requires forall x :: x in s ==> p(x) == q(x)
    ensures Filter(p, s) == Filter(q, s)
  {
    if s != [] {
      FilterSameTest(p, q, s[1..]);
    }
  }

  /** Filtering one more element appends it exactly when it is kept: the
      step of a loop that appends to an accumulator. */
  lemma {:induction false} FilterSnoc<T>(p: T -> bool, s: seq<T>, x: T)
    ensures Filter(p, s + [x]) == Filter(p, s) + (if p(x) then [x] else [])
  {
    if s == [] {
      assert [x][1..] == [];
    } else {
      assert (s + [x])[1..] == s[1..] + [x];
      FilterSnoc(p, s[1..], x);
    }
  }

  /** Selecting twice with the same test selects nothing more. */
  lemma {:induction false} FilterIdempotent<T>(p: T -> bool, s: seq<T>)
    ensures Filter(p, Filter(p, s)) == Filter(p, s)
  {
    if s != [] {
      FilterIdempotent(p, s[1..]);
      if p(s[0]) {
        var r := [s[0]] + Filter(p, s[1..]);
        assert r[0] == s[0] && r[1..] == Filter(p, s[1..]);
      } else {
        assert Filter(p, s) == Filter(p, s[1..]);
      }
    }
  }
}
