/**
 * Order-preserving filtering of sequences, the model of `Array.prototype.filter`
 * and of loops that push the matching elements into a fresh array.
 */
module Sequences {

  /** The elements of `s` that satisfy `p`, in their original order. */
  function Filter<T>(s: seq<T>, p: T -> bool): (r: seq<T>)
    ensures |r| <= |s|
  {
    if s == [] then []
    else
      var last := s[|s| - 1];
      Filter(s[..|s| - 1], p) + (if p(last) then [last] else [])
  }

  /** `a` is obtained from `b` by deleting zero or more elements. */
  ghost predicate IsSubsequence<T>(a: seq<T>, b: seq<T>)
    decreases |b|
  {
    a == [] ||
    (b != [] &&
     ((a[|a| - 1] == b[|b| - 1] && IsSubsequence(a[..|a| - 1], b[..|b| - 1])) ||
      IsSubsequence(a, b[..|b| - 1])))
  }

  /** Filtering one more element appends it exactly when it passes. */
  lemma FilterSnoc<T>(s: seq<T>, x: T, p: T -> bool)
    ensures Filter(s + [x], p) == Filter(s, p) + (if p(x) then [x] else [])
  {
  }

  /** Every element of the result passes, and the result keeps the input's order. */
  lemma {:induction false} FilterIsSubsequence<T>(s: seq<T>, p: T -> bool)
    ensures IsSubsequence(Filter(s, p), s)
    ensures forall i :: 0 <= i < |Filter(s, p)| ==> p(Filter(s, p)[i])
  {
    if s != [] {
      var init, last := s[..|s| - 1], s[|s| - 1];
      FilterIsSubsequence(init, p);
      var r := Filter(s, p);
      if p(last) {
        assert r[..|r| - 1] == Filter(init, p);
      } else {
        assert r == Filter(init, p);
        SubsequenceOfPrefix(r, init, last);
      }
    }
  }

  /** A subsequence of a prefix is a subsequence of the whole. */
  lemma SubsequenceOfPrefix<T>(a: seq<T>, b: seq<T>, x: T)
    requires IsSubsequence(a, b)
    ensures IsSubsequence(a, b + [x])
  {
  }

  /**
   * An element that passes keeps every one of its occurrences; an element that
   * fails has none left.
   */
  lemma {:induction false} FilterMultiplicity<T>(s: seq<T>, p: T -> bool, x: T)
    ensures p(x) ==> multiset(Filter(s, p))[x] == multiset(s)[x]
    ensures !p(x) ==> multiset(Filter(s, p))[x] == 0
  {
    if s != [] {
      var init, last := s[..|s| - 1], s[|s| - 1];
      FilterMultiplicity(init, p, x);
      assert s == init + [last];
    }
  }

  /** An element is in the result exactly when it is in the input and passes. */
  lemma FilterMembership<T>(s: seq<T>, p: T -> bool, x: T)
    ensures x in Filter(s, p) <==> x in s && p(x)
  {
  }

  /** Filtering shortens the sequence exactly when some element fails. */
  lemma {:induction false} FilterShortens<T>(s: seq<T>, p: T -> bool)
    ensures |Filter(s, p)| == |s| <==> forall i :: 0 <= i < |s| ==> p(s[i])
    ensures (forall i :: 0 <= i < |s| ==> p(s[i])) ==> Filter(s, p) == s
  {
    if s != [] {
      var init, last := s[..|s| - 1], s[|s| - 1];
      FilterShortens(init, p);
      assert s == init + [last];
      assert forall i :: 0 <= i < |init| ==> init[i] == s[i];
    }
  }
}
