/** Small facts about sequences of AS numbers used by the traversal and the clique scan. */
module Seqs {

  /** No AS number occurs twice. */
  predicate NoDup(s: seq<int>)
  {
    forall i, j :: 0 <= i < j < |s| ==> s[i] != s[j]
  }

  /** The set of AS numbers occurring in `s`. */
  function Elems(s: seq<int>): (r: set<int>)
    ensures forall x :: x in r <==> x in s
  {
    set x | x in s
  }

  /** `xs` is obtained from `ys` by deleting elements. */
  predicate IsSubsequence(xs: seq<int>, ys: seq<int>)
    decreases |ys|
  {
    xs == [] || (ys != [] && ((xs[0] == ys[0] && IsSubsequence(xs[1..], ys[1..])) || IsSubsequence(xs, ys[1..])))
  }

  /** Being a prefix is transitive. */
  lemma PrefixTrans(a: seq<int>, b: seq<int>, c: seq<int>)
    requires |a| <= |b| && b[..|a|] == a && |b| <= |c| && c[..|b|] == b
    ensures |a| <= |c| && c[..|a|] == a
  {
    assert c[..|a|] == c[..|b|][..|a|];
  }

  /** A duplicate-free sequence has as many distinct elements as positions. */
  lemma {:induction false} NoDupCardinality(s: seq<int>)
    requires NoDup(s)
    ensures |Elems(s)| == |s|
  {
    if s != [] {
      var t := s[..|s| - 1];
      assert NoDup(t);
      NoDupCardinality(t);
      assert s == t + [s[|s| - 1]];
      assert s[|s| - 1] !in t;
      assert Elems(s) == Elems(t) + {s[|s| - 1]};
    }
  }

  /** A subset is no larger than its superset. */
  lemma {:induction false} SubsetCardinality(a: set<int>, b: set<int>)
    requires a <= b
    ensures |a| <= |b|
  {
    assert b == a + (b - a);
    assert a !! (b - a);
  }

  /** Deleting elements introduces none: every element of a subsequence is in the sequence. */
  lemma {:induction false} SubsequenceElems(xs: seq<int>, ys: seq<int>)
    requires IsSubsequence(xs, ys)
    ensures forall x :: x in xs ==> x in ys
    decreases |ys|
  {
    if xs != [] {
      if xs[0] == ys[0] && IsSubsequence(xs[1..], ys[1..]) {
        SubsequenceElems(xs[1..], ys[1..]);
        assert xs == [xs[0]] + xs[1..];
      } else {
        SubsequenceElems(xs, ys[1..]);
      }
    }
  }
}
