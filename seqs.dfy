/**
 * Sequence operations shared by the views: `Array.prototype.filter`, the
 * first-occurrence de-duplication that spreading a `Set` performs, and the
 * facts about them that the views' properties rest on.
 */
module Seqs {

  /** The elements satisfying `p`, in their original order. */
  function Filter<T>(s: seq<T>, p: T -> bool): (r: seq<T>)
    ensures |r| <= |s|
    ensures forall i :: 0 <= i < |r| ==> r[i] in s && p(r[i])
    ensures forall i :: 0 <= i < |s| && p(s[i]) ==> s[i] in r
  {
    if s == [] then []
    else
      assert s == s[..|s| - 1] + [s[|s| - 1]];
      Filter(s[..|s| - 1], p) + (if p(s[|s| - 1]) then [s[|s| - 1]] else [])
  }

  /** The complement of a predicate. */
  function Not<T>(p: T -> bool): T -> bool {
    x => !p(x)
  }

  /** Both predicates at once. */
  function And<T>(p: T -> bool, q: T -> bool): T -> bool {
    x => p(x) && q(x)
  }

  /** Membership in a filter, stated on elements rather than positions. */
  lemma FilterMembership<T>(s: seq<T>, p: T -> bool, x: T)
    ensures x in Filter(s, p) <==> x in s && p(x)
  {
    var r := Filter(s, p);
    if x in r {
      var i :| 0 <= i < |r| && r[i] == x;
    }
    if x in s && p(x) {
      var i :| 0 <= i < |s| && s[i] == x;
    }
  }

  /** Filtering twice is filtering once by both predicates. */
  lemma {:induction false} FilterFilter<T>(s: seq<T>, p: T -> bool, q: T -> bool)
    ensures Filter(Filter(s, p), q) == Filter(s, And(p, q))
  {
    if s != [] {
      var init, last := s[..|s| - 1], s[|s| - 1];
      FilterFilter(init, p, q);
      if p(last) {
        FilterSnoc(Filter(init, p), last, q);
      } else {
        var fp, fa := Filter(init, p), Filter(init, And(p, q));
        assert fp + [] == fp && fa + [] == fa;
        assert Filter(s, p) == fp;
        assert !And(p, q)(last);
        assert Filter(s, And(p, q)) == fa;
      }
    }
  }

  /** Predicates that agree on every element of `s` filter it alike. */
  lemma {:induction false} FilterAgree<T>(s: seq<T>, p: T -> bool, q: T -> bool)
    requires forall i :: 0 <= i < |s| ==> p(s[i]) == q(s[i])
    ensures Filter(s, p) == Filter(s, q)
  {
    if s != [] {
      FilterAgree(s[..|s| - 1], p, q);
    }
  }

  /** `r` is obtained from `s` by deleting elements: same relative order, no new elements. */
  predicate IsSubsequence<T(==)>(r: seq<T>, s: seq<T>)
    decreases |s|
  {
    r == [] ||
    (s != [] &&
     ((r[|r| - 1] == s[|s| - 1] && IsSubsequence(r[..|r| - 1], s[..|s| - 1]))
      || IsSubsequence(r, s[..|s| - 1])))
  }

  lemma {:induction false} FilterSnoc<T>(s: seq<T>, x: T, p: T -> bool)
    ensures Filter(s + [x], p) == Filter(s, p) + (if p(x) then [x] else [])
  {
    assert (s + [x])[..|s|] == s;
  }

  /** A filter keeps its survivors in their original order. */
  lemma {:induction false} FilterIsSubsequence<T>(s: seq<T>, p: T -> bool)
    ensures IsSubsequence(Filter(s, p), s)
  {
    if s != [] {
      var init := s[..|s| - 1];
      FilterIsSubsequence(init, p);
      if p(s[|s| - 1]) {
        var r := Filter(s, p);
        assert r[..|r| - 1] == Filter(init, p);
      } else {
        var r := Filter(init, p);
        assert r + [] == r;
        assert Filter(s, p) == r;
        SubsequenceDropLast(r, s);
        assert IsSubsequence(r, s);
      }
    }
  }

  lemma {:induction false} SubsequenceReflexive<T>(s: seq<T>)
    ensures IsSubsequence(s, s)
  {
    if s != [] {
      SubsequenceReflexive(s[..|s| - 1]);
    }
  }

  /** A subsequence of all but the last element is a subsequence of the whole. */
  lemma SubsequenceDropLast<T>(r: seq<T>, s: seq<T>)
    requires s != [] && IsSubsequence(r, s[..|s| - 1])
    ensures IsSubsequence(r, s)
  {
  }

  /** A filter that every element passes is the identity. */
  lemma {:induction false} FilterAllPass<T>(s: seq<T>, p: T -> bool)
    requires forall i :: 0 <= i < |s| ==> p(s[i])
    ensures Filter(s, p) == s
  {
    if s != [] {
      FilterAllPass(s[..|s| - 1], p);
    }
  }

  /** Every element passes `p` or its complement, never both. */
  lemma {:induction false} FilterPartition<T>(s: seq<T>, p: T -> bool)
    ensures |Filter(s, p)| + |Filter(s, Not(p))| == |s|
  {
    if s != [] {
      FilterPartition(s[..|s| - 1], p);
    }
  }

  predicate NoDup<T(==)>(s: seq<T>) {
    forall i, j :: 0 <= i < j < |s| ==> s[i] != s[j]
  }

  /** Each distinct element once, in order of first occurrence, as a set built from `s` lists them. */
  function Distinct<T(==)>(s: seq<T>): (r: seq<T>)
    ensures NoDup(r)
    ensures forall i :: 0 <= i < |r| ==> r[i] in s
    ensures forall i :: 0 <= i < |s| ==> s[i] in r
  {
    if s == [] then []
    else
      assert s == s[..|s| - 1] + [s[|s| - 1]];
      var d := Distinct(s[..|s| - 1]);
      if s[|s| - 1] in d then d else d + [s[|s| - 1]]
  }

  /** The position at which `x` first occurs in `s`. */
  function FirstIndex<T(==)>(s: seq<T>, x: T): (i: nat)
    requires x in s
    ensures i < |s| && s[i] == x
    ensures forall j :: 0 <= j < i ==> s[j] != x
  {
    if s[0] == x then 0 else 1 + FirstIndex(s[1..], x)
  }

  lemma {:induction false} FirstIndexAppend<T>(s: seq<T>, t: seq<T>, x: T)
    requires x in s
    ensures FirstIndex(s + t, x) == FirstIndex(s, x)
  {
    if s[0] != x {
      assert (s + t)[1..] == s[1..] + t;
      FirstIndexAppend(s[1..], t, x);
    }
  }

  /** `Distinct` lists the elements in the order in which they first occur in `s`. */
  lemma {:induction false} DistinctFirstOccurrenceOrder<T>(s: seq<T>, i: nat, j: nat)
    requires i < j < |Distinct(s)|
    ensures FirstIndex(s, Distinct(s)[i]) < FirstIndex(s, Distinct(s)[j])
  {
    var init, last := s[..|s| - 1], s[|s| - 1];
    assert s == init + [last];
    var d := Distinct(init);
    var x, y := Distinct(s)[i], Distinct(s)[j];
    assert x in d;
    FirstIndexAppend(init, [last], x);
    if j < |d| {
      assert y == d[j];
      FirstIndexAppend(init, [last], y);
      DistinctFirstOccurrenceOrder(init, i, j);
    } else {
      assert y == last && last !in init;
      assert FirstIndex(s, y) == |init|;
    }
  }

  function Elements<T>(s: seq<T>): set<T> {
    set x | x in s
  }

  /** A sequence without repetitions has as many elements as its set. */
  lemma {:induction false} NoDupCardinality<T>(s: seq<T>)
    requires NoDup(s)
    ensures |Elements(s)| == |s|
  {
    if s != [] {
      var init := s[..|s| - 1];
      NoDupCardinality(init);
      assert Elements(s) == Elements(init) + {s[|s| - 1]};
      assert s[|s| - 1] !in Elements(init);
    }
  }

  /** The de-duplicated list is as long as `s` has distinct elements. */
  lemma DistinctCount<T>(s: seq<T>)
    ensures |Distinct(s)| == |Elements(s)|
  {
    NoDupCardinality(Distinct(s));
    assert Elements(Distinct(s)) == Elements(s);
  }
}
