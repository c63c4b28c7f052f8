/**
 * Sequence notions used by the catalog: removing duplicates in the order
 * of first appearance (what spreading a JavaScript `Set` built from a
 * sequence yields), the first index of an element, and subsequences.
 */
module Seqs {

  predicate NoDuplicates<T(==,!new)>(s: seq<T>)
  {
    forall i, j :: 0 <= i < j < |s| ==> s[i] != s[j]
  }

  /**
   * `[...new Set(xs)]`: each element of `xs` once, in the order in which it
   * is first inserted. Written as the set is built, element by element.
   */
  function Dedup<T(==,!new)>(xs: seq<T>): (r: seq<T>)
    ensures NoDuplicates(r)
    ensures forall x :: x in r <==> x in xs
  {
    if xs == [] then []
    else
      var init, last := xs[..|xs| - 1], xs[|xs| - 1];
      assert xs == init + [last];
      var d := Dedup(init);
      if last in d then d else d + [last]
  }

  /** The position at which `x` first occurs in `xs`. */
  function FirstIndex<T(==,!new)>(xs: seq<T>, x: T): (r: nat)
    requires x in xs
    ensures r < |xs| && xs[r] == x && x !in xs[..r]
  {
    var init := xs[..|xs| - 1];
    if x in init then
      var k := FirstIndex(init, x);
      assert xs[..k] == init[..k];
      k
    else
      assert xs == init + [xs[|xs| - 1]];
      |xs| - 1
  }

  /** Inserting at the end does not move the first index of an old element. */
  lemma FirstIndexOfPrefix<T(!new)>(xs: seq<T>, x: T)
    requires xs != [] && x in xs[..|xs| - 1]
    ensures FirstIndex(xs, x) == FirstIndex(xs[..|xs| - 1], x)
  {
  }

  /** `r` lists every element of `xs` exactly once, in first-seen order. */
  ghost predicate FirstSeenOrder<T(!new)>(xs: seq<T>, r: seq<T>)
  {
    && NoDuplicates(r)
    && (forall x :: x in r <==> x in xs)
    && (forall i, j :: 0 <= i < j < |r| ==> r[i] in xs && r[j] in xs && FirstIndex(xs, r[i]) < FirstIndex(xs, r[j]))
  }

  /** Dedup keeps the order of first appearance. */
  lemma {:induction false} DedupFirstSeen<T(!new)>(xs: seq<T>)
    ensures FirstSeenOrder(xs, Dedup(xs))
  {
    if xs != [] {
      var init, last := xs[..|xs| - 1], xs[|xs| - 1];
      DedupFirstSeen(init);
      var d := Dedup(init);
      forall y | y in d
        ensures FirstIndex(xs, y) == FirstIndex(init, y) < |init|
      {
        FirstIndexOfPrefix(xs, y);
      }
      if last !in d {
        assert FirstIndex(xs, last) == |init|;
      }
    }
  }

  /** Every element of `r` occurs in `xs`, and `r` is ordered by first index. */
  ghost predicate ByFirstIndex<T(!new)>(xs: seq<T>, r: seq<T>)
  {
    && (forall x :: x in r ==> x in xs)
    && (forall i, j :: 0 <= i < j < |r| ==> r[i] in xs && r[j] in xs && FirstIndex(xs, r[i]) < FirstIndex(xs, r[j]))
  }

  ghost predicate SameElements<T(!new)>(a: seq<T>, b: seq<T>)
  {
    forall x :: x in a <==> x in b
  }

  /** The three properties of FirstSeenOrder fix the sequence completely. */
  lemma FirstSeenUnique<T(!new)>(xs: seq<T>, r1: seq<T>, r2: seq<T>)
    requires FirstSeenOrder(xs, r1) && FirstSeenOrder(xs, r2)
    ensures r1 == r2
  {
    OrderedUnique(xs, r1, r2);
  }

  /** Two duplicate-free sequences over the same elements, both ordered by first index, are equal. */
  lemma {:induction false} OrderedUnique<T(!new)>(xs: seq<T>, r1: seq<T>, r2: seq<T>)
    requires NoDuplicates(r1) && NoDuplicates(r2) && SameElements(r1, r2)
    requires ByFirstIndex(xs, r1) && ByFirstIndex(xs, r2)
    ensures r1 == r2
    decreases |r1|
  {
    SameElementsSameLength(r1, r2);
    if r1 != [] {
      OrderedHeads(xs, r1, r2);
      OrderedTails(xs, r1, r2);
      OrderedUnique(xs, r1[1..], r2[1..]);
      assert r1 == [r1[0]] + r1[1..];
      assert r2 == [r2[0]] + r2[1..];
    }
  }

  /** Duplicate-free sequences over the same elements have the same length. */
  lemma SameElementsSameLength<T(!new)>(r1: seq<T>, r2: seq<T>)
    requires NoDuplicates(r1) && NoDuplicates(r2) && SameElements(r1, r2)
    ensures |r1| == |r2|
  {
    NoDuplicatesCard(r1);
    NoDuplicatesCard(r2);
    assert (set x | x in r1) == (set x | x in r2);
  }

  /** The heads agree: both are the element with the smallest first index. */
  lemma OrderedHeads<T(!new)>(xs: seq<T>, r1: seq<T>, r2: seq<T>)
    requires r1 != [] && SameElements(r1, r2)
    requires ByFirstIndex(xs, r1) && ByFirstIndex(xs, r2)
    ensures r2 != [] && r1[0] == r2[0]
  {
    assert r1[0] in r2;
    var k :| 0 <= k < |r2| && r2[k] == r1[0];
    assert r2[0] in r1;
    var m :| 0 <= m < |r1| && r1[m] == r2[0];
    assert k == 0;
  }

  /** Dropping equal heads keeps every hypothesis of OrderedUnique. */
  lemma OrderedTails<T(!new)>(xs: seq<T>, r1: seq<T>, r2: seq<T>)
    requires r1 != [] && r2 != [] && r1[0] == r2[0]
    requires NoDuplicates(r1) && NoDuplicates(r2) && SameElements(r1, r2)
    requires ByFirstIndex(xs, r1) && ByFirstIndex(xs, r2)
    ensures NoDuplicates(r1[1..]) && NoDuplicates(r2[1..]) && SameElements(r1[1..], r2[1..])
    ensures ByFirstIndex(xs, r1[1..]) && ByFirstIndex(xs, r2[1..])
  {
    forall x | x in r1[1..]
      ensures x in r2[1..]
    {
      TailMember(r1, r2, x);
    }
    forall x | x in r2[1..]
      ensures x in r1[1..]
    {
      TailMember(r2, r1, x);
    }
  }

  lemma TailMember<T(!new)>(r1: seq<T>, r2: seq<T>, x: T)
    requires r1 != [] && r2 != [] && r1[0] == r2[0]
    requires NoDuplicates(r1) && NoDuplicates(r2) && SameElements(r1, r2)
    requires x in r1[1..]
    ensures x in r2[1..]
  {
    var i :| 0 <= i < |r1| - 1 && r1[1..][i] == x;
    assert r1[i + 1] == x && x != r1[0];
    assert x in r2;
    var k :| 0 <= k < |r2| && r2[k] == x;
    assert r2[1..][k - 1] == x;
  }

  /** A sequence without duplicates is as long as its set of elements is large. */
  lemma {:induction false} NoDuplicatesCard<T(!new)>(s: seq<T>)
    requires NoDuplicates(s)
    ensures |s| == |set x | x in s|
  {
    if s != [] {
      NoDuplicatesCard(s[1..]);
      var rest := set x | x in s[1..];
      assert s[0] !in rest;
      assert (set x | x in s) == {s[0]} + rest;
    }
  }

  /** `a` is `b` with some elements dropped, the rest kept in order. */
  predicate IsSubseq<T(==)>(a: seq<T>, b: seq<T>)
    decreases |b|
  {
    if a == [] then true
    else if b == [] then false
    else (a[0] == b[0] && IsSubseq(a[1..], b[1..])) || IsSubseq(a, b[1..])
  }
}
