/** Ascending sort of real numbers, the `sorted(...)` the statistics rely on. */
module Sorting {

  predicate Sorted(s: seq<real>) { forall i, j :: 0 <= i < j < |s| ==> s[i] <= s[j] }

  /** Places `x` before the first element that is not smaller than it. */
  function Insert(x: real, s: seq<real>): (r: seq<real>)
    requires Sorted(s)
    ensures Sorted(r)
    ensures |r| == |s| + 1
    ensures multiset(r) == multiset(s) + multiset{x}
    ensures forall k :: 0 <= k < |r| ==> r[k] == x || r[k] in s
  {
    if s == [] || x <= s[0] then [x] + s
    else
      var t := Insert(x, s[1..]);
      assert forall k :: 0 <= k < |t| ==> s[0] <= t[k];
      assert s == [s[0]] + s[1..];
      [s[0]] + t
  }

  /** Insertion sort on a copy: the argument is a value and stays as it was. */
  function Sort(s: seq<real>): (r: seq<real>)
    ensures Sorted(r)
    ensures |r| == |s|
    ensures multiset(r) == multiset(s)
  {
    if s == [] then []
    else
      assert s == [s[0]] + s[1..];
      Insert(s[0], Sort(s[1..]))
  }

  /** Equal multisets have the same elements. */
  lemma SameElements(a: seq<real>, b: seq<real>)
    requires multiset(a) == multiset(b)
    ensures forall x :: x in a <==> x in b
  {
    forall x ensures x in a <==> x in b {
      assert x in a <==> x in multiset(a);
      assert x in b <==> x in multiset(b);
    }
  }

  /** In sorted data the first element is the least and the last the greatest. */
  lemma SortedEnds(a: seq<real>)
    requires Sorted(a) && a != []
    ensures forall x :: x in a ==> a[0] <= x <= a[|a| - 1]
  {
    forall x | x in a ensures a[0] <= x <= a[|a| - 1] {
      var i :| 0 <= i < |a| && a[i] == x;
    }
  }

  lemma MultisetTail(a: seq<real>)
    requires a != []
    ensures multiset(a[1..]) == multiset(a) - multiset{a[0]}
  {
    assert a == [a[0]] + a[1..];
  }

  /** A sorted arrangement of a multiset is unique. */
  lemma {:induction false} SortedUnique(a: seq<real>, b: seq<real>)
    requires Sorted(a) && Sorted(b)
    requires multiset(a) == multiset(b)
    ensures a == b
    decreases |a|
  {
    assert |a| == |multiset(a)| == |multiset(b)| == |b|;
    if a != [] {
      SameElements(a, b);
      SortedEnds(a);
      SortedEnds(b);
      assert a[0] in a && b[0] in b;
      assert a[0] == b[0];
      MultisetTail(a);
      MultisetTail(b);
      SortedUnique(a[1..], b[1..]);
      assert a == [a[0]] + a[1..] && b == [b[0]] + b[1..];
    }
  }

  /** Sorting a rearrangement gives the same sequence; sorting sorted data is the identity. */
  lemma SortPermutation(a: seq<real>, b: seq<real>)
    requires multiset(a) == multiset(b)
    ensures Sort(a) == Sort(b)
  {
    SortedUnique(Sort(a), Sort(b));
  }

  lemma SortOfSorted(s: seq<real>)
    requires Sorted(s)
    ensures Sort(s) == s
  {
    SortedUnique(Sort(s), s);
  }

  /** The first and last elements of the sorted copy are the minimum and the maximum. */
  lemma SortEnds(s: seq<real>)
    requires s != []
    ensures Sort(s)[0] in s && Sort(s)[|s| - 1] in s
    ensures forall x :: x in s ==> Sort(s)[0] <= x <= Sort(s)[|s| - 1]
  {
    var r := Sort(s);
    SameElements(r, s);
    SortedEnds(r);
    assert r[0] in r && r[|r| - 1] in r;
  }
}
