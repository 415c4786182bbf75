/** Sorting of natural numbers, as `Vec::sort` does it to unsigned vectors. */
module Sorting {
  predicate Sorted(s: seq<nat>)
  {
    forall i, j :: 0 <= i < j < |s| ==> s[i] <= s[j]
  }

  /** A value no larger than the head of a sorted list may go in front. */
  lemma SortedCons(y: nat, s: seq<nat>)
    requires Sorted(s) && (s != [] ==> y <= s[0])
    ensures Sorted([y] + s)
  {
    var r := [y] + s;
    forall i, j | 0 <= i < j < |r|
      ensures r[i] <= r[j]
    {
      assert r[j] == s[j - 1];
      if i > 0 {
        assert r[i] == s[i - 1];
      }
    }
  }

  function Insert(x: nat, s: seq<nat>): (r: seq<nat>)
    requires Sorted(s)
    ensures Sorted(r) && multiset(r) == multiset(s) + multiset{x}
    ensures r != [] && r[0] == if s == [] || x <= s[0] then x else s[0]
  {
    if s == [] then [x]
    else if x <= s[0] then
      SortedCons(x, s);
      [x] + s
    else
      assert s == [s[0]] + s[1..];
      var rest := Insert(x, s[1..]);
      assert |s| > 1 ==> s[0] <= s[1];
      SortedCons(s[0], rest);
      [s[0]] + rest
  }

  /** `sort()` on a vector of unsigned numbers: the same numbers in ascending order. */
  function Sort(s: seq<nat>): (r: seq<nat>)
    ensures Sorted(r) && multiset(r) == multiset(s) && |r| == |s|
  {
    if s == [] then [] else
      assert s == [s[0]] + s[1..];
      var r := Insert(s[0], Sort(s[1..]));
      assert |r| == |multiset(r)| == |multiset(s)|;
      r
  }

  /** The last entry after sorting is the largest. */
  lemma LastIsMax(crabs: seq<nat>)
    requires |crabs| > 0
    ensures |Sort(crabs)| > 0
    ensures forall y :: y in crabs ==> y <= Sort(crabs)[|Sort(crabs)| - 1]
    ensures Sort(crabs)[|Sort(crabs)| - 1] in crabs
  {
    SortedLast(Sort(crabs), crabs);
  }

  /** The last entry of a sorted arrangement of `s` is the largest of `s`. */
  lemma SortedLast(r: seq<nat>, s: seq<nat>)
    requires Sorted(r) && multiset(r) == multiset(s) && |r| == |s| > 0
    ensures forall y :: y in s ==> y <= r[|r| - 1]
    ensures r[|r| - 1] in s
  {
    forall y | y in s
      ensures y <= r[|r| - 1]
    {
      assert y in multiset(r);
      var k :| 0 <= k < |r| && r[k] == y;
    }
    assert r[|r| - 1] in multiset(s);
  }
}
