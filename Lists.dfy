/** The parts of System.Collections.Generic.List<T> that the game relies on, over sequences. */
module Lists {

  predicate NoDuplicates<T(==)>(s: seq<T>)
  {
    forall i, j :: 0 <= i < j < |s| ==> s[i] != s[j]
  }

  function Last<T>(s: seq<T>): T
    requires |s| > 0
  {
    s[|s| - 1]
  }

  /**
   * List<T>.Remove(x): drops the first element equal to x and leaves the list
   * as it was when x is absent. Exactly one copy of x leaves the list.
   */
  function Remove<T(==)>(s: seq<T>, x: T): (r: seq<T>)
    ensures x !in s ==> r == s
    ensures x in s ==> |r| == |s| - 1 && multiset(r) == multiset(s) - multiset{x}
  {
    if s == [] then []
    else
      assert s == [s[0]] + s[1..];
      if s[0] == x then s[1..] else [s[0]] + Remove(s[1..], x)
  }

  /** Removing an element from a list without duplicates removes it entirely and keeps the rest. */
  lemma {:induction false} RemoveFromDistinct<T>(s: seq<T>, x: T)
    requires NoDuplicates(s)
    ensures NoDuplicates(Remove(s, x))
    ensures forall y :: y in Remove(s, x) <==> y in s && y != x
  {
    if s != [] && s[0] != x {
      RemoveFromDistinct(s[1..], x);
      var r := Remove(s[1..], x);
      assert Remove(s, x) == [s[0]] + r;
      assert s[0] !in r by {
        assert s[0] !in s[1..];
      }
    }
  }

  /** Removing an element and putting it back preserves the multiset of elements. */
  lemma RemoveThenAdd<T>(s: seq<T>, x: T)
    requires x in s
    ensures multiset(Remove(s, x)) + multiset{x} == multiset(s)
  {
  }

  /** A list is what lies before index i, the element at i, and what lies after it. */
  lemma SplitAt<T>(s: seq<T>, i: int)
    requires 0 <= i < |s|
    ensures s == s[..i] + [s[i]] + s[i + 1..]
  {
  }

  /** The multiset of a list is its first element plus the multiset of the rest. */
  lemma MultisetOfTail<T>(s: seq<T>)
    requires |s| > 0
    ensures multiset(s) == multiset{s[0]} + multiset(s[1..])
  {
    assert s == [s[0]] + s[1..];
  }

  /** The multiset of the suffix from i is the element at i plus the multiset of the suffix from i + 1. */
  lemma MultisetFrom<T>(s: seq<T>, i: int)
    requires 0 <= i < |s|
    ensures multiset(s[i..]) == multiset{s[i]} + multiset(s[i + 1..])
  {
    assert s[i..] == [s[i]] + s[i + 1..];
  }

  /** List<T>.Add adds one copy of the element to the multiset. */
  lemma MultisetOfPush<T>(s: seq<T>, x: T)
    ensures multiset(s + [x]) == multiset(s) + multiset{x}
  {
  }

  /** List<T>.RemoveAt(i). */
  function RemoveAt<T>(s: seq<T>, i: nat): (r: seq<T>)
    requires i < |s|
    ensures |r| == |s| - 1
    ensures multiset(r) + multiset{s[i]} == multiset(s)
  {
    assert s == s[..i] + [s[i]] + s[i + 1..];
    s[..i] + s[i + 1..]
  }

  /** List<T>.Add of an absent element keeps a list free of repeats. */
  lemma AppendDistinct<T>(s: seq<T>, x: T)
    requires NoDuplicates(s) && x !in s
    ensures NoDuplicates(s + [x])
  {
    var r := s + [x];
    assert forall i :: 0 <= i < |s| ==> r[i] == s[i];
  }

  /** List<T>.Reverse(), on a list nobody else holds. */
  function Reversed<T>(s: seq<T>): (r: seq<T>)
    ensures |r| == |s|
    ensures forall i :: 0 <= i < |s| ==> r[i] == s[|s| - 1 - i]
  {
    if s == [] then [] else Reversed(s[1..]) + [s[0]]
  }
}
