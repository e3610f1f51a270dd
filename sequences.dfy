/** The list operations that the simulator performs on its `LinkedList` and
    `ArrayList` fields, written over sequences. */
module Sequences {

  /** No element occurs twice. */
  predicate Distinct<T(==)>(s: seq<T>) {
    forall a, b :: 0 <= a < b < |s| ==> s[a] != s[b]
  }

  /** `list.remove(i)`: drops the element at index `i`. */
  function RemoveAt<T>(s: seq<T>, i: nat): (r: seq<T>)
    requires i < |s|
    ensures |r| == |s| - 1
    ensures forall j :: 0 <= j < i ==> r[j] == s[j]
    ensures forall j :: i <= j < |r| ==> r[j] == s[j + 1]
  {
    s[..i] + s[i + 1..]
  }

  /** `list.remove(i)` followed by `list.add(i - 1, s[i])`: the element at `i`
      changes places with the one in front of it. */
  function MoveForward<T>(s: seq<T>, i: nat): (r: seq<T>)
    requires 1 <= i < |s|
    ensures |r| == |s|
    ensures r[i - 1] == s[i] && r[i] == s[i - 1]
    ensures forall j :: 0 <= j < |s| && j != i - 1 && j != i ==> r[j] == s[j]
  {
    s[..i - 1] + [s[i], s[i - 1]] + s[i + 1..]
  }

  /** `list.indexOf(x)`: index of the first occurrence of `x`. */
  function IndexOf<T(==)>(s: seq<T>, x: T): (i: nat)
    requires x in s
    ensures i < |s| && s[i] == x
    ensures forall j :: 0 <= j < i ==> s[j] != x
  {
    if s[0] == x then 0 else 1 + IndexOf(s[1..], x)
  }

  /** In a list without repetitions the index of an element is its position. */
  lemma IndexOfDistinct<T>(s: seq<T>, i: nat)
    requires Distinct(s) && i < |s|
    ensures IndexOf(s, s[i]) == i
  {
  }

  lemma RemoveAtMultiset<T>(s: seq<T>, i: nat)
    requires i < |s|
    ensures multiset(RemoveAt(s, i)) + multiset{s[i]} == multiset(s)
  {
    assert s == s[..i] + [s[i]] + s[i + 1..];
  }

  lemma MoveForwardMultiset<T>(s: seq<T>, i: nat)
    requires 1 <= i < |s|
    ensures multiset(MoveForward(s, i)) == multiset(s)
  {
    assert s == s[..i - 1] + [s[i - 1], s[i]] + s[i + 1..];
  }

  /** Appending an element keeps a prefix and extends a suffix. */
  lemma AppendSlices<T>(s: seq<T>, x: T, n: nat)
    requires n <= |s|
    ensures (s + [x])[..n] == s[..n] && (s + [x])[n..] == s[n..] + [x]
  {
  }

  /** Appending an element the list does not hold keeps it free of repetitions. */
  lemma DistinctAppend<T>(s: seq<T>, x: T)
    requires Distinct(s) && x !in s
    ensures Distinct(s + [x])
  {
  }

  /** Removing and swapping neighbours keep a list free of repetitions. */
  lemma DistinctRemoveAt<T>(s: seq<T>, i: nat)
    requires Distinct(s) && i < |s|
    ensures Distinct(RemoveAt(s, i))
    ensures forall x :: x in RemoveAt(s, i) ==> x in s && x != s[i]
  {
    var r := RemoveAt(s, i);
    forall x | x in r
      ensures x in s && x != s[i]
    {
      var j :| 0 <= j < |r| && r[j] == x;
      if j >= i {
        assert x == s[j + 1];
      }
    }
  }

  lemma DistinctMoveForward<T>(s: seq<T>, i: nat)
    requires Distinct(s) && 1 <= i < |s|
    ensures Distinct(MoveForward(s, i))
    ensures forall x :: x in MoveForward(s, i) <==> x in s
  {
    MoveForwardMultiset(s, i);
    var r := MoveForward(s, i);
    forall x
      ensures x in r <==> x in s
    {
      assert x in r <==> x in multiset(r);
    }
  }
}
