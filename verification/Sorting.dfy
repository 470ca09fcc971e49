/** Drawing order: by z-index, and equal ones in the order of the configuration's list. */
module Sorting {

  /** The pair of z-index and index is the smaller one. */
  predicate IsBefore(z: seq<int>, a: nat, b: nat)
    requires a < |z| && b < |z|
  {
    z[a] < z[b] || (z[a] == z[b] && a < b)
  }

  predicate AreIndices(z: seq<int>, s: seq<nat>) { forall i :: 0 <= i < |s| ==> s[i] < |z| }

  predicate IsSorted(z: seq<int>, s: seq<nat>)
    requires AreIndices(z, s)
  {
    forall i, j :: 0 <= i < j < |s| ==> IsBefore(z, s[i], s[j])
  }

  predicate AreDistinct<T(==)>(s: seq<T>) { forall i, j :: 0 <= i < j < |s| ==> s[i] != s[j] }

  /** The indices by z-index and index, which `std::ranges::sort` gives for the pairs. */
  function Sorted(z: seq<int>, s: seq<nat>): (t: seq<nat>)
    requires AreIndices(z, s)
    ensures AreIndices(z, t) && |t| == |s|
  {
    if |s| == 0 then [] else Inserted(z, Sorted(z, s[1..]), s[0])
  }

  function Inserted(z: seq<int>, s: seq<nat>, x: nat): (t: seq<nat>)
    requires AreIndices(z, s) && x < |z|
    ensures AreIndices(z, t) && |t| == |s| + 1
  {
    if |s| == 0 || IsBefore(z, x, s[0]) then [x] + s else [s[0]] + Inserted(z, s[1..], x)
  }

  lemma {:induction false} InsertedElements(z: seq<int>, s: seq<nat>, x: nat)
    requires AreIndices(z, s) && x < |z|
    ensures multiset(Inserted(z, s, x)) == multiset(s) + multiset{x}
    ensures forall y :: y in Inserted(z, s, x) <==> y == x || y in s
  {
    if |s| == 0 || IsBefore(z, x, s[0]) {
    } else {
      InsertedElements(z, s[1..], x);
      assert s == [s[0]] + s[1..];
    }
  }

  lemma {:induction false} InsertedIsSorted(z: seq<int>, s: seq<nat>, x: nat)
    requires AreIndices(z, s) && x < |z| && IsSorted(z, s) && x !in s
    ensures IsSorted(z, Inserted(z, s, x))
  {
    if |s| == 0 || IsBefore(z, x, s[0]) {
    } else {
      InsertedIsSorted(z, s[1..], x);
      InsertedElements(z, s[1..], x);
      var t := Inserted(z, s[1..], x);
      forall i | 0 <= i < |t| ensures IsBefore(z, s[0], t[i]) {
        assert t[i] in t;
      }
    }
  }

  lemma {:induction false} SortedIsSorted(z: seq<int>, s: seq<nat>)
    requires AreIndices(z, s) && AreDistinct(s)
    ensures IsSorted(z, Sorted(z, s)) && multiset(Sorted(z, s)) == multiset(s)
    ensures forall y :: y in Sorted(z, s) <==> y in s
  {
    if |s| == 0 {
    } else {
      SortedIsSorted(z, s[1..]);
      assert s == [s[0]] + s[1..];
      var t := Sorted(z, s[1..]);
      InsertedElements(z, t, s[0]);
      InsertedIsSorted(z, t, s[0]);
    }
  }

  /** What is sorted is distinct, and has the elements of what it was sorted from. */
  lemma SortedElements(z: seq<int>, s: seq<nat>)
    requires AreIndices(z, s) && AreDistinct(s)
    ensures var t := Sorted(z, s);
            AreDistinct(t) && IsSorted(z, t) && forall x :: x in t <==> x in s
  {
    SortedIsSorted(z, s);
  }
}
