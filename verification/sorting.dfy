/**
 * Sorted streams. Java's Stream.sorted is stable; the two sorts here are the two cases the
 * action codec needs: a set whose key tells its elements apart (the order of the set does not
 * matter), and a sequence sorted by a key with ties (equal keys keep their order).
 */
module Sorting {
  import opened Collections

  /** Some element of a non-empty set has the least key. */
  lemma {:induction false} LeastKeyExists<T>(s: set<T>, key: T -> int)
    requires s != {}
    ensures exists m :: m in s && forall y :: y in s ==> key(m) <= key(y)
    decreases |s|
  {
    var x :| x in s;
    if s - {x} != {} {
      LeastKeyExists(s - {x}, key);
      var m :| m in s - {x} && forall y :: y in s - {x} ==> key(m) <= key(y);
      if key(x) < key(m) {
        assert forall y :: y in s ==> key(x) <= key(y);
      } else {
        assert forall y :: y in s ==> key(m) <= key(y);
      }
    } else {
      assert s == {x};
    }
  }

  /** The keys strictly increase along the sequence. */
  predicate StrictlySorted<T>(r: seq<T>, key: T -> int) {
    forall i, j :: 0 <= i < j < |r| ==> key(r[i]) < key(r[j])
  }

  /** The element of a non-empty set with the least key, when the key tells the elements apart. */
  function LeastByKey<T(==,!new)>(s: set<T>, key: T -> int): (m: T)
    requires s != {}
    requires forall a, b :: a in s && b in s && key(a) == key(b) ==> a == b
    ensures m in s && forall y :: y in s ==> key(m) <= key(y)
  {
    LeastKeyExists(s, key);
    var m :| m in s && forall y :: y in s ==> key(m) <= key(y);
    m
  }

  /**
   * The elements of a set in increasing order of a key that tells them apart: the sorted
   * stream of such a set, which does not depend on the order the set is streamed in.
   */
  function SortedByKey<T(==,!new)>(s: set<T>, key: T -> int): (r: seq<T>)
    requires forall a, b :: a in s && b in s && key(a) == key(b) ==> a == b
    ensures |r| == |s| && forall x :: x in r <==> x in s
    decreases |s|
  {
    if s == {} then []
    else
      var m := LeastByKey(s, key);
      var rest := SortedByKey(s - {m}, key);
      assert forall x :: x in [m] + rest <==> x == m || x in rest;
      [m] + rest
  }

  /** The keys of SortedByKey strictly increase. */
  lemma {:induction false} SortedByKeyIsSorted<T(!new)>(s: set<T>, key: T -> int)
    requires forall a, b :: a in s && b in s && key(a) == key(b) ==> a == b
    ensures StrictlySorted(SortedByKey(s, key), key)
    decreases |s|
  {
    if s != {} {
      var m := LeastByKey(s, key);
      var rest := SortedByKey(s - {m}, key);
      SortedByKeyIsSorted(s - {m}, key);
      forall x | x in rest
        ensures key(m) < key(x)
      {
        assert x in s - {m};
      }
      LeastInFrontIsSorted(m, rest, key);
    }
  }

  /** An element whose key is below every key of a strictly sorted sequence can go in front. */
  lemma LeastInFrontIsSorted<T>(m: T, rest: seq<T>, key: T -> int)
    requires StrictlySorted(rest, key)
    requires forall x :: x in rest ==> key(m) < key(x)
    ensures StrictlySorted([m] + rest, key)
  {
    var r := [m] + rest;
    forall i, j | 0 <= i < j < |r|
      ensures key(r[i]) < key(r[j])
    {
      assert r[j] == rest[j - 1];
      if i > 0 {
        assert r[i] == rest[i - 1];
      }
    }
  }

  /** Elements sorted by strictly increasing key have no duplicates. */
  lemma StrictlySortedIsDistinct<T>(r: seq<T>, key: T -> int)
    requires StrictlySorted(r, key)
    ensures NoDuplicates(r)
  {
  }

  /** The keys never decrease along the sequence. */
  predicate Sorted<T>(s: seq<T>, key: T -> int) {
    forall i, j :: 0 <= i < j < |s| ==> key(s[i]) <= key(s[j])
  }

  /** Insert x before the first element with a greater key. */
  function InsertByKey<T>(x: T, sorted: seq<T>, key: T -> int): (r: seq<T>)
    ensures multiset(r) == multiset(sorted) + multiset{x}
    decreases |sorted|
  {
    if sorted == [] || key(x) < key(sorted[0]) then [x] + sorted
    else
      assert sorted == [sorted[0]] + sorted[1..];
      [sorted[0]] + InsertByKey(x, sorted[1..], key)
  }

  /** Inserting into a sorted sequence keeps it sorted. */
  lemma {:induction false} InsertByKeySorted<T>(x: T, sorted: seq<T>, key: T -> int)
    requires Sorted(sorted, key)
    ensures Sorted(InsertByKey(x, sorted, key), key)
    decreases |sorted|
  {
    if sorted != [] && key(sorted[0]) <= key(x) {
      var rest := InsertByKey(x, sorted[1..], key);
      InsertByKeySorted(x, sorted[1..], key);
      var r := [sorted[0]] + rest;
      forall i | 0 < i < |r|
        ensures key(sorted[0]) <= key(r[i])
      {
        assert r[i] == rest[i - 1];
        assert r[i] in multiset(rest);
        if r[i] != x {
          assert r[i] in multiset(sorted[1..]);
        }
      }
    }
  }

  /**
   * A stable insertion sort: each element goes after those with the same key that come
   * before it.
   */
  function SortedBy<T>(s: seq<T>, key: T -> int): (r: seq<T>)
    ensures multiset(r) == multiset(s)
    ensures Sorted(r, key)
  {
    if s == [] then []
    else
      var init := s[..|s| - 1];
      assert s == init + [s[|s| - 1]];
      InsertByKeySorted(s[|s| - 1], SortedBy(init, key), key);
      InsertByKey(s[|s| - 1], SortedBy(init, key), key)
  }

  /** A sequence with the same multiset as one without duplicates has none either. */
  lemma DistinctMultiset<T>(s: seq<T>, r: seq<T>)
    requires multiset(r) == multiset(s)
    ensures NoDuplicates(s) ==> NoDuplicates(r)
  {
    forall i, j | 0 <= i < j < |r| && NoDuplicates(s)
      ensures r[i] != r[j]
    {
      if r[i] == r[j] {
        assert multiset(r)[r[i]] >= 2 by {
          assert r == r[..i] + [r[i]] + r[i + 1..j] + [r[j]] + r[j + 1..];
        }
        OccursOnce(s, r[i]);
      }
    }
  }

  /** In a sequence without duplicates, each element occurs once. */
  lemma {:induction false} OccursOnce<T>(s: seq<T>, x: T)
    requires NoDuplicates(s)
    ensures multiset(s)[x] <= 1
  {
    if s != [] {
      assert s == [s[0]] + s[1..];
      OccursOnce(s[1..], x);
      if x == s[0] {
        assert x !in s[1..];
      }
    }
  }
}
