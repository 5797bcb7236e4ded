/**
 * Sequences standing in for Java's hash sets: a HashSet is modelled as a sequence without
 * duplicates, in the order in which the model iterates over it.
 */
module Collections {

  /** The elements of a sequence, as a set. */
  function Elements<T>(s: seq<T>): set<T> {
    set x | x in s
  }

  predicate NoDuplicates<T(==)>(s: seq<T>) {
    forall i, j :: 0 <= i < j < |s| ==> s[i] != s[j]
  }

  /** The sequence with every element after its first occurrence dropped (Collectors.toSet). */
  function Distinct<T(==)>(s: seq<T>): (r: seq<T>)
    ensures Elements(r) == Elements(s) && NoDuplicates(r) && |r| <= |s|
  {
    DistinctAfter(s, [])
  }

  /** The elements of s not in seen, first occurrences only, appended to seen. */
  function DistinctAfter<T(==)>(s: seq<T>, seen: seq<T>): (r: seq<T>)
    requires NoDuplicates(seen)
    ensures Elements(r) == Elements(s) + Elements(seen) && NoDuplicates(r) && |r| <= |s| + |seen|
    ensures |seen| <= |r| && r[..|seen|] == seen
    decreases |s|
  {
    if s == [] then seen
    else if s[0] in seen then DistinctAfter(s[1..], seen)
    else
      var r := DistinctAfter(s[1..], seen + [s[0]]);
      assert r[..|seen|] == (seen + [s[0]])[..|seen|];
      r
  }

  /** Without duplicates, nothing is dropped. */
  lemma {:induction false} DistinctAfterNoDuplicates<T>(s: seq<T>, seen: seq<T>)
    requires NoDuplicates(seen) && NoDuplicates(seen + s)
    ensures DistinctAfter(s, seen) == seen + s
    decreases |s|
  {
    if s != [] {
      forall k | 0 <= k < |seen|
        ensures seen[k] != s[0]
      {
        assert seen[k] == (seen + s)[k] && s[0] == (seen + s)[|seen|];
      }
      assert seen + s == (seen + [s[0]]) + s[1..];
      assert seen + [s[0]] == (seen + s)[..|seen| + 1];
      DistinctAfterNoDuplicates(s[1..], seen + [s[0]]);
    }
  }

  /** Elements already seen add nothing. */
  lemma {:induction false} DistinctAfterSeen<T>(s: seq<T>, seen: seq<T>)
    requires NoDuplicates(seen) && forall x :: x in s ==> x in seen
    ensures DistinctAfter(s, seen) == seen
    decreases |s|
  {
    if s != [] {
      DistinctAfterSeen(s[1..], seen);
    }
  }

  /** Dropping repeats from a concatenation is done one part after the other. */
  lemma {:induction false} DistinctAfterConcat<T>(s: seq<T>, t: seq<T>, seen: seq<T>)
    requires NoDuplicates(seen)
    ensures DistinctAfter(s + t, seen) == DistinctAfter(t, DistinctAfter(s, seen))
    decreases |s|
  {
    if s == [] {
      assert s + t == t;
    } else {
      var st := s + t;
      assert st[0] == s[0] && st[1..] == s[1..] + t;
      if s[0] in seen {
        assert DistinctAfter(st, seen) == DistinctAfter(s[1..] + t, seen);
        assert DistinctAfter(s, seen) == DistinctAfter(s[1..], seen);
        DistinctAfterConcat(s[1..], t, seen);
      } else {
        assert DistinctAfter(st, seen) == DistinctAfter(s[1..] + t, seen + [s[0]]);
        assert DistinctAfter(s, seen) == DistinctAfter(s[1..], seen + [s[0]]);
        DistinctAfterConcat(s[1..], t, seen + [s[0]]);
      }
    }
  }

  /** HashSet.add: the element is appended when it is not already present. */
  function Add<T(==)>(s: seq<T>, x: T): (r: seq<T>)
    ensures Elements(r) == Elements(s) + {x}
    ensures NoDuplicates(s) ==> NoDuplicates(r)
  {
    if x in s then s else s + [x]
  }

  /** HashSet.remove: every occurrence of the element is dropped. */
  function Remove<T(==)>(s: seq<T>, x: T): (r: seq<T>)
    ensures Elements(r) == Elements(s) - {x}
    ensures NoDuplicates(s) ==> NoDuplicates(r)
    ensures |r| <= |s|
    ensures x !in s ==> r == s
  {
    if s == [] then []
    else if s[0] == x then Remove(s[1..], x)
    else
      var rest := Remove(s[1..], x);
      assert s == [s[0]] + s[1..];
      assert Elements(s) == {s[0]} + Elements(s[1..]);
      assert NoDuplicates(s) ==> s[0] !in s[1..] && NoDuplicates(s[1..]);
      assert s[0] in rest ==> s[0] in Elements(rest);
      assert Elements([s[0]] + rest) == {s[0]} + Elements(rest);
      [s[0]] + rest
  }

  /** The number of occurrences of x. */
  function Count<T(==)>(s: seq<T>, x: T): (n: nat)
    ensures n <= |s|
    ensures n == multiset(s)[x]
  {
    if s == [] then 0
    else
      assert s == [s[0]] + s[1..];
      (if s[0] == x then 1 else 0) + Count(s[1..], x)
  }

  /** List.remove(Object): the list without the first occurrence of x, if any. */
  function RemoveFirst<T(==)>(s: seq<T>, x: T): (r: seq<T>)
    ensures x !in s ==> r == s
    ensures |r| <= |s|
    ensures multiset(r) == multiset(s) - multiset{x}
  {
    if s == [] then []
    else if s[0] == x then
      assert s == [s[0]] + s[1..];
      s[1..]
    else
      assert s == [s[0]] + s[1..];
      [s[0]] + RemoveFirst(s[1..], x)
  }

  /** RemoveFirst drops exactly the element at the first index holding x. */
  lemma {:induction false} RemoveFirstAtFirstIndex<T>(s: seq<T>, x: T, i: nat)
    requires i < |s| && s[i] == x && x !in s[..i]
    ensures RemoveFirst(s, x) == s[..i] + s[i + 1..]
  {
    if i > 0 {
      assert s[0] != x by { assert s[0] == s[..i][0]; }
      assert s[1..][..i - 1] == s[1..i];
      assert x !in s[1..][..i - 1];
      RemoveFirstAtFirstIndex(s[1..], x, i - 1);
      assert s[..i] == [s[0]] + s[1..][..i - 1];
    }
  }

  /** Removing the first occurrence of x from s + [x], where x is absent from s, leaves s. */
  lemma {:induction false} RemoveFirstOfAppended<T>(s: seq<T>, x: T)
    requires x !in s
    ensures RemoveFirst(s + [x], x) == s
  {
    if s != [] {
      assert (s + [x])[1..] == s[1..] + [x];
      RemoveFirstOfAppended(s[1..], x);
    }
  }

  /** The tail of a sequence without duplicates has none, and does not hold the head. */
  lemma NoDuplicatesTail<T>(s: seq<T>)
    requires s != [] && NoDuplicates(s)
    ensures NoDuplicates(s[1..]) && s[0] !in s[1..]
  {
    forall i, j | 0 <= i < j < |s[1..]|
      ensures s[1..][i] != s[1..][j]
    {
      assert s[1..][i] == s[i + 1] && s[1..][j] == s[j + 1];
    }
    forall k | 0 <= k < |s[1..]|
      ensures s[1..][k] != s[0]
    {
      assert s[1..][k] == s[k + 1];
    }
  }

  /** A new head in front of a sequence without duplicates leaves none. */
  lemma NoDuplicatesCons<T>(x: T, s: seq<T>)
    requires x !in s && NoDuplicates(s)
    ensures NoDuplicates([x] + s)
  {
    var r := [x] + s;
    forall i, j | 0 <= i < j < |r|
      ensures r[i] != r[j]
    {
      assert r[j] == s[j - 1];
      if i > 0 {
        assert r[i] == s[i - 1];
      }
    }
  }

  /** Removing an element from a list without duplicates leaves none, and no copy of the element. */
  lemma {:induction false} RemoveFirstNoDuplicates<T>(s: seq<T>, x: T)
    ensures NoDuplicates(s) ==> NoDuplicates(RemoveFirst(s, x)) && x !in RemoveFirst(s, x)
  {
    if NoDuplicates(s) && s != [] {
      NoDuplicatesTail(s);
      if s[0] != x {
        RemoveFirstNoDuplicates(s[1..], x);
        var rest := RemoveFirst(s[1..], x);
        assert s[0] !in rest by {
          assert multiset(rest)[s[0]] <= multiset(s[1..])[s[0]];
        }
        NoDuplicatesCons(s[0], rest);
      }
    }
  }

  /** Apart from the key updated, an updated map is the map. */
  lemma UpdateAway<K, V>(m: map<K, V>, k: K, v: V)
    ensures m[k := v] - {k} == m - {k}
  {
  }

  /** Removing a key twice is removing it once. */
  lemma RemoveAway<K, V>(m: map<K, V>, k: K)
    ensures m - {k} - {k} == m - {k}
  {
  }
}
