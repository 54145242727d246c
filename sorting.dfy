/** Ordering a sequence by an integer key, as the `ORDER BY` clauses of the
    scheduler's queries do. Ties are left in no particular order by SQL, so
    only "sorted and a permutation" is promised. */
module Sorting {

  predicate SortedBy<T>(s: seq<T>, key: T -> int)
  {
    forall i, j :: 0 <= i < j < |s| ==> key(s[i]) <= key(s[j])
  }

  function Insert<T>(x: T, s: seq<T>, key: T -> int): (r: seq<T>)
    ensures multiset(r) == multiset(s) + multiset{x}
    ensures |r| == |s| + 1
    ensures r[0] == x || (s != [] && r[0] == s[0])
    decreases |s|
  {
    if s == [] then [x]
    else if key(x) <= key(s[0]) then [x] + s
    else
      assert s == [s[0]] + s[1..];
      [s[0]] + Insert(x, s[1..], key)
  }

  lemma SortedCons<T>(a: T, t: seq<T>, key: T -> int)
    requires SortedBy(t, key)
    requires t != [] ==> key(a) <= key(t[0])
    ensures SortedBy([a] + t, key)
  {
    var s := [a] + t;
    forall i, j | 0 <= i < j < |s|
      ensures key(s[i]) <= key(s[j])
    {
      if i == 0 && j > 1 {
        assert key(t[0]) <= key(t[j - 1]);
      }
    }
  }

  lemma {:induction false} InsertSorted<T>(x: T, s: seq<T>, key: T -> int)
    requires SortedBy(s, key)
    ensures SortedBy(Insert(x, s, key), key)
    decreases |s|
  {
    if s == [] {
    } else if key(x) <= key(s[0]) {
      SortedCons(x, s, key);
    } else {
      assert SortedBy(s[1..], key);
      InsertSorted(x, s[1..], key);
      var t := Insert(x, s[1..], key);
      assert t[0] == x || t[0] == s[1];
      SortedCons(s[0], t, key);
    }
  }

  /** Insertion sort: the result holds exactly the input's elements. */
  function SortBy<T>(s: seq<T>, key: T -> int): (r: seq<T>)
    ensures multiset(r) == multiset(s)
    ensures |r| == |s|
    decreases |s|
  {
    if s == [] then []
    else
      assert s == [s[0]] + s[1..];
      Insert(s[0], SortBy(s[1..], key), key)
  }

  /** ... and is ordered by `key`. */
  lemma {:induction false} SortBySorted<T>(s: seq<T>, key: T -> int)
    ensures SortedBy(SortBy(s, key), key)
    decreases |s|
  {
    if s != [] {
      SortBySorted(s[1..], key);
      InsertSorted(s[0], SortBy(s[1..], key), key);
    }
  }

  /** The first `n` elements of a sorted sequence are no larger than any later one. */
  lemma PrefixIsSmallest<T>(s: seq<T>, key: T -> int, n: nat)
    requires SortedBy(s, key) && n <= |s|
    ensures forall i, j :: 0 <= i < n <= j < |s| ==> key(s[i]) <= key(s[j])
  {
  }

  /** A strictly increasing sequence holds each value at most once. */
  lemma {:induction false} IncreasingOnce(s: seq<int>)
    requires forall i, j :: 0 <= i < j < |s| ==> s[i] < s[j]
    ensures forall x :: multiset(s)[x] <= 1
    decreases |s|
  {
    if s != [] {
      IncreasingOnce(s[1..]);
      assert s == [s[0]] + s[1..];
      assert s[0] !in s[1..];
    }
  }

  /** A prefix holds no more of any value than the whole. */
  lemma PrefixMultiset<T>(s: seq<T>, n: nat)
    requires n <= |s|
    ensures multiset(s[..n]) <= multiset(s)
  {
    assert s == s[..n] + s[n..];
  }

  /** An element of a sequence that is not in its first `n` elements sits at a position >= n. */
  lemma BeyondPrefix<T>(s: seq<T>, n: nat, x: T)
    requires n <= |s| && x in s && x !in s[..n]
    ensures exists j :: n <= j < |s| && s[j] == x
  {
    var j :| 0 <= j < |s| && s[j] == x;
    assert n <= j;
  }
}
