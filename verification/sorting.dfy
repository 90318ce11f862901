/**
 * Stable sort by a natural-number key, largest key first: the behaviour of
 * `Array.prototype.sort((a, b) => key(b) - key(a))`, which ECMAScript
 * requires to be stable, and of a `{ field: -1 }` sort.
 */
module Sorting {
  import Seqs

  predicate SortedDesc<T>(s: seq<T>, key: T -> nat) {
    forall i, j :: 0 <= i < j < |s| ==> key(s[i]) >= key(s[j])
  }

  /** The elements of `s` whose key is `k`, in their order in `s`. */
  function WithKey<T>(s: seq<T>, key: T -> nat, k: nat): seq<T> {
    Seqs.Filter(s, x => key(x) == k)
  }

  /** Places `x` in front of the first element whose key is not larger than its own. */
  function Insert<T>(x: T, s: seq<T>, key: T -> nat): (r: seq<T>)
    requires SortedDesc(s, key)
    ensures SortedDesc(r, key)
    ensures |r| == |s| + 1
    ensures forall i :: 0 <= i < |r| ==> r[i] == x || r[i] in s
  {
    if s == [] || key(x) >= key(s[0]) then
      ConsSorted(x, s, key);
      [x] + s
    else
      var t := Insert(x, s[1..], key);
      HeadIsLargest(s, key);
      ConsSorted(s[0], t, key);
      [s[0]] + t
  }

  /** In a sorted list no element after the head has a larger key. */
  lemma HeadIsLargest<T>(s: seq<T>, key: T -> nat)
    requires SortedDesc(s, key) && s != []
    ensures forall y :: y in s[1..] ==> key(y) <= key(s[0])
  {
    forall y | y in s[1..] ensures key(y) <= key(s[0]) {
      var m :| 0 <= m < |s[1..]| && s[1..][m] == y;
      assert s[m + 1] == y;
    }
  }

  /** An element no smaller than every key of a sorted list can go in front of it. */
  lemma ConsSorted<T>(a: T, t: seq<T>, key: T -> nat)
    requires SortedDesc(t, key)
    requires forall i :: 0 <= i < |t| ==> key(t[i]) <= key(a)
    ensures SortedDesc([a] + t, key)
  {
    var r := [a] + t;
    forall i, j | 0 <= i < j < |r| ensures key(r[i]) >= key(r[j]) {
      assert r[j] == t[j - 1];
      if i > 0 {
        assert r[i] == t[i - 1];
      }
    }
  }

  /** Past a larger head, inserting keeps the head and inserts into the tail. */
  lemma InsertPastHead<T>(x: T, s: seq<T>, key: T -> nat)
    requires SortedDesc(s, key) && s != [] && key(x) < key(s[0])
    ensures SortedDesc(s[1..], key)
    ensures Insert(x, s, key) == [s[0]] + Insert(x, s[1..], key)
  {
  }

  /** Putting the head back in front of a permutation of the tail plus `x`. */
  lemma ConsPermutes<T>(x: T, s: seq<T>, t: seq<T>)
    requires s != [] && multiset(t) == multiset(s[1..]) + multiset{x}
    ensures multiset([s[0]] + t) == multiset(s) + multiset{x}
  {
    assert s == [s[0]] + s[1..];
  }

  lemma {:induction false} InsertPermutes<T>(x: T, s: seq<T>, key: T -> nat)
    requires SortedDesc(s, key)
    ensures multiset(Insert(x, s, key)) == multiset(s) + multiset{x}
  {
    if s != [] && key(x) < key(s[0]) {
      InsertPastHead(x, s, key);
      InsertPermutes(x, s[1..], key);
      ConsPermutes(x, s, Insert(x, s[1..], key));
    }
  }

  /** Insertion sort from the back: each element goes in front of the ones it precedes. */
  function SortDesc<T>(s: seq<T>, key: T -> nat): (r: seq<T>)
    ensures SortedDesc(r, key)
    ensures multiset(r) == multiset(s)
    ensures |r| == |s|
  {
    if s == [] then []
    else
      assert s == [s[0]] + s[1..];
      InsertPermutes(s[0], SortDesc(s[1..], key), key);
      Insert(s[0], SortDesc(s[1..], key), key)
  }

  /** Sorting only rearranges: every element of the result comes from the input. */
  lemma SortKeepsMembers<T>(s: seq<T>, key: T -> nat)
    ensures forall k :: 0 <= k < |SortDesc(s, key)| ==> SortDesc(s, key)[k] in s
  {
    var r := SortDesc(s, key);
    forall k | 0 <= k < |r| ensures r[k] in s {
      assert r[k] in multiset(r);
    }
  }

  /**
   * The first `n` elements after sorting (all of them when there are fewer):
   * `[...s].sort(...).slice(0, n)`. Everything left out ranks no higher than
   * anything kept.
   */
  function Top<T>(s: seq<T>, key: T -> nat, n: nat): (top: seq<T>)
    ensures |top| == if |s| < n then |s| else n
    ensures SortedDesc(top, key)
    ensures forall k :: 0 <= k < |top| ==> top[k] in s
    ensures forall x :: x in s && x !in top ==> forall k :: 0 <= k < |top| ==> key(top[k]) >= key(x)
  {
    var sorted := SortDesc(s, key);
    var m := if |sorted| < n then |sorted| else n;
    SortKeepsMembers(s, key);
    SortHasMembers(s, key);
    forall x | x in s && x !in sorted[..m]
      ensures forall k :: 0 <= k < m ==> key(sorted[..m][k]) >= key(x)
    {
      LeftOutRanksLower(sorted, key, m, x);
    }
    sorted[..m]
  }

  /** Every element of the input is in the sorted result. */
  lemma SortHasMembers<T>(s: seq<T>, key: T -> nat)
    ensures forall x :: x in s ==> x in SortDesc(s, key)
  {
    forall x | x in s ensures x in SortDesc(s, key) {
      assert x in multiset(s);
    }
  }

  /** An element of a sorted list that is not among its first `m` ranks no higher than any of them. */
  lemma LeftOutRanksLower<T>(s: seq<T>, key: T -> nat, m: nat, x: T)
    requires SortedDesc(s, key) && m <= |s| && x in s && x !in s[..m]
    ensures forall k :: 0 <= k < m ==> key(s[..m][k]) >= key(x)
  {
    var j :| 0 <= j < |s| && s[j] == x;
    assert forall k :: 0 <= k < m ==> s[..m][k] == s[k];
    PrefixHoldsLargest(s, key, m, j);
  }

  lemma {:induction false} InsertStable<T>(x: T, s: seq<T>, key: T -> nat, k: nat)
    requires SortedDesc(s, key)
    ensures WithKey(Insert(x, s, key), key, k) == WithKey([x] + s, key, k)
  {
    if s != [] && key(x) < key(s[0]) {
      var p := (e: T) => key(e) == k;
      var t := Insert(x, s[1..], key);
      InsertPastHead(x, s, key);
      InsertStable(x, s[1..], key, k);
      Seqs.FilterCons(s[0], t, p);
      Seqs.FilterCons(x, s[1..], p);
      Seqs.FilterCons(x, s, p);
      assert s == [s[0]] + s[1..];
      Seqs.FilterCons(s[0], s[1..], p);
    }
  }

  /**
   * Stability: for every key, the elements carrying it appear in the same
   * relative order before and after sorting.
   */
  lemma {:induction false} SortStable<T>(s: seq<T>, key: T -> nat, k: nat)
    ensures WithKey(SortDesc(s, key), key, k) == WithKey(s, key, k)
  {
    if s != [] {
      var t := SortDesc(s[1..], key);
      SortStable(s[1..], key, k);
      InsertStable(s[0], t, key, k);
      assert ([s[0]] + t)[1..] == t;
      assert s == [s[0]] + s[1..];
    }
  }

  /** A sorted prefix holds the largest keys: nothing left out outranks anything kept. */
  lemma PrefixHoldsLargest<T>(s: seq<T>, key: T -> nat, n: nat, j: nat)
    requires SortedDesc(s, key)
    requires n <= j < |s|
    ensures forall i :: 0 <= i < n ==> key(s[i]) >= key(s[j])
  {
  }
}
