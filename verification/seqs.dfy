/**
 * Sequence helpers shared by the server aggregations and the client
 * components: occurrence counts, first-occurrence de-duplication (what
 * `Array.from(new Set(xs))` yields), filtering, and the group-by count that
 * `xs.reduce((acc, x) => { acc[k] = (acc[k] || 0) + 1 }, {})` followed by
 * `Object.entries` produces.
 */
module Seqs {

  /** Number of occurrences of `x` in `s`. */
  function Count<T(==)>(s: seq<T>, x: T): (n: nat)
    ensures n <= |s|
    ensures n == 0 <==> x !in s
  {
    if s == [] then 0
    else Count(s[..|s| - 1], x) + (if s[|s| - 1] == x then 1 else 0)
  }

  lemma {:induction false} CountAppend<T>(a: seq<T>, b: seq<T>, x: T)
    ensures Count(a + b, x) == Count(a, x) + Count(b, x)
    decreases |b|
  {
    if b == [] {
      assert a + b == a;
    } else {
      assert (a + b)[..|a + b| - 1] == a + b[..|b| - 1];
      CountAppend(a, b[..|b| - 1], x);
    }
  }

  predicate NoDups<T(==)>(s: seq<T>) {
    forall i, j :: 0 <= i < j < |s| ==> s[i] != s[j]
  }

  /** A list without repeats has as many members as elements. */
  lemma {:induction false} NoDupsCard<T>(s: seq<T>)
    requires NoDups(s)
    ensures |set x | x in s| == |s|
  {
    if s != [] {
      NoDupsCard(s[1..]);
      assert (set x | x in s) == {s[0]} + (set x | x in s[1..]);
      assert s[0] !in s[1..];
    }
  }

  /** `new Set(s).size`: the number of distinct values is the length of `Dedup`. */
  lemma DedupCard<T>(s: seq<T>)
    ensures |Dedup(s)| == |set x | x in s|
  {
    NoDupsCard(Dedup(s));
    assert (set x | x in Dedup(s)) == (set x | x in s);
  }

  /** Distinct elements drawn from `b` are no more than `b` has. */
  lemma {:induction false} NoDupsSubsetBound<T>(a: seq<T>, b: seq<T>)
    requires NoDups(a)
    requires forall i :: 0 <= i < |a| ==> a[i] in b
    ensures |a| <= |b|
    decreases |a|
  {
    if a != [] {
      var k :| 0 <= k < |b| && b[k] == a[0];
      var rest := b[..k] + b[k + 1..];
      forall i | 0 <= i < |a| - 1 ensures a[1..][i] in rest {
        var x := a[i + 1];
        assert x != a[0];
        var j :| 0 <= j < |b| && b[j] == x;
        if j < k {
          assert rest[j] == x;
        } else {
          assert rest[j - 1] == x;
        }
      }
      NoDupsSubsetBound(a[1..], rest);
    }
  }

  /** Index of the first occurrence of `x` in `s`. */
  function FirstIndex<T(==)>(s: seq<T>, x: T): (i: nat)
    requires x in s
    ensures i < |s| && s[i] == x
    ensures forall j :: 0 <= j < i ==> s[j] != x
  {
    if s[0] == x then 0 else 1 + FirstIndex(s[1..], x)
  }

  lemma {:induction false} FirstIndexPrefix<T>(s: seq<T>, k: nat, x: T)
    requires k <= |s| && x in s[..k]
    ensures FirstIndex(s, x) == FirstIndex(s[..k], x) < k
  {
    var i := FirstIndex(s[..k], x);
    assert s[i] == x;
    assert forall j :: 0 <= j < i ==> s[j] != x by {
      forall j | 0 <= j < i ensures s[j] != x {
        assert s[..k][j] == s[j];
      }
    }
    FirstIndexUnique(s, x, i);
  }

  lemma FirstIndexUnique<T>(s: seq<T>, x: T, i: nat)
    requires i < |s| && s[i] == x
    requires forall j :: 0 <= j < i ==> s[j] != x
    ensures FirstIndex(s, x) == i
  {
  }

  /**
   * The distinct elements of `s` in order of first occurrence: the contents
   * of a JavaScript `Set` built by adding the elements of `s` in order.
   */
  function Dedup<T(==)>(s: seq<T>): (r: seq<T>)
    ensures forall i :: 0 <= i < |r| ==> r[i] in s
    ensures forall i :: 0 <= i < |s| ==> s[i] in r
    ensures NoDups(r)
    ensures |r| <= |s|
  {
    if s == [] then []
    else
      var p := s[..|s| - 1];
      var r0 := Dedup(p);
      var x := s[|s| - 1];
      assert s == p + [x];
      if x in r0 then r0 else r0 + [x]
  }

  /** `Dedup` lists the distinct elements in the order of their first occurrence. */
  lemma {:induction false} DedupFirstOccurrence<T>(s: seq<T>)
    ensures forall i, j :: 0 <= i < j < |Dedup(s)| ==> FirstIndex(s, Dedup(s)[i]) < FirstIndex(s, Dedup(s)[j])
  {
    if s != [] {
      var p := s[..|s| - 1];
      var r0 := Dedup(p);
      var x := s[|s| - 1];
      DedupFirstOccurrence(p);
      assert p == s[..|p|];
      forall i | 0 <= i < |r0| ensures FirstIndex(s, r0[i]) == FirstIndex(p, r0[i]) < |p| {
        FirstIndexPrefix(s, |p|, r0[i]);
      }
      if x !in r0 {
        assert s == p + [x];
        FirstIndexUnique(s, x, |p|);
        var r := Dedup(s);
        assert r == r0 + [x];
        forall i, j | 0 <= i < j < |r| ensures FirstIndex(s, r[i]) < FirstIndex(s, r[j]) {
          if j < |r0| {
            assert r[i] == r0[i] && r[j] == r0[j];
          } else {
            assert r[i] == r0[i] && r[j] == x;
          }
        }
      }
    }
  }

  /** The elements of `s` that satisfy `p`, in their original order. */
  function Filter<T>(s: seq<T>, p: T -> bool): (r: seq<T>)
    ensures IsSubseq(r, s)
    ensures forall i :: 0 <= i < |r| ==> r[i] in s && p(r[i])
    ensures forall i :: 0 <= i < |s| && p(s[i]) ==> s[i] in r
  {
    if s == [] then []
    else if p(s[0]) then [s[0]] + Filter(s[1..], p)
    else Filter(s[1..], p)
  }

  lemma FilterCons<T>(x: T, s: seq<T>, p: T -> bool)
    ensures Filter([x] + s, p) == (if p(x) then [x] else []) + Filter(s, p)
  {
    assert ([x] + s)[1..] == s;
  }

  /** Filtering a list extended by one element at the end. */
  lemma {:induction false} FilterSnoc<T>(s: seq<T>, x: T, p: T -> bool)
    ensures Filter(s + [x], p) == Filter(s, p) + (if p(x) then [x] else [])
  {
    if s == [] {
      assert s + [x] == [x];
      FilterCons(x, [], p);
    } else {
      var h := if p(s[0]) then [s[0]] else [];
      var e := if p(x) then [x] else [];
      assert s + [x] == [s[0]] + (s[1..] + [x]);
      FilterCons(s[0], s[1..] + [x], p);
      FilterSnoc(s[1..], x, p);
      assert [s[0]] + s[1..] == s;
      FilterCons(s[0], s[1..], p);
      AppendAssoc(h, Filter(s[1..], p), e);
    }
  }

  lemma AppendAssoc<T>(a: seq<T>, b: seq<T>, c: seq<T>)
    ensures a + (b + c) == (a + b) + c
  {
  }

  /** `a` is an order-preserving sublist of `b`. */
  predicate IsSubseq<T(==)>(a: seq<T>, b: seq<T>)
    decreases |b|
  {
    a == [] || (b != [] && ((a[0] == b[0] && IsSubseq(a[1..], b[1..])) || IsSubseq(a, b[1..])))
  }

  lemma {:induction false} SubseqLength<T>(a: seq<T>, b: seq<T>)
    requires IsSubseq(a, b)
    ensures |a| <= |b|
    decreases |b|
  {
    if a != [] {
      if a[0] == b[0] && IsSubseq(a[1..], b[1..]) {
        SubseqLength(a[1..], b[1..]);
      } else {
        SubseqLength(a, b[1..]);
      }
    }
  }

  /** `s.map(f)`. */
  function Map<T, K>(s: seq<T>, f: T -> K): (r: seq<K>)
    ensures |r| == |s|
    ensures forall i :: 0 <= i < |s| ==> r[i] == f(s[i])
  {
    seq(|s|, i requires 0 <= i < |s| => f(s[i]))
  }

  /**
   * A filter that keeps exactly the elements whose image is `v` keeps as
   * many elements as `v` occurs among the images.
   */
  lemma {:induction false} FilterCountsImage<T, K>(s: seq<T>, p: T -> bool, f: T -> K, v: K)
    requires forall i :: 0 <= i < |s| ==> (p(s[i]) <==> f(s[i]) == v)
    ensures |Filter(s, p)| == Count(Map(s, f), v)
  {
    if s != [] {
      FilterCountsImage(s[1..], p, f, v);
      MapCons(s, f);
      CountCons(f(s[0]), Map(s[1..], f), v);
    }
  }

  lemma MapCons<T, K>(s: seq<T>, f: T -> K)
    requires s != []
    ensures Map(s, f) == [f(s[0])] + Map(s[1..], f)
  {
  }

  /** Counting in a list with one more element in front. */
  lemma CountCons<T>(x: T, s: seq<T>, v: T)
    ensures Count([x] + s, v) == (if x == v then 1 else 0) + Count(s, v)
  {
    CountAppend([x], s, v);
    assert [x][..0] == [];
  }

  /** Filtering with a predicate every element satisfies returns the input. */
  lemma {:induction false} FilterAll<T>(s: seq<T>, p: T -> bool)
    requires forall x :: x in s ==> p(x)
    ensures Filter(s, p) == s
  {
    if s != [] {
      FilterAll(s[1..], p);
    }
  }

  /** A group-by bucket: a key and the number of items that carried it. */
  datatype Entry<K> = Entry(key: K, count: nat)

  function Keys<K>(es: seq<Entry<K>>): (ks: seq<K>)
    ensures |ks| == |es|
    ensures forall i :: 0 <= i < |es| ==> ks[i] == es[i].key
  {
    if es == [] then [] else [es[0].key] + Keys(es[1..])
  }

  function SumCounts<K>(es: seq<Entry<K>>): nat {
    if es == [] then 0 else es[0].count + SumCounts(es[1..])
  }

  /** One reduce step: increment the bucket of `k`, or open it at the end with 1. */
  function Bump<K(==)>(es: seq<Entry<K>>, k: K): (r: seq<Entry<K>>)
    requires NoDups(Keys(es))
    ensures NoDups(Keys(r))
    ensures k in Keys(es) ==> Keys(r) == Keys(es)
    ensures k !in Keys(es) ==> Keys(r) == Keys(es) + [k]
  {
    if es == [] then [Entry(k, 1)]
    else if es[0].key == k then
      assert Keys([Entry(k, es[0].count + 1)] + es[1..]) == Keys(es);
      [Entry(k, es[0].count + 1)] + es[1..]
    else
      assert Keys(es) == [es[0].key] + Keys(es[1..]);
      NoDupsTail(Keys(es));
      var t := Bump(es[1..], k);
      assert Keys([es[0]] + t) == [es[0].key] + Keys(t);
      NoDupsCons(es[0].key, Keys(t));
      [es[0]] + t
  }

  /** `Bump` adds one item in all: to the bucket of `k`, and to no other. */
  lemma {:induction false} BumpCounts<K>(es: seq<Entry<K>>, k: K)
    requires NoDups(Keys(es))
    ensures SumCounts(Bump(es, k)) == SumCounts(es) + 1
    ensures forall i :: 0 <= i < |Bump(es, k)| ==>
      Bump(es, k)[i].count == (if i < |es| then es[i].count else 0) + (if Bump(es, k)[i].key == k then 1 else 0)
  {
    var r := Bump(es, k);
    if es != [] && es[0].key == k {
      assert r[1..] == es[1..];
      forall i | 1 <= i < |es| ensures es[i].key != k {
        assert Keys(es)[0] == k && Keys(es)[i] == es[i].key;
      }
    } else if es != [] {
      assert Keys(es) == [es[0].key] + Keys(es[1..]);
      NoDupsTail(Keys(es));
      BumpCounts(es[1..], k);
      var t := Bump(es[1..], k);
      assert r[1..] == t;
      forall i | 1 <= i < |r|
        ensures r[i].count == (if i < |es| then es[i].count else 0) + (if r[i].key == k then 1 else 0)
      {
        assert r[i] == t[i - 1];
        assert i < |es| ==> es[i] == es[1..][i - 1];
      }
    }
  }

  /** A list without repeats: its head is not in its tail, which has no repeats either. */
  lemma NoDupsTail<T>(s: seq<T>)
    requires NoDups(s) && s != []
    ensures s[0] !in s[1..] && NoDups(s[1..])
  {
    assert forall j :: 0 <= j < |s| - 1 ==> s[1..][j] == s[j + 1];
  }

  lemma NoDupsCons<T>(x: T, s: seq<T>)
    requires NoDups(s) && x !in s
    ensures NoDups([x] + s)
  {
    var r := [x] + s;
    forall i, j | 0 <= i < j < |r| ensures r[i] != r[j] {
      if i == 0 {
        assert r[j] == s[j - 1];
      } else {
        assert r[i] == s[i - 1] && r[j] == s[j - 1];
      }
    }
  }

  /**
   * Occurrence counts of `keys`, one bucket per distinct key, buckets in order
   * of first occurrence: the left fold of `Bump` over `keys`.
   */
  function Tally<K(==)>(keys: seq<K>): (r: seq<Entry<K>>)
    ensures Keys(r) == Dedup(keys)
    ensures NoDups(Keys(r))
    ensures SumCounts(r) == |keys|
    ensures forall i :: 0 <= i < |r| ==> r[i].count == Count(keys, r[i].key)
  {
    if keys == [] then []
    else
      var p := keys[..|keys| - 1];
      var k := keys[|keys| - 1];
      var es := Tally(p);
      var r := Bump(es, k);
      BumpCounts(es, k);
      assert forall i :: 0 <= i < |r| ==> r[i].count == Count(keys, r[i].key) by {
        forall i | 0 <= i < |r| ensures r[i].count == Count(keys, r[i].key) {
          if i >= |es| {
            assert Keys(r)[i] == k;
            assert k !in p;
          }
        }
      }
      r
  }

  /** Every bucket of a tally counts at least one item. */
  lemma TallyPositive<K>(keys: seq<K>)
    ensures forall e :: e in Tally(keys) ==> e.count >= 1
  {
    var r := Tally(keys);
    forall e | e in r ensures e.count >= 1 {
      var i :| 0 <= i < |r| && r[i] == e;
      assert Keys(r)[i] == e.key;
      assert e.key in keys;
    }
  }

  /** The tally read bucket by bucket: the distinct keys in first-occurrence order, each with its count. */
  lemma TallyBuckets<K>(keys: seq<K>)
    ensures |Tally(keys)| == |Dedup(keys)|
    ensures forall k :: 0 <= k < |Tally(keys)| ==>
      Tally(keys)[k].key == Dedup(keys)[k] && Tally(keys)[k].count == Count(keys, Dedup(keys)[k]) >= 1
  {
    var r := Tally(keys);
    TallyPositive(keys);
    forall k | 0 <= k < |r|
      ensures r[k].key == Dedup(keys)[k] && r[k].count == Count(keys, Dedup(keys)[k]) >= 1
    {
      assert Keys(r)[k] == r[k].key;
      assert r[k] in r;
    }
  }

  /** A tally of no items is empty, and a tally of some items is not. */
  lemma TallyEmpty<K>(keys: seq<K>)
    ensures Tally(keys) == [] <==> keys == []
  {
    if keys != [] {
      assert keys[0] in Dedup(keys);
    }
  }
}
