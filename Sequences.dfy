/**
 * The two array passes at the end of the schedule extractor: de-duplication that keeps the
 * first occurrence (`filter` with `findIndex`), and a stable sort by a numeric key
 * (`Array.prototype.sort` with a subtracting comparator, stable since ES2019).
 */
module Sequences {

  predicate NoDuplicates<T(==)>(s: seq<T>) {
    forall i, j :: 0 <= i < j < |s| ==> s[i] != s[j]
  }

  /** `s.findIndex(y => y == x)`: the first index holding `x`, or -1. */
  function FirstIndex<T(==)>(s: seq<T>, x: T): (i: int)
    ensures -1 <= i < |s|
    ensures i >= 0 ==> s[i] == x
    ensures forall j :: 0 <= j < |s| && (i == -1 || j < i) ==> s[j] != x
  {
    FirstIndexFrom(s, x, 0)
  }

  function FirstIndexFrom<T(==)>(s: seq<T>, x: T, k: nat): (i: int)
    requires k <= |s|
    ensures i == -1 || k <= i < |s|
    ensures i >= 0 ==> s[i] == x
    ensures forall j :: k <= j < |s| && (i == -1 || j < i) ==> s[j] != x
    decreases |s| - k
  {
    if k == |s| then -1
    else if s[k] == x then k
    else FirstIndexFrom(s, x, k + 1)
  }

  /** `s.filter((x, i) => i === s.findIndex(y => y == x))`: the elements that are first occurrences. */
  function Dedup<T(==)>(s: seq<T>): (r: seq<T>)
    ensures |r| <= |s|
  {
    KeepFirst(s, |s|)
  }

  /** The first occurrences among the first `n` elements of `s`, in order. */
  function KeepFirst<T(==)>(s: seq<T>, n: nat): (r: seq<T>)
    requires n <= |s|
    ensures |r| <= n
  {
    if n == 0 then []
    else KeepFirst(s, n - 1) + (if FirstIndex(s, s[n - 1]) == n - 1 then [s[n - 1]] else [])
  }

  lemma KeepFirstFacts<T>(s: seq<T>, n: nat)
    requires n <= |s|
    ensures var r := KeepFirst(s, n);
      && (forall k :: 0 <= k < |r| ==> 0 <= FirstIndex(s, r[k]) < n)
      && (forall k, l :: 0 <= k < l < |r| ==> FirstIndex(s, r[k]) < FirstIndex(s, r[l]))
      && (forall i :: 0 <= i < n ==> s[i] in r)
  {
    KeepFirstBounded(s, n);
    KeepFirstOrdered(s, n);
    KeepFirstCovers(s, n);
  }

  lemma {:induction false} KeepFirstBounded<T>(s: seq<T>, n: nat)
    requires n <= |s|
    ensures forall k :: 0 <= k < |KeepFirst(s, n)| ==> 0 <= FirstIndex(s, KeepFirst(s, n)[k]) < n
  {
    if n > 0 {
      KeepFirstBounded(s, n - 1);
      var p := KeepFirst(s, n - 1);
      var x := s[n - 1];
      if FirstIndex(s, x) == n - 1 {
        var r := p + [x];
        assert KeepFirst(s, n) == r;
        forall k | 0 <= k < |r|
          ensures 0 <= FirstIndex(s, r[k]) < n
        {
          if k < |p| {
            assert r[k] == p[k];
          }
        }
      } else {
        assert KeepFirst(s, n) == p;
      }
    }
  }

  lemma {:induction false} KeepFirstOrdered<T>(s: seq<T>, n: nat)
    requires n <= |s|
    ensures forall k, l :: 0 <= k < l < |KeepFirst(s, n)| ==>
      FirstIndex(s, KeepFirst(s, n)[k]) < FirstIndex(s, KeepFirst(s, n)[l])
  {
    if n > 0 {
      KeepFirstOrdered(s, n - 1);
      KeepFirstBounded(s, n - 1);
      var p := KeepFirst(s, n - 1);
      var x := s[n - 1];
      if FirstIndex(s, x) == n - 1 {
        var r := p + [x];
        assert KeepFirst(s, n) == r;
        forall k, l | 0 <= k < l < |r|
          ensures FirstIndex(s, r[k]) < FirstIndex(s, r[l])
        {
          assert r[k] == p[k];
          if l < |p| {
            assert r[l] == p[l];
          }
        }
      } else {
        assert KeepFirst(s, n) == p;
      }
    }
  }

  lemma {:induction false} KeepFirstCovers<T>(s: seq<T>, n: nat)
    requires n <= |s|
    ensures forall i :: 0 <= i < n ==> s[i] in KeepFirst(s, n)
  {
    if n > 0 {
      KeepFirstCovers(s, n - 1);
      var x := s[n - 1];
      var f := FirstIndex(s, x);
      if f != n - 1 {
        assert s[f] == x;
      }
    }
  }

  /**
   * De-duplication keeps every element exactly once: each element of the input occurs in the
   * result, each element of the result comes from the input, no element occurs twice, and the
   * kept elements are in the order of their first occurrences.
   */
  lemma DedupKeepsFirstOccurrences<T>(s: seq<T>)
    ensures var r := Dedup(s);
      && (forall i :: 0 <= i < |s| ==> s[i] in r)
      && (forall k :: 0 <= k < |r| ==> r[k] in s)
      && NoDuplicates(r)
      && (forall k, l :: 0 <= k < l < |r| ==> FirstIndex(s, r[k]) < FirstIndex(s, r[l]))
  {
    KeepFirstFacts(s, |s|);
    var r := Dedup(s);
    forall k | 0 <= k < |r|
      ensures r[k] in s
    {
      assert s[FirstIndex(s, r[k])] == r[k];
    }
  }

  /** Removing duplicates twice is the same as once. */
  lemma DedupIdempotent<T>(s: seq<T>)
    ensures Dedup(Dedup(s)) == Dedup(s)
  {
    DedupKeepsFirstOccurrences(s);
    DedupOfDistinct(Dedup(s));
  }

  /** A sequence without duplicates is its own de-duplication. */
  lemma DedupOfDistinct<T>(s: seq<T>)
    requires NoDuplicates(s)
    ensures Dedup(s) == s
  {
    KeepFirstOfDistinct(s, |s|);
  }

  lemma {:induction false} KeepFirstOfDistinct<T>(s: seq<T>, n: nat)
    requires n <= |s| && NoDuplicates(s)
    ensures KeepFirst(s, n) == s[..n]
  {
    if n > 0 {
      KeepFirstOfDistinct(s, n - 1);
      assert FirstIndex(s, s[n - 1]) == n - 1;
      assert s[..n] == s[..n - 1] + [s[n - 1]];
    }
  }

  predicate SortedBy<T>(s: seq<T>, key: T -> int) {
    forall i, j :: 0 <= i < j < |s| ==> key(s[i]) <= key(s[j])
  }

  /** The elements of `s` whose key is `k`, in order. */
  function WithKey<T>(s: seq<T>, key: T -> int, k: int): seq<T> {
    if s == [] then [] else (if key(s[0]) == k then [s[0]] else []) + WithKey(s[1..], key, k)
  }

  /** Inserts `x` after every element whose key is not greater than its own. */
  function Insert<T>(s: seq<T>, x: T, key: T -> int): (r: seq<T>)
    ensures |r| == |s| + 1
  {
    if s == [] then [x]
    else if key(x) < key(s[0]) then [x] + s
    else [s[0]] + Insert(s[1..], x, key)
  }

  lemma {:induction false} InsertPermutes<T>(s: seq<T>, x: T, key: T -> int)
    ensures multiset(Insert(s, x, key)) == multiset(s) + multiset{x}
  {
    if s != [] {
      assert s == [s[0]] + s[1..];
      if key(x) >= key(s[0]) {
        InsertPermutes(s[1..], x, key);
      }
    }
  }

  lemma {:induction false} InsertSorted<T>(s: seq<T>, x: T, key: T -> int)
    requires SortedBy(s, key)
    ensures SortedBy(Insert(s, x, key), key)
  {
    if s != [] && key(x) >= key(s[0]) {
      var rest := Insert(s[1..], x, key);
      InsertSorted(s[1..], x, key);
      InsertPermutes(s[1..], x, key);
      forall i | 0 <= i < |rest|
        ensures key(s[0]) <= key(rest[i])
      {
        assert rest[i] in multiset(rest);
        if rest[i] != x {
          assert rest[i] in multiset(s[1..]);
          var j :| 0 <= j < |s[1..]| && s[1..][j] == rest[i];
          assert s[j + 1] == rest[i];
        }
      }
      assert Insert(s, x, key) == [s[0]] + rest;
    }
  }

  /** The sorted order `uniqueSchedule.sort((a, b) => key(a) - key(b))` produces. */
  function SortBy<T>(s: seq<T>, key: T -> int): (r: seq<T>)
    ensures SortedBy(r, key)
    ensures multiset(r) == multiset(s)
  {
    if s == [] then []
    else
      var init := s[..|s| - 1];
      var sorted := SortBy(init, key);
      InsertSorted(sorted, s[|s| - 1], key);
      InsertPermutes(sorted, s[|s| - 1], key);
      assert s == init + [s[|s| - 1]];
      Insert(sorted, s[|s| - 1], key)
  }

  lemma {:induction false} WithKeyAppend<T>(a: seq<T>, b: seq<T>, key: T -> int, k: int)
    ensures WithKey(a + b, key, k) == WithKey(a, key, k) + WithKey(b, key, k)
  {
    if a != [] {
      assert (a + b)[0] == a[0];
      assert (a + b)[1..] == a[1..] + b;
      WithKeyAppend(a[1..], b, key, k);
    } else {
      assert a + b == b;
    }
  }

  lemma {:induction false} WithKeyNone<T>(s: seq<T>, key: T -> int, k: int)
    requires forall i :: 0 <= i < |s| ==> key(s[i]) != k
    ensures WithKey(s, key, k) == []
  {
    if s != [] {
      WithKeyNone(s[1..], key, k);
    }
  }

  lemma {:induction false} InsertStable<T>(s: seq<T>, x: T, key: T -> int, k: int)
    requires SortedBy(s, key)
    ensures WithKey(Insert(s, x, key), key, k) == WithKey(s, key, k) + WithKey([x], key, k)
  {
    if s == [] {
    } else if key(x) < key(s[0]) {
      if key(x) == k {
        WithKeyNone(s, key, k);
      }
      WithKeyAppend([x], s, key, k);
    } else {
      InsertStable(s[1..], x, key, k);
      assert Insert(s, x, key) == [s[0]] + Insert(s[1..], x, key);
    }
  }

  /** The sort is stable: elements with equal keys keep their relative order. */
  lemma {:induction false} SortByStable<T>(s: seq<T>, key: T -> int, k: int)
    ensures WithKey(SortBy(s, key), key, k) == WithKey(s, key, k)
  {
    if s != [] {
      var init := s[..|s| - 1];
      var last := s[|s| - 1];
      var sorted := SortBy(init, key);
      assert SortBy(s, key) == Insert(sorted, last, key);
      SortByStable(init, key, k);
      InsertStable(sorted, last, key, k);
      assert s == init + [last];
      WithKeyAppend(init, [last], key, k);
    }
  }

  /** Reordering keeps the set of elements, so a sequence without duplicates stays without duplicates. */
  lemma PermutationKeepsDistinct<T>(a: seq<T>, b: seq<T>)
    requires multiset(a) == multiset(b) && NoDuplicates(a)
    ensures NoDuplicates(b)
  {
    forall i, j | 0 <= i < j < |b|
      ensures b[i] != b[j]
    {
      if b[i] == b[j] {
        var x := b[i];
        assert multiset(b)[x] >= 2 by {
          assert b == b[..i] + [x] + b[i + 1..j] + [x] + b[j + 1..];
        }
        DistinctCount(a, x);
      }
    }
  }

  lemma {:induction false} DistinctCount<T>(s: seq<T>, x: T)
    requires NoDuplicates(s)
    ensures multiset(s)[x] <= 1
  {
    if s != [] {
      assert NoDuplicates(s[1..]);
      DistinctCount(s[1..], x);
      assert s == [s[0]] + s[1..];
      if s[0] == x {
        assert x !in s[1..];
      }
    }
  }
}
