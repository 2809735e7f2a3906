/** Ordering of query results by an integer key, standing for SQL's
    `ORDER BY`. Rows with equal keys may come out in any order in SQLite;
    this model settles on one (insertion order is not promised). */
module Sorting {

  /** `s` is in non-decreasing order of `key`. */
  ghost predicate SortedBy<T>(s: seq<T>, key: T -> int) {
    forall i, j :: 0 <= i < j < |s| ==> key(s[i]) <= key(s[j])
  }

  /** `s` with `x` placed before the first element whose key is not smaller. */
  function InsertBy<T>(x: T, s: seq<T>, key: T -> int): (r: seq<T>)
    ensures multiset(r) == multiset(s) + multiset{x}
    ensures SortedBy(s, key) ==> SortedBy(r, key)
    decreases |s|
  {
    if |s| == 0 then [x]
    else if key(x) <= key(s[0]) then
      SortedHead(s, key);
      SortedCons(x, s, key);
      [x] + s
    else
      var t := InsertBy(x, s[1..], key);
      assert s == [s[0]] + s[1..];
      InsertStep(x, s, t, key);
      [s[0]] + t
  }

  /** The tail of a sorted sequence is sorted and bounded below by its head. */
  lemma SortedHead<T>(s: seq<T>, key: T -> int)
    requires |s| > 0
    ensures SortedBy(s, key) ==> SortedBy(s[1..], key)
    ensures SortedBy(s, key) ==> forall z :: z in s[1..] ==> key(s[0]) <= key(z)
  {
    if SortedBy(s, key) {
      forall z | z in s[1..] ensures key(s[0]) <= key(z) {
        var k :| 0 <= k < |s[1..]| && s[1..][k] == z;
        assert s[k + 1] == z;
      }
    }
  }

  lemma SortedCons<T>(y: T, t: seq<T>, key: T -> int)
    ensures SortedBy(t, key) && (forall z :: z in t ==> key(y) <= key(z)) ==> SortedBy([y] + t, key)
  {
    if SortedBy(t, key) && (forall z :: z in t ==> key(y) <= key(z)) {
      var r := [y] + t;
      forall i, j | 0 <= i < j < |r| ensures key(r[i]) <= key(r[j]) {
        if i == 0 {
          assert r[j] == t[j - 1] && r[j] in t;
        } else {
          assert r[i] == t[i - 1] && r[j] == t[j - 1];
        }
      }
    }
  }

  /** Inserting past the head keeps the head first. */
  lemma InsertStep<T>(x: T, s: seq<T>, t: seq<T>, key: T -> int)
    requires |s| > 0 && key(s[0]) < key(x)
    requires multiset(t) == multiset(s[1..]) + multiset{x}
    requires SortedBy(s[1..], key) ==> SortedBy(t, key)
    ensures SortedBy(s, key) ==> SortedBy([s[0]] + t, key)
  {
    SortedHead(s, key);
    if SortedBy(s, key) {
      forall z | z in t ensures key(s[0]) <= key(z) {
        assert z in multiset(t);
        if z != x {
          assert z in multiset(s[1..]);
        }
      }
      SortedCons(s[0], t, key);
    }
  }

  /** Insertion sort: a permutation of `s` in non-decreasing key order. */
  function SortBy<T>(s: seq<T>, key: T -> int): (r: seq<T>)
    ensures multiset(r) == multiset(s)
    ensures SortedBy(r, key)
    decreases |s|
  {
    if |s| == 0 then []
    else
      assert s == [s[0]] + s[1..];
      InsertBy(s[0], SortBy(s[1..], key), key)
  }

  /** A prefix of a sorted sequence keeps the elements with the smallest
      keys: everything left out is at least as large as everything kept. */
  lemma PrefixHoldsSmallest<T>(s: seq<T>, key: T -> int, n: nat, y: T)
    requires SortedBy(s, key) && n <= |s|
    requires y in s && y !in s[..n]
    ensures forall i :: 0 <= i < n ==> key(s[i]) <= key(y)
  {
    var j :| 0 <= j < |s| && s[j] == y;
    assert forall k :: 0 <= k < n ==> s[..n][k] == s[k];
  }

  /** `ORDER BY key LIMIT n`: the first `n` elements of `s` in key order. */
  function OrderByLimit<T>(s: seq<T>, key: T -> int, n: nat): (r: seq<T>)
    ensures |r| == if n < |s| then n else |s|
    ensures SortedBy(r, key)
    ensures forall x :: x in r ==> x in s
    ensures forall x :: x in s && x !in r ==> forall i :: 0 <= i < |r| ==> key(r[i]) <= key(x)
    ensures multiset(r) <= multiset(s)
  {
    var sorted := SortBy(s, key);
    SameElements(sorted, s);
    var m := if n < |sorted| then n else |sorted|;
    PrefixSorted(sorted, key, m);
    var r := sorted[..m];
    forall x | x in r ensures x in s {
      var k :| 0 <= k < |r| && r[k] == x;
      assert sorted[k] == x && x in sorted;
      assert x in multiset(sorted);
    }
    forall x | x in s && x !in r ensures forall i :: 0 <= i < |r| ==> key(r[i]) <= key(x) {
      PrefixHoldsSmallest(sorted, key, m, x);
    }
    assert sorted == sorted[..m] + sorted[m..];
    r
  }

  lemma PrefixSorted<T>(s: seq<T>, key: T -> int, n: nat)
    requires SortedBy(s, key) && n <= |s|
    ensures SortedBy(s[..n], key)
  {
    var p := s[..n];
    forall i, j | 0 <= i < j < |p| ensures key(p[i]) <= key(p[j]) {
      assert p[i] == s[i] && p[j] == s[j];
    }
  }

  /** Sequences with the same multiset have the same length and elements. */
  lemma SameElements<T>(a: seq<T>, b: seq<T>)
    requires multiset(a) == multiset(b)
    ensures |a| == |b| && forall x :: x in a <==> x in b
  {
    assert |multiset(a)| == |multiset(b)|;
    forall x ensures x in a <==> x in b {
      assert x in a <==> x in multiset(a);
      assert x in b <==> x in multiset(b);
    }
  }

  /** The reverse of `s`. */
  function Reverse<T>(s: seq<T>): (r: seq<T>)
    ensures |r| == |s| && forall i :: 0 <= i < |s| ==> r[i] == s[|s| - 1 - i]
  {
    seq(|s|, i requires 0 <= i < |s| => s[|s| - 1 - i])
  }

  lemma ReverseSameElements<T>(s: seq<T>)
    ensures multiset(Reverse(s)) == multiset(s)
    decreases |s|
  {
    if |s| > 0 {
      ReverseSameElements(s[1..]);
      assert Reverse(s) == Reverse(s[1..]) + [s[0]];
      assert s == [s[0]] + s[1..];
    }
  }
}
