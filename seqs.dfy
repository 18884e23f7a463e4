/**
 * Tables are sequences of rows in insertion order. This module gives the three
 * query shapes the handlers use: the first row whose key matches (`.first()` and
 * `.get(id)`), every row satisfying a condition (`.all()` after a filter), and the
 * removal of one row (`db.session.delete`), together with key uniqueness.
 */
module Seqs {
  import opened Optional

  /** Some row has key `k`. */
  predicate HasKey<T, K(==)>(s: seq<T>, key: T -> K, k: K) {
    exists i :: 0 <= i < |s| && key(s[i]) == k
  }

  /** No two rows share a key (a primary key or a unique column). */
  predicate Unique<T, K(==)>(s: seq<T>, key: T -> K) {
    forall i, j :: 0 <= i < j < |s| ==> key(s[i]) != key(s[j])
  }

  /** The index of the first row whose key is `k`, if any. */
  function IndexOfKey<T, K(==)>(s: seq<T>, key: T -> K, k: K): (r: Option<nat>)
    ensures r.Some? ==> r.value < |s| && key(s[r.value]) == k
    ensures r.Some? ==> forall j :: 0 <= j < r.value ==> key(s[j]) != k
    ensures r.None? <==> !HasKey(s, key, k)
  {
    if |s| == 0 then None
    else if key(s[0]) == k then Some(0)
    else match IndexOfKey(s[1..], key, k)
      case None => None
      case Some(i) => Some(i + 1)
  }

  /** Every row satisfying `p`, in table order. */
  function Filter<T>(s: seq<T>, p: T -> bool): (r: seq<T>)
    ensures |r| <= |s|
    ensures forall i :: 0 <= i < |r| ==> r[i] in s && p(r[i])
    ensures forall i :: 0 <= i < |s| && p(s[i]) ==> s[i] in r
  {
    if |s| == 0 then []
    else (if p(s[0]) then [s[0]] else []) + Filter(s[1..], p)
  }

  /** A filtered query holds each matching row as often as the table does, and no other row. */
  lemma {:induction false} FilterCounts<T>(s: seq<T>, p: T -> bool)
    ensures forall x :: multiset(Filter(s, p))[x] == if p(x) then multiset(s)[x] else 0
  {
    if |s| > 0 {
      FilterCounts(s[1..], p);
      assert s == [s[0]] + s[1..];
    }
  }

  /** The indices of the rows satisfying `p`. */
  function Matching<T>(s: seq<T>, p: T -> bool): set<nat> {
    set i: nat | i < |s| && p(s[i])
  }

  /** A filtered query returns one row for each matching row of the table. */
  lemma {:induction false} FilterLength<T>(s: seq<T>, p: T -> bool)
    ensures |Filter(s, p)| == |Matching(s, p)|
  {
    if |s| > 0 {
      var n := |s| - 1;
      FilterLength(s[..n], p);
      FilterAppend(s[..n], [s[n]], p);
      assert s[..n] + [s[n]] == s;
      var before := Matching(s[..n], p);
      if p(s[n]) {
        assert Matching(s, p) == before + {n};
      } else {
        assert Matching(s, p) == before;
      }
    }
  }

  /** Filtering a concatenation filters each part. */
  lemma {:induction false} FilterAppend<T>(a: seq<T>, b: seq<T>, p: T -> bool)
    ensures Filter(a + b, p) == Filter(a, p) + Filter(b, p)
  {
    if |a| > 0 {
      FilterAppend(a[1..], b, p);
      assert (a + b)[1..] == a[1..] + b;
    } else {
      assert a + b == b;
    }
  }

  /** The table without its `i`-th row. */
  function RemoveAt<T>(s: seq<T>, i: nat): (r: seq<T>)
    requires i < |s|
    ensures |r| == |s| - 1
    ensures forall k :: 0 <= k < i ==> r[k] == s[k]
    ensures forall k :: i <= k < |r| ==> r[k] == s[k + 1]
  {
    s[..i] + s[i + 1..]
  }

  /** In a table with unique keys, the lookup of a row's key finds that very row. */
  lemma IndexOfUniqueKey<T, K>(s: seq<T>, key: T -> K, i: nat)
    requires Unique(s, key) && i < |s|
    ensures IndexOfKey(s, key, key(s[i])) == Some(i)
  {
    var r := IndexOfKey(s, key, key(s[i]));
    assert HasKey(s, key, key(s[i]));
  }

  /** Appending a row whose key is new keeps the keys unique. */
  lemma {:induction false} UniqueAppend<T, K>(s: seq<T>, key: T -> K, x: T)
    requires Unique(s, key) && !HasKey(s, key, key(x))
    ensures Unique(s + [x], key)
  {
    var t := s + [x];
    forall i, j | 0 <= i < j < |t| ensures key(t[i]) != key(t[j]) {
      if j == |s| {
        assert t[i] == s[i];
      } else {
        assert t[i] == s[i] && t[j] == s[j];
      }
    }
  }

  /** Removing a row keeps the keys unique. */
  lemma UniqueRemoveAt<T, K>(s: seq<T>, key: T -> K, i: nat)
    requires Unique(s, key) && i < |s|
    ensures Unique(RemoveAt(s, i), key)
  {
    var r := RemoveAt(s, i);
    forall a, b | 0 <= a < b < |r| ensures key(r[a]) != key(r[b]) {
      var a' := if a < i then a else a + 1;
      var b' := if b < i then b else b + 1;
      assert r[a] == s[a'] && r[b] == s[b'];
    }
  }

  /** Replacing a row by one with the same key keeps the keys unique. */
  lemma UniqueUpdate<T, K>(s: seq<T>, key: T -> K, i: nat, x: T)
    requires Unique(s, key) && i < |s| && key(x) == key(s[i])
    ensures Unique(s[i := x], key)
  {
  }

  /** Keeping only some rows keeps the keys unique. */
  lemma {:induction false} UniqueFilter<T, K>(s: seq<T>, key: T -> K, p: T -> bool)
    requires Unique(s, key)
    ensures Unique(Filter(s, p), key)
  {
    if |s| > 0 {
      var tail := s[1..];
      assert Unique(tail, key) by {
        forall i, j | 0 <= i < j < |tail| ensures key(tail[i]) != key(tail[j]) {
          assert tail[i] == s[i + 1] && tail[j] == s[j + 1];
        }
      }
      UniqueFilter(tail, key, p);
      var rest := Filter(tail, p);
      if p(s[0]) {
        var r := [s[0]] + rest;
        forall i, j | 0 <= i < j < |r| ensures key(r[i]) != key(r[j]) {
          if i == 0 {
            assert r[j] == rest[j - 1] && rest[j - 1] in tail;
            var k :| 0 <= k < |tail| && tail[k] == rest[j - 1];
            assert s[k + 1] == tail[k];
          } else {
            assert r[i] == rest[i - 1] && r[j] == rest[j - 1];
          }
        }
        assert Filter(s, p) == r;
      } else {
        assert Filter(s, p) == rest;
      }
    }
  }
}
