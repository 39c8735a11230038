/**
 * Generic sequence queries shared by the tables and the feeds: a filter that
 * keeps table order, a stable newest-first sort on an integer key, and
 * "no two rows share a key" (the shape of every uniqueness constraint).
 */
module Seqs {

  /** `s` restricted to the elements `keep` accepts, in their original order
      (a SQL WHERE clause over a table). */
  function Where<T(!new)>(s: seq<T>, keep: T -> bool): (r: seq<T>)
    ensures |r| <= |s|
    ensures forall x :: x in r <==> x in s && keep(x)
    ensures forall x :: x in r ==> keep(x)
    ensures multiset(r) <= multiset(s)
  {
    if s == [] then []
    else
      assert s == [s[0]] + s[1..];
      if keep(s[0]) then [s[0]] + Where(s[1..], keep) else Where(s[1..], keep)
  }

  /** The filter keeps every copy of an accepted element and no copy of a
      rejected one. */
  lemma {:induction false} WhereCounts<T(!new)>(s: seq<T>, keep: T -> bool, x: T)
    ensures multiset(Where(s, keep))[x] == if keep(x) then multiset(s)[x] else 0
  {
    if s != [] {
      assert s == [s[0]] + s[1..];
      WhereCounts(s[1..], keep, x);
    }
  }

  /** No two positions of `s` carry the same key. */
  ghost predicate KeyDistinct<T, K>(s: seq<T>, key: T -> K)
  {
    forall i, j :: 0 <= i < j < |s| ==> key(s[i]) != key(s[j])
  }

  /** No value occurs twice in `s`. */
  ghost predicate Distinct<T>(s: seq<T>)
  {
    forall i, j :: 0 <= i < j < |s| ==> s[i] != s[j]
  }

  /** Filtering a table never creates a clash of keys. */
  lemma {:induction false} WhereKeyDistinct<T(!new), K>(s: seq<T>, keep: T -> bool, key: T -> K)
    requires KeyDistinct(s, key)
    ensures KeyDistinct(Where(s, keep), key)
  {
    if s != [] {
      WhereKeyDistinct(s[1..], keep, key);
      var rest := Where(s[1..], keep);
      if keep(s[0]) {
        forall j | 0 <= j < |rest| ensures key(s[0]) != key(rest[j]) {
          assert rest[j] in s[1..];
          var k :| 0 <= k < |s[1..]| && s[1..][k] == rest[j];
          assert s[k + 1] == rest[j];
        }
        var r := [s[0]] + rest;
        forall i, j | 0 <= i < j < |r| ensures key(r[i]) != key(r[j]) {
          if i > 0 {
            assert r[i] == rest[i - 1] && r[j] == rest[j - 1];
          } else {
            assert r[j] == rest[j - 1];
          }
        }
      }
    }
  }

  /** Filtering a duplicate-free table keeps it duplicate-free. */
  lemma WhereDistinct<T(!new)>(s: seq<T>, keep: T -> bool)
    requires Distinct(s)
    ensures Distinct(Where(s, keep))
  {
    var id := (x: T) => x;
    assert KeyDistinct(s, id) by {
      forall i, j | 0 <= i < j < |s| ensures id(s[i]) != id(s[j]) { }
    }
    WhereKeyDistinct(s, keep, id);
    var r := Where(s, keep);
    forall i, j | 0 <= i < j < |r| ensures r[i] != r[j] {
      assert id(r[i]) != id(r[j]);
    }
  }

  /** A filter that accepts every element leaves the sequence as it is. */
  lemma {:induction false} WhereAll<T(!new)>(s: seq<T>, keep: T -> bool)
    requires forall x :: x in s ==> keep(x)
    ensures Where(s, keep) == s
  {
    if s != [] {
      assert s == [s[0]] + s[1..];
      WhereAll(s[1..], keep);
    }
  }

  /** Two filters that agree on the elements of `s` select the same
      subsequence. */
  lemma {:induction false} WhereAgree<T(!new)>(s: seq<T>, k1: T -> bool, k2: T -> bool)
    requires forall x :: x in s ==> k1(x) == k2(x)
    ensures Where(s, k1) == Where(s, k2)
  {
    if s != [] {
      assert s == [s[0]] + s[1..];
      WhereAgree(s[1..], k1, k2);
    }
  }

  /** Filtering twice is filtering by both conditions. */
  lemma {:induction false} WhereWhere<T(!new)>(s: seq<T>, k1: T -> bool, k2: T -> bool, both: T -> bool)
    requires forall x :: x in s ==> both(x) == (k1(x) && k2(x))
    ensures Where(Where(s, k1), k2) == Where(s, both)
  {
    if s != [] {
      assert s == [s[0]] + s[1..];
      WhereWhere(s[1..], k1, k2, both);
    }
  }

  /** `s` is ordered by `key`, largest first. */
  ghost predicate SortedDesc<T>(s: seq<T>, key: T -> int)
  {
    forall i, j :: 0 <= i < j < |s| ==> key(s[i]) >= key(s[j])
  }

  /** Inserts `x` into `s` before the first element whose key is not larger
      than its own. */
  function InsertDesc<T(!new)>(x: T, s: seq<T>, key: T -> int): (r: seq<T>)
    ensures multiset(r) == multiset(s) + multiset{x}
    ensures |r| == |s| + 1
  {
    if s == [] then [x]
    else if key(x) >= key(s[0]) then [x] + s
    else
      assert s == [s[0]] + s[1..];
      [s[0]] + InsertDesc(x, s[1..], key)
  }

  /** Inserting into a descending sequence keeps it descending. */
  lemma {:induction false} InsertDescSorted<T(!new)>(x: T, s: seq<T>, key: T -> int)
    requires SortedDesc(s, key)
    ensures SortedDesc(InsertDesc(x, s, key), key)
  {
    if s != [] && key(x) < key(s[0]) {
      InsertDescSorted(x, s[1..], key);
      var rest := InsertDesc(x, s[1..], key);
      forall k | 0 <= k < |rest| ensures key(rest[k]) <= key(s[0]) {
        assert rest[k] in multiset(rest);
        if rest[k] != x {
          assert rest[k] in multiset(s[1..]);
          var m :| 0 <= m < |s[1..]| && s[1..][m] == rest[k];
          assert s[m + 1] == rest[k];
        }
      }
      var r := [s[0]] + rest;
      forall i, j | 0 <= i < j < |r| ensures key(r[i]) >= key(r[j]) {
        assert r[j] == rest[j - 1];
        if i > 0 { assert r[i] == rest[i - 1]; }
      }
    }
  }

  /** `s` ordered by `key`, largest first (an insertion sort). */
  function SortDesc<T(!new)>(s: seq<T>, key: T -> int): (r: seq<T>)
    ensures SortedDesc(r, key)
    ensures multiset(r) == multiset(s)
    ensures |r| == |s|
    ensures forall x :: x in r <==> x in s
  {
    if s == [] then []
    else
      assert s == [s[0]] + s[1..];
      var sorted := SortDesc(s[1..], key);
      InsertDescSorted(s[0], sorted, key);
      var r := InsertDesc(s[0], sorted, key);
      assert forall x :: x in r <==> x in multiset(r);
      r
  }
}
