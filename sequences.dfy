/** Sequence helpers used by the queries and the connection registry. */
module Sequences {

  /** The elements of `s` that satisfy `p`, in their original order. */
  function Filter<T>(s: seq<T>, p: T -> bool): (r: seq<T>)
    ensures |r| <= |s|
    ensures forall k :: 0 <= k < |r| ==> r[k] in s && p(r[k])
    ensures forall k :: 0 <= k < |s| && p(s[k]) ==> s[k] in r
  {
    if s == [] then []
    else
      var rest := Filter(s[1..], p);
      assert forall k :: 1 <= k < |s| ==> s[k] == s[1..][k - 1];
      if p(s[0]) then [s[0]] + rest else rest
  }

  /** No element occurs twice. */
  ghost predicate NoDup<T>(s: seq<T>) {
    forall i, j :: 0 <= i < j < |s| ==> s[i] != s[j]
  }

  /** A tail of a duplicate-free sequence is duplicate-free. */
  lemma NoDupTail<T>(s: seq<T>)
    requires NoDup(s) && s != []
    ensures NoDup(s[1..]) && s[0] !in s[1..]
  {
    forall i, j | 0 <= i < j < |s[1..]| ensures s[1..][i] != s[1..][j] {
      assert s[1..][i] == s[i + 1] && s[1..][j] == s[j + 1];
    }
  }

  /** Prepending an element that does not occur keeps a sequence duplicate-free. */
  lemma NoDupCons<T>(x: T, s: seq<T>)
    requires NoDup(s) && x !in s
    ensures NoDup([x] + s)
  {
    forall i, j | 0 <= i < j < |[x] + s| ensures ([x] + s)[i] != ([x] + s)[j] {
      assert ([x] + s)[j] == s[j - 1];
      if i > 0 {
        assert ([x] + s)[i] == s[i - 1];
      }
    }
  }

  /** Filtering keeps the elements in order, so it cannot introduce duplicates. */
  lemma {:induction false} FilterNoDup<T>(s: seq<T>, p: T -> bool)
    requires NoDup(s)
    ensures NoDup(Filter(s, p))
  {
    if s != [] {
      NoDupTail(s);
      FilterNoDup(s[1..], p);
      if p(s[0]) {
        NoDupCons(s[0], Filter(s[1..], p));
      }
    }
  }

  /** `key` strictly increases along `s` (ids handed out in order). */
  ghost predicate StrictlyIncreasing<T>(s: seq<T>, key: T -> int) {
    forall i, j :: 0 <= i < j < |s| ==> key(s[i]) < key(s[j])
  }

  /** Filtering keeps the elements in order, so it keeps an increasing key increasing. */
  lemma {:induction false} FilterIncreasing<T>(s: seq<T>, p: T -> bool, key: T -> int)
    requires StrictlyIncreasing(s, key)
    ensures StrictlyIncreasing(Filter(s, p), key)
  {
    if s != [] {
      var tail := Filter(s[1..], p);
      FilterIncreasing(s[1..], p, key);
      if p(s[0]) {
        forall j | 0 < j < |[s[0]] + tail| ensures key(s[0]) < key(([s[0]] + tail)[j]) {
          assert ([s[0]] + tail)[j] == tail[j - 1];
          var m :| 0 <= m < |s[1..]| && s[1..][m] == tail[j - 1];
          assert s[m + 1] == tail[j - 1];
        }
      }
    }
  }

  /** Appending one element to a sequence none of whose elements pass leaves at most that element. */
  lemma {:induction false} FilterAppendFresh<T>(s: seq<T>, x: T, p: T -> bool)
    requires forall k :: 0 <= k < |s| ==> !p(s[k])
    ensures Filter(s + [x], p) == if p(x) then [x] else []
  {
    if s == [] {
      assert [x][1..] == [];
    } else {
      assert (s + [x])[1..] == s[1..] + [x];
      FilterAppendFresh(s[1..], x, p);
    }
  }

  /** `s` is ordered by `key`, largest first (SQL `ORDER BY key DESC`). */
  ghost predicate SortedDesc<T>(s: seq<T>, key: T -> int) {
    forall i, j :: 0 <= i < j < |s| ==> key(s[i]) >= key(s[j])
  }

  /** A sequence with a first element is descending when its tail is and no later key exceeds the first. */
  lemma SortedCons<T>(y: T, t: seq<T>, key: T -> int)
    ensures SortedDesc([y] + t, key) <==> SortedDesc(t, key) && forall k :: 0 <= k < |t| ==> key(t[k]) <= key(y)
  {
    var r := [y] + t;
    assert forall k :: 0 <= k < |t| ==> r[k + 1] == t[k];
    if SortedDesc(t, key) && forall k :: 0 <= k < |t| ==> key(t[k]) <= key(y) {
      forall i, j | 0 <= i < j < |r| ensures key(r[i]) >= key(r[j]) {
        assert r[j] == t[j - 1];
        if i > 0 {
          assert r[i] == t[i - 1];
        }
      }
    }
    if SortedDesc(r, key) {
      forall i, j | 0 <= i < j < |t| ensures key(t[i]) >= key(t[j]) {
        assert r[i + 1] == t[i] && r[j + 1] == t[j];
      }
      forall k | 0 <= k < |t| ensures key(t[k]) <= key(y) {
        assert r[0] == y && r[k + 1] == t[k];
      }
    }
  }

  /** Inserts `x` into a descending sequence in front of the first element whose key is not larger. */
  function InsertDesc<T>(x: T, s: seq<T>, key: T -> int): (r: seq<T>)
    requires SortedDesc(s, key)
    ensures SortedDesc(r, key)
    ensures multiset(r) == multiset(s) + multiset{x}
    ensures |r| == |s| + 1
    ensures forall k :: 0 <= k < |r| ==> key(r[k]) <= key(x) || (s != [] && key(r[k]) <= key(s[0]))
  {
    if s == [] || key(s[0]) <= key(x) then
      SortedCons(x, s, key);
      [x] + s
    else
      assert s == [s[0]] + s[1..];
      SortedCons(s[0], s[1..], key);
      var t := InsertDesc(x, s[1..], key);
      SortedCons(s[0], t, key);
      [s[0]] + t
  }

  /** A stable insertion sort by `key`, descending: among equal keys the order of `s` is kept. */
  function SortDesc<T>(s: seq<T>, key: T -> int): (r: seq<T>)
    ensures SortedDesc(r, key)
    ensures multiset(r) == multiset(s)
  {
    if s == [] then []
    else
      assert s == [s[0]] + s[1..];
      InsertDesc(s[0], SortDesc(s[1..], key), key)
  }

  /** Sorting keeps exactly the elements of the input. */
  lemma SortDescMembers<T>(s: seq<T>, key: T -> int)
    ensures forall k :: 0 <= k < |s| ==> s[k] in SortDesc(s, key)
    ensures forall k :: 0 <= k < |SortDesc(s, key)| ==> SortDesc(s, key)[k] in s
    ensures |SortDesc(s, key)| == |s|
  {
    var r := SortDesc(s, key);
    assert |r| == |multiset(r)| == |multiset(s)| == |s|;
    forall k | 0 <= k < |s| ensures s[k] in r {
      assert s[k] in multiset(s);
    }
    forall k | 0 <= k < |r| ensures r[k] in s {
      assert r[k] in multiset(r);
    }
  }
}
