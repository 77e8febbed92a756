/** Python's stable `list.sort(key=..., reverse=True)`, as an insertion sort over a real key. */
module Sorting {

  /** `s` is ordered by non-increasing `key`. */
  predicate SortedDesc<T>(s: seq<T>, key: T -> real) {
    forall i, j :: 0 <= i < j < |s| ==> key(s[i]) >= key(s[j])
  }

  /** Places `x` before the first item whose key is not above its own. */
  function Insert<T>(x: T, s: seq<T>, key: T -> real): (r: seq<T>)
    requires SortedDesc(s, key)
    ensures SortedDesc(r, key)
    ensures multiset(r) == multiset(s) + multiset{x}
    ensures |r| == |s| + 1
    ensures r[0] == x || (|s| > 0 && r[0] == s[0])
  {
    if |s| == 0 then [x]
    else if key(s[0]) <= key(x) then [x] + s
    else
      var rest := Insert(x, s[1..], key);
      assert s == [s[0]] + s[1..];
      assert key(rest[0]) <= key(s[0]);
      [s[0]] + rest
  }

  /** The items of `s` ordered by non-increasing `key`; items with equal keys keep
      their relative order. */
  function SortDesc<T>(s: seq<T>, key: T -> real): (r: seq<T>)
    ensures SortedDesc(r, key)
    ensures multiset(r) == multiset(s)
    ensures |r| == |s|
  {
    if |s| == 0 then []
    else
      assert s == [s[0]] + s[1..];
      Insert(s[0], SortDesc(s[1..], key), key)
  }

  /** The items of `s` whose key is `k`, in their order in `s`. */
  function WithKey<T>(s: seq<T>, key: T -> real, k: real): seq<T> {
    if |s| == 0 then []
    else (if key(s[0]) == k then [s[0]] else []) + WithKey(s[1..], key, k)
  }

  /** Inserting `x` puts it ahead of every item that shares its key. */
  lemma {:induction false} InsertWithKey<T>(x: T, s: seq<T>, key: T -> real, k: real)
    requires SortedDesc(s, key)
    ensures WithKey(Insert(x, s, key), key, k) == (if key(x) == k then [x] else []) + WithKey(s, key, k)
  {
    var r := Insert(x, s, key);
    var xs: seq<T> := if key(x) == k then [x] else [];
    if |s| == 0 {
      assert r == [x] && r[1..] == [];
    } else if key(s[0]) <= key(x) {
      assert r == [x] + s && r[1..] == s;
    } else {
      var rest := Insert(x, s[1..], key);
      var hs: seq<T> := if key(s[0]) == k then [s[0]] else [];
      assert r == [s[0]] + rest && r[1..] == rest;
      assert WithKey(r, key, k) == hs + WithKey(rest, key, k);
      InsertWithKey(x, s[1..], key, k);
      assert WithKey(s, key, k) == hs + WithKey(s[1..], key, k);
      assert xs == [] || hs == [];
      SwapEmpty(xs, hs, WithKey(s[1..], key, k));
    }
  }

  /** Two pieces, one of them empty, may be put in either order. */
  lemma SwapEmpty<T>(a: seq<T>, b: seq<T>, c: seq<T>)
    requires a == [] || b == []
    ensures b + (a + c) == a + (b + c)
  {
  }

  /** The sort is stable: the items sharing any one key keep their relative order. */
  lemma {:induction false} SortDescStable<T>(s: seq<T>, key: T -> real)
    ensures forall k :: WithKey(SortDesc(s, key), key, k) == WithKey(s, key, k)
  {
    if |s| > 0 {
      SortDescStable(s[1..], key);
      forall k ensures WithKey(SortDesc(s, key), key, k) == WithKey(s, key, k) {
        InsertWithKey(s[0], SortDesc(s[1..], key), key, k);
      }
    }
  }

  /** Every item of the sorted sequence comes from the input, and conversely. */
  lemma SortDescMembers<T>(s: seq<T>, key: T -> real)
    ensures forall i :: 0 <= i < |s| ==> s[i] in SortDesc(s, key)
    ensures forall i :: 0 <= i < |s| ==> SortDesc(s, key)[i] in s
  {
    var r := SortDesc(s, key);
    forall i | 0 <= i < |s| ensures s[i] in r && r[i] in s {
      assert s[i] in multiset(s);
      assert r[i] in multiset(r);
    }
  }

  /** `multiset(s)[x]` counts an item that sits at two positions at least twice. */
  lemma TwoPositionsCountTwice<T>(s: seq<T>, i: int, j: int)
    requires 0 <= i < j < |s| && s[i] == s[j]
    ensures multiset(s)[s[i]] >= 2
  {
    assert s == s[..j] + [s[j]] + s[j + 1..];
    assert s[i] in s[..j];
    assert multiset(s[..j])[s[i]] >= 1;
  }

  /** A sequence of distinct items counts each item at most once. */
  lemma {:induction false} DistinctCountsOnce<T>(s: seq<T>, x: T)
    requires forall i, j :: 0 <= i < j < |s| ==> s[i] != s[j]
    ensures multiset(s)[x] <= 1
  {
    if |s| > 0 {
      DistinctCountsOnce(s[1..], x);
      assert s == [s[0]] + s[1..];
      if s[0] == x {
        assert x !in s[1..] by {
          forall k | 0 <= k < |s[1..]| ensures s[1..][k] != x {
            assert s[1..][k] == s[k + 1];
          }
        }
      }
    }
  }

  /** Reordering keeps identifiers distinct. */
  lemma PermutationKeepsDistinctIds<T, K>(s: seq<T>, r: seq<T>, id: T -> K)
    requires forall i, j :: 0 <= i < j < |s| ==> id(s[i]) != id(s[j])
    requires multiset(r) == multiset(s)
    ensures forall i, j :: 0 <= i < j < |r| ==> id(r[i]) != id(r[j])
  {
    forall i, j | 0 <= i < j < |r| ensures id(r[i]) != id(r[j]) {
      if id(r[i]) == id(r[j]) {
        assert r[i] in multiset(s) && r[j] in multiset(s);
        var a :| 0 <= a < |s| && s[a] == r[i];
        var b :| 0 <= b < |s| && s[b] == r[j];
        assert a == b;
        TwoPositionsCountTwice(r, i, j);
        assert forall i', j' :: 0 <= i' < j' < |s| ==> s[i'] != s[j'];
        DistinctCountsOnce(s, r[i]);
        assert false;
      }
    }
  }

  /** Reordering keeps every identifier present. */
  lemma PermutationKeepsId<T, K>(s: seq<T>, r: seq<T>, id: T -> K, k: K)
    requires multiset(r) == multiset(s)
    requires exists i | 0 <= i < |s| :: id(s[i]) == k
    ensures exists i | 0 <= i < |r| :: id(r[i]) == k
  {
    var a :| 0 <= a < |s| && id(s[a]) == k;
    assert s[a] in multiset(r);
    var c :| 0 <= c < |r| && r[c] == s[a];
  }
}
