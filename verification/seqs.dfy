/** Python list idioms the source uses: slicing, comprehension filters, first-occurrence
    de-duplication and sums. */
module Seqs {

  /** Python's normalisation of a slice bound `k` against a length `n`. */
  function SliceBound(k: int, n: nat): (r: nat)
    ensures r <= n
    ensures 0 <= k <= n ==> r == k
    ensures k > n ==> r == n
    ensures k < 0 ==> r == if k + n < 0 then 0 else k + n
  {
    if k < 0 then (if k + n < 0 then 0 else k + n) else if k > n then n else k
  }

  /** `s[lo:hi]` */
  function Slice<T>(s: seq<T>, lo: int, hi: int): (r: seq<T>)
    ensures SliceBound(lo, |s|) <= SliceBound(hi, |s|) ==>
              r == s[SliceBound(lo, |s|)..SliceBound(hi, |s|)]
    ensures SliceBound(lo, |s|) > SliceBound(hi, |s|) ==> r == []
  {
    var a, b := SliceBound(lo, |s|), SliceBound(hi, |s|);
    if a <= b then s[a..b] else []
  }

  /** `s[:k]`, also pandas' `head(k)`: a prefix of `s`; a negative `k` drops the last `-k` items. */
  function Head<T>(s: seq<T>, k: int): (r: seq<T>)
    ensures |r| <= |s| && r == s[..|r|]
    ensures k >= 0 ==> |r| == if k < |s| then k else |s|
    ensures k < 0 ==> |r| == if |s| + k < 0 then 0 else |s| + k
  {
    Slice(s, 0, k)
  }

  /** `r` is `s` with some items left out, the rest in their original order. */
  predicate Subseq<T(==)>(r: seq<T>, s: seq<T>)
    decreases |s|
  {
    |r| == 0 || (|s| > 0 && if r[0] == s[0] then Subseq(r[1..], s[1..]) else Subseq(r, s[1..]))
  }

  lemma {:induction false} SubseqRefl<T>(s: seq<T>)
    ensures Subseq(s, s)
  {
    if |s| > 0 {
      SubseqRefl(s[1..]);
    }
  }

  /** A subsequence is no longer than the sequence. */
  lemma {:induction false} SubseqLength<T>(r: seq<T>, s: seq<T>)
    requires Subseq(r, s)
    ensures |r| <= |s|
    decreases |s|
  {
    if |r| > 0 {
      if r[0] == s[0] {
        SubseqLength(r[1..], s[1..]);
      } else {
        SubseqLength(r, s[1..]);
      }
    }
  }

  /** A subsequence of a prefix is a subsequence of the whole. */
  lemma {:induction false} SubseqOfPrefix<T>(r: seq<T>, s: seq<T>, c: nat)
    requires c <= |s| && Subseq(r, s[..c])
    ensures Subseq(r, s)
    decreases c
  {
    if |r| > 0 {
      assert s[..c][1..] == s[1..][..c - 1];
      if r[0] == s[0] {
        SubseqOfPrefix(r[1..], s[1..], c - 1);
      } else {
        SubseqOfPrefix(r, s[1..], c - 1);
      }
    }
  }

  /** Every item of a subsequence comes from the sequence. */
  lemma {:induction false} SubseqMembers<T>(r: seq<T>, s: seq<T>)
    requires Subseq(r, s)
    ensures forall x :: x in r ==> x in s
    decreases |s|
  {
    if |r| > 0 {
      if r[0] == s[0] {
        SubseqMembers(r[1..], s[1..]);
        assert r == [r[0]] + r[1..];
      } else {
        SubseqMembers(r, s[1..]);
      }
    }
  }

  /** `[x for x in s if p(x)]` */
  function Keep<T(==)>(s: seq<T>, p: T -> bool): (r: seq<T>)
    ensures |r| <= |s|
    ensures forall i :: 0 <= i < |r| ==> r[i] in s && p(r[i])
    ensures forall i :: 0 <= i < |s| && p(s[i]) ==> s[i] in r
    ensures Subseq(r, s)
    ensures (forall i :: 0 <= i < |s| ==> p(s[i])) ==> r == s
  {
    if |s| == 0 then []
    else
      var rest := Keep(s[1..], p);
      assert forall i :: 1 <= i < |s| ==> s[i] == s[1..][i - 1];
      if p(s[0]) then [s[0]] + rest else rest
  }

  /** Keeping loses no copy of a kept item: every item that passes the test appears as
      often as in `s`, and no other item appears. */
  lemma {:induction false} KeepCounts<T>(s: seq<T>, p: T -> bool)
    ensures forall x :: multiset(Keep(s, p))[x] == if p(x) then multiset(s)[x] else 0
  {
    if |s| > 0 {
      KeepCounts(s[1..], p);
      assert s == [s[0]] + s[1..];
      assert multiset(s) == multiset{s[0]} + multiset(s[1..]);
      if p(s[0]) {
        assert Keep(s, p) == [s[0]] + Keep(s[1..], p);
        assert multiset(Keep(s, p)) == multiset{s[0]} + multiset(Keep(s[1..], p));
      } else {
        assert Keep(s, p) == Keep(s[1..], p);
      }
    }
  }

  /** `KeepCounts` at the items of `s`. */
  lemma KeepCountsAt<T>(s: seq<T>, p: T -> bool)
    ensures forall i :: 0 <= i < |s| && p(s[i]) ==> multiset(Keep(s, p))[s[i]] == multiset(s)[s[i]]
  {
    KeepCounts(s, p);
  }

  /** Keeping twice by the same test keeps the same items. */
  lemma {:induction false} KeepIdempotent<T>(s: seq<T>, p: T -> bool)
    ensures Keep(Keep(s, p), p) == Keep(s, p)
  {
    var r := Keep(s, p);
    assert forall i :: 0 <= i < |r| ==> p(r[i]) by {
      forall i | 0 <= i < |r| ensures p(r[i]) {
      }
    }
  }

  /** Some item of `s` has identifier `k`. */
  predicate HasId<T, K(==)>(s: seq<T>, id: T -> K, k: K) {
    exists i | 0 <= i < |s| :: id(s[i]) == k
  }

  /** No two items of `s` share an identifier. */
  predicate DistinctIds<T, K(==)>(s: seq<T>, id: T -> K) {
    forall i, j :: 0 <= i < j < |s| ==> id(s[i]) != id(s[j])
  }

  /** `s[j]` is the first item of `s` with its identifier. */
  predicate FirstOfId<T, K(==)>(s: seq<T>, id: T -> K, j: int) {
    0 <= j < |s| && forall i :: 0 <= i < j ==> id(s[i]) != id(s[j])
  }

  /** `r` is what first-occurrence de-duplication of `s` keeps when the identifiers in
      `seen` are already taken: distinct identifiers, none from `seen`, every other
      identifier of `s` represented, original order, each kept item the first of its id. */
  ghost predicate DedupeOf<T, K>(s: seq<T>, id: T -> K, seen: set<K>, r: seq<T>) {
    && DistinctIds(r, id)
    && (forall i :: 0 <= i < |r| ==> id(r[i]) !in seen)
    && (forall i :: 0 <= i < |s| && id(s[i]) !in seen ==> HasId(r, id, id(s[i])))
    && Subseq(r, s)
    && (forall k :: 0 <= k < |r| ==> exists j :: FirstOfId(s, id, j) && s[j] == r[k])
  }

  /** The loop `if id not in seen: seen.add(id); out.append(x)`, started with `seen`. */
  function DedupeFrom<T(==), K(==)>(s: seq<T>, id: T -> K, seen: set<K>): (r: seq<T>)
    ensures DedupeOf(s, id, seen, r)
  {
    if |s| == 0 then []
    else if id(s[0]) in seen then
      var r := DedupeFrom(s[1..], id, seen);
      DedupeSkipStep(s, id, seen, r);
      r
    else
      var rest := DedupeFrom(s[1..], id, seen + {id(s[0])});
      DedupeKeepStep(s, id, seen, rest);
      [s[0]] + rest
  }

  lemma DedupeSkipStep<T, K>(s: seq<T>, id: T -> K, seen: set<K>, r: seq<T>)
    requires |s| > 0 && id(s[0]) in seen
    requires DedupeOf(s[1..], id, seen, r)
    ensures DedupeOf(s, id, seen, r)
  {
    assert forall i :: 1 <= i < |s| ==> s[i] == s[1..][i - 1];
    forall k | 0 <= k < |r| ensures exists j :: FirstOfId(s, id, j) && s[j] == r[k] {
      var j :| FirstOfId(s[1..], id, j) && s[1..][j] == r[k];
      assert FirstOfId(s, id, j + 1);
    }
  }

  lemma DedupeKeepStep<T, K>(s: seq<T>, id: T -> K, seen: set<K>, rest: seq<T>)
    requires |s| > 0 && id(s[0]) !in seen
    requires DedupeOf(s[1..], id, seen + {id(s[0])}, rest)
    ensures DedupeOf(s, id, seen, [s[0]] + rest)
  {
    var r := [s[0]] + rest;
    assert r[1..] == rest;
    forall n | 0 <= n < |s| && id(s[n]) !in seen ensures HasId(r, id, id(s[n])) {
      if id(s[n]) == id(s[0]) {
        assert id(r[0]) == id(s[n]);
      } else {
        assert s[1..][n - 1] == s[n];
        var i :| 0 <= i < |rest| && id(rest[i]) == id(s[n]);
        assert id(r[i + 1]) == id(s[n]);
      }
    }
    forall k | 0 <= k < |r| ensures exists j :: FirstOfId(s, id, j) && s[j] == r[k] {
      if k == 0 {
        assert FirstOfId(s, id, 0);
      } else {
        var j :| FirstOfId(s[1..], id, j) && s[1..][j] == rest[k - 1];
        assert FirstOfId(s, id, j + 1);
      }
    }
  }

  /** First-occurrence de-duplication by identifier. */
  function Dedupe<T(==), K(==)>(s: seq<T>, id: T -> K): (r: seq<T>)
    ensures DistinctIds(r, id)
    ensures forall i :: 0 <= i < |s| ==> HasId(r, id, id(s[i]))
    ensures Subseq(r, s)
    ensures forall k :: 0 <= k < |r| ==> exists j :: FirstOfId(s, id, j) && s[j] == r[k]
  {
    DedupeFrom(s, id, {})
  }

  /** `sum(f(x) for x in s)` */
  function SumOf<T>(s: seq<T>, f: T -> nat): nat
  {
    if |s| == 0 then 0 else f(s[0]) + SumOf(s[1..], f)
  }

  lemma SnocTail<T>(s: seq<T>, x: T)
    requires |s| > 0
    ensures (s + [x])[0] == s[0] && (s + [x])[1..] == s[1..] + [x]
  {
  }

  lemma AppendAssoc<T>(a: seq<T>, b: seq<T>, c: seq<T>)
    ensures a + (b + c) == (a + b) + c
  {
  }

  lemma {:induction false} SumOfAppend<T>(a: seq<T>, b: seq<T>, f: T -> nat)
    ensures SumOf(a + b, f) == SumOf(a, f) + SumOf(b, f)
  {
    if |a| > 0 {
      assert (a + b)[1..] == a[1..] + b;
      SumOfAppend(a[1..], b, f);
    } else {
      assert a + b == b;
    }
  }

  /** The concatenation of a sequence of sequences. */
  function Flatten<T>(ss: seq<seq<T>>): seq<T>
  {
    if |ss| == 0 then [] else ss[0] + Flatten(ss[1..])
  }

  lemma {:induction false} FlattenAppend<T>(a: seq<seq<T>>, b: seq<seq<T>>)
    ensures Flatten(a + b) == Flatten(a) + Flatten(b)
  {
    if |a| > 0 {
      assert (a + b)[1..] == a[1..] + b;
      FlattenAppend(a[1..], b);
    } else {
      assert a + b == b;
    }
  }
}
