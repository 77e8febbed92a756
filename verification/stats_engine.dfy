/** The aggregation helpers behind the "top inventors" and "filings per year" answers:
    value counts over delimited text cells, and a per-year tally of parseable dates. */
module StatsEngine {
  import opened Wrappers
  import opened Strings
  import opened Values
  import opened Seqs
  import opened Sorting

  /** The characters that separate several entries inside one cell. */
  const Separators: set<char> := {';', ',', '|'}

  /** One (value, count) entry of a value-count table. */
  type Entry = (string, nat)

  function KeyOf(e: Entry): string { e.0 }

  function Weight(e: Entry): real { e.1 as real }

  /** The entries one cell contributes: its text split at the separators, each piece
      stripped of surrounding whitespace. */
  function CellTokens(cell: Value): (r: seq<string>)
    ensures |r| >= 1
    ensures forall i, j :: 0 <= i < |r| && 0 <= j < |r[i]| ==> r[i][j] !in Separators
    ensures forall i :: 0 <= i < |r| && |r[i]| > 0 ==> !IsSpace(r[i][0]) && !IsSpace(r[i][|r[i]| - 1])
    ensures var ps := SplitOnAny(Show(cell), Separators);
            |r| == |ps| && forall i :: 0 <= i < |r| ==> r[i] == Strip(ps[i])
  {
    StripAll(SplitOnAny(Show(cell), Separators))
  }

  /** A cell without separators contributes exactly one entry: its stripped text. */
  lemma CellWithoutSeparators(cell: Value)
    requires forall i :: 0 <= i < |Show(cell)| ==> Show(cell)[i] !in Separators
    ensures CellTokens(cell) == [Strip(Show(cell))]
  {
    SplitOnAnyNoDelims(Show(cell), Separators);
  }

  /** All entries of a column, missing cells dropped, in row order. */
  function Tokens(cells: seq<Value>): (r: seq<string>)
    ensures (forall i :: 0 <= i < |cells| ==> cells[i].Missing?) ==> r == []
  {
    if |cells| == 0 then []
    else (if cells[0].Missing? then [] else CellTokens(cells[0])) + Tokens(cells[1..])
  }

  /** One more row adds its cell's entries at the end, every one of them (repeats
      within the cell included), or nothing when the cell is missing. */
  lemma {:induction false} TokensSnoc(cells: seq<Value>, c: Value)
    ensures Tokens(cells + [c]) == Tokens(cells) + (if c.Missing? then [] else CellTokens(c))
    decreases |cells|
  {
    if |cells| == 0 {
      assert cells + [c] == [c] && [c][1..] == [];
    } else {
      var head := if cells[0].Missing? then [] else CellTokens(cells[0]);
      var tail := if c.Missing? then [] else CellTokens(c);
      SnocTail(cells, c);
      assert Tokens(cells + [c]) == head + Tokens(cells[1..] + [c]);
      TokensSnoc(cells[1..], c);
      AppendAssoc(head, Tokens(cells[1..]), tail);
    }
  }

  function Same(t: string): string { t }

  /** Each distinct entry paired with its number of occurrences, in first-seen order. */
  function Counted(tokens: seq<string>): (r: seq<Entry>)
    ensures DistinctIds(r, KeyOf)
    ensures forall i :: 0 <= i < |r| ==> r[i].1 == multiset(tokens)[r[i].0] && r[i].1 >= 1
    ensures forall j :: 0 <= j < |tokens| ==> HasId(r, KeyOf, tokens[j])
    ensures |r| <= |tokens|
  {
    var keys := Dedupe(tokens, Same);
    var r := seq(|keys|, i requires 0 <= i < |keys| => (keys[i], multiset(tokens)[keys[i]]));
    CountedFacts(tokens, keys, r);
    r
  }

  lemma CountedFacts(tokens: seq<string>, keys: seq<string>, r: seq<Entry>)
    requires keys == Dedupe(tokens, Same)
    requires |r| == |keys| && forall i :: 0 <= i < |r| ==> r[i] == (keys[i], multiset(tokens)[keys[i]])
    ensures DistinctIds(r, KeyOf)
    ensures forall i :: 0 <= i < |r| ==> r[i].1 == multiset(tokens)[r[i].0] && r[i].1 >= 1
    ensures forall j :: 0 <= j < |tokens| ==> HasId(r, KeyOf, tokens[j])
    ensures |r| <= |tokens|
  {
    CountedPositive(tokens, keys, r);
    CountedCovers(tokens, keys, r);
    CountedDistinct(tokens, keys, r);
    SubseqLength(keys, tokens);
  }

  /** Every deduplicated key occurs, so its count is positive. */
  lemma CountedPositive(tokens: seq<string>, keys: seq<string>, r: seq<Entry>)
    requires keys == Dedupe(tokens, Same)
    requires |r| == |keys| && forall i :: 0 <= i < |r| ==> r[i] == (keys[i], multiset(tokens)[keys[i]])
    ensures forall i :: 0 <= i < |r| ==> r[i].1 >= 1
  {
    forall i | 0 <= i < |r| ensures r[i].1 >= 1 {
      var j :| FirstOfId(tokens, Same, j) && tokens[j] == keys[i];
      assert tokens[j] in multiset(tokens);
    }
  }

  /** Every token has its entry. */
  lemma CountedCovers(tokens: seq<string>, keys: seq<string>, r: seq<Entry>)
    requires keys == Dedupe(tokens, Same)
    requires |r| == |keys| && forall i :: 0 <= i < |r| ==> r[i] == (keys[i], multiset(tokens)[keys[i]])
    ensures forall j :: 0 <= j < |tokens| ==> HasId(r, KeyOf, tokens[j])
  {
    forall j | 0 <= j < |tokens| ensures HasId(r, KeyOf, tokens[j]) {
      assert HasId(keys, Same, Same(tokens[j]));
      var a :| 0 <= a < |keys| && Same(keys[a]) == tokens[j];
      assert KeyOf(r[a]) == tokens[j];
    }
  }

  /** No two entries share a key. */
  lemma CountedDistinct(tokens: seq<string>, keys: seq<string>, r: seq<Entry>)
    requires keys == Dedupe(tokens, Same)
    requires |r| == |keys| && forall i :: 0 <= i < |r| ==> r[i] == (keys[i], multiset(tokens)[keys[i]])
    ensures DistinctIds(r, KeyOf)
  {
    forall i, j | 0 <= i < j < |r| ensures KeyOf(r[i]) != KeyOf(r[j]) {
      assert Same(keys[i]) != Same(keys[j]);
    }
  }

  /** `s.value_counts().head(k).to_dict()` for the column `cells`, missing cells dropped
      and delimited cells split into their entries. */
  function TopKGroup(cells: seq<Value>, k: int): (r: seq<Entry>)
    ensures k >= 0 ==> |r| <= k
    ensures |r| <= |Tokens(cells)|
    ensures DistinctIds(r, KeyOf)
    ensures forall i :: 0 <= i < |r| ==> r[i].1 == multiset(Tokens(cells))[r[i].0] && r[i].1 >= 1
    ensures forall i, j :: 0 <= i < j < |r| ==> r[i].1 >= r[j].1
    ensures forall j :: 0 <= j < |Tokens(cells)| && !HasId(r, KeyOf, Tokens(cells)[j]) ==>
              (k >= 0 ==> |r| == k) &&
              forall i :: 0 <= i < |r| ==> r[i].1 >= multiset(Tokens(cells))[Tokens(cells)[j]]
  {
    var ts := Tokens(cells);
    TopKShape(ts, k);
    TopKCounts(ts, k);
    TopKOrdered(ts, k);
    TopKComplete(ts, k);
    TopK(ts, k)
  }

  /** The `k` most frequent entries of `ts`, most frequent first. */
  function TopK(ts: seq<string>, k: int): seq<Entry> {
    Head(SortDesc(Counted(ts), Weight), k)
  }

  lemma TopKShape(ts: seq<string>, k: int)
    ensures var r := TopK(ts, k);
            && (k >= 0 ==> |r| <= k) && |r| <= |ts| && DistinctIds(r, KeyOf)
  {
    var e := Counted(ts);
    var s := SortDesc(e, Weight);
    var r := Head(s, k);
    PermutationKeepsDistinctIds(e, s, KeyOf);
    forall i, j | 0 <= i < j < |r| ensures KeyOf(r[i]) != KeyOf(r[j]) {
      assert r[i] == s[i] && r[j] == s[j];
    }
  }

  lemma TopKCounts(ts: seq<string>, k: int)
    ensures var r := TopK(ts, k);
            forall i :: 0 <= i < |r| ==> r[i].1 == multiset(ts)[r[i].0] && r[i].1 >= 1
  {
    var e := Counted(ts);
    var s := SortDesc(e, Weight);
    HeadCounts(ts, e, s, Head(s, k));
  }

  lemma TopKOrdered(ts: seq<string>, k: int)
    ensures var r := TopK(ts, k);
            forall i, j :: 0 <= i < j < |r| ==> r[i].1 >= r[j].1
  {
    var s := SortDesc(Counted(ts), Weight);
    HeadOrdered(s, Head(s, k));
  }

  lemma TopKComplete(ts: seq<string>, k: int)
    ensures var r := TopK(ts, k);
            forall j :: 0 <= j < |ts| && !HasId(r, KeyOf, ts[j]) ==>
              (k >= 0 ==> |r| == k) && forall i :: 0 <= i < |r| ==> r[i].1 >= multiset(ts)[ts[j]]
  {
    var e := Counted(ts);
    var s := SortDesc(e, Weight);
    HeadCompleteAll(ts, e, s, Head(s, k), k);
  }

  /** `HeadComplete` for every token. */
  lemma HeadCompleteAll(ts: seq<string>, e: seq<Entry>, s: seq<Entry>, r: seq<Entry>, k: int)
    requires forall i :: 0 <= i < |e| ==> e[i].1 == multiset(ts)[e[i].0]
    requires forall j :: 0 <= j < |ts| ==> HasId(e, KeyOf, ts[j])
    requires multiset(s) == multiset(e) && SortedDesc(s, Weight)
    requires r == Head(s, k)
    ensures forall j :: 0 <= j < |ts| && !HasId(r, KeyOf, ts[j]) ==>
              (k >= 0 ==> |r| == k) && forall i :: 0 <= i < |r| ==> r[i].1 >= multiset(ts)[ts[j]]
  {
    forall j | 0 <= j < |ts| && !HasId(r, KeyOf, ts[j])
      ensures (k >= 0 ==> |r| == k) && forall i :: 0 <= i < |r| ==> r[i].1 >= multiset(ts)[ts[j]]
    {
      HeadComplete(ts, e, s, r, k, j);
    }
  }

  /** The kept entries carry their exact counts. */
  lemma HeadCounts(ts: seq<string>, e: seq<Entry>, s: seq<Entry>, r: seq<Entry>)
    requires forall i :: 0 <= i < |e| ==> e[i].1 == multiset(ts)[e[i].0] && e[i].1 >= 1
    requires multiset(s) == multiset(e)
    requires |r| <= |s| && r == s[..|r|]
    ensures forall i :: 0 <= i < |r| ==> r[i].1 == multiset(ts)[r[i].0] && r[i].1 >= 1
  {
    forall i | 0 <= i < |r| ensures r[i].1 == multiset(ts)[r[i].0] && r[i].1 >= 1 {
      assert r[i] == s[i];
      assert s[i] in multiset(e);
      var a :| 0 <= a < |e| && e[a] == s[i];
    }
  }

  /** The kept entries are in non-increasing count order. */
  lemma HeadOrdered(s: seq<Entry>, r: seq<Entry>)
    requires SortedDesc(s, Weight)
    requires |r| <= |s| && r == s[..|r|]
    ensures forall i, j :: 0 <= i < j < |r| ==> r[i].1 >= r[j].1
  {
    forall i, j | 0 <= i < j < |r| ensures r[i].1 >= r[j].1 {
      assert Weight(s[i]) >= Weight(s[j]);
    }
  }

  /** An entry left out of the first `k` is outnumbered by every kept one. */
  lemma HeadComplete(ts: seq<string>, e: seq<Entry>, s: seq<Entry>, r: seq<Entry>, k: int, j: int)
    requires forall i :: 0 <= i < |e| ==> e[i].1 == multiset(ts)[e[i].0]
    requires 0 <= j < |ts| && HasId(e, KeyOf, ts[j])
    requires multiset(s) == multiset(e) && SortedDesc(s, Weight)
    requires r == Head(s, k)
    requires !HasId(r, KeyOf, ts[j])
    ensures k >= 0 ==> |r| == k
    ensures forall i :: 0 <= i < |r| ==> r[i].1 >= multiset(ts)[ts[j]]
  {
    var a :| 0 <= a < |e| && KeyOf(e[a]) == ts[j];
    assert e[a] in multiset(s);
    var b :| 0 <= b < |s| && s[b] == e[a];
    assert b >= |r|;
    forall i | 0 <= i < |r| ensures r[i].1 >= multiset(ts)[ts[j]] {
      assert r[i] == s[i];
      assert Weight(s[i]) >= Weight(s[b]);
    }
  }

  /** An entry more frequent than every other one heads the table whenever `k >= 1`. */
  lemma MostFrequentLeads(cells: seq<Value>, k: int, j: int)
    requires k >= 1 && 0 <= j < |Tokens(cells)|
    requires forall i :: 0 <= i < |Tokens(cells)| && Tokens(cells)[i] != Tokens(cells)[j] ==>
               multiset(Tokens(cells))[Tokens(cells)[i]] < multiset(Tokens(cells))[Tokens(cells)[j]]
    ensures |TopKGroup(cells, k)| >= 1
    ensures TopKGroup(cells, k)[0] == (Tokens(cells)[j], multiset(Tokens(cells))[Tokens(cells)[j]])
  {
    var ts := Tokens(cells);
    var t := ts[j];
    var r := TopKGroup(cells, k);
    if HasId(r, KeyOf, t) {
      var a :| 0 <= a < |r| && KeyOf(r[a]) == t;
      assert r[0].1 >= r[a].1;
    }
    assert r[0].1 >= multiset(ts)[t];
    assert r[0].0 in multiset(ts);
    var i :| 0 <= i < |ts| && ts[i] == r[0].0;
  }

  lemma ExampleFirstCell()
    ensures CellTokens(Str("A;B")) == ["A", "B"]
  {
    ExampleFirstSplit();
    assert Show(Str("A;B")) == "A;B";
    StripKeepsWord("A");
    StripKeepsWord("B");
  }

  lemma ExampleFirstSplit()
    ensures SplitOnAny("A;B", Separators) == ["A", "B"]
  {
    SplitOnAnyNoDelims("B", Separators);
    assert "A;B"[1..] == ";B" && ";B"[1..] == "B";
    assert SplitOnAny(";B", Separators) == ["", "B"];
    var rest := SplitOnAny(";B", Separators);
    assert ['A'] + rest[0] == "A";
    assert SplitOnAny("A;B", Separators) == ["A", "B"];
  }

  lemma ExampleSecondCell()
    ensures CellTokens(Str("A, C")) == ["A", "C"]
  {
    ExampleSecondSplit();
    assert Show(Str("A, C")) == "A, C";
    ExampleStrips();
    var r := StripAll(["A", " C"]);
    assert |r| == 2 && r[0] == "A" && r[1] == "C";
  }

  lemma ExampleSecondSplit()
    ensures SplitOnAny("A, C", Separators) == ["A", " C"]
  {
    ExampleCommaSplit();
    assert "A, C"[1..] == ", C" && 'A' !in Separators;
    var rest := SplitOnAny(", C", Separators);
    assert ['A'] + rest[0] == "A";
  }

  lemma ExampleCommaSplit()
    ensures SplitOnAny(", C", Separators) == ["", " C"]
  {
    SplitOnAnyNoDelims(" C", Separators);
    assert ", C"[1..] == " C" && ',' in Separators;
  }

  lemma ExampleStrips()
    ensures Strip("A") == "A" && Strip(" C") == "C"
  {
    StripKeepsWord("A");
    assert TrimLeft(" C") == "C" by {
      assert " C"[1..] == "C";
    }
  }

  /** The entries of the column with cells "A;B" and "A, C". */
  lemma ExampleTokens()
    ensures Tokens([Str("A;B"), Str("A, C")]) == ["A", "B", "A", "C"]
  {
    var cells := [Str("A;B"), Str("A, C")];
    ExampleFirstCell();
    ExampleSecondCell();
    assert cells[1..] == [Str("A, C")] && cells[1..][1..] == [];
    assert Tokens(cells[1..]) == ["A", "C"];
  }

  /** Two cells "A;B" and "A, C": "A" heads the table, counted twice. */
  lemma TopKGroupExample()
    ensures TopKGroup([Str("A;B"), Str("A, C")], 10)[0] == ("A", 2)
  {
    var cells := [Str("A;B"), Str("A, C")];
    ExampleTokens();
    ExampleCounts(Tokens(cells));
    MostFrequentLeads(cells, 10, 0);
  }

  /** In the entries A, B, A, C the first one outnumbers every other. */
  lemma ExampleCounts(ts: seq<string>)
    requires ts == ["A", "B", "A", "C"]
    ensures forall i :: 0 <= i < |ts| && ts[i] != ts[0] ==> multiset(ts)[ts[i]] < multiset(ts)[ts[0]]
    ensures (ts[0], multiset(ts)[ts[0]]) == ("A", 2)
  {
    assert multiset(ts)["A"] == 2 && multiset(ts)["B"] == 1 && multiset(ts)["C"] == 1;
  }

  // ---------------------------------------------------------------------------
  // Filings per year
  // ---------------------------------------------------------------------------

  /** One (year, count) bucket. */
  type Bucket = (int, nat)

  function YearOf(b: Bucket): int { b.0 }

  function CountIn(b: Bucket): nat { b.1 }

  /** Buckets in strictly ascending year order, so at most one per year. */
  predicate Ascending(t: seq<Bucket>) {
    forall i, j :: 0 <= i < j < |t| ==> t[i].0 < t[j].0
  }

  /** The count recorded for year `y`; 0 when the tally has no bucket for it. */
  function CountOf(t: seq<Bucket>, y: int): nat {
    if |t| == 0 then 0 else if t[0].0 == y then t[0].1 else CountOf(t[1..], y)
  }

  /** In an ascending tally, a bucket's count is what `CountOf` finds for its year. */
  lemma {:induction false} CountOfBucket(t: seq<Bucket>, i: int)
    requires Ascending(t) && 0 <= i < |t|
    ensures CountOf(t, t[i].0) == t[i].1
  {
    if i > 0 {
      assert t[1..][i - 1] == t[i];
      CountOfBucket(t[1..], i - 1);
    }
  }

  /** A positive count comes from a bucket of that year. */
  lemma {:induction false} CountOfPositive(t: seq<Bucket>, y: int)
    requires CountOf(t, y) > 0
    ensures HasId(t, YearOf, y)
  {
    if t[0].0 != y {
      CountOfPositive(t[1..], y);
      var k :| 0 <= k < |t[1..]| && YearOf(t[1..][k]) == y;
      assert YearOf(t[k + 1]) == y;
    }
  }

  /** A year below the first bucket of an ascending tally has no count. */
  lemma {:induction false} CountOfBelow(t: seq<Bucket>, y: int)
    requires Ascending(t) && |t| > 0 && y < t[0].0
    ensures CountOf(t, y) == 0
  {
    if |t| > 1 {
      CountOfBelow(t[1..], y);
    }
  }

  /** Records one more occurrence of year `y`. */
  function Bump(t: seq<Bucket>, y: int): (r: seq<Bucket>)
    requires Ascending(t)
    ensures Ascending(r)
    ensures |r| > 0 && (r[0].0 == y || (|t| > 0 && r[0].0 == t[0].0))
    ensures (forall i :: 0 <= i < |t| ==> t[i].1 >= 1) ==> forall i :: 0 <= i < |r| ==> r[i].1 >= 1
  {
    if |t| == 0 then [(y, 1)]
    else if t[0].0 == y then [(y, t[0].1 + 1)] + t[1..]
    else if y < t[0].0 then [(y, 1)] + t
    else
      var rest := Bump(t[1..], y);
      var r := [t[0]] + rest;
      assert r[1..] == rest;
      r
  }

  /** Bumping adds one to the count of `y` and leaves every other year's count alone. */
  lemma {:induction false} BumpCounts(t: seq<Bucket>, y: int)
    requires Ascending(t)
    ensures forall x :: CountOf(Bump(t, y), x) == CountOf(t, x) + (if x == y then 1 else 0)
  {
    if |t| > 0 && t[0].0 != y {
      if y < t[0].0 {
        CountOfBelow(t, y);
      } else {
        BumpCounts(t[1..], y);
        assert Bump(t, y)[1..] == Bump(t[1..], y);
      }
    }
  }

  /** Bumping adds one to the total. */
  lemma {:induction false} BumpSum(t: seq<Bucket>, y: int)
    requires Ascending(t)
    ensures SumOf(Bump(t, y), CountIn) == SumOf(t, CountIn) + 1
  {
    if |t| > 0 && t[0].0 != y && y > t[0].0 {
      BumpSum(t[1..], y);
      assert Bump(t, y)[1..] == Bump(t[1..], y);
    } else if |t| > 0 && t[0].0 == y {
      assert Bump(t, y)[1..] == t[1..];
    } else if |t| > 0 {
      assert Bump(t, y)[1..] == t;
    }
  }

  /** The per-year tally of `years`, in ascending year order. */
  function Tally(years: seq<int>): (r: seq<Bucket>)
    ensures Ascending(r)
    ensures forall x :: CountOf(r, x) == multiset(years)[x]
    ensures forall i :: 0 <= i < |r| ==> r[i].1 >= 1
    ensures SumOf(r, CountIn) == |years|
  {
    if |years| == 0 then []
    else
      var n := |years| - 1;
      assert years == years[..n] + [years[n]];
      var prev := Tally(years[..n]);
      BumpCounts(prev, years[n]);
      BumpSum(prev, years[n]);
      Bump(prev, years[n])
  }

  /** The years of the cells `parse` (the coercing date parser) turns into a date. */
  function ParsedYears(cells: seq<Value>, parse: Value -> Option<Date>): (r: seq<int>)
    ensures |r| <= |cells|
    ensures |r| == 0 <==> forall i :: 0 <= i < |cells| ==> parse(cells[i]).None?
  {
    if |cells| == 0 then []
    else
      (match parse(cells[0]) case Some(d) => [d.year] case None => [])
      + ParsedYears(cells[1..], parse)
  }

  /** `value_counts().sort_index()` of the parsed years: ascending years, each with its
      exact number of parseable cells, unparseable cells ignored. */
  function GroupByYear(cells: seq<Value>, parse: Value -> Option<Date>): (r: seq<Bucket>)
    ensures Ascending(r)
    ensures forall i :: 0 <= i < |r| ==> r[i].1 == multiset(ParsedYears(cells, parse))[r[i].0]
    ensures forall i :: 0 <= i < |r| ==> r[i].1 >= 1
    ensures forall j :: 0 <= j < |ParsedYears(cells, parse)| ==> HasId(r, YearOf, ParsedYears(cells, parse)[j])
    ensures SumOf(r, CountIn) == |ParsedYears(cells, parse)|
    ensures |r| == 0 <==> forall i :: 0 <= i < |cells| ==> parse(cells[i]).None?
  {
    var ys := ParsedYears(cells, parse);
    var r := Tally(ys);
    forall i | 0 <= i < |r| ensures r[i].1 == multiset(ys)[r[i].0] {
      CountOfBucket(r, i);
    }
    forall j | 0 <= j < |ys| ensures HasId(r, YearOf, ys[j]) {
      assert ys[j] in multiset(ys);
      CountOfPositive(r, ys[j]);
    }
    r
  }
}
