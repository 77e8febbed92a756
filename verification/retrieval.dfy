/** The passage retriever's search: nearest-neighbour candidates are filtered by the
    structured filters, reduced to the first chunk of each patent, re-ranked, and cut
    to the requested number of passages. The encoder and the vector index are outside
    the model: their answer arrives as the candidate list, best match first. */
module Retrieval {
  import opened Wrappers
  import opened Strings
  import opened Values
  import opened Seqs
  import opened Sorting
  import opened FilterOps

  /** One nearest-neighbour answer: its distance, the chunk's metadata and table row. */
  datatype Candidate = Candidate(distance: real, pubNumber: string, chunkText: string, row: Row)

  /** A candidate that survived filtering, with the patent title looked up. */
  datatype Hit = Hit(pubNumber: string, title: string, text: string, row: Row, vecScore: real)

  /** What the search hands back for each passage. */
  datatype Passage = Passage(pubNumber: string, title: string, text: string)

  /** The pseudo-column that addresses the chunk text instead of a table cell. */
  const ChunkTextColumn := "_chunk_text"

  /** The value a filter on `col` looks at. */
  function Target(row: Row, chunk: string, col: string): Value {
    if col == ChunkTextColumn then Str(chunk) else Get(row, col)
  }

  /** One filter lets the chunk through: `apply_filter` answered `True`. */
  predicate FilterPasses(row: Row, chunk: string, f: Filter) {
    Passes(ApplyFilter(Target(row, chunk, f.column), f.op, f.value))
  }

  /** The filter loop: stops at the first filter that does not pass. */
  function RowMatches(row: Row, chunk: string, filters: seq<Filter>): (b: bool)
    ensures b <==> forall i :: 0 <= i < |filters| ==> FilterPasses(row, chunk, filters[i])
  {
    if |filters| == 0 then true
    else
      if !FilterPasses(row, chunk, filters[0]) then false
      else
        var rest := RowMatches(row, chunk, filters[1..]);
        assert forall i :: 1 <= i < |filters| ==> filters[i] == filters[1..][i - 1];
        rest
  }

  /** The candidate passes every filter. */
  predicate Matches(c: Candidate, filters: seq<Filter>) {
    RowMatches(c.row, c.chunkText, filters)
  }

  function ToHit(c: Candidate): Hit {
    Hit(c.pubNumber, Show(Get(c.row, "title_en")), c.chunkText, c.row, c.distance)
  }

  function PubOf(h: Hit): string { h.pubNumber }

  function PassagePub(p: Passage): string { p.pubNumber }

  function Project(h: Hit): Passage { Passage(h.pubNumber, h.title, h.text) }

  /** Which candidates pass every filter, in index order. */
  function PassFlags(cands: seq<Candidate>, filters: seq<Filter>): (ok: seq<bool>)
    ensures |ok| == |cands|
    ensures forall j :: 0 <= j < |cands| ==> ok[j] == Matches(cands[j], filters)
  {
    seq(|cands|, j requires 0 <= j < |cands| => Matches(cands[j], filters))
  }

  /** The candidates whose flag is set, as hits, in index order. */
  function Kept(cands: seq<Candidate>, ok: seq<bool>): (r: seq<Hit>)
    requires |ok| == |cands|
    ensures |r| <= |cands|
    ensures (forall j :: 0 <= j < |ok| ==> ok[j]) ==> |r| == |cands|
  {
    if |cands| == 0 then []
    else
      var rest := Kept(cands[1..], ok[1..]);
      assert forall j :: 1 <= j < |ok| ==> ok[1..][j - 1] == ok[j];
      (if ok[0] then [ToHit(cands[0])] else []) + rest
  }

  /** The candidates that pass every filter, as hits, in index order: the loop that
      skips a candidate failing `_row_matches`. */
  function Hits(cands: seq<Candidate>, filters: seq<Filter>): (r: seq<Hit>)
    ensures |r| <= |cands|
    ensures |filters| == 0 ==> |r| == |cands|
  {
    Kept(cands, PassFlags(cands, filters))
  }

  /** The hits are the comprehension over the candidates' hits: they keep the candidates'
      order, and a passing candidate's hit appears as often as among all the hits. */
  lemma HitsInOrder(cands: seq<Candidate>, filters: seq<Filter>)
    ensures var r, hs := Hits(cands, filters), AllHits(cands);
            && r == Keep(hs, HitPasses(filters))
            && Subseq(r, hs)
            && forall j :: 0 <= j < |cands| && Matches(cands[j], filters) ==>
                 multiset(r)[ToHit(cands[j])] == multiset(hs)[ToHit(cands[j])]
  {
    var hs := AllHits(cands);
    KeptIsKeep(cands, PassFlags(cands, filters), filters);
    KeepCountsAt(hs, HitPasses(filters));
    assert forall j :: 0 <= j < |cands| ==> HitPasses(filters)(hs[j]) == Matches(cands[j], filters);
  }

  /** Every candidate as a hit, in index order. */
  function AllHits(cands: seq<Candidate>): (r: seq<Hit>)
    ensures |r| == |cands| && forall j :: 0 <= j < |cands| ==> r[j] == ToHit(cands[j])
  {
    seq(|cands|, j requires 0 <= j < |cands| => ToHit(cands[j]))
  }

  /** The filter test read off a hit, which carries its candidate's row and chunk. */
  function HitPasses(filters: seq<Filter>): Hit -> bool {
    (h: Hit) => RowMatches(h.row, h.text, filters)
  }

  /** Keeping the flagged candidates is the comprehension over all the hits. */
  lemma {:induction false} KeptIsKeep(cands: seq<Candidate>, ok: seq<bool>, filters: seq<Filter>)
    requires |ok| == |cands|
    requires forall j :: 0 <= j < |cands| ==> ok[j] == Matches(cands[j], filters)
    ensures Kept(cands, ok) == Keep(AllHits(cands), HitPasses(filters))
  {
    if |cands| > 0 {
      assert forall j :: 0 <= j < |cands| - 1 ==> ok[1..][j] == ok[j + 1] && cands[1..][j] == cands[j + 1];
      KeptIsKeep(cands[1..], ok[1..], filters);
      var hs := AllHits(cands);
      assert hs[1..] == AllHits(cands[1..]);
      assert HitPasses(filters)(hs[0]) == ok[0];
    }
  }

  /** The hits of the first candidate, then those of the rest. */
  lemma KeptCons(cands: seq<Candidate>, ok: seq<bool>)
    requires |ok| == |cands| > 0
    ensures var d := if ok[0] then 1 else 0;
            var hs, rest := Kept(cands, ok), Kept(cands[1..], ok[1..]);
            && |hs| == d + |rest|
            && (d == 1 ==> hs[0] == ToHit(cands[0]))
            && forall i :: d <= i < |hs| ==> hs[i] == rest[i - d]
  {
  }

  /** Every kept hit comes from a flagged candidate. */
  lemma {:induction false} KeptSound(cands: seq<Candidate>, ok: seq<bool>, i: int)
    requires |ok| == |cands| && 0 <= i < |Kept(cands, ok)|
    ensures exists j :: 0 <= j < |cands| && ok[j] && Kept(cands, ok)[i] == ToHit(cands[j])
  {
    var d := if ok[0] then 1 else 0;
    KeptCons(cands, ok);
    if i >= d {
      var rest := Kept(cands[1..], ok[1..]);
      KeptSound(cands[1..], ok[1..], i - d);
      var j :| 0 <= j < |cands[1..]| && ok[1..][j] && rest[i - d] == ToHit(cands[1..][j]);
      assert cands[1..][j] == cands[j + 1] && ok[1..][j] == ok[j + 1];
      assert Kept(cands, ok)[i] == ToHit(cands[j + 1]);
    } else {
      assert Kept(cands, ok)[i] == ToHit(cands[0]);
    }
  }

  /** Every flagged candidate yields a hit. */
  lemma {:induction false} KeptComplete(cands: seq<Candidate>, ok: seq<bool>, j: int)
    requires |ok| == |cands| && 0 <= j < |cands| && ok[j]
    ensures ToHit(cands[j]) in Kept(cands, ok)
  {
    if j > 0 {
      KeptComplete(cands[1..], ok[1..], j - 1);
      assert cands[1..][j - 1] == cands[j];
    }
  }

  /** Every hit comes from a candidate that passes the filters. */
  lemma HitsSound(cands: seq<Candidate>, filters: seq<Filter>, i: int)
    requires 0 <= i < |Hits(cands, filters)|
    ensures exists j :: 0 <= j < |cands| && Matches(cands[j], filters) && Hits(cands, filters)[i] == ToHit(cands[j])
  {
    var ok := PassFlags(cands, filters);
    KeptSound(cands, ok, i);
    var j :| 0 <= j < |cands| && ok[j] && Kept(cands, ok)[i] == ToHit(cands[j]);
    assert Matches(cands[j], filters);
  }

  /** Every candidate that passes the filters yields a hit. */
  lemma HitsComplete(cands: seq<Candidate>, filters: seq<Filter>, j: int)
    requires 0 <= j < |cands| && Matches(cands[j], filters)
    ensures ToHit(cands[j]) in Hits(cands, filters)
  {
    KeptComplete(cands, PassFlags(cands, filters), j);
  }

  /** `cands[j]` passes the filters and no earlier passing candidate has its patent. */
  predicate FirstMatch(cands: seq<Candidate>, filters: seq<Filter>, j: int) {
    && 0 <= j < |cands|
    && Matches(cands[j], filters)
    && forall i :: 0 <= i < j && Matches(cands[i], filters) ==> cands[i].pubNumber != cands[j].pubNumber
  }

  /** `cands[j]` is flagged and no earlier flagged candidate has its patent. */
  predicate FirstFlagged(cands: seq<Candidate>, ok: seq<bool>, j: int)
    requires |ok| == |cands|
  {
    && 0 <= j < |cands|
    && ok[j]
    && forall i :: 0 <= i < j && ok[i] ==> cands[i].pubNumber != cands[j].pubNumber
  }

  /** A first flagged candidate in the tail stays one when the head does not share its patent. */
  lemma FirstFlaggedShift(cands: seq<Candidate>, ok: seq<bool>, j: int)
    requires |ok| == |cands| > 0 && FirstFlagged(cands[1..], ok[1..], j)
    requires ok[0] ==> cands[0].pubNumber != cands[j + 1].pubNumber
    ensures FirstFlagged(cands, ok, j + 1)
  {
    assert cands[j + 1] == cands[1..][j] && ok[j + 1] == ok[1..][j];
    forall i | 0 < i < j + 1 && ok[i]
      ensures cands[i].pubNumber != cands[j + 1].pubNumber
    {
      assert cands[i] == cands[1..][i - 1] && ok[i] == ok[1..][i - 1];
    }
  }

  /** The index of the candidate behind the first hit of a patent: the first flagged
      candidate of that patent. */
  function SourceOfKept(cands: seq<Candidate>, ok: seq<bool>, m: int): (j: int)
    requires |ok| == |cands| && FirstOfId(Kept(cands, ok), PubOf, m)
    ensures FirstFlagged(cands, ok, j) && Kept(cands, ok)[m] == ToHit(cands[j])
  {
    SourceStart(cands, ok, m);
    if ok[0] && m == 0 then 0
    else
      var m1 := if ok[0] then m - 1 else m;
      var j := SourceOfKept(cands[1..], ok[1..], m1);
      SourceLift(cands, ok, m, m1, j);
      j + 1
  }

  /** The first hit is the first candidate when that is flagged; any later first hit of a
      patent is a first hit of its patent among the hits of the remaining candidates. */
  lemma SourceStart(cands: seq<Candidate>, ok: seq<bool>, m: int)
    requires |ok| == |cands| && FirstOfId(Kept(cands, ok), PubOf, m)
    ensures |cands| > 0
    ensures ok[0] && m == 0 ==> FirstFlagged(cands, ok, 0) && Kept(cands, ok)[m] == ToHit(cands[0])
    ensures ok[0] && m > 0 ==> FirstOfId(Kept(cands[1..], ok[1..]), PubOf, m - 1)
    ensures !ok[0] ==> FirstOfId(Kept(cands[1..], ok[1..]), PubOf, m)
  {
    var hs, rest := Kept(cands, ok), Kept(cands[1..], ok[1..]);
    if ok[0] {
      assert hs == [ToHit(cands[0])] + rest;
      if m > 0 {
        assert rest[m - 1] == hs[m];
        forall i | 0 <= i < m - 1 ensures PubOf(rest[i]) != PubOf(rest[m - 1]) {
          assert rest[i] == hs[i + 1];
        }
        assert FirstOfId(rest, PubOf, m - 1);
      }
    } else {
      assert hs == rest;
      assert FirstOfId(rest, PubOf, m);
    }
  }

  /** The source found among the remaining candidates, shifted by one, is the source of
      the hit. */
  lemma SourceLift(cands: seq<Candidate>, ok: seq<bool>, m: int, m1: int, j: int)
    requires |ok| == |cands| > 0 && FirstOfId(Kept(cands, ok), PubOf, m)
    requires if ok[0] then m > 0 && m1 == m - 1 else m1 == m
    requires 0 <= m1 < |Kept(cands[1..], ok[1..])|
    requires FirstFlagged(cands[1..], ok[1..], j) && Kept(cands[1..], ok[1..])[m1] == ToHit(cands[1..][j])
    ensures FirstFlagged(cands, ok, j + 1) && Kept(cands, ok)[m] == ToHit(cands[j + 1])
  {
    var hs, rest := Kept(cands, ok), Kept(cands[1..], ok[1..]);
    if ok[0] {
      assert hs == [ToHit(cands[0])] + rest;
      assert hs[m] == rest[m1];
      assert PubOf(hs[0]) != PubOf(hs[m]);
    } else {
      assert hs == rest;
    }
    FirstFlaggedShift(cands, ok, j);
  }

  /** The index of the candidate behind the first hit of a patent: the first passing
      candidate of that patent. */
  function SourceOfHit(cands: seq<Candidate>, filters: seq<Filter>, m: int): (j: int)
    requires FirstOfId(Hits(cands, filters), PubOf, m)
    ensures FirstMatch(cands, filters, j) && Hits(cands, filters)[m] == ToHit(cands[j])
  {
    var ok := PassFlags(cands, filters);
    var j := SourceOfKept(cands, ok, m);
    assert FirstFlagged(cands, ok, j);
    j
  }

  // ---------------------------------------------------------------------------
  // Re-ranking
  // ---------------------------------------------------------------------------

  /** Position of the last occurrence of `col` in `order`. */
  function LastIndex(order: seq<string>, col: string): (r: nat)
    requires col in order
    ensures r < |order| && order[r] == col
    ensures forall i :: r < i < |order| ==> order[i] != col
  {
    if order[|order| - 1] == col then |order| - 1 else LastIndex(order[..|order| - 1], col)
  }

  /** The priority weight of a column: `len(order) - i`, where a repeated column keeps
      the weight of its last position. */
  function ColumnWeight(order: seq<string>, col: string): (w: int)
    requires col in order
    ensures exists i :: 0 <= i < |order| && order[i] == col && w == |order| - i &&
                        forall j :: i < j < |order| ==> order[j] != col
    ensures 1 <= w <= |order|
  {
    |order| - LastIndex(order, col)
  }

  /** The cell of `col`, lower-cased, is non-empty and contains one of the query words. */
  predicate CellHit(row: Row, col: string, words: seq<string>) {
    var cell := Lower(Show(Get(row, col)));
    |cell| > 0 && exists t | t in words :: Contains(cell, t)
  }

  /** The bonus loop over the columns `cols`, weighed by their place in `order`. */
  function BonusOver(order: seq<string>, cols: seq<string>, words: seq<string>, row: Row): (b: int)
    requires forall i :: 0 <= i < |cols| ==> cols[i] in order
    ensures 0 <= b <= |cols| * |order|
    ensures (forall i :: 0 <= i < |cols| ==> !CellHit(row, cols[i], words)) ==> b == 0
    ensures (forall i :: 0 <= i < |cols| ==> CellHit(row, cols[i], words)) ==> b >= |cols|
  {
    if |cols| == 0 then 0
    else
      var rest := BonusOver(order, cols[1..], words, row);
      assert forall i :: 1 <= i < |cols| ==> cols[1..][i - 1] == cols[i];
      assert |cols| * |order| == (|cols| - 1) * |order| + |order|;
      (if CellHit(row, cols[0], words) then ColumnWeight(order, cols[0]) else 0) + rest
  }

  /** The bonus loop adds, per listed column whose cell holds a query word, that
      column's weight. */
  lemma {:induction false} BonusOverSnoc(order: seq<string>, cols: seq<string>, c: string, words: seq<string>, row: Row)
    requires forall i :: 0 <= i < |cols| ==> cols[i] in order
    requires c in order
    ensures BonusOver(order, cols + [c], words, row) ==
              BonusOver(order, cols, words, row) + (if CellHit(row, c, words) then ColumnWeight(order, c) else 0)
  {
    var cs := cols + [c];
    if |cols| == 0 {
      assert cs == [c] && cs[1..] == [];
    } else {
      assert cs[0] == cols[0] && cs[1..] == cols[1..] + [c];
      BonusOverSnoc(order, cols[1..], c, words, row);
    }
  }

  /** The re-rank bonus of a row for `query` under the column priority `order`. */
  function Bonus(order: seq<string>, query: string, row: Row): (b: int)
    ensures 0 <= b <= |order| * |order|
    ensures |Words(Lower(query))| == 0 ==> b == 0
  {
    BonusOver(order, order, Words(Lower(query)), row)
  }

  /** `-vec_score + bonus`, the key sorted in descending order. */
  function ScoreKey(order: seq<string>, query: string): Hit -> real {
    (h: Hit) => -h.vecScore + Bonus(order, query, h.row) as real
  }

  /** Ascending distance, written as descending negated distance. */
  function Closeness(h: Hit): real { -h.vecScore }

  /** The sort key: the re-rank score under a column priority, the distance without one. */
  function RankKey(order: seq<string>, query: string): Hit -> real {
    if |order| > 0 then ScoreKey(order, query) else Closeness
  }

  /** The de-duplicated hits, re-ranked. */
  function Ranked(cands: seq<Candidate>, query: string, filters: seq<Filter>, order: seq<string>): (r: seq<Hit>)
    ensures multiset(r) == multiset(Dedupe(Hits(cands, filters), PubOf))
    ensures DistinctIds(r, PubOf)
    ensures |order| > 0 ==> SortedDesc(r, ScoreKey(order, query))
    ensures |order| == 0 ==> forall i, j :: 0 <= i < j < |r| ==> r[i].vecScore <= r[j].vecScore
    ensures var u, key := Dedupe(Hits(cands, filters), PubOf), RankKey(order, query);
            forall k :: WithKey(r, key, k) == WithKey(u, key, k)
  {
    var u := Dedupe(Hits(cands, filters), PubOf);
    var r := SortDesc(u, RankKey(order, query));
    SortDescStable(u, RankKey(order, query));
    PermutationKeepsDistinctIds(u, r, PubOf);
    if |order| == 0 then
      ClosestFirst(r);
      r
    else r
  }

  /** Descending negated distance is ascending distance. */
  lemma ClosestFirst(r: seq<Hit>)
    requires SortedDesc(r, Closeness)
    ensures forall i, j :: 0 <= i < j < |r| ==> r[i].vecScore <= r[j].vecScore
  {
    forall i, j | 0 <= i < j < |r| ensures r[i].vecScore <= r[j].vecScore {
      assert Closeness(r[i]) >= Closeness(r[j]);
    }
  }

  /** A query without words earns no bonus, so a column priority ranks by distance alone. */
  lemma WordlessQueryRanksByDistance(cands: seq<Candidate>, query: string, filters: seq<Filter>, order: seq<string>)
    requires |Words(Lower(query))| == 0
    ensures var r := Ranked(cands, query, filters, order);
            forall i, j :: 0 <= i < j < |r| ==> r[i].vecScore <= r[j].vecScore
  {
    var r := Ranked(cands, query, filters, order);
    if |order| > 0 {
      forall i, j | 0 <= i < j < |r| ensures r[i].vecScore <= r[j].vecScore {
        assert ScoreKey(order, query)(r[i]) >= ScoreKey(order, query)(r[j]);
        assert Bonus(order, query, r[i].row) == 0 && Bonus(order, query, r[j].row) == 0;
      }
    }
  }

  /** A column listed twice weighs by its later position but is counted at both. */
  lemma RepeatedColumnWeighsByLastPosition(row: Row, words: seq<string>)
    requires CellHit(row, "a", words) && !CellHit(row, "b", words)
    ensures ColumnWeight(["a", "b", "a"], "a") == 1
    ensures BonusOver(["a", "b", "a"], ["a", "b", "a"], words, row) == 2
  {
    var order := ["a", "b", "a"];
    assert LastIndex(order, "a") == 2;
    assert order[1..] == ["b", "a"] && order[1..][1..] == ["a"] && order[1..][1..][1..] == [];
    assert BonusOver(order, ["a"], words, row) == 1;
    assert BonusOver(order, ["b", "a"], words, row) == 1;
  }

  /** `search(query, max_passages, filters, column_order, top_k_return)` over the
      candidates the vector index returned: the first `topK` ranked hits, projected to
      number, title and text. */
  function Search(cands: seq<Candidate>, query: string, filters: seq<Filter>, order: seq<string>, topK: int)
    : (r: seq<Passage>)
    ensures |r| <= |cands|
    ensures topK >= 0 ==> |r| <= topK
    ensures |r| <= |Ranked(cands, query, filters, order)|
    ensures forall i :: 0 <= i < |r| ==> r[i] == Project(Ranked(cands, query, filters, order)[i])
    ensures DistinctIds(r, PassagePub)
  {
    var ranked := Ranked(cands, query, filters, order);
    RankedLength(cands, query, filters, order);
    ProjectAll(Head(ranked, topK))
  }

  /** Each hit cut down to number, title and text. */
  function ProjectAll(hs: seq<Hit>): (r: seq<Passage>)
    ensures |r| == |hs|
    ensures forall i :: 0 <= i < |r| ==> r[i] == Project(hs[i])
    ensures DistinctIds(hs, PubOf) ==> DistinctIds(r, PassagePub)
  {
    seq(|hs|, i requires 0 <= i < |hs| => Project(hs[i]))
  }

  /** There are no more ranked hits than candidates. */
  lemma RankedLength(cands: seq<Candidate>, query: string, filters: seq<Filter>, order: seq<string>)
    ensures |Ranked(cands, query, filters, order)| <= |cands|
  {
    var hs := Hits(cands, filters);
    var u := Dedupe(hs, PubOf);
    var ranked := Ranked(cands, query, filters, order);
    assert |ranked| == |u| by { assert |multiset(ranked)| == |multiset(u)|; }
    SubseqLength(u, hs);
  }

  /** Every passage is the first passing chunk of its patent. */
  lemma SearchSources(cands: seq<Candidate>, query: string, filters: seq<Filter>, order: seq<string>, topK: int, i: int)
    requires 0 <= i < |Search(cands, query, filters, order, topK)|
    ensures exists j :: FirstMatch(cands, filters, j) &&
                        Search(cands, query, filters, order, topK)[i] == Project(ToHit(cands[j]))
  {
    var ranked := Ranked(cands, query, filters, order);
    var hs := Hits(cands, filters);
    var u := Dedupe(hs, PubOf);
    assert ranked[i] in multiset(u);
    RankedFromFirstMatch(cands, filters, hs, u, ranked[i]);
  }

  /** Every patent with a passing chunk is ranked. */
  lemma RankedHasPatent(cands: seq<Candidate>, query: string, filters: seq<Filter>, order: seq<string>, j: int)
    requires 0 <= j < |cands| && Matches(cands[j], filters)
    ensures HasId(Ranked(cands, query, filters, order), PubOf, cands[j].pubNumber)
  {
    var u := Dedupe(Hits(cands, filters), PubOf);
    KeptHasPatent(cands, filters, j);
    PermutationKeepsId(u, Ranked(cands, query, filters, order), PubOf, cands[j].pubNumber);
  }

  /** Every patent with a passing chunk survives de-duplication. */
  lemma KeptHasPatent(cands: seq<Candidate>, filters: seq<Filter>, j: int)
    requires 0 <= j < |cands| && Matches(cands[j], filters)
    ensures HasId(Dedupe(Hits(cands, filters), PubOf), PubOf, cands[j].pubNumber)
  {
    var hs := Hits(cands, filters);
    HitsComplete(cands, filters, j);
    var a :| 0 <= a < |hs| && hs[a] == ToHit(cands[j]);
    assert PubOf(hs[a]) == cands[j].pubNumber;
  }

  /** A patent with a passing chunk is missing from the answer only when the answer
      already holds `topK` passages. */
  lemma SearchComplete(cands: seq<Candidate>, query: string, filters: seq<Filter>, order: seq<string>, topK: int, j: int)
    requires 0 <= j < |cands| && Matches(cands[j], filters) && topK >= 0
    requires !HasId(Search(cands, query, filters, order, topK), PassagePub, cands[j].pubNumber)
    ensures |Search(cands, query, filters, order, topK)| == topK
  {
    var r := Search(cands, query, filters, order, topK);
    var ranked := Ranked(cands, query, filters, order);
    RankedHasPatent(cands, query, filters, order, j);
    var c :| 0 <= c < |ranked| && PubOf(ranked[c]) == cands[j].pubNumber;
    assert PassagePub(Project(ranked[c])) == cands[j].pubNumber;
    assert |r| <= c;
  }

  /** A kept hit is the first passing chunk of its patent. */
  lemma RankedFromFirstMatch(cands: seq<Candidate>, filters: seq<Filter>, hs: seq<Hit>, u: seq<Hit>, h: Hit)
    requires hs == Hits(cands, filters) && u == Dedupe(hs, PubOf)
    requires h in multiset(u)
    ensures exists j :: FirstMatch(cands, filters, j) && h == ToHit(cands[j])
  {
    var k :| 0 <= k < |u| && u[k] == h;
    var m :| FirstOfId(hs, PubOf, m) && hs[m] == u[k];
    var j := SourceOfHit(cands, filters, m);
  }
}
