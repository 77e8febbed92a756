/** The orchestrator's building blocks: the bounded chat history, the multi-turn filter
    state and its merge rules, the table filter, the token-budgeted context packing,
    the ordinal day suffix, and the patent-number scanners. */
module PipelineSteps {
  import opened Wrappers
  import opened Strings
  import opened Seqs
  import opened Values
  import opened FilterOps
  import opened Retrieval
  import opened QueryRewrite
  import opened Llm

  const MaxCtxTokens: nat := 60000
  const PromptOverhead: nat := 2000

  /** The token budget for the packed passages: the context limit less the prompt's share. */
  const ContextBudget: nat := MaxCtxTokens - PromptOverhead

  // ---------------------------------------------------------------------------
  // The bounded history

  /** `deque(maxlen=cap)` holding `h`, after `extend(msgs)`: the newest `cap` messages. */
  function Extend(h: seq<Message>, cap: nat, msgs: seq<Message>): (r: seq<Message>)
    ensures |r| == if |h| + |msgs| <= cap then |h| + |msgs| else cap
    ensures r == (h + msgs)[|h| + |msgs| - |r|..]
  {
    var all := h + msgs;
    if |all| <= cap then all else all[|all| - cap..]
  }

  /** Extending twice is extending once with both batches: the deque only ever drops
      its oldest messages. */
  lemma ExtendTwice(h: seq<Message>, cap: nat, a: seq<Message>, b: seq<Message>)
    ensures Extend(Extend(h, cap, a), cap, b) == Extend(h, cap, a + b)
  {
    var once := Extend(h, cap, a);
    var all := h + a + b;
    assert h + (a + b) == all;
    assert once + b == all[|h + a| - |once|..];
  }

  /** The batch just added is the newest part of the history when it fits. */
  lemma ExtendKeepsNewest(h: seq<Message>, cap: nat, msgs: seq<Message>)
    requires |msgs| <= cap
    ensures var r := Extend(h, cap, msgs);
            |r| >= |msgs| && r[|r| - |msgs|..] == msgs
  {
    var r := Extend(h, cap, msgs);
    assert r[|r| - |msgs|..] == (h + msgs)[|h|..];
  }

  /** The orchestrator's state between turns. `capacity` is the deque's `maxlen`. */
  datatype State = State(history: seq<Message>, capacity: nat, lastFilters: seq<Filter>,
                         lastAggregation: Option<Aggregation>, lastCtxTokens: nat)

  /** `RAGPipeline(retriever, max_history)`: an empty history holding twice
      `maxHistory` messages, no remembered filters or aggregation. */
  function Init(maxHistory: nat): (s: State)
    ensures s.capacity == 2 * maxHistory
    ensures |s.history| <= s.capacity
    ensures s.history == [] && s.lastFilters == [] && s.lastAggregation.None? && s.lastCtxTokens == 0
  {
    State([], 2 * maxHistory, [], None, 0)
  }

  /** The history holds no more than its capacity. */
  predicate Bounded(s: State) {
    |s.history| <= s.capacity
  }

  /** The user's message and the answer, appended to the history. */
  function Remember(s: State, userMsg: string, answer: string): (r: State)
    ensures Bounded(r)
    ensures r.capacity == s.capacity && r.lastFilters == s.lastFilters
    ensures r.lastAggregation == s.lastAggregation && r.lastCtxTokens == s.lastCtxTokens
  {
    s.(history := Extend(s.history, s.capacity, [Message(User, userMsg), Message(Assistant, answer)]))
  }

  /** With room for an exchange, the last two messages are the question, then the answer,
      and the oldest messages are the ones dropped. */
  lemma RememberAppendsExchange(s: State, userMsg: string, answer: string)
    requires s.capacity >= 2
    ensures var h := Remember(s, userMsg, answer).history;
            && |h| >= 2
            && h[|h| - 2] == Message(User, userMsg) && h[|h| - 1] == Message(Assistant, answer)
            && h[..|h| - 2] == s.history[|s.history| + 2 - |h|..]
  {
    var msgs := [Message(User, userMsg), Message(Assistant, answer)];
    ExtendKeepsNewest(s.history, s.capacity, msgs);
    var h := Remember(s, userMsg, answer).history;
    assert h[|h| - 2..] == msgs;
    assert h[..|h| - 2] == (s.history + msgs)[|s.history| + 2 - |h|..|s.history|];
  }

  // ---------------------------------------------------------------------------
  // Filters carried between turns

  /** The phrase that makes a turn inherit the previous turn's filters. */
  const CategoryCue := "this category"

  /** The working filters and aggregation a turn starts from. */
  function Inherited(s: State, userMsg: string): (r: (seq<Filter>, Option<Aggregation>))
    ensures Contains(Lower(userMsg), CategoryCue) ==> r == (s.lastFilters, s.lastAggregation)
    ensures !Contains(Lower(userMsg), CategoryCue) ==> r == ([], None)
  {
    if Contains(Lower(userMsg), CategoryCue) then (s.lastFilters, s.lastAggregation) else ([], None)
  }

  predicate NoDuplicates<T(==)>(s: seq<T>) {
    forall i, j :: 0 <= i < j < |s| ==> s[i] != s[j]
  }

  /** The rewriter's filters appended to the inherited ones, each only if not already there. */
  function MergeFilters(fs: seq<Filter>, extra: seq<Filter>): (r: seq<Filter>)
    ensures |fs| <= |r| && r[..|fs|] == fs
    ensures forall i :: 0 <= i < |extra| ==> extra[i] in r
    ensures forall i :: 0 <= i < |r| ==> r[i] in fs || r[i] in extra
    ensures NoDuplicates(fs) ==> NoDuplicates(r)
    decreases |extra|
  {
    if |extra| == 0 then fs
    else
      var next := if extra[0] in fs then fs else fs + [extra[0]];
      var r := MergeFilters(next, extra[1..]);
      assert forall i :: 1 <= i < |extra| ==> extra[i] == extra[1..][i - 1];
      assert r[..|fs|] == fs by {
        assert next[..|fs|] == fs;
        assert r[..|next|][..|fs|] == r[..|fs|];
      }
      assert extra[0] in r by {
        assert extra[0] in next;
        assert r[..|next|] == next;
      }
      r
  }

  /** Filters already present add nothing. */
  lemma {:induction false} MergeKnownFilters(fs: seq<Filter>, extra: seq<Filter>)
    requires forall i :: 0 <= i < |extra| ==> extra[i] in fs
    ensures MergeFilters(fs, extra) == fs
    decreases |extra|
  {
    if |extra| > 0 {
      assert forall i :: 1 <= i < |extra| ==> extra[i] == extra[1..][i - 1];
      MergeKnownFilters(fs, extra[1..]);
    }
  }

  const SdgColumn := "sdg_number"

  predicate HasColumnFilter(fs: seq<Filter>, col: string) {
    exists i :: 0 <= i < |fs| && fs[i].column == col
  }

  /** The goal filter a message naming `sdg N` forces, placed first unless some filter
      already targets the goal column. */
  function InsertSdg(fs: seq<Filter>, n: Option<nat>): (r: seq<Filter>)
    ensures n.Some? && !HasColumnFilter(fs, SdgColumn) ==> r == [Filter(SdgColumn, "eq", Num(n.value))] + fs
    ensures n.None? || HasColumnFilter(fs, SdgColumn) ==> r == fs
    ensures HasColumnFilter(r, SdgColumn) <==> n.Some? || HasColumnFilter(fs, SdgColumn)
  {
    if n.Some? && !HasColumnFilter(fs, SdgColumn) then
      var r := [Filter(SdgColumn, "eq", Num(n.value))] + fs;
      assert r[0].column == SdgColumn;
      r
    else fs
  }

  /** Forcing the goal filter a second time changes nothing. */
  lemma InsertSdgIdempotent(fs: seq<Filter>, n: Option<nat>)
    ensures InsertSdg(InsertSdg(fs, n), n) == InsertSdg(fs, n)
  {
  }

  /** A column filter survives the merge exactly when it was on either side. */
  lemma MergeHasColumn(fs: seq<Filter>, extra: seq<Filter>, col: string)
    ensures HasColumnFilter(MergeFilters(fs, extra), col) <==> HasColumnFilter(fs, col) || HasColumnFilter(extra, col)
  {
    if HasColumnFilter(fs, col) || HasColumnFilter(extra, col) {
      MergeKeepsColumn(fs, extra, col);
    }
    if HasColumnFilter(MergeFilters(fs, extra), col) {
      MergeAddsNoColumn(fs, extra, col);
    }
  }

  /** A column filter on either side survives the merge. */
  lemma MergeKeepsColumn(fs: seq<Filter>, extra: seq<Filter>, col: string)
    requires HasColumnFilter(fs, col) || HasColumnFilter(extra, col)
    ensures HasColumnFilter(MergeFilters(fs, extra), col)
  {
    var r := MergeFilters(fs, extra);
    if HasColumnFilter(fs, col) {
      var i :| 0 <= i < |fs| && fs[i].column == col;
      assert r[i] == r[..|fs|][i];
    } else {
      var i :| 0 <= i < |extra| && extra[i].column == col;
      assert extra[i] in r;
      var j :| 0 <= j < |r| && r[j] == extra[i];
      assert r[j].column == col;
    }
  }

  /** The merge brings in no column that neither side had. */
  lemma MergeAddsNoColumn(fs: seq<Filter>, extra: seq<Filter>, col: string)
    requires HasColumnFilter(MergeFilters(fs, extra), col)
    ensures HasColumnFilter(fs, col) || HasColumnFilter(extra, col)
  {
    var r := MergeFilters(fs, extra);
    var j :| 0 <= j < |r| && r[j].column == col;
    if r[j] in fs {
      var i :| 0 <= i < |fs| && fs[i] == r[j];
    } else {
      var i :| 0 <= i < |extra| && extra[i] == r[j];
    }
  }

  /** The working filters of a turn: everything carried over and everything the rewriter
      added, nothing else except the forced goal filter, which is there exactly when a
      goal was named or some filter already targets the goal column. */
  lemma GoalMerge(fs: seq<Filter>, extra: seq<Filter>, n: Option<nat>)
    ensures var r := InsertSdg(MergeFilters(fs, extra), n);
            && (forall i :: 0 <= i < |fs| ==> fs[i] in r)
            && (forall i :: 0 <= i < |extra| ==> extra[i] in r)
            && (forall i :: 0 <= i < |r| ==>
                  r[i] in fs || r[i] in extra || (n.Some? && r[i] == Filter(SdgColumn, "eq", Num(n.value))))
            && (HasColumnFilter(r, SdgColumn) <==>
                  n.Some? || HasColumnFilter(fs, SdgColumn) || HasColumnFilter(extra, SdgColumn))
  {
    var merged := MergeFilters(fs, extra);
    var r := InsertSdg(merged, n);
    forall i | 0 <= i < |fs| ensures fs[i] in merged {
      assert merged[i] == merged[..|fs|][i];
    }
    assert forall f :: f in merged ==> f in r;
    MergeHasColumn(fs, extra, SdgColumn);
  }

  // ---------------------------------------------------------------------------
  // Filtering the table

  /** `apply_filter(row.get(col, ""), op, value)` */
  function Verdict(row: Row, f: Filter): Option<bool> {
    ApplyFilter(Get(row, f.column), f.op, f.value)
  }

  /** Every filter gives the row a boolean answer (none of them `None`). */
  predicate Decided(row: Row, filters: seq<Filter>) {
    forall j :: 0 <= j < |filters| ==> Verdict(row, filters[j]).Some?
  }

  /** Every filter answers `True` for the row. */
  predicate PassesAll(row: Row, filters: seq<Filter>) {
    forall j :: 0 <= j < |filters| ==> Verdict(row, filters[j]) == Some(true)
  }

  /** `_filter_df(df, filters)`. The mask is built with `ok &= apply_filter(...)`, which
      raises `TypeError` as soon as a filter answers `None`; that is `None` here. */
  function FilterDf(rows: seq<Row>, filters: seq<Filter>): (r: Option<seq<Row>>)
    ensures |filters| == 0 ==> r == Some(rows)
    ensures r.None? <==> exists i :: 0 <= i < |rows| && !Decided(rows[i], filters)
    ensures r.Some? ==> Subseq(r.value, rows)
    ensures r.Some? ==> forall i :: 0 <= i < |r.value| ==> PassesAll(r.value[i], filters)
    ensures r.Some? ==> forall i :: 0 <= i < |rows| && PassesAll(rows[i], filters) ==> rows[i] in r.value
    ensures r.Some? ==> forall i :: 0 <= i < |rows| && PassesAll(rows[i], filters) ==>
                          multiset(r.value)[rows[i]] == multiset(rows)[rows[i]]
  {
    if |filters| == 0 then
      SubseqRefl(rows);
      Some(rows)
    else if forall i :: 0 <= i < |rows| ==> Decided(rows[i], filters) then
      KeepCountsAt(rows, Passing(filters));
      Some(Keep(rows, Passing(filters)))
    else None
  }

  /** The mask test of `_filter_df`. */
  function Passing(filters: seq<Filter>): Row -> bool {
    (row: Row) => PassesAll(row, filters)
  }

  // ---------------------------------------------------------------------------
  // Packing passages into the context budget

  /** The token cost of a passage: the tokens of its text. */
  function TextCost(tok: TokenCounter): Passage -> nat {
    (p: Passage) => tok(p.text)
  }

  /** The packing loop from the current passage on, with the numbers `seen` and `total`
      tokens already taken: skip a repeated patent, stop at the first passage that does
      not fit. */
  function PackFrom(ps: seq<Passage>, tok: TokenCounter, seen: set<string>, total: nat): seq<Passage>
    decreases |ps|
  {
    if |ps| == 0 then []
    else if ps[0].pubNumber in seen then PackFrom(ps[1..], tok, seen, total)
    else if total + tok(ps[0].text) > ContextBudget then []
    else [ps[0]] + PackFrom(ps[1..], tok, seen + {ps[0].pubNumber}, total + tok(ps[0].text))
  }

  /** Where the packing loop stops: the index of the passage that did not fit, or the
      number of passages. */
  function PackStop(ps: seq<Passage>, tok: TokenCounter, seen: set<string>, total: nat): nat
    decreases |ps|
  {
    if |ps| == 0 then 0
    else if ps[0].pubNumber in seen then 1 + PackStop(ps[1..], tok, seen, total)
    else if total + tok(ps[0].text) > ContextBudget then 0
    else 1 + PackStop(ps[1..], tok, seen + {ps[0].pubNumber}, total + tok(ps[0].text))
  }

  /** What the packing loop from `ps` on achieves: it keeps the first passage of each new
      patent up to its stop, stays in budget, and stops only at a new patent whose text
      would overflow it. */
  predicate PackFacts(ps: seq<Passage>, tok: TokenCounter, seen: set<string>, total: nat) {
    var r, c := PackFrom(ps, tok, seen, total), PackStop(ps, tok, seen, total);
    && c <= |ps|
    && r == DedupeFrom(ps[..c], PassagePub, seen)
    && total + SumOf(r, TextCost(tok)) <= ContextBudget
    && (c < |ps| ==> ps[c].pubNumber !in seen && !HasId(r, PassagePub, ps[c].pubNumber)
                     && total + SumOf(r, TextCost(tok)) + tok(ps[c].text) > ContextBudget)
  }

  /** The packing loop, from any state within budget, keeps what `PackFacts` says. */
  lemma {:induction false} PackFromFacts(ps: seq<Passage>, tok: TokenCounter, seen: set<string>, total: nat)
    requires total <= ContextBudget
    ensures PackFacts(ps, tok, seen, total)
    decreases |ps|
  {
    if |ps| == 0 {
      assert ps[..0] == [];
    } else if ps[0].pubNumber in seen {
      PackFromFacts(ps[1..], tok, seen, total);
      PackSkipStep(ps, tok, seen, total);
    } else if total + tok(ps[0].text) > ContextBudget {
      assert PackStop(ps, tok, seen, total) == 0 && ps[..0] == [];
    } else {
      PackFromFacts(ps[1..], tok, seen + {ps[0].pubNumber}, total + tok(ps[0].text));
      PackKeepStep(ps, tok, seen, total);
    }
  }

  /** A passage of a patent already taken is skipped. */
  lemma PackSkipStep(ps: seq<Passage>, tok: TokenCounter, seen: set<string>, total: nat)
    requires |ps| > 0 && ps[0].pubNumber in seen && total <= ContextBudget
    requires PackFacts(ps[1..], tok, seen, total)
    ensures PackFacts(ps, tok, seen, total)
  {
    var c := PackStop(ps, tok, seen, total);
    assert ps[..c][1..] == ps[1..][..c - 1];
    assert ps[..c][0] == ps[0];
    if c < |ps| {
      assert ps[c] == ps[1..][c - 1];
    }
  }

  /** A passage of a new patent that fits is taken. */
  lemma PackKeepStep(ps: seq<Passage>, tok: TokenCounter, seen: set<string>, total: nat)
    requires |ps| > 0 && ps[0].pubNumber !in seen && total + tok(ps[0].text) <= ContextBudget
    requires PackFacts(ps[1..], tok, seen + {ps[0].pubNumber}, total + tok(ps[0].text))
    ensures PackFacts(ps, tok, seen, total)
  {
    var p := ps[0];
    var seen', total' := seen + {p.pubNumber}, total + tok(p.text);
    var c := PackStop(ps, tok, seen, total);
    var rest := PackFrom(ps[1..], tok, seen', total');
    var r := PackFrom(ps, tok, seen, total);
    assert c == 1 + PackStop(ps[1..], tok, seen', total');
    assert r == [p] + rest;
    assert ps[..c][1..] == ps[1..][..c - 1];
    assert ps[..c][0] == p;
    assert r == DedupeFrom(ps[..c], PassagePub, seen);
    assert r[1..] == rest;
    assert SumOf(r, TextCost(tok)) == tok(p.text) + SumOf(rest, TextCost(tok));
    if c < |ps| {
      assert ps[c] == ps[1..][c - 1];
      assert !HasId(r, PassagePub, ps[c].pubNumber) by {
        forall i | 0 <= i < |r| ensures PassagePub(r[i]) != ps[c].pubNumber {
          if i > 0 {
            assert r[i] == rest[i - 1];
          }
        }
      }
    }
  }

  /** The packed context: the passages, one per patent, in order, within the budget. */
  function PackContext(ps: seq<Passage>, tok: TokenCounter): (r: seq<Passage>)
    ensures DistinctIds(r, PassagePub)
    ensures Subseq(r, ps)
    ensures SumOf(r, TextCost(tok)) <= ContextBudget
  {
    var r := PackFrom(ps, tok, {}, 0);
    PackFromFacts(ps, tok, {}, 0);
    var c := PackStop(ps, tok, {}, 0);
    SubseqOfPrefix(r, ps, c);
    r
  }

  /** The packed context is the de-duplicated run of passages up to the stop; the stop is
      either the end or a new patent whose text would break the budget. */
  lemma PackContextStops(ps: seq<Passage>, tok: TokenCounter)
    ensures var r, c := PackContext(ps, tok), PackStop(ps, tok, {}, 0);
            && c <= |ps|
            && r == Dedupe(ps[..c], PassagePub)
            && (c < |ps| ==> !HasId(r, PassagePub, ps[c].pubNumber)
                             && SumOf(r, TextCost(tok)) + tok(ps[c].text) > ContextBudget)
  {
    PackFromFacts(ps, tok, {}, 0);
  }

  /** A context line: the patent number in brackets, the quoted title, the mark the
      summariser splits at, then the passage text. */
  function ContextLine(p: Passage): string {
    "[" + p.pubNumber + "] \"" + p.title + "\" || " + p.text
  }

  /** The packed passages' patent numbers, in order. */
  function PubNumbers(ctx: seq<Passage>): (r: seq<string>)
    ensures |r| == |ctx| && forall i :: 0 <= i < |ctx| ==> r[i] == ctx[i].pubNumber
  {
    seq(|ctx|, i requires 0 <= i < |ctx| => ctx[i].pubNumber)
  }

  /** The patent numbers the answer may cite, or `NONE` when the joined list is empty.
      Every packed number occurs in it; `AllowedIdsSnoc` gives how it grows. */
  function AllowedIds(ctx: seq<Passage>): (r: string)
    ensures |ctx| == 0 ==> r == "NONE"
    ensures |ctx| == 1 ==> r == (if |ctx[0].pubNumber| == 0 then "NONE" else ctx[0].pubNumber)
    ensures |r| > 0
    ensures forall i :: 0 <= i < |ctx| ==> Contains(r, ctx[i].pubNumber)
  {
    var joined := Join(", ", PubNumbers(ctx));
    JoinContainsAll(", ", PubNumbers(ctx));
    ContainsEmpty("NONE");
    if |joined| == 0 then "NONE" else joined
  }

  /** One more passage appends `, ` and its number, once the list is not empty text. */
  lemma AllowedIdsSnoc(ctx: seq<Passage>, p: Passage)
    requires |ctx| > 1 || (|ctx| == 1 && |ctx[0].pubNumber| > 0)
    ensures AllowedIds(ctx + [p]) == AllowedIds(ctx) + ", " + p.pubNumber
  {
    assert PubNumbers(ctx + [p]) == PubNumbers(ctx) + [p.pubNumber];
    JoinSnoc(", ", PubNumbers(ctx), p.pubNumber);
  }

  // ---------------------------------------------------------------------------
  // Dates in answers

  /** The English ordinal suffix of a day number. Python's `%` and Dafny's agree here,
      the divisors being positive. */
  function OrdinalSuffix(n: int): string {
    if 10 <= n % 100 <= 20 then "th"
    else if n % 10 == 1 then "st"
    else if n % 10 == 2 then "nd"
    else if n % 10 == 3 then "rd"
    else "th"
  }

  /** `ordn(n)`: the number followed by its suffix. */
  function Ordn(n: int): string {
    IntToString(n) + OrdinalSuffix(n)
  }

  /** The last digit of `n` is the last digit of its last two digits. */
  lemma LastDigitOfLastTwo(n: int)
    ensures (n % 100) % 10 == n % 10
  {
    var q, m := n / 100, n % 100;
    assert n == 100 * q + m;
    assert n == 10 * (10 * q) + m;
  }

  /** The English rule: "st", "nd" and "rd" after a last digit of 1, 2 or 3 unless the
      number ends in 11, 12 or 13; "th" otherwise. */
  lemma OrdinalSuffixRule(n: int)
    ensures OrdinalSuffix(n) == "st" <==> n % 10 == 1 && n % 100 != 11
    ensures OrdinalSuffix(n) == "nd" <==> n % 10 == 2 && n % 100 != 12
    ensures OrdinalSuffix(n) == "rd" <==> n % 10 == 3 && n % 100 != 13
    ensures OrdinalSuffix(n) == "th" <==> !(n % 10 in {1, 2, 3}) || n % 100 in {11, 12, 13}
  {
    LastDigitOfLastTwo(n);
  }

  /** A few days of a month, as printed. */
  lemma OrdnExamples()
    ensures Ordn(1) == "1st" && Ordn(2) == "2nd" && Ordn(3) == "3rd" && Ordn(4) == "4th"
  {
  }

  /** Eleven to thirteen take `th`, whatever their last digit. */
  lemma OrdnTeenExamples()
    ensures Ordn(11) == "11th" && Ordn(12) == "12th" && Ordn(13) == "13th"
  {
    assert NatToString(11) == "11" && NatToString(12) == "12" && NatToString(13) == "13";
  }

  /** Past the teens the last digit decides again. */
  lemma OrdnTwentiesExamples()
    ensures Ordn(21) == "21st" && Ordn(22) == "22nd" && Ordn(23) == "23rd" && Ordn(31) == "31st"
  {
    assert NatToString(21) == "21" && NatToString(22) == "22" && NatToString(23) == "23";
    assert NatToString(31) == "31";
  }

  /** English month names, as `%B` prints them in the C locale. */
  const MonthNames: seq<string> := ["January", "February", "March", "April", "May", "June", "July",
                                    "August", "September", "October", "November", "December"]

  function MonthName(m: int): string {
    if 1 <= m <= 12 then MonthNames[m - 1] else ""
  }

  // ---------------------------------------------------------------------------
  // Finding patent numbers in text

  /** The length of the run of ASCII digits starting at `i`. */
  function DigitRun(s: string, i: nat): (n: nat)
    requires i <= |s|
    ensures i + n <= |s|
    ensures forall k :: i <= k < i + n ==> IsDigit(s[k])
    ensures i + n == |s| || !IsDigit(s[i + n])
    decreases |s| - i
  {
    if i == |s| || !IsDigit(s[i]) then 0 else 1 + DigitRun(s, i + 1)
  }

  /** `\((\d+)\)` matches at `i`. */
  predicate ParenAt(s: string, i: nat) {
    i < |s| && s[i] == '(' && DigitRun(s, i + 1) > 0 && i + 1 + DigitRun(s, i + 1) < |s|
    && s[i + 1 + DigitRun(s, i + 1)] == ')'
  }

  /** The leftmost match at or after `i`. */
  function ParenFrom(s: string, i: nat): (r: Option<nat>)
    requires i <= |s|
    ensures r.Some? ==> i <= r.value < |s| && ParenAt(s, r.value)
    ensures r.Some? ==> forall j :: i <= j < r.value ==> !ParenAt(s, j)
    ensures r.None? ==> forall j :: i <= j < |s| ==> !ParenAt(s, j)
    decreases |s| - i
  {
    if i == |s| then None
    else if ParenAt(s, i) then Some(i)
    else ParenFrom(s, i + 1)
  }

  /** `re.search(r"\((\d+)\)", s).group(1)`: the digits of the leftmost parenthesised
      number. */
  function ParenId(s: string): (r: Option<string>)
    ensures r.None? <==> forall j :: 0 <= j < |s| ==> !ParenAt(s, j)
    ensures r.Some? ==> |r.value| > 0 && forall k :: 0 <= k < |r.value| ==> IsDigit(r.value[k])
    ensures r.Some? ==> exists i: nat :: ParenAt(s, i) && (forall j :: 0 <= j < i ==> !ParenAt(s, j)) &&
                                    r.value == s[i + 1..i + 1 + DigitRun(s, i + 1)]
  {
    match ParenFrom(s, 0)
    case None => None
    case Some(i) => Some(s[i + 1..i + 1 + DigitRun(s, i + 1)])
  }

  /** A message the citation lookup considers: the assistant's, with a parenthesis. */
  predicate Cites(m: Message) {
    m.role == Assistant && Contains(m.content, "(")
  }

  /** The index of the newest citing message. */
  function LastCiting(h: seq<Message>): (r: Option<nat>)
    ensures r.Some? ==> r.value < |h| && Cites(h[r.value])
    ensures r.Some? ==> forall j :: r.value < j < |h| ==> !Cites(h[j])
    ensures r.None? ==> forall j :: 0 <= j < |h| ==> !Cites(h[j])
  {
    if |h| == 0 then None
    else if Cites(h[|h| - 1]) then Some(|h| - 1)
    else LastCiting(h[..|h| - 1])
  }

  /** The patent the conversation last cited: the parenthesised number of the newest
      citing answer. Older answers are not searched when that one holds no number. */
  function CitedId(h: seq<Message>): (r: Option<string>)
    ensures r.Some? ==> exists i :: 0 <= i < |h| && Cites(h[i]) && ParenId(h[i].content) == r
    ensures (forall j :: 0 <= j < |h| ==> !Cites(h[j])) ==> r.None?
  {
    match LastCiting(h)
    case None => None
    case Some(i) => ParenId(h[i].content)
  }

  /** Only the newest citing answer is consulted. */
  lemma CitedIdUsesNewest(h: seq<Message>, m: Message)
    requires Cites(m)
    ensures CitedId(h + [m]) == ParenId(m.content)
  {
    assert (h + [m])[|h + [m]| - 1] == m;
  }

  predicate IsUpperOrDigit(c: char) { IsUpper(c) || IsDigit(c) }

  /** The length of the run of capitals and digits starting at `i`. */
  function UpperRun(s: string, i: nat): (n: nat)
    requires i <= |s|
    ensures i + n <= |s|
    ensures forall k :: i <= k < i + n ==> IsUpperOrDigit(s[k])
    ensures i + n == |s| || !IsUpperOrDigit(s[i + n])
    decreases |s| - i
  {
    if i == |s| || !IsUpperOrDigit(s[i]) then 0 else 1 + UpperRun(s, i + 1)
  }

  /** The first index at or after `i` holding a capital or a digit. */
  function FirstUpperFrom(s: string, i: nat): (r: Option<nat>)
    requires i <= |s|
    ensures r.Some? ==> i <= r.value < |s| && IsUpperOrDigit(s[r.value])
    ensures r.Some? ==> forall j :: i <= j < r.value ==> !IsUpperOrDigit(s[j])
    ensures r.None? ==> forall j :: i <= j < |s| ==> !IsUpperOrDigit(s[j])
    decreases |s| - i
  {
    if i == |s| then None
    else if IsUpperOrDigit(s[i]) then Some(i)
    else FirstUpperFrom(s, i + 1)
  }

  /** `re.search(r"([A-Z0-9]+)", s).group(1)`, case-sensitive: the first maximal run of
      capitals and digits. */
  function FirstUpperRun(s: string): (r: Option<string>)
    ensures r.None? <==> forall j :: 0 <= j < |s| ==> !IsUpperOrDigit(s[j])
    ensures r.Some? ==> |r.value| > 0 && forall k :: 0 <= k < |r.value| ==> IsUpperOrDigit(r.value[k])
    ensures r.Some? ==> exists i :: 0 <= i < |s| && (forall j :: 0 <= j < i ==> !IsUpperOrDigit(s[j])) &&
                                    r.value == s[i..i + UpperRun(s, i)] &&
                                    (i + UpperRun(s, i) == |s| || !IsUpperOrDigit(s[i + UpperRun(s, i)]))
  {
    match FirstUpperFrom(s, 0)
    case None => None
    case Some(i) => Some(s[i..i + UpperRun(s, i)])
  }

  /** The parenthesis scan takes the leftmost parenthesised number, skipping a
      parenthesis without digits. */
  lemma ParenIdExample()
    ensures ParenId("(ab) (7)") == Some("7")
  {
    var s := "(ab) (7)";
    assert !ParenAt(s, 0) by { assert DigitRun(s, 1) == 0; }
    assert DigitRun(s, 6) == 1 by { assert DigitRun(s, 7) == 0; }
    assert ParenAt(s, 5);
    assert ParenFrom(s, 5) == Some(5);
    assert ParenFrom(s, 0) == Some(5);
    assert s[6..7] == "7";
  }

  /** The capitals scan takes the first run of capitals and digits. */
  lemma UpperRunExample()
    ensures FirstUpperRun("family of EP12 please") == Some("EP12")
  {
    var t := "family of EP12 please";
    ExampleRunLength();
    ExampleRunStart();
    assert t[10..14] == "EP12";
  }

  lemma ExampleRunLength()
    ensures UpperRun("family of EP12 please", 10) == 4
  {
    assert UpperRun("family of EP12 please", 14) == 0;
  }

  lemma ExampleRunStart()
    ensures FirstUpperFrom("family of EP12 please", 0) == Some(10)
  {
    var t := "family of EP12 please";
    assert IsUpperOrDigit(t[10]);
    assert forall k :: 0 <= k < 10 ==> !IsUpperOrDigit(t[k]);
  }
}
