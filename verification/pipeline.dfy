/** The conversation orchestrator `RAGPipeline.ask`: one turn takes the state and the
    user's message to an answer and the next state, trying the special-case branches
    in a fixed order before falling back to passage retrieval. Every outside service
    is a field of `Env`: the chat model, the token counter, the vector index's
    candidates, the JSON decoder, pandas' date parser, and the regular expressions
    that recognise each kind of question. */
module Pipeline {
  import opened Wrappers
  import opened Strings
  import opened Seqs
  import opened Sorting
  import opened Values
  import opened FilterOps
  import opened StatsEngine
  import opened Retrieval
  import opened Summarise
  import opened QueryRewrite
  import opened Llm
  import opened PipelineSteps

  /** The patent table: its column names and its rows. */
  datatype Table = Table(columns: set<string>, rows: seq<Row>)

  /** The intent patterns, each as what its regular expression extracts from the message. */
  datatype Intents = Intents(
    improve: string -> Option<string>,     // the number after "improve/innovate/build on/extend"
    inventorWord: string -> bool,          // the word "inventor"
    claimsOf: string -> Option<string>,    // the id after "claims of/for"
    priorArtOf: string -> Option<string>,  // the id after "prior art/prior-art/cited by"
    familyWord: string -> bool,            // the word "family" or "parent"
    howFiled: string -> bool,              // "how" ... "filed"
    latest: string -> bool,                // the word "latest" or "recent"
    sdg: string -> Option<nat>)            // the number after "sdg"

  datatype Env = Env(table: Table, candidates: string -> seq<Candidate>, chat: Chat, tok: TokenCounter,
                     decode: string -> Option<Spec>, parseDate: Value -> Option<Date>, intents: Intents)

  /** A turn either answers or raises out of `ask`. */
  datatype Outcome = Answer(text: string) | Raised

  /** Which branch produced the turn; the `...Unknown`/`...Empty` variants are the early
      returns that leave the history alone. */
  datatype Branch =
    | Improve | ImproveUnknown | MetaNew | InventorView | Claims | ClaimsUnknown
    | PriorArt | PriorArtUnknown | Family | FamilyUnknown | Filed | FiledEmpty
    | Latest | Aggregate | AggregateEmpty | Rag | RagEmpty

  predicate EarlyReturn(b: Branch) {
    b.ImproveUnknown? || b.ClaimsUnknown? || b.PriorArtUnknown? || b.FamilyUnknown?
    || b.FiledEmpty? || b.AggregateEmpty? || b.RagEmpty?
  }

  /** The position of a branch in the order `ask` tries them. */
  function Stage(b: Branch): nat {
    match b
    case Improve | ImproveUnknown => 0
    case MetaNew => 1
    case InventorView => 2
    case Claims | ClaimsUnknown => 3
    case PriorArt | PriorArtUnknown => 4
    case Family | FamilyUnknown => 5
    case Filed | FiledEmpty => 6
    case Latest => 7
    case Aggregate | AggregateEmpty => 8
    case Rag | RagEmpty => 9
  }

  /** `Stage` at every branch, and which branches are early returns, as ground facts. */
  lemma StageTable()
    ensures Stage(Improve) == 0 && Stage(ImproveUnknown) == 0 && Stage(MetaNew) == 1 && Stage(InventorView) == 2
    ensures Stage(Claims) == 3 && Stage(ClaimsUnknown) == 3 && Stage(PriorArt) == 4 && Stage(PriorArtUnknown) == 4
    ensures Stage(Family) == 5 && Stage(FamilyUnknown) == 5 && Stage(Filed) == 6 && Stage(FiledEmpty) == 6
    ensures Stage(Latest) == 7 && Stage(Aggregate) == 8 && Stage(AggregateEmpty) == 8
    ensures Stage(Rag) == 9 && Stage(RagEmpty) == 9
    ensures !EarlyReturn(MetaNew) && !EarlyReturn(InventorView) && !EarlyReturn(Claims) && !EarlyReturn(PriorArt)
    ensures !EarlyReturn(Family) && !EarlyReturn(Filed) && !EarlyReturn(Latest) && !EarlyReturn(Aggregate) && !EarlyReturn(Rag)
    ensures EarlyReturn(ClaimsUnknown) && EarlyReturn(PriorArtUnknown) && EarlyReturn(FamilyUnknown)
    ensures EarlyReturn(FiledEmpty) && EarlyReturn(AggregateEmpty) && EarlyReturn(RagEmpty)
  {
  }

  /** The turn's outcome, the next state, and every chat request made, in order. */
  datatype Turn = Turn(outcome: Outcome, state: State, calls: seq<ChatRequest>, branch: Branch)

  const NoPatent := "Sorry, I don\U{2019}t have patent "
  const NoInfoOnPatent := "I don\U{2019}t have enough information on that patent."
  const NoInfoFromInventor := "I don\U{2019}t have enough information from the inventor\U{2019}s explanation."
  const NoInfoOnClaims := "I don\U{2019}t have enough information to summarize the claims."
  const NoInfoOnPriorArt := "I don\U{2019}t have enough information on prior art."
  const NoInfoOnFamily := "I don\U{2019}t have enough information on this patent family."
  const NoInfoInPatents := "I don\U{2019}t have enough information in the provided patents."
  const NoInfo := "I don\U{2019}t have enough information."

  const NotProvided := "not provided"
  const DateColumn := "publication_date"
  const ParentColumn := "parent_publication_number"

  /** How many passages each retrieval attempt returns, and how many dated patents the
      "latest" answer lists. */
  const RagTopK: int := 60
  const LatestCount: int := 10
  const DefaultGroupCount: int := 10

  // ---------------------------------------------------------------------------
  // Table lookups

  /** `str(row["publication_number"])` */
  function PubText(row: Row): string {
    Show(Get(row, "publication_number"))
  }

  /** The first row whose publication number prints as `pid`. */
  function FindRow(rows: seq<Row>, pid: string): (r: Option<nat>)
    ensures r.Some? ==> r.value < |rows| && PubText(rows[r.value]) == pid
    ensures r.Some? ==> forall j :: 0 <= j < r.value ==> PubText(rows[j]) != pid
    ensures r.None? ==> forall j :: 0 <= j < |rows| ==> PubText(rows[j]) != pid
  {
    if |rows| == 0 then None
    else if PubText(rows[0]) == pid then Some(0)
    else match FindRow(rows[1..], pid)
      case None => None
      case Some(j) => Some(j + 1)
  }

  /** `df[col]` as a list of cells. */
  function Column(rows: seq<Row>, col: string): (r: seq<Value>)
    ensures |r| == |rows| && forall i :: 0 <= i < |rows| ==> r[i] == Get(rows[i], col)
  {
    seq(|rows|, i requires 0 <= i < |rows| => Get(rows[i], col))
  }

  // ---------------------------------------------------------------------------
  // Stage 0: brainstorming on a named patent

  const ImproveInstruction := "You are a domain expert in R&D. I'll give you a patent; propose at least five concrete improvements or spin-off innovations based on its core idea."

  function ImproveRequest(pid: string, row: Row): ChatRequest {
    ChatRequest([Message(System, ImproveInstruction),
                 Message(User, "Patent " + pid + ": " + OrElse(Get(row, "title_en"), "") + "\n\n"
                               + "Abstract:\n" + OrElse(Get(row, "abstract_text"), "") + "\n\n"
                               + "Claims:\n" + OrElse(Get(row, "claims"), "") + "\n\n"
                               + "Inventor's analysis:\n" + OrElse(Get(row, "analysis_explanation"), "") + "\n\n"
                               + "Please brainstorm improvements or new applications.")],
                0.7, 512)
  }

  function ImproveTurn(env: Env, s: State, userMsg: string, pid: string): (t: Turn)
    ensures t.state.capacity == s.capacity
    ensures t.state.lastFilters == s.lastFilters && t.state.lastAggregation == s.lastAggregation
    ensures t.branch.Improve? || t.branch.ImproveUnknown?
    ensures t.outcome.Answer?
    ensures t.branch.ImproveUnknown? ==> t.state == s && t.calls == []
    ensures t.branch.Improve? ==>
              t.state.history == Extend(s.history, s.capacity,
                                        [Message(User, userMsg), Message(Assistant, t.outcome.text)])
  {
    match FindRow(env.table.rows, pid)
    case None => Turn(Answer(NoPatent + pid + "."), s, [], ImproveUnknown)
    case Some(i) =>
      var req := ImproveRequest(pid, env.table.rows[i]);
      var answer := env.chat(req);
      Turn(Answer(answer), Remember(s, userMsg, answer), [req], Improve)
  }

  // ---------------------------------------------------------------------------
  // Stages 1 and 2: rewrite, merge filters, force the goal filter

  /** What the turn works with after the rewrite. */
  datatype Prepared = Prepared(filters: seq<Filter>, aggregation: Option<Aggregation>, query: string,
                               priority: seq<string>, rewriteCall: ChatRequest)

  function Prepare(env: Env, s: State, userMsg: string): (p: Prepared)
    ensures p.rewriteCall == RewriteRequest(s.history, userMsg)
  {
    var inherited := Inherited(s, userMsg);
    var rw := Rewrite(s.history, userMsg, env.chat, env.decode);
    var merged := MergeFilters(inherited.0, rw.filters);
    var aggregation := if AggregationTruthy(inherited.1) then inherited.1 else rw.aggregation;
    Prepared(InsertSdg(merged, env.intents.sdg(userMsg)), aggregation, rw.rewrittenQuery.GetOr(userMsg),
             rw.columnPriority, RewriteRequest(s.history, userMsg))
  }

  /** The working filters and aggregation recorded for the next turn. */
  function Persist(s: State, p: Prepared): State {
    s.(lastFilters := p.filters, lastAggregation := p.aggregation)
  }

  // ---------------------------------------------------------------------------
  // A branch's reply and how it lands in the state

  /** A branch's outcome, its own chat calls, and the new context size if it measured one. */
  datatype Reply = Reply(outcome: Outcome, calls: seq<ChatRequest>, branch: Branch, ctxTokens: Option<nat>)

  function Finish(s: State, userMsg: string, p: Prepared, rep: Reply): (t: Turn)
    ensures t.outcome == rep.outcome && t.branch == rep.branch && t.calls == [p.rewriteCall] + rep.calls
    ensures t.state.capacity == s.capacity
    ensures t.state.lastFilters == s.lastFilters && t.state.lastAggregation == s.lastAggregation
    ensures rep.ctxTokens.None? ==> t.state.lastCtxTokens == s.lastCtxTokens
    ensures rep.ctxTokens.Some? ==> t.state.lastCtxTokens == rep.ctxTokens.value
    ensures rep.outcome.Raised? || EarlyReturn(rep.branch) ==> t.state.history == s.history
    ensures rep.outcome.Answer? && !EarlyReturn(rep.branch) ==>
              t.state.history == Extend(s.history, s.capacity,
                                        [Message(User, userMsg), Message(Assistant, rep.outcome.text)])
  {
    var s1 := if rep.ctxTokens.Some? then s.(lastCtxTokens := rep.ctxTokens.value) else s;
    var s2 := if rep.outcome.Answer? && !EarlyReturn(rep.branch) then Remember(s1, userMsg, rep.outcome.text) else s1;
    Turn(rep.outcome, s2, [p.rewriteCall] + rep.calls, rep.branch)
  }

  // ---------------------------------------------------------------------------
  // A: inventors, applicants and what is new about the last cited patent

  predicate MetaCue(lower: string) {
    Contains(lower, "inventor") && Contains(lower, "applicant") && Contains(lower, "new")
  }

  function MetaReply(env: Env, pid: string): (r: Reply)
    ensures r.branch == MetaNew && r.ctxTokens.None? && r.calls == [] {
    match FindRow(env.table.rows, pid)
    case None => Reply(Answer(NoInfoOnPatent), [], MetaNew, None)
    case Some(i) =>
      var row := env.table.rows[i];
      var inv := OrElse(Get(row, "inventor_names"), NotProvided);
      var app := OrElse(Get(row, "applicant_names"), NotProvided);
      var novelty := if Truthy(Get(row, "analysis_explanation")) then Show(Get(row, "analysis_explanation"))
                     else OrElse(Get(row, "abstract_text"), NotProvided);
      Reply(Answer("(" + pid + ") Inventor(s): " + inv + "; Applicant(s): " + app + ".\n"
                   + "New in this invention: " + novelty), [], MetaNew, None)
  }

  /** An unknown patent gets the fixed apology; a known one is described from its row,
      the explanation standing in for a falsy analysis only if it is truthy. Either
      way the answer goes into the history. */
  lemma MetaReplyCases(env: Env, pid: string)
    ensures var r, i := MetaReply(env, pid), FindRow(env.table.rows, pid);
            && !EarlyReturn(r.branch) && r.outcome.Answer?
            && (i.None? ==> r.outcome == Answer(NoInfoOnPatent))
            && (i.Some? ==> exists inv, app, novelty ::
                  && r.outcome.text == "(" + pid + ") Inventor(s): " + inv + "; Applicant(s): " + app + ".\n"
                                       + "New in this invention: " + novelty
                  && inv == OrElse(Get(env.table.rows[i.value], "inventor_names"), NotProvided)
                  && app == OrElse(Get(env.table.rows[i.value], "applicant_names"), NotProvided))
  {
  }

  // ---------------------------------------------------------------------------
  // B: the inventor's own explanation of the last cited patent

  function InventorReply(env: Env, pid: string): (r: Reply)
    ensures r.branch == InventorView && r.ctxTokens.None? && r.calls == [] {
    match FindRow(env.table.rows, pid)
    case Some(i) =>
      var row := env.table.rows[i];
      if "analysis_explanation" in row && !row["analysis_explanation"].Missing? then
        Reply(Answer("(" + pid + ") according to the inventor: " + Show(row["analysis_explanation"])),
              [], InventorView, None)
      else Reply(Answer(NoInfoFromInventor), [], InventorView, None)
    case None => Reply(Answer(NoInfoFromInventor), [], InventorView, None)
  }

  /** The inventor's explanation is quoted when the patent is known and its explanation
      cell is present and not missing; otherwise the fixed apology. */
  lemma InventorReplyCases(env: Env, pid: string)
    ensures var r, i := InventorReply(env, pid), FindRow(env.table.rows, pid);
            && !EarlyReturn(r.branch) && r.outcome.Answer?
            && (if i.Some? && "analysis_explanation" in env.table.rows[i.value]
                   && !env.table.rows[i.value]["analysis_explanation"].Missing?
                then r.outcome.text == "(" + pid + ") according to the inventor: "
                                       + Show(env.table.rows[i.value]["analysis_explanation"])
                else r.outcome == Answer(NoInfoFromInventor))
  {
  }

  // ---------------------------------------------------------------------------
  // C: a plain-English summary of a patent's claims

  const ClaimsInstruction := "Summarise these patent claims in plain English."

  function ClaimsRequest(claims: Value): ChatRequest {
    ChatRequest([Message(System, ClaimsInstruction), Message(User, Show(claims))], 0.0, 512)
  }

  function ClaimsReply(env: Env, pid: string): (r: Reply)
    ensures EarlyReturn(r.branch) ==> r.calls == [] && r.outcome.Answer?
    ensures (r.branch == Claims || r.branch == ClaimsUnknown) && r.ctxTokens.None?
    ensures r.branch == ClaimsUnknown ==> r.calls == [] {
    match FindRow(env.table.rows, pid)
    case None => Reply(Answer(NoInfoOnClaims), [], ClaimsUnknown, None)
    case Some(i) =>
      var claims := Get(env.table.rows[i], "claims");
      if !Truthy(claims) then Reply(Answer(NoInfoOnClaims), [], ClaimsUnknown, None)
      else Reply(Answer(env.chat(ClaimsRequest(claims))), [ClaimsRequest(claims)], Claims, None)
  }

  /** The claims summary is skipped, with no call, exactly when the patent is unknown or
      its claims cell is falsy; otherwise the one call sends the claims text. */
  lemma ClaimsReplyCases(env: Env, pid: string)
    ensures var r, i := ClaimsReply(env, pid), FindRow(env.table.rows, pid);
            && (r.branch == ClaimsUnknown <==> i.None? || !Truthy(Get(env.table.rows[i.value], "claims")))
            && (r.branch == ClaimsUnknown ==> r.outcome == Answer(NoInfoOnClaims))
            && (r.branch == Claims ==>
                  && |r.calls| == 1
                  && r.calls[0].messages[1] == Message(User, Show(Get(env.table.rows[i.value], "claims")))
                  && r.outcome == Answer(env.chat(r.calls[0])))
  {
  }

  // ---------------------------------------------------------------------------
  // D: the prior art a patent cites

  predicate NonEmpty(a: string) { |a| > 0 }

  /** The stripped, non-empty pieces of a `;`/`,` separated list: in order, every
      non-empty stripped piece as often as it occurs, and nothing else. */
  function CitedArts(text: string): (r: seq<string>)
    ensures forall i :: 0 <= i < |r| ==> |r[i]| > 0
    ensures var ps := StripAll(SplitOnAny(text, {';', ','}));
            && Subseq(r, ps)
            && forall k :: 0 <= k < |ps| && |ps[k]| > 0 ==> multiset(r)[ps[k]] == multiset(ps)[ps[k]]
  {
    var stripped := StripAll(SplitOnAny(text, {';', ','}));
    KeepCountsAt(stripped, NonEmpty);
    Keep(stripped, NonEmpty)
  }

  /** The bullet of one cited number, with the patent's title when the table has it. */
  function ArtBullet(rows: seq<Row>, a: string): string {
    "\U{2022} (" + a + ") "
    + match FindRow(rows, a)
      case Some(j) => "\U{201C}" + Show(Get(rows[j], "title_en")) + "\U{201D}"
      case None => ""
  }

  function PriorArtReply(env: Env, pid: string): (r: Reply)
    ensures EarlyReturn(r.branch) ==> r.calls == [] && r.outcome.Answer?
    ensures (r.branch == PriorArt || r.branch == PriorArtUnknown) && r.ctxTokens.None? && r.calls == [] {
    match FindRow(env.table.rows, pid)
    case None => Reply(Answer(NoInfoOnPriorArt), [], PriorArtUnknown, None)
    case Some(i) =>
      var art := Get(env.table.rows[i], "prior_art");
      if !Truthy(art) then Reply(Answer(NoInfoOnPriorArt), [], PriorArtUnknown, None)
      else if !art.Str? then Reply(Raised, [], PriorArt, None)
      else Reply(Answer(Join("\n", ArtBullets(env.table.rows, CitedArts(art.s)))), [], PriorArt, None)
  }

  /** One bullet per cited number, in order. */
  function ArtBullets(rows: seq<Row>, arts: seq<string>): (r: seq<string>)
    ensures |r| == |arts| && forall k :: 0 <= k < |arts| ==> r[k] == ArtBullet(rows, arts[k])
  {
    seq(|arts|, k requires 0 <= k < |arts| => ArtBullet(rows, arts[k]))
  }

  /** The prior-art answer is skipped exactly when the patent is unknown or its
      `prior_art` cell is falsy; a cell that is not text makes `re.split` raise;
      otherwise there is one bullet line per cited number. */
  lemma PriorArtReplyCases(env: Env, pid: string)
    ensures var r, i := PriorArtReply(env, pid), FindRow(env.table.rows, pid);
            && (r.branch == PriorArtUnknown <==> i.None? || !Truthy(Get(env.table.rows[i.value], "prior_art")))
            && (r.branch == PriorArtUnknown ==> r.outcome == Answer(NoInfoOnPriorArt))
            && (r.outcome.Raised? <==> i.Some? && Truthy(Get(env.table.rows[i.value], "prior_art"))
                                       && !Get(env.table.rows[i.value], "prior_art").Str?)
            && (r.branch == PriorArt && r.outcome.Answer? ==>
                  && i.Some? && Get(env.table.rows[i.value], "prior_art").Str?
                  && r.outcome.text == Join("\n", ArtBullets(env.table.rows,
                                                             CitedArts(Get(env.table.rows[i.value], "prior_art").s))))
  {
  }

  // ---------------------------------------------------------------------------
  // E: the patent family

  /** The row belongs to the family of `pid`: it is the patent or names it as parent. */
  predicate InFamily(row: Row, pid: string) {
    Show(Get(row, ParentColumn)) == pid || PubText(row) == pid
  }

  function FamilyBullet(row: Row): string {
    "\U{2022} (" + PubText(row) + ") " + Show(Get(row, "title_en")) + " \U{2014} filed " + Show(Get(row, DateColumn))
  }

  function FamilyReply(env: Env, pid: string): (r: Reply)
    ensures EarlyReturn(r.branch) ==> r.calls == [] && r.outcome.Answer?
    ensures (r.branch == Family || r.branch == FamilyUnknown) && r.ctxTokens.None? && r.calls == [] {
    if ParentColumn !in env.table.columns then Reply(Raised, [], Family, None)
    else
      var fam := Keep(env.table.rows, (row: Row) => InFamily(row, pid));
      if |fam| == 0 then Reply(Answer(NoInfoOnFamily), [], FamilyUnknown, None)
      else Reply(Answer(Join("\n", seq(|fam|, k requires 0 <= k < |fam| => FamilyBullet(fam[k])))), [], Family, None)
  }

  /** The family answer is skipped exactly when no row is the patent or names it as
      parent; without the parent column the lookup raises. */
  lemma FamilyReplyCases(env: Env, pid: string)
    ensures var r := FamilyReply(env, pid);
            && (r.outcome.Raised? <==> ParentColumn !in env.table.columns)
            && (r.branch == FamilyUnknown <==>
                  ParentColumn in env.table.columns
                  && forall k :: 0 <= k < |env.table.rows| ==> !InFamily(env.table.rows[k], pid))
            && (r.branch == FamilyUnknown ==> r.outcome == Answer(NoInfoOnFamily))
  {
    if ParentColumn in env.table.columns {
      var fam := Keep(env.table.rows, (row: Row) => InFamily(row, pid));
      if |fam| > 0 {
        assert fam[0] in env.table.rows && InFamily(fam[0], pid);
      }
    }
  }

  // ---------------------------------------------------------------------------
  // F: patents filed per year

  function YearBullet(b: Bucket): string {
    "\U{2022} " + IntToString(b.0) + ": " + NatToString(b.1) + " patents"
  }

  function FiledReply(env: Env, filters: seq<Filter>): (r: Reply)
    ensures EarlyReturn(r.branch) ==> r.calls == [] && r.outcome.Answer?
    ensures (r.branch == Filed || r.branch == FiledEmpty) && r.ctxTokens.None? && r.calls == [] {
    match FilterDf(env.table.rows, filters)
    case None => Reply(Raised, [], Filed, None)
    case Some(sub) =>
      if DateColumn !in env.table.columns then Reply(Raised, [], Filed, None)
      else
        var freqs := GroupByYear(Column(sub, DateColumn), env.parseDate);
        if |freqs| == 0 then Reply(Answer(NoInfoInPatents), [], FiledEmpty, None)
        else Reply(Answer(Join("\n", seq(|freqs|, k requires 0 <= k < |freqs| => YearBullet(freqs[k])))),
                   [], Filed, None)
  }

  /** The per-year answer is skipped exactly when the filtered rows hold no parseable
      date; a filter answering `None` or a missing date column raises. */
  lemma FiledReplyCases(env: Env, filters: seq<Filter>)
    ensures var r, sub := FiledReply(env, filters), FilterDf(env.table.rows, filters);
            && (r.outcome.Raised? <==> sub.None? || DateColumn !in env.table.columns)
            && (r.branch == FiledEmpty <==>
                  && sub.Some? && DateColumn in env.table.columns
                  && forall k :: 0 <= k < |sub.value| ==> env.parseDate(Get(sub.value[k], DateColumn)).None?)
            && (r.branch == FiledEmpty ==> r.outcome == Answer(NoInfoInPatents))
  {
    match FilterDf(env.table.rows, filters)
    case None =>
    case Some(sub) =>
      var cells := Column(sub, DateColumn);
      assert (forall k :: 0 <= k < |cells| ==> env.parseDate(cells[k]).None?) <==>
             (forall k :: 0 <= k < |sub| ==> env.parseDate(Get(sub[k], DateColumn)).None?);
  }

  // ---------------------------------------------------------------------------
  // G: the latest patents

  /** The rank of a row's parsed date; rows without one are not ranked by it. */
  function DateRank(parse: Value -> Option<Date>): Row -> real {
    (row: Row) => match parse(Get(row, DateColumn)) case Some(d) => DateKey(d) as real case None => 0.0
  }

  function HasDate(parse: Value -> Option<Date>): Row -> bool {
    (row: Row) => parse(Get(row, DateColumn)).Some?
  }

  function NoDate(parse: Value -> Option<Date>): Row -> bool {
    (row: Row) => parse(Get(row, DateColumn)).None?
  }

  /** `sort_values(ascending=False)` on the parsed dates: newest first, unparseable last. */
  function NewestFirst(rows: seq<Row>, parse: Value -> Option<Date>): (r: seq<Row>)
    ensures |r| == |Keep(rows, HasDate(parse))| + |Keep(rows, NoDate(parse))|
  {
    SortDesc(Keep(rows, HasDate(parse)), DateRank(parse)) + Keep(rows, NoDate(parse))
  }

  /** The newest-first order: a rearrangement of the rows, every dated row before every
      undated one, dated rows by non-increasing date. */
  lemma NewestFirstOrder(rows: seq<Row>, parse: Value -> Option<Date>)
    ensures multiset(NewestFirst(rows, parse)) == multiset(Keep(rows, HasDate(parse))) + multiset(Keep(rows, NoDate(parse)))
    ensures var r, n := NewestFirst(rows, parse), |Keep(rows, HasDate(parse))|;
            && (forall i :: 0 <= i < |r| ==> (i < n <==> HasDate(parse)(r[i])))
            && SortedDesc(r[..n], DateRank(parse))
  {
    var dated := SortDesc(Keep(rows, HasDate(parse)), DateRank(parse));
    var undated := Keep(rows, NoDate(parse));
    var r := NewestFirst(rows, parse);
    assert r == dated + undated;
    assert r[..|dated|] == dated;
    forall i | 0 <= i < |r| ensures i < |dated| <==> HasDate(parse)(r[i]) {
      if i < |dated| {
        assert r[i] == dated[i];
        assert r[i] in multiset(dated);
        assert r[i] in Keep(rows, HasDate(parse));
      } else {
        assert r[i] == undated[i - |dated|];
      }
    }
  }

  /** The date shown for a row: `strptime(str(v), "%Y%m%d")`, else pandas' parse. */
  function ShownDate(v: Value, parse: Value -> Option<Date>): Option<Date> {
    match Strptime(Show(v), "%Y%m%d")
    case Some(d) => Some(d)
    case None => parse(v)
  }

  function LatestBullet(row: Row, d: Date): (r: string)
    ensures |r| > 0
  {
    "\U{2022} (" + PubText(row) + ") " + Show(Get(row, "title_en")) + " \U{2014} "
    + "Patent published on " + MonthName(d.month) + " " + Ordn(d.day) + ", " + IntToString(d.year)
  }

  /** The bullets for the listed rows; `None` when a date does not parse, where
      `strftime` on pandas' not-a-time raises. */
  function LatestBullets(rows: seq<Row>, parse: Value -> Option<Date>): (r: Option<seq<string>>)
    ensures r.Some? ==> |r.value| == |rows|
    ensures r.Some? ==> forall i :: 0 <= i < |rows| ==> |r.value[i]| > 0
    ensures r.None? <==> exists i :: 0 <= i < |rows| && ShownDate(Get(rows[i], DateColumn), parse).None?
  {
    if |rows| == 0 then Some([])
    else
      match ShownDate(Get(rows[0], DateColumn), parse)
      case None => None
      case Some(d) =>
        var rest := LatestBullets(rows[1..], parse);
        assert forall i :: 1 <= i < |rows| ==> rows[i] == rows[1..][i - 1];
        match rest
        case None => None
        case Some(bs) => Some([LatestBullet(rows[0], d)] + bs)
  }

  function LatestReply(env: Env, filters: seq<Filter>): (r: Reply)
    ensures r.branch == Latest && r.ctxTokens.None? && r.calls == [] {
    match FilterDf(env.table.rows, filters)
    case None => Reply(Raised, [], Latest, None)
    case Some(sub) =>
      if DateColumn !in env.table.columns then Reply(Raised, [], Latest, None)
      else
        var listed := Head(NewestFirst(sub, env.parseDate), LatestCount);
        match LatestBullets(listed, env.parseDate)
        case None => Reply(Raised, [], Latest, None)
        case Some(bullets) =>
          var text := Join("\n", bullets);
          Reply(Answer(if |text| == 0 then NoInfo else text), [], Latest, None)
  }

  /** The latest-patents answer lists the ten newest filtered rows, one bullet each, or
      says it has no information when no row passes the filters. It raises exactly when
      a filter answers `None`, the date column is absent, or a listed date cannot be
      shown. */
  lemma LatestReplyCases(env: Env, filters: seq<Filter>)
    ensures var r, sub := LatestReply(env, filters), FilterDf(env.table.rows, filters);
            && (r.outcome.Raised? <==>
                  || sub.None? || DateColumn !in env.table.columns
                  || LatestBullets(Head(NewestFirst(sub.value, env.parseDate), LatestCount), env.parseDate).None?)
            && (r.outcome.Answer? ==>
                  var listed := Head(NewestFirst(sub.value, env.parseDate), LatestCount);
                  && (|listed| == 0 ==> r.outcome.text == NoInfo)
                  && (|listed| > 0 ==> r.outcome.text == Join("\n", LatestBullets(listed, env.parseDate).value)))
  {
    var sub := FilterDf(env.table.rows, filters);
    if sub.Some? && DateColumn in env.table.columns {
      var listed := Head(NewestFirst(sub.value, env.parseDate), LatestCount);
      var bs := LatestBullets(listed, env.parseDate);
      if bs.Some? && |listed| > 0 {
        JoinNonEmpty("\n", bs.value);
      }
    }
  }

  // ---------------------------------------------------------------------------
  // H: counts per group

  /** The aggregation asks for a grouping column. */
  predicate AggregateCue(a: Option<Aggregation>) {
    AggregationTruthy(a) && a.value.groupBy.Some? && |a.value.groupBy.value| > 0
  }

  /** A cue that the user wants counts rather than examples. */
  predicate CountCue(lower: string) {
    Contains(lower, "top") || Contains(lower, "count") || Contains(lower, "how many") || Contains(lower, "number")
  }

  /** pandas treats the column as text: every present cell is a string. */
  predicate TextColumn(cells: seq<Value>) {
    forall i :: 0 <= i < |cells| ==> cells[i].Str? || cells[i].Missing?
  }

  /** `fillna("").astype(str)` of one cell. */
  function FilledText(v: Value): string {
    if v.Missing? then "" else Show(v)
  }

  /** The row is an example of group key `key` in column `grp`: a case-insensitive
      substring match on a text column, equality otherwise. */
  predicate ExampleOf(row: Row, grp: string, key: string, textual: bool) {
    if textual then Contains(Lower(FilledText(Get(row, grp))), Lower(key)) else Get(row, grp) == Str(key)
  }

  /** The first row matching, as (number, title). */
  function FirstExample(rows: seq<Row>, matches: Row -> bool): (r: Option<(string, string)>)
    ensures r.Some? ==> exists i :: 0 <= i < |rows| && matches(rows[i]) &&
                                    (forall j :: 0 <= j < i ==> !matches(rows[j])) &&
                                    r.value == (PubText(rows[i]), Show(Get(rows[i], "title_en")))
    ensures r.None? <==> forall i :: 0 <= i < |rows| ==> !matches(rows[i])
  {
    if |rows| == 0 then None
    else if matches(rows[0]) then Some((PubText(rows[0]), Show(Get(rows[0], "title_en"))))
    else
      var r := FirstExample(rows[1..], matches);
      assert forall i :: 1 <= i < |rows| ==> rows[i] == rows[1..][i - 1];
      r
  }

  function GroupBullet(key: string, count: nat, example: Option<(string, string)>, counting: bool): string {
    match example
    case None => "\U{2022} " + key + " \U{2014} " + NatToString(count) + " patents"
    case Some((pid, title)) =>
      if counting then
        "\U{2022} " + key + " \U{2014} " + NatToString(count) + " patents (e.g. (" + pid + ") \U{201C}" + title + "\U{201D})"
      else
        "\U{2022} " + key + " \U{2014} " + NatToString(count) + " patents; example: (" + pid + ") \U{201C}" + title + "\U{201D}"
  }

  function YearMatches(parse: Value -> Option<Date>, y: int): Row -> bool {
    (row: Row) => match parse(Get(row, DateColumn)) case Some(d) => d.year == y case None => false
  }

  function KeyMatches(grp: string, key: string, textual: bool): Row -> bool {
    (row: Row) => ExampleOf(row, grp, key, textual)
  }

  /** One bullet per year with its count and the first row published that year. */
  function YearBullets(sub: seq<Row>, freqs: seq<(int, nat)>, parse: Value -> Option<Date>, counting: bool): seq<string> {
    seq(|freqs|, k requires 0 <= k < |freqs| =>
      GroupBullet(IntToString(freqs[k].0), freqs[k].1, FirstExample(sub, YearMatches(parse, freqs[k].0)), counting))
  }

  /** One bullet per group key with its count and the first row showing that key. */
  function KeyBullets(sub: seq<Row>, grp: string, freqs: seq<(string, nat)>, textual: bool, counting: bool): seq<string> {
    seq(|freqs|, k requires 0 <= k < |freqs| =>
      GroupBullet(freqs[k].0, freqs[k].1, FirstExample(sub, KeyMatches(grp, freqs[k].0, textual)), counting))
  }

  function AggregateReply(env: Env, userMsg: string, agg: Aggregation, filters: seq<Filter>): (r: Reply)
    requires agg.groupBy.Some?
    ensures (r.branch == Aggregate || r.branch == AggregateEmpty) && r.ctxTokens.None? && r.calls == []
    ensures r.branch == AggregateEmpty ==> r.outcome == Answer(NoInfoInPatents)
  {
    match FilterDf(env.table.rows, filters)
    case None => Reply(Raised, [], Aggregate, None)
    case Some(sub) =>
      var lower := Lower(userMsg);
      var grp := agg.groupBy.value;
      var counting := CountCue(lower);
      if grp == DateColumn || Contains(lower, "each year") then
        if DateColumn !in env.table.columns then Reply(Raised, [], Aggregate, None)
        else
          var freqs := GroupByYear(Column(sub, DateColumn), env.parseDate);
          if |freqs| == 0 then Reply(Answer(NoInfoInPatents), [], AggregateEmpty, None)
          else
            Reply(Answer(Join("\n", YearBullets(sub, freqs, env.parseDate, counting))), [], Aggregate, None)
      else
        if grp !in env.table.columns then Reply(Raised, [], Aggregate, None)
        else
          var cells := Column(sub, grp);
          var freqs := TopKGroup(cells, agg.topK.GetOr(DefaultGroupCount));
          if |freqs| == 0 then Reply(Answer(NoInfoInPatents), [], AggregateEmpty, None)
          else
            Reply(Answer(Join("\n", KeyBullets(sub, grp, freqs, TextColumn(cells), counting))), [], Aggregate, None)
  }

  // ---------------------------------------------------------------------------
  // I: passage retrieval with relaxing fallbacks

  /** Try the filters and the column priority; then the priority alone; then neither. */
  function Cascade(env: Env, p: Prepared): (r: seq<Passage>)
    ensures var cands := env.candidates(p.query);
            |r| == 0 <==> && |Search(cands, p.query, p.filters, p.priority, RagTopK)| == 0
                          && |Search(cands, p.query, [], p.priority, RagTopK)| == 0
                          && |Search(cands, p.query, [], [], RagTopK)| == 0
    ensures |r| <= RagTopK && DistinctIds(r, PassagePub)
  {
    var cands := env.candidates(p.query);
    var first := Search(cands, p.query, p.filters, p.priority, RagTopK);
    if |first| > 0 then first
    else
      var second := Search(cands, p.query, [], p.priority, RagTopK);
      if |second| > 0 then second
      else Search(cands, p.query, [], [], RagTopK)
  }

  /** The columns each answer bullet is asked to show. */
  function Fields(lower: string): (r: seq<string>)
    ensures |r| >= 3 && r[..3] == ["publication_number", "title_en", DateColumn]
    ensures |r| == 4 <==> Contains(lower, "applicant") || Contains(lower, "country")
  {
    ["publication_number", "title_en", DateColumn]
    + (if Contains(lower, "applicant") || Contains(lower, "country") then ["applicant_countries"] else [])
  }

  function SystemPrompt(allowed: string, fields: seq<string>): string {
    "You may cite ONLY these publication numbers: " + allowed + ". "
    + "If none answer, reply: 'I don\U{2019}t have enough information.'\n"
    + "Format bullets as: (" + Join(", ", fields) + ") \U{2014} short note."
  }

  /** The answering call: the citation rules, the whole history, the question with the
      summarised context. */
  function FinalRequest(history: seq<Message>, userMsg: string, ctx: seq<Passage>, context: string): (r: ChatRequest)
    ensures |r.messages| == |history| + 2
    ensures r.messages[0] == Message(System, SystemPrompt(AllowedIds(ctx), Fields(Lower(userMsg))))
    ensures r.messages[1..|history| + 1] == history
    ensures r.messages[|history| + 1] == Message(User, "QUESTION: " + userMsg + "\n\nCONTEXT:\n" + context)
  {
    var r := ChatRequest([Message(System, SystemPrompt(AllowedIds(ctx), Fields(Lower(userMsg))))] + history
                         + [Message(User, "QUESTION: " + userMsg + "\n\nCONTEXT:\n" + context)], 0.0, 512);
    assert r.messages[1..|history| + 1] == history;
    r
  }

  /** One "number || title || text" line per packed passage. */
  function ContextLines(ctx: seq<Passage>): (r: seq<string>)
    ensures |r| == |ctx| && forall i :: 0 <= i < |ctx| ==> r[i] == ContextLine(ctx[i])
  {
    seq(|ctx|, i requires 0 <= i < |ctx| => ContextLine(ctx[i]))
  }

  function RagReply(env: Env, s: State, userMsg: string, p: Prepared): (r: Reply)
    ensures r.branch == Rag || r.branch == RagEmpty
    ensures r.branch == RagEmpty <==> |Cascade(env, p)| == 0
    ensures r.branch == RagEmpty ==> r == Reply(Answer(NoInfoInPatents), [], RagEmpty, None)
  {
    var passages := Cascade(env, p);
    if |passages| == 0 then Reply(Answer(NoInfoInPatents), [], RagEmpty, None)
    else
      var ctx := PackContext(passages, env.tok);
      var summary := MapReduce(p.query, ContextLines(ctx), env.tok, env.chat);
      var req := FinalRequest(s.history, userMsg, ctx, summary.text);
      Reply(Answer(env.chat(req)), summary.calls + [req], Rag, Some(env.tok(summary.text)))
  }

  // ---------------------------------------------------------------------------
  // The turn

  /** The guard of the branch at stage `k` (1 to 9) as `ask` tests it; the retrieval
      branch at stage 9 is the fallback and always applies. */
  predicate Fires(env: Env, history: seq<Message>, userMsg: string, p: Prepared, k: nat) {
    match k
    case 1 => MetaCue(Lower(userMsg)) && CitedId(history).Some?
    case 2 => env.intents.inventorWord(userMsg) && Contains(Lower(userMsg), "this patent") && CitedId(history).Some?
    case 3 => env.intents.claimsOf(userMsg).Some?
    case 4 => env.intents.priorArtOf(userMsg).Some?
    case 5 => env.intents.familyWord(userMsg) && FirstUpperRun(userMsg).Some?
    case 6 => env.intents.howFiled(userMsg)
    case 7 => env.intents.latest(userMsg)
    case 8 => AggregateCue(p.aggregation)
    case _ => true
  }

  /** What the branch at stage `k` reads from its guard: the cited id, the intent's
      patent, the capitals run or the grouping column. Each guard implies it. */
  predicate Ready(env: Env, history: seq<Message>, userMsg: string, p: Prepared, k: nat) {
    match k
    case 1 => CitedId(history).Some?
    case 2 => CitedId(history).Some?
    case 3 => env.intents.claimsOf(userMsg).Some?
    case 4 => env.intents.priorArtOf(userMsg).Some?
    case 5 => FirstUpperRun(userMsg).Some?
    case 8 => p.aggregation.Some? && p.aggregation.value.groupBy.Some?
    case _ => true
  }

  /** The chain of guards from stage `k` on: the first stage whose guard holds. */
  function FirstStage(env: Env, history: seq<Message>, userMsg: string, p: Prepared, k: nat): (j: nat)
    requires 1 <= k <= 9
    ensures k <= j <= 9 && Fires(env, history, userMsg, p, j) && Ready(env, history, userMsg, p, j)
    ensures forall i :: k <= i < j ==> !Fires(env, history, userMsg, p, i)
    decreases 9 - k
  {
    if Fires(env, history, userMsg, p, k) then k else FirstStage(env, history, userMsg, p, k + 1)
  }

  /** The reply of the branch at stage `k`, once its guard holds. */
  function BranchReply(env: Env, s: State, userMsg: string, p: Prepared, k: nat): (r: Reply)
    requires 1 <= k <= 9 && Ready(env, s.history, userMsg, p, k)
    ensures Stage(r.branch) == k
    ensures r.ctxTokens.Some? ==> r.branch == Rag
    ensures EarlyReturn(r.branch) ==> r.calls == [] && r.outcome.Answer?
  {
    if k <= 5 then LookupReply(env, s, userMsg, p, k) else TableReply(env, s, userMsg, p, k)
  }

  /** The branches A to E, which look up one patent or its family. */
  function LookupReply(env: Env, s: State, userMsg: string, p: Prepared, k: nat): (r: Reply)
    requires 1 <= k <= 5 && Ready(env, s.history, userMsg, p, k)
    ensures Stage(r.branch) == k
    ensures r.ctxTokens.None?
    ensures EarlyReturn(r.branch) ==> r.calls == [] && r.outcome.Answer?
  {
    StageTable();
    match k
    case 1 => MetaReply(env, CitedId(s.history).value)
    case 2 => InventorReply(env, CitedId(s.history).value)
    case 3 => ClaimsReply(env, env.intents.claimsOf(userMsg).value)
    case 4 => PriorArtReply(env, env.intents.priorArtOf(userMsg).value)
    case _ => FamilyReply(env, FirstUpperRun(userMsg).value)
  }

  /** The branches F to I, which read the filtered table or retrieve passages. */
  function TableReply(env: Env, s: State, userMsg: string, p: Prepared, k: nat): (r: Reply)
    requires 6 <= k <= 9 && Ready(env, s.history, userMsg, p, k)
    ensures Stage(r.branch) == k
    ensures r.ctxTokens.Some? ==> r.branch == Rag
    ensures EarlyReturn(r.branch) ==> r.calls == [] && r.outcome.Answer?
  {
    StageTable();
    match k
    case 6 => FiledReply(env, p.filters)
    case 7 => LatestReply(env, p.filters)
    case 8 => AggregateReply(env, userMsg, p.aggregation.value, p.filters)
    case _ => RagReply(env, s, userMsg, p)
  }

  /** The branches A to I in order: the first whose guard holds answers. */
  function Route(env: Env, s: State, userMsg: string, p: Prepared): (r: Reply)
    ensures Stage(r.branch) == FirstStage(env, s.history, userMsg, p, 1)
    ensures r.branch != Improve && r.branch != ImproveUnknown
    ensures r.ctxTokens.Some? ==> r.branch == Rag
    ensures EarlyReturn(r.branch) ==> r.calls == [] && r.outcome.Answer?
  {
    BranchReply(env, s, userMsg, p, FirstStage(env, s.history, userMsg, p, 1))
  }

  /** The branches after the rewrite, from the state with the working filters recorded. */
  function Dispatch(env: Env, s: State, userMsg: string, p: Prepared): (t: Turn)
    ensures t.state.capacity == s.capacity
    ensures t.state.lastFilters == s.lastFilters && t.state.lastAggregation == s.lastAggregation
    ensures |t.calls| >= 1 && t.calls[0] == p.rewriteCall
    ensures t.outcome.Raised? || EarlyReturn(t.branch) ==> t.state.history == s.history
    ensures t.outcome.Answer? && !EarlyReturn(t.branch) ==>
              t.state.history == Extend(s.history, s.capacity,
                                        [Message(User, userMsg), Message(Assistant, t.outcome.text)])
    ensures t.branch != Improve && t.branch != ImproveUnknown
    ensures t.branch != Rag ==> t.state.lastCtxTokens == s.lastCtxTokens
    ensures EarlyReturn(t.branch) ==> t.calls == [p.rewriteCall] && t.outcome.Answer?
  {
    Finish(s, userMsg, p, Route(env, s, userMsg, p))
  }

  /** `ask(user_msg)`: the answer (or the exception) and the next state. */
  function Ask(env: Env, s: State, userMsg: string): (t: Turn)
    ensures t.state.capacity == s.capacity
    ensures Bounded(s) ==> Bounded(t.state)
    ensures t.outcome.Raised? || EarlyReturn(t.branch) ==> t.state.history == s.history
    ensures t.outcome.Answer? && !EarlyReturn(t.branch) ==>
              t.state.history == Extend(s.history, s.capacity,
                                        [Message(User, userMsg), Message(Assistant, t.outcome.text)])
  {
    match env.intents.improve(userMsg)
    case Some(pid) => ImproveTurn(env, s, userMsg, pid)
    case None =>
      var p := Prepare(env, s, userMsg);
      Dispatch(env, Persist(s, p), userMsg, p)
  }

  // ---------------------------------------------------------------------------
  // Properties of a turn

  /** Without an improve request, a turn is the rewrite followed by the branches, from
      the state that records the working filters and aggregation. */
  lemma AskDispatches(env: Env, s: State, userMsg: string)
    requires env.intents.improve(userMsg).None?
    ensures var p := Prepare(env, s, userMsg);
            Ask(env, s, userMsg) == Finish(Persist(s, p), userMsg, p, Route(env, Persist(s, p), userMsg, p))
  {
  }

  /** The branch taken after the rewrite is the first whose guard holds, in the order
      A, B, C, D, E, F, G, H, I. */
  lemma RoutePrecedence(env: Env, s: State, userMsg: string, p: Prepared)
    ensures var k := Stage(Route(env, s, userMsg, p).branch);
            && 1 <= k <= 9 && Fires(env, s.history, userMsg, p, k)
            && forall j :: 1 <= j < k ==> !Fires(env, s.history, userMsg, p, j)
  {
  }

  /** The improve branch answers before the rewrite: the carried-over filters and
      aggregation stay as they were, and an unknown patent number changes nothing at all
      and calls no model. */
  lemma AskImprove(env: Env, s: State, userMsg: string)
    requires env.intents.improve(userMsg).Some?
    ensures var t, pid := Ask(env, s, userMsg), env.intents.improve(userMsg).value;
            && Stage(t.branch) == 0
            && t.state.lastFilters == s.lastFilters && t.state.lastAggregation == s.lastAggregation
            && t.state.lastCtxTokens == s.lastCtxTokens
            && (FindRow(env.table.rows, pid).None? <==> t == Turn(Answer(NoPatent + pid + "."), s, [], ImproveUnknown))
            && (FindRow(env.table.rows, pid).Some? ==>
                  var req := ImproveRequest(pid, env.table.rows[FindRow(env.table.rows, pid).value]);
                  t.calls == [req] && t.outcome == Answer(env.chat(req)))
  {
  }

  /** Past the improve check, the first chat call is the rewrite, the working filters and
      aggregation are recorded whichever branch answers, and the branch is the first
      whose guard holds; an early return makes no further call and keeps the history. */
  lemma AskAfterRewrite(env: Env, s: State, userMsg: string)
    requires env.intents.improve(userMsg).None?
    ensures var t, p := Ask(env, s, userMsg), Prepare(env, s, userMsg);
            && t.state.lastFilters == p.filters && t.state.lastAggregation == p.aggregation
            && |t.calls| >= 1 && t.calls[0] == RewriteRequest(s.history, userMsg)
            && (EarlyReturn(t.branch) ==> t.calls == [RewriteRequest(s.history, userMsg)] && t.state.history == s.history)
            && 1 <= Stage(t.branch) <= 9 && Fires(env, s.history, userMsg, p, Stage(t.branch))
            && forall j :: 1 <= j < Stage(t.branch) ==> !Fires(env, s.history, userMsg, p, j)
  {
    var p := Prepare(env, s, userMsg);
    RoutePrecedence(env, Persist(s, p), userMsg, p);
  }

  /** The working filters: the carried-over ones only under the "this category" cue,
      then every rewriter filter not already present, then the goal filter in front when
      the message names a goal and no filter is on the goal column yet. The inherited
      aggregation wins when it is truthy. */
  lemma WorkingFilters(env: Env, s: State, userMsg: string)
    ensures var p, rw := Prepare(env, s, userMsg), Rewrite(s.history, userMsg, env.chat, env.decode);
            var cue, n := Contains(Lower(userMsg), CategoryCue), env.intents.sdg(userMsg);
            && (cue ==> forall i :: 0 <= i < |s.lastFilters| ==> s.lastFilters[i] in p.filters)
            && (forall i :: 0 <= i < |rw.filters| ==> rw.filters[i] in p.filters)
            && (forall i :: 0 <= i < |p.filters| ==>
                  (cue && p.filters[i] in s.lastFilters) || p.filters[i] in rw.filters
                  || (n.Some? && p.filters[i] == Filter(SdgColumn, "eq", Num(n.value))))
            && (HasColumnFilter(p.filters, SdgColumn) <==>
                  n.Some? || (cue && HasColumnFilter(s.lastFilters, SdgColumn)) || HasColumnFilter(rw.filters, SdgColumn))
            && p.aggregation == (if cue && AggregationTruthy(s.lastAggregation) then s.lastAggregation else rw.aggregation)
            && p.query == rw.rewrittenQuery.GetOr(userMsg)
  {
    var base := if Contains(Lower(userMsg), CategoryCue) then s.lastFilters else [];
    GoalMerge(base, Rewrite(s.history, userMsg, env.chat, env.decode).filters, env.intents.sdg(userMsg));
    assert !HasColumnFilter([], SdgColumn);
  }

  /** The retrieval branch of a turn that no earlier guard claims: it answers from
      passages unless all three searches come back empty, and then it answers the fixed
      text, makes no call beyond the rewrite and keeps the history. */
  lemma AskNothingFound(env: Env, s: State, userMsg: string)
    requires env.intents.improve(userMsg).None?
    requires forall j :: 1 <= j < 9 ==> !Fires(env, s.history, userMsg, Prepare(env, s, userMsg), j)
    ensures var t := Ask(env, s, userMsg);
            && (t.branch == Rag || t.branch == RagEmpty)
            && (t.branch == RagEmpty <==> |Cascade(env, Prepare(env, s, userMsg))| == 0)
            && (t.branch == RagEmpty ==>
                  && t.outcome == Answer(NoInfoInPatents) && t.calls == [RewriteRequest(s.history, userMsg)]
                  && t.state.history == s.history && t.state.lastCtxTokens == s.lastCtxTokens)
  {
    var p := Prepare(env, s, userMsg);
    var s1 := Persist(s, p);
    assert Ask(env, s, userMsg) == Finish(s1, userMsg, p, RagReply(env, s1, userMsg, p)) by {
      RouteFallsThrough(env, s1, userMsg, p);
    }
  }

  /** The retrieval branch when passages were found: the packed context has distinct
      numbers, keeps the passages' order and fits the budget; the calls are the rewrite,
      the summariser's, and one final call whose instructions allow exactly the packed
      numbers; and the summary's size is recorded. */
  lemma AskRetrieval(env: Env, s: State, userMsg: string)
    requires env.intents.improve(userMsg).None?
    requires forall j :: 1 <= j < 9 ==> !Fires(env, s.history, userMsg, Prepare(env, s, userMsg), j)
    requires |Cascade(env, Prepare(env, s, userMsg))| > 0
    ensures var t, p := Ask(env, s, userMsg), Prepare(env, s, userMsg);
            var ctx := PackContext(Cascade(env, p), env.tok);
            var summary := MapReduce(p.query, ContextLines(ctx), env.tok, env.chat);
            var last := FinalRequest(s.history, userMsg, ctx, summary.text);
            && t.branch == Rag
            && DistinctIds(ctx, PassagePub) && Subseq(ctx, Cascade(env, p)) && SumOf(ctx, TextCost(env.tok)) <= ContextBudget
            && t.calls == [RewriteRequest(s.history, userMsg)] + summary.calls + [last]
            && last.messages[0] == Message(System, SystemPrompt(AllowedIds(ctx), Fields(Lower(userMsg))))
            && t.outcome == Answer(env.chat(last))
            && t.state.lastCtxTokens == env.tok(summary.text)
  {
    var p := Prepare(env, s, userMsg);
    AskDispatches(env, s, userMsg);
    RagTurn(env, Persist(s, p), userMsg, p);
  }

  /** The retrieval branch, once the working state `s` and the rewrite `p` are fixed. */
  lemma RagTurn(env: Env, s: State, userMsg: string, p: Prepared)
    requires forall j :: 1 <= j < 9 ==> !Fires(env, s.history, userMsg, p, j)
    requires |Cascade(env, p)| > 0
    ensures var t := Finish(s, userMsg, p, Route(env, s, userMsg, p));
            var ctx := PackContext(Cascade(env, p), env.tok);
            var summary := MapReduce(p.query, ContextLines(ctx), env.tok, env.chat);
            var last := FinalRequest(s.history, userMsg, ctx, summary.text);
            && t.branch == Rag
            && t.calls == [p.rewriteCall] + summary.calls + [last]
            && t.outcome == Answer(env.chat(last))
            && t.state.lastCtxTokens == env.tok(summary.text)
  {
    var ctx := PackContext(Cascade(env, p), env.tok);
    var summary := MapReduce(p.query, ContextLines(ctx), env.tok, env.chat);
    var last := FinalRequest(s.history, userMsg, ctx, summary.text);
    var r := Reply(Answer(env.chat(last)), summary.calls + [last], Rag, Some(env.tok(summary.text)));
    assert Route(env, s, userMsg, p) == r by {
      RagReplyFound(env, s, userMsg, p);
      RouteFallsThrough(env, s, userMsg, p);
    }
    AppendAssoc([p.rewriteCall], summary.calls, [last]);
  }

  /** The retrieval reply when passages were found: the summariser's calls, then the
      answering call, whose answer is the reply; the summary's size is measured. */
  lemma RagReplyFound(env: Env, s: State, userMsg: string, p: Prepared)
    requires |Cascade(env, p)| > 0
    ensures var ctx := PackContext(Cascade(env, p), env.tok);
            var summary := MapReduce(p.query, ContextLines(ctx), env.tok, env.chat);
            var last := FinalRequest(s.history, userMsg, ctx, summary.text);
            RagReply(env, s, userMsg, p) == Reply(Answer(env.chat(last)), summary.calls + [last], Rag, Some(env.tok(summary.text)))
  {
  }

  /** When no guard of the stages 1 to 8 holds, the retrieval branch answers. */
  lemma RouteFallsThrough(env: Env, s: State, userMsg: string, p: Prepared)
    requires forall j :: 1 <= j < 9 ==> !Fires(env, s.history, userMsg, p, j)
    ensures Route(env, s, userMsg, p) == RagReply(env, s, userMsg, p)
  {
    assert FirstStage(env, s.history, userMsg, p, 1) == 9;
    assert Route(env, s, userMsg, p) == BranchReply(env, s, userMsg, p, 9);
    assert BranchReply(env, s, userMsg, p, 9) == TableReply(env, s, userMsg, p, 9);
  }
}
