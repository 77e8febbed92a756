/** The query rewriter: one chat call turns the user's question (with recent history)
    into a structured search spec, which is then cut down to whitelisted columns. The
    JSON decoder is outside the model: it is a partial function from text to a spec. */
module QueryRewrite {
  import opened Wrappers
  import opened Strings
  import opened Seqs
  import opened Values
  import opened FilterOps
  import opened Llm

  /** The table columns a spec may mention. */
  const Whitelist: seq<string> := [
    "publication_number", "publication_kind", "publication_date", "ipc", "cpc",
    "title_en", "claims", "abstract_text", "description_text", "prior_art",
    "reference", "parent", "pct_publication_number",
    "designated_states_contracting", "designated_states_extension",
    "designated_states_validation", "sdg_number", "analysis_explanation",
    "ipc_tech_field", "ipc_technologies", "applicant_names",
    "applicant_countries", "applicant_count", "inventor_names",
    "inventor_countries", "inventor_count", "parent_publication_number"
  ]

  /** The optional aggregation request: which column to group on and how many groups.
      `otherKeys` records whether the object held any further keys, which matters only
      for its truthiness. */
  datatype Aggregation = Aggregation(groupBy: Option<string>, topK: Option<int>, otherKeys: bool)

  /** `bool(aggregation)`: a dictionary is truthy when it has a key. */
  predicate AggregationTruthy(a: Option<Aggregation>) {
    a.Some? && (a.value.groupBy.Some? || a.value.topK.Some? || a.value.otherKeys)
  }

  /** The structured spec; a key absent from the reply reads as `None` or `[]`. */
  datatype Spec = Spec(rewrittenQuery: Option<string>, columnPriority: seq<string>,
                       filters: seq<Filter>, aggregation: Option<Aggregation>)

  /** The instructions sent ahead of the conversation. Their wording is not modelled. */
  const MetaPrompt := "Translate the patent-search question into a strict JSON spec over the whitelisted columns."

  /** How many history messages the rewriter sees. */
  const HistoryWindow := 10

  const RewriteTemperature: real := 0.0
  const RewriteMaxTokens: nat := 512

  /** The rewriter's chat call: instructions, the last ten history messages, the question. */
  function RewriteRequest(history: seq<Message>, userMsg: string): (r: ChatRequest)
    ensures var n := if |history| < HistoryWindow then |history| else HistoryWindow;
            && |r.messages| == n + 2
            && r.messages[0] == Message(System, MetaPrompt)
            && r.messages[1..n + 1] == history[|history| - n..]
            && r.messages[n + 1] == Message(User, userMsg)
    ensures r.temperature == RewriteTemperature && r.maxTokens == RewriteMaxTokens
  {
    var recent := Slice(history, -HistoryWindow, |history|);
    var r := ChatRequest([Message(System, MetaPrompt)] + recent + [Message(User, userMsg)],
                         RewriteTemperature, RewriteMaxTokens);
    assert r.messages[1..|recent| + 1] == recent;
    r
  }

  /** Index of the first occurrence of `c`. */
  function FirstIndex(s: string, c: char): (r: Option<nat>)
    ensures r.Some? ==> r.value < |s| && s[r.value] == c && forall i :: 0 <= i < r.value ==> s[i] != c
    ensures r.None? ==> forall i :: 0 <= i < |s| ==> s[i] != c
  {
    if |s| == 0 then None
    else if s[0] == c then Some(0)
    else match FirstIndex(s[1..], c)
      case None => None
      case Some(i) => Some(i + 1)
  }

  /** Index of the last occurrence of `c`. */
  function LastIndexOf(s: string, c: char): (r: Option<nat>)
    ensures r.Some? ==> r.value < |s| && s[r.value] == c && forall i :: r.value < i < |s| ==> s[i] != c
    ensures r.None? ==> forall i :: 0 <= i < |s| ==> s[i] != c
  {
    if |s| == 0 then None
    else if s[|s| - 1] == c then Some(|s| - 1)
    else LastIndexOf(s[..|s| - 1], c)
  }

  /** Some `{` comes before some `}`. */
  predicate HasBraces(raw: string) {
    exists i, j :: 0 <= i < j < |raw| && raw[i] == '{' && raw[j] == '}'
  }

  /** The greedy, dot-matches-all search for `{.*}`: from the first `{` to the last `}`. */
  function BraceSpan(raw: string): (r: Option<string>)
    ensures r.None? <==> !HasBraces(raw)
    ensures r.Some? ==>
              exists i, j :: 0 <= i < j < |raw| && r.value == raw[i..j + 1] &&
                             raw[i] == '{' && (forall k :: 0 <= k < i ==> raw[k] != '{') &&
                             raw[j] == '}' && (forall k :: j < k < |raw| ==> raw[k] != '}')
  {
    match (FirstIndex(raw, '{'), LastIndexOf(raw, '}'))
    case (Some(i), Some(j)) =>
      if i < j then Some(raw[i..j + 1])
      else
        assert !HasBraces(raw) by {
          forall a, b | 0 <= a < b < |raw| && raw[a] == '{' ensures raw[b] != '}' {
            assert i <= a;
          }
        }
        None
    case _ => None
  }

  /** The answer used when the reply holds no JSON object or does not decode. */
  function Fallback(userMsg: string): Spec {
    Spec(Some(userMsg), [], [], None)
  }

  predicate Whitelisted(c: string) { c in Whitelist }

  predicate FilterWhitelisted(f: Filter) { f.column in Whitelist }

  /** Keeps the whitelisted priority columns and filters, in order and with their
      repeats; the other keys pass through unchanged. */
  function Sanitize(d: Spec): (r: Spec)
    ensures r.rewrittenQuery == d.rewrittenQuery && r.aggregation == d.aggregation
    ensures Subseq(r.columnPriority, d.columnPriority) && Subseq(r.filters, d.filters)
    ensures forall i :: 0 <= i < |r.columnPriority| ==> r.columnPriority[i] in Whitelist
    ensures forall i :: 0 <= i < |d.columnPriority| && d.columnPriority[i] in Whitelist ==>
              d.columnPriority[i] in r.columnPriority
    ensures forall i :: 0 <= i < |r.filters| ==> r.filters[i].column in Whitelist
    ensures forall i :: 0 <= i < |d.filters| && d.filters[i].column in Whitelist ==> d.filters[i] in r.filters
  {
    Spec(d.rewrittenQuery, Keep(d.columnPriority, Whitelisted), Keep(d.filters, FilterWhitelisted), d.aggregation)
  }

  /** Sanitising drops no repeat: a whitelisted column or filter listed several times
      is kept as many times, so a repeated priority column still earns its bonus at
      each position. */
  lemma SanitizeKeepsRepeats(d: Spec)
    ensures var r := Sanitize(d);
            && (forall i :: 0 <= i < |d.columnPriority| && d.columnPriority[i] in Whitelist ==>
                  multiset(r.columnPriority)[d.columnPriority[i]] == multiset(d.columnPriority)[d.columnPriority[i]])
            && (forall i :: 0 <= i < |d.filters| && d.filters[i].column in Whitelist ==>
                  multiset(r.filters)[d.filters[i]] == multiset(d.filters)[d.filters[i]])
  {
    KeepCountsAt(d.columnPriority, Whitelisted);
    KeepCountsAt(d.filters, FilterWhitelisted);
  }

  /** Sanitising twice is sanitising once. */
  lemma SanitizeIdempotent(d: Spec)
    ensures Sanitize(Sanitize(d)) == Sanitize(d)
  {
    KeepIdempotent(d.columnPriority, Whitelisted);
    KeepIdempotent(d.filters, FilterWhitelisted);
  }

  /** A spec that mentions only whitelisted columns is left as it is. */
  lemma SanitizeKeepsClean(d: Spec)
    requires forall i :: 0 <= i < |d.columnPriority| ==> d.columnPriority[i] in Whitelist
    requires forall i :: 0 <= i < |d.filters| ==> d.filters[i].column in Whitelist
    ensures Sanitize(d) == d
  {
    assert forall i :: 0 <= i < |d.columnPriority| ==> Whitelisted(d.columnPriority[i]);
    assert forall i :: 0 <= i < |d.filters| ==> FilterWhitelisted(d.filters[i]);
  }

  /** Every column a spec names is whitelisted. */
  predicate Clean(s: Spec) {
    && (forall i :: 0 <= i < |s.columnPriority| ==> s.columnPriority[i] in Whitelist)
    && (forall i :: 0 <= i < |s.filters| ==> s.filters[i].column in Whitelist)
  }

  /** `rewrite(chat_hist, user_msg)`, with the chat model and the JSON decoder as
      parameters. */
  function Rewrite(history: seq<Message>, userMsg: string, chat: Chat, decode: string -> Option<Spec>): (r: Spec)
    ensures Clean(r)
    ensures !HasBraces(chat(RewriteRequest(history, userMsg))) ==> r == Fallback(userMsg)
    ensures var span := BraceSpan(chat(RewriteRequest(history, userMsg)));
            span.Some? ==> r == (match decode(span.value)
                                 case None => Fallback(userMsg)
                                 case Some(d) => Sanitize(d))
  {
    match BraceSpan(chat(RewriteRequest(history, userMsg)))
    case None => Fallback(userMsg)
    case Some(span) =>
      match decode(span)
      case None => Fallback(userMsg)
      case Some(d) => Sanitize(d)
  }

  /** A reply with no opening brace, or with no closing one, falls back to the message
      itself with no priority and no filters. */
  lemma NoBracesFallsBack(history: seq<Message>, userMsg: string, chat: Chat, decode: string -> Option<Spec>)
    requires var reply := chat(RewriteRequest(history, userMsg));
             (forall k :: 0 <= k < |reply| ==> reply[k] != '{') || (forall k :: 0 <= k < |reply| ==> reply[k] != '}')
    ensures Rewrite(history, userMsg, chat, decode) == Fallback(userMsg)
  {
    var reply := chat(RewriteRequest(history, userMsg));
    assert !HasBraces(reply);
  }
}
