# A Dafny model of the patent question-answering pipeline

The system answers questions about a table of patents. Each chat turn goes
through `RAGPipeline.ask` in this order:

1. A request to build on a named patent is answered first.
2. The language model rewrites the question into a structured spec: a
   rewritten query, a column priority, filters and an optional aggregation.
3. The turn's working filters are formed:
   - filters from the previous turn are inherited under the cue "this category";
   - the rewriter's filters are merged in without duplicates;
   - a sustainable-development-goal filter is forced in when the message names `sdg N`.
4. The branches are tried in a fixed order. The first one whose trigger fires answers:
   - A: metadata of the last cited patent;
   - B: the inventor's view;
   - C: claims;
   - D: prior art;
   - E: family;
   - F: filings per year;
   - G: latest patents;
   - H: aggregation.
5. If none fires, branch I answers by retrieval:
   - up to three searches, each less constrained than the one before;
   - de-duplication and packing of the passages within a token budget;
   - map-reduce summarisation when the context is too long;
   - one final answering call whose instructions allow citing only the packed patents.

The model covers that orchestrator and the pieces it is built from:
- the filter predicate `apply_filter` and its date parser `_to_date`;
- the aggregations `top_k_group` and `group_by_year`;
- the post-index part of `PassageRetriever.search`: filter, keep one chunk per patent, re-rank, cut;
- `map_reduce_summarise`;
- the query rewriter's JSON extraction and whitelist sanitising;
- the bounded chat history;
- the indexer's word-window chunker `iter_chunks`;
- `concat_text`.

Every outside service is a parameter of `Pipeline.Env`:
- the chat model, a function from a request to its answer text;
- the token counter;
- the vector index's answer, a list of candidates, best first;
- the JSON decoder;
- pandas' coercing date parser;
- the regular expressions that recognise each kind of question.

A turn returns its answer, or `Raised` when the Python code would raise. It also
returns the next state and the list of chat requests it made, in order, so
contracts can say which model calls a turn makes.

Modules follow the source files:
- `FilterOps` models `src/filter_ops.py`;
- `StatsEngine` models `src/stats_engine.py`;
- `Retrieval` models `src/retrieval.py`;
- `Summarise` models `src/summarise.py`;
- `QueryRewrite` models `src/query_rewrite.py`;
- `EmbedBuild` models `src/embed_build.py`;
- `DataIngest` models `src/data_ingest.py`;
- `PipelineSteps` and `Pipeline` model `src/pipeline.py`.

Shared helpers: `Wrappers`, `Strings`, `Seqs`, `Sorting`, `Values` (cells and dates)
and `Llm` (messages and requests).

The model keeps some quirks of the code exactly as written:
- `eq` and `neq` compare printed forms case-sensitively.
- A plain string given to `in` is matched character by character.
- `between` on two numbers is `lte`.
- `_to_date` cuts its input to the length of the format string before parsing. So
  it accepts only `YYYY-M-D` or `YYYY/M/D` with one-digit month and day, and it
  rejects the full ISO dates the rewriter's own prompt uses. A `between` filter
  over such a range passes no row (`FilterOps.IsoRangeRejectsEveryRow`).
- The map phase emits an empty first chunk when the first body alone is over budget.
- The "not found" and "not enough information" early returns leave the history alone.

## Model

| member | source | states |
|---|---|---|
| FilterOps.ToDate | src/filter_ops.py:17-25 | A timestamp passes through unchanged. Any other value is a date exactly when its printed text begins `YYYY-M-D` or `YYYY/M/D` (one-digit month and day, year at least 1), and the date is read from those characters. |
| FilterOps.ToDateText | src/filter_ops.py:20-24 | The four-format cascade over the cut texts succeeds exactly on those two short shapes; the `%Y-%m` and `%Y` attempts can never succeed. |
| FilterOps.StrptimeShort | src/filter_ops.py:22 | `strptime` with `%Y-%m-%d` or `%Y/%m/%d` on at most 8 characters succeeds exactly on `YYYY<sep>M<sep>D` with non-zero single digits. |
| FilterOps.FirstMonthDayShort | src/filter_ops.py:22 | In at most 8 characters, only the one-digit month alternative of the `%m` regex can be followed by a separator and a day, and the match then ends at 8. |
| FilterOps.StrptimeTooShort | src/filter_ops.py:20-22 | `%Y-%m` cut to 5 characters and `%Y` cut to 2 characters never parse. |
| FilterOps.IsoDateNeverParses | src/filter_ops.py:20-22 | A text with a digit at index 6, such as `2022-01-01`, is not a date. |
| FilterOps.ToDateShortExamples | src/filter_ops.py:20-22 | `2022-1-5` is 5 January 2022, but `2022/3/15` is 1 March 2022, because the day is cut to one digit. |
| FilterOps.NumberNeverParses | src/filter_ops.py:17-25 | No number is a date, not even an integer written `YYYYMMDD`. |
| FilterOps.ToDateRejectExamples | src/filter_ops.py:20-22 | `2022-01-01` and the number 20220101 both fail to parse. |
| FilterOps.EqIsExactNeqIsNegation | src/filter_ops.py:37-40 | `eq` is equality of the printed forms, and `neq` is its exact negation. |
| FilterOps.EqIsCaseSensitive | src/filter_ops.py:37-38 | `Water` is not `eq` to `water`. |
| FilterOps.TextOpsIgnoreCase | src/filter_ops.py:41-44 | `contains` and `startswith` always decide, and they give the same answer on the lowercased row and operand. |
| FilterOps.ContainsEmptyMatchesAll | src/filter_ops.py:41-42 | An empty `contains` operand passes every row. |
| FilterOps.InSequenceOperand | src/filter_ops.py:45-48 | `in` with a sequence passes exactly when some lowercased element occurs in the lowercased row text. |
| FilterOps.InSingletonIsContains | src/filter_ops.py:45-48 | `in` with a one-element list is `contains` with that element. |
| FilterOps.InTextIsPerCharacter | src/filter_ops.py:46-48 | `in` with text passes exactly when one of its characters, lowercased, occurs in the row; with empty text it is false. |
| FilterOps.InTextExample | src/filter_ops.py:45-48 | `solar` passes `in "xyz!a"` but fails `contains "xyz!a"`. |
| FilterOps.InScalarIsContains | src/filter_ops.py:49 | `in` with an operand that is not a sequence is `contains`. |
| FilterOps.NumericComparisons | src/filter_ops.py:52-54 | On two numbers, `gte` and `lte` compare numerically, and `between` is `lte`. |
| FilterOps.DateOpsNeedRowDate | src/filter_ops.py:55-57 | Unless both sides are numbers, a row value that is not a date fails every date comparison with a plain false. |
| FilterOps.BetweenTwoBounds | src/filter_ops.py:58-60 | With two bounds, `between` answers `None` when a bound is not a date; otherwise it answers whether start <= row <= end. |
| FilterOps.IsoRangeRejectsEveryRow | src/filter_ops.py:58-60 | `between ["2022-01-01", "2024-12-31"]` passes no row. |
| FilterOps.UnknownOpFailsOpen | src/filter_ops.py:64-65 | An operator outside the eight known ones passes every row. |
| FilterOps.NoneOnlyFromDates | src/filter_ops.py:52-62 | Only a date comparison on a parseable row can answer `None`. |
| StatsEngine.CellTokens | src/stats_engine.py:13-16 | A cell gives one entry per piece of its text split at `;`, `,` and `\|`, each piece stripped of surrounding whitespace; entries hold no separator. |
| StatsEngine.CellWithoutSeparators | src/stats_engine.py:14-16 | A cell without separators gives exactly its stripped text. |
| StatsEngine.TokensSnoc | src/stats_engine.py:10-16 | A further row appends all of its cell's entries, repeats within the cell included; a missing cell adds nothing. |
| StatsEngine.Counted | src/stats_engine.py:17 | One entry per distinct value, each carrying its exact number of occurrences; every value is listed. |
| StatsEngine.TopKGroup | src/stats_engine.py:5-20 | At most `k` entries with distinct values and exact positive counts, in non-increasing count order. A value left out means `k` entries were kept and each outnumbers it or ties. |
| StatsEngine.MostFrequentLeads | src/stats_engine.py:17-18 | A value more frequent than every other heads the table whenever `k >= 1`. |
| StatsEngine.TopKGroupExample | src/stats_engine.py:10-20 | Cells `A;B` and `A, C` put `A` first with count 2. |
| StatsEngine.ParsedYears | src/stats_engine.py:26 | No year is left exactly when no cell parses as a date. |
| StatsEngine.Tally | src/stats_engine.py:27 | The counts are ascending by year; every year's count equals its multiplicity in the input; counts are positive and sum to the input length. |
| StatsEngine.BumpCounts | src/stats_engine.py:27 | Counting one more year adds one to that year and leaves every other year alone. |
| StatsEngine.GroupByYear | src/stats_engine.py:22-28 | Years are ascending, each with its exact number of parseable cells. The counts sum to the number of parseable cells, and the table is empty exactly when none parses. |
| Retrieval.RowMatches | src/retrieval.py:47-54 | A chunk matches exactly when every filter passes. `_chunk_text` addresses the chunk and an absent column reads as empty text. |
| Retrieval.Hits | src/retrieval.py:66-78 | No filters keep every candidate, and filtering never adds one. |
| Retrieval.HitsSound | src/retrieval.py:66-78 | Every hit is a candidate that passes the filters. |
| Retrieval.HitsInOrder | src/retrieval.py:66-78 | The hits are the candidates that pass, in candidate order, with each passing candidate's hit as often as among all the hits. |
| Retrieval.HitsComplete | src/retrieval.py:66-78 | Every candidate that passes the filters is a hit. |
| Retrieval.SourceOfHit | src/retrieval.py:80-88 | The first hit of a patent comes from that patent's first passing candidate. |
| Retrieval.KeptHasPatent | src/retrieval.py:80-88 | De-duplication keeps every patent that has a passing chunk. |
| Retrieval.ColumnWeight | src/retrieval.py:92 | A column weighs `len(order) - i` for its last position `i`, so the weight lies between 1 and `len(order)`. |
| Retrieval.BonusOver | src/retrieval.py:94-101 | The bonus is 0 when no listed cell holds a query word and at least one per column when every one does; it never exceeds `len(cols) * len(order)`. |
| Retrieval.Bonus | src/retrieval.py:94-101 | A query with no words earns no bonus. |
| Retrieval.BonusOverSnoc | src/retrieval.py:94-101 | Walking one more listed column adds that column's weight exactly when its lowered cell is non-empty and holds a query word, and adds nothing otherwise. |
| Retrieval.RepeatedColumnWeighsByLastPosition | src/retrieval.py:92-101 | Example: with the priority `["a", "b", "a"]`, column `a` takes the weight of its later position and is counted at both. |
| Retrieval.Ranked | src/retrieval.py:90-107 | The ranking is a rearrangement of the de-duplicated hits with distinct patents. With a priority it is sorted by descending `-distance + bonus`; without one, by ascending distance. The sort is stable: hits with equal keys keep their de-duplicated order. |
| Retrieval.WordlessQueryRanksByDistance | src/retrieval.py:94-107 | A query with no words ranks by distance alone, whatever the priority. |
| Retrieval.ProjectAll | src/retrieval.py:109-110 | Each passage keeps only number, title and text; distinct patents stay distinct. |
| Retrieval.Search | src/retrieval.py:57-110 | The result is a prefix of the ranking, at most `top_k` long, projected, with distinct patents. |
| Retrieval.SearchSources | src/retrieval.py:66-110 | Every passage returned is the first passing chunk of its patent. |
| Retrieval.RankedHasPatent | src/retrieval.py:80-107 | Every patent with a passing chunk is ranked. |
| Retrieval.SearchComplete | src/retrieval.py:109-110 | A patent with a passing chunk is missing from the answer only when the answer already holds `top_k` passages. |
| Summarise.SplitAtMark | src/summarise.py:22 | Split at the first `\|\|`: the passage is head, mark, body, and the head has no mark. |
| Summarise.SplitPassage | src/summarise.py:19-26 | Header and body are the stripped text around the first mark; without a mark the header is the whole stripped passage and the body is empty. |
| Summarise.PackFlatten | src/summarise.py:29-38 | Concatenating the map groups gives back the bodies, in order. |
| Summarise.PackBudget | src/summarise.py:29-38 | Every group with two or more bodies fits the 4096-token budget. |
| Summarise.PackEmptyGroup | src/summarise.py:32-38 | No bodies give no groups. Only the first group can be empty, and it is empty exactly when the first body alone exceeds the budget. |
| Summarise.PackGreedy | src/summarise.py:32-36 | A group is closed only when the next body would push it over the budget. |
| Summarise.MapRequests | src/summarise.py:41-48 | One request per group, numbered `i+1` of `n`, with the group's text, temperature 0.2 and 512 tokens. |
| Summarise.AttachSnoc | src/summarise.py:61-62 | Each header adds one `h \|\| summary` paragraph, after a blank line, in order. |
| Summarise.Attach | src/summarise.py:61-62 | One header gives `h \|\| summary`; no headers give empty text. |
| Summarise.MapReduce | src/summarise.py:8-62 | Below 60000 tokens the passages are joined unchanged with no call; from 60000 on, the map-reduce path runs. |
| Summarise.MapThenReduce | src/summarise.py:40-59 | The map-reduce path makes exactly one call per group plus one. |
| Summarise.MapThenReduceMaps | src/summarise.py:40-48 | The first calls are the map calls, in group order. |
| Summarise.MapThenReduceReduce | src/summarise.py:50-62 | The last call combines the map answers, and its answer is attached to every header. |
| QueryRewrite.RewriteRequest | src/query_rewrite.py:78-81 | The rewrite call sends the instructions, at most the last ten history messages in order, then the question, at temperature 0 with 512 tokens. |
| QueryRewrite.BraceSpan | src/query_rewrite.py:82 | The candidate runs from the first `{` to the last `}` after it; there is none exactly when no such pair exists. |
| QueryRewrite.Sanitize | src/query_rewrite.py:87-89 | Priority and filters keep exactly their whitelisted entries, in order; the other keys pass through. |
| QueryRewrite.SanitizeIdempotent | src/query_rewrite.py:87-89 | Sanitising twice is sanitising once. |
| QueryRewrite.SanitizeKeepsClean | src/query_rewrite.py:87-89 | A spec that names only whitelisted columns is unchanged. |
| QueryRewrite.SanitizeKeepsRepeats | src/query_rewrite.py:87-89 | A whitelisted priority column or filter occurs in the sanitised spec exactly as often as in the parsed one. |
| QueryRewrite.Rewrite | src/query_rewrite.py:77-92 | The result is always clean. No braces, or an undecodable span, gives the fallback spec for the question; otherwise it is the sanitised decoded span. |
| QueryRewrite.NoBracesFallsBack | src/query_rewrite.py:78-84 | A reply with no `{`, or with no `}`, falls back to the message itself with no priority and no filters. |
| EmbedBuild.IterChunks | src/embed_build.py:13-17 | `range` raises exactly when `max_tokens == overlap`. |
| EmbedBuild.IterChunksShape | src/embed_build.py:13-17 | The chunk count is the least `c` with `c * step` reaching the word count. Chunk `k` is the words from `k * step`, at most `max_tokens` of them, joined by spaces. |
| EmbedBuild.ChunkWords | src/embed_build.py:17 | Splitting a chunk again gives back its window, which holds between 1 and `max_tokens` words. |
| EmbedBuild.BlankTextMakesNothing | src/embed_build.py:14-16 | Whitespace-only text yields no chunks. |
| EmbedBuild.NegativeStepMakesNothing | src/embed_build.py:15-16 | An overlap larger than the window yields no chunks. |
| EmbedBuild.ChunksCoverEveryWord | src/embed_build.py:15-17 | With `0 <= overlap < max_tokens`, every word lies in some chunk's window. |
| EmbedBuild.ConsecutiveChunksOverlap | src/embed_build.py:15-17 | The last `overlap` words of a full window are the first `overlap` words of the next. |
| Strings.WordsOfJoin | src/embed_build.py:14-17 | Words joined by single spaces split back into the same words. |
| DataIngest.Pieces | src/data_ingest.py:23 | Nothing is contributed exactly when every listed cell is missing. |
| DataIngest.ConcatText | src/data_ingest.py:22-23 | The call raises exactly when a listed column is absent, and all-missing cells give empty text. |
| DataIngest.ConcatTextSnoc | src/data_ingest.py:23 | A further missing column changes nothing. Any other column adds its text (empty if falsy), after `sep` unless nothing came before. |
| DataIngest.ConcatTextExample | src/data_ingest.py:23 | Example: in one row, a zero prints as empty text between two separators and a missing cell is skipped. |
| PipelineSteps.Extend | src/pipeline.py:30 | The deque keeps the newest `2 * max_history` messages of the old history followed by the new ones. |
| PipelineSteps.ExtendTwice | src/pipeline.py:30 | Two extensions are one extension with both batches: only the oldest messages are evicted. |
| PipelineSteps.ExtendKeepsNewest | src/pipeline.py:30 | A batch that fits ends the history. |
| PipelineSteps.Init | src/pipeline.py:25-35 | A new pipeline keeps at most twice `max_history` messages. It starts with an empty history, no remembered filters, no remembered aggregation and a context size of 0. |
| PipelineSteps.Remember | src/pipeline.py:402-405 | Recording an exchange keeps the history within its bound and changes nothing else. |
| PipelineSteps.RememberAppendsExchange | src/pipeline.py:402-405 | The last two messages are the question, then the answer; the older messages are the newest of the previous history. |
| PipelineSteps.Inherited | src/pipeline.py:98-103 | The last filters and aggregation are inherited exactly when the lowercased message contains "this category". |
| PipelineSteps.MergeFilters | src/pipeline.py:109-111 | The inherited filters stay first and every rewriter filter is present. Nothing else is added, and no duplicate is introduced. |
| PipelineSteps.MergeKnownFilters | src/pipeline.py:109-111 | Filters already present add nothing. |
| PipelineSteps.MergeHasColumn | src/pipeline.py:109-111 | The merge has a filter on a column exactly when either side had one. |
| PipelineSteps.InsertSdg | src/pipeline.py:116-121 | The goal filter goes first exactly when a goal is named and no filter is on `sdg_number`; otherwise the filters are unchanged. |
| PipelineSteps.InsertSdgIdempotent | src/pipeline.py:116-121 | Forcing the goal filter twice is forcing it once. |
| PipelineSteps.GoalMerge | src/pipeline.py:106-121 | The working filters hold every inherited and every rewriter filter, nothing else but the forced goal filter. A goal filter is present exactly when one was named or either side had one. |
| PipelineSteps.FilterDf | src/pipeline.py:37-49 | Without filters the table is unchanged. Otherwise the result is exactly the rows passing every filter, in order and each as often as in the input, and a filter answering `None` raises. |
| PipelineSteps.PackContext | src/pipeline.py:361-373 | The packed context has distinct patents, keeps the passages' order and fits 58000 tokens. |
| PipelineSteps.PackContextStops | src/pipeline.py:361-373 | Packing is the de-duplicated run up to a stop. The stop is the end, or a new patent whose text would break the budget. |
| PipelineSteps.AllowedIds | src/pipeline.py:385 | An empty context allows `NONE`, and so does a single passage with an empty number. Otherwise every packed number occurs in the list, which is never empty text. |
| PipelineSteps.AllowedIdsSnoc | src/pipeline.py:385 | One more passage appends `, ` and its number once the list is non-empty text, so the list is the numbers in packing order. |
| PipelineSteps.OrdinalSuffixRule | src/pipeline.py:264-267 | The `10..20` test gives the English rule: st, nd, rd after a last digit of 1, 2, 3 except 11, 12, 13; th otherwise. |
| PipelineSteps.OrdnExamples | src/pipeline.py:264-267 | 1st, 2nd, 3rd, 4th. |
| PipelineSteps.OrdnTeenExamples | src/pipeline.py:264-267 | 11th, 12th, 13th. |
| PipelineSteps.OrdnTwentiesExamples | src/pipeline.py:264-267 | 21st, 22nd, 23rd, 31st. |
| PipelineSteps.LastCiting | src/pipeline.py:132-136 | The newest assistant message with a parenthesis is found, or there is none. |
| PipelineSteps.ParenId | src/pipeline.py:137 | The digits of the leftmost parenthesised number, or none exactly when there is none. |
| PipelineSteps.ParenIdExample | src/pipeline.py:137 | `(ab) (7)` gives `7`. |
| PipelineSteps.CitedId | src/pipeline.py:131-137 | The cited number comes from a citing answer; with no citing answer there is none. |
| PipelineSteps.CitedIdUsesNewest | src/pipeline.py:131-137 | Only the newest citing answer is consulted. |
| PipelineSteps.FirstUpperRun | src/pipeline.py:226 | The first maximal run of capitals and digits, or none exactly when the message has no capital or digit. |
| PipelineSteps.UpperRunExample | src/pipeline.py:226 | `family of EP12 please` gives `EP12`. |
| Pipeline.FindRow | src/pipeline.py:62 | The first row whose number prints as the id, or none exactly when no row does (the number column taken as present). |
| Pipeline.ImproveTurn | src/pipeline.py:59-94 | An unknown patent changes nothing and makes no call. A known one records the exchange; either way the remembered filters stay. |
| Pipeline.AskImprove | src/pipeline.py:55-94 | The improve request answers before the rewrite and keeps filters, aggregation and context size. The fixed apology, with no state change and no call, comes exactly when the patent is unknown; otherwise one brainstorming call over the row. |
| Pipeline.MetaReplyCases | src/pipeline.py:138-158 | An unknown cited patent gets the fixed apology. A known one is described with its inventors and applicants; either way the answer is recorded. |
| Pipeline.InventorReplyCases | src/pipeline.py:168-181 | The inventor's explanation is quoted when present and not missing; otherwise the fixed apology, recorded either way. |
| Pipeline.ClaimsReplyCases | src/pipeline.py:184-201 | The early return, with no call, happens exactly when the patent is unknown or its claims are falsy; otherwise one call sends the claims. |
| Pipeline.PriorArtReplyCases | src/pipeline.py:204-222 | The early return happens exactly when the patent is unknown or `prior_art` is falsy; a truthy non-text cell raises. Otherwise the answer is the cited numbers' bullets, one per cited number in citation order, joined by newlines. |
| Pipeline.CitedArts | src/pipeline.py:211 | The cited numbers are the non-empty stripped pieces of the text split at `;` and `,`, in order, each as often as it occurs among the pieces. |
| Pipeline.ArtBullets | src/pipeline.py:212-216 | One bullet per cited number, in order, each the bullet for that number. |
| Pipeline.FamilyReplyCases | src/pipeline.py:225-245 | The early return happens exactly when no row is the patent or names it as parent; without the parent column the lookup raises (the number, title and date columns taken as present). |
| Pipeline.FiledReplyCases | src/pipeline.py:248-259 | The early return happens exactly when no filtered row has a parseable date; a filter answering `None` or an absent date column raises. |
| Pipeline.NewestFirstOrder | src/pipeline.py:269-271 | The order rearranges the rows: dated rows come first, by non-increasing date, then undated ones. |
| Pipeline.LatestBullets | src/pipeline.py:272-283 | One non-empty bullet per listed row; the call raises exactly when a listed date cannot be formatted (the number and title columns taken as present). |
| Pipeline.LatestReplyCases | src/pipeline.py:261-288 | The latest branch raises exactly when a filter raises, the date column is missing or a listed date cannot be formatted (the number and title columns taken as present). Otherwise it answers the no-information line when no row is listed and the listed rows' bullets joined by newlines when some are. |
| Pipeline.FirstExample | src/pipeline.py:304-318 | The exemplar is the number and title of the first matching row, or none exactly when no row matches. |
| Pipeline.AggregateReply | src/pipeline.py:291-337 | Aggregation never calls the model and measures no context; when it returns early, the answer is the fixed "no information" text. |
| Pipeline.Cascade | src/pipeline.py:339-359 | The search comes back empty exactly when all three searches do: filters and priority, priority only, neither. At most 60 passages, distinct patents. |
| Pipeline.Fields | src/pipeline.py:384-388 | The fields are number, title and date, with the applicant countries exactly when the message mentions applicant or country. |
| Pipeline.FinalRequest | src/pipeline.py:390-400 | The answering call sends the citation rules, the whole history, then the question with the context. |
| Pipeline.RagReply | src/pipeline.py:339-406 | The retrieval branch returns the fixed text with no call and no new context size exactly when the cascade finds nothing. |
| Pipeline.FirstStage | src/pipeline.py:127-291 | The stage chosen is the first from `k` whose trigger fires, and its data is at hand. |
| Pipeline.BranchReply | src/pipeline.py:127-406 | The reply comes from the stage's branch. Only retrieval measures a context, and an early return makes no call. |
| Pipeline.Route | src/pipeline.py:127-406 | The branch answering after the rewrite is the first whose trigger fires. Only retrieval measures a context, and early returns make no call. |
| Pipeline.RoutePrecedence | src/pipeline.py:127-359 | The branch taken is stage `k` with its trigger firing and no earlier trigger firing. |
| Pipeline.RouteFallsThrough | src/pipeline.py:339-359 | When no trigger of A to H fires, retrieval answers. |
| Pipeline.Dispatch | src/pipeline.py:124-406 | The rewrite call comes first. An answering branch records exactly the question and its answer; an early return records nothing and makes no further call. Only retrieval changes the context size. |
| Pipeline.Ask | src/pipeline.py:52-406 | A turn keeps the history bound. An answer records exactly the question and the answer; an exception or an early return leaves the history as it was. |
| Pipeline.AskDispatches | src/pipeline.py:97-126 | Without an improve request, a turn is the rewrite, then the branches from the state that records the working filters. |
| Pipeline.AskAfterRewrite | src/pipeline.py:97-126 | After the rewrite, the working filters and aggregation are recorded whichever branch answers. The first call is the rewrite; the branch is the first whose trigger fires; an early return makes no further call and keeps the history. |
| Pipeline.WorkingFilters | src/pipeline.py:97-121 | The working filters are inherited only under the cue, merged with the rewriter's and given the goal filter as `InsertSdg` states. The inherited aggregation wins when truthy, and the query falls back to the message. |
| Pipeline.AskNothingFound | src/pipeline.py:349-359 | If no earlier trigger fires, the turn answers "not enough information" exactly when all three searches are empty. That turn makes only the rewrite call and keeps the history and context size. |
| Pipeline.AskRetrieval | src/pipeline.py:361-406 | The packed context has distinct patents, keeps order and fits 58000 tokens. The calls are the rewrite, the summariser's calls and one final call that allows exactly the packed numbers; the summary's size is recorded. |
| Pipeline.RagTurn | src/pipeline.py:361-406 | The retrieval branch's calls, answer and context size, once the state and the rewrite are fixed. |
| Strings.Lower | src/filter_ops.py:41-44 | `str.lower()` keeps the length and lowercases each character on its own. |
| Strings.Find | src/filter_ops.py:41-42 | `p in s` holds exactly when a position is found, and that is the leftmost occurrence. |
| Strings.Strip | src/summarise.py:25-26 | The result is the middle of the text once leading and trailing whitespace are removed; it neither starts nor ends with whitespace. |
| Strings.Words | src/embed_build.py:14 | `str.split()` gives non-empty pieces with no whitespace in them. |
| Strings.SplitOnAny | src/stats_engine.py:14 | `re.split` on a character class gives one more piece than the text has delimiters, and no piece holds a delimiter. |
| Strings.SplitOnAnyRejoin | src/stats_engine.py:14 | Putting each delimiter back between its neighbouring pieces rebuilds the text, so the pieces are exactly the stretches between delimiters. |
| Strings.StripAll | src/stats_engine.py:16 | Each piece stripped, in order. |
| StatsEngine.Tokens | src/stats_engine.py:10-16 | A column whose cells are all missing gives no entries. |
| Pipeline.Finish | src/pipeline.py:122-406 | The rewrite call precedes the branch's calls. Filters and aggregation stay as persisted, and only a measured context changes the context size. An exception or early return keeps the history; an answer appends the question and the answer. |
| Sorting.SortDesc | src/retrieval.py:103-107 | The sorted list is a rearrangement of the input in non-increasing key order. |
| Sorting.SortDescStable | src/retrieval.py:103-107 | `list.sort` is stable: the elements sharing any one key keep their input order. |
| Seqs.KeepCounts | src/query_rewrite.py:88-89 | A comprehension filter keeps every passing value as often as it occurs and drops every failing one. |
| Seqs.Dedupe | src/retrieval.py:80-88 | The de-duplicated list is an ordered subsequence with distinct ids and every id present; each item is the first occurrence of its id. |
| Seqs.Head | src/stats_engine.py:18 | `head(k)` is a prefix of length `min(k, n)`; a negative `k` drops the last `-k` items. |

## Left out

- Network, disk and console: `src/llm_clients.py`, `src/token_utils.py`, `src/config.py`, `src/demo_cli.py`, `data_ingest.load_csv`, `text_stats`, `embed_build.build_index` and the constructor of `PassageRetriever` are not part of this model. The chat model, the token counter and the vector index are parameters instead.
- The encoder and FAISS search in `search` are replaced by the candidate list they produce, in index order. The 400-candidate cap is that list's business.
- Regular-expression intent detection in `ask` (improve, inventor, claims, prior art, family, how-filed, latest, sdg) becomes oracle fields of `Env.intents`. The branch order, the plain substring cues and what each branch does with the extracted text are modelled.
- `json.loads` is an oracle from text to an optional spec. JSON `null` and an absent key are not told apart, and a decoded spec that is not a dictionary is not modelled.
- pandas `to_datetime(errors="coerce")` is an oracle `parseDate`. `_to_date`'s `strptime` is modelled for the four formats it tries.
- Case handling is ASCII-only. `str.split()` splits on ASCII whitespace and `str.strip()` strips ASCII whitespace, where Python uses Unicode whitespace for both. `%B` prints English month names.
- Floating-point values: numbers are integers, distances are reals, and NaN is the `Missing` cell. Only its comparisons and its printed form `nan` are modelled.
- Ties: pandas' `value_counts` and `sort_values` do not promise an order among equal keys. The model sorts them stably. The re-ranking's `list.sort` is stable, and the model states that.
- `is_string_dtype` in the exemplar search is approximated by "every non-missing cell is text". The `contains` there uses the key as a regular expression, which the model reads literally.
- Debug printing in `ask` and the `debug` flag are left out.
- StatsEngine.TopKGroup: a negative `k` drops the last entries as `head` does. The contract bounds the length only for `k >= 0`.
- Pipeline.AggregateReply: the bullet texts and the exemplar lookup are modelled, but the contract covers only the empty-table return and the absence of calls.
- Pipeline.MetaReplyCases: the novelty text (analysis, else abstract, else "not provided") is in the model but not in the contract.
- Summarise.MapReduce: the map-reduce path calls the chat oracle as a pure function, so two identical requests get the same answer.
- A negative `max_history` makes Python's `deque` raise; the model's history capacity is a natural number.
- Pipeline.ImproveTurn: an unknown patent returns the apology without recording the exchange, as src/pipeline.py:63-64 does.
- Malformed filters: every filter carries a column, an operator and a value. So the `KeyError` for a filter without `op` or `value` (src/retrieval.py:50, src/pipeline.py:47) is not modelled. Neither is the `AttributeError` for a filter element that is not a dict (src/query_rewrite.py:89), which escapes because only `JSONDecodeError` is caught (src/query_rewrite.py:91).
- Absent core columns: the table is taken to have the columns `publication_number`, `title_en`, `abstract_text`, `claims`, `analysis_explanation` and `publication_date`. The model reads an absent one as missing cells, where pandas raises `KeyError` (src/pipeline.py:62, 66-69, 141, 171, 188, 208, 214, 232, 237, 280, 318). The absences that are modelled as raising are those of `parent_publication_number`, of `publication_date` in the branches that read the whole column, and of the aggregation's group column.
- FindRow: an absent `publication_number` column finds no row instead of raising `KeyError` (src/pipeline.py:62).
- FamilyReplyCases: an absent `publication_number` column (src/pipeline.py:232), or an absent `title_en` or `publication_date` column when the family is not empty (src/pipeline.py:237), does not raise.
- LatestBullets: an absent `publication_number` or `title_en` column (src/pipeline.py:280) does not raise.
- LatestReplyCases: inherits the LatestBullets gap, so its "raises exactly when" leaves out those two absent columns.
