/** Map-reduce summarisation of the retrieved passages: passages that fit the context
    window pass through unchanged; otherwise their bodies are grouped into chunks of
    about 4096 tokens, each chunk is summarised, the partial summaries are combined,
    and the combined summary is re-attached to every passage header. */
module Summarise {
  import opened Wrappers
  import opened Strings
  import opened Seqs
  import opened Llm

  /** The context budget below which passages are returned as they are. */
  const MaxCtx: nat := 60000

  /** The token budget of one map chunk. */
  const ChunkBudget: nat := 4096

  const ParagraphBreak := "\n\n"

  const HeaderMark := "||"

  /** `p.split("||", 1)`: the text before the first mark and the text after it, or
      `None` when the mark does not occur. */
  function SplitAtMark(p: string): (r: Option<(string, string)>)
    ensures r.None? <==> !Contains(p, HeaderMark)
    ensures r.Some? ==> p == r.value.0 + HeaderMark + r.value.1 && !Contains(r.value.0, HeaderMark)
  {
    match Find(p, HeaderMark)
    case None => None
    case Some(i) =>
      assert p == p[..i] + HeaderMark + p[i + 2..];
      assert !Contains(p[..i], HeaderMark) by {
        forall j | 0 <= j <= i ensures !OccursAt(HeaderMark, p[..i], j) {
          if OccursAt(HeaderMark, p[..i], j) {
            assert OccursAt(HeaderMark, p, j);
          }
        }
      }
      Some((p[..i], p[i + 2..]))
  }

  /** The stripped header and body of a passage; a passage without the mark is all header. */
  function SplitPassage(p: string): (r: (string, string))
    ensures !Contains(p, HeaderMark) ==> r == (Strip(p), "")
    ensures Contains(p, HeaderMark) ==>
              exists h, b :: p == h + HeaderMark + b && !Contains(h, HeaderMark) && r == (Strip(h), Strip(b))
  {
    match SplitAtMark(p)
    case None => (Strip(p), "")
    case Some((h, b)) => (Strip(h), Strip(b))
  }

  function Header(p: string): string { SplitPassage(p).0 }

  function Body(p: string): string { SplitPassage(p).1 }

  // ---------------------------------------------------------------------------
  // The map-phase grouping
  // ---------------------------------------------------------------------------

  /** A group respects the budget, or it is a single body too large to share a chunk. */
  predicate FitsOrAlone(g: seq<string>, tok: TokenCounter) {
    |g| <= 1 || SumOf(g, tok) <= ChunkBudget
  }

  /** The grouping loop, resumed with the open buffer `buf` holding `bufTok` tokens. */
  function PackFrom(bodies: seq<string>, tok: TokenCounter, buf: seq<string>, bufTok: nat): (r: seq<seq<string>>)
    decreases |bodies|
  {
    if |bodies| == 0 then (if |buf| > 0 then [buf] else [])
    else
      var t := tok(bodies[0]);
      if bufTok + t > ChunkBudget then [buf] + PackFrom(bodies[1..], tok, [bodies[0]], t)
      else PackFrom(bodies[1..], tok, buf + [bodies[0]], bufTok + t)
  }

  /** The bodies grouped into map chunks, in order. */
  function Pack(bodies: seq<string>, tok: TokenCounter): seq<seq<string>> {
    PackFrom(bodies, tok, [], 0)
  }

  /** Grouping loses, duplicates and reorders nothing. */
  lemma {:induction false} PackFromFlatten(bodies: seq<string>, tok: TokenCounter, buf: seq<string>, bufTok: nat)
    ensures Flatten(PackFrom(bodies, tok, buf, bufTok)) == buf + bodies
    decreases |bodies|
  {
    if |bodies| == 0 {
      if |buf| > 0 {
        assert Flatten([buf]) == buf + Flatten([buf][1..]);
      }
    } else {
      var t := tok(bodies[0]);
      assert bodies == [bodies[0]] + bodies[1..];
      if bufTok + t > ChunkBudget {
        var rest := PackFrom(bodies[1..], tok, [bodies[0]], t);
        PackFromFlatten(bodies[1..], tok, [bodies[0]], t);
        assert ([buf] + rest)[1..] == rest;
      } else {
        PackFromFlatten(bodies[1..], tok, buf + [bodies[0]], bufTok + t);
      }
    }
  }

  lemma PackFlatten(bodies: seq<string>, tok: TokenCounter)
    ensures Flatten(Pack(bodies, tok)) == bodies
  {
    PackFromFlatten(bodies, tok, [], 0);
  }

  /** Every group fits the budget or is a lone body. */
  lemma {:induction false} PackFromBudget(bodies: seq<string>, tok: TokenCounter, buf: seq<string>, bufTok: nat)
    requires bufTok == SumOf(buf, tok) && FitsOrAlone(buf, tok)
    ensures forall k :: 0 <= k < |PackFrom(bodies, tok, buf, bufTok)| ==> FitsOrAlone(PackFrom(bodies, tok, buf, bufTok)[k], tok)
    decreases |bodies|
  {
    if |bodies| > 0 {
      var t := tok(bodies[0]);
      SumOfAppend(buf, [bodies[0]], tok);
      assert SumOf([bodies[0]], tok) == t by {
        assert [bodies[0]][1..] == [];
      }
      if bufTok + t > ChunkBudget {
        PackFromBudget(bodies[1..], tok, [bodies[0]], t);
      } else {
        PackFromBudget(bodies[1..], tok, buf + [bodies[0]], bufTok + t);
      }
    }
  }

  lemma PackBudget(bodies: seq<string>, tok: TokenCounter)
    ensures forall k :: 0 <= k < |Pack(bodies, tok)| ==> FitsOrAlone(Pack(bodies, tok)[k], tok)
  {
    PackFromBudget(bodies, tok, [], 0);
  }

  /** Only the first group can be empty, and it is exactly when the first body alone
      exceeds the budget. */
  lemma {:induction false} PackFromNonEmpty(bodies: seq<string>, tok: TokenCounter, buf: seq<string>, bufTok: nat)
    requires |buf| > 0
    ensures forall k :: 0 <= k < |PackFrom(bodies, tok, buf, bufTok)| ==> |PackFrom(bodies, tok, buf, bufTok)[k]| > 0
    decreases |bodies|
  {
    if |bodies| > 0 {
      var t := tok(bodies[0]);
      if bufTok + t > ChunkBudget {
        PackFromNonEmpty(bodies[1..], tok, [bodies[0]], t);
      } else {
        PackFromNonEmpty(bodies[1..], tok, buf + [bodies[0]], bufTok + t);
      }
    }
  }

  lemma PackEmptyGroup(bodies: seq<string>, tok: TokenCounter)
    ensures |bodies| == 0 ==> Pack(bodies, tok) == []
    ensures |bodies| > 0 ==>
              |Pack(bodies, tok)| > 0 && (|Pack(bodies, tok)[0]| == 0 <==> tok(bodies[0]) > ChunkBudget)
    ensures forall k :: 1 <= k < |Pack(bodies, tok)| ==> |Pack(bodies, tok)[k]| > 0
  {
    if |bodies| > 0 {
      var t := tok(bodies[0]);
      if t > ChunkBudget {
        var rest := PackFrom(bodies[1..], tok, [bodies[0]], t);
        PackFromNonEmpty(bodies[1..], tok, [bodies[0]], t);
        assert Pack(bodies, tok) == [[]] + rest;
        assert forall k :: 1 <= k < |[[]] + rest| ==> ([[]] + rest)[k] == rest[k - 1];
      } else {
        assert [] + [bodies[0]] == [bodies[0]];
        PackFromNonEmpty(bodies[1..], tok, [bodies[0]], t);
        PackFromFirst(bodies[1..], tok, [bodies[0]], t);
      }
    }
  }

  /** Every group after the first opens with a body the previous group had no room for. */
  predicate Greedy(r: seq<seq<string>>, tok: TokenCounter) {
    forall k :: 1 <= k < |r| ==> |r[k]| > 0 && SumOf(r[k - 1], tok) + tok(r[k][0]) > ChunkBudget
  }

  /** A chunk is closed only when the next body would push it over the budget. */
  lemma {:induction false} PackFromGreedy(bodies: seq<string>, tok: TokenCounter, buf: seq<string>, bufTok: nat)
    requires bufTok == SumOf(buf, tok)
    ensures Greedy(PackFrom(bodies, tok, buf, bufTok), tok)
    decreases |bodies|
  {
    if |bodies| > 0 {
      var t := tok(bodies[0]);
      SumOfAppend(buf, [bodies[0]], tok);
      assert SumOf([bodies[0]], tok) == t by {
        assert [bodies[0]][1..] == [];
      }
      if bufTok + t > ChunkBudget {
        var rest := PackFrom(bodies[1..], tok, [bodies[0]], t);
        PackFromGreedy(bodies[1..], tok, [bodies[0]], t);
        PackFromNonEmpty(bodies[1..], tok, [bodies[0]], t);
        PackFromFirst(bodies[1..], tok, [bodies[0]], t);
        var r := [buf] + rest;
        forall k | 1 <= k < |r|
          ensures |r[k]| > 0 && SumOf(r[k - 1], tok) + tok(r[k][0]) > ChunkBudget
        {
          assert r[k] == rest[k - 1];
          if k > 1 {
            assert r[k - 1] == rest[k - 2];
          }
        }
      } else {
        assert PackFrom(bodies, tok, buf, bufTok) == PackFrom(bodies[1..], tok, buf + [bodies[0]], bufTok + t);
        PackFromGreedy(bodies[1..], tok, buf + [bodies[0]], bufTok + t);
      }
    }
  }

  /** The first group starts with the open buffer. */
  lemma {:induction false} PackFromFirst(bodies: seq<string>, tok: TokenCounter, buf: seq<string>, bufTok: nat)
    requires |buf| > 0
    ensures |PackFrom(bodies, tok, buf, bufTok)| > 0
    ensures |PackFrom(bodies, tok, buf, bufTok)[0]| > 0 && PackFrom(bodies, tok, buf, bufTok)[0][0] == buf[0]
    decreases |bodies|
  {
    if |bodies| > 0 {
      var t := tok(bodies[0]);
      if bufTok + t <= ChunkBudget {
        PackFromFirst(bodies[1..], tok, buf + [bodies[0]], bufTok + t);
      }
    }
  }

  lemma PackGreedy(bodies: seq<string>, tok: TokenCounter)
    ensures Greedy(Pack(bodies, tok), tok)
  {
    assert SumOf([], tok) == 0;
    PackFromGreedy(bodies, tok, [], 0);
  }

  // ---------------------------------------------------------------------------
  // Map and reduce
  // ---------------------------------------------------------------------------

  /** The result text and the chat calls made, in order. */
  datatype Summary = Summary(text: string, calls: seq<ChatRequest>)

  const MapTemperature: real := 0.2
  const MapMaxTokens: nat := 512
  const ReduceMaxTokens: nat := 768

  const ReduceInstruction := "Combine the following partial summaries into one coherent passage."

  /** The system instruction of map call `i` of `n`. */
  function MapInstruction(i: nat, n: nat, query: string): string {
    "Summarise chunk " + NatToString(i + 1) + "/" + NatToString(n) + " relevant to: '" + query + "'."
  }

  function MapRequests(maps: seq<string>, query: string): (r: seq<ChatRequest>)
    ensures |r| == |maps|
    ensures forall i :: 0 <= i < |r| ==>
              r[i] == ChatRequest([Message(System, MapInstruction(i, |maps|, query)), Message(User, maps[i])],
                                  MapTemperature, MapMaxTokens)
  {
    seq(|maps|, i requires 0 <= i < |maps| =>
      ChatRequest([Message(System, MapInstruction(i, |maps|, query)), Message(User, maps[i])],
                  MapTemperature, MapMaxTokens))
  }

  function Headers(passages: seq<string>): (r: seq<string>)
    ensures |r| == |passages| && forall i :: 0 <= i < |r| ==> r[i] == Header(passages[i])
  {
    seq(|passages|, i requires 0 <= i < |passages| => Header(passages[i]))
  }

  function Bodies(passages: seq<string>): (r: seq<string>)
    ensures |r| == |passages| && forall i :: 0 <= i < |r| ==> r[i] == Body(passages[i])
  {
    seq(|passages|, i requires 0 <= i < |passages| => Body(passages[i]))
  }

  /** Every header followed by the combined summary, one paragraph each. */
  function Attach(headers: seq<string>, final: string): (r: string)
    ensures |headers| == 1 ==> r == headers[0] + " || " + final
    ensures |headers| == 0 ==> r == ""
  {
    Join(ParagraphBreak, seq(|headers|, i requires 0 <= i < |headers| => headers[i] + " || " + final))
  }

  /** One more header adds one more paragraph, after a blank line: with the one- and
      no-header cases of `Attach`, the output is one `h || summary` paragraph per
      header, in order. */
  lemma AttachSnoc(headers: seq<string>, h: string, final: string)
    requires |headers| > 0
    ensures Attach(headers + [h], final) == Attach(headers, final) + ParagraphBreak + h + " || " + final
  {
    var hs := headers + [h];
    var segs := seq(|headers|, i requires 0 <= i < |headers| => headers[i] + " || " + final);
    var segs' := seq(|hs|, i requires 0 <= i < |hs| => hs[i] + " || " + final);
    assert segs' == segs + [h + " || " + final];
    JoinSnoc(ParagraphBreak, segs, h + " || " + final);
  }

  /** The reduce call over the partial summaries. */
  function ReduceRequest(partials: seq<string>): ChatRequest {
    ChatRequest([Message(System, ReduceInstruction), Message(User, Join(ParagraphBreak, partials))],
                MapTemperature, ReduceMaxTokens)
  }

  /** `map_reduce_summarise(query, passages)`, with the tokenizer and the chat model as
      parameters. */
  function MapReduce(query: string, passages: seq<string>, tok: TokenCounter, chat: Chat): (r: Summary)
    ensures SumOf(passages, tok) < MaxCtx ==> r == Summary(Join(ParagraphBreak, passages), [])
    ensures SumOf(passages, tok) >= MaxCtx ==> MapReduced(query, passages, tok, chat, r)
  {
    if SumOf(passages, tok) < MaxCtx then Summary(Join(ParagraphBreak, passages), [])
    else
      MapThenReduceMaps(query, passages, tok, chat);
      MapThenReduceReduce(query, passages, tok, chat);
      MapThenReduce(query, passages, tok, chat)
  }

  /** `r` is the outcome of the map and reduce rounds over the packed groups: one map call
      per group, numbered, then one reduce call over the partial summaries, whose answer
      gets the headers attached. */
  ghost predicate MapReduced(query: string, passages: seq<string>, tok: TokenCounter, chat: Chat, r: Summary) {
    var groups := Pack(Bodies(passages), tok);
    && |r.calls| == |groups| + 1
    && (forall i :: 0 <= i < |groups| ==>
          r.calls[i].messages == [Message(System, MapInstruction(i, |groups|, query)),
                                  Message(User, Join(ParagraphBreak, groups[i]))]
          && r.calls[i].temperature == MapTemperature && r.calls[i].maxTokens == MapMaxTokens)
    && r.calls[|groups|] == ReduceRequest(Answers(r.calls[..|groups|], chat))
    && r.text == Attach(Headers(passages), chat(r.calls[|groups|]))
  }

  /** The text of each group: its passages separated by blank lines. */
  function GroupTexts(groups: seq<seq<string>>): (r: seq<string>)
    ensures |r| == |groups| && forall i :: 0 <= i < |r| ==> r[i] == Join(ParagraphBreak, groups[i])
  {
    seq(|groups|, i requires 0 <= i < |groups| => Join(ParagraphBreak, groups[i]))
  }

  /** The chat model's answers to `requests`, in order. */
  function Answers(requests: seq<ChatRequest>, chat: Chat): (r: seq<string>)
    ensures |r| == |requests| && forall i :: 0 <= i < |r| ==> r[i] == chat(requests[i])
  {
    seq(|requests|, i requires 0 <= i < |requests| => chat(requests[i]))
  }

  /** The branch of `map_reduce_summarise` taken when the passages do not fit. */
  function MapThenReduce(query: string, passages: seq<string>, tok: TokenCounter, chat: Chat): (r: Summary)
    ensures |r.calls| == |Pack(Bodies(passages), tok)| + 1
  {
    var requests := MapRequests(GroupTexts(Pack(Bodies(passages), tok)), query);
    var reduce := ReduceRequest(Answers(requests, chat));
    Summary(Attach(Headers(passages), chat(reduce)), requests + [reduce])
  }

  /** The map round: one numbered call per group. */
  lemma MapThenReduceMaps(query: string, passages: seq<string>, tok: TokenCounter, chat: Chat)
    ensures var r, groups := MapThenReduce(query, passages, tok, chat), Pack(Bodies(passages), tok);
            forall i :: 0 <= i < |groups| ==>
              r.calls[i].messages == [Message(System, MapInstruction(i, |groups|, query)),
                                      Message(User, Join(ParagraphBreak, groups[i]))]
              && r.calls[i].temperature == MapTemperature && r.calls[i].maxTokens == MapMaxTokens
  {
  }

  /** The reduce round: one call over the answers of the map round, whose answer gets the
      headers attached. */
  lemma MapThenReduceReduce(query: string, passages: seq<string>, tok: TokenCounter, chat: Chat)
    ensures var r, groups := MapThenReduce(query, passages, tok, chat), Pack(Bodies(passages), tok);
            && r.calls[|groups|] == ReduceRequest(Answers(r.calls[..|groups|], chat))
            && r.text == Attach(Headers(passages), chat(r.calls[|groups|]))
  {
    var r, groups := MapThenReduce(query, passages, tok, chat), Pack(Bodies(passages), tok);
    var requests := MapRequests(GroupTexts(groups), query);
    assert r.calls == requests + [ReduceRequest(Answers(requests, chat))];
    assert r.calls[..|groups|] == requests;
  }
}
