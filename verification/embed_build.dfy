/** Chunking for the index builder: a text is cut into overlapping windows of words,
    each window joined back with single spaces. */
module EmbedBuild {
  import opened Wrappers
  import opened Strings
  import opened Seqs

  /** The window that starts at word `i`: `words[i:i+maxTokens]`. */
  function Window(words: seq<string>, i: int, maxTokens: int): seq<string> {
    Slice(words, i, i + maxTokens)
  }

  /** The generator's loop from word `i` on, stepping by `step`. */
  function ChunksFrom(words: seq<string>, i: nat, step: nat, maxTokens: int): (r: seq<string>)
    requires step > 0
    decreases |words| - i
  {
    if i >= |words| then []
    else [Join(" ", Window(words, i, maxTokens))] + ChunksFrom(words, i + step, step, maxTokens)
  }

  /** `iter_chunks(text, max_tokens, overlap)`. A step of zero makes `range` raise
      (`None`); a negative step gives an empty range. */
  function IterChunks(text: string, maxTokens: int, overlap: int): (r: Option<seq<string>>)
    ensures r.None? <==> maxTokens == overlap
  {
    var step := maxTokens - overlap;
    if step == 0 then None
    else if step < 0 then Some([])
    else Some(ChunksFrom(Words(text), 0, step, maxTokens))
  }

  /** One more factor adds one more `b`. */
  lemma MulSucc(a: int, b: int)
    ensures (a + 1) * b == a * b + b
  {
  }

  /** `k * step`, written as repeated addition so that reasoning about window starts
      stays linear. */
  function Times(k: nat, step: nat): nat {
    if k == 0 then 0 else Times(k - 1, step) + step
  }

  lemma {:induction false} TimesIsProduct(k: nat, step: nat)
    ensures Times(k, step) == k * step
  {
    if k > 0 {
      TimesIsProduct(k - 1, step);
      MulSucc(k - 1, step);
    }
  }

  lemma {:induction false} TimesMono(a: nat, b: nat, step: nat)
    requires a <= b
    ensures Times(a, step) <= Times(b, step)
    decreases b - a
  {
    if a < b {
      TimesMono(a, b - 1, step);
    }
  }

  /** The loop from word `i` yields `c` chunks, where `c` is the least count of steps that
      carries `i` to the end of the words, and chunk `k` is the window at `i + k*step`. */
  lemma ChunksFromShape(words: seq<string>, i: nat, step: nat, maxTokens: int)
    requires step > 0
    ensures var c := |ChunksFrom(words, i, step, maxTokens)|;
            && i + Times(c, step) >= |words|
            && (c > 0 ==> i + Times(c - 1, step) < |words|)
    ensures forall k: nat :: k < |ChunksFrom(words, i, step, maxTokens)| ==>
              ChunksFrom(words, i, step, maxTokens)[k] == Join(" ", Window(words, i + Times(k, step), maxTokens))
  {
    ChunksFromCount(words, i, step, maxTokens);
    forall k: nat | k < |ChunksFrom(words, i, step, maxTokens)|
      ensures ChunksFrom(words, i, step, maxTokens)[k] == Join(" ", Window(words, i + Times(k, step), maxTokens))
    {
      ChunksFromAt(words, i, step, maxTokens, k);
    }
  }

  /** The count half of `ChunksFromShape`. */
  lemma {:induction false} ChunksFromCount(words: seq<string>, i: nat, step: nat, maxTokens: int)
    requires step > 0
    ensures var c := |ChunksFrom(words, i, step, maxTokens)|;
            && i + Times(c, step) >= |words|
            && (c > 0 ==> i + Times(c - 1, step) < |words|)
    decreases |words| - i
  {
    if i < |words| {
      var c' := |ChunksFrom(words, i + step, step, maxTokens)|;
      ChunksFromCount(words, i + step, step, maxTokens);
      assert |ChunksFrom(words, i, step, maxTokens)| == c' + 1;
      assert Times(c' + 1, step) == Times(c', step) + step;
    }
  }

  /** Chunk `k` of the loop from word `i` is the window at `i + k*step`. */
  lemma {:induction false} ChunksFromAt(words: seq<string>, i: nat, step: nat, maxTokens: int, k: nat)
    requires step > 0 && k < |ChunksFrom(words, i, step, maxTokens)|
    ensures ChunksFrom(words, i, step, maxTokens)[k] == Join(" ", Window(words, i + Times(k, step), maxTokens))
    decreases k
  {
    var r := ChunksFrom(words, i, step, maxTokens);
    if k > 0 {
      var rest := ChunksFrom(words, i + step, step, maxTokens);
      assert r[k] == rest[k - 1];
      ChunksFromAt(words, i + step, step, maxTokens, k - 1);
      assert i + Times(k, step) == (i + step) + Times(k - 1, step);
    } else {
      assert r[0] == Join(" ", Window(words, i, maxTokens));
    }
  }

  /** The number of chunks is the ceiling of words over step: the least `c` with
      `c * step` reaching the word count. Chunk `k` is the words from `k*step` up to
      `k*step + maxTokens`, joined by spaces. */
  lemma IterChunksShape(text: string, maxTokens: int, overlap: int)
    requires maxTokens > overlap
    ensures var step, n, r := maxTokens - overlap, |Words(text)|, IterChunks(text, maxTokens, overlap).value;
            && Times(|r|, step) >= n
            && (|r| > 0 ==> Times(|r| - 1, step) < n)
            && forall k: nat :: k < |r| ==> r[k] == Join(" ", Window(Words(text), Times(k, step), maxTokens))
  {
    var step, r := maxTokens - overlap, IterChunks(text, maxTokens, overlap).value;
    var ws := Words(text);
    assert r == ChunksFrom(ws, 0, step, maxTokens);
    ChunksFromCount(ws, 0, step, maxTokens);
    forall k: nat | k < |r| ensures r[k] == Join(" ", Window(ws, Times(k, step), maxTokens)) {
      ChunksFromAt(ws, 0, step, maxTokens, k);
    }
  }

  /** Too much overlap makes no chunks. */
  lemma NegativeStepMakesNothing(text: string, maxTokens: int, overlap: int)
    requires maxTokens < overlap
    ensures IterChunks(text, maxTokens, overlap) == Some([])
  {
  }

  /** A blank text makes no chunks. */
  lemma BlankTextMakesNothing(text: string, maxTokens: int, overlap: int)
    requires maxTokens > overlap
    requires forall i :: 0 <= i < |text| ==> IsSpace(text[i])
    ensures IterChunks(text, maxTokens, overlap) == Some([])
  {
    WordsOfBlank(text);
  }

  /** Chunk `k` of the loop over words `ws` splits back into its window. */
  lemma ChunkWordsOf(ws: seq<string>, step: nat, maxTokens: int, k: nat)
    requires AllWords(ws)
    requires step > 0 && maxTokens > 0
    requires k < |ChunksFrom(ws, 0, step, maxTokens)|
    ensures Words(ChunksFrom(ws, 0, step, maxTokens)[k]) == Window(ws, Times(k, step), maxTokens)
    ensures 1 <= |Window(ws, Times(k, step), maxTokens)| <= maxTokens
  {
    var c, a := |ChunksFrom(ws, 0, step, maxTokens)|, Times(k, step);
    assert a < |ws| by {
      ChunksFromCount(ws, 0, step, maxTokens);
      TimesMono(k, c - 1, step);
    }
    var w := Window(ws, a, maxTokens);
    assert ChunksFrom(ws, 0, step, maxTokens)[k] == Join(" ", w) by {
      ChunksFromAt(ws, 0, step, maxTokens, k);
    }
    assert 1 <= |w| <= maxTokens && AllWords(w) by {
      WindowInside(ws, a, maxTokens);
    }
    WordsOfJoin(w);
  }

  /** With a positive window, every chunk splits back into its window of words, which
      holds between one and `maxTokens` words. */
  lemma ChunkWords(text: string, maxTokens: int, overlap: int, k: nat)
    requires 0 < maxTokens && overlap < maxTokens
    requires k < |IterChunks(text, maxTokens, overlap).value|
    ensures var step, ws := maxTokens - overlap, Words(text);
            && Words(IterChunks(text, maxTokens, overlap).value[k]) == Window(ws, Times(k, step), maxTokens)
            && 1 <= |Window(ws, Times(k, step), maxTokens)| <= maxTokens
  {
    ChunkWordsOf(Words(text), maxTokens - overlap, maxTokens, k);
  }

  /** A window that starts inside the words is their non-empty stretch from its start. */
  lemma WindowInside(ws: seq<string>, a: nat, maxTokens: int)
    requires a < |ws| && maxTokens > 0
    ensures var e := if a + maxTokens < |ws| then a + maxTokens else |ws|;
            Window(ws, a, maxTokens) == ws[a..e]
    ensures 1 <= |Window(ws, a, maxTokens)| <= maxTokens
    ensures forall j :: 0 <= j < |Window(ws, a, maxTokens)| ==> Window(ws, a, maxTokens)[j] == ws[a + j]
  {
  }

  /** When the overlap is not negative, every word of the text lies in some chunk's window. */
  lemma ChunksCoverEveryWord(text: string, maxTokens: int, overlap: int, j: nat)
    requires 0 <= overlap < maxTokens
    requires j < |Words(text)|
    ensures var step := maxTokens - overlap;
            exists k: nat :: k < |IterChunks(text, maxTokens, overlap).value| &&
                             Times(k, step) <= j < Times(k, step) + maxTokens
  {
    var step, c := maxTokens - overlap, |IterChunks(text, maxTokens, overlap).value|;
    var k := StepsBelow(j, step);
    assert Times(c, step) >= |Words(text)| by {
      assert c == |ChunksFrom(Words(text), 0, step, maxTokens)|;
      ChunksFromCount(Words(text), 0, step, maxTokens);
    }
    if k >= c {
      TimesMono(c, k, step);
      assert false;
    }
    assert k < c && Times(k, step) <= j < Times(k, step) + maxTokens;
  }

  /** The number of whole steps that fit below `j`: the `k` with `j` in `[k*step, (k+1)*step)`. */
  lemma {:induction false} StepsBelow(j: nat, step: nat) returns (k: nat)
    requires step > 0
    ensures Times(k, step) <= j < Times(k, step) + step
    decreases j
  {
    if j < step {
      k := 0;
    } else {
      var k' := StepsBelow(j - step, step);
      k := k' + 1;
      assert Times(k, step) == Times(k', step) + step;
    }
  }

  /** Consecutive chunks share `overlap` words: the tail of a full window is the head of the next. */
  lemma ConsecutiveChunksOverlap(words: seq<string>, maxTokens: int, overlap: int, k: nat)
    requires 0 <= overlap < maxTokens
    requires Times(k + 1, maxTokens - overlap) + overlap <= |words|
    ensures var step := maxTokens - overlap;
            Window(words, Times(k, step), maxTokens)[step..] == Window(words, Times(k + 1, step), maxTokens)[..overlap]
  {
    var step := maxTokens - overlap;
    var a := Times(k, step);
    assert Times(k + 1, step) == a + step;
    assert a + maxTokens <= |words|;
    assert Window(words, a, maxTokens) == words[a..a + maxTokens];
    assert Window(words, a + step, maxTokens)[..overlap] == words[a + step..a + maxTokens];
  }
}
