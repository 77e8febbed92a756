/** Ingestion: the text the index embeds for one patent is its text columns glued
    together, skipping the missing ones. */
module DataIngest {
  import opened Wrappers
  import opened Strings
  import opened Values

  /** Every named column exists in the row. */
  predicate HasColumns(row: Row, cols: seq<string>) {
    forall i :: 0 <= i < |cols| ==> cols[i] in row
  }

  /** No named cell holds a value. */
  predicate AllMissing(row: Row, cols: seq<string>)
    requires HasColumns(row, cols)
  {
    forall i :: 0 <= i < |cols| ==> row[cols[i]].Missing?
  }

  /** The printed non-missing cells, in column order; a falsy cell prints as empty text. */
  function Pieces(row: Row, cols: seq<string>): (r: seq<string>)
    requires HasColumns(row, cols)
    ensures |r| <= |cols|
    ensures |r| == 0 <==> AllMissing(row, cols)
    decreases |cols|
  {
    if |cols| == 0 then []
    else
      var init, c := cols[..|cols| - 1], cols[|cols| - 1];
      assert HasColumns(row, init);
      var p := Pieces(row, init);
      assert AllMissing(row, cols) <==> AllMissing(row, init) && row[c].Missing? by {
        assert forall i :: 0 <= i < |init| ==> init[i] == cols[i];
      }
      if row[c].Missing? then p else p + [OrElse(row[c], "")]
  }

  /** `concat_text(row, cols, sep)`: `None` when a column is absent from the row, which
      raises `KeyError`. */
  function ConcatText(row: Row, cols: seq<string>, sep: string): (r: Option<string>)
    ensures r.None? <==> exists i :: 0 <= i < |cols| && cols[i] !in row
    ensures r.Some? && AllMissing(row, cols) ==> r.value == ""
  {
    if HasColumns(row, cols) then Some(Join(sep, Pieces(row, cols))) else None
  }

  /** Adding a column at the end: a missing cell changes nothing; otherwise its text is
      appended, after the separator unless nothing came before. */
  lemma ConcatTextSnoc(row: Row, cols: seq<string>, c: string, sep: string)
    requires HasColumns(row, cols) && c in row
    ensures ConcatText(row, cols + [c], sep) ==
              if row[c].Missing? then ConcatText(row, cols, sep)
              else if AllMissing(row, cols) then Some(OrElse(row[c], ""))
              else Some(ConcatText(row, cols, sep).value + sep + OrElse(row[c], ""))
  {
    var all := cols + [c];
    assert all[..|all| - 1] == cols;
    assert HasColumns(row, all);
    if !row[c].Missing? && !AllMissing(row, cols) {
      JoinSnoc(sep, Pieces(row, cols), OrElse(row[c], ""));
    }
  }

  /** A zero prints as empty text between two separators; a missing cell is skipped. */
  lemma ConcatTextExample()
    ensures ConcatText(map["a" := Str("x"), "b" := Num(0), "c" := Missing, "d" := Str("y")],
                       ["a", "b", "c", "d"], "|") == Some("x||y")
  {
    var row := map["a" := Str("x"), "b" := Num(0), "c" := Missing, "d" := Str("y")];
    var cols := ["a", "b", "c", "d"];
    assert cols[..3] == ["a", "b", "c"] && cols[..3][..2] == ["a", "b"] && cols[..3][..2][..1] == ["a"];
    assert Pieces(row, ["a"]) == ["x"] by {
      assert ["a"][..0] == [];
    }
    assert Pieces(row, ["a", "b"]) == ["x", ""];
    assert Pieces(row, ["a", "b", "c"]) == ["x", ""];
    assert Pieces(row, cols) == ["x", "", "y"];
    assert ["x", "", "y"][1..] == ["", "y"] && ["", "y"][1..] == ["y"];
    assert Join("|", ["y"]) == "y";
    assert Join("|", ["", "y"]) == "|y";
    assert Join("|", ["x", "", "y"]) == "x||y";
    assert HasColumns(row, cols);
  }
}
