/** Python `str` operations the source relies on, over `string == seq<char>`.
    Case mapping and whitespace are the ASCII subsets of Python's Unicode tables. */
module Strings {
  import opened Wrappers

  /** The ASCII characters Python's `str.isspace` accepts. */
  predicate IsSpace(c: char) {
    c == ' ' || c == '\t' || c == '\n' || c == '\r' || c == '\U{0B}' || c == '\U{0C}'
    || c == '\U{1C}' || c == '\U{1D}' || c == '\U{1E}' || c == '\U{1F}'
  }

  predicate IsDigit(c: char) { '0' <= c <= '9' }

  predicate IsUpper(c: char) { 'A' <= c <= 'Z' }

  predicate NoSpace(s: string) { forall i :: 0 <= i < |s| ==> !IsSpace(s[i]) }

  function LowerChar(c: char): (r: char)
    ensures IsUpper(c) ==> r as int == c as int + 32
    ensures !IsUpper(c) ==> r == c
  {
    if IsUpper(c) then (c as int + 32) as char else c
  }

  /** `str.lower()` */
  function Lower(s: string): (r: string)
    ensures |r| == |s|
    ensures forall i :: 0 <= i < |s| ==> r[i] == LowerChar(s[i])
  {
    seq(|s|, i requires 0 <= i < |s| => LowerChar(s[i]))
  }

  lemma LowerIdempotent(s: string)
    ensures Lower(Lower(s)) == Lower(s)
  {
  }

  /** `p` occurs in `s` at index `i`. */
  predicate OccursAt(p: string, s: string, i: int) {
    0 <= i && i + |p| <= |s| && s[i..i + |p|] == p
  }

  /** `s.startswith(p)` */
  predicate StartsWith(s: string, p: string) {
    OccursAt(p, s, 0)
  }

  /** `needle in hay` for strings */
  predicate Contains(hay: string, needle: string) {
    exists i | 0 <= i <= |hay| :: OccursAt(needle, hay, i)
  }

  lemma ContainsEmpty(hay: string)
    ensures Contains(hay, "")
  {
    assert OccursAt("", hay, 0);
  }

  lemma ContainsSelf(s: string)
    ensures Contains(s, s)
  {
    assert OccursAt(s, s, 0);
  }

  /** Index of the first occurrence of `p` in `s`, as `str.find` (None for -1). */
  function FindFrom(s: string, p: string, i: nat): (r: Option<nat>)
    requires i <= |s|
    ensures r.Some? ==> i <= r.value && OccursAt(p, s, r.value)
    ensures r.Some? ==> forall j :: i <= j < r.value ==> !OccursAt(p, s, j)
    ensures r.None? ==> forall j :: i <= j ==> !OccursAt(p, s, j)
    decreases |s| - i
  {
    if OccursAt(p, s, i) then Some(i)
    else if i == |s| then None
    else FindFrom(s, p, i + 1)
  }

  function Find(s: string, p: string): (r: Option<nat>)
    ensures r.Some? <==> Contains(s, p)
    ensures r.Some? ==> OccursAt(p, s, r.value) && forall j :: 0 <= j < r.value ==> !OccursAt(p, s, j)
  {
    FindFrom(s, p, 0)
  }

  function TrimLeft(s: string): (r: string)
    ensures |r| <= |s| && r == s[|s| - |r|..]
    ensures |r| > 0 ==> !IsSpace(r[0])
    ensures forall i :: 0 <= i < |s| - |r| ==> IsSpace(s[i])
  {
    if |s| > 0 && IsSpace(s[0]) then TrimLeft(s[1..]) else s
  }

  function TrimRight(s: string): (r: string)
    ensures |r| <= |s| && r == s[..|r|]
    ensures |r| > 0 ==> !IsSpace(r[|r| - 1])
    ensures forall i :: |r| <= i < |s| ==> IsSpace(s[i])
  {
    if |s| > 0 && IsSpace(s[|s| - 1]) then TrimRight(s[..|s| - 1]) else s
  }

  /** Number of leading whitespace characters of `s`. */
  function LeadingSpace(s: string): (n: nat)
    ensures n <= |s|
  {
    |s| - |TrimLeft(s)|
  }

  /** `str.strip()`: `s` less its leading and trailing whitespace. */
  function Strip(s: string): (r: string)
    ensures LeadingSpace(s) + |r| <= |s|
    ensures r == s[LeadingSpace(s)..LeadingSpace(s) + |r|]
    ensures forall i :: 0 <= i < LeadingSpace(s) ==> IsSpace(s[i])
    ensures forall i :: LeadingSpace(s) + |r| <= i < |s| ==> IsSpace(s[i])
    ensures |r| > 0 ==> !IsSpace(r[0]) && !IsSpace(r[|r| - 1])
  {
    var l := TrimLeft(s);
    var r := TrimRight(l);
    assert r == s[|s| - |l|..][..|r|];
    r
  }

  /** Text without surrounding whitespace is its own strip. */
  lemma StripKeepsWord(s: string)
    requires |s| > 0 && !IsSpace(s[0]) && !IsSpace(s[|s| - 1])
    ensures Strip(s) == s
  {
    assert TrimLeft(s) == s;
    assert TrimRight(s) == s;
  }

  /** Length of the leading run of non-space characters. */
  function RunLength(s: string): (n: nat)
    ensures n <= |s|
    ensures forall i :: 0 <= i < n ==> !IsSpace(s[i])
    ensures n < |s| ==> IsSpace(s[n])
  {
    if |s| == 0 || IsSpace(s[0]) then 0 else 1 + RunLength(s[1..])
  }

  /** Every piece is a non-empty run of non-space characters. */
  predicate AllWords(ws: seq<string>) {
    forall k :: 0 <= k < |ws| ==> |ws[k]| > 0 && NoSpace(ws[k])
  }

  /** `str.split()` with no separator: the maximal runs of non-space characters. */
  function Words(s: string): (ws: seq<string>)
    ensures AllWords(ws)
    decreases |s|
  {
    var t := TrimLeft(s);
    if |t| == 0 then []
    else
      var n := RunLength(t);
      FirstWord(t);
      var rest := Words(t[n..]);
      AllWordsCons(t[..n], rest);
      [t[..n]] + rest
  }

  /** Text that starts with a non-space character starts with a non-empty word. */
  lemma FirstWord(t: string)
    requires |t| > 0 && !IsSpace(t[0])
    ensures 0 < RunLength(t) <= |t| && NoSpace(t[..RunLength(t)])
  {
  }

  lemma AllWordsCons(w: string, rest: seq<string>)
    requires |w| > 0 && NoSpace(w) && AllWords(rest)
    ensures AllWords([w] + rest)
  {
    var ws := [w] + rest;
    forall k | 0 <= k < |ws| ensures |ws[k]| > 0 && NoSpace(ws[k]) {
      if k > 0 {
        assert ws[k] == rest[k - 1];
      }
    }
  }

  /** `sep.join(parts)` */
  function Join(sep: string, parts: seq<string>): string
  {
    if |parts| == 0 then ""
    else if |parts| == 1 then parts[0]
    else parts[0] + sep + Join(sep, parts[1..])
  }

  /** Joining parts whose first part is not empty gives non-empty text. */
  lemma JoinNonEmpty(sep: string, parts: seq<string>)
    requires |parts| > 0 && |parts[0]| > 0
    ensures |Join(sep, parts)| > 0
  {
  }

  lemma {:induction false} JoinSnoc(sep: string, parts: seq<string>, last: string)
    requires |parts| > 0
    ensures Join(sep, parts + [last]) == Join(sep, parts) + sep + last
    decreases |parts|
  {
    if |parts| == 1 {
      assert parts + [last] == [parts[0], last];
      assert ([parts[0], last])[1..] == [last];
    } else {
      assert (parts + [last])[1..] == parts[1..] + [last];
      JoinSnoc(sep, parts[1..], last);
    }
  }

  /** Every part occurs in the joined text. */
  lemma {:induction false} JoinContains(sep: string, parts: seq<string>, i: int)
    requires 0 <= i < |parts|
    ensures Contains(Join(sep, parts), parts[i])
    decreases |parts|
  {
    var s := Join(sep, parts);
    if |parts| == 1 {
      assert OccursAt(parts[0], s, 0);
    } else {
      var rest := Join(sep, parts[1..]);
      assert s == parts[0] + sep + rest;
      if i == 0 {
        assert s[0..|parts[0]|] == parts[0];
        assert OccursAt(parts[0], s, 0);
      } else {
        JoinContains(sep, parts[1..], i - 1);
        var k :| 0 <= k <= |rest| && OccursAt(parts[1..][i - 1], rest, k);
        var off := |parts[0]| + |sep|;
        assert s[off + k..off + k + |parts[i]|] == rest[k..k + |parts[i]|];
        assert OccursAt(parts[i], s, off + k);
      }
    }
  }

  /** `JoinContains` at every part. */
  lemma JoinContainsAll(sep: string, parts: seq<string>)
    ensures forall i :: 0 <= i < |parts| ==> Contains(Join(sep, parts), parts[i])
  {
    forall i | 0 <= i < |parts|
      ensures Contains(Join(sep, parts), parts[i])
    {
      JoinContains(sep, parts, i);
    }
  }

  /** All-whitespace text has no words. */
  lemma WordsOfBlank(s: string)
    requires forall i :: 0 <= i < |s| ==> IsSpace(s[i])
    ensures Words(s) == []
  {
  }

  lemma WordsSkipsSpace(c: char, s: string)
    requires IsSpace(c)
    ensures Words([c] + s) == Words(s)
  {
    assert ([c] + s)[1..] == s;
    assert TrimLeft([c] + s) == TrimLeft(s);
  }

  /** A word followed by whitespace (or nothing) is the first word. */
  lemma WordsCons(w: string, rest: string)
    requires |w| > 0 && NoSpace(w)
    requires |rest| == 0 || IsSpace(rest[0])
    ensures Words(w + rest) == [w] + Words(rest)
  {
    var s := w + rest;
    assert TrimLeft(s) == s;
    RunLengthPrefix(w, rest);
    assert s[..|w|] == w;
    assert s[|w|..] == rest;
  }

  /** Joining words with single spaces and splitting again gives the words back. */
  lemma {:induction false} WordsOfJoin(ws: seq<string>)
    requires AllWords(ws)
    ensures Words(Join(" ", ws)) == ws
    decreases |ws|
  {
    if |ws| == 0 {
      assert Words("") == [];
    } else if |ws| == 1 {
      WordsCons(ws[0], "");
      assert ws[0] + "" == ws[0];
      assert Words("") == [];
    } else {
      WordsOfJoin(ws[1..]);
      WordsOfJoinStep(ws);
    }
  }

  lemma WordsOfJoinStep(ws: seq<string>)
    requires |ws| > 1 && |ws[0]| > 0 && NoSpace(ws[0])
    requires Words(Join(" ", ws[1..])) == ws[1..]
    ensures Words(Join(" ", ws)) == ws
  {
    var j := Join(" ", ws[1..]);
    calc {
      Words(Join(" ", ws));
      { JoinCons(" ", ws); }
      Words(ws[0] + " " + j);
      { WordsConsSpace(ws[0], j); }
      [ws[0]] + Words(j);
      [ws[0]] + ws[1..];
      { assert [ws[0]] + ws[1..] == ws; }
      ws;
    }
  }

  /** Joining two or more parts: the first, the separator, then the rest joined. */
  lemma JoinCons(sep: string, parts: seq<string>)
    requires |parts| > 1
    ensures Join(sep, parts) == parts[0] + sep + Join(sep, parts[1..])
  {
  }

  /** A word, one space, then more text: the word comes first. */
  lemma WordsConsSpace(w: string, j: string)
    requires |w| > 0 && NoSpace(w)
    ensures Words(w + " " + j) == [w] + Words(j)
  {
    var t := [' '] + j;
    assert w + " " + j == w + t;
    WordsCons(w, t);
    WordsSkipsSpace(' ', j);
  }

  lemma {:induction false} RunLengthPrefix(w: string, rest: string)
    requires NoSpace(w)
    requires |rest| == 0 || IsSpace(rest[0])
    ensures RunLength(w + rest) == |w|
    decreases |w|
  {
    if |w| > 0 {
      assert (w + rest)[1..] == w[1..] + rest;
      RunLengthPrefix(w[1..], rest);
    } else {
      assert w + rest == rest;
    }
  }

  /** Every piece stripped. */
  function StripAll(ps: seq<string>): (r: seq<string>)
    ensures |r| == |ps| && forall i :: 0 <= i < |ps| ==> r[i] == Strip(ps[i])
  {
    seq(|ps|, i requires 0 <= i < |ps| => Strip(ps[i]))
  }

  /** The delimiter characters of `s`, in order. */
  function DelimsOf(s: string, delims: set<char>): (ds: seq<char>)
    ensures |ds| <= |s|
    ensures forall i :: 0 <= i < |ds| ==> ds[i] in delims
  {
    if |s| == 0 then []
    else (if s[0] in delims then [s[0]] else []) + DelimsOf(s[1..], delims)
  }

  /** The pieces with the `k`-th delimiter put back between piece `k` and piece `k+1`. */
  function Interleave(pieces: seq<string>, ds: seq<char>): string
    requires |pieces| == |ds| + 1
    decreases |ds|
  {
    if |ds| == 0 then pieces[0] else pieces[0] + [ds[0]] + Interleave(pieces[1..], ds[1..])
  }

  /** `re.split("[...]", s)`: the pieces between the delimiter characters of `delims`,
      one more than there are delimiters. */
  function SplitOnAny(s: string, delims: set<char>): (r: seq<string>)
    ensures |r| == |DelimsOf(s, delims)| + 1
    ensures forall k, i :: 0 <= k < |r| && 0 <= i < |r[k]| ==> r[k][i] !in delims
  {
    if |s| == 0 then [""]
    else
      var rest := SplitOnAny(s[1..], delims);
      if s[0] in delims then [""] + rest
      else [[s[0]] + rest[0]] + rest[1..]
  }

  /** Putting each delimiter back between its two pieces restores the text. As no piece
      holds a delimiter, this fixes every piece, for any mix of delimiters. */
  lemma {:induction false} SplitOnAnyRejoin(s: string, delims: set<char>)
    ensures Interleave(SplitOnAny(s, delims), DelimsOf(s, delims)) == s
  {
    if |s| > 0 {
      var rest, ds := SplitOnAny(s[1..], delims), DelimsOf(s[1..], delims);
      SplitOnAnyRejoin(s[1..], delims);
      assert s == [s[0]] + s[1..];
      if s[0] in delims {
        var r := [""] + rest;
        assert SplitOnAny(s, delims) == r && DelimsOf(s, delims) == [s[0]] + ds;
        assert r[0] == "" && r[1..] == rest && ([s[0]] + ds)[1..] == ds;
      } else {
        assert DelimsOf(s, delims) == ds;
        InterleaveConsHead(s[0], rest, ds);
      }
    }
  }

  /** A character glued to the front of the first piece lands at the front of the text. */
  lemma {:induction false} InterleaveConsHead(c: char, pieces: seq<string>, ds: seq<char>)
    requires |pieces| == |ds| + 1
    ensures Interleave([[c] + pieces[0]] + pieces[1..], ds) == [c] + Interleave(pieces, ds)
  {
    var q := [[c] + pieces[0]] + pieces[1..];
    assert q[0] == [c] + pieces[0] && q[1..] == pieces[1..];
    if |ds| > 0 {
      assert Interleave(q, ds) == ([c] + pieces[0]) + [ds[0]] + Interleave(pieces[1..], ds[1..]);
      assert Interleave(pieces, ds) == pieces[0] + [ds[0]] + Interleave(pieces[1..], ds[1..]);
    }
  }

  /** Splitting text that holds no delimiter gives the text itself. */
  lemma {:induction false} SplitOnAnyNoDelims(s: string, delims: set<char>)
    requires forall i :: 0 <= i < |s| ==> s[i] !in delims
    ensures SplitOnAny(s, delims) == [s]
  {
    if |s| > 0 {
      SplitOnAnyNoDelims(s[1..], delims);
      assert [s[0]] + s[1..] == s;
    }
  }

  /** Rejoining the pieces with a delimiter restores text whose delimiters are all `d`. */
  lemma {:induction false} SplitOnAnyJoin(s: string, d: char, delims: set<char>)
    requires d in delims
    requires forall i :: 0 <= i < |s| ==> s[i] in delims ==> s[i] == d
    ensures Join([d], SplitOnAny(s, delims)) == s
  {
    if |s| > 0 {
      var rest := SplitOnAny(s[1..], delims);
      SplitOnAnyJoin(s[1..], d, delims);
      if s[0] in delims {
        assert SplitOnAny(s, delims) == [""] + rest;
        assert ([""] + rest)[1..] == rest;
        assert Join([d], [""] + rest) == "" + [d] + Join([d], rest);
        assert s == [d] + s[1..];
      } else {
        var p := [[s[0]] + rest[0]] + rest[1..];
        assert SplitOnAny(s, delims) == p;
        if |rest| == 1 {
          assert Join([d], rest) == rest[0];
        } else {
          assert Join([d], rest) == rest[0] + [d] + Join([d], rest[1..]);
          assert p[1..] == rest[1..];
        }
        assert s == [s[0]] + s[1..];
      }
    }
  }

  function DigitChar(d: nat): char
    requires d < 10
  {
    ('0' as int + d) as char
  }

  /** `str(n)` for a natural number. */
  function NatToString(n: nat): (r: string)
    ensures |r| > 0 && forall i :: 0 <= i < |r| ==> IsDigit(r[i])
    ensures n < 10 ==> |r| == 1
  {
    if n < 10 then [DigitChar(n)] else NatToString(n / 10) + [DigitChar(n % 10)]
  }

  /** `str(i)` for an integer. */
  function IntToString(i: int): string
  {
    if i < 0 then "-" + NatToString(-i) else NatToString(i)
  }

  /** Decimal value of a run of ASCII digits (the inverse of `NatToString`). */
  function DigitsValue(s: string): int
    requires forall i :: 0 <= i < |s| ==> IsDigit(s[i])
  {
    if |s| == 0 then 0 else DigitsValue(s[..|s| - 1]) * 10 + (s[|s| - 1] as int - '0' as int)
  }

  lemma {:induction false} DigitsOfNatToString(n: nat)
    ensures DigitsValue(NatToString(n)) == n
  {
    var s := NatToString(n);
    if n >= 10 {
      DigitsOfNatToString(n / 10);
      assert s[..|s| - 1] == NatToString(n / 10);
    }
  }

  /** `str` on naturals is injective. */
  lemma NatToStringInjective(m: nat, n: nat)
    requires NatToString(m) == NatToString(n)
    ensures m == n
  {
    DigitsOfNatToString(m);
    DigitsOfNatToString(n);
  }

  /** `str(n)` zero-padded to at least `width` characters, as `%0Nd`. */
  function PadNat(n: nat, width: nat): (r: string)
    ensures |r| >= width
  {
    var s := NatToString(n);
    if |s| >= width then s else seq(width - |s|, _ => '0') + s
  }
}
