/** src/filter_ops.py: `_to_date` and `apply_filter`, the predicate one filter
    `{column, op, value}` applies to one cell. */
module FilterOps {
  import opened Wrappers
  import opened Strings
  import opened Values

  /** One filter as the query rewriter proposes it. */
  datatype Filter = Filter(column: string, op: string, value: Value)

  /** The formats `_to_date` tries, in this order. */
  const DateFormats: seq<string> := ["%Y-%m-%d", "%Y/%m/%d", "%Y-%m", "%Y"]

  /** The operators `apply_filter` knows; any other one passes every row. */
  const KnownOps: set<string> := {"eq", "neq", "contains", "startswith", "in", "gte", "lte", "between"}

  function Digit(c: char): int {
    c as int - '0' as int
  }

  predicate AllDigits(s: string) {
    forall i :: 0 <= i < |s| ==> IsDigit(s[i])
  }

  /** The matches CPython's `%m` pattern `1[0-2]|0[1-9]|[1-9]` offers at index `i`,
      as (month, end) in the order the regex engine tries them. */
  function MonthAlts(s: string, i: nat): seq<(int, nat)>
  {
    (if i + 1 < |s| && s[i] == '1' && '0' <= s[i + 1] <= '2' then [(10 + Digit(s[i + 1]), i + 2)] else [])
    + (if i + 1 < |s| && s[i] == '0' && '1' <= s[i + 1] <= '9' then [(Digit(s[i + 1]), i + 2)] else [])
    + (if i < |s| && '1' <= s[i] <= '9' then [(Digit(s[i]), i + 1)] else [])
  }

  /** The matches CPython's `%d` pattern `3[01]|[12]\d|0[1-9]|[1-9]| [1-9]` offers at `i`. */
  function DayAlts(s: string, i: nat): seq<(int, nat)>
  {
    (if i + 1 < |s| && s[i] == '3' && '0' <= s[i + 1] <= '1' then [(30 + Digit(s[i + 1]), i + 2)] else [])
    + (if i + 1 < |s| && '1' <= s[i] <= '2' && IsDigit(s[i + 1]) then [(10 * Digit(s[i]) + Digit(s[i + 1]), i + 2)] else [])
    + (if i + 1 < |s| && s[i] == '0' && '1' <= s[i + 1] <= '9' then [(Digit(s[i + 1]), i + 2)] else [])
    + (if i < |s| && '1' <= s[i] <= '9' then [(Digit(s[i]), i + 1)] else [])
    + (if i + 1 < |s| && s[i] == ' ' && '1' <= s[i + 1] <= '9' then [(Digit(s[i + 1]), i + 2)] else [])
  }

  lemma AltsPastEnd(s: string, i: nat)
    requires i >= |s|
    ensures MonthAlts(s, i) == [] && DayAlts(s, i) == []
  {
  }

  /** The four-digit year `\d\d\d\d` that every format starts with. */
  function LeadingYear(s: string): Option<int>
  {
    if |s| >= 4 && AllDigits(s[..4]) then Some(DigitsValue(s[..4])) else None
  }

  /** Backtracking over the month alternatives of `%Y<sep>%m<sep>%d`: the first one
      after which the separator and some day alternative follow. */
  function FirstMonthDay(s: string, sep: string, y: int, alts: seq<(int, nat)>): Option<(int, int, int, nat)>
  {
    if |alts| == 0 then None
    else
      var m, j := alts[0].0, alts[0].1;
      if OccursAt(sep, s, j) && |DayAlts(s, j + |sep|)| > 0 then
        var d := DayAlts(s, j + |sep|)[0];
        Some((y, m, d.0, d.1))
      else FirstMonthDay(s, sep, y, alts[1..])
  }

  /** `re.match` of a format regex against `s`: (year, month, day, end of match).
      Fields the format lacks default to 1, as in `strptime`. */
  function MatchFormat(s: string, fmt: string): Option<(int, int, int, nat)>
  {
    match LeadingYear(s)
    case None => None
    case Some(y) =>
      if fmt == "%Y" then Some((y, 1, 1, 4))
      else if fmt == "%Y-%m" then
        if OccursAt("-", s, 4) && |MonthAlts(s, 5)| > 0 then
          Some((y, MonthAlts(s, 5)[0].0, 1, MonthAlts(s, 5)[0].1))
        else None
      else if fmt == "%Y-%m-%d" then
        if OccursAt("-", s, 4) then FirstMonthDay(s, "-", y, MonthAlts(s, 5)) else None
      else if fmt == "%Y/%m/%d" then
        if OccursAt("/", s, 4) then FirstMonthDay(s, "/", y, MonthAlts(s, 5)) else None
      else if fmt == "%Y%m%d" then FirstMonthDay(s, "", y, MonthAlts(s, 4))
      else None
  }

  /** `datetime.strptime(s, fmt)`, None where it raises `ValueError`: no match,
      unconverted data left over, or a day the month does not have. */
  function Strptime(s: string, fmt: string): (r: Option<Date>)
    ensures r.Some? ==> ValidDate(r.value)
  {
    match MatchFormat(s, fmt)
    case None => None
    case Some(f) =>
      if f.3 != |s| then None
      else if ValidDate(Date(f.0, f.1, f.2)) then Some(Date(f.0, f.1, f.2))
      else None
  }

  /** The formats from `fmts` onwards, each tried on `text` cut to the format string's own length. */
  function TryFormats(text: string, fmts: seq<string>): (r: Option<Date>)
    ensures r.Some? ==> ValidDate(r.value)
  {
    if |fmts| == 0 then None
    else
      var cut := text[..if |fmts[0]| < |text| then |fmts[0]| else |text|];
      match Strptime(cut, fmts[0])
      case Some(d) => Some(d)
      case None => TryFormats(text, fmts[1..])
  }

  /** `text` begins `YYYY<sep>M<sep>D` with a single-digit month and day: the only
      shape `_to_date` accepts, because every text is first cut to the length of
      the format string (8, 8, 5 and 2 characters). */
  predicate ShortDateShape(text: string, sep: char) {
    |text| >= 8 && AllDigits(text[..4]) && text[4] == sep && '1' <= text[5] <= '9'
    && text[6] == sep && '1' <= text[7] <= '9'
  }

  function ShortDate(text: string): Date
    requires |text| >= 8 && AllDigits(text[..4])
  {
    Date(DigitsValue(text[..4]), Digit(text[5]), Digit(text[7]))
  }

  function Pow10(n: nat): nat {
    if n == 0 then 1 else 10 * Pow10(n - 1)
  }

  lemma {:induction false} DigitsValueBound(s: string)
    requires AllDigits(s)
    ensures 0 <= DigitsValue(s) < Pow10(|s|)
  {
    if |s| > 0 {
      DigitsValueBound(s[..|s| - 1]);
    }
  }

  /** With at most 8 characters, only the single-digit month alternative can be
      followed by a separator and a day. */
  lemma FirstMonthDayShort(s: string, c: char, y: int)
    requires 6 <= |s| <= 8
    ensures FirstMonthDay(s, [c], y, MonthAlts(s, 5)).Some? <==>
              |s| == 8 && '1' <= s[5] <= '9' && s[6] == c && '1' <= s[7] <= '9'
    ensures FirstMonthDay(s, [c], y, MonthAlts(s, 5)).Some? ==>
              FirstMonthDay(s, [c], y, MonthAlts(s, 5)).value == (y, Digit(s[5]), Digit(s[7]), 8)
  {
    AltsPastEnd(s, 8);
    var single := if '1' <= s[5] <= '9' then [(Digit(s[5]), 6)] else [];
    var double := MonthAlts(s, 5)[..|MonthAlts(s, 5)| - |single|];
    assert MonthAlts(s, 5) == double + single;
    assert forall k :: 0 <= k < |double| ==> double[k].1 == 7;
    FirstMonthDaySkips(s, c, y, double, single);
    if |s| > 7 && '1' <= s[5] <= '9' && s[6] == c {
      assert OccursAt([c], s, 6);
      if '1' <= s[7] <= '9' {
        assert DayAlts(s, 7) == [(Digit(s[7]), 8)];
      } else {
        assert DayAlts(s, 7) == [];
      }
    }
    if |s| == 7 && '1' <= s[5] <= '9' && s[6] == c {
      AltsPastEnd(s, 7);
    }
  }

  /** Month alternatives ending at 7 never lead to a match in 8 characters. */
  lemma {:induction false} FirstMonthDaySkips(s: string, c: char, y: int, double: seq<(int, nat)>, single: seq<(int, nat)>)
    requires |s| <= 8
    requires forall k :: 0 <= k < |double| ==> double[k].1 == 7
    ensures FirstMonthDay(s, [c], y, double + single) == FirstMonthDay(s, [c], y, single)
    decreases |double|
  {
    if |double| > 0 {
      AltsPastEnd(s, 8);
      assert (double + single)[0] == double[0];
      assert (double + single)[1..] == double[1..] + single;
      FirstMonthDaySkips(s, c, y, double[1..], single);
    } else {
      assert double + single == single;
    }
  }

  lemma StrptimeShort(s: string, fmt: string, c: char)
    requires (fmt == "%Y-%m-%d" && c == '-') || (fmt == "%Y/%m/%d" && c == '/')
    requires |s| <= 8
    ensures Strptime(s, fmt).Some? <==> ShortDateShape(s, c) && DigitsValue(s[..4]) >= 1
    ensures Strptime(s, fmt).Some? ==> Strptime(s, fmt).value == ShortDate(s)
  {
    if LeadingYear(s).Some? && OccursAt([c], s, 4) {
      DigitsValueBound(s[..4]);
      if |s| >= 6 {
        FirstMonthDayShort(s, c, LeadingYear(s).value);
      } else {
        AltsPastEnd(s, 5);
      }
    }
  }

  lemma StrptimeTooShort(s: string, fmt: string)
    requires (fmt == "%Y-%m" && |s| <= 5) || (fmt == "%Y" && |s| <= 2)
    ensures Strptime(s, fmt) == None
  {
    AltsPastEnd(s, 5);
  }

  /** Which texts `_to_date` parses, and to what. */
  lemma ToDateText(text: string)
    ensures TryFormats(text, DateFormats).Some? <==>
              (ShortDateShape(text, '-') || ShortDateShape(text, '/')) && DigitsValue(text[..4]) >= 1
    ensures TryFormats(text, DateFormats).Some? ==> TryFormats(text, DateFormats).value == ShortDate(text)
  {
    var n8 := if 8 < |text| then 8 else |text|;
    var cut8 := text[..n8];
    assert TryFormats(text, DateFormats) ==
      if Strptime(cut8, "%Y-%m-%d").Some? then Strptime(cut8, "%Y-%m-%d") else Strptime(cut8, "%Y/%m/%d")
    by {
      assert |"%Y-%m-%d"| == 8 && |"%Y/%m/%d"| == 8 && |"%Y-%m"| == 5 && |"%Y"| == 2;
      StrptimeTooShort(text[..if 5 < |text| then 5 else |text|], "%Y-%m");
      StrptimeTooShort(text[..if 2 < |text| then 2 else |text|], "%Y");
      assert TryFormats(text, ["%Y"]) == None;
      assert TryFormats(text, ["%Y-%m", "%Y"]) == None;
      assert TryFormats(text, ["%Y/%m/%d", "%Y-%m", "%Y"]) == Strptime(cut8, "%Y/%m/%d");
    }
    assert (ShortDateShape(cut8, '-') <==> ShortDateShape(text, '-'))
              && (ShortDateShape(cut8, '/') <==> ShortDateShape(text, '/'))
              && (|text| >= 8 ==> cut8[..4] == text[..4])
              && (|text| >= 8 && AllDigits(text[..4]) ==> ShortDate(cut8) == ShortDate(text));
    StrptimeShort(cut8, "%Y-%m-%d", '-');
    StrptimeShort(cut8, "%Y/%m/%d", '/');
  }

  /** `text` is one `_to_date` accepts. */
  predicate ParsesAsShortDate(text: string) {
    (ShortDateShape(text, '-') || ShortDateShape(text, '/')) && DigitsValue(text[..4]) >= 1
  }

  /** `_to_date(val)`: a timestamp passes through; any other value is a date exactly
      when its text begins `YYYY-M-D` or `YYYY/M/D` with one-digit month and day. */
  function ToDate(v: Value): (r: Option<Date>)
    ensures v.Stamp? ==> r == Some(v.d)
    ensures !v.Stamp? ==> (r.Some? <==> ParsesAsShortDate(Show(v)))
    ensures !v.Stamp? && r.Some? ==> r.value == ShortDate(Show(v)) && ValidDate(r.value)
  {
    if v.Stamp? then Some(v.d)
    else
      ToDateText(Show(v));
      TryFormats(Show(v), DateFormats)
  }

  /** A full ISO date such as `2022-01-01` has a digit where the second separator
      would have to be, so `_to_date` rejects it. */
  lemma IsoDateNeverParses(text: string)
    requires |text| >= 7 && IsDigit(text[6])
    ensures ToDate(Str(text)) == None
  {
  }

  lemma DigitsOf2022()
    ensures DigitsValue("2022") == 2022
  {
    assert "2022"[..3] == "202" && "202"[..2] == "20" && "20"[..1] == "2" && "2"[..0] == "";
  }

  /** `_to_date("2022-1-5")` is 5 January 2022, but `_to_date("2022/3/15")` is
      1 March: the day is cut to its first digit. */
  lemma ToDateShortExamples()
    ensures ToDate(Str("2022-1-5")) == Some(Date(2022, 1, 5))
    ensures ToDate(Str("2022/3/15")) == Some(Date(2022, 3, 1))
  {
    DigitsOf2022();
    assert ShortDateShape("2022-1-5", '-') && ("2022-1-5")[..4] == "2022";
    assert ShortDateShape("2022/3/15", '/') && ("2022/3/15")[..4] == "2022";
  }

  /** No number is a date to `_to_date`, not even an integer-coded `YYYYMMDD`:
      its text has a digit where the first separator would have to be. */
  lemma NumberNeverParses(n: int)
    ensures ToDate(Num(n)) == None
  {
    var t := Show(Num(n));
    if |t| >= 8 {
      assert IsDigit(t[4]);
    }
  }

  lemma ToDateRejectExamples()
    ensures ToDate(Str("2022-01-01")) == None
    ensures ToDate(Num(20220101)) == None
  {
    IsoDateNeverParses("2022-01-01");
    NumberNeverParses(20220101);
  }

  /** The operand of an `in` filter that is a sequence, lowercased and printed. */
  function LoweredElements(v: Value): seq<string>
    requires IsSequence(v)
  {
    var es := Elements(v);
    seq(|es|, i requires 0 <= i < |es| => Lower(Show(es[i])))
  }

  /** `row_text in vals or any(v in row_text for v in vals)` */
  predicate MatchesAny(rowText: string, vals: seq<string>) {
    (exists i | 0 <= i < |vals| :: rowText == vals[i])
    || (exists i | 0 <= i < |vals| :: Contains(rowText, vals[i]))
  }

  /** `apply_filter(row_val, op, value)`. Python may return `None` for the date
      operators; that is `None` here, `Some(b)` for a boolean `b`. */
  function ApplyFilter(row: Value, op: string, value: Value): Option<bool>
  {
    var rowText := Lower(Show(row));
    if op == "eq" then Some(Show(row) == Show(value))
    else if op == "neq" then Some(Show(row) != Show(value))
    else if op == "contains" then Some(Contains(rowText, Lower(Show(value))))
    else if op == "startswith" then Some(StartsWith(rowText, Lower(Show(value))))
    else if op == "in" then
      if IsSequence(value) then Some(MatchesAny(rowText, LoweredElements(value)))
      else Some(Contains(rowText, Lower(Show(value))))
    else if op == "gte" || op == "lte" || op == "between" then
      if IsNumber(row) && IsNumber(value) then
        // a comparison with NaN is false
        if row.Missing? || value.Missing? then Some(false)
        else Some(if op == "gte" then row.n >= value.n else row.n <= value.n)
      else
        match ToDate(row)
        case None => Some(false)
        case Some(rowDate) =>
          if op == "between" && IsSequence(value) && |Elements(value)| == 2 then
            var start, end := ToDate(Elements(value)[0]), ToDate(Elements(value)[1]);
            if start.None? || end.None? then None
            else Some(DateLe(start.value, rowDate) && DateLe(rowDate, end.value))
          else
            match ToDate(value)
            case None => None
            case Some(cmp) => Some(if op == "gte" then DateLe(cmp, rowDate) else DateLe(rowDate, cmp))
    else Some(true)
  }

  /** A filter passes only on a `True` result; `False` and `None` both reject. */
  predicate Passes(r: Option<bool>) {
    r == Some(true)
  }

  /** `eq` compares the printed forms exactly, so case matters; `neq` is its negation. */
  lemma EqIsExactNeqIsNegation(row: Value, value: Value)
    ensures ApplyFilter(row, "eq", value) == Some(Show(row) == Show(value))
    ensures ApplyFilter(row, "neq", value) == Some(!ApplyFilter(row, "eq", value).value)
  {
  }

  lemma EqIsCaseSensitive()
    ensures ApplyFilter(Str("Water"), "eq", Str("water")) == Some(false)
  {
    assert "Water"[0] != "water"[0];
  }

  /** `contains` and `startswith` see only lowercased text: lowering either side first
      changes nothing. */
  lemma TextOpsIgnoreCase(row: Value, op: string, value: Value)
    requires op == "contains" || op == "startswith"
    ensures ApplyFilter(row, op, value).Some?
    ensures ApplyFilter(row, op, value) == ApplyFilter(Str(Lower(Show(row))), op, Str(Lower(Show(value))))
  {
    LowerIdempotent(Show(row));
    LowerIdempotent(Show(value));
  }

  /** An empty `contains` operand matches every row. */
  lemma ContainsEmptyMatchesAll(row: Value)
    ensures ApplyFilter(row, "contains", Str("")) == Some(true)
  {
    ContainsEmpty(Lower(Show(row)));
  }

  /** `in` with a sequence operand passes exactly when the lowered text of some element
      occurs in the lowered row text (equality being the whole-text case). */
  lemma InSequenceOperand(row: Value, value: Value)
    requires IsSequence(value)
    ensures Passes(ApplyFilter(row, "in", value)) <==>
              exists i :: 0 <= i < |Elements(value)| && Contains(Lower(Show(row)), Lower(Show(Elements(value)[i])))
  {
    var rowText, vals := Lower(Show(row)), LoweredElements(value);
    assert ApplyFilter(row, "in", value) == Some(MatchesAny(rowText, vals));
    assert forall i :: 0 <= i < |vals| ==> vals[i] == Lower(Show(Elements(value)[i]));
    if exists i | 0 <= i < |vals| :: rowText == vals[i] {
      var i :| 0 <= i < |vals| && rowText == vals[i];
      ContainsSelf(rowText);
      assert Contains(rowText, Lower(Show(Elements(value)[i])));
    }
  }

  /** A one-element list behaves as `contains` with that element. */
  lemma InSingletonIsContains(row: Value, x: Value)
    ensures ApplyFilter(row, "in", Items([x])) == ApplyFilter(row, "contains", x)
  {
    InSequenceOperand(row, Items([x]));
    var rowText := Lower(Show(row));
    var es := Elements(Items([x]));
    assert es == [x] && |es| == 1 && es[0] == x;
    if Contains(rowText, Lower(Show(x))) {
      assert 0 <= 0 < |es| && Contains(rowText, Lower(Show(es[0])));
    }
    assert Passes(ApplyFilter(row, "in", Items([x]))) <==> Contains(rowText, Lower(Show(x)));
    assert ApplyFilter(row, "in", Items([x])) == Some(MatchesAny(rowText, LoweredElements(Items([x]))));
    assert ApplyFilter(row, "contains", x) == Some(Contains(rowText, Lower(Show(x))));
  }

  /** A plain string is a sequence of characters: `in` with text passes when any single
      character of it occurs in the row, and never for the empty text. */
  lemma InTextIsPerCharacter(row: Value, s: string)
    ensures Passes(ApplyFilter(row, "in", Str(s))) <==>
              exists i :: 0 <= i < |s| && Contains(Lower(Show(row)), [LowerChar(s[i])])
    ensures s == "" ==> ApplyFilter(row, "in", Str(s)) == Some(false)
  {
    InSequenceOperand(row, Str(s));
    forall i | 0 <= i < |s| ensures Lower(Show(Elements(Str(s))[i])) == [LowerChar(s[i])] {
    }
  }

  lemma InTextExample()
    ensures ApplyFilter(Str("solar"), "in", Str("xyz!a")) == Some(true)
    ensures ApplyFilter(Str("solar"), "contains", Str("xyz!a")) == Some(false)
  {
    InTextIsPerCharacter(Str("solar"), "xyz!a");
    var t := Lower(Show(Str("solar")));
    assert "xyz!a"[4] == 'a' && LowerChar('a') == 'a';
    assert t[3] == 'a' && t[3..4] == ['a'];
    assert OccursAt(['a'], t, 3);
    assert Contains(t, [LowerChar("xyz!a"[4])]);
    assert !Contains("solar", "xyz!a");
  }

  /** An operand that is not a sequence makes `in` the same test as `contains`. */
  lemma InScalarIsContains(row: Value, value: Value)
    requires !IsSequence(value)
    ensures ApplyFilter(row, "in", value) == ApplyFilter(row, "contains", value)
  {
  }

  /** Two numbers compare numerically, and `between` with a number operand is `lte`. */
  lemma NumericComparisons(row: Value, value: Value)
    requires row.Num? && value.Num?
    ensures ApplyFilter(row, "gte", value) == Some(row.n >= value.n)
    ensures ApplyFilter(row, "lte", value) == Some(row.n <= value.n)
    ensures ApplyFilter(row, "between", value) == ApplyFilter(row, "lte", value)
  {
  }

  /** A row value that is not a date fails every date comparison (with a plain `False`). */
  lemma DateOpsNeedRowDate(row: Value, op: string, value: Value)
    requires op == "gte" || op == "lte" || op == "between"
    requires !(IsNumber(row) && IsNumber(value))
    requires ToDate(row).None?
    ensures ApplyFilter(row, op, value) == Some(false)
  {
  }

  /** `between` with two bounds: `None` if a bound is not a date, otherwise whether the
      row date lies between them, both ends included. */
  lemma BetweenTwoBounds(row: Value, value: Value)
    requires !(IsNumber(row) && IsNumber(value))
    requires ToDate(row).Some? && IsSequence(value) && |Elements(value)| == 2
    ensures ToDate(Elements(value)[0]).None? || ToDate(Elements(value)[1]).None? ==>
              ApplyFilter(row, "between", value) == None
    ensures ToDate(Elements(value)[0]).Some? && ToDate(Elements(value)[1]).Some? ==>
              ApplyFilter(row, "between", value) ==
                Some(DateLe(ToDate(Elements(value)[0]).value, ToDate(row).value)
                     && DateLe(ToDate(row).value, ToDate(Elements(value)[1]).value))
  {
  }

  /** The range the rewriter's own prompt shows, `["2022-01-01", "2024-12-31"]`, lets
      no row through: its bounds are full ISO dates, which `_to_date` rejects. */
  lemma IsoRangeRejectsEveryRow(row: Value)
    ensures !Passes(ApplyFilter(row, "between", Items([Str("2022-01-01"), Str("2024-12-31")])))
  {
    IsoDateNeverParses("2022-01-01");
    IsoDateNeverParses("2024-12-31");
  }

  /** An operator outside the eight known ones passes every row. */
  lemma UnknownOpFailsOpen(row: Value, op: string, value: Value)
    requires op !in KnownOps
    ensures ApplyFilter(row, op, value) == Some(true)
  {
  }

  /** Only the date comparisons can answer `None`. */
  lemma NoneOnlyFromDates(row: Value, op: string, value: Value)
    requires ApplyFilter(row, op, value).None?
    ensures op == "gte" || op == "lte" || op == "between"
    ensures !(IsNumber(row) && IsNumber(value)) && ToDate(row).Some?
  {
  }
}
