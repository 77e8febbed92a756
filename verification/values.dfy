/** The dynamically typed cell and operand values the source passes around
    (pandas cells, JSON-decoded filter operands), and Python's `str`, truthiness
    and `isinstance` tests over them. */
module Values {
  import opened Strings

  /** A calendar date (`datetime` / pandas `Timestamp` at midnight). */
  datatype Date = Date(year: int, month: int, day: int)

  predicate IsLeapYear(y: int) {
    (y % 4 == 0 && y % 100 != 0) || y % 400 == 0
  }

  function DaysInMonth(y: int, m: int): int {
    if m == 2 then (if IsLeapYear(y) then 29 else 28)
    else if m == 4 || m == 6 || m == 9 || m == 11 then 30
    else 31
  }

  /** The dates `datetime` can represent. */
  predicate ValidDate(d: Date) {
    1 <= d.year <= 9999 && 1 <= d.month <= 12 && 1 <= d.day <= DaysInMonth(d.year, d.month)
  }

  /** Chronological `a <= b`. */
  predicate DateLe(a: Date, b: Date) {
    a.year < b.year || (a.year == b.year && (a.month < b.month || (a.month == b.month && a.day <= b.day)))
  }

  /** A number that orders valid dates chronologically. */
  function DateKey(d: Date): int {
    d.year * 10000 + d.month * 100 + d.day
  }

  lemma DateKeyOrders(a: Date, b: Date)
    requires ValidDate(a) && ValidDate(b)
    ensures DateLe(a, b) <==> DateKey(a) <= DateKey(b)
  {
  }

  /** A cell or operand value: text, a number (int or float, with floats' fractional
      part not modelled), a timestamp, a list, or a missing cell (NaN). */
  datatype Value =
    | Str(s: string)
    | Num(n: int)
    | Stamp(d: Date)
    | Items(xs: seq<Value>)
    | Missing

  /** `str(v)` when `quoted` is false, `repr(v)` when it is true. */
  function Render(v: Value, quoted: bool): string
    decreases v
  {
    match v
    case Str(s) => if quoted then "'" + s + "'" else s
    case Num(n) => IntToString(n)
    case Stamp(d) =>
      var text := PadNat(if d.year < 0 then 0 else d.year, 4) + "-" + PadNat(if d.month < 0 then 0 else d.month, 2)
                  + "-" + PadNat(if d.day < 0 then 0 else d.day, 2) + " 00:00:00";
      if quoted then "Timestamp('" + text + "')" else text
    case Items(xs) => "[" + Join(", ", seq(|xs|, i requires 0 <= i < |xs| => Render(xs[i], true))) + "]"
    case Missing => "nan"
  }

  /** `str(v)` */
  function Show(v: Value): string {
    Render(v, false)
  }

  /** `str` of text is the text itself; a missing cell prints as `nan`. */
  lemma ShowBasics(s: string)
    ensures Show(Str(s)) == s
    ensures Show(Missing) == "nan"
  {
  }

  /** `bool(v)`: empty text, zero and the empty list are falsy; NaN is truthy. */
  predicate Truthy(v: Value) {
    match v
    case Str(s) => |s| > 0
    case Num(n) => n != 0
    case Stamp(_) => true
    case Items(xs) => |xs| > 0
    case Missing => true
  }

  /** `isinstance(v, numbers.Number)`; NaN is a float. */
  predicate IsNumber(v: Value) {
    v.Num? || v.Missing?
  }

  /** `isinstance(v, collections.abc.Sequence)`; text is a sequence of characters. */
  predicate IsSequence(v: Value) {
    v.Str? || v.Items?
  }

  /** The items iterating over a sequence value yields: one-character strings for text. */
  function Elements(v: Value): (r: seq<Value>)
    requires IsSequence(v)
    ensures v.Str? ==> |r| == |v.s| && forall i :: 0 <= i < |r| ==> r[i] == Str([v.s[i]])
    ensures v.Items? ==> r == v.xs
  {
    if v.Str? then seq(|v.s|, i requires 0 <= i < |v.s| => Str([v.s[i]])) else v.xs
  }

  /** `v or default`, printed. */
  function OrElse(v: Value, default: string): string {
    if Truthy(v) then Show(v) else default
  }

  /** A table row: column name to cell. */
  type Row = map<string, Value>

  /** `row.get(col, "")` */
  function Get(row: Row, col: string): Value
  {
    if col in row then row[col] else Str("")
  }
}
