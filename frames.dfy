/** The tabular values the pipeline passes between stages: a cell value with an
    explicit null, a row as a column-name-to-cell map, a frame as an ordered column
    list plus rows, and a mutable table for the stages that update a caller's frame
    in place. */
module Frames {
  import opened Calendar

  datatype Option<+T> = None | Some(value: T)

  /** The outcome of a step that raises `KeyError` when a column it needs is absent,
      or `ValueError` when a value cannot be assigned to the named column. */
  datatype Result<+T> = Ok(value: T) | KeyError(column: string) | ValueError(column: string)

  /** One cell. `Null` stands for every pandas missing marker (NaN, NaT, None, pd.NA);
      `Inf` is a floating-point infinity, produced by a division by zero. */
  datatype Value = Null | Num(x: real) | Inf(negative: bool) | Str(s: string) | Day(d: Date)

  type Row = map<string, Value>

  datatype Frame = Frame(columns: seq<string>, rows: seq<Row>)

  /** The cell of column c; a row without that column reads as missing. */
  function Cell(r: Row, c: string): Value {
    if c in r then r[c] else Null
  }

  /** A float cell: finite, infinite or NaN. */
  predicate IsNumeric(v: Value) {
    v.Num? || v.Inf? || v.Null?
  }

  /** Every row of f carries a cell for exactly the columns of f, as a pandas frame does. */
  ghost predicate Rectangular(f: Frame) {
    forall i, c :: 0 <= i < |f.rows| ==> (c in f.rows[i] <==> c in f.columns)
  }

  /** A datetime column cell: a date or NaT. */
  predicate IsDayOrNull(v: Value) {
    v.Day? || v.Null?
  }

  function AsOption(v: Value): (r: Option<real>)
    ensures r.Some? <==> v.Num?
    ensures v.Num? ==> r.value == v.x
  {
    if v.Num? then Some(v.x) else None
  }

  function AsDate(v: Value): (r: Option<Date>)
    ensures r.Some? <==> v.Day?
    ensures v.Day? ==> r.value == v.d
  {
    if v.Day? then Some(v.d) else None
  }

  function OfOption(o: Option<real>): (v: Value)
    ensures AsOption(v) == o
  {
    if o.Some? then Num(o.value) else Null
  }

  /** NaN-propagating arithmetic on nullable floats. */
  function Plus(a: Option<real>, b: Option<real>): (r: Option<real>)
    ensures r.Some? <==> a.Some? && b.Some?
    ensures r.Some? ==> r.value == a.value + b.value
  {
    if a.Some? && b.Some? then Some(a.value + b.value) else None
  }

  function Times(a: Option<real>, b: Option<real>): (r: Option<real>)
    ensures r.Some? <==> a.Some? && b.Some?
    ensures r.Some? ==> r.value == a.value * b.value
  {
    if a.Some? && b.Some? then Some(a.value * b.value) else None
  }

  /** `pd.to_numeric(v, errors='coerce')`. Numbers pass through and missing stays
      missing; any other cell goes to the foreign text parser `parse`, whose failure
      becomes missing. */
  function ToNumeric(v: Value, parse: Value -> Option<real>): (r: Value)
    ensures r.Num? || r.Inf? || r.Null?
    ensures v.Num? || v.Inf? || v.Null? ==> r == v
  {
    match v
    case Num(_) => v
    case Inf(_) => v
    case Null => Null
    case _ => OfOption(parse(v))
  }

  /** `pd.to_datetime(v, errors='coerce')`, with the foreign parser `parse` for
      anything that is not already a date. */
  function ToDatetime(v: Value, parse: Value -> Option<Date>): (r: Value)
    ensures IsDayOrNull(r)
    ensures IsDayOrNull(v) ==> r == v
  {
    match v
    case Day(_) => v
    case Null => Null
    case _ => if parse(v).Some? then Day(parse(v).value) else Null
  }

  /** `astype(str)` of one cell: a string is itself, any other cell is rendered by
      `show` (pandas renders NaN as "nan"). */
  function AsText(v: Value, show: Value -> string): (s: string)
    ensures v.Str? ==> s == v.s
  {
    if v.Str? then v.s else show(v)
  }

  /** The first listed column that the frame lacks. */
  function FirstMissing(cols: seq<string>, present: seq<string>): (r: Option<string>)
    ensures r.None? <==> forall c :: c in cols ==> c in present
    ensures r.Some? ==> r.value in cols && r.value !in present
  {
    if cols == [] then None
    else if cols[0] !in present then Some(cols[0])
    else FirstMissing(cols[1..], present)
  }

  /** Boolean-mask row selection `df[mask]`: the rows satisfying `keep`, in order. */
  function Filter(rows: seq<Row>, keep: Row -> bool): (k: seq<Row>)
    ensures |k| <= |rows|
    ensures forall i :: 0 <= i < |k| ==> keep(k[i])
    ensures forall r :: r in k <==> r in rows && keep(r)
  {
    if rows == [] then []
    else if keep(rows[0]) then [rows[0]] + Filter(rows[1..], keep)
    else Filter(rows[1..], keep)
  }

  /** Selection preserves order: filtering a concatenation concatenates the filtered
      parts. */
  lemma {:induction false} FilterConcat(a: seq<Row>, b: seq<Row>, keep: Row -> bool)
    ensures Filter(a + b, keep) == Filter(a, keep) + Filter(b, keep)
  {
    if a == [] {
      assert a + b == b;
    } else {
      var ab := a + b;
      assert ab[0] == a[0] && ab[1..] == a[1..] + b;
      FilterConcat(a[1..], b, keep);
      if keep(a[0]) {
        calc {
          Filter(ab, keep);
          [a[0]] + Filter(a[1..] + b, keep);
          [a[0]] + (Filter(a[1..], keep) + Filter(b, keep));
          ([a[0]] + Filter(a[1..], keep)) + Filter(b, keep);
        }
      }
    }
  }

  /** A mask that keeps every row selects the whole frame. */
  lemma {:induction false} FilterAll(rows: seq<Row>, keep: Row -> bool)
    requires forall i :: 0 <= i < |rows| ==> keep(rows[i])
    ensures Filter(rows, keep) == rows
  {
    if rows != [] {
      FilterAll(rows[1..], keep);
    }
  }

  /** A caller's DataFrame, for the stages that write into it in place. */
  class Table {
    var columns: seq<string>
    var rows: seq<Row>

    constructor (f: Frame)
      ensures columns == f.columns && rows == f.rows
    {
      columns := f.columns;
      rows := f.rows;
    }

    function Contents(): (f: Frame)
      reads this
      ensures f.columns == columns && f.rows == rows
    {
      Frame(columns, rows)
    }
  }
}
