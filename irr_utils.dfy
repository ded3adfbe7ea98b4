/** The ledger formatting utilities: type coercion and text normalisation of listed
    columns with a drop of rows lacking a date, and the stacking of fund-level fee
    rows under the master cashflow ledger. */
module IrrUtils {
  import opened Calendar
  import opened Frames
  import opened Text

  /** The foreign conversions the cleaning relies on: the date and number parsers
      behind `to_datetime` / `to_numeric` and the `astype(str)` rendering. */
  datatype Parsers = Parsers(date: Value -> Option<Date>, number: Value -> Option<real>, show: Value -> string)

  datatype ColumnRule = DateRule | TextRule | NumberRule

  /** The new value of one cell of a listed column. */
  function CleanCell(rule: ColumnRule, v: Value, p: Parsers): (r: Value)
    ensures rule == DateRule ==> IsDayOrNull(r)
    ensures rule == TextRule ==> r.Str? && NoSpace(r.s) && NoDoubleUnderscore(r.s) && NoUpper(r.s)
    ensures rule == TextRule ==> r == Str(NormalizeText(AsText(v, p.show)))
    ensures rule == NumberRule ==> r.Num? || r.Inf?
    ensures rule == NumberRule && v.Num? ==> r == v
    ensures rule == NumberRule && v.Null? ==> r == Num(0.0)
  {
    match rule
    case DateRule => ToDatetime(v, p.date)
    case TextRule =>
      NormalizeTextShape(AsText(v, p.show));
      Str(NormalizeText(AsText(v, p.show)))
    case NumberRule =>
      var n := ToNumeric(v, p.number);
      if n.Null? then Num(0.0) else n
  }

  /** Text cleaning applied to already cleaned text changes nothing. */
  lemma CleanTextCellIdempotent(v: Value, p: Parsers)
    ensures CleanCell(TextRule, CleanCell(TextRule, v, p), p) == CleanCell(TextRule, v, p)
  {
    NormalizeTextIdempotent(AsText(v, p.show));
  }

  /** One pass of a loop body: a listed column that is present is rewritten cell by
      cell; an absent one is skipped. */
  function CleanColumn(f: Frame, col: string, rule: ColumnRule, p: Parsers): (r: Frame)
    ensures r.columns == f.columns && |r.rows| == |f.rows|
    ensures col !in f.columns ==> r == f
    ensures forall i, c :: 0 <= i < |f.rows| && c != col ==> Cell(r.rows[i], c) == Cell(f.rows[i], c)
    ensures col in f.columns ==> forall i :: 0 <= i < |f.rows| ==>
      Cell(r.rows[i], col) == CleanCell(rule, Cell(f.rows[i], col), p)
  {
    if col !in f.columns then f
    else Frame(f.columns, seq(|f.rows|, i requires 0 <= i < |f.rows| =>
      f.rows[i][col := CleanCell(rule, Cell(f.rows[i], col), p)]))
  }

  /** The frame after the loop over `cols`, one column at a time in list order. The
      loop keeps the columns and the row count, and touches no unlisted column. */
  function CleanColumns(f: Frame, cols: seq<string>, rule: ColumnRule, p: Parsers): (r: Frame)
    ensures r.columns == f.columns && |r.rows| == |f.rows|
    ensures forall i, c :: 0 <= i < |f.rows| && c !in cols ==> Cell(r.rows[i], c) == Cell(f.rows[i], c)
    decreases |cols|
  {
    if cols == [] then f
    else
      var init := cols[..|cols| - 1];
      assert forall c :: c !in cols ==> c !in init;
      CleanColumn(CleanColumns(f, init, rule, p), cols[|cols| - 1], rule, p)
  }

  /** After the loop, every cell of a listed column that is present holds what its
      rule produces: a date or NaT, normalised text, or a number with no NaN left. */
  lemma {:induction false} CleanColumnsListed(f: Frame, cols: seq<string>, rule: ColumnRule, p: Parsers, c: string, i: int)
    requires c in cols && c in f.columns && 0 <= i < |f.rows|
    ensures var v := Cell(CleanColumns(f, cols, rule, p).rows[i], c);
      (rule == DateRule ==> IsDayOrNull(v)) &&
      (rule == TextRule ==> v.Str? && NoSpace(v.s) && NoDoubleUnderscore(v.s)) &&
      (rule == NumberRule ==> v.Num? || v.Inf?)
    decreases |cols|
  {
    var init := cols[..|cols| - 1];
    if cols[|cols| - 1] != c {
      assert c in init;
      CleanColumnsListed(f, init, rule, p, c, i);
    }
  }

  /** Every cell of the listed date columns is present. */
  predicate HasDates(r: Row, dateCols: seq<string>) {
    forall c :: c in dateCols ==> !Cell(r, c).Null?
  }

  /** `dropna(subset=date_cols)`: `KeyError` when a listed date column is absent;
      otherwise the rows with a value in every listed date column, in order. */
  function DropMissingDates(f: Frame, dateCols: seq<string>): (r: Result<Frame>)
    ensures r.KeyError? <==> exists c :: c in dateCols && c !in f.columns
    ensures r.KeyError? ==> r.column in dateCols && r.column !in f.columns
    ensures r.Ok? ==> r.value.columns == f.columns
    ensures r.Ok? ==> forall i :: 0 <= i < |r.value.rows| ==> HasDates(r.value.rows[i], dateCols)
    ensures r.Ok? ==> forall row :: row in r.value.rows <==> row in f.rows && HasDates(row, dateCols)
  {
    match FirstMissing(dateCols, f.columns)
    case Some(c) => KeyError(c)
    case None => Ok(Frame(f.columns, Filter(f.rows, r => HasDates(r, dateCols))))
  }

  /** `clean_data_format` as a composition: the date, text and numeric passes, then
      the drop of undated rows. */
  function CleanDataFormatSpec(data: Frame, dateCols: seq<string>, textCols: seq<string>,
                               numCols: seq<string>, p: Parsers): Result<Frame>
  {
    var dated := CleanColumns(data, dateCols, DateRule, p);
    var texted := CleanColumns(dated, textCols, TextRule, p);
    DropMissingDates(CleanColumns(texted, numCols, NumberRule, p), dateCols)
  }

  /** `clean_data_format`: three loops over the column lists rewrite a working copy,
      then rows with a missing date are dropped. Header whitespace stripping is not
      part of this model: the column names are taken as already stripped. */
  method CleanDataFormat(data: Frame, dateCols: seq<string>, textCols: seq<string>,
                         numCols: seq<string>, p: Parsers) returns (res: Result<Frame>)
    ensures res == CleanDataFormatSpec(data, dateCols, textCols, numCols, p)
  {
    var df := data;
    var i := 0;
    while i < |dateCols|
      invariant 0 <= i <= |dateCols|
      invariant df == CleanColumns(data, dateCols[..i], DateRule, p)
    {
      assert dateCols[..i + 1][..i] == dateCols[..i];
      df := CleanColumn(df, dateCols[i], DateRule, p);
      i := i + 1;
    }
    assert dateCols[..i] == dateCols;
    var dated := df;
    i := 0;
    while i < |textCols|
      invariant 0 <= i <= |textCols|
      invariant df == CleanColumns(dated, textCols[..i], TextRule, p)
    {
      assert textCols[..i + 1][..i] == textCols[..i];
      df := CleanColumn(df, textCols[i], TextRule, p);
      i := i + 1;
    }
    assert textCols[..i] == textCols;
    var texted := df;
    i := 0;
    while i < |numCols|
      invariant 0 <= i <= |numCols|
      invariant df == CleanColumns(texted, numCols[..i], NumberRule, p)
    {
      assert numCols[..i + 1][..i] == numCols[..i];
      df := CleanColumn(df, numCols[i], NumberRule, p);
      i := i + 1;
    }
    assert numCols[..i] == numCols;
    res := DropMissingDates(df, dateCols);
  }

  /** What the cleaned ledger guarantees: the columns are kept; a present numeric
      column holds no missing value; a present text column holds normalised text
      unless it is also numeric; a date column that no later pass rewrites holds a
      date on every surviving row; rows are dropped only for a missing date. */
  lemma CleanDataFormatGuarantees(data: Frame, dateCols: seq<string>, textCols: seq<string>,
                                  numCols: seq<string>, p: Parsers, c: string, i: int)
    requires CleanDataFormatSpec(data, dateCols, textCols, numCols, p).Ok?
    requires 0 <= i < |CleanDataFormatSpec(data, dateCols, textCols, numCols, p).value.rows|
    ensures var out := CleanDataFormatSpec(data, dateCols, textCols, numCols, p).value;
      out.columns == data.columns &&
      (c in numCols && c in data.columns ==> Cell(out.rows[i], c).Num? || Cell(out.rows[i], c).Inf?) &&
      (c in textCols && c !in numCols && c in data.columns ==>
        Cell(out.rows[i], c).Str? && NoSpace(Cell(out.rows[i], c).s) && NoDoubleUnderscore(Cell(out.rows[i], c).s)) &&
      (c in dateCols && c !in textCols && c !in numCols ==> Cell(out.rows[i], c).Day?)
  {
    var dated := CleanColumns(data, dateCols, DateRule, p);
    var texted := CleanColumns(dated, textCols, TextRule, p);
    var numbered := CleanColumns(texted, numCols, NumberRule, p);
    var out := CleanDataFormatSpec(data, dateCols, textCols, numCols, p).value;
    var row := out.rows[i];
    assert row in numbered.rows && HasDates(row, dateCols);
    var j :| 0 <= j < |numbered.rows| && numbered.rows[j] == row;
    if c in numCols && c in data.columns {
      CleanColumnsListed(texted, numCols, NumberRule, p, c, j);
    }
    if c in textCols && c !in numCols && c in data.columns {
      CleanColumnsListed(dated, textCols, TextRule, p, c, j);
    }
    if c in dateCols && c !in textCols && c !in numCols {
      CleanColumnsListed(data, dateCols, DateRule, p, c, j);
    }
  }

  /** Rows with every date present are all kept, whatever their other cells hold. */
  lemma DropMissingDatesKeepsDated(f: Frame, dateCols: seq<string>)
    requires forall c :: c in dateCols ==> c in f.columns
    requires forall i :: 0 <= i < |f.rows| ==> HasDates(f.rows[i], dateCols)
    ensures DropMissingDates(f, dateCols) == Ok(f)
  {
    FilterAll(f.rows, r => HasDates(r, dateCols));
  }

  /** The fee table's columns after `rename(columns={'payment_date': 'asof'})`. */
  function RenamedColumns(cols: seq<string>): (r: seq<string>)
    ensures |r| == |cols|
    ensures forall c :: c in r <==> (c == "asof" && "payment_date" in cols) || (c in cols && c != "payment_date")
  {
    var r := seq(|cols|, i requires 0 <= i < |cols| => if cols[i] == "payment_date" then "asof" else cols[i]);
    forall c | c in r
      ensures (c == "asof" && "payment_date" in cols) || (c in cols && c != "payment_date")
    {
      var i :| 0 <= i < |r| && r[i] == c;
      assert cols[i] in cols;
    }
    forall c | (c == "asof" && "payment_date" in cols) || (c in cols && c != "payment_date")
      ensures c in r
    {
      var i :| 0 <= i < |cols| && cols[i] == (if c == "asof" && "payment_date" in cols then "payment_date" else c);
      assert r[i] == c;
    }
    r
  }

  /** One fee row after the rename; an existing `asof` cell is overwritten. */
  function RenamedRow(r: Row): (s: Row)
    ensures "payment_date" !in s
    ensures "payment_date" in r ==> Cell(s, "asof") == r["payment_date"]
    ensures forall c :: c != "asof" && c != "payment_date" ==> Cell(s, c) == Cell(r, c)
  {
    if "payment_date" in r then (r - {"payment_date"})["asof" := r["payment_date"]] else r
  }

  /** The cell a master column receives in an appended fee row: the renamed fee
      cell when the fee table has that column, `pd.NA` otherwise. */
  function AlignedCell(fees: Frame, k: int, c: string): Value
    requires 0 <= k < |fees.rows|
  {
    if c in RenamedColumns(fees.columns) then Cell(RenamedRow(fees.rows[k]), c) else Null
  }

  /** `stack_fund_fees_into_master`: the master rows unchanged, followed by one row per
      fee row carrying exactly the master's columns. */
  method StackFundFeesIntoMaster(fees: Frame, master: Frame) returns (combined: Frame)
    ensures combined.columns == master.columns
    ensures |combined.rows| == |master.rows| + |fees.rows|
    ensures combined.rows[..|master.rows|] == master.rows
    ensures forall k :: |master.rows| <= k < |combined.rows| ==>
      combined.rows[k].Keys == set c | c in master.columns
    ensures forall k, c :: |master.rows| <= k < |combined.rows| && c in master.columns ==>
      Cell(combined.rows[k], c) == AlignedCell(fees, k - |master.rows|, c)
  {
    var rows := AddMasterColumns(fees, master.columns);
    var aligned := Reindexed(rows, master.columns);
    combined := Frame(master.columns, master.rows + aligned);
    assert combined.rows[..|master.rows|] == master.rows;
    forall k | |master.rows| <= k < |combined.rows|
      ensures combined.rows[k] == aligned[k - |master.rows|]
    {
    }
  }

  /** The loop of the column alignment: the fee rows renamed, then every master
      column the fee table lacks added as missing. */
  method AddMasterColumns(fees: Frame, masterColumns: seq<string>) returns (rows: seq<Row>)
    ensures |rows| == |fees.rows|
    ensures forall k, c :: 0 <= k < |rows| && c in masterColumns ==> Cell(rows[k], c) == AlignedCell(fees, k, c)
  {
    var renamed := RenamedColumns(fees.columns);
    var columns := renamed;
    rows := seq(|fees.rows|, k requires 0 <= k < |fees.rows| => RenamedRow(fees.rows[k]));
    var i := 0;
    while i < |masterColumns|
      invariant 0 <= i <= |masterColumns|
      invariant |rows| == |fees.rows|
      invariant forall c :: c in renamed ==> c in columns
      invariant forall c :: c in columns ==> c in renamed || c in masterColumns[..i]
      invariant forall k, c :: 0 <= k < |rows| && (c in renamed || c in masterColumns[..i]) ==>
        Cell(rows[k], c) == AlignedCell(fees, k, c)
    {
      var c := masterColumns[i];
      assert masterColumns[..i + 1] == masterColumns[..i] + [c];
      if c !in columns {
        columns := columns + [c];
        rows := WithNullColumn(rows, c);
      }
      i := i + 1;
    }
    assert masterColumns[..i] == masterColumns;
  }

  /** A column the fee table lacks is added to every fee row as missing. */
  function WithNullColumn(rows: seq<Row>, c: string): (out: seq<Row>)
    ensures |out| == |rows|
    ensures forall k, d :: 0 <= k < |rows| ==> Cell(out[k], d) == if d == c then Null else Cell(rows[k], d)
  {
    seq(|rows|, k requires 0 <= k < |rows| => rows[k][c := Null])
  }

  /** `reindex(columns=...)` on the fee rows: exactly the master's columns, in each the
      cell the row already had. */
  function Reindexed(rows: seq<Row>, columns: seq<string>): (out: seq<Row>)
    ensures |out| == |rows|
    ensures forall k :: 0 <= k < |rows| ==> out[k].Keys == set c | c in columns
    ensures forall k, c :: 0 <= k < |rows| && c in columns ==> Cell(out[k], c) == Cell(rows[k], c)
  {
    seq(|rows|, k requires 0 <= k < |rows| => map c | c in columns :: Cell(rows[k], c))
  }

  /** The fee rows produced by the monthly-fee step: with the columns payment_date,
      cashflow_type, fund and amount, an appended row is dated by its payment date,
      keeps its type, fund and amount, and has every other master column missing. */
  lemma StackedFeeRow(fees: Frame, k: int, c: string)
    requires fees.columns == ["payment_date", "cashflow_type", "fund", "amount"]
    requires Rectangular(fees)
    requires 0 <= k < |fees.rows|
    ensures c == "asof" ==> AlignedCell(fees, k, c) == Cell(fees.rows[k], "payment_date")
    ensures c in ["cashflow_type", "fund", "amount"] ==> AlignedCell(fees, k, c) == Cell(fees.rows[k], c)
    ensures c !in ["asof", "cashflow_type", "fund", "amount"] ==> AlignedCell(fees, k, c) == Null
  {
    assert "payment_date" in fees.columns;
  }
}
