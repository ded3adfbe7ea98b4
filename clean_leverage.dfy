/** Fund-name cleaning of the leverage table, written into the caller's frame:
    lower-case, strip, and one underscore for every run of whitespace and
    underscores, so that the names join with the ledger's fund column. */
module CleanLeverage {
  import opened Frames
  import opened Text

  /** The cleaned fund cell for an original cell (rendered with `astype(str)`). */
  function CleanFundCell(v: Value, show: Value -> string): (r: Value)
    ensures r.Str? && NoSpace(r.s) && NoDoubleUnderscore(r.s)
  {
    var s := AsText(v, show);
    FundNameIsNormalizedText(s);
    NormalizeTextShape(s);
    Str(NormalizeFundName(s))
  }

  /** Cleaning a cleaned fund name changes nothing. */
  lemma CleanFundCellIdempotent(v: Value, show: Value -> string)
    ensures CleanFundCell(CleanFundCell(v, show), show) == CleanFundCell(v, show)
  {
    var s := AsText(v, show);
    FundNameIsNormalizedText(s);
    FundNameIsNormalizedText(NormalizeText(s));
    NormalizeTextIdempotent(s);
  }

  /** The rows whose fund cell differs between two versions of a table. */
  function ChangedRows(before: seq<Row>, after: seq<Row>): (n: nat)
    requires |before| == |after|
    ensures n <= |before|
  {
    if before == [] then 0
    else
      var here := if Cell(before[0], "fund") != Cell(after[0], "fund") then 1 else 0;
      ChangedRows(before[1..], after[1..]) + here
  }

  /** No row counts as changed when nothing changed. */
  lemma {:induction false} ChangedRowsSame(rows: seq<Row>)
    ensures ChangedRows(rows, rows) == 0
  {
    if rows != [] {
      ChangedRowsSame(rows[1..]);
    }
  }

  /** `clean_leverage_df`: `KeyError` when the caller's frame has no `fund` column,
      which is then left as it was; otherwise overwrites the `fund` column with the
      cleaned names, leaving every other column and the row count as they were, and
      returns the same frame. `changes` is not a result of the source: it stands for
      the count of rows whose fund cell differs from its original, which the source
      only writes to its log. */
  method CleanLeverageDf(t: Table, show: Value -> string) returns (res: Result<Frame>, changes: nat)
    modifies t
    ensures t.columns == old(t.columns) && |t.rows| == |old(t.rows)|
    ensures res.KeyError? <==> "fund" !in t.columns
    ensures res.KeyError? ==> res.column == "fund" && t.rows == old(t.rows) && changes == 0
    ensures !res.ValueError?
    ensures res.Ok? ==> res.value == t.Contents()
    ensures res.Ok? ==> forall i :: 0 <= i < |t.rows| ==>
      t.rows[i] == old(t.rows[i])["fund" := CleanFundCell(Cell(old(t.rows[i]), "fund"), show)]
    ensures changes == ChangedRows(old(t.rows), t.rows)
  {
    var before := t.rows;
    if "fund" !in t.columns {
      ChangedRowsSame(before);
      return KeyError("fund"), 0;
    }
    t.rows := seq(|before|, i requires 0 <= i < |before| =>
      before[i]["fund" := CleanFundCell(Cell(before[i], "fund"), show)]);
    changes := ChangedRows(before, t.rows);
    res := Ok(t.Contents());
  }

  /** A second cleaning of the same table reports no change. */
  lemma CleanLeverageAgainChangesNothing(rows: seq<Row>, show: Value -> string)
    ensures var once := seq(|rows|, i requires 0 <= i < |rows| =>
        rows[i]["fund" := CleanFundCell(Cell(rows[i], "fund"), show)]);
      var twice := seq(|once|, i requires 0 <= i < |once| =>
        once[i]["fund" := CleanFundCell(Cell(once[i], "fund"), show)]);
      twice == once && ChangedRows(once, twice) == 0
  {
    var once := seq(|rows|, i requires 0 <= i < |rows| =>
      rows[i]["fund" := CleanFundCell(Cell(rows[i], "fund"), show)]);
    var twice := seq(|once|, i requires 0 <= i < |once| =>
      once[i]["fund" := CleanFundCell(Cell(once[i], "fund"), show)]);
    forall i | 0 <= i < |once| ensures twice[i] == once[i] {
      CleanFundCellIdempotent(Cell(rows[i], "fund"), show);
    }
    assert twice == once;
    ChangedRowsSame(once);
  }
}
