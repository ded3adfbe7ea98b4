/** The reporting table: the Facility, Deal and Fund metric tables stacked into one
    frame with a common set of columns, then the fund-level net IRR and net MOIC
    back-filled onto the Fund rows only. */
module LevelMerge {
  import opened Frames
  import opened Joins

  datatype Level = Facility | Deal | Fund

  function LevelName(l: Level): string {
    match l
    case Facility => "Facility"
    case Deal => "Deal"
    case Fund => "Fund"
  }

  /** The column each level takes its `id` from. */
  function IdColumn(l: Level): string {
    match l
    case Facility => "entity_id"
    case Deal => "deal_id"
    case Fund => "fund"
  }

  /** The column each level takes its `name` from. */
  function NameColumn(l: Level): string {
    match l
    case Facility => "facility_name"
    case Deal => "deal_name"
    case Fund => "fund"
  }

  /** The columns of the stacked table, in order. */
  const MergedColumns: seq<string> :=
    ["level", "id", "name", "paid_in", "distributed", "gross_irr", "gross_moic", "net_irr", "net_moic"]

  /** The `distributed` cell after `rename(columns={'distr': 'distributed'})`. */
  function Distributed(r: Row, columns: seq<string>): Value {
    if "distr" in columns then Cell(r, "distr") else Cell(r, "distributed")
  }

  /** One row of the stacked table. A column a level's table lacks reads as missing,
      and `to_numeric(errors='coerce')` goes through the parser `parse`. */
  function StackedRow(r: Row, columns: seq<string>, l: Level, parse: Value -> Option<real>): Row {
    map[
      "level" := Str(LevelName(l)),
      "id" := Cell(r, IdColumn(l)),
      "name" := Cell(r, NameColumn(l)),
      "paid_in" := ToNumeric(Cell(r, "paid_in"), parse),
      "distributed" := ToNumeric(Distributed(r, columns), parse),
      "gross_irr" := ToNumeric(Cell(r, "xirr"), parse),
      "gross_moic" := ToNumeric(Cell(r, "MOIC"), parse),
      "net_irr" := Null,
      "net_moic" := Null]
  }

  function Block(f: Frame, l: Level, parse: Value -> Option<real>): (rows: seq<Row>)
    ensures |rows| == |f.rows|
    ensures forall i :: 0 <= i < |f.rows| ==> rows[i] == StackedRow(f.rows[i], f.columns, l, parse)
  {
    seq(|f.rows|, i requires 0 <= i < |f.rows| => StackedRow(f.rows[i], f.columns, l, parse))
  }

  /** The columns `merge_deal_level` reads, per table and in the order it reads them. */
  function MissingLabel(l3: Frame, l2: Frame, l1: Frame): (r: Option<string>)
    ensures r.None? <==> ("entity_id" in l3.columns && "facility_name" in l3.columns &&
      "deal_id" in l2.columns && "deal_name" in l2.columns && "fund" in l1.columns)
  {
    if "entity_id" !in l3.columns then Some("entity_id")
    else if "facility_name" !in l3.columns then Some("facility_name")
    else if "deal_id" !in l2.columns then Some("deal_id")
    else if "deal_name" !in l2.columns then Some("deal_name")
    else if "fund" !in l1.columns then Some("fund")
    else None
  }

  /** `merge_deal_level`: `KeyError` for the first id or name column that is absent;
      otherwise the Facility rows, then the Deal rows, then the Fund rows. */
  function MergeDealLevel(l3: Frame, l2: Frame, l1: Frame, parse: Value -> Option<real>): (r: Result<Frame>)
    ensures r.KeyError? <==> MissingLabel(l3, l2, l1).Some?
    ensures r.Ok? ==> r.value.columns == MergedColumns
  {
    match MissingLabel(l3, l2, l1)
    case Some(c) => KeyError(c)
    case None => Ok(Frame(MergedColumns, Block(l3, Facility, parse) + Block(l2, Deal, parse) + Block(l1, Fund, parse)))
  }

  /** The input row and level behind each stacked row. */
  function Origin(l3: Frame, l2: Frame, l1: Frame, i: int): (o: (Row, seq<string>, Level))
    requires 0 <= i < |l3.rows| + |l2.rows| + |l1.rows|
  {
    if i < |l3.rows| then (l3.rows[i], l3.columns, Facility)
    else if i < |l3.rows| + |l2.rows| then (l2.rows[i - |l3.rows|], l2.columns, Deal)
    else (l1.rows[i - |l3.rows| - |l2.rows|], l1.columns, Fund)
  }

  /** What a stacked row holds for input row r of level l: the level's label, its id
      and name columns, numeric paid-in and distributed, gross metrics taken from xirr
      and MOIC, and missing net metrics. */
  predicate RowFrom(o: Row, r: Row, columns: seq<string>, l: Level, parse: Value -> Option<real>) {
    Cell(o, "level") == Str(LevelName(l)) &&
    Cell(o, "id") == Cell(r, IdColumn(l)) &&
    Cell(o, "name") == Cell(r, NameColumn(l)) &&
    Cell(o, "paid_in") == ToNumeric(Cell(r, "paid_in"), parse) &&
    Cell(o, "distributed") == ToNumeric(Distributed(r, columns), parse) &&
    Cell(o, "gross_irr") == ToNumeric(Cell(r, "xirr"), parse) &&
    Cell(o, "gross_moic") == ToNumeric(Cell(r, "MOIC"), parse) &&
    Cell(o, "net_irr") == Null && Cell(o, "net_moic") == Null
  }

  lemma StackedRowFrom(r: Row, columns: seq<string>, l: Level, parse: Value -> Option<real>)
    ensures RowFrom(StackedRow(r, columns, l, parse), r, columns, l, parse)
  {
  }

  /** The stacked table has one row per input row: all Facility rows first, then
      Deal, then Fund, each block in its input order, each row holding what
      `RowFrom` says of its input row. */
  lemma MergeDealLevelRows(l3: Frame, l2: Frame, l1: Frame, parse: Value -> Option<real>)
    requires MergeDealLevel(l3, l2, l1, parse).Ok?
    ensures var out := MergeDealLevel(l3, l2, l1, parse).value;
      |out.rows| == |l3.rows| + |l2.rows| + |l1.rows| &&
      forall i :: 0 <= i < |out.rows| ==>
        RowFrom(out.rows[i], Origin(l3, l2, l1, i).0, Origin(l3, l2, l1, i).1, Origin(l3, l2, l1, i).2, parse)
  {
    var out := MergeDealLevel(l3, l2, l1, parse).value;
    var a := Block(l3, Facility, parse);
    var b := Block(l2, Deal, parse);
    var c := Block(l1, Fund, parse);
    assert out.rows == a + b + c;
    forall i | 0 <= i < |out.rows|
      ensures RowFrom(out.rows[i], Origin(l3, l2, l1, i).0, Origin(l3, l2, l1, i).1, Origin(l3, l2, l1, i).2, parse)
    {
      var o := Origin(l3, l2, l1, i);
      if i < |a| {
        assert out.rows[i] == a[i];
      } else if i < |a| + |b| {
        assert out.rows[i] == b[i - |a|];
      } else {
        assert out.rows[i] == c[i - |a| - |b|];
      }
      assert out.rows[i] == StackedRow(o.0, o.1, o.2, parse);
      StackedRowFrom(o.0, o.1, o.2, parse);
    }
  }

  /** The level label tells the block apart: a stacked row is labelled 'Fund' exactly
      when it comes after every Facility and Deal row. */
  lemma FundRowsLast(l3: Frame, l2: Frame, l1: Frame, parse: Value -> Option<real>)
    requires MergeDealLevel(l3, l2, l1, parse).Ok?
    ensures var out := MergeDealLevel(l3, l2, l1, parse).value;
      forall i :: 0 <= i < |out.rows| ==>
        (Cell(out.rows[i], "level") == Str("Fund") <==> i >= |l3.rows| + |l2.rows|)
  {
    MergeDealLevelRows(l3, l2, l1, parse);
    var out := MergeDealLevel(l3, l2, l1, parse).value;
    forall i | 0 <= i < |out.rows|
      ensures Cell(out.rows[i], "level") == Str("Fund") <==> i >= |l3.rows| + |l2.rows|
    {
      var l := Origin(l3, l2, l1, i).2;
      assert Cell(out.rows[i], "level") == Str(LevelName(l));
      assert LevelName(Facility) != "Fund" && LevelName(Deal) != "Fund";
    }
  }

  // ---- assign_fund_net_metrics ----

  /** `fillna('N/A')` on one cell. */
  function FillNa(v: Value): (r: Value)
    ensures !r.Null?
    ensures !v.Null? ==> r == v
  {
    if v.Null? then Str("N/A") else v
  }

  /** `df.loc[df['level'] == 'Fund', 'net_irr'] = df['xirr']`, and the same for
      `net_moic` from `MOIC`. */
  function SetNet(r: Row): Row {
    if Cell(r, "level") == Str("Fund") then r["net_irr" := Cell(r, "xirr")]["net_moic" := Cell(r, "MOIC")] else r
  }

  /** A column assignment through `.loc` adds the column when it is absent. */
  function WithColumn(columns: seq<string>, c: string): (r: seq<string>)
    ensures forall x :: x in r <==> x in columns || x == c
  {
    if c in columns then columns else columns + [c]
  }

  /** `drop(columns=['xirr', 'MOIC', 'fund'])`. */
  function DropHelpers(columns: seq<string>): (r: seq<string>)
    ensures forall x :: x in r <==> x in columns && x != "xirr" && x != "MOIC" && x != "fund"
  {
    if columns == [] then []
    else
      var rest := DropHelpers(columns[1..]);
      assert forall x :: x in columns <==> x == columns[0] || x in columns[1..];
      if columns[0] in ["xirr", "MOIC", "fund"] then rest else [columns[0]] + rest
  }

  /** A row after the drop and the fill: exactly the remaining columns, none missing. */
  function FinalRow(r: Row, columns: seq<string>): (out: Row)
    ensures out.Keys == set c | c in columns
    ensures forall c :: c in columns ==> out[c] == FillNa(Cell(r, c))
  {
    map c | c in columns :: FillNa(Cell(r, c))
  }

  /** The net table as the join reads it: only `fund`, `xirr` and `MOIC`. */
  const NetColumns: seq<string> := ["fund", "xirr", "MOIC"]

  /** The back-filled table before the column clean-up. */
  function NetJoin(mdc: Frame, net: Frame): Frame {
    LeftJoin(mdc, Frame(NetColumns, net.rows), ["id"], ["fund"], "_fund")
  }

  /** The columns after the two `.loc` assignments and the drop. */
  function OutColumns(columns: seq<string>): (r: seq<string>)
    ensures forall x :: x in r <==> (x in columns || x == "net_irr" || x == "net_moic") && x != "xirr" && x != "MOIC" && x != "fund"
  {
    DropHelpers(WithColumn(WithColumn(columns, "net_irr"), "net_moic"))
  }

  /** The joined table after the net assignment, the drop and the fill. */
  function Finish(j: Frame): (f: Frame)
    ensures f.columns == OutColumns(j.columns) && |f.rows| == |j.rows|
    ensures forall i :: 0 <= i < |j.rows| ==> f.rows[i] == FinalRow(SetNet(j.rows[i]), f.columns)
  {
    var columns := OutColumns(j.columns);
    Frame(columns, seq(|j.rows|, i requires 0 <= i < |j.rows| => FinalRow(SetNet(j.rows[i]), columns)))
  }

  /** `assign_fund_net_metrics`: `KeyError` when the net table lacks `fund`, `xirr` or
      `MOIC`, or the stacked table lacks `id` or `level`; otherwise the left join on
      id = fund, the net metrics written onto Fund rows, the helper columns dropped
      and every missing cell filled with 'N/A'. */
  function AssignFundNetMetrics(mdc: Frame, net: Frame): (r: Result<Frame>)
    ensures r.KeyError? <==>
      !("fund" in net.columns && "xirr" in net.columns && "MOIC" in net.columns &&
      "id" in mdc.columns && "level" in mdc.columns)
  {
    if "fund" !in net.columns then KeyError("fund")
    else if "xirr" !in net.columns then KeyError("xirr")
    else if "MOIC" !in net.columns then KeyError("MOIC")
    else if "id" !in mdc.columns then KeyError("id")
    else if "level" !in mdc.columns then KeyError("level")
    else Ok(NetAssigned(mdc, net))
  }

  /** The success value: the join on id = fund, then the net assignment, the drop and
      the fill. */
  function NetAssigned(mdc: Frame, net: Frame): Frame {
    Finish(NetJoin(mdc, net))
  }

  /** The output columns: those of the join and the two net columns, less the
      helper columns `xirr`, `MOIC` and `fund`. */
  lemma AssignFundNetMetricsColumns(mdc: Frame, net: Frame)
    requires AssignFundNetMetrics(mdc, net).Ok?
    ensures forall x :: x in AssignFundNetMetrics(mdc, net).value.columns <==>
      (x in NetJoin(mdc, net).columns || x == "net_irr" || x == "net_moic") && x != "xirr" && x != "MOIC" && x != "fund"
  {
    AssignedIsFinish(mdc, net);
  }

  /** After `fillna('N/A')` no cell of any output column is missing. */
  lemma AssignFundNetMetricsFilled(mdc: Frame, net: Frame)
    requires AssignFundNetMetrics(mdc, net).Ok?
    ensures var out := AssignFundNetMetrics(mdc, net).value;
      forall i, c :: 0 <= i < |out.rows| && c in out.columns ==> !Cell(out.rows[i], c).Null?
  {
    AssignedIsFinish(mdc, net);
  }

  lemma AssignedIsFinish(mdc: Frame, net: Frame)
    requires AssignFundNetMetrics(mdc, net).Ok?
    ensures AssignFundNetMetrics(mdc, net).value == Finish(NetJoin(mdc, net))
  {
  }

  /** The stacked table carries none of the net table's column names, so the joined
      columns keep their names. */
  predicate NoHelperColumns(columns: seq<string>) {
    "fund" !in columns && "xirr" !in columns && "MOIC" !in columns
  }

  /** All three net columns are carried by the join: none is a shared key. */
  lemma NetColumnsKept()
    ensures KeptColumns(NetColumns, ["id"], ["fund"]) == NetColumns
  {
    assert !SharedKey("fund", ["id"], ["fund"]);
    assert !SharedKey("xirr", ["id"], ["fund"]);
    assert !SharedKey("MOIC", ["id"], ["fund"]);
    assert NetColumns[1..][1..][1..] == [];
  }

  /** A joined row: the stacked row's own cells, plus `xirr` and `MOIC` from the
      match, missing when there is none. */
  lemma JoinedNetRow(l: Row, m: Option<Row>, columns: seq<string>)
    requires NoHelperColumns(columns)
    ensures var j := JoinRow(l, m, NetColumns, columns, "_fund");
      (forall c :: c !in NetColumns ==> Cell(j, c) == Cell(l, c)) &&
      Cell(j, "xirr") == (if m.Some? then Cell(m.value, "xirr") else Null) &&
      Cell(j, "MOIC") == (if m.Some? then Cell(m.value, "MOIC") else Null)
  {
    assert forall k :: k in NetColumns ==> OutName(k, columns, "_fund") == k;
    forall c | c !in NetColumns ensures !IsRightName(c, NetColumns, columns, "_fund") {
    }
    if m.Some? {
      JoinRowMatched(l, m.value, NetColumns, columns, "_fund", "xirr");
      JoinRowMatched(l, m.value, NetColumns, columns, "_fund", "MOIC");
    }
  }

  /** The net metric a stacked row is matched to: the cell of the one net row whose
      fund equals the row's id, missing when there is none. */
  function NetOf(r: Row, net: Frame, c: string): Value {
    match SingleMatch(r, net.rows, ["id"], ["fund"])
    case Some(m) => Cell(m, c)
    case None => Null
  }

  /** What `assign_fund_net_metrics` makes of one stacked row: every column of its
      own other than the net metrics is kept, a missing cell becoming 'N/A'; a Fund
      row takes its net IRR and net MOIC from the matched net row, any other row keeps
      its own. */
  predicate NetRowFrom(o: Row, r: Row, columns: seq<string>, net: Frame) {
    (forall c :: c in columns && c != "net_irr" && c != "net_moic" ==> Cell(o, c) == FillNa(Cell(r, c))) &&
    Cell(o, "net_irr") == FillNa(if Cell(r, "level") == Str("Fund") then NetOf(r, net, "xirr") else Cell(r, "net_irr")) &&
    Cell(o, "net_moic") == FillNa(if Cell(r, "level") == Str("Fund") then NetOf(r, net, "MOIC") else Cell(r, "net_moic"))
  }

  /** The cells of a final row, given the cells of its joined row jr. */
  lemma FinalNetRow(jr: Row, r: Row, xirr: Value, moic: Value, own: seq<string>, columns: seq<string>)
    requires forall c :: c !in NetColumns ==> Cell(jr, c) == Cell(r, c)
    requires Cell(jr, "xirr") == xirr && Cell(jr, "MOIC") == moic
    requires NoHelperColumns(own)
    requires forall x :: x in own ==> x in columns
    requires "net_irr" in columns && "net_moic" in columns
    ensures var fr := FinalRow(SetNet(jr), columns);
      (forall c :: c in own && c != "net_irr" && c != "net_moic" ==> Cell(fr, c) == FillNa(Cell(r, c))) &&
      Cell(fr, "net_irr") == FillNa(if Cell(r, "level") == Str("Fund") then xirr else Cell(r, "net_irr")) &&
      Cell(fr, "net_moic") == FillNa(if Cell(r, "level") == Str("Fund") then moic else Cell(r, "net_moic"))
  {
    SetNetCells(jr, r, xirr, moic);
  }

  /** `SetNet` on a joined row whose own cells are those of r and whose net cells are
      xirr and moic. */
  lemma SetNetCells(jr: Row, r: Row, xirr: Value, moic: Value)
    requires forall c :: c !in NetColumns ==> Cell(jr, c) == Cell(r, c)
    requires Cell(jr, "xirr") == xirr && Cell(jr, "MOIC") == moic
    ensures forall c :: c !in NetColumns && c != "net_irr" && c != "net_moic" ==> Cell(SetNet(jr), c) == Cell(r, c)
    ensures Cell(SetNet(jr), "net_irr") == if Cell(r, "level") == Str("Fund") then xirr else Cell(r, "net_irr")
    ensures Cell(SetNet(jr), "net_moic") == if Cell(r, "level") == Str("Fund") then moic else Cell(r, "net_moic")
  {
    assert "level" !in NetColumns && "net_irr" !in NetColumns && "net_moic" !in NetColumns;
  }

  /** The join keeps the stacked table's columns in front. */
  lemma NetJoinColumns(mdc: Frame, net: Frame)
    ensures forall x :: x in mdc.columns ==> x in NetJoin(mdc, net).columns
  {
    var j := NetJoin(mdc, net);
    assert j.columns[..|mdc.columns|] == mdc.columns;
  }

  /** With unique fund keys, joined row i is stacked row i extended by its match. */
  lemma NetJoinRows(mdc: Frame, net: Frame, i: int)
    requires UniqueKeys(net.rows, ["fund"]) && 0 <= i < |mdc.rows|
    ensures var j := NetJoin(mdc, net);
      |j.rows| == |mdc.rows| &&
      j.rows[i] == JoinRow(mdc.rows[i], SingleMatch(mdc.rows[i], net.rows, ["id"], ["fund"]), NetColumns, mdc.columns, "_fund")
  {
    NetColumnsKept();
    JoinRowsUnique(mdc.rows, net.rows, ["id"], ["fund"], NetColumns, mdc.columns, "_fund");
  }

  /** The output keeps every column of the stacked table and has both net columns. */
  lemma OutColumnsKeep(own: seq<string>, columns: seq<string>)
    requires NoHelperColumns(own)
    requires forall x :: x in own ==> x in columns
    ensures forall x :: x in own ==> x in OutColumns(columns)
    ensures "net_irr" in OutColumns(columns) && "net_moic" in OutColumns(columns)
  {
  }

  /** Row i of the output is the final form of the joined row i. */
  lemma AssignedRow(mdc: Frame, net: Frame, i: int)
    requires AssignFundNetMetrics(mdc, net).Ok?
    requires UniqueKeys(net.rows, ["fund"]) && NoHelperColumns(mdc.columns) && 0 <= i < |mdc.rows|
    ensures var out := AssignFundNetMetrics(mdc, net).value;
      |out.rows| == |mdc.rows| &&
      (forall x :: x in mdc.columns ==> x in out.columns) &&
      "net_irr" in out.columns && "net_moic" in out.columns &&
      out.rows[i] == FinalRow(SetNet(JoinRow(mdc.rows[i], SingleMatch(mdc.rows[i], net.rows, ["id"], ["fund"]),
        NetColumns, mdc.columns, "_fund")), out.columns)
  {
    var j := NetJoin(mdc, net);
    AssignedIsFinish(mdc, net);
    NetJoinColumns(mdc, net);
    OutColumnsKeep(mdc.columns, j.columns);
    NetJoinRows(mdc, net, i);
  }

  lemma AssignedNetRow(mdc: Frame, net: Frame, i: int)
    requires AssignFundNetMetrics(mdc, net).Ok?
    requires UniqueKeys(net.rows, ["fund"]) && NoHelperColumns(mdc.columns) && 0 <= i < |mdc.rows|
    ensures var out := AssignFundNetMetrics(mdc, net).value;
      |out.rows| == |mdc.rows| && NetRowFrom(out.rows[i], mdc.rows[i], mdc.columns, net)
  {
    var out := AssignFundNetMetrics(mdc, net).value;
    var r := mdc.rows[i];
    var m := SingleMatch(r, net.rows, ["id"], ["fund"]);
    var jr := JoinRow(r, m, NetColumns, mdc.columns, "_fund");
    AssignedRow(mdc, net, i);
    JoinedNetRow(r, m, mdc.columns);
    FinalNetRow(jr, r, NetOf(r, net, "xirr"), NetOf(r, net, "MOIC"), mdc.columns, out.columns);
  }

  /** With unique fund keys in the net table and no helper names in the stacked table,
      `assign_fund_net_metrics` keeps the row count and order, and each output row is
      what `NetRowFrom` says of its stacked row. */
  lemma AssignFundNetMetricsRows(mdc: Frame, net: Frame)
    requires AssignFundNetMetrics(mdc, net).Ok?
    requires UniqueKeys(net.rows, ["fund"]) && NoHelperColumns(mdc.columns)
    ensures var out := AssignFundNetMetrics(mdc, net).value;
      |out.rows| == |mdc.rows| &&
      forall i :: 0 <= i < |mdc.rows| ==> NetRowFrom(out.rows[i], mdc.rows[i], mdc.columns, net)
  {
    var out := AssignFundNetMetrics(mdc, net).value;
    AssignedIsFinish(mdc, net);
    NetColumnsKept();
    JoinRowsUnique(mdc.rows, net.rows, ["id"], ["fund"], NetColumns, mdc.columns, "_fund");
    forall i | 0 <= i < |mdc.rows| ensures NetRowFrom(out.rows[i], mdc.rows[i], mdc.columns, net) {
      AssignedNetRow(mdc, net, i);
    }
  }

  /** The net cells of an output row whose stacked row had none of its own. */
  lemma NetCellsOf(o: Row, r: Row, columns: seq<string>, net: Frame, fund: bool)
    requires NetRowFrom(o, r, columns, net)
    requires (Cell(r, "level") == Str("Fund")) == fund
    requires Cell(r, "net_irr") == Null && Cell(r, "net_moic") == Null
    ensures if fund then Cell(o, "net_irr") == FillNa(NetOf(r, net, "xirr")) && Cell(o, "net_moic") == FillNa(NetOf(r, net, "MOIC"))
      else Cell(o, "net_irr") == Str("N/A") && Cell(o, "net_moic") == Str("N/A")
  {
  }

  /** A stacked table as `merge_deal_level` leaves it: no helper column names, no
      net metrics yet, and the Fund rows exactly those from k on. */
  predicate Stacked(mdc: Frame, k: int) {
    NoHelperColumns(mdc.columns) &&
    forall i :: 0 <= i < |mdc.rows| ==>
      Cell(mdc.rows[i], "net_irr") == Null && Cell(mdc.rows[i], "net_moic") == Null &&
      (Cell(mdc.rows[i], "level") == Str("Fund") <==> i >= k)
  }

  lemma MergedColumnsNoHelpers()
    ensures NoHelperColumns(MergedColumns)
  {
  }

  lemma MergeDealLevelStacked(l3: Frame, l2: Frame, l1: Frame, parse: Value -> Option<real>)
    requires MergeDealLevel(l3, l2, l1, parse).Ok?
    ensures var mdc := MergeDealLevel(l3, l2, l1, parse).value;
      |mdc.rows| == |l3.rows| + |l2.rows| + |l1.rows| && Stacked(mdc, |l3.rows| + |l2.rows|)
  {
    var mdc := MergeDealLevel(l3, l2, l1, parse).value;
    MergeDealLevelRows(l3, l2, l1, parse);
    FundRowsLast(l3, l2, l1, parse);
    MergedColumnsNoHelpers();
    forall i | 0 <= i < |mdc.rows|
      ensures Cell(mdc.rows[i], "net_irr") == Null && Cell(mdc.rows[i], "net_moic") == Null
    {
      var o := Origin(l3, l2, l1, i);
      assert RowFrom(mdc.rows[i], o.0, o.1, o.2, parse);
    }
  }

  /** Where the net metrics land: rows before k read 'N/A' for both, rows from k on
      carry the metrics of their matched net row. */
  predicate NetMetricsPlaced(out: Frame, mdc: Frame, net: Frame, k: int) {
    forall i :: 0 <= i < |out.rows| && i < |mdc.rows| ==>
      if i < k then
        Cell(out.rows[i], "net_irr") == Str("N/A") && Cell(out.rows[i], "net_moic") == Str("N/A")
      else
        Cell(out.rows[i], "net_irr") == FillNa(NetOf(mdc.rows[i], net, "xirr")) &&
        Cell(out.rows[i], "net_moic") == FillNa(NetOf(mdc.rows[i], net, "MOIC"))
  }

  /** Net metrics on a stacked table (what `MergeDealLevelStacked` guarantees of the
      output of `merge_deal_level`): rows before the Fund block read 'N/A' for both
      net metrics, Fund rows carry those of the matched net row. */
  lemma StackedNetMetrics(mdc: Frame, net: Frame, k: int)
    requires AssignFundNetMetrics(mdc, net).Ok?
    requires UniqueKeys(net.rows, ["fund"]) && Stacked(mdc, k)
    ensures var out := AssignFundNetMetrics(mdc, net).value;
      |out.rows| == |mdc.rows| && NetMetricsPlaced(out, mdc, net, k)
  {
    AssignFundNetMetricsRows(mdc, net);
    var out := AssignFundNetMetrics(mdc, net).value;
    forall i | 0 <= i < |out.rows|
      ensures if i < k then
          Cell(out.rows[i], "net_irr") == Str("N/A") && Cell(out.rows[i], "net_moic") == Str("N/A")
        else
          Cell(out.rows[i], "net_irr") == FillNa(NetOf(mdc.rows[i], net, "xirr")) &&
          Cell(out.rows[i], "net_moic") == FillNa(NetOf(mdc.rows[i], net, "MOIC"))
    {
      NetCellsOf(out.rows[i], mdc.rows[i], mdc.columns, net, i >= k);
    }
  }
}
