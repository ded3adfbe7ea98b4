/** The curve-key derivation and curve join of the cashflow ledger: each cashflow
    is keyed to the last month-end strictly before its date, written into the
    caller's ledger, and then left-joined to the monthly base-rate curve on
    (cost_of_funds_curve, asof_mend) = (curve, asof). */
module CurveMerge {
  import opened Calendar
  import opened Frames
  import opened Joins

  /** `asof - MonthEnd(1)` on one cell: the last month-end strictly before the date,
      so a month-end maps to the end of the month before it; NaT stays NaT. */
  function PreviousMonthEnd(v: Value): (r: Value)
    requires IsDayOrNull(v)
    ensures r.Null? <==> v.Null?
    ensures v.Day? ==> r.Day? && IsMonthEnd(r.d) && Before(r.d, v.d)
    ensures v.Day? ==> forall m: Date :: IsMonthEnd(m) && Before(m, v.d) ==> OnOrBefore(m, r.d)
  {
    if v.Day? then Day(RollBackMonthEnd(v.d)) else Null
  }

  /** A month-end date maps to the end of the previous month, never to itself. */
  lemma PreviousMonthEndOfMonthEnd(d: Date)
    requires IsMonthEnd(d)
    ensures PreviousMonthEnd(Day(d)).d != d
    ensures MonthIndex(PreviousMonthEnd(Day(d)).d) == MonthIndex(d) - 1
  {
    var r := PreviousMonthEnd(Day(d)).d;
    MonthEndOrder(r, d);
    var prev := MonthEndOf(MonthIndex(d) - 1);
    MonthEndOrder(prev, d);
    MonthEndOrder(prev, r);
  }

  const LeftKeys: seq<string> := ["cost_of_funds_curve", "asof_mend"]
  const RightKeys: seq<string> := ["curve", "asof"]

  /** The join step: `mdb.merge(curvedb, left_on=LeftKeys, right_on=RightKeys,
      how='left', suffixes=('', '_curve'))`. */
  function CurveJoin(ledger: Frame, curve: Frame): (out: Frame)
    ensures |out.rows| >= |ledger.rows|
  {
    LeftJoin(ledger, curve, LeftKeys, RightKeys, "_curve")
  }

  /** Some joined row has no rate, so `merge_curve` logs a sample of unmatched rows. */
  predicate SomeRateMissing(merged: Frame) {
    exists i :: 0 <= i < |merged.rows| && Cell(merged.rows[i], "rate").Null?
  }

  /** What `merge_curve` does once `asof_mend` is written. The merge resolves each
      key pair right key first, so a missing `curve`, `cost_of_funds_curve` or curve
      `asof` raises `KeyError`; the log then reads the joined `rate` column, and reads
      `entity_id` only when some row has no rate. */
  function JoinAndLog(ledger: Frame, curve: Frame): Result<Frame> {
    if "curve" !in curve.columns then KeyError("curve")
    else if "cost_of_funds_curve" !in ledger.columns then KeyError("cost_of_funds_curve")
    else if "asof" !in curve.columns then KeyError("asof")
    else
      var merged := CurveJoin(ledger, curve);
      if "rate" !in merged.columns then KeyError("rate")
      else if "entity_id" !in merged.columns && SomeRateMissing(merged) then KeyError("entity_id")
      else Ok(merged)
  }

  /** `k + "_curve"` is never one of the plain column names the log reads. */
  lemma NotSuffixed(k: string, c: string)
    requires c == "rate" || c == "entity_id"
    ensures k + "_curve" != c
  {
    if |k| == 3 {
      assert (k + "_curve")[3] == '_';
    }
  }

  /** A column the log reads is no join key, so the join keeps it when the curve
      table has it. */
  lemma KeptPlain(curve: Frame, c: string)
    requires c == "rate" || c == "entity_id"
    ensures c in KeptColumns(curve.columns, LeftKeys, RightKeys) <==> c in curve.columns
  {
  }

  /** The output names of the kept right columns. */
  function RightNames(ledger: Frame, curve: Frame): (ns: seq<string>)
    ensures CurveJoin(ledger, curve).columns == ledger.columns + ns
  {
    var kept := KeptColumns(curve.columns, LeftKeys, RightKeys);
    seq(|kept|, i requires 0 <= i < |kept| => OutName(kept[i], ledger.columns, "_curve"))
  }

  /** A column the log reads is in the join exactly when one of the two tables has it:
      it is no key, and a right column keeps its name unless the ledger has it too. */
  lemma CurveJoinHasColumn(ledger: Frame, curve: Frame, c: string)
    requires c == "rate" || c == "entity_id"
    ensures c in CurveJoin(ledger, curve).columns <==> c in ledger.columns || c in curve.columns
  {
    var kept := KeptColumns(curve.columns, LeftKeys, RightKeys);
    var ns := RightNames(ledger, curve);
    KeptPlain(curve, c);
    if c !in ledger.columns {
      if c in curve.columns {
        var i :| 0 <= i < |kept| && kept[i] == c;
        assert ns[i] == c;
      }
      if c in ns {
        var i :| 0 <= i < |ns| && ns[i] == c;
        NotSuffixed(kept[i], c);
        assert kept[i] in kept;
      }
    }
  }

  /** `merge_curve` after the write fails exactly when a key column is missing, when
      neither table has `rate`, or when some row has no rate and neither table has
      `entity_id`; the column it names is absent from a table that should hold it;
      otherwise it returns the curve join. */
  lemma JoinAndLogErrors(ledger: Frame, curve: Frame)
    ensures var r := JoinAndLog(ledger, curve);
      r.KeyError? <==>
        "curve" !in curve.columns || "cost_of_funds_curve" !in ledger.columns || "asof" !in curve.columns ||
        ("rate" !in ledger.columns && "rate" !in curve.columns) ||
        ("entity_id" !in ledger.columns && "entity_id" !in curve.columns && SomeRateMissing(CurveJoin(ledger, curve)))
    ensures var r := JoinAndLog(ledger, curve);
      r.KeyError? ==>
        r.column in ["curve", "cost_of_funds_curve", "asof", "rate", "entity_id"] &&
        (r.column !in ledger.columns || r.column !in curve.columns)
    ensures !JoinAndLog(ledger, curve).ValueError?
    ensures JoinAndLog(ledger, curve).Ok? ==> JoinAndLog(ledger, curve).value == CurveJoin(ledger, curve)
  {
    CurveJoinHasColumn(ledger, curve, "rate");
    CurveJoinHasColumn(ledger, curve, "entity_id");
  }

  /** `merge_curve`: `KeyError` when the ledger has no `asof` column, which is then
      left as it was. Otherwise writes `asof_mend` into the caller's ledger (appending
      the column when it is new, overwriting it otherwise), and then joins and logs,
      so that a later `KeyError` leaves the write in place. */
  method MergeCurve(t: Table, curve: Frame) returns (res: Result<Frame>)
    requires forall i :: 0 <= i < |t.rows| ==> IsDayOrNull(Cell(t.rows[i], "asof"))
    modifies t
    ensures "asof" !in old(t.columns) ==>
      res == KeyError("asof") && t.columns == old(t.columns) && t.rows == old(t.rows)
    ensures "asof" in old(t.columns) ==>
      t.columns == (if "asof_mend" in old(t.columns) then old(t.columns) else old(t.columns) + ["asof_mend"])
    ensures |t.rows| == |old(t.rows)|
    ensures "asof" in old(t.columns) ==> forall i :: 0 <= i < |t.rows| ==>
      t.rows[i] == old(t.rows[i])["asof_mend" := PreviousMonthEnd(Cell(old(t.rows[i]), "asof"))]
    ensures "asof" in old(t.columns) ==> res == JoinAndLog(t.Contents(), curve)
  {
    if "asof" !in t.columns {
      return KeyError("asof");
    }
    var before := t.rows;
    t.rows := seq(|before|, i requires 0 <= i < |before| =>
      before[i]["asof_mend" := PreviousMonthEnd(Cell(before[i], "asof"))]);
    if "asof_mend" !in t.columns {
      t.columns := t.columns + ["asof_mend"];
    }
    res := JoinAndLog(t.Contents(), curve);
  }

  /** Every ledger row survives the join: some output row carries all of its cells
      outside the curve's columns. */
  lemma CurveJoinKeepsLedger(ledger: Frame, curve: Frame, i: int)
    requires 0 <= i < |ledger.rows|
    ensures var kept := KeptColumns(curve.columns, LeftKeys, RightKeys);
      exists j :: (0 <= j < |CurveJoin(ledger, curve).rows| &&
        Extends(CurveJoin(ledger, curve).rows[j], ledger.rows[i], kept, ledger.columns, "_curve"))
  {
    var kept := KeptColumns(curve.columns, LeftKeys, RightKeys);
    assert CurveJoin(ledger, curve).rows ==
      JoinRows(ledger.rows, curve.rows, LeftKeys, RightKeys, kept, ledger.columns, "_curve");
    JoinRowsKeepEveryRow(ledger.rows, curve.rows, LeftKeys, RightKeys, kept, ledger.columns, "_curve", i);
  }

  /** With unique (curve, asof) keys in the curve table, the join keeps the ledger's
      row count and order; a row without a curve point gets a missing rate, a row with
      one gets that point's rate. */
  lemma CurveJoinUniqueKeys(ledger: Frame, curve: Frame)
    requires UniqueKeys(curve.rows, RightKeys)
    requires "rate" in curve.columns && "rate" !in ledger.columns
    ensures |CurveJoin(ledger, curve).rows| == |ledger.rows|
    ensures var kept := KeptColumns(curve.columns, LeftKeys, RightKeys);
      forall i :: 0 <= i < |ledger.rows| ==>
        Extends(CurveJoin(ledger, curve).rows[i], ledger.rows[i], kept, ledger.columns, "_curve")
    ensures forall i :: 0 <= i < |ledger.rows| ==>
      SingleMatch(ledger.rows[i], curve.rows, LeftKeys, RightKeys).None? ==>
      Cell(CurveJoin(ledger, curve).rows[i], "rate") == Null
  {
    var kept := KeptColumns(curve.columns, LeftKeys, RightKeys);
    JoinRowsUnique(ledger.rows, curve.rows, LeftKeys, RightKeys, kept, ledger.columns, "_curve");
    assert !SharedKey("rate", LeftKeys, RightKeys);
    assert OutName("rate", ledger.columns, "_curve") == "rate";
  }

  /** The matched rate: with unique keys and a curve point for the row's key, the
      output carries that point's rate. */
  lemma CurveJoinMatchedRate(ledger: Frame, curve: Frame, i: int)
    requires UniqueKeys(curve.rows, RightKeys)
    requires "rate" in curve.columns && "rate" !in ledger.columns
    requires forall a, b :: a in curve.columns && b in curve.columns && a != b ==>
      OutName(a, ledger.columns, "_curve") != OutName(b, ledger.columns, "_curve")
    requires 0 <= i < |ledger.rows|
    requires SingleMatch(ledger.rows[i], curve.rows, LeftKeys, RightKeys).Some?
    ensures var m := SingleMatch(ledger.rows[i], curve.rows, LeftKeys, RightKeys).value;
      Cell(CurveJoin(ledger, curve).rows[i], "rate") == Cell(m, "rate")
  {
    var kept := KeptColumns(curve.columns, LeftKeys, RightKeys);
    JoinRowsUnique(ledger.rows, curve.rows, LeftKeys, RightKeys, kept, ledger.columns, "_curve");
    assert !SharedKey("rate", LeftKeys, RightKeys);
    var m := SingleMatch(ledger.rows[i], curve.rows, LeftKeys, RightKeys).value;
    JoinRowMatched(ledger.rows[i], m, kept, ledger.columns, "_curve", "rate");
  }
}
