/** Deal-level cashflow adjustments ahead of the IRR and MOIC calculation: accrued
    PIK interest rows are removed, then every outflow is scaled down by its deal's
    OID and origination fee (both in basis points). Each step works on a copy. */
module CashFlowAdjust {
  import opened Frames

  predicate IsPik(r: Row) {
    Cell(r, "cashflow_type") == Str("pik_interest")
  }

  function PikCount(rows: seq<Row>): (n: nat)
    ensures n <= |rows|
  {
    if rows == [] then 0 else PikCount(rows[1..]) + (if IsPik(rows[0]) then 1 else 0)
  }

  /** A missing cashflow type compares unequal to 'pik_interest', so such a row is
      kept. */
  predicate NotPik(r: Row) {
    !IsPik(r)
  }

  lemma {:induction false} NonPikCount(rows: seq<Row>)
    ensures |Filter(rows, NotPik)| + PikCount(rows) == |rows|
  {
    if rows != [] {
      NonPikCount(rows[1..]);
    }
  }

  /** `_adjust_pik`: without a `cashflow_type` column, an unchanged copy; otherwise
      exactly the non-PIK rows, in their order, under the same columns. */
  function AdjustPik(f: Frame): (r: Frame)
    ensures r.columns == f.columns
    ensures "cashflow_type" !in f.columns ==> r == f
    ensures "cashflow_type" in f.columns ==>
      |r.rows| == |f.rows| - PikCount(f.rows) &&
      (forall i :: 0 <= i < |r.rows| ==> !IsPik(r.rows[i])) &&
      (forall row :: row in r.rows <==> row in f.rows && !IsPik(row))
  {
    if "cashflow_type" !in f.columns then f
    else
      NonPikCount(f.rows);
      Frame(f.columns, Filter(f.rows, NotPik))
  }

  /** Removing PIK rows keeps the relative order: the rows of two ledgers stacked
      are filtered block by block. */
  lemma AdjustPikInOrder(a: seq<Row>, b: seq<Row>, columns: seq<string>)
    requires "cashflow_type" in columns
    ensures AdjustPik(Frame(columns, a + b)).rows ==
      AdjustPik(Frame(columns, a)).rows + AdjustPik(Frame(columns, b)).rows
  {
    FilterConcat(a, b, NotPik);
  }

  /** Removing PIK rows a second time removes nothing. */
  lemma AdjustPikIdempotent(f: Frame)
    ensures AdjustPik(AdjustPik(f)) == AdjustPik(f)
  {
    if "cashflow_type" in f.columns {
      FilterAll(AdjustPik(f).rows, NotPik);
    }
  }

  predicate HasFeeColumns(f: Frame) {
    "amount" in f.columns && "OID_bps" in f.columns && "origination_fee_bps" in f.columns
  }

  /** `fillna(0)` on one basis-point cell. */
  function FillZero(v: Value): (r: Value)
    ensures v.Null? ==> r == Num(0.0)
    ensures !v.Null? ==> r == v
  {
    if v.Null? then Num(0.0) else v
  }

  /** The fee cells and the amount are float cells (finite, infinite or NaN), as the
      arithmetic needs. */
  predicate FeeInputs(f: Frame) {
    forall i :: 0 <= i < |f.rows| ==>
      IsNumeric(Cell(f.rows[i], "OID_bps")) &&
      IsNumeric(Cell(f.rows[i], "origination_fee_bps")) &&
      IsNumeric(Cell(f.rows[i], "amount"))
  }

  /** IEEE sum of two float cells, NaN as `Null`: an infinity absorbs a finite value,
      and opposite infinities give NaN. */
  function FloatAdd(a: Value, b: Value): (r: Value)
    requires IsNumeric(a) && IsNumeric(b)
    ensures IsNumeric(r)
    ensures a.Num? && b.Num? ==> r == Num(a.x + b.x)
    ensures r.Null? <==> a.Null? || b.Null? || (a.Inf? && b.Inf? && a.negative != b.negative)
  {
    match (a, b)
    case (Num(x), Num(y)) => Num(x + y)
    case (Inf(n), Inf(m)) => if n == m then a else Null
    case (Inf(_), Num(_)) => a
    case (Num(_), Inf(_)) => b
    case _ => Null
  }

  /** IEEE product of two float cells, NaN as `Null`: an infinity times zero is NaN,
      otherwise the signs multiply. */
  function FloatTimes(a: Value, b: Value): (r: Value)
    requires IsNumeric(a) && IsNumeric(b)
    ensures IsNumeric(r)
    ensures a.Num? && b.Num? ==> r == Num(a.x * b.x)
    ensures r.Inf? <==> (a.Inf? && (b.Inf? || (b.Num? && b.x != 0.0))) || (b.Inf? && a.Num? && a.x != 0.0)
  {
    match (a, b)
    case (Num(x), Num(y)) => Num(x * y)
    case (Inf(n), Inf(m)) => Inf(n != m)
    case (Inf(n), Num(y)) => if y == 0.0 then Null else Inf(n != (y < 0.0))
    case (Num(x), Inf(m)) => if x == 0.0 then Null else Inf(m != (x < 0.0))
    case _ => Null
  }

  /** The scale factor `1 - (OID_bps + origination_fee_bps) * 0.0001` of finite fees. */
  function FeeFactor(oid: real, orig: real): real {
    1.0 - (oid + orig) / 10000.0
  }

  /** The same factor over filled float cells: an infinite total fee gives the
      opposite infinity, and opposite infinite fees give NaN. */
  function FeeFactorValue(oid: Value, orig: Value): (k: Value)
    requires IsNumeric(oid) && IsNumeric(orig)
    ensures IsNumeric(k)
    ensures oid.Num? && orig.Num? ==> k == Num(FeeFactor(oid.x, orig.x))
    ensures FloatAdd(oid, orig).Inf? ==> k == Inf(!FloatAdd(oid, orig).negative)
    ensures k.Null? <==> FloatAdd(oid, orig).Null?
  {
    match FloatAdd(oid, orig)
    case Num(t) => Num(1.0 - t / 10000.0)
    case Inf(n) => Inf(!n)
    case _ => Null
  }

  /** An amount below zero, finite or infinite: the rows `df['amount'] < 0` selects. */
  predicate IsOutflow(amount: Value) {
    (amount.Num? && amount.x < 0.0) || (amount.Inf? && amount.negative)
  }

  /** `amount *= factor` on an amount below zero; any other amount is untouched. */
  function ScaleOutflow(amount: Value, factor: Value): (r: Value)
    requires IsNumeric(amount) && IsNumeric(factor)
    ensures !IsOutflow(amount) ==> r == amount
    ensures amount.Num? && amount.x < 0.0 && factor.Num? ==> r == Num(amount.x * factor.x)
    ensures amount.Num? && amount.x < 0.0 && factor.Inf? ==> r == Inf(!factor.negative)
    ensures IsOutflow(amount) && factor.Null? ==> r.Null?
  {
    if IsOutflow(amount) then FloatTimes(amount, factor) else amount
  }

  /** One row of `_adjust_fees`: both fee cells filled, the amount scaled by the
      row's factor when it is an outflow, every other cell kept. */
  function FeeRow(r: Row): (fr: Row)
    requires IsNumeric(Cell(r, "OID_bps")) && IsNumeric(Cell(r, "origination_fee_bps")) && IsNumeric(Cell(r, "amount"))
    ensures forall c :: c != "amount" && c != "OID_bps" && c != "origination_fee_bps" ==> Cell(fr, c) == Cell(r, c)
    ensures Cell(fr, "OID_bps") == FillZero(Cell(r, "OID_bps"))
    ensures Cell(fr, "origination_fee_bps") == FillZero(Cell(r, "origination_fee_bps"))
    ensures Cell(fr, "amount") ==
      ScaleOutflow(Cell(r, "amount"), FeeFactorValue(FillZero(Cell(r, "OID_bps")), FillZero(Cell(r, "origination_fee_bps"))))
  {
    var oid := FillZero(Cell(r, "OID_bps"));
    var orig := FillZero(Cell(r, "origination_fee_bps"));
    r["OID_bps" := oid]["origination_fee_bps" := orig]
      ["amount" := ScaleOutflow(Cell(r, "amount"), FeeFactorValue(oid, orig))]
  }

  /** `_adjust_fees`: without all three columns, an unchanged copy. Otherwise missing
      fee cells become 0, every amount below zero is multiplied by its row's fee
      factor, and all other cells, the columns and the row order are kept. */
  function AdjustFees(f: Frame): (r: Frame)
    requires HasFeeColumns(f) ==> FeeInputs(f)
    ensures r.columns == f.columns && |r.rows| == |f.rows|
    ensures !HasFeeColumns(f) ==> r == f
    ensures HasFeeColumns(f) ==> forall i, c ::
      (0 <= i < |f.rows| && c != "amount" && c != "OID_bps" && c != "origination_fee_bps") ==>
      Cell(r.rows[i], c) == Cell(f.rows[i], c)
    ensures HasFeeColumns(f) ==> forall i :: 0 <= i < |f.rows| ==>
      Cell(r.rows[i], "OID_bps") == FillZero(Cell(f.rows[i], "OID_bps")) &&
      Cell(r.rows[i], "origination_fee_bps") == FillZero(Cell(f.rows[i], "origination_fee_bps"))
    ensures HasFeeColumns(f) ==> forall i :: 0 <= i < |f.rows| ==>
      var a := Cell(f.rows[i], "amount");
      var oid := FillZero(Cell(f.rows[i], "OID_bps"));
      var orig := FillZero(Cell(f.rows[i], "origination_fee_bps"));
      a.Num? && a.x < 0.0 && oid.Num? && orig.Num? ==>
        Cell(r.rows[i], "amount") == Num(a.x * FeeFactor(oid.x, orig.x))
    ensures HasFeeColumns(f) ==> forall i :: 0 <= i < |f.rows| ==>
      var a := Cell(f.rows[i], "amount");
      IsOutflow(a) ==>
        Cell(r.rows[i], "amount") == FloatTimes(a, FeeFactorValue(
          FillZero(Cell(f.rows[i], "OID_bps")), FillZero(Cell(f.rows[i], "origination_fee_bps"))))
    ensures HasFeeColumns(f) ==> forall i :: 0 <= i < |f.rows| ==>
      var a := Cell(f.rows[i], "amount");
      !IsOutflow(a) ==> Cell(r.rows[i], "amount") == a
  {
    if !HasFeeColumns(f) then f
    else Frame(f.columns, seq(|f.rows|, i requires 0 <= i < |f.rows| => FeeRow(f.rows[i])))
  }

  /** Fees between 0 and 10000 bps in total shrink an outflow toward zero without
      changing its sign; zero fees leave it as it was. */
  lemma FeeFactorShrinksOutflow(x: real, oid: real, orig: real)
    requires x < 0.0 && oid >= 0.0 && orig >= 0.0 && oid + orig < 10000.0
    ensures x <= x * FeeFactor(oid, orig) < 0.0
    ensures oid + orig == 0.0 ==> x * FeeFactor(oid, orig) == x
    ensures oid + orig > 0.0 ==> x < x * FeeFactor(oid, orig)
  {
    var k := FeeFactor(oid, orig);
    assert 0.0 < k <= 1.0;
    assert x * k - x == x * (k - 1.0);
  }

  /** `adjust_cash_flow`: PIK removal, then the fee adjustment. */
  function AdjustCashFlow(f: Frame): (r: Frame)
    requires HasFeeColumns(f) ==> FeeInputs(f)
    ensures r.columns == f.columns
    ensures "cashflow_type" in f.columns ==>
      |r.rows| == |f.rows| - PikCount(f.rows) &&
      forall i :: 0 <= i < |r.rows| ==> !IsPik(r.rows[i])
    ensures "cashflow_type" !in f.columns ==> r == AdjustFees(f)
    ensures HasFeeColumns(AdjustPik(f)) ==> FeeInputs(AdjustPik(f))
    ensures r == AdjustFees(AdjustPik(f))
  {
    var p := AdjustPik(f);
    assert HasFeeColumns(p) ==> FeeInputs(p) by {
      if HasFeeColumns(p) && "cashflow_type" in f.columns {
        forall i | 0 <= i < |p.rows|
          ensures IsNumeric(Cell(p.rows[i], "OID_bps")) &&
            IsNumeric(Cell(p.rows[i], "origination_fee_bps")) &&
            IsNumeric(Cell(p.rows[i], "amount"))
        {
          assert p.rows[i] in f.rows;
        }
      }
    }
    var r := AdjustFees(p);
    assert forall i :: 0 <= i < |r.rows| ==> Cell(r.rows[i], "cashflow_type") == Cell(p.rows[i], "cashflow_type");
    r
  }
}
