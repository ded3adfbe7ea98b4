/** The deal cashflow cleaning stage: the entity-id typo fix, written into the
    caller's frame, and the sign convention (contributions negative, every other
    cashflow type positive), applied to a copy. */
module CleanCashFlow {
  import opened Frames
  import opened Text

  /** `str.replace('o', '0')` on one entity id; the `.str` accessor turns any cell
      that is not a string into a missing value. */
  function FixEntityId(v: Value): (r: Value)
    ensures r.Str? <==> v.Str?
    ensures r.Str? ==> |r.s| == |v.s| && 'o' !in r.s
  {
    if v.Str? then Str(ReplaceChar(v.s, 'o', '0')) else Null
  }

  /** The fixed id has no 'o', has the same length, and differs from the input only
      where the input had an 'o'. */
  lemma FixEntityIdSpec(s: string)
    ensures FixEntityId(Str(s)).Str?
    ensures |FixEntityId(Str(s)).s| == |s|
    ensures 'o' !in FixEntityId(Str(s)).s
    ensures forall i :: 0 <= i < |s| ==>
      FixEntityId(Str(s)).s[i] == (if s[i] == 'o' then '0' else s[i])
  {
  }

  lemma FixEntityIdIdempotent(v: Value)
    ensures FixEntityId(FixEntityId(v)) == FixEntityId(v)
  {
    if v.Str? {
      var t := ReplaceChar(v.s, 'o', '0');
      assert ReplaceChar(t, 'o', '0') == t;
    }
  }

  function FixEntityIdRow(r: Row): Row {
    r["entity_id" := FixEntityId(Cell(r, "entity_id"))]
  }

  /** `_clean_entity_id`: `KeyError` when the caller's frame has no `entity_id`
      column, which is then left as it was; otherwise overwrites that column in place,
      keeping every other column and the row count, and returns the same frame. */
  method CleanEntityId(t: Table) returns (res: Result<Frame>)
    modifies t
    ensures t.columns == old(t.columns) && |t.rows| == |old(t.rows)|
    ensures res.KeyError? <==> "entity_id" !in t.columns
    ensures res.KeyError? ==> res.column == "entity_id" && t.rows == old(t.rows)
    ensures res.Ok? ==> res.value == t.Contents()
    ensures !res.ValueError?
    ensures res.Ok? ==> forall i :: 0 <= i < |t.rows| ==> t.rows[i] == FixEntityIdRow(old(t.rows[i]))
  {
    if "entity_id" !in t.columns {
      return KeyError("entity_id");
    }
    t.rows := seq(|t.rows|, i requires 0 <= i < |t.rows| reads t => FixEntityIdRow(t.rows[i]));
    res := Ok(t.Contents());
  }

  /** `.abs()` of a float cell. */
  function Magnitude(v: Value): (r: Value)
    ensures r.Num? ==> r.x >= 0.0
    ensures r.Inf? ==> !r.negative
  {
    match v
    case Num(x) => Num(if x < 0.0 then -x else x)
    case Inf(_) => Inf(false)
    case _ => v
  }

  function Negated(v: Value): Value {
    match v
    case Num(x) => Num(-x)
    case Inf(n) => Inf(!n)
    case _ => v
  }

  predicate IsContribution(kind: Value) {
    kind == Str("contribution")
  }

  /** The converted amount of one row: `-|amount|` for a contribution, else `|amount|`. */
  function SignedAmount(kind: Value, amount: Value): Value {
    if IsContribution(kind) then Negated(Magnitude(amount)) else Magnitude(amount)
  }

  /** The sign convention on one row: a contribution is never positive, any other
      cashflow type is never negative. Missing amounts satisfy it. */
  predicate ConventionalSign(kind: Value, amount: Value) {
    if IsContribution(kind) then
      (amount.Num? ==> amount.x <= 0.0) && (amount.Inf? ==> amount.negative)
    else
      (amount.Num? ==> amount.x >= 0.0) && (amount.Inf? ==> !amount.negative)
  }

  /** Conversion keeps the magnitude and establishes the convention; it leaves an
      amount alone exactly when that amount already follows the convention. */
  lemma SignedAmountSpec(kind: Value, amount: Value)
    requires IsNumeric(amount)
    ensures Magnitude(SignedAmount(kind, amount)) == Magnitude(amount)
    ensures ConventionalSign(kind, SignedAmount(kind, amount))
    ensures SignedAmount(kind, amount) == amount <==> ConventionalSign(kind, amount)
  {
  }

  predicate HasSignColumns(f: Frame) {
    "cashflow_type" in f.columns && "amount" in f.columns
  }

  /** The amount column holds floats, as `.abs()` needs. */
  predicate NumericAmounts(f: Frame) {
    forall i :: 0 <= i < |f.rows| ==> IsNumeric(Cell(f.rows[i], "amount"))
  }

  function SignRow(r: Row): Row {
    r["amount" := SignedAmount(Cell(r, "cashflow_type"), Cell(r, "amount"))]
  }

  /** `_cash_flow_sign_convert`: a new frame with the same columns and rows in which
      only the amount changes; without a `cashflow_type` or `amount` column, an
      unchanged copy. */
  function SignConvert(f: Frame): (r: Frame)
    requires HasSignColumns(f) ==> NumericAmounts(f)
    ensures r.columns == f.columns && |r.rows| == |f.rows|
    ensures !HasSignColumns(f) ==> r == f
    ensures forall i, c :: 0 <= i < |f.rows| && c != "amount" ==> Cell(r.rows[i], c) == Cell(f.rows[i], c)
  {
    if !HasSignColumns(f) then f
    else Frame(f.columns, seq(|f.rows|, i requires 0 <= i < |f.rows| => SignRow(f.rows[i])))
  }

  /** After conversion every contribution amount is `-|a|` and every other amount is
      `|a|`, for the row's original amount a. */
  lemma SignConvertAmounts(f: Frame, i: int)
    requires HasSignColumns(f) && NumericAmounts(f)
    requires 0 <= i < |f.rows|
    ensures var kind, a := Cell(f.rows[i], "cashflow_type"), Cell(f.rows[i], "amount");
      Cell(SignConvert(f).rows[i], "amount") ==
        (if IsContribution(kind) then Negated(Magnitude(a)) else Magnitude(a))
    ensures Magnitude(Cell(SignConvert(f).rows[i], "amount")) == Magnitude(Cell(f.rows[i], "amount"))
    ensures ConventionalSign(Cell(SignConvert(f).rows[i], "cashflow_type"), Cell(SignConvert(f).rows[i], "amount"))
  {
    SignedAmountSpec(Cell(f.rows[i], "cashflow_type"), Cell(f.rows[i], "amount"));
  }

  predicate FollowsSignConvention(f: Frame) {
    forall i :: 0 <= i < |f.rows| ==>
      ConventionalSign(Cell(f.rows[i], "cashflow_type"), Cell(f.rows[i], "amount"))
  }

  /** On a well-formed ledger, conversion is the identity exactly when the ledger
      already follows the convention. */
  lemma SignConvertFixedPoints(f: Frame)
    requires Rectangular(f) && HasSignColumns(f) && NumericAmounts(f)
    ensures SignConvert(f) == f <==> FollowsSignConvention(f)
  {
    var r := SignConvert(f);
    if FollowsSignConvention(f) {
      forall i | 0 <= i < |f.rows| ensures r.rows[i] == f.rows[i] {
        SignedAmountSpec(Cell(f.rows[i], "cashflow_type"), Cell(f.rows[i], "amount"));
      }
      assert r.rows == f.rows;
    }
    if r == f {
      forall i | 0 <= i < |f.rows|
        ensures ConventionalSign(Cell(f.rows[i], "cashflow_type"), Cell(f.rows[i], "amount"))
      {
        SignConvertAmounts(f, i);
      }
    }
  }

  /** Applying the sign convention twice gives the ledger obtained by applying it once. */
  lemma SignConvertIdempotent(f: Frame)
    requires HasSignColumns(f) ==> NumericAmounts(f)
    ensures HasSignColumns(SignConvert(f)) ==> NumericAmounts(SignConvert(f))
    ensures SignConvert(SignConvert(f)) == SignConvert(f)
  {
    var r := SignConvert(f);
    if HasSignColumns(f) {
      forall i | 0 <= i < |r.rows| ensures IsNumeric(Cell(r.rows[i], "amount")) {
      }
      var rr := SignConvert(r);
      forall i | 0 <= i < |r.rows| ensures rr.rows[i] == r.rows[i] {
        var kind, a := Cell(f.rows[i], "cashflow_type"), Cell(f.rows[i], "amount");
        SignedAmountSpec(kind, a);
        SignedAmountSpec(kind, SignedAmount(kind, a));
      }
      assert rr.rows == r.rows;
    }
  }

  /** `cash_flow_clean`: the `KeyError` of the entity-id fix, with the caller's frame
      untouched; otherwise fixes entity ids in the caller's frame, then returns the
      sign-converted copy of the fixed frame. */
  method CashFlowClean(t: Table) returns (res: Result<Frame>)
    requires HasSignColumns(t.Contents()) ==> NumericAmounts(t.Contents())
    modifies t
    ensures t.columns == old(t.columns) && |t.rows| == |old(t.rows)|
    ensures res.KeyError? <==> "entity_id" !in t.columns
    ensures res.KeyError? ==> res.column == "entity_id" && t.rows == old(t.rows)
    ensures !res.ValueError?
    ensures res.Ok? ==> forall i :: 0 <= i < |t.rows| ==> t.rows[i] == FixEntityIdRow(old(t.rows[i]))
    ensures HasSignColumns(t.Contents()) ==> NumericAmounts(t.Contents())
    ensures res.Ok? ==> res.value == SignConvert(t.Contents())
  {
    var fixed := CleanEntityId(t);
    if !fixed.Ok? {
      return KeyError(fixed.column);
    }
    assert forall i :: 0 <= i < |t.rows| ==> Cell(t.rows[i], "amount") == Cell(old(t.rows[i]), "amount");
    res := Ok(SignConvert(fixed.value));
  }
}
