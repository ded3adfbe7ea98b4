/** The fund-level leverage schedule: each contribution becomes a financed position
    (finance portion = amount x advance rate, credit line = 20% of commitment) with the
    exit date of its entity; positions are aggregated per fund, draw date and exit
    date, the first draw of a fund carrying the credit line; every position is
    expanded over the month-ends it is open, priced off its cost-of-funds curve, and
    turned into monthly interest and undrawn-fee cashflows. */
module FundMetrics {
  import opened Calendar
  import opened Frames
  import opened Text

  // ---- clean_data_fund ----

  /** One contribution, paired with one exit date of its entity (or none). */
  datatype Position = Position(
    entityId: Value, fund: Value, conDate: Option<Date>, conAmount: Option<real>,
    commitment: Option<real>, curve: Value, spreadBps: Option<real>,
    undrawnFeeBps: Option<real>, advanceRate: Option<real>,
    financePortion: Option<real>, creditLine: Option<real>, exitDate: Option<Date>)

  /** The ledger columns the step reads, in the order it first reads them. */
  const LedgerColumns: seq<string> := ["cashflow_type", "entity_id", "asof", "amount", "commitment",
    "cost_of_funds_curve", "spread_bps_lev", "undrawn_fee_bps", "advance_rate", "fund"]

  predicate IsContributionRow(r: Row) {
    Cell(r, "cashflow_type") == Str("contribution")
  }

  predicate IsExitRow(r: Row) {
    Cell(r, "cashflow_type") == Str("exit_fee")
  }

  /** The exit rows of one entity, in ledger order. A missing entity id matches a
      missing entity id, as pandas merge keys do. */
  function EntityExits(exits: seq<Row>, id: Value): (es: seq<Row>)
    ensures forall r :: r in es <==> r in exits && Cell(r, "entity_id") == id
  {
    Filter(exits, (r: Row) => Cell(r, "entity_id") == id)
  }

  function MakePosition(c: Row, exit: Option<Date>): (p: Position)
    ensures p.financePortion == Times(p.conAmount, p.advanceRate)
    ensures p.creditLine == Times(p.commitment, Some(0.2))
  {
    var amount := AsOption(Cell(c, "amount"));
    var advance := AsOption(Cell(c, "advance_rate"));
    var commitment := AsOption(Cell(c, "commitment"));
    Position(Cell(c, "entity_id"), Cell(c, "fund"), AsDate(Cell(c, "asof")), amount, commitment,
      Cell(c, "cost_of_funds_curve"), AsOption(Cell(c, "spread_bps_lev")),
      AsOption(Cell(c, "undrawn_fee_bps")), advance,
      Times(amount, advance), Times(commitment, Some(0.2)), exit)
  }

  /** The positions of one contribution row: one per exit row of its entity, in
      order, carrying that row's as-of date as exit date, or a single one with no exit
      date when the entity has none. Each carries the contribution's own terms. */
  function PositionsOf(c: Row, exits: seq<Row>): (ps: seq<Position>)
    ensures var es := EntityExits(exits, Cell(c, "entity_id"));
      |ps| == (if es == [] then 1 else |es|) &&
      forall i :: 0 <= i < |ps| ==>
        ps[i].exitDate == (if es == [] then None else AsDate(Cell(es[i], "asof"))) &&
        ps[i].entityId == Cell(c, "entity_id") && ps[i].fund == Cell(c, "fund") &&
        ps[i].conDate == AsDate(Cell(c, "asof")) && ps[i].curve == Cell(c, "cost_of_funds_curve") &&
        ps[i].financePortion == Times(AsOption(Cell(c, "amount")), AsOption(Cell(c, "advance_rate"))) &&
        ps[i].creditLine == Times(AsOption(Cell(c, "commitment")), Some(0.2))
  {
    var es := EntityExits(exits, Cell(c, "entity_id"));
    if es == [] then [MakePosition(c, None)]
    else seq(|es|, i requires 0 <= i < |es| => MakePosition(c, AsDate(Cell(es[i], "asof"))))
  }

  /** The left merge of the contribution rows with the exit rows on `entity_id`. */
  function Positions(cons: seq<Row>, exits: seq<Row>): (ps: seq<Position>)
    ensures |ps| >= |cons|
  {
    if cons == [] then [] else PositionsOf(cons[0], exits) + Positions(cons[1..], exits)
  }

  /** `clean_data_fund`: `KeyError` for the first ledger column it reads that is
      absent; otherwise the positions of the contribution rows, in ledger order. */
  function CleanDataFund(f: Frame): (r: Result<seq<Position>>)
    ensures r.KeyError? <==> exists c :: c in LedgerColumns && c !in f.columns
    ensures r.KeyError? ==> r.column in LedgerColumns && r.column !in f.columns
    ensures !r.ValueError?
  {
    match FirstMissing(LedgerColumns, f.columns)
    case Some(c) => KeyError(c)
    case None => Ok(Positions(Filter(f.rows, IsContributionRow), Filter(f.rows, IsExitRow)))
  }

  /** Every contribution row yields its positions, and nothing else does: the block
      of positions of the contribution rows a + b is that of a, then that of b. */
  lemma {:induction false} PositionsConcat(a: seq<Row>, b: seq<Row>, exits: seq<Row>)
    ensures Positions(a + b, exits) == Positions(a, exits) + Positions(b, exits)
  {
    if a == [] {
      assert a + b == b;
    } else {
      assert (a + b)[0] == a[0] && (a + b)[1..] == a[1..] + b;
      PositionsConcat(a[1..], b, exits);
    }
  }

  /** After the sign convention a contribution is an outflow: with a non-negative
      advance rate its financed portion is not positive. */
  lemma FinancePortionNotPositive(c: Row, exit: Option<Date>)
    requires Cell(c, "amount").Num? && Cell(c, "amount").x <= 0.0
    requires Cell(c, "advance_rate").Num? && Cell(c, "advance_rate").x >= 0.0
    ensures MakePosition(c, exit).financePortion.Some?
    ensures MakePosition(c, exit).financePortion.value <= 0.0
  {
    var a := Cell(c, "amount").x;
    var k := Cell(c, "advance_rate").x;
    assert a * k <= 0.0 by {
      assert -(a * k) == (-a) * k;
    }
  }

  // ---- return_fund_info ----

  /** A group-by key: fund, draw date, exit date. */
  datatype FundKey = FundKey(fund: string, con: Date, exit: Date)

  /** A position the group-by sees: none of its three key cells is missing. */
  predicate Keyed(p: Position) {
    p.fund.Str? && p.conDate.Some? && p.exitDate.Some?
  }

  function KeyOfPosition(p: Position): FundKey
    requires Keyed(p)
  {
    FundKey(p.fund.s, p.conDate.value, p.exitDate.value)
  }

  predicate HasKey(p: Position, k: FundKey) {
    Keyed(p) && KeyOfPosition(p) == k
  }

  /** The positions of one group, in order. */
  function GroupOf(ps: seq<Position>, k: FundKey): (g: seq<Position>)
    ensures forall p :: p in g <==> p in ps && HasKey(p, k)
  {
    if ps == [] then []
    else if HasKey(ps[0], k) then [ps[0]] + GroupOf(ps[1..], k)
    else GroupOf(ps[1..], k)
  }

  /** `sum` skips NaN; an all-NaN group sums to 0. */
  function SumSkipNa(xs: seq<Option<real>>): real {
    if xs == [] then 0.0 else (if xs[0].Some? then xs[0].value else 0.0) + SumSkipNa(xs[1..])
  }

  /** `first` takes the first value that is not NaN, and NaN when there is none. */
  function FirstSome<T>(xs: seq<Option<T>>): (r: Option<T>)
    ensures r.None? <==> forall i :: 0 <= i < |xs| ==> xs[i].None?
    ensures r.Some? ==> exists i :: 0 <= i < |xs| && xs[i] == r && forall j :: 0 <= j < i ==> xs[j].None?
  {
    if xs == [] then None
    else if xs[0].Some? then xs[0]
    else
      var r := FirstSome(xs[1..]);
      assert forall i :: 1 <= i < |xs| ==> xs[i] == xs[1..][i - 1];
      r
  }

  function FirstValue(xs: seq<Value>): (r: Value)
    ensures r.Null? <==> forall i :: 0 <= i < |xs| ==> xs[i].Null?
    ensures !r.Null? ==> exists i :: 0 <= i < |xs| && xs[i] == r && forall j :: 0 <= j < i ==> xs[j].Null?
  {
    if xs == [] then Null
    else if !xs[0].Null? then xs[0]
    else
      var r := FirstValue(xs[1..]);
      assert forall i :: 1 <= i < |xs| ==> xs[i] == xs[1..][i - 1];
      r
  }

  /** One row of the group-by output. */
  datatype FundGroup = FundGroup(key: FundKey, financePortion: real, creditLine: Option<real>,
    curve: Value, spreadBps: Option<real>, undrawnFeeBps: Option<real>, advanceRate: Option<real>)

  /** The aggregation of the group with key k: `finance_portion` summed, every other
      term its first value. */
  function Aggregate(ps: seq<Position>, k: FundKey): FundGroup {
    var g := GroupOf(ps, k);
    FundGroup(k,
      SumSkipNa(seq(|g|, i requires 0 <= i < |g| => g[i].financePortion)),
      FirstSome(seq(|g|, i requires 0 <= i < |g| => g[i].creditLine)),
      FirstValue(seq(|g|, i requires 0 <= i < |g| => g[i].curve)),
      FirstSome(seq(|g|, i requires 0 <= i < |g| => g[i].spreadBps)),
      FirstSome(seq(|g|, i requires 0 <= i < |g| => g[i].undrawnFeeBps)),
      FirstSome(seq(|g|, i requires 0 <= i < |g| => g[i].advanceRate)))
  }

  /** Some keyed position has key k. */
  ghost predicate KeyOccurs(ps: seq<Position>, k: FundKey) {
    exists i :: 0 <= i < |ps| && HasKey(ps[i], k)
  }

  lemma KeyOccursCons(ps: seq<Position>, k: FundKey)
    requires ps != []
    ensures KeyOccurs(ps, k) <==> HasKey(ps[0], k) || KeyOccurs(ps[1..], k)
  {
    if KeyOccurs(ps, k) {
      var i :| 0 <= i < |ps| && HasKey(ps[i], k);
      if i > 0 {
        assert ps[1..][i - 1] == ps[i];
      }
    }
    if KeyOccurs(ps[1..], k) {
      var i :| 0 <= i < |ps[1..]| && HasKey(ps[1..][i], k);
      assert ps[1..][i] == ps[i + 1];
    }
  }

  predicate DistinctKeys(ks: seq<FundKey>) {
    forall i, j :: 0 <= i < j < |ks| ==> ks[i] != ks[j]
  }

  /** The group keys in order of first appearance after `seen`. */
  function FundKeys(ps: seq<Position>, seen: seq<FundKey>): (ks: seq<FundKey>)
    requires DistinctKeys(seen)
    ensures DistinctKeys(ks)
    ensures forall k :: k in ks <==> k in seen || KeyOccurs(ps, k)
  {
    if ps == [] then seen
    else
      var next := if Keyed(ps[0]) && KeyOfPosition(ps[0]) !in seen then seen + [KeyOfPosition(ps[0])] else seen;
      var ks := FundKeys(ps[1..], next);
      assert forall k :: KeyOccurs(ps, k) <==> HasKey(ps[0], k) || KeyOccurs(ps[1..], k) by {
        forall k ensures KeyOccurs(ps, k) <==> HasKey(ps[0], k) || KeyOccurs(ps[1..], k) {
          KeyOccursCons(ps, k);
        }
      }
      ks
  }

  /** `sort_values(['fund', 'con_date'])` on the group-by output, which is already in
      key order: fund names as Python orders strings, then draw date, then exit date. */
  predicate KeyLess(a: FundKey, b: FundKey) {
    LexLess(a.fund, b.fund) ||
    (a.fund == b.fund && (Before(a.con, b.con) || (a.con == b.con && Before(a.exit, b.exit))))
  }

  lemma KeyLessIrreflexive(a: FundKey)
    ensures !KeyLess(a, a)
  {
    LexLessIrreflexive(a.fund);
  }

  lemma KeyLessTransitive(a: FundKey, b: FundKey, c: FundKey)
    requires KeyLess(a, b) && KeyLess(b, c)
    ensures KeyLess(a, c)
  {
    if LexLess(a.fund, b.fund) && LexLess(b.fund, c.fund) {
      LexLessTransitive(a.fund, b.fund, c.fund);
    }
  }

  lemma KeyLessTotal(a: FundKey, b: FundKey)
    ensures a == b || KeyLess(a, b) || KeyLess(b, a)
  {
    LexLessTotal(a.fund, b.fund);
  }

  predicate SortedByKey(gs: seq<FundGroup>) {
    forall i, j :: 0 <= i < j < |gs| ==> KeyLess(gs[i].key, gs[j].key)
  }

  function InsertByKey(g: FundGroup, gs: seq<FundGroup>): seq<FundGroup> {
    if gs == [] then [g]
    else if KeyLess(g.key, gs[0].key) then [g] + gs
    else [gs[0]] + InsertByKey(g, gs[1..])
  }

  function SortByKey(gs: seq<FundGroup>): seq<FundGroup> {
    if gs == [] then [] else InsertByKey(gs[0], SortByKey(gs[1..]))
  }

  lemma {:induction false} InsertByKeyPermutes(g: FundGroup, gs: seq<FundGroup>)
    ensures multiset(InsertByKey(g, gs)) == multiset(gs) + multiset{g}
  {
    if gs != [] && !KeyLess(g.key, gs[0].key) {
      InsertByKeyPermutes(g, gs[1..]);
      assert gs == [gs[0]] + gs[1..];
    }
  }

  lemma PrependByKey(g: FundGroup, gs: seq<FundGroup>)
    requires SortedByKey(gs)
    requires forall h :: h in gs ==> KeyLess(g.key, h.key)
    ensures SortedByKey([g] + gs)
  {
    var out := [g] + gs;
    forall i, j | 0 <= i < j < |out| ensures KeyLess(out[i].key, out[j].key) {
      assert out[j] == gs[j - 1];
      if i > 0 {
        assert out[i] == gs[i - 1];
      }
    }
  }

  lemma {:induction false} InsertByKeySorted(g: FundGroup, gs: seq<FundGroup>)
    requires SortedByKey(gs)
    requires forall h :: h in gs ==> h.key != g.key
    ensures SortedByKey(InsertByKey(g, gs))
  {
    if gs == [] {
    } else if KeyLess(g.key, gs[0].key) {
      forall h | h in gs ensures KeyLess(g.key, h.key) {
        var j :| 0 <= j < |gs| && gs[j] == h;
        if j > 0 {
          assert KeyLess(gs[0].key, gs[j].key);
          KeyLessTransitive(g.key, gs[0].key, h.key);
        }
      }
      PrependByKey(g, gs);
    } else {
      var rest := InsertByKey(g, gs[1..]);
      InsertByKeySorted(g, gs[1..]);
      InsertByKeyPermutes(g, gs[1..]);
      assert gs[0] in gs;
      KeyLessTotal(g.key, gs[0].key);
      forall h | h in rest ensures KeyLess(gs[0].key, h.key) {
        assert h in multiset(rest);
        if h != g {
          assert h in multiset(gs[1..]);
          var j :| 0 <= j < |gs[1..]| && gs[1..][j] == h;
          assert KeyLess(gs[0].key, gs[j + 1].key);
        }
      }
      PrependByKey(gs[0], rest);
    }
  }

  function GroupKeys(gs: seq<FundGroup>): (ks: seq<FundKey>)
    ensures |ks| == |gs|
    ensures forall i :: 0 <= i < |gs| ==> ks[i] == gs[i].key
  {
    seq(|gs|, i requires 0 <= i < |gs| => gs[i].key)
  }

  /** Sorting groups with distinct keys puts them in strictly increasing key order
      and keeps every group exactly once. */
  lemma {:induction false} SortByKeySpec(gs: seq<FundGroup>)
    requires DistinctKeys(GroupKeys(gs))
    ensures SortedByKey(SortByKey(gs))
    ensures multiset(SortByKey(gs)) == multiset(gs)
  {
    if gs != [] {
      assert DistinctKeys(GroupKeys(gs[1..])) by {
        forall i, j | 0 <= i < j < |gs[1..]| ensures GroupKeys(gs[1..])[i] != GroupKeys(gs[1..])[j] {
          assert GroupKeys(gs)[i + 1] != GroupKeys(gs)[j + 1];
        }
      }
      SortByKeySpec(gs[1..]);
      var sorted := SortByKey(gs[1..]);
      forall h | h in sorted ensures h.key != gs[0].key {
        assert h in multiset(gs[1..]);
        var j :| 0 <= j < |gs[1..]| && gs[1..][j] == h;
        assert GroupKeys(gs)[0] != GroupKeys(gs)[j + 1];
      }
      InsertByKeySorted(gs[0], sorted);
      InsertByKeyPermutes(gs[0], sorted);
      assert gs == [gs[0]] + gs[1..];
    }
  }

  /** One row of the fund table. */
  datatype FundInfo = FundInfo(key: FundKey, financePortion: real, undrawn: Option<real>,
    creditLine: Option<real>, curve: Value, spreadBps: Option<real>, undrawnFeeBps: Option<real>,
    advanceRate: Option<real>)

  /** `groupby('fund').cumcount() == 0`: no earlier row has the same fund. */
  predicate FirstOfFund(gs: seq<FundGroup>, i: int)
    requires 0 <= i < |gs|
  {
    forall j :: 0 <= j < i ==> gs[j].key.fund != gs[i].key.fund
  }

  /** The group-by columns of a fund-table row. */
  function GroupPart(r: FundInfo): FundGroup {
    FundGroup(r.key, r.financePortion, r.creditLine, r.curve, r.spreadBps, r.undrawnFeeBps, r.advanceRate)
  }

  /** `groupby('fund').cumcount() == 0`: no earlier row of the table has the same fund. */
  predicate FirstDraw(info: seq<FundInfo>, i: int)
    requires 0 <= i < |info|
  {
    forall j :: 0 <= j < i ==> info[j].key.fund != info[i].key.fund
  }

  /** The undrawn column: credit line plus finance portion on the first draw of a
      fund, the finance portion alone on every later draw; nothing else changes. */
  function WithUndrawn(gs: seq<FundGroup>): (info: seq<FundInfo>)
    ensures |info| == |gs|
    ensures forall i :: 0 <= i < |gs| ==> GroupPart(info[i]) == gs[i]
    ensures forall i :: 0 <= i < |gs| ==>
      info[i].undrawn == (if FirstDraw(info, i) then Plus(gs[i].creditLine, Some(gs[i].financePortion)) else Some(gs[i].financePortion))
  {
    seq(|gs|, i requires 0 <= i < |gs| =>
      var g := gs[i];
      FundInfo(g.key, g.financePortion,
        if FirstOfFund(gs, i) then Plus(g.creditLine, Some(g.financePortion)) else Some(g.financePortion),
        g.creditLine, g.curve, g.spreadBps, g.undrawnFeeBps, g.advanceRate))
  }

  /** The groups in order of first appearance. */
  function Aggregates(ps: seq<Position>, ks: seq<FundKey>): (gs: seq<FundGroup>)
    ensures |gs| == |ks|
    ensures forall i :: 0 <= i < |ks| ==> gs[i] == Aggregate(ps, ks[i])
  {
    seq(|ks|, i requires 0 <= i < |ks| => Aggregate(ps, ks[i]))
  }

  /** The groups of `return_fund_info` before the undrawn column, in key order. */
  function FundGroups(ps: seq<Position>): seq<FundGroup> {
    SortByKey(Aggregates(ps, FundKeys(ps, [])))
  }

  /** `return_fund_info`. */
  function ReturnFundInfo(ps: seq<Position>): seq<FundInfo> {
    WithUndrawn(FundGroups(ps))
  }

  predicate InfoSorted(info: seq<FundInfo>) {
    forall i, j :: 0 <= i < j < |info| ==> KeyLess(info[i].key, info[j].key)
  }

  /** The sorted groups: one per key that some keyed position carries, in strictly
      increasing key order, each the aggregation of its own group. */
  lemma FundGroupsSpec(ps: seq<Position>)
    ensures SortedByKey(FundGroups(ps))
    ensures forall k :: (exists i :: 0 <= i < |FundGroups(ps)| && FundGroups(ps)[i].key == k) <==> KeyOccurs(ps, k)
    ensures forall i :: 0 <= i < |FundGroups(ps)| ==> FundGroups(ps)[i] == Aggregate(ps, FundGroups(ps)[i].key)
  {
    var ks := FundKeys(ps, []);
    var unsorted := Aggregates(ps, ks);
    assert GroupKeys(unsorted) == ks;
    SortByKeySpec(unsorted);
    var gs := FundGroups(ps);
    forall i | 0 <= i < |gs| ensures gs[i] == Aggregate(ps, gs[i].key) && KeyOccurs(ps, gs[i].key) {
      assert gs[i] in multiset(unsorted);
      var j :| 0 <= j < |unsorted| && unsorted[j] == gs[i];
      assert ks[j] in ks;
    }
    forall k | KeyOccurs(ps, k) ensures exists i :: 0 <= i < |gs| && gs[i].key == k {
      var j :| 0 <= j < |ks| && ks[j] == k;
      assert unsorted[j] in multiset(gs);
      var i :| 0 <= i < |gs| && gs[i] == unsorted[j];
    }
  }

  /** The fund table has one row per (fund, draw date, exit date) that a contribution
      with all three cells carries, in strictly increasing key order, and each row
      aggregates exactly the positions with that key. */
  lemma ReturnFundInfoRows(ps: seq<Position>)
    ensures InfoSorted(ReturnFundInfo(ps))
    ensures forall k :: (exists i :: 0 <= i < |ReturnFundInfo(ps)| && ReturnFundInfo(ps)[i].key == k) <==> KeyOccurs(ps, k)
    ensures forall i :: 0 <= i < |ReturnFundInfo(ps)| ==>
      GroupPart(ReturnFundInfo(ps)[i]) == Aggregate(ps, ReturnFundInfo(ps)[i].key)
  {
    FundGroupsSpec(ps);
    var gs := FundGroups(ps);
    var info := ReturnFundInfo(ps);
    assert forall i :: 0 <= i < |info| ==> info[i].key == gs[i].key by {
      forall i | 0 <= i < |info| ensures info[i].key == gs[i].key {
        assert GroupPart(info[i]) == gs[i];
      }
    }
  }

  /** Row j's fund has its first draw at or before row j. */
  predicate HasFirstDraw(info: seq<FundInfo>, j: int)
    requires 0 <= j < |info|
  {
    exists i :: 0 <= i <= j && FirstDraw(info, i) && info[i].key.fund == info[j].key.fund
  }

  /** In a table sorted by key, the first draw of a fund comes before its other draws
      and has the earliest draw date, and every row has its fund's first draw at or
      before it. */
  lemma SortedFirstDraw(info: seq<FundInfo>)
    requires InfoSorted(info)
    ensures forall i, j :: (0 <= i < |info| && 0 <= j < |info| && i != j && FirstDraw(info, i) &&
      info[j].key.fund == info[i].key.fund) ==> i < j && OnOrBefore(info[i].key.con, info[j].key.con)
    ensures forall j :: 0 <= j < |info| ==> HasFirstDraw(info, j)
  {
    forall i, j | 0 <= i < |info| && 0 <= j < |info| && i != j && FirstDraw(info, i) &&
      info[j].key.fund == info[i].key.fund
      ensures i < j && OnOrBefore(info[i].key.con, info[j].key.con)
    {
      assert KeyLess(info[i].key, info[j].key);
      LexLessIrreflexive(info[i].key.fund);
    }
    forall j | 0 <= j < |info| ensures HasFirstDraw(info, j) {
      var i := FirstDrawOf(info, j);
    }
  }

  /** The fund table is sorted, so `SortedFirstDraw` applies to it. */
  lemma FirstDrawIsEarliest(ps: seq<Position>)
    ensures var info := ReturnFundInfo(ps);
      forall i, j :: (0 <= i < |info| && 0 <= j < |info| && i != j && FirstDraw(info, i) &&
      info[j].key.fund == info[i].key.fund) ==> i < j && OnOrBefore(info[i].key.con, info[j].key.con)
    ensures var info := ReturnFundInfo(ps);
      forall j :: 0 <= j < |info| ==> HasFirstDraw(info, j)
  {
    ReturnFundInfoRows(ps);
    SortedFirstDraw(ReturnFundInfo(ps));
  }

  /** The first draw of the fund of row j. */
  lemma FirstDrawOf(info: seq<FundInfo>, j: int) returns (i: int)
    requires 0 <= j < |info|
    ensures 0 <= i <= j && FirstDraw(info, i) && info[i].key.fund == info[j].key.fund
    decreases j
  {
    if FirstDraw(info, j) {
      i := j;
    } else {
      var k :| 0 <= k < j && info[k].key.fund == info[j].key.fund;
      i := FirstDrawOf(info, k);
    }
  }

  /** No fund of the table comes only from open positions: a fund whose positions all
      lack an exit date has no row, because the group-by drops null keys. */
  lemma OpenPositionsVanish(ps: seq<Position>, fund: string)
    requires forall p :: p in ps && p.fund == Str(fund) ==> p.exitDate.None?
    ensures forall i :: 0 <= i < |ReturnFundInfo(ps)| ==> ReturnFundInfo(ps)[i].key.fund != fund
  {
    ReturnFundInfoRows(ps);
    var info := ReturnFundInfo(ps);
    forall i | 0 <= i < |info| ensures info[i].key.fund != fund {
      var k := info[i].key;
      assert KeyOccurs(ps, k);
      var j :| 0 <= j < |ps| && HasKey(ps[j], k);
      assert ps[j] in ps;
    }
  }

  // ---- expand_and_join_curve ----

  /** One curve point: curve name, month-end (the renamed `asof`) and rate. */
  datatype CurvePoint = CurvePoint(curve: Value, monthEnd: Option<Date>, rate: Option<real>)

  /** After `rename(columns={'asof': 'month_end'})` the curve table has two
      `month_end` columns when it had both names, and none when it had neither. */
  predicate CurveDateClash(cols: seq<string>) {
    "asof" in cols && "month_end" in cols
  }

  /** A column the join reads is absent: no date column under either name, or no
      `curve` or `rate` (the clash of two date columns fails first). */
  predicate CurveColumnMissing(cols: seq<string>) {
    !CurveDateClash(cols) &&
    (("asof" !in cols && "month_end" !in cols) || "curve" !in cols || "rate" !in cols)
  }

  /** The curve column that ends up named `month_end`: `asof` when present, else an
      existing `month_end` (the rename then does nothing). */
  function CurveDateColumn(cols: seq<string>): string {
    if "asof" in cols then "asof" else "month_end"
  }

  /** The curve table as the join reads it. The date column is `asof` renamed, or an
      existing `month_end`; with neither, reading `month_end` raises `KeyError`; with
      both, the rename leaves two `month_end` columns and `to_datetime` of that
      two-column frame raises `ValueError`. Then a `KeyError` for `curve` or `rate`
      when absent; otherwise one point per row, the date through the parser `parse`. */
  function CurvePoints(curvedb: Frame, parse: Value -> Option<Date>): (r: Result<seq<CurvePoint>>)
    ensures "asof" !in curvedb.columns && "month_end" !in curvedb.columns ==> r == KeyError("month_end")
    ensures r.ValueError? <==> CurveDateClash(curvedb.columns)
    ensures r.KeyError? <==> CurveColumnMissing(curvedb.columns)
    ensures r.Ok? ==> |r.value| == |curvedb.rows| && forall i :: 0 <= i < |curvedb.rows| ==>
      r.value[i].curve == Cell(curvedb.rows[i], "curve") &&
      r.value[i].rate == AsOption(Cell(curvedb.rows[i], "rate")) &&
      r.value[i].monthEnd == AsDate(ToDatetime(Cell(curvedb.rows[i], CurveDateColumn(curvedb.columns)), parse))
  {
    var cols := curvedb.columns;
    if CurveDateClash(cols) then ValueError("month_end")
    else if "asof" !in cols && "month_end" !in cols then KeyError("month_end")
    else match FirstMissing(["curve", "rate"], cols)
      case Some(c) => KeyError(c)
      case None =>
        var rows := curvedb.rows;
        var d := CurveDateColumn(cols);
        Ok(seq(|rows|, i requires 0 <= i < |rows| =>
          CurvePoint(Cell(rows[i], "curve"), AsDate(ToDatetime(Cell(rows[i], d), parse)), AsOption(Cell(rows[i], "rate")))))
  }

  /** A left-join match: same curve name and same month-end; the join pairs a missing
      key with a missing key. */
  predicate PointMatches(p: CurvePoint, curve: Value, m: Option<Date>) {
    p.curve == curve && p.monthEnd == m
  }

  function MatchingRates(pts: seq<CurvePoint>, curve: Value, m: Option<Date>): (r: seq<Option<real>>)
    ensures |r| <= |pts|
    ensures r == [] <==> forall i :: 0 <= i < |pts| ==> !PointMatches(pts[i], curve, m)
    ensures forall x :: x in r <==> exists i :: 0 <= i < |pts| && PointMatches(pts[i], curve, m) && pts[i].rate == x
  {
    if pts == [] then []
    else
      var rest := MatchingRates(pts[1..], curve, m);
      assert forall i :: 1 <= i < |pts| ==> pts[i] == pts[1..][i - 1];
      if PointMatches(pts[0], curve, m) then [pts[0].rate] + rest else rest
  }

  /** The rates a left row picks up: those of the matching points in curve order, or
      a single missing rate when none matches (the row is kept). */
  function RatesFor(pts: seq<CurvePoint>, curve: Value, m: Option<Date>): (r: seq<Option<real>>)
    ensures |r| >= 1
    ensures (forall i :: 0 <= i < |pts| ==> !PointMatches(pts[i], curve, m)) ==> r == [None]
    ensures forall x :: x in r <==>
      (exists i :: 0 <= i < |pts| && PointMatches(pts[i], curve, m) && pts[i].rate == x) ||
      (x.None? && forall i :: 0 <= i < |pts| ==> !PointMatches(pts[i], curve, m))
  {
    var rs := MatchingRates(pts, curve, m);
    if rs == [] then [None] else rs
  }

  /** (curve, month-end) identifies at most one point. */
  predicate UniqueCurveKeys(pts: seq<CurvePoint>) {
    forall i, j :: 0 <= i < j < |pts| ==> pts[i].curve != pts[j].curve || pts[i].monthEnd != pts[j].monthEnd
  }

  lemma {:induction false} MatchingRatesUnique(pts: seq<CurvePoint>, curve: Value, m: Option<Date>)
    requires UniqueCurveKeys(pts)
    ensures |MatchingRates(pts, curve, m)| <= 1
  {
    if pts != [] {
      assert UniqueCurveKeys(pts[1..]) by {
        forall i, j | 0 <= i < j < |pts[1..]|
          ensures pts[1..][i].curve != pts[1..][j].curve || pts[1..][i].monthEnd != pts[1..][j].monthEnd
        {
          assert pts[1..][i] == pts[i + 1] && pts[1..][j] == pts[j + 1];
        }
      }
      MatchingRatesUnique(pts[1..], curve, m);
      if PointMatches(pts[0], curve, m) {
        forall i | 0 <= i < |pts[1..]| ensures !PointMatches(pts[1..][i], curve, m) {
          assert pts[1..][i] == pts[i + 1];
        }
      }
    }
  }

  /** With unique curve keys every left row gets exactly one rate. */
  lemma RatesForUnique(pts: seq<CurvePoint>, curve: Value, m: Option<Date>)
    requires UniqueCurveKeys(pts)
    ensures |RatesFor(pts, curve, m)| == 1
  {
    MatchingRatesUnique(pts, curve, m);
  }

  /** A fund-table row after the explode and the curve join, before the window filter. */
  datatype Joined = Joined(info: FundInfo, monthEnd: Option<Date>, rate: Option<real>)

  /** `date_range(start_me, exit_me, freq='ME')`: the month-ends from the one before the
      draw date to the one on or after the exit date. */
  function MonthsOf(r: FundInfo): (ms: seq<Date>)
    ensures StrictlyIncreasing(ms)
    ensures forall i :: 0 <= i < |ms| ==> IsMonthEnd(ms[i])
    ensures forall m: Date :: IsMonthEnd(m) && OnOrBefore(r.key.con, m) && OnOrBefore(m, r.key.exit) ==> m in ms
  {
    var start := RollBackMonthEnd(r.key.con);
    var end := RollForwardMonthEnd(r.key.exit);
    MonthEndDateRange(start, end)
  }

  /** The joined rows of one month: one per rate the month picks up. */
  function MonthJoin(r: FundInfo, m: Option<Date>, pts: seq<CurvePoint>): (js: seq<Joined>)
    ensures |js| == |RatesFor(pts, r.curve, m)|
    ensures forall j :: j in js <==> j.info == r && j.monthEnd == m && j.rate in RatesFor(pts, r.curve, m)
  {
    var rs := RatesFor(pts, r.curve, m);
    var js := seq(|rs|, k requires 0 <= k < |rs| => Joined(r, m, rs[k]));
    assert forall j :: j in js ==> exists k :: 0 <= k < |rs| && j == Joined(r, m, rs[k]);
    assert forall x :: x in rs ==> Joined(r, m, x) in js by {
      forall x | x in rs ensures Joined(r, m, x) in js {
        var k :| 0 <= k < |rs| && rs[k] == x;
        assert js[k] == Joined(r, m, x);
      }
    }
    js
  }

  function MonthsJoin(r: FundInfo, ms: seq<Date>, pts: seq<CurvePoint>): (js: seq<Joined>)
    ensures forall j :: j in js <==> j.info == r && j.monthEnd.Some? && j.monthEnd.value in ms && j.rate in RatesFor(pts, r.curve, j.monthEnd)
  {
    if ms == [] then []
    else
      var rest := MonthsJoin(r, ms[1..], pts);
      assert forall m :: m in ms <==> m == ms[0] || m in ms[1..];
      MonthJoin(r, Some(ms[0]), pts) + rest
  }

  /** `explode` then the left join for one fund-table row: an empty month range still
      leaves one row, with no month-end. */
  function RowJoin(r: FundInfo, pts: seq<CurvePoint>): (js: seq<Joined>)
    ensures forall j :: j in js ==> j.info == r
    ensures forall j :: j in js && j.monthEnd.Some? ==>
      j.monthEnd.value in MonthsOf(r) && j.rate in RatesFor(pts, r.curve, j.monthEnd)
    ensures forall m, x :: m in MonthsOf(r) && x in RatesFor(pts, r.curve, Some(m)) ==> Joined(r, Some(m), x) in js
  {
    var ms := MonthsOf(r);
    if ms == [] then MonthJoin(r, None, pts) else MonthsJoin(r, ms, pts)
  }

  function ExplodeJoin(info: seq<FundInfo>, pts: seq<CurvePoint>): (js: seq<Joined>)
    ensures forall j :: j in js ==> j.info in info
    ensures forall j :: j in js && j.monthEnd.Some? ==>
      j.monthEnd.value in MonthsOf(j.info) && j.rate in RatesFor(pts, j.info.curve, j.monthEnd)
    ensures forall r, m, x :: r in info && m in MonthsOf(r) && x in RatesFor(pts, r.curve, Some(m)) ==>
      Joined(r, Some(m), x) in js
  {
    if info == [] then []
    else
      var rest := ExplodeJoin(info[1..], pts);
      assert forall r :: r in info <==> r == info[0] || r in info[1..];
      RowJoin(info[0], pts) + rest
  }

  /** `month_end >= con_date & month_end <= exit_date`; a missing month-end fails both. */
  predicate InWindow(j: Joined) {
    j.monthEnd.Some? && OnOrBefore(j.info.key.con, j.monthEnd.value) && OnOrBefore(j.monthEnd.value, j.info.key.exit)
  }

  /** `bps / 10_000`. */
  function FromBps(bps: Option<real>): (r: Option<real>)
    ensures r.Some? <==> bps.Some?
    ensures r.Some? ==> r.value * 10000.0 == bps.value
  {
    if bps.Some? then Some(bps.value / 10000.0) else None
  }

  /** One row of the fund curve table. */
  datatype CurveRow = CurveRow(fund: string, con: Date, exit: Date, monthEnd: Date, paymentDate: Date,
    costOfFundsCurve: Value, rate: Option<real>, allInRate: Option<real>,
    spreadBps: Option<real>, undrawnFeeBps: Option<real>, undrawnFeeRate: Option<real>,
    financePortion: real, undrawn: Option<real>)

  /** The rate columns and the payment date of a row inside its window. */
  function CurveRowOf(j: Joined): CurveRow
    requires InWindow(j)
  {
    var r := j.info;
    var m := j.monthEnd.value;
    CurveRow(r.key.fund, r.key.con, r.key.exit, m, PaymentDate(m), r.curve, j.rate,
      Plus(j.rate, FromBps(r.spreadBps)), r.spreadBps, r.undrawnFeeBps, FromBps(r.undrawnFeeBps),
      r.financePortion, r.undrawn)
  }

  /** The window filter, in order, followed by the derived columns. */
  function KeepInWindow(js: seq<Joined>): (out: seq<CurveRow>)
    ensures forall c :: c in out <==> exists j :: j in js && InWindow(j) && c == CurveRowOf(j)
  {
    if js == [] then []
    else
      var rest := KeepInWindow(js[1..]);
      assert forall j :: j in js <==> j == js[0] || j in js[1..];
      if InWindow(js[0]) then [CurveRowOf(js[0])] + rest else rest
  }

  lemma {:induction false} KeepInWindowConcat(a: seq<Joined>, b: seq<Joined>)
    ensures KeepInWindow(a + b) == KeepInWindow(a) + KeepInWindow(b)
  {
    if a == [] {
      assert a + b == b;
    } else {
      assert (a + b)[0] == a[0] && (a + b)[1..] == a[1..] + b;
      KeepInWindowConcat(a[1..], b);
    }
  }

  /** `expand_and_join_curve`. On an empty fund table the row-wise `apply` returns a
      copy of the (empty, many-column) frame instead of one column, and storing it as
      `month_end` raises `ValueError`. Otherwise the errors of `CurvePoints`,
      else the window rows of the exploded and joined fund table. */
  function ExpandAndJoinCurve(info: seq<FundInfo>, curvedb: Frame, parse: Value -> Option<Date>): (r: Result<seq<CurveRow>>)
    ensures r.ValueError? <==> info == [] || CurveDateClash(curvedb.columns)
    ensures r.KeyError? <==> info != [] && CurveColumnMissing(curvedb.columns)
    ensures r.Ok? ==>
      CurvePoints(curvedb, parse).Ok? && r.value == KeepInWindow(ExplodeJoin(info, CurvePoints(curvedb, parse).value))
  {
    if info == [] then ValueError("month_end")
    else
      match CurvePoints(curvedb, parse)
      case Ok(pts) => Ok(KeepInWindow(ExplodeJoin(info, pts)))
      case KeyError(c) => KeyError(c)
      case ValueError(c) => ValueError(c)
  }

  /** Every row of the curve table lies in its position's window [draw date, exit date]
      on a month-end (so the scaffolding month-end before the draw date never
      survives), is paid on the 15th of the next month, carries the fund-table
      columns of its position and a rate it picked up, and has all-in rate = rate +
      spread/10000 and undrawn fee rate = undrawn fee bps/10000. */
  lemma CurveRowsInWindow(info: seq<FundInfo>, pts: seq<CurvePoint>)
    ensures forall c :: c in KeepInWindow(ExplodeJoin(info, pts)) ==>
      IsMonthEnd(c.monthEnd) && OnOrBefore(c.con, c.monthEnd) && OnOrBefore(c.monthEnd, c.exit) &&
      c.paymentDate == PaymentDate(c.monthEnd) &&
      c.allInRate == Plus(c.rate, FromBps(c.spreadBps)) && c.undrawnFeeRate == FromBps(c.undrawnFeeBps) &&
      exists r :: r in info && c.fund == r.key.fund && c.con == r.key.con && c.exit == r.key.exit &&
        c.costOfFundsCurve == r.curve && c.financePortion == r.financePortion && c.undrawn == r.undrawn &&
        c.rate in RatesFor(pts, r.curve, Some(c.monthEnd))
  {
    var js := ExplodeJoin(info, pts);
    forall c | c in KeepInWindow(js)
      ensures IsMonthEnd(c.monthEnd) &&
        exists r :: r in info && c.fund == r.key.fund && c.con == r.key.con && c.exit == r.key.exit &&
          c.costOfFundsCurve == r.curve && c.financePortion == r.financePortion && c.undrawn == r.undrawn &&
          c.rate in RatesFor(pts, r.curve, Some(c.monthEnd))
    {
      var j :| j in js && InWindow(j) && c == CurveRowOf(j);
      var ms := MonthsOf(j.info);
      var k :| 0 <= k < |ms| && ms[k] == j.monthEnd.value;
      assert j.info in info;
    }
  }

  /** Every month-end m with draw date <= m <= exit date of every fund-table row
      appears in the curve table, once for each rate the row picks up for m, and
      at least once. */
  lemma CurveRowsCoverWindow(info: seq<FundInfo>, pts: seq<CurvePoint>, r: FundInfo, m: Date)
    requires r in info && IsMonthEnd(m) && OnOrBefore(r.key.con, m) && OnOrBefore(m, r.key.exit)
    ensures forall x :: x in RatesFor(pts, r.curve, Some(m)) ==>
      CurveRowOf(Joined(r, Some(m), x)) in KeepInWindow(ExplodeJoin(info, pts))
    ensures exists c :: (c in KeepInWindow(ExplodeJoin(info, pts)) &&
      c.monthEnd == m && c.fund == r.key.fund && c.con == r.key.con && c.exit == r.key.exit)
  {
    var rs := RatesFor(pts, r.curve, Some(m));
    assert m in MonthsOf(r);
    forall x | x in rs ensures CurveRowOf(Joined(r, Some(m), x)) in KeepInWindow(ExplodeJoin(info, pts)) {
      assert Joined(r, Some(m), x) in ExplodeJoin(info, pts);
    }
    assert rs[0] in rs;
    assert CurveRowOf(Joined(r, Some(m), rs[0])).monthEnd == m;
  }

  function MonthsOfRows(out: seq<CurveRow>): (ms: seq<Date>)
    ensures |ms| == |out| && forall i :: 0 <= i < |out| ==> ms[i] == out[i].monthEnd
  {
    seq(|out|, i requires 0 <= i < |out| => out[i].monthEnd)
  }

  lemma MonthsOfRowsConcat(a: seq<CurveRow>, b: seq<CurveRow>)
    ensures MonthsOfRows(a + b) == MonthsOfRows(a) + MonthsOfRows(b)
  {
  }

  lemma IncreasingConcat(a: seq<Date>, b: seq<Date>)
    requires StrictlyIncreasing(a) && StrictlyIncreasing(b)
    requires forall x, y :: x in a && y in b ==> Before(x, y)
    ensures StrictlyIncreasing(a + b)
  {
    var ab := a + b;
    forall i, j | 0 <= i < j < |ab| ensures Before(ab[i], ab[j]) {
      if j < |a| {
        assert ab[i] == a[i] && ab[j] == a[j];
      } else if i < |a| {
        assert ab[i] in a && ab[j] == b[j - |a|] && ab[j] in b;
      } else {
        assert ab[i] == b[i - |a|] && ab[j] == b[j - |a|];
      }
    }
  }

  /** With unique curve keys, one month of one row survives the window at most once. */
  lemma MonthJoinOnce(r: FundInfo, m: Date, pts: seq<CurvePoint>)
    requires UniqueCurveKeys(pts)
    ensures var out := KeepInWindow(MonthJoin(r, Some(m), pts));
      StrictlyIncreasing(MonthsOfRows(out)) && forall c :: c in out ==> c.monthEnd == m
  {
    RatesForUnique(pts, r.curve, Some(m));
    var head := MonthJoin(r, Some(m), pts);
    assert head == [head[0]];
    assert KeepInWindow(head[1..]) == [];
  }

  /** Rows of the first month of a strictly increasing range come before the rows of
      the later months. */
  lemma HeadMonthFirst(first: seq<CurveRow>, rest: seq<CurveRow>, ms: seq<Date>)
    requires StrictlyIncreasing(ms) && ms != []
    requires forall c :: c in first ==> c.monthEnd == ms[0]
    requires forall c :: c in rest ==> c.monthEnd in ms[1..]
    ensures forall x, y :: x in MonthsOfRows(first) && y in MonthsOfRows(rest) ==> Before(x, y)
  {
    forall x, y | x in MonthsOfRows(first) && y in MonthsOfRows(rest) ensures Before(x, y) {
      var i :| 0 <= i < |first| && MonthsOfRows(first)[i] == x;
      var k :| 0 <= k < |rest| && MonthsOfRows(rest)[k] == y;
      assert first[i] in first && rest[k] in rest;
      var t :| 0 <= t < |ms[1..]| && ms[1..][t] == y;
      assert ms[t + 1] == y;
    }
  }

  /** A sequence with no row in its window keeps nothing. */
  lemma KeepInWindowNone(js: seq<Joined>)
    requires forall j :: j in js ==> !InWindow(j)
    ensures KeepInWindow(js) == []
  {
  }

  lemma {:induction false} MonthsJoinIncreasing(r: FundInfo, ms: seq<Date>, pts: seq<CurvePoint>)
    requires UniqueCurveKeys(pts) && StrictlyIncreasing(ms)
    ensures var out := KeepInWindow(MonthsJoin(r, ms, pts));
      StrictlyIncreasing(MonthsOfRows(out)) && forall c :: c in out ==> c.monthEnd in ms
  {
    if ms != [] {
      var tail := ms[1..];
      assert StrictlyIncreasing(tail) by {
        forall i, j | 0 <= i < j < |tail| ensures Before(tail[i], tail[j]) {
          assert tail[i] == ms[i + 1] && tail[j] == ms[j + 1];
        }
      }
      MonthsJoinIncreasing(r, tail, pts);
      MonthJoinOnce(r, ms[0], pts);
      var head := MonthJoin(r, Some(ms[0]), pts);
      KeepInWindowConcat(head, MonthsJoin(r, tail, pts));
      var first := KeepInWindow(head);
      var rest := KeepInWindow(MonthsJoin(r, tail, pts));
      MonthsOfRowsConcat(first, rest);
      HeadMonthFirst(first, rest, ms);
      IncreasingConcat(MonthsOfRows(first), MonthsOfRows(rest));
    }
  }

  /** With unique (curve, month-end) keys, the month-ends of one position's rows are
      strictly increasing, so each month-end of its window appears exactly once. */
  lemma PositionMonthsOnce(r: FundInfo, pts: seq<CurvePoint>)
    requires UniqueCurveKeys(pts)
    ensures StrictlyIncreasing(MonthsOfRows(KeepInWindow(RowJoin(r, pts))))
  {
    var ms := MonthsOf(r);
    if ms == [] {
      KeepInWindowNone(RowJoin(r, pts));
    } else {
      MonthsJoinIncreasing(r, ms, pts);
    }
  }

  // ---- calc_monthly_fee ----

  /** One fee cashflow: payment date, type, fund and amount. */
  datatype FeeFlow = FeeFlow(paymentDate: Date, cashflowType: string, fund: string, amount: Option<real>)

  /** A monthly accrual: an annual amount divided by 12. */
  function Monthly(x: Option<real>): (r: Option<real>)
    ensures r.Some? <==> x.Some?
    ensures r.Some? ==> r.value * 12.0 == x.value
  {
    if x.Some? then Some(x.value / 12.0) else None
  }

  function Negated(x: Option<real>): (r: Option<real>)
    ensures r.Some? <==> x.Some?
    ensures r.Some? ==> r.value == -x.value
  {
    if x.Some? then Some(-x.value) else None
  }

  /** `calc_monthly_fee`: first an `interest` row for every curve row, then an
      `undrawn_fee` row for every curve row, each with its row's payment date and fund. */
  function CalcMonthlyFee(rows: seq<CurveRow>): (fees: seq<FeeFlow>)
    ensures |fees| == 2 * |rows|
    ensures forall i :: 0 <= i < |rows| ==>
      fees[i].cashflowType == "interest" && fees[i].fund == rows[i].fund &&
      fees[i].paymentDate == rows[i].paymentDate &&
      fees[i].amount == Monthly(Times(Some(rows[i].financePortion), rows[i].allInRate))
    ensures forall i :: 0 <= i < |rows| ==>
      fees[|rows| + i].cashflowType == "undrawn_fee" && fees[|rows| + i].fund == rows[i].fund &&
      fees[|rows| + i].paymentDate == rows[i].paymentDate &&
      fees[|rows| + i].amount == Negated(Monthly(Times(rows[i].undrawn, rows[i].undrawnFeeRate)))
  {
    var n := |rows|;
    seq(n, i requires 0 <= i < n =>
      FeeFlow(rows[i].paymentDate, "interest", rows[i].fund,
        Monthly(Times(Some(rows[i].financePortion), rows[i].allInRate)))) +
    seq(n, i requires 0 <= i < n =>
      FeeFlow(rows[i].paymentDate, "undrawn_fee", rows[i].fund,
        Negated(Monthly(Times(rows[i].undrawn, rows[i].undrawnFeeRate)))))
  }

  /** Every month of a position emits exactly one interest row and one undrawn-fee
      row: the count of each type equals the number of curve rows. */
  lemma FeeTypesBalanced(rows: seq<CurveRow>)
    ensures var fees := CalcMonthlyFee(rows);
      forall i :: 0 <= i < |fees| ==>
        (fees[i].cashflowType == "interest" <==> i < |rows|) &&
        (fees[i].cashflowType == "undrawn_fee" <==> i >= |rows|)
  {
    var fees := CalcMonthlyFee(rows);
    forall i | 0 <= i < |fees|
      ensures (fees[i].cashflowType == "interest" <==> i < |rows|) &&
        (fees[i].cashflowType == "undrawn_fee" <==> i >= |rows|)
    {
      if i >= |rows| {
        assert fees[|rows| + (i - |rows|)] == fees[i];
      }
    }
  }

  /** Signs: a non-positive finance portion at a non-negative all-in rate gives a
      non-positive interest row, and a non-negative undrawn amount at a non-negative fee
      rate gives a non-positive undrawn-fee row (a negative undrawn amount, possible
      on a later draw, gives a non-negative one). */
  lemma FeeSigns(c: CurveRow)
    ensures var fees := CalcMonthlyFee([c]);
      (c.financePortion <= 0.0 && c.allInRate.Some? && c.allInRate.value >= 0.0 ==> fees[0].amount.value <= 0.0) &&
      (c.undrawn.Some? && c.undrawnFeeRate.Some? && c.undrawnFeeRate.value >= 0.0 ==>
        (c.undrawn.value >= 0.0 ==> fees[1].amount.value <= 0.0) &&
        (c.undrawn.value <= 0.0 ==> fees[1].amount.value >= 0.0))
  {
    var fees := CalcMonthlyFee([c]);
    assert [c][0] == c;
    if c.allInRate.Some? && c.financePortion <= 0.0 && c.allInRate.value >= 0.0 {
      NonPositiveProduct(c.financePortion, c.allInRate.value);
    }
    if c.undrawn.Some? && c.undrawnFeeRate.Some? && c.undrawnFeeRate.value >= 0.0 {
      if c.undrawn.value >= 0.0 {
        assert c.undrawn.value * c.undrawnFeeRate.value >= 0.0;
      } else {
        NonPositiveProduct(c.undrawn.value, c.undrawnFeeRate.value);
      }
    }
  }

  lemma NonPositiveProduct(x: real, y: real)
    requires x <= 0.0 && y >= 0.0
    ensures x * y <= 0.0
  {
    assert -(x * y) == (-x) * y;
  }

  /** The fee table as a frame with the columns `payment_date`, `cashflow_type`,
      `fund`, `amount`, ready to be stacked into the master ledger. */
  function FeesFrame(fees: seq<FeeFlow>): (f: Frame)
    ensures f.columns == ["payment_date", "cashflow_type", "fund", "amount"]
    ensures |f.rows| == |fees|
    ensures forall i :: 0 <= i < |fees| ==>
      Cell(f.rows[i], "payment_date") == Day(fees[i].paymentDate) &&
      Cell(f.rows[i], "cashflow_type") == Str(fees[i].cashflowType) &&
      Cell(f.rows[i], "fund") == Str(fees[i].fund) &&
      AsOption(Cell(f.rows[i], "amount")) == fees[i].amount
  {
    Frame(["payment_date", "cashflow_type", "fund", "amount"],
      seq(|fees|, i requires 0 <= i < |fees| =>
        map["payment_date" := Day(fees[i].paymentDate), "cashflow_type" := Str(fees[i].cashflowType),
          "fund" := Str(fees[i].fund), "amount" := OfOption(fees[i].amount)]))
  }

  // ---- run_fund_level_pipeline ----

  /** `run_fund_level_pipeline` without its CSV writes: positions, fund table, curve
      table, fee table. */
  function RunFundLevelPipeline(ledger: Frame, curvedb: Frame, parse: Value -> Option<Date>): Result<seq<FeeFlow>> {
    var ps := CleanDataFund(ledger);
    if !ps.Ok? then KeyError(ps.column)
    else
      var rows := ExpandAndJoinCurve(ReturnFundInfo(ps.value), curvedb, parse);
      if rows.Ok? then Ok(CalcMonthlyFee(rows.value))
      else if rows.KeyError? then KeyError(rows.column)
      else ValueError(rows.column)
  }

  /** No position carries a fund name, a draw date and an exit date, so the group-by
      sees none: an empty ledger, or one whose positions are all still open. */
  predicate NoKeyedPosition(ps: seq<Position>) {
    forall i :: 0 <= i < |ps| ==> !Keyed(ps[i])
  }

  /** The fund table is empty exactly when no position is keyed. */
  lemma EmptyFundTable(ps: seq<Position>)
    ensures ReturnFundInfo(ps) == [] <==> NoKeyedPosition(ps)
  {
    ReturnFundInfoRows(ps);
    var info := ReturnFundInfo(ps);
    if !NoKeyedPosition(ps) {
      var j :| 0 <= j < |ps| && Keyed(ps[j]);
      assert HasKey(ps[j], KeyOfPosition(ps[j]));
      assert KeyOccurs(ps, KeyOfPosition(ps[j]));
    }
    if info != [] {
      assert KeyOccurs(ps, info[0].key);
    }
  }

  /** Some position with a draw date and an exit date belongs to the fund. */
  predicate DrawnFund(ps: seq<Position>, fund: string) {
    exists p :: p in ps && Keyed(p) && p.fund == Str(fund)
  }

  /** Every row of the fund table comes from a position with that fund, a draw date
      and an exit date. */
  lemma FundOfInfo(ps: seq<Position>, q: FundInfo)
    requires q in ReturnFundInfo(ps)
    ensures DrawnFund(ps, q.key.fund)
  {
    ReturnFundInfoRows(ps);
    var info := ReturnFundInfo(ps);
    var t :| 0 <= t < |info| && info[t] == q;
    assert KeyOccurs(ps, q.key);
    var j :| 0 <= j < |ps| && HasKey(ps[j], q.key);
    assert ps[j] in ps;
  }

  /** Every row of the curve table belongs to the fund of a position with both a draw
      date and an exit date. */
  lemma CurveRowFunds(ps: seq<Position>, pts: seq<CurvePoint>)
    ensures forall c :: c in KeepInWindow(ExplodeJoin(ReturnFundInfo(ps), pts)) ==> DrawnFund(ps, c.fund)
  {
    var info := ReturnFundInfo(ps);
    var js := ExplodeJoin(info, pts);
    forall c | c in KeepInWindow(js) ensures DrawnFund(ps, c.fund) {
      var j :| j in js && InWindow(j) && c == CurveRowOf(j);
      FundOfInfo(ps, j.info);
    }
  }

  /** The pipeline raises `KeyError` exactly when the ledger lacks a column it reads,
      or when some position is keyed and the curve table lacks a column it reads; it
      raises `ValueError` exactly when the ledger has its columns and either no
      position is keyed (the fund table is empty) or the curve table has both `asof`
      and `month_end`. */
  lemma PipelineErrors(ledger: Frame, curvedb: Frame, parse: Value -> Option<Date>)
    ensures var r := RunFundLevelPipeline(ledger, curvedb, parse);
      var missing := exists c :: c in LedgerColumns && c !in ledger.columns;
      var keyed := !missing && !NoKeyedPosition(CleanDataFund(ledger).value);
      (r.KeyError? <==> missing || (keyed && CurveColumnMissing(curvedb.columns))) &&
      (r.ValueError? <==> !missing && (!keyed || CurveDateClash(curvedb.columns)))
  {
    if CleanDataFund(ledger).Ok? {
      EmptyFundTable(CleanDataFund(ledger).value);
    }
  }

  /** The fund of some curve row. */
  predicate RowFund(rows: seq<CurveRow>, fund: string) {
    exists c :: c in rows && c.fund == fund
  }

  /** Each fee row carries the fund of a curve row. */
  lemma FeeFunds(rows: seq<CurveRow>)
    ensures forall i :: 0 <= i < |CalcMonthlyFee(rows)| ==> RowFund(rows, CalcMonthlyFee(rows)[i].fund)
  {
    var fees := CalcMonthlyFee(rows);
    forall i | 0 <= i < |fees| ensures RowFund(rows, fees[i].fund) {
      if i < |rows| {
        assert rows[i] in rows;
      } else {
        var k := i - |rows|;
        assert fees[|rows| + k] == fees[i];
        assert rows[k] in rows;
      }
    }
  }

  /** The fee table of a pipeline that succeeds. */
  lemma PipelineOk(ledger: Frame, curvedb: Frame, parse: Value -> Option<Date>) returns (ps: seq<Position>, pts: seq<CurvePoint>)
    requires RunFundLevelPipeline(ledger, curvedb, parse).Ok?
    ensures CleanDataFund(ledger) == Ok(ps)
    ensures CurvePoints(curvedb, parse) == Ok(pts)
    ensures RunFundLevelPipeline(ledger, curvedb, parse).value ==
      CalcMonthlyFee(KeepInWindow(ExplodeJoin(ReturnFundInfo(ps), pts)))
  {
    ps := CleanDataFund(ledger).value;
    pts := CurvePoints(curvedb, parse).value;
  }

  /** Fees of curve rows that all belong to drawn funds belong to drawn funds. */
  lemma FeesOfDrawnRows(rows: seq<CurveRow>, ps: seq<Position>)
    requires forall c :: c in rows ==> DrawnFund(ps, c.fund)
    ensures forall i :: 0 <= i < |CalcMonthlyFee(rows)| ==> DrawnFund(ps, CalcMonthlyFee(rows)[i].fund)
  {
    var fees := CalcMonthlyFee(rows);
    forall i | 0 <= i < |fees| ensures DrawnFund(ps, fees[i].fund) {
      var k := if i < |rows| then i else i - |rows|;
      assert fees[i].fund == rows[k].fund by {
        if i >= |rows| {
          assert fees[|rows| + k] == fees[i];
        }
      }
      assert rows[k] in rows;
    }
  }

  /** Each fee of the positions ps against the curve points pts belongs to the fund
      of a position with a draw date and an exit date. */
  lemma FeesOfPositions(ps: seq<Position>, pts: seq<CurvePoint>)
    ensures var fees := CalcMonthlyFee(KeepInWindow(ExplodeJoin(ReturnFundInfo(ps), pts)));
      forall i :: 0 <= i < |fees| ==> DrawnFund(ps, fees[i].fund)
  {
    CurveRowFunds(ps, pts);
    FeesOfDrawnRows(KeepInWindow(ExplodeJoin(ReturnFundInfo(ps), pts)), ps);
  }

  /** Every fee row of a pipeline that succeeds belongs to the fund of a contribution
      that has both a draw date and an exit date: open positions produce no fees. */
  lemma PipelineFees(ledger: Frame, curvedb: Frame, parse: Value -> Option<Date>)
    ensures var r := RunFundLevelPipeline(ledger, curvedb, parse);
      r.Ok? ==> forall i :: 0 <= i < |r.value| ==> DrawnFund(CleanDataFund(ledger).value, r.value[i].fund)
  {
    if RunFundLevelPipeline(ledger, curvedb, parse).Ok? {
      var ps, pts := PipelineOk(ledger, curvedb, parse);
      FeesOfPositions(ps, pts);
    }
  }
}
