/** Level aggregation of the cashflow ledger: paid-in capital and distributions per
    group of the level columns, their outer join with zero fill and MOIC, and one
    XIRR per distinct value of the first level column, computed over that entity's
    cashflows in date order and joined back on that column. The Newton root finder
    behind XIRR is a parameter. */
module Metrics {
  import opened Calendar
  import opened Frames
  import opened Joins

  /** Which cashflows a partial aggregate sums. */
  datatype Side = Outflows | Inflows

  /** What one row adds to a side: the magnitude of an amount below zero for paid-in,
      an amount above zero for distributions. A zero or missing amount adds to
      neither. */
  function Part(side: Side, r: Row): (p: Option<real>)
    ensures p.Some? ==> p.value > 0.0
    ensures side == Outflows ==> (p.Some? <==> Cell(r, "amount").Num? && Cell(r, "amount").x < 0.0)
    ensures side == Inflows ==> (p.Some? <==> Cell(r, "amount").Num? && Cell(r, "amount").x > 0.0)
    ensures p.Some? && side == Outflows ==> p.value == -Cell(r, "amount").x
    ensures p.Some? && side == Inflows ==> p.value == Cell(r, "amount").x
  {
    var a := Cell(r, "amount");
    if side == Outflows && a.Num? && a.x < 0.0 then Some(-a.x)
    else if side == Inflows && a.Num? && a.x > 0.0 then Some(a.x)
    else None
  }

  predicate NullFree(k: seq<Value>) {
    forall i :: 0 <= i < |k| ==> !k[i].Null?
  }

  /** A row that the side's group-by sees: it adds to the side and its key has no
      missing value (group-by drops null keys). */
  predicate Counted(side: Side, level: seq<string>, r: Row) {
    Part(side, r).Some? && NullFree(KeyOf(r, level))
  }

  predicate Distinct<T(==)>(s: seq<T>) {
    forall i, j :: 0 <= i < j < |s| ==> s[i] != s[j]
  }

  /** The sum over the rows of one group of what they add to the side. */
  function GroupSum(rows: seq<Row>, level: seq<string>, key: seq<Value>, side: Side): (s: real)
    ensures s >= 0.0
    ensures (exists i :: 0 <= i < |rows| && Part(side, rows[i]).Some? && KeyOf(rows[i], level) == key) ==> s > 0.0
  {
    if rows == [] then 0.0
    else
      var here := if Part(side, rows[0]).Some? && KeyOf(rows[0], level) == key then Part(side, rows[0]).value else 0.0;
      var rest := GroupSum(rows[1..], level, key, side);
      assert (exists i :: 0 <= i < |rows| && Part(side, rows[i]).Some? && KeyOf(rows[i], level) == key) ==>
        here > 0.0 || exists i :: 0 <= i < |rows[1..]| && Part(side, rows[1..][i]).Some? && KeyOf(rows[1..][i], level) == key
      by {
        if exists i :: 0 <= i < |rows| && Part(side, rows[i]).Some? && KeyOf(rows[i], level) == key {
          var i :| 0 <= i < |rows| && Part(side, rows[i]).Some? && KeyOf(rows[i], level) == key;
          if i > 0 {
            assert rows[1..][i - 1] == rows[i];
          }
        }
      }
      here + rest
  }

  /** Some row that the side's group-by sees has key k. */
  ghost predicate Occurs(side: Side, level: seq<string>, rows: seq<Row>, k: seq<Value>) {
    exists i :: 0 <= i < |rows| && Counted(side, level, rows[i]) && KeyOf(rows[i], level) == k
  }

  lemma OccursCons(side: Side, level: seq<string>, rows: seq<Row>, k: seq<Value>)
    requires rows != []
    ensures Occurs(side, level, rows, k) <==>
      (Counted(side, level, rows[0]) && KeyOf(rows[0], level) == k) || Occurs(side, level, rows[1..], k)
  {
    if Occurs(side, level, rows, k) {
      var i :| 0 <= i < |rows| && Counted(side, level, rows[i]) && KeyOf(rows[i], level) == k;
      if i > 0 {
        assert rows[1..][i - 1] == rows[i];
      }
    }
    if Occurs(side, level, rows[1..], k) {
      var i :| 0 <= i < |rows[1..]| && Counted(side, level, rows[1..][i]) && KeyOf(rows[1..][i], level) == k;
      assert rows[1..][i] == rows[i + 1];
    }
  }

  /** The group keys a side sees, in order of first appearance after `seen`. */
  function GroupKeys(rows: seq<Row>, level: seq<string>, side: Side, seen: seq<seq<Value>>): (keys: seq<seq<Value>>)
    requires Distinct(seen)
    ensures Distinct(keys)
    ensures forall k :: k in keys <==> k in seen || Occurs(side, level, rows, k)
  {
    if rows == [] then seen
    else
      var k := KeyOf(rows[0], level);
      var next := if Counted(side, level, rows[0]) && k !in seen then seen + [k] else seen;
      var keys := GroupKeys(rows[1..], level, side, next);
      assert forall k' :: Occurs(side, level, rows, k') <==>
        (Counted(side, level, rows[0]) && k == k') || Occurs(side, level, rows[1..], k')
      by {
        forall k' ensures Occurs(side, level, rows, k') <==>
          (Counted(side, level, rows[0]) && k == k') || Occurs(side, level, rows[1..], k')
        {
          OccursCons(side, level, rows, k');
        }
      }
      keys
  }

  datatype Group = Group(key: seq<Value>, total: real)

  /** A partial aggregate: `Skipped` is the column-less frame returned when a needed
      column is absent; `Groups` holds one total per group (possibly none). */
  datatype Partial = Skipped | Groups(groups: seq<Group>)

  predicate HasColumns(f: Frame, level: seq<string>) {
    "amount" in f.columns && forall c :: c in level ==> c in f.columns
  }

  function KeysOf(groups: seq<Group>): (ks: seq<seq<Value>>)
    ensures |ks| == |groups|
    ensures forall i :: 0 <= i < |groups| ==> ks[i] == groups[i].key
  {
    seq(|groups|, i requires 0 <= i < |groups| => groups[i].key)
  }

  /** `_pic_calc` (Outflows) and `_dis_calc` (Inflows). */
  function SideCalc(side: Side, level: seq<string>, f: Frame): (p: Partial)
    ensures p.Skipped? <==> !HasColumns(f, level)
    ensures p.Groups? ==> Distinct(KeysOf(p.groups))
    ensures p.Groups? ==> forall g :: g in p.groups ==>
      NullFree(g.key) && |g.key| == |level| && g.total > 0.0 && g.total == GroupSum(f.rows, level, g.key, side)
    ensures p.Groups? ==> forall k :: k in KeysOf(p.groups) <==> Occurs(side, level, f.rows, k)
  {
    if !HasColumns(f, level) then Skipped
    else
      var keys := GroupKeys(f.rows, level, side, []);
      var groups := seq(|keys|, i requires 0 <= i < |keys| => Group(keys[i], GroupSum(f.rows, level, keys[i], side)));
      assert KeysOf(groups) == keys;
      assert forall g :: g in groups ==>
        NullFree(g.key) && |g.key| == |level| && g.total > 0.0 && g.total == GroupSum(f.rows, level, g.key, side)
      by {
        forall g | g in groups
          ensures NullFree(g.key) && |g.key| == |level| && g.total > 0.0 && g.total == GroupSum(f.rows, level, g.key, side)
        {
          assert g.key in keys;
          var i :| 0 <= i < |f.rows| && Counted(side, level, f.rows[i]) && KeyOf(f.rows[i], level) == g.key;
        }
      }
      Groups(groups)
  }

  function PicCalc(level: seq<string>, f: Frame): Partial {
    SideCalc(Outflows, level, f)
  }

  function DisCalc(level: seq<string>, f: Frame): Partial {
    SideCalc(Inflows, level, f)
  }

  /** Paid-in is reported as a positive magnitude: each group's paid-in is the sum of
      -amount over its rows with amount < 0, and exceeds zero. */
  lemma PaidInIsMagnitude(level: seq<string>, f: Frame, g: Group)
    requires PicCalc(level, f).Groups? && g in PicCalc(level, f).groups
    ensures g.total > 0.0
    ensures g.total == GroupSum(f.rows, level, g.key, Outflows)
    ensures Occurs(Outflows, level, f.rows, g.key)
  {
    assert g.key in KeysOf(PicCalc(level, f).groups);
  }

  /** The total of the group with key k, or 0 when there is none (`fillna(0)`). */
  function TotalOr0(groups: seq<Group>, k: seq<Value>): (t: real)
    ensures (forall g :: g in groups ==> g.total > 0.0) ==> (t > 0.0 <==> k in KeysOf(groups))
    ensures (forall g :: g in groups ==> g.total > 0.0) ==> t >= 0.0
  {
    if groups == [] then 0.0
    else if groups[0].key == k then groups[0].total
    else
      var t := TotalOr0(groups[1..], k);
      assert KeysOf(groups) == [groups[0].key] + KeysOf(groups[1..]);
      t
  }

  /** IEEE division of floats, as `distr / paid_in` computes it. */
  function Divide(a: real, b: real): (v: Value)
    ensures b != 0.0 ==> v == Num(a / b)
    ensures b == 0.0 && a > 0.0 ==> v == Inf(false)
    ensures b == 0.0 && a == 0.0 ==> v.Null?
  {
    if b != 0.0 then Num(a / b)
    else if a > 0.0 then Inf(false)
    else if a < 0.0 then Inf(true)
    else Null
  }

  /** One row of the outer join of paid-in and distributions, after `fillna(0)`. */
  datatype Totals = Totals(key: seq<Value>, paidIn: real, distr: real)

  /** The groups whose key is not among `keys`, in order. */
  function Unmatched(groups: seq<Group>, keys: seq<seq<Value>>): (r: seq<Group>)
    ensures forall g :: g in r <==> g in groups && g.key !in keys
    ensures Distinct(KeysOf(groups)) ==> Distinct(KeysOf(r))
  {
    if groups == [] then []
    else
      var rest := Unmatched(groups[1..], keys);
      if groups[0].key in keys then
        assert Distinct(KeysOf(groups)) ==> Distinct(KeysOf(rest)) by {
          if Distinct(KeysOf(groups)) {
            DistinctKeysTail(groups);
          }
        }
        rest
      else
        var r := [groups[0]] + rest;
        assert Distinct(KeysOf(groups)) ==> Distinct(KeysOf(r)) by {
          if Distinct(KeysOf(groups)) {
            DistinctKeysTail(groups);
            DistinctKeysCons(groups[0], rest);
          }
        }
        r
  }

  /** The tail of a list of groups with distinct keys has distinct keys, none of them
      the head's. */
  lemma DistinctKeysTail(groups: seq<Group>)
    requires groups != [] && Distinct(KeysOf(groups))
    ensures Distinct(KeysOf(groups[1..]))
    ensures forall g :: g in groups[1..] ==> g.key != groups[0].key
  {
    var tail := groups[1..];
    forall i, j | 0 <= i < j < |tail| ensures KeysOf(tail)[i] != KeysOf(tail)[j] {
      assert KeysOf(groups)[i + 1] == tail[i].key && KeysOf(groups)[j + 1] == tail[j].key;
    }
    forall g | g in tail ensures g.key != groups[0].key {
      var m :| 0 <= m < |tail| && tail[m] == g;
      assert KeysOf(groups)[m + 1] == g.key && KeysOf(groups)[0] == groups[0].key;
    }
  }

  /** Prepending a group whose key is new keeps the keys distinct. */
  lemma DistinctKeysCons(g: Group, rest: seq<Group>)
    requires Distinct(KeysOf(rest))
    requires forall h :: h in rest ==> h.key != g.key
    ensures Distinct(KeysOf([g] + rest))
  {
    var r := [g] + rest;
    forall i, j | 0 <= i < j < |r| ensures KeysOf(r)[i] != KeysOf(r)[j] {
      assert r[j] == rest[j - 1] && rest[j - 1] in rest;
      if i > 0 {
        assert KeysOf(rest)[i - 1] == r[i].key && KeysOf(rest)[j - 1] == r[j].key;
      }
    }
  }

  function TotalsKeys(ts: seq<Totals>): (ks: seq<seq<Value>>)
    ensures |ks| == |ts|
    ensures forall i :: 0 <= i < |ts| ==> ks[i] == ts[i].key
  {
    seq(|ts|, i requires 0 <= i < |ts| => ts[i].key)
  }

  /** `pd.merge(pic_df, dis_df, on=level, how='outer')` then `fillna(0)`. Rows come in
      the order of the paid-in keys, then the distribution-only keys. */
  function OuterJoinTotals(pic: seq<Group>, dis: seq<Group>): seq<Totals> {
    PaidInRows(pic, dis) + DistrOnlyRows(Unmatched(dis, KeysOf(pic)))
  }

  function PaidInRows(pic: seq<Group>, dis: seq<Group>): (ts: seq<Totals>)
    ensures |ts| == |pic|
    ensures forall i :: 0 <= i < |pic| ==> ts[i] == Totals(pic[i].key, pic[i].total, TotalOr0(dis, pic[i].key))
  {
    seq(|pic|, i requires 0 <= i < |pic| => Totals(pic[i].key, pic[i].total, TotalOr0(dis, pic[i].key)))
  }

  function DistrOnlyRows(disOnly: seq<Group>): (ts: seq<Totals>)
    ensures |ts| == |disOnly|
    ensures forall i :: 0 <= i < |disOnly| ==> ts[i] == Totals(disOnly[i].key, 0.0, disOnly[i].total)
  {
    seq(|disOnly|, i requires 0 <= i < |disOnly| => Totals(disOnly[i].key, 0.0, disOnly[i].total))
  }

  /** The outer join has one row per key: no key twice. */
  lemma OuterJoinDistinct(pic: seq<Group>, dis: seq<Group>)
    requires Distinct(KeysOf(pic)) && Distinct(KeysOf(dis))
    ensures Distinct(TotalsKeys(OuterJoinTotals(pic, dis)))
  {
    var disOnly := Unmatched(dis, KeysOf(pic));
    var a := PaidInRows(pic, dis);
    var b := DistrOnlyRows(disOnly);
    var ts := a + b;
    forall i, j | 0 <= i < j < |ts| ensures TotalsKeys(ts)[i] != TotalsKeys(ts)[j] {
      if j < |pic| {
        assert KeysOf(pic)[i] != KeysOf(pic)[j];
      } else if i >= |pic| {
        assert KeysOf(disOnly)[i - |pic|] != KeysOf(disOnly)[j - |pic|];
      } else {
        assert disOnly[j - |pic|] in disOnly;
        assert KeysOf(pic)[i] == ts[i].key;
      }
    }
  }

  /** ... and a row for every key of either side, and no other. */
  lemma OuterJoinKeys(pic: seq<Group>, dis: seq<Group>, k: seq<Value>)
    ensures k in TotalsKeys(OuterJoinTotals(pic, dis)) <==> k in KeysOf(pic) || k in KeysOf(dis)
  {
    if k in KeysOf(pic) || k in KeysOf(dis) {
      OuterJoinHasKey(pic, dis, k);
    }
    if k in TotalsKeys(OuterJoinTotals(pic, dis)) {
      OuterJoinKeyFrom(pic, dis, k);
    }
  }

  lemma OuterJoinHasKey(pic: seq<Group>, dis: seq<Group>, k: seq<Value>)
    requires k in KeysOf(pic) || k in KeysOf(dis)
    ensures k in TotalsKeys(OuterJoinTotals(pic, dis))
  {
    var a := PaidInRows(pic, dis);
    var b := DistrOnlyRows(Unmatched(dis, KeysOf(pic)));
    var ts := a + b;
    if k in KeysOf(pic) {
      var i := PaidInIndex(pic, dis, k);
      assert ts[i] == a[i];
      assert TotalsKeys(ts)[i] == k;
    } else {
      var j := DistrOnlyIndex(pic, dis, k);
      assert ts[|a| + j] == b[j];
      assert TotalsKeys(ts)[|a| + j] == k;
    }
  }

  lemma PaidInIndex(pic: seq<Group>, dis: seq<Group>, k: seq<Value>) returns (i: nat)
    requires k in KeysOf(pic)
    ensures i < |pic| && PaidInRows(pic, dis)[i].key == k
  {
    i :| 0 <= i < |pic| && KeysOf(pic)[i] == k;
  }

  lemma DistrOnlyIndex(pic: seq<Group>, dis: seq<Group>, k: seq<Value>) returns (j: nat)
    requires k !in KeysOf(pic) && k in KeysOf(dis)
    ensures j < |Unmatched(dis, KeysOf(pic))| && DistrOnlyRows(Unmatched(dis, KeysOf(pic)))[j].key == k
  {
    var disOnly := Unmatched(dis, KeysOf(pic));
    var i :| 0 <= i < |dis| && KeysOf(dis)[i] == k;
    assert dis[i] in disOnly;
    j :| 0 <= j < |disOnly| && disOnly[j] == dis[i];
  }

  lemma OuterJoinKeyFrom(pic: seq<Group>, dis: seq<Group>, k: seq<Value>)
    requires k in TotalsKeys(OuterJoinTotals(pic, dis))
    ensures k in KeysOf(pic) || k in KeysOf(dis)
  {
    var disOnly := Unmatched(dis, KeysOf(pic));
    var a := PaidInRows(pic, dis);
    var b := DistrOnlyRows(disOnly);
    var ts := a + b;
    var i :| 0 <= i < |ts| && TotalsKeys(ts)[i] == k;
    if i < |a| {
      assert ts[i] == a[i];
      assert KeysOf(pic)[i] == k;
    } else {
      assert ts[i] == b[i - |a|];
      assert disOnly[i - |pic|] in dis;
      var j :| 0 <= j < |dis| && dis[j] == disOnly[i - |pic|];
      assert KeysOf(dis)[j] == k;
    }
  }

  /** ... carrying that key's paid-in and distributions, 0 where a side has none. */
  lemma OuterJoinValues(pic: seq<Group>, dis: seq<Group>, t: Totals)
    requires Distinct(KeysOf(pic)) && Distinct(KeysOf(dis))
    requires t in OuterJoinTotals(pic, dis)
    ensures t.paidIn == TotalOr0(pic, t.key) && t.distr == TotalOr0(dis, t.key)
  {
    var disOnly := Unmatched(dis, KeysOf(pic));
    var a := PaidInRows(pic, dis);
    var b := DistrOnlyRows(disOnly);
    assert t in a || t in b;
    if t in a {
      var i :| 0 <= i < |a| && a[i] == t;
      assert pic[i] in pic;
      TotalOr0Of(pic, pic[i]);
    } else {
      var i :| 0 <= i < |b| && b[i] == t;
      var g := disOnly[i];
      assert g in dis && g.key !in KeysOf(pic);
      TotalOr0Of(dis, g);
      forall h | h in pic ensures h.key != g.key {
        var m :| 0 <= m < |pic| && pic[m] == h;
        assert KeysOf(pic)[m] == h.key;
      }
      TotalOr0Absent(pic, g.key);
    }
  }

  /** With distinct keys, the lookup finds the group itself. */
  lemma {:induction false} TotalOr0Of(groups: seq<Group>, g: Group)
    requires Distinct(KeysOf(groups)) && g in groups
    ensures TotalOr0(groups, g.key) == g.total
  {
    if groups[0] != g {
      var m :| 0 <= m < |groups| && groups[m] == g;
      assert KeysOf(groups)[0] != KeysOf(groups)[m];
      assert g in groups[1..];
      assert Distinct(KeysOf(groups[1..])) by {
        forall i, j | 0 <= i < j < |groups[1..]| ensures KeysOf(groups[1..])[i] != KeysOf(groups[1..])[j] {
          assert KeysOf(groups)[i + 1] != KeysOf(groups)[j + 1];
        }
      }
      TotalOr0Of(groups[1..], g);
    }
  }

  lemma {:induction false} TotalOr0Absent(groups: seq<Group>, k: seq<Value>)
    requires forall g :: g in groups ==> g.key != k
    ensures TotalOr0(groups, k) == 0.0
  {
    if groups != [] {
      TotalOr0Absent(groups[1..], k);
    }
  }

  /** `metrics_df['MOIC'] = distr / paid_in`. */
  function Moic(t: Totals): Value {
    Divide(t.distr, t.paidIn)
  }

  /** Every row of the joined totals carries something: MOIC is distributions over
      paid-in where capital was paid in, and +inf for a group with distributions
      only; it is never NaN. */
  lemma MoicOfJoinedTotals(pic: seq<Group>, dis: seq<Group>, t: Totals)
    requires Distinct(KeysOf(pic)) && Distinct(KeysOf(dis))
    requires forall g :: g in pic ==> g.total > 0.0
    requires forall g :: g in dis ==> g.total > 0.0
    requires t in OuterJoinTotals(pic, dis)
    ensures t.paidIn >= 0.0 && t.distr >= 0.0
    ensures t.paidIn > 0.0 ==> Moic(t) == Num(t.distr / t.paidIn)
    ensures t.paidIn == 0.0 ==> t.distr > 0.0 && Moic(t) == Inf(false)
  {
    var ts := OuterJoinTotals(pic, dis);
    var i :| 0 <= i < |ts| && ts[i] == t;
    assert TotalsKeys(ts)[i] == t.key;
    OuterJoinValues(pic, dis, t);
    OuterJoinKeys(pic, dis, t.key);
  }

  /** `mdb[level[0]].dropna().unique()`: the distinct non-missing values of a column, in
      order of first appearance after `seen`. */
  function Entities(rows: seq<Row>, col: string, seen: seq<Value>): (es: seq<Value>)
    requires Distinct(seen)
    ensures Distinct(es)
    ensures forall e :: e in es ==> e in seen || !e.Null?
    ensures forall e :: e in es <==> e in seen || (!e.Null? && HasValue(rows, col, e))
  {
    if rows == [] then seen
    else
      var v := Cell(rows[0], col);
      var next := if !v.Null? && v !in seen then seen + [v] else seen;
      var es := Entities(rows[1..], col, next);
      assert forall e :: HasValue(rows, col, e) <==> v == e || HasValue(rows[1..], col, e) by {
        forall e ensures HasValue(rows, col, e) <==> v == e || HasValue(rows[1..], col, e) {
          HasValueCons(rows, col, e);
        }
      }
      es
  }

  /** Some row holds e in column col. */
  ghost predicate HasValue(rows: seq<Row>, col: string, e: Value) {
    exists i :: 0 <= i < |rows| && Cell(rows[i], col) == e
  }

  lemma HasValueCons(rows: seq<Row>, col: string, e: Value)
    requires rows != []
    ensures HasValue(rows, col, e) <==> Cell(rows[0], col) == e || HasValue(rows[1..], col, e)
  {
    if HasValue(rows, col, e) {
      var i :| 0 <= i < |rows| && Cell(rows[i], col) == e;
      if i > 0 {
        assert rows[1..][i - 1] == rows[i];
      }
    }
    if HasValue(rows[1..], col, e) {
      var i :| 0 <= i < |rows[1..]| && Cell(rows[1..][i], col) == e;
      assert rows[1..][i] == rows[i + 1];
    }
  }

  /** `sort_values('asof')` order: dates ascending, missing dates last. */
  predicate AsofOrder(a: Row, b: Row) {
    var x := Cell(a, "asof");
    var y := Cell(b, "asof");
    if !x.Day? then !y.Day? else !y.Day? || OnOrBefore(x.d, y.d)
  }

  predicate SortedByAsof(rows: seq<Row>) {
    forall i, j :: 0 <= i < j < |rows| ==> AsofOrder(rows[i], rows[j])
  }

  /** The order is total: of two rows, one comes first. */
  lemma AsofOrderTotal(a: Row, b: Row)
    ensures AsofOrder(a, b) || AsofOrder(b, a)
  {
  }

  lemma AsofOrderTransitive(a: Row, b: Row, c: Row)
    requires AsofOrder(a, b) && AsofOrder(b, c)
    ensures AsofOrder(a, c)
  {
  }

  lemma PrependSorted(x: Row, s: seq<Row>)
    requires SortedByAsof(s)
    requires forall y :: y in s ==> AsofOrder(x, y)
    ensures SortedByAsof([x] + s)
  {
    var out := [x] + s;
    forall i, j | 0 <= i < j < |out| ensures AsofOrder(out[i], out[j]) {
      assert out[j] == s[j - 1];
      if i > 0 {
        assert out[i] == s[i - 1];
      }
    }
  }

  /** Inserts r before the first row it may precede. */
  function InsertByAsof(r: Row, rows: seq<Row>): seq<Row> {
    if rows == [] then [r]
    else if AsofOrder(r, rows[0]) then [r] + rows
    else [rows[0]] + InsertByAsof(r, rows[1..])
  }

  /** The entity's rows ordered by `asof`, missing dates last; equal dates keep their
      order. */
  function SortByAsof(rows: seq<Row>): seq<Row> {
    if rows == [] then [] else InsertByAsof(rows[0], SortByAsof(rows[1..]))
  }

  lemma {:induction false} InsertByAsofPermutes(r: Row, rows: seq<Row>)
    ensures multiset(InsertByAsof(r, rows)) == multiset(rows) + multiset{r}
  {
    if rows != [] && !AsofOrder(r, rows[0]) {
      InsertByAsofPermutes(r, rows[1..]);
      assert rows == [rows[0]] + rows[1..];
    }
  }

  lemma {:induction false} InsertByAsofSorted(r: Row, rows: seq<Row>)
    requires SortedByAsof(rows)
    ensures SortedByAsof(InsertByAsof(r, rows))
  {
    if rows == [] {
    } else if AsofOrder(r, rows[0]) {
      forall y | y in rows ensures AsofOrder(r, y) {
        var j :| 0 <= j < |rows| && rows[j] == y;
        if j > 0 {
          assert AsofOrder(rows[0], rows[j]);
          AsofOrderTransitive(r, rows[0], y);
        }
      }
      PrependSorted(r, rows);
    } else {
      var rest := InsertByAsof(r, rows[1..]);
      InsertByAsofSorted(r, rows[1..]);
      InsertByAsofPermutes(r, rows[1..]);
      AsofOrderTotal(r, rows[0]);
      forall y | y in rest ensures AsofOrder(rows[0], y) {
        assert y in multiset(rest);
        if y != r {
          assert y in multiset(rows[1..]);
          var j :| 0 <= j < |rows[1..]| && rows[1..][j] == y;
          assert AsofOrder(rows[0], rows[j + 1]);
        }
      }
      PrependSorted(rows[0], rest);
    }
  }

  /** `sort_values('asof')` returns the entity's rows, each as often as before, in
      `asof` order with missing dates last. */
  lemma {:induction false} SortByAsofSpec(rows: seq<Row>)
    ensures SortedByAsof(SortByAsof(rows))
    ensures multiset(SortByAsof(rows)) == multiset(rows)
  {
    if rows != [] {
      SortByAsofSpec(rows[1..]);
      InsertByAsofSorted(rows[0], SortByAsof(rows[1..]));
      InsertByAsofPermutes(rows[0], SortByAsof(rows[1..]));
      assert rows == [rows[0]] + rows[1..];
    }
  }

  /** The Newton root finder behind `xirr`, given its starting guess, the cashflows
      and their dates; `None` stands for the exception it raises when it does not
      converge. */
  type Solver = (real, seq<Option<real>>, seq<Option<Date>>) -> Option<real>

  /** The float sum of the cashflows; NaN (None) when one of them is NaN. */
  function SumFlows(flows: seq<Option<real>>): (s: Option<real>)
    ensures s.Some? <==> forall i :: 0 <= i < |flows| ==> flows[i].Some?
  {
    if flows == [] then Some(0.0)
    else
      var rest := SumFlows(flows[1..]);
      assert (forall i :: 0 <= i < |flows| ==> flows[i].Some?) <==>
        flows[0].Some? && forall i :: 0 <= i < |flows[1..]| ==> flows[1..][i].Some?
      by {
        if forall i :: 0 <= i < |flows[1..]| ==> flows[1..][i].Some? {
          forall i | 1 <= i < |flows| ensures flows[i].Some? {
            assert flows[1..][i - 1] == flows[i];
          }
        }
      }
      if flows[0].Some? && rest.Some? then Some(flows[0].value + rest.value) else None
  }

  /** `x0 = -0.1 if sum(cashflows) < 0 else 0.1`; a NaN sum compares false. */
  function Seed(flows: seq<Option<real>>): (x0: real)
    ensures x0 == -0.1 <==> SumFlows(flows).Some? && SumFlows(flows).value < 0.0
    ensures x0 == 0.1 || x0 == -0.1
  {
    var s := SumFlows(flows);
    if s.Some? && s.value < 0.0 then -0.1 else 0.1
  }

  predicate HasInflow(flows: seq<Option<real>>) {
    exists i :: 0 <= i < |flows| && flows[i].Some? && flows[i].value > 0.0
  }

  predicate HasOutflow(flows: seq<Option<real>>) {
    exists i :: 0 <= i < |flows| && flows[i].Some? && flows[i].value < 0.0
  }

  /** `xirr`: no rate (NaN) for mismatched lengths or cashflows that do not change
      sign; otherwise whatever the root finder returns from the seed, NaN if it
      raises. */
  function Xirr(flows: seq<Option<real>>, dates: seq<Option<Date>>, solve: Solver): (r: Option<real>)
    ensures |flows| != |dates| ==> r.None?
    ensures !HasInflow(flows) || !HasOutflow(flows) ==> r.None?
    ensures |flows| == |dates| && HasInflow(flows) && HasOutflow(flows) ==> r == solve(Seed(flows), flows, dates)
  {
    if |flows| != |dates| then None
    else if !HasInflow(flows) || !HasOutflow(flows) then None
    else solve(Seed(flows), flows, dates)
  }

  /** `mdb[mdb[level[0]] == e]`: the rows of one entity, in ledger order. */
  function EntityRows(rows: seq<Row>, col: string, e: Value): (out: seq<Row>)
    ensures forall r :: r in out <==> r in rows && Cell(r, col) == e
  {
    Filter(rows, (r: Row) => Cell(r, col) == e)
  }

  /** `cdb['amount'].tolist()`, NaN as None. */
  function CashFlows(rows: seq<Row>): (flows: seq<Option<real>>)
    ensures |flows| == |rows|
    ensures forall i :: 0 <= i < |rows| ==> flows[i] == AsOption(Cell(rows[i], "amount"))
  {
    seq(|rows|, i requires 0 <= i < |rows| => AsOption(Cell(rows[i], "amount")))
  }

  /** `cdb['asof'].tolist()`, NaT as None. */
  function AsofDates(rows: seq<Row>): (dates: seq<Option<Date>>)
    ensures |dates| == |rows|
    ensures forall i :: 0 <= i < |rows| ==> dates[i] == AsDate(Cell(rows[i], "asof"))
  {
    seq(|rows|, i requires 0 <= i < |rows| => AsDate(Cell(rows[i], "asof")))
  }

  /** The XIRR of one entity: its rows sorted by `asof`, their amounts as cashflows
      and their as-of dates as dates. */
  function EntityXirr(rows: seq<Row>, col: string, e: Value, solve: Solver): Option<real> {
    var sorted := SortByAsof(EntityRows(rows, col, e));
    Xirr(CashFlows(sorted), AsofDates(sorted), solve)
  }

  /** A row of `irr_df`. */
  datatype IrrRow = IrrRow(entity: Value, xirr: Option<real>)

  /** One row of the level's metrics; `paidIn`, `distr` and `moic` are missing on a
      row that only the XIRR side has. */
  datatype MetricsRow = MetricsRow(key: seq<Value>, paidIn: Option<real>, distr: Option<real>, moic: Value, xirr: Option<real>)

  function XirrOf(irr: seq<IrrRow>, e: Value): (x: Option<real>)
    ensures (forall i :: 0 <= i < |irr| ==> irr[i].entity != e) ==> x.None?
  {
    if irr == [] then None
    else if irr[0].entity == e then irr[0].xirr
    else XirrOf(irr[1..], e)
  }

  predicate IsFirstKeyOf(ts: seq<Totals>, e: Value) {
    exists i :: 0 <= i < |ts| && FirstKey(ts[i].key) == e
  }

  /** `pd.merge(metrics_df, irr_df, on=level[0], how='outer')`: every totals row with
      the XIRR of its first key, then every XIRR row no totals row matched, its other
      level columns missing. */
  function JoinXirr(ts: seq<Totals>, irr: seq<IrrRow>, width: nat): (out: seq<MetricsRow>)
    requires width > 0
  {
    var matched := seq(|ts|, i requires 0 <= i < |ts| =>
      MetricsRow(ts[i].key, Some(ts[i].paidIn), Some(ts[i].distr), Moic(ts[i]), XirrOf(irr, FirstKey(ts[i].key))));
    var unmatched := IrrOnly(ts, irr);
    matched + seq(|unmatched|, i requires 0 <= i < |unmatched| =>
      MetricsRow([unmatched[i].entity] + seq(width - 1, _ => Null), None, None, Null, unmatched[i].xirr))
  }

  /** The value of the first level column in a group key. */
  function FirstKey(k: seq<Value>): Value {
    if k == [] then Null else k[0]
  }

  function IrrOnly(ts: seq<Totals>, irr: seq<IrrRow>): (r: seq<IrrRow>)
    ensures forall x :: x in r <==> x in irr && !IsFirstKeyOf(ts, x.entity)
  {
    if irr == [] then []
    else if IsFirstKeyOf(ts, irr[0].entity) then IrrOnly(ts, irr[1..])
    else [irr[0]] + IrrOnly(ts, irr[1..])
  }

  function IrrTable(rows: seq<Row>, col: string, ents: seq<Value>, solve: Solver): (irr: seq<IrrRow>)
    ensures |irr| == |ents|
    ensures forall i :: 0 <= i < |ents| ==> irr[i] == IrrRow(ents[i], EntityXirr(rows, col, ents[i], solve))
  {
    seq(|ents|, i requires 0 <= i < |ents| => IrrRow(ents[i], EntityXirr(rows, col, ents[i], solve)))
  }

  /** `metrics(level, mdb)`: the outer join of paid-in and distributions per group,
      with MOIC, joined on the first level column with one XIRR per entity.
      `KeyError` when `amount` or a level column is missing (the partial frames have
      no columns to merge on), when the first level column has no value at all (the
      XIRR frame has no columns), or when `asof` is missing and there is an entity
      to sort. */
  function MetricsSpec(level: seq<string>, f: Frame, solve: Solver): (res: Result<seq<MetricsRow>>)
    requires |level| > 0
  {
    var totals := Aggregate(level, f);
    if totals.KeyError? then KeyError(level[0])
    else
      var ents := Entities(f.rows, level[0], []);
      if ents == [] then KeyError(level[0])
      else if "asof" !in f.columns then KeyError("asof")
      else Ok(JoinXirr(totals.value, IrrTable(f.rows, level[0], ents, solve), |level|))
  }

  /** `metrics_df` before MOIC: the outer join of the two partial aggregates, or the
      `KeyError` of merging a column-less partial frame on the level. */
  function Aggregate(level: seq<string>, f: Frame): Result<seq<Totals>>
    requires |level| > 0
  {
    var pic := PicCalc(level, f);
    var dis := DisCalc(level, f);
    if pic.Skipped? || dis.Skipped? then KeyError(level[0])
    else Ok(OuterJoinTotals(pic.groups, dis.groups))
  }

  /** A key listed by groups whose keys all have one non-null value per level column
      has that shape too. */
  lemma ListedKeyShape(groups: seq<Group>, level: seq<string>, k: seq<Value>)
    requires forall g :: g in groups ==> NullFree(g.key) && |g.key| == |level|
    requires k in KeysOf(groups)
    ensures |k| == |level| && NullFree(k)
  {
    var j :| 0 <= j < |groups| && KeysOf(groups)[j] == k;
    assert groups[j] in groups;
  }

  /** Every key of the joined totals has one value per level column. */
  lemma TotalsKeyWidth(level: seq<string>, f: Frame)
    requires HasColumns(f, level)
    ensures forall t :: t in OuterJoinTotals(PicCalc(level, f).groups, DisCalc(level, f).groups) ==>
      |t.key| == |level| && NullFree(t.key)
  {
    var pic := PicCalc(level, f).groups;
    var dis := DisCalc(level, f).groups;
    var ts := OuterJoinTotals(pic, dis);
    forall t | t in ts ensures |t.key| == |level| && NullFree(t.key) {
      var i :| 0 <= i < |ts| && ts[i] == t;
      assert TotalsKeys(ts)[i] == t.key;
      OuterJoinKeyFrom(pic, dis, t.key);
      if t.key in KeysOf(pic) {
        ListedKeyShape(pic, level, t.key);
      } else {
        ListedKeyShape(dis, level, t.key);
      }
    }
  }

  /** The loop of `metrics` over the distinct entities: one XIRR per entity, from its
      rows sorted by `asof`. Sorting raises `KeyError` on the first entity when the
      ledger has no `asof` column. */
  method XirrLoop(mdb: Frame, col: string, ents: seq<Value>, solve: Solver) returns (irr: Result<seq<IrrRow>>)
    ensures irr.KeyError? <==> ents != [] && "asof" !in mdb.columns
    ensures !irr.ValueError?
    ensures irr.Ok? ==> irr.value == IrrTable(mdb.rows, col, ents, solve)
  {
    var rows: seq<IrrRow> := [];
    var i := 0;
    while i < |ents|
      invariant 0 <= i <= |ents|
      invariant i > 0 ==> "asof" in mdb.columns
      invariant |rows| == i
      invariant forall j :: 0 <= j < i ==> rows[j] == IrrRow(ents[j], EntityXirr(mdb.rows, col, ents[j], solve))
    {
      if "asof" !in mdb.columns {
        return KeyError("asof");
      }
      var cdb := SortByAsof(EntityRows(mdb.rows, col, ents[i]));
      rows := rows + [IrrRow(ents[i], Xirr(CashFlows(cdb), AsofDates(cdb), solve))];
      i := i + 1;
    }
    irr := Ok(rows);
  }

  /** `metrics` computes its result step by step: the two partial aggregates, their
      join, then one XIRR per distinct entity in a loop, then the final join. */
  method Metrics(level: seq<string>, mdb: Frame, solve: Solver) returns (res: Result<seq<MetricsRow>>)
    requires |level| > 0
    ensures res == MetricsSpec(level, mdb, solve)
  {
    var totals := Aggregate(level, mdb);
    if !totals.Ok? {
      return KeyError(level[0]);
    }
    var col := level[0];
    var ents := Entities(mdb.rows, col, []);
    var irr := XirrLoop(mdb, col, ents, solve);
    if !irr.Ok? {
      return KeyError("asof");
    }
    if irr.value == [] {
      return KeyError(col);
    }
    res := Ok(JoinXirr(totals.value, irr.value, |level|));
  }

  /** A key no counted row has sums to nothing. */
  lemma {:induction false} GroupSumAbsent(rows: seq<Row>, level: seq<string>, k: seq<Value>, side: Side)
    requires NullFree(k) && !Occurs(side, level, rows, k)
    ensures GroupSum(rows, level, k, side) == 0.0
  {
    if rows != [] {
      OccursCons(side, level, rows, k);
      GroupSumAbsent(rows[1..], level, k, side);
    }
  }

  /** Each row of the joined totals is a group of one side or both, and after the
      zero fill its paid-in and distributions are the group's sums over the ledger. */
  lemma TotalsAreGroupSums(level: seq<string>, f: Frame, t: Totals)
    requires HasColumns(f, level)
    requires t in OuterJoinTotals(PicCalc(level, f).groups, DisCalc(level, f).groups)
    ensures Occurs(Outflows, level, f.rows, t.key) || Occurs(Inflows, level, f.rows, t.key)
    ensures t.paidIn == GroupSum(f.rows, level, t.key, Outflows)
    ensures t.distr == GroupSum(f.rows, level, t.key, Inflows)
  {
    var pic := PicCalc(level, f).groups;
    var dis := DisCalc(level, f).groups;
    var ts := OuterJoinTotals(pic, dis);
    TotalsKeyWidth(level, f);
    OuterJoinValues(pic, dis, t);
    var i :| 0 <= i < |ts| && ts[i] == t;
    assert TotalsKeys(ts)[i] == t.key;
    OuterJoinKeys(pic, dis, t.key);
    SideTotal(Outflows, level, f, t.key);
    SideTotal(Inflows, level, f, t.key);
  }

  /** The zero-filled total of one side for a null-free key is the key's group sum. */
  lemma SideTotal(side: Side, level: seq<string>, f: Frame, k: seq<Value>)
    requires HasColumns(f, level) && NullFree(k)
    ensures TotalOr0(SideCalc(side, level, f).groups, k) == GroupSum(f.rows, level, k, side)
    ensures k in KeysOf(SideCalc(side, level, f).groups) <==> Occurs(side, level, f.rows, k)
  {
    var groups := SideCalc(side, level, f).groups;
    if k in KeysOf(groups) {
      var j :| 0 <= j < |groups| && KeysOf(groups)[j] == k;
      assert groups[j] in groups;
      TotalOr0Of(groups, groups[j]);
    } else {
      forall g | g in groups ensures g.key != k {
        var m :| 0 <= m < |groups| && groups[m] == g;
        assert KeysOf(groups)[m] == g.key;
      }
      TotalOr0Absent(groups, k);
      GroupSumAbsent(f.rows, level, k, side);
    }
  }

  /** The XIRR table holds each entity's own XIRR. */
  lemma {:induction false} XirrOfTable(rows: seq<Row>, col: string, ents: seq<Value>, solve: Solver, e: Value)
    requires e in ents
    ensures XirrOf(IrrTable(rows, col, ents, solve), e) == EntityXirr(rows, col, e, solve)
  {
    var irr := IrrTable(rows, col, ents, solve);
    if ents[0] != e {
      assert irr[1..] == IrrTable(rows, col, ents[1..], solve);
      XirrOfTable(rows, col, ents[1..], solve, e);
    }
  }

  /** `metrics` raises `KeyError` exactly when `amount` or a level column is missing,
      when the first level column holds no value at all, or when `asof` is missing. */
  lemma MetricsErrors(level: seq<string>, f: Frame, solve: Solver)
    requires |level| > 0
    ensures MetricsSpec(level, f, solve).KeyError? <==>
      !HasColumns(f, level) ||
      (forall i :: 0 <= i < |f.rows| ==> Cell(f.rows[i], level[0]).Null?) ||
      "asof" !in f.columns
  {
    var ents := Entities(f.rows, level[0], []);
    if exists i :: 0 <= i < |f.rows| && !Cell(f.rows[i], level[0]).Null? {
      var i :| 0 <= i < |f.rows| && !Cell(f.rows[i], level[0]).Null?;
      assert HasValue(f.rows, level[0], Cell(f.rows[i], level[0]));
      assert Cell(f.rows[i], level[0]) in ents;
    }
    if ents != [] {
      assert ents[0] in ents;
      var i :| 0 <= i < |f.rows| && Cell(f.rows[i], level[0]) == ents[0];
    }
  }

  /** What a successful `metrics` call returns, unfolded once. */
  lemma MetricsValue(level: seq<string>, f: Frame, solve: Solver)
    requires |level| > 0 && MetricsSpec(level, f, solve).Ok?
    ensures HasColumns(f, level)
    ensures MetricsSpec(level, f, solve).value == JoinXirr(
      OuterJoinTotals(PicCalc(level, f).groups, DisCalc(level, f).groups),
      IrrTable(f.rows, level[0], Entities(f.rows, level[0], []), solve), |level|)
  {
  }

  lemma JoinXirrMatched(ts: seq<Totals>, irr: seq<IrrRow>, width: nat, i: nat)
    requires width > 0 && i < |ts|
    ensures i < |JoinXirr(ts, irr, width)|
    ensures JoinXirr(ts, irr, width)[i] ==
      MetricsRow(ts[i].key, Some(ts[i].paidIn), Some(ts[i].distr), Moic(ts[i]), XirrOf(irr, FirstKey(ts[i].key)))
  {
  }

  lemma JoinXirrExtra(ts: seq<Totals>, irr: seq<IrrRow>, width: nat, m: nat)
    requires width > 0 && m < |IrrOnly(ts, irr)|
    ensures |ts| + m < |JoinXirr(ts, irr, width)|
    ensures var x := IrrOnly(ts, irr)[m];
      JoinXirr(ts, irr, width)[|ts| + m] == MetricsRow([x.entity] + seq(width - 1, _ => Null), None, None, Null, x.xirr)
  {
  }

  /** An XIRR row that no totals row matched has a row of its own. */
  lemma ExtraRowIndex(ts: seq<Totals>, irr: seq<IrrRow>, width: nat, j: nat) returns (i: nat)
    requires width > 0 && j < |irr| && !IsFirstKeyOf(ts, irr[j].entity)
    ensures i < |JoinXirr(ts, irr, width)|
    ensures FirstKey(JoinXirr(ts, irr, width)[i].key) == irr[j].entity
    ensures JoinXirr(ts, irr, width)[i].xirr == irr[j].xirr
  {
    var extra := IrrOnly(ts, irr);
    assert irr[j] in extra;
    var m :| 0 <= m < |extra| && extra[m] == irr[j];
    JoinXirrExtra(ts, irr, width, m);
    i := |ts| + m;
  }

  /** The joined totals hold a row for every group that paid in or distributed
      anything, carrying the group's two sums. */
  lemma GroupTotalsRow(level: seq<string>, f: Frame, k: seq<Value>) returns (i: nat)
    requires HasColumns(f, level)
    requires Occurs(Outflows, level, f.rows, k) || Occurs(Inflows, level, f.rows, k)
    ensures var ts := OuterJoinTotals(PicCalc(level, f).groups, DisCalc(level, f).groups);
      i < |ts| && ts[i].key == k &&
      ts[i].paidIn == GroupSum(f.rows, level, k, Outflows) && ts[i].distr == GroupSum(f.rows, level, k, Inflows)
  {
    var pic := PicCalc(level, f).groups;
    var dis := DisCalc(level, f).groups;
    var ts := OuterJoinTotals(pic, dis);
    SideTotal(Outflows, level, f, k);
    SideTotal(Inflows, level, f, k);
    OuterJoinKeys(pic, dis, k);
    i :| 0 <= i < |ts| && TotalsKeys(ts)[i] == k;
    assert ts[i] in ts;
    TotalsAreGroupSums(level, f, ts[i]);
  }

  /** A group that paid in or distributed anything has its first level value in the
      entity column. */
  lemma GroupEntity(level: seq<string>, f: Frame, k: seq<Value>)
    requires |level| > 0 && HasColumns(f, level)
    requires Occurs(Outflows, level, f.rows, k) || Occurs(Inflows, level, f.rows, k)
    ensures |k| == |level| && !k[0].Null? && HasValue(f.rows, level[0], k[0])
  {
    var side := if Occurs(Outflows, level, f.rows, k) then Outflows else Inflows;
    var r :| 0 <= r < |f.rows| && Counted(side, level, f.rows[r]) && KeyOf(f.rows[r], level) == k;
    assert Cell(f.rows[r], level[0]) == k[0];
  }

  /** Every group that paid in or distributed anything has its row in the metrics:
      paid-in and distributions are the group's sums, MOIC their ratio, and the XIRR
      is that of the group's entity (its first level value). */
  lemma MetricsGroupRow(level: seq<string>, f: Frame, solve: Solver, k: seq<Value>)
    requires |level| > 0 && MetricsSpec(level, f, solve).Ok?
    requires Occurs(Outflows, level, f.rows, k) || Occurs(Inflows, level, f.rows, k)
    ensures var paid := GroupSum(f.rows, level, k, Outflows);
      var distr := GroupSum(f.rows, level, k, Inflows);
      MetricsRow(k, Some(paid), Some(distr), Divide(distr, paid), EntityXirr(f.rows, level[0], k[0], solve))
        in MetricsSpec(level, f, solve).value
  {
    MetricsValue(level, f, solve);
    var ts := OuterJoinTotals(PicCalc(level, f).groups, DisCalc(level, f).groups);
    var ents := Entities(f.rows, level[0], []);
    var irr := IrrTable(f.rows, level[0], ents, solve);
    var i := GroupTotalsRow(level, f, k);
    GroupEntity(level, f, k);
    XirrOfTable(f.rows, level[0], ents, solve, k[0]);
    JoinXirrMatched(ts, irr, |level|, i);
  }

  /** Every entity has its XIRR in the metrics: on its groups' rows, or on a row of
      its own with the other level values and the totals missing. */
  lemma MetricsEntityXirr(level: seq<string>, f: Frame, solve: Solver, e: Value)
    requires |level| > 0 && MetricsSpec(level, f, solve).Ok?
    requires !e.Null? && HasValue(f.rows, level[0], e)
    ensures var out := MetricsSpec(level, f, solve).value;
      exists i :: 0 <= i < |out| && FirstKey(out[i].key) == e && out[i].xirr == EntityXirr(f.rows, level[0], e, solve)
  {
    MetricsValue(level, f, solve);
    var ts := OuterJoinTotals(PicCalc(level, f).groups, DisCalc(level, f).groups);
    var ents := Entities(f.rows, level[0], []);
    var irr := IrrTable(f.rows, level[0], ents, solve);
    var out := JoinXirr(ts, irr, |level|);
    XirrOfTable(f.rows, level[0], ents, solve, e);
    if IsFirstKeyOf(ts, e) {
      var i :| 0 <= i < |ts| && FirstKey(ts[i].key) == e;
      JoinXirrMatched(ts, irr, |level|, i);
      assert FirstKey(out[i].key) == e && out[i].xirr == EntityXirr(f.rows, level[0], e, solve);
    } else {
      var j :| 0 <= j < |ents| && ents[j] == e;
      var i := ExtraRowIndex(ts, irr, |level|, j);
    }
  }
}
