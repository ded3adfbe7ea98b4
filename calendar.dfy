/** Gregorian calendar dates and the pandas month-end offsets the pipeline uses:
    rolling back to the previous month-end, rolling forward to the current one,
    month-end date ranges and the "15th of next month" payment date. */
module Calendar {

  datatype YMD = YMD(year: int, month: int, day: int)

  predicate IsLeapYear(y: int) {
    (y % 4 == 0 && y % 100 != 0) || y % 400 == 0
  }

  function DaysInMonth(y: int, m: int): (n: int)
    ensures 28 <= n <= 31
    ensures m == 2 ==> (n == 29 <==> IsLeapYear(y))
  {
    if m == 2 then (if IsLeapYear(y) then 29 else 28)
    else if m == 4 || m == 6 || m == 9 || m == 11 then 30
    else 31
  }

  /** A valid calendar date. */
  type Date = d: YMD | 1 <= d.month <= 12 && 1 <= d.day <= DaysInMonth(d.year, d.month)
    witness YMD(2000, 1, 1)

  /** Strict chronological order. */
  predicate Before(a: YMD, b: YMD) {
    a.year < b.year
    || (a.year == b.year && a.month < b.month)
    || (a.year == b.year && a.month == b.month && a.day < b.day)
  }

  predicate OnOrBefore(a: YMD, b: YMD) {
    Before(a, b) || a == b
  }

  predicate IsMonthEnd(d: Date) {
    d.day == DaysInMonth(d.year, d.month)
  }

  /** Months counted from January of year 0. */
  function MonthIndex(d: YMD): int {
    d.year * 12 + d.month - 1
  }

  /** The last day of the month with index k. */
  function MonthEndOf(k: int): (d: Date)
    ensures IsMonthEnd(d) && MonthIndex(d) == k
  {
    var y, m := k / 12, k % 12 + 1;
    YMD(y, m, DaysInMonth(y, m))
  }

  lemma MonthIndexOrder(a: Date, b: Date)
    ensures MonthIndex(a) < MonthIndex(b) ==> Before(a, b)
    ensures Before(a, b) ==> MonthIndex(a) <= MonthIndex(b)
  {
  }

  /** Two month-ends compare as their month indexes do. */
  lemma MonthEndOrder(a: Date, b: Date)
    requires IsMonthEnd(a) && IsMonthEnd(b)
    ensures Before(a, b) <==> MonthIndex(a) < MonthIndex(b)
    ensures a == b <==> MonthIndex(a) == MonthIndex(b)
  {
    MonthIndexOrder(a, b);
    MonthIndexOrder(b, a);
    if MonthIndex(a) == MonthIndex(b) {
      assert a.year == b.year && a.month == b.month;
    }
  }

  /** `d - MonthEnd(1)`, equivalently `d + MonthEnd(-1)`: the last month-end strictly before d. */
  function RollBackMonthEnd(d: Date): (r: Date)
    ensures IsMonthEnd(r) && Before(r, d)
    ensures forall m: Date :: IsMonthEnd(m) && Before(m, d) ==> OnOrBefore(m, r)
  {
    var r := MonthEndOf(MonthIndex(d) - 1);
    forall m: Date | IsMonthEnd(m) && Before(m, d) ensures OnOrBefore(m, r) {
      MonthIndexOrder(m, d);
      MonthEndOrder(m, r);
    }
    r
  }

  /** `d + MonthEnd(0)`: d itself when it is a month-end, else the end of d's month;
      the first month-end on or after d. */
  function RollForwardMonthEnd(d: Date): (r: Date)
    ensures IsMonthEnd(r) && OnOrBefore(d, r)
    ensures forall m: Date :: IsMonthEnd(m) && OnOrBefore(d, m) ==> OnOrBefore(r, m)
    ensures IsMonthEnd(d) ==> r == d
  {
    var r := MonthEndOf(MonthIndex(d));
    forall m: Date | IsMonthEnd(m) && OnOrBefore(d, m) ensures OnOrBefore(r, m) {
      MonthIndexOrder(d, m);
      MonthEndOrder(r, m);
    }
    r
  }

  /** The month-ends with month index lo, lo + 1, ..., hi. */
  function MonthEndRange(lo: int, hi: int): (r: seq<Date>)
    decreases hi - lo
    ensures |r| == if hi < lo then 0 else hi - lo + 1
    ensures forall i :: 0 <= i < |r| ==> r[i] == MonthEndOf(lo + i)
  {
    if hi < lo then [] else [MonthEndOf(lo)] + MonthEndRange(lo + 1, hi)
  }

  predicate StrictlyIncreasing(s: seq<Date>) {
    forall i, j :: 0 <= i < j < |s| ==> Before(s[i], s[j])
  }

  /** `pd.date_range(start, end, freq='ME')`: every month-end between start and end
      inclusive, in increasing order. */
  function MonthEndDateRange(start: Date, end: Date): (r: seq<Date>)
    ensures StrictlyIncreasing(r)
    ensures forall i :: 0 <= i < |r| ==> IsMonthEnd(r[i]) && OnOrBefore(start, r[i]) && OnOrBefore(r[i], end)
    ensures forall m: Date :: IsMonthEnd(m) && OnOrBefore(start, m) && OnOrBefore(m, end) ==> m in r
  {
    var lo := MonthIndex(start);
    var hi := if IsMonthEnd(end) then MonthIndex(end) else MonthIndex(end) - 1;
    MonthEndRangeIncreasing(lo, hi);
    MonthEndRangeWithin(start, end);
    MonthEndRangeComplete(start, end);
    MonthEndRange(lo, hi)
  }

  lemma MonthEndRangeIncreasing(lo: int, hi: int)
    ensures StrictlyIncreasing(MonthEndRange(lo, hi))
  {
    var r := MonthEndRange(lo, hi);
    forall i, j | 0 <= i < j < |r| ensures Before(r[i], r[j]) {
      MonthEndOrder(r[i], r[j]);
    }
  }

  lemma MonthEndRangeWithin(start: Date, end: Date)
    ensures var r := MonthEndRange(MonthIndex(start), if IsMonthEnd(end) then MonthIndex(end) else MonthIndex(end) - 1);
      forall i :: 0 <= i < |r| ==> IsMonthEnd(r[i]) && OnOrBefore(start, r[i]) && OnOrBefore(r[i], end)
  {
    var r := MonthEndRange(MonthIndex(start), if IsMonthEnd(end) then MonthIndex(end) else MonthIndex(end) - 1);
    forall i | 0 <= i < |r| ensures OnOrBefore(start, r[i]) && OnOrBefore(r[i], end) {
      MonthIndexOrder(start, r[i]);
      MonthIndexOrder(r[i], end);
      if MonthIndex(start) == MonthIndex(r[i]) {
        assert r[i].day == DaysInMonth(start.year, start.month);
      }
      if MonthIndex(end) == MonthIndex(r[i]) {
        assert IsMonthEnd(end) && r[i] == end;
      }
    }
  }

  lemma MonthEndRangeComplete(start: Date, end: Date)
    ensures var lo := MonthIndex(start);
      var r := MonthEndRange(lo, if IsMonthEnd(end) then MonthIndex(end) else MonthIndex(end) - 1);
      forall m: Date :: IsMonthEnd(m) && OnOrBefore(start, m) && OnOrBefore(m, end) ==> m in r
  {
    var lo := MonthIndex(start);
    var hi := if IsMonthEnd(end) then MonthIndex(end) else MonthIndex(end) - 1;
    var r := MonthEndRange(lo, hi);
    forall m: Date | IsMonthEnd(m) && OnOrBefore(start, m) && OnOrBefore(m, end) ensures m in r {
      MonthIndexOrder(start, m);
      MonthIndexOrder(m, end);
      assert lo <= MonthIndex(m) <= hi;
      var i := MonthIndex(m) - lo;
      MonthEndOrder(m, r[i]);
    }
  }

  /** `d + MonthBegin(1)`: the first day of the month after d's month. */
  function FirstOfNextMonth(d: Date): (r: Date)
    ensures r.day == 1 && MonthIndex(r) == MonthIndex(d) + 1
  {
    if d.month == 12 then YMD(d.year + 1, 1, 1) else YMD(d.year, d.month + 1, 1)
  }

  /** `me + MonthBegin(1) + DateOffset(days=14)`: the payment date of a month-end. */
  function PaymentDate(me: Date): (r: Date)
    ensures r.day == 15 && MonthIndex(r) == MonthIndex(me) + 1
  {
    var first := FirstOfNextMonth(me);
    YMD(first.year, first.month, first.day + 14)
  }

  /** Payment falls on the 15th of the following month; December rolls into January. */
  lemma PaymentDateOfMonth(me: Date)
    ensures me.month < 12 ==> PaymentDate(me) == YMD(me.year, me.month + 1, 15)
    ensures me.month == 12 ==> PaymentDate(me) == YMD(me.year + 1, 1, 15)
  {
  }

  lemma PaymentDateExample()
    ensures PaymentDate(YMD(2023, 2, 28)) == YMD(2023, 3, 15)
  {
  }
}
