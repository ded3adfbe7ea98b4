/** The left join of `DataFrame.merge(how='left')`: every left row in order,
    repeated once per matching right row (in right order) or kept once with missing
    right cells. Keys compare cell by cell, and a missing key matches a missing key,
    as in pandas. A right column that collides with a left column name gets the
    right suffix; the left suffix is empty. */
module Joins {
  import opened Frames

  function KeyOf(r: Row, keys: seq<string>): (k: seq<Value>)
    ensures |k| == |keys|
  {
    seq(|keys|, i requires 0 <= i < |keys| => Cell(r, keys[i]))
  }

  /** The right rows whose right key equals the left row's left key. */
  function Matches(l: Row, right: seq<Row>, leftOn: seq<string>, rightOn: seq<string>): (ms: seq<Row>)
    ensures forall m :: m in ms <==> m in right && KeyOf(m, rightOn) == KeyOf(l, leftOn)
  {
    if right == [] then []
    else
      var here := if KeyOf(right[0], rightOn) == KeyOf(l, leftOn) then [right[0]] else [];
      here + Matches(l, right[1..], leftOn, rightOn)
  }

  /** A key named the same on both sides appears once in the output. */
  predicate SharedKey(c: string, leftOn: seq<string>, rightOn: seq<string>) {
    exists j :: 0 <= j < |leftOn| && j < |rightOn| && leftOn[j] == c && rightOn[j] == c
  }

  /** The right columns that the output carries. */
  function KeptColumns(cols: seq<string>, leftOn: seq<string>, rightOn: seq<string>): (kept: seq<string>)
    ensures forall c :: c in kept <==> c in cols && !SharedKey(c, leftOn, rightOn)
  {
    if cols == [] then []
    else if SharedKey(cols[0], leftOn, rightOn) then KeptColumns(cols[1..], leftOn, rightOn)
    else [cols[0]] + KeptColumns(cols[1..], leftOn, rightOn)
  }

  function OutName(c: string, leftColumns: seq<string>, suffix: string): string {
    if c in leftColumns then c + suffix else c
  }

  /** The output names of the kept right columns. */
  predicate IsRightName(n: string, kept: seq<string>, leftColumns: seq<string>, suffix: string) {
    exists k :: k in kept && OutName(k, leftColumns, suffix) == n
  }

  /** One output row: the left row plus the kept right cells of the match, or
      missing cells when there is no match. */
  function JoinRow(l: Row, m: Option<Row>, kept: seq<string>, leftColumns: seq<string>, suffix: string): (j: Row)
    ensures forall c :: !IsRightName(c, kept, leftColumns, suffix) ==> Cell(j, c) == Cell(l, c)
    ensures m.None? ==> forall k :: k in kept ==> Cell(j, OutName(k, leftColumns, suffix)) == Null
    decreases |kept|
  {
    if kept == [] then l
    else
      var init := kept[..|kept| - 1];
      var last := kept[|kept| - 1];
      assert forall c :: IsRightName(c, init, leftColumns, suffix) ==> IsRightName(c, kept, leftColumns, suffix) by {
        forall c | IsRightName(c, init, leftColumns, suffix) ensures IsRightName(c, kept, leftColumns, suffix) {
          var k :| k in init && OutName(k, leftColumns, suffix) == c;
          assert k in kept;
        }
      }
      assert forall k :: k in kept ==> k in init || k == last;
      JoinRow(l, m, init, leftColumns, suffix)[OutName(last, leftColumns, suffix) := if m.Some? then Cell(m.value, last) else Null]
  }

  /** With distinct output names, each kept right column of a match carries that
      match's cell. */
  lemma {:induction false} JoinRowMatched(l: Row, m: Row, kept: seq<string>, leftColumns: seq<string>, suffix: string, k: string)
    requires forall a, b :: a in kept && b in kept && a != b ==>
      OutName(a, leftColumns, suffix) != OutName(b, leftColumns, suffix)
    requires k in kept
    ensures Cell(JoinRow(l, Some(m), kept, leftColumns, suffix), OutName(k, leftColumns, suffix)) == Cell(m, k)
    decreases |kept|
  {
    var init := kept[..|kept| - 1];
    if kept[|kept| - 1] != k {
      assert k in init;
      JoinRowMatched(l, m, init, leftColumns, suffix, k);
    }
  }

  /** The output rows produced by one left row. */
  function RowsFor(l: Row, right: seq<Row>, leftOn: seq<string>, rightOn: seq<string>,
                   kept: seq<string>, leftColumns: seq<string>, suffix: string): (out: seq<Row>)
    ensures |out| >= 1
  {
    var ms := Matches(l, right, leftOn, rightOn);
    if ms == [] then [JoinRow(l, None, kept, leftColumns, suffix)]
    else seq(|ms|, i requires 0 <= i < |ms| => JoinRow(l, Some(ms[i]), kept, leftColumns, suffix))
  }

  /** The output rows of a block of left rows; never fewer than the left rows. */
  function JoinRows(left: seq<Row>, right: seq<Row>, leftOn: seq<string>, rightOn: seq<string>,
                    kept: seq<string>, leftColumns: seq<string>, suffix: string): (out: seq<Row>)
    ensures |out| >= |left|
  {
    if left == [] then []
    else
      var first := RowsFor(left[0], right, leftOn, rightOn, kept, leftColumns, suffix);
      first + JoinRows(left[1..], right, leftOn, rightOn, kept, leftColumns, suffix)
  }

  /** `left.merge(right, left_on=leftOn, right_on=rightOn, how='left', suffixes=('', suffix))`. */
  function LeftJoin(left: Frame, right: Frame, leftOn: seq<string>, rightOn: seq<string>, suffix: string): (out: Frame)
    ensures |out.rows| >= |left.rows|
    ensures var kept := KeptColumns(right.columns, leftOn, rightOn);
      out.columns == left.columns + seq(|kept|, i requires 0 <= i < |kept| => OutName(kept[i], left.columns, suffix))
  {
    var kept := KeptColumns(right.columns, leftOn, rightOn);
    Frame(left.columns + seq(|kept|, i requires 0 <= i < |kept| => OutName(kept[i], left.columns, suffix)),
          JoinRows(left.rows, right.rows, leftOn, rightOn, kept, left.columns, suffix))
  }

  /** Right keys are unique: no two right rows share a key. */
  predicate UniqueKeys(right: seq<Row>, rightOn: seq<string>) {
    forall i, j :: 0 <= i < j < |right| ==> KeyOf(right[i], rightOn) != KeyOf(right[j], rightOn)
  }

  lemma {:induction false} MatchesAtMostOne(l: Row, right: seq<Row>, leftOn: seq<string>, rightOn: seq<string>)
    requires UniqueKeys(right, rightOn)
    ensures |Matches(l, right, leftOn, rightOn)| <= 1
  {
    if right != [] {
      assert UniqueKeys(right[1..], rightOn) by {
        forall i, j | 0 <= i < j < |right[1..]|
          ensures KeyOf(right[1..][i], rightOn) != KeyOf(right[1..][j], rightOn)
        {
          assert right[1..][i] == right[i + 1] && right[1..][j] == right[j + 1];
        }
      }
      MatchesAtMostOne(l, right[1..], leftOn, rightOn);
      if KeyOf(right[0], rightOn) == KeyOf(l, leftOn) {
        NoLaterMatch(l, right, leftOn, rightOn);
      }
    }
  }

  lemma NoLaterMatch(l: Row, right: seq<Row>, leftOn: seq<string>, rightOn: seq<string>)
    requires UniqueKeys(right, rightOn) && right != []
    requires KeyOf(right[0], rightOn) == KeyOf(l, leftOn)
    ensures Matches(l, right[1..], leftOn, rightOn) == []
  {
    forall i | 0 <= i < |right[1..]| ensures KeyOf(right[1..][i], rightOn) != KeyOf(l, leftOn) {
      assert right[1..][i] == right[i + 1];
    }
    MatchesNone(l, right[1..], leftOn, rightOn);
  }

  lemma {:induction false} MatchesNone(l: Row, right: seq<Row>, leftOn: seq<string>, rightOn: seq<string>)
    requires forall i :: 0 <= i < |right| ==> KeyOf(right[i], rightOn) != KeyOf(l, leftOn)
    ensures Matches(l, right, leftOn, rightOn) == []
  {
    if right != [] {
      MatchesNone(l, right[1..], leftOn, rightOn);
    }
  }

  /** The match of a left row under unique right keys, if any. */
  function SingleMatch(l: Row, right: seq<Row>, leftOn: seq<string>, rightOn: seq<string>): (m: Option<Row>)
    ensures m.Some? ==> m.value in right && KeyOf(m.value, rightOn) == KeyOf(l, leftOn)
    ensures m.None? ==> forall r :: r in right ==> KeyOf(r, rightOn) != KeyOf(l, leftOn)
  {
    var ms := Matches(l, right, leftOn, rightOn);
    if ms == [] then None else Some(ms[0])
  }

  lemma RowsForUnique(l: Row, right: seq<Row>, leftOn: seq<string>, rightOn: seq<string>,
                      kept: seq<string>, leftColumns: seq<string>, suffix: string)
    requires UniqueKeys(right, rightOn)
    ensures RowsFor(l, right, leftOn, rightOn, kept, leftColumns, suffix) ==
      [JoinRow(l, SingleMatch(l, right, leftOn, rightOn), kept, leftColumns, suffix)]
  {
    MatchesAtMostOne(l, right, leftOn, rightOn);
  }

  /** With unique right keys the join keeps the left row count and order: output row
      i is left row i, extended by its single match or by missing cells. */
  lemma {:induction false} JoinRowsUnique(left: seq<Row>, right: seq<Row>, leftOn: seq<string>, rightOn: seq<string>,
                                          kept: seq<string>, leftColumns: seq<string>, suffix: string)
    requires UniqueKeys(right, rightOn)
    ensures |JoinRows(left, right, leftOn, rightOn, kept, leftColumns, suffix)| == |left|
    ensures forall i :: 0 <= i < |left| ==>
      JoinRows(left, right, leftOn, rightOn, kept, leftColumns, suffix)[i] ==
        JoinRow(left[i], SingleMatch(left[i], right, leftOn, rightOn), kept, leftColumns, suffix)
  {
    if left != [] {
      var head := JoinRow(left[0], SingleMatch(left[0], right, leftOn, rightOn), kept, leftColumns, suffix);
      RowsForUnique(left[0], right, leftOn, rightOn, kept, leftColumns, suffix);
      JoinRowsUnique(left[1..], right, leftOn, rightOn, kept, leftColumns, suffix);
      var rest := JoinRows(left[1..], right, leftOn, rightOn, kept, leftColumns, suffix);
      var out := JoinRows(left, right, leftOn, rightOn, kept, leftColumns, suffix);
      assert out == [head] + rest;
      forall i | 1 <= i < |left|
        ensures out[i] == JoinRow(left[i], SingleMatch(left[i], right, leftOn, rightOn), kept, leftColumns, suffix)
      {
        assert left[1..][i - 1] == left[i];
        assert rest[i - 1] == JoinRow(left[1..][i - 1], SingleMatch(left[1..][i - 1], right, leftOn, rightOn), kept, leftColumns, suffix);
      }
    }
  }

  /** An output row that agrees with a left row on every column the right side
      does not write. */
  ghost predicate Extends(o: Row, l: Row, kept: seq<string>, leftColumns: seq<string>, suffix: string) {
    forall c :: !IsRightName(c, kept, leftColumns, suffix) ==> Cell(o, c) == Cell(l, c)
  }

  /** The left join never drops a left row: every left row is extended by some
      output row, whatever the right table holds. */
  lemma {:induction false} JoinRowsKeepEveryRow(left: seq<Row>, right: seq<Row>, leftOn: seq<string>, rightOn: seq<string>,
                                                kept: seq<string>, leftColumns: seq<string>, suffix: string, i: int)
    requires 0 <= i < |left|
    ensures exists j :: (0 <= j < |JoinRows(left, right, leftOn, rightOn, kept, leftColumns, suffix)| &&
      Extends(JoinRows(left, right, leftOn, rightOn, kept, leftColumns, suffix)[j], left[i], kept, leftColumns, suffix))
  {
    var first := RowsFor(left[0], right, leftOn, rightOn, kept, leftColumns, suffix);
    var rest := JoinRows(left[1..], right, leftOn, rightOn, kept, leftColumns, suffix);
    var out := JoinRows(left, right, leftOn, rightOn, kept, leftColumns, suffix);
    assert out == first + rest;
    if i == 0 {
      assert out[0] == first[0];
      assert Extends(out[0], left[0], kept, leftColumns, suffix);
    } else {
      JoinRowsKeepEveryRow(left[1..], right, leftOn, rightOn, kept, leftColumns, suffix, i - 1);
      var j :| 0 <= j < |rest| && Extends(rest[j], left[1..][i - 1], kept, leftColumns, suffix);
      assert out[|first| + j] == rest[j];
      assert left[1..][i - 1] == left[i];
    }
  }
}
