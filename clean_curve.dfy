/** Curve-name cleaning of the rate curve table: lower-case, every '0' read as the
    letter 'o', a dictionary of regex replacements, then strip. Works on a copy. */
module CleanCurve {
  import opened Frames
  import opened Text

  /** The curve-name rule applied to one rendered name. */
  function CurveName(s: string): string {
    var lowered := ReplaceChar(Lower(s), '0', 'o');
    var replaced := ReplaceAll(ReplaceAll(lowered, "eurib0r", "euribor"), "sofr", "sofr");
    Strip(replaced)
  }

  /** The dictionary replacement changes nothing: its first pattern contains a '0',
      which the preceding step has removed, and its second maps 'sofr' to itself. */
  lemma CurveNameIsLowerStrip(s: string)
    ensures CurveName(s) == Strip(ReplaceChar(Lower(s), '0', 'o'))
  {
    var lowered := ReplaceChar(Lower(s), '0', 'o');
    ReplaceAllAbsent(lowered, "eurib0r", "euribor", '0');
    ReplaceAllSelf(lowered, "sofr");
  }

  lemma ReplaceCharRemoves(s: string, a: char, b: char)
    requires a != b
    ensures a !in ReplaceChar(s, a, b)
  {
    var t := ReplaceChar(s, a, b);
    forall i | 0 <= i < |t| ensures t[i] != a { }
  }

  lemma ReplaceCharAbsent(s: string, a: char, b: char)
    requires a !in s
    ensures ReplaceChar(s, a, b) == s
  {
  }

  /** The lower-cased name with every '0' read as 'o' has no upper-case letter. */
  lemma LoweredNoUpper(s: string)
    ensures NoUpper(ReplaceChar(Lower(s), '0', 'o'))
  {
    var u := ReplaceChar(Lower(s), '0', 'o');
    LowerHasNoUpper(s);
    forall i | 0 <= i < |u| ensures !IsUpper(u[i]) {
      assert u[i] == 'o' || u[i] == Lower(s)[i];
    }
  }

  /** No cleaned curve name contains the digit zero or an upper-case letter. */
  lemma CurveNameShape(s: string)
    ensures '0' !in CurveName(s)
    ensures NoUpper(CurveName(s))
  {
    var u := ReplaceChar(Lower(s), '0', 'o');
    CurveNameIsLowerStrip(s);
    ReplaceCharRemoves(Lower(s), '0', 'o');
    LoweredNoUpper(s);
    StripChars(u);
    var t := Strip(u);
    assert CurveName(s) == t;
    forall i | 0 <= i < |t| ensures t[i] != '0' && !IsUpper(t[i]) {
      assert t[i] in u;
      var j :| 0 <= j < |u| && u[j] == t[i];
    }
  }

  /** Cleaning an already cleaned curve name changes nothing. */
  lemma CurveNameIdempotent(s: string)
    ensures CurveName(CurveName(s)) == CurveName(s)
  {
    var u := ReplaceChar(Lower(s), '0', 'o');
    var t := CurveName(s);
    CurveNameIsLowerStrip(s);
    CurveNameIsLowerStrip(t);
    CurveNameShape(s);
    LowerOfNoUpper(t);
    ReplaceCharAbsent(t, '0', 'o');
    StripIdempotent(u);
  }

  lemma LowerFixesLowerCase(s: string)
    requires s == "eurib0r" || s == "s0fr"
    ensures Lower(s) == s
  {
    assert NoUpper(s);
    LowerOfNoUpper(s);
  }

  lemma ZeroAsLetterO(s: string)
    requires s == "eurib0r" || s == "s0fr"
    ensures s == "eurib0r" ==> ReplaceChar(s, '0', 'o') == "euribor"
    ensures s == "s0fr" ==> ReplaceChar(s, '0', 'o') == "sofr"
  {
  }

  lemma StripFixesCanonical(s: string)
    requires s == "euribor" || s == "sofr"
    ensures Strip(s) == s
  {
    LettersNoSpace(s);
    StripNoSpace(s);
  }

  /** The two misspellings named in the source's own example become the canonical
      names. */
  lemma CurveNameFixesMisspellings(s: string)
    requires s == "eurib0r" || s == "s0fr"
    ensures s == "eurib0r" ==> CurveName(s) == "euribor"
    ensures s == "s0fr" ==> CurveName(s) == "sofr"
  {
    CurveNameIsLowerStrip(s);
    LowerFixesLowerCase(s);
    ZeroAsLetterO(s);
    if s == "eurib0r" {
      StripFixesCanonical("euribor");
    } else {
      StripFixesCanonical("sofr");
    }
  }

  function CleanCurveRow(r: Row, show: Value -> string): Row {
    r["curve" := Str(CurveName(AsText(Cell(r, "curve"), show)))]
  }

  lemma UpdateSame(m: Row, k: string, v: Value)
    requires k in m && m[k] == v
    ensures m[k := v] == m
  {
  }

  lemma CleanCurveRowIdempotent(r: Row, show: Value -> string)
    ensures CleanCurveRow(CleanCurveRow(r, show), show) == CleanCurveRow(r, show)
  {
    var x := AsText(Cell(r, "curve"), show);
    var n := CurveName(x);
    CurveNameIdempotent(x);
    var r1 := r["curve" := Str(n)];
    assert CurveName(AsText(Cell(r1, "curve"), show)) == n;
    UpdateSame(r1, "curve", Str(n));
  }

  /** `clean_curve_df`: `KeyError` when the curve table has no `curve` column;
      otherwise a copy of the table with every curve cell replaced by its cleaned
      name; the row count, the row order and every other column are as in the
      input, and the input itself is a value and so untouched. */
  function CleanCurveDf(f: Frame, show: Value -> string): (r: Result<Frame>)
    ensures r.KeyError? <==> "curve" !in f.columns
    ensures r.KeyError? ==> r.column == "curve"
    ensures !r.ValueError?
    ensures r.Ok? ==> r.value.columns == f.columns && |r.value.rows| == |f.rows|
    ensures r.Ok? ==> forall i, c :: 0 <= i < |f.rows| && c != "curve" ==>
      Cell(r.value.rows[i], c) == Cell(f.rows[i], c)
    ensures r.Ok? ==> forall i :: 0 <= i < |f.rows| ==>
      Cell(r.value.rows[i], "curve").Str? && '0' !in Cell(r.value.rows[i], "curve").s
    ensures r.Ok? ==> forall i :: 0 <= i < |f.rows| ==>
      Cell(r.value.rows[i], "curve") == Str(CurveName(AsText(Cell(f.rows[i], "curve"), show)))
  {
    if "curve" !in f.columns then KeyError("curve")
    else
      var rows := seq(|f.rows|, i requires 0 <= i < |f.rows| => CleanCurveRow(f.rows[i], show));
      assert forall i :: 0 <= i < |f.rows| ==> '0' !in Cell(rows[i], "curve").s by {
        forall i | 0 <= i < |f.rows| ensures '0' !in Cell(rows[i], "curve").s {
          CurveNameShape(AsText(Cell(f.rows[i], "curve"), show));
        }
      }
      Ok(Frame(f.columns, rows))
  }

  /** Cleaning a cleaned curve table changes nothing. */
  lemma CleanCurveDfIdempotent(f: Frame, show: Value -> string)
    ensures CleanCurveDf(f, show).Ok? ==>
      CleanCurveDf(CleanCurveDf(f, show).value, show) == CleanCurveDf(f, show)
  {
    if "curve" in f.columns {
      var r := CleanCurveDf(f, show).value;
      var rr := CleanCurveDf(r, show).value;
      forall i | 0 <= i < |r.rows| ensures rr.rows[i] == r.rows[i] {
        CleanCurveRowIdempotent(f.rows[i], show);
      }
      assert rr.rows == r.rows;
    }
  }
}
