/** Character-level string operations shared by the cleaning stages: Python's
    `str.strip`, `str.lower`, single-character and literal-pattern replacement, and
    the "`[\s_]+` becomes one underscore" collapse. */
module Text {

  /** Python's `str.isspace()`, which is also what `\s` matches in a str pattern. */
  predicate IsSpace(c: char) {
    var k := c as int;
    (9 <= k <= 13) || (28 <= k <= 32) || k == 133 || k == 160 || k == 5760
    || (8192 <= k <= 8202) || k == 8232 || k == 8233 || k == 8239 || k == 8287 || k == 12288
  }

  /** A member of the class `[\s_]`. */
  predicate IsSeparator(c: char) {
    IsSpace(c) || c == '_'
  }

  predicate IsUpper(c: char) {
    'A' <= c <= 'Z'
  }

  function LowerChar(c: char): char {
    if IsUpper(c) then (c as int + 32) as char else c
  }

  /** `str.lower()` on the ASCII letters: the same length, no upper-case letter left,
      and every other character kept. */
  function Lower(s: string): (r: string)
    ensures |r| == |s| && NoUpper(r)
    ensures forall i :: 0 <= i < |s| && !IsUpper(s[i]) ==> r[i] == s[i]
  {
    seq(|s|, i requires 0 <= i < |s| => LowerChar(s[i]))
  }

  predicate NoSpace(s: string) {
    forall i :: 0 <= i < |s| ==> !IsSpace(s[i])
  }

  predicate NoUpper(s: string) {
    forall i :: 0 <= i < |s| ==> !IsUpper(s[i])
  }

  predicate NoDoubleUnderscore(s: string) {
    forall i :: 0 <= i < |s| - 1 ==> !(s[i] == '_' && s[i + 1] == '_')
  }

  /** `str.lstrip()`: the suffix left after dropping leading whitespace. */
  function TrimStart(s: string): (r: string)
    ensures |r| <= |s| && r == s[|s| - |r|..]
    ensures forall i :: 0 <= i < |s| - |r| ==> IsSpace(s[i])
    ensures r != [] ==> !IsSpace(r[0])
  {
    if |s| > 0 && IsSpace(s[0]) then TrimStart(s[1..]) else s
  }

  /** `str.rstrip()`: the prefix left after dropping trailing whitespace. */
  function TrimEnd(s: string): (r: string)
    ensures |r| <= |s| && r == s[..|r|]
    ensures forall i :: |r| <= i < |s| ==> IsSpace(s[i])
    ensures r != [] ==> !IsSpace(r[|r| - 1])
  {
    if |s| > 0 && IsSpace(s[|s| - 1]) then TrimEnd(s[..|s| - 1]) else s
  }

  /** `str.strip()`: no longer than the input, and neither starting nor ending with
      whitespace. */
  function Strip(s: string): (r: string)
    ensures |r| <= |s|
    ensures r != [] ==> !IsSpace(r[0]) && !IsSpace(r[|r| - 1])
  {
    TrimEnd(TrimStart(s))
  }

  /** `Strip(s)` is the slice of s left after dropping whitespace at both ends. */
  lemma StripIsSlice(s: string)
    ensures exists a, b ::
      0 <= a <= b <= |s| && Strip(s) == s[a..b] &&
      (forall i :: 0 <= i < a ==> IsSpace(s[i])) &&
      (forall i :: b <= i < |s| ==> IsSpace(s[i]))
  {
    var t := TrimStart(s);
    var r := TrimEnd(t);
    var a := |s| - |t|;
    assert r == s[a..a + |r|];
    assert forall i :: a + |r| <= i < |s| ==> s[i] == t[i - a];
  }

  /** Every character of `Strip(s)` is a character of s. */
  lemma StripChars(s: string)
    ensures forall i :: 0 <= i < |Strip(s)| ==> Strip(s)[i] in s
  {
    var t := TrimStart(s);
    forall i | 0 <= i < |Strip(s)| ensures Strip(s)[i] in s {
      assert Strip(s)[i] == t[i] == s[|s| - |t| + i];
    }
  }

  /** A string without whitespace is its own strip. */
  lemma {:induction false} StripNoSpace(s: string)
    requires NoSpace(s)
    ensures Strip(s) == s
  {
    assert TrimStart(s) == s;
    assert TrimEnd(s) == s;
  }

  /** A string of lower-case letters has no whitespace. */
  lemma LettersNoSpace(s: string)
    requires forall i :: 0 <= i < |s| ==> 'a' <= s[i] <= 'z'
    ensures NoSpace(s)
  {
  }

  lemma StripIdempotent(s: string)
    ensures Strip(Strip(s)) == Strip(s)
  {
    var t := Strip(s);
    var u := TrimStart(s);
    assert t == TrimEnd(u);
    if t != [] {
      assert t[0] == u[0];
      assert TrimStart(t) == t;
    }
  }

  /** Lower-casing a character never makes or unmakes whitespace. */
  lemma LowerCharSpace(c: char)
    ensures IsSpace(LowerChar(c)) <==> IsSpace(c)
  {
  }

  lemma {:induction false} TrimStartLower(s: string)
    ensures TrimStart(Lower(s)) == Lower(TrimStart(s))
    decreases |s|
  {
    if |s| > 0 {
      var l := Lower(s);
      assert l[0] == LowerChar(s[0]);
      LowerCharSpace(s[0]);
      assert l[1..] == Lower(s[1..]);
      if IsSpace(s[0]) {
        TrimStartLower(s[1..]);
      }
    }
  }

  lemma {:induction false} TrimEndLower(s: string)
    ensures TrimEnd(Lower(s)) == Lower(TrimEnd(s))
    decreases |s|
  {
    if |s| > 0 {
      var l := Lower(s);
      assert l[|s| - 1] == LowerChar(s[|s| - 1]);
      LowerCharSpace(s[|s| - 1]);
      assert Lower(s)[..|s| - 1] == Lower(s[..|s| - 1]);
      if IsSpace(s[|s| - 1]) {
        TrimEndLower(s[..|s| - 1]);
      }
    }
  }

  /** Lower-casing never creates or removes whitespace, so it commutes with strip. */
  lemma StripLowerCommute(s: string)
    ensures Strip(Lower(s)) == Lower(Strip(s))
  {
    TrimStartLower(s);
    TrimEndLower(TrimStart(s));
  }

  lemma LowerOfNoUpper(s: string)
    requires NoUpper(s)
    ensures Lower(s) == s
  {
  }

  /** The suffix left after dropping a leading run of `[\s_]`. */
  function DropSeparators(s: string): (r: string)
    ensures |r| <= |s| && r == s[|s| - |r|..]
    ensures r != [] ==> !IsSeparator(r[0])
  {
    if |s| > 0 && IsSeparator(s[0]) then DropSeparators(s[1..]) else s
  }

  /** `re.sub(r'[\s_]+', '_', s)`: every maximal run of whitespace and underscores
      becomes a single underscore, so no whitespace and no doubled underscore remains;
      the other characters are those of s, so no upper-case letter appears either. */
  function CollapseSeparators(s: string): (r: string)
    decreases |s|
    ensures NoSpace(r)
    ensures NoDoubleUnderscore(r)
    ensures NoUpper(s) ==> NoUpper(r)
    ensures |r| > 0 <==> |s| > 0
    ensures |s| > 0 ==> (r[0] == '_' <==> IsSeparator(s[0]))
  {
    if s == [] then []
    else if IsSeparator(s[0]) then
      var tail := CollapseSeparators(DropSeparators(s[1..]));
      var r := "_" + tail;
      assert forall i :: 1 <= i < |r| ==> r[i] == tail[i - 1];
      r
    else
      var tail := CollapseSeparators(s[1..]);
      var r := [s[0]] + tail;
      assert forall i :: 1 <= i < |r| ==> r[i] == tail[i - 1];
      r
  }

  /** Every `[\s_]` character written as an underscore, every other kept. */
  function MarkSeparators(s: string): (r: string)
    ensures |r| == |s|
  {
    if s == [] then []
    else [if IsSeparator(s[0]) then '_' else s[0]] + MarkSeparators(s[1..])
  }

  /** Every underscore that follows an underscore removed. */
  function Squeeze(t: string): string
    decreases |t|
  {
    if |t| <= 1 then t
    else if t[0] == '_' && t[1] == '_' then Squeeze(t[1..])
    else [t[0]] + Squeeze(t[1..])
  }

  /** The characters of s outside `[\s_]`, in their order. */
  function Kept(s: string): string {
    if s == [] then []
    else if IsSeparator(s[0]) then Kept(s[1..])
    else [s[0]] + Kept(s[1..])
  }

  /** The number of maximal `[\s_]` runs in s, counted at the last character of each. */
  function SeparatorRuns(s: string): nat {
    if s == [] then 0
    else (if IsSeparator(s[0]) && (|s| == 1 || !IsSeparator(s[1])) then 1 else 0) + SeparatorRuns(s[1..])
  }

  function Underscores(s: string): nat {
    if s == [] then 0 else (if s[0] == '_' then 1 else 0) + Underscores(s[1..])
  }

  lemma {:induction false} SqueezeAfterSeparator(t: string)
    ensures Squeeze("_" + MarkSeparators(t)) == "_" + Squeeze(MarkSeparators(DropSeparators(t)))
    decreases |t|
  {
    var m := "_" + MarkSeparators(t);
    if t != [] {
      assert MarkSeparators(t) == [MarkSeparators(t)[0]] + MarkSeparators(t[1..]);
      assert m[1..] == MarkSeparators(t);
      if IsSeparator(t[0]) {
        SqueezeAfterSeparator(t[1..]);
        assert m[1..] == "_" + MarkSeparators(t[1..]);
      }
    }
  }

  /** Against an independent reference: collapsing is marking every separator as an
      underscore and then squeezing runs of underscores to one. */
  lemma {:induction false} CollapseIsMarkThenSqueeze(s: string)
    ensures CollapseSeparators(s) == Squeeze(MarkSeparators(s))
    decreases |s|
  {
    if s != [] {
      var m := MarkSeparators(s);
      assert m == [m[0]] + MarkSeparators(s[1..]);
      if IsSeparator(s[0]) {
        SqueezeAfterSeparator(s[1..]);
        CollapseIsMarkThenSqueeze(DropSeparators(s[1..]));
      } else {
        CollapseIsMarkThenSqueeze(s[1..]);
        if |s| > 1 {
          assert m[1..] == MarkSeparators(s[1..]);
        }
      }
    }
  }

  lemma {:induction false} KeptDropSeparators(t: string)
    ensures Kept(DropSeparators(t)) == Kept(t)
    decreases |t|
  {
    if t != [] && IsSeparator(t[0]) {
      KeptDropSeparators(t[1..]);
    }
  }

  lemma {:induction false} RunsDropSeparators(s: string)
    requires s != [] && IsSeparator(s[0])
    ensures SeparatorRuns(s) == 1 + SeparatorRuns(DropSeparators(s[1..]))
    decreases |s|
  {
    if |s| > 1 && IsSeparator(s[1]) {
      RunsDropSeparators(s[1..]);
    }
  }

  /** The collapse keeps every character outside `[\s_]`, in order, and writes one
      underscore for each maximal separator run. */
  lemma {:induction false} CollapseKeepsAndCounts(s: string)
    ensures Kept(CollapseSeparators(s)) == Kept(s)
    ensures Underscores(CollapseSeparators(s)) == SeparatorRuns(s)
    decreases |s|
  {
    if s != [] {
      var r := CollapseSeparators(s);
      assert r[1..] == (if IsSeparator(s[0]) then CollapseSeparators(DropSeparators(s[1..])) else CollapseSeparators(s[1..]));
      if IsSeparator(s[0]) {
        CollapseKeepsAndCounts(DropSeparators(s[1..]));
        KeptDropSeparators(s[1..]);
        RunsDropSeparators(s);
      } else {
        CollapseKeepsAndCounts(s[1..]);
      }
    }
  }

  /** A string already free of whitespace and doubled underscores is unchanged by the
      collapse. */
  lemma {:induction false} CollapseFixed(s: string)
    requires NoSpace(s) && NoDoubleUnderscore(s)
    ensures CollapseSeparators(s) == s
    decreases |s|
  {
    if s != [] {
      if s[0] == '_' {
        if |s| > 1 {
          assert !IsSeparator(s[1]);
        }
        assert DropSeparators(s[1..]) == s[1..];
      }
      CollapseFixed(s[1..]);
    }
  }

  /** The text-column rule of `clean_data_format`: strip, lower-case, collapse. */
  function NormalizeText(s: string): string {
    CollapseSeparators(Lower(Strip(s)))
  }

  /** The fund-name rule of `clean_leverage_df`: lower-case, strip, collapse. */
  function NormalizeFundName(s: string): string {
    CollapseSeparators(Strip(Lower(s)))
  }

  /** The two orders of strip and lower-case give the same normal form. */
  lemma FundNameIsNormalizedText(s: string)
    ensures NormalizeFundName(s) == NormalizeText(s)
  {
    StripLowerCommute(s);
  }

  lemma LowerHasNoUpper(s: string)
    ensures NoUpper(Lower(s))
  {
  }

  lemma NormalizeTextShape(s: string)
    ensures NoSpace(NormalizeText(s)) && NoDoubleUnderscore(NormalizeText(s))
    ensures NoUpper(NormalizeText(s))
  {
    LowerHasNoUpper(Strip(s));
  }

  /** Normalising normalised text changes nothing. */
  lemma NormalizeTextIdempotent(s: string)
    ensures NormalizeText(NormalizeText(s)) == NormalizeText(s)
  {
    var t := NormalizeText(s);
    NormalizeTextShape(s);
    StripNoSpace(t);
    LowerOfNoUpper(t);
    CollapseFixed(t);
  }

  /** `s.replace(from, to)` for one character. */
  function ReplaceChar(s: string, from: char, to: char): string {
    seq(|s|, i requires 0 <= i < |s| => if s[i] == from then to else s[i])
  }

  /** Left-to-right, non-overlapping replacement of a literal pattern, as `re.sub`
      does for a pattern without metacharacters. */
  function ReplaceAll(s: string, pat: string, rep: string): string
    requires |pat| > 0
    decreases |s|
  {
    if s == [] then []
    else if pat <= s then rep + ReplaceAll(s[|pat|..], pat, rep)
    else [s[0]] + ReplaceAll(s[1..], pat, rep)
  }

  /** A pattern containing a character that s lacks never matches. */
  lemma {:induction false} ReplaceAllAbsent(s: string, pat: string, rep: string, c: char)
    requires |pat| > 0 && c in pat && c !in s
    ensures ReplaceAll(s, pat, rep) == s
    decreases |s|
  {
    if s != [] {
      assert !(pat <= s);
      ReplaceAllAbsent(s[1..], pat, rep, c);
    }
  }

  /** Replacing a pattern by itself is the identity. */
  lemma {:induction false} ReplaceAllSelf(s: string, pat: string)
    requires |pat| > 0
    ensures ReplaceAll(s, pat, pat) == s
    decreases |s|
  {
    if s != [] {
      if pat <= s {
        ReplaceAllSelf(s[|pat|..], pat);
        assert s == pat + s[|pat|..];
      } else {
        ReplaceAllSelf(s[1..], pat);
        assert s == [s[0]] + s[1..];
      }
    }
  }

  /** Python's `<` on strings: code-point order, a proper prefix first. */
  predicate LexLess(a: string, b: string) {
    if a == [] then b != []
    else b != [] && (a[0] < b[0] || (a[0] == b[0] && LexLess(a[1..], b[1..])))
  }

  lemma {:induction false} LexLessIrreflexive(a: string)
    ensures !LexLess(a, a)
  {
    if a != [] {
      LexLessIrreflexive(a[1..]);
    }
  }

  lemma {:induction false} LexLessTransitive(a: string, b: string, c: string)
    requires LexLess(a, b) && LexLess(b, c)
    ensures LexLess(a, c)
  {
    if a != [] && a[0] == b[0] && b[0] == c[0] {
      LexLessTransitive(a[1..], b[1..], c[1..]);
    }
  }

  lemma {:induction false} LexLessTotal(a: string, b: string)
    ensures a == b || LexLess(a, b) || LexLess(b, a)
  {
    if a != [] && b != [] && a[0] == b[0] {
      LexLessTotal(a[1..], b[1..]);
      assert a == [a[0]] + a[1..] && b == [b[0]] + b[1..];
    }
  }
}
