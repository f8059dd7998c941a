/** The "Condutas / Pendências" field (`CampoCondutas` in
    src/screens/PassometroScreen.jsx): the stored text is cut at line breaks
    and at "|", the trimmed non-blank lines are laid out in three columns of
    at most four lines, and lines past the twelfth are not shown. */
module Condutas {
  import opened Lists
  import opened Strings

  const ColumnCount: nat := 3
  const ColumnHeight: nat := 4

  /** A line as the layout shows it. */
  predicate ShownLine(l: string) {
    NonEmpty(l) && IsTrimmed(l) && '\n' !in l && '|' !in l
  }

  predicate TrimmedPiece(l: string) {
    IsTrimmed(l) && '\n' !in l && '|' !in l
  }

  /** `(valor || "").split(/\n|\|/).map(trim).filter(Boolean)`; a missing
      value is the empty text. */
  function CondutasLines(valor: string): (r: seq<string>)
    ensures forall i :: 0 <= i < |r| ==> ShownLine(r[i])
  {
    var pieces := SplitOnAny(valor, {'\n', '|'});
    var trimmed := Map(Trim, pieces);
    forall i | 0 <= i < |trimmed| ensures TrimmedPiece(trimmed[i]) {
      assert forall j :: 0 <= j < |pieces[i]| ==> pieces[i][j] !in {'\n', '|'};
      TrimExcludes(pieces[i], '\n');
      TrimExcludes(pieces[i], '|');
    }
    FilterPreserves(NonEmpty, TrimmedPiece, trimmed);
    Filter(NonEmpty, trimmed)
  }

  /** An empty field has no lines. */
  lemma NoLinesForEmptyText()
    ensures CondutasLines("") == []
  {
    assert SplitOnAny("", {'\n', '|'}) == [""];
    MapSingle(Trim, "");
    TrimOfTrimmed("");
    FilterSingle(NonEmpty, "");
  }

  /** Lines written one per line, or separated by "|", come back as written. */
  lemma LinesRoundTrip(c: char, ls: seq<string>)
    requires c == '\n' || c == '|'
    requires |ls| >= 1
    requires forall i :: 0 <= i < |ls| ==> ShownLine(ls[i])
    ensures CondutasLines(Join([c], ls)) == ls
  {
    forall i, j | 0 <= i < |ls| && 0 <= j < |ls[i]| ensures ls[i][j] !in {'\n', '|'} {
      assert ls[i][j] in ls[i];
    }
    SplitOnAnyJoin(Join([c], ls), c, {'\n', '|'}, ls);
    forall i | 0 <= i < |ls| ensures Trim(ls[i]) == ls[i] {
      TrimOfTrimmed(ls[i]);
    }
    MapFixed(Trim, ls);
    FilterKeepsAll(NonEmpty, ls);
  }

  /** The lines of a text cut at a line break or a "|" are the lines of the
      part before followed by the lines of the part after. */
  lemma LinesConcat(s: string, c: char, t: string)
    requires c == '\n' || c == '|'
    ensures CondutasLines(s + [c] + t) == CondutasLines(s) + CondutasLines(t)
  {
    var cs := {'\n', '|'};
    SplitOnAnyConcat(s, c, cs, t);
    MapConcat(Trim, SplitOnAny(s, cs), SplitOnAny(t, cs));
    FilterConcat(NonEmpty, Map(Trim, SplitOnAny(s, cs)), Map(Trim, SplitOnAny(t, cs)));
  }

  /** A line holding only whitespace shows nothing. */
  lemma BlankTextHasNoLines(w: string)
    requires AllSpace(w) && '\n' !in w && '|' !in w
    ensures CondutasLines(w) == []
  {
    var cs := {'\n', '|'};
    assert FirstIndexOfAny(w, cs, 0) == |w|;
    assert SplitOnAny(w, cs) == [w];
    MapSingle(Trim, w);
    assert w == w + "" + "";
    TrimPadded(w, "", "");
    FilterSingle(NonEmpty, "");
  }

  /** A blank line between two texts is dropped. */
  lemma BlankLineDropped(s: string, w: string, t: string)
    requires AllSpace(w) && '\n' !in w && '|' !in w
    ensures CondutasLines(s + "\n" + w + "\n" + t) == CondutasLines(s) + CondutasLines(t)
  {
    assert s + "\n" + w + "\n" + t == s + ['\n'] + (w + ['\n'] + t);
    LinesConcat(s, '\n', w + ['\n'] + t);
    LinesConcat(w, '\n', t);
    BlankTextHasNoLines(w);
    assert [] + CondutasLines(t) == CondutasLines(t);
  }

  // ---------------------------------------------------------------------
  // Columns
  // ---------------------------------------------------------------------

  function Min(a: int, b: int): int {
    if a <= b then a else b
  }

  /** Column `k` holds the lines numbered 4k to 4k+3, as far as they exist. */
  function Column(lines: seq<string>, k: nat): (r: seq<string>)
    ensures |r| <= ColumnHeight
  {
    lines[Min(ColumnHeight * k, |lines|)..Min(ColumnHeight * k + ColumnHeight, |lines|)]
  }

  /** The `forEach` that packs line `i` into column `floor(i / 4)` when that
      column exists. */
  method LayoutColumns(lines: seq<string>) returns (columns: seq<seq<string>>)
    ensures |columns| == ColumnCount
    ensures forall k :: 0 <= k < ColumnCount ==> columns[k] == Column(lines, k)
    ensures forall k :: 0 <= k < ColumnCount ==> |columns[k]| <= ColumnHeight
    ensures forall i :: 0 <= i < Min(|lines|, ColumnCount * ColumnHeight) ==>
      i / ColumnHeight < ColumnCount && i % ColumnHeight < |columns[i / ColumnHeight]| &&
      columns[i / ColumnHeight][i % ColumnHeight] == lines[i]
    ensures columns[0] + columns[1] + columns[2] == lines[..Min(|lines|, ColumnCount * ColumnHeight)]
    ensures forall k :: 0 < k < ColumnCount && |columns[k]| > 0 ==> |columns[k - 1]| == ColumnHeight
    ensures forall k :: 0 <= k < ColumnCount ==> (|columns[k]| > 0 <==> ColumnHeight * k < |lines|)
  {
    columns := [[], [], []];
    var i := 0;
    while i < |lines|
      invariant 0 <= i <= |lines|
      invariant |columns| == ColumnCount
      invariant forall k :: 0 <= k < ColumnCount ==>
        columns[k] == lines[Min(ColumnHeight * k, i)..Min(ColumnHeight * k + ColumnHeight, i)]
    {
      var idx := i / ColumnHeight;
      if idx < ColumnCount {
        columns := columns[idx := columns[idx] + [lines[i]]];
      }
      forall k | 0 <= k < ColumnCount
        ensures columns[k] == lines[Min(ColumnHeight * k, i + 1)..Min(ColumnHeight * k + ColumnHeight, i + 1)]
      {
        ColumnStep(lines, i, k);
      }
      i := i + 1;
    }
    forall j | 0 <= j < Min(|lines|, ColumnCount * ColumnHeight)
      ensures j / ColumnHeight < ColumnCount && j % ColumnHeight < |columns[j / ColumnHeight]|
      ensures columns[j / ColumnHeight][j % ColumnHeight] == lines[j]
    {
      ColumnIndex(lines, j);
    }
    ColumnsConcat(lines);
    ColumnShape(lines);
  }

  /** Taking line `i` in grows the column `i / 4` by that line and leaves the
      others alone. */
  lemma ColumnStep(lines: seq<string>, i: nat, k: nat)
    requires i < |lines|
    ensures lines[Min(ColumnHeight * k, i + 1)..Min(ColumnHeight * k + ColumnHeight, i + 1)] ==
      if k == i / ColumnHeight then lines[Min(ColumnHeight * k, i)..Min(ColumnHeight * k + ColumnHeight, i)] + [lines[i]]
      else lines[Min(ColumnHeight * k, i)..Min(ColumnHeight * k + ColumnHeight, i)]
  {
    var q, r := i / 4, i % 4;
    assert i == 4 * q + r && 0 <= r < 4;
    if k == q {
      assert 4 * k <= i < 4 * k + 4;
    } else if k < q {
      assert 4 * k + 4 <= i;
    } else {
      assert i < 4 * k;
    }
  }

  /** Columns fill in order: a column has lines only when the one before it
      is full, and exactly when some line falls at or past its first row. */
  lemma ColumnShape(lines: seq<string>)
    ensures forall k :: 0 < k < ColumnCount && |Column(lines, k)| > 0 ==> |Column(lines, k - 1)| == ColumnHeight
    ensures forall k :: 0 <= k < ColumnCount ==> (|Column(lines, k)| > 0 <==> ColumnHeight * k < |lines|)
  {
  }

  /** Line `i` of the first twelve sits in column `i / 4`, row `i % 4`. */
  lemma ColumnIndex(lines: seq<string>, i: nat)
    requires i < Min(|lines|, ColumnCount * ColumnHeight)
    ensures i / ColumnHeight < ColumnCount
    ensures i % ColumnHeight < |Column(lines, i / ColumnHeight)|
    ensures Column(lines, i / ColumnHeight)[i % ColumnHeight] == lines[i]
  {
    var k, r := i / 4, i % 4;
    assert i == 4 * k + r && 0 <= r < 4;
    assert 4 * k <= i < 4 * k + 4;
  }

  lemma ColumnsConcat(lines: seq<string>)
    ensures Column(lines, 0) + Column(lines, 1) + Column(lines, 2) == lines[..Min(|lines|, ColumnCount * ColumnHeight)]
  {
    var n := |lines|;
    assert lines[..Min(n, 12)] == lines[..Min(n, 4)] + lines[Min(n, 4)..Min(n, 8)] + lines[Min(n, 8)..Min(n, 12)];
  }
}
