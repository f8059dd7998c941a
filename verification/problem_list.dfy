/** The problem-list micro-format of the "Problemas" field (`Campo` in
    src/screens/PassometroScreen.jsx). A stored value is a list of blocks
    joined by " | "; a block is a principal statement followed by sub-items,
    joined by "~". The read-only view decodes it into blocks; the editor
    expands it into one line per part, sub-items marked "> ", and collapses
    the edited lines back on save. */
module ProblemList {
  import opened Wrappers
  import opened Lists
  import opened Strings

  /** One block of the read-only view. `principal` is `None` when the block
      held only separators, which the view then renders as nothing. */
  datatype ProblemBlock = ProblemBlock(principal: Option<string>, subitems: seq<string>)

  // ---------------------------------------------------------------------
  // Read-only decode
  // ---------------------------------------------------------------------

  /** The trimmed, non-empty "~"-parts of one block, in order. */
  function DisplayParts(block: string): (r: seq<string>)
    ensures forall i :: 0 <= i < |r| ==> NonEmpty(r[i]) && IsTrimmed(r[i]) && '~' !in r[i]
  {
    var pieces := Split(block, "~");
    SplitPiecesLack(block, '~');
    TrimAllLack(pieces, '~');
    var trimmed := Map(Trim, pieces);
    FilterPreserves(NonEmpty, PlainPart, trimmed);
    Filter(NonEmpty, trimmed)
  }

  /** Trimmed and free of "~". */
  predicate PlainPart(p: string) {
    IsTrimmed(p) && '~' !in p
  }

  function DecodeBlock(block: string): (r: ProblemBlock)
    ensures WellFormedDisplay(r)
  {
    var parts := DisplayParts(block);
    if |parts| == 0 then ProblemBlock(None, [])
    else
      assert forall j :: 0 <= j < |parts[1..]| ==> parts[1..][j] == parts[j + 1];
      ProblemBlock(Some(parts[0]), parts[1..])
  }

  /** The blocks the read-only view shows: the trimmed non-empty " | "-blocks,
      each with its first part as principal and the rest as sub-items. */
  function DecodeDisplay(valor: string): (r: seq<ProblemBlock>)
    ensures |r| <= |Split(valor, " | ")|
    ensures forall i :: 0 <= i < |r| ==> WellFormedDisplay(r[i])
  {
    var blocks := Filter(NonEmpty, Map(Trim, Split(valor, " | ")));
    Map(DecodeBlock, blocks)
  }

  /** Every part shown is trimmed, non-empty and free of "~", and a block
      without a principal has no sub-items. */
  predicate WellFormedDisplay(b: ProblemBlock) {
    (b.principal.None? ==> b.subitems == [])
    && (b.principal.Some? ==> NonEmpty(b.principal.value) && IsTrimmed(b.principal.value) && '~' !in b.principal.value)
    && forall j :: 0 <= j < |b.subitems| ==> NonEmpty(b.subitems[j]) && IsTrimmed(b.subitems[j]) && '~' !in b.subitems[j]
  }

  // ---------------------------------------------------------------------
  // Editor expand
  // ---------------------------------------------------------------------

  function MarkSubitem(p: string): string {
    "> " + p
  }

  /** One editor line per part: the principal as is, each sub-item marked. */
  function EditLines(parts: seq<string>): (r: seq<string>)
    ensures |r| == |parts|
    ensures |parts| > 0 ==> r[0] == parts[0]
    ensures forall i :: 1 <= i < |parts| ==> r[i] == MarkSubitem(parts[i])
  {
    if |parts| == 0 then [] else [parts[0]] + Map(MarkSubitem, parts[1..])
  }

  function ExpandBlock(block: string): string {
    Join("\n", EditLines(Map(Trim, Split(block, "~"))))
  }

  /** The text the editor shows for a stored value. */
  function Expand(valor: string): string {
    Join("\n", Map(ExpandBlock, Split(valor, " | ")))
  }

  // ---------------------------------------------------------------------
  // Editor collapse
  // ---------------------------------------------------------------------

  predicate IsSubitemLine(l: string) {
    |l| > 0 && l[0] == '>'
  }

  predicate IsPrincipalLine(l: string) {
    !IsSubitemLine(l)
  }

  /** `l.replace(/^>\s*\/, "")`: drops the marker and the whitespace after it. */
  function StripMarker(l: string): string {
    if IsSubitemLine(l) then TrimStart(l[1..]) else l
  }

  /** The trimmed, non-blank lines of an edited text, in order. */
  function NonBlankLines(valor: string): (r: seq<string>)
    ensures forall i :: 0 <= i < |r| ==> NonEmpty(r[i]) && IsTrimmed(r[i])
  {
    var trimmed := Map(Trim, Split(valor, "\n"));
    FilterPreserves(NonEmpty, IsTrimmed, trimmed);
    Filter(NonEmpty, trimmed)
  }

  /** The save-time line scanner. `open` is the block being built: a
      principal line closes it and opens a new one, a marked line adds a
      sub-item to it, or is dropped when no block is open yet. */
  function Scan(lines: seq<string>, open: Option<seq<string>>): seq<seq<string>>
    decreases |lines|
  {
    if |lines| == 0 then
      (if open.Some? then [open.value] else [])
    else if IsSubitemLine(lines[0]) then
      Scan(lines[1..], if open.Some? then Some(open.value + [StripMarker(lines[0])]) else None)
    else
      (if open.Some? then [open.value] else []) + Scan(lines[1..], Some([lines[0]]))
  }

  /** The blocks an edited text saves as, each as its list of parts. */
  function CollapseBlocks(valor: string): seq<seq<string>> {
    Scan(NonBlankLines(valor), None)
  }

  function EncodeBlock(parts: seq<string>): string {
    Join(" ~ ", parts)
  }

  /** The stored form of a list of blocks. */
  function Encode(blocks: seq<seq<string>>): string {
    Join(" | ", Map(EncodeBlock, blocks))
  }

  /** The stored value the OK button writes for an edited text. */
  function Collapse(valor: string): string {
    Encode(CollapseBlocks(valor))
  }

  // ---------------------------------------------------------------------
  // Canonical values
  // ---------------------------------------------------------------------

  /** A part that survives every split and trim of the format unchanged. */
  predicate CanonicalPart(p: string) {
    NonEmpty(p) && IsTrimmed(p) && '~' !in p && '|' !in p && '\n' !in p
  }

  predicate CanonicalBlock(b: seq<string>) {
    |b| >= 1 && (forall i :: 0 <= i < |b| ==> CanonicalPart(b[i])) && b[0][0] != '>'
  }

  predicate Canonical(blocks: seq<seq<string>>) {
    forall i :: 0 <= i < |blocks| ==> CanonicalBlock(blocks[i])
  }

  // ---------------------------------------------------------------------
  // Helper facts
  // ---------------------------------------------------------------------

  lemma TrimAllLack(xs: seq<string>, c: char)
    requires forall i :: 0 <= i < |xs| ==> c !in xs[i]
    ensures forall i :: 0 <= i < |Map(Trim, xs)| ==> c !in Map(Trim, xs)[i]
  {
    forall i | 0 <= i < |xs| ensures c !in Trim(xs[i]) {
      TrimExcludes(xs[i], c);
    }
  }

  lemma {:induction false} JoinEnds(sep: string, xs: seq<string>)
    requires |xs| >= 1 && forall i :: 0 <= i < |xs| ==> |xs[i]| >= 1
    ensures |Join(sep, xs)| >= 1
    ensures Join(sep, xs)[0] == xs[0][0]
    ensures Join(sep, xs)[|Join(sep, xs)| - 1] == xs[|xs| - 1][|xs[|xs| - 1]| - 1]
    decreases |xs|
  {
    if |xs| > 1 {
      JoinEnds(sep, xs[1..]);
    }
  }

  lemma EncodeBlockFacts(b: seq<string>)
    requires CanonicalBlock(b)
    ensures IsTrimmed(EncodeBlock(b)) && NonEmpty(EncodeBlock(b))
    ensures EncodeBlock(b)[0] == b[0][0]
    ensures '|' !in EncodeBlock(b) && '\n' !in EncodeBlock(b)
  {
    JoinEnds(" ~ ", b);
    JoinExcludes(" ~ ", b, '|');
    JoinExcludes(" ~ ", b, '\n');
  }

  /** Splitting " ~ "-joined parts on "~" and trimming recovers the parts. */
  lemma {:induction false} TildeSplitTrim(lead: string, ps: seq<string>)
    requires |ps| >= 1 && AllSpace(lead) && '~' !in lead
    requires forall i :: 0 <= i < |ps| ==> IsTrimmed(ps[i]) && '~' !in ps[i]
    ensures Map(Trim, Split(lead + Join(" ~ ", ps), "~")) == ps
    decreases |ps|
  {
    if |ps| == 1 {
      assert ps == [ps[0]];
      TildeLast(lead, ps[0]);
    } else {
      TildeFirst(lead, ps);
      OneSpace();
      assert forall i :: 0 <= i < |ps[1..]| ==> ps[1..][i] == ps[i + 1];
      TildeSplitTrim(" ", ps[1..]);
      HeadTail(ps);
    }
  }

  lemma OneSpace()
    ensures AllSpace(" ") && '~' !in " "
  {
  }

  lemma TildeLast(lead: string, p: string)
    requires AllSpace(lead) && '~' !in lead && IsTrimmed(p) && '~' !in p
    ensures Map(Trim, Split(lead + Join(" ~ ", [p]), "~")) == [p]
  {
    assert MarkedAt("~", 0);
    JoinSingle(" ~ ", p);
    NotInConcat('~', lead, p);
    SplitNone(lead + p, "~", 0);
    assert lead + p == lead + p + "";
    TrimPadded(lead, p, "");
    MapSingle(Trim, lead + p);
  }

  /** The first "~"-part of a joined list trims to the first element; the
      rest is the remaining list behind one space. */
  lemma TildeFirst(lead: string, ps: seq<string>)
    requires |ps| >= 2 && AllSpace(lead) && '~' !in lead
    requires IsTrimmed(ps[0]) && '~' !in ps[0]
    ensures Map(Trim, Split(lead + Join(" ~ ", ps), "~")) ==
      [ps[0]] + Map(Trim, Split(" " + Join(" ~ ", ps[1..]), "~"))
  {
    assert MarkedAt("~", 0);
    var j := Join(" ~ ", ps[1..]);
    var x := lead + ps[0] + " ";
    var y := " " + j;
    JoinCons(" ~ ", ps);
    TildeRegroup(lead, ps[0], j);
    NotInConcat('~', lead, ps[0]);
    NotInConcat('~', lead + ps[0], " ");
    SplitStep(x, "~", 0, y);
    OneSpace();
    TrimPadded(lead, ps[0], " ");
    MapCons(Trim, x, Split(y, "~"));
  }

  lemma TildeRegroup(lead: string, a: string, j: string)
    ensures lead + (a + " ~ " + j) == (lead + a + " ") + "~" + (" " + j)
  {
    assert " ~ " == " " + "~" + " ";
  }

  lemma SplitEncode(blocks: seq<seq<string>>)
    requires |blocks| >= 1 && Canonical(blocks)
    ensures Split(Encode(blocks), " | ") == Map(EncodeBlock, blocks)
  {
    var ys := Map(EncodeBlock, blocks);
    forall i | 0 <= i < |ys| ensures '|' !in ys[i] {
      EncodeBlockFacts(blocks[i]);
    }
    assert MarkedAt(" | ", 1);
    SplitJoinMarked(" | ", 1, ys);
  }

  lemma ExpandEncodedBlock(b: seq<string>)
    requires CanonicalBlock(b)
    ensures ExpandBlock(EncodeBlock(b)) == Join("\n", EditLines(b))
  {
    assert "" + EncodeBlock(b) == EncodeBlock(b);
    TildeSplitTrim("", b);
  }

  lemma ExpandEncode(blocks: seq<seq<string>>)
    requires |blocks| >= 1 && Canonical(blocks)
    ensures Expand(Encode(blocks)) == Join("\n", Flatten(Map(EditLines, blocks)))
  {
    SplitEncode(blocks);
    var ys := Map(ExpandBlock, Map(EncodeBlock, blocks));
    var xss := Map(EditLines, blocks);
    forall i | 0 <= i < |blocks| ensures |xss[i]| >= 1 && ys[i] == Join("\n", xss[i]) {
      ExpandEncodedBlock(blocks[i]);
    }
    JoinFlatten("\n", ys, xss);
  }

  /** A line of the editor text as canonical blocks expand: trimmed,
      non-empty and without a line break. */
  predicate EditLine(l: string) {
    NonEmpty(l) && IsTrimmed(l) && '\n' !in l
  }

  /** The editor lines of canonical blocks are trimmed, non-empty and one
      line each. */
  lemma {:induction false} EditLinesFacts(blocks: seq<seq<string>>)
    requires Canonical(blocks)
    ensures forall i :: 0 <= i < |Flatten(Map(EditLines, blocks))| ==> EditLine(Flatten(Map(EditLines, blocks))[i])
    decreases |blocks|
  {
    if |blocks| > 0 {
      var b := blocks[0];
      HeadTail(blocks);
      MapCons(EditLines, b, blocks[1..]);
      FlattenCons(EditLines(b), Map(EditLines, blocks[1..]));
      BlockEditLines(b);
      EditLinesFacts(blocks[1..]);
      AllOfConcat(EditLine, EditLines(b), Flatten(Map(EditLines, blocks[1..])));
    }
  }

  lemma BlockEditLines(b: seq<string>)
    requires CanonicalBlock(b)
    ensures forall i :: 0 <= i < |EditLines(b)| ==> EditLine(EditLines(b)[i])
  {
    var ls := EditLines(b);
    forall i | 0 <= i < |ls| ensures EditLine(ls[i]) {
      if i > 0 {
        var p := b[i];
        assert ls[i] == "> " + p;
        assert ls[i][0] == '>' && ls[i][|ls[i]| - 1] == p[|p| - 1];
        PrintableNotSpace('>');
      }
    }
  }

  lemma NonBlankLinesOfJoin(lines: seq<string>)
    requires |lines| >= 1
    requires forall i :: 0 <= i < |lines| ==> EditLine(lines[i])
    ensures NonBlankLines(Join("\n", lines)) == lines
  {
    assert MarkedAt("\n", 0);
    SplitJoinMarked("\n", 0, lines);
    forall i | 0 <= i < |lines| ensures Trim(lines[i]) == lines[i] {
      TrimOfTrimmed(lines[i]);
    }
    MapFixed(Trim, lines);
    FilterKeepsAll(NonEmpty, lines);
  }

  lemma {:induction false} ScanSubitems(ss: seq<string>, rest: seq<string>, a: seq<string>)
    requires forall i :: 0 <= i < |ss| ==> CanonicalPart(ss[i])
    ensures Scan(Map(MarkSubitem, ss) + rest, Some(a)) == Scan(rest, Some(a + ss))
    decreases |ss|
  {
    if |ss| == 0 {
      assert Map(MarkSubitem, ss) + rest == rest;
      assert a + ss == a;
    } else {
      HeadTail(ss);
      ScanSubitemCons(ss[0], ss[1..], rest, a);
      ScanSubitems(ss[1..], rest, a + [ss[0]]);
      assert a + [ss[0]] + ss[1..] == a + ss;
    }
  }

  lemma ScanSubitemCons(x: string, ss: seq<string>, rest: seq<string>, a: seq<string>)
    requires CanonicalPart(x)
    ensures Scan(Map(MarkSubitem, [x] + ss) + rest, Some(a)) == Scan(Map(MarkSubitem, ss) + rest, Some(a + [x]))
  {
    var lines := Map(MarkSubitem, [x] + ss) + rest;
    MapCons(MarkSubitem, x, ss);
    assert lines == [MarkSubitem(x)] + (Map(MarkSubitem, ss) + rest);
    StripMarkSubitem(x);
    ScanSubitemStep(lines, Some(a));
    assert lines[1..] == Map(MarkSubitem, ss) + rest;
  }

  /** A marked canonical part is a sub-item line that unmarks to the part. */
  lemma StripMarkSubitem(p: string)
    requires CanonicalPart(p)
    ensures IsSubitemLine(MarkSubitem(p)) && StripMarker(MarkSubitem(p)) == p
  {
    var l := MarkSubitem(p);
    assert l[0] == '>' && l[1..] == " " + p;
    TrimStartSkipsSpace(" ", p);
    TrimStartOfTrimmed(p);
  }

  /** Scanning the editor lines of canonical blocks rebuilds the blocks. */
  lemma {:induction false} ScanEditLines(blocks: seq<seq<string>>, open: Option<seq<string>>)
    requires Canonical(blocks)
    ensures Scan(Flatten(Map(EditLines, blocks)), open) == (if open.Some? then [open.value] else []) + blocks
    decreases |blocks|
  {
    if |blocks| == 0 {
      assert Flatten(Map(EditLines, blocks)) == [];
    } else {
      var b := blocks[0];
      var rest := Flatten(Map(EditLines, blocks[1..]));
      FlattenEditLinesCons(blocks);
      ScanBlock(b, rest, open);
      ScanEditLines(blocks[1..], Some(b));
      assert [b] + blocks[1..] == blocks;
    }
  }

  lemma FlattenEditLinesCons(blocks: seq<seq<string>>)
    requires |blocks| >= 1 && |blocks[0]| >= 1
    ensures Flatten(Map(EditLines, blocks)) ==
      [blocks[0][0]] + (Map(MarkSubitem, blocks[0][1..]) + Flatten(Map(EditLines, blocks[1..])))
  {
    var b := blocks[0];
    HeadTail(blocks);
    MapCons(EditLines, b, blocks[1..]);
    var m := Map(EditLines, blocks);
    assert m == [EditLines(b)] + Map(EditLines, blocks[1..]);
    FlattenCons(EditLines(b), Map(EditLines, blocks[1..]));
    ConsAssoc(b[0], Map(MarkSubitem, b[1..]), Flatten(Map(EditLines, blocks[1..])));
  }

  /** The edit lines of one block, followed by anything, close the open
      block and leave this one open. */
  lemma ScanBlock(b: seq<string>, rest: seq<string>, open: Option<seq<string>>)
    requires CanonicalBlock(b)
    ensures Scan([b[0]] + (Map(MarkSubitem, b[1..]) + rest), open) ==
      (if open.Some? then [open.value] else []) + Scan(rest, Some(b))
  {
    var lines := [b[0]] + (Map(MarkSubitem, b[1..]) + rest);
    assert lines[1..] == Map(MarkSubitem, b[1..]) + rest;
    ScanSubitems(b[1..], rest, [b[0]]);
    assert [b[0]] + b[1..] == b;
  }


  // ---------------------------------------------------------------------
  // Laws of the codec
  // ---------------------------------------------------------------------

  /** Opening the editor on a canonical value and saving without changes
      stores the same value. */
  lemma CollapseExpandRoundTrip(blocks: seq<seq<string>>)
    requires Canonical(blocks)
    ensures CollapseBlocks(Expand(Encode(blocks))) == blocks
    ensures Collapse(Expand(Encode(blocks))) == Encode(blocks)
  {
    if |blocks| == 0 {
      assert Encode(blocks) == "";
      ExpandTrimsTypedText("");
      TrimOfTrimmed("");
      NonBlankLinesSingle("");
    } else {
      var lines := Flatten(Map(EditLines, blocks));
      ExpandedLines(blocks);
      NonBlankLinesOfJoin(lines);
      ScanEditLines(blocks, None);
    }
  }

  /** The editor text of non-empty canonical blocks is the "\n"-join of their
      editor lines, which are trimmed, non-empty single lines. */
  lemma ExpandedLines(blocks: seq<seq<string>>)
    requires Canonical(blocks) && |blocks| >= 1
    ensures Expand(Encode(blocks)) == Join("\n", Flatten(Map(EditLines, blocks)))
    ensures |Flatten(Map(EditLines, blocks))| >= 1
    ensures forall i :: 0 <= i < |Flatten(Map(EditLines, blocks))| ==> EditLine(Flatten(Map(EditLines, blocks))[i])
  {
    ExpandEncode(blocks);
    EditLinesFacts(blocks);
    FlattenEditLinesCons(blocks);
  }

  /** A text without line breaks has at most one non-blank line: itself, trimmed. */
  lemma NonBlankLinesSingle(s: string)
    requires '\n' !in s
    ensures NonBlankLines(s) == if |Trim(s)| == 0 then [] else [Trim(s)]
  {
    assert MarkedAt("\n", 0);
    SplitNone(s, "\n", 0);
    MapSingle(Trim, s);
    FilterSingle(NonEmpty, Trim(s));
  }

  /** The read-only view of a canonical value shows exactly its blocks:
      first part as principal, the rest as sub-items, in order. */
  lemma DecodeEncode(blocks: seq<seq<string>>)
    requires Canonical(blocks)
    ensures |DecodeDisplay(Encode(blocks))| == |blocks|
    ensures forall i :: 0 <= i < |blocks| ==>
      DecodeDisplay(Encode(blocks))[i] == ProblemBlock(Some(blocks[i][0]), blocks[i][1..])
  {
    if |blocks| == 0 {
      assert Encode(blocks) == "";
      DecodeEmpty();
    } else {
      SplitEncode(blocks);
      var ys := Map(EncodeBlock, blocks);
      forall i | 0 <= i < |ys| ensures Trim(ys[i]) == ys[i] && NonEmpty(ys[i]) {
        EncodeBlockFacts(blocks[i]);
        TrimOfTrimmed(ys[i]);
      }
      MapFixed(Trim, ys);
      FilterKeepsAll(NonEmpty, ys);
      forall i | 0 <= i < |blocks|
        ensures DecodeBlock(ys[i]) == ProblemBlock(Some(blocks[i][0]), blocks[i][1..])
      {
        DecodeEncodedBlock(blocks[i]);
      }
    }
  }

  /** An empty value shows no blocks. */
  lemma DecodeEmpty()
    ensures DecodeDisplay("") == []
  {
    assert MarkedAt(" | ", 1);
    SplitNone("", " | ", 1);
    MapSingle(Trim, "");
    TrimOfTrimmed("");
    FilterSingle(NonEmpty, "");
  }

  /** One canonical block decodes to its first part and the remaining parts. */
  lemma DecodeEncodedBlock(b: seq<string>)
    requires CanonicalBlock(b)
    ensures DecodeBlock(EncodeBlock(b)) == ProblemBlock(Some(b[0]), b[1..])
  {
    assert "" + EncodeBlock(b) == EncodeBlock(b);
    TildeSplitTrim("", b);
    FilterKeepsAll(NonEmpty, b);
  }

  /** A value with a single line that is not a marked line saves as itself,
      trimmed: pressing OK without typing changes nothing. */
  lemma CollapseSingleLine(s: string)
    requires '\n' !in s && !IsSubitemLine(Trim(s))
    ensures Collapse(s) == Trim(s)
  {
    NonBlankLinesSingle(s);
    var t := Trim(s);
    if |t| == 0 {
      assert CollapseBlocks(s) == [];
      assert Encode([]) == "";
    } else {
      assert Scan([t], None) == [] + Scan([], Some([t]));
      assert CollapseBlocks(s) == [[t]];
      MapSingle(EncodeBlock, [t]);
      JoinSingle(" ~ ", t);
      JoinSingle(" | ", t);
    }
  }

  /** Saving a canonical value unedited is a no-op. */
  lemma CollapseCanonicalIsNoop(blocks: seq<seq<string>>)
    requires Canonical(blocks)
    ensures Collapse(Encode(blocks)) == Encode(blocks)
  {
    var s := Encode(blocks);
    var ys := Map(EncodeBlock, blocks);
    forall i | 0 <= i < |ys| ensures '\n' !in ys[i] && NonEmpty(ys[i]) && IsTrimmed(ys[i]) {
      EncodeBlockFacts(blocks[i]);
    }
    JoinExcludes(" | ", ys, '\n');
    if |blocks| == 0 {
      TrimOfTrimmed(s);
    } else {
      JoinEnds(" | ", ys);
      EncodeBlockFacts(blocks[0]);
      TrimOfTrimmed(s);
    }
    CollapseSingleLine(s);
  }

  function Head(b: seq<string>): string {
    if |b| > 0 then b[0] else ""
  }

  /** Each saved block starts with a principal line, and every principal
      line starts a block, in order. */
  lemma {:induction false} ScanPrincipals(lines: seq<string>, open: Option<seq<string>>)
    requires open.Some? ==> |open.value| >= 1
    ensures Map(Head, Scan(lines, open)) ==
      (if open.Some? then [Head(open.value)] else []) + Filter(IsPrincipalLine, lines)
    decreases |lines|
  {
    var heads := if open.Some? then [Head(open.value)] else [];
    if |lines| == 0 {
      assert Filter(IsPrincipalLine, lines) == [];
      OpenHeads(open);
    } else {
      var x := lines[0];
      HeadTail(lines);
      FilterCons(IsPrincipalLine, x, lines[1..]);
      if IsSubitemLine(x) {
        var next := if open.Some? then Some(open.value + [StripMarker(x)]) else None;
        ScanSubitemStep(lines, open);
        ScanPrincipals(lines[1..], next);
        assert (if next.Some? then [Head(next.value)] else []) == heads;
        assert Filter(IsPrincipalLine, lines) == Filter(IsPrincipalLine, lines[1..]);
      } else {
        var tail := Scan(lines[1..], Some([x]));
        ScanPrincipalStep(lines, open);
        ScanPrincipals(lines[1..], Some([x]));
        OpenHeads(open);
        MapConcat(Head, if open.Some? then [open.value] else [], tail);
        assert Filter(IsPrincipalLine, lines) == [x] + Filter(IsPrincipalLine, lines[1..]);
      }
    }
  }

  lemma OpenHeads(open: Option<seq<string>>)
    ensures Map(Head, if open.Some? then [open.value] else []) == if open.Some? then [Head(open.value)] else []
  {
  }

  lemma ScanSubitemStep(lines: seq<string>, open: Option<seq<string>>)
    requires |lines| > 0 && IsSubitemLine(lines[0])
    ensures Scan(lines, open) == Scan(lines[1..], if open.Some? then Some(open.value + [StripMarker(lines[0])]) else None)
  {
  }

  lemma ScanPrincipalStep(lines: seq<string>, open: Option<seq<string>>)
    requires |lines| > 0 && !IsSubitemLine(lines[0])
    ensures Scan(lines, open) == (if open.Some? then [open.value] else []) + Scan(lines[1..], Some([lines[0]]))
  {
  }


  /** Saving yields one block per non-blank line that does not start with
      ">", each block led by that line. */
  lemma CollapseBlockPrincipals(valor: string)
    ensures |CollapseBlocks(valor)| == |Filter(IsPrincipalLine, NonBlankLines(valor))|
    ensures Map(Head, CollapseBlocks(valor)) == Filter(IsPrincipalLine, NonBlankLines(valor))
  {
    ScanPrincipals(NonBlankLines(valor), None);
  }

  /** The non-blank lines of two texts joined by a line break are those of
      the first followed by those of the second. */
  lemma NonBlankLinesConcat(s: string, t: string)
    ensures NonBlankLines(s + "\n" + t) == NonBlankLines(s) + NonBlankLines(t)
  {
    var nl := {'\n'};
    SplitOnAnySingle(s + "\n" + t, '\n');
    SplitOnAnySingle(s, '\n');
    SplitOnAnySingle(t, '\n');
    SplitOnAnyConcat(s, '\n', nl, t);
    MapConcat(Trim, SplitOnAny(s, nl), SplitOnAny(t, nl));
    FilterConcat(NonEmpty, Map(Trim, SplitOnAny(s, nl)), Map(Trim, SplitOnAny(t, nl)));
  }

  /** A line holding only whitespace has no non-blank lines. */
  lemma BlankLineHasNoLines(w: string)
    requires AllSpace(w) && '\n' !in w
    ensures NonBlankLines(w) == []
  {
    assert MarkedAt("\n", 0);
    SplitNone(w, "\n", 0);
    MapSingle(Trim, w);
    assert w == w + "" + "";
    TrimPadded(w, "", "");
    FilterSingle(NonEmpty, "");
  }

  /** Saving ignores a blank line between two texts. */
  lemma BlankLineIgnored(s: string, w: string, t: string)
    requires AllSpace(w) && '\n' !in w
    ensures Collapse(s + "\n" + w + "\n" + t) == Collapse(s + "\n" + t)
  {
    BlankLineSkipped(s, w, t);
  }

  lemma BlankLineSkipped(s: string, w: string, t: string)
    requires AllSpace(w) && '\n' !in w
    ensures NonBlankLines(s + "\n" + w + "\n" + t) == NonBlankLines(s + "\n" + t)
  {
    Regroup(s, "\n", w, "\n", t);
    NonBlankLinesConcat(s, w + "\n" + t);
    NonBlankLinesConcat(w, t);
    NonBlankLinesConcat(s, t);
    BlankLineHasNoLines(w);
    assert [] + NonBlankLines(t) == NonBlankLines(t);
  }

  /** Marked lines before the first principal line are dropped silently. */
  lemma {:induction false} OrphanSubitemsDropped(orphans: seq<string>, rest: seq<string>)
    requires forall i :: 0 <= i < |orphans| ==> IsSubitemLine(orphans[i])
    ensures Scan(orphans + rest, None) == Scan(rest, None)
    decreases |orphans|
  {
    if |orphans| == 0 {
      assert orphans + rest == rest;
    } else {
      assert (orphans + rest)[1..] == orphans[1..] + rest;
      OrphanSubitemsDropped(orphans[1..], rest);
    }
  }

  // ---------------------------------------------------------------------
  // The editor while typing
  // ---------------------------------------------------------------------

  /** While editing, each keystroke stores the raw text and the editor shows
      `Expand` of it, which trims a plain text (one without "~" or "|"). */
  lemma ExpandTrimsTypedText(t: string)
    requires '~' !in t && '|' !in t
    ensures Expand(t) == Trim(t)
  {
    assert MarkedAt(" | ", 1) && MarkedAt("~", 0);
    SplitNone(t, " | ", 1);
    SplitNone(t, "~", 0);
    MapSingle(Trim, t);
    assert EditLines([Trim(t)]) == [Trim(t)];
    JoinSingle("\n", Trim(t));
    MapSingle(ExpandBlock, t);
    JoinSingle("\n", ExpandBlock(t));
  }

  /** Typing a line break at the end of a plain line leaves the editor
      showing the line without it: the break disappears as soon as it is typed. */
  lemma TypedNewlineIsLost(p: string)
    requires IsTrimmed(p) && '~' !in p && '|' !in p
    ensures Expand(p + "\n") == p
    ensures Expand(p + "\n") != p + "\n"
  {
    var typed := p + "\n";
    NotInConcat('~', p, "\n");
    NotInConcat('|', p, "\n");
    ExpandTrimsTypedText(typed);
    TrimDropsNewline(p);
    assert |typed| == |p| + 1;
  }

  lemma TrimDropsNewline(p: string)
    requires IsTrimmed(p)
    ensures Trim(p + "\n") == p
  {
    assert AllSpace("\n");
    assert p + "\n" == "" + p + "\n";
    TrimPadded("", p, "\n");
  }

  /** For instance, "Sepse" followed by a typed line break shows "Sepse". */
  lemma TypedTrailingNewlineIsLost()
    ensures Expand("Sepse\n") == "Sepse"
    ensures Expand("Sepse\n") != "Sepse\n"
  {
    assert IsTrimmed("Sepse");
    assert "Sepse\n" == "Sepse" + "\n";
    TypedNewlineIsLost("Sepse");
  }

  /** An editor that keeps the typed text as a draft, expanding the stored
      value once when editing starts and collapsing the draft on save. */
  datatype ProblemEditor = ProblemEditor(draft: string)

  function OpenEditor(valor: string): ProblemEditor {
    ProblemEditor(Expand(valor))
  }

  /** The editor after a keystroke leaves `typed` in the text area: it shows
      exactly what was typed. */
  function TypeInto(e: ProblemEditor, typed: string): (r: ProblemEditor)
    ensures Shown(r) == typed
  {
    ProblemEditor(typed)
  }

  function Shown(e: ProblemEditor): string {
    e.draft
  }

  function SaveEditor(e: ProblemEditor): string {
    Collapse(e.draft)
  }

  /** With the draft-keeping editor, opening a canonical value and saving
      stores the same value, and a typed trailing line break stays. */
  lemma DraftEditorRoundTrip(blocks: seq<seq<string>>)
    requires Canonical(blocks)
    ensures SaveEditor(OpenEditor(Encode(blocks))) == Encode(blocks)
    ensures Shown(TypeInto(OpenEditor(Encode(blocks)), "Sepse\n")) == "Sepse\n"
  {
    CollapseExpandRoundTrip(blocks);
  }

  /** With the draft-keeping editor a sub-item can be typed under a
      principal: the text reaches "p", a line break and "> q", and OK stores
      one block of the two parts. The as-written editor never shows that
      text, because the line break after "p" is gone as soon as it is typed
      (`TypedNewlineIsLost`). */
  lemma DraftEditorAddsSubitem(e: ProblemEditor, p: string, q: string)
    requires CanonicalPart(p) && CanonicalPart(q) && p[0] != '>'
    ensures Shown(TypeInto(e, p + "\n")) == p + "\n"
    ensures SaveEditor(TypeInto(e, p + "\n> " + q)) == p + " ~ " + q
  {
    var blocks := [[p, q]];
    assert CanonicalBlock(blocks[0]);
    CollapseExpandRoundTrip(blocks);
    ExpandEncode(blocks);
    TwoPartLines(p, q);
    TwoPartEncode(p, q);
  }

  lemma TwoPartLines(p: string, q: string)
    ensures Join("\n", Flatten(Map(EditLines, [[p, q]]))) == p + "\n> " + q
  {
    MapSingle(EditLines, [p, q]);
    FlattenCons(EditLines([p, q]), []);
    assert EditLines([p, q]) + [] == [p, MarkSubitem(q)];
    JoinCons("\n", [p, MarkSubitem(q)]);
    assert [p, MarkSubitem(q)][1..] == [MarkSubitem(q)];
    JoinSingle("\n", MarkSubitem(q));
  }

  lemma TwoPartEncode(p: string, q: string)
    ensures Encode([[p, q]]) == p + " ~ " + q
  {
    MapSingle(EncodeBlock, [p, q]);
    JoinSingle(" | ", EncodeBlock([p, q]));
    JoinCons(" ~ ", [p, q]);
    assert [p, q][1..] == [q];
    JoinSingle(" ~ ", q);
  }
}
