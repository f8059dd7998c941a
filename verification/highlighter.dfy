/** The inline highlighter of the list fields (`Lista` for "Controles",
    `ListaComEdicao` for "Laboratório" and "Gasometria" in
    src/screens/PassometroScreen.jsx), and the transform between a list of
    items and the text its editor shows. An item's text is a "|"-separated
    list of pieces; a piece "Label: value" shows the label as a prefix and
    the value in a span whose class comes from the item's `destaques`. */
module Highlighter {
  import opened Wrappers
  import opened Lists
  import opened Strings

  /** A list item: its text and the highlight classes keyed by label. An item
      without `destaques` behaves as one with an empty map. */
  datatype Item = Item(texto: string, destaques: map<string, string>)

  /** One rendered piece: the label prefix, the value and the value's class
      (the empty class when none applies). */
  datatype Segment = Segment(prefix: string, content: string, cls: string)

  /** The two list components: the read-only `Lista` and the editable
      `ListaComEdicao`; they differ in the fever rule and in skipping items. */
  datatype ListKind = ReadOnlyList | EditableList

  // ---------------------------------------------------------------------
  // Splitting a piece into label and value
  // ---------------------------------------------------------------------

  /** A piece with a colon: the text before the first colon followed by ": ",
      and the rest rejoined with ":" and trimmed. A piece without one is all
      value. */
  function SplitLabel(parte: string): (r: (string, string))
    ensures ':' !in parte ==> r == ("", parte)
    ensures ':' in parte ==> |r.0| >= 2 && r.0[|r.0| - 2..] == ": " && ':' !in r.0[..|r.0| - 2]
    ensures ':' in parte ==> IsTrimmed(r.1)
  {
    if ':' in parte then
      var pieces := Split(parte, ":");
      SplitPiecesLack(parte, ':');
      var prefix := pieces[0] + ": ";
      assert prefix[..|prefix| - 2] == pieces[0];
      (prefix, Trim(Join(":", pieces[1..])))
    else ("", parte)
  }

  /** The label is everything before the first colon; the value is everything
      after it, later colons included, trimmed. */
  lemma LabelSplitsAtFirstColon(name: string, rest: string)
    requires ':' !in name
    ensures SplitLabel(name + ":" + rest) == (name + ": ", Trim(rest))
  {
    var parte := name + ":" + rest;
    assert parte[|name|] == ':';
    assert MarkedAt(":", 0);
    SplitStep(name, ":", 0, rest);
    var pieces := Split(parte, ":");
    assert pieces[1..] == Split(rest, ":");
  }

  // ---------------------------------------------------------------------
  // Choosing the class
  // ---------------------------------------------------------------------

  /** `value.split(" ")[0]`: the text up to the first ordinary space. */
  function FirstWord(v: string): (r: string)
    ensures ' ' !in r
    ensures |r| <= |v| && v[..|r|] == r
  {
    var pieces := Split(v, " ");
    ContainsChar(pieces[0], ' ');
    JoinStartsWithHead(" ", pieces);
    pieces[0]
  }

  lemma {:induction false} JoinStartsWithHead(sep: string, xs: seq<string>)
    requires |xs| >= 1
    ensures |xs[0]| <= |Join(sep, xs)| && Join(sep, xs)[..|xs[0]|] == xs[0]
  {
    if |xs| >= 2 {
      JoinCons(sep, xs);
    }
  }

  /** The first word is exactly the text before the first space. */
  lemma FirstWordOf(w: string, rest: string)
    requires ' ' !in w
    ensures FirstWord(w + " " + rest) == w
    ensures FirstWord(w) == w
  {
    assert MarkedAt(" ", 0);
    SplitStep(w, " ", 0, rest);
    SplitNone(w, " ", 0);
  }

  /** ASCII letters in lower case, everything else unchanged: the case
      folding of a case-insensitive regular expression without the `u` flag
      as far as the letters of "febre" and "subfebril" are concerned. */
  function LowerAscii(c: char): char {
    if 'A' <= c <= 'Z' then (c as int + 0x20) as char else c
  }

  predicate ContainsIgnoringCase(s: string, lowerPat: string) {
    Contains(Map(LowerAscii, s), lowerPat)
  }

  /** `/Febre|Subfebril/i.test(value)`. */
  predicate MentionsFever(v: string) {
    ContainsIgnoringCase(v, "febre") || ContainsIgnoringCase(v, "subfebril")
  }

  /** The class a key selects: the mapped class, or none for an absent key. */
  function Lookup(destaques: map<string, string>, key: string): (r: string)
    ensures key in destaques ==> r == destaques[key]
    ensures key !in destaques ==> r == ""
  {
    if key in destaques then destaques[key] else ""
  }

  /** The read-only list sends a value mentioning fever to the "TERMICO"
      class; every other lookup uses the value's first word. */
  function ResolveClass(kind: ListKind, destaques: map<string, string>, content: string): (r: string)
    ensures r == "" || r in destaques.Values
  {
    var key := if kind == ReadOnlyList && MentionsFever(content) then "TERMICO" else FirstWord(content);
    Lookup(destaques, key)
  }

  /** Without fever the two lists highlight a value alike, by its first word. */
  lemma ClassByFirstWord(kind: ListKind, destaques: map<string, string>, w: string, rest: string)
    requires ' ' !in w
    requires kind == ReadOnlyList ==> !MentionsFever(w + " " + rest)
    ensures ResolveClass(kind, destaques, w + " " + rest) == Lookup(destaques, w)
  {
    FirstWordOf(w, rest);
  }

  /** A value mentioning fever takes the "TERMICO" class in the read-only
      list, and the class of its first word in the editable one. */
  lemma FeverRule(destaques: map<string, string>, content: string)
    requires MentionsFever(content)
    ensures ResolveClass(ReadOnlyList, destaques, content) == Lookup(destaques, "TERMICO")
    ensures ResolveClass(EditableList, destaques, content) == Lookup(destaques, FirstWord(content))
  {
  }

  /** The two lists disagree only on values that mention fever. */
  lemma KindsAgreeWithoutFever(destaques: map<string, string>, content: string)
    requires !MentionsFever(content)
    ensures ResolveClass(ReadOnlyList, destaques, content) == ResolveClass(EditableList, destaques, content)
  {
  }

  // ---------------------------------------------------------------------
  // Segments of an item
  // ---------------------------------------------------------------------

  function SegmentOf(kind: ListKind, destaques: map<string, string>, parte: string): Segment {
    var (prefix, content) := SplitLabel(parte);
    Segment(prefix, content, ResolveClass(kind, destaques, content))
  }

  /** The pieces of an item's text: split on "|" and trimmed, empty pieces kept. */
  function Pieces(texto: string): (r: seq<string>)
    ensures |r| == Occurrences(texto, '|') + 1
    ensures forall i :: 0 <= i < |r| ==> IsTrimmed(r[i]) && '|' !in r[i]
  {
    var split := Split(texto, "|");
    SplitCount(texto, '|');
    SplitPiecesLack(texto, '|');
    forall i | 0 <= i < |split| ensures '|' !in Trim(split[i]) {
      TrimExcludes(split[i], '|');
    }
    Map(Trim, split)
  }

  /** One segment per "|"-piece of the item's text, in order. */
  function Segments(kind: ListKind, item: Item): (r: seq<Segment>)
    ensures |r| == Occurrences(item.texto, '|') + 1
  {
    Map((p: string) => SegmentOf(kind, item.destaques, p), Pieces(item.texto))
  }

  function SegmentText(s: Segment): string {
    s.prefix + s.content
  }

  /** The text a rendered item reads as: its segments separated by " | ". */
  function LineText(segs: seq<Segment>): string {
    Join(" | ", Map(SegmentText, segs))
  }

  /** A piece that shows unchanged: trimmed and free of "|" and ":". */
  predicate PlainPiece(p: string) {
    IsTrimmed(p) && '|' !in p && ':' !in p
  }

  /** Pieces without labels come back as the values, in order, with no prefix. */
  lemma PlainPiecesRoundTrip(kind: ListKind, destaques: map<string, string>, pieces: seq<string>)
    requires |pieces| >= 1
    requires forall i :: 0 <= i < |pieces| ==> PlainPiece(pieces[i])
    ensures |Segments(kind, Item(Join("|", pieces), destaques))| == |pieces|
    ensures forall i :: 0 <= i < |pieces| ==>
      Segments(kind, Item(Join("|", pieces), destaques))[i].prefix == "" &&
      Segments(kind, Item(Join("|", pieces), destaques))[i].content == pieces[i]
  {
    assert MarkedAt("|", 0);
    SplitJoinMarked("|", 0, pieces);
    forall i | 0 <= i < |pieces| ensures Trim(pieces[i]) == pieces[i] {
      TrimOfTrimmed(pieces[i]);
    }
    MapFixed(Trim, pieces);
  }

  lemma ColonRegroup(name: string, value: string)
    ensures name + ": " + value == name + ":" + (" " + value)
  {
    assert ": " == ":" + " ";
  }

  lemma TrimAfterSpace(value: string)
    requires IsTrimmed(value)
    ensures Trim(" " + value) == value
  {
    assert AllSpace(" ") && AllSpace("");
    assert " " + value == " " + value + "";
    TrimPadded(" ", value, "");
  }

  /** A labelled piece "label: value" renders as the label with ": " and the
      value, classed by the value. */
  lemma LabelledSegment(kind: ListKind, destaques: map<string, string>, name: string, value: string)
    requires ':' !in name && IsTrimmed(value)
    ensures SegmentOf(kind, destaques, name + ": " + value) ==
      Segment(name + ": ", value, ResolveClass(kind, destaques, value))
  {
    ColonRegroup(name, value);
    LabelSplitsAtFirstColon(name, " " + value);
    TrimAfterSpace(value);
  }

  /** "Temp: 38.5 Febre" in the read-only list: label "Temp: ", value
      "38.5 Febre", which mentions fever and takes the "TERMICO" class. */
  lemma TemperatureExample(destaques: map<string, string>)
    ensures SegmentOf(ReadOnlyList, destaques, "Temp: 38.5 Febre") ==
      Segment("Temp: ", "38.5 Febre", Lookup(destaques, "TERMICO"))
  {
    TemperatureParts();
    LabelledSegment(ReadOnlyList, destaques, "Temp", "38.5 Febre");
    FeverIn38Febre();
  }

  lemma TemperatureParts()
    ensures "Temp: 38.5 Febre" == "Temp" + ": " + "38.5 Febre"
    ensures ':' !in "Temp" && IsTrimmed("38.5 Febre")
  {
  }

  lemma FeverIn38Febre()
    ensures MentionsFever("38.5 Febre")
  {
    var lower := Map(LowerAscii, "38.5 Febre");
    assert lower[5..10] == "febre";
    assert OccursAt(lower, "febre", 5);
  }

  /** "PA: 120x80 normal" in the editable list: label "PA: ", value
      "120x80 normal", highlighted by the class of "120x80". */
  lemma PressureExample(destaques: map<string, string>)
    ensures SegmentOf(EditableList, destaques, "PA: 120x80 normal") ==
      Segment("PA: ", "120x80 normal", Lookup(destaques, "120x80"))
  {
    PressureParts();
    LabelledSegment(EditableList, destaques, "PA", "120x80 normal");
    FirstWordOf("120x80", "normal");
  }

  lemma PressureParts()
    ensures "PA: 120x80 normal" == "PA" + ": " + "120x80 normal"
    ensures "120x80 normal" == "120x80" + " " + "normal"
    ensures ':' !in "PA" && ' ' !in "120x80" && IsTrimmed("120x80 normal")
  {
  }

  // ---------------------------------------------------------------------
  // Rendering a list
  // ---------------------------------------------------------------------

  /** `!item?.texto`: the editable list skips items with an empty text. */
  predicate HasText(item: Item) {
    |item.texto| > 0
  }

  /** The rendered rows of a list field, or `None` when the component shows
      nothing. `itens` is `None` when the field is missing or not an array:
      the read-only list then renders nothing and the editable one an empty
      list. The read-only list also renders nothing for an empty array. */
  function RenderList(kind: ListKind, itens: Option<seq<Item>>): (r: Option<seq<seq<Segment>>>)
    ensures kind == ReadOnlyList ==> (r.Some? <==> itens.Some? && |itens.value| > 0)
    ensures kind == EditableList ==> r.Some?
    ensures kind == ReadOnlyList && r.Some? ==> |r.value| == |itens.value|
    ensures kind == ReadOnlyList && r.Some? ==>
      forall i :: 0 <= i < |r.value| ==> r.value[i] == Segments(ReadOnlyList, itens.value[i])
    ensures kind == EditableList && itens.Some? ==> |r.value| <= |itens.value|
  {
    match kind
    case ReadOnlyList =>
      if itens.None? || |itens.value| == 0 then None
      else Some(Map((it: Item) => Segments(ReadOnlyList, it), itens.value))
    case EditableList =>
      var xs := if itens.Some? then itens.value else [];
      Some(Map((it: Item) => Segments(EditableList, it), Filter(HasText, xs)))
  }

  /** The editable list renders an item with text as one row: its segments. */
  lemma EditableRendersItem(it: Item)
    requires HasText(it)
    ensures RenderList(EditableList, Some([it])) == Some([Segments(EditableList, it)])
  {
    FilterSingle(HasText, it);
    MapSingle((x: Item) => Segments(EditableList, x), it);
  }

  /** The editable list renders an item without text as no row at all. */
  lemma EditableDropsEmpty(it: Item)
    requires !HasText(it)
    ensures RenderList(EditableList, Some([it])) == Some([])
  {
    FilterSingle(HasText, it);
  }

  /** The editable list renders the items one after the other: the rows of
      `a + b` are the rows of `a` followed by the rows of `b`. */
  lemma EditableRendersConcat(a: seq<Item>, b: seq<Item>)
    ensures RenderList(EditableList, Some(a + b)).value ==
      RenderList(EditableList, Some(a)).value + RenderList(EditableList, Some(b)).value
  {
    FilterConcat(HasText, a, b);
    MapConcat((x: Item) => Segments(EditableList, x), Filter(HasText, a), Filter(HasText, b));
  }

  /** The editable list shows a row for exactly the items with text, in order:
      removing an empty one, whatever its highlights, changes nothing. */
  lemma EditableSkipsEmpty(a: seq<Item>, d: map<string, string>, b: seq<Item>)
    ensures RenderList(EditableList, Some(a + [Item("", d)] + b)) == RenderList(EditableList, Some(a + b))
  {
    var e := Item("", d);
    EditableRendersConcat(a + [e], b);
    EditableRendersConcat(a, [e]);
    EditableDropsEmpty(e);
    EditableRendersConcat(a, b);
    assert RenderList(EditableList, Some(a)).value + [] == RenderList(EditableList, Some(a)).value;
  }

  /** The read-only list renders an empty item as a single empty segment. */
  lemma ReadOnlyShowsEmptyItem(destaques: map<string, string>)
    ensures RenderList(ReadOnlyList, Some([Item("", destaques)])) ==
      Some([[Segment("", "", Lookup(destaques, ""))]])
  {
    assert MarkedAt("|", 0) && MarkedAt(" ", 0);
    SplitNone("", "|", 0);
    SplitNone("", " ", 0);
    TrimOfTrimmed("");
    MapSingle(Trim, "");
    assert Pieces("") == [""];
    assert !MentionsFever("");
    assert FirstWord("") == "";
    var seg := Segment("", "", Lookup(destaques, ""));
    assert SegmentOf(ReadOnlyList, destaques, "") == seg;
    MapSingle((p: string) => SegmentOf(ReadOnlyList, destaques, p), "");
    assert Segments(ReadOnlyList, Item("", destaques)) == [seg];
    MapSingle((it: Item) => Segments(ReadOnlyList, it), Item("", destaques));
  }

  // ---------------------------------------------------------------------
  // The editable list's text
  // ---------------------------------------------------------------------

  function Texto(item: Item): string {
    item.texto
  }

  /** The text area's content: the item texts, one per line; empty when the
      field is not an array. */
  function EditText(itens: Option<seq<Item>>): (r: string)
    ensures itens.None? ==> r == ""
    ensures itens.Some? && |itens.value| == 1 ==> r == itens.value[0].texto
  {
    if itens.Some? then Join("\n", Map(Texto, itens.value)) else ""
  }

  function Unhighlighted(line: string): Item {
    Item(line, map[])
  }

  /** The items an edit stores: one per line of the text, without highlights. */
  function ItemsFromText(t: string): (r: seq<Item>)
    ensures |r| == Occurrences(t, '\n') + 1
    ensures forall i :: 0 <= i < |r| ==> r[i].destaques == map[] && '\n' !in r[i].texto
  {
    SplitCount(t, '\n');
    SplitPiecesLack(t, '\n');
    Map(Unhighlighted, Split(t, "\n"))
  }

  /** Typing into the text area and reading it back gives the typed text. */
  lemma EditTextOfItems(t: string)
    ensures EditText(Some(ItemsFromText(t))) == t
  {
    var lines := Split(t, "\n");
    var items := ItemsFromText(t);
    assert Map(Texto, items) == lines;
  }

  function ClearHighlights(item: Item): Item {
    Item(item.texto, map[])
  }

  /** Saving the editor on items of one line each keeps their texts and drops
      their highlights. */
  lemma ItemsOfEditText(items: seq<Item>)
    requires |items| >= 1
    requires forall i :: 0 <= i < |items| ==> '\n' !in items[i].texto
    ensures ItemsFromText(EditText(Some(items))) == Map(ClearHighlights, items)
  {
    var texts := Map(Texto, items);
    assert MarkedAt("\n", 0);
    SplitJoinMarked("\n", 0, texts);
  }

  /** Clearing the text area leaves one empty item, which the editable list
      does not show. */
  lemma EmptyEditShowsNothing()
    ensures ItemsFromText("") == [Item("", map[])]
    ensures RenderList(EditableList, Some(ItemsFromText(""))) == Some([])
  {
    assert MarkedAt("\n", 0);
    SplitNone("", "\n", 0);
    MapSingle(Unhighlighted, "");
    FilterSingle(HasText, Item("", map[]));
  }
}
