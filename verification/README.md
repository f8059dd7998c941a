# Passômetro: a Dafny model of the ICU hand-over sheet

Passômetro is a small React front end for handing over ICU patients. It has two screens.

- The **insertion screen** (`src/App.jsx`) keeps a list of patient cards, one per bed. Each card has free-text notes. A card is sent to a note-generation service, which answers with a structured data object. The finished cards are then handed over to the sheet.
- The **sheet** (`src/screens/PassometroScreen.jsx`) shows one record per patient and lets the user edit fields in place. It covers:
  - a header built from the identification, with a normaliser on its OK button;
  - the "Problemas" field, written in a small text format of blocks (`" | "`) and parts (`"~"`), with an editor that expands and collapses it;
  - lists of highlighted items ("Controles", "Laboratório", "Gasometria");
  - the "Condutas / Pendências" field laid out in three columns.

This project models those transformations as pure Dafny functions over `seq<char>`, sequences and maps, and proves their laws. The laws cover:

- round trips of the text formats;
- what each list operation keeps and changes;
- how the header and the highlight classes are chosen;
- how the edit selector behaves.

Modules, in dependency order:

- `Wrappers`: `Option` and `Result`.
- `Lists`: `map`, `filter` and `flat` with their facts.
- `Strings`: the JavaScript string primitives the screens use. These are `trim` with ECMAScript whitespace, `split` on a literal, `split` on a one-character regular-expression class, `join`, and `toUpperCase` over ASCII and Latin-1.
- `Json`: the payloads the screens pass around, with JavaScript truthiness, `||`, property access, object spread and string conversion.
- `ProblemList`: the "Problemas" format, its read-only decode, its editor expand and its save-time collapse.
- `Highlighter`: `Lista` and `ListaComEdicao`, i.e. label splitting, class resolution and the list edit transform.
- `Condutas`: `CampoCondutas`, its lines and its columns.
- `Identification`: the identification normaliser and the header line.
- `Sheet`: the sheet's state, i.e. per-record field updates, the edit selector and the OK buttons.
- `Insertion`: the insertion screen's card operations, the processing round trip and the hand-over projection.

## Model

| member | source | states |
|---|---|---|
| Strings.Trim | src/screens/PassometroScreen.jsx:350 | the trimmed text has no whitespace at either end and is never longer than the input |
| Strings.TrimSlice | src/screens/PassometroScreen.jsx:350 | what trim keeps is one contiguous infix of the input, with only whitespace before and after it |
| Strings.TrimPadded | src/screens/PassometroScreen.jsx:350 | trimming a trimmed text padded with whitespace on both sides gives the text back |
| Strings.TrimIdempotent | src/screens/PassometroScreen.jsx:375-376 | trimming twice is trimming once |
| Strings.Split | src/screens/PassometroScreen.jsx:348 | split yields at least one piece, joining the pieces with the separator gives the input back, and no piece contains the separator |
| Strings.SplitJoinMarked | src/screens/PassometroScreen.jsx:348 | splitting a join gives the elements back when no element holds the separator's distinguishing character |
| Strings.SplitCount | src/screens/PassometroScreen.jsx:570 | splitting on one character yields one more piece than the character's occurrences, empty pieces included |
| Strings.SplitOnAny | src/screens/PassometroScreen.jsx:753 | splitting on `/\n\|\|/` yields at least one piece and no piece holds a line break or a bar |
| Strings.SplitOnAnySingle | src/screens/PassometroScreen.jsx:753 | with a one-character class the regular-expression split agrees with the literal split |
| Strings.SplitOnAnyConcat | src/screens/PassometroScreen.jsx:753 | the split of two texts joined at a class character is the split of the first followed by the split of the second |
| Strings.ToUpperIdempotent | src/screens/PassometroScreen.jsx:139-142 | upper-casing an upper-cased text changes nothing |
| Strings.ToUpperKeepsTrimmed | src/screens/PassometroScreen.jsx:139-142 | upper-casing a trimmed text keeps it trimmed |
| Json.OrElse | src/screens/PassometroScreen.jsx:70 | `a \|\| b` is `a` when `a` is truthy and `b` otherwise |
| Json.Get | src/screens/PassometroScreen.jsx:80 | a property is present exactly when the value is an object holding that key, and then it is the value stored under that key |
| Json.ObjectSpread | src/screens/PassometroScreen.jsx:50 | spreading an object copies its fields, and spreading a falsy value copies nothing |
| Json.IndexEntries | src/screens/PassometroScreen.jsx:50 | spreading an array or string gives each element under its decimal index |
| Json.NatToDecimalInjective | src/screens/PassometroScreen.jsx:50 | distinct indices have distinct decimal keys, so spread entries never collide |
| ProblemList.DisplayParts | src/screens/PassometroScreen.jsx:412 | every part shown is non-empty, trimmed and free of "~" |
| ProblemList.DecodeBlock | src/screens/PassometroScreen.jsx:412-414 | a decoded block is well formed, and a block without a principal has no sub-items |
| ProblemList.DecodeDisplay | src/screens/PassometroScreen.jsx:405-414 | there are at most as many blocks as " \| "-pieces, and every block shown is well formed |
| ProblemList.DecodeEncode | src/screens/PassometroScreen.jsx:405-414 | the read-only view of a canonical value shows its blocks in order, each with its first part as principal and the rest as sub-items |
| ProblemList.DecodeEmpty | src/screens/PassometroScreen.jsx:405 | an empty value shows no blocks |
| ProblemList.DecodeEncodedBlock | src/screens/PassometroScreen.jsx:412-414 | one canonical block decodes to its first part and its remaining parts |
| ProblemList.EditLines | src/screens/PassometroScreen.jsx:350-353 | one editor line per part, the first as is and every later one marked "> " |
| ProblemList.ExpandEncode | src/screens/PassometroScreen.jsx:346-356 | the editor text of canonical blocks is the line-break join of all their editor lines |
| ProblemList.TildeSplitTrim | src/screens/PassometroScreen.jsx:350 | splitting " ~ "-joined trimmed parts on "~" and trimming gives the parts back |
| ProblemList.NonBlankLines | src/screens/PassometroScreen.jsx:374-377 | the save-time lines are non-empty and trimmed |
| ProblemList.NonBlankLinesOfJoin | src/screens/PassometroScreen.jsx:374-377 | joining non-empty trimmed single lines and taking the non-blank lines back gives the lines |
| ProblemList.NonBlankLinesConcat | src/screens/PassometroScreen.jsx:374-377 | the lines of two texts joined by a line break are the lines of the first followed by those of the second |
| ProblemList.BlankLineIgnored | src/screens/PassometroScreen.jsx:374-377 | saving ignores a whitespace-only line between two texts |
| ProblemList.ScanSubitems | src/screens/PassometroScreen.jsx:382-386 | marked lines after a principal are appended, unmarked, to the open block |
| ProblemList.ScanEditLines | src/screens/PassometroScreen.jsx:379-393 | scanning the editor lines of canonical blocks rebuilds exactly those blocks after the open one |
| ProblemList.CollapseExpandRoundTrip | src/screens/PassometroScreen.jsx:346-395 | opening the editor on a canonical value and saving gives back the same blocks and the same stored text |
| ProblemList.CollapseCanonicalIsNoop | src/screens/PassometroScreen.jsx:374-395 | saving a canonical value unedited stores it unchanged |
| ProblemList.CollapseSingleLine | src/screens/PassometroScreen.jsx:374-395 | a one-line value that is not a marked line saves as itself trimmed |
| ProblemList.CollapseBlockPrincipals | src/screens/PassometroScreen.jsx:379-393 | saving yields one block per non-blank line not starting with ">", and those lines head the blocks in order |
| ProblemList.ScanPrincipals | src/screens/PassometroScreen.jsx:379-393 | the heads of the scanned blocks are the open block's head followed by the principal lines in order |
| ProblemList.OrphanSubitemsDropped | src/screens/PassometroScreen.jsx:382-386 | marked lines before the first principal are discarded without trace |
| ProblemList.ExpandTrimsTypedText | src/screens/PassometroScreen.jsx:346-357 | while typing, a text without "~" or "\|" is shown back trimmed |
| ProblemList.TypedNewlineIsLost | src/screens/PassometroScreen.jsx:346-357 | a line break typed after a plain line is gone from the editor at once |
| ProblemList.TypedTrailingNewlineIsLost | src/screens/PassometroScreen.jsx:346-357 | "Sepse" with a typed line break shows "Sepse" |
| ProblemList.DraftEditorAddsSubitem | src/screens/PassometroScreen.jsx:346-395 | with the draft-keeping editor a typed line break after a principal stays visible, and typing "p", a line break and "> q" then OK stores the one block "p ~ q" |
| ProblemList.DraftEditorRoundTrip | src/screens/PassometroScreen.jsx:346-395 | with the draft-keeping editor a canonical value still saves unchanged, and a typed line break stays visible |
| Highlighter.SplitLabel | src/screens/PassometroScreen.jsx:577-583 | without a colon the piece is all value; with one, the prefix ends in ": " with no colon before it and the value is trimmed |
| Highlighter.LabelSplitsAtFirstColon | src/screens/PassometroScreen.jsx:577-583 | the label is the text before the first colon, and everything after it, later colons included, is the trimmed value |
| Highlighter.FirstWord | src/screens/PassometroScreen.jsx:588 | the first word is a space-free prefix of the value |
| Highlighter.FirstWordOf | src/screens/PassometroScreen.jsx:588 | the first word of "w rest" is w, and a space-free value is its own first word |
| Highlighter.Lookup | src/screens/PassometroScreen.jsx:589 | a present key gives its class and an absent key gives no class |
| Highlighter.ResolveClass | src/screens/PassometroScreen.jsx:585-590 | the class chosen is either none or one of the item's own highlight classes |
| Highlighter.ClassByFirstWord | src/screens/PassometroScreen.jsx:655-656 | without fever both lists look the class up by the value's first word |
| Highlighter.FeverRule | src/screens/PassometroScreen.jsx:585-590 | a value mentioning fever takes the TERMICO class in the read-only list but the first-word class in the editable one |
| Highlighter.KindsAgreeWithoutFever | src/screens/PassometroScreen.jsx:585-590 | the two lists choose the same class for every value that does not mention fever |
| Highlighter.Pieces | src/screens/PassometroScreen.jsx:570 | one trimmed, bar-free piece per "\|"-separated part, empty ones kept |
| Highlighter.Segments | src/screens/PassometroScreen.jsx:574-583 | an item renders one segment per "\|"-piece |
| Highlighter.PlainPiecesRoundTrip | src/screens/PassometroScreen.jsx:570-598 | pieces without labels come back as the segment values, in order, with no prefix |
| Highlighter.LabelledSegment | src/screens/PassometroScreen.jsx:577-590 | "label: value" renders as the label with ": " and the value with the class chosen for it |
| Highlighter.TemperatureExample | src/screens/PassometroScreen.jsx:585-587 | "Temp: 38.5 Febre" in the read-only list takes the TERMICO class |
| Highlighter.PressureExample | src/screens/PassometroScreen.jsx:650-656 | "PA: 120x80 normal" in the editable list takes the class keyed "120x80" |
| Highlighter.RenderList | src/screens/PassometroScreen.jsx:560-568 | the read-only list is drawn exactly when it has items, and row i is the segments of item i; the editable list is always drawn, with at most one row per item |
| Highlighter.EditableRendersItem | src/screens/PassometroScreen.jsx:636-640 | in the editable list an item with text is drawn as one row holding its segments |
| Highlighter.EditableDropsEmpty | src/screens/PassometroScreen.jsx:637-638 | in the editable list an item with empty text is drawn as no row |
| Highlighter.EditableRendersConcat | src/screens/PassometroScreen.jsx:636-638 | the editable list draws the rows of a list's two parts one after the other |
| Highlighter.EditableSkipsEmpty | src/screens/PassometroScreen.jsx:637-638 | an item with an empty text, whatever its highlights, adds no row to the editable list |
| Highlighter.ReadOnlyShowsEmptyItem | src/screens/PassometroScreen.jsx:567-570 | the read-only list draws an empty item as one empty segment |
| Highlighter.EditText | src/screens/PassometroScreen.jsx:619-621 | a missing list edits as the empty text, and a single item edits as its text |
| Highlighter.ItemsFromText | src/screens/PassometroScreen.jsx:680-684 | one item per line, one more than the line breaks, each with no highlights and no line break |
| Highlighter.EditTextOfItems | src/screens/PassometroScreen.jsx:680-684 | the text area reads back exactly the text typed into it |
| Highlighter.ItemsOfEditText | src/screens/PassometroScreen.jsx:619-621 | saving the editor unchanged keeps every item's text and drops its highlights |
| Highlighter.EmptyEditShowsNothing | src/screens/PassometroScreen.jsx:680-684 | clearing the text area stores one empty item, which the editable list does not draw |
| Condutas.CondutasLines | src/screens/PassometroScreen.jsx:752-755 | every line shown is non-empty, trimmed and free of line breaks and bars |
| Condutas.NoLinesForEmptyText | src/screens/PassometroScreen.jsx:752-755 | an empty field shows no lines |
| Condutas.LinesRoundTrip | src/screens/PassometroScreen.jsx:752-755 | lines written one per line, or separated by bars, come back as written |
| Condutas.LinesConcat | src/screens/PassometroScreen.jsx:752-755 | the lines of a text cut at a line break or bar are those of the part before followed by those of the part after |
| Condutas.BlankLineDropped | src/screens/PassometroScreen.jsx:752-755 | a whitespace-only line between two texts is dropped |
| Condutas.Column | src/screens/PassometroScreen.jsx:757-761 | a column holds at most four lines |
| Condutas.LayoutColumns | src/screens/PassometroScreen.jsx:757-761 | three columns of at most four lines; line i sits in column i/4, row i%4; the columns concatenate to the first min(n,12) lines; a non-empty column follows a full one |
| Condutas.ColumnStep | src/screens/PassometroScreen.jsx:758-760 | taking in line i grows column i/4 by that line and leaves the others alone |
| Condutas.ColumnShape | src/screens/PassometroScreen.jsx:757-761 | a column has lines only when the one before is full, and exactly when some line reaches its first row |
| Condutas.ColumnIndex | src/screens/PassometroScreen.jsx:758-760 | line i of the first twelve is at column i/4, row i%4 |
| Condutas.ColumnsConcat | src/screens/PassometroScreen.jsx:757-761 | the three columns together are the first twelve lines, or all of them when fewer |
| Identification.FieldOrEmpty | src/screens/PassometroScreen.jsx:139 | a truthy field is taken as is, and a falsy or missing one becomes the empty text |
| Identification.UpperField | src/screens/PassometroScreen.jsx:139-142 | the OK button fails on a field that is truthy but not a text; otherwise the result is the field's text trimmed and upper-cased, which is itself trimmed and upper case; a falsy or missing field gives the empty text |
| Identification.AgeField | src/screens/PassometroScreen.jsx:141 | a truthy age is stringified and trimmed, never upper-cased; a falsy or missing one gives the empty text; it never fails |
| Identification.AgeOfNumber | src/screens/PassometroScreen.jsx:141 | a non-zero numeric age is stored as its decimal digits |
| Identification.Normalize | src/screens/PassometroScreen.jsx:137-146 | success exactly when bed, name and sex are texts or falsy; the error names the first bad field in that order; success yields a record in normal form, whose field values `Identification.NormalizeStores` ties to the input |
| Identification.NormalizeStores | src/screens/PassometroScreen.jsx:138-143 | the stored bed, name and sex are the typed texts trimmed and upper-cased, the stored age is the typed age stringified and trimmed, and a falsy field is stored as the empty text |
| Identification.Record | src/screens/PassometroScreen.jsx:138-143 | the stored identification has exactly the keys leito, nome, idade and sexo |
| Identification.NormalizeIdempotent | src/screens/PassometroScreen.jsx:137-146 | pressing OK on a normalised identification stores it unchanged |
| Identification.NormalizeEmpty | src/screens/PassometroScreen.jsx:138-143 | an empty identification normalises to four empty texts |
| Identification.NormalizeIgnoresOtherKeys | src/screens/PassometroScreen.jsx:138-143 | extra keys in the identification neither appear in nor change the result |
| Identification.HeaderTitle | src/screens/PassometroScreen.jsx:149-171 | without a name the title ends with "PACIENTE NÃO IDENTIFICADO" |
| Identification.HeaderDetailParts | src/screens/PassometroScreen.jsx:156-160 | one part for a truthy age, written "<age> ANOS", and one for a truthy sex |
| Identification.HeaderDetails | src/screens/PassometroScreen.jsx:173-178 | the grey part is empty exactly when neither age nor sex is truthy, and otherwise starts with " \| " |
| Identification.HeaderOfComplete | src/screens/PassometroScreen.jsx:149-178 | a complete identification reads "LEITO l: n \| i ANOS \| s" |
| Identification.HeaderFallsBackToRecordLeito | src/screens/PassometroScreen.jsx:150-151 | without a bed in the identification the record's own bed is shown |
| Identification.HeaderOfAnonymous | src/screens/PassometroScreen.jsx:150-154 | with no bed anywhere and no name the title is the fallback name alone |
| Sheet.SetField | src/screens/PassometroScreen.jsx:50 | the new data object holds the value under the field and agrees with the old one on every other key |
| Sheet.UpdateField | src/screens/PassometroScreen.jsx:46-54 | length and order kept; records with another id untouched; a matching record keeps its id and bed and changes only the named field |
| Sheet.UpdateLastWins | src/screens/PassometroScreen.jsx:46-54 | a second write to the same field replaces the first |
| Sheet.UpdateCommutes | src/screens/PassometroScreen.jsx:46-54 | writes to different fields or different records commute |
| Sheet.UpdateSameValue | src/screens/PassometroScreen.jsx:46-54 | writing back the value a field already holds changes nothing |
| Sheet.StartEditing | src/screens/PassometroScreen.jsx:38-40 | the chosen field of the chosen record is in edit mode |
| Sheet.StopEditing | src/screens/PassometroScreen.jsx:42-44 | no field of any record is in edit mode |
| Sheet.AtMostOneEditor | src/screens/PassometroScreen.jsx:76-78 | at most one field of one record is in edit mode |
| Sheet.StartEditingIsExclusive | src/screens/PassometroScreen.jsx:38-40 | starting to edit a field takes edit mode away from every other field |
| Sheet.UpdateFieldStores | src/screens/PassometroScreen.jsx:46-54 | after a field update each matching record reads the new value under the field and keeps its other fields; other records are unchanged |
| Sheet.TypeIdentification | src/screens/PassometroScreen.jsx:85-131 | a keystroke in the identification keeps the edit selector; each record with the id then reads the typed text under that key and keeps the other entries of the identification; other records are unchanged |
| Sheet.ConfirmIdentification | src/screens/PassometroScreen.jsx:137-146 | the OK button succeeds exactly when the normaliser does; it then ends editing and stores the normal form in each record with the id, leaving the other records unchanged |
| Sheet.ConfirmStoresNormalForm | src/screens/PassometroScreen.jsx:137-146 | after OK the record holds the normalised identification, so a second OK stores the same object |
| Sheet.TypeProblems | src/screens/PassometroScreen.jsx:209-211 | a keystroke in "Problemas" keeps the edit selector and stores the raw typed text, uncollapsed, in each record with the id; other records are unchanged |
| Sheet.ConfirmProblems | src/screens/PassometroScreen.jsx:373-397 | the "Problemas" OK button ends editing and stores the collapsed value in each record with the id; other records are unchanged |
| Sheet.ErasingProblemsHidesEditor | src/screens/PassometroScreen.jsx:332 | erasing the whole "Problemas" text hides the field and its editor while edit mode stays on |
| Sheet.TypingKeepsProblemsShown | src/screens/PassometroScreen.jsx:332 | typing a non-empty text keeps the field shown |
| Sheet.ProblemsOkWithoutTyping | src/screens/PassometroScreen.jsx:373-397 | opening the editor on a canonical value and pressing OK leaves every record as it was |
| Insertion.NewPatient | src/App.jsx:50-59 | a new card has the given id, empty texts, idle status and no data |
| Insertion.AddPatient | src/App.jsx:47-61 | exactly one blank card is appended and every earlier card is unchanged |
| Insertion.SetText | src/App.jsx:66 | the named text is set and every other text, the id, the status and the data are kept |
| Insertion.UpdateField | src/App.jsx:63-69 | length and order kept; other cards untouched; a matching card changes only the named text |
| Insertion.UpdateLastWins | src/App.jsx:63-69 | a second keystroke in the same input replaces the first |
| Insertion.ClearPatient | src/App.jsx:71-90 | once confirmed, matching cards become blank in place with their id; other cards and an unconfirmed click change nothing |
| Insertion.ClearAfterUpdate | src/App.jsx:71-90 | clearing erases whatever was typed before |
| Insertion.ClearIdempotent | src/App.jsx:71-90 | clearing twice is clearing once |
| Insertion.ClearFreshIsNoop | src/App.jsx:71-90 | clearing a just-added card changes nothing |
| Insertion.DeletePatient | src/App.jsx:92-95 | once confirmed, a card remains exactly when it was there with another id; an unconfirmed click changes nothing |
| Insertion.DeleteConcat | src/App.jsx:92-95 | deleting keeps the relative order of the remaining cards |
| Insertion.DeleteAbsent | src/App.jsx:92-95 | deleting an id no card has changes nothing |
| Insertion.DeleteUndoesAdd | src/App.jsx:92-95 | deleting a just-added card under a fresh id restores the list |
| Insertion.RequestBody | src/App.jsx:109-115 | the request carries the bed as leitoInsercao and each text under its own name, as the card held them at the click |
| Insertion.BeginProcessing | src/App.jsx:98-104 | matching cards go to processing with everything else kept, and other cards are untouched |
| Insertion.FinishProcessing | src/App.jsx:121-127 | when the answer arrives matching cards are done and hold it; a failed request changes nothing |
| Insertion.ProcessingEnablesGenerate | src/App.jsx:97-128 | once the answer for an existing card arrives the sheet can be generated |
| Insertion.FinishAfterDelete | src/App.jsx:121-127 | an answer for a card deleted in the meantime is dropped |
| Insertion.FinishAfterClear | src/App.jsx:97-128 | an answer for a card cleared in the meantime fills the blank card, which becomes done with no texts |
| Insertion.Project | src/App.jsx:133-148 | a sheet record keeps id and bed, writes the bed into the identification, and copies every other key of the data and of the identification |
| Insertion.Generate | src/App.jsx:130-149 | one sheet record per done card, in order |
| Insertion.CanGenerateIffNonEmpty | src/App.jsx:253 | the generate button is shown exactly when the sheet would not be empty |
| Insertion.GenerateConcat | src/App.jsx:131-133 | the sheet follows the order of the cards |
| Insertion.UnfinishedNotGenerated | src/App.jsx:131-132 | cards that are not done never reach the sheet |
| Insertion.GeneratedHeaderLeito | src/App.jsx:143-146 | the bed the sheet header shows is the bed typed on the insertion screen, whatever the service answered |
| Insertion.GeneratedHeaderTitle | src/App.jsx:143-146 | with a bed typed the header title starts "LEITO <bed>: ", and without one it is the name alone |
| Insertion.GeneratedKeepsName | src/App.jsx:141-147 | a name the service put in the identification survives the hand-over |

## Left out

- Network I/O is not modelled. This covers the sheet's load from and save to the service (`src/screens/PassometroScreen.jsx:12-36`) and the generation request in `src/App.jsx:106-118`. The service's answer is a parameter of `Insertion.FinishProcessing`. A request or parse that throws is its `None` case.
- Browser I/O is not modelled: `localStorage`, the `URLSearchParams` mode switch and `window.open`. The hand-over is modelled as the value `Insertion.Generate` computes. The JSON serialisation in between is taken as the identity, since the model's values have no `undefined`, functions or non-integer numbers.
- `window.confirm` is a boolean parameter of `Insertion.ClearPatient` and `Insertion.DeletePatient`.
- `Date.now()` ids are a parameter of `Insertion.AddPatient`. Colliding ids are allowed, and every operation then acts on all cards with that id, as the source does.
- Textarea autosize, inline styles and JSX markup are not modelled. A rendered segment keeps its prefix, value and class only.
- The "HDA", "Evolução / Intercorrências" and default branches of `Campo`, and `CampoComEdicao`, are not modelled. They show their text verbatim.
- The generic `Campo` path for a "Problemas" value that is not a string is not modelled either.
- Numbers are integers. Floating-point values, `NaN` and their string forms are not modelled.
- Json.ObjectSpread: a string spreads one entry per `char` of the model. JavaScript spreads one per UTF-16 code unit.
- Json.ToText: React renders a non-string child differently from `String(v)`. The header's bed and name are compared as `String(v)` would write them.
- Condutas.CondutasLines: takes a text. The source's `(valor || "").split` throws on a truthy value that is not a string; that case is not modelled.
- Highlighter.Lookup: reads own keys only. A label naming an inherited property of a JavaScript object, such as "constructor", finds that property in the source and finds no class here.
- Json.Get: inherited properties are not modelled. Neither are own properties that shadow the `trim` and `toString` methods the normaliser calls.
- Strings.ToUpper: upper-cases ASCII and Latin-1 only, with "ß" becoming "SS". Other code points stay unchanged, which is weaker than full Unicode case mapping.
- Highlighter.RenderList: does not model malformed items. These are a `null` or non-object item in the read-only list, an item without `texto`, and a truthy `itens` that is not an array. The source throws or skips on these.
- Insertion.UpdateField: writes only the five text inputs the insertion card has. The source's `atualizarCampo` accepts any key, but only these five are passed to it.
- Insertion.FinishProcessing: models only the final state after the answer. The time during which a second click could start another request for the same card is not modelled.
- The empty-sheet message (`src/screens/PassometroScreen.jsx:57-63`) is not modelled. Nor is the "Intercorrências" field.

## Findings

| source | as written | input that shows it | evidently intended | confidence | as-written member | corrected member |
|---|---|---|---|---|---|---|
| src/screens/PassometroScreen.jsx:346-357 | The "Problemas" editor stores each keystroke raw but shows the re-expanded stored value. Expanding trims every part, so what the user just typed at the end is thrown away. | The user types "Sepse", then Enter. "Sepse\n" is stored, and the editor shows "Sepse", so a new line can never be started at the end. | The editor keeps the typed text as its draft and collapses it only on OK. Canonical values still save unchanged. | not executed | ProblemList.TypedNewlineIsLost | ProblemList.DraftEditorRoundTrip |
