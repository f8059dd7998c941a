/** The sheet's state (`PassometroScreen` in
    src/screens/PassometroScreen.jsx): the list of patient records, each with
    its generated data object `dados`, and the single field being edited. */
module Sheet {
  import opened Wrappers
  import opened Lists
  import opened Strings
  import opened Json
  import ProblemList
  import Identification

  /** A sheet record: its id, the bed typed at insertion, and the data object
      (`None` when the record has none). */
  datatype SheetPatient = SheetPatient(id: int, leito: Option<Json>, dados: Option<Json>)

  /** `{ ...p.dados, [campo]: valor }`. */
  function SetField(dados: Option<Json>, campo: string, valor: Json): (r: Json)
    ensures r.JObj? && campo in r.fields && r.fields[campo] == valor
    ensures AgreeExcept(ObjectSpread(dados), r.fields, campo)
  {
    JObj(ObjectSpread(dados)[campo := valor])
  }

  function UpdateOne(p: SheetPatient, id: int, campo: string, valor: Json): SheetPatient {
    if p.id == id then p.(dados := Some(SetField(p.dados, campo, valor))) else p
  }

  /** `atualizarCampo`: every record with the id gets `campo` set in its data
      object; all other records, and all other fields, are left as they were. */
  function UpdateField(ps: seq<SheetPatient>, id: int, campo: string, valor: Json): (r: seq<SheetPatient>)
    ensures |r| == |ps|
    ensures forall i :: 0 <= i < |ps| && ps[i].id != id ==> r[i] == ps[i]
    ensures forall i :: 0 <= i < |ps| && ps[i].id == id ==>
      r[i].id == id && r[i].leito == ps[i].leito && r[i].dados.Some? && r[i].dados.value.JObj?
      && campo in r[i].dados.value.fields && r[i].dados.value.fields[campo] == valor
      && AgreeExcept(ObjectSpread(ps[i].dados), r[i].dados.value.fields, campo)
  {
    Map((p: SheetPatient) => UpdateOne(p, id, campo, valor), ps)
  }

  /** A second write to the same field replaces the first. */
  lemma UpdateLastWins(ps: seq<SheetPatient>, id: int, campo: string, v1: Json, v2: Json)
    ensures UpdateField(UpdateField(ps, id, campo, v1), id, campo, v2) == UpdateField(ps, id, campo, v2)
  {
    var a := UpdateField(UpdateField(ps, id, campo, v1), id, campo, v2);
    var b := UpdateField(ps, id, campo, v2);
    forall i | 0 <= i < |ps| ensures a[i] == b[i] {
      UpdateOneTwice(ps[i], id, campo, v1, v2);
    }
  }

  lemma UpdateOneTwice(p: SheetPatient, id: int, campo: string, v1: Json, v2: Json)
    ensures UpdateOne(UpdateOne(p, id, campo, v1), id, campo, v2) == UpdateOne(p, id, campo, v2)
  {
    if p.id == id {
      var m := ObjectSpread(p.dados);
      assert m[campo := v1][campo := v2] == m[campo := v2];
    }
  }

  /** Writes to different fields, or to different records, commute. */
  lemma UpdateCommutes(ps: seq<SheetPatient>, id1: int, c1: string, v1: Json, id2: int, c2: string, v2: Json)
    requires id1 != id2 || c1 != c2
    ensures UpdateField(UpdateField(ps, id1, c1, v1), id2, c2, v2) ==
      UpdateField(UpdateField(ps, id2, c2, v2), id1, c1, v1)
  {
    var a := UpdateField(UpdateField(ps, id1, c1, v1), id2, c2, v2);
    var b := UpdateField(UpdateField(ps, id2, c2, v2), id1, c1, v1);
    forall i | 0 <= i < |ps| ensures a[i] == b[i] {
      UpdateOneCommutes(ps[i], id1, c1, v1, id2, c2, v2);
    }
  }

  lemma UpdateOneCommutes(p: SheetPatient, id1: int, c1: string, v1: Json, id2: int, c2: string, v2: Json)
    requires id1 != id2 || c1 != c2
    ensures UpdateOne(UpdateOne(p, id1, c1, v1), id2, c2, v2) == UpdateOne(UpdateOne(p, id2, c2, v2), id1, c1, v1)
  {
    if p.id == id1 && p.id == id2 {
      var m := ObjectSpread(p.dados);
      assert m[c1 := v1][c2 := v2] == m[c2 := v2][c1 := v1];
    }
  }

  /** Writing back the value a field already holds in an object changes nothing. */
  lemma UpdateSameValue(ps: seq<SheetPatient>, id: int, campo: string, valor: Json)
    requires forall i :: 0 <= i < |ps| && ps[i].id == id ==>
      ps[i].dados.Some? && ps[i].dados.value.JObj? && campo in ps[i].dados.value.fields &&
      ps[i].dados.value.fields[campo] == valor
    ensures UpdateField(ps, id, campo, valor) == ps
  {
    var r := UpdateField(ps, id, campo, valor);
    forall i | 0 <= i < |ps| ensures r[i] == ps[i] {
      if ps[i].id == id {
        var m := ps[i].dados.value.fields;
        assert m[campo := valor] == m;
      }
    }
  }

  // ---------------------------------------------------------------------
  // The edit selector
  // ---------------------------------------------------------------------

  /** `editando`: empty, or the one record id and field being edited. */
  datatype EditSelector = NotEditing | Editing(id: int, campo: string)

  /** `iniciarEdicao`. */
  function StartEditing(id: int, campo: string): (r: EditSelector)
    ensures InEditMode(r, id, campo)
  {
    Editing(id, campo)
  }

  /** `finalizarEdicao`. */
  function StopEditing(): (r: EditSelector)
    ensures forall id, campo :: !InEditMode(r, id, campo)
  {
    NotEditing
  }

  /** `editando.id === paciente.id && editando.campo === campo`. */
  predicate InEditMode(sel: EditSelector, id: int, campo: string) {
    sel.Editing? && sel.id == id && sel.campo == campo
  }

  /** At most one field of one record is in edit mode. */
  lemma AtMostOneEditor(sel: EditSelector, id1: int, c1: string, id2: int, c2: string)
    requires InEditMode(sel, id1, c1) && InEditMode(sel, id2, c2)
    ensures id1 == id2 && c1 == c2
  {
  }

  /** Starting to edit a field takes edit mode away from every other field. */
  lemma StartEditingIsExclusive(id: int, campo: string, id2: int, c2: string)
    ensures InEditMode(StartEditing(id, campo), id2, c2) <==> id2 == id && c2 == campo
  {
  }

  // ---------------------------------------------------------------------
  // Screen actions
  // ---------------------------------------------------------------------

  datatype Screen = Screen(dados: seq<SheetPatient>, editando: EditSelector)

  /** `paciente.dados || {}`. */
  function Dados(p: SheetPatient): Json {
    OrElse(p.dados, JObj(map[]))
  }

  /** `d.identificacao || {}`. */
  function IdentOf(p: SheetPatient): Json {
    OrElse(Get(Dados(p), "identificacao"), JObj(map[]))
  }

  /** The records after `valor` is stored under `campo` for id `id`: each
      record with the id holds the value in its data object, which keeps
      every other field it had; every other record is unchanged. */
  predicate StoredFor(before: seq<SheetPatient>, after: seq<SheetPatient>, id: int, campo: string, valor: Json) {
    |after| == |before|
    && (forall i :: 0 <= i < |before| && before[i].id != id ==> after[i] == before[i])
    && (forall i :: 0 <= i < |before| && before[i].id == id ==>
          after[i].id == id && after[i].leito == before[i].leito
          && Get(Dados(after[i]), campo) == Some(valor)
          && Dados(after[i]).JObj? && AgreeExcept(ObjectSpread(before[i].dados), Dados(after[i]).fields, campo))
  }

  /** `atualizarCampo` stores as `StoredFor` describes. */
  lemma UpdateFieldStores(ps: seq<SheetPatient>, id: int, campo: string, valor: Json)
    ensures StoredFor(ps, UpdateField(ps, id, campo, valor), id, campo, valor)
  {
    var r := UpdateField(ps, id, campo, valor);
    forall i | 0 <= i < |ps| && ps[i].id == id
      ensures Get(Dados(r[i]), campo) == Some(valor) && Dados(r[i]).JObj?
      ensures AgreeExcept(ObjectSpread(ps[i].dados), Dados(r[i]).fields, campo)
    {
      assert Dados(r[i]) == r[i].dados.value;
    }
  }

  /** A keystroke in one of the identification inputs of record `p`:
      `{ ...ident, [key]: value }` is stored as the identification, so every
      record with that id reads the typed text under `key` and the other
      entries of `p`'s identification as they were. */
  function TypeIdentification(s: Screen, p: SheetPatient, key: string, value: string): (r: Screen)
    ensures r.editando == s.editando && |r.dados| == |s.dados|
    ensures StoredFor(s.dados, r.dados, p.id, "identificacao", SetField(Some(IdentOf(p)), key, JStr(value)))
    ensures forall i :: 0 <= i < |s.dados| && s.dados[i].id == p.id ==>
      IdentOf(r.dados[i]).JObj? && Get(IdentOf(r.dados[i]), key) == Some(JStr(value))
      && AgreeExcept(ObjectSpread(Some(IdentOf(p))), IdentOf(r.dados[i]).fields, key)
  {
    var v := SetField(Some(IdentOf(p)), key, JStr(value));
    UpdateFieldStores(s.dados, p.id, "identificacao", v);
    s.(dados := UpdateField(s.dados, p.id, "identificacao", v))
  }

  /** The identification OK button: the normalised identification is stored
      and editing ends; when normalising throws, nothing changes. */
  function ConfirmIdentification(s: Screen, p: SheetPatient): (r: Result<Screen, Identification.NormalizeError>)
    ensures r.Success? <==> Identification.Normalize(IdentOf(p)).Success?
    ensures r.Success? ==> r.value.editando == NotEditing && |r.value.dados| == |s.dados|
    ensures r.Success? ==>
      StoredFor(s.dados, r.value.dados, p.id, "identificacao", JObj(Identification.Normalize(IdentOf(p)).value))
  {
    match Identification.Normalize(IdentOf(p))
    case Success(m) =>
      UpdateFieldStores(s.dados, p.id, "identificacao", JObj(m));
      Success(Screen(UpdateField(s.dados, p.id, "identificacao", JObj(m)), NotEditing))
    case Failure(e) => Failure(e)
  }

  /** After a confirmed identification every record with that id holds the
      normalised identification, so a second OK stores the same object. */
  lemma ConfirmStoresNormalForm(s: Screen, p: SheetPatient, i: nat)
    requires i < |s.dados| && s.dados[i].id == p.id
    requires Identification.Accepted(IdentOf(p))
    ensures IdentOf(ConfirmIdentification(s, p).value.dados[i]) == JObj(Identification.Normalize(IdentOf(p)).value)
    ensures Identification.Normalize(IdentOf(ConfirmIdentification(s, p).value.dados[i])) == Identification.Normalize(IdentOf(p))
  {
    var m := Identification.Normalize(IdentOf(p)).value;
    Identification.NormalizeIdempotent(m);
    var d := UpdateField(s.dados, p.id, "identificacao", JObj(m));
    assert ConfirmIdentification(s, p).value.dados == d;
    assert d[i] == UpdateOne(s.dados[i], p.id, "identificacao", JObj(m));
    IdentAfterStore(s.dados[i], m);
  }

  lemma IdentAfterStore(q: SheetPatient, m: map<string, Json>)
    ensures IdentOf(UpdateOne(q, q.id, "identificacao", JObj(m))) == JObj(m)
  {
    var r := UpdateOne(q, q.id, "identificacao", JObj(m));
    assert Dados(r) == SetField(q.dados, "identificacao", JObj(m));
  }

  /** A keystroke in the "Problemas" text area stores the raw text, with no
      collapsing, in every record with the id. */
  function TypeProblems(s: Screen, id: int, typed: string): (r: Screen)
    ensures r.editando == s.editando
    ensures StoredFor(s.dados, r.dados, id, "problemas", JStr(typed))
  {
    UpdateFieldStores(s.dados, id, "problemas", JStr(typed));
    s.(dados := UpdateField(s.dados, id, "problemas", JStr(typed)))
  }

  /** The "Problemas" OK button: the current value is collapsed, stored, and
      editing ends. */
  function ConfirmProblems(s: Screen, id: int, valor: string): (r: Screen)
    ensures r.editando == NotEditing && |r.dados| == |s.dados|
    ensures StoredFor(s.dados, r.dados, id, "problemas", JStr(ProblemList.Collapse(valor)))
  {
    var v := JStr(ProblemList.Collapse(valor));
    UpdateFieldStores(s.dados, id, "problemas", v);
    Screen(UpdateField(s.dados, id, "problemas", v), NotEditing)
  }

  /** The "Problemas" field, editor included, is drawn only while the stored
      value is truthy. */
  predicate ProblemsShown(p: SheetPatient) {
    Truthy(Get(Dados(p), "problemas"))
  }

  /** Erasing the whole text in the "Problemas" editor stores the empty text,
      which hides the field, its editor and its OK button, while the record
      stays in edit mode. */
  lemma ErasingProblemsHidesEditor(s: Screen, id: int, i: nat)
    requires i < |s.dados| && s.dados[i].id == id
    ensures !ProblemsShown(TypeProblems(s, id, "").dados[i])
    ensures TypeProblems(s, id, "").editando == s.editando
  {
    var d := UpdateField(s.dados, id, "problemas", JStr(""));
    assert d[i] == UpdateOne(s.dados[i], id, "problemas", JStr(""));
    assert Dados(d[i]) == SetField(s.dados[i].dados, "problemas", JStr(""));
  }

  /** Typing a non-empty text keeps the field shown. */
  lemma TypingKeepsProblemsShown(s: Screen, id: int, typed: string, i: nat)
    requires i < |s.dados| && s.dados[i].id == id && typed != ""
    ensures ProblemsShown(TypeProblems(s, id, typed).dados[i])
  {
    var d := UpdateField(s.dados, id, "problemas", JStr(typed));
    assert d[i] == UpdateOne(s.dados[i], id, "problemas", JStr(typed));
    assert Dados(d[i]) == SetField(s.dados[i].dados, "problemas", JStr(typed));
  }

  /** Opening the "Problemas" editor on a canonical value and pressing OK
      without typing leaves every record as it was. */
  lemma ProblemsOkWithoutTyping(s: Screen, id: int, blocks: seq<seq<string>>)
    requires ProblemList.Canonical(blocks)
    requires forall i :: 0 <= i < |s.dados| && s.dados[i].id == id ==>
      s.dados[i].dados.Some? && s.dados[i].dados.value.JObj? &&
      "problemas" in s.dados[i].dados.value.fields &&
      s.dados[i].dados.value.fields["problemas"] == JStr(ProblemList.Encode(blocks))
    ensures ConfirmProblems(s.(editando := StartEditing(id, "problemas")), id, ProblemList.Encode(blocks)).dados == s.dados
  {
    ProblemList.CollapseCanonicalIsNoop(blocks);
    UpdateSameValue(s.dados, id, "problemas", JStr(ProblemList.Encode(blocks)));
  }
}
