/** The insertion screen (src/App.jsx): the list of patients being prepared,
    the note-generation round trip that fills a patient's data, and the
    hand-over of the finished patients to the sheet. */
module Insertion {
  import opened Wrappers
  import opened Lists
  import opened Strings
  import opened Json
  import Sheet
  import Identification

  /** `status`: "idle", "processing" or "done". */
  datatype Status = Idle | Processing | Done

  /** A patient card; `dados` is `null` until the service has answered. */
  datatype Patient = Patient(
    id: int,
    leito: string,
    evolucaoAnterior: string,
    controles: string,
    laboratorio: string,
    gasometria: string,
    status: Status,
    dados: Json)

  /** The inputs of a card that `atualizarCampo` writes to. */
  datatype TextField = LeitoField | EvolucaoField | ControlesField | LaboratorioField | GasometriaField

  /** A card with every text empty, idle and without data. */
  predicate Blank(p: Patient) {
    p.leito == "" && p.evolucaoAnterior == "" && p.controles == "" && p.laboratorio == ""
    && p.gasometria == "" && p.status == Idle && p.dados == JNull
  }

  function NewPatient(id: int): (r: Patient)
    ensures r.id == id && Blank(r)
  {
    Patient(id, "", "", "", "", "", Idle, JNull)
  }

  /** `adicionarPaciente`: a blank card appended at the end; `id` is the
      clock reading the source takes. */
  function AddPatient(ps: seq<Patient>, id: int): (r: seq<Patient>)
    ensures |r| == |ps| + 1 && r[..|ps|] == ps
    ensures r[|ps|].id == id && Blank(r[|ps|])
  {
    ps + [NewPatient(id)]
  }

  // ---------------------------------------------------------------------
  // Editing a card
  // ---------------------------------------------------------------------

  function Text(p: Patient, f: TextField): string {
    match f
    case LeitoField => p.leito
    case EvolucaoField => p.evolucaoAnterior
    case ControlesField => p.controles
    case LaboratorioField => p.laboratorio
    case GasometriaField => p.gasometria
  }

  /** `{ ...p, [campo]: valor }` for one of the card's text inputs. */
  function SetText(p: Patient, f: TextField, valor: string): (r: Patient)
    ensures Text(r, f) == valor
    ensures forall g :: g != f ==> Text(r, g) == Text(p, g)
    ensures r.id == p.id && r.status == p.status && r.dados == p.dados
  {
    match f
    case LeitoField => p.(leito := valor)
    case EvolucaoField => p.(evolucaoAnterior := valor)
    case ControlesField => p.(controles := valor)
    case LaboratorioField => p.(laboratorio := valor)
    case GasometriaField => p.(gasometria := valor)
  }

  /** `atualizarCampo`: every card with the id gets the text; every other card
      is left as it was. */
  function UpdateField(ps: seq<Patient>, id: int, f: TextField, valor: string): (r: seq<Patient>)
    ensures |r| == |ps|
    ensures forall i :: 0 <= i < |ps| && ps[i].id != id ==> r[i] == ps[i]
    ensures forall i :: 0 <= i < |ps| && ps[i].id == id ==>
      Text(r[i], f) == valor && r[i].id == id && r[i].status == ps[i].status && r[i].dados == ps[i].dados
      && (forall g :: g != f ==> Text(r[i], g) == Text(ps[i], g))
  {
    Map((p: Patient) => if p.id == id then SetText(p, f, valor) else p, ps)
  }

  /** Two keystrokes in the same input: the second text replaces the first. */
  lemma UpdateLastWins(ps: seq<Patient>, id: int, f: TextField, v1: string, v2: string)
    ensures UpdateField(UpdateField(ps, id, f, v1), id, f, v2) == UpdateField(ps, id, f, v2)
  {
    var a := UpdateField(UpdateField(ps, id, f, v1), id, f, v2);
    var b := UpdateField(ps, id, f, v2);
    forall i | 0 <= i < |ps| ensures a[i] == b[i] {
      if ps[i].id == id {
        SetTextTwice(ps[i], f, v1, v2);
      }
    }
  }

  lemma SetTextTwice(p: Patient, f: TextField, v1: string, v2: string)
    ensures SetText(SetText(p, f, v1), f, v2) == SetText(p, f, v2)
  {
  }

  // ---------------------------------------------------------------------
  // Clearing and deleting a card
  // ---------------------------------------------------------------------

  function ClearOne(p: Patient, id: int): Patient {
    if p.id == id then NewPatient(id) else p
  }

  /** `limparPaciente`: once the user confirms, every card with the id becomes
      blank, keeping its id and place; without confirmation nothing changes. */
  function ClearPatient(ps: seq<Patient>, id: int, confirmed: bool): (r: seq<Patient>)
    ensures |r| == |ps|
    ensures !confirmed ==> r == ps
    ensures confirmed ==> forall i :: 0 <= i < |ps| ==>
      (ps[i].id == id ==> r[i].id == id && Blank(r[i])) && (ps[i].id != id ==> r[i] == ps[i])
  {
    if confirmed then Map((p: Patient) => ClearOne(p, id), ps) else ps
  }

  /** Clearing erases whatever was typed into the card before. */
  lemma ClearAfterUpdate(ps: seq<Patient>, id: int, f: TextField, valor: string)
    ensures ClearPatient(UpdateField(ps, id, f, valor), id, true) == ClearPatient(ps, id, true)
  {
    var a := ClearPatient(UpdateField(ps, id, f, valor), id, true);
    var b := ClearPatient(ps, id, true);
    assert forall i :: 0 <= i < |ps| ==> a[i] == b[i];
  }

  /** Clearing twice is clearing once. */
  lemma ClearIdempotent(ps: seq<Patient>, id: int)
    ensures ClearPatient(ClearPatient(ps, id, true), id, true) == ClearPatient(ps, id, true)
  {
    var a := ClearPatient(ClearPatient(ps, id, true), id, true);
    var b := ClearPatient(ps, id, true);
    assert forall i :: 0 <= i < |ps| ==> a[i] == b[i];
  }

  predicate Keeps(id: int, p: Patient) {
    p.id != id
  }

  /** `excluirPaciente`: once the user confirms, every card with the id is
      removed and the others keep their order; without confirmation nothing
      changes. */
  function DeletePatient(ps: seq<Patient>, id: int, confirmed: bool): (r: seq<Patient>)
    ensures !confirmed ==> r == ps
    ensures confirmed ==> forall p :: p in r <==> p in ps && p.id != id
    ensures |r| <= |ps|
  {
    if confirmed then
      var r := Filter((p: Patient) => Keeps(id, p), ps);
      FilterKeepsMembers((p: Patient) => Keeps(id, p), ps);
      r
    else ps
  }

  /** Every element that satisfies `p` survives `Filter`. */
  lemma {:induction false} FilterKeepsMembers<A(!new)>(p: A -> bool, xs: seq<A>)
    ensures forall x :: x in xs && p(x) ==> x in Filter(p, xs)
    decreases |xs|
  {
    if |xs| > 0 {
      FilterKeepsMembers(p, xs[1..]);
      forall x | x in xs && p(x) ensures x in Filter(p, xs) {
        if x != xs[0] {
          assert x in xs[1..];
        }
      }
    }
  }

  /** Deleting splits over the list: the cards before and after keep their
      relative order. */
  lemma DeleteConcat(a: seq<Patient>, b: seq<Patient>, id: int)
    ensures DeletePatient(a + b, id, true) == DeletePatient(a, id, true) + DeletePatient(b, id, true)
  {
    FilterConcat((p: Patient) => Keeps(id, p), a, b);
  }

  /** Deleting an id no card has changes nothing. */
  lemma DeleteAbsent(ps: seq<Patient>, id: int)
    requires forall i :: 0 <= i < |ps| ==> ps[i].id != id
    ensures DeletePatient(ps, id, true) == ps
  {
    FilterKeepsAll((p: Patient) => Keeps(id, p), ps);
  }

  /** Deleting a card just added, under a fresh id, restores the list. */
  lemma DeleteUndoesAdd(ps: seq<Patient>, id: int)
    requires forall i :: 0 <= i < |ps| ==> ps[i].id != id
    ensures DeletePatient(AddPatient(ps, id), id, true) == ps
  {
    DeleteConcat(ps, [NewPatient(id)], id);
    DeleteAbsent(ps, id);
    FilterSingle((p: Patient) => Keeps(id, p), NewPatient(id));
  }

  /** Clearing a card just added, under a fresh id, changes nothing. */
  lemma ClearFreshIsNoop(ps: seq<Patient>, id: int)
    requires forall i :: 0 <= i < |ps| ==> ps[i].id != id
    ensures ClearPatient(AddPatient(ps, id), id, true) == AddPatient(ps, id)
  {
    var a := ClearPatient(AddPatient(ps, id), id, true);
    assert forall i :: 0 <= i < |ps| + 1 ==> a[i] == AddPatient(ps, id)[i];
  }

  // ---------------------------------------------------------------------
  // Note generation
  // ---------------------------------------------------------------------

  /** The request body `processarPaciente` posts: the bed under the name
      `leitoInsercao` and the four texts, as the card held them when the
      button was clicked. */
  function RequestBody(p: Patient): (r: map<string, Json>)
    ensures r.Keys == {"leitoInsercao", "evolucaoAnterior", "controles", "laboratorio", "gasometria"}
    ensures forall f: TextField :: RequestKey(f) in r && r[RequestKey(f)] == JStr(Text(p, f))
  {
    map["leitoInsercao" := JStr(p.leito), "evolucaoAnterior" := JStr(p.evolucaoAnterior),
        "controles" := JStr(p.controles), "laboratorio" := JStr(p.laboratorio),
        "gasometria" := JStr(p.gasometria)]
  }

  function RequestKey(f: TextField): string {
    match f
    case LeitoField => "leitoInsercao"
    case EvolucaoField => "evolucaoAnterior"
    case ControlesField => "controles"
    case LaboratorioField => "laboratorio"
    case GasometriaField => "gasometria"
  }

  /** The first update of `processarPaciente`: the card is marked as processing. */
  function BeginProcessing(ps: seq<Patient>, id: int): (r: seq<Patient>)
    ensures |r| == |ps|
    ensures forall i :: 0 <= i < |ps| ==>
      if ps[i].id == id then r[i] == ps[i].(status := Processing) else r[i] == ps[i]
  {
    Map((p: Patient) => if p.id == id then p.(status := Processing) else p, ps)
  }

  /** The second update, when the service's answer arrives: every card with
      the id is done and holds the answer, whatever happened to it in the
      meantime. `None` is a request or parse that throws; the update is then
      never made and the card stays in processing. */
  function FinishProcessing(ps: seq<Patient>, id: int, response: Option<Json>): (r: seq<Patient>)
    ensures |r| == |ps|
    ensures response.None? ==> r == ps
    ensures response.Some? ==> forall i :: 0 <= i < |ps| ==>
      if ps[i].id == id then r[i] == ps[i].(status := Done, dados := response.value) else r[i] == ps[i]
  {
    match response
    case None => ps
    case Some(data) => Map((p: Patient) => if p.id == id then p.(status := Done, dados := data) else p, ps)
  }

  /** Once the answer for an existing card arrives, the sheet can be generated. */
  lemma ProcessingEnablesGenerate(ps: seq<Patient>, id: int, data: Json)
    requires exists i :: 0 <= i < |ps| && ps[i].id == id
    ensures CanGenerate(FinishProcessing(BeginProcessing(ps, id), id, Some(data)))
  {
    var i :| 0 <= i < |ps| && ps[i].id == id;
    assert FinishProcessing(BeginProcessing(ps, id), id, Some(data))[i].status == Done;
  }

  /** An answer arriving for a card deleted in the meantime is dropped. */
  lemma FinishAfterDelete(ps: seq<Patient>, id: int, response: Option<Json>)
    ensures FinishProcessing(DeletePatient(ps, id, true), id, response) == DeletePatient(ps, id, true)
  {
    var d := DeletePatient(ps, id, true);
    forall i | 0 <= i < |d| ensures d[i].id != id {
      assert d[i] in d;
    }
  }

  /** An answer arriving for a card cleared in the meantime fills the blank
      card: it is done, holds the answer and has no texts. */
  lemma FinishAfterClear(ps: seq<Patient>, id: int, data: Json, i: nat)
    requires i < |ps| && ps[i].id == id
    ensures FinishProcessing(ClearPatient(BeginProcessing(ps, id), id, true), id, Some(data))[i]
      == Patient(id, "", "", "", "", "", Done, data)
  {
  }

  // ---------------------------------------------------------------------
  // Handing over to the sheet
  // ---------------------------------------------------------------------

  predicate IsDone(p: Patient) {
    p.status == Done
  }

  /** `p.dados || {}`. */
  function DadosOf(p: Patient): Json {
    OrElse(Some(p.dados), JObj(map[]))
  }

  /** `dados.identificacao || {}`. */
  function IdentIn(p: Patient): Json {
    OrElse(Get(DadosOf(p), "identificacao"), JObj(map[]))
  }

  /** The sheet record of a finished card: its id, its bed, and its data with
      the bed written into the identification; every other field of the data
      and of the identification is copied. */
  function Project(p: Patient): (r: Sheet.SheetPatient)
    ensures r.id == p.id && r.leito == Some(JStr(p.leito))
    ensures r.dados.Some? && r.dados.value.JObj? && "identificacao" in r.dados.value.fields
    ensures AgreeExcept(ObjectSpread(Some(DadosOf(p))), r.dados.value.fields, "identificacao")
    ensures r.dados.value.fields["identificacao"].JObj?
    ensures "leito" in r.dados.value.fields["identificacao"].fields
    ensures r.dados.value.fields["identificacao"].fields["leito"] == JStr(p.leito)
    ensures AgreeExcept(ObjectSpread(Some(IdentIn(p))), r.dados.value.fields["identificacao"].fields, "leito")
  {
    var ident := ObjectSpread(Some(IdentIn(p)))["leito" := JStr(p.leito)];
    Sheet.SheetPatient(p.id, Some(JStr(p.leito)),
      Some(JObj(ObjectSpread(Some(DadosOf(p)))["identificacao" := JObj(ident)])))
  }

  /** `gerarPassometro`: the finished cards, in order, as sheet records. */
  function Generate(ps: seq<Patient>): (r: seq<Sheet.SheetPatient>)
    ensures |r| == |Filter(IsDone, ps)|
    ensures forall i :: 0 <= i < |r| ==> r[i] == Project(Filter(IsDone, ps)[i])
  {
    Map(Project, Filter(IsDone, ps))
  }

  /** The "Gerar passômetro" button is shown when some card is done. */
  predicate CanGenerate(ps: seq<Patient>) {
    exists i :: 0 <= i < |ps| && ps[i].status == Done
  }

  /** The button is shown exactly when the sheet would not be empty. */
  lemma {:induction false} CanGenerateIffNonEmpty(ps: seq<Patient>)
    ensures CanGenerate(ps) <==> |Generate(ps)| > 0
    decreases |ps|
  {
    if |ps| > 0 {
      CanGenerateIffNonEmpty(ps[1..]);
      assert CanGenerate(ps) <==> IsDone(ps[0]) || CanGenerate(ps[1..]) by {
        if CanGenerate(ps) && !IsDone(ps[0]) {
          var i :| 0 <= i < |ps| && ps[i].status == Done;
          assert ps[1..][i - 1] == ps[i];
        }
        if CanGenerate(ps[1..]) {
          var i :| 0 <= i < |ps[1..]| && ps[1..][i].status == Done;
          assert ps[i + 1] == ps[1..][i];
        }
      }
    }
  }

  /** The sheet follows the order of the cards. */
  lemma GenerateConcat(a: seq<Patient>, b: seq<Patient>)
    ensures Generate(a + b) == Generate(a) + Generate(b)
  {
    FilterConcat(IsDone, a, b);
    MapConcat(Project, Filter(IsDone, a), Filter(IsDone, b));
  }

  /** Cards that are not done never reach the sheet. */
  lemma UnfinishedNotGenerated(ps: seq<Patient>)
    requires forall i :: 0 <= i < |ps| ==> ps[i].status != Done
    ensures Generate(ps) == []
  {
    FilterDropsAll(IsDone, ps);
  }

  /** The bed the sheet's header shows for a generated record is the bed typed
      on the insertion screen, whatever the service answered. */
  lemma GeneratedHeaderLeito(p: Patient)
    ensures Identification.HeaderLeito(Sheet.IdentOf(Project(p)), Project(p).leito) == JStr(p.leito)
  {
    var q := Project(p);
    assert Sheet.Dados(q) == q.dados.value;
    assert Sheet.IdentOf(q) == q.dados.value.fields["identificacao"];
  }

  /** So with a bed typed the header title starts with "LEITO <bed>: ", and
      without one it is the name alone. */
  lemma GeneratedHeaderTitle(p: Patient)
    ensures var q := Project(p);
      var nome := ToText(OrElse(Get(Sheet.IdentOf(q), Identification.Nome), JStr(Identification.Unidentified)));
      Identification.HeaderTitle(Sheet.IdentOf(q), q.leito) ==
        if p.leito != "" then "LEITO " + p.leito + ": " + nome else nome
  {
    GeneratedHeaderLeito(p);
  }

  /** A name the service put in the identification survives the hand-over. */
  lemma GeneratedKeepsName(p: Patient, n: Json)
    requires p.dados.JObj? && "identificacao" in p.dados.fields
    requires p.dados.fields["identificacao"].JObj?
    requires Get(p.dados.fields["identificacao"], Identification.Nome) == Some(n)
    ensures Get(Sheet.IdentOf(Project(p)), Identification.Nome) == Some(n)
  {
    GeneratedHeaderLeito(p);
  }
}
