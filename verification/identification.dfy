/** The patient header of the sheet (src/screens/PassometroScreen.jsx): the
    OK button of the identification editor, which rewrites the
    identification object into its normal form, and the header line shown
    when the identification is not being edited. */
module Identification {
  import opened Wrappers
  import opened Strings
  import opened Json

  /** The four fields of a normalised identification. */
  const Leito := "leito"
  const Nome := "nome"
  const Idade := "idade"
  const Sexo := "sexo"

  /** The header's name when the identification has none. */
  const Unidentified := "PACIENTE N\U{00C3}O IDENTIFICADO"

  /** Clicking OK throws when a text field holds a truthy value that is not a
      string: such a value has no `trim` method. Nothing is stored then. */
  datatype NormalizeError = NotAString(field: string)

  /** `ident.<key> || ""`: the field, or the empty text when it is falsy. */
  function FieldOrEmpty(ident: Json, key: string): (r: Json)
    ensures Truthy(Get(ident, key)) ==> Some(r) == Get(ident, key)
    ensures !Truthy(Get(ident, key)) ==> r == JStr("")
  {
    OrElse(Get(ident, key), JStr(""))
  }

  /** A field `trim` cannot be called on. */
  predicate BadField(ident: Json, key: string) {
    !FieldOrEmpty(ident, key).JStr?
  }

  /** The identifications the OK button accepts: bed, name and sex can each
      be trimmed. */
  predicate Accepted(ident: Json) {
    !BadField(ident, Leito) && !BadField(ident, Nome) && !BadField(ident, Sexo)
  }

  /** `(ident.<key> || "").trim().toUpperCase()`. */
  function UpperField(ident: Json, key: string): (r: Result<string, NormalizeError>)
    ensures r.Failure? <==> BadField(ident, key)
    ensures r.Failure? ==> r.error == NotAString(key)
    ensures r.Success? ==> IsTrimmed(r.value) && ToUpper(r.value) == r.value
    ensures r.Success? ==> r.value == ToUpper(Trim(FieldOrEmpty(ident, key).s))
    ensures !Truthy(Get(ident, key)) ==> r == Success("")
  {
    TrimOfTrimmed("");
    ToUpperEmpty();
    var v := FieldOrEmpty(ident, key);
    if v.JStr? then
      ToUpperKeepsTrimmed(Trim(v.s));
      ToUpperIdempotent(Trim(v.s));
      Success(ToUpper(Trim(v.s)))
    else Failure(NotAString(key))
  }

  /** `(ident.idade || "").toString().trim()`: every value converts to text. */
  function AgeField(ident: Json): (r: string)
    ensures IsTrimmed(r)
    ensures FieldOrEmpty(ident, Idade).JStr? ==> r == Trim(FieldOrEmpty(ident, Idade).s)
    ensures Truthy(Get(ident, Idade)) ==> r == Trim(ToText(Get(ident, Idade).value))
    ensures !Truthy(Get(ident, Idade)) ==> r == ""
  {
    TrimOfTrimmed("");
    Trim(ToText(FieldOrEmpty(ident, Idade)))
  }

  /** The identification the OK button stores: exactly the four fields, built
      in the order leito, nome, idade, sexo, so that the first field that
      cannot be trimmed is the one that fails. */
  function Normalize(ident: Json): (r: Result<map<string, Json>, NormalizeError>)
    ensures r.Success? <==> Accepted(ident)
    ensures r.Failure? ==>
      (r.error == NotAString(Leito) <==> BadField(ident, Leito)) &&
      (r.error == NotAString(Nome) <==> !BadField(ident, Leito) && BadField(ident, Nome)) &&
      (r.error == NotAString(Sexo) <==> !BadField(ident, Leito) && !BadField(ident, Nome))
    ensures r.Success? ==> Normalized(r.value)
  {
    var leito := UpperField(ident, Leito);
    if leito.Failure? then Failure(leito.error) else
    var nome := UpperField(ident, Nome);
    if nome.Failure? then Failure(nome.error) else
    var idade := AgeField(ident);
    var sexo := UpperField(ident, Sexo);
    if sexo.Failure? then Failure(sexo.error) else
    Success(Record(leito.value, nome.value, idade, sexo.value))
  }

  /** What the normaliser stores under a text field `k`, read off the input:
      the trimmed, upper-cased text when the field is truthy, and the empty
      text when it is missing or falsy. */
  predicate StoresUpper(ident: Json, m: map<string, Json>, k: string)
    requires k in m
  {
    if Truthy(Get(ident, k)) then
      Get(ident, k).value.JStr? && m[k] == JStr(ToUpper(Trim(Get(ident, k).value.s)))
    else m[k] == JStr("")
  }

  /** What the normaliser stores as the age: the trimmed string form of any
      truthy value, numbers included, and the empty text otherwise. */
  predicate StoresAge(ident: Json, m: map<string, Json>)
    requires Idade in m
  {
    m[Idade] == JStr(if Truthy(Get(ident, Idade)) then Trim(ToText(Get(ident, Idade).value)) else "")
  }

  /** Every field the OK button stores is computed from the same field of the
      identification being edited. */
  lemma NormalizeStores(ident: Json)
    requires Accepted(ident)
    ensures var m := Normalize(ident).value;
      StoresUpper(ident, m, Leito) && StoresUpper(ident, m, Nome) && StoresAge(ident, m) && StoresUpper(ident, m, Sexo)
  {
    var m := Normalize(ident).value;
    NormalizeIsRecord(ident);
    StoresUpperField(ident, m, Leito);
    StoresUpperField(ident, m, Nome);
    StoresAgeField(ident, m);
    StoresUpperField(ident, m, Sexo);
  }

  lemma NormalizeIsRecord(ident: Json)
    requires Accepted(ident)
    ensures Normalize(ident).value == Record(UpperField(ident, Leito).value, UpperField(ident, Nome).value,
      AgeField(ident), UpperField(ident, Sexo).value)
  {
  }

  lemma StoresUpperField(ident: Json, m: map<string, Json>, k: string)
    requires UpperField(ident, k).Success? && k in m && m[k] == JStr(UpperField(ident, k).value)
    ensures StoresUpper(ident, m, k)
  {
    if Truthy(Get(ident, k)) {
      assert FieldOrEmpty(ident, k) == Get(ident, k).value;
    }
  }

  lemma StoresAgeField(ident: Json, m: map<string, Json>)
    requires Idade in m && m[Idade] == JStr(AgeField(ident))
    ensures StoresAge(ident, m)
  {
    var v := FieldOrEmpty(ident, Idade);
    assert AgeField(ident) == Trim(ToText(v));
    if !Truthy(Get(ident, Idade)) {
      assert v == JStr("");
      TrimOfTrimmed("");
    }
  }

  /** A numeric age is stored as its decimal text: `72` becomes "72". */
  lemma AgeOfNumber(ident: Json, n: nat)
    requires Get(ident, Idade) == Some(JNum(n)) && n != 0
    ensures AgeField(ident) == NatToDecimal(n)
  {
    var d := NatToDecimal(n);
    assert ToText(JNum(n)) == d;
    PrintableNotSpace(d[0]);
    PrintableNotSpace(d[|d| - 1]);
    TrimOfTrimmed(d);
  }

  /** The normal form: the four keys and no other, each a trimmed text, and
      every field but the age already upper case. */
  predicate Normalized(m: map<string, Json>) {
    m.Keys == {Leito, Nome, Idade, Sexo}
    && UpperText(m[Leito]) && UpperText(m[Nome]) && TrimmedText(m[Idade]) && UpperText(m[Sexo])
  }

  predicate TrimmedText(v: Json) {
    v.JStr? && IsTrimmed(v.s)
  }

  predicate UpperText(v: Json) {
    TrimmedText(v) && ToUpper(v.s) == v.s
  }

  /** The four fields as the normaliser lays them out. */
  function Record(leito: string, nome: string, idade: string, sexo: string): (m: map<string, Json>)
    ensures m.Keys == {Leito, Nome, Idade, Sexo}
    ensures m[Leito] == JStr(leito) && m[Nome] == JStr(nome) && m[Idade] == JStr(idade) && m[Sexo] == JStr(sexo)
  {
    map[Leito := JStr(leito), Nome := JStr(nome), Idade := JStr(idade), Sexo := JStr(sexo)]
  }

  /** A text field already in normal form is read back unchanged. */
  lemma UpperFieldOfNormal(m: map<string, Json>, key: string)
    requires key in m && UpperText(m[key])
    ensures UpperField(JObj(m), key) == Success(m[key].s)
  {
    FieldOfText(m, key);
    UpperOfUpper(m[key].s);
    var v := FieldOrEmpty(JObj(m), key);
    assert UpperField(JObj(m), key) == Success(ToUpper(Trim(v.s)));
  }

  lemma UpperOfUpper(s: string)
    requires IsTrimmed(s) && ToUpper(s) == s
    ensures ToUpper(Trim(s)) == s
  {
    TrimOfTrimmed(s);
  }

  lemma FieldOfText(m: map<string, Json>, key: string)
    requires key in m && m[key].JStr?
    ensures FieldOrEmpty(JObj(m), key) == m[key]
  {
  }

  /** Pressing OK a second time stores the same identification. */
  lemma NormalizeIdempotent(m: map<string, Json>)
    requires Normalized(m)
    ensures Normalize(JObj(m)) == Success(m)
  {
    UpperFieldOfNormal(m, Leito);
    UpperFieldOfNormal(m, Nome);
    UpperFieldOfNormal(m, Sexo);
    FieldOfText(m, Idade);
    TrimOfTrimmed(m[Idade].s);
    assert AgeField(JObj(m)) == m[Idade].s;
    RecordOf(m);
  }

  lemma RecordOf(m: map<string, Json>)
    requires Normalized(m)
    ensures m == Record(m[Leito].s, m[Nome].s, m[Idade].s, m[Sexo].s)
  {
  }

  /** A missing identification, or one with none of the fields, normalises to
      four empty texts. */
  lemma NormalizeEmpty()
    ensures Normalize(JObj(map[])) == Success(Record("", "", "", ""))
  {
    var e: map<string, Json> := map[];
    TrimOfTrimmed("");
    assert FieldOrEmpty(JObj(e), Leito) == JStr("");
    assert FieldOrEmpty(JObj(e), Nome) == JStr("");
    assert FieldOrEmpty(JObj(e), Idade) == JStr("");
    assert FieldOrEmpty(JObj(e), Sexo) == JStr("");
    assert UpperField(JObj(e), Leito) == Success("");
    assert UpperField(JObj(e), Nome) == Success("");
    assert UpperField(JObj(e), Sexo) == Success("");
    assert AgeField(JObj(e)) == "";
  }

  /** Other keys of the identification are dropped, and a field is read the
      same whatever else the object holds. */
  lemma NormalizeIgnoresOtherKeys(m: map<string, Json>, key: string, v: Json)
    requires key !in {Leito, Nome, Idade, Sexo}
    ensures Normalize(JObj(m[key := v])) == Normalize(JObj(m))
  {
    var a, b := JObj(m[key := v]), JObj(m);
    SameField(m, key, v, Leito);
    SameField(m, key, v, Nome);
    SameField(m, key, v, Idade);
    SameField(m, key, v, Sexo);
    SameUpper(a, b, Leito);
    SameUpper(a, b, Nome);
    SameUpper(a, b, Sexo);
    SameAge(a, b);
    SameReadings(a, b);
  }

  lemma SameUpper(a: Json, b: Json, k: string)
    requires FieldOrEmpty(a, k) == FieldOrEmpty(b, k)
    ensures UpperField(a, k) == UpperField(b, k)
  {
  }

  lemma SameAge(a: Json, b: Json)
    requires FieldOrEmpty(a, Idade) == FieldOrEmpty(b, Idade)
    ensures AgeField(a) == AgeField(b)
  {
  }

  /** The normaliser sees an identification only through its four readings. */
  lemma SameReadings(a: Json, b: Json)
    requires UpperField(a, Leito) == UpperField(b, Leito) && UpperField(a, Nome) == UpperField(b, Nome)
    requires AgeField(a) == AgeField(b) && UpperField(a, Sexo) == UpperField(b, Sexo)
    ensures Normalize(a) == Normalize(b)
  {
  }

  lemma SameField(m: map<string, Json>, key: string, v: Json, k: string)
    requires k != key
    ensures FieldOrEmpty(JObj(m[key := v]), k) == FieldOrEmpty(JObj(m), k)
  {
  }

  // ---------------------------------------------------------------------
  // Header line
  // ---------------------------------------------------------------------

  /** `ident.leito || paciente.leito || ""`. */
  function HeaderLeito(ident: Json, recordLeito: Option<Json>): Json {
    OrElse(Get(ident, Leito), OrElse(recordLeito, JStr("")))
  }

  /** The bold part: "LEITO <leito>: <nome>" when a bed is known, the name
      alone otherwise; the name falls back to `Unidentified`. */
  function HeaderTitle(ident: Json, recordLeito: Option<Json>): (r: string)
    ensures !Truthy(Get(ident, Nome)) ==>
      |Unidentified| <= |r| && r[|r| - |Unidentified|..] == Unidentified
  {
    var leito := HeaderLeito(ident, recordLeito);
    var nome := ToText(OrElse(Get(ident, Nome), JStr(Unidentified)));
    if Truthy(Some(leito)) then "LEITO " + ToText(leito) + ": " + nome else nome
  }

  /** `[idade, sexo].filter(Boolean)`: "<idade> ANOS" when the age is truthy,
      then the sex when truthy. */
  function HeaderDetailParts(ident: Json): (r: seq<string>)
    ensures |r| == (if Truthy(Get(ident, Idade)) then 1 else 0) + (if Truthy(Get(ident, Sexo)) then 1 else 0)
    ensures Truthy(Get(ident, Idade)) ==> r[0] == ToText(Get(ident, Idade).value) + " ANOS"
  {
    var idade := if Truthy(Get(ident, Idade)) then [ToText(Get(ident, Idade).value) + " ANOS"] else [];
    var sexo := if Truthy(Get(ident, Sexo)) then [ToText(Get(ident, Sexo).value)] else [];
    idade + sexo
  }

  /** The grey part after the title: " | " and the details joined by " | ",
      or nothing when there are none. */
  function HeaderDetails(ident: Json): (r: string)
    ensures r == "" <==> !Truthy(Get(ident, Idade)) && !Truthy(Get(ident, Sexo))
    ensures r != "" ==> |r| >= 3 && r[..3] == " | "
  {
    var parts := HeaderDetailParts(ident);
    if |parts| == 0 then "" else " | " + Join(" | ", parts)
  }

  function HeaderText(ident: Json, recordLeito: Option<Json>): string {
    HeaderTitle(ident, recordLeito) + HeaderDetails(ident)
  }

  /** A complete normalised identification reads
      "LEITO <leito>: <nome> | <idade> ANOS | <sexo>". */
  lemma HeaderOfComplete(m: map<string, Json>, recordLeito: Option<Json>)
    requires Normalized(m)
    requires m[Leito].s != "" && m[Nome].s != "" && m[Idade].s != "" && m[Sexo].s != ""
    ensures HeaderText(JObj(m), recordLeito) ==
      "LEITO " + m[Leito].s + ": " + m[Nome].s + " | " + m[Idade].s + " ANOS" + " | " + m[Sexo].s
  {
    var ident := JObj(m);
    var title := "LEITO " + m[Leito].s + ": " + m[Nome].s;
    var age, sex := m[Idade].s + " ANOS", m[Sexo].s;
    CompleteTitle(m, recordLeito);
    CompleteDetails(m);
    DetailsAssoc(title, age, sex);
  }

  lemma CompleteTitle(m: map<string, Json>, recordLeito: Option<Json>)
    requires Normalized(m) && m[Leito].s != "" && m[Nome].s != ""
    ensures HeaderTitle(JObj(m), recordLeito) == "LEITO " + m[Leito].s + ": " + m[Nome].s
  {
    assert Get(JObj(m), Leito) == Some(m[Leito]);
    assert Get(JObj(m), Nome) == Some(m[Nome]);
  }

  lemma CompleteDetails(m: map<string, Json>)
    requires Normalized(m) && m[Idade].s != "" && m[Sexo].s != ""
    ensures HeaderDetails(JObj(m)) == " | " + (m[Idade].s + " ANOS" + " | " + m[Sexo].s)
  {
    var age, sex := m[Idade].s + " ANOS", m[Sexo].s;
    CompleteParts(m);
    JoinCons(" | ", [age, sex]);
    assert [age, sex][1..] == [sex];
    JoinSingle(" | ", sex);
  }

  lemma DetailsAssoc(title: string, age: string, sex: string)
    ensures title + (" | " + (age + " | " + sex)) == title + " | " + age + " | " + sex
  {
  }

  lemma CompleteParts(m: map<string, Json>)
    requires Normalized(m)
    requires m[Idade].s != "" && m[Sexo].s != ""
    ensures HeaderDetailParts(JObj(m)) == [m[Idade].s + " ANOS", m[Sexo].s]
  {
    assert Get(JObj(m), Idade) == Some(m[Idade]);
    assert Get(JObj(m), Sexo) == Some(m[Sexo]);
  }

  /** Without a bed in the identification the record's own bed is shown. */
  lemma HeaderFallsBackToRecordLeito(ident: Json, l: string)
    requires !Truthy(Get(ident, Leito)) && l != ""
    ensures HeaderTitle(ident, Some(JStr(l))) ==
      "LEITO " + l + ": " + ToText(OrElse(Get(ident, Nome), JStr(Unidentified)))
  {
  }

  /** With no bed anywhere and no name, the title is the fallback name alone. */
  lemma HeaderOfAnonymous(ident: Json, recordLeito: Option<Json>)
    requires !Truthy(Get(ident, Leito)) && !Truthy(recordLeito) && !Truthy(Get(ident, Nome))
    ensures HeaderTitle(ident, recordLeito) == Unidentified
  {
  }
}
