/** The JSON payloads the screens pass around (the note-generation service's
    response, the identification object), with the JavaScript semantics the
    code relies on: truthiness, `a || b`, property access, object spread and
    conversion to a string. A missing property (`undefined`) is `None`. */
module Json {
  import opened Wrappers
  import opened Strings

  datatype Json =
    | JNull
    | JBool(b: bool)
    | JNum(n: int)
    | JStr(s: string)
    | JArr(items: seq<Json>)
    | JObj(fields: map<string, Json>)

  /** JavaScript truthiness; `undefined`, `null`, `false`, `0` and `""` are falsy. */
  predicate Truthy(v: Option<Json>) {
    match v
    case None => false
    case Some(JNull) => false
    case Some(JBool(b)) => b
    case Some(JNum(n)) => n != 0
    case Some(JStr(s)) => |s| > 0
    case Some(_) => true
  }

  /** `a || b`. */
  function OrElse(a: Option<Json>, b: Json): (r: Json)
    ensures Truthy(a) ==> Some(r) == a
    ensures !Truthy(a) ==> r == b
  {
    if Truthy(a) then a.value else b
  }

  /** Property access `v.key` on a defined value; only objects have the
      properties read here. */
  function Get(v: Json, key: string): (r: Option<Json>)
    ensures r.Some? <==> v.JObj? && key in v.fields
    ensures r.Some? ==> r.value == v.fields[key]
  {
    if v.JObj? && key in v.fields then Some(v.fields[key]) else None
  }

  /** Decimal digits of a natural number, as `Number.prototype.toString` writes them. */
  function NatToDecimal(n: nat): (r: string)
    ensures |r| >= 1
    ensures forall i :: 0 <= i < |r| ==> '0' <= r[i] <= '9'
    ensures n >= 10 ==> |r| >= 2
    decreases n
  {
    if n < 10 then [('0' as int + n) as char]
    else NatToDecimal(n / 10) + [('0' as int + n % 10) as char]
  }

  /** Distinct numbers have distinct decimal spellings, so index keys never clash. */
  lemma {:induction false} NatToDecimalInjective(a: nat, b: nat)
    requires NatToDecimal(a) == NatToDecimal(b)
    ensures a == b
    decreases a
  {
    var da, db := NatToDecimal(a), NatToDecimal(b);
    if a >= 10 && b >= 10 {
      assert da[..|da| - 1] == NatToDecimal(a / 10);
      assert db[..|db| - 1] == NatToDecimal(b / 10);
      NatToDecimalInjective(a / 10, b / 10);
      assert a % 10 == b % 10 by {
        assert da[|da| - 1] == db[|db| - 1];
      }
    } else if a < 10 && b < 10 {
      assert da[0] == db[0];
    }
  }

  lemma NatToDecimalDistinct(a: nat, b: nat)
    requires a != b
    ensures NatToDecimal(a) != NatToDecimal(b)
  {
    if NatToDecimal(a) == NatToDecimal(b) {
      NatToDecimalInjective(a, b);
    }
  }

  function IntToDecimal(n: int): string {
    if n < 0 then "-" + NatToDecimal(-n) else NatToDecimal(n)
  }

  /** The properties an array or string exposes to object spread: one per
      index, keyed by the index in decimal. */
  function IndexEntries(elems: seq<Json>): (r: map<string, Json>)
    ensures forall i :: 0 <= i < |elems| ==> NatToDecimal(i) in r && r[NatToDecimal(i)] == elems[i]
    decreases |elems|
  {
    if |elems| == 0 then map[]
    else
      var n := |elems| - 1;
      var m := IndexEntries(elems[..n]);
      var r := m[NatToDecimal(n) := elems[n]];
      assert forall i :: 0 <= i < n ==> NatToDecimal(i) != NatToDecimal(n) by {
        forall i | 0 <= i < n ensures NatToDecimal(i) != NatToDecimal(n) {
          NatToDecimalDistinct(i, n);
        }
      }
      assert forall i :: 0 <= i < n ==> elems[..n][i] == elems[i];
      r
  }

  /** The own enumerable properties `{...v}` copies: an object's fields, the
      indices of an array or string, and nothing for `undefined`, `null`,
      booleans and numbers. */
  function ObjectSpread(v: Option<Json>): (r: map<string, Json>)
    ensures v.Some? && v.value.JObj? ==> r == v.value.fields
    ensures !Truthy(v) ==> r == map[]
  {
    match v
    case Some(JObj(m)) => m
    case Some(JArr(a)) => IndexEntries(a)
    case Some(JStr(s)) => IndexEntries(seq(|s|, i requires 0 <= i < |s| => JStr([s[i]])))
    case _ => map[]
  }

  /** String conversion (`String(v)`, template literals, `toString`):
      arrays join their elements with "," writing `null` as empty, and every
      plain object reads "[object Object]". */
  function ToText(v: Json): string
    decreases v
  {
    match v
    case JNull => "null"
    case JBool(b) => if b then "true" else "false"
    case JNum(n) => IntToDecimal(n)
    case JStr(s) => s
    case JArr(a) => Join(",", seq(|a|, i requires 0 <= i < |a| => if a[i].JNull? then "" else ToText(a[i])))
    case JObj(_) => "[object Object]"
  }

  /** `m2` agrees with `m1` on every key but `key`. */
  predicate AgreeExcept(m1: map<string, Json>, m2: map<string, Json>, key: string) {
    (forall k :: k in m1 && k != key ==> k in m2 && m2[k] == m1[k])
    && (forall k :: k in m2 && k != key ==> k in m1)
  }
}
