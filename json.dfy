/** JSON-like values as the schema helpers see them, with the JavaScript
    notions they rely on: truthiness, property access that yields `undefined`,
    object spread / `Object.assign`, and conversion to text in a template
    literal. */
module JsonValue {
  import opened Util

  datatype Json =
    | JNull
    | JBool(b: bool)
    | JNum(n: int)
    | JStr(s: string)
    | JArr(elems: seq<Json>)
    | JObj(fields: map<string, Json>)

  /** `false`, `0`, `""` and `null` are falsy; every array and object is truthy. */
  predicate Truthy(j: Json) {
    match j
    case JNull => false
    case JBool(b) => b
    case JNum(n) => n != 0
    case JStr(s) => s != ""
    case JArr(_) => true
    case JObj(_) => true
  }

  /** `j[key]`; None is `undefined`. Only objects carry named properties here. */
  function Get(j: Json, key: string): Option<Json> {
    if j.JObj? && key in j.fields then Some(j.fields[key]) else None
  }

  /** `if (j[key])`: the property is present and truthy. */
  predicate TruthyAt(j: Json, key: string) {
    Get(j, key).Some? && Truthy(Get(j, key).value)
  }

  /** `j?.[key]` on a possibly undefined value. */
  function GetOpt(j: Option<Json>, key: string): Option<Json> {
    if j.Some? then Get(j.value, key) else None
  }

  /** The own enumerable properties an object spread copies. */
  function Fields(j: Json): map<string, Json> {
    if j.JObj? then j.fields else map[]
  }

  /** `{ ...a, ...b }` and `Object.assign(a, b)` as values: b's fields win. */
  function Overlay(a: Json, b: Json): (r: Json)
    ensures r.JObj? && r.fields.Keys == Fields(a).Keys + Fields(b).Keys
    ensures forall k :: k in Fields(b) ==> r.fields[k] == Fields(b)[k]
    ensures forall k :: k in Fields(a) && k !in Fields(b) ==> r.fields[k] == Fields(a)[k]
  {
    JObj(Fields(a) + Fields(b))
  }

  /** `arr` spread into an array literal; non-arrays contribute nothing here. */
  function Elements(j: Json): seq<Json> {
    if j.JArr? then j.elems else []
  }

  /** Decimal text of an integer, as `String(n)` prints it. */
  function NatText(n: nat): string
    decreases n
  {
    var d := ['0', '1', '2', '3', '4', '5', '6', '7', '8', '9'][n % 10];
    if n < 10 then [d] else NatText(n / 10) + [d]
  }

  function IntText(n: int): string {
    if n < 0 then "-" + NatText(-n) else NatText(n)
  }

  /** A value inside a template literal (`String(j)`): arrays join their
      elements with ',' and print null elements as the empty string. */
  function Text(j: Json): string {
    match j
    case JNull => "null"
    case JBool(b) => if b then "true" else "false"
    case JNum(n) => IntText(n)
    case JStr(s) => s
    case JObj(_) => "[object Object]"
    case JArr(elems) => Join(seq(|elems|, i requires 0 <= i < |elems| => if elems[i].JNull? then "" else Text(elems[i])), ",")
  }
}
