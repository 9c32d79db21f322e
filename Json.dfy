/**
 * The JSON-like values the offline document store holds, and the few JavaScript operations the
 * bot and the web controllers apply to them: truthiness, `typeof v === "object"`, property
 * reads, `a || b` and `String(v)`.
 */
module Json {
  import opened Wrappers
  import opened JsText

  /** A stored value. Numbers are integers: fractions, `NaN` and infinities are not modelled. */
  datatype Json =
    | JNull
    | JBool(b: bool)
    | JNum(n: int)
    | JStr(s: string)
    | JArr(items: seq<Json>)
    | JObj(fields: map<string, Json>)

  /** `!!v`. */
  predicate Truthy(v: Json) {
    match v
    case JNull => false
    case JBool(b) => b
    case JNum(n) => n != 0
    case JStr(s) => s != []
    case JArr(_) => true
    case JObj(_) => true
  }

  /** `!!v` for a property read that may give `undefined`. */
  predicate Present(v: Option<Json>) {
    v.Some? && Truthy(v.value)
  }

  /** `typeof v === "object"`, which holds for `null` and arrays too. */
  predicate IsObjectType(v: Json) {
    v.JNull? || v.JArr? || v.JObj?
  }

  /** `v[key]` on a value that is not `null`: `None` is `undefined`; primitives and arrays have none of the named fields read here. */
  function Get(v: Json, key: string): (r: Option<Json>)
    ensures r.Some? <==> v.JObj? && key in v.fields
  {
    match v
    case JObj(fields) => if key in fields then Some(fields[key]) else None
    case _ => None
  }

  /** `a || b`: the first operand when it is truthy, the second otherwise. */
  function Or(a: Option<Json>, b: Option<Json>): (r: Option<Json>)
    ensures Present(a) ==> r == a
    ensures !Present(a) ==> r == b
  {
    if Present(a) then a else b
  }

  /** `String(v)`; `None` is `undefined`. */
  function Text(v: Option<Json>): string {
    match v
    case None => "undefined"
    case Some(j) => ValueText(j)
  }

  /** `String(v)` of a value: an array joins its elements' texts with `,`, writing `null` as nothing. */
  function ValueText(v: Json): string {
    match v
    case JNull => "null"
    case JBool(b) => if b then "true" else "false"
    case JNum(n) => IntToDecimal(n)
    case JStr(s) => s
    case JArr(items) =>
      Join(seq(|items|, i requires 0 <= i < |items| => if items[i].JNull? then "" else ValueText(items[i])), ",")
    case JObj(_) => "[object Object]"
  }
}
