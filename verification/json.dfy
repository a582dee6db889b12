/** JSON values as `JSON.parse` returns them, together with the two pieces of
    JavaScript semantics the session store relies on: truthiness (`if (x)`,
    `x || fallback`, `a && b`) and property access (`doc.key`). */
module Json {

  datatype Json =
    | JNull
    | JBool(b: bool)
    | JNumber(n: real)
    | JString(s: string)
    | JArray(items: seq<Json>)
    | JObject(fields: map<string, Json>)

  /** The outcome of evaluating `v.key` in JavaScript: reading a property of
      `null` throws a TypeError, a property that is not there is `undefined`. */
  datatype Access = TypeError | Undefined | Defined(value: Json)

  /** JavaScript truthiness of a parsed value. JSON has no NaN, so the only
      falsy number is zero. */
  predicate Truthy(v: Json) {
    match v
    case JNull => false
    case JBool(b) => b
    case JNumber(n) => n != 0.0
    case JString(s) => |s| > 0
    case JArray(_) => true
    case JObject(_) => true
  }

  /** `v.key`. Only objects carry named own properties here; arrays and strings
      also answer `length` and index keys, which the store never reads. */
  function Get(v: Json, key: string): (a: Access)
    ensures a.TypeError? <==> v.JNull?
    ensures a.Defined? <==> v.JObject? && key in v.fields
    ensures a.Defined? ==> a.value == v.fields[key]
  {
    match v
    case JNull => TypeError
    case JObject(fields) => if key in fields then Defined(fields[key]) else Undefined
    case _ => Undefined
  }

  /** Whether `v.key` evaluates to a truthy value, i.e. whether `v.key || fallback`
      keeps the property rather than the fallback. */
  predicate TruthyAccess(a: Access) {
    a.Defined? && Truthy(a.value)
  }
}
