/** The values Python's `json.loads` produces, with Python's truthiness and
    `dict.get`. Parsing and serialising text are not modelled here: the
    pipeline receives them as parameters. */
module Json {
  import opened Wrappers

  /** A decoded JSON value. Objects are dictionaries: a repeated key keeps its
      last value, so a map is the right model. */
  datatype Json =
    | JNull
    | JBool(b: bool)
    | JNum(n: real)
    | JStr(s: string)
    | JArr(items: seq<Json>)
    | JObj(fields: map<string, Json>)

  /** Python's `bool(v)`: `None`, `False`, zero and empty strings, lists and
      dictionaries are falsy. */
  predicate Truthy(v: Json) {
    match v
    case JNull => false
    case JBool(b) => b
    case JNum(n) => n != 0.0
    case JStr(s) => s != ""
    case JArr(items) => items != []
    case JObj(fields) => fields != map[]
  }

  /** Truthiness of `d.get(key)`: a missing key reads as `None`, which is
      falsy. */
  predicate TruthyOpt(v: Option<Json>) {
    v.Some? && Truthy(v.value)
  }

  /** Python's `d.get(key)` on a dictionary. */
  function Get(fields: map<string, Json>, key: string): Option<Json> {
    if key in fields then Some(fields[key]) else None
  }
}
