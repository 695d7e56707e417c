/** JSON documents as `json.loads` returns them. Floating-point numbers are
    not modelled. */
module Json {

  datatype Json =
    | JNull
    | JBool(b: bool)
    | JInt(i: int)
    | JStr(s: string)
    | JArr(items: seq<Json>)
    | JObj(fields: map<string, Json>)

  /** Python's `bool(value)` for a decoded JSON value. */
  predicate Truthy(j: Json) {
    match j
    case JNull => false
    case JBool(b) => b
    case JInt(i) => i != 0
    case JStr(s) => s != ""
    case JArr(items) => items != []
    case JObj(fields) => fields != map[]
  }
}
