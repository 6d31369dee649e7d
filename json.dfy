/** Parsed JSON documents, as `JSON.parse` hands them to the journal, and the
    JavaScript notions (`typeof`, truthiness) that the import code tests. */
module Json {

  /** A JSON value. Objects are unordered maps from member names to values. */
  datatype Json =
    | JNull
    | JBool(b: bool)
    | JNum(n: real)
    | JStr(s: string)
    | JArr(items: seq<Json>)
    | JObj(fields: map<string, Json>)

  /** `typeof v === 'object'`: true of null, arrays and objects. */
  predicate TypeofObject(v: Json) {
    v.JNull? || v.JArr? || v.JObj?
  }

  /** JavaScript truthiness of a parsed value: null, false, 0 and "" are falsy. */
  predicate Truthy(v: Json) {
    match v
    case JNull => false
    case JBool(b) => b
    case JNum(n) => n != 0.0
    case JStr(s) => s != ""
    case JArr(_) => true
    case JObj(_) => true
  }

  /** `Array.isArray(v)` */
  predicate IsArray(v: Json) {
    v.JArr?
  }
}
