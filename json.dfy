/** JSON values, as exchanged between the Rust server and the Svelte front end. */
module Json {

  datatype Json =
    | JNull
    | JBool(b: bool)
    | JNum(n: real)
    | JStr(s: string)
    | JArr(items: seq<Json>)
    | JObj(fields: map<string, Json>)

  /** True when `j` is an object whose field `key` holds a string. */
  predicate HasString(j: Json, key: string) {
    j.JObj? && key in j.fields && j.fields[key].JStr?
  }
}
