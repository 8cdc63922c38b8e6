/**
 * JSON documents as the Python code sees them after `json.load`: nested
 * lists and dictionaries. Numbers are kept as their lexeme, because the
 * code only copies them (times are never computed with).
 */
module JsonValue {
  import opened Wrappers

  datatype Json =
    | JNull
    | JBool(b: bool)
    | JNumber(lexeme: string)
    | JString(s: string)
    | JArray(items: seq<Json>)
    | JObject(fields: map<string, Json>)

  /** The Python exceptions a subscript `d[key]` on a loaded document can raise. */
  datatype PyError = KeyError(key: string) | TypeError

  /**
   * Python's `value[key]` for a string key: a dictionary yields its entry or
   * raises `KeyError`; any other value (list, string, number, None) raises
   * `TypeError`.
   */
  function Subscript(value: Json, key: string): (r: Result<Json, PyError>)
    ensures r.Ok? <==> value.JObject? && key in value.fields
    ensures r.Ok? ==> r.value == value.fields[key]
    ensures r.Err? ==> r.error == if value.JObject? then KeyError(key) else TypeError
  {
    match value
    case JObject(fields) => if key in fields then Ok(fields[key]) else Err(KeyError(key))
    case _ => Err(TypeError)
  }
}
