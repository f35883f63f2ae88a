/**
 * A parsed JSON document, as `serde_json::Value` holds it. Numbers keep
 * their text; an object keeps its members in iteration order. Turning a
 * value back into JSON text (`Value::to_string`) is a parameter of the
 * operations that need it.
 */
module JsonValues {
  datatype Value =
    | Null
    | Bool(b: bool)
    | Number(text: string)
    | Str(s: string)
    | Array(items: seq<Value>)
    | Object(entries: seq<(string, Value)>)

  /** JSON text of a value. */
  type Renderer = Value -> string
}
