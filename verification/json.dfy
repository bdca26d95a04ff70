/**
 * The parsed JSON value the extractor inspects (serde_json's `Value`), and the
 * two accessors the extractor uses on it. Parsing JSON text is not modelled
 * here: callers receive it as a function from text to `Result<Value, string>`.
 */
module Json {

  /** An object maps each key to one value, as serde_json's `Map` does. */
  datatype Value =
    | Null
    | Bool(b: bool)
    | Num(n: real)
    | Str(s: string)
    | Arr(items: seq<Value>)
    | Obj(fields: map<string, Value>)

  /** `value[key]`: the member under `key`, or `Null` when the key is missing or `v` is not an object. */
  function Index(v: Value, key: string): (r: Value)
    ensures v.Obj? && key in v.fields ==> r == v.fields[key]
    ensures !(v.Obj? && key in v.fields) ==> r == Null
  {
    match v
    case Obj(fields) => if key in fields then fields[key] else Null
    case _ => Null
  }
}
