/** Parsed JSON and the untyped accessors the settings and protocol code use. */
module Json {
  import opened Prelude

  datatype Json =
    | Null
    | Bool(truth: bool)
    | Int(number: int)
    | Float(decimal: real)
    | Str(text: string)
    | Arr(items: seq<Json>)
    | Obj(fields: map<string, Json>)
  {
    /** Indexing by key: an absent key, or a value that is no object, reads as null. */
    function At(key: string): Json {
      if Obj? && key in fields then fields[key] else Null
    }

    function AsStr(): Option<string> {
      if Str? then Some(text) else None
    }
  }
}
