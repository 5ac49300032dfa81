/** JSON values as Python holds them after decoding; a mapping is unordered, as dict equality is. */
module Json {

  /** The largest integer that JSON readers agree on. */
  const MAX_SAFE_INTEGER := 9007199254740991

  /** The keys that lead to a part of a value. */
  type Path = seq<string>

  datatype Json =
    | Null
    | Bool(b: bool)
    | Int(n: int)
    | Float(r: real)
    | Str(s: string)
    | Arr(items: seq<Json>)
    | Obj(fields: map<string, Json>)
  {
    predicate Has(key: string) { Obj? && key in fields }

    /** `dict.get`: null for a missing key. */
    function Get(key: string): Json {
      if Has(key) then fields[key] else Null
    }
  }
}
