/** Decoded JSON values, as Python's `json` module produces them, and Python's subscript on them. */
module Json {
  import opened Wrappers

  datatype Json =
    | Null
    | Bool(b: bool)
    | Number(n: int)
    | Str(s: string)
    | Arr(items: seq<Json>)
    | Obj(fields: map<string, Json>)

  /** `j[key]` with a string key: defined only on an object that holds the key;
      on any other value Python raises (KeyError or TypeError). */
  function Get(j: Json, key: string): Option<Json>
  {
    if j.Obj? && key in j.fields then Some(j.fields[key]) else None
  }

  /** The chained subscript `j[k0][k1]...`: None as soon as one step raises. */
  function Path(j: Json, keys: seq<string>): Option<Json>
    decreases |keys|
  {
    if |keys| == 0 then Some(j)
    else
      match Get(j, keys[0])
      case None => None
      case Some(child) => Path(child, keys[1..])
  }

  /** The string at the end of a chained subscript, if there is one. */
  function StringAt(j: Json, keys: seq<string>): Option<string>
  {
    match Path(j, keys)
    case Some(Str(s)) => Some(s)
    case _ => None
  }
}
