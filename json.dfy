/** Python values decoded from the API's JSON: what `response.json()` returns. */
module Json {
  import opened Text

  datatype Json =
    | JNull
    | JInt(i: int)
    | JStr(s: string)
    | JList(items: seq<Json>)
    | JObj(fields: map<string, Json>)

  /** A Python dict decoded from a JSON object. */
  type Obj = map<string, Json>

  /** Python truthiness: None, 0, '', [] and {} are false. */
  predicate Truthy(j: Json)
  {
    match j
    case JNull => false
    case JInt(i) => i != 0
    case JStr(s) => s != []
    case JList(items) => items != []
    case JObj(fields) => fields != map[]
  }

  /** `d.get(k)`. */
  function Get(d: Obj, k: string): Json
  {
    if k in d then d[k] else JNull
  }

  /** `d.get(k, default)`. */
  function GetOr(d: Obj, k: string, default: Json): Json
  {
    if k in d then d[k] else default
  }

  /**
   * `str(v)` for the scalars; a list or a dict in a scalar field is spelt
   * by a fixed placeholder (its repr is not modelled).
   */
  function PyStr(j: Json): string
  {
    match j
    case JNull => "None"
    case JInt(i) => IntToString(i)
    case JStr(s) => s
    case JList(_) => "[...]"
    case JObj(_) => "{...}"
  }
}
