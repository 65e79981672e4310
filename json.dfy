/** Parsed JSON (or YAML) values, as the scripts receive them from
    `json.loads` or `yaml.safe_load`. An object keeps its keys as a map:
    none of the modelled code depends on key order. */
module Json {

  datatype Json =
    | Null
    | Bool(b: bool)
    | Num(x: real)
    | Str(s: string)
    | Arr(items: seq<Json>)
    | Obj(fields: map<string, Json>)

  /** Python truthiness: None, False, 0, "", [] and {} are false. */
  predicate Truthy(v: Json) {
    match v
    case Null => false
    case Bool(b) => b
    case Num(x) => x != 0.0
    case Str(s) => s != []
    case Arr(items) => items != []
    case Obj(fields) => fields != map[]
  }

  /** `v or d`. */
  function Or(v: Json, d: Json): Json {
    if Truthy(v) then v else d
  }

  /** `d.get(key)` on an object: `None` for a missing key. */
  function Get(fields: map<string, Json>, key: string): Json {
    if key in fields then fields[key] else Null
  }

  /** Values that can be put in a Python `set`: lists and dicts cannot. */
  predicate Hashable(v: Json) {
    !v.Arr? && !v.Obj?
  }
}
