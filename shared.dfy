/** shared.py: looking up a dotted path in nested rule dictionaries, and the
    set of artifact names that are not per-spot files. */
module Shared {
  import opened Wrappers
  import opened Text
  import opened Json

  /** DEFAULT_NON_SPOT_JSON (shared.py:4-12). */
  const DefaultNonSpotJson: set<string> := {
    "index.json", "index.spots.json", "catalog.json", "status.json",
    "rules.normalized.json", "windows.json", "windows.collector.json"
  }

  // ---- _dget (shared.py:14-20) ----

  /** Follows `parts` from `cur`; `default` as soon as the current value is
      not an object or lacks the next key. */
  function Lookup(cur: Json, parts: seq<string>, default: Json): Json
    decreases |parts|
  {
    if parts == [] then cur
    else if !cur.Obj? || parts[0] !in cur.fields then default
    else Lookup(cur.fields[parts[0]], parts[1..], default)
  }

  /** What `_dget(dct, path, default)` returns: `dct or {}` walked along the
      parts of `path` split on '.'. */
  function DGetSpec(dct: Json, path: string, default: Json): Json {
    Lookup(Or(dct, Obj(map[])), Split(path, '.'), default)
  }

  /** `_dget`: the loop that reassigns `cur` one path segment at a time. */
  method DGet(dct: Json, path: string, default: Json) returns (r: Json)
    ensures r == DGetSpec(dct, path, default)
  {
    var cur := Or(dct, Obj(map[]));
    var parts := Split(path, '.');
    for i := 0 to |parts|
      invariant Lookup(cur, parts[i..], default) == DGetSpec(dct, path, default)
    {
      assert parts[i..][1..] == parts[i + 1..];
      if !cur.Obj? || parts[i] !in cur.fields {
        return default;
      }
      cur := cur.fields[parts[i]];
    }
    assert parts[|parts|..] == [];
    return cur;
  }

  /** The value reached along `parts`, if every step finds an object holding
      the next key. */
  function Walk(cur: Json, parts: seq<string>): Option<Json>
    decreases |parts|
  {
    if parts == [] then Some(cur)
    else if cur.Obj? && parts[0] in cur.fields then Walk(cur.fields[parts[0]], parts[1..])
    else None
  }

  /** `_dget` gives the value at the full path when every segment exists,
      and the default otherwise. */
  lemma {:induction false} LookupWalk(cur: Json, parts: seq<string>, default: Json)
    ensures Walk(cur, parts).Some? ==> Lookup(cur, parts, default) == Walk(cur, parts).value
    ensures Walk(cur, parts).None? ==> Lookup(cur, parts, default) == default
    decreases |parts|
  {
    if parts != [] && cur.Obj? && parts[0] in cur.fields {
      LookupWalk(cur.fields[parts[0]], parts[1..], default);
    }
  }

  /** Once the walk reaches a value that is not an object, or an object
      without the next segment, the lookup gives the default, whatever
      follows. */
  lemma {:induction false} LookupStops(cur: Json, parts: seq<string>, i: nat, default: Json)
    requires i < |parts| && Walk(cur, parts[..i]).Some?
    requires var x := Walk(cur, parts[..i]).value; !x.Obj? || parts[i] !in x.fields
    ensures Lookup(cur, parts, default) == default
    decreases i
  {
    if i > 0 {
      assert parts[..i][0] == parts[0] && parts[..i][1..] == parts[1..][..i - 1];
      LookupStops(cur.fields[parts[0]], parts[1..], i - 1, default);
    }
  }

  /** `{parts[0]: {parts[1]: ... v}}`. */
  function Nest(parts: seq<string>, v: Json): Json
    decreases |parts|
  {
    if parts == [] then v else Obj(map[parts[0] := Nest(parts[1..], v)])
  }

  lemma {:induction false} LookupNest(parts: seq<string>, v: Json, default: Json)
    ensures Lookup(Nest(parts, v), parts, default) == v
    decreases |parts|
  {
    if parts != [] {
      LookupNest(parts[1..], v, default);
    }
  }

  /** Storing a value under a dotted path and reading that path back gives
      the value. */
  lemma DGetNest(parts: seq<string>, v: Json, default: Json)
    requires parts != [] && forall p :: p in parts ==> '.' !in p
    ensures DGetSpec(Nest(parts, v), Join(parts, '.'), default) == v
  {
    SplitJoin(parts, '.');
    LookupNest(parts, v, default);
  }

  /** With no rules at all (`None`, `{}` or another false value) every
      lookup gives the default. */
  lemma DGetFalsy(dct: Json, path: string, default: Json)
    requires !Truthy(dct)
    ensures DGetSpec(dct, path, default) == default
  {
  }

  // ---- get_non_spot_json (shared.py:22-28) ----

  const NonSpotPath := "artifacts.non_spot_json"

  /** `str(x).strip()` for the elements whose text could end in ".json":
      `str` of a number, a boolean, `None`, a list or a dict never does. */
  function CleanedItems(items: seq<Json>): (r: set<string>)
    ensures forall n :: n in r <==> exists x :: x in items && x.Str? && EndsWith(Strip(x.s), ".json") && n == Strip(x.s)
  {
    set x | x in items && x.Str? && EndsWith(Strip(x.s), ".json") :: Strip(x.s)
  }

  function CleanedKeys(keys: set<string>): (r: set<string>)
    ensures forall n :: n in r <==> exists k :: k in keys && EndsWith(Strip(k), ".json") && n == Strip(k)
  {
    set k | k in keys && EndsWith(Strip(k), ".json") :: Strip(k)
  }

  /** The cleaned entries of what `for x in extra` visits: list elements,
      dict keys, or the characters of a string (a single character never
      ends in ".json"); iterating a number or `True` raises `TypeError`. */
  function Cleaned(extra: Json): (r: Result<set<string>>)
    ensures r.Err? <==> extra.Num? || extra.Bool?
    ensures r.Ok? ==> forall n :: n in r.value ==> EndsWith(n, ".json")
  {
    match extra
    case Arr(items) => Ok(CleanedItems(items))
    case Obj(fields) => Ok(CleanedKeys(fields.Keys))
    case Str(_) => Ok({})
    case Null => Ok({})
    case Num(_) => Err("object is not iterable")
    case Bool(_) => Err("object is not iterable")
  }

  /** `get_non_spot_json`: the defaults together with every extra entry of
      `artifacts.non_spot_json` that ends in ".json" once stripped. */
  function GetNonSpotJson(rules: Json): (r: Result<set<string>>)
    ensures r.Ok? ==> DefaultNonSpotJson <= r.value
    ensures r.Ok? ==> forall n :: n in r.value ==> n in DefaultNonSpotJson || EndsWith(n, ".json")
    ensures var extra := Or(DGetSpec(rules, NonSpotPath, Arr([])), Arr([]));
      r.Err? <==> extra.Num? || extra.Bool?
  {
    var extra := Or(DGetSpec(rules, NonSpotPath, Arr([])), Arr([]));
    match Cleaned(extra)
    case Ok(c) => Ok(DefaultNonSpotJson + c)
    case Err(e) => Err(e)
  }

  predicate NoDot(p: string) {
    forall i :: 0 <= i < |p| ==> p[i] != '.'
  }

  /** The two segments of `artifacts.non_spot_json`. */
  lemma NonSpotPathParts()
    ensures Split(NonSpotPath, '.') == ["artifacts", "non_spot_json"]
  {
    hide Split;
    var a, b := "artifacts", "non_spot_json";
    assert '.' !in a && '.' !in b by {
      assert NoDot(a) && NoDot(b);
    }
    SplitJoin([a, b], '.');
    JoinNonSpot();
  }

  lemma JoinNonSpot()
    ensures Join(["artifacts", "non_spot_json"], '.') == NonSpotPath
  {
    hide Split;
    var a, b := "artifacts", "non_spot_json";
    assert Join([a, b], '.') == a + "." + Join([b], '.');
    assert a + "." + b == NonSpotPath;
  }

  /** Without rules, or without an `artifacts.non_spot_json` entry, the set
      is exactly the defaults. */
  lemma NoExtraGivesDefaults(rules: Json)
    requires !Truthy(rules) || (rules.Obj? && "artifacts" !in rules.fields)
    ensures GetNonSpotJson(rules) == Ok(DefaultNonSpotJson)
  {
    NonSpotPathParts();
    hide Split;
    assert DGetSpec(rules, NonSpotPath, Arr([])) == Arr([]);
    assert CleanedItems([]) == {};
    assert DefaultNonSpotJson + {} == DefaultNonSpotJson;
  }

  /** A listed name that ends in ".json" once stripped is included, stripped,
      whatever else the rules hold. */
  lemma ListedNameIncluded(rules: Json, items: seq<Json>, s: string)
    requires DGetSpec(rules, NonSpotPath, Arr([])) == Arr(items)
    requires Str(s) in items && EndsWith(Strip(s), ".json")
    ensures GetNonSpotJson(rules).Ok? && Strip(s) in GetNonSpotJson(rules).value
  {
    assert Truthy(Arr(items));
    assert Strip(s) in CleanedItems(items);
  }
}
