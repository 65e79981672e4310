/** The environment checks of env_validation.py: reading a variable with a
    default, bounded integers, and the forecast-model list with its aliases
    and its priority among three variables. The process environment is a
    map; `_fail` (which exits with status 3) is an `Err` result. */
module EnvValidation {
  import opened Wrappers
  import opened Text
  import opened Seqs

  type Env = map<string, string>

  const DefaultModels: seq<string> := ["ecmwf_ifs04", "icon_seamless", "gfs_seamless"]
  const FastModels: seq<string> := ["gfs_seamless", "icon_seamless"]

  /** MODEL_ALIASES (env_validation.py:7-11). */
  const ModelAliases: map<string, seq<string>> :=
    map["default" := DefaultModels, "fast" := FastModels, "robust" := DefaultModels]

  /** VALID_MODELS (env_validation.py:12). */
  const ValidModels: set<string> := {"ecmwf_ifs04", "icon_seamless", "gfs_seamless"}

  const ModelOrderVar := "FABLE_MODEL_ORDER"
  const ModelsVar := "FABLE_MODELS"
  const ParallelModelsVar := "FABLE_PARALLEL_MODELS"

  // ---- _get, _parse_int, _maybe_int (env_validation.py:14-42) ----

  /** `_get`: the variable's value, or `default` when it is unset or blank. */
  function GetVar(env: Env, name: string, default: Option<string>): (r: Option<string>)
    ensures name in env && Strip(env[name]) != "" ==> r == Some(env[name])
    ensures !(name in env && Strip(env[name]) != "") ==> r == default
  {
    var v := if name in env then Some(env[name]) else default;
    if v.None? || Strip(v.value) != "" then v else default
  }

  /** `_parse_int`: the default when the variable is unset or blank, an
      error when `int()` rejects it or it lies outside the given bounds,
      otherwise its value. */
  function ParseIntVar(env: Env, name: string, default: Option<int>, minv: Option<int>, maxv: Option<int>)
    : (r: Result<Option<int>>)
    ensures GetVar(env, name, None).None? ==> r == Ok(default)
    ensures GetVar(env, name, None).Some? ==>
      match ParseInt(env[name])
      case None => r.Err?
      case Some(n) =>
        (r.Ok? <==> (minv.None? || n >= minv.value) && (maxv.None? || n <= maxv.value))
        && (r.Ok? ==> r.value == Some(n))
  {
    match GetVar(env, name, None)
    case None => Ok(default)
    case Some(v) =>
      match ParseInt(v)
      case None => Err(name + " must be an integer")
      case Some(n) =>
        if minv.Some? && n < minv.value then Err(name + " is below its minimum")
        else if maxv.Some? && n > maxv.value then Err(name + " is above its maximum")
        else Ok(Some(n))
  }

  /** A value that is written as an integer within the bounds reads back as
      that integer. */
  lemma ParseIntVarShow(env: Env, name: string, n: int, minv: Option<int>, maxv: Option<int>)
    requires name in env && env[name] == ShowInt(n)
    requires (minv.None? || n >= minv.value) && (maxv.None? || n <= maxv.value)
    ensures ParseIntVar(env, name, None, minv, maxv) == Ok(Some(n))
  {
    ParseShowInt(n);
    StripShowInt(n);
    assert ShowInt(n) != [];
  }

  /** `re.fullmatch(r"\d+", v.strip())`, on ASCII digits. */
  predicate IsNumeric(v: string) {
    Strip(v) != "" && AllDigits(Strip(v))
  }

  /** `_maybe_int`: `None` unless the variable is set to digits only;
      digits out of bounds are an error. */
  function MaybeIntVar(env: Env, name: string, minv: Option<int>, maxv: Option<int>): (r: Result<Option<int>>)
    ensures GetVar(env, name, None).None? || !IsNumeric(env[name]) ==> r == Ok(None)
    ensures r.Ok? && r.value.Some? ==>
      IsNumeric(env[name]) && (minv.None? || r.value.value >= minv.value)
      && (maxv.None? || r.value.value <= maxv.value)
    ensures GetVar(env, name, None).Some? && IsNumeric(env[name]) ==>
      r == ParseIntVar(env, name, None, minv, maxv)
  {
    match GetVar(env, name, None)
    case None => Ok(None)
    case Some(v) =>
      if IsNumeric(v) then
        ParseNumeric(v);
        ParseIntVar(env, name, None, minv, maxv)
      else Ok(None)
  }

  /** A string of digits parses as their value. */
  lemma ParseNumeric(v: string)
    requires IsNumeric(v)
    ensures ParseInt(v).Some?
  {
    var t := Strip(v);
    assert DropUnderscores(t) == t;
    assert !IsDigit('-') && !IsDigit('+');
    assert IsDigit(t[0]);
  }

  // ---- _expand_models (env_validation.py:52-66) ----

  /** `[p.strip() for p in parts if p.strip()]`. */
  function NonBlank(parts: seq<string>): (r: seq<string>)
    ensures |r| <= |parts|
    ensures forall q :: q in r ==> q != ""
    ensures forall q :: q in r <==> exists p :: p in parts && Strip(p) == q && q != ""
  {
    if parts == [] then []
    else
      var prev := NonBlank(parts[..|parts| - 1]);
      var p := parts[|parts| - 1];
      if Strip(p) != "" then prev + [Strip(p)] else prev
  }

  /** Parts that are already stripped and non-blank are kept, in order. */
  lemma {:induction false} NonBlankKeepsClean(parts: seq<string>)
    requires forall i :: 0 <= i < |parts| ==> Strip(parts[i]) == parts[i] && parts[i] != ""
    ensures NonBlank(parts) == parts
  {
    hide Strip;
    if parts != [] {
      var init := parts[..|parts| - 1];
      var last := parts[|parts| - 1];
      NonBlankKeepsClean(init);
      assert init + [last] == parts;
    }
  }

  /** `MODEL_ALIASES.get(p, [p])`. */
  function AliasOr(p: string): seq<string> {
    if p in ModelAliases then ModelAliases[p] else [p]
  }

  /** The names with each alias replaced by its list. */
  function ExpandAll(parts: seq<string>): seq<string> {
    if parts == [] then []
    else ExpandAll(parts[..|parts| - 1]) + AliasOr(parts[|parts| - 1])
  }

  function Id(s: string): string {
    s
  }

  /** `[m for m in out if m not in VALID_MODELS]`. */
  function Unknown(out: seq<string>): (r: seq<string>)
    ensures r == [] <==> forall m :: m in out ==> m in ValidModels
  {
    if out == [] then []
    else
      var prev := Unknown(out[..|out| - 1]);
      assert forall m :: m in out <==> m in out[..|out| - 1] || m == out[|out| - 1];
      if out[|out| - 1] !in ValidModels then prev + [out[|out| - 1]] else prev
  }

  /** What _expand_models returns for a comma-separated list. */
  function ExpandSpec(raw: string): Result<seq<string>> {
    var out := DedupeBy(ExpandAll(NonBlank(Split(raw, ','))), Id);
    if Unknown(out) != [] then Err("Unknown model(s)") else Ok(out)
  }

  lemma ExpandAllStep(parts: seq<string>, i: nat)
    requires i < |parts|
    ensures ExpandAll(parts[..i + 1]) == ExpandAll(parts[..i]) + AliasOr(parts[i])
  {
    assert parts[..i + 1][..i] == parts[..i];
  }

  /** `_expand_models`: split, strip, drop blanks, expand aliases, keep the
      first occurrence of each name, and fail on a name outside VALID_MODELS. */
  method ExpandModels(raw: string) returns (r: Result<seq<string>>)
    ensures r == ExpandSpec(raw)
  {
    var parts := NonBlank(Split(raw, ','));
    hide Split, Strip, NonBlank, ExpandAll, DedupeBy, AliasOr, Unknown;
    var expanded := ExpandAliases(parts);
    var out := DedupeLoop(expanded, Id);
    var unknown := Unknown(out);
    if unknown != [] {
      return Err("Unknown model(s)");
    }
    return Ok(out);
  }

  /** The first loop of `_expand_models`: `expanded.extend(MODEL_ALIASES.get(p, [p]))`. */
  method ExpandAliases(parts: seq<string>) returns (expanded: seq<string>)
    ensures expanded == ExpandAll(parts)
  {
    assert ExpandAll(parts[..0]) == [];
    hide ExpandAll, AliasOr;
    expanded := [];
    for i := 0 to |parts|
      invariant expanded == ExpandAll(parts[..i])
    {
      ExpandAllStep(parts, i);
      expanded := expanded + AliasOr(parts[i]);
    }
    assert parts[..|parts|] == parts;
  }

  /** The list of _expand_models: it succeeds exactly when every expanded
      name is valid; then it has every expanded name, only valid names, no
      name twice, and names in the order of their first occurrence. */
  lemma ExpandSpecProperties(raw: string)
    ensures var expanded := ExpandAll(NonBlank(Split(raw, ',')));
      && (ExpandSpec(raw).Ok? <==> forall m :: m in expanded ==> m in ValidModels)
      && (ExpandSpec(raw).Ok? ==>
        var out := ExpandSpec(raw).value;
        && (forall m :: m in out <==> m in expanded)
        && NoDuplicates(out)
        && (forall i, j :: 0 <= i < j < |out| ==>
              && out[i] in KeySet(expanded, Id) && out[j] in KeySet(expanded, Id)
              && FirstIndex(expanded, Id, out[i]) < FirstIndex(expanded, Id, out[j])))
  {
    var expanded := ExpandAll(NonBlank(Split(raw, ',')));
    var out := DedupeBy(expanded, Id);
    assert ExpandSpec(raw).Ok? ==> ExpandSpec(raw).value == out;
    assert ExpandSpec(raw).Ok? <==> Unknown(out) == [];
    hide ExpandSpec, ExpandAll, NonBlank, Split, DedupeBy;
    DedupeNames(expanded);
  }

  /** Keeping the first occurrence of each name keeps every name once, in
      the order of first occurrence. */
  lemma DedupeNames(xs: seq<string>)
    ensures var out := DedupeBy(xs, Id);
      && (forall m :: m in out <==> m in xs)
      && NoDuplicates(out)
      && (forall i, j :: 0 <= i < j < |out| ==>
            && out[i] in KeySet(xs, Id) && out[j] in KeySet(xs, Id)
            && FirstIndex(xs, Id, out[i]) < FirstIndex(xs, Id, out[j]))
  {
    var out := DedupeBy(xs, Id);
    DedupeByKeys(xs, Id);
    DedupeByFirstOccurrences(xs, Id);
    DedupeByNoDuplicates(xs, Id);
    forall m ensures m in out <==> m in xs {
      assert m in out ==> Id(m) in KeySet(out, Id);
      assert m in xs ==> Id(m) in KeySet(xs, Id);
    }
  }

  /** A listed name that is not an alias is kept as it is; an alias brings
      all of its models. */
  lemma {:induction false} ExpandAllMembers(parts: seq<string>, p: string)
    requires p in parts
    ensures p !in ModelAliases ==> p in ExpandAll(parts)
    ensures p in ModelAliases ==> forall m :: m in ModelAliases[p] ==> m in ExpandAll(parts)
  {
    var q := parts[..|parts| - 1];
    if parts[|parts| - 1] != p {
      assert p in q by {
        var i :| 0 <= i < |parts| && parts[i] == p;
        assert q[i] == p;
      }
      ExpandAllMembers(q, p);
    }
  }

  /** The "default" alias gives the three valid models in order. */
  lemma ExpandDefault()
    ensures ExpandSpec("default") == Ok(DefaultModels)
  {
    var d := "default";
    assert NameChars(d) by {
      assert d[0] == 'd' && d[1] == 'e' && d[2] == 'f' && d[3] == 'a';
      assert d[4] == 'u' && d[5] == 'l' && d[6] == 't';
    }
    assert ModelAliases[d] == DefaultModels;
    DefaultModelsValid();
    ExpandOneAlias(d);
  }

  /** A list naming one alias whose models are distinct and valid expands
      to exactly those models. */
  lemma ExpandOneAlias(p: string)
    requires p != [] && NameChars(p) && p in ModelAliases
    requires forall a, b :: 0 <= a < b < |ModelAliases[p]| ==> Id(ModelAliases[p][a]) != Id(ModelAliases[p][b])
    requires Unknown(ModelAliases[p]) == []
    ensures ExpandSpec(p) == Ok(ModelAliases[p])
  {
    hide NonBlank, Split, ExpandAll, Unknown;
    SingleAlias(p);
    DedupeByDistinct(ModelAliases[p], Id);
  }

  /** The default list names three different valid models. */
  lemma DefaultModelsValid()
    ensures forall a, b :: 0 <= a < b < |DefaultModels| ==> Id(DefaultModels[a]) != Id(DefaultModels[b])
    ensures Unknown(DefaultModels) == []
  {
    var e, i, g := DefaultModels[0], DefaultModels[1], DefaultModels[2];
    assert e[0] == 'e' && i[0] == 'i' && g[0] == 'g';
    assert e != i && e != g && i != g;
    assert e in ValidModels && i in ValidModels && g in ValidModels;
  }

  lemma SplitNone(p: string, sep: char)
    requires sep !in p
    ensures Split(p, sep) == [p]
  {
    SplitJoin([p], sep);
    assert Join([p], sep) == p;
  }

  lemma StripName(p: string)
    requires p != [] && NameChars(p)
    ensures Strip(p) == p
  {
    assert p[0] !in Whitespace && p[|p| - 1] !in Whitespace;
  }

  /** A list naming one alias expands to that alias's models. */
  lemma SingleAlias(p: string)
    requires p != [] && NameChars(p) && p in ModelAliases
    ensures ExpandAll(NonBlank(Split(p, ','))) == ModelAliases[p]
  {
    hide NonBlank, Split, Strip, ModelAliases;
    SingleName(p);
    assert [p][..0] == [];
    assert ExpandAll([p]) == AliasOr(p);
  }

  /** The characters of model names and aliases: `[a-z0-9_]`. */
  predicate NameChars(p: string) {
    forall i :: 0 <= i < |p| ==> IsLowerAlnum(p[i]) || p[i] == '_'
  }

  /** A list with a single name, without commas or surrounding blanks. */
  lemma SingleName(p: string)
    requires p != [] && NameChars(p)
    ensures NonBlank(Split(p, ',')) == [p]
  {
    SplitNone(p, ',');
    StripName(p);
    hide Split, Strip;
    assert NonBlank([p]) == [p] by {
      assert [p][..0] == [];
    }
  }

  // ---- _detect_models (env_validation.py:68-87) ----

  /** Whether _detect_models takes its list from variable `name`: set and
      not blank, and for FABLE_PARALLEL_MODELS not purely numeric. */
  predicate Usable(env: Env, name: string) {
    GetVar(env, name, None).Some?
    && !(name == ParallelModelsVar && IsNumeric(env[name]))
  }

  /** The variable _detect_models reads its list from, by priority. */
  function ModelSource(env: Env): (r: Option<string>)
    ensures r.Some? ==> Usable(env, r.value) && r.value in {ModelOrderVar, ModelsVar, ParallelModelsVar}
    ensures r.None? <==>
      !Usable(env, ModelOrderVar) && !Usable(env, ModelsVar) && !Usable(env, ParallelModelsVar)
  {
    if Usable(env, ModelOrderVar) then Some(ModelOrderVar)
    else if Usable(env, ModelsVar) then Some(ModelsVar)
    else if Usable(env, ParallelModelsVar) then Some(ParallelModelsVar)
    else None
  }

  /** What _detect_models returns: the expansion of the chosen variable and
      its name, or the "default" alias with the label "alias:default". */
  function DetectSpec(env: Env): Result<(seq<string>, string)> {
    match ModelSource(env)
    case Some(name) =>
      (match ExpandSpec(env[name])
       case Ok(ms) => Ok((ms, name))
       case Err(e) => Err(e))
    case None =>
      (match ExpandSpec("default")
       case Ok(ms) => Ok((ms, "alias:default"))
       case Err(e) => Err(e))
  }

  /** `_detect_models`: the first usable variable among FABLE_MODEL_ORDER,
      FABLE_MODELS and FABLE_PARALLEL_MODELS. */
  method DetectModels(env: Env) returns (r: Result<(seq<string>, string)>)
    ensures r == DetectSpec(env)
  {
    hide ExpandSpec, ExpandAll, NonBlank, DedupeBy, Unknown, Split;
    var names := [ModelOrderVar, ModelsVar, ParallelModelsVar];
    for i := 0 to |names|
      invariant forall j :: 0 <= j < i ==> !Usable(env, names[j])
    {
      var name := names[i];
      var raw := GetVar(env, name, None);
      if raw.None? || raw.value == "" {
        continue;
      }
      if name == ParallelModelsVar && IsNumeric(raw.value) {
        continue;
      }
      assert ModelSource(env) == Some(name) by {
        assert Usable(env, name);
        if i > 0 {
          assert !Usable(env, names[0]);
        }
        if i > 1 {
          assert !Usable(env, names[1]);
        }
      }
      var expanded := ExpandModels(raw.value);
      match expanded {
        case Ok(ms) => return Ok((ms, name));
        case Err(e) => return Err(e);
      }
    }
    assert ModelSource(env).None? by {
      assert !Usable(env, names[0]) && !Usable(env, names[1]) && !Usable(env, names[2]);
    }
    var expanded := ExpandModels("default");
    match expanded {
      case Ok(ms) => return Ok((ms, "alias:default"));
      case Err(e) => return Err(e);
    }
  }

  /** With none of the three variables usable the models are the default
      list; a numeric FABLE_PARALLEL_MODELS is never read as a list; a
      usable FABLE_MODEL_ORDER always wins, FABLE_MODELS comes next, and
      FABLE_PARALLEL_MODELS is read only when neither of the others is
      usable. */
  lemma DetectFallbacks(env: Env)
    ensures ModelSource(env).None? ==> DetectSpec(env) == Ok((DefaultModels, "alias:default"))
    ensures ParallelModelsVar in env && IsNumeric(env[ParallelModelsVar]) ==>
      ModelSource(env) != Some(ParallelModelsVar)
    ensures Usable(env, ModelOrderVar) ==> ModelSource(env) == Some(ModelOrderVar)
    ensures !Usable(env, ModelOrderVar) && Usable(env, ModelsVar) ==> ModelSource(env) == Some(ModelsVar)
    ensures ModelSource(env) == Some(ParallelModelsVar) <==>
      !Usable(env, ModelOrderVar) && !Usable(env, ModelsVar) && Usable(env, ParallelModelsVar)
  {
    ExpandDefault();
  }
}
