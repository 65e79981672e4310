/** tools/test_openmeteo_models.py: the model list a health check probes, the
    query parameters of a forecast request, and the two checks applied to a
    response. The HTTP requests, retries and console report are not
    modelled. */
module OpenMeteoModels {
  import opened Wrappers
  import opened Text
  import opened Seqs
  import opened Json

  /** ECMWF_KEYS (tools/test_openmeteo_models.py:14-17): the hourly
      variables requested when the caller names none. */
  const EcmwfKeys: seq<string> := [
    "wind_speed_10m", "wind_gusts_10m", "wind_direction_10m",
    "weather_code", "visibility", "surface_pressure", "precipitation"
  ]

  /** MODEL_ALIASES (tools/test_openmeteo_models.py:23-28); `None` stands
      for "no `models` parameter". */
  const ModelAliases: map<string, seq<Option<string>>> := map[
    "ecmwf_ifs04" := [Some("ecmwf_ifs04")],
    "icon_seamless" := [Some("icon_seamless")],
    "gfs_seamless" := [Some("gfs_seamless")],
    "default" := [Some("default"), None]
  ]

  // ---- expand_models (tools/test_openmeteo_models.py:30-38) ----

  /** `MODEL_ALIASES.get(m, [m])`. */
  function AliasesOf(m: string): (r: seq<Option<string>>)
    ensures m !in ModelAliases ==> r == [Some(m)]
  {
    if m in ModelAliases then ModelAliases[m] else [Some(m)]
  }

  /** `a or "default"`: `None` and the empty name both count as "default". */
  function KeyOf(a: Option<string>): (k: string)
    ensures k != ""
    ensures a.Some? && a.value != "" ==> k == a.value
  {
    match a
    case Some(m) => if m == "" then "default" else m
    case None => "default"
  }

  /** The aliases of every name of `order`, in order. */
  function Expanded(order: seq<string>): seq<Option<string>> {
    if order == [] then []
    else Expanded(order[..|order| - 1]) + AliasesOf(order[|order| - 1])
  }

  /** What `expand_models` returns: the expanded aliases, keeping the first
      one for each key `a or "default"`. */
  function ExpandSpec(order: seq<string>): seq<Option<string>> {
    DedupeBy(Expanded(order), KeyOf)
  }

  lemma ExpandedStep(order: seq<string>, i: nat)
    requires i < |order|
    ensures Expanded(order[..i + 1]) == Expanded(order[..i]) + AliasesOf(order[i])
  {
    assert order[..i + 1][..i] == order[..i];
  }

  /** The inner loop of `expand_models`: offers each alias of one name to
      `out`, which holds the de-duplicated aliases offered before. */
  method AddAliases(out: seq<Option<string>>, seen: set<string>, aliases: seq<Option<string>>,
                    ghost before: seq<Option<string>>)
    returns (out': seq<Option<string>>, seen': set<string>)
    requires out == DedupeBy(before, KeyOf) && seen == KeySet(out, KeyOf)
    ensures out' == DedupeBy(before + aliases, KeyOf) && seen' == KeySet(out', KeyOf)
  {
    hide DedupeBy, KeyOf;
    out', seen' := out, seen;
    assert before + aliases[..0] == before;
    for j := 0 to |aliases|
      invariant out' == DedupeBy(before + aliases[..j], KeyOf)
      invariant seen' == KeySet(out', KeyOf)
    {
      var a := aliases[j];
      var k := KeyOf(a);
      assert before + aliases[..j + 1] == (before + aliases[..j]) + [a];
      DedupeByAppend(before + aliases[..j], a, KeyOf);
      if k !in seen' {
        KeySetAppend(out', a, KeyOf);
        seen' := seen' + {k};
        out' := out' + [a];
      }
    }
    assert aliases[..|aliases|] == aliases;
  }

  /** `expand_models`: the outer loop over the requested names. */
  method ExpandModels(order: seq<string>) returns (out: seq<Option<string>>)
    ensures out == ExpandSpec(order)
  {
    assert Expanded(order[..0]) == [];
    hide Expanded, AliasesOf, DedupeBy, KeyOf;
    out := [];
    var seen: set<string> := {};
    for i := 0 to |order|
      invariant out == DedupeBy(Expanded(order[..i]), KeyOf)
      invariant seen == KeySet(out, KeyOf)
    {
      ExpandedStep(order, i);
      out, seen := AddAliases(out, seen, AliasesOf(order[i]), Expanded(order[..i]));
    }
    assert order[..|order|] == order;
  }

  /** No two entries share a key, the entries cover exactly the keys of the
      expanded aliases, and each entry is the first expanded alias with its
      key, in the order of those first occurrences. */
  lemma ExpandSpecProperties(order: seq<string>)
    ensures var out := ExpandSpec(order);
      var xs := Expanded(order);
      && (forall i, j :: 0 <= i < j < |out| ==> KeyOf(out[i]) != KeyOf(out[j]))
      && KeySet(out, KeyOf) == KeySet(xs, KeyOf)
      && (forall i :: 0 <= i < |out| ==>
            KeyOf(out[i]) in KeySet(xs, KeyOf) && out[i] == xs[FirstIndex(xs, KeyOf, KeyOf(out[i]))])
      && (forall i, j :: 0 <= i < j < |out| ==>
            FirstIndex(xs, KeyOf, KeyOf(out[i])) < FirstIndex(xs, KeyOf, KeyOf(out[j])))
  {
    DedupeByNoDuplicates(Expanded(order), KeyOf);
    DedupeByKeys(Expanded(order), KeyOf);
    DedupeByFirstOccurrences(Expanded(order), KeyOf);
  }

  /** Expanding "default" yields only "default": the `None` alias has the
      key "default", which is already seen. */
  lemma ExpandDefault(order: seq<string>)
    requires order == ["default"]
    ensures ExpandSpec(order) == [Some("default")]
  {
    var xs := Expanded(order);
    assert xs == [Some("default"), None] by {
      assert order[..0] == [] && Expanded([]) == [];
      assert AliasesOf("default") == [Some("default"), None];
    }
    assert xs[..1] == [Some("default")] && xs[..1][..0] == [];
    assert DedupeBy(xs[..1], KeyOf) == [Some("default")];
    assert KeyOf(None) in KeySet([Some("default")], KeyOf);
  }

  /** `Some` of every name. */
  function Somes(names: seq<string>): (r: seq<Option<string>>)
    ensures |r| == |names|
    ensures forall i :: 0 <= i < |names| ==> r[i] == Some(names[i])
  {
    if names == [] then [] else Somes(names[..|names| - 1]) + [Some(names[|names| - 1])]
  }

  function Name(s: string): string {
    s
  }

  lemma KeySetSomes(names: seq<string>)
    requires forall m :: m in names ==> m != ""
    ensures KeySet(Somes(names), KeyOf) == KeySet(names, Name)
  {
    var r := Somes(names);
    forall k | k in KeySet(names, Name) ensures k in KeySet(r, KeyOf) {
      var i :| 0 <= i < |names| && names[i] == k;
      assert r[i] in r;
    }
    forall k | k in KeySet(r, KeyOf) ensures k in KeySet(names, Name) {
      var i :| 0 <= i < |r| && KeyOf(r[i]) == k;
      assert names[i] in names;
    }
  }

  /** Names that are neither aliases nor empty pass through unchanged, each
      kept at its first occurrence. */
  lemma {:induction false} UnknownPassThrough(order: seq<string>)
    requires forall m :: m in order ==> m != "" && m !in ModelAliases
    ensures ExpandSpec(order) == Somes(DedupeBy(order, Name))
    decreases |order|
  {
    if order != [] {
      var p, x := order[..|order| - 1], order[|order| - 1];
      assert order == p + [x];
      assert forall m :: m in p ==> m in order;
      assert Expanded(order) == Expanded(p) + [Some(x)];
      UnknownPassThrough(p);
      var d := DedupeBy(p, Name);
      DedupeByKeys(p, Name);
      KeySetSomes(d);
      hide Expanded, DedupeBy, AliasesOf;
      DedupeByAppend(Expanded(p), Some(x), KeyOf);
      DedupeByAppend(p, x, Name);
      assert KeyOf(Some(x)) == Name(x);
      assert Somes(d + [x]) == Somes(d) + [Some(x)] by {
        assert (d + [x])[..|d|] == d;
      }
    }
  }

  // ---- forecast_url (tools/test_openmeteo_models.py:55-70) ----

  /** The query parameter names `forecast_url` uses. */
  datatype ParamName =
    | Latitude | Longitude | Timezone | TimeFormat | WindspeedUnit
    | Hourly | StartDate | EndDate | Daily | Models

  /** The name as it appears in the query string. */
  function NameText(n: ParamName): string {
    match n
    case Latitude => "latitude"
    case Longitude => "longitude"
    case Timezone => "timezone"
    case TimeFormat => "timeformat"
    case WindspeedUnit => "windspeed_unit"
    case Hourly => "hourly"
    case StartDate => "start_date"
    case EndDate => "end_date"
    case Daily => "daily"
    case Models => "models"
  }

  /** The query parameters, in the insertion order of the dict that
      `urlencode` receives. */
  type Params = seq<(ParamName, string)>

  /** The names of the parameters. */
  function Names(ps: Params): set<ParamName> {
    set p | p in ps :: p.0
  }

  /** The value of the first parameter named `k`. */
  function ValueOf(ps: Params, k: ParamName): (r: Option<string>)
    ensures r.Some? <==> k in Names(ps)
    ensures r.Some? ==> (k, r.value) in ps
  {
    if ps == [] then None
    else if ps[0].0 == k then Some(ps[0].1)
    else ValueOf(ps[1..], k)
  }

  /** `hourly_keys or ECMWF_KEYS`. */
  function HourlyKeys(hourlyKeys: Option<seq<string>>): (r: seq<string>)
    ensures r != []
    ensures hourlyKeys.Some? && hourlyKeys.value != [] ==> r == hourlyKeys.value
  {
    if hourlyKeys.Some? && hourlyKeys.value != [] then hourlyKeys.value else EcmwfKeys
  }

  /** `model and model != "default"`. */
  predicate SendsModel(model: Option<string>) {
    model.Some? && model.value != "" && model.value != "default"
  }

  const DailyVars := "sunrise,sunset,moon_phase,moonrise,moonset"

  /** `",".join(hourly_keys or ECMWF_KEYS)`. */
  function HourlyParam(hourlyKeys: Option<seq<string>>): string {
    Join(HourlyKeys(hourlyKeys), ',')
  }

  /** The parameter map of `forecast_url`. The coordinates are passed already
      formatted (`f"{lat:.5f}"`) and the dates already in ISO form. */
  function ForecastParams(lat: string, lon: string, tz: string, startDate: string, endDate: string,
                          model: Option<string>, hourlyKeys: Option<seq<string>>, includeDaily: bool): Params
  {
    var base := [
      (Latitude, lat), (Longitude, lon), (Timezone, tz), (TimeFormat, "iso8601"),
      (WindspeedUnit, "kmh"), (Hourly, HourlyParam(hourlyKeys)),
      (StartDate, startDate), (EndDate, endDate)];
    var withDaily := if includeDaily then base + [(Daily, DailyVars)] else base;
    if SendsModel(model) then withDaily + [(Models, model.value)] else withDaily
  }

  /** "models" is sent, with the model's name, exactly when a model other
      than "default" is set. */
  lemma ForecastModelsParam(lat: string, lon: string, tz: string, startDate: string, endDate: string,
                            model: Option<string>, hourlyKeys: Option<seq<string>>, includeDaily: bool)
    ensures var r := ForecastParams(lat, lon, tz, startDate, endDate, model, hourlyKeys, includeDaily);
      && (Models in Names(r) <==> SendsModel(model))
      && (SendsModel(model) ==> ValueOf(r, Models) == Some(model.value))
  {
    hide HourlyParam, ValueOf;
    var r := ForecastParams(lat, lon, tz, startDate, endDate, model, hourlyKeys, includeDaily);
    if SendsModel(model) {
      ValueOfAt(r, Models, |r| - 1);
    }
  }

  /** "daily" is sent, with the five daily variables, exactly when
      `include_daily` is set; "hourly" is always sent and joins the requested
      variables (or ECMWF_KEYS) with commas; nothing else is optional. */
  lemma ForecastDailyHourlyParams(lat: string, lon: string, tz: string, startDate: string, endDate: string,
                                  model: Option<string>, hourlyKeys: Option<seq<string>>, includeDaily: bool)
    ensures var r := ForecastParams(lat, lon, tz, startDate, endDate, model, hourlyKeys, includeDaily);
      && (Daily in Names(r) <==> includeDaily)
      && (includeDaily ==> ValueOf(r, Daily) == Some(DailyVars))
      && ValueOf(r, Hourly) == Some(HourlyParam(hourlyKeys))
      && |r| == 8 + (if includeDaily then 1 else 0) + (if SendsModel(model) then 1 else 0)
  {
    hide HourlyParam, ValueOf;
    var r := ForecastParams(lat, lon, tz, startDate, endDate, model, hourlyKeys, includeDaily);
    ValueOfAt(r, Hourly, 5);
    if includeDaily {
      ValueOfAt(r, Daily, 8);
    }
  }

  /** No parameter name repeats, so the dict and the sequence agree. */
  lemma ForecastParamsDistinct(lat: string, lon: string, tz: string, startDate: string, endDate: string,
                               model: Option<string>, hourlyKeys: Option<seq<string>>, includeDaily: bool)
    ensures var r := ForecastParams(lat, lon, tz, startDate, endDate, model, hourlyKeys, includeDaily);
      forall i, j :: 0 <= i < j < |r| ==> r[i].0 != r[j].0
  {
    hide HourlyParam;
  }

  /** The value of the first parameter with a given name. */
  lemma {:induction false} ValueOfAt(ps: Params, k: ParamName, i: nat)
    requires i < |ps| && ps[i].0 == k
    requires forall j :: 0 <= j < i ==> ps[j].0 != k
    ensures ValueOf(ps, k) == Some(ps[i].1)
    decreases i
  {
    if i > 0 {
      ValueOfAt(ps[1..], k, i - 1);
    }
  }

  /** The "hourly" value splits back into the requested variables when none
      of them contains a comma. */
  lemma HourlyRoundTrip(hourlyKeys: seq<string>)
    requires hourlyKeys != [] && forall v :: v in hourlyKeys ==> ',' !in v
    ensures Split(HourlyParam(Some(hourlyKeys)), ',') == hourlyKeys
  {
    SplitJoin(hourlyKeys, ',');
  }

  // ---- payload_ok, has_wind_arrays (tools/test_openmeteo_models.py:85-93) ----

  predicate IsList(v: Json) {
    v.Arr?
  }

  /** The hourly "time" array of a payload, when there is one. */
  function Times(p: Json): Option<seq<Json>> {
    if p.Obj? && "hourly" in p.fields && p.fields["hourly"].Obj? && "time" in p.fields["hourly"].fields
       && p.fields["hourly"].fields["time"].Arr?
    then Some(p.fields["hourly"].fields["time"].items)
    else None
  }

  /** `payload_ok`: `isinstance(p, dict) and isinstance(p.get("hourly"), dict)
      and isinstance(p["hourly"].get("time"), list) and len(...) > 0`; a
      payload is accepted exactly when it has a non-empty hourly time array. */
  function PayloadOk(p: Json): (ok: bool)
    ensures ok <==> Times(p).Some? && Times(p).value != []
  {
    && p.Obj?
    && Get(p.fields, "hourly").Obj?
    && IsList(Get(Get(p.fields, "hourly").fields, "time"))
    && |Get(Get(p.fields, "hourly").fields, "time").items| > 0
  }

  /** `_has(key)`: `arr = h.get(key) or []`; a list with an element that is
      not `None`. */
  predicate HasSeries(h: map<string, Json>, key: string) {
    var arr := Or(Get(h, key), Arr([]));
    IsList(arr) && exists x :: x in arr.items && x != Null
  }

  /** `has_wind_arrays`: `h = (p or {}).get("hourly") or {}`; calling `.get`
      on a true value that is not a dict raises `AttributeError`. */
  function HasWindArrays(p: Json): (r: Result<bool>)
    ensures r.Err? <==>
      || (Truthy(p) && !p.Obj?)
      || (p.Obj? && "hourly" in p.fields && Truthy(p.fields["hourly"]) && !p.fields["hourly"].Obj?)
  {
    var d := Or(p, Obj(map[]));
    if !d.Obj? then Err("object has no attribute 'get'")
    else
      var h := Or(Get(d.fields, "hourly"), Obj(map[]));
      if !h.Obj? then Err("object has no attribute 'get'")
      else Ok(HasSeries(h.fields, "wind_speed_10m") && HasSeries(h.fields, "wind_gusts_10m"))
  }

  /** The series named `key` of the hourly block, if it is a list. */
  function Series(p: Json, key: string): Option<seq<Json>> {
    if p.Obj? && "hourly" in p.fields && p.fields["hourly"].Obj? && key in p.fields["hourly"].fields
       && p.fields["hourly"].fields[key].Arr?
    then Some(p.fields["hourly"].fields[key].items)
    else None
  }

  /** On a payload that passed `payload_ok`, `has_wind_arrays` does not raise,
      and it holds exactly when the speed and the gust series both hold a
      value that is not `None`. */
  lemma HasWindArraysIff(p: Json)
    requires PayloadOk(p)
    ensures HasWindArrays(p).Ok?
    ensures HasWindArrays(p).value <==>
      && Series(p, "wind_speed_10m").Some? && (exists x :: x in Series(p, "wind_speed_10m").value && x != Null)
      && Series(p, "wind_gusts_10m").Some? && (exists x :: x in Series(p, "wind_gusts_10m").value && x != Null)
  {
    var h := p.fields["hourly"];
    assert Truthy(p) && Truthy(h) by {
      assert "hourly" in p.fields && "time" in h.fields;
    }
    SeriesOf(p, "wind_speed_10m");
    SeriesOf(p, "wind_gusts_10m");
  }

  lemma SeriesOf(p: Json, key: string)
    requires p.Obj? && "hourly" in p.fields && p.fields["hourly"].Obj?
    ensures HasSeries(p.fields["hourly"].fields, key) <==>
      Series(p, key).Some? && exists x :: x in Series(p, key).value && x != Null
  {
    var h := p.fields["hourly"].fields;
    if HasSeries(h, key) {
      var arr := Or(Get(h, key), Arr([]));
      var x :| x in arr.items && x != Null;
      assert arr.items != [];
      assert Truthy(Get(h, key)) && arr == h[key];
      assert Series(p, key) == Some(arr.items);
    } else if Series(p, key).Some? {
      var v := h[key];
      assert v.Arr? && Series(p, key).value == v.items;
      if v.items != [] {
        assert Or(Get(h, key), Arr([])) == v;
      } else {
        assert forall x :: x !in Series(p, key).value;
      }
    }
  }
}
