/** The Family window detector of reader.py: a per-hour "worst value wins"
    reduction over the forecast models of a site, the rule cascade that
    decides whether one hour is Family OK, the confidence grade of a span,
    and the scan that admits windows of consecutive OK hours at a
    destination, checked against the home port at departure and return.

    Timestamps are local wall-clock hour numbers in the site's time zone, so
    the hour of day is `t % 24` and "one hour later" is `t + 1`. An array the
    JSON lacks, or that is null, is the empty sequence: every reader of an
    array in reader.py treats those two alike. */
module Reader {
  import opened Wrappers
  import opened Text
  import opened Seqs

  // ---- thresholds (reader.py:37-65) ----

  const WindFamilyMax: real := 20.0
  const WindNoGoMin: real := 25.0
  const GustNoGoMin: real := 30.0
  const SquallDelta: real := 15.0
  const HsFamilyMax: real := 0.5
  const HsNoGoMin: real := 0.8
  const TpMinAtLt04: real := 4.0
  const TpMinAt04To05: real := 4.5
  const FamilyHourStart: int := 8
  const FamilyHourEnd: int := 21
  const ShortSteep1Hs: real := 0.5
  const ShortSteep1Tp: real := 6.0
  const ShortSteep2Hs: real := 0.6
  const ShortSteep2Tp: real := 5.0
  const VisMinKm: real := 5.0
  const OnshoreMaxOk: real := 20.0
  const ThunderCodes: set<int> := {95, 96, 99}
  const DefaultMinHours: int := 4
  const DefaultMaxHours: int := 6

  // ---- data model ----

  /** One hourly array of a forecast; `None` is a JSON null. */
  type Column = seq<Option<real>>

  /** The arrays of one wind model: wind_speed_10m, wind_gusts_10m,
      wind_direction_10m, visibility_km and weather_code. */
  datatype ModelArrays = ModelArrays(
    speed: Column, gust: Column, direction: Column, visibility: Column, code: Column)

  const NoArrays := ModelArrays([], [], [], [], [])

  /** The wave arrays: significant_wave_height, wave_height, wave_period. */
  datatype Waves = Waves(significantHeight: Column, waveHeight: Column, period: Column)

  /** A loaded site. `windModels` keeps the insertion order of the source's dict. */
  datatype Site = Site(
    name: string, slug: string, times: seq<int>,
    windModels: seq<(string, ModelArrays)>, waves: Waves)

  /** The reduction of all models at one hour. */
  datatype HourMetrics = HourMetrics(
    maxSpeed: Option<real>, minSpeed: Option<real>, maxGust: Option<real>,
    spreadSpeed: Option<real>, anyDir: Option<real>, minVis: Option<real>,
    codes: seq<int>, hs: Option<real>, tp: Option<real>, nModels: nat)

  /** The two grades compute_confidence can return, and the one it never does. */
  datatype Grade = High | Medium | Low

  /** "family" or "off_hours". */
  datatype Category = Family | OffHours

  /** One entry of the output list: start, exclusive end, length in hours,
      confidence, category and the "reason" text. */
  datatype Window = Window(
    start: int, end: int, hours: int, confidence: Grade, category: Category, reason: string)

  /** The index range [first, end) of the destination hours a window covers. */
  datatype Span = Span(first: nat, end: nat)

  // ---- utilities (reader.py:99-175) ----

  /** Membership of one (a, b) sector: a <= b is the closed arc from a to b,
      a > b wraps through north (angle >= a or angle <= b). */
  predicate InSector(angle: real, sector: (int, int)) {
    if sector.0 <= sector.1 then sector.0 as real <= angle <= sector.1 as real
    else angle >= sector.0 as real || angle <= sector.1 as real
  }

  /** `_angle_in_ranges`: true exactly when some sector contains the angle. */
  function AngleInRanges(angle: real, ranges: seq<(int, int)>): (r: bool)
    ensures r <==> exists k :: 0 <= k < |ranges| && InSector(angle, ranges[k])
  {
    if ranges == [] then false
    else if InSector(angle, ranges[0]) then true
    else
      var r := AngleInRanges(angle, ranges[1..]);
      assert forall k :: 1 <= k < |ranges| ==> ranges[k] == ranges[1..][k - 1];
      r
  }

  /** `_onshore_sectors`: the onshore compass sectors of a site, looked up by
      its slug without ".json" and in lower case; unknown slugs get the
      prudent Bay of Tunis fallback 20-160. */
  function OnshoreSectors(slug: string): (r: seq<(int, int)>)
    ensures |r| >= 1
    ensures forall k :: 0 <= k < |r| ==> 0 <= r[k].0 <= 360 && 0 <= r[k].1 <= 360
    ensures Lower(RemoveAll(slug, ".json")) !in KnownSlugs ==> r == [(20, 160)]
  {
    var s := Lower(RemoveAll(slug, ".json"));
    if s in {"gammarth-port", "gammarth"} then [(30, 150)]
    else if s in {"sidi-bou-said", "sidibousaid", "sidi-bou"} then [(30, 150)]
    else if s in {"ghar-el-melh", "ghar el melh", "gharemelh", "ghar-elmelh"} then [(10, 130)]
    else if s in {"el-haouaria", "haouaria", "el haouaria"} then [(330, 360), (0, 70)]
    else if s in {"ras-fartass", "rasfartass", "ras fartass"} then [(330, 360), (0, 70)]
    else if s in {"korbous"} then [(30, 150)]
    else if s in {"kelibia", "k\U{E9}libia"} then [(330, 360), (0, 70)]
    else [(20, 160)]
  }

  /** Every slug (after normalisation) that has its own sector table. */
  const KnownSlugs: set<string> := {
    "gammarth-port", "gammarth", "sidi-bou-said", "sidibousaid", "sidi-bou",
    "ghar-el-melh", "ghar el melh", "gharemelh", "ghar-elmelh",
    "el-haouaria", "haouaria", "el haouaria", "ras-fartass", "rasfartass", "ras fartass",
    "korbous", "kelibia", "k\U{E9}libia"}

  /** The local hour of day of a wall-clock hour number. */
  function HourOfDay(t: int): (h: int)
    ensures 0 <= h < 24
  {
    t % 24
  }

  /** `_all_in_family_hours_dts`: every timestamp falls in [08:00, 21:00). */
  function AllInFamilyHours(ts: seq<int>): (r: bool)
    ensures r <==> forall k :: 0 <= k < |ts| ==> FamilyHourStart <= HourOfDay(ts[k]) < FamilyHourEnd
  {
    if ts == [] then true
    else if !(FamilyHourStart <= HourOfDay(ts[0]) < FamilyHourEnd) then false
    else
      var r := AllInFamilyHours(ts[1..]);
      assert forall k :: 1 <= k < |ts| ==> ts[k] == ts[1..][k - 1];
      r
  }

  /** The first model registered under `name`, as a dict lookup. */
  function LookupModel(ms: seq<(string, ModelArrays)>, name: string): (r: Option<ModelArrays>)
    ensures r.Some? ==> exists j :: 0 <= j < |ms| && ms[j] == (name, r.value)
    ensures r.None? ==> forall j :: 0 <= j < |ms| ==> ms[j].0 != name
  {
    if ms == [] then None
    else if ms[0].0 == name then Some(ms[0].1)
    else
      var r := LookupModel(ms[1..], name);
      assert forall j :: 1 <= j < |ms| ==> ms[j] == ms[1..][j - 1];
      r
  }

  /** `site.wind_models.get("om") or {}`. */
  function OmArrays(site: Site): ModelArrays {
    LookupModel(site.windModels, "om").GetOr(NoArrays)
  }

  /** `_has_wind_range`: model "om" has speed, gust and direction at every
      index of [i0, i1]. */
  predicate HasWindRange(site: Site, i0: nat, i1: int) {
    forall i :: i0 <= i <= i1 ==> HasWindAt(OmArrays(site), i)
  }

  /** Speed, gust and direction are all present at index `i`. */
  predicate HasWindAt(w: ModelArrays, i: int) {
    && 0 <= i < |w.speed| && w.speed[i].Some?
    && i < |w.gust| && w.gust[i].Some?
    && i < |w.direction| && w.direction[i].Some?
  }

  /** `_safe_get`: the value at `i`, or `None` past the end. */
  function SafeGet(arr: Column, i: nat): Option<real> {
    if i < |arr| then arr[i] else None
  }

  /** Python's `int(x)` on a float: truncation toward zero. */
  function Truncate(x: real): int {
    if x >= 0.0 then x.Floor else -((-x).Floor)
  }

  // ---- worst value wins (reader.py:241-288) ----

  datatype Field = Speed | Gust | Direction | Visibility | Code

  function ColumnOf(a: ModelArrays, f: Field): Column {
    match f
    case Speed => a.speed
    case Gust => a.gust
    case Direction => a.direction
    case Visibility => a.visibility
    case Code => a.code
  }

  /** The values the models in `ms` report for `f` at `idx`, in model order. */
  function Reported(ms: seq<(string, ModelArrays)>, f: Field, idx: nat): seq<real> {
    if ms == [] then []
    else
      var prev := Reported(ms[..|ms| - 1], f, idx);
      match SafeGet(ColumnOf(ms[|ms| - 1].1, f), idx)
      case Some(v) => prev + [v]
      case None => prev
  }

  function TruncateAll(xs: seq<real>): (r: seq<int>)
    ensures |r| == |xs|
  {
    if xs == [] then [] else TruncateAll(xs[..|xs| - 1]) + [Truncate(xs[|xs| - 1])]
  }

  /** `acc` with the value `o`, if there is one, appended. */
  function AppendSome(acc: seq<real>, o: Option<real>): seq<real> {
    match o
    case Some(v) => acc + [v]
    case None => acc
  }

  /** One more model: what Reported, its truncation and the model count gain
      from model `k`. */
  lemma ModelStep(ms: seq<(string, ModelArrays)>, k: nat, idx: nat)
    requires k < |ms|
    ensures Reported(ms[..k + 1], Speed, idx) == AppendSome(Reported(ms[..k], Speed, idx), SafeGet(ms[k].1.speed, idx))
    ensures Reported(ms[..k + 1], Gust, idx) == AppendSome(Reported(ms[..k], Gust, idx), SafeGet(ms[k].1.gust, idx))
    ensures Reported(ms[..k + 1], Direction, idx) == AppendSome(Reported(ms[..k], Direction, idx), SafeGet(ms[k].1.direction, idx))
    ensures Reported(ms[..k + 1], Visibility, idx) == AppendSome(Reported(ms[..k], Visibility, idx), SafeGet(ms[k].1.visibility, idx))
    ensures TruncateAll(Reported(ms[..k + 1], Code, idx)) ==
      match SafeGet(ms[k].1.code, idx)
      case Some(v) => TruncateAll(Reported(ms[..k], Code, idx)) + [Truncate(v)]
      case None => TruncateAll(Reported(ms[..k], Code, idx))
    ensures CountModels(ms[..k + 1]) == CountModels(ms[..k]) + (if |ms[k].1.speed| > 0 then 1 else 0)
  {
    assert ms[..k + 1][..k] == ms[..k];
    var prev := Reported(ms[..k], Code, idx);
    if SafeGet(ms[k].1.code, idx).Some? {
      var r := prev + [SafeGet(ms[k].1.code, idx).value];
      assert r[..|r| - 1] == prev;
    }
  }

  /** The number of models whose speed array is non-empty, whatever the hour. */
  function CountModels(ms: seq<(string, ModelArrays)>): nat {
    if ms == [] then 0
    else CountModels(ms[..|ms| - 1]) + (if |ms[|ms| - 1].1.speed| > 0 then 1 else 0)
  }

  /** Python's `max(xs)`; `SeqMaxIsMax` states what it is. */
  function SeqMax(xs: seq<real>): real
    requires xs != []
  {
    if |xs| == 1 then xs[0]
    else
      var m := SeqMax(xs[..|xs| - 1]);
      if xs[|xs| - 1] > m then xs[|xs| - 1] else m
  }

  /** Python's `min(xs)`; `SeqMinIsMin` states what it is. */
  function SeqMin(xs: seq<real>): real
    requires xs != []
  {
    if |xs| == 1 then xs[0]
    else
      var m := SeqMin(xs[..|xs| - 1]);
      if xs[|xs| - 1] < m then xs[|xs| - 1] else m
  }

  lemma {:induction false} SeqMaxIsMax(xs: seq<real>)
    requires xs != []
    ensures SeqMax(xs) in xs && forall k :: 0 <= k < |xs| ==> xs[k] <= SeqMax(xs)
  {
    if |xs| > 1 {
      var p := xs[..|xs| - 1];
      SeqMaxIsMax(p);
      assert forall k :: 0 <= k < |xs| - 1 ==> xs[k] == p[k];
    }
  }

  lemma {:induction false} SeqMinIsMin(xs: seq<real>)
    requires xs != []
    ensures SeqMin(xs) in xs && forall k :: 0 <= k < |xs| ==> SeqMin(xs) <= xs[k]
  {
    if |xs| > 1 {
      var p := xs[..|xs| - 1];
      SeqMinIsMin(p);
      assert forall k :: 0 <= k < |xs| - 1 ==> xs[k] == p[k];
    }
  }

  /** `site.waves.get("significant_wave_height") or site.waves.get("wave_height")`. */
  function HsColumn(w: Waves): Column {
    if |w.significantHeight| > 0 then w.significantHeight else w.waveHeight
  }

  /** Python's `max(xs) if xs else None`. */
  function MaxOf(xs: seq<real>): Option<real> {
    if xs == [] then None else Some(SeqMax(xs))
  }

  /** Python's `min(xs) if xs else None`. */
  function MinOf(xs: seq<real>): Option<real> {
    if xs == [] then None else Some(SeqMin(xs))
  }

  /** `max(speeds) - min(speeds) if len(speeds) >= 2 else None`. */
  function SpreadOf(xs: seq<real>): Option<real> {
    if |xs| >= 2 then Some(SeqMax(xs) - SeqMin(xs)) else None
  }

  /** `xs[0] if xs else None`. */
  function FirstOf(xs: seq<real>): Option<real> {
    if xs == [] then None else Some(xs[0])
  }

  /** The hour's metrics from the lists of reported values, the number of
      models with wind data, and the wave arrays. */
  function Summarize(speeds: seq<real>, gusts: seq<real>, dirs: seq<real>, vis: seq<real>,
                     codes: seq<int>, nModels: nat, w: Waves, idx: nat): HourMetrics {
    HourMetrics(
      maxSpeed := MaxOf(speeds),
      minSpeed := MinOf(speeds),
      maxGust := MaxOf(gusts),
      spreadSpeed := SpreadOf(speeds),
      anyDir := FirstOf(dirs),
      minVis := MinOf(vis),
      codes := codes,
      hs := SafeGet(HsColumn(w), idx),
      tp := SafeGet(w.period, idx),
      nModels := nModels)
  }

  /** What worst_metrics_at_hour computes, as a function of the site: each
      field is reduced over the values the models report for it. */
  function MetricsAt(site: Site, idx: nat): HourMetrics {
    var ms := site.windModels;
    Summarize(Reported(ms, Speed, idx), Reported(ms, Gust, idx), Reported(ms, Direction, idx),
              Reported(ms, Visibility, idx), TruncateAll(Reported(ms, Code, idx)), CountModels(ms),
              site.waves, idx)
  }

  /** `worst_metrics_at_hour`: one pass over the models collecting each field
      independently. */
  method WorstMetricsAtHour(site: Site, idx: nat) returns (m: HourMetrics)
    ensures m == MetricsAt(site, idx)
  {
    var ms := site.windModels;
    var speeds, gusts, dirs, vis: seq<real> := [], [], [], [];
    var codes: seq<int> := [];
    var nModels := 0;
    for k := 0 to |ms|
      invariant speeds == Reported(ms[..k], Speed, idx) && gusts == Reported(ms[..k], Gust, idx)
      invariant dirs == Reported(ms[..k], Direction, idx) && vis == Reported(ms[..k], Visibility, idx)
      invariant codes == TruncateAll(Reported(ms[..k], Code, idx)) && nModels == CountModels(ms[..k])
    {
      ModelStep(ms, k, idx);
      hide Reported, TruncateAll, CountModels, AppendSome;
      var arrs := ms[k].1;
      // Each list gains the model's value when `_safe_get` finds one, i.e.
      // when `arr and idx < len(arr) and arr[idx] is not None` holds.
      speeds := AppendSome(speeds, SafeGet(arrs.speed, idx));
      gusts := AppendSome(gusts, SafeGet(arrs.gust, idx));
      dirs := AppendSome(dirs, SafeGet(arrs.direction, idx));
      vis := AppendSome(vis, SafeGet(arrs.visibility, idx));
      codes := match SafeGet(arrs.code, idx)
        case Some(v) => codes + [Truncate(v)]
        case None => codes;
      // `if sp: n_models += 1`
      nModels := nModels + if |arrs.speed| > 0 then 1 else 0;
    }
    hide Summarize, Reported, TruncateAll, CountModels;
    assert ms[..|ms|] == ms;
    m := Summarize(speeds, gusts, dirs, vis, codes, nModels, site.waves, idx);
  }

  // ---- properties of the reduction ----

  /** No model reports field `f` at `idx`. */
  predicate NoneReported(ms: seq<(string, ModelArrays)>, f: Field, idx: nat) {
    forall j :: 0 <= j < |ms| ==> SafeGet(ColumnOf(ms[j].1, f), idx).None?
  }

  lemma {:induction false} ReportedEmptyIff(ms: seq<(string, ModelArrays)>, f: Field, idx: nat)
    ensures Reported(ms, f, idx) == [] <==> NoneReported(ms, f, idx)
  {
    if ms != [] {
      var p := ms[..|ms| - 1];
      var last := SafeGet(ColumnOf(ms[|ms| - 1].1, f), idx);
      ReportedEmptyIff(p, f, idx);
      if NoneReported(ms, f, idx) {
        assert forall j :: 0 <= j < |p| ==> p[j] == ms[j];
      }
      if NoneReported(p, f, idx) && last.None? {
        forall j | 0 <= j < |ms| ensures SafeGet(ColumnOf(ms[j].1, f), idx).None? {
          if j < |p| { assert ms[j] == p[j]; }
        }
      }
    }
  }

  /** The first reported value comes from the first model that reports one. */
  lemma {:induction false} ReportedFirst(ms: seq<(string, ModelArrays)>, f: Field, idx: nat)
    requires Reported(ms, f, idx) != []
    ensures exists j :: 0 <= j < |ms| && SafeGet(ColumnOf(ms[j].1, f), idx) == Some(Reported(ms, f, idx)[0])
                        && NoneReported(ms[..j], f, idx)
  {
    var p := ms[..|ms| - 1];
    assert forall j :: 0 <= j < |p| ==> ms[j] == p[j];
    if Reported(p, f, idx) != [] {
      ReportedFirst(p, f, idx);
      var j :| 0 <= j < |p| && SafeGet(ColumnOf(p[j].1, f), idx) == Some(Reported(p, f, idx)[0])
        && NoneReported(p[..j], f, idx);
      assert p[..j] == ms[..j];
      assert SafeGet(ColumnOf(ms[j].1, f), idx) == Some(Reported(ms, f, idx)[0]);
    } else {
      ReportedEmptyIff(p, f, idx);
      var j := |ms| - 1;
      assert p == ms[..j];
      assert SafeGet(ColumnOf(ms[j].1, f), idx) == Some(Reported(ms, f, idx)[0]);
    }
  }

  /** Each wind-derived field is `None` exactly when no model reports that
      field at this hour; direction is that of the first model reporting one. */
  lemma MetricsAbsentIff(site: Site, idx: nat)
    ensures var m, ms := MetricsAt(site, idx), site.windModels;
      && (m.maxSpeed.None? <==> NoneReported(ms, Speed, idx))
      && (m.minSpeed.None? <==> m.maxSpeed.None?)
      && (m.maxGust.None? <==> NoneReported(ms, Gust, idx))
      && (m.anyDir.None? <==> NoneReported(ms, Direction, idx))
      && (m.minVis.None? <==> NoneReported(ms, Visibility, idx))
      && (m.anyDir.Some? ==>
            exists j :: 0 <= j < |ms| && SafeGet(ColumnOf(ms[j].1, Direction), idx) == m.anyDir
                        && NoneReported(ms[..j], Direction, idx))
  {
    var ms := site.windModels;
    var m, dirs := MetricsAt(site, idx), Reported(ms, Direction, idx);
    ReportedEmptyIff(ms, Speed, idx);
    ReportedEmptyIff(ms, Gust, idx);
    ReportedEmptyIff(ms, Direction, idx);
    ReportedEmptyIff(ms, Visibility, idx);
    if dirs != [] {
      assert m.anyDir == Some(dirs[0]);
      ReportedFirst(ms, Direction, idx);
      var j :| 0 <= j < |ms| && SafeGet(ColumnOf(ms[j].1, Direction), idx) == Some(dirs[0])
        && NoneReported(ms[..j], Direction, idx);
    }
  }

  /** When speeds exist the minimum is at most the maximum, and the spread is
      their difference exactly when at least two models report a speed. */
  lemma MetricsSpeedOrder(site: Site, idx: nat)
    ensures var m, speeds := MetricsAt(site, idx), Reported(site.windModels, Speed, idx);
      && (m.maxSpeed.Some? ==> m.minSpeed.Some? && m.minSpeed.value <= m.maxSpeed.value)
      && (m.spreadSpeed.Some? <==> |speeds| >= 2)
      && (m.spreadSpeed.Some? ==> m.spreadSpeed.value == m.maxSpeed.value - m.minSpeed.value >= 0.0)
  {
    var speeds := Reported(site.windModels, Speed, idx);
    if speeds != [] {
      SeqMaxIsMax(speeds);
      SeqMinIsMin(speeds);
      var lo, hi := SeqMin(speeds), SeqMax(speeds);
      assert lo <= speeds[0] <= hi;
    }
  }

  /** At most one speed per model with a non-empty speed array. */
  lemma {:induction false} SpeedsBoundedByModels(ms: seq<(string, ModelArrays)>, idx: nat)
    ensures |Reported(ms, Speed, idx)| <= CountModels(ms) <= |ms|
  {
    if ms != [] {
      SpeedsBoundedByModels(ms[..|ms| - 1], idx);
    }
  }

  /** `n_models` does not depend on the hour and never exceeds the number of
      models; a site with a single model ("om", as load_site builds it) has
      `n_models <= 1` and never a spread. */
  lemma SingleModelMetrics(site: Site, idx: nat)
    requires |site.windModels| <= 1
    ensures MetricsAt(site, idx).nModels <= 1 && MetricsAt(site, idx).spreadSpeed.None?
  {
    SpeedsBoundedByModels(site.windModels, idx);
  }

  /** When model "om" has speed, gust and direction over a range, every hour of
      the range has a maximum speed, a maximum gust and a direction. */
  lemma WindRangeGivesWindMetrics(site: Site, i0: nat, i1: int, i: nat)
    requires HasWindRange(site, i0, i1) && i0 <= i <= i1
    ensures MetricsAt(site, i).maxSpeed.Some? && MetricsAt(site, i).maxGust.Some?
    ensures MetricsAt(site, i).anyDir.Some?
  {
    var ms := site.windModels;
    var om := LookupModel(ms, "om");
    var w := OmArrays(site);
    assert HasWindAt(w, i);
    assert om.None? ==> w == NoArrays;
    assert om.Some?;
    var j :| 0 <= j < |ms| && ms[j] == ("om", om.value);
    var a := ms[j].1;
    assert a == OmArrays(site);
    assert SafeGet(ColumnOf(a, Speed), i).Some?;
    assert SafeGet(ColumnOf(a, Gust), i).Some?;
    assert SafeGet(ColumnOf(a, Direction), i).Some?;
    MetricsAbsentIff(site, i);
  }

  // ---- the Family rule cascade (reader.py:291-343) ----

  /** Some code is a thunderstorm code (stated by recursion on the last code;
      HasThunderIff gives the "some index" form). */
  predicate HasThunder(codes: seq<int>) {
    codes != [] && (codes[|codes| - 1] in ThunderCodes || HasThunder(codes[..|codes| - 1]))
  }

  lemma {:induction false} HasThunderIff(codes: seq<int>)
    ensures HasThunder(codes) <==> exists k :: 0 <= k < |codes| && codes[k] in ThunderCodes
  {
    if codes != [] {
      var p := codes[..|codes| - 1];
      HasThunderIff(p);
      assert forall k :: 0 <= k < |p| ==> p[k] == codes[k];
      if HasThunder(p) {
        var k :| 0 <= k < |p| && p[k] in ThunderCodes;
        assert codes[k] in ThunderCodes;
      }
    }
  }

  /** A failed check of hour_is_family_ok. */
  datatype Reason =
    | Storms | GustNoGo | WindNoGo | WavesUnknown | HsNoGo | HsFamily
    | TpLowAtHsLt04 | TpLowAtHs04To05 | ShortSteep | ShortSteepHard
    | Squalls | Onshore | LowVisibility | WindFamily

  /** The tag the source appends to `reasons` for each failed check. */
  function TagText(r: Reason): string {
    match r
    case Storms => "orages"
    case GustNoGo => "rafales>=30"
    case WindNoGo => "vent>=25"
    case WavesUnknown => "vagues_inconnues"
    case HsNoGo => "Hs>0.8"
    case HsFamily => "Hs>=0.5"
    case TpLowAtHsLt04 => "Tp<4.0@Hs<0.4"
    case TpLowAtHs04To05 => "Tp<4.5@Hs0.4-0.5"
    case ShortSteep => "short_steep"
    case ShortSteepHard => "short_steep_hard"
    case Squalls => "squalls"
    case Onshore => "onshore>20"
    case LowVisibility => "vis<5km"
    case WindFamily => "vent>=20"
  }

  /** Distinct checks leave distinct tags, so the tags name the failed checks. */
  lemma TagTextInjective(r1: Reason, r2: Reason)
    requires TagText(r1) == TagText(r2)
    ensures r1 == r2
  {
  }

  /** The position of each check in the order hour_is_family_ok runs them. */
  function CheckAt(k: nat): Reason
    requires k < ChecksCount
  {
    if k == 0 then Storms else if k == 1 then GustNoGo else if k == 2 then WindNoGo
    else if k == 3 then WavesUnknown else if k == 4 then HsNoGo else if k == 5 then HsFamily
    else if k == 6 then TpLowAtHsLt04 else if k == 7 then TpLowAtHs04To05
    else if k == 8 then ShortSteep else if k == 9 then ShortSteepHard
    else if k == 10 then Squalls else if k == 11 then Onshore
    else if k == 12 then LowVisibility else WindFamily
  }

  const ChecksCount: nat := 14

  predicate WavesKnown(m: HourMetrics) {
    m.hs.Some? && m.tp.Some?
  }

  /** Whether check `r` fails on metrics `m`. The wave checks only run when Hs
      and Tp are both known, and the two period checks only below Hs 0.5. */
  predicate Fails(m: HourMetrics, sectors: seq<(int, int)>, r: Reason) {
    match r
    case Storms => HasThunder(m.codes)
    case GustNoGo => m.maxGust.Some? && m.maxGust.value >= GustNoGoMin
    case WindNoGo => m.maxSpeed.Some? && m.maxSpeed.value >= WindNoGoMin
    case WavesUnknown => !WavesKnown(m)
    case HsNoGo => WavesKnown(m) && m.hs.value > HsNoGoMin
    case HsFamily => WavesKnown(m) && m.hs.value >= HsFamilyMax
    case TpLowAtHsLt04 =>
      WavesKnown(m) && m.hs.value < HsFamilyMax && m.hs.value < 0.4 && m.tp.value < TpMinAtLt04
    case TpLowAtHs04To05 =>
      WavesKnown(m) && m.hs.value < HsFamilyMax && 0.4 <= m.hs.value < 0.5 && m.tp.value < TpMinAt04To05
    case ShortSteep => WavesKnown(m) && m.hs.value >= ShortSteep1Hs && m.tp.value <= ShortSteep1Tp
    case ShortSteepHard => WavesKnown(m) && m.hs.value >= ShortSteep2Hs && m.tp.value <= ShortSteep2Tp
    case Squalls =>
      m.maxGust.Some? && m.minSpeed.Some? && m.maxGust.value - m.minSpeed.value >= SquallDelta
    case Onshore =>
      m.maxSpeed.Some? && m.anyDir.Some? && m.maxSpeed.value > OnshoreMaxOk
      && AngleInRanges(m.anyDir.value, sectors)
    case LowVisibility => m.minVis.Some? && m.minVis.value < VisMinKm
    case WindFamily => m.maxSpeed.Some? && m.maxSpeed.value >= WindFamilyMax
  }

  /** `acc` followed by `r` when the check failed. */
  function Add(acc: seq<Reason>, failed: bool, r: Reason): seq<Reason> {
    if failed then acc + [r] else acc
  }

  /** The reasons recorded by the first `n` checks, in order. */
  function ReasonsUpTo(m: HourMetrics, sectors: seq<(int, int)>, n: nat): seq<Reason>
    requires n <= ChecksCount
  {
    if n == 0 then []
    else Add(ReasonsUpTo(m, sectors, n - 1), Fails(m, sectors, CheckAt(n - 1)), CheckAt(n - 1))
  }

  /** The reasons list of hour_is_family_ok. */
  function Reasons(m: HourMetrics, sectors: seq<(int, int)>): seq<Reason> {
    ReasonsUpTo(m, sectors, ChecksCount)
  }

  /** A reason is recorded exactly when its check, among the first `n`, fails;
      the list is empty exactly when none of them fails. */
  lemma {:induction false} ReasonsUpToMembers(m: HourMetrics, sectors: seq<(int, int)>, n: nat)
    requires n <= ChecksCount
    ensures forall r :: r in ReasonsUpTo(m, sectors, n) <==>
      exists k :: 0 <= k < n && CheckAt(k) == r && Fails(m, sectors, r)
    ensures ReasonsUpTo(m, sectors, n) == [] <==>
      forall k :: 0 <= k < n ==> !Fails(m, sectors, CheckAt(k))
  {
    hide Fails, CheckAt;
    if n > 0 {
      ReasonsUpToMembers(m, sectors, n - 1);
    }
  }

  /** A Family OK hour, stated per metric with only the checks that can
      decide: no thunderstorm code, gust below 30 and wind below 20 when
      known, known waves below 0.5 m with the period the height requires,
      no squall, visibility of at least 5 km when known. */
  predicate FamilySafe(m: HourMetrics) {
    && !HasThunder(m.codes)
    && (m.maxGust.None? || m.maxGust.value < GustNoGoMin)
    && (m.maxSpeed.None? || m.maxSpeed.value < WindFamilyMax)
    && m.hs.Some? && m.tp.Some? && m.hs.value < HsFamilyMax
    && m.tp.value >= (if m.hs.value < 0.4 then TpMinAtLt04 else TpMinAt04To05)
    && (m.maxGust.None? || m.minSpeed.None? || m.maxGust.value - m.minSpeed.value < SquallDelta)
    && (m.minVis.None? || m.minVis.value >= VisMinKm)
  }

  /** The verdict of hour_is_family_ok at one hour of a site (by
      ReasonsEmptyIffSafe, the same as "no reason was recorded"). */
  predicate FamilyOkAt(site: Site, idx: nat) {
    FamilySafe(MetricsAt(site, idx))
  }

  /** An hour passes exactly when it is FamilySafe, whatever the sectors: the
      "vent>=25", "Hs>0.8", short/steep and onshore checks never fail an hour
      that the other checks pass. */
  lemma ReasonsEmptyIffSafe(m: HourMetrics, sectors: seq<(int, int)>)
    ensures Reasons(m, sectors) == [] <==> FamilySafe(m)
  {
    ReasonsUpToMembers(m, sectors, ChecksCount);
    assert CheckAt(0) == Storms && CheckAt(1) == GustNoGo && CheckAt(3) == WavesUnknown;
    assert CheckAt(5) == HsFamily && CheckAt(6) == TpLowAtHsLt04 && CheckAt(7) == TpLowAtHs04To05;
    assert CheckAt(10) == Squalls && CheckAt(12) == LowVisibility && CheckAt(13) == WindFamily;
  }

  /** With Hs or Tp unknown none of the six wave checks records anything. */
  lemma WaveChecksSkipped(m: HourMetrics, sectors: seq<(int, int)>)
    requires !WavesKnown(m)
    ensures ReasonsUpTo(m, sectors, 10) == ReasonsUpTo(m, sectors, 4)
  {
    assert ReasonsUpTo(m, sectors, 6) == ReasonsUpTo(m, sectors, 4);
    assert ReasonsUpTo(m, sectors, 8) == ReasonsUpTo(m, sectors, 6);
  }

  /** The checks of `hour_is_family_ok`, in the source's order: a failing
      check clears `ok` and appends its reason. */
  method CheckMetrics(m: HourMetrics, sectors: seq<(int, int)>) returns (ok: bool, reasons: seq<Reason>)
    ensures reasons == Reasons(m, sectors)
    ensures ok <==> reasons == []
  {
    reasons := [];
    ok := true;
    var failed := Fails(m, sectors, Storms);
    ok, reasons := ok && !failed, Add(reasons, failed, Storms);
    assert reasons == ReasonsUpTo(m, sectors, 1);
    failed := Fails(m, sectors, GustNoGo);
    ok, reasons := ok && !failed, Add(reasons, failed, GustNoGo);
    assert reasons == ReasonsUpTo(m, sectors, 2);
    failed := Fails(m, sectors, WindNoGo);
    ok, reasons := ok && !failed, Add(reasons, failed, WindNoGo);
    assert reasons == ReasonsUpTo(m, sectors, 3);
    failed := Fails(m, sectors, WavesUnknown);
    ok, reasons := ok && !failed, Add(reasons, failed, WavesUnknown);
    assert reasons == ReasonsUpTo(m, sectors, 4);
    failed := Fails(m, sectors, HsNoGo);
    ok, reasons := ok && !failed, Add(reasons, failed, HsNoGo);
    assert reasons == ReasonsUpTo(m, sectors, 5);
    failed := Fails(m, sectors, HsFamily);
    ok, reasons := ok && !failed, Add(reasons, failed, HsFamily);
    assert reasons == ReasonsUpTo(m, sectors, 6);
    failed := Fails(m, sectors, TpLowAtHsLt04);
    ok, reasons := ok && !failed, Add(reasons, failed, TpLowAtHsLt04);
    assert reasons == ReasonsUpTo(m, sectors, 7);
    failed := Fails(m, sectors, TpLowAtHs04To05);
    ok, reasons := ok && !failed, Add(reasons, failed, TpLowAtHs04To05);
    assert reasons == ReasonsUpTo(m, sectors, 8);
    failed := Fails(m, sectors, ShortSteep);
    ok, reasons := ok && !failed, Add(reasons, failed, ShortSteep);
    assert reasons == ReasonsUpTo(m, sectors, 9);
    failed := Fails(m, sectors, ShortSteepHard);
    ok, reasons := ok && !failed, Add(reasons, failed, ShortSteepHard);
    assert reasons == ReasonsUpTo(m, sectors, 10);
    failed := Fails(m, sectors, Squalls);
    ok, reasons := ok && !failed, Add(reasons, failed, Squalls);
    assert reasons == ReasonsUpTo(m, sectors, 11);
    failed := Fails(m, sectors, Onshore);
    ok, reasons := ok && !failed, Add(reasons, failed, Onshore);
    assert reasons == ReasonsUpTo(m, sectors, 12);
    failed := Fails(m, sectors, LowVisibility);
    ok, reasons := ok && !failed, Add(reasons, failed, LowVisibility);
    assert reasons == ReasonsUpTo(m, sectors, 13);
    failed := Fails(m, sectors, WindFamily);
    ok, reasons := ok && !failed, Add(reasons, failed, WindFamily);
    assert reasons == ReasonsUpTo(m, sectors, 14);
  }

  /** `hour_is_family_ok`: the worst-case metrics of the hour, then the checks
      against the site's onshore sectors. */
  method HourIsFamilyOk(site: Site, idx: nat) returns (ok: bool, reasons: seq<Reason>, m: HourMetrics)
    ensures m == MetricsAt(site, idx)
    ensures reasons == Reasons(m, OnshoreSectors(site.slug))
    ensures ok <==> reasons == []
    ensures ok <==> FamilySafe(m)
    ensures ok == FamilyOkAt(site, idx)
  {
    m := WorstMetricsAtHour(site, idx);
    var sectors := OnshoreSectors(site.slug);
    ok, reasons := CheckMetrics(m, sectors);
    ReasonsEmptyIffSafe(m, sectors);
  }

  /** The verdict alone, as detect_windows reads it (`ok, _ = hour_is_family_ok(...)`). */
  method HourVerdict(site: Site, idx: nat) returns (ok: bool)
    ensures ok == FamilyOkAt(site, idx)
  {
    var reasons, m;
    ok, reasons, m := HourIsFamilyOk(site, idx);
  }

  /** Fail-closed guarantees: a thunderstorm code or an unknown Hs or Tp fails
      the hour with its tag; a passing hour has Hs < 0.5, the period the
      matrix requires, gust < 30 and wind < 20 (or none). */
  lemma FailClosed(m: HourMetrics, sectors: seq<(int, int)>)
    ensures (exists k :: 0 <= k < |m.codes| && m.codes[k] in ThunderCodes) ==>
              Storms in Reasons(m, sectors) && !FamilySafe(m)
    ensures m.hs.None? || m.tp.None? ==> WavesUnknown in Reasons(m, sectors) && !FamilySafe(m)
    ensures Reasons(m, sectors) == [] ==>
      && m.hs.Some? && m.tp.Some? && m.hs.value < HsFamilyMax
      && (m.hs.value < 0.4 ==> m.tp.value >= TpMinAtLt04)
      && (0.4 <= m.hs.value ==> m.tp.value >= TpMinAt04To05)
      && (m.maxGust.None? || m.maxGust.value < GustNoGoMin)
      && (m.maxSpeed.None? || m.maxSpeed.value < WindFamilyMax)
  {
    HasThunderIff(m.codes);
    ReasonsEmptyIffSafe(m, sectors);
    ReasonsUpToMembers(m, sectors, ChecksCount);
    assert CheckAt(0) == Storms && CheckAt(3) == WavesUnknown;
  }

  // ---- confidence (reader.py:346-365) ----

  /** The speed spreads of the hours in [i0, end) that have one, in order. */
  function Spreads(site: Site, i0: nat, end: int): seq<real>
    decreases end - i0
  {
    if end <= i0 then []
    else
      var prev := Spreads(site, i0, end - 1);
      match MetricsAt(site, end - 1).spreadSpeed
      case Some(v) => prev + [v]
      case None => prev
  }

  /** The largest `n_models` over [i0, end) (0 for an empty range). */
  function MaxModels(site: Site, i0: nat, end: int): nat
    decreases end - i0
  {
    if end <= i0 then 0
    else
      var n := MaxModels(site, i0, end - 1);
      if MetricsAt(site, end - 1).nModels > n then MetricsAt(site, end - 1).nModels else n
  }

  /** How compute_confidence grades the largest model count and the
      spreads. With one wave feed the cap is always "Medium": a tight spread
      gives Medium and a moderate one is downgraded to Low. "The mean is
      below b" is stated without the division. */
  function GradeOf(nModels: nat, spreads: seq<real>): Grade {
    if nModels < 2 then Low
    else
      var cap := Medium;
      if MeanBelow(spreads, 5.0) then cap
      else if MeanBelow(spreads, 8.0) then (if cap == Medium then Low else Medium)
      else Low
  }

  /** What compute_confidence returns for the hours [i0, end). */
  function ConfidenceOf(site: Site, i0: nat, end: int): Grade {
    GradeOf(MaxModels(site, i0, end), Spreads(site, i0, end))
  }

  /** `compute_confidence(site, i0, i1)`: one pass over the hours of [i0, i1],
      then the grading of the mean spread. */
  method ComputeConfidence(site: Site, i0: nat, i1: int) returns (g: Grade)
    ensures g == ConfidenceOf(site, i0, i1 + 1)
  {
    hide MetricsAt;
    var spreads: seq<real> := [];
    var nModels := 0;
    if i0 <= i1 {
      for i := i0 to i1 + 1
        invariant spreads == Spreads(site, i0, i)
        invariant nModels == MaxModels(site, i0, i)
      {
        var m := WorstMetricsAtHour(site, i);
        if m.spreadSpeed.Some? {
          spreads := spreads + [m.spreadSpeed.value];
        }
        nModels := if m.nModels > nModels then m.nModels else nModels;
      }
    }
    if nModels < 2 {
      return Low;
    }
    if spreads != [] {
      MeanBelowIff(spreads, 5.0);
      MeanBelowIff(spreads, 8.0);
    }
    var cap := Medium;
    if spreads != [] && Mean(spreads) < 5.0 {
      return cap;
    }
    if spreads != [] && Mean(spreads) < 8.0 {
      return if cap == Medium then Low else Medium;
    }
    return Low;
  }

  /** The grade is never High; it is Low below two models, and Medium exactly
      when there are two models and the mean spread is below 5 km/h. */
  lemma ConfidenceGrades(site: Site, i0: nat, end: int)
    ensures ConfidenceOf(site, i0, end) != High
    ensures MaxModels(site, i0, end) < 2 ==> ConfidenceOf(site, i0, end) == Low
    ensures ConfidenceOf(site, i0, end) == Medium <==>
      MaxModels(site, i0, end) >= 2 && Spreads(site, i0, end) != []
      && Mean(Spreads(site, i0, end)) < 5.0
  {
    var s := Spreads(site, i0, end);
    if s != [] {
      MeanBelowIff(s, 5.0);
    }
  }

  /** Over a non-empty range the largest `n_models` is the site's model count. */
  lemma {:induction false} MaxModelsIsCount(site: Site, i0: nat, end: int)
    requires i0 < end
    ensures MaxModels(site, i0, end) == CountModels(site.windModels)
    decreases end - i0
  {
    if end - 1 > i0 {
      MaxModelsIsCount(site, i0, end - 1);
    }
  }

  /** A site with at most one wind model (as load_site builds, with only
      "om") always gets Low. */
  lemma SingleModelSiteIsLow(site: Site, i0: nat, end: int)
    requires |site.windModels| <= 1
    ensures ConfidenceOf(site, i0, end) == Low
  {
    SpeedsBoundedByModels(site.windModels, 0);
    if i0 < end {
      MaxModelsIsCount(site, i0, end);
    }
  }

  // ---- window scan (reader.py:368-421) ----

  function Min(a: int, b: int): int {
    if a <= b then a else b
  }

  /** The "reason" field of a window: the rules it passed, and whether it
      lies outside 08-21. */
  function ReasonText(c: Category): string {
    "valid_FAMILY_rules" + (if c == Family then "" else "_outside_08_21")
  }

  /** The window record built from the destination hours [first, end). */
  function WindowFor(dest: Site, first: nat, end: nat): Window
    requires first < end <= |dest.times|
  {
    var category := if AllInFamilyHours(dest.times[first..end]) then Family else OffHours;
    Window(
      start := dest.times[first],
      end := dest.times[end - 1] + 1,
      hours := end - first,
      confidence := ConfidenceOf(dest, first, end),
      category := category,
      reason := ReasonText(category))
  }

  /** What an admitted span satisfies: its length is within [minH, maxH] and
      it lies within both series; every destination hour passes; the home
      port passes at departure and at the last hour; and model "om" has wind
      data over the whole span at both sites. */
  predicate Admitted(home: Site, dest: Site, minH: int, maxH: int, s: Span) {
    && s.first < s.end <= Min(|dest.times|, |home.times|)
    && minH <= s.end - s.first <= maxH
    && (forall j :: s.first <= j < s.end ==> FamilyOkAt(dest, j))
    && FamilyOkAt(home, s.first) && FamilyOkAt(home, s.end - 1)
    && HasWindRange(dest, s.first, s.end - 1) && HasWindRange(home, s.first, s.end - 1)
  }

  /** The greedy extension stopped for a reason: end of data, the maximum
      length, or a failing destination hour right after the span. */
  predicate Maximal(home: Site, dest: Site, maxH: int, s: Span) {
    s.end == Min(|dest.times|, |home.times|) || s.end - s.first == maxH || !FamilyOkAt(dest, s.end)
  }

  /** What DetectWindows promises about each window and the span it was
      built from. */
  predicate Emitted(home: Site, dest: Site, minH: int, maxH: int, s: Span, w: Window) {
    && Admitted(home, dest, minH, maxH, s)
    && Maximal(home, dest, maxH, s)
    && s.first < s.end <= |dest.times|
    && w == WindowFor(dest, s.first, s.end)
  }

  /** Where the greedy extension from hour `i`, now at `e`, stops: at the
      first of the first `n` hours that fails, or after `maxH` hours. */
  function RunEndFrom(dest: Site, i: nat, e: nat, n: nat, maxH: int): nat
    requires i <= e <= n
    decreases n - e
  {
    if e < n && e - i < maxH && FamilyOkAt(dest, e) then RunEndFrom(dest, i, e + 1, n, maxH) else e
  }

  /** The end of the greedy run of detect_windows from hour `i`. */
  function RunEnd(dest: Site, i: nat, n: nat, maxH: int): nat
    requires i <= n
  {
    RunEndFrom(dest, i, i, n, maxH)
  }

  /** The run from `i` is the longest run of Family OK destination hours
      starting at `i`, of at most `maxH` hours, within the first `n`. */
  lemma {:induction false} RunEndFromIsLongest(dest: Site, i: nat, e: nat, n: nat, maxH: int)
    requires i <= e <= n && (e == i || e - i <= maxH)
    requires forall j :: i <= j < e ==> FamilyOkAt(dest, j)
    ensures var r := RunEndFrom(dest, i, e, n, maxH);
      && e <= r <= n && (r == i || r - i <= maxH)
      && (forall j :: i <= j < r ==> FamilyOkAt(dest, j))
      && (r == n || r - i >= maxH || !FamilyOkAt(dest, r))
    decreases n - e
  {
    hide FamilyOkAt;
    if e < n && e - i < maxH && FamilyOkAt(dest, e) {
      RunEndFromIsLongest(dest, i, e + 1, n, maxH);
    }
  }

  lemma RunEndIsLongest(dest: Site, i: nat, n: nat, maxH: int)
    requires i <= n
    ensures var r := RunEnd(dest, i, n, maxH);
      && i <= r <= n && (r == i || r - i <= maxH)
      && (forall j :: i <= j < r ==> FamilyOkAt(dest, j))
      && (r == n || r - i >= maxH || !FamilyOkAt(dest, r))
  {
    RunEndFromIsLongest(dest, i, i, n, maxH);
  }

  /** Any end with the three properties of the greedy run is the run's end. */
  lemma RunEndUnique(dest: Site, i: nat, n: nat, maxH: int, e: nat)
    requires i <= e <= n && (e == i || e - i <= maxH)
    requires forall j :: i <= j < e ==> FamilyOkAt(dest, j)
    requires e == n || e - i >= maxH || !FamilyOkAt(dest, e)
    ensures e == RunEnd(dest, i, n, maxH)
  {
    hide FamilyOkAt;
    RunEndIsLongest(dest, i, n, maxH);
  }

  /** The greedy extension of detect_windows from hour `i`: the longest run
      of Family OK destination hours starting at `i`, of at most `maxH`
      hours, within the first `n`. */
  method ExtendRun(dest: Site, i: nat, n: nat, maxH: int) returns (end: nat)
    requires i <= n
    ensures i <= end <= n && (end == i || end - i <= maxH)
    ensures forall j :: i <= j < end ==> FamilyOkAt(dest, j)
    ensures end == n || end - i >= maxH || !FamilyOkAt(dest, end)
    ensures end == RunEnd(dest, i, n, maxH)
  {
    hide FamilyOkAt;
    end := i;
    while end < n && end - i < maxH
      invariant i <= end <= n && (end == i || end - i <= maxH)
      invariant forall j :: i <= j < end ==> FamilyOkAt(dest, j)
      invariant RunEndFrom(dest, i, end, n, maxH) == RunEnd(dest, i, n, maxH)
      decreases n - end
    {
      var ok := HourVerdict(dest, end);
      if !ok {
        return;
      }
      end := end + 1;
    }
  }

  /** The window record detect_windows appends for the hours [first, last]. */
  method MakeWindow(dest: Site, first: nat, last: nat) returns (w: Window)
    requires first <= last < |dest.times|
    ensures w == WindowFor(dest, first, last + 1)
  {
    hide MetricsAt, ConfidenceOf;
    var windowTimes := dest.times[first..last + 1];
    var category := if AllInFamilyHours(windowTimes) then Family else OffHours;
    var confidence := ComputeConfidence(dest, first, last);
    w := Window(
      start := dest.times[first],
      end := dest.times[last] + 1,
      hours := last + 1 - first,
      confidence := confidence,
      category := category,
      reason := ReasonText(category));
  }

  /** Every window of `windows` satisfies Emitted with the span at the same
      position; stated by recursion on the last element, as the scan appends. */
  predicate AllEmitted(home: Site, dest: Site, minH: int, maxH: int, spans: seq<Span>, windows: seq<Window>)
    decreases |spans|
  {
    |spans| == |windows| &&
    (spans == [] ||
      (AllEmitted(home, dest, minH, maxH, spans[..|spans| - 1], windows[..|windows| - 1])
       && Emitted(home, dest, minH, maxH, spans[|spans| - 1], windows[|windows| - 1])))
  }

  lemma {:induction false} AllEmittedAt(home: Site, dest: Site, minH: int, maxH: int,
                                        spans: seq<Span>, windows: seq<Window>, k: nat)
    requires AllEmitted(home, dest, minH, maxH, spans, windows) && k < |spans|
    ensures Emitted(home, dest, minH, maxH, spans[k], windows[k])
    decreases |spans|
  {
    if k < |spans| - 1 {
      var ps, pw := spans[..|spans| - 1], windows[..|windows| - 1];
      AllEmittedAt(home, dest, minH, maxH, ps, pw, k);
      assert ps[k] == spans[k] && pw[k] == windows[k];
    }
  }

  /** Non-empty spans, each starting no earlier than the previous one ends;
      stated on the last element, as the scan appends. OrderedApart gives
      the property for any two spans. */
  predicate Ordered(spans: seq<Span>)
    decreases |spans|
  {
    spans == [] ||
      (Ordered(spans[..|spans| - 1])
       && spans[|spans| - 1].first < spans[|spans| - 1].end
       && (|spans| == 1 || spans[|spans| - 2].end <= spans[|spans| - 1].first))
  }

  lemma {:induction false} OrderedApart(spans: seq<Span>, k: nat, l: nat)
    requires Ordered(spans) && k < l < |spans|
    ensures spans[k].first < spans[k].end <= spans[l].first < spans[l].end
    decreases |spans|
  {
    var p := spans[..|spans| - 1];
    if l < |spans| - 1 {
      OrderedApart(p, k, l);
      assert p[k] == spans[k] && p[l] == spans[l];
    } else if k < |spans| - 2 {
      OrderedApart(p, k, |spans| - 2);
      assert p[k] == spans[k] && p[|spans| - 2] == spans[|spans| - 2];
    } else if |spans| >= 2 {
      assert |p| >= 1 && p[..|p| - 1] == p[..|p| - 1];
      assert p[|p| - 1] == spans[|spans| - 2];
    }
  }

  /** The facts the scan establishes before appending a window add up to
      Emitted. */
  lemma EmitSpan(home: Site, dest: Site, minH: int, maxH: int, n: nat, i: nat, end: nat, w: Window)
    requires n == Min(|dest.times|, |home.times|) && i < end <= n
    requires minH <= end - i <= maxH
    requires forall j :: i <= j < end ==> FamilyOkAt(dest, j)
    requires end == n || end - i == maxH || !FamilyOkAt(dest, end)
    requires FamilyOkAt(home, i) && FamilyOkAt(home, end - 1)
    requires HasWindRange(dest, i, end - 1) && HasWindRange(home, i, end - 1)
    requires w == WindowFor(dest, i, end)
    ensures Emitted(home, dest, minH, maxH, Span(i, end), w)
  {
    hide FamilyOkAt, WindowFor;
  }

  /** Hour `j` starts a window when the scan reaches it: the destination
      passes at `j` and the greedy run from `j` is admitted. */
  predicate Qualifies(home: Site, dest: Site, minH: int, maxH: int, j: nat) {
    var n := Min(|dest.times|, |home.times|);
    && j < n && FamilyOkAt(dest, j)
    && Admitted(home, dest, minH, maxH, Span(j, RunEnd(dest, j, n, maxH)))
  }

  /** Every emitted span is the greedy run from an hour that qualifies. */
  lemma EmittedIsGreedy(home: Site, dest: Site, minH: int, maxH: int, s: Span, w: Window)
    requires Emitted(home, dest, minH, maxH, s, w)
    ensures s.end == RunEnd(dest, s.first, Min(|dest.times|, |home.times|), maxH)
    ensures Qualifies(home, dest, minH, maxH, s.first)
  {
    hide FamilyOkAt, WindowFor, HasWindRange;
    RunEndUnique(dest, s.first, Min(|dest.times|, |home.times|), maxH, s.end);
  }

  /** Hour `j` lies strictly inside a span, so the scan jumped over it. */
  predicate Inside(spans: seq<Span>, j: nat) {
    exists k :: 0 <= k < |spans| && spans[k].first < j < spans[k].end
  }

  predicate IsStart(spans: seq<Span>, j: nat) {
    exists k :: 0 <= k < |spans| && spans[k].first == j
  }

  /** Every hour below `i` that qualifies and was not jumped over starts a
      span. */
  ghost predicate CompleteUpTo(home: Site, dest: Site, minH: int, maxH: int, spans: seq<Span>, i: nat) {
    forall j: nat :: j < i && Qualifies(home, dest, minH, maxH, j) && !Inside(spans, j) ==> IsStart(spans, j)
  }

  lemma CompleteStart(home: Site, dest: Site, minH: int, maxH: int)
    ensures CompleteUpTo(home, dest, minH, maxH, [], 0)
  {
  }

  /** Once the scan has passed every hour, completeness holds for all of them. */
  lemma CompleteAtEnd(home: Site, dest: Site, minH: int, maxH: int, spans: seq<Span>)
    requires CompleteUpTo(home, dest, minH, maxH, spans, Min(|dest.times|, |home.times|))
    ensures forall j: nat :: Qualifies(home, dest, minH, maxH, j) && !Inside(spans, j) ==> IsStart(spans, j)
  {
    hide FamilyOkAt, Admitted, RunEnd, Inside, IsStart;
  }

  lemma CompleteOnFound(home: Site, dest: Site, minH: int, maxH: int, spans: seq<Span>, i: nat, next: nat)
    requires CompleteUpTo(home, dest, minH, maxH, spans, i) && i < next
    ensures CompleteUpTo(home, dest, minH, maxH, spans + [Span(i, next)], next)
  {
    hide Qualifies;
    var spans' := spans + [Span(i, next)];
    assert spans'[|spans|] == Span(i, next);
    assert forall k :: 0 <= k < |spans| ==> spans'[k] == spans[k];
    forall j: nat | i < j < next
      ensures Inside(spans', j)
    {
      assert spans'[|spans|].first < j < spans'[|spans|].end;
    }
    forall j: nat | j <= i && Qualifies(home, dest, minH, maxH, j) && !Inside(spans', j)
      ensures IsStart(spans', j)
    {
      if j < i {
        assert !Inside(spans, j);
        var k :| 0 <= k < |spans| && spans[k].first == j;
        assert spans'[k].first == j;
      } else {
        assert spans'[|spans|].first == j;
      }
    }
  }

  lemma CompleteOnSkip(home: Site, dest: Site, minH: int, maxH: int, spans: seq<Span>, i: nat)
    requires CompleteUpTo(home, dest, minH, maxH, spans, i) && !Qualifies(home, dest, minH, maxH, i)
    ensures CompleteUpTo(home, dest, minH, maxH, spans, i + 1)
  {
    hide Qualifies;
  }

  /** One iteration of detect_windows' scan at hour `i` (of the first `n`):
      either a window over [i, next) is emitted, or the scan moves on to
      `i + 1`. */
  method ScanFrom(home: Site, dest: Site, minH: int, maxH: int, n: nat, i: nat)
    returns (next: nat, found: bool, w: Window)
    requires n == Min(|dest.times|, |home.times|) && i < n && (maxH >= 1 || minH >= 1)
    ensures i < next <= n
    ensures found <==> Qualifies(home, dest, minH, maxH, i)
    ensures found ==> next == RunEnd(dest, i, n, maxH) && Emitted(home, dest, minH, maxH, Span(i, next), w)
    ensures !found ==> next == i + 1
  {
    hide FamilyOkAt, MetricsAt, WindowFor, ConfidenceOf;
    next, found, w := i + 1, false, Window(0, 0, 0, Low, OffHours, "");
    var destOk := HourVerdict(dest, i);
    if !destOk {
      return;
    }
    var end := ExtendRun(dest, i, n, maxH);
    var length := end - i;
    if length >= minH {
      var depOk := HourVerdict(home, i);
      var retOk := HourVerdict(home, end - 1);
      if depOk && retOk {
        if !HasWindRange(dest, i, end - 1) || !HasWindRange(home, i, end - 1) {
          return;
        }
        w := MakeWindow(dest, i, end - 1);
        EmitSpan(home, dest, minH, maxH, n, i, end, w);
        next, found := end, true;
      }
    }
  }

  /** `detect_windows`. `spans` records, for each window, the destination
      index range it was built from. Requires a positive maximum or minimum
      length: with `maxH <= 0` and `minH <= 0` a zero-length run is admitted
      and the source can rescan the same index forever. */
  method DetectWindows(home: Site, dest: Site, minH: int, maxH: int)
    returns (windows: seq<Window>, spans: seq<Span>)
    requires maxH >= 1 || minH >= 1
    ensures |windows| == |spans|
    ensures forall k :: 0 <= k < |spans| ==> Emitted(home, dest, minH, maxH, spans[k], windows[k])
    ensures Ordered(spans)
    ensures forall j: nat :: Qualifies(home, dest, minH, maxH, j) && !Inside(spans, j) ==> IsStart(spans, j)
  {
    CompleteStart(home, dest, minH, maxH);
    hide FamilyOkAt, MetricsAt, WindowFor, ConfidenceOf, Qualifies, CompleteUpTo, Inside, IsStart;
    var n := Min(|dest.times|, |home.times|);
    windows, spans := [], [];
    var i := 0;
    while i < n
      invariant 0 <= i <= n
      invariant AllEmitted(home, dest, minH, maxH, spans, windows)
      invariant spans != [] ==> spans[|spans| - 1].end <= i
      invariant Ordered(spans)
      invariant CompleteUpTo(home, dest, minH, maxH, spans, i)
      decreases n - i
    {
      var next, found, w := ScanFrom(home, dest, minH, maxH, n, i);
      if found {
        var s := Span(i, next);
        CompleteOnFound(home, dest, minH, maxH, spans, i, next);
        assert (spans + [s])[..|spans|] == spans && (windows + [w])[..|windows|] == windows;
        windows := windows + [w];
        spans := spans + [s];
      } else {
        CompleteOnSkip(home, dest, minH, maxH, spans, i);
      }
      i := next;
    }
    forall k | 0 <= k < |spans| ensures Emitted(home, dest, minH, maxH, spans[k], windows[k]) {
      AllEmittedAt(home, dest, minH, maxH, spans, windows, k);
    }
    CompleteAtEnd(home, dest, minH, maxH, spans);
  }

  predicate StrictlyIncreasing(ts: seq<int>) {
    forall a, b :: 0 <= a < b < |ts| ==> ts[a] < ts[b]
  }

  /** Spans that come out of DetectWindows, as its postcondition describes them. */
  predicate ScanOutput(home: Site, dest: Site, minH: int, maxH: int, windows: seq<Window>, spans: seq<Span>) {
    && |windows| == |spans|
    && (forall k :: 0 <= k < |spans| ==>
         Admitted(home, dest, minH, maxH, spans[k]) && windows[k] == WindowFor(dest, spans[k].first, spans[k].end))
    && Ordered(spans)
  }

  /** With strictly increasing timestamps, each window starts before it ends,
      windows come in strictly increasing start order, and the intervals
      [start, end) do not overlap. */
  lemma WindowsDisjointInTime(home: Site, dest: Site, minH: int, maxH: int,
                                windows: seq<Window>, spans: seq<Span>)
    requires StrictlyIncreasing(dest.times)
    requires ScanOutput(home, dest, minH, maxH, windows, spans)
    ensures forall k :: 0 <= k < |windows| ==> windows[k].start < windows[k].end
    ensures forall k, l :: 0 <= k < l < |windows| ==>
      windows[k].start < windows[l].start && windows[k].end <= windows[l].start
  {
    hide FamilyOkAt, ConfidenceOf, AllInFamilyHours, HasWindRange;
    forall k | 0 <= k < |windows| ensures windows[k].start < windows[k].end {
      var s := spans[k];
      assert s.first <= s.end - 1;
      assert dest.times[s.first] <= dest.times[s.end - 1];
    }
    forall k, l | 0 <= k < l < |windows|
      ensures windows[k].start < windows[l].start && windows[k].end <= windows[l].start
    {
      var s, t := spans[k], spans[l];
      OrderedApart(spans, k, l);
      assert s.end - 1 < t.first;
      assert dest.times[s.end - 1] < dest.times[t.first];
      assert s.first < t.first;
    }
  }

  /** The record of an emitted window: it starts at the span's first hour,
      ends one hour after its last, counts its hours, is "family" exactly
      when every hour lies in [08:00, 21:00), and is never graded High. */
  lemma EmittedWindowFields(home: Site, dest: Site, minH: int, maxH: int, s: Span, w: Window)
    requires Emitted(home, dest, minH, maxH, s, w)
    ensures w.start == dest.times[s.first] && w.end == dest.times[s.end - 1] + 1
    ensures w.hours == s.end - s.first
    ensures w.category == Family <==>
      forall j :: s.first <= j < s.end ==> FamilyHourStart <= HourOfDay(dest.times[j]) < FamilyHourEnd
    ensures w.confidence != High
    ensures "valid_FAMILY_rules" <= w.reason && (w.reason == "valid_FAMILY_rules" <==> w.category == Family)
  {
    hide FamilyOkAt, HasWindRange, ConfidenceOf;
    var ts := dest.times[s.first..s.end];
    assert forall j :: s.first <= j < s.end ==> dest.times[j] == ts[j - s.first];
    assert forall k :: 0 <= k < |ts| ==> ts[k] == dest.times[s.first + k];
    ConfidenceGrades(dest, s.first, s.end);
  }

  /** A gap-free hourly axis: the k-th timestamp is k hours after the first. */
  predicate HourlySteps(ts: seq<int>) {
    forall j :: 0 <= j < |ts| ==> ts[j] == ts[0] + j
  }

  /** On a gap-free hourly axis a window's end minus its start is its length. */
  lemma WindowLengthMatchesTimes(home: Site, dest: Site, minH: int, maxH: int,
                                 windows: seq<Window>, spans: seq<Span>, k: nat)
    requires HourlySteps(dest.times)
    requires ScanOutput(home, dest, minH, maxH, windows, spans)
    requires k < |windows|
    ensures windows[k].end - windows[k].start == windows[k].hours
    ensures minH <= windows[k].hours <= maxH
  {
    hide FamilyOkAt, ConfidenceOf, AllInFamilyHours, HasWindRange;
    var s := spans[k];
    assert dest.times[s.end - 1] == dest.times[0] + (s.end - 1);
    assert dest.times[s.first] == dest.times[0] + s.first;
  }
}
