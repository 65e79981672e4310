# fable-collector: a verified model of the Family window reader and the collector helpers

fable-collector gathers hourly marine forecasts (Open-Meteo wind models,
wave height and period) for kayak and sailing spots around the Gulf of
Tunis. `reader.py` turns those forecasts into "Family" windows: spans of
4 to 6 consecutive hours in which every hour passes a cascade of safety
rules. The worst value among the wind models wins at each hour. The home
port must also be fine at departure and at return. Every window gets a
confidence grade and a category: "family" inside 08:00-21:00,
"off_hours" otherwise.

The other modelled files are:

- the collector (`main.py`), which cuts the hourly arrays to the forecast
  window and normalises spot names to slugs;
- the environment validation (`env_validation.py`): integer variables and
  the choice and expansion of the model list;
- the dotted-path rule lookup of `shared.py`;
- the slug migration script for `sites.yaml`;
- the Open-Meteo model probe (`tools/test_openmeteo_models.py`);
- the ICON/GFS agreement probe (`probe_gfs.py`).

The modules mirror those files:

| file | models |
|---|---|
| `reader.dfy` | `reader.py` |
| `collector.dfy` | `slugify`, `within_window`, `csv_to_set` and `slice_hourly` of `main.py` |
| `env_validation.dfy` | `env_validation.py` |
| `shared.dfy` | `shared.py` |
| `migrate_slugs.dfy` | `scripts/migrate_sites_add_slugs.py` |
| `openmeteo_models.dfy` | `tools/test_openmeteo_models.py` |
| `probe_gfs.dfy` | `probe_gfs.py` |
| `text.dfy`, `slugs.dfy`, `seqs.dfy`, `json.dfy`, `wrappers.dfy` | the Python built-ins the code relies on (`strip`, `split`, `join`, `lower`, `int`, `str`, the slug regular expressions, order-preserving de-duplication, `statistics.mean`, JSON values and their truthiness), plus `Option` and `Result` |

Conventions of the model:

- A Python exception is the `Err` case of a `Result`.
- A JSON `null` inside an hourly array is `None`.
- Outside `slice_hourly`, a missing array and a `null` array are both the
  empty sequence. The readers modelled that way guard their arrays with
  `or []` or a truthiness test, which treat the two alike.
- In `slice_hourly` a `null` array, or a `null` "hourly" block, makes the
  source raise. So `Collector.Hourly` holds each array as an `Option`
  (`None` is a `null` array), and `Collector.HourlyField` keeps a `null`
  block apart from a missing one.
- A timestamp is a local wall-clock hour number, so the hour of day is
  `t % 24` and one hour later is `t + 1`.
- Code that loops and updates variables is a `method`. Each such method is
  proved equal to a specification function, and the source's promises are
  lemmas about that function. Pure helpers are functions.

## Model

| member | source | states |
|---|---|---|
| Reader.AngleInRanges | reader.py:99-107 | true exactly when some sector contains the angle; a sector (a, b) with a > b wraps through north |
| Reader.OnshoreSectors | reader.py:110-144 | at least one sector with bounds in [0, 360]; a slug outside the known spots (after removing ".json" and lower-casing) gets the Bay of Tunis fallback 20-160 |
| Reader.HourOfDay | reader.py:154 | the local hour of a timestamp lies in [0, 24) |
| Reader.AllInFamilyHours | reader.py:147-157 | true exactly when every timestamp's hour lies in [08, 21) |
| Reader.LookupModel | reader.py:162 | a found model is registered under the name; no model is found only when no entry has that name |
| Reader.TruncateAll | reader.py:264-268 | `int()` applied to each weather code keeps one code per reported value |
| Reader.ModelStep | reader.py:249-270 | one more model appends its value of each field at the hour (when present), its truncated weather code, and counts towards `n_models` when its speed array is non-empty |
| Reader.SeqMaxIsMax | reader.py:278-280 | `max` is an element of the list and no element exceeds it |
| Reader.SeqMinIsMin | reader.py:279-283 | `min` is an element of the list and no element is below it |
| Reader.WorstMetricsAtHour | reader.py:241-288 | the loop over the wind models computes the per-hour worst-value metrics `MetricsAt` |
| Reader.ReportedEmptyIff | reader.py:256-263 | the values collected for a field are empty exactly when no model reports that field at the hour |
| Reader.ReportedFirst | reader.py:260-282 | the first collected value comes from the first model that reports the field |
| Reader.MetricsAbsentIff | reader.py:277-288 | max speed, max gust, direction and min visibility are `None` exactly when no model reports them; the direction is that of the first model reporting one |
| Reader.MetricsSpeedOrder | reader.py:278-281 | with speeds, min <= max; a spread exists exactly when at least two speeds are reported, and it equals max - min >= 0 |
| Reader.SpeedsBoundedByModels | reader.py:256-270 | at most one speed per model with a speed array: speeds <= `n_models` <= number of models |
| Reader.SingleModelMetrics | reader.py:269-281 | a site with only the "om" model (as load_site builds it) has `n_models <= 1` and never a speed spread |
| Reader.WindRangeGivesWindMetrics | reader.py:160-171 | when "om" has speed, gust and direction over [i0, i1], every hour of that range has a max speed, a max gust and a direction |
| Reader.HasThunderIff | reader.py:297 | the thunder test holds exactly when some weather code is 95, 96 or 99 |
| Reader.ReasonsUpToMembers | reader.py:291-343 | after the first n checks a reason is recorded exactly when its check fails; no reason means none of them failed |
| Reader.ReasonsEmptyIffSafe | reader.py:291-343 | no reason is recorded exactly when the hour is safe: no storm, gust < 30, wind < 20, Hs and Tp known, Hs < 0.5, Tp at least the matrix minimum, no squall, visibility >= 5 km when known |
| Reader.WaveChecksSkipped | reader.py:305-323 | with Hs or Tp unknown none of the six wave checks records anything |
| Reader.CheckMetrics | reader.py:293-341 | the cascade records its reasons in the source's order, and `ok` is true exactly when none is recorded |
| Reader.HourIsFamilyOk | reader.py:291-343 | the metrics are those of the hour, the reasons come from the site's onshore sectors, and `ok` holds exactly when no reason is recorded, that is when the hour is safe |
| Reader.HourVerdict | reader.py:377-384 | the verdict alone, as `detect_windows` reads it, is the Family-OK predicate of the hour |
| Reader.TagTextInjective | reader.py:298-341 | distinct failed checks append distinct tags, so the tags name the checks that failed |
| Reader.FailClosed | reader.py:297-341 | a thunder code or an unknown Hs or Tp always fails with its tag; a passing hour has Hs < 0.5, the period the matrix requires, gust < 30 and wind < 20 |
| Reader.ComputeConfidence | reader.py:346-365 | the pass over [i0, i1] computes the grade of the hours' spreads and largest `n_models` |
| Reader.ConfidenceGrades | reader.py:356-365 | the grade is never High; it is Low below two models, and Medium exactly when there are two or more models, some hour has a spread, and the mean spread is below 5 km/h |
| Reader.MaxModelsIsCount | reader.py:350-354 | over a non-empty range the largest `n_models` is the number of models with a speed array |
| Reader.SingleModelSiteIsLow | reader.py:346-357 | a site with at most one wind model always gets Low |
| Reader.RunEndIsLongest | reader.py:382-387 | the greedy run stays within the data and the maximum length, every hour it covers is OK, and it stops only at the end of the data, at the maximum length or before a failing hour |
| Reader.RunEndUnique | reader.py:382-387 | any end with those three properties is the greedy run's end |
| Reader.ExtendRun | reader.py:382-387 | the loop returns the greedy run's end, and so it has the properties above |
| Reader.MakeWindow | reader.py:400-415 | the appended record is the window of the destination hours [first, last] |
| Reader.ScanFrom | reader.py:376-419 | one pass of the outer loop always advances. It emits a window exactly when the destination passes at `i` and the greedy run from `i` is admitted (length within bounds, every destination hour OK, port OK at departure and return, wind data complete). The window then covers that run and the scan resumes at its end; otherwise it resumes at `i + 1` |
| Reader.DetectWindows | reader.py:368-421 | every window comes from an admitted, maximal span of destination hours, and the spans are in increasing order and do not overlap. Every hour that qualifies and lies strictly inside no span starts a span |
| Reader.EmittedIsGreedy | reader.py:382-419 | every emitted span is the greedy run from its first hour, and that hour qualifies |
| Reader.OrderedApart | reader.py:416 | any two emitted spans are disjoint and in order |
| Reader.WindowsDisjointInTime | reader.py:405-416 | with increasing timestamps each window starts before it ends, and the windows' [start, end) intervals are in order and do not overlap |
| Reader.EmittedWindowFields | reader.py:400-414 | a window starts at its first hour and ends one hour after its last, counts its hours, is "family" exactly when every hour lies in [08, 21), is never graded High, and its reason is "valid_FAMILY_rules", with "_outside_08_21" appended exactly when it is not "family" |
| Reader.WindowLengthMatchesTimes | reader.py:389-411 | on a gap-free hourly axis end - start equals the window's hours, which lie between min_h and max_h |
| Collector.SlugifyValid | main.py:49-56 | a slug has only `[a-z0-9-]`, no '-' at either end and no "--" |
| Collector.SlugifyFixesValid | main.py:49-56 | a well-formed slug is its own slug |
| Collector.SlugifyIdempotent | main.py:49-56 | slugifying a slug changes nothing |
| Collector.CsvToSet | main.py:97-100 | `None` exactly for the empty string; otherwise exactly the slugs of the stripped non-blank parts, all well formed |
| Collector.CsvToSetJoin | main.py:97-100 | a comma-joined list of well-formed, non-empty slugs reads back as the set of those slugs |
| Collector.InWindowIsFilter | main.py:89-95 | the indices kept are increasing, each time lies in [start, end), and every index whose time lies there is kept |
| Collector.SliceColumnAligned | main.py:260-262 | a column requested once has one entry per kept time, the value at that time's index or `None` past the array's end |
| Collector.SliceColumnLength | main.py:260-262 | a key listed c times gets c entries per kept time |
| Collector.EmptyColumns | main.py:251-252 | the output has an empty list for exactly the requested keys |
| Collector.AppendRow | main.py:260-262 | fails exactly when a requested array is `null`; otherwise each requested key gets the value at the index (or `None`) appended once per occurrence of the key |
| Collector.SliceHourly | main.py:242-263 | an error exactly when "hourly" is `null`, or when some time lies in the window and a requested array is `null`; otherwise the output's times are the window's times in order, and each requested key holds its aligned slice |
| Collector.SliceOfEmpty | main.py:253-254 | without times every output list is empty |
| Collector.SliceOfAligned | main.py:257-262 | with distinct keys each column is as long as the time list, and position j holds the value of the source index whose time is the j-th kept time, which lies in the window |
| EnvValidation.GetVar | env_validation.py:14-16 | the variable's value when it is set and not blank, the default otherwise |
| EnvValidation.ParseIntVar | env_validation.py:22-34 | the default when unset or blank; an error when `int()` fails or the value is out of bounds; the integer otherwise |
| EnvValidation.ParseIntVarShow | env_validation.py:22-34 | a variable holding an integer within the bounds reads back as that integer |
| EnvValidation.MaybeIntVar | env_validation.py:36-42 | `None` unless the variable is set to digits only; digits are parsed as `_parse_int` does, so an integer it returns lies within the bounds and out-of-bounds digits are an error |
| EnvValidation.NonBlank | env_validation.py:53 | no longer than the input; a string is in the result exactly when it is the non-empty stripped form of some part |
| EnvValidation.NonBlankKeepsClean | env_validation.py:53 | parts already stripped and non-blank are kept as they are, in order |
| EnvValidation.Unknown | env_validation.py:63 | empty exactly when every model is valid |
| EnvValidation.ExpandAliases | env_validation.py:54-56 | the loop replaces each alias by its model list and keeps other names |
| EnvValidation.ExpandModels | env_validation.py:52-66 | split, strip, drop blanks, expand aliases, keep first occurrences, fail on unknown models |
| EnvValidation.ExpandSpecProperties | env_validation.py:52-66 | succeeds exactly when every expanded name is a valid model; the result holds each expanded name once, in order of first occurrence |
| EnvValidation.ExpandAllMembers | env_validation.py:55-56 | a name that is not an alias is kept; an alias brings all its models |
| EnvValidation.DedupeNames | env_validation.py:58-62 | de-duplication keeps every name once, in order of first occurrence |
| EnvValidation.ExpandDefault | env_validation.py:87 | "default" expands to ecmwf_ifs04, icon_seamless, gfs_seamless |
| EnvValidation.ExpandOneAlias | env_validation.py:52-66 | a single alias with distinct valid models expands to exactly those models |
| EnvValidation.ModelSource | env_validation.py:77-83 | the chosen variable is usable and is one of the three names; no variable is chosen exactly when none is usable |
| EnvValidation.DetectModels | env_validation.py:68-87 | the loop takes the first usable variable by priority and expands it, or falls back to "alias:default" |
| EnvValidation.DetectFallbacks | env_validation.py:77-87 | with no usable variable the result is the default models with "alias:default"; a numeric FABLE_PARALLEL_MODELS is never used as a list; a usable FABLE_MODEL_ORDER always wins; otherwise a usable FABLE_MODELS wins; FABLE_PARALLEL_MODELS is chosen exactly when it is usable and neither of the others is |
| Shared.DGet | shared.py:14-20 | the loop walks `dct or {}` along the dotted path and returns the default at the first missing step |
| Shared.LookupWalk | shared.py:16-20 | the value at the full path when every segment exists, the default otherwise |
| Shared.LookupStops | shared.py:17-18 | a non-dict or a missing key along the way gives the default, whatever follows |
| Shared.DGetNest | shared.py:14-20 | a value stored under a dotted path reads back |
| Shared.DGetFalsy | shared.py:15 | with no rules every lookup gives the default |
| Shared.Cleaned | shared.py:26 | iterating a number or a boolean raises; every kept name ends in ".json" |
| Shared.CleanedItems | shared.py:26 | a name is kept exactly when some string element, stripped, ends in ".json" |
| Shared.GetNonSpotJson | shared.py:22-28 | the defaults are always included, and every extra name ends in ".json"; it fails exactly when the configured value is a number or a boolean |
| Shared.NoExtraGivesDefaults | shared.py:24-28 | without rules or without "artifacts" the set is exactly the defaults |
| Shared.ListedNameIncluded | shared.py:24-28 | whatever else the rules hold, when `artifacts.non_spot_json` is a list, each listed name that ends in ".json" once stripped is included, stripped |
| MigrateSlugs.ReplaceAmp | scripts/migrate_sites_add_slugs.py:20 | a string without '&' is unchanged |
| MigrateSlugs.KeepSlugChars | scripts/migrate_sites_add_slugs.py:22 | the result has only `[a-z0-9-]`, and a string of those is unchanged |
| MigrateSlugs.MigrateSlugifyValid | scripts/migrate_sites_add_slugs.py:16-24 | the slug is well formed and never empty |
| MigrateSlugs.MigrateSlugifyFixesValid | scripts/migrate_sites_add_slugs.py:16-24 | a well-formed, non-empty slug is its own slug |
| MigrateSlugs.MigrateSlugifyIdempotent | scripts/migrate_sites_add_slugs.py:16-24 | slugifying a slug changes nothing |
| MigrateSlugs.CandidateInjective | scripts/migrate_sites_add_slugs.py:32-37 | different attempts give different slugs |
| MigrateSlugs.CandidateValid | scripts/migrate_sites_add_slugs.py:36 | `base-k` is well formed when `base` is |
| MigrateSlugs.CandidatesBound | scripts/migrate_sites_add_slugs.py:35-37 | n attempts all taken means `seen` has at least n slugs, so the search ends |
| MigrateSlugs.FreeFrom | scripts/migrate_sites_add_slugs.py:35-37 | the attempt found is not in `seen`, and every earlier attempt is |
| MigrateSlugs.FreeSlug | scripts/migrate_sites_add_slugs.py:32-37 | the slug is not in `seen`, and is `base` itself when that is free |
| MigrateSlugs.FindFreeSlug | scripts/migrate_sites_add_slugs.py:32-37 | the `while slug in seen` loop settles on the first free attempt |
| MigrateSlugs.NameOf | scripts/migrate_sites_add_slugs.py:31 | a missing name is `site-<i>`; a name that is not a string raises |
| MigrateSlugs.FillRow | scripts/migrate_sites_add_slugs.py:30-38 | the row always ends with a slug; it raises exactly when it needs a slug and its name is not a string |
| MigrateSlugs.FillRowProperties | scripts/migrate_sites_add_slugs.py:30-38 | a row with a non-blank slug is unchanged; otherwise only "slug" changes, to a well-formed slug not yet seen |
| MigrateSlugs.FillOne | scripts/migrate_sites_add_slugs.py:30-39 | the loop body gives the filled row or the exception |
| MigrateSlugs.FillSlugs | scripts/migrate_sites_add_slugs.py:29-39 | the in-place loop over the rows succeeds exactly when the fill does, and leaves the filled rows |
| MigrateSlugs.FillLength | scripts/migrate_sites_add_slugs.py:29-39 | a successful fill keeps the number of rows |
| MigrateSlugs.FillRowsAt | scripts/migrate_sites_add_slugs.py:29-39 | row j of the result is row j after the loop body, with the slugs of the earlier rows as `seen` |
| MigrateSlugs.FillSpecProperties | scripts/migrate_sites_add_slugs.py:29-39 | rows keep their number, rows with a slug are untouched, and a generated slug is well formed and differs from every earlier row's slug |
| MigrateSlugs.FillChoosesFirstFree | scripts/migrate_sites_add_slugs.py:31-38 | a generated slug is `base` or `base-k` for the first attempt not used by an earlier row |
| MigrateSlugs.DuplicateSlugExample | scripts/migrate_sites_add_slugs.py:29-39 | a row named a without a slug, followed by a row whose slug is a, ends with both rows having slug a |
| MigrateSlugs.FillUniqueDistinct | scripts/migrate_sites_add_slugs.py:29-39 | with `seen` seeded from the existing slugs, a generated slug differs from every other row's slug |
| OpenMeteoModels.AliasesOf | tools/test_openmeteo_models.py:34 | a name that is not an alias maps to itself |
| OpenMeteoModels.KeyOf | tools/test_openmeteo_models.py:35 | the key is never empty: a name, or "default" for `None` or "" |
| OpenMeteoModels.AddAliases | tools/test_openmeteo_models.py:34-37 | the inner loop extends the de-duplicated aliases offered so far with the new ones, keeping `seen` equal to their keys |
| OpenMeteoModels.ExpandModels | tools/test_openmeteo_models.py:30-38 | the loops compute the expanded aliases, keeping the first of each key |
| OpenMeteoModels.ExpandSpecProperties | tools/test_openmeteo_models.py:30-38 | no two results share a key, every key of the expansion occurs, and results come in order of first occurrence |
| OpenMeteoModels.ExpandDefault | tools/test_openmeteo_models.py:27-37 | "default" yields only "default": its `None` alias has the already seen key "default" |
| OpenMeteoModels.UnknownPassThrough | tools/test_openmeteo_models.py:30-38 | names that are neither aliases nor empty pass through, each at its first occurrence |
| OpenMeteoModels.HourlyKeys | tools/test_openmeteo_models.py:62 | the requested variables when there are some, and never empty |
| OpenMeteoModels.ForecastModelsParam | tools/test_openmeteo_models.py:68-69 | "models" is sent, with the model's name, exactly when a model other than "default" is set |
| OpenMeteoModels.ForecastDailyHourlyParams | tools/test_openmeteo_models.py:56-67 | "daily" is sent exactly when asked for; "hourly" joins the variables (or ECMWF_KEYS) with commas; there are 8 fixed parameters plus the optional ones |
| OpenMeteoModels.ForecastParamsDistinct | tools/test_openmeteo_models.py:56-69 | no parameter name repeats |
| OpenMeteoModels.HourlyRoundTrip | tools/test_openmeteo_models.py:62 | the "hourly" value splits back into the requested variables when none contains a comma |
| OpenMeteoModels.PayloadOk | tools/test_openmeteo_models.py:85-86 | accepted exactly when the payload has a non-empty hourly time list |
| OpenMeteoModels.HasWindArrays | tools/test_openmeteo_models.py:88-93 | raises exactly when the payload, or its "hourly" value, is true but not a dict |
| OpenMeteoModels.HasWindArraysIff | tools/test_openmeteo_models.py:88-93 | for an accepted payload: true exactly when both wind speed and gust are lists with a non-null value |
| OpenMeteoModels.SeriesOf | tools/test_openmeteo_models.py:90-92 | `_has(key)` holds exactly when the series is a list with a non-null value |
| ProbeGfs.Dist | probe_gfs.py:97-99 | a distance exists exactly when both times are finite, and it is non-negative |
| ProbeGfs.Nearest | probe_gfs.py:93-102 | -1 or an index whose distance is below `10**20` |
| ProbeGfs.NearestIdx | probe_gfs.py:93-102 | the strict `<` scan computes the nearest index |
| ProbeGfs.NearestIsFirstMinimum | probe_gfs.py:93-102 | -1 exactly when no time is a candidate; otherwise the first index of minimal distance |
| ProbeGfs.NearestNoStart | probe_gfs.py:94-99 | without a finite start time the result is -1 |
| ProbeGfs.Mod360 | probe_gfs.py:108 | Python's float `% 360.0`: in [0, 360), differing from x by whole turns |
| ProbeGfs.CircDiff | probe_gfs.py:104-111 | `None` exactly when a bearing is missing; otherwise in [0, 180] |
| ProbeGfs.CircDiffSymmetric | probe_gfs.py:104-111 | the spread does not depend on the order of the bearings |
| ProbeGfs.CircDiffTurn | probe_gfs.py:104-111 | bearings a whole number of turns apart have no spread |
| ProbeGfs.PySlice | probe_gfs.py:119 | Python slicing: never longer than the list, the plain slice for in-range bounds |
| ProbeGfs.WindowSliceBound | probe_gfs.py:113-120 | each list of the window has at most n entries, and the times are `time[i0:min(L, i0 + n)]` when i0 is an index |
| ProbeGfs.PairDiffs | probe_gfs.py:138-143 | at most one non-negative difference per compared position |
| ProbeGfs.DirDiffs | probe_gfs.py:144-146 | at most one spread in [0, 180] per compared position |
| ProbeGfs.PairDiffsEmpty | probe_gfs.py:138-143 | no difference exactly when no position has both values |
| ProbeGfs.Avg | probe_gfs.py:148-150 | `None` exactly for no values |
| ProbeGfs.MeanWithin | probe_gfs.py:148-150 | a mean lies between bounds that hold for every value |
| ProbeGfs.ConfOf | probe_gfs.py:156-164 | no grade without a wind average; "high", "medium" and "low" exactly under the thresholds 5/8/30 and 10/15 |
| ProbeGfs.ConfMonotone | probe_gfs.py:157-164 | smaller or missing averages never lower the suggested confidence |
| ProbeGfs.Agreement | probe_gfs.py:122-172 | the loop over the compared hours computes the agreement report |
| ProbeGfs.AgreementProperties | probe_gfs.py:122-172 | `None` exactly when a start index is missing; the points compared fit both windows and the hours; no grade exactly when no hour has both wind speeds; averages are non-negative and direction spread lies in [0, 180] |
| Text.JoinSplit | env_validation.py:53 | joining the parts of `split` gives the string back |
| Text.SplitJoin | tools/test_openmeteo_models.py:62 | splitting a join gives the parts back when no part holds the separator |
| Text.ParseShowInt | env_validation.py:27 | `int(str(n)) == n` |
| Seqs.DedupeLoop | env_validation.py:58-62 | the `seen`/`out` loop keeps the first element of each key |
| Seqs.DedupeByFirstOccurrences | env_validation.py:58-62 | each kept element is the first occurrence of its key, in order |
| Seqs.DedupeByDistinct | env_validation.py:58-62 | a list whose keys are distinct is unchanged |
| Seqs.MeanBelowIff | reader.py:359-363 | the mean is below b exactly when the sum is below b times the count |
| Slugs.StripDashesValid | main.py:54-55 | stripping the dashes of slug characters without "--" gives a well-formed slug |

## Left out

- Reading and writing files is not modelled: `load_site`, the `run` and `main` entry points of `reader.py`, the YAML load and dump of the migration script, and the JSON output. Sites enter the model as values.
- `validate_env` and `_parse_tz` are not part of this model: they exit the process or consult the time zone database.
- The HTTP fetches, the retry back-off (sleeping, randomness), `urlencode` and the URL strings are not modelled. The forecast parameters are modelled as a sequence of name and value pairs.
- Formatting and parsing of dates and numbers are not modelled: `f"{lat:.5f}"`, `isoformat`, `fromisoformat`, and `to_ts`. The times enter as numbers, or `None` where `to_ts` gives NaN. The time zone conversion of `load_site` is not modelled either: hours are local wall-clock numbers.
- `round` in the agreement report is not modelled; the report holds the exact averages.
- `statistics.mean` and `sum(xs)/len(xs)` are exact means over reals; floating-point rounding, NaN and infinity are not modelled.
- Hourly values are numbers or `null`. A non-numeric value that would make `float()` or `max()` raise is not modelled.
- Only ASCII text is modelled. `unicodedata.normalize("NFKD")` in `main.py` and `unidecode` in the migration script are taken to be the identity, and `lower` and `strip` act on ASCII characters.
- The visibility conversion from metres to km in `load_site` (reader.py:203-209) is not modelled; visibility enters in km.
- Reader.DetectWindows: requires max_h >= 1 or min_h >= 1. Otherwise, at an OK hour, a zero-length run can be appended without advancing `i`. This happens when the home port passes at `i` and at `i - 1` and the wind data is complete (reader.py:390-399), and then the source's loop can fail to terminate.
- Reader.ScanFrom: requires max_h >= 1 or min_h >= 1, for the same reason.
- Collector.SliceHourly: requires that "time" is not among the requested keys. Otherwise `out["time"]` would be both the time axis and a requested column in the source's dict.
- ProbeGfs.WindowSliceBound: requires n >= 0. With a negative width the lists can still be non-empty (a negative slice end counts from the end of the list), so no bound by n holds.
- MigrateSlugs.FillSlugs: the rows are a value array of maps, so the aliasing of row dicts shared between rows in the YAML document is not modelled.

## Findings

| source | as written | input that shows it | evidently intended | confidence | as-written member | corrected member |
|---|---|---|---|---|---|---|
| scripts/migrate_sites_add_slugs.py:29-39 | `seen` starts empty and only grows with the rows already visited, so a generated slug is checked only against EARLIER rows' slugs | a first row `name: a` without a slug, followed by a row with `slug: a`: both rows end with slug `a` | every site's slug is unique ("ensure uniqueness"): `seen` seeded with the slugs rows already have | not executed | MigrateSlugs.DuplicateSlugExample | MigrateSlugs.FillUniqueDistinct |
