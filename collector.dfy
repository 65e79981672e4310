/** The pure helpers of the collector script main.py: its slugifier, the
    comma-separated site filter, and the slicing of Open-Meteo hourly arrays
    to a half-open time window. Timestamps are abstract ordered values
    (integers); parsing ISO strings is outside the model. */
module Collector {
  import opened Wrappers
  import opened Text
  import opened Slugs

  // ---- slugify (main.py:49-56) ----

  /** `slugify`: lower case, every run of characters outside `[a-z0-9]`
      becomes '-', dashes stripped from both ends, then runs of '-'
      collapsed. */
  function Slugify(name: string): string {
    CollapseDashes(StripDashes(SquashRuns(Lower(name), NotAlnum)))
  }

  /** The slug is well formed: `[a-z0-9-]` only, no '-' at either end, no "--". */
  lemma SlugifyValid(name: string)
    ensures ValidSlug(Slugify(name))
  {
    var a := SquashRuns(Lower(name), NotAlnum);
    SquashRunsShape(Lower(name), NotAlnum);
    StripDashesValid(a);
    SquashRunsKeepsDashes(StripDashes(a), Dashes);
  }

  /** A well-formed slug is its own slug. */
  lemma SlugifyFixesValid(s: string)
    requires ValidSlug(s)
    ensures Slugify(s) == s
  {
    var l := Lower(s);
    assert forall i :: 0 <= i < |s| ==> l[i] == s[i];
    assert l == s;
    SquashRunsKeepsDashes(s, NotAlnum);
    assert StripDashes(s) == s;
    SquashRunsKeepsDashes(s, Dashes);
  }

  lemma SlugifyIdempotent(name: string)
    ensures Slugify(Slugify(name)) == Slugify(name)
  {
    SlugifyValid(name);
    SlugifyFixesValid(Slugify(name));
  }

  // ---- csv_to_set (main.py:97-100) ----

  /** `csv_to_set`: `None` for the empty string, otherwise the slugs of the
      non-blank comma-separated parts. */
  function CsvToSet(s: string): (r: Option<set<string>>)
    ensures r.None? <==> s == ""
    ensures r.Some? ==> forall x :: x in r.value ==> ValidSlug(x)
    ensures r.Some? ==> forall p :: p in Split(s, ',') && Strip(p) != "" ==> Slugify(Strip(p)) in r.value
    ensures r.Some? ==> forall x :: x in r.value ==>
      exists p :: p in Split(s, ',') && Strip(p) != "" && x == Slugify(Strip(p))
  {
    if s == "" then None
    else
      var r := set p | p in Split(s, ',') && Strip(p) != "" :: Slugify(Strip(p));
      assert forall x :: x in r ==> ValidSlug(x) by {
        forall x | x in r ensures ValidSlug(x) {
          var p :| p in Split(s, ',') && Strip(p) != "" && Slugify(Strip(p)) == x;
          SlugifyValid(Strip(p));
        }
      }
      Some(r)
  }

  /** A well-formed slug has no surrounding blanks. */
  lemma StripSlug(p: string)
    requires ValidSlug(p)
    ensures Strip(p) == p
  {
    hide TrimStart, TrimEnd;
    if p != [] {
      assert IsSlugChar(p[0]) && IsSlugChar(p[|p| - 1]);
    }
  }

  /** No slug character is a comma. */
  lemma NoCommaInSlug(p: string)
    requires ValidSlug(p)
    ensures ',' !in p
  {
    forall i | 0 <= i < |p| ensures p[i] != ',' {
      assert IsSlugChar(p[i]);
    }
  }

  /** A join whose first part is non-empty is non-empty. */
  lemma JoinNonEmpty(parts: seq<string>, sep: char)
    requires |parts| >= 1 && parts[0] != ""
    ensures Join(parts, sep) != ""
  {
    assert |Join(parts, sep)| >= |parts[0]|;
  }

  /** Parsing a comma-joined list of well-formed, non-empty slugs gives the
      set of those slugs. */
  lemma CsvToSetJoin(slugs: seq<string>)
    requires |slugs| >= 1
    requires forall p :: p in slugs ==> ValidSlug(p) && p != ""
    ensures CsvToSet(Join(slugs, ',')) == Some(set p | p in slugs)
  {
    hide Split, Join, Slugify, Strip, ValidSlug;
    var joined := Join(slugs, ',');
    assert slugs[0] in slugs;
    JoinNonEmpty(slugs, ',');
    forall p | p in slugs ensures ',' !in p && Strip(p) == p && Slugify(p) == p {
      NoCommaInSlug(p);
      StripSlug(p);
      SlugifyFixesValid(p);
    }
    SplitJoin(slugs, ',');
    var r := set p | p in Split(joined, ',') && Strip(p) != "" :: Slugify(Strip(p));
    assert CsvToSet(joined) == Some(r);
    assert r == set p | p in slugs;
  }

  // ---- slice_hourly (main.py:89-95, 242-263) ----

  /** `within_window`: the half-open window [start, end). */
  predicate WithinWindow(t: int, start: int, end: int) {
    start <= t && t < end
  }

  /** One hourly array; `None` is a JSON null. */
  type Column = seq<Option<real>>

  /** The "hourly" block of a payload: the time axis and the other arrays by
      key, where an array that is `None` is a JSON null. A missing or null
      "time" is the empty axis: `not times` holds for both. */
  datatype Hourly = Hourly(time: seq<int>, columns: map<string, Option<Column>>)

  /** The "hourly" member of a payload: missing (read as `{}`), a JSON null,
      or a block. */
  datatype HourlyField = Missing | JsonNull | Present(block: Hourly)

  /** The block slice_hourly reads when it does not raise. */
  function BlockOf(f: HourlyField): Hourly {
    if f.Present? then f.block else Hourly([], map[])
  }

  /** No requested key names a null array. */
  predicate NullFree(h: Hourly, keys: seq<string>) {
    forall k :: k in keys && k in h.columns ==> h.columns[k].Some?
  }

  /** The result of slice_hourly: `out["time"]` and `out[k]` for each key. */
  datatype Sliced = Sliced(time: seq<int>, columns: map<string, Column>)

  /** `arr[i] if i < len(arr) else None` with `arr = h.get(k, [])`. */
  function At(h: Hourly, k: string, i: nat): Option<real> {
    if k in h.columns && h.columns[k].Some? && i < |h.columns[k].value| then h.columns[k].value[i]
    else None
  }

  /** The indices below `n` whose time lies in the window, in order. */
  function InWindow(times: seq<int>, start: int, end: int, n: nat): seq<nat>
    requires n <= |times|
  {
    if n == 0 then []
    else
      var prev := InWindow(times, start, end, n - 1);
      if WithinWindow(times[n - 1], start, end) then prev + [n - 1] else prev
  }

  /** The times at the given indices. */
  function TimesAt(times: seq<int>, idxs: seq<nat>): seq<int>
    requires forall j :: 0 <= j < |idxs| ==> idxs[j] < |times|
  {
    seq(|idxs|, j requires 0 <= j < |idxs| => times[idxs[j]])
  }

  /** How many times `k` occurs in `keys`. */
  function Count(keys: seq<string>, k: string): nat {
    if keys == [] then 0
    else Count(keys[..|keys| - 1], k) + (if keys[|keys| - 1] == k then 1 else 0)
  }

  /** `c` copies of `v`. */
  function Rep(v: Option<real>, c: nat): seq<Option<real>> {
    seq(c, _ => v)
  }

  /** The column of key `k` over the indices `idxs`: each index contributes
      its value once per occurrence of `k` among the requested keys. */
  function SliceColumn(h: Hourly, k: string, idxs: seq<nat>, c: nat): Column {
    if idxs == [] then []
    else SliceColumn(h, k, idxs[..|idxs| - 1], c) + Rep(At(h, k, idxs[|idxs| - 1]), c)
  }

  /** The indices of the window are increasing, all in the window, and every
      index whose time is in the window is among them. */
  lemma {:induction false} InWindowIsFilter(times: seq<int>, start: int, end: int, n: nat)
    requires n <= |times|
    ensures var idxs := InWindow(times, start, end, n);
      && (forall j :: 0 <= j < |idxs| ==> idxs[j] < n && WithinWindow(times[idxs[j]], start, end))
      && (forall j, l :: 0 <= j < l < |idxs| ==> idxs[j] < idxs[l])
      && (forall i :: 0 <= i < n && WithinWindow(times[i], start, end) ==> i in idxs)
  {
    if n > 0 {
      InWindowIsFilter(times, start, end, n - 1);
    }
  }

  /** With distinct keys every sliced column is index-aligned with the time
      axis: position j holds the value at the source index of time j. */
  lemma {:induction false} SliceColumnAligned(h: Hourly, k: string, idxs: seq<nat>)
    ensures |SliceColumn(h, k, idxs, 1)| == |idxs|
    ensures forall j :: 0 <= j < |idxs| ==> SliceColumn(h, k, idxs, 1)[j] == At(h, k, idxs[j])
  {
    if idxs != [] {
      var p := idxs[..|idxs| - 1];
      SliceColumnAligned(h, k, p);
      assert forall j :: 0 <= j < |p| ==> p[j] == idxs[j];
    }
  }

  /** A key requested `c` times gets `c` entries per time. */
  lemma {:induction false} SliceColumnLength(h: Hourly, k: string, idxs: seq<nat>, c: nat)
    ensures |SliceColumn(h, k, idxs, c)| == c * |idxs|
  {
    if idxs != [] {
      SliceColumnLength(h, k, idxs[..|idxs| - 1], c);
    }
  }

  /** Extending the window by one in-window index appends that index's
      values to each column. */
  lemma SliceColumnStep(h: Hourly, k: string, idxs: seq<nat>, i: nat, c: nat)
    ensures SliceColumn(h, k, idxs + [i], c) == SliceColumn(h, k, idxs, c) + Rep(At(h, k, i), c)
  {
    assert (idxs + [i])[..|idxs|] == idxs;
  }

  /** What slice_hourly returns for the window [start, end). */
  ghost predicate SliceOf(h: Hourly, keys: seq<string>, start: int, end: int, out: Sliced) {
    var idxs := InWindow(h.time, start, end, |h.time|);
    && (forall j :: 0 <= j < |idxs| ==> idxs[j] < |h.time|)
    && out.time == TimesAt(h.time, idxs)
    && (forall k :: k in out.columns <==> k in keys)
    && (forall k :: k in keys ==> k in out.columns && out.columns[k] == SliceColumn(h, k, idxs, Count(keys, k)))
  }

  /** `for k in keys: out[k] = []`. */
  method EmptyColumns(keys: seq<string>) returns (cols: map<string, Column>)
    ensures forall k :: k in cols <==> k in keys
    ensures forall k :: k in cols ==> cols[k] == []
  {
    cols := map[];
    for j := 0 to |keys|
      invariant forall k :: k in cols <==> k in keys[..j]
      invariant forall k :: k in cols ==> cols[k] == []
    {
      assert keys[..j + 1] == keys[..j] + [keys[j]];
      cols := cols[keys[j] := []];
    }
    assert keys[..|keys|] == keys;
  }

  /** `for k in keys: out[k].append(arr[i] if i < len(arr) else None)`: a key
      listed `c` times gets the value `c` times. `len(arr)` raises when the
      array is null, and then `ok` is false. */
  method AppendRow(h: Hourly, keys: seq<string>, i: nat, cols0: map<string, Column>)
    returns (cols: map<string, Column>, ok: bool)
    requires forall k :: k in cols0 <==> k in keys
    ensures ok <==> NullFree(h, keys)
    ensures ok ==> forall k :: k in cols <==> k in keys
    ensures ok ==> forall k :: k in keys ==> cols[k] == cols0[k] + Rep(At(h, k, i), Count(keys, k))
  {
    cols, ok := cols0, true;
    for j := 0 to |keys|
      invariant NullFree(h, keys[..j])
      invariant forall k :: k in cols <==> k in keys
      invariant forall k :: k in keys ==> cols[k] == cols0[k] + Rep(At(h, k, i), Count(keys[..j], k))
    {
      assert keys[..j + 1][..j] == keys[..j];
      assert keys[..j + 1] == keys[..j] + [keys[j]];
      var k := keys[j];
      if k in h.columns && h.columns[k].None? {
        ok := false;
        return;
      }
      cols := cols[k := cols[k] + [At(h, k, i)]];
      forall k' | k' in keys
        ensures cols[k'] == cols0[k'] + Rep(At(h, k', i), Count(keys[..j + 1], k'))
      {
        var v, c := At(h, k', i), Count(keys[..j], k');
        assert Rep(v, c + 1) == Rep(v, c) + [v];
      }
    }
    assert keys[..|keys|] == keys;
  }

  /** What the loop of slice_hourly has built after the first n times. */
  ghost predicate SlicedUpTo(h: Hourly, keys: seq<string>, start: int, end: int, n: nat,
                             time: seq<int>, cols: map<string, Column>)
    requires n <= |h.time|
  {
    var idxs := InWindow(h.time, start, end, n);
    && (forall j :: 0 <= j < |idxs| ==> idxs[j] < n)
    && time == TimesAt(h.time, idxs)
    && (forall k :: k in cols <==> k in keys)
    && (forall k :: k in keys ==> cols[k] == SliceColumn(h, k, idxs, Count(keys, k)))
  }

  lemma SlicedStart(h: Hourly, keys: seq<string>, start: int, end: int, cols: map<string, Column>)
    requires forall k :: k in cols <==> k in keys
    requires forall k :: k in cols ==> cols[k] == []
    ensures SlicedUpTo(h, keys, start, end, 0, [], cols)
  {
  }

  /** A time outside the window changes nothing. */
  lemma SlicedSkip(h: Hourly, keys: seq<string>, start: int, end: int, i: nat,
                   time: seq<int>, cols: map<string, Column>)
    requires i < |h.time| && !WithinWindow(h.time[i], start, end)
    requires SlicedUpTo(h, keys, start, end, i, time, cols)
    ensures InWindow(h.time, start, end, i + 1) == InWindow(h.time, start, end, i)
    ensures SlicedUpTo(h, keys, start, end, i + 1, time, cols)
  {
  }

  /** A time inside the window appends it, and its values, to the output. */
  lemma SlicedTake(h: Hourly, keys: seq<string>, start: int, end: int, i: nat,
                   time: seq<int>, cols: map<string, Column>, cols': map<string, Column>)
    requires i < |h.time| && WithinWindow(h.time[i], start, end)
    requires SlicedUpTo(h, keys, start, end, i, time, cols)
    requires forall k :: k in cols' <==> k in keys
    requires forall k :: k in keys ==> cols'[k] == cols[k] + Rep(At(h, k, i), Count(keys, k))
    ensures InWindow(h.time, start, end, i + 1) != []
    ensures SlicedUpTo(h, keys, start, end, i + 1, time + [h.time[i]], cols')
  {
    var idxs := InWindow(h.time, start, end, i);
    assert InWindow(h.time, start, end, i + 1) == idxs + [i];
    assert TimesAt(h.time, idxs + [i]) == TimesAt(h.time, idxs) + [h.time[i]];
    forall k | k in keys
      ensures cols'[k] == SliceColumn(h, k, idxs + [i], Count(keys, k))
    {
      SliceColumnStep(h, k, idxs, i, Count(keys, k));
    }
  }

  lemma SlicedEnd(h: Hourly, keys: seq<string>, start: int, end: int, time: seq<int>, cols: map<string, Column>)
    requires SlicedUpTo(h, keys, start, end, |h.time|, time, cols)
    ensures SliceOf(h, keys, start, end, Sliced(time, cols))
  {
  }

  /** slice_hourly raises: "hourly" is null (`None.get`), or a time lies in
      the window while a requested array is null (`len(None)`). */
  predicate Raises(f: HourlyField, keys: seq<string>, start: int, end: int) {
    || f.JsonNull?
    || (f.Present? && InWindow(f.block.time, start, end, |f.block.time|) != [] && !NullFree(f.block, keys))
  }

  /** `slice_hourly`: the time axis restricted to [start, end), and for each
      requested key the values at the same source indices; an error exactly
      when the source raises. The key "time" is not requested: it would
      alias the time axis in the source's dict. */
  method SliceHourly(f: HourlyField, keys: seq<string>, start: int, end: int) returns (r: Result<Sliced>)
    requires "time" !in keys
    ensures r.Err? <==> Raises(f, keys, start, end)
    ensures r.Ok? ==> SliceOf(BlockOf(f), keys, start, end, r.value)
  {
    if f.JsonNull? {
      return Err("'NoneType' object has no attribute 'get'");
    }
    var h := BlockOf(f);
    var cols := EmptyColumns(keys);
    SlicedStart(h, keys, start, end, cols);
    hide SlicedUpTo, SliceOf, InWindow, TimesAt, SliceColumn, Count, Rep, At;
    if h.time == [] {
      SlicedEnd(h, keys, start, end, [], cols);
      return Ok(Sliced([], cols));
    }
    var time: seq<int> := [];
    for i := 0 to |h.time|
      invariant SlicedUpTo(h, keys, start, end, i, time, cols)
      invariant InWindow(h.time, start, end, i) != [] ==> NullFree(h, keys)
    {
      if WithinWindow(h.time[i], start, end) {
        var cols', ok := AppendRow(h, keys, i, cols);
        if !ok {
          InWindowIsFilter(h.time, start, end, |h.time|);
          return Err("object of type 'NoneType' has no len()");
        }
        SlicedTake(h, keys, start, end, i, time, cols, cols');
        time := time + [h.time[i]];
        cols := cols';
      } else {
        SlicedSkip(h, keys, start, end, i, time, cols);
      }
    }
    SlicedEnd(h, keys, start, end, time, cols);
    r := Ok(Sliced(time, cols));
  }

  /** With no times every output list is empty. */
  lemma SliceOfEmpty(h: Hourly, keys: seq<string>, start: int, end: int, out: Sliced)
    requires h.time == [] && SliceOf(h, keys, start, end, out)
    ensures out.time == [] && forall k :: k in out.columns ==> out.columns[k] == []
  {
  }

  /** With distinct keys, every output list has the length of the time axis
      and holds, at position j, the value at the source index of time j,
      whose time lies in the window. */
  lemma SliceOfAligned(h: Hourly, keys: seq<string>, start: int, end: int, out: Sliced, k: string)
    requires SliceOf(h, keys, start, end, out)
    requires NoDuplicates(keys) && k in keys
    ensures k in out.columns && |out.columns[k]| == |out.time|
    ensures forall j :: 0 <= j < |out.time| ==> WithinWindow(out.time[j], start, end)
    ensures forall j :: 0 <= j < |out.time| ==>
      exists i :: 0 <= i < |h.time| && out.time[j] == h.time[i] && out.columns[k][j] == At(h, k, i)
  {
    var idxs := InWindow(h.time, start, end, |h.time|);
    InWindowIsFilter(h.time, start, end, |h.time|);
    CountDistinct(keys, k);
    SliceColumnAligned(h, k, idxs);
    var col := out.columns[k];
    assert col == SliceColumn(h, k, idxs, 1);
    assert |out.time| == |idxs|;
    forall j | 0 <= j < |out.time|
      ensures WithinWindow(out.time[j], start, end)
      ensures exists i :: 0 <= i < |h.time| && out.time[j] == h.time[i] && col[j] == At(h, k, i)
    {
      var i := idxs[j];
      assert out.time[j] == h.time[i];
      assert col[j] == At(h, k, i);
    }
  }

  /** A key that occurs once among distinct keys is counted once. */
  lemma {:induction false} CountDistinct(keys: seq<string>, k: string)
    requires NoDuplicates(keys) && k in keys
    ensures Count(keys, k) == 1
  {
    var p := keys[..|keys| - 1];
    assert NoDuplicates(p);
    if keys[|keys| - 1] == k {
      CountAbsent(p, k);
    } else {
      assert k in p by {
        var i :| 0 <= i < |keys| && keys[i] == k;
        assert p[i] == k;
      }
      CountDistinct(p, k);
    }
  }

  lemma {:induction false} CountAbsent(keys: seq<string>, k: string)
    requires k !in keys
    ensures Count(keys, k) == 0
  {
    if keys != [] {
      assert keys[|keys| - 1] != k;
      CountAbsent(keys[..|keys| - 1], k);
    }
  }

  predicate NoDuplicates(keys: seq<string>) {
    forall i, j :: 0 <= i < j < |keys| ==> keys[i] != keys[j]
  }
}
