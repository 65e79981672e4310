/** probe_gfs.py: compares a spot's forecast series with the GFS model over a
    few hours from a start time, and suggests a confidence from the mean
    absolute differences. Fetching, file loading and ISO parsing are not
    modelled: a series arrives with its times already converted to POSIX
    seconds (`None` where `to_ts` gives NaN) and its values as numbers or
    `None`. */
module ProbeGfs {
  import opened Wrappers
  import opened Seqs

  /** The lists of one series, as `load_spot_series` and `fetch_gfs`
      return them (each already `... or []`). */
  datatype Series = Series(
    time: seq<Option<real>>,
    wind: seq<Option<real>>,
    gust: seq<Option<real>>,
    dir: seq<Option<real>>)

  function Abs(x: real): (r: real)
    ensures r >= 0.0 && (r == x || r == -x)
  {
    if x < 0.0 then -x else x
  }

  function Min(a: int, b: int): (r: int)
    ensures r <= a && r <= b && (r == a || r == b)
  {
    if a < b then a else b
  }

  // ---- nearest_idx (probe_gfs.py:93-102) ----

  /** `best` before the first candidate: `10**20`. */
  const Big: real := 100000000000000000000.0

  /** `abs(tt - t)`, or `None` (NaN) when either time is not finite. */
  function Dist(tt: Option<real>, t: Option<real>): (d: Option<real>)
    ensures d.Some? <==> tt.Some? && t.Some?
    ensures d.Some? ==> d.value >= 0.0
  {
    if tt.Some? && t.Some? then Some(Abs(tt.value - t.value)) else None
  }

  /** Index i can be chosen: its distance is a number below `10**20`. */
  predicate Candidate(times: seq<Option<real>>, t: Option<real>, i: int)
    requires 0 <= i < |times|
  {
    Dist(times[i], t).Some? && Dist(times[i], t).value < Big
  }

  /** The index the loop settles on, defined over growing prefixes: the last
      time replaces the choice so far only when it is strictly closer. */
  function Nearest(times: seq<Option<real>>, t: Option<real>): (r: int)
    ensures -1 <= r < |times|
    ensures r >= 0 ==> Candidate(times, t, r)
    decreases |times|
  {
    if times == [] then -1
    else
      var n := |times| - 1;
      var p := Nearest(times[..n], t);
      if Candidate(times, t, n) && (p == -1 || Dist(times[n], t).value < Dist(times[p], t).value) then n
      else p
  }

  /** `nearest_idx`: `best, idx = 10**20, -1`, then a strict `<` scan. */
  method NearestIdx(times: seq<Option<real>>, t: Option<real>) returns (idx: int)
    ensures idx == Nearest(times, t)
  {
    var best := Big;
    idx := -1;
    for i := 0 to |times|
      invariant idx == Nearest(times[..i], t)
      invariant idx == -1 ==> best == Big
      invariant idx != -1 ==> best == Dist(times[idx], t).value
    {
      assert times[..i + 1][..i] == times[..i];
      var d := Dist(times[i], t);
      if d.Some? && d.value < best {
        best, idx := d.value, i;
      }
    }
    assert times[..|times|] == times;
  }

  /** `nearest_idx` gives -1 exactly when no time is a candidate, and
      otherwise the first index of minimal distance. */
  lemma {:induction false} NearestIsFirstMinimum(times: seq<Option<real>>, t: Option<real>)
    ensures var r := Nearest(times, t);
      && (r == -1 <==> forall i :: 0 <= i < |times| ==> !Candidate(times, t, i))
      && (r >= 0 ==>
            && (forall i :: 0 <= i < |times| && Candidate(times, t, i) ==>
                  Dist(times[r], t).value <= Dist(times[i], t).value)
            && (forall i :: 0 <= i < r && Candidate(times, t, i) ==>
                  Dist(times[r], t).value < Dist(times[i], t).value))
    decreases |times|
  {
    if times != [] {
      var n := |times| - 1;
      var p := times[..n];
      NearestIsFirstMinimum(p, t);
      forall i | 0 <= i < n ensures Candidate(times, t, i) == Candidate(p, t, i) && times[i] == p[i] {
      }
    }
  }

  /** Without a finite start time every distance is NaN: the result is -1. */
  lemma NearestNoStart(times: seq<Option<real>>)
    ensures Nearest(times, None) == -1
  {
    NearestIsFirstMinimum(times, None);
  }

  // ---- circ_diff_deg (probe_gfs.py:104-111) ----

  /** The number of whole turns below `x` degrees. */
  function Turns(x: real): int {
    (x / 360.0).Floor
  }

  /** Python's float `x % 360.0`: the remainder takes the divisor's sign. */
  function Mod360(x: real): (r: real)
    ensures 0.0 <= r < 360.0
    ensures x == r + 360.0 * (Turns(x) as real)
  {
    x - 360.0 * (Turns(x) as real)
  }

  /** `circ_diff_deg`: the smaller of the two arcs between two bearings. */
  function CircDiff(a: Option<real>, b: Option<real>): (r: Option<real>)
    ensures r.None? <==> a.None? || b.None?
    ensures r.Some? ==> 0.0 <= r.value <= 180.0
  {
    if a.None? || b.None? then None
    else
      var d := Abs(Mod360(a.value - b.value));
      Some(if d < 360.0 - d then d else 360.0 - d)
  }

  /** Two remainders of opposite numbers add up to 0 or 360. */
  lemma Mod360Opposite(x: real)
    ensures Mod360(x) + Mod360(-x) == 0.0 || Mod360(x) + Mod360(-x) == 360.0
  {
    var k1, k2 := Turns(x), Turns(-x);
    var s := Mod360(x) + Mod360(-x);
    assert s == -360.0 * ((k1 + k2) as real);
    assert -2 < k1 + k2 <= 0;
  }

  /** The spread does not depend on the order of the two bearings. */
  lemma CircDiffSymmetric(a: real, b: real)
    ensures CircDiff(Some(a), Some(b)) == CircDiff(Some(b), Some(a))
  {
    assert b - a == -(a - b);
    Mod360Opposite(a - b);
  }

  /** Equal bearings, and bearings a whole turn apart, have no spread. */
  lemma CircDiffTurn(a: real, k: int)
    ensures CircDiff(Some(a + 360.0 * (k as real)), Some(a)) == Some(0.0)
  {
    var x := a + 360.0 * (k as real) - a;
    assert x == 360.0 * (k as real);
    var j := Turns(x);
    assert Mod360(x) == 360.0 * ((k - j) as real);
    assert 0 <= k - j < 1;
  }

  // ---- window_slice (probe_gfs.py:113-120) ----

  /** A Python slice bound: a negative one counts from the end, and both are
      clamped to the sequence. */
  function SliceBound(i: int, len: nat): (r: nat)
    ensures r <= len
    ensures 0 <= i <= len ==> r == i
  {
    if i < 0 then (if i + len < 0 then 0 else i + len)
    else if i > len then len
    else i
  }

  /** `s[lo:hi]`. */
  function PySlice<T>(s: seq<T>, lo: int, hi: int): (r: seq<T>)
    ensures |r| <= |s|
    ensures 0 <= lo <= hi <= |s| ==> r == s[lo..hi]
    ensures 0 <= lo && 0 <= hi ==> |r| <= if lo <= hi then hi - lo else 0
  {
    var a, b := SliceBound(lo, |s|), SliceBound(hi, |s|);
    if a < b then s[a..b] else []
  }

  /** `window_slice`: each list cut to `[i0:min(L, i0 + n)]`, with L the
      number of times, or emptied when `i0` is not an index of the times. */
  function WindowSlice(series: Series, i0: int, n: int): Series {
    var len := |series.time|;
    var jmax := Min(len, i0 + n);
    if 0 <= i0 < len then
      Series(PySlice(series.time, i0, jmax), PySlice(series.wind, i0, jmax),
             PySlice(series.gust, i0, jmax), PySlice(series.dir, i0, jmax))
    else Series([], [], [], [])
  }

  /** With a non-negative width, every list of the window has at most `n`
      entries, and the times are exactly `time[i0:min(L, i0 + n)]`. */
  lemma WindowSliceBound(series: Series, i0: int, n: int)
    requires n >= 0
    ensures var w := WindowSlice(series, i0, n);
      && |w.time| <= n && |w.wind| <= n && |w.gust| <= n && |w.dir| <= n
      && (0 <= i0 < |series.time| ==>
            w.time == series.time[i0..Min(|series.time|, i0 + n)])
      && (!(0 <= i0 < |series.time|) ==> w == Series([], [], [], []))
  {
  }

  // ---- agreement (probe_gfs.py:122-172) ----

  datatype Conf = High | Medium | Low

  /** What `agreement` reports, before rounding. */
  datatype Report = Report(
    points: nat,
    avgWind: Option<real>,
    avgGust: Option<real>,
    avgDir: Option<real>,
    conf: Option<Conf>)

  /** `abs(a - b)` for the first `n` positions where both values are present. */
  function PairDiffs(xs: seq<Option<real>>, ys: seq<Option<real>>, n: nat): (r: seq<real>)
    requires n <= |xs| && n <= |ys|
    ensures |r| <= n
    ensures forall d :: d in r ==> d >= 0.0
  {
    if n == 0 then []
    else
      var prev := PairDiffs(xs, ys, n - 1);
      if xs[n - 1].Some? && ys[n - 1].Some? then prev + [Abs(xs[n - 1].value - ys[n - 1].value)]
      else prev
  }

  /** The spread of the first `n` positions where both bearings are present. */
  function DirDiffs(xs: seq<Option<real>>, ys: seq<Option<real>>, n: nat): (r: seq<real>)
    requires n <= |xs| && n <= |ys|
    ensures |r| <= n
    ensures forall d :: d in r ==> 0.0 <= d <= 180.0
  {
    if n == 0 then []
    else
      var prev := DirDiffs(xs, ys, n - 1);
      var c := CircDiff(xs[n - 1], ys[n - 1]);
      if c.Some? then prev + [c.value] else prev
  }

  /** A difference is recorded for some position exactly when one position
      has both values. */
  lemma {:induction false} PairDiffsEmpty(xs: seq<Option<real>>, ys: seq<Option<real>>, n: nat)
    requires n <= |xs| && n <= |ys|
    ensures PairDiffs(xs, ys, n) == [] <==> forall k :: 0 <= k < n ==> xs[k].None? || ys[k].None?
  {
    if n > 0 {
      PairDiffsEmpty(xs, ys, n - 1);
    }
  }

  /** `avg`: the mean, or `None` for no values. */
  function Avg(xs: seq<real>): (r: Option<real>)
    ensures r.None? <==> xs == []
  {
    if xs == [] then None else Some(Mean(xs))
  }

  /** A mean lies between bounds that hold for every value. */
  lemma MeanWithin(xs: seq<real>, lo: real, hi: real)
    requires xs != [] && forall x :: x in xs ==> lo <= x <= hi
    ensures lo <= Mean(xs) <= hi
  {
    SumWithin(xs, lo, hi);
    var n := |xs| as real;
    var m := Mean(xs);
    assert m * n == Sum(xs);
    ScaleBack(lo, m, n);
    ScaleBack(m, hi, n);
  }

  /** Dividing both sides of `a * n <= b * n` by a positive `n`. */
  lemma ScaleBack(a: real, b: real, n: real)
    requires n > 0.0 && a * n <= b * n
    ensures a <= b
  {
    assert (b - a) * n >= 0.0;
  }

  lemma {:induction false} SumWithin(xs: seq<real>, lo: real, hi: real)
    requires forall x :: x in xs ==> lo <= x <= hi
    ensures lo * (|xs| as real) <= Sum(xs) <= hi * (|xs| as real)
    decreases |xs|
  {
    if xs != [] {
      var p := xs[..|xs| - 1];
      assert forall x :: x in p ==> x in xs;
      assert xs[|xs| - 1] in xs;
      SumWithin(p, lo, hi);
    }
  }

  /** The confidence mapping: none without a wind average; "high" when wind,
      gust and direction averages are all small (a missing one passes);
      "medium" when wind and gust are moderate; "low" otherwise. */
  function ConfOf(w: Option<real>, g: Option<real>, d: Option<real>): (r: Option<Conf>)
    ensures r.None? <==> w.None?
    ensures r == Some(High) <==> w.Some? && w.value <= 5.0 && NoWorse(g, Some(8.0)) && NoWorse(d, Some(30.0))
    ensures r == Some(Medium) ==> w.value <= 10.0 && NoWorse(g, Some(15.0))
    ensures r == Some(Low) <==> w.Some? && (w.value > 10.0 || !NoWorse(g, Some(15.0)))
  {
    if w.None? then None
    else if w.value <= 5.0 && (g.None? || g.value <= 8.0) && (d.None? || d.value <= 30.0) then Some(High)
    else if w.value <= 10.0 && (g.None? || g.value <= 15.0) then Some(Medium)
    else Some(Low)
  }

  function Rank(c: Conf): nat {
    match c
    case High => 2
    case Medium => 1
    case Low => 0
  }

  /** `x` is at least as good as `y` for the mapping: missing, or no larger. */
  predicate NoWorse(x: Option<real>, y: Option<real>) {
    x.None? || (y.Some? && x.value <= y.value)
  }

  /** Smaller (or missing) averages never lower the suggested confidence. */
  lemma ConfMonotone(w: real, g: Option<real>, d: Option<real>, w': real, g': Option<real>, d': Option<real>)
    requires w' <= w && NoWorse(g', g) && NoWorse(d', d)
    ensures Rank(ConfOf(Some(w'), g', d').value) >= Rank(ConfOf(Some(w), g, d).value)
  {
  }

  /** The whole of `agreement` (before rounding), with the start time already
      converted; `IndexError` when a value list of a window is shorter than
      the compared times. */
  function AgreementSpec(icon: Series, gfs: Series, start: Option<real>, hours: int): Result<Option<Report>> {
    var i0 := Nearest(icon.time, start);
    var j0 := Nearest(gfs.time, start);
    if i0 < 0 || j0 < 0 then Ok(None)
    else
      var a := WindowSlice(icon, i0, hours);
      var b := WindowSlice(gfs, j0, hours);
      var n := Min(|a.time|, |b.time|);
      if n > |a.wind| || n > |b.wind| || n > |a.gust| || n > |b.gust| || n > |a.dir| || n > |b.dir| then
        Err("list index out of range")
      else
        var w := Avg(PairDiffs(a.wind, b.wind, n));
        var g := Avg(PairDiffs(a.gust, b.gust, n));
        var d := Avg(DirDiffs(a.dir, b.dir, n));
        Ok(Some(Report(n, w, g, d, ConfOf(w, g, d))))
  }

  /** `agreement`: the loop that appends to the three difference lists. */
  method Agreement(icon: Series, gfs: Series, start: Option<real>, hours: int) returns (r: Result<Option<Report>>)
    ensures r == AgreementSpec(icon, gfs, start, hours)
  {
    hide Nearest, WindowSlice, PySlice, CircDiff, Avg, ConfOf;
    var i0 := NearestIdx(icon.time, start);
    var j0 := NearestIdx(gfs.time, start);
    if i0 < 0 || j0 < 0 {
      return Ok(None);
    }
    var a := WindowSlice(icon, i0, hours);
    var b := WindowSlice(gfs, j0, hours);
    var diffsWind, diffsGust, diffsDir := [], [], [];
    var n := Min(|a.time|, |b.time|);
    for k := 0 to n
      invariant k <= |a.wind| && k <= |b.wind| && k <= |a.gust| && k <= |b.gust| && k <= |a.dir| && k <= |b.dir|
      invariant diffsWind == PairDiffs(a.wind, b.wind, k)
      invariant diffsGust == PairDiffs(a.gust, b.gust, k)
      invariant diffsDir == DirDiffs(a.dir, b.dir, k)
    {
      if k >= |a.wind| || k >= |b.wind| || k >= |a.gust| || k >= |b.gust| || k >= |a.dir| || k >= |b.dir| {
        return Err("list index out of range");
      }
      var aw, bw := a.wind[k], b.wind[k];
      var ag, bg := a.gust[k], b.gust[k];
      var ad, bd := a.dir[k], b.dir[k];
      if aw.Some? && bw.Some? {
        diffsWind := diffsWind + [Abs(aw.value - bw.value)];
      }
      if ag.Some? && bg.Some? {
        diffsGust := diffsGust + [Abs(ag.value - bg.value)];
      }
      var ddir := CircDiff(ad, bd);
      if ddir.Some? {
        diffsDir := diffsDir + [ddir.value];
      }
    }
    var w, g, d := Avg(diffsWind), Avg(diffsGust), Avg(diffsDir);
    return Ok(Some(Report(n, w, g, d, ConfOf(w, g, d))));
  }

  /** `agreement` returns `None` exactly when a series has no time near the
      start; a report compares at most `hours` points, has a confidence
      exactly when some compared position has both wind values, and keeps
      its averages in range (a direction spread within [0, 180]). */
  lemma AgreementProperties(icon: Series, gfs: Series, start: Option<real>, hours: int)
    ensures var r := AgreementSpec(icon, gfs, start, hours);
      && (r == Ok(None) <==> Nearest(icon.time, start) < 0 || Nearest(gfs.time, start) < 0)
      && (r.Ok? && r.value.Some? ==>
            var rep := r.value.value;
            var a := WindowSlice(icon, Nearest(icon.time, start), hours);
            var b := WindowSlice(gfs, Nearest(gfs.time, start), hours);
            && rep.points <= |a.wind| && rep.points <= |b.wind|
            && (hours >= 0 ==> rep.points <= hours)
            && (rep.conf.None? <==> forall k :: 0 <= k < rep.points ==> a.wind[k].None? || b.wind[k].None?)
            && (rep.avgWind.Some? ==> rep.avgWind.value >= 0.0)
            && (rep.avgGust.Some? ==> rep.avgGust.value >= 0.0)
            && (rep.avgDir.Some? ==> 0.0 <= rep.avgDir.value <= 180.0))
  {
    var r := AgreementSpec(icon, gfs, start, hours);
    var i0, j0 := Nearest(icon.time, start), Nearest(gfs.time, start);
    if r.Ok? && r.value.Some? {
      var a := WindowSlice(icon, i0, hours);
      var b := WindowSlice(gfs, j0, hours);
      var n := Min(|a.time|, |b.time|);
      if hours >= 0 {
        WindowSliceBound(icon, i0, hours);
      }
      PairDiffsEmpty(a.wind, b.wind, n);
      var dw := PairDiffs(a.wind, b.wind, n);
      var dg := PairDiffs(a.gust, b.gust, n);
      var dd := DirDiffs(a.dir, b.dir, n);
      if dw != [] {
        MeanWithin(dw, 0.0, MaxOf(dw));
      }
      if dg != [] {
        MeanWithin(dg, 0.0, MaxOf(dg));
      }
      if dd != [] {
        MeanWithin(dd, 0.0, 180.0);
      }
    }
  }

  /** The largest element. */
  function MaxOf(xs: seq<real>): (m: real)
    requires xs != []
    ensures forall x :: x in xs ==> x <= m
  {
    if |xs| == 1 then xs[0]
    else
      var m := MaxOf(xs[1..]);
      assert forall x :: x in xs ==> x == xs[0] || x in xs[1..];
      if xs[0] > m then xs[0] else m
  }
}
