/** scripts/migrate_sites_add_slugs.py: give every site row of sites.yaml a
    slug, keeping the slugs rows already have, and making a generated slug
    differ from the slugs seen so far by a "-2", "-3", ... suffix. Reading
    and writing the YAML file is not modelled: the rows are an array of
    parsed dictionaries that the script updates in place. */
module MigrateSlugs {
  import opened Wrappers
  import opened Text
  import opened Slugs
  import opened Json

  type Row = map<string, Json>

  // ---- slugify (scripts/migrate_sites_add_slugs.py:14-24) ----

  /** `s.replace("&", " and ")`. */
  function ReplaceAmp(s: string): (r: string)
    ensures '&' !in s ==> r == s
  {
    if s == [] then []
    else (if s[0] == '&' then " and " else [s[0]]) + ReplaceAmp(s[1..])
  }

  /** `SLUG_RE.sub("", s)`: drops every character outside `[a-z0-9-]`. */
  function KeepSlugChars(s: string): (r: string)
    ensures SlugChars(r)
    ensures SlugChars(s) ==> r == s
  {
    if s == [] then []
    else (if IsSlugChar(s[0]) then [s[0]] else []) + KeepSlugChars(s[1..])
  }

  /** The part of `slugify` before the "site" fallback. */
  function SlugBody(name: string): string {
    var s := ReplaceAmp(Lower(Strip(name)));
    StripDashes(CollapseDashes(KeepSlugChars(SquashRuns(s, Spaces))))
  }

  /** `slugify` of the migration script (ASCII input, so `unidecode` is the
      identity): an empty result becomes "site". */
  function MigrateSlugify(name: string): string {
    var s := SlugBody(name);
    if s == "" then "site" else s
  }

  /** The slug is well formed and never empty. */
  lemma MigrateSlugifyValid(name: string)
    ensures ValidSlug(MigrateSlugify(name)) && MigrateSlugify(name) != ""
  {
    SlugBodyValid(name);
    SiteValid();
  }

  lemma SiteValid()
    ensures ValidSlug("site")
  {
    var site := "site";
    assert site[0] == 's' && site[1] == 'i' && site[2] == 't' && site[3] == 'e';
  }

  lemma SlugBodyValid(name: string)
    ensures ValidSlug(SlugBody(name))
  {
    var s := KeepSlugChars(SquashRuns(ReplaceAmp(Lower(Strip(name))), Spaces));
    hide KeepSlugChars, SquashRuns, ReplaceAmp, Lower, Strip;
    CollapseKeepsSlugChars(s);
    StripDashesValid(CollapseDashes(s));
  }

  /** Collapsing dash runs keeps a string of slug characters one, and leaves no "--". */
  lemma CollapseKeepsSlugChars(s: string)
    requires SlugChars(s)
    ensures SlugChars(CollapseDashes(s)) && NoDoubleDash(CollapseDashes(s))
  {
    SquashRunsShape(s, Dashes);
    var c := CollapseDashes(s);
    forall i | 0 <= i < |c| ensures IsSlugChar(c[i]) {
      if c[i] != '-' {
        var j :| 0 <= j < |s| && s[j] == c[i];
      }
    }
  }

  /** The steps before the character filter leave a well-formed slug as it is. */
  lemma PrepareFixesValid(t: string)
    requires ValidSlug(t)
    ensures SquashRuns(ReplaceAmp(Lower(Strip(t))), Spaces) == t
  {
    hide SquashRuns, KeepSlugChars, ReplaceAmp, TrimStart, TrimEnd;
    assert forall i :: 0 <= i < |t| ==> t[i] !in Whitespace && t[i] != '&' && LowerChar(t[i]) == t[i] by {
      forall i | 0 <= i < |t| ensures t[i] !in Whitespace && t[i] != '&' && LowerChar(t[i]) == t[i] {
        assert IsSlugChar(t[i]);
      }
    }
    assert Strip(t) == t;
    var l := Lower(t);
    assert l == t;
    assert ReplaceAmp(t) == t;
    SquashRunsNone(t, Spaces);
  }

  /** The character filter, the dash collapse and the dash strip leave a
      well-formed slug as it is. */
  lemma CleanFixesValid(t: string)
    requires ValidSlug(t)
    ensures StripDashes(CollapseDashes(KeepSlugChars(t))) == t
  {
    hide SquashRuns, KeepSlugChars, TrimStart, TrimEnd;
    assert KeepSlugChars(t) == t;
    SquashRunsKeepsDashes(t, Dashes);
    assert CollapseDashes(t) == t;
  }

  /** A well-formed, non-empty slug is its own slug. */
  lemma MigrateSlugifyFixesValid(t: string)
    requires ValidSlug(t) && t != ""
    ensures MigrateSlugify(t) == t
  {
    PrepareFixesValid(t);
    CleanFixesValid(t);
    hide SquashRuns, ReplaceAmp, Lower, Strip, KeepSlugChars, CollapseDashes, StripDashes;
  }

  lemma MigrateSlugifyIdempotent(name: string)
    ensures MigrateSlugify(MigrateSlugify(name)) == MigrateSlugify(name)
  {
    MigrateSlugifyValid(name);
    MigrateSlugifyFixesValid(MigrateSlugify(name));
  }

  // ---- the uniqueness loop (scripts/migrate_sites_add_slugs.py:31-37) ----

  /** The k-th slug the loop tries: `base`, then `f"{base}-{k}"` for k = 2, 3, ... */
  function Candidate(base: string, k: nat): string
    requires k >= 1
  {
    if k == 1 then base else base + "-" + ShowNat(k)
  }

  /** Different attempts give different slugs. */
  lemma CandidateInjective(base: string, j: nat, k: nat)
    requires 1 <= j && 1 <= k && j != k
    ensures Candidate(base, j) != Candidate(base, k)
  {
    var cj, ck := Candidate(base, j), Candidate(base, k);
    if j != 1 && k != 1 {
      assert cj[|base| + 1..] == ShowNat(j);
      assert ck[|base| + 1..] == ShowNat(k);
      assert ShowNat(j) != ShowNat(k);
    } else {
      assert |cj| != |ck|;
    }
  }

  /** An attempted suffix keeps the slug well formed. */
  lemma CandidateValid(base: string, k: nat)
    requires k >= 1 && ValidSlug(base) && base != ""
    ensures ValidSlug(Candidate(base, k))
  {
    if k > 1 {
      var d := ShowNat(k);
      var c := Candidate(base, k);
      assert forall i :: 0 <= i < |d| ==> IsSlugChar(d[i]) && d[i] != '-';
      assert forall i :: 0 <= i < |c| ==> c[i] == if i < |base| then base[i] else if i == |base| then '-' else d[i - |base| - 1];
    }
  }

  /** When the first n attempts are all taken, `seen` has at least n elements. */
  lemma {:induction false} CandidatesBound(base: string, seen: set<Json>, n: nat)
    requires forall j :: 1 <= j <= n ==> Str(Candidate(base, j)) in seen
    ensures n <= |seen|
  {
    if n > 0 {
      var last := Str(Candidate(base, n));
      var rest := seen - {last};
      forall j | 1 <= j <= n - 1 ensures Str(Candidate(base, j)) in rest {
        CandidateInjective(base, j, n);
      }
      CandidatesBound(base, rest, n - 1);
    }
  }

  /** The first attempt from the k-th on whose slug is not in `seen`. */
  function FreeFrom(base: string, seen: set<Json>, k: nat): (r: nat)
    requires k >= 1
    requires forall j :: 1 <= j < k ==> Str(Candidate(base, j)) in seen
    ensures r >= k && Str(Candidate(base, r)) !in seen
    ensures forall j :: k <= j < r ==> Str(Candidate(base, j)) in seen
    decreases |seen| + 1 - k
  {
    if Str(Candidate(base, k)) !in seen then k
    else
      CandidatesBound(base, seen, k);
      FreeFrom(base, seen, k + 1)
  }

  /** The slug the loop settles on: the first attempt not in `seen`. */
  function FreeSlug(base: string, seen: set<Json>): (r: string)
    ensures Str(r) !in seen
    ensures Str(base) !in seen ==> r == base
  {
    Candidate(base, FreeFrom(base, seen, 1))
  }

  /** `slug = base; k = 2; while slug in seen: slug = f"{base}-{k}"; k += 1`. */
  method FindFreeSlug(base: string, seen: set<Json>) returns (slug: string)
    ensures slug == FreeSlug(base, seen)
  {
    slug := base;
    var k := 2;
    while Str(slug) in seen
      invariant k >= 2 && slug == Candidate(base, k - 1)
      invariant forall j :: 1 <= j < k - 1 ==> Str(Candidate(base, j)) in seen
      invariant FreeFrom(base, seen, k - 1) == FreeFrom(base, seen, 1)
      invariant k - 2 <= |seen|
      decreases |seen| + 2 - k
    {
      CandidatesBound(base, seen, k - 1);
      slug := base + "-" + ShowNat(k);
      k := k + 1;
    }
  }

  // ---- main (scripts/migrate_sites_add_slugs.py:26-39) ----

  /** `"slug" not in row or not str(row["slug"]).strip()`; `str` of a value
      that is not a string is never blank. */
  predicate NeedsSlug(row: Row) {
    "slug" !in row || (row["slug"].Str? && Strip(row["slug"].s) == "")
  }

  /** `row.get("name", f"site-{i}")`, which must be a string for `strip`. */
  function NameOf(row: Row, i: nat): (r: Result<string>)
    ensures "name" !in row ==> r == Ok("site-" + ShowNat(i))
    ensures r.Err? <==> "name" in row && !row["name"].Str?
  {
    if "name" !in row then Ok("site-" + ShowNat(i))
    else match row["name"]
      case Str(s) => Ok(s)
      case _ => Err("name has no attribute 'strip'")
  }

  /** Row i after the loop body, given the slugs seen before it. */
  function FillRow(row: Row, i: nat, seen: set<Json>): (r: Result<Row>)
    ensures r.Ok? ==> "slug" in r.value
    ensures r.Err? <==> NeedsSlug(row) && NameOf(row, i).Err?
  {
    if !NeedsSlug(row) then Ok(row)
    else
      match NameOf(row, i)
      case Err(e) => Err(e)
      case Ok(name) =>
        var base := MigrateSlugify(name);
        Ok(row["slug" := Str(FreeSlug(base, seen))])
  }

  /** A row with a non-blank slug is left as it is; otherwise only its
      "slug" changes, to a well-formed slug not in `seen`. */
  lemma FillRowProperties(row: Row, i: nat, seen: set<Json>)
    requires FillRow(row, i, seen).Ok?
    ensures var r := FillRow(row, i, seen).value;
      && (!NeedsSlug(row) ==> r == row)
      && (NeedsSlug(row) ==>
        && r.Keys == row.Keys + {"slug"}
        && (forall k :: k in row && k != "slug" ==> r[k] == row[k])
        && r["slug"].Str? && r["slug"] !in seen
        && ValidSlug(r["slug"].s))
  {
    hide MigrateSlugify, SlugBody, Candidate, ShowNat, Strip;
    if NeedsSlug(row) {
      var name := NameOf(row, i).value;
      var base := MigrateSlugify(name);
      MigrateSlugifyValid(name);
      CandidateValid(base, FreeFrom(base, seen, 1));
    }
  }

  /** `done` in front of a successful result; an error stays an error. */
  function Prepend(done: seq<Row>, r: Result<seq<Row>>): (p: Result<seq<Row>>)
    ensures p.Ok? <==> r.Ok?
    ensures p.Ok? ==> p.value == done + r.value
  {
    match r
    case Ok(rest) => Ok(done + rest)
    case Err(e) => Err(e)
  }

  /** The rows from index `i0` on, with `seen` the slugs before them; a
      name that is not a string or an unhashable slug (a list or a dict,
      which `seen.add` rejects) stops the script. */
  function Fill(rows: seq<Row>, seen: set<Json>, i0: nat): Result<seq<Row>>
    decreases |rows|
  {
    if rows == [] then Ok([])
    else
      match FillRow(rows[0], i0, seen)
      case Err(e) => Err(e)
      case Ok(row) =>
        if !Hashable(row["slug"]) then Err("unhashable slug")
        else Prepend([row], Fill(rows[1..], seen + {row["slug"]}, i0 + 1))
  }

  /** What the script does to its rows. */
  function FillSpec(rows: seq<Row>): Result<seq<Row>> {
    Fill(rows, {}, 0)
  }

  lemma FillEmpty(seen: set<Json>, i0: nat)
    ensures Fill([], seen, i0) == Ok([])
  {
  }

  /** One step of `Fill`, for proofs that keep its definition hidden. */
  lemma FillUnfold(rows: seq<Row>, seen: set<Json>, i0: nat, row: Row)
    requires rows != [] && FillRow(rows[0], i0, seen) == Ok(row)
    ensures !Hashable(row["slug"]) ==> Fill(rows, seen, i0).Err?
    ensures Hashable(row["slug"]) ==>
      Fill(rows, seen, i0) == Prepend([row], Fill(rows[1..], seen + {row["slug"]}, i0 + 1))
  {
    hide FillRow;
  }

  /** An exception on the first row stops the whole fill. */
  lemma FillUnfoldErr(rows: seq<Row>, seen: set<Json>, i0: nat)
    requires rows != [] && FillRow(rows[0], i0, seen).Err?
    ensures Fill(rows, seen, i0).Err?
  {
    hide FillRow;
  }

  /** The body of `main`'s loop for row i: the new row, or the exception
      that stops the script. */
  method FillOne(row: Row, i: nat, seen: set<Json>) returns (r: Result<Row>)
    ensures r == FillRow(row, i, seen)
  {
    if !NeedsSlug(row) {
      return Ok(row);
    }
    var name := NameOf(row, i);
    if name.Err? {
      return Err(name.message);
    }
    var base := MigrateSlugify(name.value);
    var slug := FindFreeSlug(base, seen);
    return Ok(row["slug" := Str(slug)]);
  }

  /** What the loop knows after i rows: the fill succeeds exactly when the
      rest of it does, and then its result is the rows done so far followed
      by the rest. */
  ghost predicate FilledUpTo(orig: seq<Row>, done: seq<Row>, i: nat, seen: set<Json>)
    requires i <= |orig|
  {
    && (FillSpec(orig).Ok? <==> Fill(orig[i..], seen, i).Ok?)
    && (Fill(orig[i..], seen, i).Ok? ==> FillSpec(orig).value == done + Fill(orig[i..], seen, i).value)
  }

  lemma FilledUpToStart(orig: seq<Row>)
    ensures FilledUpTo(orig, [], 0, {})
  {
    assert orig[0..] == orig;
  }

  /** One more row done. */
  lemma FilledUpToStep(orig: seq<Row>, done: seq<Row>, i: nat, seen: set<Json>, row: Row)
    requires i < |orig| && FilledUpTo(orig, done, i, seen)
    requires FillRow(orig[i], i, seen) == Ok(row) && Hashable(row["slug"])
    ensures FilledUpTo(orig, done + [row], i + 1, seen + {row["slug"]})
  {
    var tail := orig[i..];
    assert tail[0] == orig[i] && tail[1..] == orig[i + 1..];
    FillUnfold(tail, seen, i, row);
    hide FillRow, Fill;
  }

  /** An exception at row i stops the fill. */
  lemma FilledUpToStop(orig: seq<Row>, done: seq<Row>, i: nat, seen: set<Json>)
    requires i < |orig| && FilledUpTo(orig, done, i, seen)
    requires FillRow(orig[i], i, seen).Err?
      || (FillRow(orig[i], i, seen).Ok? && !Hashable(FillRow(orig[i], i, seen).value["slug"]))
    ensures FillSpec(orig).Err?
  {
    var tail := orig[i..];
    assert tail[0] == orig[i];
    if FillRow(orig[i], i, seen).Err? {
      FillUnfoldErr(tail, seen, i);
    } else {
      FillUnfold(tail, seen, i, FillRow(orig[i], i, seen).value);
    }
  }

  /** After the last row the fill has succeeded with the rows done. */
  lemma FilledUpToEnd(orig: seq<Row>, done: seq<Row>, seen: set<Json>)
    requires FilledUpTo(orig, done, |orig|, seen)
    ensures FillSpec(orig) == Ok(done)
  {
    assert orig[|orig|..] == [];
    FillEmpty(seen, |orig|);
    assert done + [] == done;
  }

  /** `main`'s loop over the rows, updating each row in place; `false` when
      the script would stop with an exception. */
  method FillSlugs(rows: array<Row>) returns (ok: bool)
    modifies rows
    ensures ok <==> FillSpec(old(rows[..])).Ok?
    ensures ok ==> rows[..] == FillSpec(old(rows[..])).value
  {
    ghost var orig := rows[..];
    hide MigrateSlugify, SlugBody, FreeSlug, NameOf, NeedsSlug, FillRow, Fill, FillSpec, FilledUpTo;
    var seen: set<Json> := {};
    FilledUpToStart(orig);
    assert rows[..0] == [];
    for i := 0 to rows.Length
      invariant forall j :: i <= j < rows.Length ==> rows[j] == orig[j]
      invariant FilledUpTo(orig, rows[..i], i, seen)
    {
      var res := FillOne(rows[i], i, seen);
      if res.Err? || !Hashable(res.value["slug"]) {
        FilledUpToStop(orig, rows[..i], i, seen);
        return false;
      }
      ghost var done := rows[..i];
      FilledUpToStep(orig, done, i, seen, res.value);
      rows[i] := res.value;
      assert rows[..i + 1] == done + [res.value];
      seen := seen + {res.value["slug"]};
    }
    assert rows[..rows.Length] == rows[..];
    FilledUpToEnd(orig, rows[..], seen);
    return true;
  }

  /** The slugs of the given rows. */
  function SlugsOf(rows: seq<Row>): set<Json> {
    set r | r in rows && "slug" in r :: r["slug"]
  }

  lemma SlugsOfCons(row: Row, rest: seq<Row>, j: nat)
    requires "slug" in row && j <= |rest|
    ensures SlugsOf(([row] + rest)[..j + 1]) == {row["slug"]} + SlugsOf(rest[..j])
  {
    assert ([row] + rest)[..j + 1] == [row] + rest[..j];
  }

  /** A successful fill has one row per input row. */
  lemma {:induction false} FillLength(rows: seq<Row>, seen: set<Json>, i0: nat)
    requires Fill(rows, seen, i0).Ok?
    ensures |Fill(rows, seen, i0).value| == |rows|
    decreases |rows|
  {
    if rows != [] {
      var row := FillRow(rows[0], i0, seen).value;
      FillLength(rows[1..], seen + {row["slug"]}, i0 + 1);
    }
  }

  /** Row j of the result is row j of the input after the loop body, with
      the slugs of the result's rows 0..j-1 (and the initial `seen`) as
      the seen set: after each row, `seen` holds the slug of every row so
      far. */
  lemma {:induction false} FillRowsAt(rows: seq<Row>, seen: set<Json>, i0: nat, j: nat)
    requires Fill(rows, seen, i0).Ok? && j < |rows|
    ensures var out := Fill(rows, seen, i0).value;
      && |out| == |rows|
      && FillRow(rows[j], i0 + j, seen + SlugsOf(out[..j])) == Ok(out[j])
      && Hashable(out[j]["slug"])
    decreases j
  {
    hide MigrateSlugify, SlugBody, FreeSlug, NameOf, NeedsSlug, FillRow;
    FillLength(rows, seen, i0);
    var row := FillRow(rows[0], i0, seen).value;
    var seen' := seen + {row["slug"]};
    FillUnfold(rows, seen, i0, row);
    var out := Fill(rows, seen, i0).value;
    var rest := Fill(rows[1..], seen', i0 + 1).value;
    assert out == [row] + rest;
    hide Fill;
    if j == 0 {
      assert out[..0] == [] && SlugsOf([]) == {};
      assert seen + SlugsOf(out[..0]) == seen;
    } else {
      FillRowsAt(rows[1..], seen', i0 + 1, j - 1);
      SlugsOfCons(row, rest, j - 1);
      assert seen' + SlugsOf(rest[..j - 1]) == seen + SlugsOf(out[..j]);
      assert rows[j] == rows[1..][j - 1] && out[j] == rest[j - 1];
    }
  }

  /** The loop's promises: the rows keep their number, a row that has a
      non-blank slug is left unchanged, and a generated slug is well formed
      and not among the slugs of the rows before it. */
  lemma FillSpecProperties(rows: seq<Row>, j: nat)
    requires FillSpec(rows).Ok? && j < |rows|
    ensures var out := FillSpec(rows).value;
      && |out| == |rows| && "slug" in out[j]
      && (!NeedsSlug(rows[j]) ==> out[j] == rows[j])
      && (NeedsSlug(rows[j]) ==>
            && out[j]["slug"].Str? && ValidSlug(out[j]["slug"].s)
            && (forall i :: 0 <= i < j ==> "slug" in out[i] && out[i]["slug"] != out[j]["slug"]))
  {
    hide MigrateSlugify, SlugBody, FreeSlug, NameOf, NeedsSlug, FillRow, Fill;
    var out := FillSpec(rows).value;
    FillRowsAt(rows, {}, 0, j);
    assert {} + SlugsOf(out[..j]) == SlugsOf(out[..j]);
    FillRowProperties(rows[j], j, SlugsOf(out[..j]));
    forall i | 0 <= i < j
      ensures ("slug" in out[i] && out[i]["slug"] != out[j]["slug"]) || !NeedsSlug(rows[j])
    {
      FillRowsAt(rows, {}, 0, i);
      assert out[..j][i] == out[i];
      assert out[i]["slug"] in SlugsOf(out[..j]);
    }
  }

  /** The slug chosen for a row that needs one is `base` or `base-k` for
      the first attempt not yet seen. */
  lemma FillChoosesFirstFree(rows: seq<Row>, j: nat)
    requires FillSpec(rows).Ok? && j < |rows| && NeedsSlug(rows[j])
    ensures var out := FillSpec(rows).value;
      && j < |out| && NameOf(rows[j], j).Ok? && "slug" in out[j]
      && var seen := SlugsOf(out[..j]);
        var base := MigrateSlugify(NameOf(rows[j], j).value);
        var k := FreeFrom(base, seen, 1);
        && out[j]["slug"] == Str(Candidate(base, k))
        && (forall i :: 1 <= i < k ==> Str(Candidate(base, i)) in seen)
  {
    var out := FillSpec(rows).value;
    FillRowsAt(rows, {}, 0, j);
    hide MigrateSlugify, SlugBody, Fill, FillSpec;
    assert {} + SlugsOf(out[..j]) == SlugsOf(out[..j]);
  }

  // ---- a slug given to a row can clash with a later row's own slug ----

  /** For any well-formed slug `a`: a first row named `a` without a slug
      gets the slug `a`, and a second row whose own slug is `a` keeps it, so
      both rows end up with the slug `a`. */
  lemma DuplicateSlugExample(a: string, rows: seq<Row>)
    requires ValidSlug(a) && a != ""
    requires |rows| == 2 && "slug" !in rows[0] && "name" in rows[0] && rows[0]["name"] == Str(a)
    requires "slug" in rows[1] && rows[1]["slug"] == Str(a)
    ensures FillSpec(rows) == Ok([rows[0]["slug" := Str(a)], rows[1]])
    ensures rows[0]["slug" := Str(a)]["slug"] == rows[1]["slug"]
  {
    hide MigrateSlugify, SlugBody, FreeSlug, NameOf, NeedsSlug, FillRow, Fill;
    var r0 := rows[0]["slug" := Str(a)];
    var tail := rows[1..];
    var seen1 := {} + {r0["slug"]};
    var seen2 := seen1 + {tail[0]["slug"]};
    NamedRowGetsName(a, rows[0], 0, {});
    SluggedRowKept(a, tail[0], 1, seen1);
    assert tail[1..] == [];
    FillEmpty(seen2, 2);
    FillUnfold(rows, {}, 0, r0);
    FillUnfold(tail, seen1, 1, tail[0]);
    assert [tail[0]] + [] == [tail[0]] && [r0] + [tail[0]] == [r0, tail[0]];
  }

  lemma NamedRowGetsName(a: string, row: Row, i: nat, seen: set<Json>)
    requires ValidSlug(a) && a != "" && Str(a) !in seen
    requires "slug" !in row && "name" in row && row["name"] == Str(a)
    ensures FillRow(row, i, seen) == Ok(row["slug" := Str(a)])
  {
    MigrateSlugifyFixesValid(a);
    hide MigrateSlugify, SlugBody;
  }

  lemma SluggedRowKept(a: string, row: Row, i: nat, seen: set<Json>)
    requires ValidSlug(a) && a != "" && "slug" in row && row["slug"] == Str(a)
    ensures FillRow(row, i, seen) == Ok(row)
  {
    hide MigrateSlugify, SlugBody, FreeSlug;
    assert Strip(a) == a;
  }

  /** The slugs rows already have. */
  function ExistingSlugs(rows: seq<Row>): set<Json> {
    set r | r in rows && !NeedsSlug(r) :: r["slug"]
  }

  /** The loop with `seen` started from the slugs that rows already have. */
  function FillUnique(rows: seq<Row>): Result<seq<Row>> {
    Fill(rows, ExistingSlugs(rows), 0)
  }

  /** With `seen` seeded, a generated slug differs from the slug of every
      other row. */
  lemma FillUniqueDistinct(rows: seq<Row>, i: nat, j: nat)
    requires FillUnique(rows).Ok? && i < |rows| && j < |rows| && i != j && NeedsSlug(rows[i])
    ensures var out := FillUnique(rows).value;
      && |out| == |rows| && "slug" in out[i] && "slug" in out[j]
      && out[i]["slug"] != out[j]["slug"]
  {
    hide MigrateSlugify, SlugBody, FreeSlug, NameOf, NeedsSlug, FillRow, Fill;
    var ex := ExistingSlugs(rows);
    var out := FillUnique(rows).value;
    FillRowsAt(rows, ex, 0, i);
    FillRowsAt(rows, ex, 0, j);
    FillRowProperties(rows[i], i, ex + SlugsOf(out[..i]));
    FillRowProperties(rows[j], j, ex + SlugsOf(out[..j]));
    if j < i {
      assert out[..i][j] == out[j];
      assert out[j]["slug"] in SlugsOf(out[..i]);
    } else if NeedsSlug(rows[j]) {
      assert out[..j][i] == out[i];
      assert out[i]["slug"] in SlugsOf(out[..j]);
    } else {
      assert rows[j] in rows;
      assert out[j]["slug"] in ex;
    }
  }
}
