/** The building blocks of the two slugifiers (main.py and
    scripts/migrate_sites_add_slugs.py): regex substitutions that replace a
    run of characters by one '-', and what a well-formed slug is. ASCII
    input is assumed, so Unicode normalisation is the identity. */
module Slugs {
  import opened Text

  /** The character classes whose runs the slugifiers squash. */
  datatype RunKind =
    | NotAlnum    // `[^a-z0-9]+`
    | Spaces      // `\s+`
    | Dashes      // `-{2,}` (a single '-' is replaced by itself)

  predicate InRun(k: RunKind, c: char) {
    match k
    case NotAlnum => !IsLowerAlnum(c)
    case Spaces => c in Whitespace
    case Dashes => c == '-'
  }

  predicate IsSlugChar(c: char) {
    IsLowerAlnum(c) || c == '-'
  }

  predicate SlugChars(s: string) {
    forall i :: 0 <= i < |s| ==> IsSlugChar(s[i])
  }

  predicate NoDoubleDash(s: string) {
    forall i :: 0 <= i < |s| - 1 ==> !(s[i] == '-' && s[i + 1] == '-')
  }

  /** Only `[a-z0-9-]`, no leading or trailing '-', and no "--". */
  predicate ValidSlug(s: string) {
    SlugChars(s) && NoDoubleDash(s) && (s != [] ==> s[0] != '-' && s[|s| - 1] != '-')
  }

  /** `s` without its leading run of class `k`. */
  function DropRun(s: string, k: RunKind): (r: string)
    ensures |r| <= |s| && r == s[|s| - |r|..]
    ensures r == [] || !InRun(k, r[0])
    ensures forall i :: 0 <= i < |s| - |r| ==> InRun(k, s[i])
  {
    if s != [] && InRun(k, s[0]) then DropRun(s[1..], k) else s
  }

  /** `re.sub(<class k>+, "-", s)`: every maximal run of class `k` becomes one '-'. */
  function SquashRuns(s: string, k: RunKind): string
    decreases |s|
  {
    if s == [] then []
    else if !InRun(k, s[0]) then [s[0]] + SquashRuns(s[1..], k)
    else "-" + SquashRuns(DropRun(s[1..], k), k)
  }

  /** Squashing keeps the characters outside the class and adds only '-';
      when '-' is in the class, the result has no "--". */
  lemma {:induction false} SquashRunsShape(s: string, k: RunKind)
    ensures forall i :: 0 <= i < |SquashRuns(s, k)| ==>
      SquashRuns(s, k)[i] == '-' || (SquashRuns(s, k)[i] in s && !InRun(k, SquashRuns(s, k)[i]))
    ensures InRun(k, '-') ==> NoDoubleDash(SquashRuns(s, k))
    decreases |s|
  {
    if s != [] {
      var tail := if !InRun(k, s[0]) then s[1..] else DropRun(s[1..], k);
      SquashRunsShape(tail, k);
      var r, t := SquashRuns(s, k), SquashRuns(tail, k);
      assert forall c :: c in tail ==> c in s;
      assert r[1..] == t;
      if InRun(k, '-') && InRun(k, s[0]) && t != [] {
        assert !InRun(k, tail[0]);
        assert t[0] == tail[0];
      }
    }
  }

  /** Squashing a string with no character of the class changes nothing. */
  lemma {:induction false} SquashRunsNone(s: string, k: RunKind)
    requires forall i :: 0 <= i < |s| ==> !InRun(k, s[i])
    ensures SquashRuns(s, k) == s
    decreases |s|
  {
    if s != [] {
      SquashRunsNone(s[1..], k);
    }
  }

  /** Squashing keeps a string whose only class members are single dashes. */
  lemma {:induction false} SquashRunsKeepsDashes(s: string, k: RunKind)
    requires InRun(k, '-') && NoDoubleDash(s)
    requires forall i :: 0 <= i < |s| ==> InRun(k, s[i]) ==> s[i] == '-'
    ensures SquashRuns(s, k) == s
    decreases |s|
  {
    if s != [] {
      SquashRunsKeepsDashes(s[1..], k);
      if InRun(k, s[0]) {
        assert DropRun(s[1..], k) == s[1..] by {
          if |s| > 1 {
            assert s[1] != '-';
          }
        }
      }
    }
  }

  /** Python's `re.sub(r"-{2,}", "-", s)`. */
  function CollapseDashes(s: string): string {
    SquashRuns(s, Dashes)
  }

  /** `s.strip("-")`. */
  function StripDashes(s: string): string {
    Trim(s, {'-'})
  }

  lemma NoDoubleDashSlice(s: string, a: nat, b: nat)
    requires a <= b <= |s| && NoDoubleDash(s)
    ensures NoDoubleDash(s[a..b])
  {
    forall i | 0 <= i < b - a - 1 ensures !(s[a..b][i] == '-' && s[a..b][i + 1] == '-') {
      assert s[a..b][i] == s[a + i] && s[a..b][i + 1] == s[a + i + 1];
    }
  }

  /** Stripping the dashes of a string of slug characters without "--"
      gives a valid slug. */
  lemma StripDashesValid(s: string)
    requires SlugChars(s) && NoDoubleDash(s)
    ensures ValidSlug(StripDashes(s))
  {
    hide TrimStart, TrimEnd;
    var t := TrimStart(s, {'-'});
    var a := |s| - |t|;
    var r := TrimEnd(t, {'-'});
    assert r == s[a..a + |r|];
    NoDoubleDashSlice(s, a, a + |r|);
    assert forall i :: 0 <= i < |r| ==> r[i] == s[a + i];
  }
}
