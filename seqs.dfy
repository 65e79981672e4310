/** Sequence idioms the modelled scripts repeat: the "seen set" de-duplication
    that keeps the first element per key, and sums for averages. */
module Seqs {

  /** The keys of the elements of `xs`. */
  function KeySet<T(==), K(==)>(xs: seq<T>, key: T -> K): set<K> {
    set x | x in xs :: key(x)
  }

  lemma KeySetAppend<T, K>(xs: seq<T>, x: T, key: T -> K)
    ensures KeySet(xs + [x], key) == KeySet(xs, key) + {key(x)}
  {
    assert forall y :: y in xs + [x] <==> y in xs || y == x;
  }

  /** Python's `for x in xs: if key(x) not in seen: seen.add(key(x)); out.append(x)`. */
  function DedupeBy<T(==), K(==)>(xs: seq<T>, key: T -> K): seq<T> {
    if xs == [] then []
    else
      var d := DedupeBy(xs[..|xs| - 1], key);
      var x := xs[|xs| - 1];
      if key(x) in KeySet(d, key) then d else d + [x]
  }

  /** One more element: kept exactly when its key is new. */
  lemma DedupeByAppend<T, K>(xs: seq<T>, x: T, key: T -> K)
    ensures DedupeBy(xs + [x], key) ==
      if key(x) in KeySet(DedupeBy(xs, key), key) then DedupeBy(xs, key) else DedupeBy(xs, key) + [x]
  {
    assert (xs + [x])[..|xs|] == xs;
  }

  /** The loop itself, with `seen` kept beside `out`. */
  method DedupeLoop<T(==), K(==)>(xs: seq<T>, key: T -> K) returns (out: seq<T>)
    ensures out == DedupeBy(xs, key)
  {
    assert xs[..0] == [] && DedupeBy(xs[..0], key) == [];
    hide DedupeBy;
    out := [];
    var seen: set<K> := {};
    for j := 0 to |xs|
      invariant out == DedupeBy(xs[..j], key)
      invariant seen == KeySet(out, key)
    {
      var x := xs[j];
      assert xs[..j + 1] == xs[..j] + [x];
      DedupeByAppend(xs[..j], x, key);
      if key(x) !in seen {
        KeySetAppend(out, x, key);
        seen := seen + {key(x)};
        out := out + [x];
      }
    }
    assert xs[..|xs|] == xs;
  }

  /** The position of the first element of `xs` whose key is `k`. */
  function FirstIndex<T(==), K(==)>(xs: seq<T>, key: T -> K, k: K): (r: nat)
    requires k in KeySet(xs, key)
    ensures r < |xs| && key(xs[r]) == k
    ensures forall j :: 0 <= j < r ==> key(xs[j]) != k
  {
    if key(xs[0]) == k then 0
    else
      assert k in KeySet(xs[1..], key) by {
        var x :| x in xs && key(x) == k;
        var i :| 0 <= i < |xs| && xs[i] == x;
        assert xs[1..][i - 1] == x;
      }
      1 + FirstIndex(xs[1..], key, k)
  }

  lemma FirstIndexIs<T, K>(xs: seq<T>, key: T -> K, k: K, r: nat)
    requires r < |xs| && key(xs[r]) == k
    requires forall j :: 0 <= j < r ==> key(xs[j]) != k
    ensures k in KeySet(xs, key) && FirstIndex(xs, key, k) == r
  {
    assert xs[r] in xs;
  }

  lemma FirstIndexPrefix<T, K>(xs: seq<T>, x: T, key: T -> K, k: K)
    requires k in KeySet(xs, key)
    ensures k in KeySet(xs + [x], key)
    ensures FirstIndex(xs + [x], key, k) == FirstIndex(xs, key, k)
  {
    var f := FirstIndex(xs, key, k);
    FirstIndexIs(xs + [x], key, k, f);
  }

  /** De-duplication keeps exactly the keys of its input, and only input elements. */
  lemma {:induction false} DedupeByKeys<T, K>(xs: seq<T>, key: T -> K)
    ensures KeySet(DedupeBy(xs, key), key) == KeySet(xs, key)
    ensures forall y :: y in DedupeBy(xs, key) ==> y in xs
  {
    if xs != [] {
      var p, x := xs[..|xs| - 1], xs[|xs| - 1];
      assert xs == p + [x];
      DedupeByKeys(p, key);
      var d := DedupeBy(p, key);
      KeySetAppend(p, x, key);
      KeySetAppend(d, x, key);
    }
  }

  /** Each kept element is the first element of the input with its key, and
      kept elements come in the order of those first occurrences; in
      particular no two kept elements share a key. */
  lemma {:induction false} DedupeByFirstOccurrences<T, K>(xs: seq<T>, key: T -> K)
    ensures forall i :: 0 <= i < |DedupeBy(xs, key)| ==>
      key(DedupeBy(xs, key)[i]) in KeySet(xs, key) &&
      DedupeBy(xs, key)[i] == xs[FirstIndex(xs, key, key(DedupeBy(xs, key)[i]))]
    ensures forall i, j :: 0 <= i < j < |DedupeBy(xs, key)| ==>
      FirstIndex(xs, key, key(DedupeBy(xs, key)[i])) < FirstIndex(xs, key, key(DedupeBy(xs, key)[j]))
  {
    if xs != [] {
      var p, x := xs[..|xs| - 1], xs[|xs| - 1];
      assert xs == p + [x];
      DedupeByFirstOccurrences(p, key);
      DedupeByKeys(p, key);
      var d := DedupeBy(p, key);
      forall i | 0 <= i < |d|
        ensures key(d[i]) in KeySet(xs, key)
        ensures FirstIndex(xs, key, key(d[i])) == FirstIndex(p, key, key(d[i]))
      {
        FirstIndexPrefix(p, x, key, key(d[i]));
      }
      if key(x) !in KeySet(d, key) {
        var r := d + [x];
        assert forall j :: 0 <= j < |p| ==> key(p[j]) != key(x) by {
          forall j | 0 <= j < |p| ensures key(p[j]) != key(x) {
            assert p[j] in p;
          }
        }
        FirstIndexIs(xs, key, key(x), |p|);
        forall i | 0 <= i < |d| ensures FirstIndex(xs, key, key(r[i])) < |p| {
          assert r[i] == d[i];
        }
      }
    }
  }

  /** De-duplication leaves a sequence whose keys are already distinct unchanged. */
  lemma {:induction false} DedupeByDistinct<T, K>(xs: seq<T>, key: T -> K)
    requires forall i, j :: 0 <= i < j < |xs| ==> key(xs[i]) != key(xs[j])
    ensures DedupeBy(xs, key) == xs
  {
    if xs != [] {
      var p, x := xs[..|xs| - 1], xs[|xs| - 1];
      DedupeByDistinct(p, key);
      assert key(x) !in KeySet(p, key) by {
        forall y | y in p ensures key(y) != key(x) {
          var i :| 0 <= i < |p| && p[i] == y;
          assert y == xs[i];
        }
      }
    }
  }

  /** No two elements of a de-duplicated sequence share a key. */
  lemma DedupeByNoDuplicates<T, K>(xs: seq<T>, key: T -> K)
    ensures forall i, j :: 0 <= i < j < |DedupeBy(xs, key)| ==>
      key(DedupeBy(xs, key)[i]) != key(DedupeBy(xs, key)[j])
  {
    DedupeByFirstOccurrences(xs, key);
  }

  /** No two elements are equal. */
  predicate NoDuplicates<T(==)>(xs: seq<T>) {
    forall i, j :: 0 <= i < j < |xs| ==> xs[i] != xs[j]
  }

  function Sum(xs: seq<real>): real {
    if xs == [] then 0.0 else Sum(xs[..|xs| - 1]) + xs[|xs| - 1]
  }

  /** Python's `statistics.mean` (or `sum(xs)/len(xs)`) on exact reals. */
  function Mean(xs: seq<real>): real
    requires xs != []
  {
    Sum(xs) / (|xs| as real)
  }

  /** The mean of `xs` is below `b`, stated without a division. */
  predicate MeanBelow(xs: seq<real>, b: real) {
    xs != [] && Sum(xs) < b * (|xs| as real)
  }

  lemma MeanBelowIff(xs: seq<real>, b: real)
    requires xs != []
    ensures Mean(xs) < b <==> MeanBelow(xs, b)
  {
    var n := |xs| as real;
    var m := Mean(xs);
    assert m * n == Sum(xs);
    if m < b {
      assert m * n < b * n;
    } else {
      assert m * n >= b * n;
    }
  }
}
