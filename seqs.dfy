/**
 * List idioms the scripts repeat: order-preserving de-duplication with a `seen` set,
 * filtering, and Python's `xs[:n]`.
 */
module Seqs {

  function Filter<T>(xs: seq<T>, keep: T -> bool): (r: seq<T>)
    ensures |r| <= |xs|
    decreases |xs|
  {
    if |xs| == 0 then []
    else Filter(xs[..|xs| - 1], keep) + (if keep(xs[|xs| - 1]) then [xs[|xs| - 1]] else [])
  }

  lemma {:induction false} FilterIn<T>(xs: seq<T>, keep: T -> bool, x: T)
    ensures x in Filter(xs, keep) <==> x in xs && keep(x)
    decreases |xs|
  {
    if |xs| > 0 {
      FilterIn(xs[..|xs| - 1], keep, x);
      if x in xs && x != xs[|xs| - 1] {
        var i :| 0 <= i < |xs| && xs[i] == x;
        assert xs[..|xs| - 1][i] == x;
      }
    }
  }

  /** Filtering distributes over concatenation. */
  lemma {:induction false} FilterAppend<T>(a: seq<T>, b: seq<T>, keep: T -> bool)
    ensures Filter(a + b, keep) == Filter(a, keep) + Filter(b, keep)
    decreases |b|
  {
    if |b| == 0 {
      assert a + b == a;
    } else {
      var b' := b[..|b| - 1];
      assert (a + b)[..|a + b| - 1] == a + b';
      FilterAppend(a, b', keep);
    }
  }

  /**
   * The last item kept is the last item of the list that passes: every item after it
   * is dropped.
   */
  lemma {:induction false} FilterLast<T>(xs: seq<T>, keep: T -> bool)
    requires |Filter(xs, keep)| > 0
    ensures exists i | 0 <= i < |xs| ::
      xs[i] == Filter(xs, keep)[|Filter(xs, keep)| - 1] && keep(xs[i]) &&
      forall j | i < j < |xs| :: !keep(xs[j])
    decreases |xs|
  {
    var n := |xs| - 1;
    if !keep(xs[n]) {
      var init := xs[..n];
      FilterLast(init, keep);
      var i :| 0 <= i < |init| && init[i] == Filter(init, keep)[|Filter(init, keep)| - 1] &&
        keep(init[i]) && forall j | i < j < |init| :: !keep(init[j]);
      forall j | i < j < |xs| ensures !keep(xs[j]) {
        if j < n { assert xs[j] == init[j]; }
      }
      assert xs[i] == init[i];
    }
  }

  /** A filter every item passes keeps the list as it is. */
  lemma {:induction false} FilterAllKept<T>(xs: seq<T>, keep: T -> bool)
    requires forall i | 0 <= i < |xs| :: keep(xs[i])
    ensures Filter(xs, keep) == xs
    decreases |xs|
  {
    if |xs| > 0 {
      FilterAllKept(xs[..|xs| - 1], keep);
      assert xs[..|xs| - 1] + [xs[|xs| - 1]] == xs;
    }
  }

  /** A prefix every item of which passes the filter is kept whole. */
  lemma FilterKeptPrefix<T>(xs: seq<T>, n: nat, keep: T -> bool)
    requires n <= |xs|
    requires forall i | 0 <= i < n :: keep(xs[i])
    ensures Filter(xs, keep) == xs[..n] + Filter(xs[n..], keep)
  {
    var a, b := xs[..n], xs[n..];
    SplitAt(xs, n);
    forall i | 0 <= i < |a| ensures keep(a[i]) { assert a[i] == xs[i]; }
    FilterAllKept(a, keep);
    FilterAppend(a, b, keep);
  }

  lemma SplitAt<T>(xs: seq<T>, n: nat)
    requires n <= |xs|
    ensures xs[..n] + xs[n..] == xs
  {
  }

  /** The keys of the items of `xs`. */
  function KeysOf<T, K>(xs: seq<T>, key: T -> K): set<K>
    decreases |xs|
  {
    if |xs| == 0 then {} else KeysOf(xs[..|xs| - 1], key) + {key(xs[|xs| - 1])}
  }

  lemma {:induction false} KeysOfSpec<T, K>(xs: seq<T>, key: T -> K, k: K)
    ensures k in KeysOf(xs, key) <==> exists i | 0 <= i < |xs| :: key(xs[i]) == k
    decreases |xs|
  {
    if |xs| > 0 {
      var init := xs[..|xs| - 1];
      KeysOfSpec(init, key, k);
      assert forall i | 0 <= i < |init| :: init[i] == xs[i];
    }
  }

  /** The first item of each key, in order: what a `seen`-set loop keeps. */
  function Dedup<T, K(==)>(xs: seq<T>, key: T -> K): seq<T>
    decreases |xs|
  {
    if |xs| == 0 then []
    else
      var init := xs[..|xs| - 1];
      Dedup(init, key) + (if key(xs[|xs| - 1]) in KeysOf(init, key) then [] else [xs[|xs| - 1]])
  }

  /** De-duplication keeps every key, and only the keys it was given. */
  lemma {:induction false} DedupKeys<T, K>(xs: seq<T>, key: T -> K)
    ensures KeysOf(Dedup(xs, key), key) == KeysOf(xs, key)
    decreases |xs|
  {
    if |xs| > 0 {
      var init := xs[..|xs| - 1];
      DedupKeys(init, key);
      var last := xs[|xs| - 1];
      var d := Dedup(init, key);
      if key(last) !in KeysOf(init, key) {
        assert (d + [last])[..|d + [last]| - 1] == d;
      } else {
        assert d + [] == d;
      }
    }
  }

  /** No two kept items share a key. */
  lemma {:induction false} DedupDistinct<T, K>(xs: seq<T>, key: T -> K)
    ensures forall i, j | 0 <= i < j < |Dedup(xs, key)| :: key(Dedup(xs, key)[i]) != key(Dedup(xs, key)[j])
    decreases |xs|
  {
    if |xs| > 0 {
      var init := xs[..|xs| - 1];
      DedupDistinct(init, key);
      var d := Dedup(init, key);
      var last := xs[|xs| - 1];
      if key(last) !in KeysOf(init, key) {
        DedupKeys(init, key);
        var r := d + [last];
        forall i, j | 0 <= i < j < |r| ensures key(r[i]) != key(r[j]) {
          if j == |d| {
            KeysOfSpec(d, key, key(d[i]));
            assert key(d[i]) in KeysOf(d, key);
          }
        }
      }
    }
  }

  /** An item is kept exactly when it occurs and no earlier item has its key. */
  lemma {:induction false} DedupIn<T, K>(xs: seq<T>, key: T -> K, x: T)
    ensures x in Dedup(xs, key) <==>
      exists i | 0 <= i < |xs| :: xs[i] == x && forall j | 0 <= j < i :: key(xs[j]) != key(x)
    decreases |xs|
  {
    if |xs| > 0 {
      var n := |xs| - 1;
      var init := xs[..n];
      DedupIn(init, key, x);
      KeysOfSpec(init, key, key(xs[n]));
      assert forall i | 0 <= i < n :: init[i] == xs[i];
      if exists i | 0 <= i < |xs| :: xs[i] == x && forall j | 0 <= j < i :: key(xs[j]) != key(x) {
        var i :| 0 <= i < |xs| && xs[i] == x && forall j | 0 <= j < i :: key(xs[j]) != key(x);
        if i < n {
          assert init[i] == x && forall j | 0 <= j < i :: key(init[j]) != key(x);
        }
      }
    }
  }

  /** Every key of the input is the key of some kept item. */
  lemma DedupCovers<T, K>(xs: seq<T>, key: T -> K, x: T)
    requires x in xs
    ensures exists i | 0 <= i < |Dedup(xs, key)| :: key(Dedup(xs, key)[i]) == key(x)
  {
    DedupKeys(xs, key);
    KeysOfSpec(xs, key, key(x));
    KeysOfSpec(Dedup(xs, key), key, key(x));
  }

  /** De-duplicating twice changes nothing. */
  lemma DedupIdempotent<T, K>(xs: seq<T>, key: T -> K)
    ensures Dedup(Dedup(xs, key), key) == Dedup(xs, key)
  {
    DedupDistinct(xs, key);
    DistinctFixed(Dedup(xs, key), key);
  }

  lemma {:induction false} DistinctFixed<T, K>(ys: seq<T>, key: T -> K)
    requires forall i, j | 0 <= i < j < |ys| :: key(ys[i]) != key(ys[j])
    ensures Dedup(ys, key) == ys
    decreases |ys|
  {
    if |ys| > 0 {
      var n := |ys| - 1;
      var init, last := ys[..n], ys[n];
      forall i, j | 0 <= i < j < |init| ensures key(init[i]) != key(init[j]) {
        assert init[i] == ys[i] && init[j] == ys[j];
      }
      DistinctFixed(init, key);
      forall i | 0 <= i < |init| ensures key(init[i]) != key(last) {
        assert init[i] == ys[i];
      }
      KeysOfSpec(init, key, key(last));
      assert Dedup(ys, key) == Dedup(init, key) + [last];
      SnocInit(ys);
    }
  }

  lemma SnocInit<T>(ys: seq<T>)
    requires |ys| > 0
    ensures ys[..|ys| - 1] + [ys[|ys| - 1]] == ys
  {
  }

  /**
   * The `seen`/`out` loop: for each item that passes `keep`, append it unless its key was
   * seen, and add the key to `seen`.
   */
  method DedupLoop<T, K(==)>(xs: seq<T>, keep: T -> bool, key: T -> K) returns (out: seq<T>)
    ensures out == Dedup(Filter(xs, keep), key)
  {
    var seen: set<K> := {};
    out := [];
    var i := 0;
    while i < |xs|
      invariant 0 <= i <= |xs|
      invariant out == Dedup(Filter(xs[..i], keep), key)
      invariant seen == KeysOf(Filter(xs[..i], keep), key)
    {
      FilterStep(xs, i, keep);
      var f := Filter(xs[..i], keep);
      if keep(xs[i]) {
        DedupSnoc(f, xs[i], key);
        if key(xs[i]) !in seen {
          seen := seen + {key(xs[i])};
          out := out + [xs[i]];
        }
      }
      i := i + 1;
    }
    assert xs[..i] == xs;
  }

  /** One more item of the input: it is kept, or not, at the end. */
  lemma FilterStep<T>(xs: seq<T>, i: nat, keep: T -> bool)
    requires i < |xs|
    ensures keep(xs[i]) ==> Filter(xs[..i + 1], keep) == Filter(xs[..i], keep) + [xs[i]]
    ensures !keep(xs[i]) ==> Filter(xs[..i + 1], keep) == Filter(xs[..i], keep)
  {
    assert xs[..i + 1][..i] == xs[..i];
    assert Filter(xs[..i], keep) + [] == Filter(xs[..i], keep);
  }

  /** One more item of the de-duplicated list, and its key. */
  lemma DedupSnoc<T, K>(f: seq<T>, x: T, key: T -> K)
    ensures key(x) in KeysOf(f, key) ==> Dedup(f + [x], key) == Dedup(f, key)
    ensures key(x) !in KeysOf(f, key) ==> Dedup(f + [x], key) == Dedup(f, key) + [x]
    ensures KeysOf(f + [x], key) == KeysOf(f, key) + {key(x)}
  {
    assert (f + [x])[..|f|] == f;
    assert Dedup(f, key) + [] == Dedup(f, key);
  }

  /** Python's `xs[:n]`: a negative `n` counts from the end. */
  function SliceTo<T>(xs: seq<T>, n: int): (r: seq<T>)
    ensures 0 <= n ==> r == xs[..if n < |xs| then n else |xs|]
    ensures n < 0 ==> r == xs[..if |xs| + n > 0 then |xs| + n else 0]
  {
    if n >= 0 then (if n < |xs| then xs[..n] else xs)
    else if |xs| + n > 0 then xs[..|xs| + n] else []
  }

  /** The concatenation of a list of lists, as `+=` of each in turn builds it. */
  function Flatten<T>(xss: seq<seq<T>>): seq<T>
    decreases |xss|
  {
    if |xss| == 0 then [] else Flatten(xss[..|xss| - 1]) + xss[|xss| - 1]
  }
}
