/**
 * Python's insertion-ordered `dict`, as a sequence of key/value pairs.
 * Assignment `d[k] = v` keeps the position of an existing key and replaces its value,
 * or appends a new pair; lookup finds the first pair with that key.
 */
module PyDict {
  import opened Wrappers

  type Dict<K, V> = seq<(K, V)>

  function KeySet<K, V>(d: Dict<K, V>): set<K> {
    if |d| == 0 then {} else {d[0].0} + KeySet(d[1..])
  }

  function KeySeq<K, V>(d: Dict<K, V>): seq<K> {
    if |d| == 0 then [] else [d[0].0] + KeySeq(d[1..])
  }

  ghost predicate UniqueKeys<K, V>(d: Dict<K, V>) {
    forall i, j | 0 <= i < j < |d| :: d[i].0 != d[j].0
  }

  /** `d.get(k)`: the value of the first pair whose key is `k`. */
  function Find<K(==), V>(d: Dict<K, V>, k: K): Option<V> {
    if |d| == 0 then None
    else if d[0].0 == k then Some(d[0].1)
    else Find(d[1..], k)
  }

  /** A key is found exactly when it is present, and what is found is paired with it. */
  lemma {:induction false} FindSpec<K, V>(d: Dict<K, V>, k: K)
    ensures Find(d, k).Some? <==> k in KeySet(d)
    ensures Find(d, k).Some? ==> (k, Find(d, k).value) in d
  {
    if |d| > 0 && d[0].0 != k {
      FindSpec(d[1..], k);
      if Find(d, k).Some? {
        var i :| 0 <= i < |d[1..]| && d[1..][i] == (k, Find(d, k).value);
        assert d[i + 1] == (k, Find(d, k).value);
      }
    }
  }

  /** `d[k] = v`. */
  function Put<K(==,!new), V>(d: Dict<K, V>, k: K, v: V): (r: Dict<K, V>)
    ensures Find(r, k) == Some(v)
    ensures forall k' | k' != k :: Find(r, k') == Find(d, k')
    ensures KeySeq(r) == if k in KeySet(d) then KeySeq(d) else KeySeq(d) + [k]
    ensures KeySet(r) == KeySet(d) + {k}
  {
    if |d| == 0 then [(k, v)]
    else if d[0].0 == k then
      var r := [(k, v)] + d[1..];
      assert r[1..] == d[1..];
      r
    else
      var rest := Put(d[1..], k, v);
      var r := [d[0]] + rest;
      assert r[1..] == rest;
      r
  }

  lemma {:induction false} KeySetInSeq<K, V>(d: Dict<K, V>)
    ensures forall i | 0 <= i < |d| :: d[i].0 in KeySet(d)
    ensures forall k | k in KeySet(d) :: exists i | 0 <= i < |d| :: d[i].0 == k
  {
    if |d| > 0 {
      KeySetInSeq(d[1..]);
      forall i | 1 <= i < |d| ensures d[i].0 in KeySet(d) { assert d[1..][i - 1] == d[i]; }
      forall k | k in KeySet(d) ensures exists i | 0 <= i < |d| :: d[i].0 == k {
        if k != d[0].0 {
          var j :| 0 <= j < |d[1..]| && d[1..][j].0 == k;
          assert d[j + 1].0 == k;
        }
      }
    }
  }

  /** Assignment keeps every key unique. */
  lemma {:induction false} PutUnique<K(!new), V>(d: Dict<K, V>, k: K, v: V)
    requires UniqueKeys(d)
    ensures UniqueKeys(Put(d, k, v))
  {
    var r := Put(d, k, v);
    if |d| > 0 && d[0].0 != k {
      var tail := d[1..];
      assert UniqueKeys(tail) by {
        forall i, j | 0 <= i < j < |tail| ensures tail[i].0 != tail[j].0 {
          assert tail[i] == d[i + 1] && tail[j] == d[j + 1];
        }
      }
      var rest := Put(tail, k, v);
      PutUnique(tail, k, v);
      assert r == [d[0]] + rest;
      assert d[0].0 !in KeySet(tail) by {
        KeySetInSeq(tail);
        forall j | 0 <= j < |tail| ensures tail[j].0 != d[0].0 {
          assert tail[j] == d[j + 1];
        }
      }
      assert d[0].0 !in KeySet(rest);
      KeySetInSeq(rest);
      forall i, j | 0 <= i < j < |r| ensures r[i].0 != r[j].0 {
        assert r[j] == rest[j - 1];
        if i > 0 { assert r[i] == rest[i - 1]; }
      }
    } else if |d| > 0 {
      assert r == [(k, v)] + d[1..];
      forall i, j | 0 <= i < j < |r| ensures r[i].0 != r[j].0 {
        assert r[j] == d[j];
        if i > 0 { assert r[i] == d[i]; }
      }
    }
  }

  /** A run of assignments `d[k] = v`, in order. */
  function PutAll<K(==,!new), V>(d: Dict<K, V>, kvs: seq<(K, V)>): Dict<K, V>
    decreases |kvs|
  {
    if |kvs| == 0 then d
    else Put(PutAll(d, kvs[..|kvs| - 1]), kvs[|kvs| - 1].0, kvs[|kvs| - 1].1)
  }

  /** The value of the last assignment to `k`, if any. */
  function LastOf<K(==), V>(kvs: seq<(K, V)>, k: K): (r: Option<V>)
    decreases |kvs|
  {
    if |kvs| == 0 then None
    else if kvs[|kvs| - 1].0 == k then Some(kvs[|kvs| - 1].1)
    else LastOf(kvs[..|kvs| - 1], k)
  }

  /** The last assignment is the one that shows, and keys never assigned keep their value. */
  lemma {:induction false} PutAllFind<K(!new), V>(d: Dict<K, V>, kvs: seq<(K, V)>, k: K)
    ensures Find(PutAll(d, kvs), k) == if LastOf(kvs, k).Some? then LastOf(kvs, k) else Find(d, k)
    decreases |kvs|
  {
    if |kvs| > 0 {
      PutAllFind(d, kvs[..|kvs| - 1], k);
    }
  }

  /** Some assignment is to `k` exactly when `k` has a last assignment, and no later one is. */
  lemma {:induction false} LastOfSpec<K, V>(kvs: seq<(K, V)>, k: K)
    ensures LastOf(kvs, k).Some? <==> exists i | 0 <= i < |kvs| :: kvs[i].0 == k
    ensures LastOf(kvs, k).Some? ==> exists i | 0 <= i < |kvs| ::
      kvs[i] == (k, LastOf(kvs, k).value) && forall j | i < j < |kvs| :: kvs[j].0 != k
    decreases |kvs|
  {
    if |kvs| > 0 {
      var init := kvs[..|kvs| - 1];
      LastOfSpec(init, k);
      if kvs[|kvs| - 1].0 != k {
        if exists i | 0 <= i < |kvs| :: kvs[i].0 == k {
          var i :| 0 <= i < |kvs| && kvs[i].0 == k;
          assert init[i].0 == k;
        }
        if LastOf(kvs, k).Some? {
          var i :| 0 <= i < |init| && init[i] == (k, LastOf(kvs, k).value) && forall j | i < j < |init| :: init[j].0 != k;
          assert kvs[i] == init[i];
          forall j | i < j < |kvs| ensures kvs[j].0 != k {
            if j < |init| { assert kvs[j] == init[j]; }
          }
        }
      }
    }
  }

  /** Two runs of assignments, one after the other. */
  lemma {:induction false} PutAllAppend<K(!new), V>(d: Dict<K, V>, a: seq<(K, V)>, b: seq<(K, V)>)
    ensures PutAll(d, a + b) == PutAll(PutAll(d, a), b)
    decreases |b|
  {
    if |b| > 0 {
      assert (a + b)[..|a + b| - 1] == a + b[..|b| - 1];
      PutAllAppend(d, a, b[..|b| - 1]);
    } else {
      assert a + b == a;
    }
  }

  /** One more assignment at the end of a run. */
  lemma PutAllSnoc<K(!new), V>(d: Dict<K, V>, a: seq<(K, V)>, k: K, v: V)
    ensures PutAll(d, a + [(k, v)]) == Put(PutAll(d, a), k, v)
  {
    assert (a + [(k, v)])[..|a|] == a;
  }

  /** The assignments a loop makes: one `d[key] = value` per item that passes `keep`, in order. */
  function Assignments<T, K, V>(xs: seq<T>, keep: T -> bool, kv: T -> (K, V)): seq<(K, V)>
    decreases |xs|
  {
    if |xs| == 0 then []
    else Assignments(xs[..|xs| - 1], keep, kv) + (if keep(xs[|xs| - 1]) then [kv(xs[|xs| - 1])] else [])
  }

  /** Every assignment comes from an item that passes `keep`, and every such item makes one. */
  lemma {:induction false} AssignmentsFrom<T, K, V>(xs: seq<T>, keep: T -> bool, kv: T -> (K, V), w: (K, V))
    ensures w in Assignments(xs, keep, kv) <==> exists i | 0 <= i < |xs| :: keep(xs[i]) && w == kv(xs[i])
    decreases |xs|
  {
    if |xs| > 0 {
      var init := xs[..|xs| - 1];
      AssignmentsFrom(init, keep, kv, w);
      assert forall i | 0 <= i < |init| :: init[i] == xs[i];
    }
  }

  /** The loop step: item `i` makes its assignment, or none when it fails `keep`. */
  lemma PutAllAssignmentsStep<T, K(!new), V>(d: Dict<K, V>, xs: seq<T>, i: nat, keep: T -> bool, kv: T -> (K, V))
    requires i < |xs|
    ensures PutAll(d, Assignments(xs[..i + 1], keep, kv)) ==
      if keep(xs[i]) then Put(PutAll(d, Assignments(xs[..i], keep, kv)), kv(xs[i]).0, kv(xs[i]).1)
      else PutAll(d, Assignments(xs[..i], keep, kv))
  {
    assert xs[..i + 1][..i] == xs[..i];
    var a := Assignments(xs[..i], keep, kv);
    if keep(xs[i]) {
      PutAllSnoc(d, a, kv(xs[i]).0, kv(xs[i]).1);
    } else {
      assert a + [] == a;
    }
  }

  /**
   * After a loop of assignments from an empty dict, a key is present exactly when some
   * item assigned it, and its value is that of the last such item.
   */
  lemma AssignedLast<T, K(!new), V>(xs: seq<T>, keep: T -> bool, kv: T -> (K, V), k: K)
    ensures Find(PutAll([], Assignments(xs, keep, kv)), k).Some? <==>
      exists i | 0 <= i < |xs| :: keep(xs[i]) && kv(xs[i]).0 == k
    ensures Find(PutAll([], Assignments(xs, keep, kv)), k).Some? ==> exists i | 0 <= i < |xs| ::
      keep(xs[i]) && kv(xs[i]) == (k, Find(PutAll([], Assignments(xs, keep, kv)), k).value) &&
      forall j | i < j < |xs| :: !(keep(xs[j]) && kv(xs[j]).0 == k)
  {
    PutAllFind([], Assignments(xs, keep, kv), k);
    AssignedLastOf(xs, keep, kv, k);
  }

  lemma {:induction false} AssignedLastOf<T, K, V>(xs: seq<T>, keep: T -> bool, kv: T -> (K, V), k: K)
    ensures LastOf(Assignments(xs, keep, kv), k).Some? <==>
      exists i | 0 <= i < |xs| :: keep(xs[i]) && kv(xs[i]).0 == k
    ensures LastOf(Assignments(xs, keep, kv), k).Some? ==> exists i | 0 <= i < |xs| ::
      keep(xs[i]) && kv(xs[i]) == (k, LastOf(Assignments(xs, keep, kv), k).value) &&
      forall j | i < j < |xs| :: !(keep(xs[j]) && kv(xs[j]).0 == k)
    decreases |xs|
  {
    if |xs| > 0 {
      var n := |xs| - 1;
      var init := xs[..n];
      AssignedLastOf(init, keep, kv, k);
      assert forall i | 0 <= i < n :: init[i] == xs[i];
      var a := Assignments(init, keep, kv);
      AssignmentsLast(xs, keep, kv, k);
      var r := LastOf(Assignments(xs, keep, kv), k);
      if !(keep(xs[n]) && kv(xs[n]).0 == k) {
        if r.Some? {
          var i :| 0 <= i < n && keep(init[i]) && kv(init[i]) == (k, r.value) &&
            forall j | i < j < n :: !(keep(init[j]) && kv(init[j]).0 == k);
          assert keep(xs[i]) && kv(xs[i]) == (k, r.value);
        }
        if exists i | 0 <= i < |xs| :: keep(xs[i]) && kv(xs[i]).0 == k {
          var i :| 0 <= i < |xs| && keep(xs[i]) && kv(xs[i]).0 == k;
          assert keep(init[i]) && kv(init[i]).0 == k;
        }
      }
    }
  }

  /** The last assignment to `k` after one more item: that item's, when it assigns `k`. */
  lemma AssignmentsLast<T, K, V>(xs: seq<T>, keep: T -> bool, kv: T -> (K, V), k: K)
    requires |xs| > 0
    ensures var n := |xs| - 1;
      LastOf(Assignments(xs, keep, kv), k) ==
        if keep(xs[n]) && kv(xs[n]).0 == k then Some(kv(xs[n]).1) else LastOf(Assignments(xs[..n], keep, kv), k)
  {
    var n := |xs| - 1;
    var a := Assignments(xs[..n], keep, kv);
    if keep(xs[n]) {
      assert Assignments(xs, keep, kv) == a + [kv(xs[n])];
      assert (a + [kv(xs[n])])[..|a|] == a;
    } else {
      assert Assignments(xs, keep, kv) == a + [];
      assert a + [] == a;
    }
  }

  /** The assignments of two runs of items, one after the other. */
  lemma {:induction false} AssignmentsAppend<T, K, V>(a: seq<T>, b: seq<T>, keep: T -> bool, kv: T -> (K, V))
    ensures Assignments(a + b, keep, kv) == Assignments(a, keep, kv) + Assignments(b, keep, kv)
    decreases |b|
  {
    if |b| == 0 {
      assert a + b == a;
    } else {
      var b' := b[..|b| - 1];
      assert (a + b)[..|a + b| - 1] == a + b';
      AssignmentsAppend(a, b', keep, kv);
    }
  }

  /** Assignments never create a second pair for a key. */
  lemma {:induction false} PutAllUnique<K(!new), V>(d: Dict<K, V>, kvs: seq<(K, V)>)
    requires UniqueKeys(d)
    ensures UniqueKeys(PutAll(d, kvs))
    decreases |kvs|
  {
    if |kvs| > 0 {
      PutAllUnique(d, kvs[..|kvs| - 1]);
      PutUnique(PutAll(d, kvs[..|kvs| - 1]), kvs[|kvs| - 1].0, kvs[|kvs| - 1].1);
    }
  }

  /** `list(d.values())`, in insertion order. */
  function Values<K, V>(d: Dict<K, V>): (r: seq<V>)
    ensures |r| == |d|
    ensures forall i | 0 <= i < |d| :: r[i] == d[i].1
  {
    seq(|d|, i requires 0 <= i < |d| => d[i].1)
  }

  /** With one pair per key, looking up the key of a pair finds that pair's value. */
  lemma {:induction false} FindUnique<K, V>(d: Dict<K, V>, i: nat)
    requires UniqueKeys(d)
    requires i < |d|
    ensures Find(d, d[i].0) == Some(d[i].1)
  {
    if i > 0 {
      assert UniqueKeys(d[1..]);
      FindUnique(d[1..], i - 1);
    }
  }
}
