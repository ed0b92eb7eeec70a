/**
 * Running a batch of Cypher statements a second time, on the graph the first run left.
 * Each statement is brought to a form in which running it again changes nothing
 * (`Done`); later statements keep that form when they write other properties of the
 * same node, repeat the statement exactly, or never make a node an earlier edge waited
 * for. A batch of that shape (`Rerunnable`) is idempotent as a whole.
 */
module Rerun {
  import opened Wrappers
  import opened PyValue
  import opened Graph

  /** The keys of the map of a `SET n += m`. */
  function MergeKeys(merge: seq<(string, Value)>): set<string> {
    set i | 0 <= i < |merge| :: merge[i].0
  }

  /** The properties a statement may write on a node it matches. */
  function WrittenKeys(st: Stmt): set<string> {
    match st
    case MergeNodeS(_, _, _, m, a) => KeysOf(m) + KeysOf(a)
    case MatchSetS(_, _, items, merge) => KeysOf(items) + MergeKeys(merge)
    case MergeEdgeS(_, _, _, _) => {}
  }

  /** A statement about one node (a MERGE or a MATCH ... SET), as opposed to an edge MERGE. */
  predicate OnNode(st: Stmt) {
    st.MergeNodeS? || st.MatchSetS?
  }

  /** The shape of every statement the ingest scripts issue. */
  predicate WellFormed(st: Stmt) {
    match st
    case MergeNodeS(_, _, c, m, a) => WellFormedMerge(c, m, a)
    case MatchSetS(_, _, items, merge) => DistinctKeys(items) && KeysOf(items) !! MergeKeys(merge)
    case MergeEdgeS(_, _, _, dstLabel) => dstLabel == ""
  }

  /**
   * No node MERGE after position `i` makes `x` for the first time: `x` was there before
   * the batch, a MERGE before `i` made it, or no MERGE after `i` names it.
   */
  ghost predicate Anchored(s: State, stmts: seq<Stmt>, i: int, x: string) {
    x in s.nodes ||
    (exists k | 0 <= k < i && k < |stmts| :: stmts[k].MergeNodeS? && stmts[k].id == x) ||
    forall k | i < k < |stmts| && 0 <= k :: !(stmts[k].MergeNodeS? && stmts[k].id == x)
  }

  /** Each MATCH ... SET comes right after a MERGE of its node. */
  predicate Paired(stmts: seq<Stmt>) {
    forall i | 0 <= i < |stmts| && stmts[i].MatchSetS? ::
      0 < i && stmts[i - 1].MergeNodeS? && stmts[i - 1].id == stmts[i].id
  }

  lemma PairedAppend(a: seq<Stmt>, b: seq<Stmt>)
    requires Paired(a) && Paired(b)
    ensures Paired(a + b)
  {
    forall i | 0 <= i < |a + b| && (a + b)[i].MatchSetS?
      ensures 0 < i && (a + b)[i - 1].MergeNodeS? && (a + b)[i - 1].id == (a + b)[i].id
    {
      if i >= |a| {
        assert (a + b)[i] == b[i - |a|];
        assert (a + b)[i - 1] == b[i - 1 - |a|];
      }
    }
  }

  /** A loop whose every iteration issues a paired batch issues a paired batch. */
  lemma {:induction false} PairedConcatMap<T>(xs: seq<T>, f: T -> seq<Stmt>)
    requires forall k | 0 <= k < |xs| :: Paired(f(xs[k]))
    ensures Paired(ConcatMap(xs, f))
    decreases |xs|
  {
    if |xs| > 0 {
      var init := xs[..|xs| - 1];
      assert forall k | 0 <= k < |init| :: init[k] == xs[k];
      PairedConcatMap(init, f);
      PairedAppend(ConcatMap(init, f), f(xs[|xs| - 1]));
    }
  }

  /**
   * A batch whose statements are well formed; in which two statements on the same node
   * are the same statement or write apart properties; in which each MATCH ... SET comes
   * right after the MERGE of its node; and whose edges name no node that a later MERGE
   * makes for the first time.
   */
  ghost predicate Rerunnable(s: State, stmts: seq<Stmt>) {
    (forall i | 0 <= i < |stmts| :: WellFormed(stmts[i])) &&
    (forall i, j | 0 <= i < |stmts| && 0 <= j < |stmts| && OnNode(stmts[i]) && OnNode(stmts[j]) &&
                   stmts[i].id == stmts[j].id ::
       stmts[i] == stmts[j] || WrittenKeys(stmts[i]) !! WrittenKeys(stmts[j])) &&
    Paired(stmts) &&
    (forall i | 0 <= i < |stmts| && stmts[i].MergeEdgeS? && stmts[i].src.Str? && stmts[i].dst.Str? ::
       Anchored(s, stmts, i, stmts[i].src.s) && Anchored(s, stmts, i, stmts[i].dst.s))
  }

  // ----- a statement that is done -----

  /** Every item holds in `p`, and Neo4j stores every value it assigns. */
  predicate AllHold(p: Props, items: seq<Assign>) {
    forall i | 0 <= i < |items| :: Holds(p, items[i]) && (items[i].Overwrite? ==> Storable(items[i].value))
  }

  /** Key `k` of `p` already is what the last entry for it in a `SET n += m` writes. */
  predicate Agrees(p: Props, k: string, last: Option<Value>) {
    match last
    case None => true
    case Some(v) => if v == Null then k !in p else k in p && p[k] == v
  }

  /** `SET n += merge` raises nothing and leaves `p` as it is. */
  ghost predicate MergeHolds(p: Props, merge: seq<(string, Value)>) {
    MergeOk(merge) && forall k :: Agrees(p, k, LastFor(merge, k))
  }

  /**
   * `st` is done in `t`: a MERGE found its node and every ON MATCH and SET item holds
   * there (or a second node carries its labels); a MATCH ... SET found its node and its
   * items hold when the node has the label; an edge is there, or an endpoint is missing.
   */
  ghost predicate Done(t: State, st: Stmt) {
    match st
    case MergeNodeS(id, labels, _, m, a) =>
      id in t.nodes &&
      if labels <= t.nodes[id].labels then AllHold(t.nodes[id].props, m) && AllHold(t.nodes[id].props, a)
      else TwinHas(t.twins, id, labels)
    case MatchSetS(id, need, items, merge) =>
      id in t.nodes &&
      ((need == "" || need in t.nodes[id].labels) ==>
         AllHold(t.nodes[id].props, items) && MergeHolds(t.nodes[id].props, merge))
    case MergeEdgeS(src, dst, rel, _) =>
      src.Str? && dst.Str? ==>
        Edge(src.s, dst.s, rel) in t.edges || src.s !in t.nodes || dst.s !in t.nodes
  }

  lemma AgreesAll(p: Props, merge: seq<(string, Value)>)
    requires forall k :: Agrees(p, k, LastFor(merge, k))
    ensures MergeProps(p, merge) == p
  {
    forall k ensures (k in MergeProps(p, merge) <==> k in p) && (k in p ==> MergeProps(p, merge)[k] == p[k]) {
      MergePropsAt(p, merge, k);
    }
  }

  /** A key some entry of the map names is one of its keys. */
  lemma {:induction false} LastForIn(merge: seq<(string, Value)>, k: string)
    requires LastFor(merge, k).Some?
    ensures k in MergeKeys(merge)
    decreases |merge|
  {
    if merge[|merge| - 1].0 != k {
      LastForIn(merge[..|merge| - 1], k);
      var i :| 0 <= i < |merge| - 1 && merge[..|merge| - 1][i].0 == k;
      assert merge[i].0 == k;
    }
  }

  /** A done statement changes nothing when it runs again. */
  lemma DoneSettled(t: State, st: Stmt)
    requires t.failure.None? && Done(t, st)
    ensures Step(t, st) == t
  {
    match st
    case MergeNodeS(id, labels, c, m, a) =>
      if labels <= t.nodes[id].labels {
        var p := t.nodes[id].props;
        HoldsStores(p, m);
        HoldsStores(p, a);
        assert t.nodes[id := Node(t.nodes[id].labels, Merged(p, m, a))] == t.nodes;
      }
    case MatchSetS(id, need, items, merge) =>
      if need == "" || need in t.nodes[id].labels {
        var p := t.nodes[id].props;
        HoldsStores(p, items);
        AgreesAll(p, merge);
        assert MatchSet(t.nodes, id, need, items, merge) == t.nodes;
      }
    case MergeEdgeS(src, dst, rel, _) =>
      if src.Str? && dst.Str? && Edge(src.s, dst.s, rel) in t.edges {
        assert t.edges + {Edge(src.s, dst.s, rel)} == t.edges;
      }
  }

  /** The items of a SET clause that ran without error hold afterwards, and the SET after it keeps them. */
  lemma SetThenHold(p: Props, first: seq<Assign>, always: seq<Assign>)
    requires DistinctKeys(first) && DistinctKeys(always) && KeysOf(first) !! KeysOf(always)
    requires MergedOk(p, first, always)
    ensures AllHold(Merged(p, first, always), first) && AllHold(Merged(p, first, always), always)
  {
    var q := ApplyAll(p, first);
    AppliedHolds(p, first);
    OverwritesStorable(p, first);
    HoldsAfter(q, first, always);
    AppliedHolds(q, always);
    OverwritesStorable(q, always);
  }

  /** A MERGE that created its node leaves every ON MATCH and SET item holding. */
  lemma CreateThenHold(id: string, c: seq<Assign>, m: seq<Assign>, a: seq<Assign>)
    requires WellFormedMerge(c, m, a)
    requires MergedOk(Fresh(id), c, a)
    ensures AllHold(Merged(Fresh(id), c, a), m) && AllHold(Merged(Fresh(id), c, a), a)
  {
    var p := Fresh(id);
    var q := ApplyAll(p, c);
    ImpliedHold(p, c, m);
    OverwritesStorable(p, c);
    forall i | 0 <= i < |m| && m[i].Overwrite? ensures Storable(m[i].value) {
      var j :| 0 <= j < |c| && c[j] == m[i];
    }
    HoldsAfter(q, m, a);
    AppliedHolds(q, a);
    OverwritesStorable(q, a);
  }

  /** A MATCH ... SET that ran without error leaves its items and its map holding. */
  lemma MatchThenHold(p: Props, items: seq<Assign>, merge: seq<(string, Value)>)
    requires DistinctKeys(items) && KeysOf(items) !! MergeKeys(merge)
    requires StoresOk(p, items) && MergeOk(merge)
    ensures AllHold(MergeProps(ApplyAll(p, items), merge), items)
    ensures MergeHolds(MergeProps(ApplyAll(p, items), merge), merge)
  {
    var p1 := ApplyAll(p, items);
    var q := MergeProps(p1, merge);
    AppliedHolds(p, items);
    OverwritesStorable(p, items);
    forall i | 0 <= i < |items| ensures Holds(q, items[i]) {
      var k := items[i].key;
      assert k in KeysOf(items);
      MergePropsKeyAbsent(merge, k);
      MergePropsAt(p1, merge, k);
      HoldsSameKey(p1, q, items[i]);
    }
    forall k ensures Agrees(q, k, LastFor(merge, k)) {
      MergePropsAt(p1, merge, k);
    }
  }

  /** A statement that ran without error is done right after. */
  lemma StepDone(t: State, st: Stmt)
    requires t.failure.None? && WellFormed(st) && Step(t, st).failure.None?
    requires st.MatchSetS? ==> st.id in t.nodes
    ensures Done(Step(t, st), st)
  {
    match st
    case MergeNodeS(id, labels, c, m, a) =>
      if id in t.nodes && labels <= t.nodes[id].labels {
        SetThenHold(t.nodes[id].props, m, a);
      } else if id in t.nodes {
        if !TwinHas(t.twins, id, labels) {
          assert (id, labels) in Step(t, st).twins;
        }
      } else {
        CreateThenHold(id, c, m, a);
      }
    case MatchSetS(id, need, items, merge) =>
      if need == "" || need in t.nodes[id].labels {
        MatchThenHold(t.nodes[id].props, items, merge);
      }
    case MergeEdgeS(_, _, _, _) =>
  }

  /** What one statement keeps: nodes, their labels, edges and second nodes stay; only a MERGE on `x` makes `x`. */
  lemma StepFrame(t: State, st2: Stmt, x: string)
    ensures var u := Step(t, st2);
      t.edges <= u.edges && t.twins <= u.twins &&
      (x in t.nodes ==> x in u.nodes && u.nodes[x].labels == t.nodes[x].labels) &&
      (x !in t.nodes && !(st2.MergeNodeS? && st2.id == x) ==> x !in u.nodes)
  {
  }

  /** A statement leaves alone every property of a node that it does not write. */
  lemma StepFrameKey(t: State, st2: Stmt, x: string, k: string)
    requires x in t.nodes
    requires OnNode(st2) && st2.id == x ==> k !in WrittenKeys(st2)
    ensures var u := Step(t, st2);
      x in u.nodes && (k in u.nodes[x].props <==> k in t.nodes[x].props) &&
      (k in t.nodes[x].props ==> u.nodes[x].props[k] == t.nodes[x].props[k])
  {
    if t.failure.None? && OnNode(st2) && st2.id == x {
      var p := t.nodes[x].props;
      match st2
      case MergeNodeS(_, labels, _, m, a) =>
        if labels <= t.nodes[x].labels {
          ApplyAllOther(p, m, k);
          ApplyAllOther(ApplyAll(p, m), a, k);
        }
      case MatchSetS(_, _, items, merge) =>
        ApplyAllOther(p, items, k);
        MergePropsKeyAbsent(merge, k);
        MergePropsAt(ApplyAll(p, items), merge, k);
    }
  }

  /** Items about keys a later statement does not write still hold after it. */
  lemma KeepHold(t: State, st2: Stmt, x: string, items: seq<Assign>)
    requires x in t.nodes && AllHold(t.nodes[x].props, items)
    requires OnNode(st2) && st2.id == x ==> KeysOf(items) !! WrittenKeys(st2)
    ensures AllHold(Step(t, st2).nodes[x].props, items)
  {
    StepFrame(t, st2, x);
    forall i | 0 <= i < |items| ensures Holds(Step(t, st2).nodes[x].props, items[i]) {
      assert items[i].key in KeysOf(items);
      StepFrameKey(t, st2, x, items[i].key);
      HoldsSameKey(t.nodes[x].props, Step(t, st2).nodes[x].props, items[i]);
    }
  }

  /**
   * A done statement stays done after a later one that does not raise, when the later one
   * repeats it or writes apart properties of its node, and makes no endpoint it waits for.
   */
  lemma KeepDone(t: State, st: Stmt, st2: Stmt)
    requires t.failure.None? && Step(t, st2).failure.None? && Done(t, st)
    requires st.MergeEdgeS? && st.src.Str? && st.dst.Str? && st2.MergeNodeS? && (st2.id == st.src.s || st2.id == st.dst.s)
             ==> st2.id in t.nodes
    requires OnNode(st) && OnNode(st2) && st.id == st2.id ==> st == st2 || WrittenKeys(st) !! WrittenKeys(st2)
    ensures Done(Step(t, st2), st)
  {
    if OnNode(st) && OnNode(st2) && st.id == st2.id && st == st2 {
      DoneSettled(t, st);
    } else {
      var u := Step(t, st2);
      match st
      case MergeNodeS(id, labels, _, m, a) =>
        StepFrame(t, st2, id);
        if labels <= t.nodes[id].labels {
          KeepHold(t, st2, id, m);
          KeepHold(t, st2, id, a);
        } else {
          var w :| w in t.twins && w.0 == id && labels <= w.1;
          assert w in u.twins;
        }
      case MatchSetS(id, need, items, merge) =>
        StepFrame(t, st2, id);
        if need == "" || need in t.nodes[id].labels {
          KeepHold(t, st2, id, items);
          forall k ensures Agrees(u.nodes[id].props, k, LastFor(merge, k)) {
            if LastFor(merge, k).Some? {
              LastForIn(merge, k);
              StepFrameKey(t, st2, id, k);
            }
          }
        }
      case MergeEdgeS(src, dst, _, _) =>
        if src.Str? && dst.Str? {
          StepFrame(t, st2, src.s);
          StepFrame(t, st2, dst.s);
        }
    }
  }

  // ----- the batch -----

  lemma ExecPrefix(s: State, stmts: seq<Stmt>, j: nat)
    requires 0 < j <= |stmts|
    ensures Exec(s, stmts[..j]) == Step(Exec(s, stmts[..j - 1]), stmts[j - 1])
  {
    assert stmts[..j][..j - 1] == stmts[..j - 1];
  }

  /** An error raised by a prefix of the batch is the batch's error. */
  lemma PrefixFailed(s: State, stmts: seq<Stmt>, j: nat)
    requires j <= |stmts|
    ensures Exec(s, stmts[..j]).failure.Some? ==> Exec(s, stmts).failure.Some?
  {
    ExecAppend(s, stmts[..j], stmts[j..]);
    assert stmts[..j] + stmts[j..] == stmts;
    if Exec(s, stmts[..j]).failure.Some? {
      ExecFailed(Exec(s, stmts[..j]), stmts[j..]);
    }
  }

  /** Nodes once there stay there. */
  lemma {:induction false} KeepNode(t: State, stmts: seq<Stmt>, x: string)
    requires x in t.nodes
    ensures x in Exec(t, stmts).nodes
    decreases |stmts|
  {
    if |stmts| > 0 {
      KeepNode(t, stmts[..|stmts| - 1], x);
      StepFrame(Exec(t, stmts[..|stmts| - 1]), stmts[|stmts| - 1], x);
    }
  }

  /** A node present after `k` statements is present after `j` >= k of them. */
  lemma NodeStays(s: State, stmts: seq<Stmt>, k: nat, j: nat, x: string)
    requires k <= j <= |stmts|
    requires x in Exec(s, stmts[..k]).nodes
    ensures x in Exec(s, stmts[..j]).nodes
  {
    ExecAppend(s, stmts[..k], stmts[k..j]);
    assert stmts[..k] + stmts[k..j] == stmts[..j];
    KeepNode(Exec(s, stmts[..k]), stmts[k..j], x);
  }

  /** After a node MERGE that raised nothing, its node exists. */
  lemma MergeMakes(s: State, stmts: seq<Stmt>, k: nat, j: nat)
    requires k < j <= |stmts| && stmts[k].MergeNodeS?
    requires Exec(s, stmts[..j]).failure.None?
    ensures stmts[k].id in Exec(s, stmts[..j]).nodes
  {
    ExecPrefix(s, stmts, k + 1);
    PrefixFailed(s, stmts[..j], k + 1);
    assert stmts[..j][..k + 1] == stmts[..k + 1];
    NodeStays(s, stmts, k + 1, j, stmts[k].id);
  }

  /** An edge's endpoint that a later MERGE names is there by the time that MERGE runs. */
  lemma EndpointThere(s: State, stmts: seq<Stmt>, i: nat, j: nat, x: string)
    requires Rerunnable(s, stmts)
    requires i < j < |stmts| && Exec(s, stmts[..j]).failure.None?
    requires stmts[i].MergeEdgeS? && stmts[i].src.Str? && stmts[i].dst.Str?
    requires x == stmts[i].src.s || x == stmts[i].dst.s
    requires stmts[j].MergeNodeS? && stmts[j].id == x
    ensures x in Exec(s, stmts[..j]).nodes
  {
    assert Anchored(s, stmts, i, x);
    if x in s.nodes {
      assert stmts[..0] == [];
      NodeStays(s, stmts, 0, j, x);
    } else if exists k | 0 <= k < i && k < |stmts| :: stmts[k].MergeNodeS? && stmts[k].id == x {
      var k :| 0 <= k < i && k < |stmts| && stmts[k].MergeNodeS? && stmts[k].id == x;
      MergeMakes(s, stmts, k, j);
    } else {
      assert false;
    }
  }

  /** In a batch that raised nothing, statement `i` is done from just after it to the end. */
  lemma {:induction false} DoneFrom(s: State, stmts: seq<Stmt>, i: nat, j: nat)
    requires Rerunnable(s, stmts)
    requires i < j <= |stmts| && Exec(s, stmts[..j]).failure.None?
    ensures Done(Exec(s, stmts[..j]), stmts[i])
    decreases j
  {
    var t := Exec(s, stmts[..j - 1]);
    ExecPrefix(s, stmts, j);
    assert WellFormed(stmts[j - 1]);
    if j == i + 1 {
      if stmts[i].MatchSetS? {
        assert Paired(stmts);
        MergeMakes(s, stmts, i - 1, i);
      }
      StepDone(t, stmts[i]);
    } else {
      DoneFrom(s, stmts, i, j - 1);
      var st, st2 := stmts[i], stmts[j - 1];
      if st.MergeEdgeS? && st.src.Str? && st.dst.Str? && st2.MergeNodeS? && (st2.id == st.src.s || st2.id == st.dst.s) {
        EndpointThere(s, stmts, i, j - 1, st2.id);
      }
      KeepDone(t, st, st2);
    }
  }

  /** On a state in which every statement is done, the batch changes nothing. */
  lemma {:induction false} AllDoneExec(t: State, stmts: seq<Stmt>)
    requires t.failure.None? && forall i | 0 <= i < |stmts| :: Done(t, stmts[i])
    ensures Exec(t, stmts) == t
    decreases |stmts|
  {
    if |stmts| > 0 {
      AllDoneExec(t, stmts[..|stmts| - 1]);
      DoneSettled(t, stmts[|stmts| - 1]);
    }
  }

  /** Running a rerunnable batch twice leaves the graph, and the error, as running it once. */
  lemma ExecTwice(s: State, stmts: seq<Stmt>)
    requires Rerunnable(s, stmts)
    ensures Exec(Exec(s, stmts), stmts) == Exec(s, stmts)
  {
    var r := Exec(s, stmts);
    if r.failure.Some? {
      ExecFailed(r, stmts);
    } else {
      assert stmts[..|stmts|] == stmts;
      forall i | 0 <= i < |stmts| ensures Done(r, stmts[i]) {
        DoneFrom(s, stmts, i, |stmts|);
      }
      AllDoneExec(r, stmts);
    }
  }
}
