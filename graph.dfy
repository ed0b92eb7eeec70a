/**
 * The property graph the ingest scripts write to, and the Cypher statements they issue,
 * each stated as an explicit update of that state:
 *   - `SET n.k = v` writes k, and removes it when v is null;
 *   - `SET n.k = coalesce(n.k, v)` fills k only when it is absent;
 *   - `SET n += m` writes every entry of m (null entries remove);
 *   - `MERGE (n:L1:L2 {globalId:id}) ON CREATE SET ... ON MATCH SET ...` matches a node
 *     only when it carries every label Li, and then applies ON MATCH; otherwise it creates
 *     a node, even when one with that `globalId` exists under other labels (MERGE never
 *     adds a label to a node);
 *   - `MATCH (a {globalId:x}),(b {globalId:y}) MERGE (a)-[:T]->(b)` adds the edge only when
 *     both endpoints exist, and never twice;
 *   - a property value must be a scalar or a list of scalars of one kind: writing a map, a
 *     mixed list or a list holding null raises a Cypher type error, which no script catches.
 * `nodes` holds the first node made for each `globalId`; a MERGE that made another node
 * for an id already present leaves that node's labels in `twins`. `failure` is the error
 * that ended the script: the statement that raised changed nothing, and none runs after it.
 */
module Graph {
  import opened Wrappers
  import opened PyValue

  type Props = map<string, Value>

  datatype Node = Node(labels: set<string>, props: Props)

  datatype Edge = Edge(src: string, dst: string, rel: string)

  /** One item of a SET clause: plain assignment, or `coalesce` (fill if absent). */
  datatype Assign = Overwrite(key: string, value: Value) | FillIn(key: string, value: Value)

  /** `SET n.k = v`: Neo4j stores no nulls, so a null value removes the property. */
  function SetProp(p: Props, k: string, v: Value): (r: Props)
    ensures v != Null ==> k in r && r[k] == v
    ensures v == Null ==> k !in r
    ensures forall k' | k' != k :: (k' in r <==> k' in p) && (k' in r ==> r[k'] == p[k'])
  {
    if v == Null then p - {k} else p[k := v]
  }

  /** `SET n.k = coalesce(n.k, v)`: an existing value is never replaced. */
  function FillProp(p: Props, k: string, v: Value): (r: Props)
    ensures k in p ==> r == p
    ensures k !in p ==> r == SetProp(p, k, v)
  {
    if k in p then p else SetProp(p, k, v)
  }

  function ApplyOne(p: Props, a: Assign): Props {
    match a
    case Overwrite(k, v) => SetProp(p, k, v)
    case FillIn(k, v) => FillProp(p, k, v)
  }

  /** The items of one SET clause, applied left to right. */
  function ApplyAll(p: Props, items: seq<Assign>): Props
    decreases |items|
  {
    if |items| == 0 then p else ApplyAll(ApplyOne(p, items[0]), items[1..])
  }

  /** `SET n += m` for a Python dict `m` passed as parameter. */
  function MergeProps(p: Props, m: seq<(string, Value)>): Props
    decreases |m|
  {
    if |m| == 0 then p else MergeProps(SetProp(p, m[0].0, m[0].1), m[1..])
  }

  // ----- what Neo4j stores -----

  /** The error Neo4j raises for a property value it cannot store. */
  const PropertyTypeError := "CypherTypeError"

  /** Bool, integer, float or string: what a stored list may hold. */
  predicate Primitive(v: Value) {
    v.Bool? || v.Int? || v.Float? || v.Str?
  }

  predicate SameKind(a: Value, b: Value) {
    a.Bool? == b.Bool? && a.Int? == b.Int? && a.Float? == b.Float? && a.Str? == b.Str?
  }

  /** A value Neo4j stores as a property (null removes one): no map, and only lists of primitives of one kind. */
  predicate Storable(v: Value) {
    match v
    case Dict(_) => false
    case List(items) => forall i | 0 <= i < |items| :: Primitive(items[i]) && SameKind(items[i], items[0])
    case _ => true
  }

  /** Whether Neo4j stores every value a SET clause writes from `p` on; a `coalesce` on a present key writes nothing new. */
  predicate StoresOk(p: Props, items: seq<Assign>)
    decreases |items|
  {
    |items| == 0 ||
    ((items[0].Overwrite? || items[0].key !in p ==> Storable(items[0].value)) &&
     StoresOk(ApplyOne(p, items[0]), items[1..]))
  }

  /** Whether Neo4j stores every value of the map of a `SET n += m`. */
  predicate MergeOk(m: seq<(string, Value)>) {
    forall i | 0 <= i < |m| :: Storable(m[i].1)
  }

  /** The properties a MERGE leaves on its node: `first` (ON CREATE or ON MATCH) applied to `p`, then SET. */
  function Merged(p: Props, first: seq<Assign>, always: seq<Assign>): Props {
    ApplyAll(ApplyAll(p, first), always)
  }

  predicate MergedOk(p: Props, first: seq<Assign>, always: seq<Assign>) {
    StoresOk(p, first) && StoresOk(ApplyAll(p, first), always)
  }

  /** A node MERGE creates: its `globalId` only, before the SET clauses. */
  function Fresh(id: string): Props {
    map["globalId" := Str(id)]
  }

  /** Some second node for `id` carries every label in `labels`. */
  predicate TwinHas(twins: set<(string, set<string>)>, id: string, labels: set<string>) {
    exists t | t in twins :: t.0 == id && labels <= t.1
  }

  /** `MATCH (n:need {globalId:id}) SET ...` on the first node for `id`: no change when it lacks the label. */
  function MatchSet(nodes: map<string, Node>, id: string, need: string, items: seq<Assign>,
                    merge: seq<(string, Value)>): map<string, Node>
  {
    if id in nodes && (need == "" || need in nodes[id].labels) then
      nodes[id := Node(nodes[id].labels, MergeProps(ApplyAll(nodes[id].props, items), merge))]
    else nodes
  }

  /** Every edge joins two existing nodes. */
  ghost predicate Closed(nodes: map<string, Node>, edges: set<Edge>) {
    forall e | e in edges :: e.src in nodes && e.dst in nodes
  }

  /**
   * One Cypher statement as the scripts issue it. Edge endpoints are the Python values
   * passed as `$a`/`$b`: only a string can equal a node's `globalId`.
   */
  datatype Stmt =
    | MergeNodeS(id: string, labels: set<string>, onCreate: seq<Assign>, onMatch: seq<Assign>, always: seq<Assign>)
    | MatchSetS(id: string, need: string, items: seq<Assign>, merge: seq<(string, Value)>)
    | MergeEdgeS(src: Value, dst: Value, rel: string, dstLabel: string)

  datatype State = State(nodes: map<string, Node>, edges: set<Edge>, twins: set<(string, set<string>)>,
                         failure: Option<string>)

  /** Edges join existing nodes, and a second node exists only beside a first one. */
  ghost predicate Consistent(s: State) {
    Closed(s.nodes, s.edges) && forall t | t in s.twins :: t.0 in s.nodes
  }

  /** Whether `MATCH (a {globalId:src}),(b:label {globalId:dst})` finds both endpoints. */
  predicate Endpoints(s: State, src: string, dst: string, dstLabel: string) {
    src in s.nodes && dst in s.nodes &&
    (dstLabel == "" || dstLabel in s.nodes[dst].labels || TwinHas(s.twins, dst, {dstLabel}))
  }

  function EdgeMerged(s: State, e: Edge, dstLabel: string): set<Edge> {
    if Endpoints(s, e.src, e.dst, dstLabel) then s.edges + {e} else s.edges
  }

  /** A node MERGE: match the first node, match a second one, create a second one, or create the first. */
  function MergeStep(s: State, id: string, labels: set<string>, c: seq<Assign>, m: seq<Assign>, a: seq<Assign>): State {
    if id in s.nodes && labels <= s.nodes[id].labels then
      var p := s.nodes[id].props;
      if MergedOk(p, m, a) then s.(nodes := s.nodes[id := Node(s.nodes[id].labels, Merged(p, m, a))])
      else s.(failure := Some(PropertyTypeError))
    else if id in s.nodes && TwinHas(s.twins, id, labels) then s
    else if !MergedOk(Fresh(id), c, a) then s.(failure := Some(PropertyTypeError))
    else if id in s.nodes then s.(twins := s.twins + {(id, labels)})
    else s.(nodes := s.nodes[id := Node(labels, Merged(Fresh(id), c, a))])
  }

  /** The effect of one statement; after an error nothing runs. */
  function Step(s: State, st: Stmt): State {
    if s.failure.Some? then s
    else
      match st
      case MergeNodeS(id, labels, c, m, a) => MergeStep(s, id, labels, c, m, a)
      case MatchSetS(id, need, items, merge) =>
        if id in s.nodes && (need == "" || need in s.nodes[id].labels) then
          if StoresOk(s.nodes[id].props, items) && MergeOk(merge) then s.(nodes := MatchSet(s.nodes, id, need, items, merge))
          else s.(failure := Some(PropertyTypeError))
        else s
      case MergeEdgeS(src, dst, rel, dstLabel) =>
        if src.Str? && dst.Str? then s.(edges := EdgeMerged(s, Edge(src.s, dst.s, rel), dstLabel))
        else s
  }

  /** The effect of a sequence of statements, run in order. */
  function Exec(s: State, stmts: seq<Stmt>): State
    decreases |stmts|
  {
    if |stmts| == 0 then s else Step(Exec(s, stmts[..|stmts| - 1]), stmts[|stmts| - 1])
  }

  lemma ExecSnoc(s: State, stmts: seq<Stmt>, st: Stmt)
    ensures Exec(s, stmts + [st]) == Step(Exec(s, stmts), st)
  {
    assert (stmts + [st])[..|stmts|] == stmts;
  }

  /** Running two batches one after the other is running their concatenation. */
  lemma {:induction false} ExecAppend(s: State, a: seq<Stmt>, b: seq<Stmt>)
    ensures Exec(s, a + b) == Exec(Exec(s, a), b)
    decreases |b|
  {
    if |b| == 0 {
      assert a + b == a;
    } else {
      var b' := b[..|b| - 1];
      ExecAppend(s, a, b');
      assert (a + b)[..|a + b| - 1] == a + b';
      assert (a + b)[|a + b| - 1] == b[|b| - 1];
    }
  }

  /** Once a statement has raised, the rest of the batch changes nothing. */
  lemma {:induction false} ExecFailed(s: State, stmts: seq<Stmt>)
    requires s.failure.Some?
    ensures Exec(s, stmts) == s
    decreases |stmts|
  {
    if |stmts| > 0 {
      ExecFailed(s, stmts[..|stmts| - 1]);
    }
  }

  /**
   * No statement removes a node, an edge or a second node, or changes the labels of a
   * node; edges keep joining existing nodes; an error, once raised, stays.
   */
  lemma {:induction false} ExecGrows(s: State, stmts: seq<Stmt>)
    requires Consistent(s)
    ensures var r := Exec(s, stmts);
      Consistent(r) && s.nodes.Keys <= r.nodes.Keys && s.edges <= r.edges && s.twins <= r.twins &&
      (forall id | id in s.nodes :: r.nodes[id].labels == s.nodes[id].labels) &&
      (s.failure.Some? ==> r == s) && (r.failure.None? ==> s.failure.None?)
    decreases |stmts|
  {
    if |stmts| > 0 {
      ExecGrows(s, stmts[..|stmts| - 1]);
    }
    if s.failure.Some? {
      ExecFailed(s, stmts);
    }
  }

  /** How many statements of the batch ran before one raised. */
  function Ran(s: State, stmts: seq<Stmt>): nat
    decreases |stmts|
  {
    if |stmts| == 0 then 0
    else Ran(s, stmts[..|stmts| - 1]) + (if Exec(s, stmts).failure.None? then 1 else 0)
  }

  /** Without an error, every statement ran. */
  lemma {:induction false} RanAll(s: State, stmts: seq<Stmt>)
    requires Exec(s, stmts).failure.None?
    ensures Ran(s, stmts) == |stmts|
    decreases |stmts|
  {
    if |stmts| > 0 {
      var init := stmts[..|stmts| - 1];
      assert Exec(s, init).failure.None?;
      RanAll(s, init);
    }
  }

  /** Statements issued after one that raised do not count as run. */
  lemma {:induction false} RanStops(s: State, a: seq<Stmt>, b: seq<Stmt>)
    requires Exec(s, a).failure.Some?
    ensures Ran(s, a + b) == Ran(s, a)
    decreases |b|
  {
    if |b| == 0 {
      assert a + b == a;
    } else {
      var b' := b[..|b| - 1];
      RanStops(s, a, b');
      assert (a + b)[..|a + b| - 1] == a + b';
      ExecAppend(s, a, b);
      ExecFailed(Exec(s, a), b);
    }
  }

  /** The statements issued for each item of `xs`, in order (a script's `for` loop). */
  function ConcatMap<T>(xs: seq<T>, f: T -> seq<Stmt>): seq<Stmt>
    decreases |xs|
  {
    if |xs| == 0 then [] else ConcatMap(xs[..|xs| - 1], f) + f(xs[|xs| - 1])
  }

  /** A statement is issued exactly when some item issues it. */
  lemma {:induction false} ConcatMapIn<T>(xs: seq<T>, f: T -> seq<Stmt>, st: Stmt)
    ensures st in ConcatMap(xs, f) <==> exists i | 0 <= i < |xs| :: st in f(xs[i])
    decreases |xs|
  {
    if |xs| > 0 {
      var init := xs[..|xs| - 1];
      ConcatMapIn(init, f, st);
      if st in ConcatMap(init, f) {
        var i :| 0 <= i < |init| && st in f(init[i]);
        assert xs[i] == init[i];
      }
      if exists i | 0 <= i < |xs| :: st in f(xs[i]) {
        var i :| 0 <= i < |xs| && st in f(xs[i]);
        if i < |xs| - 1 {
          assert init[i] == xs[i];
        }
      }
    }
  }

  /** The loop over two lists in turn issues the statements of each in turn. */
  lemma {:induction false} ConcatMapAppend<T>(xs: seq<T>, ys: seq<T>, f: T -> seq<Stmt>)
    ensures ConcatMap(xs + ys, f) == ConcatMap(xs, f) + ConcatMap(ys, f)
    decreases |ys|
  {
    if |ys| == 0 {
      assert xs + ys == xs;
    } else {
      ConcatMapAppend(xs, ys[..|ys| - 1], f);
      assert (xs + ys)[..|xs + ys| - 1] == xs + ys[..|ys| - 1];
    }
  }

  /** The statements of item `i` sit between those of the items before and after it. */
  lemma ConcatMapAt<T>(xs: seq<T>, i: nat, f: T -> seq<Stmt>)
    requires i < |xs|
    ensures ConcatMap(xs, f) == ConcatMap(xs[..i], f) + f(xs[i]) + ConcatMap(xs[i + 1..], f)
  {
    var a, b := xs[..i], xs[i + 1..];
    var ai := a + [xs[i]];
    assert ConcatMap([xs[i]], f) == f(xs[i]) by {
      assert [xs[i]][..0] == [];
    }
    ConcatMapAppend(a, [xs[i]], f);
    assert ConcatMap(ai, f) == ConcatMap(a, f) + f(xs[i]);
    assert ai + b == xs;
    ConcatMapAppend(ai, b, f);
  }

  /** The graph store and the session's error state. */
  class Store {
    var nodes: map<string, Node>
    var edges: set<Edge>
    var twins: set<(string, set<string>)>
    var failure: Option<string>

    function AsState(): State
      reads this
    {
      State(nodes, edges, twins, failure)
    }

    ghost predicate Valid()
      reads this
    {
      Consistent(AsState())
    }

    constructor ()
      ensures Valid() && AsState() == State(map[], {}, {}, None)
    {
      nodes := map[];
      edges := {};
      twins := {};
      failure := None;
    }

    /** `MERGE (n:labels {globalId:id}) ON CREATE SET onCreate ON MATCH SET onMatch SET always`. */
    method MergeNode(id: string, labels: set<string>, onCreate: seq<Assign>, onMatch: seq<Assign>,
                     always: seq<Assign>)
      requires Valid()
      modifies this
      ensures Valid()
      ensures AsState() == Step(old(AsState()), MergeNodeS(id, labels, onCreate, onMatch, always))
    {
      if failure.Some? {
        return;
      }
      if id in nodes && labels <= nodes[id].labels {
        var p := nodes[id].props;
        if MergedOk(p, onMatch, always) {
          nodes := nodes[id := Node(nodes[id].labels, Merged(p, onMatch, always))];
        } else {
          failure := Some(PropertyTypeError);
        }
      } else if id in nodes && TwinHas(twins, id, labels) {
      } else if !MergedOk(Fresh(id), onCreate, always) {
        failure := Some(PropertyTypeError);
      } else if id in nodes {
        twins := twins + {(id, labels)};
      } else {
        nodes := nodes[id := Node(labels, Merged(Fresh(id), onCreate, always))];
      }
    }

    /** `MATCH (n:need {globalId:id}) SET items SET n += merge` (need "" matches any node). */
    method MatchAndSet(id: string, need: string, items: seq<Assign>, merge: seq<(string, Value)>)
      requires Valid()
      modifies this
      ensures Valid()
      ensures AsState() == Step(old(AsState()), MatchSetS(id, need, items, merge))
    {
      if failure.None? && id in nodes && (need == "" || need in nodes[id].labels) {
        if StoresOk(nodes[id].props, items) && MergeOk(merge) {
          nodes := MatchSet(nodes, id, need, items, merge);
        } else {
          failure := Some(PropertyTypeError);
        }
      }
    }

    /** `MATCH (a {globalId:src}),(b:dstLabel {globalId:dst}) MERGE (a)-[:rel]->(b)`. */
    method MergeEdge(src: string, dst: string, rel: string, dstLabel: string)
      requires Valid()
      modifies this
      ensures Valid()
      ensures AsState() == Step(old(AsState()), MergeEdgeS(Str(src), Str(dst), rel, dstLabel))
    {
      if failure.None? {
        edges := EdgeMerged(AsState(), Edge(src, dst, rel), dstLabel);
      }
    }

    /** Issue the statements in order, as a script's session does. */
    method Run(stmts: seq<Stmt>)
      requires Valid()
      modifies this
      ensures Valid()
      ensures AsState() == Exec(old(AsState()), stmts)
    {
      var i := 0;
      while i < |stmts|
        invariant 0 <= i <= |stmts|
        invariant Valid()
        invariant AsState() == Exec(old(AsState()), stmts[..i])
      {
        ExecSnoc(old(AsState()), stmts[..i], stmts[i]);
        assert stmts[..i + 1] == stmts[..i] + [stmts[i]];
        match stmts[i] {
          case MergeNodeS(id, labels, c, m, a) => MergeNode(id, labels, c, m, a);
          case MatchSetS(id, need, items, merge) => MatchAndSet(id, need, items, merge);
          case MergeEdgeS(src, dst, rel, dstLabel) =>
            if src.Str? && dst.Str? {
              MergeEdge(src.s, dst.s, rel, dstLabel);
            }
        }
        i := i + 1;
      }
      assert stmts[..|stmts|] == stmts;
    }
  }

  /**
   * After a node MERGE that did not raise, some node for `id` carries all its labels; a
   * first node keeps its labels; a second node is made exactly when neither the first
   * node nor an earlier second one carried them all. A MERGE that raised changed nothing.
   */
  lemma MergeNodeOutcome(s: State, id: string, labels: set<string>, c: seq<Assign>, m: seq<Assign>, a: seq<Assign>)
    requires s.failure.None?
    ensures var r := Step(s, MergeNodeS(id, labels, c, m, a));
      (r.failure.Some? ==> r == s.(failure := Some(PropertyTypeError))) &&
      (r.failure.None? ==>
         id in r.nodes && (labels <= r.nodes[id].labels || TwinHas(r.twins, id, labels)) &&
         r.edges == s.edges &&
         (id in s.nodes ==> r.nodes[id].labels == s.nodes[id].labels) &&
         (r.twins != s.twins <==> id in s.nodes && !(labels <= s.nodes[id].labels) && !TwinHas(s.twins, id, labels)))
  {
    var r := Step(s, MergeNodeS(id, labels, c, m, a));
    if id in s.nodes && !(labels <= s.nodes[id].labels) && !TwinHas(s.twins, id, labels) && r.failure.None? {
      assert r.twins == s.twins + {(id, labels)};
      assert (id, labels) in r.twins && (id, labels) !in s.twins;
    }
  }

  /** An edge is added exactly when both endpoints exist and it is not there yet; never twice. */
  lemma EdgeMergeCount(s: State, e: Edge, dstLabel: string)
    ensures var r := EdgeMerged(s, e, dstLabel);
      |r| == |s.edges| + (if Endpoints(s, e.src, e.dst, dstLabel) && e !in s.edges then 1 else 0)
    ensures EdgeMerged(s.(edges := EdgeMerged(s, e, dstLabel)), e, dstLabel) == EdgeMerged(s, e, dstLabel)
  {
    if e in s.edges {
      assert s.edges + {e} == s.edges;
    }
  }

  /** Characterisation of `SET n += m`: the last entry for a key decides it. */
  function LastFor(m: seq<(string, Value)>, k: string): (r: Option<Value>)
    decreases |m|
  {
    if |m| == 0 then None
    else if m[|m| - 1].0 == k then Some(m[|m| - 1].1)
    else LastFor(m[..|m| - 1], k)
  }

  lemma {:induction false} MergePropsSnoc(p: Props, m: seq<(string, Value)>)
    requires |m| > 0
    ensures MergeProps(p, m) == SetProp(MergeProps(p, m[..|m| - 1]), m[|m| - 1].0, m[|m| - 1].1)
    decreases |m|
  {
    if |m| > 1 {
      MergePropsSnoc(SetProp(p, m[0].0, m[0].1), m[1..]);
      assert m[1..][..|m[1..]| - 1] == m[..|m| - 1][1..];
    }
  }

  lemma {:induction false} MergePropsAt(p: Props, m: seq<(string, Value)>, k: string)
    ensures LastFor(m, k).None? ==>
      ((k in MergeProps(p, m) <==> k in p) && (k in p ==> MergeProps(p, m)[k] == p[k]))
    ensures LastFor(m, k).Some? ==>
      ((k in MergeProps(p, m) <==> LastFor(m, k).value != Null) &&
       (k in MergeProps(p, m) ==> MergeProps(p, m)[k] == LastFor(m, k).value))
    decreases |m|
  {
    if |m| > 0 {
      MergePropsSnoc(p, m);
      MergePropsAt(p, m[..|m| - 1], k);
    }
  }

  /** `SET n += m` twice is `SET n += m` once. */
  lemma MergePropsIdempotent(p: Props, m: seq<(string, Value)>)
    ensures MergeProps(MergeProps(p, m), m) == MergeProps(p, m)
  {
    var q := MergeProps(p, m);
    forall k ensures (k in MergeProps(q, m) <==> k in q) && (k in q ==> MergeProps(q, m)[k] == q[k]) {
      MergePropsAt(p, m, k);
      MergePropsAt(q, m, k);
    }
  }

  /** `MATCH (n:need {globalId:id}) SET n.key = v` changes at most `key` of that one node. */
  lemma MatchSetOne(nodes: map<string, Node>, id: string, need: string, key: string, v: Value)
    ensures var r := MatchSet(nodes, id, need, [Overwrite(key, v)], []);
      r.Keys == nodes.Keys &&
      (forall n | n in nodes :: r[n].labels == nodes[n].labels) &&
      (forall n | n in nodes && n != id :: r[n] == nodes[n]) &&
      (id in nodes && (need == "" || need in nodes[id].labels) ==> r[id].props == SetProp(nodes[id].props, key, v)) &&
      (id in nodes && need != "" && need !in nodes[id].labels ==> r == nodes)
  {
    if id in nodes {
      var p := nodes[id].props;
      assert ApplyAll(p, [Overwrite(key, v)]) == ApplyAll(SetProp(p, key, v), []);
    }
  }

  // ----- idempotence -----

  /** Item `a` of a SET clause already holds in `p`, so applying it changes nothing. */
  predicate Holds(p: Props, a: Assign) {
    match a
    case Overwrite(k, v) => if v == Null then k !in p else k in p && p[k] == v
    case FillIn(k, v) => k in p || v == Null
  }

  function KeysOf(items: seq<Assign>): set<string> {
    set i | 0 <= i < |items| :: items[i].key
  }

  predicate DistinctKeys(items: seq<Assign>) {
    forall i, j | 0 <= i < j < |items| :: items[i].key != items[j].key
  }

  lemma {:induction false} HoldsNoChange(p: Props, items: seq<Assign>)
    requires forall i | 0 <= i < |items| :: Holds(p, items[i])
    ensures ApplyAll(p, items) == p
    decreases |items|
  {
    if |items| > 0 {
      assert ApplyOne(p, items[0]) == p;
      assert forall i | 0 <= i < |items| - 1 :: items[1..][i] == items[i + 1];
      HoldsNoChange(p, items[1..]);
    }
  }

  /** Applying items leaves every other key alone. */
  lemma {:induction false} ApplyAllOther(p: Props, items: seq<Assign>, k: string)
    requires k !in KeysOf(items)
    ensures (k in ApplyAll(p, items) <==> k in p) && (k in p ==> ApplyAll(p, items)[k] == p[k])
    decreases |items|
  {
    if |items| > 0 {
      assert items[0].key in KeysOf(items);
      assert KeysOf(items[1..]) <= KeysOf(items) by {
        forall i | 0 <= i < |items| - 1 ensures items[1..][i].key in KeysOf(items) {
          assert items[1..][i] == items[i + 1];
        }
      }
      ApplyAllOther(ApplyOne(p, items[0]), items[1..], k);
    }
  }

  /** `Holds` only looks at the item's own key. */
  lemma HoldsSameKey(p: Props, q: Props, a: Assign)
    requires (a.key in p <==> a.key in q) && (a.key in p ==> p[a.key] == q[a.key])
    ensures Holds(p, a) <==> Holds(q, a)
  {
  }

  /** After a SET clause with distinct keys, each of its items holds. */
  lemma {:induction false} AppliedHolds(p: Props, items: seq<Assign>)
    requires DistinctKeys(items)
    ensures forall i | 0 <= i < |items| :: Holds(ApplyAll(p, items), items[i])
    decreases |items|
  {
    if |items| > 0 {
      var p1 := ApplyOne(p, items[0]);
      var rest := items[1..];
      assert forall i | 0 <= i < |rest| :: rest[i] == items[i + 1];
      AppliedHolds(p1, rest);
      assert items[0].key !in KeysOf(rest);
      ApplyAllOther(p1, rest, items[0].key);
      HoldsSameKey(p1, ApplyAll(p1, rest), items[0]);
      forall i | 0 <= i < |items| ensures Holds(ApplyAll(p, items), items[i]) {
        if i > 0 {
          assert items[i] == rest[i - 1];
        }
      }
    }
  }

  /** Items whose keys `more` does not touch still hold after `more` is applied. */
  lemma HoldsAfter(p: Props, items: seq<Assign>, more: seq<Assign>)
    requires forall i | 0 <= i < |items| :: Holds(p, items[i])
    requires KeysOf(items) !! KeysOf(more)
    ensures forall i | 0 <= i < |items| :: Holds(ApplyAll(p, more), items[i])
  {
    forall i | 0 <= i < |items| ensures Holds(ApplyAll(p, more), items[i]) {
      assert items[i].key in KeysOf(items);
      ApplyAllOther(p, more, items[i].key);
      HoldsSameKey(p, ApplyAll(p, more), items[i]);
    }
  }

  /**
   * The shape of every MERGE the scripts issue: distinct keys in each clause, the SET
   * keys apart from the ON CREATE/ON MATCH keys, and each ON MATCH item implied by the
   * ON CREATE items (the same assignment, or a non-null assignment to the key it fills).
   */
  predicate WellFormedMerge(onCreate: seq<Assign>, onMatch: seq<Assign>, always: seq<Assign>) {
    DistinctKeys(onCreate) && DistinctKeys(onMatch) && DistinctKeys(always) &&
    KeysOf(always) !! KeysOf(onCreate) && KeysOf(always) !! KeysOf(onMatch) &&
    forall i | 0 <= i < |onMatch| ::
      onMatch[i] in onCreate ||
      (onMatch[i].FillIn? && exists j | 0 <= j < |onCreate| ::
         onCreate[j].Overwrite? && onCreate[j].key == onMatch[i].key && onCreate[j].value != Null)
  }

  /** Items implied by ON CREATE hold right after the ON CREATE clause. */
  lemma ImpliedHold(p: Props, onCreate: seq<Assign>, onMatch: seq<Assign>)
    requires DistinctKeys(onCreate)
    requires forall i | 0 <= i < |onMatch| ::
      onMatch[i] in onCreate ||
      (onMatch[i].FillIn? && exists j | 0 <= j < |onCreate| ::
         onCreate[j].Overwrite? && onCreate[j].key == onMatch[i].key && onCreate[j].value != Null)
    ensures forall i | 0 <= i < |onMatch| :: Holds(ApplyAll(p, onCreate), onMatch[i])
  {
    AppliedHolds(p, onCreate);
    forall i | 0 <= i < |onMatch| ensures Holds(ApplyAll(p, onCreate), onMatch[i]) {
      if onMatch[i] !in onCreate {
        var j :| 0 <= j < |onCreate| &&
          onCreate[j].Overwrite? && onCreate[j].key == onMatch[i].key && onCreate[j].value != Null;
        assert Holds(ApplyAll(p, onCreate), onCreate[j]);
      }
    }
  }

  /** A clause whose items all hold in `p` writes only storable values and changes nothing. */
  lemma {:induction false} HoldsStores(p: Props, items: seq<Assign>)
    requires forall i | 0 <= i < |items| :: Holds(p, items[i]) && (items[i].Overwrite? ==> Storable(items[i].value))
    ensures StoresOk(p, items) && ApplyAll(p, items) == p
    decreases |items|
  {
    if |items| > 0 {
      assert ApplyOne(p, items[0]) == p;
      assert forall i | 0 <= i < |items| - 1 :: items[1..][i] == items[i + 1];
      HoldsStores(p, items[1..]);
    }
  }

  /** A clause Neo4j stored assigns only storable values. */
  lemma {:induction false} OverwritesStorable(p: Props, items: seq<Assign>)
    requires StoresOk(p, items)
    ensures forall i | 0 <= i < |items| :: items[i].Overwrite? ==> Storable(items[i].value)
    decreases |items|
  {
    if |items| > 0 {
      OverwritesStorable(ApplyOne(p, items[0]), items[1..]);
      assert forall i | 0 < i < |items| :: items[i] == items[1..][i - 1];
    }
  }

  /** After a MERGE's SET clauses ran from `before`, re-running them raises nothing and changes nothing. */
  lemma ReapplyMerged(before: Props, first: seq<Assign>, always: seq<Assign>)
    requires DistinctKeys(always) && KeysOf(first) !! KeysOf(always)
    requires forall i | 0 <= i < |first| :: Holds(before, first[i]) && (first[i].Overwrite? ==> Storable(first[i].value))
    requires StoresOk(before, always)
    ensures var q := ApplyAll(before, always); MergedOk(q, first, always) && Merged(q, first, always) == q
  {
    var q := ApplyAll(before, always);
    HoldsAfter(before, first, always);
    HoldsStores(q, first);
    AppliedHolds(before, always);
    OverwritesStorable(before, always);
    HoldsStores(q, always);
  }

  /** Re-issuing a well-formed MERGE changes nothing. */
  lemma MergeNodeIdempotent(s: State, id: string, labels: set<string>,
                            onCreate: seq<Assign>, onMatch: seq<Assign>, always: seq<Assign>)
    requires WellFormedMerge(onCreate, onMatch, always)
    ensures var st := MergeNodeS(id, labels, onCreate, onMatch, always); Step(Step(s, st), st) == Step(s, st)
  {
    var r := Step(s, MergeNodeS(id, labels, onCreate, onMatch, always));
    if s.failure.None? && r.failure.None? {
      if id in s.nodes && labels <= s.nodes[id].labels {
        var p := s.nodes[id].props;
        AppliedHolds(p, onMatch);
        OverwritesStorable(p, onMatch);
        ReapplyMerged(ApplyAll(p, onMatch), onMatch, always);
        assert r.nodes[id].labels == s.nodes[id].labels;
        assert r.nodes[id := r.nodes[id]] == r.nodes;
      } else if id in s.nodes && TwinHas(s.twins, id, labels) {
      } else if id in s.nodes {
        assert (id, labels) in r.twins;
      } else {
        var p := Fresh(id);
        ImpliedHold(p, onCreate, onMatch);
        OverwritesStorable(p, onCreate);
        forall i | 0 <= i < |onMatch| && onMatch[i].Overwrite? ensures Storable(onMatch[i].value) {
          var j :| 0 <= j < |onCreate| && onCreate[j] == onMatch[i];
        }
        ReapplyMerged(ApplyAll(p, onCreate), onMatch, always);
        assert r.nodes[id := r.nodes[id]] == r.nodes;
      }
    }
  }

  /** Re-issuing `MATCH ... SET items SET n += merge` changes nothing when the keys are apart. */
  lemma MatchSetIdempotent(nodes: map<string, Node>, id: string, need: string, items: seq<Assign>,
                           merge: seq<(string, Value)>)
    requires DistinctKeys(items)
    requires forall i | 0 <= i < |merge| :: merge[i].0 !in KeysOf(items)
    ensures MatchSet(MatchSet(nodes, id, need, items, merge), id, need, items, merge)
            == MatchSet(nodes, id, need, items, merge)
  {
    if id in nodes && (need == "" || need in nodes[id].labels) {
      var p1 := ApplyAll(nodes[id].props, items);
      var q := MergeProps(p1, merge);
      AppliedHolds(nodes[id].props, items);
      forall i | 0 <= i < |items| ensures Holds(q, items[i]) {
        var k := items[i].key;
        assert k in KeysOf(items);
        MergePropsAt(p1, merge, k);
        MergePropsKeyAbsent(merge, k);
        HoldsSameKey(p1, q, items[i]);
      }
      HoldsNoChange(q, items);
      MergePropsIdempotent(p1, merge);
    }
  }

  lemma {:induction false} MergePropsKeyAbsent(m: seq<(string, Value)>, k: string)
    requires forall i | 0 <= i < |m| :: m[i].0 != k
    ensures LastFor(m, k).None?
    decreases |m|
  {
    if |m| > 0 {
      MergePropsKeyAbsent(m[..|m| - 1], k);
    }
  }

  /** Re-issuing an edge MERGE changes nothing: no duplicate edges. */
  lemma MergeEdgeIdempotent(s: State, src: Value, dst: Value, rel: string, dstLabel: string)
    ensures var st := MergeEdgeS(src, dst, rel, dstLabel); Step(Step(s, st), st) == Step(s, st)
  {
    if src.Str? && dst.Str? {
      EdgeMergeCount(s, Edge(src.s, dst.s, rel), dstLabel);
    }
  }

  /** A batch made only of edge MERGEs. */
  predicate EdgeOnly(stmts: seq<Stmt>) {
    forall i | 0 <= i < |stmts| :: stmts[i].MergeEdgeS?
  }

  /** The edges such a batch adds to a graph with these nodes. */
  function Added(s: State, stmts: seq<Stmt>): set<Edge>
    decreases |stmts|
  {
    if |stmts| == 0 then {}
    else
      var st := stmts[|stmts| - 1];
      Added(s, stmts[..|stmts| - 1]) +
        (if st.MergeEdgeS? && st.src.Str? && st.dst.Str? && Endpoints(s, st.src.s, st.dst.s, st.dstLabel)
         then {Edge(st.src.s, st.dst.s, st.rel)} else {})
  }

  /** An edge-only batch never raises, keeps the nodes and adds exactly its matching edges. */
  lemma {:induction false} EdgeOnlyExec(s: State, stmts: seq<Stmt>)
    requires EdgeOnly(stmts)
    ensures Exec(s, stmts) == if s.failure.Some? then s else s.(edges := s.edges + Added(s, stmts))
    decreases |stmts|
  {
    if |stmts| > 0 {
      EdgeOnlyExec(s, stmts[..|stmts| - 1]);
    }
  }

  /** Re-running an edge-only batch adds nothing. */
  lemma EdgeOnlyIdempotent(s: State, stmts: seq<Stmt>)
    requires EdgeOnly(stmts)
    ensures Exec(Exec(s, stmts), stmts) == Exec(s, stmts)
  {
    EdgeOnlyExec(s, stmts);
    EdgeOnlyExec(Exec(s, stmts), stmts);
    if s.failure.None? {
      AddedSameGraph(s, Exec(s, stmts), stmts);
    }
  }

  /** `Added` looks only at the nodes and the second nodes. */
  lemma {:induction false} AddedSameGraph(s: State, t: State, stmts: seq<Stmt>)
    requires s.nodes == t.nodes && s.twins == t.twins
    ensures Added(s, stmts) == Added(t, stmts)
    decreases |stmts|
  {
    if |stmts| > 0 {
      AddedSameGraph(s, t, stmts[..|stmts| - 1]);
    }
  }

  // ----- statements that cannot raise -----

  predicate AllStorable(items: seq<Assign>) {
    forall i | 0 <= i < |items| :: Storable(items[i].value)
  }

  /** Every value the statement could write is one Neo4j stores. */
  predicate Safe(st: Stmt) {
    match st
    case MergeNodeS(_, _, c, m, a) => AllStorable(c) && AllStorable(m) && AllStorable(a)
    case MatchSetS(_, _, items, merge) => AllStorable(items) && MergeOk(merge)
    case MergeEdgeS(_, _, _, _) => true
  }

  lemma {:induction false} AllStorableOk(p: Props, items: seq<Assign>)
    requires AllStorable(items)
    ensures StoresOk(p, items)
    decreases |items|
  {
    if |items| > 0 {
      assert forall i | 0 <= i < |items| - 1 :: items[1..][i] == items[i + 1];
      AllStorableOk(ApplyOne(p, items[0]), items[1..]);
    }
  }

  /** A batch of safe statements raises nothing. */
  lemma {:induction false} SafeNeverFails(s: State, stmts: seq<Stmt>)
    requires forall i | 0 <= i < |stmts| :: Safe(stmts[i])
    ensures Exec(s, stmts).failure == s.failure
    decreases |stmts|
  {
    if |stmts| > 0 {
      var r := Exec(s, stmts[..|stmts| - 1]);
      SafeNeverFails(s, stmts[..|stmts| - 1]);
      match stmts[|stmts| - 1] {
        case MergeNodeS(id, labels, c, m, a) =>
          if id in r.nodes {
            AllStorableOk(r.nodes[id].props, m);
            AllStorableOk(ApplyAll(r.nodes[id].props, m), a);
          }
          AllStorableOk(Fresh(id), c);
          AllStorableOk(ApplyAll(Fresh(id), c), a);
        case MatchSetS(id, need, items, merge) =>
          if id in r.nodes {
            AllStorableOk(r.nodes[id].props, items);
          }
        case MergeEdgeS(_, _, _, _) =>
      }
    }
  }

  // ----- when no second node is made -----

  /**
   * Node MERGEs that agree on labels: a MERGE on an id present before asks for no label
   * that node lacks, and a MERGE on an id merged earlier in the batch asks for no label
   * the earlier MERGE did not.
   */
  ghost predicate LabelsAgree(s: State, stmts: seq<Stmt>) {
    (forall j | 0 <= j < |stmts| && stmts[j].MergeNodeS? && stmts[j].id in s.nodes ::
       stmts[j].labels <= s.nodes[stmts[j].id].labels) &&
    (forall i, j | 0 <= i < j < |stmts| && stmts[i].MergeNodeS? && stmts[j].MergeNodeS? && stmts[i].id == stmts[j].id ::
       stmts[j].labels <= stmts[i].labels)
  }

  /** Each node either was there before with its labels, or was made by a MERGE of the batch with its labels. */
  ghost predicate MadeBy(s: State, stmts: seq<Stmt>, r: State) {
    s.nodes.Keys <= r.nodes.Keys &&
    forall id | id in r.nodes ::
      if id in s.nodes then r.nodes[id].labels == s.nodes[id].labels
      else exists i | 0 <= i < |stmts| :: stmts[i].MergeNodeS? && stmts[i].id == id && stmts[i].labels == r.nodes[id].labels
  }

  /** A batch with no MERGE for `id` makes no node for it. */
  lemma {:induction false} NoMergeNoNode(s: State, stmts: seq<Stmt>, id: string)
    requires id !in s.nodes
    requires forall st | st in stmts :: !(st.MergeNodeS? && st.id == id)
    ensures id !in Exec(s, stmts).nodes
    decreases |stmts|
  {
    if |stmts| > 0 {
      var init := stmts[..|stmts| - 1];
      assert forall st | st in init :: st in stmts;
      NoMergeNoNode(s, init, id);
    }
  }

  /** MERGEs that agree on labels never make a second node. */
  lemma {:induction false} NoSecondNode(s: State, stmts: seq<Stmt>)
    requires LabelsAgree(s, stmts)
    ensures Exec(s, stmts).twins == s.twins
    ensures MadeBy(s, stmts, Exec(s, stmts))
    decreases |stmts|
  {
    if |stmts| > 0 {
      var init := stmts[..|stmts| - 1];
      var last := stmts[|stmts| - 1];
      assert forall i | 0 <= i < |init| :: init[i] == stmts[i];
      assert LabelsAgree(s, init);
      NoSecondNode(s, init);
      assert stmts == init + [last];
      AgreeStep(s, init, Exec(s, init), last);
    }
  }

  /** A statement whose MERGE asks for no label the node already there lacks makes no second node and relabels nothing. */
  lemma StepKeepsLabels(r0: State, last: Stmt)
    requires last.MergeNodeS? && last.id in r0.nodes ==> last.labels <= r0.nodes[last.id].labels
    ensures var r := Step(r0, last);
      r.twins == r0.twins && r0.nodes.Keys <= r.nodes.Keys &&
      forall id | id in r.nodes ::
        if id in r0.nodes then r.nodes[id].labels == r0.nodes[id].labels
        else last.MergeNodeS? && last.id == id && r.nodes[id].labels == last.labels
  {
  }

  /** One more statement of a batch whose MERGEs agree on labels. */
  lemma AgreeStep(s: State, init: seq<Stmt>, r0: State, last: Stmt)
    requires r0.twins == s.twins && MadeBy(s, init, r0)
    requires last.MergeNodeS? && last.id in s.nodes ==> last.labels <= s.nodes[last.id].labels
    requires forall i | 0 <= i < |init| && init[i].MergeNodeS? && last.MergeNodeS? && init[i].id == last.id ::
      last.labels <= init[i].labels
    ensures Step(r0, last).twins == s.twins && MadeBy(s, init + [last], Step(r0, last))
  {
    var stmts := init + [last];
    var r := Step(r0, last);
    if last.MergeNodeS? && last.id in r0.nodes && last.id !in s.nodes {
      var i :| 0 <= i < |init| && init[i].MergeNodeS? && init[i].id == last.id && init[i].labels == r0.nodes[last.id].labels;
    }
    StepKeepsLabels(r0, last);
    forall id | id in r.nodes && id !in s.nodes
      ensures exists i | 0 <= i < |stmts| :: stmts[i].MergeNodeS? && stmts[i].id == id && stmts[i].labels == r.nodes[id].labels
    {
      if id in r0.nodes {
        var i :| 0 <= i < |init| && init[i].MergeNodeS? && init[i].id == id && init[i].labels == r0.nodes[id].labels;
        assert stmts[i] == init[i];
      } else {
        assert stmts[|init|] == last;
      }
    }
  }
}
