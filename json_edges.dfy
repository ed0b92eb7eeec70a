/**
 * The edge-only ifcJSON loader (ingest/ifcjson_edges.py): each `IfcRel*` record becomes
 * `merge_rel` calls, `MATCH (a {globalId:$a}),(b {globalId:$b}) MERGE (a)-[:T]->(b)`.
 * Its `g` is the same code as `first` (Elevations.First), its `load_instances` the same as
 * Elevations.LoadInstances, and its `ref_id` the same as JsonIngest.RefId.
 */
module JsonEdges {
  import opened Wrappers
  import opened PyValue
  import Text
  import Graph
  import Elevations
  import JsonIngest

  type Fields = seq<(string, Value)>

  /** `merge_rel(a, b, T)`. */
  function MergeRel(a: Value, b: Value, rel: string): Graph.Stmt {
    Graph.MergeEdgeS(a, b, rel, "")
  }

  /** `merge_rel` adds the edge only when both endpoints exist, and never a duplicate. */
  lemma MergeRelEffect(s: Graph.State, a: string, b: string, rel: string)
    ensures var r := Graph.Step(s, MergeRel(Str(a), Str(b), rel));
      r.nodes == s.nodes && r.twins == s.twins && r.failure == s.failure &&
      r.edges == (if s.failure.None? && a in s.nodes && b in s.nodes then s.edges + {Graph.Edge(a, b, rel)} else s.edges) &&
      Graph.Step(r, MergeRel(Str(a), Str(b), rel)) == r
  {
    Graph.MergeEdgeIdempotent(s, Str(a), Str(b), rel, "");
  }

  /** `x if isinstance(x, list) else [x] if x else []`. */
  function Kids(v: Value): (r: seq<Value>)
    ensures !v.List? && Truthy(v) ==> r == [v]
    ensures !Truthy(v) ==> r == []
  {
    if v.List? then v.items else if Truthy(v) then [v] else []
  }

  function G(d: Fields, keys: seq<string>): Value {
    Elevations.First(d, keys)
  }

  /** A relation type and its variant with a trailing "_". */
  predicate IsKind(t: string, kind: string) {
    t == kind || t == kind + "_"
  }

  /** A pair written in both directions, when both ids are truthy. */
  function Both(a: Value, b: Value, rel: string): seq<Graph.Stmt> {
    if Truthy(a) && Truthy(b) then [MergeRel(a, b, rel), MergeRel(b, a, rel)] else []
  }

  /** The `merge_rel` calls for one relation record of type `t`. */
  function RelCalls(t: string, d: Fields): seq<Graph.Stmt> {
    if IsKind(t, "IfcRelContainedInSpatialStructure") then
      var parent := JsonIngest.RefId(G(d, ["RelatingStructure", "relatingStructure", "RelatingSpatialStructure", "relatingSpatialStructure"]));
      JsonIngest.Link(parent, Kids(G(d, ["RelatedElements", "relatedElements"])), "CONTAINS", false)
    else if t == "IfcRelAggregates" then
      var whole := JsonIngest.RefId(G(d, ["RelatingObject", "relatingObject"]));
      JsonIngest.Link(whole, Kids(G(d, ["RelatedObjects", "relatedObjects"])), "AGGREGATES", false)
    else if t == "IfcRelServicesBuildings" then
      var sid := JsonIngest.RefId(G(d, ["RelatingSystem", "relatingSystem"]));
      JsonIngest.Link(sid, Kids(G(d, ["RelatedBuildings", "relatedBuildings"])), "SERVICES", false)
    else if t == "IfcRelAssignsToGroup" then
      var gid := JsonIngest.RefId(G(d, ["RelatingGroup", "relatingGroup"]));
      JsonIngest.Link(gid, Kids(G(d, ["RelatedObjects", "relatedObjects"])), "ASSIGNED_TO_SYSTEM", true)
    else if IsKind(t, "IfcRelConnectsPortToElement") then
      var port := JsonIngest.RefId(G(d, ["RelatingPort", "relatingPort"]));
      var elem := JsonIngest.RefId(G(d, ["RelatedElement", "relatedElement"]));
      if Truthy(port) && Truthy(elem) then [MergeRel(elem, port, "HAS_PORT")] else []
    else if IsKind(t, "IfcRelConnectsPorts") then
      Both(JsonIngest.RefId(G(d, ["RelatingPort", "relatingPort"])), JsonIngest.RefId(G(d, ["RelatedPort", "relatedPort"])),
           "PORT_CONNECTED_TO")
    else if IsKind(t, "IfcRelConnectsElements") then
      Both(JsonIngest.RefId(G(d, ["RelatingElement", "relatingElement"])), JsonIngest.RefId(G(d, ["RelatedElement", "relatedElement"])),
           "CONNECTED_TO")
    else []
  }

  /** What the loop does with one record: its calls, or the error a non-string type raises. */
  datatype RecordStep = Calls(stmts: seq<Graph.Stmt>) | Crash(error: string)

  function RecordOf(obj: Value): RecordStep {
    if !obj.Dict? then Calls([])
    else
      var t := Elevations.TypeOf(obj.fields);
      if !t.Str? then Crash("AttributeError")
      else if !Text.StartsWith(t.s, "IfcRel") then Calls([])
      else Calls(RelCalls(t.s, obj.fields))
  }

  /** The calls issued over the records, `created`, and the error that stopped the loop. */
  datatype Run = Run(stmts: seq<Graph.Stmt>, created: nat, error: Option<string>)

  function RunOf(recs: seq<(string, Value)>): Run
    decreases |recs|
  {
    if |recs| == 0 then Run([], 0, None)
    else
      var o := RunOf(recs[..|recs| - 1]);
      if o.error.Some? then o
      else
        match RecordOf(recs[|recs| - 1].1)
        case Crash(e) => Run(o.stmts, o.created, Some(e))
        case Calls(c) => Run(o.stmts + c, o.created + |c|, None)
  }

  lemma {:induction false} RunSticks(recs: seq<(string, Value)>, i: nat)
    requires i <= |recs|
    requires RunOf(recs[..i]).error.Some?
    ensures RunOf(recs) == RunOf(recs[..i])
    decreases |recs| - i
  {
    if i < |recs| {
      assert recs[..i + 1][..i] == recs[..i];
      RunSticks(recs, i + 1);
    } else {
      assert recs[..i] == recs;
    }
  }

  /** `main`'s loop: every record's `merge_rel` calls, counting each call in `created`. */
  method MergeEdges(inst: seq<(string, Value)>, store: Graph.Store) returns (created: nat, error: Option<string>)
    requires store.Valid()
    modifies store
    ensures store.Valid()
    ensures created == RunOf(inst).created && error == RunOf(inst).error
    ensures store.AsState()
            == Graph.Exec(old(store.AsState()), RunOf(inst).stmts)
  {
    ghost var s0 := store.AsState();
    ghost var issued: seq<Graph.Stmt> := [];
    created, error := 0, None;
    var i := 0;
    while i < |inst| && error.None?
      invariant 0 <= i <= |inst|
      invariant store.Valid()
      invariant RunOf(inst[..i]) == Run(issued, created, error)
      invariant store.AsState() == Graph.Exec(s0, issued)
    {
      assert inst[..i + 1][..i] == inst[..i];
      match RecordOf(inst[i].1) {
        case Crash(e) =>
          error := Some(e);
        case Calls(c) =>
          store.Run(c);
          Graph.ExecAppend(s0, issued, c);
          issued := issued + c;
          created := created + |c|;
      }
      i := i + 1;
    }
    if error.Some? {
      RunSticks(inst, i);
    } else {
      assert inst[..i] == inst;
    }
  }

  /** `main` after reading the file: load the records, then merge their edges. */
  method Ingest(doc: Value, store: Graph.Store) returns (created: nat, error: Option<string>)
    requires store.Valid()
    modifies store
    ensures store.Valid()
    ensures Elevations.LoadInstances(doc).Failure? ==>
      error == Some(Elevations.LoadInstances(doc).error) && created == 0 &&
      store.AsState() == old(store.AsState())
    ensures Elevations.LoadInstances(doc).Ok? ==>
      var o := RunOf(Elevations.LoadInstances(doc).value);
      created == o.created && error == o.error &&
      store.AsState() == Graph.Exec(old(store.AsState()), o.stmts)
  {
    var loaded := Elevations.LoadInstances(doc);
    if loaded.Failure? {
      return 0, Some(loaded.error);
    }
    created, error := MergeEdges(loaded.value, store);
  }

  // ----- properties of the dispatch -----

  /** `created` is the number of `merge_rel` calls issued, whatever they changed. */
  lemma {:induction false} CreatedCountsCalls(recs: seq<(string, Value)>)
    ensures RunOf(recs).created == |RunOf(recs).stmts|
    ensures Graph.EdgeOnly(RunOf(recs).stmts)
    decreases |recs|
  {
    if |recs| > 0 {
      CreatedCountsCalls(recs[..|recs| - 1]);
      var o := RunOf(recs[..|recs| - 1]);
      var last := recs[|recs| - 1].1;
      if o.error.None? && RecordOf(last).Calls? {
        CallsAreEdges(last);
        assert Graph.EdgeOnly(o.stmts + RecordOf(last).stmts) by {
          forall i | 0 <= i < |o.stmts + RecordOf(last).stmts|
            ensures (o.stmts + RecordOf(last).stmts)[i].MergeEdgeS?
          {
            if i >= |o.stmts| {
              assert (o.stmts + RecordOf(last).stmts)[i] == RecordOf(last).stmts[i - |o.stmts|];
            }
          }
        }
      }
    }
  }

  lemma {:induction false} LinkEdges(one: Value, kids: seq<Value>, rel: string, toOne: bool)
    ensures Graph.EdgeOnly(JsonIngest.Link(one, kids, rel, toOne))
    decreases |kids|
  {
    if |kids| > 0 {
      LinkEdges(one, kids[..|kids| - 1], rel, toOne);
    }
  }

  /** Every branch of `RelCalls` issues `merge_rel` calls only. */
  lemma RelCallsEdges(t: string, d: Fields)
    ensures Graph.EdgeOnly(RelCalls(t, d))
  {
    var c := RelCalls(t, d);
    if IsKind(t, "IfcRelContainedInSpatialStructure") {
      var one := JsonIngest.RefId(G(d, ["RelatingStructure", "relatingStructure", "RelatingSpatialStructure", "relatingSpatialStructure"]));
      var kids := Kids(G(d, ["RelatedElements", "relatedElements"]));
      assert c == JsonIngest.Link(one, kids, "CONTAINS", false);
      LinkEdges(one, kids, "CONTAINS", false);
    } else if t == "IfcRelAggregates" {
      var one := JsonIngest.RefId(G(d, ["RelatingObject", "relatingObject"]));
      var kids := Kids(G(d, ["RelatedObjects", "relatedObjects"]));
      assert c == JsonIngest.Link(one, kids, "AGGREGATES", false);
      LinkEdges(one, kids, "AGGREGATES", false);
    } else if t == "IfcRelServicesBuildings" {
      var one := JsonIngest.RefId(G(d, ["RelatingSystem", "relatingSystem"]));
      var kids := Kids(G(d, ["RelatedBuildings", "relatedBuildings"]));
      assert c == JsonIngest.Link(one, kids, "SERVICES", false);
      LinkEdges(one, kids, "SERVICES", false);
    } else if t == "IfcRelAssignsToGroup" {
      var one := JsonIngest.RefId(G(d, ["RelatingGroup", "relatingGroup"]));
      var kids := Kids(G(d, ["RelatedObjects", "relatedObjects"]));
      assert c == JsonIngest.Link(one, kids, "ASSIGNED_TO_SYSTEM", true);
      LinkEdges(one, kids, "ASSIGNED_TO_SYSTEM", true);
    } else {
      assert |c| <= 2;
      assert forall i | 0 <= i < |c| :: c[i].MergeEdgeS?;
    }
  }

  lemma CallsAreEdges(obj: Value)
    requires RecordOf(obj).Calls?
    ensures Graph.EdgeOnly(RecordOf(obj).stmts)
  {
    if obj.Dict? {
      RelCallsEdges(Elevations.TypeOf(obj.fields).s, obj.fields);
    }
  }

  /**
   * Running the whole loop a second time issues the same calls and counts them again, but
   * adds no edge: `created` counts calls, not new edges.
   */
  lemma RerunAddsNothing(recs: seq<(string, Value)>, s: Graph.State)
    ensures var stmts := RunOf(recs).stmts;
      Graph.Exec(Graph.Exec(s, stmts), stmts) == Graph.Exec(s, stmts)
  {
    CreatedCountsCalls(recs);
    Graph.EdgeOnlyIdempotent(s, RunOf(recs).stmts);
  }

  /** `IfcRelConnectsPorts` (or its `_` variant) takes the port branch of `RelCalls`. */
  lemma PortsBranch(t: string, d: Fields)
    requires IsKind(t, "IfcRelConnectsPorts")
    ensures RelCalls(t, d) ==
      Both(JsonIngest.RefId(G(d, ["RelatingPort", "relatingPort"])), JsonIngest.RefId(G(d, ["RelatedPort", "relatedPort"])),
           "PORT_CONNECTED_TO")
  {
    assert |t| == 19 || |t| == 20;
    assert t[6] == 'C';
    assert !IsKind(t, "IfcRelContainedInSpatialStructure") && t != "IfcRelAggregates";
    assert t != "IfcRelServicesBuildings" && t != "IfcRelAssignsToGroup";
    assert !IsKind(t, "IfcRelConnectsPortToElement");
  }

  /** `IfcRelConnectsElements` (or its `_` variant) takes the element branch of `RelCalls`. */
  lemma ElementsBranch(t: string, d: Fields)
    requires IsKind(t, "IfcRelConnectsElements")
    ensures RelCalls(t, d) ==
      Both(JsonIngest.RefId(G(d, ["RelatingElement", "relatingElement"])), JsonIngest.RefId(G(d, ["RelatedElement", "relatedElement"])),
           "CONNECTED_TO")
  {
    assert |t| == 22 || |t| == 23;
    assert t[6] == 'C';
    assert !IsKind(t, "IfcRelContainedInSpatialStructure") && t != "IfcRelAggregates";
    assert t != "IfcRelServicesBuildings" && t != "IfcRelAssignsToGroup";
    assert !IsKind(t, "IfcRelConnectsPortToElement");
    assert !IsKind(t, "IfcRelConnectsPorts");
  }

  /** `Both` writes each of its calls together with the reverse one. */
  lemma BothReversed(a: Value, b: Value, rel: string, st: Graph.Stmt)
    requires st in Both(a, b, rel)
    ensures st.MergeEdgeS? && st.rel == rel && MergeRel(st.dst, st.src, st.rel) in Both(a, b, rel)
  {
  }

  /** Port and element connections are written in both directions. */
  lemma ConnectionsBothWays(t: string, d: Fields, st: Graph.Stmt)
    requires IsKind(t, "IfcRelConnectsPorts") || IsKind(t, "IfcRelConnectsElements")
    requires st in RelCalls(t, d)
    ensures st.MergeEdgeS? && MergeRel(st.dst, st.src, st.rel) in RelCalls(t, d)
    ensures st.rel == (if IsKind(t, "IfcRelConnectsPorts") then "PORT_CONNECTED_TO" else "CONNECTED_TO")
  {
    if IsKind(t, "IfcRelConnectsPorts") {
      PortsBranch(t, d);
      BothReversed(JsonIngest.RefId(G(d, ["RelatingPort", "relatingPort"])), JsonIngest.RefId(G(d, ["RelatedPort", "relatedPort"])),
                   "PORT_CONNECTED_TO", st);
    } else {
      ElementsBranch(t, d);
      BothReversed(JsonIngest.RefId(G(d, ["RelatingElement", "relatingElement"])), JsonIngest.RefId(G(d, ["RelatedElement", "relatedElement"])),
                   "CONNECTED_TO", st);
    }
  }

  /** `IfcRelConnectsPortToElement` (or its `_` variant) takes the HAS_PORT branch of `RelCalls`. */
  lemma PortToElementBranch(t: string, d: Fields)
    requires IsKind(t, "IfcRelConnectsPortToElement")
    ensures var port := JsonIngest.RefId(G(d, ["RelatingPort", "relatingPort"]));
      var elem := JsonIngest.RefId(G(d, ["RelatedElement", "relatedElement"]));
      RelCalls(t, d) == if Truthy(port) && Truthy(elem) then [MergeRel(elem, port, "HAS_PORT")] else []
  {
    assert |t| == 27 || |t| == 28;
    assert !IsKind(t, "IfcRelContainedInSpatialStructure") && t != "IfcRelAggregates";
    assert t != "IfcRelServicesBuildings" && t != "IfcRelAssignsToGroup";
  }

  /** HAS_PORT runs from the element to the port, for a `_` variant too. */
  lemma HasPortDirection(t: string, d: Fields, st: Graph.Stmt)
    requires IsKind(t, "IfcRelConnectsPortToElement")
    requires st in RelCalls(t, d)
    ensures st == MergeRel(JsonIngest.RefId(G(d, ["RelatedElement", "relatedElement"])),
                           JsonIngest.RefId(G(d, ["RelatingPort", "relatingPort"])), "HAS_PORT")
    ensures Truthy(st.src) && Truthy(st.dst)
  {
    PortToElementBranch(t, d);
  }

  /** A related field that is a single truthy value gives exactly one call; a falsy one gives none. */
  lemma SingleRelated(one: Value, v: Value, rel: string, toOne: bool)
    requires !v.List?
    ensures !Truthy(v) ==> JsonIngest.Link(one, Kids(v), rel, toOne) == []
    ensures Truthy(v) ==>
      (JsonIngest.Link(one, Kids(v), rel, toOne) ==
         if Truthy(one) && Truthy(JsonIngest.RefId(v))
         then [if toOne then MergeRel(JsonIngest.RefId(v), one, rel) else MergeRel(one, JsonIngest.RefId(v), rel)]
         else [])
  {
    if Truthy(v) {
      assert Kids(v)[..0] == [];
    }
  }

  /** Only records whose type starts with "IfcRel" issue calls. */
  lemma OnlyRelations(obj: Value)
    requires RecordOf(obj).Calls? && RecordOf(obj).stmts != []
    ensures obj.Dict? && Elevations.TypeOf(obj.fields).Str? && Text.StartsWith(Elevations.TypeOf(obj.fields).s, "IfcRel")
  {
  }
}
