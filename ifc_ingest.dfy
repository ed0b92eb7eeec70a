/**
 * Loading an IFC (STEP) model straight into the graph (ingest/ifc_to_neo4j.py): the CMMS
 * label taxonomy, entity names, the Z walk up an IfcLocalPlacement chain (bounded by 64
 * steps, with no visited set), pset flattening, and the MERGE statements of `main`.
 *
 * ifcopenshell is foreign: the entities the script reads are given as values. Local
 * placements form an arena indexed by entity id, so a `PlacementRelTo` chain may loop.
 */
module IfcIngest {
  import opened Wrappers
  import opened PyValue
  import Text
  import PyDict
  import Graph
  import Rerun

  // ----- label taxonomy -----

  const SpatialTypes: set<string> := {"IfcProject", "IfcSite", "IfcBuilding", "IfcBuildingStorey", "IfcSpace"}

  /** The coarse CMMS label added next to the IFC class (the same code is in ingest/ifcjson_to_neo4j.py). */
  function CmmsLabel(t: string): string {
    if t in SpatialTypes then t
    else if Text.StartsWith(t, "IfcSystem") then "IfcSystem"
    else if Text.StartsWith(t, "IfcFlow") || Text.StartsWith(t, "IfcDistribution") then "IfcDistributionElement"
    else if Text.StartsWith(t, "IfcElement") then "IfcElement"
    else t
  }

  /** Every label is either the class itself or one of the three family labels. */
  lemma CmmsLabelRange(t: string)
    ensures CmmsLabel(t) == t || CmmsLabel(t) in {"IfcSystem", "IfcDistributionElement", "IfcElement"}
    ensures t in SpatialTypes ==> CmmsLabel(t) == t
    ensures CmmsLabel(t) != t ==> Text.StartsWith(t, "Ifc")
  {
    if CmmsLabel(t) != t && t !in SpatialTypes {
      assert t[..3] == "Ifc" by {
        if Text.StartsWith(t, "IfcSystem") {
          assert t[..3] == t[..9][..3];
        } else if Text.StartsWith(t, "IfcFlow") {
          assert t[..3] == t[..7][..3];
        } else if Text.StartsWith(t, "IfcDistribution") {
          assert t[..3] == t[..15][..3];
        } else {
          assert t[..3] == t[..10][..3];
        }
      }
    }
  }

  /** A label is a fixed point: labelling a label changes nothing. */
  lemma CmmsLabelIdempotent(t: string)
    ensures CmmsLabel(CmmsLabel(t)) == CmmsLabel(t)
  {
    var r := CmmsLabel(t);
    if r == "IfcDistributionElement" {
      assert r[..9][3] == 'D' && r[..7][3] == 'D';
      assert r[..15] == "IfcDistribution";
    } else if r == "IfcElement" {
      assert r[..9][3] == 'E' && r[..7][3] == 'E';
      assert |r| < 15 && r[..10] == "IfcElement";
    } else if r == "IfcSystem" {
      assert r[..9] == "IfcSystem";
    }
  }

  // ----- names -----

  /** `name_of`: the `Name` attribute (None, "" and other falsy values give ""), stripped if a string. */
  function NameOf(py: Py, n: Value): (r: string)
    ensures !Truthy(n) ==> r == ""
    ensures n.Str? ==> r == Text.Strip(n.s)
  {
    if !Truthy(n) then "" else if n.Str? then Text.Strip(n.s) else Show(py, n)
  }

  /** A string name reads as "" exactly when it is blank. */
  lemma NameOfBlank(py: Py, s: string)
    ensures NameOf(py, Str(s)) == "" <==> Text.IsBlank(s)
  {
    Text.StripEmptyIffBlank(s);
    if s == "" {
      assert Text.IsBlank(s);
    }
  }

  // ----- placement walk -----

  /**
   * An IfcLocalPlacement: the coordinates of its RelativePlacement's Location ([] when the
   * placement, the location or the coordinates are missing) and its PlacementRelTo.
   */
  datatype Placement = Placement(location: seq<real>, relTo: Option<nat>)

  /** What one placement adds: its third coordinate, when there are at least three. */
  function Lift(p: Placement): real {
    if |p.location| >= 3 then p.location[2] else 0.0
  }

  /** The Z sum over at most `fuel` placements of the chain from `cur`. */
  function ChainZ(arena: map<nat, Placement>, cur: Option<nat>, fuel: nat): real
    decreases fuel
  {
    if fuel == 0 || cur.None? || cur.value !in arena then 0.0
    else Lift(arena[cur.value]) + ChainZ(arena, arena[cur.value].relTo, fuel - 1)
  }

  /** How many placements the walk visits. */
  function Hops(arena: map<nat, Placement>, cur: Option<nat>, fuel: nat): nat
    decreases fuel
  {
    if fuel == 0 || cur.None? || cur.value !in arena then 0
    else 1 + Hops(arena, arena[cur.value].relTo, fuel - 1)
  }

  /** The walk visits at most `fuel` placements whatever the chain; a cycle uses them all. */
  lemma {:induction false} HopsBounded(arena: map<nat, Placement>, cur: Option<nat>, fuel: nat)
    ensures Hops(arena, cur, fuel) <= fuel
    ensures (cur.Some? && cur.value in arena && arena[cur.value].relTo == cur) ==> Hops(arena, cur, fuel) == fuel
    decreases fuel
  {
    if fuel > 0 && cur.Some? && cur.value in arena {
      HopsBounded(arena, arena[cur.value].relTo, fuel - 1);
    }
  }

  /**
   * With no visited set, a two-placement cycle A -> B -> A is summed again and again:
   * 2n steps add n times both lifts (so the script's 64 steps give 32 times the pair).
   */
  lemma {:induction false} TwoCycle(arena: map<nat, Placement>, a: nat, b: nat, n: nat)
    requires a in arena && b in arena
    requires arena[a].relTo == Some(b) && arena[b].relTo == Some(a)
    ensures ChainZ(arena, Some(a), 2 * n) == (n as real) * (Lift(arena[a]) + Lift(arena[b]))
    decreases n
  {
    if n > 0 {
      TwoCycle(arena, a, b, n - 1);
      assert ChainZ(arena, Some(a), 2 * n) == Lift(arena[a]) + Lift(arena[b]) + ChainZ(arena, Some(a), 2 * (n - 1));
    }
  }

  /** `z_from_local_placement`: sum the lifts of at most 64 placements up the chain. */
  method ZFromLocalPlacement(arena: map<nat, Placement>, lp: nat) returns (z: real)
    ensures z == ChainZ(arena, Some(lp), 64)
  {
    z := 0.0;
    var steps: nat := 0;
    var cur: Option<nat> := Some(lp);
    while cur.Some? && cur.value in arena && steps < 64
      invariant steps <= 64
      invariant z + ChainZ(arena, cur, 64 - steps) == ChainZ(arena, Some(lp), 64)
      decreases 64 - steps
    {
      var p := arena[cur.value];
      if |p.location| >= 3 {
        z := z + p.location[2];
      }
      cur := p.relTo;
      steps := steps + 1;
    }
  }

  /** An element's ObjectPlacement. */
  datatype ObjPlacement = NoPlacement | LocalPlacement(id: nat) | OtherPlacement

  /** `z_of`: only a local placement has a Z. */
  function ZOf(arena: map<nat, Placement>, op: ObjPlacement): (r: Option<real>)
    ensures r.None? <==> !op.LocalPlacement?
    ensures op.LocalPlacement? ==> r == Some(ChainZ(arena, Some(op.id), 64))
  {
    if op.LocalPlacement? then Some(ChainZ(arena, Some(op.id), 64)) else None
  }

  // ----- property sets -----

  /**
   * A property value from `get_psets`: a plain Python value, or an ifcopenshell wrapper
   * object (its `wrappedValue`, None when it has none, and its `str()`).
   */
  datatype PropVal = Plain(v: Value) | Wrapped(wrapped: Value, text: string)

  /** A pset entry: a dict of properties, or anything else (skipped). */
  datatype Pset = PropsOf(props: seq<(string, PropVal)>) | NotADict

  /** The value stored for one property: scalars as they are, wrappers unwrapped, the rest as `str`. */
  function PropValue(py: Py, pv: PropVal): (r: Value)
    ensures IsScalar(r)
    ensures pv.Plain? && IsScalar(pv.v) ==> r == pv.v
    ensures pv.Plain? && !IsScalar(pv.v) ==> r == Str(Show(py, pv.v))
    ensures pv.Wrapped? ==> r == if IsScalar(pv.wrapped) && pv.wrapped != Null then pv.wrapped else Str(pv.text)
  {
    match pv
    case Plain(v) => if IsScalar(v) then v else Str(Show(py, v))
    case Wrapped(w, text) => if IsScalar(w) && w != Null then w else Str(text)
  }

  /** The key of one flattened property. */
  function FlatKey(pset: string, prop: string): string {
    pset + "." + prop
  }

  /** The properties of one pset assigned into `out`, in order. */
  function PutProps(py: Py, out: seq<(string, Value)>, pset: string, props: seq<(string, PropVal)>): seq<(string, Value)>
    decreases |props|
  {
    if |props| == 0 then out
    else
      var last := props[|props| - 1];
      PyDict.Put(PutProps(py, out, pset, props[..|props| - 1]), FlatKey(pset, last.0), PropValue(py, last.1))
  }

  /** `flatten_psets`, pset by pset. */
  function Flatten(py: Py, ps: seq<(string, Pset)>): seq<(string, Value)>
    decreases |ps|
  {
    if |ps| == 0 then []
    else
      var last := ps[|ps| - 1];
      var out := Flatten(py, ps[..|ps| - 1]);
      if last.1.PropsOf? then PutProps(py, out, last.0, last.1.props) else out
  }

  /** `flatten_psets`: one `pset.prop` entry per property of every dict-valued pset. */
  method FlattenPsets(py: Py, ps: seq<(string, Pset)>) returns (out: seq<(string, Value)>)
    ensures out == Flatten(py, ps)
  {
    out := [];
    var i := 0;
    while i < |ps|
      invariant 0 <= i <= |ps|
      invariant out == Flatten(py, ps[..i])
    {
      assert ps[..i + 1][..i] == ps[..i];
      var pset := ps[i].0;
      var props := ps[i].1;
      if props.PropsOf? {
        var j := 0;
        while j < |props.props|
          invariant 0 <= j <= |props.props|
          invariant out == PutProps(py, Flatten(py, ps[..i]), pset, props.props[..j])
        {
          assert props.props[..j + 1][..j] == props.props[..j];
          out := PyDict.Put(out, FlatKey(pset, props.props[j].0), PropValue(py, props.props[j].1));
          j := j + 1;
        }
        assert props.props[..j] == props.props;
      }
      i := i + 1;
    }
    assert ps[..i] == ps;
  }

  /** The keys flattening produces: `pset.prop` for each property of each dict-valued pset. */
  ghost function FlatKeys(ps: seq<(string, Pset)>): set<string> {
    set i, j | 0 <= i < |ps| && ps[i].1.PropsOf? && 0 <= j < |ps[i].1.props| :: FlatKey(ps[i].0, ps[i].1.props[j].0)
  }

  /** The keys one pset's properties flatten to. */
  ghost function PropKeys(pset: string, props: seq<(string, PropVal)>): set<string> {
    set j | 0 <= j < |props| :: FlatKey(pset, props[j].0)
  }

  lemma PropKeysSnoc(pset: string, props: seq<(string, PropVal)>)
    requires |props| > 0
    ensures PropKeys(pset, props) == PropKeys(pset, props[..|props| - 1]) + {FlatKey(pset, props[|props| - 1].0)}
  {
    var init := props[..|props| - 1];
    forall j | 0 <= j < |init| ensures init[j] == props[j] { }
  }

  lemma {:induction false} PutPropsKeys(py: Py, out: seq<(string, Value)>, pset: string, props: seq<(string, PropVal)>)
    ensures PyDict.KeySet(PutProps(py, out, pset, props)) == PyDict.KeySet(out) + PropKeys(pset, props)
    decreases |props|
  {
    if |props| > 0 {
      PutPropsKeys(py, out, pset, props[..|props| - 1]);
      PropKeysSnoc(pset, props);
    }
  }

  lemma FlatKeysSnoc(ps: seq<(string, Pset)>)
    requires |ps| > 0
    ensures var last := ps[|ps| - 1];
      FlatKeys(ps) == FlatKeys(ps[..|ps| - 1]) + (if last.1.PropsOf? then PropKeys(last.0, last.1.props) else {})
  {
    var init := ps[..|ps| - 1];
    var last := ps[|ps| - 1];
    forall i | 0 <= i < |init| ensures init[i] == ps[i] { }
    var extra := if last.1.PropsOf? then PropKeys(last.0, last.1.props) else {};
    forall k | k in FlatKeys(ps) ensures k in FlatKeys(init) + extra {
      var i, j :| 0 <= i < |ps| && ps[i].1.PropsOf? && 0 <= j < |ps[i].1.props| && k == FlatKey(ps[i].0, ps[i].1.props[j].0);
      if i < |init| {
        assert k == FlatKey(init[i].0, init[i].1.props[j].0);
      }
    }
  }

  /** Flattening produces exactly the `pset.prop` keys of the dict-valued psets. */
  lemma {:induction false} FlattenKeys(py: Py, ps: seq<(string, Pset)>)
    ensures PyDict.KeySet(Flatten(py, ps)) == FlatKeys(ps)
    decreases |ps|
  {
    if |ps| > 0 {
      var init := ps[..|ps| - 1];
      var last := ps[|ps| - 1];
      FlattenKeys(py, init);
      FlatKeysSnoc(ps);
      if last.1.PropsOf? {
        PutPropsKeys(py, Flatten(py, init), last.0, last.1.props);
      }
    }
  }

  lemma {:induction false} PutPropsScalar(py: Py, out: seq<(string, Value)>, pset: string, props: seq<(string, PropVal)>)
    requires forall k | k in PyDict.KeySet(out) :: PyDict.Find(out, k).Some? && IsScalar(PyDict.Find(out, k).value)
    ensures forall k | k in PyDict.KeySet(PutProps(py, out, pset, props)) ::
      PyDict.Find(PutProps(py, out, pset, props), k).Some? && IsScalar(PyDict.Find(PutProps(py, out, pset, props), k).value)
    decreases |props|
  {
    if |props| > 0 {
      PutPropsScalar(py, out, pset, props[..|props| - 1]);
    }
  }

  /** Every flattened value is a scalar (str, int, float, bool or None). */
  lemma {:induction false} FlattenScalar(py: Py, ps: seq<(string, Pset)>)
    ensures forall k | k in PyDict.KeySet(Flatten(py, ps)) ::
      PyDict.Find(Flatten(py, ps), k).Some? && IsScalar(PyDict.Find(Flatten(py, ps), k).value)
    decreases |ps|
  {
    if |ps| > 0 {
      FlattenScalar(py, ps[..|ps| - 1]);
      if ps[|ps| - 1].1.PropsOf? {
        PutPropsScalar(py, Flatten(py, ps[..|ps| - 1]), ps[|ps| - 1].0, ps[|ps| - 1].1.props);
      }
    }
  }

  /** Flattened keys all contain a '.', so none is `psets_json`. */
  lemma FlatKeysApart(py: Py, ps: seq<(string, Pset)>)
    ensures forall i | 0 <= i < |Flatten(py, ps)| :: Flatten(py, ps)[i].0 != "psets_json"
  {
    var flat := Flatten(py, ps);
    FlattenKeys(py, ps);
    PyDict.KeySetInSeq(flat);
    forall i | 0 <= i < |flat| ensures flat[i].0 != "psets_json" {
      assert flat[i].0 in FlatKeys(ps);
      var a, j :| 0 <= a < |ps| && ps[a].1.PropsOf? && 0 <= j < |ps[a].1.props| &&
        flat[i].0 == FlatKey(ps[a].0, ps[a].1.props[j].0);
      var k := flat[i].0;
      assert k[|ps[a].0|] == '.';
      assert forall c | 0 <= c < |"psets_json"| :: "psets_json"[c] != '.';
    }
  }

  // ----- the model read from the file -----

  /** An IfcBuildingStorey: GlobalId, Name, Elevation. */
  datatype Storey = Storey(gid: string, name: Value, elevation: Option<real>)

  /**
   * An IfcElement, IfcDistributionElement or IfcSystem: GlobalId ("" when missing), class
   * name, Name, ObjectPlacement, `get_psets` and its `json.dumps` text.
   */
  datatype Element = Element(gid: string, ifcType: string, name: Value, placement: ObjPlacement,
                             psets: seq<(string, Pset)>, psetsJson: string)

  /** An IfcSpace: GlobalId, Name, LongName, psets and their JSON text. */
  datatype Space = Space(gid: string, name: Value, longName: Value, psets: seq<(string, Pset)>, psetsJson: string)

  /** A relation from one entity's GlobalId to several ("" when an entity has none). */
  datatype OneToMany = OneToMany(one: string, many: seq<string>)

  /** An IfcRelAssignsToGroup: the group's GlobalId ("" when there is no group), Name and members. */
  datatype Group = Group(gid: string, name: Value, members: seq<string>)

  /** A relation between two entities: (relating, related) GlobalIds. */
  datatype Pair = Pair(relating: string, related: string)

  datatype IfcModel = IfcModel(
    arena: map<nat, Placement>,
    storeys: seq<Storey>,
    elements: seq<Element>,
    spaces: seq<Space>,
    containments: seq<OneToMany>,
    aggregations: seq<OneToMany>,
    groups: seq<Group>,
    portsToElements: seq<Pair>,
    portConnections: seq<Pair>,
    elementConnections: seq<Pair>)

  // ----- the statements of `main` -----

  function StoreyStmts(py: Py, src: string, st: Storey): seq<Graph.Stmt> {
    [Graph.MergeNodeS(st.gid, {"IfcEntity", "IfcBuildingStorey"},
       [Graph.Overwrite("name", Str(NameOf(py, st.name))), Graph.Overwrite("type", Str("IfcBuildingStorey")),
        Graph.Overwrite("source", Str(src))],
       [],
       [Graph.Overwrite("elev", match st.elevation case Some(e) => Float(e) case None => Null)])]
  }

  function ElementCreate(py: Py, src: string, e: Element): seq<Graph.Assign> {
    [Graph.Overwrite("name", Str(NameOf(py, e.name))), Graph.Overwrite("type", Str(e.ifcType)),
     Graph.Overwrite("source", Str(src))]
  }

  function ElementMatch(src: string, e: Element): seq<Graph.Assign> {
    [Graph.Overwrite("type", Str(e.ifcType)), Graph.FillIn("source", Str(src))]
  }

  function ElementZ(arena: map<nat, Placement>, e: Element): seq<Graph.Assign> {
    match ZOf(arena, e.placement)
    case Some(z) => [Graph.Overwrite("z", Float(z))]
    case None => []
  }

  /** The labels of an element's MERGE: IfcEntity, its class and its CMMS label. */
  function ElementLabels(t: string): set<string> {
    {"IfcEntity", t, CmmsLabel(t)}
  }

  function ElementMerge(py: Py, arena: map<nat, Placement>, src: string, e: Element): Graph.Stmt {
    Graph.MergeNodeS(e.gid, ElementLabels(e.ifcType),
                     ElementCreate(py, src, e), ElementMatch(src, e), ElementZ(arena, e))
  }

  function PsetsStmt(py: Py, gid: string, need: string, psets: seq<(string, Pset)>, json: string): Graph.Stmt {
    Graph.MatchSetS(gid, need, [Graph.FillIn("psets_json", Str(json))], Flatten(py, psets))
  }

  /** An element without a GlobalId is skipped; psets are written only when there are some. */
  function ElementStmts(py: Py, arena: map<nat, Placement>, src: string, e: Element): seq<Graph.Stmt> {
    if e.gid == "" then []
    else [ElementMerge(py, arena, src, e)] + (if |e.psets| > 0 then [PsetsStmt(py, e.gid, "", e.psets, e.psetsJson)] else [])
  }

  /** A space's psets are always written: the JSON text of its psets is never empty. */
  function SpaceStmts(py: Py, src: string, sp: Space): seq<Graph.Stmt> {
    if sp.gid == "" then []
    else
      [Graph.MergeNodeS(sp.gid, {"IfcEntity", "IfcSpace"},
         [Graph.Overwrite("name", Str(NameOf(py, sp.name))), Graph.Overwrite("type", Str("IfcSpace")),
          Graph.Overwrite("source", Str(src))],
         [],
         [Graph.Overwrite("longName", sp.longName)]),
       PsetsStmt(py, sp.gid, "IfcSpace", sp.psets, sp.psetsJson)]
  }

  /** One edge per related entity; a relation with no relating id gives none. */
  function FanOut(r: OneToMany, rel: string): seq<Graph.Stmt>
    decreases |r.many|
  {
    if r.one == "" || |r.many| == 0 then []
    else
      var init := FanOut(OneToMany(r.one, r.many[..|r.many| - 1]), rel);
      var last := r.many[|r.many| - 1];
      init + (if last == "" then [] else [Graph.MergeEdgeS(Str(r.one), Str(last), rel, "")])
  }

  function MemberEdges(gid: string, members: seq<string>): seq<Graph.Stmt>
    decreases |members|
  {
    if |members| == 0 then []
    else
      var last := members[|members| - 1];
      MemberEdges(gid, members[..|members| - 1]) +
        (if last == "" then [] else [Graph.MergeEdgeS(Str(last), Str(gid), "ASSIGNED_TO_SYSTEM", "")])
  }

  /** The system node is merged first, then each member is linked element -> system. */
  function GroupStmts(py: Py, src: string, g: Group): seq<Graph.Stmt> {
    if g.gid == "" then []
    else
      [Graph.MergeNodeS(g.gid, {"IfcEntity", "IfcSystem"},
         [Graph.Overwrite("name", Str(NameOf(py, g.name))), Graph.Overwrite("type", Str("IfcSystem")),
          Graph.Overwrite("source", Str(src))], [], [])]
      + MemberEdges(g.gid, g.members)
  }

  /** IfcRelConnectsPortToElement: element -> port. */
  function HasPortStmts(p: Pair): seq<Graph.Stmt> {
    if p.relating != "" && p.related != "" then [Graph.MergeEdgeS(Str(p.related), Str(p.relating), "HAS_PORT", "")]
    else []
  }

  /** A connection is written in both directions. */
  function BothWays(p: Pair, rel: string): seq<Graph.Stmt> {
    if p.relating != "" && p.related != "" then
      [Graph.MergeEdgeS(Str(p.relating), Str(p.related), rel, ""), Graph.MergeEdgeS(Str(p.related), Str(p.relating), rel, "")]
    else []
  }

  /** Every statement `main` issues, in order. */
  function IngestStmts(py: Py, src: string, m: IfcModel): seq<Graph.Stmt> {
    Graph.ConcatMap(m.storeys, st => StoreyStmts(py, src, st))
    + Graph.ConcatMap(m.elements, e => ElementStmts(py, m.arena, src, e))
    + Graph.ConcatMap(m.spaces, sp => SpaceStmts(py, src, sp))
    + Graph.ConcatMap(m.containments, r => FanOut(r, "CONTAINS"))
    + Graph.ConcatMap(m.aggregations, r => FanOut(r, "AGGREGATES"))
    + Graph.ConcatMap(m.groups, g => GroupStmts(py, src, g))
    + Graph.ConcatMap(m.portsToElements, HasPortStmts)
    + Graph.ConcatMap(m.portConnections, p => BothWays(p, "PORT_CONNECTED_TO"))
    + Graph.ConcatMap(m.elementConnections, p => BothWays(p, "CONNECTED_TO"))
  }

  /** `main`: run every statement against the store. */
  method Ingest(py: Py, src: string, m: IfcModel, store: Graph.Store)
    requires store.Valid()
    modifies store
    ensures store.Valid()
    ensures store.AsState()
            == Graph.Exec(old(store.AsState()), IngestStmts(py, src, m))
  {
    store.Run(IngestStmts(py, src, m));
  }

  // ----- what the statements do -----

  /** Flattened psets hold scalars only, which Neo4j stores. */
  lemma FlattenStorable(py: Py, ps: seq<(string, Pset)>)
    ensures Graph.MergeOk(Flatten(py, ps))
  {
    var flat := Flatten(py, ps);
    FlattenScalar(py, ps);
    FlattenUnique(py, ps);
    PyDict.KeySetInSeq(flat);
    forall i | 0 <= i < |flat| ensures Graph.Storable(flat[i].1) {
      PyDict.FindUnique(flat, i);
      assert flat[i].0 in PyDict.KeySet(flat);
    }
  }

  lemma {:induction false} MemberEdgesOnly(gid: string, members: seq<string>, x: Graph.Stmt)
    requires x in MemberEdges(gid, members)
    ensures x.MergeEdgeS? && x.dstLabel == ""
    decreases |members|
  {
    var init := MemberEdges(gid, members[..|members| - 1]);
    if x in init {
      MemberEdgesOnly(gid, members[..|members| - 1], x);
    }
  }

  lemma ElementStmtsSafe(py: Py, arena: map<nat, Placement>, src: string, e: Element)
    ensures forall x | x in ElementStmts(py, arena, src, e) :: Graph.Safe(x)
  {
    ElementMergeStorable(py, arena, src, e);
    FlattenStorable(py, e.psets);
  }

  lemma GroupStmtsSafe(py: Py, src: string, g: Group)
    ensures forall x | x in GroupStmts(py, src, g) :: Graph.Safe(x)
  {
    forall x | x in MemberEdges(g.gid, g.members) ensures x.MergeEdgeS? {
      MemberEdgesOnly(g.gid, g.members, x);
    }
  }

  lemma ElementsSafe(py: Py, src: string, m: IfcModel, x: Graph.Stmt)
    requires x in Graph.ConcatMap(m.elements, e => ElementStmts(py, m.arena, src, e))
    ensures Graph.Safe(x)
  {
    Graph.ConcatMapIn(m.elements, e => ElementStmts(py, m.arena, src, e), x);
    var k :| 0 <= k < |m.elements| && x in ElementStmts(py, m.arena, src, m.elements[k]);
    ElementStmtsSafe(py, m.arena, src, m.elements[k]);
  }

  lemma SpacesSafe(py: Py, src: string, m: IfcModel, x: Graph.Stmt)
    requires forall k | 0 <= k < |m.spaces| :: Graph.Storable(m.spaces[k].longName)
    requires x in Graph.ConcatMap(m.spaces, sp => SpaceStmts(py, src, sp))
    ensures Graph.Safe(x)
  {
    Graph.ConcatMapIn(m.spaces, sp => SpaceStmts(py, src, sp), x);
    var k :| 0 <= k < |m.spaces| && x in SpaceStmts(py, src, m.spaces[k]);
    FlattenStorable(py, m.spaces[k].psets);
  }

  lemma GroupsSafe(py: Py, src: string, m: IfcModel, x: Graph.Stmt)
    requires x in Graph.ConcatMap(m.groups, g => GroupStmts(py, src, g))
    ensures Graph.Safe(x)
  {
    Graph.ConcatMapIn(m.groups, g => GroupStmts(py, src, g), x);
    var k :| 0 <= k < |m.groups| && x in GroupStmts(py, src, m.groups[k]);
    GroupStmtsSafe(py, src, m.groups[k]);
  }

  lemma FanOutsSafe(rs: seq<OneToMany>, rel: string, x: Graph.Stmt)
    requires x in Graph.ConcatMap(rs, r => FanOut(r, rel))
    ensures Graph.Safe(x)
  {
    Graph.ConcatMapIn(rs, r => FanOut(r, rel), x);
    var k :| 0 <= k < |rs| && x in FanOut(rs[k], rel);
    FanOutEdges(rs[k], rel, x);
  }

  /** Given LongNames Neo4j can store, every statement `main` issues writes storable values only. */
  lemma IngestSafe(py: Py, src: string, m: IfcModel)
    requires forall k | 0 <= k < |m.spaces| :: Graph.Storable(m.spaces[k].longName)
    ensures forall x | x in IngestStmts(py, src, m) :: Graph.Safe(x)
  {
    forall x | x in IngestStmts(py, src, m) ensures Graph.Safe(x) {
      if x in Graph.ConcatMap(m.elements, e => ElementStmts(py, m.arena, src, e)) {
        ElementsSafe(py, src, m, x);
      } else if x in Graph.ConcatMap(m.spaces, sp => SpaceStmts(py, src, sp)) {
        SpacesSafe(py, src, m, x);
      } else if x in Graph.ConcatMap(m.containments, r => FanOut(r, "CONTAINS")) {
        FanOutsSafe(m.containments, "CONTAINS", x);
      } else if x in Graph.ConcatMap(m.aggregations, r => FanOut(r, "AGGREGATES")) {
        FanOutsSafe(m.aggregations, "AGGREGATES", x);
      } else if x in Graph.ConcatMap(m.groups, g => GroupStmts(py, src, g)) {
        GroupsSafe(py, src, m, x);
      } else {
        OtherStmtsSafe(py, src, m, x);
      }
    }
  }

  /** Storeys, ports and connections write storable values only. */
  lemma OtherStmtsSafe(py: Py, src: string, m: IfcModel, x: Graph.Stmt)
    requires x in Graph.ConcatMap(m.storeys, st => StoreyStmts(py, src, st)) ||
             x in Graph.ConcatMap(m.portsToElements, HasPortStmts) ||
             x in Graph.ConcatMap(m.portConnections, p => BothWays(p, "PORT_CONNECTED_TO")) ||
             x in Graph.ConcatMap(m.elementConnections, p => BothWays(p, "CONNECTED_TO"))
    ensures Graph.Safe(x)
  {
    Graph.ConcatMapIn(m.storeys, st => StoreyStmts(py, src, st), x);
    Graph.ConcatMapIn(m.portsToElements, HasPortStmts, x);
    Graph.ConcatMapIn(m.portConnections, p => BothWays(p, "PORT_CONNECTED_TO"), x);
    Graph.ConcatMapIn(m.elementConnections, p => BothWays(p, "CONNECTED_TO"), x);
  }

  /** Given LongNames Neo4j can store, `main` never raises on a property value. */
  lemma IngestNeverFails(py: Py, src: string, m: IfcModel, s: Graph.State)
    requires forall k | 0 <= k < |m.spaces| :: Graph.Storable(m.spaces[k].longName)
    ensures Graph.Exec(s, IngestStmts(py, src, m)).failure == s.failure
  {
    IngestSafe(py, src, m);
    var stmts := IngestStmts(py, src, m);
    assert forall i | 0 <= i < |stmts| :: stmts[i] in stmts;
    Graph.SafeNeverFails(s, stmts);
  }

  /** An element's class that is not IfcSystem or a name under it gets no IfcSystem label. */
  lemma NotSystemLabels(t: string)
    requires !Text.StartsWith(t, "IfcSystem")
    ensures "IfcSystem" !in ElementLabels(t)
  {
    assert Text.StartsWith("IfcSystem", "IfcSystem");
  }

  /**
   * An IFC4 subtype of IfcSystem (IfcDistributionSystem, IfcZone, IfcBuildingSystem) that a
   * group assigns: its element upsert makes the first node for the GlobalId with the
   * subtype's labels, and the group's `MERGE (:IfcEntity:IfcSystem {globalId})` cannot
   * match that node, so the run ends with a second node carrying the IfcSystem label.
   */
  lemma SystemSubtypeSplits(py: Py, src: string, m: IfcModel, s: Graph.State, i: nat, j: nat)
    requires Graph.Consistent(s) && s.failure.None?
    requires forall k | 0 <= k < |m.spaces| :: Graph.Storable(m.spaces[k].longName)
    requires i < |m.elements| && j < |m.groups|
    requires m.elements[i].gid != "" && m.groups[j].gid == m.elements[i].gid
    requires !Text.StartsWith(m.elements[i].ifcType, "IfcSystem")
    requires m.elements[i].gid !in s.nodes
    requires forall k | 0 <= k < |m.storeys| :: m.storeys[k].gid != m.elements[i].gid
    requires forall k | 0 <= k < i :: m.elements[k].gid != m.elements[i].gid
    ensures var r := Graph.Exec(s, IngestStmts(py, src, m));
      var g := m.elements[i].gid;
      r.failure.None? && g in r.nodes && r.nodes[g].labels == ElementLabels(m.elements[i].ifcType) &&
      "IfcSystem" !in r.nodes[g].labels && Graph.TwinHas(r.twins, g, {"IfcEntity", "IfcSystem"})
  {
    var e := m.elements[i];
    var g := e.gid;
    var em := ElementMerge(py, m.arena, src, e);
    var gm := GroupStmts(py, src, m.groups[j])[0];
    var pre, mid, post := SystemSplitParts(py, src, m, i, j);
    PreNoMerge(py, src, m, i);
    Graph.NoMergeNoNode(s, pre, g);
    NotSystemLabels(e.ifcType);
    IngestNeverFails(py, src, m, s);
    SecondNodeRun(py, m.arena, src, e, s, pre, mid, gm, post);
  }

  /**
   * A run in which an element's MERGE first makes its node, and a later MERGE for the same
   * GlobalId asks for a label the element lacks: without an error, the node keeps the
   * element's labels and a second node carries the later MERGE's labels.
   */
  lemma SecondNodeRun(py: Py, arena: map<nat, Placement>, src: string, e: Element, s: Graph.State,
                      pre: seq<Graph.Stmt>, mid: seq<Graph.Stmt>, gm: Graph.Stmt, post: seq<Graph.Stmt>)
    requires Graph.Consistent(s) && e.gid != "" && e.gid !in Graph.Exec(s, pre).nodes
    requires gm.MergeNodeS? && gm.id == e.gid && !(gm.labels <= ElementLabels(e.ifcType))
    requires Graph.Exec(s, pre + [ElementMerge(py, arena, src, e)] + mid + [gm] + post).failure.None?
    ensures var r := Graph.Exec(s, pre + [ElementMerge(py, arena, src, e)] + mid + [gm] + post);
      e.gid in r.nodes && r.nodes[e.gid].labels == ElementLabels(e.ifcType) && Graph.TwinHas(r.twins, e.gid, gm.labels)
  {
    var g := e.gid;
    var em := ElementMerge(py, arena, src, e);
    var r := Graph.Exec(s, pre + [em] + mid + [gm] + post);
    var s1 := Graph.Exec(s, pre);
    var s2 := Graph.Step(s1, em);
    var s3 := Graph.Exec(s2, mid);
    var s4 := Graph.Step(s3, gm);
    Graph.ExecSnoc(s, pre, em);
    Graph.ExecAppend(s, pre + [em], mid);
    Graph.ExecSnoc(s, pre + [em] + mid, gm);
    Graph.ExecAppend(s, pre + [em] + mid + [gm], post);
    assert r == Graph.Exec(s4, post);
    // each state is consistent, and no statement raises, so none before the last did
    Graph.ExecGrows(s, pre);
    StepKeeps(s1, em);
    Graph.ExecGrows(s2, mid);
    StepKeeps(s3, gm);
    Graph.ExecGrows(s4, post);
    // the element's MERGE makes the node with the element's labels, which then stay
    ElementUpsert(py, arena, src, e, s1);
    // the later MERGE cannot match it, so it makes or finds a second node
    Graph.MergeNodeOutcome(s3, g, gm.labels, gm.onCreate, gm.onMatch, gm.always);
    var t :| t in s4.twins && t.0 == g && gm.labels <= t.1;
    assert t in r.twins;
  }

  /** One statement: what `ExecGrows` says of a batch of one. */
  lemma StepKeeps(s: Graph.State, st: Graph.Stmt)
    requires Graph.Consistent(s)
    ensures var r := Graph.Step(s, st);
      Graph.Consistent(r) && s.nodes.Keys <= r.nodes.Keys && s.twins <= r.twins &&
      (forall id | id in s.nodes :: r.nodes[id].labels == s.nodes[id].labels) &&
      (r.failure.None? ==> s.failure.None?)
  {
    assert Graph.Exec(s, [st]) == Graph.Step(s, st) by {
      assert [st][..0] == [];
    }
    Graph.ExecGrows(s, [st]);
  }

  /** Sequence regrouping for `SystemSplitParts`. */
  lemma Regroup<T>(S: seq<T>, E0: seq<T>, em: T, tail: seq<T>, E1: seq<T>, Sp: seq<T>, C: seq<T>, A: seq<T>,
                   G0: seq<T>, gm: T, me: seq<T>, G1: seq<T>, R1: seq<T>, R2: seq<T>, R3: seq<T>)
    ensures S + (E0 + ([em] + tail) + E1) + Sp + C + A + (G0 + ([gm] + me) + G1) + R1 + R2 + R3
      == (S + E0) + [em] + (tail + E1 + Sp + C + A + G0) + [gm] + (me + G1 + R1 + R2 + R3)
  {
  }

  /** The storeys and the elements before element `i` merge no node with its GlobalId. */
  lemma PreNoMerge(py: Py, src: string, m: IfcModel, i: nat)
    requires i < |m.elements|
    requires forall k | 0 <= k < |m.storeys| :: m.storeys[k].gid != m.elements[i].gid
    requires forall k | 0 <= k < i :: m.elements[k].gid != m.elements[i].gid
    ensures forall x | x in Graph.ConcatMap(m.storeys, st => StoreyStmts(py, src, st))
                           + Graph.ConcatMap(m.elements[..i], e => ElementStmts(py, m.arena, src, e)) ::
      !(x.MergeNodeS? && x.id == m.elements[i].gid)
  {
    forall x | x in Graph.ConcatMap(m.storeys, st => StoreyStmts(py, src, st))
                    + Graph.ConcatMap(m.elements[..i], e => ElementStmts(py, m.arena, src, e))
      ensures !(x.MergeNodeS? && x.id == m.elements[i].gid)
    {
      Graph.ConcatMapIn(m.storeys, st => StoreyStmts(py, src, st), x);
      Graph.ConcatMapIn(m.elements[..i], e => ElementStmts(py, m.arena, src, e), x);
    }
  }

  /**
   * `main`'s statements around an element's MERGE and a later group's MERGE: the storeys
   * and earlier elements, then the element's MERGE, what comes between, the group's
   * MERGE, and what comes after.
   */
  lemma SystemSplitParts(py: Py, src: string, m: IfcModel, i: nat, j: nat)
    returns (pre: seq<Graph.Stmt>, mid: seq<Graph.Stmt>, post: seq<Graph.Stmt>)
    requires i < |m.elements| && j < |m.groups|
    requires m.elements[i].gid != "" && m.groups[j].gid != ""
    ensures pre == Graph.ConcatMap(m.storeys, st => StoreyStmts(py, src, st))
                   + Graph.ConcatMap(m.elements[..i], e => ElementStmts(py, m.arena, src, e))
    ensures |GroupStmts(py, src, m.groups[j])| > 0
    ensures IngestStmts(py, src, m) ==
      pre + [ElementMerge(py, m.arena, src, m.elements[i])] + mid + [GroupStmts(py, src, m.groups[j])[0]] + post
    ensures GroupStmts(py, src, m.groups[j])[0] ==
      Graph.MergeNodeS(m.groups[j].gid, {"IfcEntity", "IfcSystem"}, GroupStmts(py, src, m.groups[j])[0].onCreate, [], [])
  {
    var S := Graph.ConcatMap(m.storeys, st => StoreyStmts(py, src, st));
    var E0 := Graph.ConcatMap(m.elements[..i], e => ElementStmts(py, m.arena, src, e));
    var E1 := Graph.ConcatMap(m.elements[i + 1..], e => ElementStmts(py, m.arena, src, e));
    var Sp := Graph.ConcatMap(m.spaces, sp => SpaceStmts(py, src, sp));
    var C := Graph.ConcatMap(m.containments, r => FanOut(r, "CONTAINS"));
    var A := Graph.ConcatMap(m.aggregations, r => FanOut(r, "AGGREGATES"));
    var G0 := Graph.ConcatMap(m.groups[..j], g => GroupStmts(py, src, g));
    var G1 := Graph.ConcatMap(m.groups[j + 1..], g => GroupStmts(py, src, g));
    var R1 := Graph.ConcatMap(m.portsToElements, HasPortStmts);
    var R2 := Graph.ConcatMap(m.portConnections, p => BothWays(p, "PORT_CONNECTED_TO"));
    var R3 := Graph.ConcatMap(m.elementConnections, p => BothWays(p, "CONNECTED_TO"));
    Graph.ConcatMapAt(m.elements, i, e => ElementStmts(py, m.arena, src, e));
    Graph.ConcatMapAt(m.groups, j, g => GroupStmts(py, src, g));
    var es := ElementStmts(py, m.arena, src, m.elements[i]);
    var gs := GroupStmts(py, src, m.groups[j]);
    assert es == [es[0]] + es[1..];
    assert gs == [gs[0]] + gs[1..];
    pre := S + E0;
    mid := es[1..] + E1 + Sp + C + A + G0;
    post := gs[1..] + G1 + R1 + R2 + R3;
    Regroup(S, E0, es[0], es[1..], E1, Sp, C, A, G0, gs[0], gs[1..], G1, R1, R2, R3);
  }


  /** The element MERGE writes only strings and floats, so Neo4j stores all of it. */
  lemma ElementMergeStorable(py: Py, arena: map<nat, Placement>, src: string, e: Element)
    ensures Graph.AllStorable(ElementCreate(py, src, e)) && Graph.AllStorable(ElementMatch(src, e)) &&
            Graph.AllStorable(ElementZ(arena, e))
    ensures Graph.Safe(ElementMerge(py, arena, src, e))
  {
  }

  /**
   * Element upsert on the first node for the GlobalId, when it is new or carries the
   * element's three labels: a new node gets the labels, name, type and source; an existing
   * one keeps its labels and its name, gets its type overwritten and a source only when it
   * had none; z is written only from a local placement. The MERGE never raises.
   */
  lemma ElementUpsert(py: Py, arena: map<nat, Placement>, src: string, e: Element, s: Graph.State)
    requires e.gid != "" && s.failure.None?
    requires e.gid !in s.nodes || ElementLabels(e.ifcType) <= s.nodes[e.gid].labels
    ensures var r := Graph.Step(s, ElementMerge(py, arena, src, e));
      r.failure.None? && r.edges == s.edges && r.twins == s.twins && e.gid in r.nodes &&
      r.nodes[e.gid].labels == (if e.gid in s.nodes then s.nodes[e.gid].labels else ElementLabels(e.ifcType))
    ensures var p := Graph.Step(s, ElementMerge(py, arena, src, e)).nodes[e.gid].props;
      ("type" in p && p["type"] == Str(e.ifcType)) &&
      ("source" in p && p["source"] == (if e.gid in s.nodes && "source" in s.nodes[e.gid].props then s.nodes[e.gid].props["source"] else Str(src))) &&
      (e.gid !in s.nodes ==> "name" in p && p["name"] == Str(NameOf(py, e.name))) &&
      (e.gid in s.nodes ==> ("name" in p <==> "name" in s.nodes[e.gid].props) &&
                            ("name" in p ==> p["name"] == s.nodes[e.gid].props["name"])) &&
      (ZOf(arena, e.placement).Some? ==> "z" in p && p["z"] == Float(ZOf(arena, e.placement).value)) &&
      (ZOf(arena, e.placement).None? && e.gid in s.nodes ==>
         ("z" in p <==> "z" in s.nodes[e.gid].props) && ("z" in p ==> p["z"] == s.nodes[e.gid].props["z"]))
  {
    ElementMergeStorable(py, arena, src, e);
    var p0 := if e.gid in s.nodes then s.nodes[e.gid].props else Graph.Fresh(e.gid);
    var first := if e.gid in s.nodes then ElementMatch(src, e) else ElementCreate(py, src, e);
    Graph.AllStorableOk(p0, first);
    Graph.AllStorableOk(Graph.ApplyAll(p0, first), ElementZ(arena, e));
    if e.gid in s.nodes {
      MatchProps(s.nodes[e.gid].props, src, e);
    } else {
      CreateProps(py, src, e);
    }
    ZProps(Graph.ApplyAll(p0, first), arena, e);
  }

  /**
   * When the first node for the GlobalId lacks one of the element's labels, the MERGE does
   * not touch it: Neo4j makes a second node with the element's labels, unless an earlier
   * MERGE made one already. The MERGE never raises.
   */
  lemma ElementSecondNode(py: Py, arena: map<nat, Placement>, src: string, e: Element, s: Graph.State)
    requires e.gid != "" && s.failure.None?
    requires e.gid in s.nodes && !(ElementLabels(e.ifcType) <= s.nodes[e.gid].labels)
    ensures Graph.Step(s, ElementMerge(py, arena, src, e)) ==
      s.(twins := s.twins + if Graph.TwinHas(s.twins, e.gid, ElementLabels(e.ifcType)) then {}
                            else {(e.gid, ElementLabels(e.ifcType))})
  {
    ElementMergeStorable(py, arena, src, e);
    Graph.AllStorableOk(Graph.Fresh(e.gid), ElementCreate(py, src, e));
    Graph.AllStorableOk(Graph.ApplyAll(Graph.Fresh(e.gid), ElementCreate(py, src, e)), ElementZ(arena, e));
    if Graph.TwinHas(s.twins, e.gid, ElementLabels(e.ifcType)) {
      assert s.twins + {} == s.twins;
    }
  }

  /** ON MATCH sets the type and fills in the source. */
  lemma MatchProps(p0: Graph.Props, src: string, e: Element)
    ensures Graph.ApplyAll(p0, ElementMatch(src, e)) ==
      Graph.FillProp(Graph.SetProp(p0, "type", Str(e.ifcType)), "source", Str(src))
  {
    var m := ElementMatch(src, e);
    assert Graph.ApplyAll(p0, m) == Graph.ApplyAll(Graph.ApplyOne(p0, m[0]), m[1..]);
    assert m[1..][1..] == [];
  }

  /** ON CREATE sets name, type and source on the new node. */
  lemma CreateProps(py: Py, src: string, e: Element)
    ensures Graph.ApplyAll(map["globalId" := Str(e.gid)], ElementCreate(py, src, e)) ==
      Graph.SetProp(Graph.SetProp(Graph.SetProp(map["globalId" := Str(e.gid)], "name", Str(NameOf(py, e.name))),
                                  "type", Str(e.ifcType)), "source", Str(src))
  {
    var c := ElementCreate(py, src, e);
    var p0 := map["globalId" := Str(e.gid)];
    var q1 := Graph.SetProp(p0, "name", Str(NameOf(py, e.name)));
    var q2 := Graph.SetProp(q1, "type", Str(e.ifcType));
    assert Graph.ApplyAll(p0, c) == Graph.ApplyAll(q1, c[1..]);
    assert Graph.ApplyAll(q1, c[1..]) == Graph.ApplyAll(q2, c[1..][1..]);
    assert Graph.ApplyAll(q2, c[1..][1..]) == Graph.ApplyAll(Graph.SetProp(q2, "source", Str(src)), c[1..][1..][1..]);
    assert c[1..][1..][1..] == [];
  }

  /** The always-SET part writes `z` when the placement chain gives one, and nothing otherwise. */
  lemma ZProps(p1: Graph.Props, arena: map<nat, Placement>, e: Element)
    ensures ZOf(arena, e.placement).Some? ==>
      Graph.ApplyAll(p1, ElementZ(arena, e)) == Graph.SetProp(p1, "z", Float(ZOf(arena, e.placement).value))
    ensures ZOf(arena, e.placement).None? ==> Graph.ApplyAll(p1, ElementZ(arena, e)) == p1
  {
    var a := ElementZ(arena, e);
    if ZOf(arena, e.placement).Some? {
      assert Graph.ApplyAll(p1, a) == Graph.ApplyAll(Graph.ApplyOne(p1, a[0]), a[1..]);
      assert a[1..] == [];
    }
  }

  /** Re-running an element's upsert leaves the graph as the first run left it. */
  lemma ElementIdempotent(py: Py, arena: map<nat, Placement>, src: string, e: Element, s: Graph.State)
    requires e.gid != ""
    ensures var st := ElementMerge(py, arena, src, e); Graph.Step(Graph.Step(s, st), st) == Graph.Step(s, st)
  {
    var c := ElementCreate(py, src, e);
    var m := ElementMatch(src, e);
    var a := ElementZ(arena, e);
    assert Graph.KeysOf(c) == {"name", "type", "source"} by {
      assert c[0].key == "name" && c[1].key == "type" && c[2].key == "source";
    }
    assert Graph.KeysOf(m) == {"type", "source"} by {
      assert m[0].key == "type" && m[1].key == "source";
    }
    assert Graph.KeysOf(a) <= {"z"};
    assert m[0] == c[1];
    assert c[2].Overwrite? && c[2].key == m[1].key && c[2].value != Null;
    assert Graph.WellFormedMerge(c, m, a);
    Graph.MergeNodeIdempotent(s, e.gid, ElementLabels(e.ifcType), c, m, a);
  }

  /**
   * The pset write: `psets_json` is filled only when absent, every flattened key is
   * overwritten by its value (a None value removes it), and re-running changes nothing.
   */
  lemma PsetsWrite(py: Py, nodes: map<string, Graph.Node>, gid: string, psets: seq<(string, Pset)>, json: string, k: string)
    requires gid in nodes
    requires k in FlatKeys(psets)
    ensures var st := PsetsStmt(py, gid, "", psets, json);
      var r := Graph.MatchSet(nodes, gid, "", st.items, st.merge);
      var old_ := nodes[gid].props;
      var v := PyDict.Find(Flatten(py, psets), k);
      r.Keys == nodes.Keys &&
      ("psets_json" in r[gid].props &&
       r[gid].props["psets_json"] == if "psets_json" in old_ then old_["psets_json"] else Str(json)) &&
      v.Some? && (k in r[gid].props <==> v.value != Null) &&
      (k in r[gid].props ==> r[gid].props[k] == v.value) &&
      Graph.MatchSet(r, gid, "", st.items, st.merge) == r
  {
    var flat := Flatten(py, psets);
    var items := [Graph.FillIn("psets_json", Str(json))];
    var p0 := nodes[gid].props;
    var p1 := Graph.ApplyAll(p0, items);
    assert p1 == Graph.FillProp(p0, "psets_json", Str(json)) by {
      assert p1 == Graph.ApplyAll(Graph.ApplyOne(p0, items[0]), items[1..]);
      assert items[1..] == [];
    }
    FlatKeysApart(py, psets);
    Graph.MergePropsAt(p1, flat, "psets_json");
    Graph.MergePropsKeyAbsent(flat, "psets_json");
    FlattenKeys(py, psets);
    PyDict.FindSpec(flat, k);
    UniqueLast(py, psets, k);
    Graph.MergePropsAt(p1, flat, k);
    assert Graph.KeysOf(items) == {"psets_json"} by {
      assert items[0].key == "psets_json";
    }
    Graph.MatchSetIdempotent(nodes, gid, "", items, flat);
  }

  /** The last entry for a flattened key is the one `Find` sees, since keys are unique. */
  lemma UniqueLast(py: Py, psets: seq<(string, Pset)>, k: string)
    requires k in PyDict.KeySet(Flatten(py, psets))
    ensures Graph.LastFor(Flatten(py, psets), k) == PyDict.Find(Flatten(py, psets), k)
  {
    var flat := Flatten(py, psets);
    FlattenUnique(py, psets);
    PyDict.FindSpec(flat, k);
    LastForUnique(flat, k, PyDict.Find(flat, k).value);
  }

  lemma {:induction false} LastForUnique(m: seq<(string, Value)>, k: string, v: Value)
    requires PyDict.UniqueKeys(m)
    requires (k, v) in m
    ensures Graph.LastFor(m, k) == Some(v)
    decreases |m|
  {
    var last := m[|m| - 1];
    if last.0 != k {
      var init := m[..|m| - 1];
      var i :| 0 <= i < |m| && m[i] == (k, v);
      assert init[i] == (k, v);
      LastForUnique(init, k, v);
    } else {
      var i :| 0 <= i < |m| && m[i] == (k, v);
      assert i == |m| - 1;
    }
  }

  lemma {:induction false} PutPropsUnique(py: Py, out: seq<(string, Value)>, pset: string, props: seq<(string, PropVal)>)
    requires PyDict.UniqueKeys(out)
    ensures PyDict.UniqueKeys(PutProps(py, out, pset, props))
    decreases |props|
  {
    if |props| > 0 {
      var init := props[..|props| - 1];
      PutPropsUnique(py, out, pset, init);
      PyDict.PutUnique(PutProps(py, out, pset, init), FlatKey(pset, props[|props| - 1].0), PropValue(py, props[|props| - 1].1));
    }
  }

  lemma {:induction false} FlattenUnique(py: Py, ps: seq<(string, Pset)>)
    ensures PyDict.UniqueKeys(Flatten(py, ps))
    decreases |ps|
  {
    if |ps| > 0 {
      FlattenUnique(py, ps[..|ps| - 1]);
      if ps[|ps| - 1].1.PropsOf? {
        PutPropsUnique(py, Flatten(py, ps[..|ps| - 1]), ps[|ps| - 1].0, ps[|ps| - 1].1.props);
      }
    }
  }

  /**
   * Port and element connections are symmetric: running the pair's statements adds both
   * directions when both endpoints exist, and neither otherwise.
   */
  lemma BothWaysEdges(p: Pair, rel: string, s: Graph.State)
    ensures var r := Graph.Exec(s, BothWays(p, rel));
      r.nodes == s.nodes && r.twins == s.twins && r.failure == s.failure &&
      r.edges == s.edges + (if s.failure.None? && p.relating != "" && p.related != "" && p.relating in s.nodes && p.related in s.nodes
                            then {Graph.Edge(p.relating, p.related, rel), Graph.Edge(p.related, p.relating, rel)}
                            else {})
  {
    var stmts := BothWays(p, rel);
    if |stmts| == 2 {
      assert Graph.Exec(s, stmts) == Graph.Step(Graph.Exec(s, stmts[..1]), stmts[1]);
      assert Graph.Exec(s, stmts[..1]) == Graph.Step(Graph.Exec(s, stmts[..1][..0]), stmts[0]);
      assert stmts[..1][..0] == [];
    } else {
      assert stmts == [];
    }
  }

  /** An edge statement is issued only for a pair of non-empty GlobalIds, from the related element to the port. */
  lemma HasPortDirection(p: Pair, st: Graph.Stmt)
    requires st in HasPortStmts(p)
    ensures st == Graph.MergeEdgeS(Str(p.related), Str(p.relating), "HAS_PORT", "")
    ensures p.relating != "" && p.related != ""
  {
  }

  /** Every containment or aggregation edge statement runs from the relating entity to a non-empty related id. */
  lemma {:induction false} FanOutEdges(r: OneToMany, rel: string, st: Graph.Stmt)
    ensures st in FanOut(r, rel) <==>
      (r.one != "" && exists i | 0 <= i < |r.many| :: r.many[i] != "" && st == Graph.MergeEdgeS(Str(r.one), Str(r.many[i]), rel, ""))
    decreases |r.many|
  {
    if r.one != "" && |r.many| > 0 {
      var init := r.many[..|r.many| - 1];
      FanOutEdges(OneToMany(r.one, init), rel, st);
      forall i | 0 <= i < |init| ensures init[i] == r.many[i] { }
    }
  }

  // ----- running `main` twice -----

  /** The entity passes of `main`: storeys, elements, spaces. */
  function EntityStmts(py: Py, src: string, m: IfcModel): seq<Graph.Stmt> {
    Graph.ConcatMap(m.storeys, st => StoreyStmts(py, src, st))
    + Graph.ConcatMap(m.elements, e => ElementStmts(py, m.arena, src, e))
    + Graph.ConcatMap(m.spaces, sp => SpaceStmts(py, src, sp))
  }

  /** The relationship passes of `main`, in order. */
  function RelationStmts(py: Py, src: string, m: IfcModel): seq<Graph.Stmt> {
    Graph.ConcatMap(m.containments, r => FanOut(r, "CONTAINS"))
    + Graph.ConcatMap(m.aggregations, r => FanOut(r, "AGGREGATES"))
    + Graph.ConcatMap(m.groups, g => GroupStmts(py, src, g))
    + Graph.ConcatMap(m.portsToElements, HasPortStmts)
    + Graph.ConcatMap(m.portConnections, p => BothWays(p, "PORT_CONNECTED_TO"))
    + Graph.ConcatMap(m.elementConnections, p => BothWays(p, "CONNECTED_TO"))
  }

  lemma IngestSplit(py: Py, src: string, m: IfcModel)
    ensures IngestStmts(py, src, m) == EntityStmts(py, src, m) + RelationStmts(py, src, m)
  {
    var E := EntityStmts(py, src, m);
    var c := Graph.ConcatMap(m.containments, r => FanOut(r, "CONTAINS"));
    var a := Graph.ConcatMap(m.aggregations, r => FanOut(r, "AGGREGATES"));
    var g := Graph.ConcatMap(m.groups, g => GroupStmts(py, src, g));
    var h := Graph.ConcatMap(m.portsToElements, HasPortStmts);
    var p := Graph.ConcatMap(m.portConnections, p => BothWays(p, "PORT_CONNECTED_TO"));
    var e := Graph.ConcatMap(m.elementConnections, p => BothWays(p, "CONNECTED_TO"));
    assert IngestStmts(py, src, m) == E + c + a + g + h + p + e;
    assert E + c + a == E + (c + a);
    assert E + (c + a) + g == E + (c + a + g);
    assert E + (c + a + g) + h == E + (c + a + g + h);
    assert E + (c + a + g + h) + p == E + (c + a + g + h + p);
    assert E + (c + a + g + h + p) + e == E + (c + a + g + h + p + e);
  }

  /**
   * Each GlobalId names one record: storeys, elements or spaces that share a GlobalId are
   * the same record (ifcopenshell lists an IfcDistributionElement under both IfcElement
   * and IfcDistributionElement), and no element shares its GlobalId with a space.
   */
  predicate OneRecordPerId(m: IfcModel) {
    (forall i, j | 0 <= i < |m.storeys| && 0 <= j < |m.storeys| && m.storeys[i].gid == m.storeys[j].gid ::
       m.storeys[i] == m.storeys[j]) &&
    (forall i, j | 0 <= i < |m.elements| && 0 <= j < |m.elements| && m.elements[i].gid != "" &&
                   m.elements[i].gid == m.elements[j].gid ::
       m.elements[i] == m.elements[j]) &&
    (forall i, j | 0 <= i < |m.spaces| && 0 <= j < |m.spaces| && m.spaces[i].gid != "" &&
                   m.spaces[i].gid == m.spaces[j].gid ::
       m.spaces[i] == m.spaces[j]) &&
    (forall i, j | 0 <= i < |m.elements| && 0 <= j < |m.spaces| && m.elements[i].gid != "" ::
       m.elements[i].gid != m.spaces[j].gid)
  }

  /** Every group's GlobalId names a node already in the graph, or a storey, element or space of the file. */
  predicate GroupsPlaced(s: Graph.State, m: IfcModel) {
    forall j | 0 <= j < |m.groups| && m.groups[j].gid != "" ::
      m.groups[j].gid in s.nodes ||
      (exists k | 0 <= k < |m.storeys| :: m.storeys[k].gid == m.groups[j].gid) ||
      (exists k | 0 <= k < |m.elements| :: m.elements[k].gid == m.groups[j].gid) ||
      (exists k | 0 <= k < |m.spaces| :: m.spaces[k].gid == m.groups[j].gid)
  }

  /** The containment and aggregation loops issue edges only. */
  lemma FanOutsEdge(rs: seq<OneToMany>, rel: string, x: Graph.Stmt)
    ensures x in Graph.ConcatMap(rs, r => FanOut(r, rel)) ==> x.MergeEdgeS? && x.dstLabel == ""
  {
    if x in Graph.ConcatMap(rs, r => FanOut(r, rel)) {
      Graph.ConcatMapIn(rs, r => FanOut(r, rel), x);
      var k :| 0 <= k < |rs| && x in FanOut(rs[k], rel);
      FanOutEdges(rs[k], rel, x);
    }
  }

  /** The port and connection loops issue edges only. */
  lemma PairsEdge(m: IfcModel, x: Graph.Stmt)
    ensures x in Graph.ConcatMap(m.portsToElements, HasPortStmts) ||
            x in Graph.ConcatMap(m.portConnections, p => BothWays(p, "PORT_CONNECTED_TO")) ||
            x in Graph.ConcatMap(m.elementConnections, p => BothWays(p, "CONNECTED_TO"))
            ==> x.MergeEdgeS? && x.dstLabel == ""
  {
    Graph.ConcatMapIn(m.portsToElements, HasPortStmts, x);
    Graph.ConcatMapIn(m.portConnections, p => BothWays(p, "PORT_CONNECTED_TO"), x);
    Graph.ConcatMapIn(m.elementConnections, p => BothWays(p, "CONNECTED_TO"), x);
  }

  /** The group loop issues each group's system MERGE, then edges. */
  lemma GroupsNode(py: Py, src: string, m: IfcModel, x: Graph.Stmt)
    ensures x in Graph.ConcatMap(m.groups, g => GroupStmts(py, src, g)) ==>
      if x.MergeEdgeS? then x.dstLabel == ""
      else exists j | 0 <= j < |m.groups| :: m.groups[j].gid != "" && x == GroupStmts(py, src, m.groups[j])[0]
  {
    if x in Graph.ConcatMap(m.groups, g => GroupStmts(py, src, g)) {
      Graph.ConcatMapIn(m.groups, g => GroupStmts(py, src, g), x);
      var j :| 0 <= j < |m.groups| && x in GroupStmts(py, src, m.groups[j]);
      if x in MemberEdges(m.groups[j].gid, m.groups[j].members) {
        MemberEdgesOnly(m.groups[j].gid, m.groups[j].members, x);
      }
    }
  }

  /** The relationship passes issue edges, and node statements only as a group's system MERGE. */
  lemma RelationStmt(py: Py, src: string, m: IfcModel, x: Graph.Stmt)
    requires x in RelationStmts(py, src, m)
    ensures x.MergeEdgeS? ==> x.dstLabel == ""
    ensures !x.MergeEdgeS? ==>
      exists j | 0 <= j < |m.groups| :: m.groups[j].gid != "" && x == GroupStmts(py, src, m.groups[j])[0]
  {
    FanOutsEdge(m.containments, "CONTAINS", x);
    FanOutsEdge(m.aggregations, "AGGREGATES", x);
    GroupsNode(py, src, m, x);
    PairsEdge(m, x);
  }

  /** The keys a storey, element, space or group MERGE writes on a node it matches. */
  function KindKeys(kind: nat): set<string> {
    if kind == 0 then {"elev"} else if kind == 1 then {"type", "source", "z"} else if kind == 3 then {"longName"} else {}
  }

  /** The keys a pset write writes: `psets_json` and dotted `pset.prop` names. */
  predicate PsetKeys(ks: set<string>) {
    forall k | k in ks :: k == "psets_json" || '.' in k
  }

  /** Every flattened key is dotted. */
  lemma FlatDotted(py: Py, ps: seq<(string, Pset)>)
    ensures forall k | k in Rerun.MergeKeys(Flatten(py, ps)) :: '.' in k
  {
    var flat := Flatten(py, ps);
    FlattenKeys(py, ps);
    PyDict.KeySetInSeq(flat);
    forall k | k in Rerun.MergeKeys(flat) ensures '.' in k {
      var i :| 0 <= i < |flat| && flat[i].0 == k;
      assert flat[i].0 in FlatKeys(ps);
      var a, j :| 0 <= a < |ps| && ps[a].1.PropsOf? && 0 <= j < |ps[a].1.props| &&
        k == FlatKey(ps[a].0, ps[a].1.props[j].0);
      assert k[|ps[a].0|] == '.';
    }
  }

  lemma PsetsKeys(py: Py, gid: string, need: string, ps: seq<(string, Pset)>, json: string)
    ensures PsetKeys(Rerun.WrittenKeys(PsetsStmt(py, gid, need, ps, json)))
    ensures Rerun.WellFormed(PsetsStmt(py, gid, need, ps, json))
  {
    var st := PsetsStmt(py, gid, need, ps, json);
    assert Graph.KeysOf(st.items) == {"psets_json"} by {
      assert st.items[0].key == "psets_json";
    }
    FlatDotted(py, ps);
    assert forall c | 0 <= c < |"psets_json"| :: "psets_json"[c] != '.';
  }

  /** A storey, element, space or group MERGE writes none of the keys a pset write writes. */
  lemma PlainKeys(kind: nat, k: string)
    requires k in KindKeys(kind)
    ensures k != "psets_json" && '.' !in k
  {
    assert forall c | 0 <= c < |k| :: k[c] != '.' by {
      if k == "longName" {
        assert forall c | 0 <= c < |"longName"| :: "longName"[c] != '.';
      } else if k == "source" {
        assert forall c | 0 <= c < |"source"| :: "source"[c] != '.';
      } else if k == "type" {
        assert forall c | 0 <= c < |"type"| :: "type"[c] != '.';
      } else if k == "elev" {
        assert forall c | 0 <= c < |"elev"| :: "elev"[c] != '.';
      }
    }
  }

  lemma StoreyKeys(py: Py, src: string, st: Storey)
    ensures Rerun.WrittenKeys(StoreyStmts(py, src, st)[0]) == KindKeys(0)
    ensures Rerun.WellFormed(StoreyStmts(py, src, st)[0])
  {
    var x := StoreyStmts(py, src, st)[0];
    assert Graph.KeysOf(x.always) == {"elev"} by {
      assert x.always[0].key == "elev";
    }
    assert Graph.KeysOf(x.onCreate) == {"name", "type", "source"} by {
      assert x.onCreate[0].key == "name" && x.onCreate[1].key == "type" && x.onCreate[2].key == "source";
    }
  }

  lemma SpaceKeys(py: Py, src: string, sp: Space)
    requires sp.gid != ""
    ensures Rerun.WrittenKeys(SpaceStmts(py, src, sp)[0]) == KindKeys(3)
    ensures Rerun.WellFormed(SpaceStmts(py, src, sp)[0])
  {
    var x := SpaceStmts(py, src, sp)[0];
    assert Graph.KeysOf(x.always) == {"longName"} by {
      assert x.always[0].key == "longName";
    }
    assert Graph.KeysOf(x.onCreate) == {"name", "type", "source"} by {
      assert x.onCreate[0].key == "name" && x.onCreate[1].key == "type" && x.onCreate[2].key == "source";
    }
  }

  lemma ElementKeys(py: Py, arena: map<nat, Placement>, src: string, e: Element)
    ensures Rerun.WrittenKeys(ElementMerge(py, arena, src, e)) <= KindKeys(1)
    ensures Rerun.WellFormed(ElementMerge(py, arena, src, e))
  {
    var c := ElementCreate(py, src, e);
    var m := ElementMatch(src, e);
    var a := ElementZ(arena, e);
    assert Graph.KeysOf(c) == {"name", "type", "source"} by {
      assert c[0].key == "name" && c[1].key == "type" && c[2].key == "source";
    }
    assert Graph.KeysOf(m) == {"type", "source"} by {
      assert m[0].key == "type" && m[1].key == "source";
    }
    assert Graph.KeysOf(a) <= {"z"};
    assert m[0] == c[1];
    assert c[2].Overwrite? && c[2].key == m[1].key && c[2].value != Null;
  }

  lemma GroupKeys(py: Py, src: string, g: Group)
    requires g.gid != ""
    ensures Rerun.WrittenKeys(GroupStmts(py, src, g)[0]) == KindKeys(5)
    ensures Rerun.WellFormed(GroupStmts(py, src, g)[0])
  {
    var x := GroupStmts(py, src, g)[0];
    assert Graph.KeysOf(x.onCreate) == {"name", "type", "source"} by {
      assert x.onCreate[0].key == "name" && x.onCreate[1].key == "type" && x.onCreate[2].key == "source";
    }
  }

  /**
   * Where a statement of the entity passes comes from: 0 a storey MERGE, 1 an element
   * MERGE, 2 an element's pset write, 3 a space MERGE, 4 a space's pset write.
   */
  lemma EntityStmt(py: Py, src: string, m: IfcModel, x: Graph.Stmt) returns (kind: nat, k: nat)
    requires x in EntityStmts(py, src, m)
    ensures kind <= 4
    ensures kind == 0 ==> k < |m.storeys| && x == StoreyStmts(py, src, m.storeys[k])[0]
    ensures kind == 1 ==> k < |m.elements| && m.elements[k].gid != "" && x == ElementMerge(py, m.arena, src, m.elements[k])
    ensures kind == 2 ==>
      k < |m.elements| && m.elements[k].gid != "" &&
      x == PsetsStmt(py, m.elements[k].gid, "", m.elements[k].psets, m.elements[k].psetsJson)
    ensures kind == 3 ==> k < |m.spaces| && m.spaces[k].gid != "" && x == SpaceStmts(py, src, m.spaces[k])[0]
    ensures kind == 4 ==> k < |m.spaces| && m.spaces[k].gid != "" && x == SpaceStmts(py, src, m.spaces[k])[1]
  {
    if x in Graph.ConcatMap(m.storeys, st => StoreyStmts(py, src, st)) {
      Graph.ConcatMapIn(m.storeys, st => StoreyStmts(py, src, st), x);
      k :| 0 <= k < |m.storeys| && x in StoreyStmts(py, src, m.storeys[k]);
      kind := 0;
    } else if x in Graph.ConcatMap(m.elements, e => ElementStmts(py, m.arena, src, e)) {
      Graph.ConcatMapIn(m.elements, e => ElementStmts(py, m.arena, src, e), x);
      k :| 0 <= k < |m.elements| && x in ElementStmts(py, m.arena, src, m.elements[k]);
      kind := if x == ElementMerge(py, m.arena, src, m.elements[k]) then 1 else 2;
    } else {
      Graph.ConcatMapIn(m.spaces, sp => SpaceStmts(py, src, sp), x);
      k :| 0 <= k < |m.spaces| && x in SpaceStmts(py, src, m.spaces[k]);
      kind := if x == SpaceStmts(py, src, m.spaces[k])[0] then 3 else 4;
    }
  }

  /**
   * Where a node statement of `main` comes from (kinds 0 to 4 as in `EntityStmt`, 5 a
   * group's system MERGE), which keys it writes, and that it is well formed.
   */
  lemma NodeOrigin(py: Py, src: string, m: IfcModel, x: Graph.Stmt) returns (kind: nat, k: nat)
    requires x in IngestStmts(py, src, m) && !x.MergeEdgeS?
    ensures kind <= 5 && Rerun.WellFormed(x)
    ensures kind == 0 ==> k < |m.storeys| && x == StoreyStmts(py, src, m.storeys[k])[0]
    ensures kind == 1 ==> k < |m.elements| && m.elements[k].gid != "" && x == ElementMerge(py, m.arena, src, m.elements[k])
    ensures kind == 2 ==>
      k < |m.elements| && m.elements[k].gid != "" &&
      x == PsetsStmt(py, m.elements[k].gid, "", m.elements[k].psets, m.elements[k].psetsJson)
    ensures kind == 3 ==> k < |m.spaces| && m.spaces[k].gid != "" && x == SpaceStmts(py, src, m.spaces[k])[0]
    ensures kind == 4 ==> k < |m.spaces| && m.spaces[k].gid != "" && x == SpaceStmts(py, src, m.spaces[k])[1]
    ensures kind == 5 ==> k < |m.groups| && m.groups[k].gid != "" && x == GroupStmts(py, src, m.groups[k])[0]
    ensures kind == 2 || kind == 4 ==> PsetKeys(Rerun.WrittenKeys(x))
    ensures kind != 2 && kind != 4 ==> Rerun.WrittenKeys(x) <= KindKeys(kind)
  {
    IngestSplit(py, src, m);
    if x in EntityStmts(py, src, m) {
      kind, k := EntityStmt(py, src, m, x);
      if kind == 0 {
        StoreyKeys(py, src, m.storeys[k]);
      } else if kind == 1 {
        ElementKeys(py, m.arena, src, m.elements[k]);
      } else if kind == 2 {
        PsetsKeys(py, m.elements[k].gid, "", m.elements[k].psets, m.elements[k].psetsJson);
      } else if kind == 3 {
        SpaceKeys(py, src, m.spaces[k]);
      } else {
        PsetsKeys(py, m.spaces[k].gid, "IfcSpace", m.spaces[k].psets, m.spaces[k].psetsJson);
      }
    } else {
      RelationStmt(py, src, m, x);
      k :| 0 <= k < |m.groups| && m.groups[k].gid != "" && x == GroupStmts(py, src, m.groups[k])[0];
      kind := 5;
      GroupKeys(py, src, m.groups[k]);
    }
  }

  /** Every statement of `main` is well formed: edges carry no label on their endpoint. */
  lemma IngestWellFormed(py: Py, src: string, m: IfcModel, x: Graph.Stmt)
    requires x in IngestStmts(py, src, m)
    ensures Rerun.WellFormed(x)
  {
    if x.MergeEdgeS? {
      IngestSplit(py, src, m);
      if x in RelationStmts(py, src, m) {
        RelationStmt(py, src, m, x);
      } else {
        var kind, k := EntityStmt(py, src, m, x);
      }
    } else {
      var kind, k := NodeOrigin(py, src, m, x);
    }
  }

  /**
   * Two node statements of `main` on the same GlobalId are the same statement or write
   * apart properties: the storey, element, space and group MERGEs write different keys, and
   * a pset write writes only `psets_json` and dotted keys.
   */
  lemma NodePairApart(py: Py, src: string, m: IfcModel, x: Graph.Stmt, y: Graph.Stmt)
    requires OneRecordPerId(m)
    requires x in IngestStmts(py, src, m) && y in IngestStmts(py, src, m)
    requires Rerun.OnNode(x) && Rerun.OnNode(y) && x.id == y.id
    ensures x == y || Rerun.WrittenKeys(x) !! Rerun.WrittenKeys(y)
  {
    var a, i := NodeOrigin(py, src, m, x);
    var b, j := NodeOrigin(py, src, m, y);
    if a == b && a != 5 {
    } else if a == 5 || b == 5 {
    } else if (a == 2 || a == 4) && (b == 2 || b == 4) {
      assert false;
    } else if a == 2 || a == 4 {
      forall k | k in Rerun.WrittenKeys(y) ensures k !in Rerun.WrittenKeys(x) {
        PlainKeys(b, k);
      }
    } else if b == 2 || b == 4 {
      forall k | k in Rerun.WrittenKeys(x) ensures k !in Rerun.WrittenKeys(y) {
        PlainKeys(a, k);
      }
    }
  }

  /** Each pset write of `main` comes right after the MERGE of its node. */
  lemma EntityPaired(py: Py, src: string, m: IfcModel)
    ensures Rerun.Paired(EntityStmts(py, src, m))
  {
    var S := Graph.ConcatMap(m.storeys, st => StoreyStmts(py, src, st));
    var E := Graph.ConcatMap(m.elements, e => ElementStmts(py, m.arena, src, e));
    var Sp := Graph.ConcatMap(m.spaces, sp => SpaceStmts(py, src, sp));
    Rerun.PairedConcatMap(m.storeys, st => StoreyStmts(py, src, st));
    Rerun.PairedConcatMap(m.elements, e => ElementStmts(py, m.arena, src, e));
    Rerun.PairedConcatMap(m.spaces, sp => SpaceStmts(py, src, sp));
    Rerun.PairedAppend(S, E);
    Rerun.PairedAppend(S + E, Sp);
  }

  /** A batch of edges only is paired: it has no MATCH ... SET. */
  lemma EdgesPaired(stmts: seq<Graph.Stmt>)
    requires forall i | 0 <= i < |stmts| :: stmts[i].MergeEdgeS?
    ensures Rerun.Paired(stmts)
  {
  }

  lemma FanOutsPaired(rs: seq<OneToMany>, rel: string)
    ensures Rerun.Paired(Graph.ConcatMap(rs, r => FanOut(r, rel)))
  {
    var F := Graph.ConcatMap(rs, r => FanOut(r, rel));
    forall i | 0 <= i < |F| ensures F[i].MergeEdgeS? {
      FanOutsEdge(rs, rel, F[i]);
    }
    EdgesPaired(F);
  }

  lemma RelationPaired(py: Py, src: string, m: IfcModel)
    ensures Rerun.Paired(RelationStmts(py, src, m))
  {
    var C := Graph.ConcatMap(m.containments, r => FanOut(r, "CONTAINS"));
    var A := Graph.ConcatMap(m.aggregations, r => FanOut(r, "AGGREGATES"));
    var G := Graph.ConcatMap(m.groups, g => GroupStmts(py, src, g));
    var P := Graph.ConcatMap(m.portsToElements, HasPortStmts)
      + Graph.ConcatMap(m.portConnections, p => BothWays(p, "PORT_CONNECTED_TO"))
      + Graph.ConcatMap(m.elementConnections, p => BothWays(p, "CONNECTED_TO"));
    FanOutsPaired(m.containments, "CONTAINS");
    FanOutsPaired(m.aggregations, "AGGREGATES");
    forall i | 0 <= i < |G| ensures !G[i].MatchSetS? {
      GroupsNode(py, src, m, G[i]);
    }
    forall i | 0 <= i < |P| ensures P[i].MergeEdgeS? {
      PairsEdge(m, P[i]);
    }
    EdgesPaired(P);
    Rerun.PairedAppend(C, A);
    Rerun.PairedAppend(C + A, G);
    Rerun.PairedAppend(C + A + G, P);
    assert RelationStmts(py, src, m) == C + A + G + P;
  }

  /** No entity pass issues an edge. */
  lemma EntityNoEdge(py: Py, src: string, m: IfcModel)
    ensures forall k | 0 <= k < |EntityStmts(py, src, m)| :: !EntityStmts(py, src, m)[k].MergeEdgeS?
  {
    var E := EntityStmts(py, src, m);
    forall k | 0 <= k < |E| ensures !E[k].MergeEdgeS? {
      var kind, i := EntityStmt(py, src, m, E[k]);
    }
  }

  /** A storey, element or space GlobalId is merged by the entity passes. */
  lemma EntityMerge(py: Py, src: string, m: IfcModel, g: string)
    requires (exists k | 0 <= k < |m.storeys| :: m.storeys[k].gid == g) ||
             (g != "" && exists k | 0 <= k < |m.elements| :: m.elements[k].gid == g) ||
             (g != "" && exists k | 0 <= k < |m.spaces| :: m.spaces[k].gid == g)
    ensures exists k | 0 <= k < |EntityStmts(py, src, m)| ::
      EntityStmts(py, src, m)[k].MergeNodeS? && EntityStmts(py, src, m)[k].id == g
  {
    var E := EntityStmts(py, src, m);
    var y: Graph.Stmt;
    if exists k | 0 <= k < |m.storeys| :: m.storeys[k].gid == g {
      var k :| 0 <= k < |m.storeys| && m.storeys[k].gid == g;
      y := StoreyStmts(py, src, m.storeys[k])[0];
      Graph.ConcatMapIn(m.storeys, st => StoreyStmts(py, src, st), y);
    } else if g != "" && exists k | 0 <= k < |m.elements| :: m.elements[k].gid == g {
      var k :| 0 <= k < |m.elements| && m.elements[k].gid == g;
      y := ElementMerge(py, m.arena, src, m.elements[k]);
      assert y in ElementStmts(py, m.arena, src, m.elements[k]);
      Graph.ConcatMapIn(m.elements, e => ElementStmts(py, m.arena, src, e), y);
    } else {
      var k :| 0 <= k < |m.spaces| && m.spaces[k].gid == g;
      y := SpaceStmts(py, src, m.spaces[k])[0];
      Graph.ConcatMapIn(m.spaces, sp => SpaceStmts(py, src, sp), y);
    }
    assert y in E;
    var k :| 0 <= k < |E| && E[k] == y;
  }

  /**
   * An edge in a batch of node statements followed by a batch whose MERGEs name only nodes
   * already there or merged by the first batch is anchored.
   */
  lemma AnchoredAfter(s: Graph.State, E: seq<Graph.Stmt>, R: seq<Graph.Stmt>, i: nat, x: string)
    requires forall k | 0 <= k < |E| :: !E[k].MergeEdgeS?
    requires i < |E + R| && (E + R)[i].MergeEdgeS?
    requires forall k | 0 <= k < |R| && R[k].MergeNodeS? && R[k].id == x ::
      x in s.nodes || exists k2 | 0 <= k2 < |E| :: E[k2].MergeNodeS? && E[k2].id == x
    ensures Rerun.Anchored(s, E + R, i, x)
  {
    var S := E + R;
    assert i >= |E|;
    if exists k | i < k < |S| && 0 <= k :: S[k].MergeNodeS? && S[k].id == x {
      var k :| i < k < |S| && 0 <= k && S[k].MergeNodeS? && S[k].id == x;
      assert S[k] == R[k - |E|];
      if x !in s.nodes {
        var k2 :| 0 <= k2 < |E| && E[k2].MergeNodeS? && E[k2].id == x;
        assert S[k2] == E[k2];
      }
    }
  }

  /**
   * Every edge of `main` comes after the entity passes, and the only MERGEs after it are
   * group MERGEs; with the groups placed, a node an edge names is never made after it.
   */
  lemma EdgeAnchored(py: Py, src: string, m: IfcModel, s: Graph.State, i: nat, x: string)
    requires GroupsPlaced(s, m)
    requires i < |IngestStmts(py, src, m)| && IngestStmts(py, src, m)[i].MergeEdgeS?
    ensures Rerun.Anchored(s, IngestStmts(py, src, m), i, x)
  {
    var E := EntityStmts(py, src, m);
    var R := RelationStmts(py, src, m);
    IngestSplit(py, src, m);
    EntityNoEdge(py, src, m);
    forall k | 0 <= k < |R| && R[k].MergeNodeS? && R[k].id == x
      ensures x in s.nodes || exists k2 | 0 <= k2 < |E| :: E[k2].MergeNodeS? && E[k2].id == x
    {
      RelationStmt(py, src, m, R[k]);
      var j :| 0 <= j < |m.groups| && m.groups[j].gid != "" && R[k] == GroupStmts(py, src, m.groups[j])[0];
      if x !in s.nodes {
        EntityMerge(py, src, m, x);
      }
    }
    AnchoredAfter(s, E, R, i, x);
  }

  /** `main`'s statements have the shape under which a second run changes nothing. */
  lemma IngestRerunnable(py: Py, src: string, m: IfcModel, s: Graph.State)
    requires OneRecordPerId(m) && GroupsPlaced(s, m)
    ensures Rerun.Rerunnable(s, IngestStmts(py, src, m))
  {
    var S := IngestStmts(py, src, m);
    forall i | 0 <= i < |S| ensures Rerun.WellFormed(S[i]) {
      IngestWellFormed(py, src, m, S[i]);
    }
    forall i, j | 0 <= i < |S| && 0 <= j < |S| && Rerun.OnNode(S[i]) && Rerun.OnNode(S[j]) && S[i].id == S[j].id
      ensures S[i] == S[j] || Rerun.WrittenKeys(S[i]) !! Rerun.WrittenKeys(S[j])
    {
      NodePairApart(py, src, m, S[i], S[j]);
    }
    IngestSplit(py, src, m);
    EntityPaired(py, src, m);
    RelationPaired(py, src, m);
    Rerun.PairedAppend(EntityStmts(py, src, m), RelationStmts(py, src, m));
    forall i | 0 <= i < |S| && S[i].MergeEdgeS? && S[i].src.Str? && S[i].dst.Str?
      ensures Rerun.Anchored(s, S, i, S[i].src.s) && Rerun.Anchored(s, S, i, S[i].dst.s)
    {
      EdgeAnchored(py, src, m, s, i, S[i].src.s);
      EdgeAnchored(py, src, m, s, i, S[i].dst.s);
    }
  }

  /**
   * Running `main` a second time on the graph the first run left changes nothing, when
   * each GlobalId names one record, every group is a node the run places, and the MERGEs
   * agree on labels, so that the run makes no second node (whose properties a second run's
   * `MATCH (n {globalId})` would also write in Neo4j).
   */
  lemma IngestTwice(py: Py, src: string, m: IfcModel, s: Graph.State)
    requires OneRecordPerId(m) && GroupsPlaced(s, m)
    requires Graph.LabelsAgree(s, IngestStmts(py, src, m))
    ensures Graph.Exec(s, IngestStmts(py, src, m)).twins == s.twins
    ensures var once := Graph.Exec(s, IngestStmts(py, src, m));
      Graph.Exec(once, IngestStmts(py, src, m)) == once
  {
    Graph.NoSecondNode(s, IngestStmts(py, src, m));
    IngestRerunnable(py, src, m, s);
    Rerun.ExecTwice(s, IngestStmts(py, src, m));
  }
}
