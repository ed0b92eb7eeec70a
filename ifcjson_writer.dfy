/**
 * The IFC to ifcJSON serialiser (scripts/ifc_to_ifcjson_min.py). The IFC file is given as
 * values: the entities in file order, and the `by_type` query for each relation type.
 * The output is the `{"instances": {...}}` document the loaders read back.
 */
module IfcJsonWriter {
  import opened Wrappers
  import opened PyValue
  import Text
  import PyDict
  import Graph
  import Elevations
  import JsonIngest
  import JsonEdges

  /**
   * An attribute value as ifcopenshell hands it over: a plain Python value, or an entity
   * instance, which may carry `wrappedValue` and `value` attributes and has a `str()`.
   */
  datatype Attr =
    | Plain(v: Value)
    | Instance(wrapped: Option<Value>, inner: Option<Value>, text: string)

  /** `bool(x)`: an entity instance is always truthy. */
  predicate AttrTruthy(a: Attr) {
    a.Instance? || Truthy(a.v)
  }

  /** `str(x)`. */
  function StrOf(py: Py, a: Attr): string {
    match a
    case Plain(v) => Show(py, v)
    case Instance(_, _, text) => text
  }

  /** `sv`: the `wrappedValue`, else the `value`, else the value itself. */
  function Sv(a: Attr): (r: Attr)
    ensures a.Instance? && a.wrapped.Some? ==> r == Plain(a.wrapped.value)
    ensures r.Plain? || (r == a && a.wrapped.None? && a.inner.None?)
  {
    match a
    case Plain(_) => a
    case Instance(w, i, _) =>
      if w.Some? then Plain(w.value) else if i.Some? then Plain(i.value) else a
  }

  /** Unwrapping twice is unwrapping once: what `sv` returns has nothing left to unwrap. */
  lemma SvIdempotent(a: Attr)
    ensures Sv(Sv(a)) == Sv(a)
    ensures a.Plain? ==> Sv(a) == a
  {
  }

  /** An IFC entity: its class, its GlobalId ("" when it has none), its attributes, and `IsDefinedBy`. */
  datatype Ent = Ent(ifcType: string, globalId: string, attrs: seq<(string, Attr)>, definedBy: seq<RelDef>)

  /** An `IsDefinedBy` entry: None or another relation, or an `IfcRelDefinesByProperties`. */
  datatype RelDef = NotDefining | DefinesByProperties(pdef: PropDef)

  /** A `RelatingPropertyDefinition`: an `IfcPropertySet` or anything else. */
  datatype PropDef = NotPropertySet | PropertySet(name: Attr, props: seq<Prop>)

  /** A property: an `IfcPropertySingleValue` with its Name and NominalValue, or another kind. */
  datatype Prop = OtherProp | SingleValue(name: Attr, nominal: Attr)

  predicate HasAttr(e: Ent, name: string) {
    PyDict.Find(e.attrs, name).Some?
  }

  /** `getattr(e, name, None)`. */
  function GetAttr(e: Ent, name: string): Attr {
    match PyDict.Find(e.attrs, name)
    case Some(a) => a
    case None => Plain(Null)
  }

  // ----- get_name -----

  /** The stripped string an attribute yields for `get_name`, if it yields one. */
  function NameCandidate(e: Ent, attr: string): (r: Option<string>)
    ensures r.Some? ==> r.value != "" && !Text.IsSpace(r.value[0]) && !Text.IsSpace(r.value[|r.value| - 1])
  {
    if !HasAttr(e, attr) || !AttrTruthy(GetAttr(e, attr)) then None
    else
      var val := Sv(GetAttr(e, attr));
      if val.Plain? && val.v.Str? then
        var s := Text.Strip(val.v.s);
        if s != "" then Some(s) else None
      else None
  }

  /** The first of two candidates that is present, else "". */
  function FirstName(name: Option<string>, longName: Option<string>): (r: string)
    requires name.Some? ==> name.value != ""
    requires longName.Some? ==> longName.value != ""
    ensures r == "" <==> name.None? && longName.None?
    ensures name.Some? ==> r == name.value
    ensures name.None? && longName.Some? ==> r == longName.value
  {
    if name.Some? then name.value else if longName.Some? then longName.value else ""
  }

  /** `get_name`: the stripped Name, else the stripped LongName, else "". */
  function GetName(e: Ent): (r: string)
    ensures r != "" ==> !Text.IsSpace(r[0]) && !Text.IsSpace(r[|r| - 1])
    ensures r == "" <==> NameCandidate(e, "Name").None? && NameCandidate(e, "LongName").None?
    ensures NameCandidate(e, "Name").Some? ==> r == NameCandidate(e, "Name").value
  {
    FirstName(NameCandidate(e, "Name"), NameCandidate(e, "LongName"))
  }

  // ----- extract_psets -----

  /** The value kept for a property: a scalar or None as is, anything else as its `str()`. */
  function KeepScalar(py: Py, a: Attr): (r: Value)
    ensures IsScalar(r)
    ensures a.Plain? && IsScalar(a.v) ==> r == a.v
    ensures !(a.Plain? && IsScalar(a.v)) ==> r == Str(StrOf(py, a))
  {
    if a.Plain? && IsScalar(a.v) then a.v else Str(StrOf(py, a))
  }

  function PsetName(py: Py, name: Attr): string {
    if AttrTruthy(name) then StrOf(py, Sv(name)) else "Pset"
  }

  /** The assignment `out[key] = val` one single-value property makes. */
  function PropWrite(py: Py, pset: string, p: Prop): (string, Value)
    requires p.SingleValue?
  {
    var key := if AttrTruthy(p.name) then pset + "." + StrOf(py, Sv(p.name)) else pset;
    var val := if AttrTruthy(p.nominal) then KeepScalar(py, Sv(p.nominal)) else Null;
    (key, val)
  }

  function PropWrites(py: Py, pset: string, props: seq<Prop>): seq<(string, Value)>
    decreases |props|
  {
    if |props| == 0 then []
    else
      var p := props[|props| - 1];
      PropWrites(py, pset, props[..|props| - 1]) + (if p.SingleValue? then [PropWrite(py, pset, p)] else [])
  }

  /** The assignments one `IsDefinedBy` entry makes: only a property set reached through properties counts. */
  function DefWrites(py: Py, r: RelDef): seq<(string, Value)> {
    if r.DefinesByProperties? && r.pdef.PropertySet? then PropWrites(py, PsetName(py, r.pdef.name), r.pdef.props)
    else []
  }

  function PsetWrites(py: Py, rels: seq<RelDef>): seq<(string, Value)>
    decreases |rels|
  {
    if |rels| == 0 then [] else PsetWrites(py, rels[..|rels| - 1]) + DefWrites(py, rels[|rels| - 1])
  }

  /** `extract_psets(ent)`, as a value. */
  function Psets(py: Py, e: Ent): PyDict.Dict<string, Value> {
    PyDict.PutAll([], PsetWrites(py, e.definedBy))
  }

  /** One more relation appends its own writes. */
  lemma PsetWritesStep(py: Py, rels: seq<RelDef>, i: int)
    requires 0 <= i < |rels|
    ensures PsetWrites(py, rels[..i + 1]) == PsetWrites(py, rels[..i]) + DefWrites(py, rels[i])
  {
    assert rels[..i + 1][..i] == rels[..i];
  }

  /** `extract_psets`: fills `out` in the order of `IsDefinedBy` and `HasProperties`. */
  method ExtractPsets(py: Py, e: Ent) returns (out: PyDict.Dict<string, Value>)
    ensures out == Psets(py, e)
  {
    out := [];
    var rels := e.definedBy;
    var i := 0;
    while i < |rels|
      invariant 0 <= i <= |rels|
      invariant out == PyDict.PutAll([], PsetWrites(py, rels[..i]))
    {
      PsetWritesStep(py, rels, i);
      var r := rels[i];
      ghost var done := PsetWrites(py, rels[..i]);
      if r.DefinesByProperties? && r.pdef.PropertySet? {
        out := AddProps(py, PsetName(py, r.pdef.name), r.pdef.props, out);
        PyDict.PutAllAppend([], done, DefWrites(py, r));
      } else {
        assert done + DefWrites(py, r) == done;
      }
      i := i + 1;
    }
    assert rels[..i] == rels;
  }

  /** The inner loop of `extract_psets`, over one property set's `HasProperties`. */
  method AddProps(py: Py, pset: string, props: seq<Prop>, out0: PyDict.Dict<string, Value>)
    returns (out: PyDict.Dict<string, Value>)
    ensures out == PyDict.PutAll(out0, PropWrites(py, pset, props))
  {
    out := out0;
    var j := 0;
    while j < |props|
      invariant 0 <= j <= |props|
      invariant out == PyDict.PutAll(out0, PropWrites(py, pset, props[..j]))
    {
      assert props[..j + 1][..j] == props[..j];
      if props[j].SingleValue? {
        var kv := PropWrite(py, pset, props[j]);
        assert PropWrites(py, pset, props[..j + 1]) == PropWrites(py, pset, props[..j]) + [kv];
        PyDict.PutAllSnoc(out0, PropWrites(py, pset, props[..j]), kv.0, kv.1);
        out := PyDict.Put(out, kv.0, kv.1);
      } else {
        assert PropWrites(py, pset, props[..j + 1]) == PropWrites(py, pset, props[..j]) + [];
        assert PropWrites(py, pset, props[..j]) + [] == PropWrites(py, pset, props[..j]);
      }
      j := j + 1;
    }
    assert props[..j] == props;
  }

  lemma {:induction false} PropWritesScalar(py: Py, pset: string, props: seq<Prop>)
    ensures forall w | w in PropWrites(py, pset, props) :: IsScalar(w.1)
    decreases |props|
  {
    if |props| > 0 {
      PropWritesScalar(py, pset, props[..|props| - 1]);
    }
  }

  lemma {:induction false} PsetWritesScalar(py: Py, rels: seq<RelDef>)
    ensures forall w | w in PsetWrites(py, rels) :: IsScalar(w.1)
    decreases |rels|
  {
    if |rels| > 0 {
      PsetWritesScalar(py, rels[..|rels| - 1]);
      var r := rels[|rels| - 1];
      if r.DefinesByProperties? && r.pdef.PropertySet? {
        PropWritesScalar(py, PsetName(py, r.pdef.name), r.pdef.props);
      }
    }
  }

  /** Every value `extract_psets` returns is a str, int, float, bool or None. */
  lemma PsetsScalar(py: Py, e: Ent, k: string)
    ensures PyDict.Find(Psets(py, e), k).Some? ==> IsScalar(PyDict.Find(Psets(py, e), k).value)
  {
    PyDict.PutAllFind([], PsetWrites(py, e.definedBy), k);
    PyDict.LastOfSpec(PsetWrites(py, e.definedBy), k);
    PsetWritesScalar(py, e.definedBy);
  }

  lemma {:induction false} PropWritesFrom(py: Py, pset: string, props: seq<Prop>, w: (string, Value))
    ensures w in PropWrites(py, pset, props) <==>
      exists j | 0 <= j < |props| :: props[j].SingleValue? && w == PropWrite(py, pset, props[j])
    decreases |props|
  {
    if |props| > 0 {
      var init := props[..|props| - 1];
      PropWritesFrom(py, pset, init, w);
      assert forall j | 0 <= j < |init| :: init[j] == props[j];
    }
  }

  /** A property a pset write comes from: a single value in a property set reached through properties. */
  predicate SingleValueAt(rels: seq<RelDef>, i: int, j: int) {
    0 <= i < |rels| && rels[i].DefinesByProperties? && rels[i].pdef.PropertySet? &&
    0 <= j < |rels[i].pdef.props| && rels[i].pdef.props[j].SingleValue?
  }

  function WriteAt(py: Py, rels: seq<RelDef>, i: int, j: int): (string, Value)
    requires SingleValueAt(rels, i, j)
  {
    PropWrite(py, PsetName(py, rels[i].pdef.name), rels[i].pdef.props[j])
  }

  /** Every assignment `extract_psets` makes comes from a single-value property of a property set. */
  lemma {:induction false} PsetWritesSound(py: Py, rels: seq<RelDef>, w: (string, Value))
    requires w in PsetWrites(py, rels)
    ensures exists i, j | SingleValueAt(rels, i, j) :: w == WriteAt(py, rels, i, j)
    decreases |rels|
  {
    var n := |rels| - 1;
    var init := rels[..n];
    var r := rels[n];
    assert PsetWrites(py, rels) == PsetWrites(py, init) + DefWrites(py, r);
    if w in PsetWrites(py, init) {
      PsetWritesSound(py, init, w);
      var i, j :| SingleValueAt(init, i, j) && w == WriteAt(py, init, i, j);
      assert init[i] == rels[i];
      assert SingleValueAt(rels, i, j) && w == WriteAt(py, rels, i, j);
    } else {
      assert r.DefinesByProperties? && r.pdef.PropertySet?;
      PropWritesFrom(py, PsetName(py, r.pdef.name), r.pdef.props, w);
      var j :| 0 <= j < |r.pdef.props| && r.pdef.props[j].SingleValue? && w == PropWrite(py, PsetName(py, r.pdef.name), r.pdef.props[j]);
      assert SingleValueAt(rels, n, j) && w == WriteAt(py, rels, n, j);
    }
  }

  /** Every single-value property of a property set reached through properties makes its assignment. */
  lemma {:induction false} PsetWritesComplete(py: Py, rels: seq<RelDef>, i: int, j: int)
    requires SingleValueAt(rels, i, j)
    ensures WriteAt(py, rels, i, j) in PsetWrites(py, rels)
    decreases |rels|
  {
    var n := |rels| - 1;
    var init := rels[..n];
    var r := rels[n];
    assert PsetWrites(py, rels) == PsetWrites(py, init) + DefWrites(py, r);
    if i < n {
      assert init[i] == rels[i];
      assert SingleValueAt(init, i, j) && WriteAt(py, rels, i, j) == WriteAt(py, init, i, j);
      PsetWritesComplete(py, init, i, j);
    } else {
      PropWritesFrom(py, PsetName(py, r.pdef.name), r.pdef.props, WriteAt(py, rels, i, j));
    }
  }

  /**
   * `extract_psets` keeps exactly the single-value properties of property sets reached
   * through `IfcRelDefinesByProperties`: every assignment it makes comes from one, and
   * each one makes its assignment.
   */
  lemma PsetWritesFrom(py: Py, rels: seq<RelDef>, w: (string, Value))
    ensures w in PsetWrites(py, rels) <==>
      exists i, j | SingleValueAt(rels, i, j) :: w == WriteAt(py, rels, i, j)
  {
    if w in PsetWrites(py, rels) {
      PsetWritesSound(py, rels, w);
    }
    if exists i, j | SingleValueAt(rels, i, j) :: w == WriteAt(py, rels, i, j) {
      var i, j :| SingleValueAt(rels, i, j) && w == WriteAt(py, rels, i, j);
      PsetWritesComplete(py, rels, i, j);
    }
  }

  // ----- entries -----

  /** A referenced entity: none, or one with a GlobalId ("" when it has none). */
  datatype Target = NoObj | Obj(globalId: string)

  /** `ref(obj)`: `{"ref": GlobalId}`, or `{}` without an object or a GlobalId. */
  function Ref(t: Target): Value {
    if t.Obj? && t.globalId != "" then Dict([("ref", Str(t.globalId))]) else Dict([])
  }

  /** `ref_id` of the loaders recovers the GlobalId that `ref` wrote, and None from `{}`. */
  lemma RefRoundTrip(t: Target)
    ensures JsonIngest.RefId(Ref(t)) == if t.Obj? && t.globalId != "" then Str(t.globalId) else Null
  {
    var f := Ref(t).fields;
    PyValue.GetSpec(f, "ref");
    if t.Obj? && t.globalId != "" {
      assert PyDict.Find(f, "ref") == Some(Str(t.globalId));
    } else {
      assert f == [];
    }
  }

  function Refs(ts: seq<Target>): (r: seq<Value>)
    ensures |r| == |ts| && forall i | 0 <= i < |ts| :: r[i] == Ref(ts[i])
  {
    seq(|ts|, i requires 0 <= i < |ts| => Ref(ts[i]))
  }

  /** What `instances[gid]` holds: an entity entry, or a relation entry built by `put_rel`. */
  datatype Entry =
    | EntityEntry(ifcType: string, name: string, attributes: seq<(string, Attr)>, psets: seq<(string, Value)>)
    | RelEntry(fields: seq<(string, Value)>)

  const PortTypes: seq<string> := ["IfcDistributionPort", "IfcPort"]
  const MinimalAttrs: seq<string> := ["ObjectType", "Description"]

  /** A port's FlowDirection or PredefinedType, as its `str()`, when truthy. */
  function PutStrAttr(py: Py, e: Ent, name: string, a: seq<(string, Attr)>): seq<(string, Attr)> {
    if AttrTruthy(GetAttr(e, name)) then PyDict.Put(a, name, Plain(Str(StrOf(py, GetAttr(e, name))))) else a
  }

  /** ObjectType or Description, through `sv`, when present and truthy. */
  function PutSvAttr(e: Ent, name: string, a: seq<(string, Attr)>): seq<(string, Attr)> {
    if HasAttr(e, name) && AttrTruthy(GetAttr(e, name)) then PyDict.Put(a, name, Sv(GetAttr(e, name))) else a
  }

  /** The `attributes` of a pass-1 entry. */
  function EntityAttributes(py: Py, e: Ent): seq<(string, Attr)> {
    var a := if e.ifcType in PortTypes then PutStrAttr(py, e, "PredefinedType", PutStrAttr(py, e, "FlowDirection", []))
             else [];
    PutSvAttr(e, "Description", PutSvAttr(e, "ObjectType", a))
  }

  /** Only ports get FlowDirection and PredefinedType; every entity gets at most these four attributes. */
  lemma AttributeKeys(py: Py, e: Ent)
    ensures PyDict.KeySet(EntityAttributes(py, e)) <= {"FlowDirection", "PredefinedType", "ObjectType", "Description"}
    ensures e.ifcType !in PortTypes ==> PyDict.KeySet(EntityAttributes(py, e)) <= {"ObjectType", "Description"}
    ensures HasAttr(e, "ObjectType") && AttrTruthy(GetAttr(e, "ObjectType")) ==>
      PyDict.Find(EntityAttributes(py, e), "ObjectType") == Some(Sv(GetAttr(e, "ObjectType")))
  {
  }

  /** The pass-1 entry of an entity. */
  function EntryOf(py: Py, e: Ent): Entry {
    EntityEntry(e.ifcType, GetName(e), EntityAttributes(py, e), Psets(py, e))
  }

  /** Pass 1: one assignment per entity with a GlobalId, in file order. */
  function EntityWrites(py: Py, ents: seq<Ent>): seq<(string, Entry)> {
    PyDict.Assignments(ents, (e: Ent) => e.globalId != "", (e: Ent) => (e.globalId, EntryOf(py, e)))
  }

  /** A relation type `put_rel` handles, with the keys its `make` writes. */
  datatype RelKind = RelKind(name: string, relatingKey: string, relatedKey: string, many: bool)

  const RelKinds: seq<RelKind> := [
    RelKind("IfcRelContainedInSpatialStructure", "RelatingStructure", "RelatedElements", true),
    RelKind("IfcRelAggregates", "RelatingObject", "RelatedObjects", true),
    RelKind("IfcRelServicesBuildings", "RelatingSystem", "RelatedBuildings", true),
    RelKind("IfcRelAssignsToGroup", "RelatingGroup", "RelatedObjects", true),
    RelKind("IfcRelConnectsPortToElement", "RelatingPort", "RelatedElement", false),
    RelKind("IfcRelConnectsPorts", "RelatingPort", "RelatedPort", false),
    RelKind("IfcRelConnectsElements", "RelatingElement", "RelatedElement", false)
  ]

  /**
   * A relation entity: its GlobalId, its relating object, and its related objects (a
   * list, with None as empty, for the set-valued kinds; one object for the others).
   */
  datatype RelEnt = RelEnt(globalId: string, relating: Target, related: seq<Target>, relatedOne: Target)

  /** `{"type": rel_type, **make(r)}`. */
  function RelFields(k: RelKind, r: RelEnt): seq<(string, Value)> {
    [("type", Str(k.name)),
     (k.relatingKey, Ref(r.relating)),
     (k.relatedKey, if k.many then List(Refs(r.related)) else Ref(r.relatedOne))]
  }

  /** `put_rel` for one type: one assignment per relation with a GlobalId. */
  function KindWrites(k: RelKind, rels: seq<RelEnt>): seq<(string, Entry)>
    decreases |rels|
  {
    if |rels| == 0 then []
    else
      var r := rels[|rels| - 1];
      KindWrites(k, rels[..|rels| - 1]) + (if r.globalId != "" then [(r.globalId, RelEntry(RelFields(k, r)))] else [])
  }

  /** Pass 2, over the relation types in order; `byType` is the file's `by_type` query. */
  function RelWrites(byType: string -> seq<RelEnt>, kinds: seq<RelKind>): seq<(string, Entry)>
    decreases |kinds|
  {
    if |kinds| == 0 then []
    else
      var k := kinds[|kinds| - 1];
      RelWrites(byType, kinds[..|kinds| - 1]) + KindWrites(k, byType(k.name))
  }

  /** The `instances` dict after both passes. */
  function Instances(py: Py, ents: seq<Ent>, byType: string -> seq<RelEnt>): PyDict.Dict<string, Entry> {
    PyDict.PutAll(PyDict.PutAll([], EntityWrites(py, ents)), RelWrites(byType, RelKinds))
  }

  // ----- json.dumps -----

  predicate AllPlain(attrs: seq<(string, Attr)>) {
    forall i | 0 <= i < |attrs| :: attrs[i].1.Plain?
  }

  function PlainFields(attrs: seq<(string, Attr)>): seq<(string, Value)>
    requires AllPlain(attrs)
  {
    seq(|attrs|, i requires 0 <= i < |attrs| => (attrs[i].0, attrs[i].1.v))
  }

  /** The JSON of an entry; an entity instance left in `attributes` cannot be serialised. */
  function EntryJson(x: Entry): Option<Value> {
    match x
    case RelEntry(fields) => Some(Dict(fields))
    case EntityEntry(t, name, attrs, psets) =>
      if AllPlain(attrs) then
        Some(Dict([("type", Str(t)), ("Name", Str(name)), ("attributes", Dict(PlainFields(attrs))), ("psets", Dict(psets))]))
      else None
  }

  function DumpFields(inst: seq<(string, Entry)>): Option<seq<(string, Value)>>
    decreases |inst|
  {
    if |inst| == 0 then Some([])
    else
      match (DumpFields(inst[..|inst| - 1]), EntryJson(inst[|inst| - 1].1))
      case (Some(f), Some(j)) => Some(f + [(inst[|inst| - 1].0, j)])
      case _ => None
  }

  /** `json.dumps({"instances": instances})`, as the value it writes, or the TypeError it raises. */
  function Dumps(inst: seq<(string, Entry)>): Result<Value> {
    match DumpFields(inst)
    case Some(f) => Ok(Dict([("instances", Dict(f))]))
    case None => Failure("TypeError")
  }

  /** `convert`: pass 1 over the entities, pass 2 over the relation types, then the output. */
  method Convert(py: Py, ents: seq<Ent>, byType: string -> seq<RelEnt>) returns (out: Result<Value>)
    ensures out == Dumps(Instances(py, ents, byType))
  {
    var instances := PutEntities(py, ents);
    instances := PutRels(byType, RelKinds, instances);
    out := Dumps(instances);
  }

  /** Pass 2 of `convert`: `put_rel` for each relation type of `kinds` in turn. */
  method PutRels(byType: string -> seq<RelEnt>, kinds: seq<RelKind>, base: PyDict.Dict<string, Entry>)
    returns (instances: PyDict.Dict<string, Entry>)
    ensures instances == PyDict.PutAll(base, RelWrites(byType, kinds))
  {
    instances := base;
    var k := 0;
    while k < |kinds|
      invariant 0 <= k <= |kinds|
      invariant instances == PyDict.PutAll(base, RelWrites(byType, kinds[..k]))
    {
      assert kinds[..k + 1][..k] == kinds[..k];
      var kind := kinds[k];
      instances := PutRel(kind, byType(kind.name), instances);
      PyDict.PutAllAppend(base, RelWrites(byType, kinds[..k]), KindWrites(kind, byType(kind.name)));
      k := k + 1;
    }
    assert kinds[..k] == kinds;
  }

  /** Pass 1 of `convert`: every entity with a GlobalId, in file order. */
  method PutEntities(py: Py, ents: seq<Ent>) returns (instances: PyDict.Dict<string, Entry>)
    ensures instances == PyDict.PutAll([], EntityWrites(py, ents))
  {
    instances := [];
    var i := 0;
    while i < |ents|
      invariant 0 <= i <= |ents|
      invariant instances == PyDict.PutAll([], EntityWrites(py, ents[..i]))
    {
      var e := ents[i];
      PyDict.PutAllAssignmentsStep([], ents, i, (e: Ent) => e.globalId != "", (e: Ent) => (e.globalId, EntryOf(py, e)));
      if e.globalId != "" {
        var psets := ExtractPsets(py, e);
        var entry := EntityEntry(e.ifcType, GetName(e), EntityAttributes(py, e), psets);
        instances := PyDict.Put(instances, e.globalId, entry);
      }
      i := i + 1;
    }
    assert ents[..i] == ents;
  }

  /** `put_rel`: every relation of one type with a GlobalId replaces the entry under that id. */
  method PutRel(kind: RelKind, rels: seq<RelEnt>, inst0: PyDict.Dict<string, Entry>)
    returns (instances: PyDict.Dict<string, Entry>)
    ensures instances == PyDict.PutAll(inst0, KindWrites(kind, rels))
  {
    instances := inst0;
    var j := 0;
    while j < |rels|
      invariant 0 <= j <= |rels|
      invariant instances == PyDict.PutAll(inst0, KindWrites(kind, rels[..j]))
    {
      assert rels[..j + 1][..j] == rels[..j];
      var r := rels[j];
      if r.globalId != "" {
        var entry := RelEntry(RelFields(kind, r));
        assert KindWrites(kind, rels[..j + 1]) == KindWrites(kind, rels[..j]) + [(r.globalId, entry)];
        PyDict.PutAllSnoc(inst0, KindWrites(kind, rels[..j]), r.globalId, entry);
        instances := PyDict.Put(instances, r.globalId, entry);
      } else {
        assert KindWrites(kind, rels[..j + 1]) == KindWrites(kind, rels[..j]) + [];
        assert KindWrites(kind, rels[..j]) + [] == KindWrites(kind, rels[..j]);
      }
      j := j + 1;
    }
    assert rels[..j] == rels;
  }

  // ----- what the output holds -----

  lemma EntityWritesFrom(py: Py, ents: seq<Ent>, w: (string, Entry))
    ensures w in EntityWrites(py, ents) <==>
      exists i | 0 <= i < |ents| :: ents[i].globalId != "" && w == (ents[i].globalId, EntryOf(py, ents[i]))
  {
    PyDict.AssignmentsFrom(ents, (e: Ent) => e.globalId != "", (e: Ent) => (e.globalId, EntryOf(py, e)), w);
  }

  /**
   * After pass 1, `instances` has a key exactly for each non-empty GlobalId, and each
   * entry is the entry of an entity with that GlobalId (the last one in file order).
   */
  lemma Pass1Entries(py: Py, ents: seq<Ent>, gid: string)
    ensures PyDict.Find(PyDict.PutAll([], EntityWrites(py, ents)), gid).Some? <==>
      gid != "" && exists i | 0 <= i < |ents| :: ents[i].globalId == gid
    ensures PyDict.Find(PyDict.PutAll([], EntityWrites(py, ents)), gid).Some? ==>
      exists i | 0 <= i < |ents| ::
        ents[i].globalId == gid &&
        PyDict.Find(PyDict.PutAll([], EntityWrites(py, ents)), gid).value == EntryOf(py, ents[i])
  {
    var ws := EntityWrites(py, ents);
    PyDict.PutAllFind([], ws, gid);
    PyDict.LastOfSpec(ws, gid);
    if exists i | 0 <= i < |ents| :: ents[i].globalId == gid && gid != "" {
      var i :| 0 <= i < |ents| && ents[i].globalId == gid && gid != "";
      EntityWritesFrom(py, ents, (gid, EntryOf(py, ents[i])));
    }
    if PyDict.LastOf(ws, gid).Some? {
      var x := PyDict.LastOf(ws, gid).value;
      EntityWritesFrom(py, ents, (gid, x));
    }
  }

  /** A relation written in pass 2 replaces whatever pass 1 stored under its GlobalId. */
  lemma RelationsReplace(py: Py, ents: seq<Ent>, byType: string -> seq<RelEnt>, gid: string)
    ensures var rw := PyDict.LastOf(RelWrites(byType, RelKinds), gid);
      PyDict.Find(Instances(py, ents, byType), gid) ==
        if rw.Some? then rw else PyDict.Find(PyDict.PutAll([], EntityWrites(py, ents)), gid)
  {
    PyDict.PutAllFind(PyDict.PutAll([], EntityWrites(py, ents)), RelWrites(byType, RelKinds), gid);
  }

  lemma {:induction false} DumpFieldsKeys(inst: seq<(string, Entry)>)
    requires DumpFields(inst).Some?
    ensures |DumpFields(inst).value| == |inst|
    ensures forall i | 0 <= i < |inst| :: DumpFields(inst).value[i].0 == inst[i].0
    ensures forall i | 0 <= i < |inst| :: Some(DumpFields(inst).value[i].1) == EntryJson(inst[i].1)
    decreases |inst|
  {
    if |inst| > 0 {
      DumpFieldsKeys(inst[..|inst| - 1]);
    }
  }

  /** `json.dumps` fails exactly when some entity entry still holds an entity instance in `attributes`. */
  lemma {:induction false} DumpsFails(inst: seq<(string, Entry)>)
    ensures DumpFields(inst).None? <==> exists i | 0 <= i < |inst| :: EntryJson(inst[i].1).None?
    decreases |inst|
  {
    if |inst| > 0 {
      var init := inst[..|inst| - 1];
      DumpsFails(init);
      assert forall i | 0 <= i < |init| :: init[i] == inst[i];
    }
  }

  /**
   * The output sits under "instances", and `load_instances` of the loaders selects exactly
   * that mapping: the keys are the GlobalIds of `instances`, in order.
   */
  lemma LoadBack(inst: seq<(string, Entry)>)
    requires Dumps(inst).Ok?
    ensures Elevations.LoadInstances(Dumps(inst).value) == Ok(DumpFields(inst).value)
    ensures PyDict.KeySeq(DumpFields(inst).value) == PyDict.KeySeq(inst)
  {
    var f := DumpFields(inst).value;
    var d := Dumps(inst).value.fields;
    assert d == [("instances", Dict(f))];
    assert PyDict.Find(d, "objects") == None;
    assert PyDict.Find(d, "instances") == Some(Dict(f));
    DumpFieldsKeys(inst);
    KeySeqSame(f, inst);
  }

  lemma {:induction false} KeySeqSame<V, W>(a: seq<(string, V)>, b: seq<(string, W)>)
    requires |a| == |b| && forall i | 0 <= i < |a| :: a[i].0 == b[i].0
    ensures PyDict.KeySeq(a) == PyDict.KeySeq(b)
    decreases |a|
  {
    if |a| > 0 {
      KeySeqSame(a[1..], b[1..]);
    }
  }

  /** The JSON of an entity entry has type, Name, attributes and psets, in that order. */
  lemma EntryJsonShape(x: Entry)
    requires x.EntityEntry? && EntryJson(x).Some?
    ensures var j := EntryJson(x).value;
      j.Dict? && PyDict.KeySeq(j.fields) == ["type", "Name", "attributes", "psets"] &&
      PyDict.Find(j.fields, "type") == Some(Str(x.ifcType)) &&
      PyDict.Find(j.fields, "Name") == Some(Str(x.name))
  {
    var f := [("type", Str(x.ifcType)), ("Name", Str(x.name)), ("attributes", Dict(PlainFields(x.attributes))),
              ("psets", Dict(x.psets))];
    assert EntryJson(x) == Some(Dict(f));
    assert f[1..][1..][1..][1..] == [];
    assert PyDict.KeySeq(f[1..][1..][1..]) == ["psets"];
    assert PyDict.KeySeq(f[1..][1..]) == ["attributes", "psets"];
    assert PyDict.KeySeq(f[1..]) == ["Name", "attributes", "psets"];
  }

  /** An entity's JSON entry always has type, Name, attributes and psets, in that order. */
  lemma EntityJsonShape(py: Py, e: Ent)
    requires EntryJson(EntryOf(py, e)).Some?
    ensures var j := EntryJson(EntryOf(py, e)).value;
      j.Dict? && PyDict.KeySeq(j.fields) == ["type", "Name", "attributes", "psets"] &&
      PyDict.Find(j.fields, "type") == Some(Str(e.ifcType)) &&
      PyDict.Find(j.fields, "Name") == Some(Str(GetName(e)))
  {
    var x := EntryOf(py, e);
    assert x.EntityEntry? && x.ifcType == e.ifcType && x.name == GetName(e);
    EntryJsonShape(x);
  }

  // ----- read back by the edge loader -----

  /** What `make` writes under the related key. */
  function RelatedValue(k: RelKind, r: RelEnt): Value {
    if k.many then List(Refs(r.related)) else Ref(r.relatedOne)
  }

  /** Looking up the three keys of a written relation entry. */
  lemma RelFieldsLookup(k: RelKind, r: RelEnt)
    requires k.relatingKey != "type" && k.relatedKey != "type" && k.relatedKey != k.relatingKey
    ensures var d := RelFields(k, r);
      Has(d, "type") && Get(d, "type") == Str(k.name) &&
      Has(d, k.relatingKey) && Get(d, k.relatingKey) == Ref(r.relating) &&
      Has(d, k.relatedKey) && Get(d, k.relatedKey) == RelatedValue(k, r)
  {
    var d := RelFields(k, r);
    assert d[1..][1..] == [(k.relatedKey, RelatedValue(k, r))];
    assert d[1..][1..][1..] == [];
    assert PyDict.Find(d[1..][1..], k.relatedKey) == Some(RelatedValue(k, r));
    assert PyDict.Find(d[1..], k.relatedKey) == Some(RelatedValue(k, r));
    assert PyDict.Find(d, k.relatedKey) == Some(RelatedValue(k, r));
    assert PyDict.Find(d[1..], k.relatingKey) == Some(Ref(r.relating));
    PyDict.FindSpec(d, k.relatedKey);
  }

  /** `g` finds a key that is present at top level first. */
  lemma FirstPresent(d: seq<(string, Value)>, keys: seq<string>)
    requires |keys| > 0 && Has(d, keys[0])
    ensures Elevations.First(d, keys) == Get(d, keys[0])
  {
  }

  /** The type the loaders read from a written relation entry is its relation type. */
  lemma ReadType(k: RelKind, r: RelEnt)
    requires k.name != ""
    requires k.relatingKey != "type" && k.relatedKey != "type" && k.relatedKey != k.relatingKey
    ensures Elevations.TypeOf(RelFields(k, r)) == Str(k.name)
  {
    RelFieldsLookup(k, r);
  }

  /** The edge loader hands a written relation entry to `RelCalls` under its relation type. */
  lemma RelRecord(k: RelKind, r: RelEnt)
    requires Text.StartsWith(k.name, "IfcRel")
    requires k.relatingKey != "type" && k.relatedKey != "type" && k.relatedKey != k.relatingKey
    ensures JsonEdges.RecordOf(Dict(RelFields(k, r))) == JsonEdges.Calls(JsonEdges.RelCalls(k.name, RelFields(k, r)))
  {
    ReadType(k, r);
  }

  /** The edge loader reads a written port connection as the two directed PORT_CONNECTED_TO merges. */
  lemma PortsReadBack(r: RelEnt, a: string, b: string)
    requires r.relating == Obj(a) && r.relatedOne == Obj(b) && a != "" && b != ""
    ensures JsonEdges.RecordOf(Dict(RelFields(RelKinds[5], r))) ==
      JsonEdges.Calls([JsonEdges.MergeRel(Str(a), Str(b), "PORT_CONNECTED_TO"),
                       JsonEdges.MergeRel(Str(b), Str(a), "PORT_CONNECTED_TO")])
  {
    var k := RelKinds[5];
    var d := RelFields(k, r);
    RelFieldsLookup(k, r);
    assert k.name[..6] == "IfcRel";
    RelRecord(k, r);
    JsonEdges.PortsBranch(k.name, d);
    FirstPresent(d, ["RelatingPort", "relatingPort"]);
    FirstPresent(d, ["RelatedPort", "relatedPort"]);
    RefRoundTrip(r.relating);
    RefRoundTrip(r.relatedOne);
  }

  /** The edge loader reads a written port-to-element relation as HAS_PORT from the element to the port. */
  lemma PortToElementReadBack(r: RelEnt, port: string, elem: string)
    requires r.relating == Obj(port) && r.relatedOne == Obj(elem) && port != "" && elem != ""
    ensures JsonEdges.RecordOf(Dict(RelFields(RelKinds[4], r))) ==
      JsonEdges.Calls([JsonEdges.MergeRel(Str(elem), Str(port), "HAS_PORT")])
  {
    var k := RelKinds[4];
    var d := RelFields(k, r);
    RelFieldsLookup(k, r);
    assert k.name[..6] == "IfcRel";
    RelRecord(k, r);
    JsonEdges.PortToElementBranch(k.name, d);
    FirstPresent(d, ["RelatingPort", "relatingPort"]);
    FirstPresent(d, ["RelatedElement", "relatedElement"]);
    RefRoundTrip(r.relating);
    RefRoundTrip(r.relatedOne);
  }

  /** The edge loader reads a written containment as `link` from the structure to the written refs. */
  lemma ContainmentCalls(r: RelEnt, s: string)
    requires r.relating == Obj(s) && s != ""
    ensures JsonEdges.RecordOf(Dict(RelFields(RelKinds[0], r))) ==
      JsonEdges.Calls(JsonIngest.Link(Str(s), Refs(r.related), "CONTAINS", false))
  {
    var k := RelKinds[0];
    var d := RelFields(k, r);
    RelFieldsLookup(k, r);
    assert k.name[..6] == "IfcRel";
    RelRecord(k, r);
    FirstPresent(d, ["RelatingStructure", "relatingStructure", "RelatingSpatialStructure", "relatingSpatialStructure"]);
    FirstPresent(d, ["RelatedElements", "relatedElements"]);
    RefRoundTrip(r.relating);
    assert JsonEdges.Kids(List(Refs(r.related))) == Refs(r.related);
  }

  /** `link` over written refs merges from the parent to each target that has a GlobalId, and no other. */
  lemma LinkRefsIn(s: string, ts: seq<Target>, rel: string, st: Graph.Stmt)
    requires s != ""
    ensures st in JsonIngest.Link(Str(s), Refs(ts), rel, false) <==>
      exists i | 0 <= i < |ts| :: ts[i].Obj? && ts[i].globalId != "" && st == JsonEdges.MergeRel(Str(s), Str(ts[i].globalId), rel)
  {
    var kids := Refs(ts);
    JsonIngest.LinkIn(Str(s), kids, rel, false, st);
    if st in JsonIngest.Link(Str(s), kids, rel, false) {
      var i :| 0 <= i < |kids| && Truthy(JsonIngest.RefId(kids[i])) && st == Graph.MergeEdgeS(Str(s), JsonIngest.RefId(kids[i]), rel, "");
      RefRoundTrip(ts[i]);
    }
    if exists i | 0 <= i < |ts| :: ts[i].Obj? && ts[i].globalId != "" && st == JsonEdges.MergeRel(Str(s), Str(ts[i].globalId), rel) {
      var i :| 0 <= i < |ts| && ts[i].Obj? && ts[i].globalId != "" && st == JsonEdges.MergeRel(Str(s), Str(ts[i].globalId), rel);
      RefRoundTrip(ts[i]);
      assert Truthy(JsonIngest.RefId(kids[i]));
    }
  }

  /**
   * The edge loader reads a written containment back as one CONTAINS merge from the
   * structure to each related element that has a GlobalId, and no other.
   */
  lemma ContainmentReadBack(r: RelEnt, s: string, st: Graph.Stmt)
    requires r.relating == Obj(s) && s != ""
    ensures var rec := JsonEdges.RecordOf(Dict(RelFields(RelKinds[0], r)));
      rec.Calls? &&
      (st in rec.stmts <==>
         exists i | 0 <= i < |r.related| ::
           r.related[i].Obj? && r.related[i].globalId != "" &&
           st == JsonEdges.MergeRel(Str(s), Str(r.related[i].globalId), "CONTAINS"))
  {
    ContainmentCalls(r, s);
    LinkRefsIn(s, r.related, "CONTAINS", st);
  }

}
