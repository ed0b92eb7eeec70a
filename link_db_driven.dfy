/**
 * `ingest/link_in_space_db_driven.py`: the candidate ids come from the graph (the query
 * is not modelled; its result is an input), are optionally limited, and are looked up in
 * a GlobalId index of the mechanical model; each found element with an origin is paired
 * with the space nearest in plan among those passing the Z gate and the optional XY cap.
 */
module LinkDbDriven {
  import opened Wrappers
  import opened PyValue
  import Graph
  import PyDict
  import Seqs
  import Spatial
  import InSpace

  const DefaultZTol: real := 1000000000.0
  const DefaultXYMax: real := 0.0
  const DefaultLimit: int := 0

  /** An entity of a model: its GlobalId ("" when absent) and the world origin of its placement. */
  datatype Entity = Entity(globalId: string, origin: Option<Spatial.Point>)

  /** `if args.limit and len(ids) > args.limit: ids = ids[:args.limit]`. */
  function Limited<T>(ids: seq<T>, limit: int): seq<T> {
    if limit != 0 && |ids| > limit then Seqs.SliceTo(ids, limit) else ids
  }

  /**
   * A positive limit keeps the first `limit` ids; zero keeps all; a negative one drops
   * that many from the end, as Python's slice does.
   */
  lemma LimitedSpec<T>(ids: seq<T>, limit: int)
    ensures limit == 0 ==> Limited(ids, limit) == ids
    ensures limit > 0 ==> Limited(ids, limit) == ids[..if limit < |ids| then limit else |ids|]
    ensures limit < 0 ==> Limited(ids, limit) == ids[..if |ids| + limit > 0 then |ids| + limit else 0]
  {
  }

  predicate HasGlobalId(e: Entity) {
    e.globalId != ""
  }

  function IndexAssignment(e: Entity): (string, Entity) {
    (e.globalId, e)
  }

  /** `build_guid_index`: `idx[gid] = e` for each entity with a truthy GlobalId. */
  function GuidIndex(entities: seq<Entity>): PyDict.Dict<string, Entity> {
    PyDict.PutAll([], PyDict.Assignments(entities, HasGlobalId, IndexAssignment))
  }

  method BuildGuidIndex(entities: seq<Entity>) returns (idx: PyDict.Dict<string, Entity>)
    ensures idx == GuidIndex(entities)
  {
    idx := [];
    var i := 0;
    while i < |entities|
      invariant 0 <= i <= |entities|
      invariant idx == PyDict.PutAll([], PyDict.Assignments(entities[..i], HasGlobalId, IndexAssignment))
    {
      PyDict.PutAllAssignmentsStep([], entities, i, HasGlobalId, IndexAssignment);
      var e := entities[i];
      if e.globalId != "" {
        idx := PyDict.Put(idx, e.globalId, e);
      }
      i := i + 1;
    }
    assert entities[..i] == entities;
  }

  /** The index maps each truthy GlobalId to the last entity carrying it, and nothing else. */
  lemma GuidIndexLastWins(entities: seq<Entity>, k: string)
    ensures PyDict.Find(GuidIndex(entities), k).Some? <==>
      k != "" && exists i | 0 <= i < |entities| :: entities[i].globalId == k
    ensures PyDict.Find(GuidIndex(entities), k).Some? ==> exists i | 0 <= i < |entities| ::
      entities[i] == PyDict.Find(GuidIndex(entities), k).value && entities[i].globalId == k &&
      forall j | i < j < |entities| :: entities[j].globalId != k
  {
    PyDict.AssignedLast(entities, HasGlobalId, IndexAssignment, k);
  }

  /** `if p: spaces_pts[sp.GlobalId] = p`: no GlobalId check here. */
  predicate HasOrigin(s: Entity) {
    s.origin.Some?
  }

  function PointAssignment(s: Entity): (string, Spatial.Point) {
    (s.globalId, if s.origin.Some? then s.origin.value else Spatial.Point(0.0, 0.0, 0.0))
  }

  function SpacePoints(spaces: seq<Entity>): PyDict.Dict<string, Spatial.Point> {
    PyDict.PutAll([], PyDict.Assignments(spaces, HasOrigin, PointAssignment))
  }

  method BuildSpacePoints(spaces: seq<Entity>) returns (pts: PyDict.Dict<string, Spatial.Point>)
    ensures pts == SpacePoints(spaces)
  {
    pts := [];
    var i := 0;
    while i < |spaces|
      invariant 0 <= i <= |spaces|
      invariant pts == PyDict.PutAll([], PyDict.Assignments(spaces[..i], HasOrigin, PointAssignment))
    {
      PyDict.PutAllAssignmentsStep([], spaces, i, HasOrigin, PointAssignment);
      if spaces[i].origin.Some? {
        pts := PyDict.Put(pts, spaces[i].globalId, spaces[i].origin.value);
      }
      i := i + 1;
    }
    assert spaces[..i] == spaces;
  }

  /** `mech_idx.get(gid)`: only a string id can be a key. */
  function Lookup(idx: PyDict.Dict<string, Entity>, id: Value): Option<Entity> {
    if id.Str? then PyDict.Find(idx, id.s) else None
  }

  /** The pair for one candidate id: found, with an origin, and with a truthy nearest space. */
  function Pair(idx: PyDict.Dict<string, Entity>, pts: PyDict.Dict<string, Spatial.Point>, zTol: real, xyMax: real,
                id: Value): Option<(string, string)>
  {
    var e := Lookup(idx, id);
    if e.None? || e.value.origin.None? then None
    else
      var best := Spatial.Nearest(Spatial.GatedDists(pts, e.value.origin.value, zTol, xyMax)).id;
      if best.Some? && best.value != "" then Some((id.s, best.value)) else None
  }

  function Writes(idx: PyDict.Dict<string, Entity>, pts: PyDict.Dict<string, Spatial.Point>, zTol: real, xyMax: real,
                  ids: seq<Value>): seq<Graph.Stmt>
  {
    InSpace.Links(ids, (id: Value) => Pair(idx, pts, zTol, xyMax, id))
  }

  /**
   * `main` after the graph query: limit the ids, index the mechanical model, collect the
   * space points (stop if none), build `pairs` and write them.
   */
  method LinkAll(ids0: seq<Value>, limit: int, mech: seq<Entity>, spaces: seq<Entity>, zTol: real, xyMax: real,
                 store: Graph.Store) returns (pairs: nat)
    requires store.Valid()
    modifies store
    ensures store.Valid()
    ensures var w := Writes(GuidIndex(mech), SpacePoints(spaces), zTol, xyMax, Limited(ids0, limit));
      pairs == |w| &&
      store.AsState() == Graph.Exec(old(store.AsState()), w)
  {
    var ids := ids0;
    if limit != 0 && |ids| > limit {
      ids := Seqs.SliceTo(ids, limit);
    }
    var idx := BuildGuidIndex(mech);
    var pts := BuildSpacePoints(spaces);
    if |pts| == 0 {
      NoSpacesNoWrites(idx, zTol, xyMax, ids);
      return 0;
    }
    var links := CollectPairs(idx, pts, zTol, xyMax, ids);
    pairs := |links|;
    store.Run(links);
  }

  /** The `pairs` loop with its inline gated running minimum. */
  method CollectPairs(idx: PyDict.Dict<string, Entity>, pts: PyDict.Dict<string, Spatial.Point>, zTol: real, xyMax: real,
                      ids: seq<Value>) returns (links: seq<Graph.Stmt>)
    ensures links == Writes(idx, pts, zTol, xyMax, ids)
  {
    ghost var pair := (id: Value) => Pair(idx, pts, zTol, xyMax, id);
    links := [];
    var i := 0;
    while i < |ids|
      invariant 0 <= i <= |ids|
      invariant links == InSpace.Links(ids[..i], pair)
    {
      InSpace.LinksStep(ids, i, pair);
      var e := Lookup(idx, ids[i]);
      if e.Some? && e.value.origin.Some? {
        var best := Spatial.GatedNearest(pts, e.value.origin.value, zTol, xyMax);
        if best.Some? && best.value != "" {
          links := links + [InSpace.Link(ids[i].s, best.value)];
        }
      }
      i := i + 1;
    }
    assert ids[..i] == ids;
  }

  lemma {:induction false} NoSpacesNoWrites(idx: PyDict.Dict<string, Entity>, zTol: real, xyMax: real, ids: seq<Value>)
    ensures Writes(idx, [], zTol, xyMax, ids) == []
    decreases |ids|
  {
    if |ids| > 0 {
      NoSpacesNoWrites(idx, zTol, xyMax, ids[..|ids| - 1]);
      var e := Lookup(idx, ids[|ids| - 1]);
      if e.Some? && e.value.origin.Some? {
        assert Spatial.GatedDists([], e.value.origin.value, zTol, xyMax) == [];
      }
    }
  }

  /**
   * A pair exists only for a string id found in the index whose entity has an origin; its
   * space is a key of `spaces_pts` that passes both gates, and none passing them is
   * strictly nearer in plan.
   */
  lemma PairSound(idx: PyDict.Dict<string, Entity>, pts: PyDict.Dict<string, Spatial.Point>, zTol: real, xyMax: real, id: Value)
    ensures Pair(idx, pts, zTol, xyMax, id).Some? ==>
      id.Str? && Pair(idx, pts, zTol, xyMax, id).value.0 == id.s &&
      PyDict.Find(idx, id.s).Some? && PyDict.Find(idx, id.s).value.origin.Some?
    ensures Pair(idx, pts, zTol, xyMax, id).Some? ==> exists i | 0 <= i < |pts| ::
      pts[i].0 == Pair(idx, pts, zTol, xyMax, id).value.1 &&
      Spatial.GatedDist2(PyDict.Find(idx, id.s).value.origin.value, pts[i].1, zTol, xyMax).Some? &&
      forall j | 0 <= j < |pts| :: Spatial.GatedDist2(PyDict.Find(idx, id.s).value.origin.value, pts[j].1, zTol, xyMax).Some? ==>
        Spatial.PlanDist2(PyDict.Find(idx, id.s).value.origin.value, pts[i].1) <=
        Spatial.PlanDist2(PyDict.Find(idx, id.s).value.origin.value, pts[j].1)
  {
    if Pair(idx, pts, zTol, xyMax, id).Some? {
      var p := PyDict.Find(idx, id.s).value.origin.value;
      var ds := Spatial.GatedDists(pts, p, zTol, xyMax);
      Spatial.NearestFound(ds);
      var r := Spatial.Nearest(ds);
      var i :| 0 <= i < |ds| && ds[i] == (r.id.value, Some(r.d2)) &&
        forall j | 0 <= j < i :: ds[j].1.Some? ==> r.d2 < ds[j].1.value;
      assert pts[i].0 == r.id.value;
      forall j | 0 <= j < |pts| && Spatial.GatedDist2(p, pts[j].1, zTol, xyMax).Some?
        ensures Spatial.PlanDist2(p, pts[i].1) <= Spatial.PlanDist2(p, pts[j].1)
      {
        assert ds[j].1 == Spatial.GatedDist2(p, pts[j].1, zTol, xyMax);
      }
    }
  }

  /** Under the defaults (z_tol 1e9, xy_max 0) a space is gated out only if more than 1e9 away in height. */
  lemma DefaultsGateOnlyHeight(p: Spatial.Point, s: Spatial.Point)
    ensures Spatial.GatedDist2(p, s, DefaultZTol, DefaultXYMax).None? <==> Spatial.Abs(p.z - s.z) > 1000000000.0
  {
  }

  /** An id missing from the index, or one whose element has no origin, yields no pair. */
  lemma MissingNoPair(idx: PyDict.Dict<string, Entity>, pts: PyDict.Dict<string, Spatial.Point>, zTol: real, xyMax: real, id: Value)
    requires Lookup(idx, id).None? || Lookup(idx, id).value.origin.None?
    ensures Pair(idx, pts, zTol, xyMax, id).None?
  {
  }
}
