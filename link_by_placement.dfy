/**
 * `ingest/link_in_space_by_placement.py`: spaces are represented by the world origins of
 * their placements, and each diffuser-like terminal is linked to the space nearest in
 * plan among those within `z_tol` in height and, when `xy_max > 0`, within `xy_max` in
 * plan. There is no GlobalId de-duplication of the candidates.
 */
module LinkByPlacement {
  import opened Wrappers
  import opened PyValue
  import Graph
  import PyDict
  import Seqs
  import Spatial
  import InSpace

  const DefaultZTol: real := 3.0
  const DefaultXYMax: real := 50.0

  /** An IfcSpace of the architectural model: its GlobalId ("" when absent) and origin. */
  datatype Space = Space(globalId: string, origin: Option<Spatial.Point>)

  /** `if not gid: continue; if not p: continue`. */
  predicate Placed(s: Space) {
    s.globalId != "" && s.origin.Some?
  }

  /** `spaces_pts[gid] = p`; the origin is used only where `Placed` holds. */
  function PointAssignment(s: Space): (string, Spatial.Point) {
    (s.globalId, if s.origin.Some? then s.origin.value else Spatial.Point(0.0, 0.0, 0.0))
  }

  function SpacePoints(spaces: seq<Space>): PyDict.Dict<string, Spatial.Point> {
    PyDict.PutAll([], PyDict.Assignments(spaces, Placed, PointAssignment))
  }

  /** The loop that fills `spaces_pts`. */
  method BuildSpacePoints(spaces: seq<Space>) returns (pts: PyDict.Dict<string, Spatial.Point>)
    ensures pts == SpacePoints(spaces)
  {
    pts := [];
    var i := 0;
    while i < |spaces|
      invariant 0 <= i <= |spaces|
      invariant pts == PyDict.PutAll([], PyDict.Assignments(spaces[..i], Placed, PointAssignment))
    {
      PyDict.PutAllAssignmentsStep([], spaces, i, Placed, PointAssignment);
      var sp := spaces[i];
      if sp.globalId != "" && sp.origin.Some? {
        pts := PyDict.Put(pts, sp.globalId, sp.origin.value);
      }
      i := i + 1;
    }
    assert spaces[..i] == spaces;
  }

  /** A space id has a point exactly when some placed space has that id; a later one wins. */
  lemma SpacePointsSpec(spaces: seq<Space>, k: string)
    ensures PyDict.Find(SpacePoints(spaces), k).Some? <==>
      exists i | 0 <= i < |spaces| :: Placed(spaces[i]) && spaces[i].globalId == k
    ensures PyDict.Find(SpacePoints(spaces), k).Some? ==> exists i | 0 <= i < |spaces| ::
      Placed(spaces[i]) && spaces[i].globalId == k &&
      spaces[i].origin == PyDict.Find(SpacePoints(spaces), k) &&
      forall j | i < j < |spaces| :: !(Placed(spaces[j]) && spaces[j].globalId == k)
  {
    PyDict.AssignedLast(spaces, Placed, PointAssignment, k);
  }

  /** The `terminals` list: (GlobalId, origin) of each candidate that has both, in order, duplicates kept. */
  function TerminalPoints(cands: seq<InSpace.Terminal>): (r: seq<(string, Spatial.Point)>)
    ensures |r| <= |cands|
    decreases |cands|
  {
    if |cands| == 0 then []
    else
      var e := cands[|cands| - 1];
      TerminalPoints(cands[..|cands| - 1]) + (if e.globalId != "" && e.origin.Some? then [(e.globalId, e.origin.value)] else [])
  }

  /** Every collected terminal comes from a candidate with a GlobalId and an origin, and every such candidate is collected. */
  lemma {:induction false} TerminalPointsSpec(cands: seq<InSpace.Terminal>, tp: (string, Spatial.Point))
    ensures tp in TerminalPoints(cands) <==> exists i | 0 <= i < |cands| ::
      cands[i].globalId == tp.0 && tp.0 != "" && cands[i].origin == Some(tp.1)
    decreases |cands|
  {
    if |cands| > 0 {
      var init := cands[..|cands| - 1];
      TerminalPointsSpec(init, tp);
      assert forall i | 0 <= i < |init| :: init[i] == cands[i];
    }
  }

  method CollectTerminals(cands: seq<InSpace.Terminal>) returns (terms: seq<(string, Spatial.Point)>)
    ensures terms == TerminalPoints(cands)
  {
    terms := [];
    var i := 0;
    while i < |cands|
      invariant 0 <= i <= |cands|
      invariant terms == TerminalPoints(cands[..i])
    {
      assert cands[..i + 1][..i] == cands[..i];
      var e := cands[i];
      if e.globalId != "" && e.origin.Some? {
        terms := terms + [(e.globalId, e.origin.value)];
      } else {
        assert TerminalPoints(cands[..i + 1]) == TerminalPoints(cands[..i]) + [];
      }
      i := i + 1;
    }
    assert cands[..i] == cands;
  }

  /** The link for one terminal: `nearest_space(p)`, kept when truthy. */
  function Pair(pts: PyDict.Dict<string, Spatial.Point>, zTol: real, xyMax: real, tp: (string, Spatial.Point)): Option<(string, string)> {
    var sp := Spatial.Nearest(Spatial.GatedDists(pts, tp.1, zTol, xyMax)).id;
    if sp.Some? && sp.value != "" then Some((tp.0, sp.value)) else None
  }

  function Writes(pts: PyDict.Dict<string, Spatial.Point>, zTol: real, xyMax: real, terms: seq<(string, Spatial.Point)>): seq<Graph.Stmt> {
    InSpace.Links(terms, (tp: (string, Spatial.Point)) => Pair(pts, zTol, xyMax, tp))
  }

  /**
   * `main` after opening both models: collect the space points (stop if none), the
   * terminals (stop if none), the links, then write them; the count is `len(links)`.
   */
  method LinkAll(py: Py, spaces: seq<Space>, air: seq<InSpace.Terminal>, flow: seq<InSpace.Terminal>,
                 duct: seq<InSpace.Terminal>, proxies: seq<InSpace.Terminal>, zTol: real, xyMax: real,
                 store: Graph.Store) returns (linked: nat)
    requires store.Valid()
    modifies store
    ensures store.Valid()
    ensures var w := Writes(SpacePoints(spaces), zTol, xyMax, TerminalPoints(InSpace.Candidates(py, air, flow, duct, proxies)));
      linked == |w| &&
      store.AsState() == Graph.Exec(old(store.AsState()), w)
  {
    var pts := BuildSpacePoints(spaces);
    var candidates := air + flow + duct + Seqs.Filter(proxies, (e: InSpace.Terminal) => InSpace.IsDiffuserLike(py, e));
    var terms := CollectTerminals(candidates);
    if |pts| == 0 {
      NoSpacesNoWrites(zTol, xyMax, terms);
      return 0;
    }
    if |terms| == 0 {
      return 0;
    }
    var links := CollectLinks(pts, zTol, xyMax, terms);
    linked := |links|;
    WriteLinks(links, store);
  }

  /** The `links` list: one (terminal, space) pair per terminal whose nearest space is truthy. */
  method CollectLinks(pts: PyDict.Dict<string, Spatial.Point>, zTol: real, xyMax: real, terms: seq<(string, Spatial.Point)>)
    returns (links: seq<Graph.Stmt>)
    ensures links == Writes(pts, zTol, xyMax, terms)
  {
    ghost var pair := (tp: (string, Spatial.Point)) => Pair(pts, zTol, xyMax, tp);
    links := [];
    var i := 0;
    while i < |terms|
      invariant 0 <= i <= |terms|
      invariant links == InSpace.Links(terms[..i], pair)
    {
      InSpace.LinksStep(terms, i, pair);
      var sp := Spatial.GatedNearest(pts, terms[i].1, zTol, xyMax);
      if sp.Some? && sp.value != "" {
        links := links + [InSpace.Link(terms[i].0, sp.value)];
      }
      i := i + 1;
    }
    assert terms[..i] == terms;
  }

  /** The write loop: one IN_SPACE merge per link. */
  method WriteLinks(links: seq<Graph.Stmt>, store: Graph.Store)
    requires store.Valid()
    modifies store
    ensures store.Valid()
    ensures store.AsState() == Graph.Exec(old(store.AsState()), links)
  {
    store.Run(links);
  }

  /** With no space points no terminal gets a space, so the early return loses nothing. */
  lemma {:induction false} NoSpacesNoWrites(zTol: real, xyMax: real, terms: seq<(string, Spatial.Point)>)
    ensures Writes([], zTol, xyMax, terms) == []
    decreases |terms|
  {
    if |terms| > 0 {
      NoSpacesNoWrites(zTol, xyMax, terms[..|terms| - 1]);
      assert Spatial.GatedDists([], terms[|terms| - 1].1, zTol, xyMax) == [];
    }
  }

  /**
   * A linked space passes the Z gate and, when `xy_max > 0`, the XY cap, and no space
   * passing both is strictly nearer in plan.
   */
  lemma PairSound(pts: PyDict.Dict<string, Spatial.Point>, zTol: real, xyMax: real, tp: (string, Spatial.Point))
    ensures Pair(pts, zTol, xyMax, tp).Some? ==> exists i | 0 <= i < |pts| ::
      pts[i].0 == Pair(pts, zTol, xyMax, tp).value.1 &&
      Spatial.GatedDist2(tp.1, pts[i].1, zTol, xyMax).Some? &&
      forall j | 0 <= j < |pts| :: Spatial.GatedDist2(tp.1, pts[j].1, zTol, xyMax).Some? ==>
        Spatial.PlanDist2(tp.1, pts[i].1) <= Spatial.PlanDist2(tp.1, pts[j].1)
  {
    var ds := Spatial.GatedDists(pts, tp.1, zTol, xyMax);
    Spatial.NearestFound(ds);
    var r := Spatial.Nearest(ds);
    if Pair(pts, zTol, xyMax, tp).Some? {
      var i :| 0 <= i < |ds| && ds[i] == (r.id.value, Some(r.d2)) &&
        forall j | 0 <= j < i :: ds[j].1.Some? ==> r.d2 < ds[j].1.value;
      assert pts[i].0 == r.id.value;
      forall j | 0 <= j < |pts| && Spatial.GatedDist2(tp.1, pts[j].1, zTol, xyMax).Some?
        ensures Spatial.PlanDist2(tp.1, pts[i].1) <= Spatial.PlanDist2(tp.1, pts[j].1)
      {
        assert ds[j].1 == Spatial.GatedDist2(tp.1, pts[j].1, zTol, xyMax);
      }
    }
  }

  /** When every space is gated out (or at least 1e99 away) the terminal gets no link. */
  lemma AllGatedOut(pts: PyDict.Dict<string, Spatial.Point>, zTol: real, xyMax: real, tp: (string, Spatial.Point))
    requires forall j | 0 <= j < |pts| :: Spatial.GatedDist2(tp.1, pts[j].1, zTol, xyMax).None?
    ensures Pair(pts, zTol, xyMax, tp).None?
  {
    var ds := Spatial.GatedDists(pts, tp.1, zTol, xyMax);
    Spatial.NearestNone(ds);
  }

  /** With `xy_max <= 0` only the Z gate applies: there is no lateral cap. */
  lemma NoCapWhenNonPositive(p: Spatial.Point, s: Spatial.Point, zTol: real, xyMax: real)
    requires xyMax <= 0.0
    ensures Spatial.GatedDist2(p, s, zTol, xyMax).None? <==> Spatial.Abs(p.z - s.z) > zTol
  {
  }

  /** Under the defaults, a space more than 3 m away in height or 50 m in plan is never linked. */
  lemma DefaultGates(p: Spatial.Point, s: Spatial.Point)
    requires Spatial.Abs(p.z - s.z) > 3.0 || Spatial.PlanDist2(p, s) > 2500.0
    ensures Spatial.GatedDist2(p, s, DefaultZTol, DefaultXYMax).None?
  {
  }
}
