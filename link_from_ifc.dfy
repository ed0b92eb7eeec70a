/**
 * `ingest/link_in_space_from_ifc.py`: links diffuser-like elements of one IFC model to
 * spaces with three tiers, in this order: an IfcSpace container reported by the model,
 * then the first space box containing the element's origin, then the space whose box
 * center is nearest in 3-D.
 */
module LinkFromIfc {
  import opened Wrappers
  import opened PyValue
  import Graph
  import PyDict
  import Seqs
  import Spatial
  import InSpace

  /** The spatial structure `get_container` reports: whether it is an IfcSpace, and its GlobalId. */
  datatype Container = Container(isSpace: bool, globalId: string)

  /**
   * What the script reads from one candidate: GlobalId ("" when absent), the raw Name
   * attribute, the world origin of its placement, and its container.
   */
  datatype Element = Element(globalId: string, name: Value, origin: Option<Spatial.Point>, container: Option<Container>)

  /** `name_of`: a string is itself, None is "", anything else its `str()`. */
  function NameOf(py: Py, name: Value): (r: string)
    ensures name.Str? ==> r == name.s
    ensures name.Null? ==> r == ""
    ensures !name.Str? && !name.Null? ==> r == Show(py, name)
  {
    if name.Str? then name.s else if name.Null? then "" else Show(py, name)
  }

  /** `is_diffuser_like`: the family rule or the name hints. */
  predicate IsDiffuserLike(py: Py, e: Element) {
    Spatial.FamilyOrHint(NameOf(py, e.name))
  }

  /** Since every family prefix holds a hint, the predicate is the hint test on the rendered name. */
  lemma DiffuserLikeIsHint(py: Py, e: Element)
    ensures IsDiffuserLike(py, e) <==> Spatial.HasNameHint(NameOf(py, e.name))
  {
    Spatial.FamilyOrHintIsHint(NameOf(py, e.name));
  }

  /** IfcAirTerminal, then IfcFlowTerminal, then the diffuser-like proxies. */
  function Candidates(py: Py, air: seq<Element>, flow: seq<Element>, proxies: seq<Element>): seq<Element> {
    air + flow + Seqs.Filter(proxies, (e: Element) => IsDiffuserLike(py, e))
  }

  predicate HasGlobalId(e: Element) {
    e.globalId != ""
  }

  function GlobalIdOf(e: Element): string {
    e.globalId
  }

  /** The terminals after GUID de-duplication: first occurrence of each truthy GlobalId. */
  function Terms(py: Py, air: seq<Element>, flow: seq<Element>, proxies: seq<Element>): seq<Element> {
    Seqs.Dedup(Seqs.Filter(Candidates(py, air, flow, proxies), HasGlobalId), GlobalIdOf)
  }

  /** The space an element is linked to, if any (the pair written, element first). */
  function Pair(boxes: PyDict.Dict<string, Spatial.Box>, t: Element): Option<(string, string)> {
    if t.container.Some? && t.container.value.isSpace then Some((t.globalId, t.container.value.globalId))
    else if t.origin.None? || |boxes| == 0 then None
    else
      var hit := Spatial.Locate(boxes, t.origin.value);
      if hit.Some? && hit.value != "" then Some((t.globalId, hit.value)) else None
  }

  /** The statements the run issues for these boxes and terminals. */
  function Writes(boxes: PyDict.Dict<string, Spatial.Box>, terms: seq<Element>): seq<Graph.Stmt> {
    InSpace.Links(terms, (t: Element) => Pair(boxes, t))
  }

  /**
   * `main` after opening the model: build the boxes, collect and de-duplicate the
   * candidates, and link each terminal; `assigned` (here `linked`) counts the merges issued.
   */
  method LinkAll(py: Py, spaces: seq<Spatial.SpaceShape>, air: seq<Element>, flow: seq<Element>,
                 proxies: seq<Element>, store: Graph.Store) returns (linked: nat)
    requires store.Valid()
    modifies store
    ensures store.Valid()
    ensures var w := Writes(Spatial.SpaceBoxes(spaces), Terms(py, air, flow, proxies));
      linked == |w| &&
      store.AsState() == Graph.Exec(old(store.AsState()), w)
  {
    var boxes := Spatial.BuildBoxes(spaces);
    var candidates := air + flow + Seqs.Filter(proxies, (e: Element) => IsDiffuserLike(py, e));
    var terms := Seqs.DedupLoop(candidates, HasGlobalId, GlobalIdOf);
    linked := LinkTerms(boxes, terms, store);
  }

  /** The loop over the terminals, for given boxes. */
  method LinkTerms(boxes: PyDict.Dict<string, Spatial.Box>, terms: seq<Element>, store: Graph.Store) returns (linked: nat)
    requires store.Valid()
    modifies store
    ensures store.Valid()
    ensures linked == |Writes(boxes, terms)|
    ensures store.AsState() == Graph.Exec(old(store.AsState()), Writes(boxes, terms))
  {
    ghost var s0 := store.AsState();
    ghost var pair := (t: Element) => Pair(boxes, t);
    linked := 0;
    var i := 0;
    while i < |terms|
      invariant 0 <= i <= |terms|
      invariant store.Valid()
      invariant linked == |InSpace.Links(terms[..i], pair)|
      invariant store.AsState() == Graph.Exec(s0, InSpace.Links(terms[..i], pair))
    {
      InSpace.LinksStep(terms, i, pair);
      ghost var before := InSpace.Links(terms[..i], pair);
      var t := terms[i];
      var sp := SpaceFor(boxes, t);
      if sp.Some? {
        Graph.ExecSnoc(s0, before, InSpace.Link(t.globalId, sp.value));
        store.MergeEdge(t.globalId, sp.value, "IN_SPACE", "IfcSpace");
        linked := linked + 1;
      }
      i := i + 1;
    }
    assert terms[..i] == terms;
  }

  /**
   * The space one terminal is linked to: its IfcSpace container, else (with an origin
   * and some box) the first box containing the origin or the nearest center, if truthy.
   */
  method SpaceFor(boxes: PyDict.Dict<string, Spatial.Box>, t: Element) returns (sp: Option<string>)
    ensures Pair(boxes, t) == if sp.Some? then Some((t.globalId, sp.value)) else None
    ensures t.container.Some? && t.container.value.isSpace ==> sp == Some(t.container.value.globalId)
    ensures sp.Some? ==> sp.value != "" || (t.container.Some? && t.container.value.isSpace)
  {
    sp := None;
    if t.container.Some? && t.container.value.isSpace {
      sp := Some(t.container.value.globalId);
    } else if t.origin.Some? && |boxes| > 0 {
      var hit := Spatial.LocateLoop(boxes, t.origin.value);
      if hit.Some? && hit.value != "" {
        sp := hit;
      }
    }
  }

  // ----- properties of the tiers -----

  /** An IfcSpace container decides the space outright: no geometry is consulted. */
  lemma ContainerFirst(boxes: PyDict.Dict<string, Spatial.Box>, other: PyDict.Dict<string, Spatial.Box>, t: Element)
    requires t.container.Some? && t.container.value.isSpace
    ensures Pair(boxes, t) == Pair(other, t) == Some((t.globalId, t.container.value.globalId))
  {
  }

  /**
   * Without an IfcSpace container, an element is linked only to a space with a box: the
   * first box containing its origin, or one whose center is nearest its origin.
   */
  lemma GeometryTier(boxes: PyDict.Dict<string, Spatial.Box>, t: Element)
    requires !(t.container.Some? && t.container.value.isSpace)
    ensures Pair(boxes, t).Some? ==> t.origin.Some? && exists i | 0 <= i < |boxes| ::
      boxes[i].0 == Pair(boxes, t).value.1 && boxes[i].0 != "" &&
      (Spatial.FirstContainer(boxes, t.origin.value, i) || Spatial.NearestCenterAt(boxes, t.origin.value, i))
  {
    if Pair(boxes, t).Some? {
      Spatial.LocateSound(boxes, t.origin.value);
    }
  }

  /**
   * An element with an origin is linked whenever a box exists (space ids are non-empty
   * and some center is nearer than 1e99); one without an origin is linked only through
   * its container, and so is every element of a run with no boxes.
   */
  lemma LinkedIffOrigin(boxes: PyDict.Dict<string, Spatial.Box>, t: Element)
    requires !(t.container.Some? && t.container.value.isSpace)
    requires forall i | 0 <= i < |boxes| :: boxes[i].0 != ""
    requires t.origin.Some? ==> exists i | 0 <= i < |boxes| :: Spatial.Dist2(Spatial.Center(boxes[i].1), t.origin.value) < Spatial.Far
    ensures Pair(boxes, t).Some? <==> t.origin.Some? && |boxes| > 0
  {
    if t.origin.Some? && |boxes| > 0 {
      Spatial.LocateFound(boxes, t.origin.value);
    }
  }

  /** The terminals have distinct, non-empty GlobalIds. */
  lemma TermsKeyed(py: Py, air: seq<Element>, flow: seq<Element>, proxies: seq<Element>)
    ensures var terms := Terms(py, air, flow, proxies);
      (forall i, j | 0 <= i < j < |terms| :: terms[i].globalId != terms[j].globalId) &&
      (forall i | 0 <= i < |terms| :: terms[i].globalId != "")
  {
    var cands := Candidates(py, air, flow, proxies);
    var kept := Seqs.Filter(cands, HasGlobalId);
    var terms := Terms(py, air, flow, proxies);
    Seqs.DedupDistinct(kept, GlobalIdOf);
    forall i | 0 <= i < |terms| ensures terms[i].globalId != "" {
      Seqs.DedupIn(kept, GlobalIdOf, terms[i]);
      Seqs.FilterIn(cands, HasGlobalId, terms[i]);
    }
  }

  /** `t` occurs in `kept` with no earlier item sharing its GlobalId. */
  predicate FirstWithId(kept: seq<Element>, t: Element) {
    exists k | 0 <= k < |kept| :: kept[k] == t && forall j | 0 <= j < k :: kept[j].globalId != t.globalId
  }

  predicate IdAmong(terms: seq<Element>, id: string) {
    exists i | 0 <= i < |terms| :: terms[i].globalId == id
  }

  /** Each terminal is the first candidate with its GlobalId: de-duplication keeps first occurrences. */
  lemma TermsFirst(py: Py, air: seq<Element>, flow: seq<Element>, proxies: seq<Element>)
    ensures forall t | t in Terms(py, air, flow, proxies) :: FirstWithId(Seqs.Filter(Candidates(py, air, flow, proxies), HasGlobalId), t)
  {
    var kept := Seqs.Filter(Candidates(py, air, flow, proxies), HasGlobalId);
    forall t | t in Terms(py, air, flow, proxies) ensures FirstWithId(kept, t) {
      Seqs.DedupIn(kept, GlobalIdOf, t);
      var k :| 0 <= k < |kept| && kept[k] == t && forall j | 0 <= j < k :: GlobalIdOf(kept[j]) != GlobalIdOf(t);
      assert forall j | 0 <= j < k :: kept[j].globalId != t.globalId;
    }
  }

  /** Every candidate with a GlobalId has a terminal with that GlobalId: de-duplication drops only repeats. */
  lemma TermsCover(py: Py, air: seq<Element>, flow: seq<Element>, proxies: seq<Element>)
    ensures forall c | c in Candidates(py, air, flow, proxies) && c.globalId != "" :: IdAmong(Terms(py, air, flow, proxies), c.globalId)
  {
    var cands := Candidates(py, air, flow, proxies);
    var kept := Seqs.Filter(cands, HasGlobalId);
    forall c | c in cands && c.globalId != "" ensures IdAmong(Seqs.Dedup(kept, GlobalIdOf), c.globalId) {
      Seqs.FilterIn(cands, HasGlobalId, c);
      Seqs.DedupCovers(kept, GlobalIdOf, c);
    }
  }



  /** The statements written for some terminals: one IN_SPACE edge per linked terminal, no node writes. */
  lemma WritesLinks(boxes: PyDict.Dict<string, Spatial.Box>, terms: seq<Element>, st: Graph.Stmt)
    ensures st in Writes(boxes, terms) <==> exists i | 0 <= i < |terms| ::
      Pair(boxes, terms[i]).Some? && st == InSpace.Link(terms[i].globalId, Pair(boxes, terms[i]).value.1)
    ensures Graph.EdgeOnly(Writes(boxes, terms))
  {
    var pair := (t: Element) => Pair(boxes, t);
    InSpace.LinksSpec(terms, pair, st);
  }

  /**
   * The run writes exactly one IN_SPACE edge statement per linked terminal (and
   * `LinkAll`'s count is their number); the terminals have distinct, non-empty GlobalIds.
   */
  lemma WritesSpec(py: Py, spaces: seq<Spatial.SpaceShape>, air: seq<Element>, flow: seq<Element>,
                   proxies: seq<Element>, st: Graph.Stmt)
    ensures var boxes := Spatial.SpaceBoxes(spaces);
      var terms := Terms(py, air, flow, proxies);
      (st in Writes(boxes, terms) <==> exists i | 0 <= i < |terms| ::
         Pair(boxes, terms[i]).Some? && st == InSpace.Link(terms[i].globalId, Pair(boxes, terms[i]).value.1)) &&
      Graph.EdgeOnly(Writes(boxes, terms)) &&
      (forall i, j | 0 <= i < j < |terms| :: terms[i].globalId != terms[j].globalId) &&
      (forall i | 0 <= i < |terms| :: terms[i].globalId != "")
  {
    WritesLinks(Spatial.SpaceBoxes(spaces), Terms(py, air, flow, proxies), st);
    TermsKeyed(py, air, flow, proxies);
  }
}
