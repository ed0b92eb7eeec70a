/**
 * `ingest/link_in_space_from_two_ifc.py`: space boxes come from an architectural model,
 * diffuser-like elements from a mechanical one; each element with an origin is linked to
 * the first box containing it, else to the space with the nearest box center. There is no
 * container tier and no gate.
 */
module LinkTwoIfc {
  import opened Wrappers
  import opened PyValue
  import Graph
  import PyDict
  import Seqs
  import Spatial
  import InSpace

  predicate HasGlobalId(e: InSpace.Terminal) {
    e.globalId != ""
  }

  function GlobalIdOf(e: InSpace.Terminal): string {
    e.globalId
  }

  /** The terminals after GUID de-duplication: first occurrence of each truthy GlobalId. */
  function Terms(py: Py, air: seq<InSpace.Terminal>, flow: seq<InSpace.Terminal>, duct: seq<InSpace.Terminal>, proxies: seq<InSpace.Terminal>): seq<InSpace.Terminal> {
    Seqs.Dedup(Seqs.Filter(InSpace.Candidates(py, air, flow, duct, proxies), HasGlobalId), GlobalIdOf)
  }

  /** The space a terminal is linked to, if any. */
  function Pair(boxes: PyDict.Dict<string, Spatial.Box>, t: InSpace.Terminal): Option<(string, string)> {
    if t.origin.None? then None
    else
      var hit := Spatial.Locate(boxes, t.origin.value);
      if hit.Some? && hit.value != "" then Some((t.globalId, hit.value)) else None
  }

  function Writes(boxes: PyDict.Dict<string, Spatial.Box>, terms: seq<InSpace.Terminal>): seq<Graph.Stmt> {
    InSpace.Links(terms, (t: InSpace.Terminal) => Pair(boxes, t))
  }

  /**
   * `main` after opening both models: build the boxes and stop when there are none, then
   * collect, de-duplicate and link; the count is the number of merges issued.
   */
  method LinkAll(py: Py, spaces: seq<Spatial.SpaceShape>, air: seq<InSpace.Terminal>, flow: seq<InSpace.Terminal>,
                 duct: seq<InSpace.Terminal>, proxies: seq<InSpace.Terminal>, store: Graph.Store) returns (linked: nat)
    requires store.Valid()
    modifies store
    ensures store.Valid()
    ensures Spatial.SpaceBoxes(spaces) == [] ==>
      linked == 0 && store.AsState() == old(store.AsState())
    ensures var w := Writes(Spatial.SpaceBoxes(spaces), Terms(py, air, flow, duct, proxies));
      linked == |w| &&
      store.AsState() == Graph.Exec(old(store.AsState()), w)
  {
    var boxes := Spatial.BuildBoxes(spaces);
    if |boxes| == 0 {
      NoBoxesNoWrites(Terms(py, air, flow, duct, proxies));
      return 0;
    }
    var candidates := air + flow + duct + Seqs.Filter(proxies, (e: InSpace.Terminal) => InSpace.IsDiffuserLike(py, e));
    var terms := Seqs.DedupLoop(candidates, HasGlobalId, GlobalIdOf);
    linked := LinkTerms(boxes, terms, store);
  }

  /** The loop over the terminals, for given boxes. */
  method LinkTerms(boxes: PyDict.Dict<string, Spatial.Box>, terms: seq<InSpace.Terminal>, store: Graph.Store) returns (linked: nat)
    requires store.Valid()
    modifies store
    ensures store.Valid()
    ensures linked == |Writes(boxes, terms)|
    ensures store.AsState() == Graph.Exec(old(store.AsState()), Writes(boxes, terms))
  {
    ghost var s0 := store.AsState();
    ghost var pair := (t: InSpace.Terminal) => Pair(boxes, t);
    linked := 0;
    var i := 0;
    while i < |terms|
      invariant 0 <= i <= |terms|
      invariant store.Valid()
      invariant linked == |InSpace.Links(terms[..i], pair)|
      invariant store.AsState() == Graph.Exec(s0, InSpace.Links(terms[..i], pair))
    {
      InSpace.LinksStep(terms, i, pair);
      ghost var before := InSpace.Links(terms[..i], pair);
      var t := terms[i];
      if t.origin.Some? {
        var hit := Spatial.LocateLoop(boxes, t.origin.value);
        if hit.Some? && hit.value != "" {
          Graph.ExecSnoc(s0, before, InSpace.Link(t.globalId, hit.value));
          store.MergeEdge(t.globalId, hit.value, "IN_SPACE", "IfcSpace");
          linked := linked + 1;
        }
      }
      i := i + 1;
    }
    assert terms[..i] == terms;
  }

  /** With no boxes nothing is written, whatever the terminals: the early return loses nothing. */
  lemma {:induction false} NoBoxesNoWrites(terms: seq<InSpace.Terminal>)
    ensures Writes([], terms) == []
    decreases |terms|
  {
    if |terms| > 0 {
      NoBoxesNoWrites(terms[..|terms| - 1]);
      var t := terms[|terms| - 1];
      if t.origin.Some? {
        assert Spatial.FirstHit([], t.origin.value) == None;
        assert Spatial.CenterDists([], t.origin.value) == [];
      }
    }
  }

  /**
   * A terminal is linked only if it has an origin, and then to the first box containing
   * it or to one whose center is nearest it.
   */
  lemma PairSound(boxes: PyDict.Dict<string, Spatial.Box>, t: InSpace.Terminal)
    ensures Pair(boxes, t).Some? ==> t.origin.Some? && Pair(boxes, t).value.0 == t.globalId
    ensures Pair(boxes, t).Some? ==> exists i | 0 <= i < |boxes| ::
      boxes[i].0 == Pair(boxes, t).value.1 && boxes[i].0 != "" &&
      (Spatial.FirstContainer(boxes, t.origin.value, i) || Spatial.NearestCenterAt(boxes, t.origin.value, i))
  {
    if Pair(boxes, t).Some? {
      Spatial.LocateSound(boxes, t.origin.value);
    }
  }

  /** A terminal with an origin is always linked when boxes exist (non-empty ids, a center nearer than 1e99). */
  lemma PairFound(boxes: PyDict.Dict<string, Spatial.Box>, t: InSpace.Terminal)
    requires forall i | 0 <= i < |boxes| :: boxes[i].0 != ""
    requires t.origin.Some?
    requires exists i | 0 <= i < |boxes| :: Spatial.Dist2(Spatial.Center(boxes[i].1), t.origin.value) < Spatial.Far
    ensures Pair(boxes, t).Some?
  {
    Spatial.LocateFound(boxes, t.origin.value);
  }

  /** The terminals have distinct, non-empty GlobalIds. */
  lemma TermsSpec(py: Py, air: seq<InSpace.Terminal>, flow: seq<InSpace.Terminal>, duct: seq<InSpace.Terminal>, proxies: seq<InSpace.Terminal>)
    ensures var terms := Terms(py, air, flow, duct, proxies);
      (forall i, j | 0 <= i < j < |terms| :: terms[i].globalId != terms[j].globalId) &&
      (forall i | 0 <= i < |terms| :: terms[i].globalId != "" && terms[i] in InSpace.Candidates(py, air, flow, duct, proxies))
  {
    var cands := InSpace.Candidates(py, air, flow, duct, proxies);
    var terms := Terms(py, air, flow, duct, proxies);
    Seqs.DedupDistinct(Seqs.Filter(cands, HasGlobalId), GlobalIdOf);
    forall i | 0 <= i < |terms| ensures terms[i].globalId != "" && terms[i] in cands {
      Seqs.DedupIn(Seqs.Filter(cands, HasGlobalId), GlobalIdOf, terms[i]);
      Seqs.FilterIn(cands, HasGlobalId, terms[i]);
    }
  }

  /** `t` occurs in `kept` with no earlier item sharing its GlobalId. */
  predicate FirstWithId(kept: seq<InSpace.Terminal>, t: InSpace.Terminal) {
    exists k | 0 <= k < |kept| :: kept[k] == t && forall j | 0 <= j < k :: kept[j].globalId != t.globalId
  }

  predicate IdAmong(terms: seq<InSpace.Terminal>, id: string) {
    exists i | 0 <= i < |terms| :: terms[i].globalId == id
  }

  /** Each terminal is the first candidate with its GlobalId: de-duplication keeps first occurrences. */
  lemma TermsFirst(py: Py, air: seq<InSpace.Terminal>, flow: seq<InSpace.Terminal>, duct: seq<InSpace.Terminal>, proxies: seq<InSpace.Terminal>)
    ensures forall t | t in Terms(py, air, flow, duct, proxies) :: FirstWithId(Seqs.Filter(InSpace.Candidates(py, air, flow, duct, proxies), HasGlobalId), t)
  {
    var kept := Seqs.Filter(InSpace.Candidates(py, air, flow, duct, proxies), HasGlobalId);
    forall t | t in Terms(py, air, flow, duct, proxies) ensures FirstWithId(kept, t) {
      Seqs.DedupIn(kept, GlobalIdOf, t);
      var k :| 0 <= k < |kept| && kept[k] == t && forall j | 0 <= j < k :: GlobalIdOf(kept[j]) != GlobalIdOf(t);
      assert forall j | 0 <= j < k :: kept[j].globalId != t.globalId;
    }
  }

  /** Every candidate with a GlobalId has a terminal with that GlobalId: de-duplication drops only repeats. */
  lemma TermsCover(py: Py, air: seq<InSpace.Terminal>, flow: seq<InSpace.Terminal>, duct: seq<InSpace.Terminal>, proxies: seq<InSpace.Terminal>)
    ensures forall c | c in InSpace.Candidates(py, air, flow, duct, proxies) && c.globalId != "" :: IdAmong(Terms(py, air, flow, duct, proxies), c.globalId)
  {
    var cands := InSpace.Candidates(py, air, flow, duct, proxies);
    var kept := Seqs.Filter(cands, HasGlobalId);
    forall c | c in cands && c.globalId != "" ensures IdAmong(Seqs.Dedup(kept, GlobalIdOf), c.globalId) {
      Seqs.FilterIn(cands, HasGlobalId, c);
      Seqs.DedupCovers(kept, GlobalIdOf, c);
    }
  }


}
