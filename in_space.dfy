/**
 * The IN_SPACE write shared by the four space linkers:
 * `MATCH (e {globalId:$e}), (sp:IfcSpace {globalId:$sp}) MERGE (e)-[:IN_SPACE]->(sp)`,
 * issued once per element for which a linker picked a space.
 */
module InSpace {
  import opened Wrappers
  import opened PyValue
  import Graph
  import Seqs
  import Spatial

  /**
   * A candidate terminal as the two-model linkers read it: GlobalId ("" when absent), the
   * raw Name attribute, and the world origin of its placement (None when it has none or
   * `get_local_placement` raises).
   */
  datatype Terminal = Terminal(globalId: string, name: Value, origin: Option<Spatial.Point>)

  /** `getattr(e, "Name", "") or ""`, then `str()` of anything that is not a string. */
  function NameText(py: Py, name: Value): (r: string)
    ensures !Truthy(name) ==> r == ""
    ensures Truthy(name) && name.Str? ==> r == name.s
  {
    if !Truthy(name) then "" else Show(py, name)
  }

  /** `is_diffuser_like` of the two-model linkers: name hints only. */
  predicate IsDiffuserLike(py: Py, e: Terminal) {
    Spatial.HasNameHint(NameText(py, e.name))
  }

  /** IfcAirTerminal, IfcFlowTerminal, IfcDuctTerminal, then the diffuser-like proxies. */
  function Candidates(py: Py, air: seq<Terminal>, flow: seq<Terminal>, duct: seq<Terminal>, proxies: seq<Terminal>): seq<Terminal> {
    air + flow + duct + Seqs.Filter(proxies, (e: Terminal) => IsDiffuserLike(py, e))
  }

  /** The statement for one (element, space) pair. */
  function Link(e: string, sp: string): (st: Graph.Stmt)
    ensures st.MergeEdgeS? && st.rel == "IN_SPACE" && st.dstLabel == "IfcSpace"
  {
    Graph.MergeEdgeS(Str(e), Str(sp), "IN_SPACE", "IfcSpace")
  }

  /** The statements for the items a linker pairs with a space, in order. */
  function Links<T>(xs: seq<T>, pair: T -> Option<(string, string)>): seq<Graph.Stmt>
    decreases |xs|
  {
    if |xs| == 0 then []
    else
      var last := pair(xs[|xs| - 1]);
      Links(xs[..|xs| - 1], pair) + (if last.Some? then [Link(last.value.0, last.value.1)] else [])
  }

  /** One more item: its statement, if it has one, comes last. */
  lemma LinksStep<T>(xs: seq<T>, i: int, pair: T -> Option<(string, string)>)
    requires 0 <= i < |xs|
    ensures pair(xs[i]).Some? ==> Links(xs[..i + 1], pair) == Links(xs[..i], pair) + [Link(pair(xs[i]).value.0, pair(xs[i]).value.1)]
    ensures pair(xs[i]).None? ==> Links(xs[..i + 1], pair) == Links(xs[..i], pair)
  {
    assert xs[..i + 1][..i] == xs[..i];
    if pair(xs[i]).None? {
      assert Links(xs[..i], pair) + [] == Links(xs[..i], pair);
    }
  }

  /** One IN_SPACE statement per paired item, and nothing else. */
  lemma {:induction false} LinksSpec<T>(xs: seq<T>, pair: T -> Option<(string, string)>, st: Graph.Stmt)
    ensures st in Links(xs, pair) <==>
      exists i | 0 <= i < |xs| :: pair(xs[i]).Some? && st == Link(pair(xs[i]).value.0, pair(xs[i]).value.1)
    ensures Graph.EdgeOnly(Links(xs, pair))
    decreases |xs|
  {
    if |xs| > 0 {
      var init := xs[..|xs| - 1];
      LinksSpec(init, pair, st);
      assert forall i | 0 <= i < |init| :: init[i] == xs[i];
      var l := Links(init, pair);
      var last := pair(xs[|xs| - 1]);
      if last.Some? {
        var r := l + [Link(last.value.0, last.value.1)];
        assert forall i | 0 <= i < |r| :: r[i] == if i < |l| then l[i] else Link(last.value.0, last.value.1);
      } else {
        assert l + [] == l;
      }
    }
  }

  /** The number of statements is the number of paired items. */
  function Paired<T>(xs: seq<T>, pair: T -> Option<(string, string)>): nat
    decreases |xs|
  {
    if |xs| == 0 then 0 else Paired(xs[..|xs| - 1], pair) + (if pair(xs[|xs| - 1]).Some? then 1 else 0)
  }

  lemma {:induction false} LinksCount<T>(xs: seq<T>, pair: T -> Option<(string, string)>)
    ensures |Links(xs, pair)| == Paired(xs, pair)
    decreases |xs|
  {
    if |xs| > 0 {
      LinksCount(xs[..|xs| - 1], pair);
    }
  }

  /** Issuing the links a second time changes nothing: MERGE adds no duplicate edge. */
  lemma RerunAddsNothing<T>(s: Graph.State, xs: seq<T>, pair: T -> Option<(string, string)>)
    ensures Graph.Exec(Graph.Exec(s, Links(xs, pair)), Links(xs, pair)) == Graph.Exec(s, Links(xs, pair))
  {
    LinksSpec(xs, pair, Link("", ""));
    Graph.EdgeOnlyIdempotent(s, Links(xs, pair));
  }
}
