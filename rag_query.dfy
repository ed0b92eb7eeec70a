/**
 * Evidence for a question: lexical seeds from the question's tokens, merged with the
 * vector-search seeds, and the neighbourhood of the seeds in the graph, with nodes keyed
 * by globalId and edges de-duplicated by (src, dst, type).
 *
 * The database and the vector index are not modelled: what their queries return is
 * given to the operations as input.
 */
module RagQuery {
  import opened Wrappers
  import opened PyValue
  import Text
  import PyDict
  import Seqs

  /** `RAG_HOPS` and `RAG_TOPK` when the environment does not set them. */
  const DefaultHops := 3
  const DefaultTopK := 20

  /** The most lexical seeds kept. */
  const LexicalLimit := 50

  // ---------------------------------------------------------------------------------------
  // Tokens: `re.findall(r"[A-Za-z0-9\-]+", question)`, keeping tokens of two or more chars.

  predicate TokenChar(c: char) {
    ('A' <= c <= 'Z') || ('a' <= c <= 'z') || ('0' <= c <= '9') || c == '-'
  }

  /** Length of the run of token characters at the start of `s`. */
  function RunLength(s: string): (n: nat)
    ensures n <= |s|
    ensures forall i | 0 <= i < n :: TokenChar(s[i])
    ensures n < |s| ==> !TokenChar(s[n])
  {
    if |s| == 0 || !TokenChar(s[0]) then 0 else 1 + RunLength(s[1..])
  }

  /** The run length is the only length with these two properties. */
  lemma RunLengthUnique(s: string, n: nat)
    requires n <= |s|
    requires forall i | 0 <= i < n :: TokenChar(s[i])
    requires n < |s| ==> !TokenChar(s[n])
    ensures RunLength(s) == n
  {
  }

  /** The maximal runs of token characters, left to right: what `re.findall` returns. */
  function Runs(s: string): (r: seq<string>)
    ensures forall t | t in r :: |t| > 0 && forall i | 0 <= i < |t| :: TokenChar(t[i])
    decreases |s|
  {
    if |s| == 0 then []
    else if !TokenChar(s[0]) then Runs(s[1..])
    else
      var n := RunLength(s);
      [s[..n]] + Runs(s[n..])
  }

  /** The runs, put back together, are exactly the token characters of `s`, in order. */
  lemma {:induction false} RunsCover(s: string)
    ensures Seqs.Flatten(Runs(s)) == Seqs.Filter(s, TokenChar)
    decreases |s|
  {
    if |s| > 0 {
      if !TokenChar(s[0]) {
        RunsCover(s[1..]);
        Seqs.FilterAppend([s[0]], s[1..], TokenChar);
        assert [s[0]] + s[1..] == s;
        assert Seqs.Filter([s[0]], TokenChar) == [];
      } else {
        var n := RunLength(s);
        RunsCover(s[n..]);
        RunsCoverStep(s, n);
      }
    }
  }

  lemma RunsCoverStep(s: string, n: nat)
    requires 0 < |s| && TokenChar(s[0]) && n == RunLength(s)
    requires Seqs.Flatten(Runs(s[n..])) == Seqs.Filter(s[n..], TokenChar)
    ensures Seqs.Flatten(Runs(s)) == Seqs.Filter(s, TokenChar)
  {
    assert Runs(s) == [s[..n]] + Runs(s[n..]);
    FlattenCons(s[..n], Runs(s[n..]));
    Seqs.FilterKeptPrefix(s, n, TokenChar);
  }

  lemma {:induction false} FlattenCons<T>(x: seq<T>, xss: seq<seq<T>>)
    ensures Seqs.Flatten([x] + xss) == x + Seqs.Flatten(xss)
    decreases |xss|
  {
    if |xss| > 0 {
      var init := xss[..|xss| - 1];
      FlattenCons(x, init);
      assert ([x] + xss)[..|[x] + xss| - 1] == [x] + init;
    }
  }

  /** A separator splits the runs: no token spans a non-token character. */
  lemma {:induction false} RunsSplit(a: string, c: char, b: string)
    requires !TokenChar(c)
    ensures Runs(a + [c] + b) == Runs(a) + Runs(b)
    decreases |a|
  {
    var s := a + [c] + b;
    if |a| == 0 {
      assert s[1..] == b;
    } else if !TokenChar(a[0]) {
      assert s[1..] == a[1..] + [c] + b;
      RunsSplit(a[1..], c, b);
    } else {
      var n := RunLength(a);
      RunLengthUnique(s, n);
      assert s[..n] == a[..n];
      assert s[n..] == a[n..] + [c] + b;
      RunsSplit(a[n..], c, b);
    }
  }

  /** A string made only of token characters is one run. */
  lemma RunsWhole(s: string)
    requires |s| > 0
    requires forall i | 0 <= i < |s| :: TokenChar(s[i])
    ensures Runs(s) == [s]
  {
    RunLengthUnique(s, |s|);
    assert s[..|s|] == s;
    assert s[|s|..] == [];
  }

  predicate LongEnough(t: string) {
    |t| >= 2
  }

  /** `toks`: the runs of two or more characters. */
  function Tokens(question: string): seq<string> {
    Seqs.Filter(Runs(question), LongEnough)
  }

  /** Every token is a run of at least two token characters of the question. */
  lemma TokensSpec(question: string, t: string)
    ensures t in Tokens(question) <==> t in Runs(question) && |t| >= 2
    ensures t in Tokens(question) ==> forall i | 0 <= i < |t| :: TokenChar(t[i])
  {
    Seqs.FilterIn(Runs(question), LongEnough, t);
  }

  // ---------------------------------------------------------------------------------------
  // Lexical seeds.

  /** The words that bias the lexical seeds towards mechanical elements. */
  const BiasWords := ["ahu", "vav", "terminal", "diffuser", "grille", "register"]

  /** A character of `\w` (ASCII). */
  predicate WordChar(c: char) {
    ('A' <= c <= 'Z') || ('a' <= c <= 'z') || ('0' <= c <= '9') || c == '_'
  }

  /** `w` occurs in `s` at `k` with a word boundary on both sides. */
  predicate WordAt(s: string, k: int, w: string) {
    0 <= k && k + |w| <= |s| && s[k..k + |w|] == w &&
    (k == 0 || !WordChar(s[k - 1])) && (k + |w| == |s| || !WordChar(s[k + |w|]))
  }

  /** `re.search(r"\b(ahu|vav|terminal|diffuser|grille|register)\b", question.lower())`. */
  predicate MechBias(question: string) {
    exists w, k | w in BiasWords && 0 <= k < |question| :: WordAt(Text.Lower(question), k, w)
  }

  /** The bias needs one of its words as a whole word; a substring is not enough. */
  lemma MechBiasNeedsWord(question: string)
    ensures MechBias(question) ==> exists w | w in BiasWords :: Text.Contains(Text.Lower(question), w)
    ensures !MechBias("vavs") && Text.Contains("vavs", "vav")
  {
    if MechBias(question) {
      var w, k :| w in BiasWords && 0 <= k < |question| && WordAt(Text.Lower(question), k, w);
      Text.ContainsAt(Text.Lower(question), w, k);
    }
    Text.ContainsAt("vavs", "vav", 0);
    assert Text.Lower("vavs") == "vavs";
  }

  /**
   * `ids`: the name matches, then the pset-reference matches, then, when the question is
   * biased, the matches of each mechanical needle in turn.
   */
  function Found<Id>(question: string, nameHits: seq<Id>, refHits: seq<Id>, mechHits: seq<seq<Id>>): seq<Id> {
    nameHits + refHits + (if MechBias(question) then Seqs.Flatten(mechHits) else [])
  }

  predicate Any<T>(x: T) {
    true
  }

  function Identity<T>(x: T): T {
    x
  }

  /** What `lexical_seeds` returns: none without tokens, else the first 50 distinct ids found. */
  function LexicalSpec<Id(==)>(question: string, nameHits: seq<Id>, refHits: seq<Id>, mechHits: seq<seq<Id>>): seq<Id> {
    if |Tokens(question)| == 0 then []
    else Seqs.SliceTo(Seqs.Dedup(Found(question, nameHits, refHits, mechHits), Identity), LexicalLimit)
  }

  /**
   * `lexical_seeds`: the database results are `nameHits` (by name), `refHits` (by
   * `Pset_BuildingElementProxyCommon.Reference`) and `mechHits` (one list per needle).
   */
  method LexicalSeeds<Id(==)>(question: string, nameHits: seq<Id>, refHits: seq<Id>, mechHits: seq<seq<Id>>)
    returns (out: seq<Id>)
    ensures out == LexicalSpec(question, nameHits, refHits, mechHits)
  {
    var toks := Tokens(question);
    if |toks| == 0 {
      return [];
    }
    var ids := nameHits + refHits;
    if MechBias(question) {
      ids := AppendAll(ids, mechHits);
    } else {
      assert ids == ids + [];
    }
    var uniq := Seqs.DedupLoop(ids, Any, Identity);
    Seqs.FilterAllKept(ids, Any);
    out := Seqs.SliceTo(uniq, LexicalLimit);
  }

  /** `ids += hits` for each list of hits in turn. */
  method AppendAll<Id>(ids: seq<Id>, hits: seq<seq<Id>>) returns (r: seq<Id>)
    ensures r == ids + Seqs.Flatten(hits)
  {
    r := ids;
    for n := 0 to |hits|
      invariant r == ids + Seqs.Flatten(hits[..n])
    {
      assert hits[..n + 1][..n] == hits[..n];
      r := r + hits[n];
    }
    assert hits[..|hits|] == hits;
  }

  /**
   * The lexical seeds are at most 50 distinct ids, all found by the queries, in the order
   * first found; with no more than 50 distinct ids found (and some token), all are kept.
   */
  lemma LexicalSeedsSpec<Id>(question: string, nameHits: seq<Id>, refHits: seq<Id>, mechHits: seq<seq<Id>>)
    ensures |Tokens(question)| == 0 ==> LexicalSpec(question, nameHits, refHits, mechHits) == []
    ensures |LexicalSpec(question, nameHits, refHits, mechHits)| <= LexicalLimit
    ensures forall i, j | 0 <= i < j < |LexicalSpec(question, nameHits, refHits, mechHits)| ::
      LexicalSpec(question, nameHits, refHits, mechHits)[i] != LexicalSpec(question, nameHits, refHits, mechHits)[j]
    ensures forall x | x in LexicalSpec(question, nameHits, refHits, mechHits) :: x in Found(question, nameHits, refHits, mechHits)
    ensures |Tokens(question)| > 0 && |Seqs.Dedup(Found(question, nameHits, refHits, mechHits), Identity)| <= LexicalLimit ==>
      forall x | x in Found(question, nameHits, refHits, mechHits) :: x in LexicalSpec(question, nameHits, refHits, mechHits)
  {
    var found := Found(question, nameHits, refHits, mechHits);
    var d := Seqs.Dedup(found, Identity);
    Seqs.DedupDistinct(found, Identity);
    forall x | x in d ensures x in found {
      Seqs.DedupIn(found, Identity, x);
    }
    if |Tokens(question)| > 0 && |d| <= LexicalLimit {
      Seqs.DedupKeys(found, Identity);
      forall x | x in found ensures x in d {
        Seqs.KeysOfSpec(found, Identity, x);
        Seqs.KeysOfSpec(d, Identity, x);
      }
    }
  }

  // ---------------------------------------------------------------------------------------
  // Relationship filter.

  /** The relationship types the expansion follows, when the graph has them. */
  const DesiredRels := [
    "ASSIGNED_TO_SYSTEM", "CONTAINS", "CONNECTED_TO", "FEEDS",
    "HAS_PORT", "PORT_CONNECTED_TO", "AGGREGATES", "SAME_AS",
    "SAME_SYSTEM", "IN_SPACE", "IN_STOREY"
  ]

  /** `allowed`: the desired types present in the graph, in the desired order. */
  function Allowed(existing: seq<string>): seq<string> {
    Seqs.Filter(DesiredRels, r => r in existing)
  }

  /** `rel_filter`: the allowed types joined by `|`, or `.*` (anything) when none is present. */
  function RelFilter(existing: seq<string>): string {
    var allowed := Allowed(existing);
    if |allowed| > 0 then Text.Join("|", allowed) else ".*"
  }

  lemma {:induction false} JoinLength(sep: string, parts: seq<string>)
    requires |parts| > 0
    ensures |Text.Join(sep, parts)| >= |parts[0]|
  {
  }

  /**
   * A type is allowed exactly when it is desired and present, and the filter falls back
   * to "anything" exactly when no desired type is present.
   */
  lemma RelFilterSpec(existing: seq<string>, r: string)
    ensures r in Allowed(existing) <==> r in DesiredRels && r in existing
    ensures RelFilter(existing) == ".*" <==> forall d | d in DesiredRels :: d !in existing
  {
    Seqs.FilterIn(DesiredRels, d => d in existing, r);
    var allowed := Allowed(existing);
    if |allowed| > 0 {
      JoinLength("|", allowed);
      assert allowed[0] in allowed;
      Seqs.FilterIn(DesiredRels, d => d in existing, allowed[0]);
      assert allowed[0] in DesiredRels;
      assert |allowed[0]| >= 5;
    } else {
      forall d | d in DesiredRels ensures d !in existing {
        Seqs.FilterIn(DesiredRels, d => d in existing, d);
      }
    }
  }

  // ---------------------------------------------------------------------------------------
  // Neighbourhood.

  /** A node row: `{id, name, type, source, labels}`. */
  datatype NodeRec = NodeRec(id: Value, name: Value, ifcType: Value, source: Value, labels: seq<string>)

  /** An edge row: `{src, dst, type}`. */
  datatype EdgeRec = EdgeRec(src: Value, dst: Value, relType: Value)

  /** One record of the expansion query: the nodes and edges around one seed. */
  datatype Record = Record(nodes: seq<NodeRec>, edges: seq<EdgeRec>)

  /** The node rows of all records, in order. */
  function AllNodes(records: seq<Record>): seq<NodeRec>
    decreases |records|
  {
    if |records| == 0 then [] else AllNodes(records[..|records| - 1]) + records[|records| - 1].nodes
  }

  /** `edges`: the edge rows of all records, in order. */
  function AllEdges(records: seq<Record>): seq<EdgeRec>
    decreases |records|
  {
    if |records| == 0 then [] else AllEdges(records[..|records| - 1]) + records[|records| - 1].edges
  }

  function NodeAssignment(n: NodeRec): (Value, NodeRec) {
    (n.id, n)
  }

  function EdgeKey(e: EdgeRec): (Value, Value, Value) {
    (e.src, e.dst, e.relType)
  }

  /** `nodes`: the dict filled by `nodes[n["id"]] = n` over every node row. */
  function NodeTable(records: seq<Record>): PyDict.Dict<Value, NodeRec> {
    PyDict.PutAll([], PyDict.Assignments(AllNodes(records), Any, NodeAssignment))
  }

  /** `list(nodes.values())`. */
  function NodeList(records: seq<Record>): seq<NodeRec> {
    PyDict.Values(NodeTable(records))
  }

  /** `uniq`: the first edge of each (src, dst, type). */
  function EdgeList(records: seq<Record>): seq<EdgeRec> {
    Seqs.Dedup(AllEdges(records), EdgeKey)
  }

  method PutNodes(table: PyDict.Dict<Value, NodeRec>, ns: seq<NodeRec>) returns (r: PyDict.Dict<Value, NodeRec>)
    ensures r == PyDict.PutAll(table, PyDict.Assignments(ns, Any, NodeAssignment))
  {
    r := table;
    for j := 0 to |ns|
      invariant r == PyDict.PutAll(table, PyDict.Assignments(ns[..j], Any, NodeAssignment))
    {
      PyDict.PutAllAssignmentsStep(table, ns, j, Any, NodeAssignment);
      r := PyDict.Put(r, ns[j].id, ns[j]);
    }
    assert ns[..|ns|] == ns;
  }

  /**
   * `expand_neighborhood`: `existing` is the list of relationship types in the graph and
   * `records` what the expansion query returns for the seeds under `relFilter`.
   */
  method ExpandNeighborhood(existing: seq<string>, records: seq<Record>)
    returns (relFilter: string, nodes: seq<NodeRec>, edges: seq<EdgeRec>)
    ensures relFilter == RelFilter(existing)
    ensures nodes == NodeList(records)
    ensures edges == EdgeList(records)
  {
    relFilter := RelFilter(existing);
    var table: PyDict.Dict<Value, NodeRec> := [];
    var all: seq<EdgeRec> := [];
    for r := 0 to |records|
      invariant table == PyDict.PutAll([], PyDict.Assignments(AllNodes(records[..r]), Any, NodeAssignment))
      invariant all == AllEdges(records[..r])
    {
      assert records[..r + 1][..r] == records[..r];
      var before := AllNodes(records[..r]);
      PyDict.AssignmentsAppend(before, records[r].nodes, Any, NodeAssignment);
      PyDict.PutAllAppend([], PyDict.Assignments(before, Any, NodeAssignment),
        PyDict.Assignments(records[r].nodes, Any, NodeAssignment));
      table := PutNodes(table, records[r].nodes);
      all := all + records[r].edges;
    }
    assert records[..|records|] == records;
    nodes := PyDict.Values(table);
    edges := Seqs.DedupLoop(all, Any, EdgeKey);
    Seqs.FilterAllKept(all, Any);
  }

  /**
   * The node list has one node per id seen: the ids are distinct (below), each node is the
   * last row with its id, a later record's row replacing an earlier one (`NodeRowsLast`),
   * and every id among the rows is covered (`NodeIdsKept`).
   */
  lemma NodeIdsDistinct(records: seq<Record>)
    ensures forall i, j | 0 <= i < j < |NodeList(records)| :: NodeList(records)[i].id != NodeList(records)[j].id
  {
    var t := NodeTable(records);
    var ns := NodeList(records);
    PyDict.PutAllUnique([], PyDict.Assignments(AllNodes(records), Any, NodeAssignment));
    forall i | 0 <= i < |ns| ensures ns[i].id == t[i].0 {
      NodeAt(records, i);
    }
  }

  /** Each node of the list is the last row with its id. */
  lemma NodeRowsLast(records: seq<Record>)
    ensures forall i | 0 <= i < |NodeList(records)| :: exists p | 0 <= p < |AllNodes(records)| ::
      AllNodes(records)[p] == NodeList(records)[i] &&
      forall q | p < q < |AllNodes(records)| :: AllNodes(records)[q].id != NodeList(records)[i].id
  {
    PyDict.PutAllUnique([], PyDict.Assignments(AllNodes(records), Any, NodeAssignment));
    forall i | 0 <= i < |NodeList(records)|
      ensures exists p | 0 <= p < |AllNodes(records)| ::
        AllNodes(records)[p] == NodeList(records)[i] &&
        forall q | p < q < |AllNodes(records)| :: AllNodes(records)[q].id != NodeList(records)[i].id
    {
      NodeAt(records, i);
    }
  }

  /** Every id among the rows is the id of some node of the list. */
  lemma NodeIdsKept(records: seq<Record>)
    ensures forall n | n in AllNodes(records) :: exists m | m in NodeList(records) :: m.id == n.id
  {
    PyDict.PutAllUnique([], PyDict.Assignments(AllNodes(records), Any, NodeAssignment));
    forall n | n in AllNodes(records) ensures exists m | m in NodeList(records) :: m.id == n.id {
      NodeKept(records, n);
    }
  }

  /** The node at position `i` is stored under its own id, and is the last row with that id. */
  lemma NodeAt(records: seq<Record>, i: nat)
    requires PyDict.UniqueKeys(NodeTable(records))
    requires i < |NodeTable(records)|
    ensures NodeList(records)[i].id == NodeTable(records)[i].0
    ensures exists p | 0 <= p < |AllNodes(records)| ::
      AllNodes(records)[p] == NodeList(records)[i] &&
      forall q | p < q < |AllNodes(records)| :: AllNodes(records)[q].id != NodeList(records)[i].id
  {
    var t := NodeTable(records);
    PyDict.FindUnique(t, i);
    PyDict.AssignedLast(AllNodes(records), Any, NodeAssignment, t[i].0);
  }

  /** Every id among the rows is the id of some node in the list. */
  lemma NodeKept(records: seq<Record>, n: NodeRec)
    requires PyDict.UniqueKeys(NodeTable(records))
    requires n in AllNodes(records)
    ensures exists m | m in NodeList(records) :: m.id == n.id
  {
    var all := AllNodes(records);
    var t := NodeTable(records);
    var p :| 0 <= p < |all| && all[p] == n;
    assert Any(all[p]) && NodeAssignment(all[p]).0 == n.id;
    PyDict.AssignedLast(all, Any, NodeAssignment, n.id);
    PyDict.FindSpec(t, n.id);
    var i :| 0 <= i < |t| && t[i] == (n.id, PyDict.Find(t, n.id).value);
    NodeAt(records, i);
    assert NodeList(records)[i] in NodeList(records);
  }

  /**
   * The edge list keeps an edge exactly when no earlier edge has its (src, dst, type),
   * keeps every such key, and never repeats one.
   */
  lemma EdgeListSpec(records: seq<Record>, e: EdgeRec)
    ensures e in EdgeList(records) <==> exists i | 0 <= i < |AllEdges(records)| ::
      AllEdges(records)[i] == e && forall j | 0 <= j < i :: EdgeKey(AllEdges(records)[j]) != EdgeKey(e)
    ensures Seqs.KeysOf(EdgeList(records), EdgeKey) == Seqs.KeysOf(AllEdges(records), EdgeKey)
    ensures forall i, j | 0 <= i < j < |EdgeList(records)| :: EdgeKey(EdgeList(records)[i]) != EdgeKey(EdgeList(records)[j])
  {
    var all := AllEdges(records);
    Seqs.DedupIn(all, EdgeKey, e);
    Seqs.DedupKeys(AllEdges(records), EdgeKey);
    Seqs.DedupDistinct(AllEdges(records), EdgeKey);
  }

  // ---------------------------------------------------------------------------------------
  // Merged seeds and the evidence.

  /**
   * `merged_ids`: the lexical ids, then each vector id not among the lexical ids, cut to
   * `k`. The test reads the list before the vector ids are added to it, so a vector id that
   * occurs twice is kept twice.
   */
  function MergeSeeds<Id(==)>(lex: seq<Id>, vec: seq<Id>, k: int): seq<Id> {
    Seqs.SliceTo(lex + Seqs.Filter(vec, x => x !in lex), k)
  }

  /** `focus_seeds`: each merged id with score 1.0 when it is a lexical seed, else 0.0. */
  function Focus<Id(==)>(merged: seq<Id>, lex: seq<Id>): (r: seq<(Id, real)>)
    ensures |r| == |merged|
  {
    seq(|merged|, i requires 0 <= i < |merged| => (merged[i], if merged[i] in lex then 1.0 else 0.0))
  }

  /**
   * The merged seeds are a prefix of the lexical seeds followed by the vector seeds that
   * are not lexical, in order; the lexical seeds come first and score 1.0, the vector
   * seeds score 0.0; with `k >= 0` there are at most `k` of them.
   */
  lemma MergeSeedsSpec<Id>(lex: seq<Id>, vec: seq<Id>, k: int)
    ensures 0 <= k ==> |MergeSeeds(lex, vec, k)| <= k
    ensures forall i | 0 <= i < |MergeSeeds(lex, vec, k)| && i < |lex| :: MergeSeeds(lex, vec, k)[i] == lex[i]
    ensures forall i | |lex| <= i < |MergeSeeds(lex, vec, k)| ::
      MergeSeeds(lex, vec, k)[i] in vec && MergeSeeds(lex, vec, k)[i] !in lex
    ensures forall i | 0 <= i < |MergeSeeds(lex, vec, k)| ::
      Focus(MergeSeeds(lex, vec, k), lex)[i] == (MergeSeeds(lex, vec, k)[i], if i < |lex| then 1.0 else 0.0)
  {
    var v := Seqs.Filter(vec, x => x !in lex);
    var m := MergeSeeds(lex, vec, k);
    forall i | |lex| <= i < |m| ensures m[i] in vec && m[i] !in lex {
      assert m[i] == v[i - |lex|];
      assert v[i - |lex|] in v;
      Seqs.FilterIn(vec, x => x !in lex, m[i]);
    }
  }

  /** Lexical ids are not repeated among the vector ids, but a repeated vector id is. */
  lemma MergeKeepsVectorRepeats()
    ensures MergeSeeds(["a"], ["a", "b", "b"], DefaultTopK) == ["a", "b", "b"]
  {
    assert Seqs.Filter(["a", "b", "b"], x => x !in ["a"]) == ["b", "b"] by {
      assert ["a", "b", "b"][..2] == ["a", "b"];
      assert ["a", "b"][..1] == ["a"];
    }
  }

  /** What `build_evidence` returns. */
  datatype Evidence<Id> = Evidence(question: string, focus: seq<(Id, real)>, nodes: seq<NodeRec>, edges: seq<EdgeRec>)

  /**
   * `build_evidence`: `vecIds` are the vector-search hits already mapped to ids, the hit
   * lists feed `lexical_seeds`, and `existing` and `records` feed `expand_neighborhood`.
   */
  method BuildEvidence<Id(==)>(question: string, k: int, vecIds: seq<Id>,
                               nameHits: seq<Id>, refHits: seq<Id>, mechHits: seq<seq<Id>>,
                               existing: seq<string>, records: seq<Record>)
    returns (ev: Evidence<Id>)
    ensures ev.question == question
    ensures ev.focus == Focus(MergeSeeds(LexicalSpec(question, nameHits, refHits, mechHits), vecIds, k),
                              LexicalSpec(question, nameHits, refHits, mechHits))
    ensures ev.nodes == NodeList(records)
    ensures ev.edges == EdgeList(records)
  {
    var lex := LexicalSeeds(question, nameHits, refHits, mechHits);
    var merged := MergeSeeds(lex, vecIds, k);
    var _, nodes, edges := ExpandNeighborhood(existing, records);
    ev := Evidence(question, Focus(merged, lex), nodes, edges);
  }
}
