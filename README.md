# RIG ingest, IN_SPACE linking and RAG post-processing, in Dafny

This project models the core of RIG. RIG loads building models (IFC files and ifcJSON
exports of them) into a Neo4j property graph, links air terminals to the rooms they sit
in with `IN_SPACE` edges, and prepares a retrieval-augmented question answering step over
that graph. The model covers:

- the ingest scripts:
  - `ingest/ifc_to_neo4j.py`: IFC → graph, with nodes, property sets, placement Z and relationship edges;
  - `ingest/ifcjson_to_neo4j.py`: ifcJSON → nodes, then edges;
  - `ingest/ifcjson_edges.py`: ifcJSON → edges only;
  - `ingest/extract_elevations.py`: storey elevations and element Z read from ifcJSON placements;
  - `scripts/ifc_to_ifcjson_min.py`: the IFC → minimal ifcJSON converter whose output the loaders read back.
- the four `IN_SPACE` linkers:
  - `link_in_space_from_ifc.py`: container, then box containment, then nearest box center;
  - `link_in_space_from_two_ifc.py`: boxes from the architectural model, terminals from the mechanical model;
  - `link_in_space_by_placement.py`: nearest space placement in plan, gated by height and plan distance;
  - `link_in_space_db_driven.py`: candidate ids come from the graph, and the same gated search is used.
- the RAG post-processing:
  - `rag/query.py`: tokenising the question, lexical seeds, the relationship filter, de-duplicating the neighbourhood, merging seeds into evidence;
  - `rag/build_index.py`: the text card of each node.

The graph database is modelled by the `Graph` module:

- a `Store` class holds the nodes (a map from `globalId` to the labels and properties of the first node made for it), the set of typed edges, the labels of any second node a MERGE made for an id already present, and the error that ended the script;
- one function per Cypher statement shape gives what the statement does to a state: `MERGE` with `ON CREATE`/`ON MATCH`/`SET`, `MATCH … SET` with `coalesce` and `+=`, and `MATCH (a),(b) MERGE (a)-[:R]->(b)`;
- a node `MERGE` matches only a node with that `globalId` carrying every label of the pattern; otherwise it creates a node, a second one when the id is already taken by a node with other labels, and it never adds a label;
- a value Neo4j cannot store as a property (a map, or a list that is not of scalars of one kind) raises a Cypher type error: the statement changes nothing and the script ends;
- every script's `main` is a method on the store, proved equal to running its statement list.

Python semantics the scripts rely on are spelled out in shared modules:

- truthiness and `or` chains (`PyValue`);
- insertion-ordered dicts with last-assignment-wins (`PyDict`);
- `strip`, `lower`, `in` (`Text`);
- filtering, de-duplication and slicing (`Seqs`).

Some things are parameters or inputs rather than computed:

- `str()` of floats and `float()` of strings are carried as a parameter `py`;
- everything read from ifcopenshell (entities, attributes, `get_psets`, geometry vertices, world origins, containers) is input data;
- database query results (the rows the RAG queries return) are inputs;
- the vector search results are inputs.

Identical helpers that several scripts copy are defined once:

- `cmms_label` in `IfcIngest`;
- `ref_id` in `JsonIngest`;
- `first`/`g` and `load_instances` in `Elevations`;
- box, center, containment and nearest search in `Spatial`;
- the candidate list and the `IN_SPACE` statement in `InSpace`.

## Model

| member | source | states |
|---|---|---|
| Graph.SetProp | ingest/ifc_to_neo4j.py:98 | `SET n.k = v` stores v under k, and a null removes k; every other property is unchanged |
| Graph.FillProp | ingest/ifc_to_neo4j.py:124 | `SET n.k = coalesce(n.k, v)` never replaces an existing value and sets v when k is absent |
| Graph.Store.constructor | ingest/ifc_to_neo4j.py:86-87 | a fresh store is empty and valid |
| Graph.Store.MergeNode | ingest/ifc_to_neo4j.py:110-115 | a node MERGE on labels and globalId changes the store as `Step` says: ON MATCH and SET on a node carrying every label, otherwise a new node (a second one beside a node with other labels), or a type error that changes nothing |
| Graph.Store.MatchAndSet | ingest/ifc_to_neo4j.py:122-126 | `MATCH … SET … SET n += m` changes the store as `Step` says: only the matched node's properties, or a type error for a value Neo4j cannot store |
| Graph.Store.MergeEdge | ingest/ifc_to_neo4j.py:168 | an edge MERGE changes the store as `Step` says: only the edge set, by `EdgeMerged` |
| Graph.Store.Run | ingest/ifc_to_neo4j.py:87-219 | running statements one after another in a session gives the state `Exec` computes |
| Graph.ExecAppend | ingest/ifc_to_neo4j.py:87-219 | running two batches in turn is running their concatenation |
| Graph.ExecFailed | ingest/ifc_to_neo4j.py:87-219 | once a statement has raised, no later statement changes anything |
| Graph.RanAll | ingest/ifcjson_to_neo4j.py:144-152 | a batch that ends without error ran every statement |
| Graph.RanStops | ingest/ifcjson_to_neo4j.py:144-152 | statements after the one that raised add nothing to the count of those that ran |
| Graph.ExecGrows | ingest/ifc_to_neo4j.py:160-219 | no statement removes a node, an edge or a second node, or relabels a node; every edge joins two existing nodes; after an error nothing changes |
| Graph.EdgeMergeCount | ingest/ifc_to_neo4j.py:168 | an edge is added exactly when both endpoints exist and it is not there yet; a second MERGE adds nothing |
| Graph.MergeNodeOutcome | ingest/ifc_to_neo4j.py:110-115 | a node MERGE either raises and changes nothing, or leaves a node with the id carrying every label (the first node, or a second one), keeps the edges and the first node's labels, and adds a second node exactly when the id is taken by a node lacking a label and no second node has them all |
| Graph.MergePropsAt | ingest/ifc_to_neo4j.py:125 | after `SET n += m`, a key shows the last value m gives it (a null removes it), else the old value |
| Graph.MergePropsIdempotent | ingest/ifc_to_neo4j.py:125 | `SET n += m` twice is `SET n += m` once |
| Graph.MatchSetOne | ingest/extract_elevations.py:199 | `MATCH (n:L {globalId:id}) SET n.k = v` changes at most key k of that one node, and nothing when the label is missing |
| Graph.AppliedHolds | ingest/ifc_to_neo4j.py:112-114 | after a SET clause with distinct keys, each of its items holds |
| Graph.MergeNodeIdempotent | ingest/ifc_to_neo4j.py:110-115 | re-issuing a well-formed node MERGE changes nothing |
| Graph.MatchSetIdempotent | ingest/ifc_to_neo4j.py:122-126 | re-issuing `MATCH … SET … SET n += m` changes nothing when the keys are apart |
| Graph.MergeEdgeIdempotent | ingest/ifc_to_neo4j.py:168 | re-issuing an edge MERGE changes nothing, so there are no duplicate edges |
| Graph.EdgeOnlyExec | ingest/ifcjson_edges.py:39-40 | a batch of edge merges keeps the nodes and adds exactly the edges whose endpoints exist, and nothing after an error |
| Graph.EdgeOnlyIdempotent | ingest/ifcjson_edges.py:39-40 | re-running a batch of edge merges adds nothing |
| Graph.SafeNeverFails | ingest/ifc_to_neo4j.py:87-219 | a batch whose statements write only values Neo4j stores raises nothing |
| Graph.NoMergeNoNode | ingest/ifc_to_neo4j.py:110-115 | a batch with no MERGE for an id makes no node for it |
| Graph.NoSecondNode | ingest/ifc_to_neo4j.py:110-115 | when every MERGE on an id asks for no label the node made first lacks, no second node is made, and every node is an old one with its labels or one made by a MERGE of the batch with its labels |
| IfcIngest.CmmsLabelRange | ingest/ifc_to_neo4j.py:19-24 | the label is the class itself or one of IfcSystem / IfcDistributionElement / IfcElement; spatial classes keep their own name |
| IfcIngest.CmmsLabelIdempotent | ingest/ifc_to_neo4j.py:19-24 | labelling a label changes nothing |
| IfcIngest.NameOf | ingest/ifc_to_neo4j.py:26-30 | a falsy Name gives "", and a string Name is stripped |
| IfcIngest.NameOfBlank | ingest/ifc_to_neo4j.py:26-30 | a string name reads as "" exactly when it is blank |
| IfcIngest.HopsBounded | ingest/ifc_to_neo4j.py:38-45 | the walk visits at most 64 placements, and a cycle uses all 64 steps |
| IfcIngest.TwoCycle | ingest/ifc_to_neo4j.py:32-48 | without a visited set, a two-placement cycle sums both lifts n times in 2n steps |
| IfcIngest.ZFromLocalPlacement | ingest/ifc_to_neo4j.py:32-48 | the loop returns the sum of the Z lifts of at most 64 placements up the chain |
| IfcIngest.ZOf | ingest/ifc_to_neo4j.py:50-56 | only a local placement has a Z, and it is that chain's sum |
| IfcIngest.PropValue | ingest/ifc_to_neo4j.py:69-74 | each stored value is a scalar: a scalar stays as it is, a wrapper is unwrapped, anything else becomes its `str` |
| IfcIngest.FlattenPsets | ingest/ifc_to_neo4j.py:63-75 | the loop computes `Flatten` |
| IfcIngest.FlattenKeys | ingest/ifc_to_neo4j.py:63-75 | the keys are exactly `pset.prop` for the dict-valued psets |
| IfcIngest.FlattenScalar | ingest/ifc_to_neo4j.py:69-74 | every flattened value is a str, int, float, bool or None |
| IfcIngest.FlatKeysApart | ingest/ifc_to_neo4j.py:68 | every flattened key contains '.', so none is `psets_json` |
| IfcIngest.FlattenUnique | ingest/ifc_to_neo4j.py:64-70 | the flattened dict has one entry per key |
| IfcIngest.UniqueLast | ingest/ifc_to_neo4j.py:125 | for the flattened dict, the value `SET n += $flat` leaves is the one stored under the key |
| IfcIngest.FlattenStorable | ingest/ifc_to_neo4j.py:63-75 | Neo4j stores every value of the flattened dict, so `SET n += $flat` never raises |
| IfcIngest.Ingest | ingest/ifc_to_neo4j.py:87-219 | `main` leaves the store as running every statement in order does: storeys, elements, spaces, then relationships (see IngestNeverFails and SystemSubtypeSplits for what that state is) |
| IfcIngest.ElementUpsert | ingest/ifc_to_neo4j.py:110-115 | on a new id, or a node carrying all three labels: no error, no second node, labels kept; a new node gets name, type and source; a matched one keeps its name, gets its type overwritten, and gets a source only when it had none; z is written only from a local placement |
| IfcIngest.ElementSecondNode | ingest/ifc_to_neo4j.py:110-115 | on an id whose node lacks one of the element's labels, the MERGE leaves that node alone and makes a second node with the element's labels, unless one exists |
| IfcIngest.IngestSafe | ingest/ifc_to_neo4j.py:87-219 | every statement `main` issues writes only values Neo4j stores, given storable LongNames |
| IfcIngest.IngestNeverFails | ingest/ifc_to_neo4j.py:87-219 | `main` raises no Cypher type error, given storable LongNames |
| IfcIngest.NotSystemLabels | ingest/ifc_to_neo4j.py:19-24 | an element type that does not start with IfcSystem gets no IfcSystem label |
| IfcIngest.SystemSubtypeSplits | ingest/ifc_to_neo4j.py:101-115 | an element whose type is not IfcSystem* (an IFC4 IfcDistributionSystem, say) with the GlobalId of a group ends as its own node with the element's labels and no IfcSystem label, and the group's MERGE at lines 184-187 makes a second node labelled IfcEntity:IfcSystem for the same id |
| IfcIngest.ElementIdempotent | ingest/ifc_to_neo4j.py:110-115 | re-running an element's upsert leaves the graph as the first run left it |
| IfcIngest.PsetsWrite | ingest/ifc_to_neo4j.py:122-126 | `psets_json` is filled only when absent, every flattened key takes its value (None removes it), and re-running changes nothing |
| IfcIngest.BothWaysEdges | ingest/ifc_to_neo4j.py:202-219 | port and element connections add both directions when both endpoints exist, and neither otherwise |
| IfcIngest.HasPortDirection | ingest/ifc_to_neo4j.py:194-200 | HAS_PORT is written only for two non-empty ids, and runs from the element to the port |
| IfcIngest.FanOutEdges | ingest/ifc_to_neo4j.py:162-176 | a containment or aggregation edge runs from the relating entity to each non-empty related id, and there are no others |
| IfcIngest.IngestSplit | ingest/ifc_to_neo4j.py:89-219 | `main` runs the entity passes (storeys, elements, spaces) first and the relationship passes after them |
| IfcIngest.RelationStmt | ingest/ifc_to_neo4j.py:160-219 | a relationship pass writes edges without endpoint labels, and touches a node only through a group's `MERGE (sys:IfcEntity:IfcSystem)` |
| IfcIngest.EntityStmt | ingest/ifc_to_neo4j.py:89-157 | every statement of the entity passes is a storey, element or space MERGE or the pset write of an element or space with a non-empty GlobalId |
| IfcIngest.NodeOrigin | ingest/ifc_to_neo4j.py:95-187 | a node statement of `main` writes `elev` (storey), a subset of `type`, `source`, `z` (element), `longName` (space), nothing (group), or `psets_json` and dotted keys (pset write) |
| IfcIngest.NodePairApart | ingest/ifc_to_neo4j.py:95-187 | two node statements on one GlobalId are equal or write disjoint properties, when each GlobalId names one record |
| IfcIngest.EdgeAnchored | ingest/ifc_to_neo4j.py:160-219 | no node an edge names is first created after that edge, when every group's GlobalId is already a node or an entity of the file |
| IfcIngest.IngestRerunnable | ingest/ifc_to_neo4j.py:89-219 | `main`'s statements meet every condition under which a second run changes nothing |
| IfcIngest.IngestTwice | ingest/ifc_to_neo4j.py:89-219 | with labels agreeing, one record per GlobalId and groups placed, `main` makes no second node, and running it again on the graph it left changes nothing |
| Rerun.DoneSettled | ingest/ifc_to_neo4j.py:95-126 | a MERGE or MATCH ... SET whose effect already holds leaves the graph unchanged: ON MATCH and SET rewrite the values already there, coalesce keeps them |
| Rerun.StepDone | ingest/ifc_to_neo4j.py:95-126 | after a well-formed MERGE or MATCH ... SET succeeds, its effect holds: the node exists, its SET and ON MATCH values are stored, or a second node has the labels |
| Rerun.KeepDone | ingest/ifc_to_neo4j.py:95-219 | a later statement does not undo an effect that holds, unless it writes the same key of the same node with a different statement, or creates an edge's endpoint later |
| Rerun.AllDoneExec | ingest/ifc_to_neo4j.py:89-219 | when every statement's effect holds, running the batch changes nothing |
| Rerun.ExecTwice | ingest/ifc_to_neo4j.py:89-219 | a batch whose same-node writes are equal or apart, whose MATCH ... SETs follow their MERGE and whose edge endpoints are never created later gives the same graph and error when run twice |
| Elevations.FindFirstSpec | ingest/extract_elevations.py:14-15 | the first listed key present at top level is found, or nothing when none is present |
| Elevations.FirstSpec | ingest/extract_elevations.py:13-19 | given a dict or falsy `attributes`, `first` returns the first top-level key present (even a None value), and looks in `attributes` only when no key is at top level |
| Elevations.NonDictAttrsSpec | ingest/extract_elevations.py:16-18 | the `attributes` loop over a truthy value that is not a dict raises TypeError exactly when some key makes `k in a` or `a[k]` raise, and otherwise finds nothing |
| Elevations.FirstRaises | ingest/extract_elevations.py:13-19 | `first` raises TypeError exactly when no key is at top level, `attributes` is truthy and not a dict, and some key makes `k in a` or `a[k]` raise; in every other case it returns what First gives |
| Elevations.AsFloatPrimitive | ingest/extract_elevations.py:21-27 | int and float convert, a blank string gives None, and a non-scalar gives None |
| Elevations.AsNumberList | ingest/extract_elevations.py:35-44 | on a list, the result is the first element that coerces, and None when none does |
| Elevations.AsNumberDict | ingest/extract_elevations.py:45-55 | on a dict, the result is the first of value/Value/nominalValue/NominalValue that coerces, and None when an x/y/z key is present instead |
| Elevations.DerefSpec | ingest/extract_elevations.py:69-79 | a string or a ref/$ref/Ref/REF dict is looked up (None when dangling); a plain dict is itself; anything else is None |
| Elevations.CoercedSpec | ingest/extract_elevations.py:85-86 | the kept values are exactly those `as_number` gives, and the list is empty only when nothing coerces |
| Elevations.CoordsFromPoint | ingest/extract_elevations.py:81-98 | the coordinates are never an empty list |
| Elevations.CoordsSpec | ingest/extract_elevations.py:81-98 | for a list, None exactly when nothing coerces; each coordinate is an entry's `as_number`; a value that is neither list nor dict gives None |
| Elevations.ZFromLocalPlacement | ingest/extract_elevations.py:100-127 | the loop's total is the sum of Z over the walked placements, so the result is always a number |
| Elevations.WalkStops | ingest/extract_elevations.py:105 | the walk adds nothing once the current value is not a dict or 64 steps were made |
| Elevations.WalkStep | ingest/extract_elevations.py:105-125 | one iteration adds nothing more at an id already seen, and otherwise the current placement's Z and then the rest of the chain, which adds nothing when there is no parent |
| Elevations.WalkBounded | ingest/extract_elevations.py:105 | at most 64 placements contribute |
| Elevations.WalkDistinct | ingest/extract_elevations.py:106-111 | no placement id is visited twice |
| Elevations.ZFromObjectPlacement | ingest/extract_elevations.py:129-133 | None exactly when ObjectPlacement does not dereference to a dict |
| Elevations.LoadInstances | ingest/extract_elevations.py:135-141 | "objects", then "instances", then an all-dict document, else an error |
| Elevations.ElementIdsOf | ingest/extract_elevations.py:160-169 | every child id comes from some related element |
| Elevations.Containment | ingest/extract_elevations.py:148-158 | only IfcRelContainedInSpatialStructure records contribute, and their structure id is non-empty |
| Elevations.StructureWithoutId | ingest/extract_elevations.py:154 | a structure dict without any id key gets the id "None", from `str(None)` |
| Elevations.ChildrenOfAppend | ingest/extract_elevations.py:170 | children accumulate across relations with the same structure id |
| Elevations.IndexStep | ingest/extract_elevations.py:170 | `setdefault(sid, []).extend(arr)` adds one containment to the index |
| Elevations.NonEmptyChildren | ingest/extract_elevations.py:170 | an id has children only when some relation names it |
| Elevations.BuildSpatialIndex | ingest/extract_elevations.py:143-171 | the index maps each structure id to its child ids in relation order |
| Elevations.StoreyElevationChoice | ingest/extract_elevations.py:192-198 | only storeys get an elevation; the attribute wins over the placement, and there is none only without a placement dict |
| Elevations.ApplyWritesOnly | ingest/extract_elevations.py:199 | the writes create no node, change no label, and touch only that key on nodes carrying the label |
| Elevations.SetStoreyElevations | ingest/extract_elevations.py:190-200 | pass 1 writes `elev` on every storey with a known elevation and counts the writes |
| Elevations.SetElementZ | ingest/extract_elevations.py:203-208 | pass 2 writes `z` on every node whose record has a placement Z and counts the writes |
| Elevations.ElementZ | ingest/extract_elevations.py:204-205 | the Z pass 2 reads for a record is its placement Z, and nothing for a record that is not a dict |
| Elevations.ElementWrites | ingest/extract_elevations.py:203-208 | the pairs pass 2 writes are exactly `Writes` over the table, in table order |
| Elevations.StoreWrites | ingest/extract_elevations.py:206-208 | issuing the SET statements in turn leaves the store as `ApplyWrites` says, with edges untouched |
| JsonIngest.RefId | ingest/ifcjson_to_neo4j.py:29-39 | a string is its own id; None, scalars and the empty list give None |
| JsonIngest.RefIdDict | ingest/ifcjson_to_neo4j.py:34-35 | a dict's id is its first truthy ref/id/GlobalId key, else its `globalId` value |
| JsonIngest.FirstTextSpec | ingest/ifcjson_to_neo4j.py:42-45 | the first key holding a non-blank string is found, or nothing when none does |
| JsonIngest.GetNameSpec | ingest/ifcjson_to_neo4j.py:41-52 | the name is "" exactly when no listed key at either level holds a non-blank string; otherwise it is the first such key's string, stripped |
| JsonIngest.GetTypeSpec | ingest/ifcjson_to_neo4j.py:54-60 | the type is never falsy: the first typed key's string, else `schema`, else "Unknown" |
| JsonIngest.CleanVal | ingest/ifcjson_to_neo4j.py:101-105 | scalars are kept, and anything else becomes its `str()` |
| JsonIngest.CopyDirect | ingest/ifcjson_to_neo4j.py:70-77 | the direct-map loop computes `DirectFrom` |
| JsonIngest.CollectCandidates | ingest/ifcjson_to_neo4j.py:79-88 | the candidate loops compute `Candidates`, and a truthy non-dict `attributes` raises AttributeError |
| JsonIngest.GatherLists | ingest/ifcjson_to_neo4j.py:80-83 | one gathering loop extends the candidates with each listed key's value exactly when it is a list, keys in order |
| JsonIngest.AddProps | ingest/ifcjson_to_neo4j.py:92-98 | the inner loop computes `PutProps` |
| JsonIngest.AddSets | ingest/ifcjson_to_neo4j.py:89-98 | the outer loop computes `PutSets` |
| JsonIngest.CleanAll | ingest/ifcjson_to_neo4j.py:100-105 | the cleaning loop computes `CleanFrom` |
| JsonIngest.ExtractPsets | ingest/ifcjson_to_neo4j.py:62-106 | `extract_psets` computes `Psets` |
| JsonIngest.PsetsFail | ingest/ifcjson_to_neo4j.py:79-98 | `extract_psets` raises exactly when `attributes` is truthy but not a dict, or some candidate set is malformed: not a dict, holding a non-dict property, or an unnamed set holding a property whose name is a list or dict |
| JsonIngest.PsetsScalar | ingest/ifcjson_to_neo4j.py:99-106 | every extracted value is a str, int, float, bool or None, and the keys are those collected |
| JsonIngest.StrKeys | ingest/ifcjson_to_neo4j.py:144-151 | the driver takes the psets dict only when every key is a string, and then with the same entries in order |
| JsonIngest.Pass1Counts | ingest/ifcjson_to_neo4j.py:135-152 | pass 1 issues at most one node MERGE per dict record, and one per dict record when no Python error stopped it |
| JsonIngest.Pass1Prefix | ingest/ifcjson_to_neo4j.py:135-152 | the statements pass 1 issues for a prefix of the records begin the statements for all of them |
| JsonIngest.NodeCreateRaises | ingest/ifcjson_to_neo4j.py:144-147 | creating a node raises, because ON CREATE writes the psets map |
| JsonIngest.NodeMatchFields | ingest/ifcjson_to_neo4j.py:148-150 | ON MATCH raises nothing, always sets the type, keeps a name the node has, and leaves psets as they were |
| JsonIngest.Pass1Refused | ingest/ifcjson_to_neo4j.py:135-152 | every MERGE pass 1 issues raises whenever it has to create its node |
| JsonIngest.EmptyGraphRaises | ingest/ifcjson_to_neo4j.py:135-152 | on an empty database the first MERGE raises, so nothing is written and none is counted |
| JsonIngest.NodeMergeFields | ingest/ifcjson_to_neo4j.py:144-151 | a node carrying the record's labels keeps a name it has, always gets the type, and keeps its psets, with no error; a second node already made is left alone; any other record (a new node) raises the type error the psets map causes |
| JsonIngest.NodeMergeIdempotent | ingest/ifcjson_to_neo4j.py:144-151 | re-issuing a record's node MERGE changes nothing |
| JsonIngest.NodeMergeWellFormed | ingest/ifcjson_to_neo4j.py:144-151 | ON MATCH only repeats the type ON CREATE sets and fills in the name ON CREATE sets to a string, with no key assigned twice |
| JsonIngest.LinkIn | ingest/ifcjson_to_neo4j.py:170-214 | a relation issues exactly one edge per related item with a truthy id, in the direction of its relationship |
| JsonIngest.RelDirections | ingest/ifcjson_to_neo4j.py:154-214 | only `IfcRel*` records give edges; ASSIGNED_TO_SYSTEM runs element → group and SERVICES runs system → building |
| JsonIngest.NodePass | ingest/ifcjson_to_neo4j.py:134-152 | pass 1 leaves the store as its MERGEs run in order leave it; `created` counts those that ran before Neo4j raised; the error is Neo4j's, else the Python one; without error every dict record was counted |
| JsonIngest.NodePassEnd | ingest/ifcjson_to_neo4j.py:134-152 | when the loop stops early, on a Neo4j or a Python error, the rest of the records change nothing and count nothing |
| JsonIngest.EdgePass | ingest/ifcjson_to_neo4j.py:154-214 | pass 2 issues the edges of every record, in order |
| JsonIngest.Ingest | ingest/ifcjson_to_neo4j.py:121-215 | a load error issues nothing; otherwise pass 1 runs, counted as in NodePass, and then pass 2 unless pass 1 raised in Python or in Neo4j |
| JsonEdges.MergeRelEffect | ingest/ifcjson_edges.py:39-40 | `merge_rel` adds the edge only when both endpoints exist, and never a duplicate |
| JsonEdges.Kids | ingest/ifcjson_edges.py:66 | a list stays as it is, a truthy single value becomes a one-item list, and a falsy value gives [] |
| JsonEdges.MergeEdges | ingest/ifcjson_edges.py:54-127 | the loop issues every record's `merge_rel` calls and counts each call |
| JsonEdges.Ingest | ingest/ifcjson_edges.py:42-127 | a load error issues nothing; otherwise the records' edges are merged |
| JsonEdges.CreatedCountsCalls | ingest/ifcjson_edges.py:52-127 | `created` is the number of calls issued, and every call is an edge merge |
| JsonEdges.RelCallsEdges | ingest/ifcjson_edges.py:61-127 | every relation branch issues `merge_rel` edge calls and nothing else |
| JsonEdges.RerunAddsNothing | ingest/ifcjson_edges.py:54-127 | a second run issues and counts the same calls but adds no edge |
| JsonEdges.ConnectionsBothWays | ingest/ifcjson_edges.py:113-127 | port and element connections are written in both directions |
| JsonEdges.HasPortDirection | ingest/ifcjson_edges.py:107-111 | HAS_PORT runs from the element to the port, for the `_` variant too |
| JsonEdges.PortToElementBranch | ingest/ifcjson_edges.py:107-111 | a port-to-element record, `_` variant included, gives one HAS_PORT call from the element to the port when both ids are truthy, and none otherwise |
| JsonEdges.PortsBranch | ingest/ifcjson_edges.py:113-119 | a port connection, `_` variant included, gives the two directed PORT_CONNECTED_TO calls when both ids are truthy |
| JsonEdges.ElementsBranch | ingest/ifcjson_edges.py:121-127 | an element connection, `_` variant included, gives the two directed CONNECTED_TO calls when both ids are truthy |
| JsonEdges.SingleRelated | ingest/ifcjson_edges.py:61-104 | a single truthy related value gives exactly one call, and a falsy one gives none |
| JsonEdges.OnlyRelations | ingest/ifcjson_edges.py:57-59 | only records whose type starts with "IfcRel" issue calls |
| IfcJsonWriter.Sv | scripts/ifc_to_ifcjson_min.py:9-19 | the result is `wrappedValue`, else `value`, else the value itself |
| IfcJsonWriter.SvIdempotent | scripts/ifc_to_ifcjson_min.py:9-19 | unwrapping twice is unwrapping once |
| IfcJsonWriter.NameCandidate | scripts/ifc_to_ifcjson_min.py:22-28 | a candidate is non-empty and has no space at either end |
| IfcJsonWriter.GetName | scripts/ifc_to_ifcjson_min.py:21-29 | the stripped Name, else the stripped LongName, else "" |
| IfcJsonWriter.FirstName | scripts/ifc_to_ifcjson_min.py:21-29 | the Name candidate wins when present, the LongName candidate otherwise, and "" exactly when neither is present |
| IfcJsonWriter.KeepScalar | scripts/ifc_to_ifcjson_min.py:44-49 | a scalar or None is kept, and anything else becomes its `str()` |
| IfcJsonWriter.ExtractPsets | scripts/ifc_to_ifcjson_min.py:31-50 | the loops compute `Psets` in `IsDefinedBy` / `HasProperties` order |
| IfcJsonWriter.PsetWritesStep | scripts/ifc_to_ifcjson_min.py:33-50 | one more `IsDefinedBy` relation appends exactly its own property writes |
| IfcJsonWriter.AddProps | scripts/ifc_to_ifcjson_min.py:41-49 | the inner loop applies one property set's assignments |
| IfcJsonWriter.PsetsScalar | scripts/ifc_to_ifcjson_min.py:45-49 | every value returned is a str, int, float, bool or None |
| IfcJsonWriter.PropWritesFrom | scripts/ifc_to_ifcjson_min.py:41-49 | exactly the single-value properties make assignments |
| IfcJsonWriter.PsetWritesFrom | scripts/ifc_to_ifcjson_min.py:33-49 | every assignment comes from a single-value property of a property set reached through IfcRelDefinesByProperties, and each such property makes one |
| IfcJsonWriter.RefRoundTrip | scripts/ifc_to_ifcjson_min.py:52-53 | `ref_id` of the loaders recovers the GlobalId `ref` wrote, and None from `{}` |
| IfcJsonWriter.Refs | scripts/ifc_to_ifcjson_min.py:97 | the list comprehension gives `ref` of each item, in order |
| IfcJsonWriter.AttributeKeys | scripts/ifc_to_ifcjson_min.py:72-83 | only ports get FlowDirection/PredefinedType, every entity has at most four attributes, and a truthy ObjectType is stored unwrapped |
| IfcJsonWriter.Convert | scripts/ifc_to_ifcjson_min.py:55-139 | the output is `json.dumps` of pass 1 followed by pass 2 |
| IfcJsonWriter.PutEntities | scripts/ifc_to_ifcjson_min.py:60-84 | pass 1 assigns every entity with a GlobalId, in file order |
| IfcJsonWriter.PutRel | scripts/ifc_to_ifcjson_min.py:87-92 | every relation of one type with a GlobalId replaces the entry under that id |
| IfcJsonWriter.PutRels | scripts/ifc_to_ifcjson_min.py:95-136 | the `put_rel` calls, one relation type after another, apply exactly the relation writes in that order |
| IfcJsonWriter.Pass1Entries | scripts/ifc_to_ifcjson_min.py:60-84 | a key exists exactly for each non-empty GlobalId, holding the entry of the last entity with it |
| IfcJsonWriter.RelationsReplace | scripts/ifc_to_ifcjson_min.py:92 | a relation written in pass 2 replaces whatever pass 1 stored under its id |
| IfcJsonWriter.DumpFieldsKeys | scripts/ifc_to_ifcjson_min.py:137-139 | the dumped mapping has the same keys in the same order, each with its entry's JSON |
| IfcJsonWriter.DumpsFails | scripts/ifc_to_ifcjson_min.py:139 | `json.dumps` fails exactly when some attribute still holds an entity instance |
| IfcJsonWriter.LoadBack | scripts/ifc_to_ifcjson_min.py:137-139 | `load_instances` of the loaders reads back exactly the written mapping, in order |
| IfcJsonWriter.EntityJsonShape | scripts/ifc_to_ifcjson_min.py:65-70 | an entity entry has type, Name, attributes and psets, in that order |
| IfcJsonWriter.RelFieldsLookup | scripts/ifc_to_ifcjson_min.py:92 | a relation entry holds its type, its relating `ref` and its related value |
| IfcJsonWriter.ReadType | scripts/ifc_to_ifcjson_min.py:92 | the loaders read a written relation's type as its relation type |
| IfcJsonWriter.PortsReadBack | scripts/ifc_to_ifcjson_min.py:125-128 | the edge loader reads a written port connection as the two directed PORT_CONNECTED_TO merges |
| IfcJsonWriter.PortToElementReadBack | scripts/ifc_to_ifcjson_min.py:119-122 | the edge loader reads a written port-to-element relation as HAS_PORT from the element to the port |
| IfcJsonWriter.ContainmentReadBack | scripts/ifc_to_ifcjson_min.py:95-98 | the edge loader reads a written containment as one CONTAINS merge per related element that has a GlobalId, and no other |
| IfcJsonWriter.ContainmentCalls | scripts/ifc_to_ifcjson_min.py:95-98 | the edge loader reads a written containment as `link` from the structure to the written refs of the related elements |
| IfcJsonWriter.LinkRefsIn | scripts/ifc_to_ifcjson_min.py:95-98 | `link` over the written refs merges from the parent to each target with a GlobalId, and to no other |
| Seqs.DedupLoop | ingest/link_in_space_from_ifc.py:98-104 | the `seen` loop keeps each kept item whose key was not seen before |
| Seqs.DedupIn | rag/query.py:77-82 | an item is kept exactly when it occurs and no earlier item has its key |
| Seqs.DedupDistinct | rag/query.py:77-82 | no two kept items share a key |
| Seqs.DedupKeys | rag/query.py:118-122 | de-duplication keeps every key, and only the keys it was given |
| Seqs.DedupIdempotent | rag/query.py:118-122 | de-duplicating twice changes nothing |
| Seqs.DedupCovers | ingest/link_in_space_from_ifc.py:98-104 | every key of the input is the key of some kept item |
| Seqs.SliceTo | rag/query.py:82 | `xs[:n]`, where a negative n counts from the end |
| PyDict.Put | rag/query.py:114 | `d[k] = v` gives k the value v, leaves other keys alone, and appends a new key at the end |
| PyDict.AssignedLast | ingest/link_in_space_db_driven.py:24-27 | after a loop of assignments, a key is present exactly when some item assigned it, with the last such value |
| PyDict.Values | rag/query.py:124 | `list(d.values())` in insertion order |
| PyValue.OrGetSpec | ingest/ifcjson_to_neo4j.py:163-168 | an `or` chain of lookups yields the first truthy value, else the last value looked up |
| Text.StripEmptyIffBlank | ingest/ifcjson_to_neo4j.py:44 | `s.strip()` is empty exactly when s is blank |
| Spatial.ColumnSpec | ingest/link_in_space_from_ifc.py:32 | `vs[off::3]` holds exactly the coordinates at positions off, off + 3, and so on |
| Spatial.MinOf | ingest/link_in_space_from_ifc.py:33 | `min` is an element no larger than any other |
| Spatial.MaxOf | ingest/link_in_space_from_ifc.py:33 | `max` is an element no smaller than any other |
| Spatial.Aabb | ingest/link_in_space_from_ifc.py:30-33 | there is a box exactly when there are at least three coordinates |
| Spatial.AabbBounds | ingest/link_in_space_from_ifc.py:30-33 | the box holds every vertex, has min <= max on each axis, and each bound is some vertex's coordinate |
| Spatial.CenterInside | ingest/link_in_space_from_ifc.py:35-44 | the center of a box lies in it, even with no tolerance |
| Spatial.ContainsMonotone | ingest/link_in_space_from_ifc.py:39-44 | larger tolerances never turn a hit into a miss |
| Spatial.DefaultsWiden | ingest/link_in_space_from_ifc.py:39-44 | the defaults accept a point up to 0.10 outside in plan and 1.0 in height, and reject one 0.2 outside in plan |
| Spatial.Dist2 | ingest/link_in_space_from_ifc.py:133 | a squared distance is never negative |
| Spatial.Nearest | ingest/link_in_space_from_ifc.py:130-136 | the running minimum never exceeds 1e99, and is 1e99 when nothing is chosen |
| Spatial.NearestFound | ingest/link_in_space_from_ifc.py:130-136 | the chosen candidate is a minimum, below 1e99, and strictly nearer than every earlier candidate (the first minimum wins) |
| Spatial.NearestNone | ingest/link_in_space_from_ifc.py:130-136 | nothing is chosen exactly when every candidate is gated out or at least 1e99 away |
| Spatial.CenterDists | ingest/link_in_space_from_ifc.py:131-133 | the distances are those from the point to each box center, in dict order |
| Spatial.NearestCenter | ingest/link_in_space_from_ifc.py:129-136 | the fallback loop returns the running minimum over the box centers |
| Spatial.PlanDist2 | ingest/link_in_space_by_placement.py:90-91 | a squared plan distance is never negative |
| Spatial.GatedDist2 | ingest/link_in_space_by_placement.py:88-93 | a space is skipped exactly when its height differs by more than z_tol, or when xy_max > 0 and it is beyond xy_max in plan |
| Spatial.GatedNearest | ingest/link_in_space_by_placement.py:83-96 | `nearest_space` returns the running minimum over the spaces that pass both gates |
| Spatial.GatedNearestSound | ingest/link_in_space_by_placement.py:83-96 | the space returned passes both gates, and no space passing them is strictly nearer in plan |
| Spatial.FirstHitSpec | ingest/link_in_space_from_ifc.py:123-127 | there is a hit exactly when some box contains the point, and it is the first such box in dict order |
| Spatial.FirstContaining | ingest/link_in_space_from_ifc.py:123-127 | the loop with `break` returns the first containing box |
| Spatial.LocateLoop | ingest/link_in_space_from_ifc.py:123-136 | containment first, then the nearest-center fallback, computes `Locate` |
| Spatial.LocateSound | ingest/link_in_space_from_ifc.py:123-136 | the space returned is the first box containing the point, or one whose center is nearest |
| Spatial.LocateFound | ingest/link_in_space_from_ifc.py:123-136 | with non-empty ids and a center nearer than 1e99, every point gets a space |
| Spatial.BuildBoxes | ingest/link_in_space_from_ifc.py:80-88 | the loop fills `space_aabb` and skips a space whose shape fails |
| Spatial.SpaceBoxesSpec | ingest/link_in_space_from_ifc.py:81-88 | an id has a box exactly when some space with it has one, and it is the last such space's box |
| Spatial.FamilyOf | ingest/link_in_space_from_ifc.py:62 | the family is the stripped text before the first ':', and never longer than the name |
| Spatial.PrefixDiffuser | ingest/link_in_space_from_ifc.py:17-21 | every family prefix has "Diffuser" at offset 9 |
| Spatial.FamilyMeansHint | ingest/link_in_space_from_ifc.py:60-66 | a name whose family is a known prefix already has a name hint |
| Spatial.FamilyOrHintIsHint | ingest/link_in_space_from_ifc.py:60-66 | the family rule decides nothing the hint rule does not |
| InSpace.NameText | ingest/link_in_space_from_two_ifc.py:49-50 | a falsy Name gives "", and a string Name is itself |
| InSpace.Link | ingest/link_in_space_from_ifc.py:114-115 | each link is an IN_SPACE merge onto an IfcSpace node |
| InSpace.LinksSpec | ingest/link_in_space_from_ifc.py:138-141 | there is one IN_SPACE statement per paired item and nothing else, and all are edge merges |
| InSpace.LinksCount | ingest/link_in_space_from_ifc.py:141 | the count is the number of paired items |
| InSpace.RerunAddsNothing | ingest/link_in_space_from_two_ifc.py:116-119 | issuing the links a second time changes nothing |
| LinkFromIfc.NameOf | ingest/link_in_space_from_ifc.py:56-58 | a string is itself, None is "", and anything else is its `str()` |
| LinkFromIfc.DiffuserLikeIsHint | ingest/link_in_space_from_ifc.py:60-66 | `is_diffuser_like` is the hint test on the rendered name |
| LinkFromIfc.LinkAll | ingest/link_in_space_from_ifc.py:79-141 | `main` issues exactly the `Writes` statements and counts them |
| LinkFromIfc.LinkTerms | ingest/link_in_space_from_ifc.py:109-139 | the loop over the terminals issues exactly the `Writes` statements for the boxes and counts them |
| LinkFromIfc.SpaceFor | ingest/link_in_space_from_ifc.py:111-137 | a terminal goes to its IfcSpace container when it has one, and otherwise to the space `Pair` picks from the boxes, only when that id is truthy |
| LinkFromIfc.TermsKeyed | ingest/link_in_space_from_ifc.py:98-104 | the de-duplicated terminals have distinct, non-empty GlobalIds |
| LinkFromIfc.TermsFirst | ingest/link_in_space_from_ifc.py:98-104 | each terminal is the first candidate with a GlobalId that carries its GlobalId |
| LinkFromIfc.TermsCover | ingest/link_in_space_from_ifc.py:98-104 | every candidate with a non-empty GlobalId has a terminal with that GlobalId |
| LinkFromIfc.ContainerFirst | ingest/link_in_space_from_ifc.py:112-117 | an IfcSpace container decides the space outright, whatever the boxes |
| LinkFromIfc.GeometryTier | ingest/link_in_space_from_ifc.py:119-141 | without a container, a terminal is linked only to the first box containing its origin or to one with the nearest center |
| LinkFromIfc.LinkedIffOrigin | ingest/link_in_space_from_ifc.py:110-141 | without a container, a terminal is linked exactly when it has an origin and some box exists |
| LinkFromIfc.WritesSpec | ingest/link_in_space_from_ifc.py:98-141 | one IN_SPACE statement per linked terminal; the terminals have distinct non-empty GlobalIds |
| LinkFromIfc.WritesLinks | ingest/link_in_space_from_ifc.py:109-141 | the statements for the terminals are one IN_SPACE edge per linked terminal, with no node writes |
| LinkTwoIfc.LinkAll | ingest/link_in_space_from_two_ifc.py:63-120 | with no boxes nothing is written; otherwise `main` issues exactly the `Writes` statements and counts them |
| LinkTwoIfc.LinkTerms | ingest/link_in_space_from_two_ifc.py:94-120 | the terminal loop issues and counts the `Writes` statements |
| LinkTwoIfc.NoBoxesNoWrites | ingest/link_in_space_from_two_ifc.py:73-75 | with no boxes nothing would be written, so the early return loses nothing |
| LinkTwoIfc.PairSound | ingest/link_in_space_from_two_ifc.py:95-113 | a terminal is linked only with an origin, to the first containing box or a nearest-center box |
| LinkTwoIfc.PairFound | ingest/link_in_space_from_two_ifc.py:95-113 | a terminal with an origin is always linked when boxes exist |
| LinkTwoIfc.TermsSpec | ingest/link_in_space_from_two_ifc.py:78-90 | the terminals have distinct non-empty GlobalIds, each taken from the candidates |
| LinkTwoIfc.TermsFirst | ingest/link_in_space_from_two_ifc.py:78-90 | each terminal is the first candidate with a GlobalId that carries its GlobalId |
| LinkTwoIfc.TermsCover | ingest/link_in_space_from_two_ifc.py:78-90 | every candidate with a non-empty GlobalId has a terminal with that GlobalId |
| LinkByPlacement.BuildSpacePoints | ingest/link_in_space_by_placement.py:47-57 | the loop computes `SpacePoints` |
| LinkByPlacement.SpacePointsSpec | ingest/link_in_space_by_placement.py:49-54 | an id has a point exactly when some placed space has it, and a later one wins |
| LinkByPlacement.TerminalPoints | ingest/link_in_space_by_placement.py:70-76 | the terminal list is never longer than the candidate list |
| LinkByPlacement.TerminalPointsSpec | ingest/link_in_space_by_placement.py:70-76 | every collected terminal comes from a candidate with a GlobalId and an origin, and every such candidate is collected |
| LinkByPlacement.CollectTerminals | ingest/link_in_space_by_placement.py:70-76 | the loop computes `TerminalPoints` |
| LinkByPlacement.LinkAll | ingest/link_in_space_by_placement.py:45-111 | `main` writes exactly the `Writes` links and counts them |
| LinkByPlacement.CollectLinks | ingest/link_in_space_by_placement.py:98-102 | the `links` loop computes `Writes` |
| LinkByPlacement.WriteLinks | ingest/link_in_space_by_placement.py:105-110 | the write loop runs the links in order |
| LinkByPlacement.NoSpacesNoWrites | ingest/link_in_space_by_placement.py:59-61 | with no space points there would be no links, so the early return loses nothing |
| LinkByPlacement.PairSound | ingest/link_in_space_by_placement.py:83-96 | a linked space passes the Z gate and the XY cap, and no space passing both is strictly nearer in plan |
| LinkByPlacement.AllGatedOut | ingest/link_in_space_by_placement.py:83-96 | when every space is gated out the terminal gets no link |
| LinkByPlacement.NoCapWhenNonPositive | ingest/link_in_space_by_placement.py:92 | with xy_max <= 0 only the Z gate applies |
| LinkByPlacement.DefaultGates | ingest/link_in_space_by_placement.py:41-42 | under the defaults, a space more than 3 m away in height or 50 m in plan is never linked |
| LinkDbDriven.LimitedSpec | ingest/link_in_space_db_driven.py:51-52 | a positive limit keeps the first `limit` ids, zero keeps all, and a negative limit drops that many from the end |
| LinkDbDriven.BuildGuidIndex | ingest/link_in_space_db_driven.py:23-28 | the loop computes `GuidIndex` |
| LinkDbDriven.GuidIndexLastWins | ingest/link_in_space_db_driven.py:23-28 | the index maps each truthy GlobalId to the last entity carrying it, and holds nothing else |
| LinkDbDriven.BuildSpacePoints | ingest/link_in_space_db_driven.py:60-63 | the loop computes `SpacePoints` |
| LinkDbDriven.LinkAll | ingest/link_in_space_db_driven.py:49-99 | `main` writes exactly the `Writes` pairs and counts them |
| LinkDbDriven.CollectPairs | ingest/link_in_space_db_driven.py:69-90 | the `pairs` loop, with its inline gated minimum, computes `Writes` |
| LinkDbDriven.NoSpacesNoWrites | ingest/link_in_space_db_driven.py:64-66 | with no space points there would be no pairs |
| LinkDbDriven.PairSound | ingest/link_in_space_db_driven.py:70-90 | a pair needs an id found in the index with an origin; its space passes both gates and none passing them is strictly nearer |
| LinkDbDriven.DefaultsGateOnlyHeight | ingest/link_in_space_db_driven.py:34-35 | under the defaults a space is gated out only when more than 1e9 away in height |
| LinkDbDriven.MissingNoPair | ingest/link_in_space_db_driven.py:71-76 | an id missing from the index, or one whose element has no origin, gives no pair |
| RagQuery.RunLength | rag/query.py:40 | a run is token characters up to the first non-token character |
| RagQuery.Runs | rag/query.py:40 | every run is non-empty and made of `[A-Za-z0-9-]` characters |
| RagQuery.RunsCover | rag/query.py:40 | put back together, the runs are exactly the token characters of the question, in order |
| RagQuery.RunsSplit | rag/query.py:40 | a non-token character splits the runs, so no token spans it |
| RagQuery.RunsWhole | rag/query.py:40 | a string of token characters only is one run |
| RagQuery.TokensSpec | rag/query.py:40 | a token is exactly a run of at least two characters |
| RagQuery.MechBiasNeedsWord | rag/query.py:68 | the bias needs a listed word as a whole word, and "vavs" does not trigger it |
| RagQuery.LexicalSeeds | rag/query.py:38-82 | `lexical_seeds` computes `LexicalSpec` from the query results |
| RagQuery.AppendAll | rag/query.py:74-75 | `ids += hits` for each hit list appends them all in order |
| RagQuery.LexicalSeedsSpec | rag/query.py:38-82 | without tokens there are no seeds; otherwise at most 50 distinct ids, all found, in first-found order, and all of them when there are no more than 50 |
| RagQuery.RelFilterSpec | rag/query.py:89-92 | a type is allowed exactly when it is desired and present, and the filter is ".*" exactly when no desired type is present |
| RagQuery.PutNodes | rag/query.py:113-114 | the node loop assigns each row under its id |
| RagQuery.ExpandNeighborhood | rag/query.py:85-124 | the filter, node list and edge list are `RelFilter`, `NodeList` and `EdgeList` |
| RagQuery.NodeIdsDistinct | rag/query.py:110-124 | the nodes of the list have distinct ids |
| RagQuery.NodeRowsLast | rag/query.py:110-124 | each node of the list is the last row with its id, a later record's row replacing an earlier one |
| RagQuery.NodeIdsKept | rag/query.py:110-124 | every id among the rows is the id of some node of the list |
| RagQuery.EdgeListSpec | rag/query.py:118-124 | an edge is kept exactly when no earlier edge has its (src, dst, type); every key is kept once |
| RagQuery.Focus | rag/query.py:140 | there is one focus entry per merged id |
| RagQuery.MergeSeedsSpec | rag/query.py:133-140 | at most k seeds: lexical first with score 1.0, then vector seeds not lexical with score 0.0 |
| RagQuery.MergeKeepsVectorRepeats | rag/query.py:134 | a repeated vector id is kept twice, because the test looks at the list before the append |
| RagQuery.BuildEvidence | rag/query.py:126-143 | the evidence holds the question, the focus seeds of the merged ids, and the neighbourhood's nodes and edges |
| RagIndex.CardTypeSpec | rag/build_index.py:61-62 | the type is `ifcType` when set, else the last label other than IfcEntity (every later label is IfcEntity) when there is one, else "IfcEntity" |
| RagIndex.LabelsSpec | rag/build_index.py:60-61 | the labels kept are exactly those other than IfcEntity, in their order |
| RagIndex.SectionSpec | rag/build_index.py:65-75 | a section is present exactly when some entry is non-empty, and lists at most n of them, all from the list |
| RagIndex.PropsIn | rag/build_index.py:82-85 | an entry is listed exactly when its key is present with a value other than None, "" or "NULL" |
| RagIndex.PropsSpec | rag/build_index.py:83-85 | whatever the set's iteration order, the props are exactly the TOP_PSET_KEYS entries with a shown value |
| RagIndex.NoPsetsNoProps | rag/build_index.py:78-81 | an undecodable or missing document gives no props |
| RagIndex.GroupMarkers | rag/build_index.py:93-100 | each alias group has a word no other group has |
| RagIndex.InsertSortedSpec | rag/build_index.py:102 | inserting keeps the list sorted without repeats and adds exactly the new string |
| RagIndex.SortedSetSpec | rag/build_index.py:102 | `sorted(set(al))` is sorted without repeats and holds exactly the strings of al |
| RagIndex.SortedUnique | rag/build_index.py:102 | a sorted list without repeats is determined by its elements |
| RagIndex.AliasSpec | rag/build_index.py:89-102 | the aliases are sorted without repeats; "room" appears exactly for IfcSpace, and AHU/VAV/outlet exactly when their tests pass |
| RagIndex.HeadSpec | rag/build_index.py:69-72 | the type part is always there, and the name and source parts exactly when non-empty |
| RagIndex.HeadStart | rag/build_index.py:69-71 | the joined head opens with the name part, when there is one, and then the type part |
| RagIndex.CardStart | rag/build_index.py:60-104 | a card opens with its name part, when there is one, and then its type part |
| RagIndex.TextCard | rag/build_index.py:60-104 | `text_card` computes `Card` |
| RagIndex.Assemble | rag/build_index.py:69-102 | the `parts.append` sequence gives the head parts followed by the tail parts |
| RagIndex.AppendPart | rag/build_index.py:73-75 | a part is appended only when there is one |
| RagIndex.PropsLoop | rag/build_index.py:82-85 | the `ptxt` loop computes `Props` |
| RagIndex.AliasList | rag/build_index.py:90-100 | `al += [...]` for each group whose test passes |

## Left out

- The Neo4j driver, sessions and transactions, connection settings and environment variables: the store is a value the scripts' statements act on.
- ifcopenshell (`open`, `by_type`, `get_psets`, `get_container`, `get_local_placement`, tessellation): what it returns is input data.
- Float arithmetic: coordinates and distances are reals, with no IEEE rounding. Python's `str()` of a float and `float()` of a string are a parameter.
- Unicode: `lower()`, `strip()`, `\b` and the token class are modelled on ASCII.
- JSON parsing and file reading: documents are given as values. `json.dumps` is modelled only as far as the loaders read its output back.
- The crash paths on malformed input are modelled for the loaders (`extract_psets`, a non-string type in `ifcjson_to_neo4j.py` and `ifcjson_edges.py`, non-string psets keys, `load_instances`). Not modelled: in `build_spatial_index` (ingest/extract_elevations.py:148-149) a truthy non-string `type` makes `t.startswith` raise AttributeError, where the model skips the record; the TypeError of `first` (ingest/extract_elevations.py:13-19) and `g` (ingest/ifcjson_edges.py:22-29) on a truthy `attributes` that is not a dict, which Elevations.FirstChecked models but the callers do not (see the next line); and the exceptions that `ifc_to_neo4j.py` catches.
- FirstSpec: states `first` only for a dict or falsy `attributes`. Elevations.First, and JsonEdges.G and the placement walk that call it, go on with None where Python raises TypeError (a number or True as `attributes`, or a string or list holding a looked-up key, with no top-level key); Elevations.FirstRaises states exactly when that happens.
- A type string that is not a valid Cypher label makes the MERGE raise a syntax error; the model treats every string as a label.
- The properties of a second node a MERGE made are not tracked, only its labels: a later `MATCH … SET` on the id updates the first node in the model, where Neo4j updates both. No statement of these scripts reads properties back.
- An edge MERGE is recorded once per id pair and type; when an id has a second node, Neo4j makes one edge per matching pair of nodes.
- Integers are unbounded: a value outside the 64 bits Neo4j stores is not refused.
- Non-string psets keys are kept apart by value (Python would merge 1, 1.0 and True into one key); any such key makes the driver refuse the parameter, which the model does.
- The driver may report a failing statement only when its result is consumed; the model reports it at the statement that caused it.
- IfcIngest.Ingest: a second run is shown to change nothing (IngestTwice) only when the MERGEs agree on labels, each GlobalId names one storey, element or space record, and every group's GlobalId is already a node or an entity of the file. Not covered: when an id gets a second node (SystemSubtypeSplits), the first run's unlabelled `MATCH (n {globalId:$id})` pset write (ingest/ifc_to_neo4j.py:122-126) runs before the group MERGE (lines 184-187) makes the IfcEntity:IfcSystem node, so only the second run writes `psets_json` and the flattened keys onto that node, a change the model cannot show because it does not track a second node's properties. Also not covered: a group whose GlobalId is no entity of the file and that is a member of an earlier group gets its ASSIGNED_TO_SYSTEM edge (line 191) only on the second run.
- JsonIngest.NodePass: requires a session that has not raised yet, as pass 1 is the first thing the script runs in it.
- JsonIngest.Ingest: requires a session that has not raised yet, as `main` opens a fresh one.
- Elevations: pass 3 of `extract_elevations.py` (lines 210-229) is not modelled. It fills a missing storey elevation with the database average of its children's `z`, which is a database read plus float averaging.
- LinkByPlacement: `spaces_name` is built but never used by the script, so it is not modelled.
- LinkDbDriven: the candidate query (labels, name, sources) runs in the database; its result list of ids is an input.
- RagQuery: the embedding model and the FAISS search are not modelled. Vector hits are given already mapped through `id_map`, so negative FAISS indices are not modelled.
- RagQuery: the three lexical queries and the expansion query run in the database (APOC path expansion, LIMIT 50 per query); their results are inputs.
- RagQuery: `RAG_HOPS` and `RAG_TOPK` appear only as their defaults, 3 and 20.
- RagIndex: the iteration order of the `TOP_PSET_KEYS` set is a parameter `keys`. PropsSpec shows that the listed entries do not depend on it, but their order does.
- RagIndex: row fields are strings, with "" standing for None. A `psets_json` that decodes to something other than a dict is treated as `{}`.
- RagIndex: the `main` of `build_index.py` only encodes cards and writes the index and metadata files, so it is not modelled.
- GlobalIds are strings, with "" standing for a missing one.
- The diagnostic scripts (placement probes, GUID overlap check, bolt check, IFC merge helper) and `rag/answer.py` are not part of this model.
