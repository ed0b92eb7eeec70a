/**
 * Loading an ifcJSON document into the graph (ingest/ifcjson_to_neo4j.py): references,
 * names, types, property-set extraction, the node MERGE of pass 1 and the relationship
 * edges of pass 2. A record that makes the script raise stops the run: the statements
 * already issued stay, and the error is reported.
 */
module JsonIngest {
  import opened Wrappers
  import opened PyValue
  import Text
  import PyDict
  import Graph
  import Elevations
  import IfcIngest

  type Fields = seq<(string, Value)>

  // ----- references -----

  const RefKeys: seq<string> := ["ref", "id", "GlobalId", "globalId"]

  /**
   * `ref_id`: a string is its own id; a dict gives `ref or id or GlobalId or globalId`; a
   * non-empty list gives the id of its head; anything else gives None. (The same code is
   * in ingest/ifcjson_edges.py.)
   */
  function RefId(x: Value): (r: Value)
    ensures x.Str? ==> r == x
    ensures x.Null? || x.Bool? || x.Int? || x.Float? || (x.List? && x.items == []) ==> r == Null
    decreases x
  {
    match x
    case Str(_) => x
    case Dict(f) => OrGet(f, RefKeys)
    case List(items) => if |items| > 0 then RefId(items[0]) else Null
    case _ => Null
  }

  /** A dict's id is its first truthy reference key, else the value of `globalId`. */
  lemma RefIdDict(f: Fields)
    ensures Truthy(RefId(Dict(f))) <==> exists i | 0 <= i < |RefKeys| :: Truthy(Get(f, RefKeys[i]))
    ensures Truthy(RefId(Dict(f))) ==>
      exists i | 0 <= i < |RefKeys| ::
        (RefId(Dict(f)) == Get(f, RefKeys[i]) && forall j | 0 <= j < i :: !Truthy(Get(f, RefKeys[j])))
    ensures !Truthy(RefId(Dict(f))) ==> RefId(Dict(f)) == Get(f, "globalId")
  {
    OrGetSpec(f, RefKeys);
  }

  // ----- names and types -----

  /** `isinstance(v, str) and v.strip()` (or `and v` when `strip` is false). */
  predicate HasText(v: Value, strip: bool) {
    v.Str? && (if strip then Text.Strip(v.s) else v.s) != ""
  }

  function TextOf(v: Value, strip: bool): string
    requires v.Str?
  {
    if strip then Text.Strip(v.s) else v.s
  }

  /** The text of the first listed key holding a string with text. */
  function FirstText(d: Fields, keys: seq<string>, strip: bool): Option<string>
    decreases |keys|
  {
    if |keys| == 0 then None
    else if HasText(Get(d, keys[0]), strip) then Some(TextOf(Get(d, keys[0]), strip))
    else FirstText(d, keys[1..], strip)
  }

  lemma {:induction false} FirstTextSpec(d: Fields, keys: seq<string>, strip: bool)
    ensures FirstText(d, keys, strip).None? <==> forall i | 0 <= i < |keys| :: !HasText(Get(d, keys[i]), strip)
    ensures FirstText(d, keys, strip).Some? ==>
      exists i | 0 <= i < |keys| ::
        (HasText(Get(d, keys[i]), strip) && FirstText(d, keys, strip).value == TextOf(Get(d, keys[i]), strip) &&
         forall j | 0 <= j < i :: !HasText(Get(d, keys[j]), strip))
    decreases |keys|
  {
    if |keys| > 0 && !HasText(Get(d, keys[0]), strip) {
      FirstTextSpec(d, keys[1..], strip);
      assert forall i | 0 <= i < |keys| - 1 :: keys[1..][i] == keys[i + 1];
      if FirstText(d, keys, strip).Some? {
        var i :| 0 <= i < |keys| - 1 &&
          (HasText(Get(d, keys[1..][i]), strip) && FirstText(d, keys[1..], strip).value == TextOf(Get(d, keys[1..][i]), strip) &&
           forall j | 0 <= j < i :: !HasText(Get(d, keys[1..][j]), strip));
        assert HasText(Get(d, keys[i + 1]), strip);
      }
    }
  }

  const NameKeys: seq<string> := ["Name", "LongName", "name", "Longname", "ObjectName"]
  const AttrNameKeys: seq<string> := ["Name", "LongName", "name"]

  /** `get_name`: the first non-blank string, stripped, at top level, then in `attributes`, else "". */
  function GetName(obj: Fields): string {
    match FirstText(obj, NameKeys, true)
    case Some(n) => n
    case None =>
      match FirstText(Elevations.AttributesOf(obj), AttrNameKeys, true)
      case Some(n) => n
      case None => ""
  }

  /** The name is "" exactly when no listed key, at either level, holds a non-blank string. */
  lemma GetNameSpec(obj: Fields)
    ensures GetName(obj) == "" <==>
      (forall i | 0 <= i < |NameKeys| :: !HasText(Get(obj, NameKeys[i]), true)) &&
      (forall i | 0 <= i < |AttrNameKeys| :: !HasText(Get(Elevations.AttributesOf(obj), AttrNameKeys[i]), true))
    ensures (exists i | 0 <= i < |NameKeys| :: HasText(Get(obj, NameKeys[i]), true)) ==>
      exists i | 0 <= i < |NameKeys| ::
        (HasText(Get(obj, NameKeys[i]), true) && GetName(obj) == Text.Strip(Get(obj, NameKeys[i]).s) &&
         forall j | 0 <= j < i :: !HasText(Get(obj, NameKeys[j]), true))
  {
    FirstTextSpec(obj, NameKeys, true);
    FirstTextSpec(Elevations.AttributesOf(obj), AttrNameKeys, true);
  }

  const TypeKeys: seq<string> := ["type", "class", "ifcType"]

  /** `get_type`: the first non-empty string among type/class/ifcType, else `schema or "Unknown"`. */
  function GetType(obj: Fields): Value {
    match FirstText(obj, TypeKeys, false)
    case Some(t) => Str(t)
    case None => if Truthy(Get(obj, "schema")) then Get(obj, "schema") else Str("Unknown")
  }

  /** The type is never falsy; it is the first typed key's string, else schema, else "Unknown". */
  lemma GetTypeSpec(obj: Fields)
    ensures Truthy(GetType(obj))
    ensures (exists i | 0 <= i < |TypeKeys| :: HasText(Get(obj, TypeKeys[i]), false)) ==>
      exists i | 0 <= i < |TypeKeys| ::
        (HasText(Get(obj, TypeKeys[i]), false) && GetType(obj) == Get(obj, TypeKeys[i]) &&
         forall j | 0 <= j < i :: !HasText(Get(obj, TypeKeys[j]), false))
    ensures (forall i | 0 <= i < |TypeKeys| :: !HasText(Get(obj, TypeKeys[i]), false)) ==>
      GetType(obj) == (if Truthy(Get(obj, "schema")) then Get(obj, "schema") else Str("Unknown"))
  {
    FirstTextSpec(obj, TypeKeys, false);
  }

  // ----- property sets -----

  const DirectKeys: seq<string> := ["psets", "Properties", "properties", "property_sets"]
  const SetKeys: seq<string> := ["HasPropertySets", "PropertySets"]

  /** The dict `extract_psets` builds, keyed by the Python values used as keys. */
  type Out = PyDict.Dict<Value, Value>

  /** A direct-map entry: a dict with a `NominalValue` key is unwrapped to it. */
  function DirectVal(v: Value): Value {
    if v.Dict? && Has(v.fields, "NominalValue") then Get(v.fields, "NominalValue") else v
  }

  function PutDirect(out: Out, p: Fields): Out
    decreases |p|
  {
    if |p| == 0 then out else PutDirect(PyDict.Put(out, Str(p[0].0), DirectVal(p[0].1)), p[1..])
  }

  /** The direct maps under `keys`, copied in order into `out`. */
  function DirectFrom(out: Out, obj: Fields, keys: seq<string>): Out
    decreases |keys|
  {
    if |keys| == 0 then out
    else
      var p := Get(obj, keys[0]);
      DirectFrom(if p.Dict? then PutDirect(out, p.fields) else out, obj, keys[1..])
  }

  /** The list values under `keys`, concatenated. */
  function ListsOf(d: Fields, keys: seq<string>): seq<Value>
    decreases |keys|
  {
    if |keys| == 0 then []
    else (if Get(d, keys[0]).List? then Get(d, keys[0]).items else []) + ListsOf(d, keys[1..])
  }

  /** `obj.get("attributes") or {}` is truthy but not a dict: its `get` raises AttributeError. */
  predicate BadAttrs(obj: Fields) {
    Truthy(Get(obj, "attributes")) && !Get(obj, "attributes").Dict?
  }

  /** The list-of-sets candidates: top level first, then `attributes`. */
  function Candidates(obj: Fields): seq<Value> {
    ListsOf(obj, SetKeys) + ListsOf(Elevations.AttributesOf(obj), SetKeys)
  }

  /** A truthy list or dict cannot be a dict key. */
  predicate Unhashable(n: Value) {
    Truthy(n) && (n.List? || n.Dict?)
  }

  /**
   * The key a property is stored under: the string `pname.n` when both are truthy, the
   * value `n` itself when only it is (TypeError when that is a list or dict), else none.
   */
  function PropKey(py: Py, pname: Value, n: Value): Result<Option<Value>> {
    if Truthy(pname) && Truthy(n) then Ok(Some(Str(Show(py, pname) + "." + Show(py, n))))
    else if Unhashable(n) then Failure("TypeError")
    else if Truthy(n) then Ok(Some(n))
    else Ok(None)
  }

  /** One property dict of a set, assigned into `out`. */
  function PutProp(py: Py, out: Out, pname: Value, p: Fields): Result<Out> {
    var n := OrGet(p, ["Name", "name"]);
    var val := OrGet(p, ["NominalValue", "Value", "nominalValue"]);
    match PropKey(py, pname, n)
    case Failure(e) => Failure(e)
    case Ok(None) => Ok(out)
    case Ok(Some(k)) => Ok(PyDict.Put(out, k, val))
  }

  /** The properties of one set; a property that is not a dict raises AttributeError. */
  function PutProps(py: Py, out: Out, pname: Value, props: seq<Value>): Result<Out>
    decreases |props|
  {
    if |props| == 0 then Ok(out)
    else if !props[0].Dict? then Failure("AttributeError")
    else
      match PutProp(py, out, pname, props[0].fields)
      case Failure(e) => Failure(e)
      case Ok(o) => PutProps(py, o, pname, props[1..])
  }

  /** `ps.get("HasProperties") or ps.get("Properties") or []`, iterated only when a list. */
  function SetProps(ps: Fields): seq<Value> {
    var props := OrGet(ps, ["HasProperties", "Properties"]);
    if props.List? then props.items else []
  }

  /** The candidate sets in order; a candidate that is not a dict raises AttributeError. */
  function PutSets(py: Py, out: Out, cands: seq<Value>): Result<Out>
    decreases |cands|, 1
  {
    if |cands| == 0 then Ok(out)
    else if !cands[0].Dict? then Failure("AttributeError")
    else Then(py, PutProps(py, out, OrGet(cands[0].fields, ["Name", "name"]), SetProps(cands[0].fields)), cands[1..])
  }

  function Then(py: Py, r: Result<Out>, rest: seq<Value>): Result<Out>
    decreases |rest| + 1, 0
  {
    match r
    case Failure(e) => Failure(e)
    case Ok(o) => PutSets(py, o, rest)
  }

  /** Scalars are kept, anything else becomes its `str()`. */
  function CleanVal(py: Py, v: Value): (r: Value)
    ensures IsScalar(r)
    ensures IsScalar(v) ==> r == v
  {
    if IsScalar(v) then v else Str(Show(py, v))
  }

  function CleanFrom(py: Py, clean: Out, out: Out): Out
    decreases |out|
  {
    if |out| == 0 then clean else CleanFrom(py, PyDict.Put(clean, out[0].0, CleanVal(py, out[0].1)), out[1..])
  }

  /** `extract_psets`. */
  function Psets(py: Py, obj: Fields): Result<Out> {
    if BadAttrs(obj) then Failure("AttributeError")
    else
      match PutSets(py, DirectFrom([], obj, DirectKeys), Candidates(obj))
      case Failure(e) => Failure(e)
      case Ok(out) => Ok(CleanFrom(py, [], out))
  }

  /** The direct-map loop of `extract_psets`. */
  method CopyDirect(obj: Fields) returns (out: Out)
    ensures out == DirectFrom([], obj, DirectKeys)
  {
    out := [];
    for i := 0 to |DirectKeys|
      invariant DirectFrom(out, obj, DirectKeys[i..]) == DirectFrom([], obj, DirectKeys)
    {
      var p := Get(obj, DirectKeys[i]);
      assert DirectKeys[i..][1..] == DirectKeys[i + 1..];
      if p.Dict? {
        for j := 0 to |p.fields|
          invariant DirectFrom(PutDirect(out, p.fields[j..]), obj, DirectKeys[i + 1..]) == DirectFrom([], obj, DirectKeys)
        {
          assert p.fields[j..][1..] == p.fields[j + 1..];
          out := PyDict.Put(out, Str(p.fields[j].0), DirectVal(p.fields[j].1));
        }
      }
    }
  }

  /**
   * The loops gathering `candidates`: top level first, then `attributes`, whose `get`
   * raises when it is truthy but not a dict.
   */
  method CollectCandidates(obj: Fields) returns (r: Result<seq<Value>>)
    ensures r == if BadAttrs(obj) then Failure("AttributeError") else Ok(Candidates(obj))
  {
    var cands := GatherLists(obj, SetKeys);
    var attrs := Get(obj, "attributes");
    if Truthy(attrs) && !attrs.Dict? {
      return Failure("AttributeError");
    }
    var more := GatherLists(Elevations.AttributesOf(obj), SetKeys);
    return Ok(cands + more);
  }

  /** One gathering loop: the items of each key of `keys` whose value in `d` is a list, in order. */
  method GatherLists(d: Fields, keys: seq<string>) returns (r: seq<Value>)
    ensures r == ListsOf(d, keys)
  {
    r := [];
    for i := 0 to |keys|
      invariant r + ListsOf(d, keys[i..]) == ListsOf(d, keys)
    {
      assert keys[i..][1..] == keys[i + 1..];
      var v := Get(d, keys[i]);
      if v.List? {
        r := r + v.items;
      }
    }
    assert keys[|keys|..] == [];
  }

  /** The inner loop over one set's properties. */
  method AddProps(py: Py, out0: Out, pname: Value, props: seq<Value>) returns (r: Result<Out>)
    ensures r == PutProps(py, out0, pname, props)
  {
    var out := out0;
    for j := 0 to |props|
      invariant PutProps(py, out, pname, props[j..]) == PutProps(py, out0, pname, props)
    {
      assert props[j..][1..] == props[j + 1..];
      assert props[j..][0] == props[j];
      var p := props[j];
      if !p.Dict? {
        return Failure("AttributeError");
      }
      var n := OrGet(p.fields, ["Name", "name"]);
      var val := OrGet(p.fields, ["NominalValue", "Value", "nominalValue"]);
      if Truthy(pname) && Truthy(n) {
        out := PyDict.Put(out, Str(Show(py, pname) + "." + Show(py, n)), val);
      } else if Truthy(n) {
        if n.List? || n.Dict? {
          return Failure("TypeError");
        }
        out := PyDict.Put(out, n, val);
      }
    }
    return Ok(out);
  }

  /** The loop over the candidate sets. */
  method AddSets(py: Py, out0: Out, cands: seq<Value>) returns (r: Result<Out>)
    ensures r == PutSets(py, out0, cands)
  {
    var out := out0;
    for i := 0 to |cands|
      invariant PutSets(py, out, cands[i..]) == PutSets(py, out0, cands)
    {
      assert cands[i..][1..] == cands[i + 1..];
      assert cands[i..][0] == cands[i];
      var ps := cands[i];
      if !ps.Dict? {
        return Failure("AttributeError");
      }
      var pname := OrGet(ps.fields, ["Name", "name"]);
      var props := OrGet(ps.fields, ["HasProperties", "Properties"]);
      var added := AddProps(py, out, pname, if props.List? then props.items else []);
      if added.Failure? {
        return added;
      }
      out := added.value;
    }
    return Ok(out);
  }

  /** The cleaning loop: scalars kept, anything else stringified. */
  method CleanAll(py: Py, out: Out) returns (clean: Out)
    ensures clean == CleanFrom(py, [], out)
  {
    clean := [];
    for j := 0 to |out|
      invariant CleanFrom(py, clean, out[j..]) == CleanFrom(py, [], out)
    {
      assert out[j..][1..] == out[j + 1..];
      clean := PyDict.Put(clean, out[j].0, CleanVal(py, out[j].1));
    }
  }

  /** `extract_psets`: direct maps, then the list-of-sets shapes, then scalar cleaning. */
  method ExtractPsets(py: Py, obj: Fields) returns (r: Result<Out>)
    ensures r == Psets(py, obj)
  {
    var out := CopyDirect(obj);
    var cands := CollectCandidates(obj);
    if cands.Failure? {
      return Failure(cands.error);
    }
    var sets := AddSets(py, out, cands.value);
    if sets.Failure? {
      return Failure(sets.error);
    }
    var clean := CleanAll(py, sets.value);
    return Ok(clean);
  }

  /**
   * A property that makes `extract_psets` raise: one that is not a dict, or, in a set
   * without a name, one whose name is a non-empty list or dict.
   */
  predicate BadProp(pname: Value, p: Value) {
    !p.Dict? || (!Truthy(pname) && Unhashable(OrGet(p.fields, ["Name", "name"])))
  }

  /** A candidate that makes `extract_psets` raise: not a dict, or listing a bad property. */
  predicate BadSet(ps: Value) {
    !ps.Dict? ||
    exists j | 0 <= j < |SetProps(ps.fields)| :: BadProp(OrGet(ps.fields, ["Name", "name"]), SetProps(ps.fields)[j])
  }

  lemma {:induction false} PutPropsFails(py: Py, out: Out, pname: Value, props: seq<Value>)
    ensures PutProps(py, out, pname, props).Failure? <==> exists j | 0 <= j < |props| :: BadProp(pname, props[j])
    decreases |props|
  {
    if |props| > 0 && !BadProp(pname, props[0]) {
      var o := PutProp(py, out, pname, props[0].fields);
      assert o.Ok?;
      PutPropsFails(py, o.value, pname, props[1..]);
      assert forall j | 0 <= j < |props| - 1 :: props[1..][j] == props[j + 1];
    }
  }

  lemma {:induction false} PutSetsFails(py: Py, out: Out, cands: seq<Value>)
    ensures PutSets(py, out, cands).Failure? <==> exists i | 0 <= i < |cands| :: BadSet(cands[i])
    decreases |cands|
  {
    if |cands| > 0 && cands[0].Dict? {
      var ps := cands[0].fields;
      PutPropsFails(py, out, OrGet(ps, ["Name", "name"]), SetProps(ps));
      var r := PutProps(py, out, OrGet(ps, ["Name", "name"]), SetProps(ps));
      assert forall i | 0 <= i < |cands| - 1 :: cands[1..][i] == cands[i + 1];
      if r.Ok? {
        PutSetsFails(py, r.value, cands[1..]);
      }
    }
  }

  /**
   * `extract_psets` raises exactly when `attributes` is truthy but not a dict, or some
   * candidate set is not a dict or lists a bad property.
   */
  lemma PsetsFail(py: Py, obj: Fields)
    ensures Psets(py, obj).Failure? <==>
      BadAttrs(obj) || exists i | 0 <= i < |Candidates(obj)| :: BadSet(Candidates(obj)[i])
  {
    PutSetsFails(py, DirectFrom([], obj, DirectKeys), Candidates(obj));
  }

  predicate AllScalar(d: Out) {
    forall k | k in PyDict.KeySet(d) :: PyDict.Find(d, k).Some? && IsScalar(PyDict.Find(d, k).value)
  }

  lemma {:induction false} CleanScalar(py: Py, clean: Out, out: Out)
    requires AllScalar(clean)
    ensures AllScalar(CleanFrom(py, clean, out))
    ensures PyDict.KeySet(CleanFrom(py, clean, out)) == PyDict.KeySet(clean) + PyDict.KeySet(out)
    decreases |out|
  {
    if |out| > 0 {
      CleanScalar(py, PyDict.Put(clean, out[0].0, CleanVal(py, out[0].1)), out[1..]);
    }
  }

  /** Every extracted value is a str, int, float, bool or None; the keys are those collected. */
  lemma PsetsScalar(py: Py, obj: Fields)
    ensures Psets(py, obj).Ok? ==> AllScalar(Psets(py, obj).value)
    ensures Psets(py, obj).Ok? ==>
      PyDict.KeySet(Psets(py, obj).value) == PyDict.KeySet(PutSets(py, DirectFrom([], obj, DirectKeys), Candidates(obj)).value)
  {
    var r := PutSets(py, DirectFrom([], obj, DirectKeys), Candidates(obj));
    if r.Ok? {
      CleanScalar(py, [], r.value);
    }
  }

  /**
   * The psets as the driver sends them: a map parameter needs string keys, so any other
   * key makes the driver raise TypeError before the statement reaches the database.
   */
  function StrKeys(d: Out): (r: Option<Fields>)
    ensures r.Some? <==> forall i | 0 <= i < |d| :: d[i].0.Str?
    ensures r.Some? ==> |r.value| == |d| && forall i | 0 <= i < |d| :: r.value[i] == (d[i].0.s, d[i].1)
    decreases |d|
  {
    if |d| == 0 then Some([])
    else if !d[0].0.Str? then None
    else
      match StrKeys(d[1..])
      case None => None
      case Some(rest) => Some([(d[0].0.s, d[0].1)] + rest)
  }

  // ----- pass 1: nodes -----

  /** What pass 1 does with one record. */
  datatype NodeStep = Skip | Issue(st: Graph.Stmt) | Crash(error: string)

  function NodeCreate(name: string, t: string, ps: Fields): seq<Graph.Assign> {
    [Graph.Overwrite("name", Str(name)), Graph.Overwrite("type", Str(t)), Graph.Overwrite("psets", Dict(ps))]
  }

  function NodeMatch(name: string, t: string): seq<Graph.Assign> {
    [Graph.FillIn("name", Str(name)), Graph.Overwrite("type", Str(t))]
  }

  /**
   * A non-dict record is skipped. Otherwise a malformed `attributes` or pset list raises
   * (for a non-dict `attributes`, `get_name` may raise the same AttributeError first),
   * then a type that is not a string raises in `cmms_label`, then a pset key that is not
   * a string makes the driver raise; else the node is merged with its type and CMMS label.
   */
  function NodeOf(py: Py, guid: string, obj: Value): NodeStep {
    if !obj.Dict? then Skip
    else
      var t := GetType(obj.fields);
      var name := GetName(obj.fields);
      match Psets(py, obj.fields)
      case Failure(e) => Crash(e)
      case Ok(out) =>
        if !t.Str? then Crash(if t.List? || t.Dict? then "TypeError" else "AttributeError")
        else
          match StrKeys(out)
          case None => Crash("TypeError")
          case Some(ps) =>
            Issue(Graph.MergeNodeS(guid, IfcIngest.ElementLabels(t.s), NodeCreate(name, t.s, ps), NodeMatch(name, t.s), []))
  }

  /** What pass 1 has issued: the statements, and the Python error that stopped it. */
  datatype Outcome = Outcome(stmts: seq<Graph.Stmt>, error: Option<string>)

  /** Pass 1 after one more record: nothing more once a Python error has stopped it. */
  function Next(o: Outcome, n: NodeStep): Outcome {
    if o.error.Some? then o
    else
      match n
      case Skip => o
      case Crash(e) => Outcome(o.stmts, Some(e))
      case Issue(st) => Outcome(o.stmts + [st], None)
  }

  /** Pass 1 over the records, stopping at the first Python error. */
  function Pass1(py: Py, recs: seq<(string, Value)>): Outcome
    decreases |recs|
  {
    if |recs| == 0 then Outcome([], None)
    else Next(Pass1(py, recs[..|recs| - 1]), NodeOf(py, recs[|recs| - 1].0, recs[|recs| - 1].1))
  }

  lemma {:induction false} Pass1Sticks(py: Py, recs: seq<(string, Value)>, i: nat)
    requires i <= |recs|
    requires Pass1(py, recs[..i]).error.Some?
    ensures Pass1(py, recs) == Pass1(py, recs[..i])
    decreases |recs| - i
  {
    if i < |recs| {
      assert recs[..i + 1][..i] == recs[..i];
      Pass1Sticks(py, recs, i + 1);
    } else {
      assert recs[..i] == recs;
    }
  }

  /** The statements issued for a prefix of the records come first. */
  lemma {:induction false} Pass1Prefix(py: Py, recs: seq<(string, Value)>, i: nat)
    requires i <= |recs|
    ensures Pass1(py, recs[..i]).stmts <= Pass1(py, recs).stmts
    decreases |recs| - i
  {
    if i < |recs| {
      assert recs[..i + 1][..i] == recs[..i];
      Pass1Prefix(py, recs, i + 1);
      var a := Pass1(py, recs[..i]).stmts;
      var b := Pass1(py, recs[..i + 1]).stmts;
      assert a <= b;
    } else {
      assert recs[..i] == recs;
    }
  }

  /** The number of dict records. */
  function CountDicts(recs: seq<(string, Value)>): nat
    decreases |recs|
  {
    if |recs| == 0 then 0 else CountDicts(recs[..|recs| - 1]) + (if recs[|recs| - 1].1.Dict? then 1 else 0)
  }

  /**
   * Pass 1 issues at most one node MERGE per dict record, and exactly one for each when
   * no Python error stops it.
   */
  lemma {:induction false} Pass1Counts(py: Py, recs: seq<(string, Value)>)
    ensures |Pass1(py, recs).stmts| <= CountDicts(recs)
    ensures Pass1(py, recs).error.None? ==> |Pass1(py, recs).stmts| == CountDicts(recs)
    decreases |recs|
  {
    if |recs| > 0 {
      Pass1Counts(py, recs[..|recs| - 1]);
    }
  }

  /** ON CREATE stores the psets map, a value Neo4j refuses as a property. */
  lemma NodeCreateRaises(name: string, t: string, ps: Fields, id: string)
    ensures !Graph.MergedOk(Graph.Fresh(id), NodeCreate(name, t, ps), [])
  {
    var c := NodeCreate(name, t, ps);
    var q1 := Graph.ApplyOne(Graph.Fresh(id), c[0]);
    var q2 := Graph.ApplyOne(q1, c[1]);
    assert c[1..][1..][0] == Graph.Overwrite("psets", Dict(ps));
    assert !Graph.StoresOk(q2, c[1..][1..]);
    assert !Graph.StoresOk(q1, c[1..]);
  }

  /**
   * ON MATCH stores only strings: the node keeps a name it has (or gets one), gets the
   * type, and keeps its psets.
   */
  lemma NodeMatchFields(name: string, t: string, p0: Graph.Props)
    ensures Graph.MergedOk(p0, NodeMatch(name, t), [])
    ensures var p := Graph.Merged(p0, NodeMatch(name, t), []);
      "type" in p && p["type"] == Str(t) &&
      "name" in p && p["name"] == (if "name" in p0 then p0["name"] else Str(name)) &&
      ("psets" in p <==> "psets" in p0) && ("psets" in p ==> p["psets"] == p0["psets"])
  {
    var m := NodeMatch(name, t);
    var q1 := Graph.FillProp(p0, "name", Str(name));
    assert Graph.ApplyAll(p0, m) == Graph.SetProp(q1, "type", Str(t)) by {
      assert Graph.ApplyAll(p0, m) == Graph.ApplyAll(q1, m[1..]);
      assert Graph.ApplyAll(q1, m[1..]) == Graph.ApplyAll(Graph.SetProp(q1, "type", Str(t)), m[1..][1..]);
      assert m[1..][1..] == [];
    }
    assert Graph.StoresOk(q1, m[1..]) by {
      assert m[1..][1..] == [];
    }
    assert Graph.ApplyAll(Graph.ApplyAll(p0, m), []) == Graph.ApplyAll(p0, m);
  }

  /**
   * The node MERGE of a record, on a session that has not raised. When the first node
   * for the GlobalId carries all three labels, only its properties change: it keeps a
   * name it has (or gets one), always gets the type, and keeps its psets. When a second
   * node carries them, nothing tracked changes. Otherwise Neo4j creates a node, and ON
   * CREATE's `n.psets = $psets` stores a map: the statement raises and changes nothing.
   */
  lemma NodeMergeFields(py: Py, guid: string, obj: Value, s: Graph.State)
    requires NodeOf(py, guid, obj).Issue? && s.failure.None?
    ensures obj.Dict? && Psets(py, obj.fields).Ok? && GetType(obj.fields).Str?
    ensures var r := Graph.Step(s, NodeOf(py, guid, obj).st);
      var labels := IfcIngest.ElementLabels(GetType(obj.fields).s);
      if guid in s.nodes && labels <= s.nodes[guid].labels then
        var p0 := s.nodes[guid].props;
        var p := r.nodes[guid].props;
        r.failure.None? && r.edges == s.edges && r.twins == s.twins &&
        r.nodes == s.nodes[guid := Graph.Node(s.nodes[guid].labels, p)] &&
        "type" in p && p["type"] == GetType(obj.fields) &&
        "name" in p && p["name"] == (if "name" in p0 then p0["name"] else Str(GetName(obj.fields))) &&
        ("psets" in p <==> "psets" in p0) && ("psets" in p ==> p["psets"] == p0["psets"])
      else if guid in s.nodes && Graph.TwinHas(s.twins, guid, labels) then r == s
      else r == s.(failure := Some(Graph.PropertyTypeError))
  {
    var t := GetType(obj.fields).s;
    var name := GetName(obj.fields);
    var ps := StrKeys(Psets(py, obj.fields).value).value;
    var labels := IfcIngest.ElementLabels(t);
    assert NodeOf(py, guid, obj).st == Graph.MergeNodeS(guid, labels, NodeCreate(name, t, ps), NodeMatch(name, t), []);
    if guid in s.nodes && labels <= s.nodes[guid].labels {
      NodeMatchFields(name, t, s.nodes[guid].props);
    } else {
      NodeCreateRaises(name, t, ps, guid);
    }
  }

  /** A node MERGE whose ON CREATE stores a value Neo4j refuses. */
  predicate CreateRefused(st: Graph.Stmt) {
    st.MergeNodeS? && !Graph.MergedOk(Graph.Fresh(st.id), st.onCreate, st.always)
  }

  /** Every record's node MERGE stores the psets map ON CREATE. */
  lemma IssueRefused(py: Py, guid: string, obj: Value)
    requires NodeOf(py, guid, obj).Issue?
    ensures CreateRefused(NodeOf(py, guid, obj).st)
  {
    var t := GetType(obj.fields).s;
    var name := GetName(obj.fields);
    var ps := StrKeys(Psets(py, obj.fields).value).value;
    assert NodeOf(py, guid, obj).st ==
      Graph.MergeNodeS(guid, IfcIngest.ElementLabels(t), NodeCreate(name, t, ps), NodeMatch(name, t), []);
    NodeCreateRaises(name, t, ps, guid);
  }

  /** So does every statement pass 1 issues. */
  lemma {:induction false} Pass1Refused(py: Py, recs: seq<(string, Value)>)
    ensures forall st | st in Pass1(py, recs).stmts :: CreateRefused(st)
    decreases |recs|
  {
    if |recs| > 0 {
      var init := recs[..|recs| - 1];
      Pass1Refused(py, init);
      var n := NodeOf(py, recs[|recs| - 1].0, recs[|recs| - 1].1);
      assert Pass1(py, recs) == Next(Pass1(py, init), n);
      if n.Issue? {
        IssueRefused(py, recs[|recs| - 1].0, recs[|recs| - 1].1);
      }
    }
  }

  /**
   * Against a graph that holds no node yet, pass 1 raises at the first MERGE it issues:
   * no node is created, and nothing after that statement runs.
   */
  lemma EmptyGraphRaises(py: Py, recs: seq<(string, Value)>, s: Graph.State)
    requires s.failure.None? && s.nodes == map[] && |Pass1(py, recs).stmts| > 0
    ensures Graph.Exec(s, Pass1(py, recs).stmts) == s.(failure := Some(Graph.PropertyTypeError))
    ensures Graph.Ran(s, Pass1(py, recs).stmts) == 0
  {
    var stmts := Pass1(py, recs).stmts;
    Pass1Refused(py, recs);
    assert CreateRefused(stmts[0]);
    var s1 := Graph.Step(s, stmts[0]);
    assert s1 == s.(failure := Some(Graph.PropertyTypeError));
    assert Graph.Exec(s, [stmts[0]]) == s1 by {
      assert [stmts[0]][..0] == [];
    }
    assert stmts == [stmts[0]] + stmts[1..];
    Graph.ExecAppend(s, [stmts[0]], stmts[1..]);
    Graph.ExecFailed(s1, stmts[1..]);
    Graph.RanStops(s, [stmts[0]], stmts[1..]);
    assert Graph.Ran(s, [stmts[0]]) == 0 by {
      assert [stmts[0]][..0] == [];
    }
  }

  /**
   * The node MERGE's clauses are well formed: ON MATCH only repeats the type of ON CREATE
   * and fills in the name ON CREATE sets to a string.
   */
  lemma NodeMergeWellFormed(name: string, t: string, ps: Fields)
    ensures Graph.WellFormedMerge(NodeCreate(name, t, ps), NodeMatch(name, t), [])
  {
    var c := NodeCreate(name, t, ps);
    var m := NodeMatch(name, t);
    assert Graph.KeysOf(c) == {"name", "type", "psets"} by {
      assert c[0].key == "name" && c[1].key == "type" && c[2].key == "psets";
    }
    assert Graph.KeysOf(m) == {"name", "type"} by {
      assert m[0].key == "name" && m[1].key == "type";
    }
    assert Graph.KeysOf([]) == {};
    assert m[1] == c[1];
    assert c[0].Overwrite? && c[0].key == m[0].key && c[0].value != Null;
  }

  /** Re-issuing a record's node MERGE changes nothing. */
  lemma NodeMergeIdempotent(py: Py, guid: string, obj: Value, s: Graph.State)
    requires NodeOf(py, guid, obj).Issue?
    ensures var st := NodeOf(py, guid, obj).st; Graph.Step(Graph.Step(s, st), st) == Graph.Step(s, st)
  {
    var t := GetType(obj.fields).s;
    var name := GetName(obj.fields);
    var ps := StrKeys(Psets(py, obj.fields).value).value;
    var labels := IfcIngest.ElementLabels(t);
    assert NodeOf(py, guid, obj).st == Graph.MergeNodeS(guid, labels, NodeCreate(name, t, ps), NodeMatch(name, t), []);
    NodeMergeWellFormed(name, t, ps);
    Graph.MergeNodeIdempotent(s, guid, labels, NodeCreate(name, t, ps), NodeMatch(name, t), []);
  }

  // ----- pass 2: relationships -----

  /** `x if isinstance(x, list) else [x]`. */
  function AsList(v: Value): seq<Value> {
    if v.List? then v.items else [v]
  }

  /** One edge per related item whose id and the relating id are both truthy. */
  function Link(one: Value, kids: seq<Value>, rel: string, toOne: bool): seq<Graph.Stmt>
    decreases |kids|
  {
    if |kids| == 0 then []
    else
      var c := RefId(kids[|kids| - 1]);
      Link(one, kids[..|kids| - 1], rel, toOne) +
        (if Truthy(one) && Truthy(c) then
           [if toOne then Graph.MergeEdgeS(c, one, rel, "") else Graph.MergeEdgeS(one, c, rel, "")]
         else [])
  }

  /** The edge statements of a relation: exactly one per related item with a truthy id. */
  lemma {:induction false} LinkIn(one: Value, kids: seq<Value>, rel: string, toOne: bool, st: Graph.Stmt)
    ensures st in Link(one, kids, rel, toOne) <==>
      (Truthy(one) && exists i | 0 <= i < |kids| ::
         (Truthy(RefId(kids[i])) &&
          st == if toOne then Graph.MergeEdgeS(RefId(kids[i]), one, rel, "") else Graph.MergeEdgeS(one, RefId(kids[i]), rel, "")))
    decreases |kids|
  {
    if |kids| > 0 {
      var init := kids[..|kids| - 1];
      LinkIn(one, init, rel, toOne, st);
      assert forall i | 0 <= i < |init| :: init[i] == kids[i];
    }
  }

  const Contained := "IfcRelContainedInSpatialStructure"

  /** The edges pass 2 issues for one record; only `IfcRel*` records give any. */
  function RelStmts(obj: Value): seq<Graph.Stmt> {
    if !obj.Dict? then []
    else
      var d := obj.fields;
      var t := GetType(d);
      // A record whose type is not a string already stopped pass 1.
      if !t.Str? || !Text.StartsWith(t.s, "IfcRel") then []
      else
        var rs := OrGet(d, ["RelatingStructure", "relatingStructure"]);
        var re := OrGet(d, ["RelatedElements", "relatedElements"]);
        var ro := OrGet(d, ["RelatedObjects", "relatedObjects"]);
        var rb := OrGet(d, ["RelatedBuildings", "relatedBuildings"]);
        var rg := OrGet(d, ["RelatingGroup", "relatingGroup"]);
        var rso := OrGet(d, ["RelatingObject", "relatingObject"]);
        if t.s == Contained && Truthy(rs) && Truthy(re) then Link(RefId(rs), AsList(re), "CONTAINS", false)
        else if t.s == "IfcRelAggregates" && Truthy(rso) && Truthy(ro) then Link(RefId(rso), AsList(ro), "AGGREGATES", false)
        else if t.s == "IfcRelServicesBuildings" && Truthy(rb) then
          Link(RefId(OrGet(d, ["RelatingSystem", "relatingSystem"])), AsList(rb), "SERVICES", false)
        else if t.s == "IfcRelAssignsToGroup" && Truthy(rg) && Truthy(ro) then Link(RefId(rg), AsList(ro), "ASSIGNED_TO_SYSTEM", true)
        else []
  }

  function RelStmtsOf(rec: (string, Value)): seq<Graph.Stmt> {
    RelStmts(rec.1)
  }

  /**
   * Only `IfcRel*` records give edges; ASSIGNED_TO_SYSTEM runs from the element to the
   * group and SERVICES from the system to the building.
   */
  lemma RelDirections(obj: Value, st: Graph.Stmt)
    requires st in RelStmts(obj)
    ensures obj.Dict? && GetType(obj.fields).Str? && Text.StartsWith(GetType(obj.fields).s, "IfcRel")
    ensures st.MergeEdgeS? && st.dstLabel == ""
    ensures st.rel == "ASSIGNED_TO_SYSTEM" ==>
      st.dst == RefId(OrGet(obj.fields, ["RelatingGroup", "relatingGroup"])) &&
      exists i | 0 <= i < |AsList(OrGet(obj.fields, ["RelatedObjects", "relatedObjects"]))| ::
        st.src == RefId(AsList(OrGet(obj.fields, ["RelatedObjects", "relatedObjects"]))[i])
    ensures st.rel == "SERVICES" ==>
      st.src == RefId(OrGet(obj.fields, ["RelatingSystem", "relatingSystem"])) &&
      exists i | 0 <= i < |AsList(OrGet(obj.fields, ["RelatedBuildings", "relatedBuildings"]))| ::
        st.dst == RefId(AsList(OrGet(obj.fields, ["RelatedBuildings", "relatedBuildings"]))[i])
    ensures Truthy(st.src) && Truthy(st.dst)
  {
    var d := obj.fields;
    var rs := OrGet(d, ["RelatingStructure", "relatingStructure"]);
    var re := OrGet(d, ["RelatedElements", "relatedElements"]);
    var ro := OrGet(d, ["RelatedObjects", "relatedObjects"]);
    var rb := OrGet(d, ["RelatedBuildings", "relatedBuildings"]);
    var rg := OrGet(d, ["RelatingGroup", "relatingGroup"]);
    var rso := OrGet(d, ["RelatingObject", "relatingObject"]);
    var t := GetType(d).s;
    if t == Contained && Truthy(rs) && Truthy(re) {
      LinkIn(RefId(rs), AsList(re), "CONTAINS", false, st);
    } else if t == "IfcRelAggregates" && Truthy(rso) && Truthy(ro) {
      LinkIn(RefId(rso), AsList(ro), "AGGREGATES", false, st);
    } else if t == "IfcRelServicesBuildings" && Truthy(rb) {
      LinkIn(RefId(OrGet(d, ["RelatingSystem", "relatingSystem"])), AsList(rb), "SERVICES", false, st);
    } else {
      LinkIn(RefId(rg), AsList(ro), "ASSIGNED_TO_SYSTEM", true, st);
    }
  }

  // ----- main -----

  /**
   * Pass 1: one node MERGE per dict record, up to the first Python error or the first
   * statement Neo4j refuses; `created` counts the statements that ran.
   */
  method NodePass(py: Py, inst: seq<(string, Value)>, store: Graph.Store) returns (created: nat, error: Option<string>)
    requires store.Valid() && store.failure.None?
    modifies store
    ensures store.Valid()
    ensures var o := Pass1(py, inst);
      var s1 := Graph.Exec(old(store.AsState()), o.stmts);
      store.AsState() == s1 &&
      created == Graph.Ran(old(store.AsState()), o.stmts) &&
      error == (if s1.failure.Some? then s1.failure else o.error)
    ensures error.None? ==> created == CountDicts(inst)
  {
    ghost var s0 := store.AsState();
    ghost var issued: seq<Graph.Stmt> := [];
    created, error := 0, None;
    var i := 0;
    while i < |inst| && error.None?
      invariant 0 <= i <= |inst|
      invariant store.Valid()
      invariant Pass1(py, inst[..i]).stmts == issued
      invariant store.AsState() == Graph.Exec(s0, issued)
      invariant created == Graph.Ran(s0, issued)
      invariant error == if store.failure.Some? then store.failure else Pass1(py, inst[..i]).error
    {
      assert inst[..i + 1][..i] == inst[..i];
      var n := NodeOf(py, inst[i].0, inst[i].1);
      assert Pass1(py, inst[..i + 1]) == Next(Pass1(py, inst[..i]), n);
      match n {
        case Skip =>
        case Crash(e) =>
          error := Some(e);
        case Issue(st) =>
          store.MergeNode(st.id, st.labels, st.onCreate, st.onMatch, st.always);
          Graph.ExecSnoc(s0, issued, st);
          assert (issued + [st])[..|issued|] == issued;
          issued := issued + [st];
          if store.failure.Some? {
            error := store.failure;
          } else {
            created := created + 1;
          }
      }
      i := i + 1;
    }
    NodePassEnd(py, inst, i, s0, store.AsState());
    if error.None? {
      assert inst[..i] == inst;
      Graph.RanAll(s0, issued);
      Pass1Counts(py, inst);
    }
  }

  /**
   * Where pass 1 stops: after every record, at a Python error, or at a statement Neo4j
   * refused; the statements pass 1 would have issued after that point change nothing.
   */
  lemma NodePassEnd(py: Py, inst: seq<(string, Value)>, i: nat, s0: Graph.State, r: Graph.State)
    requires i <= |inst| && r == Graph.Exec(s0, Pass1(py, inst[..i]).stmts)
    requires i == |inst| || r.failure.Some? || Pass1(py, inst[..i]).error.Some?
    ensures Graph.Exec(s0, Pass1(py, inst).stmts) == r
    ensures Graph.Ran(s0, Pass1(py, inst).stmts) == Graph.Ran(s0, Pass1(py, inst[..i]).stmts)
    ensures r.failure.None? ==> Pass1(py, inst).error == Pass1(py, inst[..i]).error
  {
    if r.failure.Some? {
      Pass1Prefix(py, inst, i);
      StoppedRun(s0, Pass1(py, inst[..i]).stmts, Pass1(py, inst).stmts);
    } else if Pass1(py, inst[..i]).error.Some? {
      Pass1Sticks(py, inst, i);
    } else {
      assert inst[..i] == inst;
    }
  }

  /** Once a statement has raised, the statements issued after it neither run nor change anything. */
  lemma StoppedRun(s0: Graph.State, issued: seq<Graph.Stmt>, all: seq<Graph.Stmt>)
    requires issued <= all && Graph.Exec(s0, issued).failure.Some?
    ensures Graph.Exec(s0, all) == Graph.Exec(s0, issued) && Graph.Ran(s0, all) == Graph.Ran(s0, issued)
  {
    var rest := all[|issued|..];
    assert all == issued + rest;
    Graph.ExecAppend(s0, issued, rest);
    Graph.ExecFailed(Graph.Exec(s0, issued), rest);
    Graph.RanStops(s0, issued, rest);
  }

  /** Pass 2: the edges of every record, in order. */
  method EdgePass(inst: seq<(string, Value)>, store: Graph.Store)
    requires store.Valid()
    modifies store
    ensures store.Valid()
    ensures store.AsState()
            == Graph.Exec(old(store.AsState()), Graph.ConcatMap(inst, RelStmtsOf))
  {
    ghost var s0 := store.AsState();
    var j := 0;
    while j < |inst|
      invariant 0 <= j <= |inst|
      invariant store.Valid()
      invariant store.AsState() == Graph.Exec(s0, Graph.ConcatMap(inst[..j], RelStmtsOf))
    {
      assert inst[..j + 1][..j] == inst[..j];
      var edges := RelStmts(inst[j].1);
      store.Run(edges);
      Graph.ExecAppend(s0, Graph.ConcatMap(inst[..j], RelStmtsOf), edges);
      j := j + 1;
    }
    assert inst[..j] == inst;
  }

  /**
   * `main`: load the records, merge one node per dict record (pass 1), then the edges
   * of the `IfcRel*` records (pass 2). A load error issues nothing; an error in pass 1,
   * raised by Python or by Neo4j, ends the script after the statements that ran, and
   * pass 2 never starts.
   */
  method Ingest(py: Py, doc: Value, store: Graph.Store) returns (created: nat, error: Option<string>)
    requires store.Valid() && store.failure.None?
    modifies store
    ensures store.Valid()
    ensures Elevations.LoadInstances(doc).Failure? ==>
      error == Some(Elevations.LoadInstances(doc).error) && created == 0 &&
      store.AsState() == old(store.AsState())
    ensures Elevations.LoadInstances(doc).Ok? ==>
      var inst := Elevations.LoadInstances(doc).value;
      var o := Pass1(py, inst);
      var s1 := Graph.Exec(old(store.AsState()), o.stmts);
      created == Graph.Ran(old(store.AsState()), o.stmts) &&
      error == (if s1.failure.Some? then s1.failure else o.error) &&
      (error.None? ==> created == CountDicts(inst)) &&
      store.AsState() ==
        Graph.Exec(old(store.AsState()), o.stmts + (if error.None? then Graph.ConcatMap(inst, RelStmtsOf) else []))
  {
    var loaded := Elevations.LoadInstances(doc);
    if loaded.Failure? {
      return 0, Some(loaded.error);
    }
    var inst := loaded.value;
    ghost var s0 := store.AsState();
    created, error := NodePass(py, inst, store);
    if error.Some? {
      assert Pass1(py, inst).stmts + [] == Pass1(py, inst).stmts;
      return;
    }
    EdgePass(inst, store);
    Graph.ExecAppend(s0, Pass1(py, inst).stmts, Graph.ConcatMap(inst, RelStmtsOf));
  }
}
