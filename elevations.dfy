/**
 * Record access, numeric coercion, reference resolution and the Z walk up an
 * IfcLocalPlacement chain over an ifcJSON instance table (ingest/extract_elevations.py).
 * `ingest/ifcjson_edges.py` has the same `first` under the name `g`, and the same
 * `load_instances`.
 */
module Elevations {
  import opened Wrappers
  import opened PyValue
  import Text
  import Graph

  /** One ifcJSON record (a dict), and the instance table id → record. */
  type Fields = seq<(string, Value)>
  type Table = seq<(string, Value)>

  /** The first key of `keys` present in `d`, with its value (which may be None). */
  function FindFirst(d: Fields, keys: seq<string>): Option<Value>
    decreases |keys|
  {
    if |keys| == 0 then None
    else if Has(d, keys[0]) then Some(Get(d, keys[0]))
    else FindFirst(d, keys[1..])
  }

  lemma {:induction false} FindFirstSpec(d: Fields, keys: seq<string>)
    ensures FindFirst(d, keys).None? <==> forall i | 0 <= i < |keys| :: !Has(d, keys[i])
    ensures FindFirst(d, keys).Some? ==>
      exists i | 0 <= i < |keys| ::
        (Has(d, keys[i]) && FindFirst(d, keys).value == Get(d, keys[i]) && forall j | 0 <= j < i :: !Has(d, keys[j]))
    decreases |keys|
  {
    if |keys| > 0 && !Has(d, keys[0]) {
      FindFirstSpec(d, keys[1..]);
      assert forall i | 0 <= i < |keys| - 1 :: keys[1..][i] == keys[i + 1];
      if FindFirst(d, keys).Some? {
        var i :| 0 <= i < |keys| - 1 &&
          (Has(d, keys[1..][i]) && FindFirst(d, keys[1..]).value == Get(d, keys[1..][i]) &&
           forall j | 0 <= j < i :: !Has(d, keys[1..][j]));
        assert Has(d, keys[i + 1]);
      }
    }
  }

  /** `d.get("attributes") or {}` for a dict-valued or falsy entry. */
  function AttributesOf(d: Fields): Fields {
    var a := Get(d, "attributes");
    if a.Dict? then a.fields else []
  }

  /** `first(d, *keys)`: top-level keys first, then inside `attributes`, else None. */
  function First(d: Fields, keys: seq<string>): Value {
    match FindFirst(d, keys)
    case Some(v) => v
    case None =>
      match FindFirst(AttributesOf(d), keys)
      case Some(v) => v
      case None => Null
  }

  /**
   * `first` gives the value of the first listed key present at top level, even when it is
   * None; it looks in `attributes` only when no key is at top level; otherwise None.
   */
  lemma FirstSpec(d: Fields, keys: seq<string>)
    ensures (exists i | 0 <= i < |keys| :: Has(d, keys[i])) ==>
      exists i | 0 <= i < |keys| ::
        (Has(d, keys[i]) && First(d, keys) == Get(d, keys[i]) && forall j | 0 <= j < i :: !Has(d, keys[j]))
    ensures (forall i | 0 <= i < |keys| :: !Has(d, keys[i])) &&
            (exists i | 0 <= i < |keys| :: Has(AttributesOf(d), keys[i])) ==>
      exists i | 0 <= i < |keys| ::
        (Has(AttributesOf(d), keys[i]) && First(d, keys) == Get(AttributesOf(d), keys[i]) &&
         forall j | 0 <= j < i :: !Has(AttributesOf(d), keys[j]))
    ensures (forall i | 0 <= i < |keys| :: !Has(d, keys[i]) && !Has(AttributesOf(d), keys[i])) ==>
      First(d, keys) == Null
  {
    FindFirstSpec(d, keys);
    FindFirstSpec(AttributesOf(d), keys);
  }

  /**
   * Whether `k in a`, for a truthy `attributes` value `a` that is not a dict, ends in a
   * TypeError: a number or True raises at `k in a`; a string containing `k`, or a list
   * holding it, passes that test and then raises at `a[k]`.
   */
  predicate AttrKeyRaises(a: Value, k: string) {
    match a
    case Str(s) => Text.Contains(s, k)
    case List(items) => Str(k) in items
    case _ => true
  }

  /** The `attributes` loop of `first` over a truthy value that is not a dict. */
  function NonDictAttrs(a: Value, keys: seq<string>): Result<Value>
    decreases |keys|
  {
    if |keys| == 0 then Ok(Null)
    else if AttrKeyRaises(a, keys[0]) then Failure("TypeError")
    else NonDictAttrs(a, keys[1..])
  }

  lemma {:induction false} NonDictAttrsSpec(a: Value, keys: seq<string>)
    ensures NonDictAttrs(a, keys).Failure? <==> exists i | 0 <= i < |keys| :: AttrKeyRaises(a, keys[i])
    ensures NonDictAttrs(a, keys).Failure? ==> NonDictAttrs(a, keys).error == "TypeError"
    ensures NonDictAttrs(a, keys).Ok? ==> NonDictAttrs(a, keys).value == Null
    decreases |keys|
  {
    if |keys| > 0 && !AttrKeyRaises(a, keys[0]) {
      NonDictAttrsSpec(a, keys[1..]);
      assert forall i | 0 <= i < |keys| - 1 :: keys[1..][i] == keys[i + 1];
      if exists i | 0 <= i < |keys| :: AttrKeyRaises(a, keys[i]) {
        var i :| 0 <= i < |keys| && AttrKeyRaises(a, keys[i]);
        assert AttrKeyRaises(a, keys[1..][i - 1]);
      }
    }
  }

  /** `first(d, *keys)` with the TypeError it raises on a truthy `attributes` that is not a dict. */
  function FirstChecked(d: Fields, keys: seq<string>): Result<Value> {
    var a := Get(d, "attributes");
    if FindFirst(d, keys).None? && Truthy(a) && !a.Dict? then NonDictAttrs(a, keys)
    else Ok(First(d, keys))
  }

  /**
   * `first` raises TypeError exactly when no key is at top level, `attributes` is a truthy
   * value other than a dict, and some key reaches `k in a`/`a[k]` with a raise; otherwise
   * it returns what First gives.
   */
  lemma FirstRaises(d: Fields, keys: seq<string>)
    ensures var a := Get(d, "attributes");
      FirstChecked(d, keys).Failure? <==>
        FindFirst(d, keys).None? && Truthy(a) && !a.Dict? && exists i | 0 <= i < |keys| :: AttrKeyRaises(a, keys[i])
    ensures FirstChecked(d, keys).Failure? ==> FirstChecked(d, keys).error == "TypeError"
    ensures FirstChecked(d, keys).Ok? ==> FirstChecked(d, keys).value == First(d, keys)
  {
    var a := Get(d, "attributes");
    NonDictAttrsSpec(a, keys);
    if FindFirst(d, keys).None? && Truthy(a) && !a.Dict? {
      assert AttributesOf(d) == [];
      FindFirstSpec([], keys);
    }
  }

  /** `_as_float_primitive`: bool/int/float convert; a non-blank string is parsed. */
  function AsFloatPrimitive(py: Py, x: Value): (r: Option<real>)
    ensures x.Float? ==> r == Some(x.f)
    ensures x.Int? ==> r == Some(x.i as real)
    ensures x.Str? && Text.IsBlank(x.s) ==> r.None?
    ensures x.Null? || x.List? || x.Dict? ==> r.None?
  {
    match x
    case Bool(b) => Some(if b then 1.0 else 0.0)
    case Int(i) => Some(i as real)
    case Float(f) => Some(f)
    case Str(s) =>
      Text.StripEmptyIffBlank(s);
      if Text.Strip(s) != [] then py.parseFloat(s) else None
    case _ => None
  }

  const ValueKeys: seq<string> := ["value", "Value", "nominalValue", "NominalValue"]
  const VectorKeys: seq<string> := ["x", "X", "y", "Y", "z", "Z"]

  lemma GetSmaller(x: Value, k: string)
    requires x.Dict? && Has(x.fields, k)
    ensures Get(x.fields, k) < x
  {
    var r := Get(x.fields, k);
    GetSpec(x.fields, k);
    var i :| 0 <= i < |x.fields| && x.fields[i] == (k, r);
    assert x.fields[i].1 < x.fields[i];
  }

  /** `as_number`: unwrap numeric wrappers, lists and single-key dicts. */
  function AsNumber(py: Py, x: Value): Option<real>
    decreases x, 3, 0
  {
    match x
    case Null => None
    case List(items) => if items == [] then None else FirstNumber(py, x, 0)
    case Dict(_) => WrappedNumber(py, x, 0)
    case _ => AsFloatPrimitive(py, x)
  }

  /** The list branch of `as_number`, from element `i` on. */
  function FirstNumber(py: Py, x: Value, i: nat): Option<real>
    requires x.List? && i <= |x.items|
    decreases x, 1, |x.items| - i
  {
    if i == |x.items| then None
    else
      match AsNumber(py, x.items[i])
      case Some(v) => Some(v)
      case None => FirstNumber(py, x, i + 1)
  }

  /** The dict branch of `as_number`: value keys from `j` on, then the vector guard. */
  function WrappedNumber(py: Py, x: Value, j: nat): Option<real>
    requires x.Dict? && j <= |ValueKeys|
    decreases x, 2, |ValueKeys| - j
  {
    if j < |ValueKeys| then
      if Has(x.fields, ValueKeys[j]) then
        GetSmaller(x, ValueKeys[j]);
        match AsNumber(py, Get(x.fields, ValueKeys[j]))
        case Some(v) => Some(v)
        case None => WrappedNumber(py, x, j + 1)
      else WrappedNumber(py, x, j + 1)
    else if exists k | k in VectorKeys :: Has(x.fields, k) then None
    else MeasureNumber(py, x, 0)
  }

  /** The last two rules of the dict branch: an `IfcLengthMeasure` key, else a single entry. */
  function MeasureNumber(py: Py, x: Value, i: nat): Option<real>
    requires x.Dict? && i <= |x.fields|
    decreases x, 1, |x.fields| - i
  {
    if i < |x.fields| then
      if Text.Contains(x.fields[i].0, "IfcLengthMeasure") then AsNumber(py, x.fields[i].1)
      else MeasureNumber(py, x, i + 1)
    else if |x.fields| == 1 then AsNumber(py, x.fields[0].1)
    else None
  }

  lemma {:induction false} FirstNumberFrom(py: Py, x: Value, i: nat)
    requires x.List? && i <= |x.items|
    ensures FirstNumber(py, x, i).None? <==>
      forall n | i <= n < |x.items| :: AsNumber(py, x.items[n]).None?
    ensures FirstNumber(py, x, i).Some? ==>
      exists n | i <= n < |x.items| ::
        (AsNumber(py, x.items[n]) == FirstNumber(py, x, i) &&
         forall m | i <= m < n :: AsNumber(py, x.items[m]).None?)
    decreases |x.items| - i
  {
    if i < |x.items| && AsNumber(py, x.items[i]).None? {
      FirstNumberFrom(py, x, i + 1);
    }
  }

  /** On a list, `as_number` is the first element that coerces; None when there is none. */
  lemma AsNumberList(py: Py, items: seq<Value>)
    ensures AsNumber(py, List(items)).None? <==> forall n | 0 <= n < |items| :: AsNumber(py, items[n]).None?
    ensures AsNumber(py, List(items)).Some? ==>
      exists n | 0 <= n < |items| ::
        (AsNumber(py, items[n]) == AsNumber(py, List(items)) &&
         forall m | 0 <= m < n :: AsNumber(py, items[m]).None?)
  {
    if items != [] {
      FirstNumberFrom(py, List(items), 0);
    }
  }

  /** Whether the value under key `k` is present and coerces. */
  predicate Coerces(py: Py, d: Fields, k: string) {
    Has(d, k) && AsNumber(py, Get(d, k)).Some?
  }

  lemma {:induction false} WrappedFrom(py: Py, x: Value, j: nat)
    requires x.Dict? && j <= |ValueKeys|
    ensures (exists n | j <= n < |ValueKeys| :: Coerces(py, x.fields, ValueKeys[n])) ==>
      exists n | j <= n < |ValueKeys| ::
        (Coerces(py, x.fields, ValueKeys[n]) &&
         WrappedNumber(py, x, j) == AsNumber(py, Get(x.fields, ValueKeys[n])) &&
         forall m | j <= m < n :: !Coerces(py, x.fields, ValueKeys[m]))
    ensures (forall n | j <= n < |ValueKeys| :: !Coerces(py, x.fields, ValueKeys[n])) &&
            (exists k | k in VectorKeys :: Has(x.fields, k)) ==>
      WrappedNumber(py, x, j).None?
    decreases |ValueKeys| - j
  {
    if j < |ValueKeys| && !Coerces(py, x.fields, ValueKeys[j]) {
      WrappedFrom(py, x, j + 1);
    }
  }

  /**
   * On a dict, `as_number` takes the first of value/Value/nominalValue/NominalValue
   * that coerces; if none does and an x/X/y/Y/z/Z key is present, it gives None.
   */
  lemma AsNumberDict(py: Py, f: Fields)
    ensures (exists n | 0 <= n < |ValueKeys| :: Coerces(py, f, ValueKeys[n])) ==>
      exists n | 0 <= n < |ValueKeys| ::
        (Coerces(py, f, ValueKeys[n]) &&
         AsNumber(py, Dict(f)) == AsNumber(py, Get(f, ValueKeys[n])) &&
         forall m | 0 <= m < n :: !Coerces(py, f, ValueKeys[m]))
    ensures (forall n | 0 <= n < |ValueKeys| :: !Coerces(py, f, ValueKeys[n])) &&
            (exists k | k in VectorKeys :: Has(f, k)) ==>
      AsNumber(py, Dict(f)).None?
  {
    WrappedFrom(py, Dict(f), 0);
  }

  const RefKeys: seq<string> := ["ref", "$ref", "Ref", "REF"]

  /** `IfcResolver.deref`: resolve a reference against the table; None is `Null`. */
  function Deref(py: Py, inst: Table, x: Value): Value {
    match x
    case Dict(f) =>
      (match FindFirst(f, RefKeys)
       case Some(v) => Get(inst, Show(py, v))
       case None => x)
    case Str(s) => Get(inst, s)
    case _ => Null
  }

  /**
   * A bare string, or a dict with ref/$ref/Ref/REF, is looked up in the table (None when
   * dangling); a dict without those keys is itself; anything else is None.
   */
  lemma DerefSpec(py: Py, inst: Table, x: Value)
    ensures x.Str? ==> var r := Deref(py, inst, x);
      (Has(inst, x.s) ==> (x.s, r) in inst) && (!Has(inst, x.s) ==> r == Null)
    ensures x.Dict? && (forall i | 0 <= i < |RefKeys| :: !Has(x.fields, RefKeys[i])) ==> Deref(py, inst, x) == x
    ensures x.Dict? && (exists i | 0 <= i < |RefKeys| :: Has(x.fields, RefKeys[i])) ==>
      exists i | 0 <= i < |RefKeys| ::
        (Has(x.fields, RefKeys[i]) && (forall j | 0 <= j < i :: !Has(x.fields, RefKeys[j])) &&
         var id := Show(py, Get(x.fields, RefKeys[i]));
         (Has(inst, id) ==> (id, Deref(py, inst, x)) in inst) && (!Has(inst, id) ==> Deref(py, inst, x) == Null))
    ensures !x.Str? && !x.Dict? ==> Deref(py, inst, x) == Null
  {
    match x {
      case Str(s) => GetSpec(inst, s);
      case Dict(f) =>
        FindFirstSpec(f, RefKeys);
        match FindFirst(f, RefKeys) {
          case Some(v) => GetSpec(inst, Show(py, v));
          case None =>
        }
      case _ =>
    }
  }

  /** The non-None results of `as_number` over `vs`, in order. */
  function Coerced(py: Py, vs: seq<Value>): (r: seq<real>)
    ensures |r| <= |vs|
    decreases |vs|
  {
    if |vs| == 0 then []
    else
      match AsNumber(py, vs[0])
      case Some(v) => [v] + Coerced(py, vs[1..])
      case None => Coerced(py, vs[1..])
  }

  /** `Coerced` is empty exactly when nothing coerces, and holds only coerced values. */
  lemma {:induction false} CoercedSpec(py: Py, vs: seq<Value>)
    ensures Coerced(py, vs) == [] <==> forall i | 0 <= i < |vs| :: AsNumber(py, vs[i]).None?
    ensures forall n | 0 <= n < |Coerced(py, vs)| ::
      exists i | 0 <= i < |vs| :: AsNumber(py, vs[i]) == Some(Coerced(py, vs)[n])
    decreases |vs|
  {
    if |vs| > 0 {
      CoercedSpec(py, vs[1..]);
      assert forall i | 0 <= i < |vs| - 1 :: vs[1..][i] == vs[i + 1];
      var rest := Coerced(py, vs[1..]);
      if AsNumber(py, vs[0]).Some? {
        forall n | 1 <= n < |Coerced(py, vs)|
          ensures exists i | 0 <= i < |vs| :: AsNumber(py, vs[i]) == Some(Coerced(py, vs)[n])
        {
          assert Coerced(py, vs)[n] == rest[n - 1];
        }
      }
    }
  }

  /** The values of the keys of `keys` present in `d`, in the order of `keys`. */
  function PresentValues(d: Fields, keys: seq<string>): (r: seq<Value>)
    ensures |r| <= |keys|
    decreases |keys|
  {
    if |keys| == 0 then []
    else (if Has(d, keys[0]) then [Get(d, keys[0])] else []) + PresentValues(d, keys[1..])
  }

  const PointKeys: seq<string> := ["Coordinates", "coordinates"]

  /** The entries `coords_from_point` coerces: a list's items, or a dict's present x/X/y/Y/z/Z. */
  function PointEntries(pts: Value): seq<Value> {
    if pts.List? then pts.items else if pts.Dict? then PresentValues(pts.fields, VectorKeys) else []
  }

  /** `coords_from_point`: the coercible coordinates of a point, list or x/X/y/Y/z/Z dict. */
  function CoordsFromPoint(py: Py, cp: Fields): (r: Option<seq<real>>)
    ensures r.Some? ==> r.value != []
  {
    var pts := First(cp, PointKeys);
    var vals := Coerced(py, PointEntries(pts));
    if (pts.List? || pts.Dict?) && vals != [] then Some(vals) else None
  }

  /**
   * The coordinates are never None and never an empty list: each one is what `as_number`
   * gives for an entry of the list, or for a present x/X/y/Y/z/Z entry of the dict.
   */
  lemma CoordsSpec(py: Py, cp: Fields)
    ensures var pts := First(cp, PointKeys);
      (pts.List? ==> (CoordsFromPoint(py, cp).None? <==>
                      forall i | 0 <= i < |pts.items| :: AsNumber(py, pts.items[i]).None?)) &&
      (!pts.List? && !pts.Dict? ==> CoordsFromPoint(py, cp).None?)
    ensures var vs := PointEntries(First(cp, PointKeys));
      CoordsFromPoint(py, cp).Some? ==>
        forall n | 0 <= n < |CoordsFromPoint(py, cp).value| ::
          exists i | 0 <= i < |vs| :: AsNumber(py, vs[i]) == Some(CoordsFromPoint(py, cp).value[n])
  {
    CoercedSpec(py, PointEntries(First(cp, PointKeys)));
  }

  // ----- the placement walk -----

  const IdKeys: seq<string> := ["id", "GlobalId", "globalId"]
  const RelToKeys: seq<string> := ["PlacementRelTo", "placementRelTo"]

  /** `str(cur.get("id") or cur.get("GlobalId") or cur.get("globalId"))` when truthy. */
  function PlacementKey(py: Py, cur: Fields): Option<string> {
    var oid := OrGet(cur, IdKeys);
    if Truthy(oid) then Some(Show(py, oid)) else None
  }

  /** The third coordinate of a placement's resolved location, when it has at least three. */
  function ThirdCoord(py: Py, inst: Table, cur: Fields): Option<real> {
    var rp := Deref(py, inst, First(cur, ["RelativePlacement", "relativePlacement"]));
    if rp.Dict? then
      var loc := Deref(py, inst, First(rp.fields, ["Location", "location"]));
      if loc.Dict? then
        match CoordsFromPoint(py, loc.fields)
        case Some(c) => if |c| >= 3 then Some(c[2]) else None
        case None => None
      else None
    else None
  }

  /** The resolved parent placement (None is `Null`). */
  function Parent(py: Py, inst: Table, cur: Fields): Value {
    Deref(py, inst, First(cur, RelToKeys))
  }

  /**
   * The placements whose Z the loop adds, from `cur` on, having already seen the ids in
   * `seen` and made `steps` steps.
   */
  function Walk(py: Py, inst: Table, cur: Value, seen: set<string>, steps: nat): seq<Fields>
    decreases 64 - steps
  {
    if !cur.Dict? || steps >= 64 then []
    else
      var key := PlacementKey(py, cur.fields);
      if key.Some? && key.value in seen then []
      else
        var seen' := if key.Some? then seen + {key.value} else seen;
        [cur.fields] + Walk(py, inst, Parent(py, inst, cur.fields), seen', steps + 1)
  }

  /** What one placement adds to the sum. */
  function Contribution(py: Py, inst: Table, p: Fields): real {
    match ThirdCoord(py, inst, p)
    case Some(z) => z
    case None => 0.0
  }

  /** The sum of the third coordinates of the placements in `ps`. */
  function SumZ(py: Py, inst: Table, ps: seq<Fields>): real
    decreases |ps|
  {
    if |ps| == 0 then 0.0 else Contribution(py, inst, ps[0]) + SumZ(py, inst, ps[1..])
  }

  /**
   * `IfcResolver.z_from_local_placement`: sum Z up the PlacementRelTo chain, stopping at a
   * repeated id, a missing parent or after 64 steps. Always a number.
   */
  method ZFromLocalPlacement(py: Py, inst: Table, lp: Fields) returns (r: Option<real>)
    ensures r == Some(SumZ(py, inst, Walk(py, inst, Dict(lp), {}, 0)))
  {
    ghost var total := SumZ(py, inst, Walk(py, inst, Dict(lp), {}, 0));
    var seen: set<string> := {};
    var zTotal := 0.0;
    var steps: nat := 0;
    var cur := Dict(lp);
    var stop := false;
    while !stop && cur.Dict? && steps < 64
      invariant steps <= 64
      invariant stop ==> zTotal == total
      invariant !stop ==> zTotal + SumZ(py, inst, Walk(py, inst, cur, seen, steps)) == total
      decreases 64 - steps, if stop then 0 else 1
    {
      WalkStep(py, inst, cur, seen, steps);
      var key := PlacementKey(py, cur.fields);
      if key.Some? && key.value in seen {
        stop := true;
      } else {
        seen := if key.Some? then seen + {key.value} else seen;
        zTotal := zTotal + Contribution(py, inst, cur.fields);
        var parent := Parent(py, inst, cur.fields);
        if parent == Null {
          stop := true;
        } else {
          cur := parent;
          steps := steps + 1;
        }
      }
    }
    if !stop {
      WalkStops(py, inst, cur, seen, steps);
    }
    r := if steps >= 0 then Some(zTotal) else None;
  }

  /** The walk ends at a non-dict or after 64 steps. */
  lemma WalkStops(py: Py, inst: Table, cur: Value, seen: set<string>, steps: nat)
    requires !cur.Dict? || steps >= 64
    ensures SumZ(py, inst, Walk(py, inst, cur, seen, steps)) == 0.0
  {
  }

  /**
   * One iteration of the walk: nothing more at an id already seen, otherwise the current
   * placement's Z and then the rest of the chain.
   */
  lemma WalkStep(py: Py, inst: Table, cur: Value, seen: set<string>, steps: nat)
    requires cur.Dict? && steps < 64
    ensures var key := PlacementKey(py, cur.fields);
      key.Some? && key.value in seen ==> SumZ(py, inst, Walk(py, inst, cur, seen, steps)) == 0.0
    ensures var key := PlacementKey(py, cur.fields);
      var seen' := if key.Some? then seen + {key.value} else seen;
      !(key.Some? && key.value in seen) ==>
        SumZ(py, inst, Walk(py, inst, cur, seen, steps)) ==
          Contribution(py, inst, cur.fields) + SumZ(py, inst, Walk(py, inst, Parent(py, inst, cur.fields), seen', steps + 1))
    ensures var key := PlacementKey(py, cur.fields);
      var seen' := if key.Some? then seen + {key.value} else seen;
      Parent(py, inst, cur.fields) == Null ==>
        SumZ(py, inst, Walk(py, inst, Parent(py, inst, cur.fields), seen', steps + 1)) == 0.0
  {
    var key := PlacementKey(py, cur.fields);
    if !(key.Some? && key.value in seen) {
      var seen' := if key.Some? then seen + {key.value} else seen;
      var rest := Walk(py, inst, Parent(py, inst, cur.fields), seen', steps + 1);
      assert Walk(py, inst, cur, seen, steps) == [cur.fields] + rest;
      assert ([cur.fields] + rest)[1..] == rest;
    }
  }

  /** At most 64 placements contribute to the sum. */
  lemma {:induction false} WalkBounded(py: Py, inst: Table, cur: Value, seen: set<string>, steps: nat)
    requires steps <= 64
    ensures |Walk(py, inst, cur, seen, steps)| <= 64 - steps
    decreases 64 - steps
  {
    if cur.Dict? && steps < 64 {
      var key := PlacementKey(py, cur.fields);
      if !(key.Some? && key.value in seen) {
        var seen' := if key.Some? then seen + {key.value} else seen;
        WalkBounded(py, inst, Parent(py, inst, cur.fields), seen', steps + 1);
      }
    }
  }

  /** No id already seen is walked, and no id is walked twice. */
  /** No placement of `w` has an id in `seen`. */
  predicate KeysOutside(py: Py, w: seq<Fields>, seen: set<string>) {
    forall i | 0 <= i < |w| && PlacementKey(py, w[i]).Some? :: PlacementKey(py, w[i]).value !in seen
  }

  /** No two placements of `w` have the same id. */
  predicate KeysDistinct(py: Py, w: seq<Fields>) {
    forall i, j | 0 <= i < j < |w| && PlacementKey(py, w[i]).Some? && PlacementKey(py, w[j]).Some? ::
      PlacementKey(py, w[i]).value != PlacementKey(py, w[j]).value
  }

  lemma {:induction false} WalkDistinct(py: Py, inst: Table, cur: Value, seen: set<string>, steps: nat)
    ensures KeysOutside(py, Walk(py, inst, cur, seen, steps), seen)
    ensures KeysDistinct(py, Walk(py, inst, cur, seen, steps))
    decreases 64 - steps
  {
    var w := Walk(py, inst, cur, seen, steps);
    if cur.Dict? && steps < 64 {
      var key := PlacementKey(py, cur.fields);
      if !(key.Some? && key.value in seen) {
        var seen' := if key.Some? then seen + {key.value} else seen;
        var p := Parent(py, inst, cur.fields);
        var rest := Walk(py, inst, p, seen', steps + 1);
        WalkDistinct(py, inst, p, seen', steps + 1);
        assert w == [cur.fields] + rest;
        forall i | 0 <= i < |w| && PlacementKey(py, w[i]).Some?
          ensures PlacementKey(py, w[i]).value !in seen
        {
          if i > 0 {
            assert w[i] == rest[i - 1];
            assert PlacementKey(py, rest[i - 1]).value !in seen';
          }
        }
        forall i, j | 0 <= i < j < |w| && PlacementKey(py, w[i]).Some? && PlacementKey(py, w[j]).Some?
          ensures PlacementKey(py, w[i]).value != PlacementKey(py, w[j]).value
        {
          assert w[j] == rest[j - 1];
          assert PlacementKey(py, rest[j - 1]).value !in seen';
          if i > 0 {
            assert w[i] == rest[i - 1];
          } else {
            assert w[0] == cur.fields;
          }
        }
      } else {
        assert w == [];
      }
    } else {
      assert w == [];
    }
  }

  /** The contributions summed are exactly the third coordinates of the walked placements. */
  lemma {:induction false} SumZSplit(py: Py, inst: Table, a: seq<Fields>, b: seq<Fields>)
    ensures SumZ(py, inst, a + b) == SumZ(py, inst, a) + SumZ(py, inst, b)
    decreases |a|
  {
    if |a| == 0 {
      assert a + b == b;
    } else {
      assert (a + b)[1..] == a[1..] + b;
      assert (a + b)[0] == a[0];
      SumZSplit(py, inst, a[1..], b);
    }
  }

  const PlacementKeys: seq<string> := ["ObjectPlacement", "objectPlacement"]

  /** The value `z_from_object_placement` returns. */
  function PlacementZ(py: Py, inst: Table, obj: Fields): Option<real> {
    var op := Deref(py, inst, First(obj, PlacementKeys));
    if op.Dict? then Some(SumZ(py, inst, Walk(py, inst, op, {}, 0))) else None
  }

  /** `IfcResolver.z_from_object_placement`: None only when ObjectPlacement is not a dict. */
  method ZFromObjectPlacement(py: Py, inst: Table, obj: Fields) returns (r: Option<real>)
    ensures r.None? <==> !Deref(py, inst, First(obj, PlacementKeys)).Dict?
    ensures r == PlacementZ(py, inst, obj)
  {
    var op := Deref(py, inst, First(obj, PlacementKeys));
    if !op.Dict? {
      return None;
    }
    r := ZFromLocalPlacement(py, inst, op.fields);
  }

  /** `load_instances`: "objects", then "instances", then an all-dict document; else an error. */
  function LoadInstances(doc: Value): (r: Result<Table>)
    ensures !doc.Dict? ==> r.Failure?
    ensures doc.Dict? && Get(doc.fields, "objects").Dict? ==> r == Ok(Get(doc.fields, "objects").fields)
    ensures doc.Dict? && !Get(doc.fields, "objects").Dict? && Get(doc.fields, "instances").Dict? ==>
      r == Ok(Get(doc.fields, "instances").fields)
    ensures doc.Dict? && !Get(doc.fields, "objects").Dict? && !Get(doc.fields, "instances").Dict? ==>
      (r.Ok? <==> forall i | 0 <= i < |doc.fields| :: doc.fields[i].1.Dict?) &&
      (r.Ok? ==> r.value == doc.fields)
  {
    if !doc.Dict? then Failure("AttributeError")
    else if Get(doc.fields, "objects").Dict? then Ok(Get(doc.fields, "objects").fields)
    else if Get(doc.fields, "instances").Dict? then Ok(Get(doc.fields, "instances").fields)
    else if forall i | 0 <= i < |doc.fields| :: doc.fields[i].1.Dict? then Ok(doc.fields)
    else Failure("ValueError: Unsupported ifcJSON structure")
  }

  // ----- the spatial index -----

  const TypeKeys: seq<string> := ["type", "class", "schema"]
  const RefIdKeys: seq<string> := ["ref", "$ref", "id", "GlobalId", "globalId"]
  const ContainedIn := "IfcRelContainedInSpatialStructure"

  /** `o.get("type") or o.get("class") or o.get("schema") or ""`. */
  function TypeOf(o: Fields): Value {
    var t := OrGet(o, TypeKeys);
    if Truthy(t) then t else Str("")
  }

  /** The structure id of a containment record: `str(...)` of a dict's id, or a bare string. */
  function StructureId(py: Py, rs: Value): Option<string> {
    match rs
    case Dict(f) => Some(Show(py, OrGet(f, RefIdKeys)))
    case Str(s) => Some(s)
    case _ => None
  }

  /** The id one related element contributes. */
  function ElementId(py: Py, e: Value): seq<string> {
    match e
    case Dict(f) => var eid := OrGet(f, RefIdKeys); if Truthy(eid) then [Show(py, eid)] else []
    case Str(s) => [s]
    case _ => []
  }

  /** The ids of RelatedElements, in order. */
  function ElementIds(py: Py, re: Value): seq<string>
    decreases re, 1
  {
    match re
    case List(items) => ElementIdsOf(py, items)
    case Dict(_) => ElementId(py, re)
    case _ => []
  }

  function ElementIdsOf(py: Py, items: seq<Value>): (r: seq<string>)
    ensures forall n | 0 <= n < |r| :: exists i | 0 <= i < |items| :: r[n] in ElementId(py, items[i])
    decreases |items|
  {
    if |items| == 0 then []
    else
      var rest := ElementIdsOf(py, items[1..]);
      assert forall i | 0 <= i < |items| - 1 :: items[1..][i] == items[i + 1];
      assert forall n | 0 <= n < |rest| :: (ElementId(py, items[0]) + rest)[|ElementId(py, items[0])| + n] == rest[n];
      ElementId(py, items[0]) + rest
  }

  /** The (structure id, child ids) one record contributes, when it is a containment. */
  function Containment(py: Py, o: Value): (r: Option<(string, seq<string>)>)
    ensures r.Some? ==> o.Dict? && TypeOf(o.fields).Str? && Text.StartsWith(TypeOf(o.fields).s, ContainedIn)
    ensures r.Some? ==> r.value.0 != ""
  {
    if !o.Dict? then None
    else
      var t := TypeOf(o.fields);
      if t.Str? && Text.StartsWith(t.s, ContainedIn) then
        var relStr := First(o.fields, ["RelatingStructure", "relatingStructure",
                                       "RelatingSpatialStructure", "relatingSpatialStructure"]);
        var relEl := First(o.fields, ["RelatedElements", "relatedElements"]);
        match StructureId(py, relStr)
        case Some(sid) => if sid == "" then None else Some((sid, ElementIds(py, relEl)))
        case None => None
      else None
  }

  /** The containments of the table, in table order. */
  function Containments(py: Py, inst: Table): seq<(string, seq<string>)>
    decreases |inst|
  {
    if |inst| == 0 then []
    else
      Containments(py, inst[..|inst| - 1]) +
      match Containment(py, inst[|inst| - 1].1) case Some(c) => [c] case None => []
  }

  /** The children listed for `sid`, across every containment naming it, in order. */
  function ChildrenOf(rels: seq<(string, seq<string>)>, sid: string): seq<string>
    decreases |rels|
  {
    if |rels| == 0 then []
    else ChildrenOf(rels[..|rels| - 1], sid) + (if rels[|rels| - 1].0 == sid then rels[|rels| - 1].1 else [])
  }

  /** Children accumulate across relations with the same structure id. */
  lemma {:induction false} ChildrenOfAppend(a: seq<(string, seq<string>)>, b: seq<(string, seq<string>)>, sid: string)
    ensures ChildrenOf(a + b, sid) == ChildrenOf(a, sid) + ChildrenOf(b, sid)
    decreases |b|
  {
    if |b| == 0 {
      assert a + b == a;
    } else {
      assert (a + b)[..|a + b| - 1] == a + b[..|b| - 1];
      assert (a + b)[|a + b| - 1] == b[|b| - 1];
      ChildrenOfAppend(a, b[..|b| - 1], sid);
    }
  }

  /** A structure reference without any id key yields the id "None". */
  lemma StructureWithoutId(py: Py)
    ensures StructureId(py, Dict([])) == Some("None")
  {
  }

  /** What the index holds after the containments `rels` have been added. */
  ghost predicate IndexOf(children: map<string, seq<string>>, rels: seq<(string, seq<string>)>) {
    (forall sid :: sid in children <==> exists n | 0 <= n < |rels| :: rels[n].0 == sid) &&
    (forall sid | sid in children :: children[sid] == ChildrenOf(rels, sid))
  }

  /** `children.setdefault(sid, []).extend(arr)` adds one containment. */
  lemma IndexStep(children: map<string, seq<string>>, rels: seq<(string, seq<string>)>, c: (string, seq<string>))
    requires IndexOf(children, rels)
    ensures IndexOf(children[c.0 := (if c.0 in children then children[c.0] else []) + c.1], rels + [c])
  {
    var rels' := rels + [c];
    assert rels'[..|rels'| - 1] == rels;
    if c.0 !in children && ChildrenOf(rels, c.0) != [] {
      NonEmptyChildren(rels, c.0);
    }
    var children' := children[c.0 := (if c.0 in children then children[c.0] else []) + c.1];
    forall sid ensures sid in children' <==> exists n | 0 <= n < |rels'| :: rels'[n].0 == sid {
      if sid != c.0 && sid !in children {
        forall n | 0 <= n < |rels'| ensures rels'[n].0 != sid {
          if n < |rels| {
            assert rels'[n] == rels[n];
          }
        }
      }
      if sid in children {
        var n :| 0 <= n < |rels| && rels[n].0 == sid;
        assert rels'[n].0 == sid;
      }
      if sid == c.0 {
        assert rels'[|rels|].0 == sid;
      }
    }
  }

  /** `build_spatial_index`: structure id → child ids, in relation order. */
  method BuildSpatialIndex(py: Py, inst: Table) returns (children: map<string, seq<string>>)
    ensures IndexOf(children, Containments(py, inst))
  {
    children := map[];
    var i := 0;
    while i < |inst|
      invariant 0 <= i <= |inst|
      invariant IndexOf(children, Containments(py, inst[..i]))
    {
      ContainmentsSnoc(py, inst, i);
      var rels := Containments(py, inst[..i]);
      var c := Containment(py, inst[i].1);
      if c.Some? {
        IndexStep(children, rels, c.value);
        children := children[c.value.0 := (if c.value.0 in children then children[c.value.0] else []) + c.value.1];
      }
      i := i + 1;
    }
    assert inst[..|inst|] == inst;
  }

  lemma ContainmentsSnoc(py: Py, inst: Table, i: nat)
    requires i < |inst|
    ensures Containment(py, inst[i].1).None? ==> Containments(py, inst[..i + 1]) == Containments(py, inst[..i])
    ensures Containment(py, inst[i].1).Some? ==>
      Containments(py, inst[..i + 1]) == Containments(py, inst[..i]) + [Containment(py, inst[i].1).value]
  {
    assert inst[..i + 1][..i] == inst[..i];
    assert Containments(py, inst[..i]) + [] == Containments(py, inst[..i]);
  }

  lemma {:induction false} NonEmptyChildren(rels: seq<(string, seq<string>)>, sid: string)
    requires ChildrenOf(rels, sid) != []
    ensures exists n | 0 <= n < |rels| :: rels[n].0 == sid
    decreases |rels|
  {
    var last := rels[|rels| - 1];
    if last.0 != sid {
      NonEmptyChildren(rels[..|rels| - 1], sid);
      var n :| 0 <= n < |rels| - 1 && rels[..|rels| - 1][n].0 == sid;
      assert rels[n].0 == sid;
    }
  }
  // ----- pass 1 (storey elevation) and pass 2 (element Z) of the elevation script -----

  const ElevationKeys: seq<string> := ["Elevation", "elevation", "ElevationOfRefHeight"]

  /**
   * The elevation pass 1 writes for a record: for an IfcBuildingStorey, its Elevation
   * attribute when that coerces, else its placement Z; nothing for any other record.
   */
  function StoreyElevation(py: Py, inst: Table, obj: Value): Option<real> {
    if !obj.Dict? || TypeOf(obj.fields) != Str("IfcBuildingStorey") then None
    else
      match AsNumber(py, First(obj.fields, ElevationKeys))
      case Some(z) => Some(z)
      case None => PlacementZ(py, inst, obj.fields)
  }

  /** Only storeys get an elevation, and the attribute takes precedence over the placement. */
  lemma StoreyElevationChoice(py: Py, inst: Table, obj: Value)
    ensures StoreyElevation(py, inst, obj).Some? ==> obj.Dict? && TypeOf(obj.fields) == Str("IfcBuildingStorey")
    ensures obj.Dict? && TypeOf(obj.fields) == Str("IfcBuildingStorey") ==>
      (AsNumber(py, First(obj.fields, ElevationKeys)).Some? ==>
         StoreyElevation(py, inst, obj) == AsNumber(py, First(obj.fields, ElevationKeys))) &&
      (AsNumber(py, First(obj.fields, ElevationKeys)).None? ==>
         (StoreyElevation(py, inst, obj).None? <==> !Deref(py, inst, First(obj.fields, PlacementKeys)).Dict?))
  {
  }

  /** The value a pass writes for one record: pass 1 the storey elevation, pass 2 the placement Z. */
  function PassValue(py: Py, inst: Table, obj: Value, storeys: bool): Option<real> {
    if storeys then StoreyElevation(py, inst, obj)
    else if obj.Dict? then PlacementZ(py, inst, obj.fields)
    else None
  }

  /** The (guid, value) writes a pass issues over the records `recs` (a prefix of the table). */
  function Writes(py: Py, inst: Table, recs: Table, storeys: bool): seq<(string, real)>
    decreases |recs|
  {
    if |recs| == 0 then []
    else
      var last := recs[|recs| - 1];
      Writes(py, inst, recs[..|recs| - 1], storeys) +
      match PassValue(py, inst, last.1, storeys) case Some(v) => [(last.0, v)] case None => []
  }

  lemma WritesSnoc(py: Py, inst: Table, i: nat, storeys: bool)
    requires i < |inst|
    ensures PassValue(py, inst, inst[i].1, storeys).None? ==>
      Writes(py, inst, inst[..i + 1], storeys) == Writes(py, inst, inst[..i], storeys)
    ensures PassValue(py, inst, inst[i].1, storeys).Some? ==>
      Writes(py, inst, inst[..i + 1], storeys) ==
        Writes(py, inst, inst[..i], storeys) + [(inst[i].0, PassValue(py, inst, inst[i].1, storeys).value)]
  {
    assert inst[..i + 1][..i] == inst[..i];
    assert Writes(py, inst, inst[..i], storeys) + [] == Writes(py, inst, inst[..i], storeys);
  }

  /**
   * The store after the writes `ws`: `MATCH (n:need {globalId:$id}) SET n.key = $z` for each
   * (id, z) in turn (`need` "" matches any node).
   */
  function ApplyWrites(nodes: map<string, Graph.Node>, need: string, key: string, ws: seq<(string, real)>)
    : map<string, Graph.Node>
    decreases |ws|
  {
    if |ws| == 0 then nodes
    else
      var last := ws[|ws| - 1];
      Graph.MatchSet(ApplyWrites(nodes, need, key, ws[..|ws| - 1]), last.0, need,
                     [Graph.Overwrite(key, Float(last.1))], [])
  }

  lemma ApplyWritesSnoc(nodes: map<string, Graph.Node>, need: string, key: string,
                        ws: seq<(string, real)>, w: (string, real))
    ensures ApplyWrites(nodes, need, key, ws + [w]) ==
      Graph.MatchSet(ApplyWrites(nodes, need, key, ws), w.0, need, [Graph.Overwrite(key, Float(w.1))], [])
  {
    assert (ws + [w])[..|ws|] == ws;
  }

  /**
   * The writes create no node, change no labels, and touch only `key`, and only on nodes
   * that carry `need`.
   */
  lemma {:induction false} ApplyWritesOnly(nodes: map<string, Graph.Node>, need: string, key: string,
                                           ws: seq<(string, real)>)
    ensures ApplyWrites(nodes, need, key, ws).Keys == nodes.Keys
    ensures forall id | id in nodes :: ApplyWrites(nodes, need, key, ws)[id].labels == nodes[id].labels
    ensures forall id, k | id in nodes && k != key ::
      (k in ApplyWrites(nodes, need, key, ws)[id].props <==> k in nodes[id].props) &&
      (k in nodes[id].props ==> ApplyWrites(nodes, need, key, ws)[id].props[k] == nodes[id].props[k])
    ensures forall id | id in nodes && need != "" && need !in nodes[id].labels ::
      ApplyWrites(nodes, need, key, ws)[id] == nodes[id]
    decreases |ws|
  {
    if |ws| > 0 {
      ApplyWritesOnly(nodes, need, key, ws[..|ws| - 1]);
      var last := ws[|ws| - 1];
      Graph.MatchSetOne(ApplyWrites(nodes, need, key, ws[..|ws| - 1]), last.0, need, key, Float(last.1));
    }
  }

  /**
   * `MATCH (n:need {globalId:$id}) SET n.key = $z`: a float is always stored, so the
   * statement is the node-map update `MatchSet`, unless the script has already raised.
   */
  method WriteFloat(store: Graph.Store, id: string, need: string, key: string, z: real)
    requires store.Valid()
    modifies store
    ensures store.Valid() && store.edges == old(store.edges) && store.twins == old(store.twins)
    ensures store.failure == old(store.failure)
    ensures store.nodes == if store.failure.Some? then old(store.nodes)
                           else Graph.MatchSet(old(store.nodes), id, need, [Graph.Overwrite(key, Float(z))], [])
  {
    if store.failure.None? && id in store.nodes {
      var p := store.nodes[id].props;
      assert [Graph.Overwrite(key, Float(z))][1..] == [];
      assert Graph.StoresOk(p, [Graph.Overwrite(key, Float(z))]);
    }
    store.MatchAndSet(id, need, [Graph.Overwrite(key, Float(z))], []);
  }

  /** Pass 1 of `main`: write `elev` on every storey whose elevation is known. */
  method SetStoreyElevations(py: Py, inst: Table, store: Graph.Store) returns (count: nat)
    requires store.Valid()
    modifies store
    ensures store.Valid() && store.edges == old(store.edges) && store.twins == old(store.twins)
    ensures store.failure == old(store.failure)
    ensures store.nodes == if store.failure.Some? then old(store.nodes)
                           else ApplyWrites(old(store.nodes), "IfcBuildingStorey", "elev", Writes(py, inst, inst, true))
    ensures count == |Writes(py, inst, inst, true)|
  {
    count := 0;
    var i := 0;
    while i < |inst|
      invariant 0 <= i <= |inst|
      invariant store.Valid() && store.edges == old(store.edges) && store.twins == old(store.twins)
      invariant store.failure == old(store.failure)
      invariant store.nodes == if store.failure.Some? then old(store.nodes)
                               else ApplyWrites(old(store.nodes), "IfcBuildingStorey", "elev", Writes(py, inst, inst[..i], true))
      invariant count == |Writes(py, inst, inst[..i], true)|
    {
      WritesSnoc(py, inst, i, true);
      var guid := inst[i].0;
      var obj := inst[i].1;
      var z: Option<real> := None;
      if obj.Dict? && TypeOf(obj.fields) == Str("IfcBuildingStorey") {
        z := AsNumber(py, First(obj.fields, ElevationKeys));
        if z.None? {
          z := ZFromObjectPlacement(py, inst, obj.fields);
        }
      }
      assert z == PassValue(py, inst, obj, true);
      if z.Some? {
        ApplyWritesSnoc(old(store.nodes), "IfcBuildingStorey", "elev", Writes(py, inst, inst[..i], true), (guid, z.value));
        WriteFloat(store, guid, "IfcBuildingStorey", "elev", z.value);
        count := count + 1;
      }
      i := i + 1;
    }
    assert inst[..|inst|] == inst;
  }

  /** Pass 2 of `main`: write `z` on every node whose record has a placement Z. */
  /** The placement Z pass 2 reads for one record: None for a record that is not a dict. */
  method ElementZ(py: Py, inst: Table, obj: Value) returns (z: Option<real>)
    ensures z == PassValue(py, inst, obj, false)
    ensures z.Some? ==> obj.Dict?
  {
    z := None;
    if obj.Dict? {
      z := ZFromObjectPlacement(py, inst, obj.fields);
    }
  }

  /** The (guid, z) pairs pass 2 writes, in table order. */
  method ElementWrites(py: Py, inst: Table) returns (ws: seq<(string, real)>)
    ensures ws == Writes(py, inst, inst, false)
  {
    ws := [];
    var i := 0;
    while i < |inst|
      invariant 0 <= i <= |inst|
      invariant ws == Writes(py, inst, inst[..i], false)
    {
      WritesSnoc(py, inst, i, false);
      var z := ElementZ(py, inst, inst[i].1);
      if z.Some? {
        ws := ws + [(inst[i].0, z.value)];
      }
      i := i + 1;
    }
    assert inst[..|inst|] == inst;
  }

  /** `MATCH (n:need {globalId:$id}) SET n.key = $z` for each pair of `ws` in turn. */
  method StoreWrites(store: Graph.Store, need: string, key: string, ws: seq<(string, real)>)
    requires store.Valid()
    modifies store
    ensures store.Valid() && store.edges == old(store.edges) && store.twins == old(store.twins)
    ensures store.failure == old(store.failure)
    ensures store.nodes == if store.failure.Some? then old(store.nodes) else ApplyWrites(old(store.nodes), need, key, ws)
  {
    var i := 0;
    while i < |ws|
      invariant 0 <= i <= |ws|
      invariant store.Valid() && store.edges == old(store.edges) && store.twins == old(store.twins)
      invariant store.failure == old(store.failure)
      invariant store.nodes == if store.failure.Some? then old(store.nodes) else ApplyWrites(old(store.nodes), need, key, ws[..i])
    {
      ApplyWritesSnoc(old(store.nodes), need, key, ws[..i], ws[i]);
      assert ws[..i + 1] == ws[..i] + [ws[i]];
      WriteFloat(store, ws[i].0, need, key, ws[i].1);
      i := i + 1;
    }
    assert ws[..|ws|] == ws;
  }

  /**
   * Pass 2 of `main`: write `z` on every node whose record has a placement Z. The reads
   * never look at the store, so collecting the pairs first and writing them afterwards
   * issues the same statements in the same order as the interleaved loop.
   */
  method SetElementZ(py: Py, inst: Table, store: Graph.Store) returns (count: nat)
    requires store.Valid()
    modifies store
    ensures store.Valid() && store.edges == old(store.edges) && store.twins == old(store.twins)
    ensures store.failure == old(store.failure)
    ensures store.nodes == if store.failure.Some? then old(store.nodes)
                           else ApplyWrites(old(store.nodes), "", "z", Writes(py, inst, inst, false))
    ensures count == |Writes(py, inst, inst, false)|
  {
    var ws := ElementWrites(py, inst);
    StoreWrites(store, "", "z", ws);
    count := |ws|;
  }
}
