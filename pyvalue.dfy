/**
 * The values the scripts handle: what `json.loads` yields for an ifcJSON document
 * (None, bool, int, float, str, list, dict), Python's truthiness and `str()` on them,
 * and the two foreign conversions the model takes as parameters.
 */
module PyValue {
  import opened Wrappers
  import Text
  import PyDict

  datatype Value =
    | Null
    | Bool(b: bool)
    | Int(i: int)
    | Float(f: real)
    | Str(s: string)
    | List(items: seq<Value>)
    | Dict(fields: seq<(string, Value)>)

  /**
   * Conversions done by the Python runtime and not modelled here: `float(text)` on a
   * non-blank string (None where Python raises), and `repr()` of a float.
   */
  datatype Py = Py(parseFloat: string -> Option<real>, floatRepr: real -> string)

  /** Python's `bool(v)`. */
  predicate Truthy(v: Value) {
    match v
    case Null => false
    case Bool(b) => b
    case Int(i) => i != 0
    case Float(f) => f != 0.0
    case Str(s) => s != ""
    case List(items) => items != []
    case Dict(fields) => fields != []
  }

  /** `isinstance(v, (str, int, float, bool)) or v is None`. */
  predicate IsScalar(v: Value) {
    !v.List? && !v.Dict?
  }

  /** `k in d` on a dict. */
  predicate Has(d: seq<(string, Value)>, k: string) {
    k in PyDict.KeySet(d)
  }

  /** `d.get(k)`: the stored value, or None when the key is missing. */
  function Get(d: seq<(string, Value)>, k: string): Value {
    match PyDict.Find(d, k)
    case Some(v) => v
    case None => Null
  }

  /** A missing key gives None; a present key gives the value paired with it. */
  lemma GetSpec(d: seq<(string, Value)>, k: string)
    ensures !Has(d, k) ==> Get(d, k) == Null
    ensures Has(d, k) ==> (k, Get(d, k)) in d
  {
    PyDict.FindSpec(d, k);
  }

  /**
   * `d.get(k1) or d.get(k2) or ... or d.get(kn)`: the first truthy value, else the value
   * of the last lookup (which may be a falsy value such as "" rather than None).
   */
  function OrGet(d: seq<(string, Value)>, keys: seq<string>): Value
    requires |keys| > 0
    decreases |keys|
  {
    if |keys| == 1 || Truthy(Get(d, keys[0])) then Get(d, keys[0])
    else OrGet(d, keys[1..])
  }

  /** An `or` chain of lookups yields the first truthy value, else the last value looked up. */
  lemma {:induction false} OrGetSpec(d: seq<(string, Value)>, keys: seq<string>)
    requires |keys| > 0
    ensures Truthy(OrGet(d, keys)) <==> exists i | 0 <= i < |keys| :: Truthy(Get(d, keys[i]))
    ensures Truthy(OrGet(d, keys)) ==>
      exists i | 0 <= i < |keys| ::
        (OrGet(d, keys) == Get(d, keys[i]) && forall j | 0 <= j < i :: !Truthy(Get(d, keys[j])))
    ensures !Truthy(OrGet(d, keys)) ==> OrGet(d, keys) == Get(d, keys[|keys| - 1])
    decreases |keys|
  {
    if |keys| > 1 && !Truthy(Get(d, keys[0])) {
      OrGetSpec(d, keys[1..]);
      assert forall i | 0 <= i < |keys| - 1 :: keys[1..][i] == keys[i + 1];
      if Truthy(OrGet(d, keys)) {
        var i :| 0 <= i < |keys| - 1 &&
          (OrGet(d, keys[1..]) == Get(d, keys[1..][i]) && forall j | 0 <= j < i :: !Truthy(Get(d, keys[1..][j])));
        assert OrGet(d, keys) == Get(d, keys[i + 1]);
      }
    }
  }

  /** Python's `repr(v)`; string escapes are not modelled. */
  function Repr(py: Py, v: Value): string {
    match v
    case Null => "None"
    case Bool(b) => if b then "True" else "False"
    case Int(i) => Text.IntToString(i)
    case Float(f) => py.floatRepr(f)
    case Str(s) => "'" + s + "'"
    case List(items) =>
      "[" + Text.Join(", ", seq(|items|, i requires 0 <= i < |items| => Repr(py, items[i]))) + "]"
    case Dict(fields) =>
      "{" + Text.Join(", ", seq(|fields|, i requires 0 <= i < |fields| =>
        "'" + fields[i].0 + "': " + Repr(py, fields[i].1))) + "}"
  }

  /** Python's `str(v)`: a string is itself, anything else its `repr`. */
  function Show(py: Py, v: Value): (r: string)
    ensures v.Str? ==> r == v.s
    ensures v.Null? ==> r == "None"
  {
    if v.Str? then v.s else Repr(py, v)
  }
}
