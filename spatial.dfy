/**
 * The geometry and matching shared by the IN_SPACE linkers: axis-aligned boxes from a
 * flat vertex list, box centers, tolerant containment, squared distances, the
 * running-minimum search with strict `<`, and the name hints for diffuser-like elements.
 * Coordinates are reals; IEEE rounding is not modelled.
 */
module Spatial {
  import opened Wrappers
  import Text
  import PyDict

  datatype Point = Point(x: real, y: real, z: real)
  datatype Box = Box(x0: real, y0: real, z0: real, x1: real, y1: real, z1: real)

  /** `vs[off::3]`. */
  function Column(vs: seq<real>, off: nat): seq<real>
    requires off < 3
    decreases |vs|
  {
    if |vs| <= off then []
    else if |vs| < 3 then [vs[off]]
    else [vs[off]] + Column(vs[3..], off)
  }

  /** The column holds exactly the coordinates at positions `off`, `off + 3`, ... */
  lemma {:induction false} ColumnSpec(vs: seq<real>, off: nat, v: real)
    requires off < 3
    ensures v in Column(vs, off) <==> exists i | 0 <= i < |vs| :: i % 3 == off && vs[i] == v
    decreases |vs|
  {
    if |vs| > off && |vs| >= 3 {
      var rest := vs[3..];
      ColumnSpec(rest, off, v);
      if exists i | 0 <= i < |vs| :: i % 3 == off && vs[i] == v {
        var i :| 0 <= i < |vs| && i % 3 == off && vs[i] == v;
        if i >= 3 {
          assert rest[i - 3] == v && (i - 3) % 3 == off;
        }
      }
      if v in Column(rest, off) {
        var i :| 0 <= i < |rest| && i % 3 == off && rest[i] == v;
        assert vs[i + 3] == v && (i + 3) % 3 == off;
      }
    } else if |vs| > off {
      assert Column(vs, off) == [vs[off]];
      if exists i | 0 <= i < |vs| :: i % 3 == off && vs[i] == v {
        var i :| 0 <= i < |vs| && i % 3 == off && vs[i] == v;
        assert i == off;
      }
    }
  }

  /** Python's `min(xs)`; it raises on an empty list. */
  function MinOf(xs: seq<real>): (r: real)
    requires |xs| > 0
    ensures r in xs && forall x | x in xs :: r <= x
    decreases |xs|
  {
    if |xs| == 1 then xs[0]
    else
      var m := MinOf(xs[1..]);
      assert forall x | x in xs[1..] :: x in xs;
      assert forall x | x in xs :: x == xs[0] || x in xs[1..];
      if xs[0] <= m then xs[0] else m
  }

  /** Python's `max(xs)`; it raises on an empty list. */
  function MaxOf(xs: seq<real>): (r: real)
    requires |xs| > 0
    ensures r in xs && forall x | x in xs :: x <= r
    decreases |xs|
  {
    if |xs| == 1 then xs[0]
    else
      var m := MaxOf(xs[1..]);
      assert forall x | x in xs[1..] :: x in xs;
      assert forall x | x in xs :: x == xs[0] || x in xs[1..];
      if xs[0] >= m then xs[0] else m
  }

  lemma ColumnNonEmpty(vs: seq<real>, off: nat)
    requires off < 3 && off < |vs|
    ensures |Column(vs, off)| > 0
  {
  }

  /**
   * `aabb_of_shape`: per-axis minimum and maximum of the stride-3 columns. With fewer than
   * three coordinates some column is empty, `min` raises, and the caller skips the space.
   */
  function Aabb(vs: seq<real>): (r: Option<Box>)
    ensures r.Some? <==> |vs| >= 3
  {
    if |vs| < 3 then None
    else
      ColumnNonEmpty(vs, 0);
      ColumnNonEmpty(vs, 1);
      ColumnNonEmpty(vs, 2);
      var xs := Column(vs, 0);
      var ys := Column(vs, 1);
      var zs := Column(vs, 2);
      Some(Box(MinOf(xs), MinOf(ys), MinOf(zs), MaxOf(xs), MaxOf(ys), MaxOf(zs)))
  }

  predicate WellFormed(b: Box) {
    b.x0 <= b.x1 && b.y0 <= b.y1 && b.z0 <= b.z1
  }

  /** Coordinate `i` of the flat vertex list lies within the box on its own axis. */
  predicate Within(b: Box, vs: seq<real>, i: int)
    requires 0 <= i < |vs|
  {
    (i % 3 == 0 ==> b.x0 <= vs[i] <= b.x1) &&
    (i % 3 == 1 ==> b.y0 <= vs[i] <= b.y1) &&
    (i % 3 == 2 ==> b.z0 <= vs[i] <= b.z1)
  }

  /**
   * The box holds every vertex, has min <= max on each axis, and each bound is some
   * vertex's coordinate on that axis.
   */
  lemma AabbBounds(vs: seq<real>)
    requires |vs| >= 3
    ensures var b := Aabb(vs).value;
      WellFormed(b) &&
      (forall i | 0 <= i < |vs| :: Within(b, vs, i)) &&
      (exists i | 0 <= i < |vs| :: i % 3 == 0 && vs[i] == b.x0) &&
      (exists i | 0 <= i < |vs| :: i % 3 == 0 && vs[i] == b.x1) &&
      (exists i | 0 <= i < |vs| :: i % 3 == 2 && vs[i] == b.z0) &&
      (exists i | 0 <= i < |vs| :: i % 3 == 2 && vs[i] == b.z1)
  {
    var b := Aabb(vs).value;
    forall i | 0 <= i < |vs| ensures Within(b, vs, i) {
      ColumnSpec(vs, i % 3, vs[i]);
    }
    ColumnSpec(vs, 0, b.x0);
    ColumnSpec(vs, 0, b.x1);
    ColumnSpec(vs, 2, b.z0);
    ColumnSpec(vs, 2, b.z1);
  }

  /** `center`: the per-axis midpoint. */
  function Center(b: Box): Point {
    Point((b.x0 + b.x1) / 2.0, (b.y0 + b.y1) / 2.0, (b.z0 + b.z1) / 2.0)
  }

  const DefaultTolXY: real := 0.10
  const DefaultTolZ: real := 1.0

  /** `contains`: inclusive, widened by `tolXY` on X and Y and by `tolZ` on Z. */
  predicate Contains(b: Box, p: Point, tolXY: real, tolZ: real) {
    b.x0 - tolXY <= p.x <= b.x1 + tolXY &&
    b.y0 - tolXY <= p.y <= b.y1 + tolXY &&
    b.z0 - tolZ <= p.z <= b.z1 + tolZ
  }

  /** The center of a well-formed box lies in it, with no tolerance at all. */
  lemma CenterInside(b: Box)
    requires WellFormed(b)
    ensures Contains(b, Center(b), 0.0, 0.0)
  {
  }

  /** Larger tolerances never turn a hit into a miss; so any point of the raw box is contained. */
  lemma ContainsMonotone(b: Box, p: Point, tolXY: real, tolZ: real, tolXY': real, tolZ': real)
    requires tolXY <= tolXY' && tolZ <= tolZ'
    requires Contains(b, p, tolXY, tolZ)
    ensures Contains(b, p, tolXY', tolZ')
  {
  }

  /** With the default tolerances, a point up to 0.10 outside in plan and 1.0 in height still counts. */
  lemma DefaultsWiden(b: Box, p: Point)
    requires Contains(b, p, 0.0, 0.0)
    ensures Contains(b, p, DefaultTolXY, DefaultTolZ)
    ensures Contains(b, Point(b.x1 + DefaultTolXY, b.y0 - DefaultTolXY, b.z1 + DefaultTolZ), DefaultTolXY, DefaultTolZ)
    ensures !Contains(b, Point(b.x1 + 0.2, b.y0, b.z0), DefaultTolXY, DefaultTolZ)
  {
    ContainsMonotone(b, p, 0.0, 0.0, DefaultTolXY, DefaultTolZ);
  }

  function Dist2(a: Point, b: Point): (r: real)
    ensures r >= 0.0
  {
    (a.x - b.x) * (a.x - b.x) + (a.y - b.y) * (a.y - b.y) + (a.z - b.z) * (a.z - b.z)
  }

  function Abs(r: real): real {
    if r < 0.0 then -r else r
  }

  // ----- the running minimum -----

  /** The scripts' starting `best_d2`, 1e99. */
  const Far: real := 1000000000000000000000000000000000000000000000000000000000000000000000000000000000000000000000000000.0

  /** The state of a running minimum: the id chosen so far and its distance. */
  datatype Best = Best(id: Option<string>, d2: real)

  /**
   * The running-minimum loop over candidates in order: a candidate is skipped when its
   * distance is None (gated out), and replaces the best only when strictly closer.
   */
  function Nearest(ds: seq<(string, Option<real>)>): (r: Best)
    ensures r.d2 <= Far
    ensures r.id.None? ==> r.d2 == Far
    decreases |ds|
  {
    if |ds| == 0 then Best(None, Far)
    else
      var b := Nearest(ds[..|ds| - 1]);
      var c := ds[|ds| - 1];
      if c.1.Some? && c.1.value < b.d2 then Best(Some(c.0), c.1.value) else b
  }

  /**
   * The chosen candidate was not gated out and is strictly below 1e99; no candidate is
   * strictly closer, and every earlier one is strictly farther (the first minimum wins).
   */
  lemma {:induction false} NearestFound(ds: seq<(string, Option<real>)>)
    ensures var r := Nearest(ds);
      (forall j | 0 <= j < |ds| :: ds[j].1.Some? ==> r.d2 <= ds[j].1.value) &&
      (r.id.Some? ==> r.d2 < Far && exists i | 0 <= i < |ds| ::
         ds[i] == (r.id.value, Some(r.d2)) && forall j | 0 <= j < i :: ds[j].1.Some? ==> r.d2 < ds[j].1.value)
    decreases |ds|
  {
    if |ds| > 0 {
      var init := ds[..|ds| - 1];
      NearestFound(init);
      assert forall j | 0 <= j < |init| :: init[j] == ds[j];
      var b := Nearest(init);
      var c := ds[|ds| - 1];
      if c.1.Some? && c.1.value < b.d2 {
        assert ds[|ds| - 1] == (c.0, Some(c.1.value));
      } else if b.id.Some? {
        var i :| 0 <= i < |init| && init[i] == (b.id.value, Some(b.d2)) &&
                 forall j | 0 <= j < i :: init[j].1.Some? ==> b.d2 < init[j].1.value;
        assert ds[i] == init[i];
      }
    }
  }

  /** Nothing is chosen exactly when every candidate is gated out or at least 1e99 away. */
  lemma {:induction false} NearestNone(ds: seq<(string, Option<real>)>)
    ensures Nearest(ds).id.None? <==> forall j | 0 <= j < |ds| :: ds[j].1.Some? ==> ds[j].1.value >= Far
    decreases |ds|
  {
    if |ds| > 0 {
      var init := ds[..|ds| - 1];
      NearestNone(init);
      assert forall j | 0 <= j < |init| :: init[j] == ds[j];
      NearestFound(init);
    }
  }

  /** One step of the running minimum. */
  lemma NearestStep(ds: seq<(string, Option<real>)>, i: int)
    requires 0 <= i < |ds|
    ensures var b := Nearest(ds[..i]);
      Nearest(ds[..i + 1]) == if ds[i].1.Some? && ds[i].1.value < b.d2 then Best(Some(ds[i].0), ds[i].1.value) else b
  {
    assert ds[..i + 1][..i] == ds[..i];
  }

  /** The squared distances from `p` to the centers of the boxes. */
  function CenterDists(boxes: seq<(string, Box)>, p: Point): (r: seq<(string, Option<real>)>)
    ensures |r| == |boxes|
    ensures forall i | 0 <= i < |boxes| :: r[i] == (boxes[i].0, Some(Dist2(Center(boxes[i].1), p)))
  {
    seq(|boxes|, i requires 0 <= i < |boxes| => (boxes[i].0, Some(Dist2(Center(boxes[i].1), p))))
  }

  /** The nearest-center fallback loop: the space whose box center is nearest in 3-D. */
  method NearestCenter(boxes: seq<(string, Box)>, p: Point) returns (best: Option<string>)
    ensures best == Nearest(CenterDists(boxes, p)).id
  {
    ghost var ds := CenterDists(boxes, p);
    var bestD2 := Far;
    best := None;
    var i := 0;
    while i < |boxes|
      invariant 0 <= i <= |boxes|
      invariant Nearest(ds[..i]) == Best(best, bestD2)
    {
      NearestStep(ds, i);
      var d2 := Dist2(Center(boxes[i].1), p);
      assert ds[i] == (boxes[i].0, Some(d2));
      if d2 < bestD2 {
        bestD2, best := d2, Some(boxes[i].0);
      }
      i := i + 1;
    }
    assert ds[..i] == ds;
  }

  /** The squared distance in plan (X and Y only). */
  function PlanDist2(p: Point, s: Point): (r: real)
    ensures r >= 0.0
  {
    (p.x - s.x) * (p.x - s.x) + (p.y - s.y) * (p.y - s.y)
  }

  /**
   * The gated plan distance: None when the heights differ by more than `zTol`, or when
   * `xyMax > 0` and the plan distance exceeds it; else the squared plan distance.
   */
  function GatedDist2(p: Point, s: Point, zTol: real, xyMax: real): (r: Option<real>)
    ensures r.None? <==> Abs(p.z - s.z) > zTol || (xyMax > 0.0 && PlanDist2(p, s) > xyMax * xyMax)
    ensures r.Some? ==> r.value == PlanDist2(p, s)
  {
    if Abs(p.z - s.z) > zTol then None
    else
      var d2 := PlanDist2(p, s);
      if xyMax > 0.0 && d2 > xyMax * xyMax then None else Some(d2)
  }

  function GatedDists(spaces: seq<(string, Point)>, p: Point, zTol: real, xyMax: real): (r: seq<(string, Option<real>)>)
    ensures |r| == |spaces|
    ensures forall i | 0 <= i < |spaces| :: r[i] == (spaces[i].0, GatedDist2(p, spaces[i].1, zTol, xyMax))
  {
    seq(|spaces|, i requires 0 <= i < |spaces| => (spaces[i].0, GatedDist2(p, spaces[i].1, zTol, xyMax)))
  }

  /** The gated nearest-space loop: nearest in plan among the spaces that pass both gates. */
  method GatedNearest(spaces: seq<(string, Point)>, p: Point, zTol: real, xyMax: real) returns (best: Option<string>)
    ensures best == Nearest(GatedDists(spaces, p, zTol, xyMax)).id
  {
    ghost var ds := GatedDists(spaces, p, zTol, xyMax);
    best := None;
    var bestD2 := Far;
    var i := 0;
    while i < |spaces|
      invariant 0 <= i <= |spaces|
      invariant Nearest(ds[..i]) == Best(best, bestD2)
    {
      NearestStep(ds, i);
      var s := spaces[i].1;
      if Abs(p.z - s.z) > zTol {
        assert ds[i].1.None?;
      } else {
        var d2 := PlanDist2(p, s);
        if xyMax > 0.0 && d2 > xyMax * xyMax {
          assert ds[i].1.None?;
        } else if d2 < bestD2 {
          assert ds[i] == (spaces[i].0, Some(d2));
          bestD2, best := d2, Some(spaces[i].0);
        }
      }
      i := i + 1;
    }
    assert ds[..i] == ds;
  }

  /**
   * A space the gated search returns passes both gates, and no space that passes them is
   * strictly closer in plan.
   */
  lemma GatedNearestSound(spaces: seq<(string, Point)>, p: Point, zTol: real, xyMax: real)
    ensures var r := Nearest(GatedDists(spaces, p, zTol, xyMax));
      r.id.Some? ==> exists i | 0 <= i < |spaces| ::
        spaces[i].0 == r.id.value && Abs(p.z - spaces[i].1.z) <= zTol &&
        (xyMax > 0.0 ==> r.d2 <= xyMax * xyMax) &&
        forall j | 0 <= j < |spaces| :: GatedDist2(p, spaces[j].1, zTol, xyMax).Some? ==>
          r.d2 <= GatedDist2(p, spaces[j].1, zTol, xyMax).value
  {
    var ds := GatedDists(spaces, p, zTol, xyMax);
    NearestFound(ds);
  }

  /** The first space whose box contains the point, with the default tolerances. */
  function FirstHit(boxes: seq<(string, Box)>, p: Point): (r: Option<string>)
    decreases |boxes|
  {
    if |boxes| == 0 then None
    else if Contains(boxes[0].1, p, DefaultTolXY, DefaultTolZ) then Some(boxes[0].0)
    else FirstHit(boxes[1..], p)
  }

  /**
   * A hit exists exactly when some box contains the point, and it is the id of the first
   * such box in dict order.
   */
  lemma {:induction false} FirstHitSpec(boxes: seq<(string, Box)>, p: Point)
    ensures FirstHit(boxes, p).Some? <==> exists i | 0 <= i < |boxes| :: Contains(boxes[i].1, p, DefaultTolXY, DefaultTolZ)
    ensures FirstHit(boxes, p).Some? ==> exists i | 0 <= i < |boxes| ::
      boxes[i].0 == FirstHit(boxes, p).value && Contains(boxes[i].1, p, DefaultTolXY, DefaultTolZ) &&
      forall j | 0 <= j < i :: !Contains(boxes[j].1, p, DefaultTolXY, DefaultTolZ)
    decreases |boxes|
  {
    if |boxes| > 0 && !Contains(boxes[0].1, p, DefaultTolXY, DefaultTolZ) {
      var rest := boxes[1..];
      FirstHitSpec(rest, p);
      assert forall i | 0 <= i < |rest| :: rest[i] == boxes[i + 1];
      if exists i | 0 <= i < |boxes| :: Contains(boxes[i].1, p, DefaultTolXY, DefaultTolZ) {
        var i :| 0 <= i < |boxes| && Contains(boxes[i].1, p, DefaultTolXY, DefaultTolZ);
        assert Contains(rest[i - 1].1, p, DefaultTolXY, DefaultTolZ);
      }
      if FirstHit(rest, p).Some? {
        var i :| 0 <= i < |rest| && rest[i].0 == FirstHit(rest, p).value &&
          Contains(rest[i].1, p, DefaultTolXY, DefaultTolZ) &&
          forall j | 0 <= j < i :: !Contains(rest[j].1, p, DefaultTolXY, DefaultTolZ);
        assert forall j | 0 <= j < i + 1 :: !Contains(boxes[j].1, p, DefaultTolXY, DefaultTolZ) by {
          forall j | 0 <= j < i + 1 ensures !Contains(boxes[j].1, p, DefaultTolXY, DefaultTolZ) {
            if j > 0 {
              assert boxes[j] == rest[j - 1];
            }
          }
        }
        assert boxes[i + 1] == rest[i];
      }
    }
  }

  /** The containment loop: scan the boxes in order and `break` at the first that contains the point. */
  method FirstContaining(boxes: seq<(string, Box)>, p: Point) returns (hit: Option<string>)
    ensures hit == FirstHit(boxes, p)
  {
    hit := None;
    var i := 0;
    while i < |boxes|
      invariant 0 <= i <= |boxes|
      invariant FirstHit(boxes[i..], p) == FirstHit(boxes, p)
    {
      assert boxes[i..][1..] == boxes[i + 1..];
      if Contains(boxes[i].1, p, DefaultTolXY, DefaultTolZ) {
        hit := Some(boxes[i].0);
        break;
      }
      i := i + 1;
    }
  }

  /**
   * The containment tier and its nearest-center fallback: the first box containing the
   * point, unless there is none or its id is falsy, in which case the nearest center.
   */
  function Locate(boxes: seq<(string, Box)>, p: Point): Option<string> {
    var hit := FirstHit(boxes, p);
    if hit.Some? && hit.value != "" then hit else Nearest(CenterDists(boxes, p)).id
  }

  /** `hit = None; for ...: break`, then `if not hit:` the running minimum. */
  method LocateLoop(boxes: seq<(string, Box)>, p: Point) returns (hit: Option<string>)
    ensures hit == Locate(boxes, p)
  {
    hit := FirstContaining(boxes, p);
    if hit.None? || hit.value == "" {
      hit := NearestCenter(boxes, p);
    }
  }

  /** Box `i` is the first to contain the point. */
  predicate FirstContainer(boxes: seq<(string, Box)>, p: Point, i: int)
    requires 0 <= i < |boxes|
  {
    Contains(boxes[i].1, p, DefaultTolXY, DefaultTolZ) &&
    forall j | 0 <= j < i :: !Contains(boxes[j].1, p, DefaultTolXY, DefaultTolZ)
  }

  /** No box has a center strictly nearer the point than box `i`'s. */
  predicate NearestCenterAt(boxes: seq<(string, Box)>, p: Point, i: int)
    requires 0 <= i < |boxes|
  {
    forall j | 0 <= j < |boxes| :: Dist2(Center(boxes[i].1), p) <= Dist2(Center(boxes[j].1), p)
  }

  /**
   * What `Locate` returns is the id of some box that either is the first to contain the
   * point or has a center no farther from it than any other box's center.
   */
  lemma LocateSound(boxes: seq<(string, Box)>, p: Point)
    ensures Locate(boxes, p).Some? ==> exists i | 0 <= i < |boxes| ::
      boxes[i].0 == Locate(boxes, p).value && (FirstContainer(boxes, p, i) || NearestCenterAt(boxes, p, i))
  {
    var hit := FirstHit(boxes, p);
    FirstHitSpec(boxes, p);
    if !(hit.Some? && hit.value != "") {
      var ds := CenterDists(boxes, p);
      NearestFound(ds);
      var r := Nearest(ds);
      if r.id.Some? {
        var i :| 0 <= i < |ds| && ds[i] == (r.id.value, Some(r.d2)) &&
          forall j | 0 <= j < i :: ds[j].1.Some? ==> r.d2 < ds[j].1.value;
        assert boxes[i].0 == r.id.value;
        forall j | 0 <= j < |boxes| ensures Dist2(Center(boxes[i].1), p) <= Dist2(Center(boxes[j].1), p) {
          assert ds[j].1 == Some(Dist2(Center(boxes[j].1), p));
        }
      }
    }
  }

  /**
   * When no space id is empty and some center is closer than 1e99, every point gets a
   * space: any element with an origin is linked whenever a box exists.
   */
  lemma LocateFound(boxes: seq<(string, Box)>, p: Point)
    requires forall i | 0 <= i < |boxes| :: boxes[i].0 != ""
    requires exists i | 0 <= i < |boxes| :: Dist2(Center(boxes[i].1), p) < Far
    ensures Locate(boxes, p).Some? && Locate(boxes, p).value != ""
  {
    var hit := FirstHit(boxes, p);
    FirstHitSpec(boxes, p);
    if !(hit.Some? && hit.value != "") {
      var ds := CenterDists(boxes, p);
      NearestNone(ds);
      NearestFound(ds);
      var i :| 0 <= i < |boxes| && Dist2(Center(boxes[i].1), p) < Far;
      assert ds[i].1 == Some(Dist2(Center(boxes[i].1), p));
      var r := Nearest(ds);
      var k :| 0 <= k < |ds| && ds[k] == (r.id.value, Some(r.d2)) &&
        forall j | 0 <= j < k :: ds[j].1.Some? ==> r.d2 < ds[j].1.value;
      assert boxes[k].0 == r.id.value;
    }
  }

  /** A space as the geometry kernel sees it: its GlobalId and, when tessellation succeeds, its vertices. */
  datatype SpaceShape = SpaceShape(globalId: string, verts: Option<seq<real>>)

  /** Tessellation succeeded and `min`/`max` did not raise on an empty column. */
  predicate HasBox(s: SpaceShape) {
    s.verts.Some? && |s.verts.value| >= 3
  }

  /** The dict assignment `space_aabb[GlobalId] = aabb`; the zero box stands in where `HasBox` fails and nothing is assigned. */
  function BoxAssignment(s: SpaceShape): (string, Box) {
    (s.globalId, if HasBox(s) then Aabb(s.verts.value).value else Box(0.0, 0.0, 0.0, 0.0, 0.0, 0.0))
  }

  /** The `space_aabb` dict: one assignment per space with a box, in order. */
  function SpaceBoxes(spaces: seq<SpaceShape>): PyDict.Dict<string, Box> {
    PyDict.PutAll([], PyDict.Assignments(spaces, HasBox, BoxAssignment))
  }

  /** The loop that fills `space_aabb`, skipping a space whose shape or box raises. */
  method BuildBoxes(spaces: seq<SpaceShape>) returns (boxes: PyDict.Dict<string, Box>)
    ensures boxes == SpaceBoxes(spaces)
  {
    boxes := [];
    var i := 0;
    while i < |spaces|
      invariant 0 <= i <= |spaces|
      invariant boxes == PyDict.PutAll([], PyDict.Assignments(spaces[..i], HasBox, BoxAssignment))
    {
      PyDict.PutAllAssignmentsStep([], spaces, i, HasBox, BoxAssignment);
      match spaces[i].verts {
        case None =>
        case Some(vs) =>
          if |vs| >= 3 {
            boxes := PyDict.Put(boxes, spaces[i].globalId, Aabb(vs).value);
          }
      }
      i := i + 1;
    }
    assert spaces[..i] == spaces;
  }

  /**
   * A space id has a box exactly when some space with that id has one, and the box is
   * that of the last such space (a later duplicate id overwrites an earlier one).
   */
  lemma SpaceBoxesSpec(spaces: seq<SpaceShape>, k: string)
    ensures PyDict.Find(SpaceBoxes(spaces), k).Some? <==>
      exists i | 0 <= i < |spaces| :: HasBox(spaces[i]) && spaces[i].globalId == k
    ensures PyDict.Find(SpaceBoxes(spaces), k).Some? ==> exists i | 0 <= i < |spaces| ::
      HasBox(spaces[i]) && spaces[i].globalId == k &&
      Some(PyDict.Find(SpaceBoxes(spaces), k).value) == Aabb(spaces[i].verts.value) &&
      forall j | i < j < |spaces| :: !(HasBox(spaces[j]) && spaces[j].globalId == k)
  {
    PyDict.AssignedLast(spaces, HasBox, BoxAssignment, k);
  }

  // ----- names -----

  const NameHints: seq<string> := ["diffuser", "air terminal", "grille", "register", "outlet"]

  /** `any(h in nl for h in NAME_HINTS)` on the lowercased name. */
  predicate HasNameHint(name: string) {
    exists h | h in NameHints :: Text.Contains(Text.Lower(name), h)
  }

  const SupplyDiffuser: string := "M_Supply Diffuser"
  const RoundNeckHosted: string := " - Rectangular Face Round Neck - Hosted"

  /**
   * The Revit family names treated as diffusers outright: "M_Supply Diffuser - Rectangular
   * Face Round Neck - Hosted", its "_HEPA" variant, and "M_Return Diffuser".
   */
  const FamilyPrefixes: set<string> := {
    SupplyDiffuser + RoundNeckHosted,
    SupplyDiffuser + "_HEPA" + RoundNeckHosted,
    "M_Return Diffuser"
  }

  /** The family part of a name: the stripped text before the first ':', or the whole name stripped. */
  function FamilyOf(n: string): (r: string)
    ensures |r| <= |n|
  {
    if ':' in n then Text.Strip(n[..Text.IndexOf(n, ':')]) else Text.Strip(n)
  }

  /** `is_diffuser_like` with the family-prefix rule, on the name as `name_of` renders it. */
  predicate FamilyOrHint(n: string) {
    FamilyOf(n) in FamilyPrefixes || HasNameHint(n)
  }

  /**
   * Every family prefix contains "Diffuser" at offset 9, and the family is a slice of
   * the name, so the family rule never decides anything the hint rule does not.
   */
  lemma FamilyMeansHint(n: string)
    requires FamilyOf(n) in FamilyPrefixes
    ensures HasNameHint(n)
  {
    var src := FamilySource(n);
    PrefixDiffuser(FamilyOf(n));
    StrippedDiffuser(n, src);
  }

  /** "Diffuser" at offset 9 of the stripped prefix `src` is "Diffuser" somewhere in `n`. */
  lemma StrippedDiffuser(n: string, src: string)
    requires |src| <= |n| && src == n[..|src|]
    requires |Text.Strip(src)| >= 17 && Text.Strip(src)[9..17] == "Diffuser"
    ensures HasNameHint(n)
  {
    var fam := Text.Strip(src);
    var a := Text.StripSlice(src);
    forall j | 0 <= j < 8 ensures Text.LowerChar(n[a + 9 + j]) == "diffuser"[j] {
      calc {
        n[a + 9 + j];
        src[a + 9 + j];
        src[a..a + |fam|][9 + j];
        fam[9 + j];
        "Diffuser"[j];
      }
    }
    DiffuserAt(n, a + 9);
  }

  /** The text the family is stripped from: a prefix of the name. */
  lemma FamilySource(n: string) returns (src: string)
    ensures |src| <= |n| && src == n[..|src|] && FamilyOf(n) == Text.Strip(src)
  {
    src := if ':' in n then n[..Text.IndexOf(n, ':')] else n;
  }

  lemma PrefixDiffuser(f: string)
    requires f in FamilyPrefixes
    ensures |f| >= 17 && f[9..17] == "Diffuser"
  {
    assert SupplyDiffuser[9..17] == "Diffuser";
    if f != "M_Return Diffuser" {
      assert f[..17] == SupplyDiffuser;
    }
  }

  /** A name with "Diffuser", in any case, at some offset has a name hint. */
  lemma DiffuserAt(n: string, k: int)
    requires 0 <= k && k + 8 <= |n|
    requires forall j | 0 <= j < 8 :: Text.LowerChar(n[k + j]) == "diffuser"[j]
    ensures HasNameHint(n)
  {
    var low := Text.Lower(n);
    assert low[k..k + 8] == "diffuser";
    Text.ContainsAt(low, "diffuser", k);
    assert "diffuser" in NameHints;
  }

  /** Hence the two-rule predicate is the hint rule alone. */
  lemma FamilyOrHintIsHint(n: string)
    ensures FamilyOrHint(n) <==> HasNameHint(n)
  {
    if FamilyOf(n) in FamilyPrefixes {
      FamilyMeansHint(n);
    }
  }
}
