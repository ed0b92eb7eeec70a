/**
 * The text card embedded for each graph node: a few labelled parts (name, type, source,
 * storeys, spaces, systems, selected property-set values, aliases) joined by " | ".
 */
module RagIndex {
  import opened Wrappers
  import opened PyValue
  import Text
  import PyDict
  import Seqs

  /** The property-set values a card shows. */
  const TopPsetKeys: set<string> := {
    "Pset_Manufacturer.Manufacturer",
    "Pset_Manufacturer.ModelReference",
    "Pset_Asset.SerialNumber",
    "Pset_Asset.InstallationDate",
    "InstallYear",
    "Pset_MemberCommon.Span",
    "Pset_MemberCommon.IsExternal",
    "Pset_MemberCommon.Reference",
    "Pset_MemberCommon.LoadBearing"
  }

  /**
   * The order in which the set of keys is iterated: it depends on string hashing, so it
   * is a parameter, any order of the nine keys.
   */
  predicate KeyOrder(keys: seq<string>) {
    (forall i, j | 0 <= i < j < |keys| :: keys[i] != keys[j]) &&
    (forall i | 0 <= i < |keys| :: keys[i] in TopPsetKeys) &&
    (forall k | k in TopPsetKeys :: k in keys)
  }

  /**
   * One row of the context query. Text fields hold "" where the row has None; `psets` is
   * the decoded `psets_json`, None when it does not decode to an object.
   */
  datatype Row = Row(labels: seq<string>, ifcType: string, name: string, source: string,
                     storeys: seq<string>, spaces: seq<string>, systems: seq<string>,
                     psets: Option<PyDict.Dict<string, Value>>)

  // ---------------------------------------------------------------------------------------
  // Type and name.

  predicate NotEntity(l: string) {
    l != "IfcEntity"
  }

  /** The labels other than "IfcEntity", in order. */
  function Labels(row: Row): seq<string> {
    Seqs.Filter(row.labels, NotEntity)
  }

  /** `ifcType`, else the last remaining label, else "IfcEntity". */
  function CardType(row: Row): string {
    var labels := Labels(row);
    if row.ifcType != "" then row.ifcType
    else if |labels| > 0 then labels[|labels| - 1]
    else "IfcEntity"
  }

  /**
   * The type is `ifcType` when set; otherwise the last label that is not "IfcEntity" (every
   * label after it is "IfcEntity"), if any is left; otherwise "IfcEntity".
   */
  lemma CardTypeSpec(row: Row)
    ensures row.ifcType != "" ==> CardType(row) == row.ifcType
    ensures row.ifcType == "" && |Labels(row)| > 0 ==> CardType(row) == Labels(row)[|Labels(row)| - 1]
    ensures row.ifcType == "" && (exists l | l in row.labels :: l != "IfcEntity") ==>
      exists i | 0 <= i < |row.labels| :: row.labels[i] == CardType(row) && CardType(row) != "IfcEntity" &&
        forall j | i < j < |row.labels| :: row.labels[j] == "IfcEntity"
    ensures row.ifcType == "" && (forall l | l in row.labels :: l == "IfcEntity") ==> CardType(row) == "IfcEntity"
  {
    var labels := Labels(row);
    forall l | l in row.labels ensures l in labels <==> l != "IfcEntity" {
      Seqs.FilterIn(row.labels, NotEntity, l);
    }
    if |labels| > 0 {
      Seqs.FilterLast(row.labels, NotEntity);
      var i :| 0 <= i < |row.labels| && row.labels[i] == labels[|labels| - 1] && NotEntity(row.labels[i]) &&
        forall j | i < j < |row.labels| :: !NotEntity(row.labels[j]);
      assert forall j | i < j < |row.labels| :: row.labels[j] == "IfcEntity";
      if row.ifcType == "" {
        assert row.labels[i] == CardType(row) && CardType(row) != "IfcEntity";
        assert row.labels[i] in row.labels;
      }
    }
  }

  /**
   * `Labels` keeps exactly the labels other than "IfcEntity", in their order: the labels
   * of a split list are those of the first part followed by those of the second.
   */
  lemma LabelsSpec(row: Row, a: seq<string>, b: seq<string>)
    requires row.labels == a + b
    ensures Labels(row) == Labels(row.(labels := a)) + Labels(row.(labels := b))
    ensures forall l :: l in Labels(row) <==> l in row.labels && l != "IfcEntity"
  {
    Seqs.FilterAppend(a, b, NotEntity);
    forall l ensures l in Labels(row) <==> l in row.labels && l != "IfcEntity" {
      Seqs.FilterIn(row.labels, NotEntity, l);
    }
  }

  /** `name.strip()`. */
  function CardName(row: Row): string {
    Text.Strip(row.name)
  }

  // ---------------------------------------------------------------------------------------
  // Storeys, spaces and systems.

  predicate NonEmpty(s: string) {
    s != ""
  }

  /** A labelled, comma-separated list of at most `n` non-empty entries; none when there are none. */
  function Section(heading: string, xs: seq<string>, n: nat): Option<string> {
    var listed := Seqs.Filter(xs, NonEmpty);
    if |listed| > 0 then Some(heading + Text.Join(", ", Seqs.SliceTo(listed, n))) else None
  }

  /** The entries listed: the first `n` non-empty ones. */
  function SectionItems(xs: seq<string>, n: nat): seq<string> {
    Seqs.SliceTo(Seqs.Filter(xs, NonEmpty), n)
  }

  /**
   * A section is present exactly when some entry is non-empty; it lists at most `n`
   * entries, each non-empty and taken from `xs`, and all of them when there are no more.
   */
  lemma SectionSpec(heading: string, xs: seq<string>, n: nat)
    ensures Section(heading, xs, n).Some? <==> exists i | 0 <= i < |xs| :: xs[i] != ""
    ensures Section(heading, xs, n).Some? ==>
      Section(heading, xs, n).value == heading + Text.Join(", ", SectionItems(xs, n))
    ensures |SectionItems(xs, n)| <= n
    ensures forall y | y in SectionItems(xs, n) :: y != "" && y in xs
    ensures |Seqs.Filter(xs, NonEmpty)| <= n ==> forall y | y in xs && y != "" :: y in SectionItems(xs, n)
  {
    var listed := Seqs.Filter(xs, NonEmpty);
    if |listed| > 0 {
      assert listed[0] in listed;
      Seqs.FilterIn(xs, NonEmpty, listed[0]);
      var i :| 0 <= i < |xs| && xs[i] == listed[0];
    }
    if exists i | 0 <= i < |xs| :: xs[i] != "" {
      var i :| 0 <= i < |xs| && xs[i] != "";
      Seqs.FilterIn(xs, NonEmpty, xs[i]);
    }
    forall y | y in xs && y != "" ensures y in listed {
      Seqs.FilterIn(xs, NonEmpty, y);
    }
    forall y | y in SectionItems(xs, n) ensures y != "" && y in xs {
      assert y in listed;
      Seqs.FilterIn(xs, NonEmpty, y);
    }
  }

  // ---------------------------------------------------------------------------------------
  // Property-set values.

  /** `psets[k] not in (None, "", "NULL")`. */
  predicate Shown(v: Value) {
    v != Null && v != Str("") && v != Str("NULL")
  }

  /** `psets`, with an undecodable document read as `{}`. */
  function PsetsOf(row: Row): PyDict.Dict<string, Value> {
    match row.psets
    case Some(d) => d
    case None => []
  }

  /** `ptxt`: `k=value` for each key in turn that is present with a shown value. */
  function Props(py: Py, psets: PyDict.Dict<string, Value>, keys: seq<string>): seq<string>
    decreases |keys|
  {
    if |keys| == 0 then []
    else
      var k := keys[|keys| - 1];
      Props(py, psets, keys[..|keys| - 1]) +
        match PyDict.Find(psets, k)
        case Some(v) => if Shown(v) then [k + "=" + Show(py, v)] else []
        case None => []
  }

  /** `e` is the `k=value` entry of key `k`, present with a shown value. */
  predicate EntryOf(py: Py, psets: PyDict.Dict<string, Value>, k: string, e: string) {
    PyDict.Find(psets, k).Some? && Shown(PyDict.Find(psets, k).value) &&
    e == k + "=" + Show(py, PyDict.Find(psets, k).value)
  }

  /** An entry is listed exactly when one of the keys is present with a shown value. */
  lemma {:induction false} PropsIn(py: Py, psets: PyDict.Dict<string, Value>, keys: seq<string>, e: string)
    ensures e in Props(py, psets, keys) <==> exists i | 0 <= i < |keys| :: EntryOf(py, psets, keys[i], e)
    decreases |keys|
  {
    if |keys| > 0 {
      var init := keys[..|keys| - 1];
      var k := keys[|keys| - 1];
      PropsIn(py, psets, init, e);
      assert forall i | 0 <= i < |init| :: init[i] == keys[i];
      assert e in Props(py, psets, keys) <==> e in Props(py, psets, init) || EntryOf(py, psets, k, e);
    }
  }

  /**
   * Whatever the iteration order, the props list one entry per key of `TopPsetKeys` that
   * is present with a value other than None, "" or "NULL", and nothing else.
   */
  lemma PropsSpec(py: Py, psets: PyDict.Dict<string, Value>, keys: seq<string>, e: string)
    requires KeyOrder(keys)
    ensures e in Props(py, psets, keys) <==> exists k | k in TopPsetKeys ::
      PyDict.Find(psets, k).Some? && Shown(PyDict.Find(psets, k).value) &&
      e == k + "=" + Show(py, PyDict.Find(psets, k).value)
  {
    PropsIn(py, psets, keys, e);
    if exists k | k in TopPsetKeys :: PyDict.Find(psets, k).Some? && Shown(PyDict.Find(psets, k).value) &&
         e == k + "=" + Show(py, PyDict.Find(psets, k).value) {
      var k :| k in TopPsetKeys && PyDict.Find(psets, k).Some? && Shown(PyDict.Find(psets, k).value) &&
         e == k + "=" + Show(py, PyDict.Find(psets, k).value);
      assert k in keys;
      var i :| 0 <= i < |keys| && keys[i] == k;
    }
  }

  /** An undecodable document and a missing one both give no props. */
  lemma {:induction false} NoPsetsNoProps(py: Py, keys: seq<string>)
    ensures Props(py, [], keys) == []
    decreases |keys|
  {
    if |keys| > 0 {
      NoPsetsNoProps(py, keys[..|keys| - 1]);
    }
  }

  // ---------------------------------------------------------------------------------------
  // Aliases.

  const SpaceAliases := ["room", "space", "area"]
  const AhuAliases := ["AHU", "air handling unit", "air handler"]
  const VavAliases := ["VAV", "variable air volume", "air terminal box", "box"]
  const TerminalAliases := ["diffuser", "register", "grille", "outlet", "terminal"]

  predicate AhuLike(t: string, nm: string) {
    Text.Contains(nm, "ahu") || Text.Contains(nm, "air handling unit") || t == "IfcUnitaryEquipment"
  }

  predicate VavLike(t: string, nm: string) {
    Text.Contains(nm, "vav") || Text.StartsWith(t, "IfcFlowController")
  }

  predicate TerminalLike(t: string, nm: string) {
    Text.Contains(nm, "diffuser") || Text.StartsWith(t, "IfcFlowTerminal")
  }

  /** `al`: the alias groups whose test the type `t` or the lower-cased name `nm` passes. */
  function Aliases(t: string, nm: string): seq<string> {
    Groups(t == "IfcSpace", AhuLike(t, nm), VavLike(t, nm), TerminalLike(t, nm))
  }

  /** The alias groups, given which tests pass. */
  function Groups(space: bool, ahu: bool, vav: bool, terminal: bool): seq<string> {
    (if space then SpaceAliases else []) +
    (if ahu then AhuAliases else []) +
    (if vav then VavAliases else []) +
    (if terminal then TerminalAliases else [])
  }

  /** Each group has a word no other group has. */
  lemma GroupMarkers(space: bool, ahu: bool, vav: bool, terminal: bool)
    ensures "room" in Groups(space, ahu, vav, terminal) <==> space
    ensures "AHU" in Groups(space, ahu, vav, terminal) <==> ahu
    ensures "VAV" in Groups(space, ahu, vav, terminal) <==> vav
    ensures "outlet" in Groups(space, ahu, vav, terminal) <==> terminal
  {
    var g := Groups(space, ahu, vav, terminal);
    forall x ensures x in g <==> (space && x in SpaceAliases) || (ahu && x in AhuAliases) ||
                                 (vav && x in VavAliases) || (terminal && x in TerminalAliases) {
    }
  }

  /** Python's `<` on strings: code point by code point, a proper prefix first. */
  predicate Less(a: string, b: string)
    decreases |a|
  {
    |b| > 0 && (|a| == 0 || a[0] < b[0] || (a[0] == b[0] && Less(a[1..], b[1..])))
  }

  lemma {:induction false} LessIrreflexive(a: string)
    ensures !Less(a, a)
    decreases |a|
  {
    if |a| > 0 {
      LessIrreflexive(a[1..]);
    }
  }

  lemma {:induction false} LessTransitive(a: string, b: string, c: string)
    requires Less(a, b) && Less(b, c)
    ensures Less(a, c)
    decreases |a|
  {
    if |a| > 0 && a[0] == b[0] && b[0] == c[0] {
      LessTransitive(a[1..], b[1..], c[1..]);
    }
  }

  lemma {:induction false} LessTotal(a: string, b: string)
    requires a != b
    ensures Less(a, b) || Less(b, a)
    decreases |a|
  {
    if |a| > 0 && |b| > 0 && a[0] == b[0] {
      assert a == [a[0]] + a[1..] && b == [b[0]] + b[1..];
      LessTotal(a[1..], b[1..]);
    }
  }

  /** Each item is smaller than every later one: sorted, with no repeats. */
  ghost predicate StrictlySorted(xs: seq<string>) {
    forall i, j | 0 <= i < j < |xs| :: Less(xs[i], xs[j])
  }

  /** Insert `x` into a sorted list without repeats, unless it is already there. */
  function InsertSorted(xs: seq<string>, x: string): seq<string>
    decreases |xs|
  {
    if |xs| == 0 then [x]
    else if x == xs[0] then xs
    else if Less(x, xs[0]) then [x] + xs
    else [xs[0]] + InsertSorted(xs[1..], x)
  }

  lemma {:induction false} InsertSortedSpec(xs: seq<string>, x: string)
    requires StrictlySorted(xs)
    ensures StrictlySorted(InsertSorted(xs, x))
    ensures forall y :: y in InsertSorted(xs, x) <==> y in xs || y == x
    decreases |xs|
  {
    if |xs| > 0 && x != xs[0] {
      if Less(x, xs[0]) {
        var r := [x] + xs;
        forall i, j | 0 <= i < j < |r| ensures Less(r[i], r[j]) {
          if i == 0 && j > 1 {
            LessTransitive(x, xs[0], xs[j - 1]);
          }
        }
      } else {
        LessTotal(x, xs[0]);
        InsertSortedSpec(xs[1..], x);
        var rest := InsertSorted(xs[1..], x);
        var r := [xs[0]] + rest;
        forall i, j | 0 <= i < j < |r| ensures Less(r[i], r[j]) {
          if i == 0 {
            assert r[j] in rest;
            if r[j] != x {
              var k :| 1 <= k < |xs| && xs[k] == r[j];
            }
          } else {
            assert r[i] == rest[i - 1] && r[j] == rest[j - 1];
          }
        }
        assert forall y :: y in xs <==> y == xs[0] || y in xs[1..];
      }
    }
  }

  /** `sorted(set(al))`. */
  function SortedSet(al: seq<string>): seq<string>
    decreases |al|
  {
    if |al| == 0 then [] else InsertSorted(SortedSet(al[..|al| - 1]), al[|al| - 1])
  }

  /** The result is sorted without repeats and holds exactly the strings of `al`. */
  lemma {:induction false} SortedSetSpec(al: seq<string>)
    ensures StrictlySorted(SortedSet(al))
    ensures forall y :: y in SortedSet(al) <==> y in al
    decreases |al|
  {
    if |al| > 0 {
      var init := al[..|al| - 1];
      SortedSetSpec(init);
      InsertSortedSpec(SortedSet(init), al[|al| - 1]);
      assert al == init + [al[|al| - 1]];
    }
  }

  /** A sorted list without repeats is fixed by its elements: `sorted(set(al))` depends only on `set(al)`. */
  lemma {:induction false} SortedUnique(a: seq<string>, b: seq<string>)
    requires StrictlySorted(a) && StrictlySorted(b)
    requires forall y :: y in a <==> y in b
    ensures a == b
    decreases |a|
  {
    NonEmptyHead(b);
    if |a| > 0 {
      assert a[0] in b;
      assert b[0] in a;
      var j :| 0 <= j < |b| && b[j] == a[0];
      var i :| 0 <= i < |a| && a[i] == b[0];
      if j > 0 {
        assert i > 0 by {
          if i == 0 {
            LessIrreflexive(a[0]);
          }
        }
        LessTransitive(a[0], b[0], a[0]);
        LessIrreflexive(a[0]);
        assert false;
      }
      forall y ensures y in a[1..] <==> y in b[1..] {
        if y in a[1..] {
          var k :| 1 <= k < |a| && a[k] == y;
          assert Less(a[0], y);
          LessIrreflexive(y);
        }
        if y in b[1..] {
          var k :| 1 <= k < |b| && b[k] == y;
          assert Less(b[0], y);
          LessIrreflexive(y);
        }
        assert y in a <==> y == a[0] || y in a[1..];
        assert y in b <==> y == b[0] || y in b[1..];
      }
      SortedUnique(a[1..], b[1..]);
      assert a == [a[0]] + a[1..] && b == [b[0]] + b[1..];
    }
  }

  lemma NonEmptyHead<T>(b: seq<T>)
    ensures |b| > 0 ==> b[0] in b
  {
  }

  /**
   * The alias list is sorted without repeats, and each group is in it exactly when its
   * test passes: "room" (and the other space words) exactly for IfcSpace.
   */
  lemma AliasSpec(t: string, nm: string)
    ensures StrictlySorted(SortedSet(Aliases(t, nm)))
    ensures "room" in SortedSet(Aliases(t, nm)) <==> t == "IfcSpace"
    ensures "AHU" in SortedSet(Aliases(t, nm)) <==> AhuLike(t, nm)
    ensures "VAV" in SortedSet(Aliases(t, nm)) <==> VavLike(t, nm)
    ensures "outlet" in SortedSet(Aliases(t, nm)) <==> TerminalLike(t, nm)
  {
    SortedSetSpec(Aliases(t, nm));
    GroupMarkers(t == "IfcSpace", AhuLike(t, nm), VavLike(t, nm), TerminalLike(t, nm));
  }

  // ---------------------------------------------------------------------------------------
  // The card.

  /** The name, type and source parts of a card with name `name`, type `t` and source `src`. */
  function HeadParts(name: string, t: string, src: string): seq<string> {
    (if name != "" then ["name: " + name] else []) +
    ["type: " + t] +
    (if src != "" then ["source: " + src] else [])
  }

  function OptionPart(p: Option<string>): seq<string> {
    match p
    case Some(s) => [s]
    case None => []
  }

  /** The props part, when some property is listed. */
  function PropsPart(ptxt: seq<string>): Option<string> {
    if |ptxt| > 0 then Some("props: " + Text.Join("; ", ptxt)) else None
  }

  /** The alias part, when some alias applies: sorted, without repeats. */
  function AliasPart(al: seq<string>): Option<string> {
    if |al| > 0 then Some("alias: " + Text.Join("; ", SortedSet(al))) else None
  }

  /** The parts after the head, in order: storey, spaces, systems, props, alias. */
  function TailParts(storey: Option<string>, spaces: Option<string>, systems: Option<string>,
                     props: Option<string>, alias: Option<string>): seq<string> {
    OptionPart(storey) + OptionPart(spaces) + OptionPart(systems) + OptionPart(props) + OptionPart(alias)
  }

  /** `parts`, in the fixed order name, type, source, storey, spaces, systems, props, alias. */
  function Parts(py: Py, row: Row, keys: seq<string>): seq<string> {
    HeadParts(CardName(row), CardType(row), row.source) +
    TailParts(Section("storey: ", row.storeys, 2), Section("spaces: ", row.spaces, 5),
              Section("systems: ", row.systems, 5), PropsPart(Props(py, PsetsOf(row), keys)),
              AliasPart(Aliases(CardType(row), Text.Lower(CardName(row)))))
  }

  /** The type part is always there; the name and source parts exactly when non-empty. */
  lemma HeadSpec(name: string, t: string, src: string)
    ensures "type: " + t in HeadParts(name, t, src)
    ensures (exists p | p in HeadParts(name, t, src) :: Text.StartsWith(p, "name: ")) <==> name != ""
    ensures (exists p | p in HeadParts(name, t, src) :: Text.StartsWith(p, "source: ")) <==> src != ""
  {
    PrefixFacts(name, t, src);
    var h := HeadParts(name, t, src);
    assert forall p | p in h ::
      (p == "name: " + name && name != "") || p == "type: " + t || (p == "source: " + src && src != "");
    if name != "" {
      assert "name: " + name in h;
    }
    if src != "" {
      assert "source: " + src in h;
    }
  }

  lemma PrefixFacts(name: string, t: string, src: string)
    ensures Text.StartsWith("name: " + name, "name: ") && !Text.StartsWith("name: " + name, "source: ")
    ensures !Text.StartsWith("type: " + t, "name: ") && !Text.StartsWith("type: " + t, "source: ")
    ensures Text.StartsWith("source: " + src, "source: ") && !Text.StartsWith("source: " + src, "name: ")
  {
    assert ("name: " + name)[..6] == "name: ";
    assert ("source: " + src)[..8] == "source: ";
    assert ("name: " + name)[0] == 'n';
    assert ("type: " + t)[0] == 't';
    assert ("source: " + src)[0] == 's';
  }

  /** Joining a longer list extends the join of its first items. */
  lemma {:induction false} JoinExtends(sep: string, a: seq<string>, b: seq<string>)
    requires |a| > 0
    ensures Text.StartsWith(Text.Join(sep, a + b), Text.Join(sep, a))
    decreases |a|
  {
    if |b| > 0 {
      if |a| == 1 {
        assert Text.Join(sep, a + b) == a[0] + sep + Text.Join(sep, b) by {
          assert (a + b)[1..] == b;
        }
      } else {
        assert (a + b)[1..] == a[1..] + b;
        JoinExtends(sep, a[1..], b);
        var x := Text.Join(sep, a[1..]);
        var y := Text.Join(sep, a[1..] + b);
        assert y[..|x|] == x;
        assert (a[0] + sep + y)[..|a[0] + sep + x|] == a[0] + sep + x;
      }
    } else {
      assert a + b == a;
    }
  }

  /** The card: the parts joined by " | ". */
  function Card(py: Py, row: Row, keys: seq<string>): string {
    Text.Join(" | ", Parts(py, row, keys))
  }

  /** The joined head parts open with the name part, when there is one, and then the type part. */
  lemma HeadStart(name: string, t: string, src: string)
    ensures Text.StartsWith(Text.Join(" | ", HeadParts(name, t, src)), CardHead(name, t))
  {
    var h := HeadParts(name, t, src);
    var tp := "type: " + t;
    var sp := if src != "" then ["source: " + src] else [];
    if name != "" {
      var n := "name: " + name;
      assert h == [n, tp] + sp;
      assert [n, tp][1..] == [tp];
      JoinExtends(" | ", [n, tp], sp);
    } else {
      assert h == [tp] + sp;
      JoinExtends(" | ", [tp], sp);
    }
  }

  /** The start of every card: `name: <name> | type: <type>`, or `type: <type>` without a name. */
  function CardHead(name: string, t: string): string {
    (if name != "" then "name: " + name + " | " else "") + "type: " + t
  }

  /** A card opens with its name part, when there is one, and then its type part. */
  lemma CardStart(py: Py, row: Row, keys: seq<string>)
    ensures Text.StartsWith(Card(py, row, keys), CardHead(CardName(row), CardType(row)))
  {
    var h := HeadParts(CardName(row), CardType(row), row.source);
    var rest := TailParts(Section("storey: ", row.storeys, 2), Section("spaces: ", row.spaces, 5),
                          Section("systems: ", row.systems, 5), PropsPart(Props(py, PsetsOf(row), keys)),
                          AliasPart(Aliases(CardType(row), Text.Lower(CardName(row)))));
    assert Parts(py, row, keys) == h + rest;
    JoinExtends(" | ", h, rest);
    HeadStart(CardName(row), CardType(row), row.source);
    StartsWithTrans(Card(py, row, keys), Text.Join(" | ", h), CardHead(CardName(row), CardType(row)));
  }

  lemma StartsWithTrans(a: string, b: string, c: string)
    requires Text.StartsWith(a, b) && Text.StartsWith(b, c)
    ensures Text.StartsWith(a, c)
  {
    assert a[..|c|] == b[..|c|];
  }

  /**
   * `text_card`: `keys` is the iteration order of `TOP_PSET_KEYS`, and `py` carries `str()`
   * of floats.
   */
  method TextCard(py: Py, row: Row, keys: seq<string>) returns (card: string)
    ensures card == Card(py, row, keys)
  {
    var ifcType := CardType(row);
    var name := CardName(row);
    var storey := Section("storey: ", row.storeys, 2);
    var spaces := Section("spaces: ", row.spaces, 5);
    var systems := Section("systems: ", row.systems, 5);
    var ptxt := PropsLoop(py, PsetsOf(row), keys);
    var al := AliasList(ifcType, Text.Lower(name));
    var parts := Assemble(name, ifcType, row.source, storey, spaces, systems, ptxt, al);
    card := Text.Join(" | ", parts);
  }

  /** The `parts.append(...)` sequence. */
  method Assemble(name: string, t: string, src: string,
                  storey: Option<string>, spaces: Option<string>, systems: Option<string>,
                  ptxt: seq<string>, al: seq<string>)
    returns (parts: seq<string>)
    ensures parts == HeadParts(name, t, src) + TailParts(storey, spaces, systems, PropsPart(ptxt), AliasPart(al))
  {
    parts := AssembleHead(name, t, src);
    ghost var head := parts;
    parts := AppendPart(parts, storey);
    parts := AppendPart(parts, spaces);
    parts := AppendPart(parts, systems);
    parts := AppendPart(parts, PropsPart(ptxt));
    parts := AppendPart(parts, AliasPart(al));
    ConcatAssoc(head, OptionPart(storey), OptionPart(spaces), OptionPart(systems),
                OptionPart(PropsPart(ptxt)), OptionPart(AliasPart(al)));
  }

  lemma ConcatAssoc(h: seq<string>, a: seq<string>, b: seq<string>, c: seq<string>, d: seq<string>, e: seq<string>)
    ensures h + a + b + c + d + e == h + (a + b + c + d + e)
  {
  }

  method AssembleHead(name: string, t: string, src: string) returns (parts: seq<string>)
    ensures parts == HeadParts(name, t, src)
  {
    parts := [];
    if name != "" {
      parts := parts + ["name: " + name];
    }
    parts := parts + ["type: " + t];
    if src != "" {
      parts := parts + ["source: " + src];
    }
  }

  /** `parts.append(p)` when there is a part `p`. */
  method AppendPart(parts: seq<string>, p: Option<string>) returns (r: seq<string>)
    ensures r == parts + OptionPart(p)
  {
    r := parts;
    if p.Some? {
      r := r + [p.value];
    }
  }

  /** The `ptxt` loop over the keys. */
  method PropsLoop(py: Py, psets: PyDict.Dict<string, Value>, keys: seq<string>) returns (ptxt: seq<string>)
    ensures ptxt == Props(py, psets, keys)
  {
    ptxt := [];
    for i := 0 to |keys|
      invariant ptxt == Props(py, psets, keys[..i])
    {
      assert keys[..i + 1][..i] == keys[..i];
      var k := keys[i];
      var found := PyDict.Find(psets, k);
      if found.Some? && Shown(found.value) {
        ptxt := ptxt + [k + "=" + Show(py, found.value)];
      }
    }
    assert keys[..|keys|] == keys;
  }

  /** `al += [...]` for each group whose test passes. */
  method AliasList(t: string, nm: string) returns (al: seq<string>)
    ensures al == Aliases(t, nm)
  {
    al := [];
    if t == "IfcSpace" {
      al := al + SpaceAliases;
    }
    if Text.Contains(nm, "ahu") || Text.Contains(nm, "air handling unit") || t == "IfcUnitaryEquipment" {
      al := al + AhuAliases;
    }
    if Text.Contains(nm, "vav") || Text.StartsWith(t, "IfcFlowController") {
      al := al + VavAliases;
    }
    if Text.Contains(nm, "diffuser") || Text.StartsWith(t, "IfcFlowTerminal") {
      al := al + TerminalAliases;
    }
  }
}
