/**
 * Generation B of the test-data tree (go/specimen/tree.go, types in
 * go/specimen/structure.go): each nodule of a file knows its kind, flag,
 * name, code box, inherited input and matrix. `Initialize` builds the tree
 * from the YAML mappings and `multiplySlice` expands a slab along one matrix
 * axis; `Populate` lives in the module TreePopulate.
 *
 * Nodules are values here: an operation that fills a Go nodule in through
 * its pointer returns the filled-in nodule instead.
 */
module Tree {
  import opened Base
  import opened Yaml
  import FT = FocusTree
  import Flag
  import Files

  /**
   * What syaml's ExtractContent makes of a node. Scalars keep their tag and
   * text: the conversion of `!!int`, `!!bool` and `!!null` text into Go
   * values is not part of this model.
   */
  datatype Value =
    | ScalarValue(tag: string, text: string)
    | ListValue(items: seq<Value>)
    | DictValue(entries: map<string, Value>)

  function Extract(n: Node): Value
    decreases n, 1
  {
    match n
    case Scalar(tag, text, _) => ScalarValue(tag, text)
    case Sequence(items, _) => ListValue(seq(|items|, i requires 0 <= i < |items| => Extract(items[i])))
    case Mapping(pairs, _) => DictValue(ExtractPairs(n, |pairs|))
  }

  /** The first `k` entries of a mapping as a dictionary; a repeated key keeps its last value. */
  function ExtractPairs(n: Node, k: nat): map<string, Value>
    requires n.Mapping? && k <= |n.pairs|
    decreases n, 0, k
  {
    if k == 0 then map[]
    else ExtractPairs(n, k - 1)[Text(n.pairs[k - 1].key) := Extract(n.pairs[k - 1].value)]
  }

  /** A registered code box; the user function it wraps is not modelled. */
  datatype Codebox = Codebox(name: string)

  /** go/specimen/structure.go:59-73. A nil `Input` or `Matrix` map reads as the empty map. */
  datatype Nodule = Nodule(
    file: Files.File,
    mapping: Node,
    kind: string,
    location: string,
    flag: FT.FlagType,
    name: string,
    children: seq<Nodule>,
    codebox: Option<Codebox>,
    input: map<string, Value>,
    matrix: map<string, seq<Value>>)

  /** `Nodule{File: file, Kind: "Slab", Mapping: node}`, as the content loop creates each child. */
  function ChildOf(file: Files.File, node: Node): Nodule
  {
    Nodule(file, node, "Slab", "", FT.None, "", [], None, map[], map[])
  }

  /** `Errorf`: an error tagged with the nodule's kind, name and location. */
  datatype NoduleError = NoduleError(kind: string, name: string, location: string, info: string)

  function Errorf(n: Nodule, info: string): NoduleError
  {
    NoduleError(n.kind, n.name, n.location, info)
  }

  const ExpectedMapping: string := "expected a mapping"
  const MissingBoth: string := "missing both \"content\" key and \"input\" key in the mapping"
  const ContentNotSequence: string := "the \"content\" value must be a yaml sequence"
  const RootNotMapping: string := "the root of the document must be a yaml mapping"

  // -----------------------------------------------------------------------
  // Initialize

  /** What Initialize or Populate leaves: the nodule as filled in, and the error it returns, if any. */
  datatype Settled = Settled(nodule: Nodule, error: Option<NoduleError>)

  /** The `content` value of a nodule mapping has at least one item. */
  predicate HasItems(node: Node)
    requires node.Mapping?
  {
    match MapTryGetValue(node, "content")
    case None => false
    case Some(c) => |Content(c)| > 0
  }

  /** The result of go/specimen/tree.go:100-152 on `n`, in the order its fields are filled in. */
  function Initialized(n: Nodule): Outcome<Settled>
    decreases n.mapping, 2
  {
    var n1 := n.(location := Files.LocationString(n.file.path, n.mapping.pos.line, n.mapping.pos.column));
    if !n.mapping.Mapping? then Done(Settled(n1, Some(Errorf(n1, ExpectedMapping))))
    else match Flag.NodeFlagOf(n.mapping)
      case Panic(m) => Panic(m)
      case Done(read) => InitContent(Named(n1, read))
  }

  /** The `content` part of Initialize (go/specimen/tree.go:123-151), on the named nodule `n`. */
  function InitContent(n: Nodule): Outcome<Settled>
    requires n.mapping.Mapping?
    decreases n.mapping, 1
  {
    match MapTryGetValue(n.mapping, "content")
    case None =>
      Done(Settled(n, if MapTryGetValue(n.mapping, "input").None? then Some(Errorf(n, MissingBoth)) else None))
    case Some(c) =>
      var n4 := if |Content(c)| > 0 && n.kind == "Slab" then n.(kind := "Node") else n;
      if !c.Sequence? then Done(Settled(n4, Some(Errorf(n4, ContentNotSequence))))
      else match Keep(n4.flag, ItemOutcomes(n4.file, c))
        case Panic(m) => Panic(m)
        case Done(kids) => Done(Settled(n4.(children := n4.children + kids), None))
  }

  /** The nodule after its input, flag and name are set (go/specimen/tree.go:110-121). */
  function Named(n: Nodule, read: Flag.FlagRead): Nodule
    requires n.mapping.Mapping?
  {
    var n2 := n.(input := map[], flag := read.flag);
    match MapTryGetValue(n.mapping, "name")
    case None => n2
    case Some(nameNode) => n2.(name := Text(nameNode))
  }

  /** What Initialize gives for each item of the sequence `c`, each item a fresh "Slab" child. */
  function ItemOutcomes(file: Files.File, c: Node): (r: seq<Outcome<Settled>>)
    requires c.Sequence?
    decreases c, 0
  {
    seq(|c.items|, j requires 0 <= j < |c.items| => Initialized(ChildOf(file, c.items[j])))
  }

  /**
   * The children kept from the item outcomes, in order: the first panic
   * propagates, an item whose Initialize errors is dropped, and a PENDING
   * parent keeps none, although every item is still initialized (so a
   * panic below PENDING still happens).
   */
  function Keep(flag: FT.FlagType, outcomes: seq<Outcome<Settled>>): Outcome<seq<Nodule>>
  {
    if outcomes == [] then Done([])
    else match Keep(flag, outcomes[..|outcomes| - 1])
      case Panic(m) => Panic(m)
      case Done(kids) =>
        match outcomes[|outcomes| - 1]
        case Panic(m) => Panic(m)
        case Done(init) =>
          if init.error.Some? || flag == FT.Skip then Done(kids) else Done(kids + [init.nodule])
  }

  /** go/specimen/tree.go:100-152. A child's error is logged and the child dropped. */
  method Initialize(n: Nodule) returns (r: Outcome<Settled>)
    decreases n.mapping
    ensures r == Initialized(n)
  {
    var m := n.(location := Files.LocationString(n.file.path, n.mapping.pos.line, n.mapping.pos.column));
    if !m.mapping.Mapping? {
      return Done(Settled(m, Some(Errorf(m, ExpectedMapping))));
    }
    m := m.(input := map[]);
    var read := Flag.ReadNodeFlag(m.mapping);
    if read.Panic? {
      return Panic(read.message);
    }
    m := m.(flag := read.value.flag);
    var nameNode := MapTryGetValue(m.mapping, "name");
    if nameNode.Some? {
      m := m.(name := Text(nameNode.value));
    }
    var contentNode := MapTryGetValue(m.mapping, "content");
    if contentNode.None? {
      if MapTryGetValue(m.mapping, "input").None? {
        return Done(Settled(m, Some(Errorf(m, MissingBoth))));
      }
      return Done(Settled(m, None));
    }
    var c := contentNode.value;
    if |Content(c)| > 0 && m.kind == "Slab" {
      m := m.(kind := "Node");
    }
    if !c.Sequence? {
      return Done(Settled(m, Some(Errorf(m, ContentNotSequence))));
    }
    var kids := InitializeItems(m.file, m.flag, n.mapping, c);
    if kids.Panic? {
      return Panic(kids.message);
    }
    r := Done(Settled(m.(children := m.children + kids.value), None));
  }

  /** go/specimen/tree.go:140-148: the loop over the items of `content`. */
  method InitializeItems(file: Files.File, flag: FT.FlagType, ghost parent: Node, c: Node) returns (r: Outcome<seq<Nodule>>)
    requires c.Sequence? && c < parent
    decreases parent, 0
    ensures r == Keep(flag, ItemOutcomes(file, c))
  {
    ghost var outcomes := ItemOutcomes(file, c);
    var kids: seq<Nodule> := [];
    var k := 0;
    while k < |c.items|
      invariant k <= |c.items|
      invariant Keep(flag, outcomes[..k]) == Done(kids)
    {
      var child := Initialize(ChildOf(file, c.items[k]));
      KeepNext(flag, outcomes, k, kids);
      if child.Panic? {
        KeepPanic(flag, outcomes, k + 1);
        return Panic(child.message);
      }
      if child.value.error.None? && flag != FT.Skip {
        kids := kids + [child.value.nodule];
      }
      k := k + 1;
    }
    assert outcomes[..k] == outcomes;
    r := Done(kids);
  }

  /** One more outcome: a panic propagates, an errored child or a PENDING parent keeps nothing more. */
  lemma KeepNext(flag: FT.FlagType, outcomes: seq<Outcome<Settled>>, k: nat, kids: seq<Nodule>)
    requires k < |outcomes| && Keep(flag, outcomes[..k]) == Done(kids)
    ensures Keep(flag, outcomes[..k + 1]) ==
      match outcomes[k]
      case Panic(m) => Panic(m)
      case Done(init) => if init.error.Some? || flag == FT.Skip then Done(kids) else Done(kids + [init.nodule])
  {
    assert outcomes[..k + 1][..k] == outcomes[..k];
  }

  /** A panic among the first `k` outcomes is the outcome of the whole sequence. */
  lemma {:induction false} KeepPanic(flag: FT.FlagType, outcomes: seq<Outcome<Settled>>, k: nat)
    requires k <= |outcomes| && Keep(flag, outcomes[..k]).Panic?
    ensures Keep(flag, outcomes) == Keep(flag, outcomes[..k])
    decreases |outcomes|
  {
    if k < |outcomes| {
      var init := outcomes[..|outcomes| - 1];
      assert init[..k] == outcomes[..k];
      KeepPanic(flag, init, k);
    } else {
      assert outcomes[..k] == outcomes;
    }
  }

  /** The parser's result on a file, which this model takes as given. */
  datatype Document = Parsed(root: Node) | Unparsable(reason: string)

  /**
   * go/specimen/tree.go:75-96: parse, check the root is a mapping, then
   * Initialize; the error Initialize returns is dropped, as in Go.
   */
  method InitializeFile(n: Nodule, document: Document) returns (r: Outcome<Settled>)
    ensures document.Unparsable? ==> r == Done(Settled(n, Some(NoduleError(n.kind, n.name, n.location, document.reason))))
    ensures document.Parsed? && !document.root.Mapping? ==>
      r == Done(Settled(n.(mapping := document.root), Some(NoduleError(n.kind, n.name, n.location, RootNotMapping))))
    ensures document.Parsed? && document.root.Mapping? ==>
      match Initialized(n.(mapping := document.root))
      case Panic(m) => r == Panic(m)
      case Done(init) => r == Done(Settled(init.nodule, None))
  {
    if document.Unparsable? {
      return Done(Settled(n, Some(NoduleError(n.kind, n.name, n.location, document.reason))));
    }
    var m := n.(mapping := document.root);
    if !m.mapping.Mapping? {
      return Done(Settled(m, Some(NoduleError(n.kind, n.name, n.location, RootNotMapping))));
    }
    var init := Initialize(m);
    if init.Panic? {
      return init;
    }
    r := Done(Settled(init.value.nodule, None));
  }

  // ---- properties of Initialize

  /**
   * Initialize errors exactly when the node is not a mapping, when it has
   * neither `content` nor `input`, or when `content` is not a sequence; the
   * location is always filled in.
   */
  lemma InitializedErrors(n: Nodule)
    requires Initialized(n).Done?
    ensures var r := Initialized(n).value;
      && r.nodule.location == Files.LocationString(n.file.path, n.mapping.pos.line, n.mapping.pos.column)
      && (r.error.Some? <==>
           || !n.mapping.Mapping?
           || (MapTryGetValue(n.mapping, "content").None? && MapTryGetValue(n.mapping, "input").None?)
           || (MapTryGetValue(n.mapping, "content").Some? && !MapTryGetValue(n.mapping, "content").value.Sequence?))
  {
    if n.mapping.Mapping? {
      InitContentErrors(Named(n.(location := Files.LocationString(n.file.path, n.mapping.pos.line, n.mapping.pos.column)), Flag.NodeFlagOf(n.mapping).value));
    }
  }

  lemma InitContentErrors(n: Nodule)
    requires n.mapping.Mapping? && InitContent(n).Done?
    ensures var r := InitContent(n).value;
      && r.nodule.location == n.location
      && (r.error.Some? <==>
           || (MapTryGetValue(n.mapping, "content").None? && MapTryGetValue(n.mapping, "input").None?)
           || (MapTryGetValue(n.mapping, "content").Some? && !MapTryGetValue(n.mapping, "content").value.Sequence?))
  {
  }

  /** The kind turns from "Slab" to "Node" exactly when `content` has an item; no other kind changes. */
  lemma KindAfterInitialize(n: Nodule)
    requires n.mapping.Mapping? && Initialized(n).Done?
    ensures Initialized(n).value.nodule.kind == if n.kind == "Slab" && HasItems(n.mapping) then "Node" else n.kind
  {
    var n3 := Named(n.(location := Files.LocationString(n.file.path, n.mapping.pos.line, n.mapping.pos.column)), Flag.NodeFlagOf(n.mapping).value);
    assert n3.kind == n.kind;
    KindAfterContent(n3);
  }

  lemma KindAfterContent(n: Nodule)
    requires n.mapping.Mapping? && InitContent(n).Done?
    ensures InitContent(n).value.nodule.kind == if n.kind == "Slab" && HasItems(n.mapping) then "Node" else n.kind
  {
  }

  /** A PENDING nodule keeps no new children. */
  lemma {:induction false} SkipKeepsNoChildren(outcomes: seq<Outcome<Settled>>)
    ensures Keep(FT.Skip, outcomes).Done? ==> Keep(FT.Skip, outcomes).value == []
  {
    if outcomes != [] {
      SkipKeepsNoChildren(outcomes[..|outcomes| - 1]);
    }
  }

  /** The outcome is a panic exactly when one of the items panics. */
  lemma {:induction false} KeepPanicsIff(flag: FT.FlagType, outcomes: seq<Outcome<Settled>>)
    ensures Keep(flag, outcomes).Panic? <==> exists j :: 0 <= j < |outcomes| && outcomes[j].Panic?
  {
    if outcomes != [] {
      var init := outcomes[..|outcomes| - 1];
      KeepPanicsIff(flag, init);
      assert forall j :: 0 <= j < |init| ==> init[j] == outcomes[j];
    }
  }

  /**
   * Under a non-PENDING parent, the kept children are exactly the items
   * that initialize without error: one failing item does not stop its
   * siblings.
   */
  lemma {:induction false} KeptChildren(flag: FT.FlagType, outcomes: seq<Outcome<Settled>>)
    requires flag != FT.Skip && Keep(flag, outcomes).Done?
    ensures forall j :: 0 <= j < |outcomes| && outcomes[j].Done? && outcomes[j].value.error.None? ==>
      outcomes[j].value.nodule in Keep(flag, outcomes).value
    ensures forall kid :: kid in Keep(flag, outcomes).value ==>
      exists j :: 0 <= j < |outcomes| && outcomes[j] == Done(Settled(kid, None))
  {
    if outcomes != [] {
      var init := outcomes[..|outcomes| - 1];
      KeptChildren(flag, init);
      assert forall j :: 0 <= j < |init| ==> init[j] == outcomes[j];
    }
  }

  /** Under a non-PENDING flag nothing is kept exactly when every outcome is an error. */
  lemma {:induction false} KeepNoneIff(flag: FT.FlagType, outcomes: seq<Outcome<Settled>>)
    requires flag != FT.Skip && Keep(flag, outcomes).Done?
    ensures Keep(flag, outcomes).value == [] <==>
      forall j :: 0 <= j < |outcomes| ==> outcomes[j].Done? && outcomes[j].value.error.Some?
  {
    if outcomes != [] {
      var init := outcomes[..|outcomes| - 1];
      KeepNoneIff(flag, init);
      assert forall j :: 0 <= j < |init| ==> init[j] == outcomes[j];
    }
  }

  /** The kept children keep the order of their items. */
  lemma {:induction false} KeptInOrder(flag: FT.FlagType, outcomes: seq<Outcome<Settled>>, a: nat, b: nat)
    requires a < b < |outcomes| && flag != FT.Skip
    requires outcomes[a].Done? && outcomes[a].value.error.None?
    requires outcomes[b].Done? && outcomes[b].value.error.None?
    requires Keep(flag, outcomes).Done?
    ensures var kids := Keep(flag, outcomes).value;
      exists x, y :: 0 <= x < y < |kids| && kids[x] == outcomes[a].value.nodule && kids[y] == outcomes[b].value.nodule
  {
    var init := outcomes[..|outcomes| - 1];
    var kids := Keep(flag, init).value;
    assert init[a] == outcomes[a];
    if b == |outcomes| - 1 {
      KeptChildren(flag, init);
      var x :| 0 <= x < |kids| && kids[x] == outcomes[a].value.nodule;
      assert Keep(flag, outcomes).value == kids + [outcomes[b].value.nodule];
      assert Keep(flag, outcomes).value[|kids|] == outcomes[b].value.nodule;
    } else {
      assert init[b] == outcomes[b];
      KeptInOrder(flag, init, a, b);
      var x, y :| 0 <= x < y < |kids| && kids[x] == outcomes[a].value.nodule && kids[y] == outcomes[b].value.nodule;
      assert Keep(flag, outcomes).value[..|kids|] == kids;
      assert Keep(flag, outcomes).value[x] == kids[x];
      assert Keep(flag, outcomes).value[y] == kids[y];
    }
  }

  /** Every nodule of the tree stands on a YAML mapping, as Populate expects. */
  predicate Mappings(n: Nodule)
    decreases n
  {
    n.mapping.Mapping? && forall i :: 0 <= i < |n.children| ==> Mappings(n.children[i])
  }

  /** A nodule that Initialize leaves without error, children included, stands on mappings. */
  lemma {:induction false} InitializedMappings(n: Nodule)
    requires forall i :: 0 <= i < |n.children| ==> Mappings(n.children[i])
    requires Initialized(n).Done? && Initialized(n).value.error.None?
    ensures Mappings(Initialized(n).value.nodule)
    decreases n.mapping, 2
  {
    var location := Files.LocationString(n.file.path, n.mapping.pos.line, n.mapping.pos.column);
    ContentMappings(Named(n.(location := location), Flag.NodeFlagOf(n.mapping).value));
  }

  lemma {:induction false} ContentMappings(n: Nodule)
    requires n.mapping.Mapping? && forall i :: 0 <= i < |n.children| ==> Mappings(n.children[i])
    requires InitContent(n).Done? && InitContent(n).value.error.None?
    ensures Mappings(InitContent(n).value.nodule)
    decreases n.mapping, 1
  {
    match MapTryGetValue(n.mapping, "content")
    case None =>
    case Some(c) =>
      var n4 := if |Content(c)| > 0 && n.kind == "Slab" then n.(kind := "Node") else n;
      var outcomes := ItemOutcomes(n4.file, c);
      var kids := Keep(n4.flag, outcomes).value;
      if n4.flag == FT.Skip {
        SkipKeepsNoChildren(outcomes);
        assert n4.children + kids == n4.children;
      } else {
        KeptChildren(n4.flag, outcomes);
        forall kid | kid in kids
          ensures Mappings(kid)
        {
          var j :| 0 <= j < |outcomes| && outcomes[j] == Done(Settled(kid, None));
          InitializedMappings(ChildOf(n4.file, c.items[j]));
        }
      }
      var all := n4.children + kids;
      assert forall i :: 0 <= i < |all| ==> all[i] in n.children || all[i] in kids;
  }

  // -----------------------------------------------------------------------
  // multiplySlice

  /** A clone of `n` with `key` bound to the `k`-th value, its location suffixed with "(key[k])". */
  function Tagged(n: Nodule, key: string, value: Value, k: nat): Nodule
  {
    n.(input := n.input[key := value], location := n.location + "(" + key + "[" + NatToString(k) + "])")
  }

  /** The clones of one nodule, one per value, in value order. */
  function Row(n: Nodule, key: string, values: seq<Value>): seq<Nodule>
  {
    seq(|values|, j requires 0 <= j < |values| => Tagged(n, key, values[j], j))
  }

  /** The rows of all nodules, nodule after nodule. */
  function Rows(key: string, values: seq<Value>, nodules: seq<Nodule>): seq<Nodule>
  {
    if nodules == [] then []
    else Rows(key, values, nodules[..|nodules| - 1]) + Row(nodules[|nodules| - 1], key, values)
  }

  /** go/specimen/tree.go:334-344. Clone is a value copy here, so each clone's input is its own. */
  method MultiplySlice(key: string, valueSlice: seq<Value>, noduleSlice: seq<Nodule>) returns (resultSlice: seq<Nodule>)
    ensures resultSlice == Rows(key, valueSlice, noduleSlice)
  {
    resultSlice := [];
    var i := 0;
    while i < |noduleSlice|
      invariant i <= |noduleSlice|
      invariant resultSlice == Rows(key, valueSlice, noduleSlice[..i])
    {
      var k := 0;
      ghost var before := resultSlice;
      while k < |valueSlice|
        invariant k <= |valueSlice|
        invariant resultSlice == before + Row(noduleSlice[i], key, valueSlice)[..k]
      {
        var other := Tagged(noduleSlice[i], key, valueSlice[k], k);
        assert Row(noduleSlice[i], key, valueSlice)[..k + 1] == Row(noduleSlice[i], key, valueSlice)[..k] + [other];
        resultSlice := resultSlice + [other];
        k := k + 1;
      }
      assert Row(noduleSlice[i], key, valueSlice)[..k] == Row(noduleSlice[i], key, valueSlice);
      assert noduleSlice[..i + 1][..i] == noduleSlice[..i];
      i := i + 1;
    }
    assert noduleSlice[..i] == noduleSlice;
  }

  /**
   * multiplySlice gives |nodules|·|values| clones, nodule-major: position
   * i·|values| + j holds nodule i with the j-th value.
   */
  lemma {:induction false} RowsAt(key: string, values: seq<Value>, nodules: seq<Nodule>, i: nat, j: nat)
    requires i < |nodules| && j < |values|
    ensures |Rows(key, values, nodules)| == |nodules| * |values|
    ensures Rows(key, values, nodules)[i * |values| + j] == Tagged(nodules[i], key, values[j], j)
  {
    var n := |nodules| - 1;
    var init := nodules[..n];
    RowsLength(key, values, init);
    if i < n {
      RowsAt(key, values, init, i, j);
      assert i * |values| + j < n * |values| by {
        MulLess(i, n, |values|, j);
      }
    } else {
      assert |Rows(key, values, init)| == i * |values|;
    }
  }

  /** Every clone multiplySlice returns is one nodule of the slice tagged with one of the values. */
  lemma {:induction false} RowsFrom(key: string, values: seq<Value>, nodules: seq<Nodule>)
    ensures forall r :: r in Rows(key, values, nodules) ==>
      exists i, j :: 0 <= i < |nodules| && 0 <= j < |values| && r == Tagged(nodules[i], key, values[j], j)
  {
    if nodules != [] {
      var init := nodules[..|nodules| - 1];
      RowsFrom(key, values, init);
      forall r | r in Rows(key, values, nodules)
        ensures exists i, j :: 0 <= i < |nodules| && 0 <= j < |values| && r == Tagged(nodules[i], key, values[j], j)
      {
        if r in Rows(key, values, init) {
          var i, j :| 0 <= i < |init| && 0 <= j < |values| && r == Tagged(init[i], key, values[j], j);
          assert init[i] == nodules[i];
        } else {
          var row := Row(nodules[|nodules| - 1], key, values);
          assert r in row;
          var j :| 0 <= j < |row| && row[j] == r;
        }
      }
    }
  }

  lemma {:induction false} RowsLength(key: string, values: seq<Value>, nodules: seq<Nodule>)
    ensures |Rows(key, values, nodules)| == |nodules| * |values|
  {
    if nodules != [] {
      var n := |nodules| - 1;
      RowsLength(key, values, nodules[..n]);
      assert |Rows(key, values, nodules)| == n * |values| + |values|;
      assert n * |values| + |values| == (n + 1) * |values|;
    }
  }

  lemma MulLess(i: nat, n: nat, w: nat, j: nat)
    requires i < n && j < w
    ensures i * w + j < n * w
  {
    assert (i + 1) * w <= n * w;
  }
}
