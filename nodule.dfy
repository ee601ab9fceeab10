/**
 * Generation A of the test-data tree (go/specimen/nodule.go): nodules are
 * built from the YAML mappings of one file, PENDING subtrees are cut off,
 * and each nodule's data matrix is its parent's matrix with its own
 * entries set on top.
 *
 * A Go `Nodule` is a struct handled through pointers; here it is a value,
 * and the operations that fill it in return the filled-in nodule.
 */
module NoduleTree {
  import opened Base
  import opened Yaml
  import opened OrderedStringMap
  import FT = FocusTree
  import Flag
  import Files

  datatype Nodule = Nodule(
    filePath: string,
    yamlNode: Node,
    flag: FT.FlagType,
    hasContentKey: bool,
    children: seq<Nodule>,
    dataMatrix: Matrix)

  /** `Nodule{FilePath: path, YamlNode: node}`: every other field at its zero value. */
  function Blank(path: string, node: Node): Nodule
  {
    Nodule(path, node, FT.None, false, [], Matrix([], map[]))
  }

  /** `GetLocation`: "path:line:column" of the nodule's mapping. */
  function Location(n: Nodule): string
  {
    Files.LocationString(n.filePath, n.yamlNode.pos.line, n.yamlNode.pos.column)
  }

  // -----------------------------------------------------------------------
  // Building the tree

  /** The outcome of the YAML parser on a file, which this model takes as given. */
  datatype Document = Parsed(root: Node) | Unparsable(reason: string)

  /** What NewNoduleFromFile hands back when it does not panic: a nodule or an error. */
  datatype Loaded = Loaded(nodule: Nodule) | LoadError(reason: string)

  const NotMappingError: string := "the content descendant nodes must be yaml mappings"
  const RootError: string := "the root of the document must be a yaml mapping"

  /**
   * The nodule InitializeTree makes of `node`: a non-mapping stays blank; a
   * mapping reads its flag (which may panic); a PENDING one keeps no
   * children; otherwise every item of `content` becomes a child, in order.
   */
  function Built(path: string, node: Node): Outcome<Nodule>
    decreases node, 1
  {
    if !node.Mapping? then Done(Blank(path, node))
    else match Flag.NodeFlagOf(node)
      case Panic(m) => Panic(m)
      case Done(read) =>
        var n := Blank(path, node).(flag := read.flag);
        if read.flag == FT.Skip then Done(n)
        else match MapTryGetValue(node, "content")
          case None => Done(n)
          case Some(c) =>
            match Collect(ItemResults(path, c))
            case Panic(m) => Panic(m)
            case Done(kids) => Done(n.(hasContentKey := true, children := kids))
  }

  /** What InitializeTree gives for each item of the content node `c`. */
  function ItemResults(path: string, c: Node): seq<Outcome<Nodule>>
    decreases c, 0
  {
    seq(|Content(c)|, i requires 0 <= i < |Content(c)| => Built(path, Content(c)[i]))
  }

  /** All the children, in order, unless one panics; then the first panic. */
  function Collect(results: seq<Outcome<Nodule>>): Outcome<seq<Nodule>>
  {
    if results == [] then Done([])
    else match Collect(results[..|results| - 1])
      case Panic(m) => Panic(m)
      case Done(kids) =>
        match results[|results| - 1]
        case Panic(m) => Panic(m)
        case Done(child) => Done(kids + [child])
  }

  /**
   * go/specimen/nodule.go:48-76 on `Nodule{FilePath: path, YamlNode: node}`.
   * The error of a child's initialization is dropped by the caller, as in Go.
   */
  method InitializeTree(path: string, node: Node) returns (r: Outcome<Nodule>, err: Option<string>)
    decreases node
    ensures r == Built(path, node)
    ensures err == if node.Mapping? then None else Some(NotMappingError)
  {
    if !node.Mapping? {
      return Done(Blank(path, node)), Some(NotMappingError);
    }
    err := None;
    var flagRead := Flag.ReadNodeFlag(node);
    if flagRead.Panic? {
      return Panic(flagRead.message), None;
    }
    var n := Blank(path, node).(flag := flagRead.value.flag);
    if n.flag == FT.Skip {
      return Done(n), None;
    }
    var contentNode := MapTryGetValue(node, "content");
    if contentNode.None? {
      return Done(n), None;
    }
    var c := contentNode.value;
    var items := Content(c);
    ghost var results := ItemResults(path, c);
    var children: seq<Nodule> := [];
    var k := 0;
    while k < |items|
      invariant k <= |items|
      invariant Collect(results[..k]) == Done(children)
    {
      var child, _ := InitializeTree(path, items[k]);
      CollectNext(results, k, children);
      if child.Panic? {
        CollectPanic(results, k + 1);
        return Panic(child.message), None;
      }
      children := children + [child.value];
      k := k + 1;
    }
    assert results[..k] == results;
    r := Done(n.(hasContentKey := true, children := children));
  }

  /**
   * The shape of a built nodule: it keeps its path and node; a non-mapping
   * stays blank; a PENDING one has no children; otherwise the children are
   * the items of `content`, one each, in order.
   */
  lemma BuiltShape(path: string, node: Node)
    requires Built(path, node).Done?
    ensures var n := Built(path, node).value;
      && n.filePath == path && n.yamlNode == node
      && (!node.Mapping? ==> n == Blank(path, node))
      && (n.flag == FT.Skip ==> n.children == [] && !n.hasContentKey)
      && (node.Mapping? && n.flag != FT.Skip ==>
          (match MapTryGetValue(node, "content")
           case None => !n.hasContentKey && n.children == []
           case Some(c) =>
             (n.hasContentKey && |n.children| == |Content(c)| &&
              forall i :: 0 <= i < |Content(c)| ==> Built(path, Content(c)[i]) == Done(n.children[i]))))
  {
    if node.Mapping? && Flag.NodeFlagOf(node).value.flag != FT.Skip {
      match MapTryGetValue(node, "content")
      case None =>
      case Some(c) => CollectAll(ItemResults(path, c));
    }
  }

  /** Collecting keeps every result, one child per item, in item order. */
  lemma {:induction false} CollectAll(results: seq<Outcome<Nodule>>)
    requires Collect(results).Done?
    ensures |Collect(results).value| == |results|
    ensures forall i :: 0 <= i < |results| ==> results[i] == Done(Collect(results).value[i])
  {
    if results != [] {
      var init := results[..|results| - 1];
      CollectAll(init);
      assert forall i :: 0 <= i < |init| ==> init[i] == results[i];
    }
  }

  /** One more result: a panic ends the walk, a child is appended. */
  lemma CollectNext(results: seq<Outcome<Nodule>>, k: nat, kids: seq<Nodule>)
    requires k < |results| && Collect(results[..k]) == Done(kids)
    ensures Collect(results[..k + 1]) ==
      match results[k]
      case Panic(m) => Panic(m)
      case Done(child) => Done(kids + [child])
  {
    assert results[..k + 1][..k] == results[..k];
  }

  /** Once a prefix of the results panics, the whole collection panics with the same message. */
  lemma {:induction false} CollectPanic(results: seq<Outcome<Nodule>>, k: nat)
    requires k <= |results| && Collect(results[..k]).Panic?
    ensures Collect(results) == Collect(results[..k])
    decreases |results|
  {
    if k < |results| {
      var init := results[..|results| - 1];
      assert init[..k] == results[..k];
      CollectPanic(init, k);
    } else {
      assert results[..k] == results;
    }
  }

  /** Collecting panics exactly when one of the results is a panic. */
  lemma {:induction false} CollectPanicsIff(results: seq<Outcome<Nodule>>)
    ensures Collect(results).Panic? <==> exists i :: 0 <= i < |results| && results[i].Panic?
  {
    if results != [] {
      var init := results[..|results| - 1];
      CollectPanicsIff(init);
      assert forall i :: 0 <= i < |init| ==> init[i] == results[i];
    }
  }

  /** What NewNoduleFromFile gives for a file whose parse is `document`. */
  function FileNodule(file: Files.File, document: Document): Outcome<Loaded>
  {
    if document.Unparsable? then Done(LoadError(document.reason))
    else if !document.root.Mapping? then Done(LoadError(RootError))
    else match Built(file.path, document.root)
      case Panic(m) => Panic(m)
      case Done(n) => Done(Loaded(n))
  }

  /** go/specimen/nodule.go:22-45, with the parser's result given as `document`. */
  method NewNoduleFromFile(file: Files.File, document: Document) returns (r: Outcome<Loaded>)
    ensures r == FileNodule(file, document)
    ensures document.Unparsable? ==> r == Done(LoadError(document.reason))
    ensures document.Parsed? && !document.root.Mapping? ==> r == Done(LoadError(RootError))
    ensures document.Parsed? && document.root.Mapping? ==>
      match Built(file.path, document.root)
      case Panic(m) => r == Panic(m)
      case Done(n) => r == Done(Loaded(n))
  {
    if document.Unparsable? {
      return Done(LoadError(document.reason));
    }
    if !document.root.Mapping? {
      return Done(LoadError(RootError));
    }
    var n, err := InitializeTree(file.path, document.root);
    if n.Panic? {
      return Panic(n.message);
    }
    r := Done(Loaded(n.value));
  }

  /**
   * A mapping whose flag value is not a string is reached by the walk: it
   * sits at the root or below `content` of non-PENDING mappings.
   */
  predicate BadFlagReached(node: Node)
    decreases node
  {
    node.Mapping? &&
    match Flag.NodeFlagOf(node)
    case Panic(_) => true
    case Done(read) =>
      read.flag != FT.Skip &&
      match MapTryGetValue(node, "content")
      case None => false
      case Some(c) => exists i :: 0 <= i < |Content(c)| && BadFlagReached(Content(c)[i])
  }

  /** Initialization panics exactly when some reached mapping has a non-string flag. */
  lemma {:induction false} BuiltPanicsIff(path: string, node: Node)
    ensures Built(path, node).Panic? <==> BadFlagReached(node)
    decreases node
  {
    if node.Mapping? && Flag.NodeFlagOf(node).Done? && Flag.NodeFlagOf(node).value.flag != FT.Skip {
      match MapTryGetValue(node, "content")
      case None =>
      case Some(c) =>
        var results := ItemResults(path, c);
        CollectPanicsIff(results);
        forall i | 0 <= i < |Content(c)|
          ensures results[i].Panic? <==> BadFlagReached(Content(c)[i])
        {
          BuiltPanicsIff(path, Content(c)[i]);
        }
    }
  }

  // -----------------------------------------------------------------------
  // Populating the data matrices

  /** Keys of a nodule mapping that never enter the data matrix. */
  predicate Reserved(key: string)
  {
    key == "flag" || key == "content" || key == "about"
  }

  /** The error Populate reports for a key whose value is neither a sequence nor a scalar. */
  datatype PopulateError = UnexpectedKind(location: string, key: string)

  /** The list a value contributes: a sequence's item texts, a scalar's text, nothing for a mapping. */
  function ListOf(value: Node): Option<seq<string>>
  {
    match value
    case Sequence(items, _) => Some(seq(|items|, i requires 0 <= i < |items| => Text(items[i])))
    case Scalar(_, v, _) => Some([v])
    case Mapping(_, _) => None
  }

  /** go/specimen/nodule.go:92-95: the text of every item of a sequence, in order. */
  method ItemTexts(items: seq<Node>) returns (slice: seq<string>)
    ensures |slice| == |items|
    ensures forall i :: 0 <= i < |items| ==> slice[i] == Text(items[i])
  {
    slice := [];
    var i := 0;
    while i < |items|
      invariant i <= |items| && |slice| == i
      invariant forall j :: 0 <= j < i ==> slice[j] == Text(items[j])
    {
      slice := slice + [Text(items[i])];
      i := i + 1;
    }
  }

  /** One pair of Populate's loop: a reserved key or a mapping value leaves the matrix as it is. */
  function Step(m: Matrix, key: Node, value: Node): Matrix
  {
    if Reserved(Text(key)) then m
    else match ListOf(value)
      case None => m
      case Some(list) => Assign(m, Text(key), list)
  }

  /** The error one pair gives, if any. */
  function StepErrors(location: string, key: Node, value: Node): seq<PopulateError>
  {
    if !Reserved(Text(key)) && value.Mapping? then [UnexpectedKind(location, Text(key))] else []
  }

  /** The matrix after the first `k` key/value pairs of the content list `c` have been applied to `m`. */
  function Applied(m: Matrix, c: seq<Node>, k: nat): Matrix
    requires 2 * k <= |c|
  {
    if k == 0 then m else Step(Applied(m, c, k - 1), c[2 * k - 2], c[2 * k - 1])
  }

  /** The errors the first `k` pairs of `c` give, reported at `location`. */
  function KindErrors(location: string, c: seq<Node>, k: nat): seq<PopulateError>
    requires 2 * k <= |c|
  {
    if k == 0 then [] else KindErrors(location, c, k - 1) + StepErrors(location, c[2 * k - 2], c[2 * k - 1])
  }

  /** Applying one more pair. */
  lemma AppliedNext(m: Matrix, location: string, c: seq<Node>, k: nat)
    requires 2 * k + 2 <= |c|
    ensures Applied(m, c, k + 1) == Step(Applied(m, c, k), c[2 * k], c[2 * k + 1])
    ensures KindErrors(location, c, k + 1) == KindErrors(location, c, k) + StepErrors(location, c[2 * k], c[2 * k + 1])
  {
  }

  /**
   * The populated nodule and the errors it gathers: its own matrix is the
   * inherited one with its pairs applied, and each child is populated from
   * that matrix.
   */
  function Filled(n: Nodule, inherited: Matrix): (Nodule, seq<PopulateError>)
    decreases n, 1
  {
    var c := Content(n.yamlNode);
    var own := Applied(inherited, c, |c| / 2);
    var kids := FilledChildren(n, own, |n.children|);
    (n.(dataMatrix := own, children := kids.0), KindErrors(Location(n), c, |c| / 2) + kids.1)
  }

  /** The first `k` children of `n` populated from `m`, and their errors in child order. */
  function FilledChildren(n: Nodule, m: Matrix, k: nat): (seq<Nodule>, seq<PopulateError>)
    requires k <= |n.children|
    decreases n, 0, k
  {
    if k == 0 then ([], [])
    else
      var prev := FilledChildren(n, m, k - 1);
      var child := Filled(n.children[k - 1], m);
      (prev.0 + [child.0], prev.1 + child.1)
  }

  /** go/specimen/nodule.go:86-101: one key/value pair of the mapping, set on `matrix` or reported. */
  method ApplyPair(matrix: OSM, location: string, key: Node, value: Node) returns (errors: seq<PopulateError>)
    requires matrix.Valid()
    modifies matrix
    ensures matrix.Valid()
    ensures matrix.Value() == Step(old(matrix.Value()), key, value)
    ensures errors == StepErrors(location, key, value)
  {
    errors := [];
    if Reserved(Text(key)) {
      return;
    }
    if value.Sequence? {
      var slice := ItemTexts(value.items);
      assert slice == ListOf(value).value;
      matrix.Set(Text(key), slice);
    } else if value.Scalar? {
      matrix.Set(Text(key), [value.value]);
    } else {
      errors := [UnexpectedKind(location, Text(key))];
    }
  }

  /**
   * go/specimen/nodule.go:79-112. The inherited map is cloned first, so the
   * caller's map is never written (this method may modify nothing that
   * existed before the call). The joined error is nil exactly when `errors`
   * is empty.
   */
  method Populate(n: Nodule, dataMatrix: OSM) returns (m: Nodule, errors: seq<PopulateError>)
    requires dataMatrix.Valid()
    decreases n, 1
    ensures (m, errors) == Filled(n, dataMatrix.Value())
  {
    var matrix := dataMatrix.Clone();
    var c := Content(n.yamlNode);
    var errorSlice := ApplyPairs(matrix, Location(n), c);
    var kids, kidErrors := PopulateChildren(n, matrix);
    m := n.(dataMatrix := matrix.Value(), children := kids);
    errors := errorSlice + kidErrors;
  }

  /** go/specimen/nodule.go:85-102: the pairs of a mapping's content list, applied in order. */
  method ApplyPairs(matrix: OSM, location: string, c: seq<Node>) returns (errors: seq<PopulateError>)
    requires matrix.Valid()
    modifies matrix
    ensures matrix.Valid()
    ensures matrix.Value() == Applied(old(matrix.Value()), c, |c| / 2)
    ensures errors == KindErrors(location, c, |c| / 2)
  {
    ghost var start := matrix.Value();
    errors := [];
    var k := 0;
    while k < |c| / 2
      invariant k <= |c| / 2
      invariant matrix.Valid()
      invariant matrix.Value() == Applied(start, c, k)
      invariant errors == KindErrors(location, c, k)
    {
      AppliedNext(start, location, c, k);
      var pairErrors := ApplyPair(matrix, location, c[2 * k], c[2 * k + 1]);
      errors := errors + pairErrors;
      k := k + 1;
    }
  }

  /** go/specimen/nodule.go:105-107: every child populated from the parent's final matrix. */
  method PopulateChildren(n: Nodule, matrix: OSM) returns (kids: seq<Nodule>, errors: seq<PopulateError>)
    requires matrix.Valid()
    decreases n, 0
    ensures (kids, errors) == FilledChildren(n, matrix.Value(), |n.children|)
  {
    kids := [];
    errors := [];
    var i := 0;
    while i < |n.children|
      invariant i <= |n.children|
      invariant FilledChildren(n, matrix.Value(), i) == (kids, errors)
    {
      var child, childErrors := Populate(n.children[i], matrix);
      kids := kids + [child];
      errors := errors + childErrors;
      i := i + 1;
    }
  }

  // ---- properties of Populate

  /** The `j`-th pair of `c` sets `key`: its key text is `key`, not reserved, and its value is a sequence or a scalar. */
  predicate SetsAt(c: seq<Node>, j: nat, key: string)
    requires 2 * j + 1 < |c|
  {
    Text(c[2 * j]) == key && !Reserved(key) && ListOf(c[2 * j + 1]).Some?
  }

  /** The keys the first `k` pairs of `c` set. */
  function DeclaredSet(c: seq<Node>, k: nat): set<string>
    requires 2 * k <= |c|
  {
    if k == 0 then {}
    else DeclaredSet(c, k - 1) + (if SetsAt(c, k - 1, Text(c[2 * k - 2])) then {Text(c[2 * k - 2])} else {})
  }

  lemma {:induction false} DeclaredSetIff(c: seq<Node>, k: nat, key: string)
    requires 2 * k <= |c|
    ensures key in DeclaredSet(c, k) <==> exists j :: 0 <= j < k && SetsAt(c, j, key)
  {
    if k > 0 {
      DeclaredSetIff(c, k - 1, key);
    }
  }

  /** Populate keeps the map well formed. */
  lemma {:induction false} AppliedValid(m: Matrix, c: seq<Node>, k: nat)
    requires 2 * k <= |c| && m.Valid()
    ensures Applied(m, c, k).Valid()
  {
    if k > 0 {
      AppliedValid(m, c, k - 1);
      var prev := Applied(m, c, k - 1);
      var key := Text(c[2 * k - 2]);
      if !Reserved(key) && ListOf(c[2 * k - 1]).Some? {
        AssignValid(prev, key, ListOf(c[2 * k - 1]).value);
      }
    }
  }

  /**
   * A key no pair sets keeps its inherited presence and list; in particular
   * `flag`, `content` and `about` never enter or change the matrix.
   */
  lemma {:induction false} AppliedUntouched(m: Matrix, c: seq<Node>, k: nat, key: string)
    requires 2 * k <= |c| && key !in DeclaredSet(c, k)
    ensures key in Applied(m, c, k).mapping <==> key in m.mapping
    ensures key in m.mapping ==> Applied(m, c, k).mapping[key] == m.mapping[key]
  {
    if k > 0 {
      AppliedUntouched(m, c, k - 1, key);
      var prev := Applied(m, c, k - 1);
      var other := Text(c[2 * k - 2]);
      if !Reserved(other) && ListOf(c[2 * k - 1]).Some? {
        AssignGet(prev, other, ListOf(c[2 * k - 1]).value, key);
      }
    }
  }

  /** Reserved keys are never set. */
  lemma ReservedNeverDeclared(c: seq<Node>, k: nat, key: string)
    requires 2 * k <= |c| && Reserved(key)
    ensures key !in DeclaredSet(c, k)
  {
    DeclaredSetIff(c, k, key);
  }

  /** The last pair that sets a key decides its list. */
  lemma {:induction false} AppliedLastWins(m: Matrix, c: seq<Node>, k: nat, key: string, j: nat)
    requires 2 * k <= |c| && j < k && SetsAt(c, j, key)
    requires forall j' :: j < j' < k ==> !SetsAt(c, j', key)
    ensures key in Applied(m, c, k).mapping
    ensures Applied(m, c, k).mapping[key] == ListOf(c[2 * j + 1]).value
  {
    var prev := Applied(m, c, k - 1);
    var other := Text(c[2 * k - 2]);
    if j < k - 1 {
      AppliedLastWins(m, c, k - 1, key, j);
      if !Reserved(other) && ListOf(c[2 * k - 1]).Some? {
        assert !SetsAt(c, k - 1, key);
        AssignGet(prev, other, ListOf(c[2 * k - 1]).value, key);
      }
    }
  }

  /** The errors name exactly the unreserved keys whose value is a mapping, all at the nodule's location. */
  lemma {:induction false} KindErrorsIff(location: string, c: seq<Node>, k: nat, e: PopulateError)
    requires 2 * k <= |c|
    ensures e in KindErrors(location, c, k) <==>
      e.location == location && exists j :: 0 <= j < k && Text(c[2 * j]) == e.key && !Reserved(e.key) && c[2 * j + 1].Mapping?
  {
    if k > 0 {
      KindErrorsIff(location, c, k - 1, e);
      assert c[2 * (k - 1)] == c[2 * k - 2] && c[2 * (k - 1) + 1] == c[2 * k - 1];
    }
  }

  /** Once an element of `order` lies in `d`, every later one does too. */
  predicate ClosedUnder(order: seq<string>, d: set<string>)
  {
    forall i, j :: 0 <= i < j < |order| && order[i] in d ==> order[j] in d
  }

  lemma {:induction false} WithoutClosed(s: seq<string>, x: string, d: set<string>)
    requires ClosedUnder(s, d)
    ensures ClosedUnder(Without(s, x), d)
  {
    if s != [] {
      var t := s[1..];
      assert ClosedUnder(t, d) by {
        forall i, j | 0 <= i < j < |t| && t[i] in d ensures t[j] in d {
          assert s[i + 1] == t[i] && s[j + 1] == t[j];
        }
      }
      WithoutClosed(t, x, d);
      if s[0] != x {
        var w := Without(t, x);
        var r := [s[0]] + w;
        assert s[0] in d ==> forall y :: y in w ==> y in d by {
          if s[0] in d {
            forall y | y in w ensures y in d {
              var j :| 0 <= j < |t| && t[j] == y;
              assert s[j + 1] == y;
            }
          }
        }
        forall i, j | 0 <= i < j < |r| && r[i] in d ensures r[j] in d {
          assert r[j] == w[j - 1];
          if i > 0 {
            assert r[i] == w[i - 1];
          }
        }
      }
    }
  }

  /**
   * Every key the nodule sets comes after every key it does not set: a
   * redeclared inherited key moves behind the ones inherited unchanged.
   */
  lemma {:induction false} AppliedDeclaredLast(m: Matrix, c: seq<Node>, k: nat)
    requires 2 * k <= |c|
    ensures ClosedUnder(Applied(m, c, k).order, DeclaredSet(c, k))
  {
    if k > 0 {
      AppliedDeclaredLast(m, c, k - 1);
      var prev := Applied(m, c, k - 1);
      var d := DeclaredSet(c, k - 1);
      var key := Text(c[2 * k - 2]);
      assert c[2 * (k - 1)] == c[2 * k - 2] && c[2 * (k - 1) + 1] == c[2 * k - 1];
      if SetsAt(c, k - 1, key) {
        var d' := d + {key};
        assert DeclaredSet(c, k) == d';
        WithoutClosed(prev.order, key, d);
        var w := Without(prev.order, key);
        var r := w + [key];
        assert Applied(m, c, k).order == r;
        forall i, j | 0 <= i < j < |r| && r[i] in d' ensures r[j] in d' {
          if j < |w| {
            assert r[i] == w[i] && r[j] == w[j];
            assert w[i] in w;
          }
        }
      } else {
        assert DeclaredSet(c, k) == d;
      }
    }
  }

  /** The i-th populated child is child i populated from the given matrix. */
  lemma {:induction false} FilledChildrenAt(n: Nodule, m: Matrix, k: nat, i: nat)
    requires i < k <= |n.children|
    ensures |FilledChildren(n, m, k).0| == k
    ensures FilledChildren(n, m, k).0[i] == Filled(n.children[i], m).0
  {
    if i < k - 1 {
      FilledChildrenAt(n, m, k - 1, i);
    } else if k > 1 {
      FilledChildrenAt(n, m, k - 1, 0);
    }
  }

  /** A child sees every key of its parent's final matrix that it does not set itself, with the parent's list. */
  lemma ChildInherits(n: Nodule, inherited: Matrix, i: nat, key: string)
    requires i < |n.children|
    requires key in Filled(n, inherited).0.dataMatrix.mapping
    requires var cc := Content(n.children[i].yamlNode); key !in DeclaredSet(cc, |cc| / 2)
    ensures var p := Filled(n, inherited).0;
      i < |p.children| && key in p.children[i].dataMatrix.mapping &&
      p.children[i].dataMatrix.mapping[key] == p.dataMatrix.mapping[key]
  {
    var p := Filled(n, inherited).0;
    FilledChildrenAt(n, p.dataMatrix, |n.children|, i);
    var cc := Content(n.children[i].yamlNode);
    AppliedUntouched(p.dataMatrix, cc, |cc| / 2, key);
  }

  /** Every matrix in the tree keeps the ordered-map invariant. */
  ghost predicate MatricesValid(n: Nodule)
    decreases n
  {
    n.dataMatrix.Valid() && forall i :: 0 <= i < |n.children| ==> MatricesValid(n.children[i])
  }

  /** Populating from a well-formed matrix leaves every matrix of the tree well-formed. */
  lemma {:induction false} FilledValid(n: Nodule, inherited: Matrix)
    requires inherited.Valid()
    decreases n, 1
    ensures MatricesValid(Filled(n, inherited).0)
  {
    var c := Content(n.yamlNode);
    AppliedValid(inherited, c, |c| / 2);
    FilledChildrenValid(n, Applied(inherited, c, |c| / 2), |n.children|);
  }

  lemma {:induction false} FilledChildrenValid(n: Nodule, m: Matrix, k: nat)
    requires m.Valid() && k <= |n.children|
    decreases n, 0, k
    ensures |FilledChildren(n, m, k).0| == k
    ensures forall i :: 0 <= i < k ==> MatricesValid(FilledChildren(n, m, k).0[i])
  {
    if k > 0 {
      FilledChildrenValid(n, m, k - 1);
      FilledValid(n.children[k - 1], m);
    }
  }
}
