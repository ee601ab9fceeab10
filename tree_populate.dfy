/**
 * Generation B, second pass (go/specimen/tree.go:153-260): Populate walks
 * the initialized tree, resolves each nodule's code box, merges the
 * inherited input under the nodule's own `input`, passes the matrix down or
 * replaces it by the nodule's own `matrix`, and expands every slab that has
 * a matrix into one child per combination of matrix values.
 *
 * Go ranges over maps at tree.go:174-176, 190-192 and 229. A merge gives the
 * same map in any order, so those loops are modelled as such. The order of
 * the matrix keys in the slab expansion does decide the order and the
 * locations of the generated children: it is a parameter here, `order`,
 * which may be any function listing each key of a matrix once.
 */
module TreePopulate {
  import opened Base
  import opened Yaml
  import FT = FocusTree
  import opened Tree
  import MR = MixedRadix

  const InputNotMapping: string := "the value of \"input\" must be a mapping"
  const MatrixNotMapping: string := "the value of \"matrix\" must be a mapping"
  const NoBox: string := "no box declared down to this slab"
  const InputMandatory: string := "the input entry is mandatory on slabs"
  const NoValidChildren: string := "no valid children"
  const NotAString: string := "expected a string"
  const NotASequence: string := "expected a sequence node"
  const NilMapWrite: string := "assignment to entry in nil map"

  function NoCodebox(name: string): string
  {
    "no codebox with the name \"" + name + "\" has been registered"
  }

  type Matrix = map<string, seq<Value>>

  /** A listing of the keys of `m` in which every key appears exactly once. */
  predicate IsKeyOrder(keys: seq<string>, m: Matrix)
  {
    && (forall i :: 0 <= i < |keys| ==> keys[i] in m)
    && (forall k :: k in m ==> k in keys)
    && (forall i, j :: 0 <= i < j < |keys| ==> keys[i] != keys[j])
  }

  /** Go's iteration order over a matrix, fixed by the caller: each key once. */
  ghost predicate Fair(order: Matrix -> seq<string>)
  {
    forall m :: IsKeyOrder(order(m), m)
  }

  // -----------------------------------------------------------------------
  // The matrix a nodule inherits

  /**
   * go/specimen/tree.go:190-192 as written: the inherited entries are written
   * into the nodule's own `Matrix`, which is `None` when the Go map is nil.
   * Initialize never allocates it, so a non-empty inherited matrix panics.
   */
  function InheritMatrixAsWritten(own: Option<Matrix>, inherited: Matrix): Outcome<Matrix>
  {
    if inherited == map[] then Done(if own.Some? then own.value else map[])
    else if own.None? then Panic(NilMapWrite)
    else Done(own.value + inherited)
  }

  /** The nodules Initialize builds (`ChildOf`) leave `Matrix` nil: as written, any inherited entry panics. */
  lemma NilMatrixPanics(inherited: Matrix)
    ensures InheritMatrixAsWritten(None, inherited).Panic? <==> inherited != map[]
  {
  }

  /** A parent with a one-key local matrix crashes its first non-PENDING child, as written. */
  lemma OneKeyMatrixPanics(key: string, value: Value)
    ensures InheritMatrixAsWritten(None, map[key := [value]]) == Panic(NilMapWrite)
  {
    assert key in map[key := [value]];
  }

  /**
   * The evidently intended inheritance, used by this model: the nodule's
   * matrix starts allocated (empty after Initialize) and receives every
   * inherited entry.
   */
  function InheritMatrix(own: Matrix, inherited: Matrix): (r: Matrix)
    ensures forall k :: k in inherited ==> k in r && r[k] == inherited[k]
    ensures forall k :: k in r <==> k in own || k in inherited
  {
    own + inherited
  }

  /** With the matrix allocated, inheritance never panics and agrees with the written code wherever that does not panic. */
  lemma InheritMatrixAgrees(own: Option<Matrix>, inherited: Matrix)
    requires InheritMatrixAsWritten(own, inherited).Done?
    ensures InheritMatrixAsWritten(own, inherited).value == InheritMatrix(if own.Some? then own.value else map[], inherited)
  {
    if inherited == map[] {
      var o := if own.Some? then own.value else map[];
      assert o + inherited == o;
    }
  }

  // -----------------------------------------------------------------------
  // The nodule's own entries

  /** `ExtractContent` of the items of a sequence, in order. */
  function ItemValues(items: seq<Node>): (r: seq<Value>)
    ensures |r| == |items|
  {
    seq(|items|, i requires 0 <= i < |items| => Extract(items[i]))
  }

  /**
   * go/specimen/tree.go:198-210 over the first `k` entries of a `matrix`
   * mapping: each key must be a string and each value a sequence, or the
   * walk panics; a repeated key keeps its last list.
   */
  function LocalMatrix(node: Node, k: nat): Outcome<Matrix>
    requires node.Mapping? && k <= |node.pairs|
  {
    if k == 0 then Done(map[])
    else match LocalMatrix(node, k - 1)
      case Panic(m) => Panic(m)
      case Done(m) =>
        var p := node.pairs[k - 1];
        if !IsString(p.key) then Panic(NotAString)
        else if !p.value.Sequence? then Panic(NotASequence)
        else Done(m[Text(p.key) := ItemValues(p.value.items)])
  }

  // -----------------------------------------------------------------------
  // Expanding a slab along its matrix

  /** The first clone of a slab: `Clone()` with `Flag` None and `Matrix` nil. */
  function Template(n: Nodule): Nodule
  {
    n.(flag := FT.None, matrix := map[])
  }

  /** The clones after multiplying along `keys`, in that order (go/specimen/tree.go:224-232). */
  function Expanded(n: Nodule, keys: seq<string>): seq<Nodule>
    requires forall i :: 0 <= i < |keys| ==> keys[i] in n.matrix
  {
    if keys == [] then [Template(n)]
    else
      var last := keys[|keys| - 1];
      Rows(last, n.matrix[last], Expanded(n, keys[..|keys| - 1]))
  }

  /** go/specimen/tree.go:233-237: the slab's input is copied into every clone, over the matrix value. */
  function Shadowed(kids: seq<Nodule>, input: map<string, Value>): (r: seq<Nodule>)
    ensures |r| == |kids|
  {
    seq(|kids|, i requires 0 <= i < |kids| => kids[i].(input := kids[i].input + input))
  }

  /** The product of the list lengths of `keys`. */
  function Product(keys: seq<string>, m: Matrix): nat
    requires forall i :: 0 <= i < |keys| ==> keys[i] in m
  {
    if keys == [] then 1 else Product(keys[..|keys| - 1], m) * |m[keys[|keys| - 1]]|
  }

  /** Some key of a non-empty matrix. */
  ghost function PickKey(m: Matrix): (k: string)
    requires m != map[]
    ensures k in m
  {
    var k :| k in m; k
  }

  /** The number of combinations of a matrix: the product of its list lengths, in no particular order. */
  ghost function MatrixCount(m: Matrix): nat
    decreases |m|
  {
    if m == map[] then 1
    else
      var k := PickKey(m);
      |m[k]| * MatrixCount(m - {k})
  }

  // -----------------------------------------------------------------------
  // Populate

  /** go/specimen/tree.go:153-170: PENDING returns at once; a named box must be registered. */
  function PopulateFate(n: Nodule, boxes: map<string, Codebox>, box: Option<Codebox>,
                        input: map<string, Value>, matrix: Matrix, order: Matrix -> seq<string>): Outcome<Settled>
    requires Mappings(n) && Fair(order)
    decreases n, 4
  {
    if n.flag == FT.Skip then Done(Settled(n, None))
    else
      var boxNode := MapTryGetValue(n.mapping, "box");
      if boxNode.Some? && Text(boxNode.value) !in boxes then
        Done(Settled(n, Some(Errorf(n, NoCodebox(Text(boxNode.value))))))
      else
        WithInput(n, boxes, if boxNode.Some? then Some(boxes[Text(boxNode.value)]) else box, input, matrix, order)
  }

  /** go/specimen/tree.go:172-187: the inherited input, then the nodule's own `input` over it. */
  function WithInput(n: Nodule, boxes: map<string, Codebox>, box: Option<Codebox>,
                     input: map<string, Value>, matrix: Matrix, order: Matrix -> seq<string>): Outcome<Settled>
    requires Mappings(n) && Fair(order)
    decreases n, 3
  {
    var m := n.(input := n.input + input);
    var inputNode := MapTryGetValue(n.mapping, "input");
    if inputNode.Some? && !inputNode.value.Mapping? then Done(Settled(m, Some(Errorf(m, InputNotMapping))))
    else
      var m' := if inputNode.Some? then m.(input := m.input + ExtractPairs(inputNode.value, |inputNode.value.pairs|)) else m;
      WithMatrix(n, m', boxes, box, inputNode.Some?, matrix, order)
  }

  /** go/specimen/tree.go:189-211: the inherited matrix, replaced as a whole by the nodule's own `matrix`. */
  function WithMatrix(n: Nodule, m: Nodule, boxes: map<string, Codebox>, box: Option<Codebox>,
                      hasInput: bool, matrix: Matrix, order: Matrix -> seq<string>): Outcome<Settled>
    requires Mappings(n) && Fair(order) && m.children == n.children
    decreases n, 2
  {
    var m1 := m.(matrix := InheritMatrix(m.matrix, matrix));
    var matrixNode := MapTryGetValue(n.mapping, "matrix");
    if matrixNode.None? then Grow(n, m1, boxes, box, hasInput, order)
    else if !matrixNode.value.Mapping? then Done(Settled(m1, Some(Errorf(m1, MatrixNotMapping))))
    else match LocalMatrix(matrixNode.value, |matrixNode.value.pairs|)
      case Panic(msg) => Panic(msg)
      case Done(local) => Grow(n, m1.(matrix := local), boxes, box, hasInput, order)
  }

  /** go/specimen/tree.go:213-260: a slab is checked and expanded; a node keeps its valid children. */
  function Grow(n: Nodule, m: Nodule, boxes: map<string, Codebox>, box: Option<Codebox>,
                hasInput: bool, order: Matrix -> seq<string>): Outcome<Settled>
    requires Mappings(n) && Fair(order) && m.children == n.children
    decreases n, 1
  {
    if |m.children| == 0 then
      if box.None? then Done(Settled(m, Some(Errorf(m, NoBox))))
      else
        var m1 := m.(codebox := box);
        if !hasInput then Done(Settled(m1, Some(Errorf(m1, InputMandatory))))
        else if |m1.matrix| == 0 then Done(Settled(m1, None))
        else Done(Settled(m1.(children := Shadowed(Expanded(m1, order(m1.matrix)), m1.input)), None))
    else match Keep(FT.None, ChildFates(n, m, boxes, box, order))
      case Panic(msg) => Panic(msg)
      case Done(valid) =>
        if valid == [] then Done(Settled(m, Some(Errorf(m, NoValidChildren))))
        else Done(Settled(m.(children := valid), None))
  }

  /** Each child populated with the node's box, final input and final matrix. */
  function ChildFates(n: Nodule, m: Nodule, boxes: map<string, Codebox>, box: Option<Codebox>,
                      order: Matrix -> seq<string>): seq<Outcome<Settled>>
    requires Mappings(n) && Fair(order) && m.children == n.children
    decreases n, 0
  {
    seq(|n.children|, i requires 0 <= i < |n.children| => PopulateFate(n.children[i], boxes, box, m.input, m.matrix, order))
  }

  // -----------------------------------------------------------------------
  // The methods

  /** `for k, v := range source { target[k] = v }`. */
  method Merge<V>(target: map<string, V>, source: map<string, V>) returns (r: map<string, V>)
    ensures r == target + source
  {
    r := target;
    var rest := source.Keys;
    while rest != {}
      invariant rest <= source.Keys
      invariant forall k :: k in r <==> k in target || (k in source && k !in rest)
      invariant forall k :: k in r ==> r[k] == if k in source && k !in rest then source[k] else target[k]
      decreases rest
    {
      var k :| k in rest;
      r := r[k := source[k]];
      rest := rest - {k};
    }
  }

  /** go/specimen/tree.go:198-210: reads the entries of a `matrix` mapping. */
  method ReadMatrix(node: Node) returns (r: Outcome<Matrix>)
    requires node.Mapping?
    ensures r == LocalMatrix(node, |node.pairs|)
  {
    var m: Matrix := map[];
    var k := 0;
    while k < |node.pairs|
      invariant k <= |node.pairs|
      invariant LocalMatrix(node, k) == Done(m)
    {
      var p := node.pairs[k];
      if !IsString(p.key) {
        LocalMatrixPanic(node, k + 1, |node.pairs|);
        return Panic(NotAString);
      }
      if !p.value.Sequence? {
        LocalMatrixPanic(node, k + 1, |node.pairs|);
        return Panic(NotASequence);
      }
      var slice: seq<Value> := [];
      var j := 0;
      while j < |p.value.items|
        invariant j <= |p.value.items|
        invariant slice == ItemValues(p.value.items[..j])
      {
        assert p.value.items[..j + 1][..j] == p.value.items[..j];
        slice := slice + [Extract(p.value.items[j])];
        j := j + 1;
      }
      assert p.value.items[..j] == p.value.items;
      m := m[Text(p.key) := slice];
      k := k + 1;
    }
    r := Done(m);
  }

  /** A panic on the first `k` entries is the outcome of the whole mapping. */
  lemma {:induction false} LocalMatrixPanic(node: Node, k: nat, k': nat)
    requires node.Mapping? && k <= k' <= |node.pairs| && LocalMatrix(node, k).Panic?
    ensures LocalMatrix(node, k') == LocalMatrix(node, k)
    decreases k'
  {
    if k' > k {
      LocalMatrixPanic(node, k, k' - 1);
    }
  }

  /** go/specimen/tree.go:153-260 on an initialized nodule; the populated nodule is returned. */
  method Populate(n: Nodule, boxes: map<string, Codebox>, box: Option<Codebox>,
                  input: map<string, Value>, matrix: Matrix, order: Matrix -> seq<string>) returns (r: Outcome<Settled>)
    requires Mappings(n) && Fair(order)
    decreases n, 4
    ensures r == PopulateFate(n, boxes, box, input, matrix, order)
  {
    if n.flag == FT.Skip {
      return Done(Settled(n, None));
    }
    var codebox := box;
    var boxNode := MapTryGetValue(n.mapping, "box");
    if boxNode.Some? {
      if Text(boxNode.value) in boxes {
        codebox := Some(boxes[Text(boxNode.value)]);
      } else {
        return Done(Settled(n, Some(Errorf(n, NoCodebox(Text(boxNode.value))))));
      }
    }
    r := PopulateInput(n, boxes, codebox, input, matrix, order);
  }

  method PopulateInput(n: Nodule, boxes: map<string, Codebox>, box: Option<Codebox>,
                       input: map<string, Value>, matrix: Matrix, order: Matrix -> seq<string>) returns (r: Outcome<Settled>)
    requires Mappings(n) && Fair(order)
    decreases n, 3
    ensures r == WithInput(n, boxes, box, input, matrix, order)
  {
    var merged := Merge(n.input, input);
    var m := n.(input := merged);
    var inputNode := MapTryGetValue(n.mapping, "input");
    if inputNode.Some? {
      if !inputNode.value.Mapping? {
        return Done(Settled(m, Some(Errorf(m, InputNotMapping))));
      }
      merged := Merge(m.input, ExtractPairs(inputNode.value, |inputNode.value.pairs|));
      m := m.(input := merged);
    }
    r := PopulateMatrix(n, m, boxes, box, inputNode.Some?, matrix, order);
  }

  method PopulateMatrix(n: Nodule, m: Nodule, boxes: map<string, Codebox>, box: Option<Codebox>,
                        hasInput: bool, matrix: Matrix, order: Matrix -> seq<string>) returns (r: Outcome<Settled>)
    requires Mappings(n) && Fair(order) && m.children == n.children
    decreases n, 2
    ensures r == WithMatrix(n, m, boxes, box, hasInput, matrix, order)
  {
    var inherited := Merge(m.matrix, matrix);
    var m1 := m.(matrix := inherited);
    var matrixNode := MapTryGetValue(n.mapping, "matrix");
    if matrixNode.Some? {
      if !matrixNode.value.Mapping? {
        return Done(Settled(m1, Some(Errorf(m1, MatrixNotMapping))));
      }
      var local := ReadMatrix(matrixNode.value);
      if local.Panic? {
        return Panic(local.message);
      }
      m1 := m1.(matrix := local.value);
    }
    r := PopulateGrow(n, m1, boxes, box, hasInput, order);
  }

  method PopulateGrow(n: Nodule, m: Nodule, boxes: map<string, Codebox>, box: Option<Codebox>,
                      hasInput: bool, order: Matrix -> seq<string>) returns (r: Outcome<Settled>)
    requires Mappings(n) && Fair(order) && m.children == n.children
    decreases n, 1
    ensures r == Grow(n, m, boxes, box, hasInput, order)
  {
    if |m.children| == 0 {
      if box.None? {
        return Done(Settled(m, Some(Errorf(m, NoBox))));
      }
      var m1 := m.(codebox := box);
      if !hasInput {
        return Done(Settled(m1, Some(Errorf(m1, InputMandatory))));
      }
      if |m1.matrix| > 0 {
        var kids := ExpandSlab(m1, order(m1.matrix));
        m1 := m1.(children := kids);
      }
      return Done(Settled(m1, None));
    }
    var valid := PopulateChildren(n, m, boxes, box, order);
    if valid.Panic? {
      return Panic(valid.message);
    }
    if valid.value == [] {
      return Done(Settled(m, Some(Errorf(m, NoValidChildren))));
    }
    r := Done(Settled(m.(children := valid.value), None));
  }

  /** go/specimen/tree.go:222-237: multiply along each key, then copy the slab's input into every clone. */
  method ExpandSlab(n: Nodule, keys: seq<string>) returns (kids: seq<Nodule>)
    requires forall i :: 0 <= i < |keys| ==> keys[i] in n.matrix
    ensures kids == Shadowed(Expanded(n, keys), n.input)
  {
    var slice := [Template(n)];
    var i := 0;
    while i < |keys|
      invariant i <= |keys|
      invariant slice == Expanded(n, keys[..i])
    {
      assert keys[..i + 1][..i] == keys[..i];
      slice := MultiplySlice(keys[i], n.matrix[keys[i]], slice);
      i := i + 1;
    }
    assert keys[..i] == keys;
    kids := [];
    var k := 0;
    while k < |slice|
      invariant k <= |slice|
      invariant kids == Shadowed(slice, n.input)[..k]
    {
      var merged := Merge(slice[k].input, n.input);
      kids := kids + [slice[k].(input := merged)];
      k := k + 1;
    }
  }

  /** go/specimen/tree.go:241-250: each child populated in turn; an erroring child is dropped. */
  method PopulateChildren(n: Nodule, m: Nodule, boxes: map<string, Codebox>, box: Option<Codebox>,
                          order: Matrix -> seq<string>) returns (r: Outcome<seq<Nodule>>)
    requires Mappings(n) && Fair(order) && m.children == n.children
    decreases n, 0
    ensures r == Keep(FT.None, ChildFates(n, m, boxes, box, order))
  {
    ghost var fates := ChildFates(n, m, boxes, box, order);
    var valid: seq<Nodule> := [];
    var k := 0;
    while k < |n.children|
      invariant k <= |n.children|
      invariant Keep(FT.None, fates[..k]) == Done(valid)
    {
      var child := Populate(n.children[k], boxes, box, m.input, m.matrix, order);
      KeepNext(FT.None, fates, k, valid);
      if child.Panic? {
        KeepPanic(FT.None, fates, k + 1);
        return Panic(child.message);
      }
      if child.value.error.None? {
        valid := valid + [child.value.nodule];
      }
      k := k + 1;
    }
    assert fates[..k] == fates;
    r := Done(valid);
  }

  // -----------------------------------------------------------------------
  // Properties of Populate

  /** The box in force at `n`: its own registered `box`, else the inherited one. */
  function EffectiveBox(n: Nodule, boxes: map<string, Codebox>, box: Option<Codebox>): Option<Codebox>
    requires n.mapping.Mapping?
  {
    var boxNode := MapTryGetValue(n.mapping, "box");
    if boxNode.Some? && Text(boxNode.value) in boxes then Some(boxes[Text(boxNode.value)]) else box
  }

  /** The entries of the nodule's own `input` mapping, if it has one. */
  function LocalInput(n: Nodule): map<string, Value>
    requires n.mapping.Mapping?
  {
    var inputNode := MapTryGetValue(n.mapping, "input");
    if inputNode.Some? && inputNode.value.Mapping? then ExtractPairs(inputNode.value, |inputNode.value.pairs|) else map[]
  }

  /**
   * `n` is not PENDING and gets through the box, input and matrix checks:
   * its `box` (if any) is registered, its `input` (if any) is a mapping, and
   * its `matrix` (if any) is a mapping that reads without panic.
   */
  predicate PassesChecks(n: Nodule, boxes: map<string, Codebox>)
    requires n.mapping.Mapping?
  {
    var boxNode := MapTryGetValue(n.mapping, "box");
    var inputNode := MapTryGetValue(n.mapping, "input");
    var matrixNode := MapTryGetValue(n.mapping, "matrix");
    && n.flag != FT.Skip
    && (boxNode.Some? ==> Text(boxNode.value) in boxes)
    && (inputNode.Some? ==> inputNode.value.Mapping?)
    && (matrixNode.Some? ==> matrixNode.value.Mapping? && LocalMatrix(matrixNode.value, |matrixNode.value.pairs|).Done?)
  }

  /** The matrix in force at `n`: its own `matrix` if it has one, else its matrix with the inherited entries. */
  function MatrixInForce(n: Nodule, matrix: Matrix): Matrix
    requires n.mapping.Mapping?
  {
    var matrixNode := MapTryGetValue(n.mapping, "matrix");
    if matrixNode.Some? && matrixNode.value.Mapping? && LocalMatrix(matrixNode.value, |matrixNode.value.pairs|).Done?
    then LocalMatrix(matrixNode.value, |matrixNode.value.pairs|).value
    else InheritMatrix(n.matrix, matrix)
  }

  /** Past the checks, Populate comes down to the slab or node step on the merged input and matrix. */
  lemma ReachesGrow(n: Nodule, boxes: map<string, Codebox>, box: Option<Codebox>,
                    input: map<string, Value>, matrix: Matrix, order: Matrix -> seq<string>) returns (m: Nodule)
    requires Mappings(n) && Fair(order) && PassesChecks(n, boxes)
    ensures m == n.(input := n.input + input + LocalInput(n), matrix := MatrixInForce(n, matrix))
    ensures PopulateFate(n, boxes, box, input, matrix, order) ==
      Grow(n, m, boxes, EffectiveBox(n, boxes, box), MapTryGetValue(n.mapping, "input").Some?, order)
  {
    assert PopulateFate(n, boxes, box, input, matrix, order) == WithInput(n, boxes, EffectiveBox(n, boxes, box), input, matrix, order);
    var m2 := InputStep(n, boxes, EffectiveBox(n, boxes, box), input, matrix, order);
    MatrixStep(n, m2, boxes, EffectiveBox(n, boxes, box), MapTryGetValue(n.mapping, "input").Some?, matrix, order);
    m := m2.(matrix := MatrixInForce(n, matrix));
  }

  lemma InputStep(n: Nodule, boxes: map<string, Codebox>, box: Option<Codebox>,
                  input: map<string, Value>, matrix: Matrix, order: Matrix -> seq<string>) returns (m: Nodule)
    requires Mappings(n) && Fair(order)
    requires MapTryGetValue(n.mapping, "input").Some? ==> MapTryGetValue(n.mapping, "input").value.Mapping?
    ensures m == n.(input := n.input + input + LocalInput(n))
    ensures WithInput(n, boxes, box, input, matrix, order) ==
      WithMatrix(n, m, boxes, box, MapTryGetValue(n.mapping, "input").Some?, matrix, order)
  {
    m := n.(input := n.input + input + LocalInput(n));
    if MapTryGetValue(n.mapping, "input").None? {
      assert n.input + input + LocalInput(n) == n.input + input;
    }
  }

  lemma MatrixStep(n: Nodule, m: Nodule, boxes: map<string, Codebox>, box: Option<Codebox>,
                   hasInput: bool, matrix: Matrix, order: Matrix -> seq<string>)
    requires Mappings(n) && Fair(order) && m.children == n.children && m.matrix == n.matrix
    requires var matrixNode := MapTryGetValue(n.mapping, "matrix");
      matrixNode.Some? ==> matrixNode.value.Mapping? && LocalMatrix(matrixNode.value, |matrixNode.value.pairs|).Done?
    ensures WithMatrix(n, m, boxes, box, hasInput, matrix, order) ==
      Grow(n, m.(matrix := MatrixInForce(n, matrix)), boxes, box, hasInput, order)
  {
  }

  /** go/specimen/tree.go:160-170: a PENDING nodule comes back untouched; an unregistered box is an error. */
  lemma EarlyReturns(n: Nodule, boxes: map<string, Codebox>, box: Option<Codebox>,
                     input: map<string, Value>, matrix: Matrix, order: Matrix -> seq<string>)
    requires Mappings(n) && Fair(order)
    ensures n.flag == FT.Skip ==> PopulateFate(n, boxes, box, input, matrix, order) == Done(Settled(n, None))
    ensures n.flag != FT.Skip && MapTryGetValue(n.mapping, "box").Some? && Text(MapTryGetValue(n.mapping, "box").value) !in boxes ==>
      PopulateFate(n, boxes, box, input, matrix, order).Done? &&
      PopulateFate(n, boxes, box, input, matrix, order).value.error == Some(Errorf(n, NoCodebox(Text(MapTryGetValue(n.mapping, "box").value))))
  {
  }

  /** The step after the checks keeps the merged input and matrix of the nodule it works on. */
  lemma GrowKeeps(n: Nodule, m: Nodule, boxes: map<string, Codebox>, box: Option<Codebox>,
                  hasInput: bool, order: Matrix -> seq<string>)
    requires Mappings(n) && Fair(order) && m.children == n.children && Grow(n, m, boxes, box, hasInput, order).Done?
    ensures var r := Grow(n, m, boxes, box, hasInput, order).value.nodule;
      r.input == m.input && r.matrix == m.matrix && Errorf(r, "") == Errorf(m, "")
  {
  }

  /**
   * go/specimen/tree.go:172-187: the nodule's own `input` entries win over
   * inherited ones, and inherited ones over what the nodule held before.
   */
  lemma LocalInputOverrides(n: Nodule, boxes: map<string, Codebox>, box: Option<Codebox>,
                            input: map<string, Value>, matrix: Matrix, order: Matrix -> seq<string>)
    requires Mappings(n) && Fair(order) && PassesChecks(n, boxes)
    requires PopulateFate(n, boxes, box, input, matrix, order).Done?
    ensures var r := PopulateFate(n, boxes, box, input, matrix, order).value.nodule;
      && (forall k :: k in r.input <==> k in n.input || k in input || k in LocalInput(n))
      && (forall k :: k in LocalInput(n) ==> r.input[k] == LocalInput(n)[k])
      && (forall k :: k in input && k !in LocalInput(n) ==> r.input[k] == input[k])
      && (forall k :: k in n.input && k !in input && k !in LocalInput(n) ==> r.input[k] == n.input[k])
  {
    var m := ReachesGrow(n, boxes, box, input, matrix, order);
    GrowKeeps(n, m, boxes, EffectiveBox(n, boxes, box), MapTryGetValue(n.mapping, "input").Some?, order);
  }

  /**
   * go/specimen/tree.go:189-211: a nodule with its own `matrix` keeps
   * exactly that matrix, dropping every inherited key; one without keeps
   * every inherited entry.
   */
  lemma LocalMatrixReplaces(n: Nodule, boxes: map<string, Codebox>, box: Option<Codebox>,
                            input: map<string, Value>, matrix: Matrix, order: Matrix -> seq<string>)
    requires Mappings(n) && Fair(order) && PassesChecks(n, boxes)
    requires PopulateFate(n, boxes, box, input, matrix, order).Done?
    ensures var r := PopulateFate(n, boxes, box, input, matrix, order).value.nodule;
      var matrixNode := MapTryGetValue(n.mapping, "matrix");
      && (matrixNode.Some? ==> r.matrix == LocalMatrix(matrixNode.value, |matrixNode.value.pairs|).value)
      && (matrixNode.None? ==> forall k :: k in matrix ==> k in r.matrix && r.matrix[k] == matrix[k])
  {
    var m := ReachesGrow(n, boxes, box, input, matrix, order);
    GrowKeeps(n, m, boxes, EffectiveBox(n, boxes, box), MapTryGetValue(n.mapping, "input").Some?, order);
  }

  /**
   * go/specimen/tree.go:214-221: past the checks, a slab errors exactly
   * when no box is in force, or else when it has no `input`.
   */
  lemma LeafErrors(n: Nodule, boxes: map<string, Codebox>, box: Option<Codebox>,
                   input: map<string, Value>, matrix: Matrix, order: Matrix -> seq<string>)
    requires Mappings(n) && Fair(order) && PassesChecks(n, boxes) && n.children == []
    ensures PopulateFate(n, boxes, box, input, matrix, order).Done?
    ensures PopulateFate(n, boxes, box, input, matrix, order).value.error ==
      if EffectiveBox(n, boxes, box).None? then Some(Errorf(n, NoBox))
      else if MapTryGetValue(n.mapping, "input").None? then Some(Errorf(n, InputMandatory))
      else None
  {
    var m := ReachesGrow(n, boxes, box, input, matrix, order);
  }

  /**
   * go/specimen/tree.go:239-259: past the checks and without a panic, a
   * node errors "no valid children" exactly when every child errors when
   * populated with the node's box, input and matrix.
   */
  lemma NoValidChildrenIff(n: Nodule, boxes: map<string, Codebox>, box: Option<Codebox>,
                           input: map<string, Value>, matrix: Matrix, order: Matrix -> seq<string>)
    requires Mappings(n) && Fair(order) && PassesChecks(n, boxes) && n.children != []
    requires PopulateFate(n, boxes, box, input, matrix, order).Done?
    ensures var r := PopulateFate(n, boxes, box, input, matrix, order).value;
      && (r.error.Some? ==> r.error == Some(Errorf(n, NoValidChildren)))
      && (r.error.Some? <==> forall i :: 0 <= i < |n.children| ==>
            var child := PopulateFate(n.children[i], boxes, EffectiveBox(n, boxes, box), r.nodule.input, r.nodule.matrix, order);
            child.Done? && child.value.error.Some?)
  {
    var m, fates := NodeStep(n, boxes, box, input, matrix, order);
    KeepNoneIff(FT.None, fates);
  }

  /**
   * go/specimen/tree.go:241-258: a populated node keeps exactly the children
   * that populate without error, as populated.
   */
  lemma ValidChildrenKept(n: Nodule, boxes: map<string, Codebox>, box: Option<Codebox>,
                          input: map<string, Value>, matrix: Matrix, order: Matrix -> seq<string>)
    requires Mappings(n) && Fair(order) && PassesChecks(n, boxes) && n.children != []
    requires PopulateFate(n, boxes, box, input, matrix, order).Done?
    requires PopulateFate(n, boxes, box, input, matrix, order).value.error.None?
    ensures var r := PopulateFate(n, boxes, box, input, matrix, order).value.nodule;
      && (forall i :: 0 <= i < |n.children| ==>
            var child := PopulateFate(n.children[i], boxes, EffectiveBox(n, boxes, box), r.input, r.matrix, order);
            child.Done? && child.value.error.None? ==> child.value.nodule in r.children)
      && (forall kid :: kid in r.children ==>
            exists i :: 0 <= i < |n.children| && PopulateFate(n.children[i], boxes, EffectiveBox(n, boxes, box), r.input, r.matrix, order) == Done(Settled(kid, None)))
  {
    var m, fates := NodeStep(n, boxes, box, input, matrix, order);
    KeptChildren(FT.None, fates);
  }

  /** A node past the checks: its result is what Keep makes of its children's fates. */
  lemma NodeStep(n: Nodule, boxes: map<string, Codebox>, box: Option<Codebox>,
                 input: map<string, Value>, matrix: Matrix, order: Matrix -> seq<string>) returns (m: Nodule, fates: seq<Outcome<Settled>>)
    requires Mappings(n) && Fair(order) && PassesChecks(n, boxes) && n.children != []
    requires PopulateFate(n, boxes, box, input, matrix, order).Done?
    ensures var r := PopulateFate(n, boxes, box, input, matrix, order).value;
      && |fates| == |n.children|
      && (forall i :: 0 <= i < |n.children| ==>
            fates[i] == PopulateFate(n.children[i], boxes, EffectiveBox(n, boxes, box), r.nodule.input, r.nodule.matrix, order))
      && Keep(FT.None, fates).Done?
      && r.error == (if Keep(FT.None, fates).value == [] then Some(Errorf(n, NoValidChildren)) else None)
      && (r.error.None? ==> r.nodule.children == Keep(FT.None, fates).value)
  {
    m := ReachesGrow(n, boxes, box, input, matrix, order);
    fates := ChildFates(n, m, boxes, EffectiveBox(n, boxes, box), order);
    var r := PopulateFate(n, boxes, box, input, matrix, order).value;
    assert Keep(FT.None, fates).Done?;
    assert r.nodule.input == m.input && r.nodule.matrix == m.matrix;
  }

  // ---- the slab expansion

  /** multiplySlice along `keys` gives as many clones as the product of the list lengths. */
  lemma {:induction false} ExpandedCount(n: Nodule, keys: seq<string>)
    requires forall i :: 0 <= i < |keys| ==> keys[i] in n.matrix
    ensures |Expanded(n, keys)| == Product(keys, n.matrix)
  {
    if keys != [] {
      var init := keys[..|keys| - 1];
      ExpandedCount(n, init);
      RowsLength(keys[|keys| - 1], n.matrix[keys[|keys| - 1]], Expanded(n, init));
    }
  }

  /**
   * `c` is a clone of the slab `n` with its flag cleared and no matrix,
   * bound at each of `keys` to one value of that key's list, and otherwise
   * holding the slab's input.
   */
  ghost predicate Binds(c: Nodule, n: Nodule, keys: seq<string>)
    requires forall i :: 0 <= i < |keys| ==> keys[i] in n.matrix
  {
    && c.flag == FT.None && c.matrix == map[] && c.codebox == n.codebox && c.children == n.children
    && c.kind == n.kind && c.name == n.name && c.file == n.file && c.mapping == n.mapping
    && (forall k :: k in c.input <==> k in n.input || k in keys)
    && (forall k :: k in keys ==> c.input[k] in n.matrix[k])
    && (forall k :: k in n.input && k !in keys ==> c.input[k] == n.input[k])
  }

  /** Tagging a clone with one more key's value extends what it binds. */
  lemma TaggedBinds(p: Nodule, n: Nodule, keys: seq<string>, v: Value, j: nat)
    requires keys != [] && forall i :: 0 <= i < |keys| ==> keys[i] in n.matrix
    requires Binds(p, n, keys[..|keys| - 1]) && v in n.matrix[keys[|keys| - 1]]
    ensures Binds(Tagged(p, keys[|keys| - 1], v, j), n, keys)
  {
    var init, last := keys[..|keys| - 1], keys[|keys| - 1];
    var c := Tagged(p, last, v, j);
    forall k | k in keys
      ensures k in init || k == last
    {
      var q :| 0 <= q < |keys| && keys[q] == k;
      if q < |init| {
        assert init[q] == k;
      }
    }
  }

  /** Every clone of the slab `n` binds each of `keys`. */
  lemma {:induction false} ExpandedBindings(n: Nodule, keys: seq<string>)
    requires forall i :: 0 <= i < |keys| ==> keys[i] in n.matrix
    ensures forall c :: c in Expanded(n, keys) ==> Binds(c, n, keys)
  {
    if keys == [] {
      assert Expanded(n, keys) == [Template(n)];
    } else {
      var init := keys[..|keys| - 1];
      var last := keys[|keys| - 1];
      var prev := Expanded(n, init);
      ExpandedBindings(n, init);
      RowsFrom(last, n.matrix[last], prev);
      forall c | c in Expanded(n, keys)
        ensures Binds(c, n, keys)
      {
        var i, j :| 0 <= i < |prev| && 0 <= j < |n.matrix[last]| && c == Tagged(prev[i], last, n.matrix[last][j], j);
        assert prev[i] in prev;
        TaggedBinds(prev[i], n, keys, n.matrix[last][j], j);
      }
    }
  }

  /** A choice of one value, by its index in the list, for each of `keys`. */
  predicate Choice(idx: seq<nat>, keys: seq<string>, m: Matrix)
    requires forall i :: 0 <= i < |keys| ==> keys[i] in m
  {
    |idx| == |keys| && forall q :: 0 <= q < |idx| ==> idx[q] < |m[keys[q]]|
  }

  /** Where multiplySlice puts the clone of a choice: nodule-major, so the last key varies fastest. */
  function Slot(idx: seq<nat>, keys: seq<string>, m: Matrix): nat
    requires |idx| == |keys| && forall i :: 0 <= i < |keys| ==> keys[i] in m
  {
    if keys == [] then 0
    else Slot(idx[..|idx| - 1], keys[..|keys| - 1], m) * |m[keys[|keys| - 1]]| + idx[|idx| - 1]
  }

  /** `c` binds each of `keys` to the value `idx` chooses for it. */
  predicate Picks(c: Nodule, keys: seq<string>, m: Matrix, idx: seq<nat>)
    requires forall i :: 0 <= i < |keys| ==> keys[i] in m
    requires Choice(idx, keys, m)
  {
    forall q :: 0 <= q < |keys| ==> keys[q] in c.input && c.input[keys[q]] == m[keys[q]][idx[q]]
  }

  /** Multiplying along distinct `keys` gives, for every choice, a clone at the choice's slot binding exactly the chosen values. */
  lemma {:induction false} ExpandedAt(n: Nodule, keys: seq<string>, idx: seq<nat>)
    requires forall i :: 0 <= i < |keys| ==> keys[i] in n.matrix
    requires forall i, j :: 0 <= i < j < |keys| ==> keys[i] != keys[j]
    requires Choice(idx, keys, n.matrix)
    ensures Slot(idx, keys, n.matrix) < |Expanded(n, keys)|
    ensures Picks(Expanded(n, keys)[Slot(idx, keys, n.matrix)], keys, n.matrix, idx)
  {
    if keys != [] {
      var init, pre := keys[..|keys| - 1], idx[..|idx| - 1];
      assert Choice(pre, init, n.matrix);
      ExpandedAt(n, init, pre);
      RowPicks(Expanded(n, init), keys, n.matrix, idx);
    }
  }

  /** One more key multiplied in: the clone at the slot of the shorter choice, tagged with the last chosen value. */
  lemma RowPicks(prev: seq<Nodule>, keys: seq<string>, m: Matrix, idx: seq<nat>)
    requires keys != [] && forall i :: 0 <= i < |keys| ==> keys[i] in m
    requires forall i, j :: 0 <= i < j < |keys| ==> keys[i] != keys[j]
    requires Choice(idx, keys, m) && Choice(idx[..|idx| - 1], keys[..|keys| - 1], m)
    requires Slot(idx[..|idx| - 1], keys[..|keys| - 1], m) < |prev|
    requires Picks(prev[Slot(idx[..|idx| - 1], keys[..|keys| - 1], m)], keys[..|keys| - 1], m, idx[..|idx| - 1])
    ensures Slot(idx, keys, m) < |Rows(keys[|keys| - 1], m[keys[|keys| - 1]], prev)|
    ensures Picks(Rows(keys[|keys| - 1], m[keys[|keys| - 1]], prev)[Slot(idx, keys, m)], keys, m, idx)
  {
    var last, j := keys[|keys| - 1], idx[|idx| - 1];
    var vals := m[last];
    var i := Slot(idx[..|idx| - 1], keys[..|keys| - 1], m);
    RowsAt(last, vals, prev, i, j);
    MulLess(i, |prev|, |vals|, j);
    TaggedPicks(prev[i], keys, m, idx);
  }

  /** Tagging a clone that picks the choice on all keys but the last with the last key's chosen value picks the whole choice. */
  lemma TaggedPicks(p: Nodule, keys: seq<string>, m: Matrix, idx: seq<nat>)
    requires keys != [] && forall i :: 0 <= i < |keys| ==> keys[i] in m
    requires forall i, j :: 0 <= i < j < |keys| ==> keys[i] != keys[j]
    requires Choice(idx, keys, m) && Choice(idx[..|idx| - 1], keys[..|keys| - 1], m)
    requires Picks(p, keys[..|keys| - 1], m, idx[..|idx| - 1])
    ensures var last, j := keys[|keys| - 1], idx[|idx| - 1];
      Picks(Tagged(p, last, m[last][j], j), keys, m, idx)
  {
    var init, pre, last, j := keys[..|keys| - 1], idx[..|idx| - 1], keys[|keys| - 1], idx[|idx| - 1];
    var c := Tagged(p, last, m[last][j], j);
    forall q | 0 <= q < |keys|
      ensures keys[q] in c.input && c.input[keys[q]] == m[keys[q]][idx[q]]
    {
      if q < |init| {
        assert init[q] == keys[q] && pre[q] == idx[q] && keys[q] != last;
      }
    }
  }

  /** Distinct choices have distinct slots, so no combination is expanded twice. */
  lemma {:induction false} SlotInjective(a: seq<nat>, b: seq<nat>, keys: seq<string>, m: Matrix)
    requires forall i :: 0 <= i < |keys| ==> keys[i] in m
    requires Choice(a, keys, m) && Choice(b, keys, m)
    requires Slot(a, keys, m) == Slot(b, keys, m)
    ensures a == b
  {
    if keys != [] {
      var init, r := keys[..|keys| - 1], |m[keys[|keys| - 1]]|;
      var a', b' := a[..|a| - 1], b[..|b| - 1];
      assert Choice(a', init, m) && Choice(b', init, m);
      var t := Slot(a, keys, m);
      assert t == r * Slot(a', init, m) + a[|a| - 1] && t == r * Slot(b', init, m) + b[|b| - 1];
      MR.DivModUnique(t, r, Slot(a', init, m), a[|a| - 1]);
      MR.DivModUnique(t, r, Slot(b', init, m), b[|b| - 1]);
      SlotInjective(a', b', init, m);
      assert a == a' + [a[|a| - 1]] && b == b' + [b[|b| - 1]];
    }
  }

  /** Products agree on two matrices that agree on the keys. */
  lemma {:induction false} ProductFrame(keys: seq<string>, m1: Matrix, m2: Matrix)
    requires forall i :: 0 <= i < |keys| ==> keys[i] in m1 && keys[i] in m2 && |m1[keys[i]]| == |m2[keys[i]]|
    ensures Product(keys, m1) == Product(keys, m2)
  {
    if keys != [] {
      ProductFrame(keys[..|keys| - 1], m1, m2);
    }
  }

  /** The count does not depend on which key is taken first. */
  lemma {:induction false} MatrixCountRemove(m: Matrix, x: string)
    requires x in m
    ensures MatrixCount(m) == |m[x]| * MatrixCount(m - {x})
    decreases |m|
  {
    var y := PickKey(m);
    if y != x {
      var mx, my := m - {x}, m - {y};
      assert my - {x} == mx - {y};
      MatrixCountRemove(my, x);
      MatrixCountRemove(mx, y);
      assert my[x] == m[x] && mx[y] == m[y];
      MulSwap(|m[x]|, |m[y]|, MatrixCount(mx - {y}));
    }
  }

  /** Two factors of a product may trade places. */
  lemma MulSwap(a: nat, b: nat, c: nat)
    ensures b * (a * c) == a * (b * c)
  {
  }

  /** Whatever order Go visits the matrix keys in, the clones number the product of all list lengths. */
  lemma {:induction false} ProductOfOrder(keys: seq<string>, m: Matrix)
    requires IsKeyOrder(keys, m)
    ensures Product(keys, m) == MatrixCount(m)
  {
    if keys == [] {
      assert m == map[];
    } else {
      var x := keys[|keys| - 1];
      var init := keys[..|keys| - 1];
      var rest := m - {x};
      forall k | k in rest
        ensures k in init
      {
        var p :| 0 <= p < |keys| && keys[p] == k;
        assert init[p] == k;
      }
      assert IsKeyOrder(init, rest);
      ProductOfOrder(init, rest);
      ProductFrame(init, rest, m);
      MatrixCountRemove(m, x);
    }
  }

  /**
   * go/specimen/tree.go:222-238: a slab that passes its checks, has a box
   * and an `input`, and a non-empty matrix in force gets one child per
   * combination of the matrix values, whatever the key order. Each child
   * has the flag cleared, no matrix, the box in force, and binds every
   * matrix key: to the slab's own input value where it has one, otherwise
   * to a value of that key's list.
   */
  lemma SlabExpansion(n: Nodule, boxes: map<string, Codebox>, box: Option<Codebox>,
                      input: map<string, Value>, matrix: Matrix, order: Matrix -> seq<string>)
    requires Mappings(n) && Fair(order) && PassesChecks(n, boxes) && n.children == []
    requires EffectiveBox(n, boxes, box).Some? && MapTryGetValue(n.mapping, "input").Some?
    requires MatrixInForce(n, matrix) != map[]
    ensures PopulateFate(n, boxes, box, input, matrix, order).Done?
    ensures var r := PopulateFate(n, boxes, box, input, matrix, order).value.nodule;
      var slabInput := n.input + input + LocalInput(n);
      && |r.children| == MatrixCount(MatrixInForce(n, matrix))
      && forall c :: c in r.children ==>
           && c.flag == FT.None && c.matrix == map[] && c.codebox == EffectiveBox(n, boxes, box) && c.children == []
           && (forall k :: k in MatrixInForce(n, matrix) ==> k in c.input && (if k in slabInput then c.input[k] == slabInput[k] else c.input[k] in MatrixInForce(n, matrix)[k]))
  {
    var m := ReachesGrow(n, boxes, box, input, matrix, order);
    var m1 := m.(codebox := EffectiveBox(n, boxes, box));
    var keys := order(m1.matrix);
    assert IsKeyOrder(keys, m1.matrix);
    assert |m1.matrix| > 0 by {
      var k := PickKey(m1.matrix);
    }
    var expanded := Expanded(m1, keys);
    var r := PopulateFate(n, boxes, box, input, matrix, order).value.nodule;
    assert r.children == Shadowed(expanded, m1.input);
    ExpandedCount(m1, keys);
    ProductOfOrder(keys, m1.matrix);
    ExpandedBindings(m1, keys);
    forall c | c in r.children
      ensures && c.flag == FT.None && c.matrix == map[] && c.codebox == EffectiveBox(n, boxes, box) && c.children == []
              && (forall k :: k in m1.matrix ==> k in c.input && (if k in m1.input then c.input[k] == m1.input[k] else c.input[k] in m1.matrix[k]))
    {
      var i :| 0 <= i < |r.children| && r.children[i] == c;
      assert expanded[i] in expanded;
    }
  }


  /**
   * go/specimen/tree.go:222-238: each combination of one value per matrix
   * key (`idx`, taken in Go's key order) has its own child, at its slot;
   * that child binds every matrix key to the chosen value, or to the
   * slab's own input value where it has one for that key.
   */
  lemma SlabCombinations(n: Nodule, boxes: map<string, Codebox>, box: Option<Codebox>,
                         input: map<string, Value>, matrix: Matrix, order: Matrix -> seq<string>, idx: seq<nat>)
    requires Mappings(n) && Fair(order) && PassesChecks(n, boxes) && n.children == []
    requires EffectiveBox(n, boxes, box).Some? && MapTryGetValue(n.mapping, "input").Some?
    requires MatrixInForce(n, matrix) != map[]
    requires Choice(idx, order(MatrixInForce(n, matrix)), MatrixInForce(n, matrix))
    ensures PopulateFate(n, boxes, box, input, matrix, order).Done?
    ensures var r := PopulateFate(n, boxes, box, input, matrix, order).value.nodule;
      var mf := MatrixInForce(n, matrix);
      var keys := order(mf);
      var slabInput := n.input + input + LocalInput(n);
      var s := Slot(idx, keys, mf);
      && s < |r.children|
      && forall q :: 0 <= q < |keys| ==>
           (keys[q] in r.children[s].input &&
            r.children[s].input[keys[q]] == (if keys[q] in slabInput then slabInput[keys[q]] else mf[keys[q]][idx[q]]))
  {
    var m := ReachesGrow(n, boxes, box, input, matrix, order);
    var m1 := m.(codebox := EffectiveBox(n, boxes, box));
    var keys := order(m1.matrix);
    assert IsKeyOrder(keys, m1.matrix);
    assert |m1.matrix| > 0 by {
      var k := PickKey(m1.matrix);
    }
    var expanded := Expanded(m1, keys);
    var r := PopulateFate(n, boxes, box, input, matrix, order).value.nodule;
    assert r.children == Shadowed(expanded, m1.input);
    ExpandedAt(m1, keys, idx);
  }
}
