/**
 * The parsed YAML document the engine consumes, as an abstract tree (the
 * parser itself is not part of this model). Aliases are taken as already
 * resolved. Only the parts of gopkg.in/yaml.v3's node that the engine reads
 * are kept: the kind, a scalar's tag and text, the children, and the position.
 */
module Yaml {
  import opened Base

  datatype Position = Position(line: nat, column: nat)

  datatype Node =
    | Mapping(pairs: seq<Pair>, pos: Position)
    | Sequence(items: seq<Node>, pos: Position)
    | Scalar(tag: string, value: string, pos: Position)

  datatype Pair = Pair(key: Node, value: Node)

  /** yaml.v3's `Node.Value`: the text of a scalar; collections carry none. */
  function Text(n: Node): string
  {
    if n.Scalar? then n.value else ""
  }

  /** go/syaml/assert.go:52-55: a scalar tagged `!!str`. */
  predicate IsString(n: Node)
  {
    n.Scalar? && n.tag == "!!str"
  }

  /** yaml.v3's `Node.Content`: a mapping lists key, value, key, value, ... */
  function Content(n: Node): (c: seq<Node>)
    ensures n.Mapping? ==> |c| == 2 * |n.pairs|
    ensures n.Mapping? ==> forall k :: 0 <= k < |n.pairs| ==> c[2 * k] == n.pairs[k].key && c[2 * k + 1] == n.pairs[k].value
    ensures n.Sequence? ==> c == n.items
    ensures n.Scalar? ==> c == []
    ensures forall i :: 0 <= i < |c| ==> c[i] < n
  {
    match n
    case Mapping(pairs, _) => FlattenBelow(n); Flatten(pairs)
    case Sequence(items, _) => items
    case Scalar(_, _, _) => []
  }

  function Flatten(pairs: seq<Pair>): (c: seq<Node>)
    ensures |c| == 2 * |pairs|
    ensures forall k :: 0 <= k < |pairs| ==> c[2 * k] == pairs[k].key && c[2 * k + 1] == pairs[k].value
    ensures forall x :: x in c ==> exists p :: p in pairs && (x == p.key || x == p.value)
  {
    if pairs == [] then []
    else
      var init := pairs[..|pairs| - 1];
      var last := pairs[|pairs| - 1];
      var c := Flatten(init) + [last.key, last.value];
      assert forall k :: 0 <= k < |init| ==> init[k] == pairs[k];
      assert forall p :: p in init ==> p in pairs;
      c
  }

  /** Every node listed by a mapping's content is below the mapping. */
  lemma FlattenBelow(n: Node)
    requires n.Mapping?
    ensures forall i :: 0 <= i < |Flatten(n.pairs)| ==> Flatten(n.pairs)[i] < n
  {
    var c := Flatten(n.pairs);
    forall i | 0 <= i < |c|
      ensures c[i] < n
    {
      assert c[i] in c;
      var p :| p in n.pairs && (c[i] == p.key || c[i] == p.value);
      var j :| 0 <= j < |n.pairs| && n.pairs[j] == p;
    }
  }

  /** Position of the first pair of a mapping whose key text is `key`, if any. */
  function FindKey(pairs: seq<Pair>, key: string): (r: Option<nat>)
    ensures r.Some? ==> r.value < |pairs| && Text(pairs[r.value].key) == key
    ensures r.Some? ==> forall j :: 0 <= j < r.value ==> Text(pairs[j].key) != key
    ensures r.None? ==> forall j :: 0 <= j < |pairs| ==> Text(pairs[j].key) != key
  {
    if pairs == [] then None
    else if Text(pairs[0].key) == key then Some(0)
    else
      match FindKey(pairs[1..], key)
      case None => None
      case Some(i) => Some(i + 1)
  }

  /** go/syaml/map.go:12-22: the value of the first entry whose key is `key`. */
  function MapTryGetValue(n: Node, key: string): (r: Option<Node>)
    requires n.Mapping?
    ensures r.Some? ==> r.value < n
    ensures r.None? <==> forall j :: 0 <= j < |n.pairs| ==> Text(n.pairs[j].key) != key
    ensures r.Some? ==> exists j :: (0 <= j < |n.pairs| && Text(n.pairs[j].key) == key && n.pairs[j].value == r.value
      && forall i :: 0 <= i < j ==> Text(n.pairs[i].key) != key)
  {
    match FindKey(n.pairs, key)
    case None => None
    case Some(i) => Some(n.pairs[i].value)
  }
}
