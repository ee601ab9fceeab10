/**
 * The FOCUS / PENDING resolver of go/specimen/focustree/focustree.go.
 *
 * A tree of nodes, each carrying a flag, is walked twice. The first walk
 * records the focused nodes: a Focus node counts only when no node below it
 * was recorded (otherwise it is warned about), and Skip subtrees are never
 * entered. The second walk collects, below each recorded node (or below the
 * root when none was recorded), the leaves in post-order, pruning and
 * counting Skip subtrees.
 *
 * The tree is a value (the walks never change it); a node is identified by
 * its position, the list of child indices leading to it from the root. The
 * walks are specified by functions from a node to the positions they
 * collect, in the order they collect them, and the methods mirror the Go
 * recursion, appending to a slice and updating a `FlagStat`.
 */
module FocusTree {

  /** go/specimen/focustree/focustree.go:5-11. */
  datatype FlagType = None | Focus | Skip

  /** The `Node` interface: a flag, the children in order, whether it is a leaf, and a payload. */
  datatype Node<L> = Node(payload: L, flag: FlagType, children: seq<Node<L>>, isLeaf: bool)

  /** A position in a tree: the child index taken at each level from the root. */
  type Path = seq<nat>

  /** The node at position `p`; a position that leaves the tree stops at the last node it reached. */
  function At<L>(n: Node<L>, p: Path): Node<L>
  {
    if p == [] || p[0] >= |n.children| then n else At(n.children[p[0]], p[1..])
  }

  /**
   * A walk that does not enter Skip nodes reaches position `p`: it lies in
   * the tree and no node strictly above it is flagged Skip. The node at `p`
   * itself may be.
   */
  predicate Reached<L>(n: Node<L>, p: Path)
  {
    p == [] || (n.flag != Skip && p[0] < |n.children| && Reached(n.children[p[0]], p[1..]))
  }

  /** `p` is visited before `q` in post-order: a descendant before its ancestor, an earlier sibling's subtree first. */
  predicate PostBefore(p: Path, q: Path)
  {
    if q == [] then p != []
    else if p == [] then false
    else p[0] < q[0] || (p[0] == q[0] && PostBefore(p[1..], q[1..]))
  }

  /** The positions are listed in post-order, each once. */
  predicate Ordered(ps: seq<Path>)
  {
    forall i, j :: 0 <= i < j < |ps| ==> PostBefore(ps[i], ps[j])
  }

  /** The positions `ps` of a subtree, seen from the node above it at position `p`. */
  function Below(p: Path, ps: seq<Path>): (r: seq<Path>)
    ensures |r| == |ps|
  {
    seq(|ps|, j requires 0 <= j < |ps| => p + ps[j])
  }

  /** Flattening, in order. */
  function Concat<T>(ss: seq<seq<T>>): seq<T>
  {
    if ss == [] then [] else Concat(ss[..|ss| - 1]) + ss[|ss| - 1]
  }

  /** The positions collected in the subtrees of the children, child by child: `ss[i]` is what child `i` collected. */
  function Branches(ss: seq<seq<Path>>): seq<Path>
  {
    if ss == [] then [] else Branches(ss[..|ss| - 1]) + Below([|ss| - 1], ss[|ss| - 1])
  }

  /** The nodes at the given positions. */
  function Nodes<L>(n: Node<L>, ps: seq<Path>): (r: seq<Node<L>>)
    ensures |r| == |ps|
  {
    seq(|ps|, i requires 0 <= i < |ps| => At(n, ps[i]))
  }

  // ---------------------------------------------------------------------
  // What the two walks collect
  // ---------------------------------------------------------------------

  /** The focused nodes `findFocusedNodes` records below `n`, in the order it records them. */
  function FocusedPaths<L>(n: Node<L>): seq<Path>
    decreases n, 1
  {
    if n.flag == Skip then []
    else
      var below := Branches(ChildFocused(n));
      if n.flag == Focus && below == [] then [[]] else below
  }

  function ChildFocused<L>(n: Node<L>): (ss: seq<seq<Path>>)
    ensures |ss| == |n.children|
    decreases n, 0
  {
    seq(|n.children|, i requires 0 <= i < |n.children| => FocusedPaths(n.children[i]))
  }

  /** The Focus nodes `findFocusedNodes` warns about, because something below them was recorded. */
  function WarnedPaths<L>(n: Node<L>): seq<Path>
    decreases n, 1
  {
    if n.flag == Skip then []
    else Branches(ChildWarned(n)) + (if n.flag == Focus && Branches(ChildFocused(n)) != [] then [[]] else [])
  }

  function ChildWarned<L>(n: Node<L>): (ss: seq<seq<Path>>)
    ensures |ss| == |n.children|
    decreases n, 0
  {
    seq(|n.children|, i requires 0 <= i < |n.children| => WarnedPaths(n.children[i]))
  }

  /** The leaves `getLeaves` appends below `n`. */
  function LeafPaths<L>(n: Node<L>): seq<Path>
    decreases n, 1
  {
    if n.flag == Skip then []
    else Branches(ChildLeaves(n)) + (if n.isLeaf then [[]] else [])
  }

  function ChildLeaves<L>(n: Node<L>): (ss: seq<seq<Path>>)
    ensures |ss| == |n.children|
    decreases n, 0
  {
    seq(|n.children|, i requires 0 <= i < |n.children| => LeafPaths(n.children[i]))
  }

  /** The Skip nodes `getLeaves` counts below `n`. */
  function SkipPaths<L>(n: Node<L>): seq<Path>
    decreases n, 1
  {
    if n.flag == Skip then [[]] else Branches(ChildSkips(n))
  }

  function ChildSkips<L>(n: Node<L>): (ss: seq<seq<Path>>)
    ensures |ss| == |n.children|
    decreases n, 0
  {
    seq(|n.children|, i requires 0 <= i < |n.children| => SkipPaths(n.children[i]))
  }

  /** Where `ExtractSelectedLeaves` starts collecting leaves: the recorded focused nodes, or the root when there is none. */
  function Starts<L>(tree: Node<L>): seq<Path>
  {
    var f := FocusedPaths(tree);
    if f == [] then [[]] else f
  }

  /** The leaves collected below each start, start by start. */
  function SelectedParts<L>(tree: Node<L>): (ss: seq<seq<Path>>)
    ensures |ss| == |Starts(tree)|
    ensures forall i :: 0 <= i < |ss| ==> ss[i] == Below(Starts(tree)[i], LeafPaths(At(tree, Starts(tree)[i])))
  {
    var s := Starts(tree);
    seq(|s|, i requires 0 <= i < |s| => Below(s[i], LeafPaths(At(tree, s[i]))))
  }

  /** The Skip nodes counted below each start, start by start. */
  function SkippedParts<L>(tree: Node<L>): (ss: seq<seq<Path>>)
    ensures |ss| == |Starts(tree)|
    ensures forall i :: 0 <= i < |ss| ==> ss[i] == Below(Starts(tree)[i], SkipPaths(At(tree, Starts(tree)[i])))
  {
    var s := Starts(tree);
    seq(|s|, i requires 0 <= i < |s| => Below(s[i], SkipPaths(At(tree, s[i]))))
  }

  function SelectedPaths<L>(tree: Node<L>): seq<Path>
  {
    Concat(SelectedParts(tree))
  }

  // ---------------------------------------------------------------------
  // The walks, as go/specimen/focustree/focustree.go writes them
  // ---------------------------------------------------------------------

  /** go/specimen/focustree/focustree.go:20-23. */
  class FlagStat {
    var focusCount: int
    var skipCount: int

    constructor ()
      ensures focusCount == 0 && skipCount == 0
    {
      focusCount := 0;
      skipCount := 0;
    }
  }

  /**
   * go/specimen/focustree/focustree.go:45-64. `focused` and `warned` are the
   * slice the Go code appends to and the nodes it calls `Warning` on.
   */
  method FindFocusedNodes<L>(node: Node<L>, focused: seq<Node<L>>, warned: seq<Node<L>>)
    returns (focused': seq<Node<L>>, warned': seq<Node<L>>)
    ensures focused' == focused + Nodes(node, FocusedPaths(node))
    ensures warned' == warned + Nodes(node, WarnedPaths(node))
    decreases node
  {
    if node.flag == Skip {
      SkipFirst(node, focused);
      SkipFirst(node, warned);
      return focused, warned;
    }
    var initialLength := |focused|;
    focused', warned' := focused, warned;
    ghost var fs, ws := ChildFocused(node), ChildWarned(node);
    var k := 0;
    while k < |node.children|
      invariant k <= |node.children|
      invariant focused' == focused + Nodes(node, Branches(fs[..k]))
      invariant warned' == warned + Nodes(node, Branches(ws[..k]))
    {
      focused', warned' := FindFocusedNodes(node.children[k], focused', warned');
      BranchStep(node, fs, k, focused);
      BranchStep(node, ws, k, warned);
      k := k + 1;
    }
    assert fs[..k] == fs && ws[..k] == ws;
    FocusLast(node, focused, warned);
    if node.flag == Focus {
      if |focused'| > initialLength {
        warned' := warned' + [node];
      } else {
        focused' := focused' + [node];
      }
    }
  }

  /** go/specimen/focustree/focustree.go:67-78. */
  method GetLeaves<L>(node: Node<L>, leaves: seq<Node<L>>, stat: FlagStat) returns (leaves': seq<Node<L>>)
    modifies stat
    ensures leaves' == leaves + Nodes(node, LeafPaths(node))
    ensures stat.skipCount == old(stat.skipCount) + |SkipPaths(node)|
    ensures stat.focusCount == old(stat.focusCount)
    decreases node
  {
    if node.flag == Skip {
      SkipFirst(node, leaves);
      stat.skipCount := stat.skipCount + 1;
      return leaves;
    }
    leaves' := leaves;
    ghost var ls, ks := ChildLeaves(node), ChildSkips(node);
    var k := 0;
    while k < |node.children|
      invariant k <= |node.children|
      invariant leaves' == leaves + Nodes(node, Branches(ls[..k]))
      invariant stat.skipCount == old(stat.skipCount) + |Branches(ks[..k])|
      invariant stat.focusCount == old(stat.focusCount)
    {
      leaves' := GetLeaves(node.children[k], leaves', stat);
      BranchStep(node, ls, k, leaves);
      BranchesSnoc(ks, k);
      k := k + 1;
    }
    assert ls[..k] == ls && ks[..k] == ks;
    LeafLast(node, leaves);
    if node.isLeaf {
      leaves' := leaves' + [node];
    }
  }

  /**
   * go/specimen/focustree/focustree.go:28-40. Also returns the nodes warned
   * about, which the Go code reports on `stdout`.
   */
  method ExtractSelectedLeaves<L>(tree: Node<L>, stat: FlagStat) returns (leaves: seq<Node<L>>, warned: seq<Node<L>>)
    modifies stat
    ensures stat.focusCount == |FocusedPaths(tree)|
    ensures stat.skipCount == old(stat.skipCount) + |Concat(SkippedParts(tree))|
    ensures leaves == Nodes(tree, SelectedPaths(tree))
    ensures warned == Nodes(tree, WarnedPaths(tree))
  {
    var focused;
    focused, warned := FindFocusedNodes(tree, [], []);
    stat.focusCount := |focused|;
    StartNodes(tree, focused);
    if |focused| == 0 {
      focused := [tree];
    }
    ghost var starts := Starts(tree);
    ghost var parts, skipped := SelectedParts(tree), SkippedParts(tree);
    leaves := [];
    var k := 0;
    while k < |focused|
      invariant k <= |focused|
      invariant leaves == Nodes(tree, Concat(parts[..k]))
      invariant stat.skipCount == old(stat.skipCount) + |Concat(skipped[..k])|
      invariant stat.focusCount == |FocusedPaths(tree)|
    {
      SelectStep(tree, k);
      leaves := GetLeaves(focused[k], leaves, stat);
      k := k + 1;
    }
    assert parts[..k] == parts && skipped[..k] == skipped;
  }

  // ---------------------------------------------------------------------
  // Positions and sequences
  // ---------------------------------------------------------------------

  lemma BranchesSnoc(ss: seq<seq<Path>>, k: nat)
    requires k < |ss|
    ensures Branches(ss[..k + 1]) == Branches(ss[..k]) + Below([k], ss[k])
  {
    assert ss[..k + 1][..k] == ss[..k];
  }

  /** One more child walked: what it appended is the next part of what its parent collects. */
  lemma BranchStep<L>(n: Node<L>, ss: seq<seq<Path>>, k: nat, acc: seq<Node<L>>)
    requires k < |ss| == |n.children|
    ensures acc + Nodes(n, Branches(ss[..k])) + Nodes(n.children[k], ss[k]) == acc + Nodes(n, Branches(ss[..k + 1]))
  {
    BranchesSnoc(ss, k);
    NodesBelow(n, k, ss[k]);
    NodesAppend(n, Branches(ss[..k]), Below([k], ss[k]));
  }

  /** A Skip node contributes nothing to either walk but its own count. */
  lemma SkipFirst<L>(node: Node<L>, acc: seq<Node<L>>)
    requires node.flag == Skip
    ensures acc + Nodes(node, FocusedPaths(node)) == acc
    ensures acc + Nodes(node, WarnedPaths(node)) == acc
    ensures acc + Nodes(node, LeafPaths(node)) == acc
    ensures |SkipPaths(node)| == 1
  {
    assert Nodes(node, []) == [];
  }

  /** After the children: a Focus node is recorded, or warned about when something below it was. */
  lemma FocusLast<L>(node: Node<L>, f: seq<Node<L>>, w: seq<Node<L>>)
    requires node.flag != Skip
    ensures var fb, wb := f + Nodes(node, Branches(ChildFocused(node))), w + Nodes(node, Branches(ChildWarned(node)));
      var fa, wa := f + Nodes(node, FocusedPaths(node)), w + Nodes(node, WarnedPaths(node));
      && (|fb| > |f| <==> Branches(ChildFocused(node)) != [])
      && (node.flag != Focus ==> fa == fb && wa == wb)
      && (node.flag == Focus && |fb| > |f| ==> fa == fb && wa == wb + [node])
      && (node.flag == Focus && |fb| == |f| ==> fa == fb + [node] && wa == wb)
  {
    var b := Branches(ChildFocused(node));
    var bw := Branches(ChildWarned(node));
    assert Nodes(node, [[]]) == [node];
    assert bw + [] == bw;
    NodesAppend(node, bw, [[]]);
    if b == [] {
      assert Nodes(node, b) == [];
      assert f + [] == f;
    }
  }

  /** After the children: a leaf appends itself. */
  lemma LeafLast<L>(node: Node<L>, acc: seq<Node<L>>)
    requires node.flag != Skip
    ensures var before := acc + Nodes(node, Branches(ChildLeaves(node)));
      && (node.isLeaf ==> acc + Nodes(node, LeafPaths(node)) == before + [node])
      && (!node.isLeaf ==> acc + Nodes(node, LeafPaths(node)) == before)
  {
    var b := Branches(ChildLeaves(node));
    assert Nodes(node, [[]]) == [node];
    assert b + [] == b;
    NodesAppend(node, b, [[]]);
  }

  lemma NodesAppend<L>(n: Node<L>, a: seq<Path>, b: seq<Path>)
    ensures Nodes(n, a + b) == Nodes(n, a) + Nodes(n, b)
  {
  }

  lemma ConcatSnoc<T>(ss: seq<seq<T>>, k: nat)
    requires k < |ss|
    ensures Concat(ss[..k + 1]) == Concat(ss[..k]) + ss[k]
  {
    assert ss[..k + 1][..k] == ss[..k];
  }

  /** The nodes of a child's positions, seen from the parent, are the child's own. */
  lemma NodesBelow<L>(n: Node<L>, k: nat, ps: seq<Path>)
    requires k < |n.children|
    ensures Nodes(n, Below([k], ps)) == Nodes(n.children[k], ps)
  {
    forall i | 0 <= i < |ps|
      ensures At(n, [k] + ps[i]) == At(n.children[k], ps[i])
    {
      assert ([k] + ps[i])[1..] == ps[i];
    }
  }

  /** Walking to `p` and then `q` from there is walking to `p + q`. */
  lemma {:induction false} AtAppend<L>(n: Node<L>, p: Path, q: Path)
    requires Reached(n, p)
    ensures At(n, p + q) == At(At(n, p), q)
  {
    if p == [] {
      assert p + q == q;
    } else {
      assert (p + q)[0] == p[0] && (p + q)[1..] == p[1..] + q;
      AtAppend(n.children[p[0]], p[1..], q);
    }
  }

  lemma NodesAt<L>(n: Node<L>, p: Path, ps: seq<Path>)
    requires Reached(n, p)
    ensures Nodes(n, Below(p, ps)) == Nodes(At(n, p), ps)
  {
    forall i | 0 <= i < |ps|
      ensures At(n, p + ps[i]) == At(At(n, p), ps[i])
    {
      AtAppend(n, p, ps[i]);
    }
  }

  /** `p + q` is reached when `p` is, the node there is not Skip or `q` is empty, and `q` is reached from it. */
  lemma {:induction false} ReachedAppend<L>(n: Node<L>, p: Path, q: Path)
    requires Reached(n, p)
    ensures Reached(n, p + q) <==> q == [] || (At(n, p).flag != Skip && Reached(At(n, p), q))
  {
    if p == [] {
      assert p + q == q;
    } else {
      assert (p + q)[0] == p[0] && (p + q)[1..] == p[1..] + q;
      ReachedAppend(n.children[p[0]], p[1..], q);
    }
  }

  lemma StartNodes<L>(tree: Node<L>, focused: seq<Node<L>>)
    requires focused == [] + Nodes(tree, FocusedPaths(tree))
    ensures (if focused == [] then [tree] else focused) == Nodes(tree, Starts(tree))
  {
    if focused == [] {
      assert At(tree, []) == tree;
    }
  }

  /** One more start walked: what `getLeaves` appended and counted there is the next part of the selection. */
  lemma SelectStep<L>(tree: Node<L>, k: nat)
    requires k < |Starts(tree)|
    ensures var s := Starts(tree)[k];
      Nodes(tree, Concat(SelectedParts(tree)[..k])) + Nodes(At(tree, s), LeafPaths(At(tree, s)))
        == Nodes(tree, Concat(SelectedParts(tree)[..k + 1]))
    ensures var s := Starts(tree)[k];
      |Concat(SkippedParts(tree)[..k])| + |SkipPaths(At(tree, s))| == |Concat(SkippedParts(tree)[..k + 1])|
  {
    var s := Starts(tree)[k];
    StartReached(tree, k);
    ConcatSnoc(SelectedParts(tree), k);
    ConcatSnoc(SkippedParts(tree), k);
    NodesAt(tree, s, LeafPaths(At(tree, s)));
    NodesAppend(tree, Concat(SelectedParts(tree)[..k]), Below(s, LeafPaths(At(tree, s))));
  }

  lemma StartReached<L>(tree: Node<L>, k: nat)
    requires k < |Starts(tree)|
    ensures Reached(tree, Starts(tree)[k])
  {
    if FocusedPaths(tree) != [] {
      FocusedSound(tree, Starts(tree)[k]);
    }
  }

  lemma {:induction false} InConcat<T>(ss: seq<seq<T>>, x: T)
    ensures x in Concat(ss) <==> exists i :: 0 <= i < |ss| && x in ss[i]
  {
    if ss != [] {
      var m := |ss| - 1;
      InConcat(ss[..m], x);
      if x in Concat(ss[..m]) {
        var i :| 0 <= i < m && x in ss[..m][i];
        assert x in ss[i];
      }
      if exists i :: 0 <= i < |ss| && x in ss[i] {
        var i :| 0 <= i < |ss| && x in ss[i];
        if i < m {
          assert x in ss[..m][i];
        }
      }
    }
  }

  /** A position collected by some child `i` is `i` followed by what that child collected. */
  lemma {:induction false} InBranches(ss: seq<seq<Path>>, q: Path)
    ensures q in Branches(ss) <==> q != [] && q[0] < |ss| && q[1..] in ss[q[0]]
  {
    if ss != [] {
      var m := |ss| - 1;
      InBranches(ss[..m], q);
      InBelow([m], ss[m], q);
      assert [m] <= q <==> q != [] && q[0] == m;
    }
  }

  lemma {:induction false} InBelow(p: Path, ps: seq<Path>, q: Path)
    ensures q in Below(p, ps) <==> p <= q && q[|p|..] in ps
  {
    var b := Below(p, ps);
    if q in b {
      var j :| 0 <= j < |b| && q == b[j];
      assert q == p + ps[j];
      assert q[|p|..] == ps[j];
    }
    if p <= q && q[|p|..] in ps {
      var j :| 0 <= j < |ps| && q[|p|..] == ps[j];
      assert q == p + ps[j] == b[j];
    }
  }

  // ---------------------------------------------------------------------
  // Post-order
  // ---------------------------------------------------------------------

  lemma {:induction false} PostBeforeIrreflexive(p: Path)
    ensures !PostBefore(p, p)
  {
    if p != [] {
      PostBeforeIrreflexive(p[1..]);
    }
  }

  /** A list in post-order holds no position twice. */
  lemma OrderedNoDup(ps: seq<Path>)
    requires Ordered(ps)
    ensures forall i, j :: 0 <= i < j < |ps| ==> ps[i] != ps[j]
  {
    forall i, j | 0 <= i < j < |ps|
      ensures ps[i] != ps[j]
    {
      PostBeforeIrreflexive(ps[i]);
    }
  }

  lemma OrderedAppend(a: seq<Path>, b: seq<Path>)
    requires Ordered(a) && Ordered(b)
    requires forall p, q :: p in a && q in b ==> PostBefore(p, q)
    ensures Ordered(a + b)
  {
    forall i, j | 0 <= i < j < |a + b|
      ensures PostBefore((a + b)[i], (a + b)[j])
    {
      if j < |a| {
      } else if i >= |a| {
        assert (a + b)[i] == b[i - |a|] && (a + b)[j] == b[j - |a|];
      } else {
        assert (a + b)[i] in a && (a + b)[j] in b;
      }
    }
  }

  lemma OrderedBelow(k: nat, ps: seq<Path>)
    requires Ordered(ps)
    ensures Ordered(Below([k], ps))
  {
    var b := Below([k], ps);
    forall i, j | 0 <= i < j < |b|
      ensures PostBefore(b[i], b[j])
    {
      assert b[i][1..] == ps[i] && b[j][1..] == ps[j];
    }
  }

  /** Child by child, each child's list in post-order gives a list in post-order, before the parent itself. */
  lemma {:induction false} OrderedBranches(ss: seq<seq<Path>>)
    requires forall i :: 0 <= i < |ss| ==> Ordered(ss[i])
    ensures Ordered(Branches(ss))
    ensures Ordered(Branches(ss) + [[]])
  {
    if ss != [] {
      var m := |ss| - 1;
      OrderedBranches(ss[..m]);
      OrderedBelow(m, ss[m]);
      forall p, q | p in Branches(ss[..m]) && q in Below([m], ss[m])
        ensures PostBefore(p, q)
      {
        InBranches(ss[..m], p);
        InBelow([m], ss[m], q);
      }
      OrderedAppend(Branches(ss[..m]), Below([m], ss[m]));
    }
    forall p | p in Branches(ss)
      ensures PostBefore(p, [])
    {
      InBranches(ss, p);
    }
    OrderedAppend(Branches(ss), [[]]);
  }

  lemma {:induction false} FocusedOrdered<L>(n: Node<L>)
    ensures Ordered(FocusedPaths(n))
    decreases n
  {
    forall i | 0 <= i < |n.children|
      ensures Ordered(ChildFocused(n)[i])
    {
      FocusedOrdered(n.children[i]);
    }
    OrderedBranches(ChildFocused(n));
  }

  lemma {:induction false} WarnedOrdered<L>(n: Node<L>)
    ensures Ordered(WarnedPaths(n))
    decreases n
  {
    forall i | 0 <= i < |n.children|
      ensures Ordered(ChildWarned(n)[i])
    {
      WarnedOrdered(n.children[i]);
    }
    OrderedBranches(ChildWarned(n));
    assert Branches(ChildWarned(n)) + [] == Branches(ChildWarned(n));
  }

  lemma {:induction false} LeavesOrdered<L>(n: Node<L>)
    ensures Ordered(LeafPaths(n))
    decreases n
  {
    forall i | 0 <= i < |n.children|
      ensures Ordered(ChildLeaves(n)[i])
    {
      LeavesOrdered(n.children[i]);
    }
    OrderedBranches(ChildLeaves(n));
    assert Branches(ChildLeaves(n)) + [] == Branches(ChildLeaves(n));
  }

  lemma {:induction false} SkipsOrdered<L>(n: Node<L>)
    ensures Ordered(SkipPaths(n))
    decreases n
  {
    forall i | 0 <= i < |n.children|
      ensures Ordered(ChildSkips(n)[i])
    {
      SkipsOrdered(n.children[i]);
    }
    OrderedBranches(ChildSkips(n));
  }

  // ---------------------------------------------------------------------
  // What the walks collect, position by position
  // ---------------------------------------------------------------------

  /** Every recorded node is a reached Focus node. */
  lemma {:induction false} FocusedSound<L>(n: Node<L>, p: Path)
    requires p in FocusedPaths(n)
    ensures Reached(n, p) && At(n, p).flag == Focus
    decreases n
  {
    InBranches(ChildFocused(n), p);
    if p != [] {
      FocusedSound(n.children[p[0]], p[1..]);
    }
  }

  /** No recorded focused node lies below another one. */
  lemma {:induction false} FocusedNotNested<L>(n: Node<L>, p: Path, q: Path)
    requires p in FocusedPaths(n) && q in FocusedPaths(n) && p <= q
    ensures p == q
    decreases n
  {
    var c := ChildFocused(n);
    if p == [] {
      assert p !in Branches(c) by {
        InBranches(c, p);
      }
      assert FocusedPaths(n) == [[]];
    } else {
      assert p in Branches(c) && q in Branches(c);
      assert p[0] < |c| && p[1..] in c[p[0]] by {
        InBranches(c, p);
      }
      assert q[1..] in c[p[0]] by {
        InBranches(c, q);
      }
      FocusedNotNested(n.children[p[0]], p[1..], q[1..]);
      assert p == [p[0]] + p[1..] && q == [q[0]] + q[1..];
    }
  }

  /**
   * Every reached Focus node is recorded, or a recorded node lies below it:
   * a descendant's focus beats its ancestor's.
   */
  lemma {:induction false} FocusedCover<L>(n: Node<L>, p: Path)
    requires Reached(n, p) && At(n, p).flag == Focus
    ensures p in FocusedPaths(n) || exists q :: q in FocusedPaths(n) && p < q
    decreases n
  {
    var below := Branches(ChildFocused(n));
    if p == [] {
      if below != [] {
        assert below[0] in FocusedPaths(n);
        InBranches(ChildFocused(n), below[0]);
      }
    } else {
      var c := n.children[p[0]];
      FocusedCover(c, p[1..]);
      var q': Path;
      if p[1..] in FocusedPaths(c) {
        q' := p[1..];
      } else {
        q' :| q' in FocusedPaths(c) && p[1..] < q';
      }
      var q := [p[0]] + q';
      assert q[1..] == q';
      InBranches(ChildFocused(n), q);
      assert p == [p[0]] + p[1..];
    }
  }

  /**
   * A node is warned about exactly when it is a reached Focus node that was
   * not recorded.
   */
  lemma {:induction false} WarnedExactly<L>(n: Node<L>, p: Path)
    ensures p in WarnedPaths(n) <==> Reached(n, p) && At(n, p).flag == Focus && p !in FocusedPaths(n)
    decreases n
  {
    if n.flag != Skip {
      InBranches(ChildWarned(n), p);
      InBranches(ChildFocused(n), p);
      if p != [] && p[0] < |n.children| {
        WarnedExactly(n.children[p[0]], p[1..]);
      }
    }
  }

  /** The leaves collected below `n` are exactly the reached leaves that are not Skip. */
  lemma {:induction false} LeavesExactly<L>(n: Node<L>, p: Path)
    ensures p in LeafPaths(n) <==> Reached(n, p) && At(n, p).flag != Skip && At(n, p).isLeaf
    decreases n
  {
    if n.flag != Skip {
      InBranches(ChildLeaves(n), p);
      if p != [] && p[0] < |n.children| {
        LeavesExactly(n.children[p[0]], p[1..]);
      }
    }
  }

  /** The Skip nodes counted below `n` are exactly the reached Skip nodes. */
  lemma {:induction false} SkipsExactly<L>(n: Node<L>, p: Path)
    ensures p in SkipPaths(n) <==> Reached(n, p) && At(n, p).flag == Skip
    decreases n
  {
    if n.flag != Skip {
      InBranches(ChildSkips(n), p);
      if p != [] && p[0] < |n.children| {
        SkipsExactly(n.children[p[0]], p[1..]);
      }
    }
  }

  /**
   * With no reached Focus node the root is the one start; otherwise the
   * starts are the recorded nodes, which are not nested.
   */
  lemma NoFocusMeansRoot<L>(tree: Node<L>)
    ensures FocusedPaths(tree) == [] <==> forall p :: Reached(tree, p) ==> At(tree, p).flag != Focus
    ensures FocusedPaths(tree) == [] ==> Starts(tree) == [[]]
  {
    if FocusedPaths(tree) == [] {
      forall p | Reached(tree, p)
        ensures At(tree, p).flag != Focus
      {
        if At(tree, p).flag == Focus {
          FocusedCover(tree, p);
        }
      }
    } else {
      FocusedSound(tree, FocusedPaths(tree)[0]);
    }
  }

  /**
   * The selected leaves are exactly the reached, non-Skip leaves that lie
   * at or below a start.
   */
  lemma SelectedExactly<L>(tree: Node<L>, q: Path)
    ensures q in SelectedPaths(tree) <==>
      Reached(tree, q) && At(tree, q).flag != Skip && At(tree, q).isLeaf &&
      exists s :: s in Starts(tree) && s <= q
  {
    var starts, parts := Starts(tree), SelectedParts(tree);
    InConcat(parts, q);
    if q in SelectedPaths(tree) {
      var i :| 0 <= i < |parts| && q in parts[i];
      StartReached(tree, i);
      InBelow(starts[i], LeafPaths(At(tree, starts[i])), q);
      UnderStart(tree, starts[i], q);
      assert starts[i] in Starts(tree);
    }
    if Reached(tree, q) && At(tree, q).flag != Skip && At(tree, q).isLeaf && exists s :: s in Starts(tree) && s <= q {
      var s :| s in Starts(tree) && s <= q;
      var i :| 0 <= i < |starts| && starts[i] == s;
      StartReached(tree, i);
      UnderStart(tree, s, q);
      assert q in parts[i];
    }
  }

  /** Below a reached start, the collected leaves are the reached, non-Skip leaves. */
  lemma UnderStart<L>(tree: Node<L>, s: Path, q: Path)
    requires Reached(tree, s) && s <= q
    ensures q in Below(s, LeafPaths(At(tree, s))) <==> Reached(tree, q) && At(tree, q).flag != Skip && At(tree, q).isLeaf
  {
    var l := q[|s|..];
    assert q == s + l;
    InBelow(s, LeafPaths(At(tree, s)), q);
    LeavesExactly(At(tree, s), l);
    ReachedAppend(tree, s, l);
    AtAppend(tree, s, l);
  }

  // ---------------------------------------------------------------------
  // The tree of the focustree test in the Rust port
  // ---------------------------------------------------------------------

  function Leaf(v: int, f: FlagType): Node<int>
  {
    Node(v, f, [], true)
  }

  /**
   * The tree of the focustree test in the Rust port (rust/focustree/focustree.rs),
   * with the flags it sets:
   *
   *        1
   *       / \
   *      2F  3
   *     / \   \
   *    4   5   6F
   *       / \
   *      7F  8
   *     / \
   *    9   10
   */
  function ExampleTree(): Node<int>
  {
    Node(1, None, [N2(), N3()], false)
  }

  function N2(): Node<int> { Node(2, Focus, [Leaf(4, None), N5()], false) }
  function N3(): Node<int> { Node(3, None, [Leaf(6, Focus)], false) }
  function N5(): Node<int> { Node(5, None, [N7(), Leaf(8, None)], false) }
  function N7(): Node<int> { Node(7, Focus, [Leaf(9, None), Leaf(10, None)], false) }

  function Labels<L>(ns: seq<Node<L>>): (r: seq<L>)
    ensures |r| == |ns|
  {
    seq(|ns|, i requires 0 <= i < |ns| => ns[i].payload)
  }

  lemma LeafWalks<L>(n: Node<L>)
    requires n.children == [] && n.isLeaf
    ensures FocusedPaths(n) == if n.flag == Focus then [[]] else []
    ensures LeafPaths(n) == if n.flag == Skip then [] else [[]]
    ensures WarnedPaths(n) == []
  {
    assert ChildFocused(n) == [];
    assert ChildLeaves(n) == [];
    assert ChildWarned(n) == [];
  }

  lemma BranchesPair(a: seq<Path>, b: seq<Path>)
    ensures Branches([a, b]) == Below([0], a) + Below([1], b)
  {
    var two: seq<seq<Path>> := [a, b];
    assert two[..1] == [a];
    assert |two[..1][..0]| == 0;
    assert Branches(two[..1]) == [] + Below([0], a) == Below([0], a);
  }

  lemma FocusedPair<L>(n: Node<L>, a: seq<Path>, b: seq<Path>)
    requires |n.children| == 2 && n.flag != Skip
    requires FocusedPaths(n.children[0]) == a && FocusedPaths(n.children[1]) == b
    ensures var below := Below([0], a) + Below([1], b);
      FocusedPaths(n) == if n.flag == Focus && below == [] then [[]] else below
  {
    assert ChildFocused(n) == [a, b];
    BranchesPair(a, b);
  }

  lemma LeavesPair<L>(n: Node<L>, a: seq<Path>, b: seq<Path>)
    requires |n.children| == 2 && n.flag != Skip && !n.isLeaf
    requires LeafPaths(n.children[0]) == a && LeafPaths(n.children[1]) == b
    ensures LeafPaths(n) == Below([0], a) + Below([1], b)
  {
    assert ChildLeaves(n) == [a, b];
    BranchesPair(a, b);
    assert Below([0], a) + Below([1], b) + [] == Below([0], a) + Below([1], b);
  }

  lemma FocusedOne<L>(n: Node<L>, a: seq<Path>)
    requires |n.children| == 1 && n.flag != Skip
    requires FocusedPaths(n.children[0]) == a
    ensures FocusedPaths(n) == if n.flag == Focus && Below([0], a) == [] then [[]] else Below([0], a)
  {
    var one: seq<seq<Path>> := [a];
    assert ChildFocused(n) == one;
    assert |one[..0]| == 0;
    assert Branches(one) == [] + Below([0], a) == Below([0], a);
  }

  lemma WarnedPair<L>(n: Node<L>, a: seq<Path>, b: seq<Path>, fa: seq<Path>, fb: seq<Path>)
    requires |n.children| == 2 && n.flag != Skip
    requires WarnedPaths(n.children[0]) == a && WarnedPaths(n.children[1]) == b
    requires FocusedPaths(n.children[0]) == fa && FocusedPaths(n.children[1]) == fb
    ensures WarnedPaths(n) == Below([0], a) + Below([1], b) + (if n.flag == Focus && Below([0], fa) + Below([1], fb) != [] then [[]] else [])
  {
    assert ChildWarned(n) == [a, b];
    assert ChildFocused(n) == [fa, fb];
    BranchesPair(a, b);
    BranchesPair(fa, fb);
  }

  lemma WarnedOne<L>(n: Node<L>, a: seq<Path>, fa: seq<Path>)
    requires |n.children| == 1 && n.flag != Skip
    requires WarnedPaths(n.children[0]) == a && FocusedPaths(n.children[0]) == fa
    ensures WarnedPaths(n) == Below([0], a) + (if n.flag == Focus && Below([0], fa) != [] then [[]] else [])
  {
    var one, fone: seq<seq<Path>> := [a], [fa];
    assert ChildWarned(n) == one && ChildFocused(n) == fone;
    assert |one[..0]| == 0 && |fone[..0]| == 0;
    assert Branches(one) == [] + Below([0], a);
    assert Branches(fone) == [] + Below([0], fa);
  }

  lemma BelowOne(p: Path, q: Path)
    ensures Below(p, [q]) == [p + q]
  {
  }

  // The example is walked level by level, on its nodes as variables, so that
  // each step is taken explicitly.

  lemma Walk7(n7: Node<int>, n9: Node<int>, n10: Node<int>)
    requires FocusedPaths(n9) == FocusedPaths(n10) == []
    requires n7.flag == Focus && n7.children == [n9, n10]
    ensures FocusedPaths(n7) == [[]]
  {
    FocusedPair(n7, [], []);
  }

  lemma Leaves7(n7: Node<int>, n9: Node<int>, n10: Node<int>)
    requires LeafPaths(n9) == LeafPaths(n10) == [[]]
    requires n7.flag == Focus && n7.children == [n9, n10] && !n7.isLeaf
    ensures LeafPaths(n7) == [[0], [1]]
    ensures At(n7, [0]) == n9 && At(n7, [1]) == n10
  {
    LeavesPair(n7, [[]], [[]]);
    BelowOne([0], []);
    BelowOne([1], []);
    assert [0] + [] == [0] && [1] + [] == [1];
    assert [0][1..] == [] && [1][1..] == [];
  }

  lemma Walk5(n5: Node<int>, n7: Node<int>, n8: Node<int>)
    requires FocusedPaths(n7) == [[]] && FocusedPaths(n8) == []
    requires n5.flag == None && n5.children == [n7, n8]
    ensures FocusedPaths(n5) == [[0]]
  {
    FocusedPair(n5, [[]], []);
    BelowOne([0], []);
    assert [0] + [] == [0];
  }

  lemma Walk2(n2: Node<int>, n4: Node<int>, n5: Node<int>)
    requires FocusedPaths(n4) == [] && FocusedPaths(n5) == [[0]]
    requires n2.flag == Focus && n2.children == [n4, n5]
    ensures FocusedPaths(n2) == [[1, 0]]
  {
    FocusedPair(n2, [], [[0]]);
    BelowOne([1], [0]);
    assert [1] + [0] == [1, 0];
  }

  lemma Walk3(n3: Node<int>, n6: Node<int>)
    requires FocusedPaths(n6) == [[]]
    requires n3.flag == None && n3.children == [n6]
    ensures FocusedPaths(n3) == [[0]]
  {
    FocusedOne(n3, [[]]);
    BelowOne([0], []);
    assert [0] + [] == [0];
  }

  lemma Walk1(n1: Node<int>, n2: Node<int>, n3: Node<int>)
    requires FocusedPaths(n2) == [[1, 0]] && FocusedPaths(n3) == [[0]]
    requires n1.flag == None && n1.children == [n2, n3]
    ensures FocusedPaths(n1) == [[0, 1, 0], [1, 0]]
  {
    FocusedPair(n1, [[1, 0]], [[0]]);
    BelowOne([0], [1, 0]);
    BelowOne([1], [0]);
    assert [0] + [1, 0] == [0, 1, 0] && [1] + [0] == [1, 0];
  }

  lemma WalkAt(n1: Node<int>, n2: Node<int>, n3: Node<int>, n5: Node<int>, n6: Node<int>, n7: Node<int>)
    requires n1.children == [n2, n3] && |n2.children| == 2 && n2.children[1] == n5
    requires n5.children != [] && n5.children[0] == n7 && n3.children == [n6]
    ensures At(n1, [0, 1, 0]) == n7 && At(n1, [1, 0]) == n6
  {
    assert [0, 1, 0][1..] == [1, 0] && [1, 0][1..] == [0] && [0][1..] == [];
    assert At(n5, [0]) == n7;
    assert At(n2, [1, 0]) == n7;
    assert At(n3, [0]) == n6;
  }

  /** The focused nodes are 7 and 6, node 2 is warned about, and the selected leaves are 9, 10 and 6. */
  lemma ExampleSelects()
    ensures Labels(Nodes(ExampleTree(), FocusedPaths(ExampleTree()))) == [7, 6]
    ensures Labels(Nodes(ExampleTree(), WarnedPaths(ExampleTree()))) == [2]
    ensures Labels(Nodes(ExampleTree(), SelectedPaths(ExampleTree()))) == [9, 10, 6]
  {
    var n1, n2, n3, n5, n7 := ExampleTree(), N2(), N3(), N5(), N7();
    var n4, n6, n8, n9, n10 := Leaf(4, None), Leaf(6, Focus), Leaf(8, None), Leaf(9, None), Leaf(10, None);
    ExampleShape(n1, n2, n3, n4, n5, n6, n7, n8, n9, n10);
    ExampleWarning(n1, n2, n3, n4, n5, n6, n7, n8, n9, n10);
    LabelsOf(n7, n6, n6);
    LabelsOf(n9, n10, n6);
    assert Labels([n2]) == [2];
  }

  /** Only the Focus node 2 has a focused node (7) below it, so it is the one warned about. */
  lemma ExampleWarning(n1: Node<int>, n2: Node<int>, n3: Node<int>, n4: Node<int>, n5: Node<int>,
                       n6: Node<int>, n7: Node<int>, n8: Node<int>, n9: Node<int>, n10: Node<int>)
    requires n4.children == n6.children == n8.children == n9.children == n10.children == []
    requires n4.isLeaf && n6.isLeaf && n8.isLeaf && n9.isLeaf && n10.isLeaf
    requires n4.flag == n8.flag == n9.flag == n10.flag == None && n6.flag == Focus
    requires n7.flag == Focus && n7.children == [n9, n10] && !n7.isLeaf
    requires n5.flag == None && n5.children == [n7, n8]
    requires n2.flag == Focus && n2.children == [n4, n5]
    requires n3.flag == None && n3.children == [n6]
    requires n1.flag == None && n1.children == [n2, n3]
    ensures Nodes(n1, WarnedPaths(n1)) == [n2]
  {
    assert WarnedPaths(n5) == [] && FocusedPaths(n5) == [[0]] && WarnedPaths(n4) == FocusedPaths(n4) == [] by {
      LeafWalks(n4);
      LeafWalks(n8);
      LeafWalks(n9);
      LeafWalks(n10);
      Walk7(n7, n9, n10);
      Warned7(n7, n9, n10);
      Walk5(n5, n7, n8);
      Warned5(n5, n7, n8);
    }
    assert WarnedPaths(n2) == [[]] && FocusedPaths(n2) == [[1, 0]] by {
      Walk2(n2, n4, n5);
      Warned2(n2, n4, n5);
    }
    assert WarnedPaths(n3) == [] && FocusedPaths(n3) == [[0]] by {
      LeafWalks(n6);
      Walk3(n3, n6);
      Warned3(n3, n6);
    }
    Warned1(n1, n2, n3);
  }

  lemma Warned7(n7: Node<int>, n9: Node<int>, n10: Node<int>)
    requires WarnedPaths(n9) == WarnedPaths(n10) == [] && FocusedPaths(n9) == FocusedPaths(n10) == []
    requires n7.flag == Focus && n7.children == [n9, n10]
    ensures WarnedPaths(n7) == []
  {
    WarnedPair(n7, [], [], [], []);
  }

  lemma Warned5(n5: Node<int>, n7: Node<int>, n8: Node<int>)
    requires WarnedPaths(n7) == WarnedPaths(n8) == [] && FocusedPaths(n7) == [[]] && FocusedPaths(n8) == []
    requires n5.flag == None && n5.children == [n7, n8]
    ensures WarnedPaths(n5) == []
  {
    WarnedPair(n5, [], [], [[]], []);
  }

  lemma Warned2(n2: Node<int>, n4: Node<int>, n5: Node<int>)
    requires WarnedPaths(n4) == WarnedPaths(n5) == [] && FocusedPaths(n4) == [] && FocusedPaths(n5) == [[0]]
    requires n2.flag == Focus && n2.children == [n4, n5]
    ensures WarnedPaths(n2) == [[]]
  {
    WarnedPair(n2, [], [], [], [[0]]);
    BelowOne([1], [0]);
  }

  lemma Warned3(n3: Node<int>, n6: Node<int>)
    requires WarnedPaths(n6) == [] && FocusedPaths(n6) == [[]]
    requires n3.flag == None && n3.children == [n6]
    ensures WarnedPaths(n3) == []
  {
    WarnedOne(n3, [], [[]]);
  }

  lemma Warned1(n1: Node<int>, n2: Node<int>, n3: Node<int>)
    requires WarnedPaths(n2) == [[]] && WarnedPaths(n3) == [] && FocusedPaths(n2) == [[1, 0]] && FocusedPaths(n3) == [[0]]
    requires n1.flag == None && n1.children == [n2, n3]
    ensures Nodes(n1, WarnedPaths(n1)) == [n2]
  {
    WarnedPair(n1, [[]], [], [[1, 0]], [[0]]);
    BelowOne([0], []);
    assert [0] + [] == [0];
    assert WarnedPaths(n1) == [[0]];
    assert [0][1..] == [];
    assert At(n1, [0]) == n2;
  }

  /** The walks over any tree of the example's shape, on its nodes as variables so that each step is taken explicitly. */
  lemma ExampleShape(n1: Node<int>, n2: Node<int>, n3: Node<int>, n4: Node<int>, n5: Node<int>,
                     n6: Node<int>, n7: Node<int>, n8: Node<int>, n9: Node<int>, n10: Node<int>)
    requires n4.children == n6.children == n8.children == n9.children == n10.children == []
    requires n4.isLeaf && n6.isLeaf && n8.isLeaf && n9.isLeaf && n10.isLeaf
    requires n4.flag == n8.flag == n9.flag == n10.flag == None && n6.flag == Focus
    requires n7.flag == Focus && n7.children == [n9, n10] && !n7.isLeaf
    requires n5.flag == None && n5.children == [n7, n8]
    requires n2.flag == Focus && n2.children == [n4, n5]
    requires n3.flag == None && n3.children == [n6]
    requires n1.flag == None && n1.children == [n2, n3]
    ensures Nodes(n1, FocusedPaths(n1)) == [n7, n6]
    ensures Nodes(n1, SelectedPaths(n1)) == [n9, n10, n6]
  {
    assert FocusedPaths(n7) == [[]] && LeafPaths(n7) == [[0], [1]] && At(n7, [0]) == n9 && At(n7, [1]) == n10 by {
      LeafWalks(n9);
      LeafWalks(n10);
      Walk7(n7, n9, n10);
      Leaves7(n7, n9, n10);
    }
    assert FocusedPaths(n2) == [[1, 0]] by {
      LeafWalks(n4);
      LeafWalks(n8);
      Walk5(n5, n7, n8);
      Walk2(n2, n4, n5);
    }
    assert FocusedPaths(n1) == [[0, 1, 0], [1, 0]] && LeafPaths(n6) == [[]] by {
      LeafWalks(n6);
      Walk3(n3, n6);
      Walk1(n1, n2, n3);
    }
    WalkAt(n1, n2, n3, n5, n6, n7);
    ExampleSelection(n1, n6, n7, n9, n10);
  }

  lemma LabelsOf<L>(a: Node<L>, b: Node<L>, c: Node<L>)
    ensures Labels([a, b]) == [a.payload, b.payload]
    ensures Labels([a, b, c]) == [a.payload, b.payload, c.payload]
  {
  }

  lemma ExampleSelection(n1: Node<int>, n6: Node<int>, n7: Node<int>, n9: Node<int>, n10: Node<int>)
    requires FocusedPaths(n1) == [[0, 1, 0], [1, 0]]
    requires At(n1, [0, 1, 0]) == n7 && At(n1, [1, 0]) == n6
    requires LeafPaths(n7) == [[0], [1]] && LeafPaths(n6) == [[]]
    requires At(n7, [0]) == n9 && At(n7, [1]) == n10
    ensures Nodes(n1, FocusedPaths(n1)) == [n7, n6]
    ensures Nodes(n1, SelectedPaths(n1)) == [n9, n10, n6]
  {
    var p, q := [0, 1, 0], [1, 0];
    var a, b := Below(p, [[0], [1]]), Below(q, [[]]);
    assert SelectedPaths(n1) == a + b by {
      SelectedTwo(n1, p, q);
    }
    assert Reached(n1, p) && Reached(n1, q) by {
      FocusedSound(n1, p);
      FocusedSound(n1, q);
    }
    assert Nodes(n1, a) == [n9, n10] by {
      NodesAt(n1, p, [[0], [1]]);
    }
    assert Nodes(n1, b) == [n6] by {
      NodesAt(n1, q, [[]]);
      assert Nodes(n6, [[]]) == [n6];
    }
    NodesAppend(n1, a, b);
  }

  lemma SelectedTwo<L>(tree: Node<L>, p: Path, q: Path)
    requires Starts(tree) == [p, q]
    ensures SelectedPaths(tree) == Below(p, LeafPaths(At(tree, p))) + Below(q, LeafPaths(At(tree, q)))
  {
    var parts := SelectedParts(tree);
    var a, b := Below(p, LeafPaths(At(tree, p))), Below(q, LeafPaths(At(tree, q)));
    assert parts == [a, b];
    ConcatTwo(a, b);
  }

  lemma ConcatTwo<T>(a: seq<T>, b: seq<T>)
    ensures Concat([a, b]) == a + b
  {
    var two := [a, b];
    assert two[..1] == [a];
    assert |two[..1][..0]| == 0;
    assert Concat([a]) == [] + a == a;
  }
}
