/**
 * The generation-A harness of go/specimen/run.go: load every file, populate
 * the data matrices, select the leaves through the focus tree, run the box
 * function on every tile of every selected slab, and report.
 *
 * The YAML parser's result for each file, the box function (as the script
 * of calls it makes on each tile), the stack trace the runtime prints and
 * the elapsed time are inputs.
 */
module Run {
  import opened Base
  import opened Context
  import opened OrderedStringMap
  import NT = NoduleTree
  import FT = FocusTree
  import Files

  /** A tile: one value for every key of the slab's matrix. */
  type Dict = map<string, string>

  /** What the box function does on a tile. */
  type BoxFunction = Dict -> Script

  /** The message of the runtime panic when ProductIterator reads the first value of an empty list. */
  const IndexOutOfRange: string := "runtime error: index out of range [0] with length 0"
  /** The message of the runtime panic when the selected leaf is the root of the tree. */
  const NotANodule: string := "interface conversion: focustree.Node is specimen.NoduleRoot, not specimen.Nodule"

  // ---------------------------------------------------------------------
  // One slab

  /** How a tile ends: it starts Pristine with no info, then the box function runs. */
  function TileEnd(box: BoxFunction, stack: string, tile: Dict): TileState
  {
    RunBox(TileState(Pristine, []), box(tile), stack)
  }

  /** How each of the first `n` tiles of the matrix `m` ends, in iteration order. */
  function TileEnds(box: BoxFunction, stack: string, m: Matrix, n: nat): (ends: seq<TileState>)
    ensures |ends| == n
  {
    if n == 0 then [] else TileEnds(box, stack, m, n - 1) + [TileEnd(box, stack, Tile(m, n - 1))]
  }

  /** How each tile of the matrix `m` ends, in iteration order. */
  function Ends(box: BoxFunction, stack: string, m: Matrix): seq<TileState>
  {
    TileEnds(box, stack, m, Count(m))
  }

  /** How many of `ends` have the given status. */
  function Tally(ends: seq<TileState>, status: FailStatus): (n: nat)
    ensures n <= |ends|
  {
    if ends == [] then 0
    else Tally(ends[..|ends| - 1], status) + (if ends[|ends| - 1].status == status then 1 else 0)
  }

  function Word(status: FailStatus): string
  {
    match status
    case Pristine => ""
    case Failed => "FAIL"
    case Aborted => "ABORT"
    case Panicked => "PANIC"
  }

  /** The report line of the `index`-th tile of the slab at `location`. */
  function ReportLine(location: string, index: nat, e: TileState): string
  {
    Word(e.status) + "[" + location + "][" + NatToString(index) + "]: " + Join(e.failInfo, "; ")
  }

  /** The report lines of a slab: one per tile that did not end Pristine, numbered from 0 in tile order. */
  function Report(location: string, ends: seq<TileState>): seq<string>
  {
    if ends == [] then []
    else
      var i := |ends| - 1;
      Report(location, ends[..i]) + (if ends[i].status != Pristine then [ReportLine(location, i, ends[i])] else [])
  }

  /** The counters and the report after the tiles `ends` of the slab at `location`. */
  function Accounted(c: Counts, location: string, ends: seq<TileState>): Counts
  {
    Counts(c.tileCount + |ends|,
           c.passed + Tally(ends, Pristine), c.failed + Tally(ends, Failed),
           c.aborted + Tally(ends, Aborted), c.panicked + Tally(ends, Panicked),
           c.failureReport + Report(location, ends))
  }

  /** The per-tile state left behind: the last tile's, if any ran. */
  function Settled(st: TileState, ends: seq<TileState>): TileState
  {
    if ends == [] then st else ends[|ends| - 1]
  }

  /** Some key has an empty list of values. */
  predicate HasEmptyList(m: Matrix)
  {
    exists k :: k in m.mapping && m.mapping[k] == []
  }

  /** go/specimen/run.go:67-113: the tiles of one slab, from its product iterator. */
  method RunTiles(s: S, location: string, m: Matrix, box: BoxFunction, stack: string)
    requires m.Valid() && !HasEmptyList(m)
    modifies s
    ensures s.Totals() == Accounted(old(s.Totals()), location, Ends(box, stack, m))
    ensures s.State() == Settled(old(s.State()), Ends(box, stack, m))
  {
    var product := new Odometer(m);
    ghost var c0, st0 := s.Totals(), s.State();
    var index := 0;
    while true
      invariant fresh(product) && fresh(product.index)
      invariant Enumerates(product, m, index)
      invariant s.Totals() == Accounted(c0, location, TileEnds(box, stack, m, index))
      invariant s.State() == Settled(st0, TileEnds(box, stack, m, index))
      decreases Count(m) - index
    {
      var tile := product.Next();
      if tile.None? {
        break;
      }
      RunTile(s, location, index, box, tile.value, stack);
      TileStep(c0, st0, location, TileEnds(box, stack, m, index), TileEnd(box, stack, tile.value));
      index := index + 1;
    }
  }

  /** `product` is a product iterator over `m` that has handed out `n` tiles. */
  ghost predicate Enumerates(product: Odometer, m: Matrix, n: nat)
    reads product, product.index
  {
    product.Valid() && product.Source() == m && product.yielded == n <= Count(m)
  }

  /** go/specimen/run.go:74-110: one tile, from its start to its accounting. */
  method RunTile(s: S, location: string, index: nat, box: BoxFunction, tile: Dict, stack: string)
    modifies s
    ensures s.State() == TileEnd(box, stack, tile)
    ensures s.Totals() == Tallied(old(s.Totals()), location, index, TileEnd(box, stack, tile))
  {
    s.status := Pristine;
    s.failInfo := [];
    s.RunBoxFunction(box(tile), stack);
    EndTile(s, location, index);
  }

  /** The accounts after one more tile, the `index`-th of the slab at `location`, which ended as `e`. */
  function Tallied(c: Counts, location: string, index: nat, e: TileState): Counts
  {
    Counts(c.tileCount + 1,
           c.passed + (if e.status == Pristine then 1 else 0), c.failed + (if e.status == Failed then 1 else 0),
           c.aborted + (if e.status == Aborted then 1 else 0), c.panicked + (if e.status == Panicked then 1 else 0),
           c.failureReport + (if e.status != Pristine then [ReportLine(location, index, e)] else []))
  }

  /** go/specimen/run.go:81-110: count the tile under its status and report it unless it passed. */
  method EndTile(s: S, location: string, index: nat)
    modifies s
    ensures s.Totals() == Tallied(old(s.Totals()), location, index, s.State())
    ensures s.State() == old(s.State())
  {
    s.tileCount := s.tileCount + 1;
    match s.status {
      case Pristine => s.tilePassed := s.tilePassed + 1;
      case Failed => s.tileFailed := s.tileFailed + 1;
      case Aborted => s.tileAborted := s.tileAborted + 1;
      case Panicked => s.tilePanicked := s.tilePanicked + 1;
    }
    if s.status != Pristine {
      var info := Join(s.failInfo, "; ");
      var word := "";
      match s.status {
        case Failed => word := "FAIL";
        case Aborted => word := "ABORT";
        case Panicked => word := "PANIC";
        case Pristine =>
      }
      var message := word + "[" + location + "][" + NatToString(index) + "]: " + info;
      s.failureReport := s.failureReport + [message];
    }
  }

  /** One more tile in the accounts. */
  lemma TileStep(c: Counts, st: TileState, location: string, ends: seq<TileState>, e: TileState)
    ensures Accounted(c, location, ends + [e]) == Tallied(Accounted(c, location, ends), location, |ends|, e)
    ensures Settled(st, ends + [e]) == e
  {
    assert (ends + [e])[..|ends|] == ends;
  }

  // ---- what the accounts say

  /** Every tile is counted under exactly one of the four statuses. */
  lemma {:induction false} TallySum(ends: seq<TileState>)
    ensures |ends| == Tally(ends, Pristine) + Tally(ends, Failed) + Tally(ends, Aborted) + Tally(ends, Panicked)
  {
    if ends != [] {
      TallySum(ends[..|ends| - 1]);
    }
  }

  /** A report line per tile that did not pass. */
  lemma {:induction false} ReportLength(location: string, ends: seq<TileState>)
    ensures |Report(location, ends)| == Tally(ends, Failed) + Tally(ends, Aborted) + Tally(ends, Panicked)
  {
    if ends != [] {
      ReportLength(location, ends[..|ends| - 1]);
    }
  }

  /**
   * The report holds exactly the lines of the tiles that did not pass,
   * each numbered with the tile's place in iteration order, counted from 0
   * within the slab.
   */
  lemma {:induction false} ReportLines(location: string, ends: seq<TileState>, line: string)
    ensures line in Report(location, ends) <==>
      exists i :: 0 <= i < |ends| && ends[i].status != Pristine && line == ReportLine(location, i, ends[i])
  {
    if ends != [] {
      var last := |ends| - 1;
      var init := ends[..last];
      var extra := if ends[last].status != Pristine then [ReportLine(location, last, ends[last])] else [];
      assert Report(location, ends) == Report(location, init) + extra;
      ReportLines(location, init, line);
      if line in Report(location, ends) {
        if line in Report(location, init) {
          var i :| 0 <= i < |init| && init[i].status != Pristine && line == ReportLine(location, i, init[i]);
          assert ends[i] == init[i];
        } else {
          assert line in extra;
          assert ends[last].status != Pristine && line == ReportLine(location, last, ends[last]);
        }
      }
      if exists i :: 0 <= i < |ends| && ends[i].status != Pristine && line == ReportLine(location, i, ends[i]) {
        var i :| 0 <= i < |ends| && ends[i].status != Pristine && line == ReportLine(location, i, ends[i]);
        if i < last {
          assert init[i] == ends[i];
          assert line in Report(location, init);
        } else {
          assert i == last;
          assert extra == [line];
        }
      }
    }
  }

  // ---------------------------------------------------------------------
  // The selected slabs

  /** The tree the focus resolver sees: a root that is never a leaf, over the populated files. */
  function FocusRoot(valid: seq<NT.Nodule>): FT.Node<Option<NT.Nodule>>
  {
    FT.Node(None, FT.None, seq(|valid|, i requires 0 <= i < |valid| => FocusOf(valid[i])), false)
  }

  /** A nodule as a focus-tree node: its flag, its children, a leaf iff it has none. */
  function FocusOf(n: NT.Nodule): FT.Node<Option<NT.Nodule>>
    decreases n
  {
    FT.Node(Some(n), n.flag, seq(|n.children|, i requires 0 <= i < |n.children| => FocusOf(n.children[i])), |n.children| == 0)
  }

  /** Every nodule of the focus tree has a well-formed matrix. */
  ghost predicate FocusValid(f: FT.Node<Option<NT.Nodule>>)
  {
    (f.payload.Some? ==> f.payload.value.dataMatrix.Valid()) && forall i :: 0 <= i < |f.children| ==> FocusValid(f.children[i])
  }

  lemma {:induction false} FocusOfValid(n: NT.Nodule)
    requires NT.MatricesValid(n)
    decreases n
    ensures FocusValid(FocusOf(n))
  {
    forall i | 0 <= i < |n.children|
      ensures FocusValid(FocusOf(n.children[i]))
    {
      FocusOfValid(n.children[i]);
    }
  }

  lemma {:induction false} AtValid(f: FT.Node<Option<NT.Nodule>>, p: FT.Path)
    requires FocusValid(f)
    ensures FocusValid(FT.At(f, p))
  {
    if p != [] && p[0] < |f.children| {
      AtValid(f.children[p[0]], p[1..]);
    }
  }

  /** The counters, the report and the per-tile state after the selected leaves run, or the panic that stops the run. */
  function Slabs(c: Counts, st: TileState, leaves: seq<FT.Node<Option<NT.Nodule>>>, box: BoxFunction, stack: string): Outcome<(Counts, TileState)>
    requires forall i :: 0 <= i < |leaves| ==> FocusValid(leaves[i])
  {
    if leaves == [] then Done((c, st))
    else match Slabs(c, st, leaves[..|leaves| - 1], box, stack)
      case Panic(msg) => Panic(msg)
      case Done(prev) =>
        var leaf := leaves[|leaves| - 1];
        if leaf.payload.None? then Panic(NotANodule)
        else if HasEmptyList(leaf.payload.value.dataMatrix) then Panic(IndexOutOfRange)
        else
          var slab := leaf.payload.value;
          var ends := Ends(box, stack, slab.dataMatrix);
          Done((Accounted(prev.0, NT.Location(slab), ends), Settled(prev.1, ends)))
  }

  /** go/specimen/run.go:61-114: every tile of every selected slab. */
  method RunSlabs(s: S, leaves: seq<FT.Node<Option<NT.Nodule>>>, box: BoxFunction, stack: string) returns (panicked: Option<string>)
    requires forall i :: 0 <= i < |leaves| ==> FocusValid(leaves[i])
    modifies s
    ensures match Slabs(old(s.Totals()), old(s.State()), leaves, box, stack)
      case Panic(msg) => panicked == Some(msg)
      case Done(after) => panicked == None && (s.Totals(), s.State()) == after
  {
    ghost var c0, st0 := s.Totals(), s.State();
    var k := 0;
    while k < |leaves|
      invariant k <= |leaves|
      invariant Slabs(c0, st0, leaves[..k], box, stack) == Done((s.Totals(), s.State()))
    {
      assert leaves[..k + 1][..k] == leaves[..k];
      var leaf := leaves[k];
      if leaf.payload.None? {
        SlabsPanic(c0, st0, leaves, box, stack, k + 1);
        return Some(NotANodule);
      }
      var slab := leaf.payload.value;
      if HasEmptyList(slab.dataMatrix) {
        SlabsPanic(c0, st0, leaves, box, stack, k + 1);
        return Some(IndexOutOfRange);
      }
      RunTiles(s, NT.Location(slab), slab.dataMatrix, box, stack);
      k := k + 1;
    }
    assert leaves[..k] == leaves;
    panicked := None;
  }

  /** A panic at the `k`-th leaf stops the whole run. */
  lemma {:induction false} SlabsPanic(c: Counts, st: TileState, leaves: seq<FT.Node<Option<NT.Nodule>>>, box: BoxFunction, stack: string, k: nat)
    requires forall i :: 0 <= i < |leaves| ==> FocusValid(leaves[i])
    requires k <= |leaves| && Slabs(c, st, leaves[..k], box, stack).Panic?
    decreases |leaves| - k
    ensures Slabs(c, st, leaves, box, stack) == Slabs(c, st, leaves[..k], box, stack)
  {
    if k < |leaves| {
      assert leaves[..k + 1][..k] == leaves[..k];
      SlabsPanic(c, st, leaves, box, stack, k + 1);
    } else {
      assert leaves[..k] == leaves;
    }
  }

  /**
   * Over the whole run from zero, the tile counter is the sum of the four
   * status counters and the report has one line per tile that did not
   * pass.
   */
  lemma {:induction false} SlabsBalance(c: Counts, st: TileState, leaves: seq<FT.Node<Option<NT.Nodule>>>, box: BoxFunction, stack: string)
    requires forall i :: 0 <= i < |leaves| ==> FocusValid(leaves[i])
    requires c.tileCount == c.passed + c.failed + c.aborted + c.panicked
    requires |c.failureReport| == c.failed + c.aborted + c.panicked
    ensures match Slabs(c, st, leaves, box, stack)
      case Panic(_) => true
      case Done(after) =>
        && after.0.tileCount == after.0.passed + after.0.failed + after.0.aborted + after.0.panicked
        && |after.0.failureReport| == after.0.failed + after.0.aborted + after.0.panicked
  {
    if leaves != [] {
      var init := leaves[..|leaves| - 1];
      SlabsBalance(c, st, init, box, stack);
      var leaf := leaves[|leaves| - 1];
      if Slabs(c, st, init, box, stack).Done? && leaf.payload.Some? {
        var slab := leaf.payload.value;
        var ends := Ends(box, stack, slab.dataMatrix);
        TallySum(ends);
        ReportLength(NT.Location(slab), ends);
      }
    }
  }

  // ---------------------------------------------------------------------
  // Loading and populating the files

  /** The path of every file, in order. */
  function Paths(files: seq<Files.File>): (r: seq<string>)
    ensures |r| == |files| && forall i :: 0 <= i < |files| ==> r[i] == files[i].path
  {
    seq(|files|, i requires 0 <= i < |files| => files[i].path)
  }

  /** What loading each file gives, in order (go/specimen/run.go:28). */
  function Outcomes(files: seq<Files.File>, documents: seq<NT.Document>): (r: seq<Outcome<NT.Loaded>>)
    requires |files| == |documents|
    ensures |r| == |files| && forall i :: 0 <= i < |files| ==> r[i] == NT.FileNodule(files[i], documents[i])
  {
    seq(|files|, i requires 0 <= i < |files| => NT.FileNodule(files[i], documents[i]))
  }

  /** go/specimen/run.go:27-34: the nodules of the files that load, and a message per file that does not. */
  function Loads(files: seq<Files.File>, documents: seq<NT.Document>): Outcome<(seq<NT.Nodule>, seq<string>)>
    requires |files| == |documents|
  {
    Gathered(Paths(files), Outcomes(files, documents))
  }

  /** The loop of go/specimen/run.go:27-34 over the files' paths and what loading each gave. */
  function Gathered(paths: seq<string>, outs: seq<Outcome<NT.Loaded>>): Outcome<(seq<NT.Nodule>, seq<string>)>
    requires |paths| == |outs|
  {
    if paths == [] then Done(([], []))
    else
      var i := |paths| - 1;
      match Gathered(paths[..i], outs[..i])
      case Panic(msg) => Panic(msg)
      case Done(prev) =>
        match outs[i]
        case Panic(msg) => Panic(msg)
        case Done(Loaded(n)) => Done((prev.0 + [n], prev.1))
        case Done(LoadError(reason)) => Done((prev.0, prev.1 + [paths[i] + ": " + reason]))
  }

  method LoadFiles(files: seq<Files.File>, documents: seq<NT.Document>) returns (r: Outcome<(seq<NT.Nodule>, seq<string>)>)
    requires |files| == |documents|
    ensures r == Loads(files, documents)
  {
    ghost var paths, outs := Paths(files), Outcomes(files, documents);
    var noduleRoot: seq<NT.Nodule> := [];
    var out: seq<string> := [];
    var k := 0;
    while k < |files|
      invariant k <= |files|
      invariant Gathered(paths[..k], outs[..k]) == Done((noduleRoot, out))
    {
      GatheredNext(paths, outs, k);
      var loaded := NT.NewNoduleFromFile(files[k], documents[k]);
      if loaded.Panic? {
        GatheredPanic(paths, outs, k + 1);
        return Panic(loaded.message);
      }
      match loaded.value {
        case Loaded(n) => noduleRoot := noduleRoot + [n];
        case LoadError(reason) => out := out + [files[k].path + ": " + reason];
      }
      k := k + 1;
    }
    assert paths[..k] == paths && outs[..k] == outs;
    r := Done((noduleRoot, out));
  }

  /** One more file loaded. */
  lemma GatheredNext(paths: seq<string>, outs: seq<Outcome<NT.Loaded>>, k: nat)
    requires |paths| == |outs| && k < |paths|
    ensures Gathered(paths[..k + 1], outs[..k + 1]) ==
      match Gathered(paths[..k], outs[..k])
      case Panic(msg) => Panic(msg)
      case Done(prev) =>
        match outs[k]
        case Panic(msg) => Panic(msg)
        case Done(Loaded(n)) => Done((prev.0 + [n], prev.1))
        case Done(LoadError(reason)) => Done((prev.0, prev.1 + [paths[k] + ": " + reason]))
  {
    assert paths[..k + 1][..k] == paths[..k] && outs[..k + 1][..k] == outs[..k];
  }

  /** A panic while loading the `k`-th file ends the run. */
  lemma {:induction false} GatheredPanic(paths: seq<string>, outs: seq<Outcome<NT.Loaded>>, k: nat)
    requires |paths| == |outs| && k <= |paths| && Gathered(paths[..k], outs[..k]).Panic?
    decreases |paths| - k
    ensures Gathered(paths, outs) == Gathered(paths[..k], outs[..k])
  {
    if k < |paths| {
      assert paths[..k + 1][..k] == paths[..k] && outs[..k + 1][..k] == outs[..k];
      GatheredPanic(paths, outs, k + 1);
    } else {
      assert paths[..k] == paths && outs[..k] == outs;
    }
  }

  /** go/specimen/run.go:27-34: loading goes through iff no file's nodule panics. */
  lemma {:induction false} GatheredDone(paths: seq<string>, outs: seq<Outcome<NT.Loaded>>)
    requires |paths| == |outs|
    ensures Gathered(paths, outs).Done? <==> forall i :: 0 <= i < |outs| ==> outs[i].Done?
  {
    if paths != [] {
      var k := |paths| - 1;
      GatheredDone(paths[..k], outs[..k]);
      assert forall j :: 0 <= j < k ==> outs[..k][j] == outs[j];
    }
  }

  /** The `i`-th file loads into `n`. */
  predicate LoadsInto(outs: seq<Outcome<NT.Loaded>>, i: int, n: NT.Nodule)
  {
    0 <= i < |outs| && outs[i] == Done(NT.Loaded(n))
  }

  /** The `i`-th file does not load, and `msg` is what the run prints for it. */
  predicate ReportsAs(paths: seq<string>, outs: seq<Outcome<NT.Loaded>>, i: int, msg: string)
    requires |paths| == |outs|
  {
    && 0 <= i < |outs| && outs[i].Done? && outs[i].value.LoadError?
    && msg == paths[i] + ": " + outs[i].value.reason
  }

  /**
   * go/specimen/run.go:27-34: when loading goes through, every file gives
   * one nodule or one "path: reason" message, and the two lists hold
   * nothing else.
   */
  lemma {:induction false} GatheredExactly(paths: seq<string>, outs: seq<Outcome<NT.Loaded>>)
    requires |paths| == |outs| && Gathered(paths, outs).Done?
    ensures var (ns, msgs) := Gathered(paths, outs).value;
      && |ns| + |msgs| == |paths|
      && (forall n :: n in ns <==> exists i :: LoadsInto(outs, i, n))
      && (forall msg :: msg in msgs <==> exists i :: ReportsAs(paths, outs, i, msg))
  {
    if paths != [] {
      var k := |paths| - 1;
      var ps, os := paths[..k], outs[..k];
      GatheredLast(paths, outs);
      GatheredExactly(ps, os);
      var (ns0, msgs0) := Gathered(ps, os).value;
      var (ns, msgs) := Gathered(paths, outs).value;
      forall n
        ensures n in ns <==> exists i :: LoadsInto(outs, i, n)
      {
        if n in ns {
          if n in ns0 {
            var i :| LoadsInto(os, i, n);
            assert LoadsInto(outs, i, n);
          } else {
            assert ns == ns0 + [outs[k].value.nodule];
            assert LoadsInto(outs, k, n);
          }
        }
        if i :| LoadsInto(outs, i, n) {
          if i < k {
            assert LoadsInto(os, i, n);
          } else {
            assert ns == ns0 + [n];
            assert ns[|ns0|] == n;
          }
        }
      }
      forall msg
        ensures msg in msgs <==> exists i :: ReportsAs(paths, outs, i, msg)
      {
        if msg in msgs {
          if msg in msgs0 {
            var i :| ReportsAs(ps, os, i, msg);
            assert ReportsAs(paths, outs, i, msg);
          } else {
            assert msgs == msgs0 + [paths[k] + ": " + outs[k].value.reason];
            assert ReportsAs(paths, outs, k, msg);
          }
        }
        if i :| ReportsAs(paths, outs, i, msg) {
          if i < k {
            assert ReportsAs(ps, os, i, msg);
          } else {
            assert msgs == msgs0 + [msg];
            assert msgs[|msgs0|] == msg;
          }
        }
      }
    }
  }

  /** The last file: the earlier files loaded, and it added its nodule or its message. */
  lemma GatheredLast(paths: seq<string>, outs: seq<Outcome<NT.Loaded>>)
    requires |paths| == |outs| && paths != [] && Gathered(paths, outs).Done?
    ensures var k := |paths| - 1;
      var prev := Gathered(paths[..k], outs[..k]);
      && prev.Done? && outs[k].Done?
      && Gathered(paths, outs).value ==
           if outs[k].value.Loaded? then (prev.value.0 + [outs[k].value.nodule], prev.value.1)
           else (prev.value.0, prev.value.1 + [paths[k] + ": " + outs[k].value.reason])
  {
  }

  /** go/specimen/run.go:27-34, over the files themselves: loading goes through iff no file's nodule panics. */
  lemma LoadsDone(files: seq<Files.File>, documents: seq<NT.Document>)
    requires |files| == |documents|
    ensures Loads(files, documents).Done? <==> forall i :: 0 <= i < |files| ==> NT.FileNodule(files[i], documents[i]).Done?
  {
    GatheredDone(Paths(files), Outcomes(files, documents));
  }

  /** The matrix every file starts from: `filepath` bound to the file's path. */
  function FileMatrix(n: NT.Nodule): Matrix
  {
    Matrix(["filepath"], map["filepath" := [n.filePath]])
  }

  /** The values whose error list is empty, in order. */
  function Passing<T, E>(results: seq<(T, seq<E>)>): (r: seq<T>)
    ensures |r| <= |results|
  {
    if results == [] then []
    else
      var last := results[|results| - 1];
      Passing(results[..|results| - 1]) + (if last.1 == [] then [last.0] else [])
  }

  /** A value passes iff some result carries it with no error. */
  lemma {:induction false} PassingIff<T, E>(results: seq<(T, seq<E>)>, x: T)
    ensures x in Passing(results) <==> exists i :: 0 <= i < |results| && results[i] == (x, [])
  {
    if results != [] {
      var last := |results| - 1;
      var init := results[..last];
      var extra := if results[last].1 == [] then [results[last].0] else [];
      assert Passing(results) == Passing(init) + extra;
      PassingIff(init, x);
      if x in Passing(results) {
        if x in Passing(init) {
          var i :| 0 <= i < |init| && init[i] == (x, []);
          assert results[i] == init[i];
        } else {
          assert extra == [x];
          assert results[last] == (x, []);
        }
      }
      if exists i :: 0 <= i < |results| && results[i] == (x, []) {
        var i :| 0 <= i < |results| && results[i] == (x, []);
        if i < last {
          assert init[i] == results[i];
          assert x in Passing(init);
        } else {
          assert i == last;
          assert extra == [x];
        }
      }
    }
  }

  /** Each nodule populated from its file's matrix, with the errors it gathered. */
  function Attempts(nodules: seq<NT.Nodule>): (r: seq<(NT.Nodule, seq<NT.PopulateError>)>)
    ensures |r| == |nodules|
  {
    seq(|nodules|, i requires 0 <= i < |nodules| => NT.Filled(nodules[i], FileMatrix(nodules[i])))
  }

  /** go/specimen/run.go:38-48: the nodules that populate without error, populated, in file order. */
  function Populated(nodules: seq<NT.Nodule>): seq<NT.Nodule>
  {
    Passing(Attempts(nodules))
  }

  method PopulateAll(noduleRoot: seq<NT.Nodule>) returns (validTree: seq<NT.Nodule>)
    ensures validTree == Populated(noduleRoot)
  {
    ghost var attempts := Attempts(noduleRoot);
    validTree := [];
    var k := 0;
    while k < |noduleRoot|
      invariant k <= |noduleRoot|
      invariant validTree == Passing(attempts[..k])
    {
      assert attempts[..k + 1][..k] == attempts[..k];
      var nodule := noduleRoot[k];
      var dataMatrix := new OSM();
      dataMatrix.Set("filepath", [nodule.filePath]);
      assert dataMatrix.Value() == FileMatrix(nodule);
      var populated, errors := NT.Populate(nodule, dataMatrix);
      if errors == [] {
        validTree := validTree + [populated];
      }
      k := k + 1;
    }
    assert attempts[..k] == attempts;
  }

  /** Every populated nodule has well-formed matrices throughout. */
  lemma PopulatedValid(nodules: seq<NT.Nodule>)
    ensures forall i :: 0 <= i < |Populated(nodules)| ==> NT.MatricesValid(Populated(nodules)[i])
  {
    forall j | 0 <= j < |Populated(nodules)|
      ensures NT.MatricesValid(Populated(nodules)[j])
    {
      var x := Populated(nodules)[j];
      PassingIff(Attempts(nodules), x);
      var i :| 0 <= i < |nodules| && Attempts(nodules)[i] == (x, []);
      NT.FilledValid(nodules[i], FileMatrix(nodules[i]));
    }
  }

  /** A loaded file takes part in the run iff it populates without error. */
  lemma PopulatedKeeps(nodules: seq<NT.Nodule>, n: NT.Nodule)
    ensures n in Populated(nodules) <==>
      exists i :: 0 <= i < |nodules| && NT.Filled(nodules[i], FileMatrix(nodules[i])) == (n, [])
  {
    var attempts := Attempts(nodules);
    PassingIff(attempts, n);
    if n in Populated(nodules) {
      var i :| 0 <= i < |attempts| && attempts[i] == (n, []);
      assert NT.Filled(nodules[i], FileMatrix(nodules[i])) == (n, []);
    }
    if exists i :: 0 <= i < |nodules| && NT.Filled(nodules[i], FileMatrix(nodules[i])) == (n, []) {
      var i :| 0 <= i < |nodules| && NT.Filled(nodules[i], FileMatrix(nodules[i])) == (n, []);
      assert attempts[i] == (n, []);
    }
  }

  // ---------------------------------------------------------------------
  // The report

  /** The outcome word: FAILURE iff some tile did not pass. */
  function Verdict(c: Counts): (word: string)
    ensures word == "FAILURE" <==> c.failureReport != []
    ensures word == "SUCCESS" <==> c.failureReport == []
  {
    if |c.failureReport| > 0 then "FAILURE" else "SUCCESS"
  }

  /** The focused and pending summary, only when there is something to say. */
  function FlagLine(focusCount: nat, skipCount: nat): (line: Option<string>)
    ensures line.Some? <==> focusCount > 0 || skipCount > 0
  {
    if focusCount > 0 || skipCount > 0 then
      var parts := (if focusCount > 0 then [NatToString(focusCount) + " focused node(s)"] else [])
                 + (if skipCount > 0 then [NatToString(skipCount) + " pending node(s)"] else []);
      Some("Encountered " + Join(parts, " and ") + "\n")
    else None
  }

  /** go/specimen/run.go:118-142: what the run writes after the tiles. */
  function Summary(c: Counts, focusCount: nat, skipCount: nat, millis: nat): seq<string>
  {
    (if |c.failureReport| > 0 then [Join(c.failureReport, "\n") + "\n"] else [])
    + (match FlagLine(focusCount, skipCount) case Some(line) => [line] case None => [])
    + ["Ran " + NatToString(c.tileCount) + " tiles in " + NatToString(millis) + "ms\n"
       + Verdict(c) + " -- " + NatToString(c.passed) + " Passed | " + NatToString(c.failed) + " Failed | "
       + NatToString(c.aborted) + " Aborted | " + NatToString(c.panicked) + " Panicked\n"]
  }

  method Summarize(c: Counts, focusCount: nat, skipCount: nat, millis: nat) returns (lines: seq<string>)
    ensures lines == Summary(c, focusCount, skipCount, millis)
  {
    lines := [];
    var outcome := "SUCCESS";
    if |c.failureReport| > 0 {
      lines := [Join(c.failureReport, "\n") + "\n"];
      outcome := "FAILURE";
    }
    var flagLine := FlagLine(focusCount, skipCount);
    if flagLine.Some? {
      lines := lines + [flagLine.value];
    }
    lines := lines + ["Ran " + NatToString(c.tileCount) + " tiles in " + NatToString(millis) + "ms\n"
       + outcome + " -- " + NatToString(c.passed) + " Passed | " + NatToString(c.failed) + " Failed | "
       + NatToString(c.aborted) + " Aborted | " + NatToString(c.panicked) + " Panicked\n"];
  }

  /**
   * The accounts after the tiles of the leaves the focus tree selects among
   * the populated files, with the focus and pending counts, or the panic
   * that stops the run.
   */
  ghost function SelectedRun(valid: seq<NT.Nodule>, box: BoxFunction, stack: string): Outcome<(Counts, nat, nat)>
    requires forall i :: 0 <= i < |valid| ==> NT.MatricesValid(valid[i])
  {
    var root := FocusRoot(valid);
    RootValid(valid);
    LeavesValid(root, FT.SelectedPaths(root));
    match Slabs(Counts(0, 0, 0, 0, 0, []), TileState(Pristine, []), FT.Nodes(root, FT.SelectedPaths(root)), box, stack)
    case Panic(msg) => Panic(msg)
    case Done(after) => Done((after.0, |FT.FocusedPaths(root)|, |FT.Concat(FT.SkippedParts(root))|))
  }

  /** go/specimen/run.go:23 and 50-114: a fresh context, the focus selection, and the tiles. */
  method RunSelected(validTree: seq<NT.Nodule>, box: BoxFunction, stack: string) returns (r: Outcome<(Counts, nat, nat)>)
    requires forall i :: 0 <= i < |validTree| ==> NT.MatricesValid(validTree[i])
    ensures r == SelectedRun(validTree, box, stack)
  {
    var s := new S();
    var selectedLeaves, focusCount, skipCount := Select(validTree);
    var panicked := RunSlabs(s, selectedLeaves, box, stack);
    if panicked.Some? {
      return Panic(panicked.value);
    }
    r := Done((s.Totals(), focusCount, skipCount));
  }

  /** go/specimen/run.go:55-56: the leaves the focus tree selects, with its focus and pending counts. */
  method Select(validTree: seq<NT.Nodule>) returns (leaves: seq<FT.Node<Option<NT.Nodule>>>, focusCount: nat, skipCount: nat)
    requires forall i :: 0 <= i < |validTree| ==> NT.MatricesValid(validTree[i])
    ensures var root := FocusRoot(validTree);
      && leaves == FT.Nodes(root, FT.SelectedPaths(root))
      && focusCount == |FT.FocusedPaths(root)| && skipCount == |FT.Concat(FT.SkippedParts(root))|
    ensures forall i :: 0 <= i < |leaves| ==> FocusValid(leaves[i])
  {
    var root := FocusRoot(validTree);
    RootValid(validTree);
    var flagStat := new FT.FlagStat();
    var warned;
    leaves, warned := FT.ExtractSelectedLeaves(root, flagStat);
    LeavesValid(root, FT.SelectedPaths(root));
    focusCount, skipCount := flagStat.focusCount, flagStat.skipCount;
  }

  /** What a run writes to `stdout`, or the panic that ends it. */
  ghost function Ran(files: seq<Files.File>, documents: seq<NT.Document>, box: BoxFunction, stack: string, millis: nat): Outcome<seq<string>>
    requires |files| == |documents|
  {
    match Loads(files, documents)
    case Panic(msg) => Panic(msg)
    case Done(loaded) =>
      PopulatedValid(loaded.0);
      match SelectedRun(Populated(loaded.0), box, stack)
      case Panic(msg) => Panic(msg)
      case Done(sel) => Done(loaded.1 + Summary(sel.0, sel.1, sel.2, millis))
  }

  /**
   * go/specimen/run.go:22-143, from the parsed files to what is written to
   * `stdout` (the log lines of populate errors and focus warnings are left
   * out). A panic outside the box functions ends the run.
   */
  method IolessRun(files: seq<Files.File>, documents: seq<NT.Document>, box: BoxFunction, stack: string, millis: nat)
    returns (r: Outcome<seq<string>>)
    requires |files| == |documents|
    ensures r == Ran(files, documents, box, stack, millis)
  {
    var loaded := LoadFiles(files, documents);
    if loaded.Panic? {
      return Panic(loaded.message);
    }
    var noduleRoot, out := loaded.value.0, loaded.value.1;
    var validTree := PopulateAll(noduleRoot);
    PopulatedValid(noduleRoot);
    var selected := RunSelected(validTree, box, stack);
    if selected.Panic? {
      return Panic(selected.message);
    }
    var report := Summarize(selected.value.0, selected.value.1, selected.value.2, millis);
    r := Done(out + report);
  }

  lemma RootValid(valid: seq<NT.Nodule>)
    requires forall i :: 0 <= i < |valid| ==> NT.MatricesValid(valid[i])
    ensures FocusValid(FocusRoot(valid))
  {
    forall i | 0 <= i < |valid|
      ensures FocusValid(FocusOf(valid[i]))
    {
      FocusOfValid(valid[i]);
    }
  }

  lemma LeavesValid(root: FT.Node<Option<NT.Nodule>>, ps: seq<FT.Path>)
    requires FocusValid(root)
    ensures forall i :: 0 <= i < |ps| ==> FocusValid(FT.Nodes(root, ps)[i])
  {
    forall i | 0 <= i < |ps|
      ensures FocusValid(FT.Nodes(root, ps)[i])
    {
      AtValid(root, ps[i]);
    }
  }

  /**
   * A run that does not panic counts every tile under exactly one status,
   * reports one line per tile that did not pass, and reports FAILURE iff
   * some tile failed, aborted or panicked.
   */
  lemma RunVerdict(valid: seq<NT.Nodule>, box: BoxFunction, stack: string)
    requires forall i :: 0 <= i < |valid| ==> NT.MatricesValid(valid[i])
    requires SelectedRun(valid, box, stack).Done?
    ensures var c := SelectedRun(valid, box, stack).value.0;
      && c.tileCount == c.passed + c.failed + c.aborted + c.panicked
      && |c.failureReport| == c.failed + c.aborted + c.panicked
      && (Verdict(c) == "FAILURE" <==> c.failed + c.aborted + c.panicked > 0)
  {
    var root := FocusRoot(valid);
    RootValid(valid);
    LeavesValid(root, FT.SelectedPaths(root));
    SlabsBalance(Counts(0, 0, 0, 0, 0, []), TileState(Pristine, []), FT.Nodes(root, FT.SelectedPaths(root)), box, stack);
  }
}
