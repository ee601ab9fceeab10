# specimen, modelled in Dafny

specimen is a data-driven test framework: test data lives in YAML files
shaped as a tree of mappings ("nodules"). Each level may set `input` entries
and a `matrix` of candidate values, and may mark itself `FOCUS` or `PENDING`.
Each leaf ("slab") names a box function. The runner:

- loads every file;
- populates the tree, passing inherited data down;
- selects the focused leaves;
- runs the box function once per "tile", that is, once per combination of
  the matrix values;
- keeps a count of passed, failed, aborted and panicked tiles and a failure
  report;
- prints a summary.

This project models the Go implementation of that engine and proves what it
promises.

| file | module | what it models |
|---|---|---|
| base.dfy | `Base` | `Option`, an `Outcome` that is a value or a Go panic, `strings.Split`/`Join`, decimal printing |
| yaml.dfy | `Yaml` | an abstract YAML node (mapping, sequence, scalar, with a position) and `MapTryGetValue` |
| radix.dfy | `MixedRadix` | the odometer arithmetic behind the product iterator: mixed-radix digit vectors |
| osm.dfy | `OrderedStringMap` | `OSM` (class: `Set` with its shifting loop, `Clone`, reads) and the `ProductIterator` closure as class `Odometer` |
| focustree.dfy | `FocusTree` | `ExtractSelectedLeaves`, `findFocusedNodes`, `getLeaves`, over a generic tree, against a position-based specification |
| flag.dfy | `Flag` | the `FOCUS`/`PENDING` flag grammar of `go/flag.go` and of `readFlag` in `go/specimen/tree.go` |
| nodule.dfy | `NoduleTree` | the nodule tree that `run.go` drives (`go/specimen/nodule.go`): `NewNoduleFromFile`, `InitializeTree`, `Populate` |
| tree.dfy | `Tree` | the later nodule tree of `go/specimen/tree.go`: `InitializeFile`, `Initialize`, `multiplySlice` |
| tree_populate.dfy | `TreePopulate` | `Populate` of `go/specimen/tree.go`, with its matrix expansion of slabs |
| context.dfy | `Context` | the test context `S` (class) with `Fail`, `Abort`, `ExpectEqual`, and the panic handler of `runBoxFunction` |
| run.dfy | `Run` | `IolessRun`: loading, populating, selection, the tile loop with its counters and report, and the summary |
| files.dfy | `Files` | `File`, `VirtualFile`, `VirtualFileDedent` and `dedent`: four passes writing into an exactly sized `array` |
| novel.dfy | `Novel` | the `Book` of the novel example (class: `TurnPage`, `GetPage`) |

How the source is represented:

- **Mutable state becomes classes.** An `OSM`, the iterator's captured state,
  the test context `S` and a `Book` change in place in Go, so each is a Dafny
  class. Its methods carry `modifies` clauses, and their `ensures` tie the new
  state to a specification function of the old one.
- **Nodules are values.** They are datatypes. `Initialize` and `Populate`
  return the new nodule instead of writing through a pointer.
- **Panics are values.** A Go panic outside a box function becomes the
  `Panic` case of `Outcome`, and it propagates. Examples are
  `AssertIsString` on a non-string flag, and an index into an empty list in
  `ProductIterator`.
- **User code is a script.** A box function is modelled as the list of
  calls it makes on the context: `Fail`, `Abort`, `ExpectEqual`, or a panic
  with a value.
- **Outside inputs are parameters.** Go's map iteration order is an
  `order` parameter (any order is allowed). So are the parsed YAML document
  of each file, the stack trace text and the elapsed milliseconds.
- **`panic(nil)` follows Go 1.21 and later.** The source needs Go 1.21 for
  its `slices` import (go/specimen/orderedstringmap/orderedstringmap.go:3).
  From that version on, `recover()` turns `panic(nil)` into a
  `*runtime.PanicNilError`. `Abort` panics with `nil` after setting the status
  to `Aborted`, so the handler returns at once. A box function that calls
  `panic(nil)` itself marks its tile `Panicked`, with the message
  "panic called with nil argument" (`Context.NilPanicPanics`).
- **Two counter vocabularies.** `run.go` counts with `tileCount`,
  `tilePassed`, `tileFailed`, `tileAborted`, `tilePanicked`; the class `S`
  uses those names. The `slabCount`… fields of `go/specimen/structure.go`
  belong to the later tree and are not used by `run.go`.
- **Focus-tree adapter.** `run.go` hands `NoduleRoot` and `Nodule` to
  `focustree.ExtractSelectedLeaves`, but their adapter methods are not among
  the files of this model. They are modelled like the adapter of
  `go/specimen/tree.go:30-65`: a nodule is a leaf iff it has no children,
  and the root has flag None and is not a leaf.
- **The dedent doc comment is not followed.** The comment of `dedent`
  (go/specimen/file.go:32-33) says that a non-empty first line is not
  trimmed. The code trims it like every other line, and the model follows
  the code.
- **Newline-only text keeps its newlines.** `dedent`'s first loop only cuts
  when it finds a byte that is not a newline, so a text made of newlines
  only keeps them all (`Files.NewlinesOnlyKept`).

## Model

| member | source | states |
|---|---|---|
| Base.Split | go/flag.go:18 | the parts of `strings.Split` with a one-byte separator: at least one, none holds the separator, and joining them gives the text back |
| Base.SplitJoin | go/flag.go:18 | splitting a join of separator-free parts gives the parts back |
| Yaml.MapTryGetValue | go/syaml/map.go:12-22 | the value of the first pair whose key has the given text; None iff no key has it |
| MixedRadix.IncValue | go/specimen/orderedstringmap/orderedstringmap.go:110-120 | one turn of the digit loop adds one to the number the digits denote, wrapping to 0 after the greatest |
| MixedRadix.OdometerStep | go/specimen/orderedstringmap/orderedstringmap.go:110-120 | the fastest digit always advances modulo its radix, and a digit changes only when all faster digits wrapped to 0 |
| MixedRadix.TurnFrom | go/specimen/orderedstringmap/orderedstringmap.go:110-120 | counting on from `t` gives the digits of `t + 1`, and wraps to all zeros exactly when `t` was the last number |
| MixedRadix.DigitsNoEarlyWrap | go/specimen/orderedstringmap/orderedstringmap.go:110-116 | the loop does not come back to all zeros before the product of the radices is reached |
| MixedRadix.ValueOfDigits | go/specimen/orderedstringmap/orderedstringmap.go:110-120 | after `t` turns, `t` in range, the digits denote `t` |
| MixedRadix.DigitsOfValue | go/specimen/orderedstringmap/orderedstringmap.go:110-120 | every digit vector in range is reached, at the number it denotes |
| MixedRadix.DigitsInjective | go/specimen/orderedstringmap/orderedstringmap.go:110-120 | distinct turn counts in range give distinct digit vectors |
| OrderedStringMap.OSM.constructor | go/specimen/orderedstringmap/orderedstringmap.go:15-17 | `NewOSM` is empty and well formed |
| OrderedStringMap.OSM.Get | go/specimen/orderedstringmap/orderedstringmap.go:19-21 | the list of a present key; the empty (nil) list for an absent one |
| OrderedStringMap.OSM.TryGet | go/specimen/orderedstringmap/orderedstringmap.go:23-29 | Some iff the key is present, carrying its list, so an absent key and an empty list differ |
| OrderedStringMap.OSM.Set | go/specimen/orderedstringmap/orderedstringmap.go:31-50 | the shifting loop leaves the map well formed, the new list stored, and the key moved or appended to the last place (`Assign`) |
| OrderedStringMap.ShiftedOut | go/specimen/orderedstringmap/orderedstringmap.go:37-46 | the state the shifting loop leaves, with the key written last, is the order without the key followed by the key |
| OrderedStringMap.AssignValid | go/specimen/orderedstringmap/orderedstringmap.go:31-50 | Set keeps every key listed exactly once |
| OrderedStringMap.AssignAbsent | go/specimen/orderedstringmap/orderedstringmap.go:47-49 | setting an absent key appends it to the order |
| OrderedStringMap.AssignPresent | go/specimen/orderedstringmap/orderedstringmap.go:35-46 | setting a present key keeps the length, puts the key last and keeps the relative order of the other keys |
| OrderedStringMap.AssignGet | go/specimen/orderedstringmap/orderedstringmap.go:31-33 | after Set the key reads back the new list and every other key reads as before |
| OrderedStringMap.ValidKeys | go/specimen/orderedstringmap/orderedstringmap.go:5-8 | every key of a well-formed map is listed in its order |
| OrderedStringMap.OSM.Len | go/specimen/orderedstringmap/orderedstringmap.go:62-64 | the number of keys of the map |
| OrderedStringMap.OSM.Keys | go/specimen/orderedstringmap/orderedstringmap.go:66-68 | every key exactly once |
| OrderedStringMap.OSM.Values | go/specimen/orderedstringmap/orderedstringmap.go:70-75 | the lists, one per key, in key order |
| OrderedStringMap.OSM.Entries | go/specimen/orderedstringmap/orderedstringmap.go:77-82 | the key and list pairs in key order |
| OrderedStringMap.OSM.Clone | go/specimen/orderedstringmap/orderedstringmap.go:52-60 | a fresh well-formed map with the same order and lists |
| OrderedStringMap.CloneThenSet | go/specimen/orderedstringmap/orderedstringmap.go:52-60 | a Set on a clone leaves the original as it was |
| OrderedStringMap.OSM.ProductIterator | go/specimen/orderedstringmap/orderedstringmap.go:84-101 | a fresh iterator over this map, positioned before the first tile |
| OrderedStringMap.Odometer.constructor | go/specimen/orderedstringmap/orderedstringmap.go:85-101 | the captured reversed keys and sizes, all indices 0, the first combination |
| OrderedStringMap.Odometer.Turn | go/specimen/orderedstringmap/orderedstringmap.go:110-120 | the indices take one odometer step, the combination follows every index written, and the loop reports a wrap exactly when all indices returned to 0 |
| OrderedStringMap.Odometer.Next | go/specimen/orderedstringmap/orderedstringmap.go:102-123 | the closure returns tile 0, 1, … up to the product of the list lengths, then nil on every later call |
| OrderedStringMap.FirstTile | go/specimen/orderedstringmap/orderedstringmap.go:94-97 | the first tile maps every key to the first value of its list |
| OrderedStringMap.TileKeys | go/specimen/orderedstringmap/orderedstringmap.go:94-123 | every tile has exactly the keys of the map |
| OrderedStringMap.TileFromLists | go/specimen/orderedstringmap/orderedstringmap.go:94-123 | every tile picks for each key one of that key's values |
| OrderedStringMap.TilesDistinct | go/specimen/orderedstringmap/orderedstringmap.go:102-123 | with lists without repeats, no tile comes twice |
| OrderedStringMap.TilesExhaustive | go/specimen/orderedstringmap/orderedstringmap.go:102-123 | every combination of one value per key is one of the tiles |
| OrderedStringMap.TileStep | go/specimen/orderedstringmap/orderedstringmap.go:110-120 | from tile to tile the last-set key advances (wrapping), and a key moves only when every key set after it restarts |
| FocusTree.FlagStat.constructor | go/specimen/focustree/focustree.go:20-23 | both counts start at zero |
| FocusTree.FindFocusedNodes | go/specimen/focustree/focustree.go:45-64 | appends the focused nodes of the subtree in post-order, and the nodes it warns about |
| FocusTree.GetLeaves | go/specimen/focustree/focustree.go:67-78 | appends the non-Skip leaves below the node and adds one to the skip count per Skip node reached |
| FocusTree.ExtractSelectedLeaves | go/specimen/focustree/focustree.go:28-40 | the focus count is the number of focused nodes; the leaves are those below the starts (the focused nodes, or the root when there is none) |
| FocusTree.FocusedSound | go/specimen/focustree/focustree.go:45-64 | every recorded node is a reached Focus node |
| FocusTree.FocusedNotNested | go/specimen/focustree/focustree.go:54-62 | no recorded focused node lies below another |
| FocusTree.FocusedCover | go/specimen/focustree/focustree.go:54-62 | every reached Focus node is recorded, or a recorded node lies below it |
| FocusTree.WarnedExactly | go/specimen/focustree/focustree.go:55-59 | a node is warned about iff it is a reached Focus node that is not recorded |
| FocusTree.LeavesExactly | go/specimen/focustree/focustree.go:67-78 | the collected leaves are exactly the reached non-Skip leaves |
| FocusTree.SkipsExactly | go/specimen/focustree/focustree.go:68-71 | the counted Skip nodes are exactly the reached Skip nodes |
| FocusTree.NoFocusMeansRoot | go/specimen/focustree/focustree.go:31-34 | no recorded node iff no reached Focus node, and then the root is the one start |
| FocusTree.SelectedExactly | go/specimen/focustree/focustree.go:28-40 | the selected leaves are exactly the reached non-Skip leaves at or below a start |
| FocusTree.FocusedOrdered | go/specimen/focustree/focustree.go:45-64 | the recorded nodes are in post-order, without repeats |
| FocusTree.LeavesOrdered | go/specimen/focustree/focustree.go:67-78 | the leaves are in post-order, without repeats |
| FocusTree.ExampleSelects | go/specimen/focustree/focustree.go:28-64 | on a ten-node, five-level example the focused nodes are 7 and 6, node 2 (a Focus node with 7 below it) is the one warned about, and the selected leaves are 9, 10 and 6 |
| Flag.IsUpperCase | go/flag.go:46-53 | true iff every rune lies in 'A'..'Z' (the empty word included) |
| Flag.ReadWords | go/flag.go:18-40 | the flag is decided by the last keyword, with a warning per unknown all-capital word and one when both keywords occur |
| Flag.ReadFlag | go/flag.go:11-43 | a non-string flag node panics; a string is read word by word |
| Flag.ReadNodeFlag | go/specimen/tree.go:269-305 | a nodule without `flag` has flag None; one with it reads like go/flag.go |
| Flag.LastFocusWins | go/flag.go:19-31 | the flag is Focus iff some FOCUS has no keyword after it |
| Flag.LastPendingWins | go/flag.go:19-31 | the flag is Skip iff some PENDING has no keyword after it |
| Flag.KeywordsPresent | go/flag.go:19-31 | a lone keyword decides the flag, and a decided flag names a keyword that occurs |
| Flag.NoKeywordNoFlag | go/flag.go:11-37 | a text with neither keyword reads as None |
| Flag.UnknownOnly | go/flag.go:32-35 | the unknown-word warnings are exactly the all-capital non-keywords |
| Flag.BothWarnedIff | go/flag.go:21-39 | the "both" warning is given iff both keywords occur, naming the kept one |
| Flag.DoubleSpaceWarns | go/flag.go:18-35 | two adjacent spaces give an empty word, which counts as all-capital and is warned about |
| NoduleTree.NewNoduleFromFile | go/specimen/nodule.go:22-45 | a parse error or a non-mapping root is an error; otherwise the initialized tree |
| NoduleTree.InitializeTree | go/specimen/nodule.go:48-76 | a non-mapping is an error; a PENDING nodule gets no children; otherwise one child per `content` item |
| NoduleTree.BuiltShape | go/specimen/nodule.go:48-76 | the built nodule keeps path and node; children are the `content` items in order unless PENDING |
| NoduleTree.BuiltPanicsIff | go/specimen/nodule.go:53-56 | initialization panics iff some reached mapping has a non-string flag |
| NoduleTree.CollectPanicsIff | go/specimen/nodule.go:65-72 | collecting the children panics iff one of them panics |
| NoduleTree.ItemTexts | go/specimen/nodule.go:92-95 | the text of every item, in order |
| NoduleTree.ApplyPair | go/specimen/nodule.go:86-101 | one pair: reserved keys skipped, a sequence or scalar set on the matrix, any other kind reported |
| NoduleTree.ApplyPairs | go/specimen/nodule.go:85-102 | the pairs applied in order, with the errors in order |
| NoduleTree.Populate | go/specimen/nodule.go:79-112 | the populated nodule and its errors, the caller's matrix left as it was |
| NoduleTree.PopulateChildren | go/specimen/nodule.go:105-107 | every child populated from the parent's final matrix |
| NoduleTree.AppliedValid | go/specimen/nodule.go:85-102 | populating keeps the matrix well formed |
| NoduleTree.AppliedUntouched | go/specimen/nodule.go:85-102 | a key no pair sets keeps its inherited presence and list |
| NoduleTree.ReservedNeverDeclared | go/specimen/nodule.go:87-89 | `flag`, `content` and `about` are never set |
| NoduleTree.AppliedLastWins | go/specimen/nodule.go:85-102 | the last pair that sets a key decides its list |
| NoduleTree.KindErrorsIff | go/specimen/nodule.go:99-101 | the errors name exactly the unreserved keys whose value is a mapping |
| NoduleTree.AppliedDeclaredLast | go/specimen/nodule.go:96-98 | keys the nodule sets come after the keys it only inherits |
| NoduleTree.ChildInherits | go/specimen/nodule.go:105-107 | a child sees every parent key it does not set, with the parent's list |
| NoduleTree.FilledValid | go/specimen/nodule.go:79-112 | populating from a well-formed matrix leaves every matrix of the tree well formed |
| Tree.InitializeFile | go/specimen/tree.go:75-96 | a parse error or a non-mapping root is an error; otherwise Initialize, whose error is dropped |
| Tree.Initialize | go/specimen/tree.go:100-152 | the nodule Initialize leaves, with its error |
| Tree.InitializeItems | go/specimen/tree.go:140-148 | the loop over `content` items: errored children dropped, none kept under PENDING |
| Tree.InitializedErrors | go/specimen/tree.go:100-139 | errors iff the node is not a mapping, has neither `content` nor `input`, or has a non-sequence `content`; the location is always set |
| Tree.KindAfterInitialize | go/specimen/tree.go:131-133 | the kind becomes "Node" iff it was "Slab" and `content` has an item |
| Tree.SkipKeepsNoChildren | go/specimen/tree.go:145-147 | a PENDING nodule keeps no new children |
| Tree.KeepPanicsIff | go/specimen/tree.go:140-148 | the items' loop panics iff an item does |
| Tree.KeptChildren | go/specimen/tree.go:140-148 | under a non-PENDING parent the kept children are exactly the items that initialize without error |
| Tree.KeepNoneIff | go/specimen/tree.go:140-148 | nothing is kept iff every item errors |
| Tree.KeptInOrder | go/specimen/tree.go:140-148 | kept children keep their item order |
| Tree.InitializedMappings | go/specimen/tree.go:100-152 | a nodule initialized without error stands on mappings throughout |
| Tree.MultiplySlice | go/specimen/tree.go:334-344 | the clones, nodule-major, each tagged with its value and index |
| Tree.RowsAt | go/specimen/tree.go:334-344 | |nodules|·|values| clones; position i·|values|+j holds nodule i with value j |
| Tree.RowsFrom | go/specimen/tree.go:334-344 | every clone is a nodule of the slice tagged with one of the values |
| TreePopulate.NilMatrixPanics | go/specimen/tree.go:190-192 | as written, inheriting into the nil matrix panics iff the inherited matrix is non-empty |
| TreePopulate.OneKeyMatrixPanics | go/specimen/tree.go:190-192 | as written, a one-key inherited matrix crashes the child |
| TreePopulate.InheritMatrix | go/specimen/tree.go:190-192 | corrected: every inherited entry is present with its list, and the keys are the own and inherited ones |
| TreePopulate.InheritMatrixAgrees | go/specimen/tree.go:190-192 | where the written code does not panic, it agrees with the corrected one |
| TreePopulate.ReadMatrix | go/specimen/tree.go:198-210 | the entries of a `matrix` mapping; a non-sequence value panics |
| TreePopulate.Populate | go/specimen/tree.go:153-260 | the populated nodule with its error, for the given key order, with the matrix inheritance of tree.go:190-192 corrected as under "## Findings" |
| TreePopulate.ExpandSlab | go/specimen/tree.go:222-237 | multiply along each key, then copy the slab input into every clone |
| TreePopulate.PopulateChildren | go/specimen/tree.go:243-252 | each child populated in turn; an erroring child dropped |
| TreePopulate.EarlyReturns | go/specimen/tree.go:160-170 | a PENDING nodule comes back untouched; an unregistered box name is an error |
| TreePopulate.LocalInputOverrides | go/specimen/tree.go:173-187 | own `input` entries win over inherited ones, which win over earlier ones |
| TreePopulate.LocalMatrixReplaces | go/specimen/tree.go:189-211 | an own `matrix` replaces the inherited one; without it every inherited entry is kept |
| TreePopulate.LeafErrors | go/specimen/tree.go:214-221 | a slab errors iff no box is in force, or else it has no `input` |
| TreePopulate.NoValidChildrenIff | go/specimen/tree.go:243-256 | a node errors "no valid children" iff every child errors |
| TreePopulate.ValidChildrenKept | go/specimen/tree.go:243-258 | a populated node keeps exactly the children that populate without error |
| TreePopulate.ExpandedCount | go/specimen/tree.go:226-231 | multiplying along the keys gives the product of their list lengths |
| TreePopulate.ExpandedBindings | go/specimen/tree.go:226-231 | each clone binds every key to one of its values, flag and matrix cleared |
| TreePopulate.ProductOfOrder | go/specimen/tree.go:229-231 | whatever order Go visits the keys in, the clone count is the product of all list lengths |
| TreePopulate.SlabExpansion | go/specimen/tree.go:222-238 | a slab with a non-empty matrix gets as many children as the product of its list lengths, each with the box, no matrix, and every matrix key bound to one of its values unless the slab input shadows it |
| TreePopulate.SlabCombinations | go/specimen/tree.go:222-238 | every choice of one value per matrix key has its own child, at its mixed-radix slot, binding each key to the chosen value, or to the slab input's value where that shadows the key |
| TreePopulate.ExpandedAt | go/specimen/tree.go:226-231 | multiplying along the keys puts, at the mixed-radix slot of a choice (the last key varying fastest), the clone that binds every key to its chosen value |
| TreePopulate.SlotInjective | go/specimen/tree.go:226-231 | two different choices have different slots, so no combination is produced twice |
| Context.Recovered | go/specimen/run.go:146-164 | the handler changes nothing after a normal return or when the tile is already Aborted; any other panic, `panic(nil)` included (recovered as a PanicNilError), makes the tile Panicked with one entry |
| Context.Expecting | go/testcontext.go:27-34 | no difference changes nothing; a difference fails the tile with one entry prefixed by the context |
| Context.S.constructor | go/specimen/run.go:23 | every counter zero, the tile pristine |
| Context.S.Fail | go/testcontext.go:10-15 | status Failed, a non-empty info appended; counters unchanged |
| Context.S.Abort | go/testcontext.go:18-24 | status Aborted, a non-empty info appended, then the nil panic |
| Context.S.ExpectEqual | go/testcontext.go:27-34 | as `Expecting`; counters unchanged |
| Context.S.RunBoxFunction | go/specimen/run.go:145-166 | the box's calls run until an Abort or panic, then the handler |
| Context.TileKeepsInfo | go/specimen/run.go:145-166 | entries saved before the box ran are kept |
| Context.TileAborted | go/specimen/run.go:145-166 | a tile ends Aborted iff its box called Abort |
| Context.TilePanicked | go/specimen/run.go:145-166 | a tile not already Aborted or Panicked ends Panicked iff its box panicked, with any value, `nil` included |
| Context.NilPanicPanics | go/specimen/run.go:146-162 | a box function that calls `panic(nil)` leaves a pristine tile Panicked, with one entry carrying the PanicNilError message |
| Context.TilePristine | go/specimen/run.go:145-166 | a tile ends Pristine iff it started Pristine and every call its box made was an ExpectEqual without differences; any panic, `nil` included, or Fail or Abort makes it non-Pristine |
| Context.FailsAccumulate | go/testcontext.go:10-15 | repeated Fail calls fail the tile and append every non-empty info in order |
| Context.AbortIsFinal | go/testcontext.go:18-24 | nothing after Abort runs |
| Run.RunTiles | go/specimen/run.go:67-113 | the counters and report after all tiles of a slab, in iteration order |
| Run.RunTile | go/specimen/run.go:74-110 | one tile, reset, run and accounted |
| Run.EndTile | go/specimen/run.go:81-110 | the tile counted under its status and reported unless it passed |
| Run.TallySum | go/specimen/run.go:82-92 | every tile counted under exactly one status |
| Run.ReportLength | go/specimen/run.go:94-110 | one report line per tile that did not pass |
| Run.ReportLines | go/specimen/run.go:94-112 | the report holds exactly the lines of the failing tiles, numbered within the slab |
| Run.RunSlabs | go/specimen/run.go:61-114 | every tile of every selected slab, or the panic of an empty list |
| Run.SlabsPanic | go/specimen/run.go:61-67 | a panic at one slab ends the run |
| Run.SlabsBalance | go/specimen/run.go:61-114 | over the whole run the tile count is the sum of the four counters and the report has a line per tile that did not pass |
| Run.LoadFiles | go/specimen/run.go:27-34 | the nodules of the files that load, a message per file that does not |
| Run.GatheredPanic | go/specimen/run.go:27-34 | a panic while loading a file ends the run |
| Run.GatheredDone | go/specimen/run.go:27-34 | loading goes through iff no file's outcome is a panic |
| Run.LoadsDone | go/specimen/run.go:27-34 | loading goes through iff no file's nodule panics |
| Run.GatheredExactly | go/specimen/run.go:27-34 | when loading goes through, the nodules and messages together number the files; a nodule is kept iff some file loads into it, and a message is printed iff some file fails to load with that path and reason |
| Run.PopulateAll | go/specimen/run.go:38-48 | the nodules that populate without error, in file order |
| Run.PassingIff | go/specimen/run.go:42-47 | a value is kept iff some attempt carries it with no error |
| Run.PopulatedKeeps | go/specimen/run.go:38-48 | a loaded nodule takes part iff it populates from its `filepath` matrix without error |
| Run.PopulatedValid | go/specimen/run.go:38-48 | every populated nodule has well-formed matrices |
| Run.Verdict | go/specimen/run.go:119-124 | FAILURE iff the report is non-empty |
| Run.FlagLine | go/specimen/run.go:126-135 | a flag line iff something is focused or pending |
| Run.Summarize | go/specimen/run.go:118-142 | the lines written after the tiles |
| Run.Select | go/specimen/run.go:55-56 | the leaves the focus tree selects, with the focus and pending counts |
| Run.RunSelected | go/specimen/run.go:23-114 | a fresh context, the selection, and the tiles |
| Run.IolessRun | go/specimen/run.go:22-143 | from the parsed files to what is written out |
| Run.RunVerdict | go/specimen/run.go:81-124 | the tile count is the sum of the four counters, the report has one line per tile that did not pass, and FAILURE iff one did not pass |
| Files.VirtualFile | go/specimen/file.go:19-24 | a file with the given path and content |
| Files.VirtualFileDedent | go/specimen/file.go:27-29 | a virtual file holding the dedented content |
| Files.DedentBuffer | go/specimen/file.go:34-98 | the buffer holds exactly the dedented text: leading newlines dropped, the margin cut from each line |
| Files.SkipLeadingNewlines | go/specimen/file.go:36-41 | a suffix after newlines only, starting with a non-newline when the text has one, and the whole text otherwise |
| Files.MarginPass | go/specimen/file.go:46-58 | the margin is the smallest indentation of a line with a byte other than a space |
| Files.SizePass | go/specimen/file.go:61-78 | the size is exactly the length of the dedented text |
| Files.CopyPass | go/specimen/file.go:81-95 | every write is in bounds and the buffer ends up holding the dedented text |
| Files.CopyStep | go/specimen/file.go:85-95 | one byte of the copy loop writes at most one byte, inside the buffer |
| Files.MarginIsLeast | go/specimen/file.go:46-58 | the margin is at most every such line's indentation, and equal to one of them when there is one |
| Files.MarginIsSpaces | go/specimen/file.go:81-95 | only spaces are cut: the margin bytes of every line are spaces |
| Files.DedentLines | go/specimen/file.go:81-95 | each output line is its input line minus the margin, and no line is lost |
| Files.DedentIsFlush | go/specimen/file.go:34-98 | when a line holds more than spaces, some output line starts with a byte other than a space |
| Files.FlushTextKept | go/specimen/file.go:34-98 | a text with a line starting with a byte other than a space only loses its leading newlines |
| Files.NewlinesOnlyKept | go/specimen/file.go:36-41 | a text of newlines only comes back unchanged |
| Novel.Turned | test/novel/novel.go:9-17 | the sum when in [0, Size); 0 when negative; Size-1 when at or past the end; always in [0, Size) for Size ≥ 1 |
| Novel.Book.TurnPage | test/novel/novel.go:9-17 | the left page becomes `Turned`; title and size unchanged |
| Novel.Book.GetPage | test/novel/novel.go:19-21 | the left page, reading only |
| Novel.TurnPageExample | test/novel/virtual_file_test.go:17-27 | left page 0, size 90, 4 leaves turned gives left page 8 |
| Novel.GetPageExample | test/novel/virtual_file_test.go:28-35 | a book at page 44 reads 44 |

## Left out

- YAML parsing (`yaml.Unmarshal`, `syaml.EnterDocument` and the `syaml` helpers) is not modelled. Each file comes with an abstract parsed document or a parse error, and scalars are kept as text (`ExtractContent` to text), so anchors, aliases, merge keys and `strconv` conversions are left out.
- `ReadLocalFile` reads the disk and is left out; files arrive as `File` values.
- Log output (`log.Printf`, populate errors, focus warnings) is not modelled as text; the warnings are returned as node lists and the flag warnings as values.
- Go's map iteration order is the `order` parameter of `TreePopulate.Populate`; every order is allowed and `ProductOfOrder` shows the count does not depend on it.
- `Tree.MultiplySlice`: `Clone` is a value copy. In Go, `Clone` copies `Input` but shares `Matrix` and the children slice.
- `OrderedStringMap.Odometer`: the closure snapshots the map at creation. Go reads `o.mapping` live, and nothing writes it while a run iterates. Go also returns the same `combination` map on every call and mutates it in place (go/specimen/orderedstringmap/orderedstringmap.go:94-122), so a tile kept from an earlier call changes; the model returns a fresh value per call and does not model that aliasing.
- `Context.S.ExpectEqual`: `deep.Equal` is a parameter. The model takes its list of differences as input.
- `Context.PanicInfo`: the stack trace is a parameter. `debug.Stack()` is not modelled.
- `Run.IolessRun`: the clock is a parameter (`millis`). `time.Now` is not modelled.
- `Context.S.RunBoxFunction`: a box function is a script of context calls. Box code that recovers from its own panics, or loops forever, is not modelled.
- `s.T.Fail()` is not modelled, because it only marks the Go test.
- go/file.go, go/run.go, go/nodule.go and go/structure.go duplicate the modelled files or are not used by `go/specimen/run.go`, and are not part of this model. The same goes for the JavaScript, Python and Rust ports.
- Unicode: runes are `char`, and `isUpperCase` compares code points, as Go does. No case folding is modelled.
- `Novel.Book.TurnPage`: the model's `int` is unbounded; Go's 64-bit overflow of `LeftPage + 2*count` is not modelled.
- `TreePopulate.Populate`: the nil-map panic of go/specimen/tree.go:190-192 is not reproduced inside it; it uses the corrected inheritance, and the written behaviour is modelled separately (see "## Findings").
- Initialize's error texts are not modelled verbatim. Each error case is a distinct error value.

## Findings

| source | as written | input that shows it | evidently intended | confidence | as-written member | corrected member |
|---|---|---|---|---|---|---|
| go/specimen/tree.go:190-192 | `Populate` writes every inherited matrix entry into `n.Matrix`, but `Initialize` never allocates that map, so writing into the nil map panics | a parent whose `matrix` has one key `k: [a]`, and one child slab without its own `matrix` | the child starts with an allocated (empty) matrix and inherits every entry | not executed | TreePopulate.OneKeyMatrixPanics | TreePopulate.InheritMatrixAgrees |
