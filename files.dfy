/**
 * go/specimen/file.go: a test-data file, possibly built in memory from an
 * indented literal, and `dedent`, which strips the common indentation of
 * such a literal into an exactly sized buffer.
 */
module Files {
  import opened Base

  type byte = x: int | 0 <= x < 256

  const NL: byte := 10
  const SP: byte := 32

  /** `File`: a path and the raw bytes of the file. */
  datatype File = File(path: string, content: seq<byte>)

  /** `fmt.Sprintf("%s:%d:%d", path, line, column)`: a clickable position in a file. */
  function LocationString(path: string, line: nat, column: nat): string
  {
    path + ":" + NatToString(line) + ":" + NatToString(column)
  }

  /** `VirtualFile`: a file that exists only in memory, under an imaginary path. */
  function VirtualFile(path: string, content: seq<byte>): (f: File)
    ensures f.path == path && f.content == content
  {
    File(path, content)
  }

  /** `VirtualFileDedent`: a virtual file whose content is dedented first. */
  method VirtualFileDedent(path: string, content: seq<byte>) returns (f: File)
    ensures f == VirtualFile(path, Dedent(content))
  {
    var output := DedentBuffer(content);
    f := VirtualFile(path, output[..]);
  }

  // ---------------------------------------------------------------------
  // The specification of dedent, line by line

  /** The lines of a text, cut at every newline byte. */
  function Lines(t: seq<byte>): (ls: seq<seq<byte>>)
    ensures |ls| >= 1
  {
    if t == [] then [[]]
    else
      var ls := Lines(t[..|t| - 1]);
      var c := t[|t| - 1];
      if c == NL then ls + [[]] else ls[..|ls| - 1] + [ls[|ls| - 1] + [c]]
  }

  /** The lines are what `strings.Split(t, "\n")` cuts. */
  lemma {:induction false} LinesAreSplit(t: seq<byte>)
    ensures Lines(t) == Split(t, NL)
  {
    if t != [] {
      LinesAreSplit(t[..|t| - 1]);
    }
  }

  /** A line made of spaces only (the empty line included); a tab is not a space. */
  predicate Blank(line: seq<byte>)
  {
    forall j :: 0 <= j < |line| ==> line[j] == SP
  }

  /** The number of spaces a line starts with. */
  function Indent(line: seq<byte>): (n: nat)
    ensures n <= |line|
    ensures forall j :: 0 <= j < n ==> line[j] == SP
    ensures n == |line| || line[n] != SP
  {
    if line == [] then 0
    else
      var p := line[..|line| - 1];
      var n := Indent(p);
      if n == |p| && line[|line| - 1] == SP then n + 1 else n
  }

  /** The index of the first byte that is not a newline, or `|t|` when there is none. */
  function ContentStart(t: seq<byte>): (k: nat)
    ensures k <= |t|
    ensures forall j :: 0 <= j < k ==> t[j] == NL
    ensures k == |t| || t[k] != NL
  {
    if t == [] || t[0] != NL then 0 else 1 + ContentStart(t[1..])
  }

  /**
   * Step one: the text without its leading newlines -- except a text of
   * newlines only, which the loop never cuts and so stays as it is.
   */
  function SkipLeadingNewlines(t: seq<byte>): (r: seq<byte>)
    ensures |r| <= |t| && r == t[|t| - |r|..]
    ensures forall j :: 0 <= j < |t| - |r| ==> t[j] == NL
    ensures (exists j :: 0 <= j < |t| && t[j] != NL) ==> r != [] && r[0] != NL
    ensures (forall j :: 0 <= j < |t| ==> t[j] == NL) ==> r == t
  {
    var k := ContentStart(t);
    if k < |t| then t[k..] else t
  }

  /** The smaller of two numbers. */
  function Min(a: nat, b: nat): nat
  {
    if a < b then a else b
  }

  /**
   * Step two: the smallest indentation among the lines that hold a byte
   * other than a space, and `cap` when it is smaller or there is no such line.
   */
  function Margin(lines: seq<seq<byte>>, cap: nat): nat
  {
    if lines == [] then cap
    else
      var m := Margin(lines[..|lines| - 1], cap);
      var last := lines[|lines| - 1];
      if Blank(last) then m else Min(m, Indent(last))
  }

  /** The margin dedent removes from a text that has lost its leading newlines. */
  function MarginOf(t: seq<byte>): nat
  {
    Margin(Lines(t), |t|)
  }

  /** A line without its first `margin` bytes (nothing left when it is not longer). */
  function Drop(line: seq<byte>, margin: nat): seq<byte>
  {
    if |line| > margin then line[margin..] else []
  }

  /** Every line without its first `margin` bytes. */
  function Shifted(lines: seq<seq<byte>>, margin: nat): seq<seq<byte>>
  {
    seq(|lines|, i requires 0 <= i < |lines| => Drop(lines[i], margin))
  }

  /** A text with `margin` bytes cut from the front of each of its lines. */
  function Out(t: seq<byte>, margin: nat): seq<byte>
  {
    Join(Shifted(Lines(t), margin), [NL])
  }

  /** `dedent`: leading newlines dropped, then the common margin cut from every line. */
  function Dedent(text: seq<byte>): seq<byte>
  {
    var t := SkipLeadingNewlines(text);
    Out(t, MarginOf(t))
  }

  /** The bytes the complete lines take in the output: what is left of each, plus its newline. */
  function Width(lines: seq<seq<byte>>, margin: nat): nat
  {
    if lines == [] then 0
    else Width(lines[..|lines| - 1], margin) + |Drop(lines[|lines| - 1], margin)| + 1
  }

  /** The last line of a text, the one not (yet) ended by a newline. */
  function LastLine(t: seq<byte>): seq<byte>
  {
    Lines(t)[|Lines(t)| - 1]
  }

  // ---------------------------------------------------------------------
  // The imperative dedent

  /**
   * `dedent`: the four passes of the Go function over the text, writing
   * into a buffer whose size the third pass computes exactly.
   */
  method DedentBuffer(text: seq<byte>) returns (output: array<byte>)
    ensures output[..] == Dedent(text)
  {
    // step one: remove leading newlines
    var t := text;
    var k := 0;
    while k < |text|
      invariant k <= |text|
      invariant forall j :: 0 <= j < k ==> text[j] == NL
      invariant t == text
    {
      if text[k] != NL {
        t := text[k..];
        break;
      }
      k := k + 1;
    }
    assert k == ContentStart(text);
    assert t == SkipLeadingNewlines(text);

    var margin := MarginPass(t);
    var size := SizePass(t, margin);
    output := new byte[size];
    CopyPass(t, margin, output);
  }

  /** Step two: the margin, from the spaces counted since the start of the line. */
  method MarginPass(t: seq<byte>) returns (margin: nat)
    ensures margin == MarginOf(t)
  {
    margin := |t|;
    var current := 0;
    var k := 0;
    assert t[..0] == [];
    while k < |t|
      invariant k <= |t|
      invariant MarginScanned(t, k, margin, current)
    {
      MarginStep(t, k, margin, current);
      var c := t[k];
      if c == NL {
        current := 0;
      } else if c == SP {
        current := current + 1;
      } else {
        if current < margin {
          margin := current;
        }
      }
      k := k + 1;
    }
    assert t[..k] == t;
  }

  /** Step three: the exact size of the output. */
  method SizePass(t: seq<byte>, margin: nat) returns (size: nat)
    ensures size == |Out(t, margin)|
  {
    size := 0;
    var lineStart := 0;
    var k := 0;
    assert t[..0] == [];
    while k < |t|
      invariant k <= |t|
      invariant SizeScanned(t, k, margin, lineStart, size)
    {
      lineStart, size := SizeByteStep(t, k, margin, lineStart, size);
      k := k + 1;
    }
    SizeEnd(t, margin, lineStart, size);
    var lineLength := |t| - lineStart;
    if lineLength > margin {
      size := size + lineLength - margin;
    }
  }

  /** The body of the size pass: a newline ends a line and adds its size. */
  method SizeByteStep(t: seq<byte>, k: nat, margin: nat, lineStart: int, size: nat)
      returns (lineStart': int, size': nat)
    requires k < |t| && SizeScanned(t, k, margin, lineStart, size)
    ensures SizeScanned(t, k + 1, margin, lineStart', size')
  {
    lineStart', size' := lineStart, size;
    if t[k] == NL {
      SizeNewline(t, k, margin, lineStart, size);
      var lineLength := k - lineStart;
      if lineLength > margin {
        size' := size + lineLength - margin + 1;
      } else {
        size' := size + 1;
      }
      assert size' == size + LineSize(lineLength, margin);
      lineStart' := k + 1;
    } else {
      SizeByte(t, k, margin, lineStart, size);
    }
  }

  /** Step four: copy every byte that lies past the margin of its line. */
  method CopyPass(t: seq<byte>, margin: nat, output: array<byte>)
    requires output.Length == |Out(t, margin)|
    modifies output
    ensures output[..] == Out(t, margin)
  {
    var lineStart := 0;
    var m := 0;
    var k := 0;
    assert t[..0] == [];
    while k < |t|
      invariant k <= |t|
      invariant Copied(t, k, margin, lineStart, m, output.Length)
      invariant output[..m] == Out(t[..k], margin)
    {
      CopyStep(t, k, margin, lineStart, m, output.Length);
      ghost var before := output[..m];
      var c := t[k];
      if c == NL {
        output[m] := c;
        m := m + 1;
        lineStart := k + 1;
      }
      if k + 1 - lineStart > margin {
        output[m] := c;
        m := m + 1;
      }
      assert output[..m] == before + Emitted(t, k, margin, lineStart);
      k := k + 1;
    }
    assert t[..k] == t;
  }

  // ---------------------------------------------------------------------
  // Step lemmas for the passes

  /** What the margin pass knows after `k` bytes. */
  ghost predicate MarginScanned(t: seq<byte>, k: nat, margin: nat, current: nat)
    requires k <= |t|
  {
    var p := LastLine(t[..k]);
    && margin == Margin(Lines(t[..k]), |t|)
    && current >= Indent(p)
    && (Blank(p) ==> current == |p|)
  }

  /** The margin pass keeps its invariant over one byte. */
  lemma MarginStep(t: seq<byte>, k: nat, margin: nat, current: nat)
    requires k < |t| && MarginScanned(t, k, margin, current)
    ensures var c := t[k];
      MarginScanned(t, k + 1,
        if c != NL && c != SP && current < margin then current else margin,
        if c == NL then 0 else if c == SP then current + 1 else current)
  {
    var c := t[k];
    var ls := Lines(t[..k]);
    var p := ls[|ls| - 1];
    var init := ls[..|ls| - 1];
    assert t[..k + 1] == t[..k] + [c];
    LinesStep(t[..k], c);
    IndentStep(p, c);
    BlankIndent(p);
    if c == NL {
      assert (ls + [[]])[..|ls|] == ls;
    } else {
      var ls' := init + [p + [c]];
      assert ls'[..|ls'| - 1] == init;
    }
  }

  /** What the size pass knows after `k` bytes: the size of the complete lines. */
  ghost predicate SizeScanned(t: seq<byte>, k: nat, margin: nat, lineStart: int, size: nat)
    requires k <= |t|
  {
    var ls := Lines(t[..k]);
    && lineStart == k - |ls[|ls| - 1]|
    && size == Width(ls[..|ls| - 1], margin)
  }

  /** The bytes a line ended by a newline takes in the output. */
  function LineSize(length: nat, margin: nat): nat
  {
    if length > margin then length - margin + 1 else 1
  }

  /** Over a newline the size pass adds the size of the line it ends. */
  lemma SizeNewline(t: seq<byte>, k: nat, margin: nat, lineStart: int, size: nat)
    requires k < |t| && t[k] == NL && SizeScanned(t, k, margin, lineStart, size)
    ensures k - lineStart >= 0
    ensures SizeScanned(t, k + 1, margin, k + 1, size + LineSize(k - lineStart, margin))
  {
    var ls := Lines(t[..k]);
    assert t[..k + 1] == t[..k] + [NL];
    assert t[..k + 1][..k] == t[..k];
    var ls' := ls + [[]];
    assert ls'[..|ls'| - 1] == ls;
  }

  /** Over any other byte the size pass changes nothing. */
  lemma SizeByte(t: seq<byte>, k: nat, margin: nat, lineStart: int, size: nat)
    requires k < |t| && t[k] != NL && SizeScanned(t, k, margin, lineStart, size)
    ensures SizeScanned(t, k + 1, margin, lineStart, size)
  {
    var ls := Lines(t[..k]);
    var init := ls[..|ls| - 1];
    assert t[..k + 1] == t[..k] + [t[k]];
    assert t[..k + 1][..k] == t[..k];
    var ls' := init + [ls[|ls| - 1] + [t[k]]];
    assert ls'[..|ls'| - 1] == init;
  }

  /** After the last byte, the size pass adds what is left of the last line. */
  lemma SizeEnd(t: seq<byte>, margin: nat, lineStart: int, size: nat)
    requires SizeScanned(t, |t|, margin, lineStart, size)
    ensures 0 <= |t| - lineStart
    ensures size + (if |t| - lineStart > margin then |t| - lineStart - margin else 0) == |Out(t, margin)|
  {
    assert t[..|t|] == t;
    OutLength(Lines(t), margin);
  }

  /** What the copy pass knows after `k` bytes, besides the bytes it wrote. */
  ghost predicate Copied(t: seq<byte>, k: nat, margin: nat, lineStart: int, m: nat, length: nat)
    requires k <= |t|
  {
    && lineStart == k - |LastLine(t[..k])|
    && m == |Out(t[..k], margin)| <= length
    && length == |Out(t, margin)|
  }

  /** The bytes the copy pass writes for byte `k`, given where its line starts. */
  function Emitted(t: seq<byte>, k: nat, margin: nat, lineStart: int): seq<byte>
    requires k < |t|
  {
    if t[k] == NL then [NL] else if k + 1 - lineStart > margin then [t[k]] else []
  }

  /** The copy pass keeps its invariant over one byte, and writes inside the buffer. */
  lemma CopyStep(t: seq<byte>, k: nat, margin: nat, lineStart: int, m: nat, length: nat)
    requires k < |t| && Copied(t, k, margin, lineStart, m, length)
    ensures var e := Emitted(t, k, margin, lineStart);
      && m + |e| <= length
      && Out(t[..k + 1], margin) == Out(t[..k], margin) + e
      && Copied(t, k + 1, margin, if t[k] == NL then k + 1 else lineStart, m + |e|, length)
  {
    assert t[..k + 1] == t[..k] + [t[k]];
    OutStep(t[..k], t[k], margin);
    OutGrows(t, k + 1, margin);
  }

  /** Appending a byte either opens a new line or extends the last one. */
  lemma LinesStep(t: seq<byte>, c: byte)
    ensures var ls := Lines(t);
      Lines(t + [c]) == if c == NL then ls + [[]] else ls[..|ls| - 1] + [ls[|ls| - 1] + [c]]
  {
    assert (t + [c])[..|t + [c]| - 1] == t;
  }

  /** A line is blank exactly when its indentation is its whole length. */
  lemma BlankIndent(p: seq<byte>)
    ensures Blank(p) <==> Indent(p) == |p|
  {
  }

  /** Indentation and blankness of a line that grows by one byte. */
  lemma IndentStep(p: seq<byte>, c: byte)
    ensures Blank(p + [c]) <==> Blank(p) && c == SP
    ensures Indent(p + [c]) == if Blank(p) then (if c == SP then |p| + 1 else |p|) else Indent(p)
  {
    assert (p + [c])[..|p + [c]| - 1] == p;
    BlankIndent(p);
    if !Blank(p) {
      var j :| 0 <= j < |p| && p[j] != SP;
      assert (p + [c])[j] != SP;
    }
  }

  /** The output of a text is its complete lines, each with a newline, then its last line. */
  lemma {:induction false} OutLength(lines: seq<seq<byte>>, margin: nat)
    requires |lines| >= 1
    ensures |Join(Shifted(lines, margin), [NL])|
         == Width(lines[..|lines| - 1], margin) + |Drop(lines[|lines| - 1], margin)|
  {
    var n := |lines|;
    var init := lines[..n - 1];
    if n > 1 {
      OutLength(init, margin);
      assert Shifted(lines, margin)[..n - 1] == Shifted(init, margin);
      assert init[..n - 2] == lines[..n - 2];
    }
  }

  /** Joining after the last part grew by one byte grows the result by that byte. */
  lemma JoinGrowLast(parts: seq<seq<byte>>, x: seq<byte>, c: byte)
    ensures Join(parts + [x + [c]], [NL]) == Join(parts + [x], [NL]) + [c]
  {
    var a := parts + [x + [c]];
    var b := parts + [x];
    assert a[..|a| - 1] == parts == b[..|b| - 1];
  }

  /** Shifting a list with one more line shifts that line too. */
  lemma ShiftedSnoc(lines: seq<seq<byte>>, x: seq<byte>, margin: nat)
    ensures Shifted(lines + [x], margin) == Shifted(lines, margin) + [Drop(x, margin)]
  {
  }

  /** A newline byte adds a newline to the output and starts an empty last line. */
  lemma OutNewline(t: seq<byte>, margin: nat)
    ensures Out(t + [NL], margin) == Out(t, margin) + [NL]
    ensures LastLine(t + [NL]) == []
  {
    var ls := Lines(t);
    assert (t + [NL])[..|t|] == t;
    assert Lines(t + [NL]) == ls + [[]];
    ShiftedSnoc(ls, [], margin);
    var a := Shifted(ls, margin) + [[]];
    assert a[..|a| - 1] == Shifted(ls, margin);
  }

  /** Any other byte grows the last line, and the output when it lies past the margin. */
  lemma OutByte(t: seq<byte>, c: byte, margin: nat)
    requires c != NL
    ensures Out(t + [c], margin) == Out(t, margin) + (if |LastLine(t)| + 1 > margin then [c] else [])
    ensures LastLine(t + [c]) == LastLine(t) + [c]
  {
    var ls := Lines(t);
    var n := |ls|;
    var p := ls[n - 1];
    assert (t + [c])[..|t|] == t;
    assert Lines(t + [c]) == ls[..n - 1] + [p + [c]];
    assert ls == ls[..n - 1] + [p];
    ShiftedSnoc(ls[..n - 1], p + [c], margin);
    ShiftedSnoc(ls[..n - 1], p, margin);
    var init := Shifted(ls[..n - 1], margin);
    if |p| + 1 > margin {
      assert Drop(p + [c], margin) == Drop(p, margin) + [c];
      JoinGrowLast(init, Drop(p, margin), c);
    } else {
      assert Drop(p + [c], margin) == Drop(p, margin);
    }
  }

  /** One more byte of text adds at most that byte, or a newline, to the output. */
  lemma OutStep(t: seq<byte>, c: byte, margin: nat)
    ensures Out(t + [c], margin) == Out(t, margin) +
      (if c == NL then [NL] else if |LastLine(t)| + 1 > margin then [c] else [])
    ensures LastLine(t + [c]) == if c == NL then [] else LastLine(t) + [c]
  {
    if c == NL {
      OutNewline(t, margin);
    } else {
      OutByte(t, c, margin);
    }
  }

  /** The output of a prefix is no longer than the output of the whole text. */
  lemma {:induction false} OutGrows(t: seq<byte>, k: nat, margin: nat)
    requires k <= |t|
    ensures |Out(t[..k], margin)| <= |Out(t, margin)|
    decreases |t| - k
  {
    if k < |t| {
      OutStep(t[..k], t[k], margin);
      assert t[..k + 1] == t[..k] + [t[k]];
      OutGrows(t, k + 1, margin);
    } else {
      assert t[..k] == t;
    }
  }

  // ---------------------------------------------------------------------
  // What dedent promises

  /**
   * The margin is the smallest indentation of a line that holds something
   * other than spaces, and the cap when no line does.
   */
  lemma {:induction false} MarginIsLeast(lines: seq<seq<byte>>, cap: nat)
    ensures Margin(lines, cap) <= cap
    ensures forall i :: 0 <= i < |lines| && !Blank(lines[i]) ==> Margin(lines, cap) <= Indent(lines[i])
    ensures Margin(lines, cap) == cap
         || exists i :: 0 <= i < |lines| && !Blank(lines[i]) && Margin(lines, cap) == Indent(lines[i])
  {
    if lines != [] {
      var n := |lines|;
      var init := lines[..n - 1];
      MarginIsLeast(init, cap);
      var m := Margin(init, cap);
      forall i | 0 <= i < n && !Blank(lines[i])
        ensures Margin(lines, cap) <= Indent(lines[i])
      {
        if i < n - 1 { assert lines[i] == init[i]; }
      }
      if Margin(lines, cap) != cap && Margin(lines, cap) == m {
        var i :| 0 <= i < |init| && !Blank(init[i]) && m == Indent(init[i]);
        assert lines[i] == init[i];
      }
    }
  }

  /** Dedenting keeps the lines: each output line is its input line minus the margin. */
  lemma DedentLines(text: seq<byte>)
    ensures var t := SkipLeadingNewlines(text);
      Lines(Dedent(text)) == Shifted(Lines(t), MarginOf(t))
  {
    var t := SkipLeadingNewlines(text);
    var ps := Shifted(Lines(t), MarginOf(t));
    LinesAreSplit(t);
    forall i | 0 <= i < |ps|
      ensures NL !in ps[i]
    {
      assert NL !in Lines(t)[i];
    }
    SplitJoin(ps, NL);
    LinesAreSplit(Dedent(text));
  }

  /** Only spaces are cut: the margin bytes of every line are spaces. */
  lemma MarginIsSpaces(text: seq<byte>)
    ensures var t := SkipLeadingNewlines(text);
      forall i, j :: 0 <= i < |Lines(t)| && 0 <= j < |Lines(t)[i]| && j < MarginOf(t) ==> Lines(t)[i][j] == SP
  {
    var t := SkipLeadingNewlines(text);
    MarginIsLeast(Lines(t), |t|);
  }

  /**
   * Nothing more could be cut: when some line holds more than spaces, some
   * line of the output starts with a byte that is not a space.
   */
  lemma DedentIsFlush(text: seq<byte>)
    requires var t := SkipLeadingNewlines(text);
      exists i :: 0 <= i < |Lines(t)| && !Blank(Lines(t)[i])
    ensures exists i :: 0 <= i < |Lines(Dedent(text))| && Lines(Dedent(text))[i] != []
                     && Lines(Dedent(text))[i][0] != SP
  {
    var t := SkipLeadingNewlines(text);
    var ls := Lines(t);
    var margin := MarginOf(t);
    MarginIsLeast(ls, |t|);
    DedentLines(text);
    var i :| 0 <= i < |ls| && !Blank(ls[i]);
    LineBound(t, i);
    BlankIndent(ls[i]);
    var w :| 0 <= w < |ls| && !Blank(ls[w]) && margin == Indent(ls[w]);
    BlankIndent(ls[w]);
    assert Lines(Dedent(text))[w] == ls[w][margin..];
  }

  /** No line is longer than its text. */
  lemma LineBound(t: seq<byte>, i: nat)
    requires i < |Lines(t)|
    ensures |Lines(t)[i]| <= |t|
  {
    LinesAreSplit(t);
    JoinLength(Lines(t), i);
  }

  /** A part of a join is no longer than the join. */
  lemma {:induction false} JoinLength(parts: seq<seq<byte>>, i: nat)
    requires i < |parts|
    ensures |parts[i]| <= |Join(parts, [NL])|
  {
    var n := |parts|;
    if n > 1 && i < n - 1 {
      JoinLength(parts[..n - 1], i);
    }
  }

  /** With a zero margin the text comes back unchanged. */
  lemma ZeroMarginKeeps(t: seq<byte>)
    ensures Out(t, 0) == t
  {
    var ls := Lines(t);
    LinesAreSplit(t);
    assert Shifted(ls, 0) == ls;
  }

  /**
   * A text that already has a line starting with a byte other than a space
   * only loses its leading newlines.
   */
  lemma FlushTextKept(text: seq<byte>)
    requires var t := SkipLeadingNewlines(text);
      exists i :: 0 <= i < |Lines(t)| && !Blank(Lines(t)[i]) && Indent(Lines(t)[i]) == 0
    ensures Dedent(text) == SkipLeadingNewlines(text)
  {
    var t := SkipLeadingNewlines(text);
    MarginIsLeast(Lines(t), |t|);
    ZeroMarginKeeps(t);
  }

  /** A text of newlines only is split into empty lines, one more than its newlines. */
  lemma {:induction false} NewlineLines(t: seq<byte>)
    requires forall j :: 0 <= j < |t| ==> t[j] == NL
    ensures forall i :: 0 <= i < |Lines(t)| ==> Lines(t)[i] == []
  {
    if t != [] {
      NewlineLines(t[..|t| - 1]);
    }
  }

  /** A text of newlines only is left as it is: step one never cuts it. */
  lemma NewlinesOnlyKept(text: seq<byte>)
    requires forall j :: 0 <= j < |text| ==> text[j] == NL
    ensures Dedent(text) == text
  {
    var ls := Lines(text);
    NewlineLines(text);
    assert Shifted(ls, MarginOf(text)) == ls;
    LinesAreSplit(text);
  }
}
