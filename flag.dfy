/**
 * The FOCUS/PENDING flag grammar (go/flag.go, and the same loop in
 * go/specimen/tree.go): the flag text is split on single spaces, the last
 * FOCUS or PENDING word decides the flag, other all-capital words are
 * reported, and meeting both keywords is reported once at the end.
 */
module Flag {
  import opened Base
  import opened Yaml
  import FT = FocusTree

  const FocusWord: string := "FOCUS"
  const PendingWord: string := "PENDING"

  /** What isUpperCase promises: every rune lies in 'A'..'Z' (so the empty word qualifies). */
  predicate AllCapitals(s: string)
  {
    forall i :: 0 <= i < |s| ==> 'A' <= s[i] <= 'Z'
  }

  /** go/flag.go:46-53: scan the runes, stop at the first one outside 'A'..'Z'. */
  method IsUpperCase(s: string) returns (b: bool)
    ensures b <==> AllCapitals(s)
  {
    var i := 0;
    while i < |s|
      invariant i <= |s|
      invariant forall j :: 0 <= j < i ==> 'A' <= s[j] <= 'Z'
    {
      if s[i] < 'A' || 'Z' < s[i] {
        return false;
      }
      i := i + 1;
    }
    return true;
  }

  /** The two log lines readFlag may print. */
  datatype Warning = Unrecognised(word: string) | BothFound(kept: string)

  datatype FlagRead = FlagRead(flag: FT.FlagType, warnings: seq<Warning>)

  /** The flag chosen by the last FOCUS or PENDING among `words`; None when neither occurs. */
  function LastDecisive(words: seq<string>): FT.FlagType
  {
    if words == [] then FT.None
    else
      var w := words[|words| - 1];
      if w == FocusWord then FT.Focus
      else if w == PendingWord then FT.Skip
      else LastDecisive(words[..|words| - 1])
  }

  /** The keyword that produced a flag, as the "has been kept" warning names it. */
  function KeywordOf(flag: FT.FlagType): string
  {
    match flag
    case Focus => FocusWord
    case Skip => PendingWord
    case None => ""
  }

  /** One warning per all-capital word other than the two keywords, in word order. */
  function UnknownWarnings(words: seq<string>): seq<Warning>
  {
    if words == [] then []
    else
      var w := words[|words| - 1];
      UnknownWarnings(words[..|words| - 1])
        + (if w != FocusWord && w != PendingWord && AllCapitals(w) then [Unrecognised(w)] else [])
  }

  /** The result readFlag should give for a list of words. */
  function Expected(words: seq<string>): FlagRead
  {
    var flag := LastDecisive(words);
    var both := FocusWord in words && PendingWord in words;
    FlagRead(flag, UnknownWarnings(words) + (if both then [BothFound(KeywordOf(flag))] else []))
  }

  /** The words of a flag text, as strings.Split(text, " ") cuts them. */
  function Words(text: string): seq<string>
  {
    Split(text, ' ')
  }

  /** readFlag on a flag node: a panic unless the node is a `!!str` scalar. */
  function FlagOf(flagNode: Node): Outcome<FlagRead>
  {
    if IsString(flagNode) then Done(Expected(Words(flagNode.value))) else Panic("expected a string")
  }

  /** The word loop of go/flag.go:18-40 (identical to go/specimen/tree.go:280-302). */
  method ReadWords(words: seq<string>) returns (r: FlagRead)
    ensures r == Expected(words)
  {
    var flag := FT.None;
    var flagName := "";
    var both := false;
    var warnings: seq<Warning> := [];
    var i := 0;
    while i < |words|
      invariant i <= |words|
      invariant flag == LastDecisive(words[..i])
      invariant flagName == KeywordOf(flag)
      invariant both <==> FocusWord in words[..i] && PendingWord in words[..i]
      invariant warnings == UnknownWarnings(words[..i])
    {
      var word := words[i];
      assert words[..i + 1] == words[..i] + [word];
      assert words[..i + 1][..i] == words[..i];
      KeywordsPresent(words[..i]);
      if word == FocusWord {
        if flag == FT.Skip {
          both := true;
        }
        flag := FT.Focus;
        flagName := word;
      } else if word == PendingWord {
        if flag == FT.Focus {
          both := true;
        }
        flag := FT.Skip;
        flagName := word;
      } else {
        var upper := IsUpperCase(word);
        if upper {
          warnings := warnings + [Unrecognised(word)];
        }
      }
      i := i + 1;
    }
    assert words[..i] == words;
    if both {
      warnings := warnings + [BothFound(flagName)];
    }
    r := FlagRead(flag, warnings);
  }

  /** go/flag.go:11-43: assert the node is a string, then read its words. */
  method ReadFlag(flagNode: Node) returns (r: Outcome<FlagRead>)
    ensures r == FlagOf(flagNode)
  {
    if !IsString(flagNode) {
      return Panic("expected a string");
    }
    var read := ReadWords(Words(flagNode.value));
    r := Done(read);
  }

  /** tree.go's readFlag on a whole nodule mapping: the outcome it should have. */
  function NodeFlagOf(node: Node): Outcome<FlagRead>
  {
    if !node.Mapping? then Panic("expected a mapping node")
    else match MapTryGetValue(node, "flag")
      case None => Done(FlagRead(FT.None, []))
      case Some(flagNode) => FlagOf(flagNode)
  }

  /**
   * go/specimen/tree.go:269-305: assert a mapping, look up `flag`; a missing
   * key reads as None, a present one is read like go/flag.go does.
   */
  method ReadNodeFlag(node: Node) returns (r: Outcome<FlagRead>)
    ensures r == NodeFlagOf(node)
    ensures node.Mapping? && MapTryGetValue(node, "flag").None? ==> r == Done(FlagRead(FT.None, []))
  {
    if !node.Mapping? {
      return Panic("expected a mapping node");
    }
    var flagNode := MapTryGetValue(node, "flag");
    if flagNode.None? {
      return Done(FlagRead(FT.None, []));
    }
    r := ReadFlag(flagNode.value);
  }

  // ---- properties of the grammar

  /**
   * Which keywords a prefix holds, seen through its decided flag: a lone
   * keyword decides, and a decided flag names a keyword that occurs.
   */
  lemma {:induction false} KeywordsPresent(words: seq<string>)
    ensures LastDecisive(words) == FT.Focus ==> FocusWord in words
    ensures LastDecisive(words) == FT.Skip ==> PendingWord in words
    ensures FocusWord in words && PendingWord !in words ==> LastDecisive(words) == FT.Focus
    ensures PendingWord in words && FocusWord !in words ==> LastDecisive(words) == FT.Skip
    ensures FocusWord !in words && PendingWord !in words ==> LastDecisive(words) == FT.None
  {
    if words != [] {
      var init := words[..|words| - 1];
      assert words == init + [words[|words| - 1]];
      KeywordsPresent(init);
    }
  }

  /** A flag text naming neither keyword reads as None (go/flag.go:11,18-37). */
  lemma NoKeywordNoFlag(words: seq<string>)
    requires FocusWord !in words && PendingWord !in words
    ensures Expected(words).flag == FT.None
    ensures BothFound(KeywordOf(FT.Focus)) !in Expected(words).warnings
  {
    KeywordsPresent(words);
    UnknownOnly(words);
  }

  /** The last keyword wins: the flag is Focus exactly when some FOCUS has no keyword after it. */
  lemma {:induction false} LastFocusWins(words: seq<string>)
    ensures LastDecisive(words) == FT.Focus <==>
      exists i :: 0 <= i < |words| && words[i] == FocusWord && NoKeywordAfter(words, i)
  {
    if words != [] {
      var n := |words| - 1;
      var init := words[..n];
      LastFocusWins(init);
      if words[n] == FocusWord {
        assert NoKeywordAfter(words, n);
      } else if words[n] == PendingWord {
        forall i | 0 <= i < n ensures !NoKeywordAfter(words, i) {
          assert i < n < |words|;
        }
      } else {
        forall i | 0 <= i < n
          ensures NoKeywordAfter(words, i) <==> NoKeywordAfter(init, i)
        {
          assert forall j :: i < j < n ==> init[j] == words[j];
        }
      }
    }
  }

  /** The same for PENDING: the flag is Skip exactly when some PENDING has no keyword after it. */
  lemma {:induction false} LastPendingWins(words: seq<string>)
    ensures LastDecisive(words) == FT.Skip <==>
      exists i :: 0 <= i < |words| && words[i] == PendingWord && NoKeywordAfter(words, i)
  {
    if words != [] {
      var n := |words| - 1;
      var init := words[..n];
      LastPendingWins(init);
      if words[n] == PendingWord {
        assert NoKeywordAfter(words, n);
      } else if words[n] == FocusWord {
        forall i | 0 <= i < n ensures !NoKeywordAfter(words, i) {
          assert i < n < |words|;
        }
      } else {
        forall i | 0 <= i < n
          ensures NoKeywordAfter(words, i) <==> NoKeywordAfter(init, i)
        {
          assert forall j :: i < j < n ==> init[j] == words[j];
        }
      }
    }
  }

  /** No FOCUS and no PENDING strictly after position `i`. */
  predicate NoKeywordAfter(words: seq<string>, i: nat)
  {
    forall j :: i < j < |words| ==> words[j] != FocusWord && words[j] != PendingWord
  }

  /** The unknown-word warnings are exactly the all-capital non-keyword words, and none is a "both" warning. */
  lemma {:induction false} UnknownOnly(words: seq<string>)
    ensures forall w :: Unrecognised(w) in UnknownWarnings(words) <==>
      w in words && w != FocusWord && w != PendingWord && AllCapitals(w)
    ensures forall k :: BothFound(k) !in UnknownWarnings(words)
  {
    if words != [] {
      var init := words[..|words| - 1];
      assert words == init + [words[|words| - 1]];
      UnknownOnly(init);
    }
  }

  /** The "both" warning is given exactly when both keywords occur, once, naming the kept keyword. */
  lemma BothWarnedIff(words: seq<string>)
    ensures (exists k :: BothFound(k) in Expected(words).warnings) <==> FocusWord in words && PendingWord in words
    ensures FocusWord in words && PendingWord in words ==>
      Expected(words).warnings != [] &&
      Expected(words).warnings[|Expected(words).warnings| - 1] == BothFound(KeywordOf(Expected(words).flag))
  {
    UnknownOnly(words);
  }

  /**
   * strings.Split cuts an empty word out of two adjacent spaces, and
   * isUpperCase holds of it, so such a flag text warns about the word "".
   */
  lemma DoubleSpaceWarns(a: string, b: string)
    requires ' ' !in b
    ensures "" in Words(a + "  " + b)
    ensures Unrecognised("") in Expected(Words(a + "  " + b)).warnings
  {
    assert a + "  " + b == (a + [' ']) + [' '] + b;
    SplitAppend(a + [' '], b, ' ');
    var empty: string := [];
    assert a + [' '] == a + [' '] + empty;
    SplitAppend(a, empty, ' ');
    var ws := Words(a + "  " + b);
    assert ws[|ws| - 2] == "";
    UnknownOnly(ws);
  }
}
