/**
 * Small shared vocabulary: an optional value, and splitting, joining and
 * printing of sequences as Go's `strings` and `fmt` packages do it.
 */
module Base {

  datatype Option<+T> = None | Some(value: T)

  /** A Go call that either returns a value or panics with a message. */
  datatype Outcome<+T> = Done(value: T) | Panic(message: string)

  /** Go's `strings.Join(parts, sep)`: the parts with `sep` between neighbours. */
  function Join<T>(parts: seq<seq<T>>, sep: seq<T>): seq<T>
  {
    if |parts| == 0 then []
    else if |parts| == 1 then parts[0]
    else Join(parts[..|parts| - 1], sep) + sep + parts[|parts| - 1]
  }

  /**
   * Go's `strings.Split(s, sep)` for a one-element separator: the maximal
   * runs between separators, so there is always at least one part and two
   * adjacent separators give an empty part.
   */
  function Split<T(==)>(s: seq<T>, sep: T): (parts: seq<seq<T>>)
    ensures |parts| >= 1
    ensures forall i :: 0 <= i < |parts| ==> sep !in parts[i]
    ensures Join(parts, [sep]) == s
  {
    if s == [] then [[]]
    else
      var p := Split(s[..|s| - 1], sep);
      var c := s[|s| - 1];
      assert s == s[..|s| - 1] + [c];
      if c == sep then p + [[]]
      else
        var n := |p|;
        var q := p[..n - 1] + [p[n - 1] + [c]];
        assert q[..n - 1] == p[..n - 1];
        q
  }

  /** Splitting a joined list gives the list back when no part holds the separator. */
  lemma {:induction false} SplitJoin<T>(parts: seq<seq<T>>, sep: T)
    requires |parts| >= 1
    requires forall i :: 0 <= i < |parts| ==> sep !in parts[i]
    ensures Split(Join(parts, [sep]), sep) == parts
  {
    var n := |parts|;
    if n == 1 {
      SplitNoSep(parts[0], sep);
    } else {
      var init := parts[..n - 1];
      SplitJoin(init, sep);
      SplitAppend(Join(init, [sep]), parts[n - 1], sep);
      assert init + [parts[n - 1]] == parts;
    }
  }

  /** A sequence without the separator splits into itself alone. */
  lemma {:induction false} SplitNoSep<T>(s: seq<T>, sep: T)
    requires sep !in s
    ensures Split(s, sep) == [s]
  {
    if s != [] {
      SplitNoSep(s[..|s| - 1], sep);
      assert s[..|s| - 1] + [s[|s| - 1]] == s;
    }
  }

  /** Appending a separator and a separator-free tail adds exactly one part. */
  lemma {:induction false} SplitAppend<T>(s: seq<T>, tail: seq<T>, sep: T)
    requires sep !in tail
    ensures Split(s + [sep] + tail, sep) == Split(s, sep) + [tail]
    decreases |tail|
  {
    if tail == [] {
      assert s + [sep] + tail == s + [sep];
      assert (s + [sep])[..|s + [sep]| - 1] == s;
    } else {
      var t := s + [sep] + tail;
      var init := tail[..|tail| - 1];
      assert t[..|t| - 1] == s + [sep] + init;
      SplitAppend(s, init, sep);
      assert init + [tail[|tail| - 1]] == tail;
    }
  }

  /** Go's `fmt.Sprintf("%d", n)` for a natural number: its decimal digits. */
  function NatToString(n: nat): (r: string)
    ensures |r| >= 1
    ensures forall i :: 0 <= i < |r| ==> '0' <= r[i] <= '9'
  {
    var d := ['0' + (n % 10) as char];
    if n < 10 then d else NatToString(n / 10) + d
  }
}
