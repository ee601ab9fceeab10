/**
 * The ordered multi-map of go/specimen/orderedstringmap/orderedstringmap.go:
 * keys in insertion order, each mapped to a list of candidate values, where
 * setting an existing key moves it to the end. The closure returned by
 * `ProductIterator` is modelled by the class `Odometer`.
 */
module OrderedStringMap {
  import opened Base
  import opened MixedRadix

  /** No key occurs twice. */
  predicate NoDup(s: seq<string>)
  {
    forall i, j :: 0 <= i < j < |s| ==> s[i] != s[j]
  }

  lemma NoDupIndex(s: seq<string>, i: nat, j: nat)
    requires NoDup(s) && i < |s| && j < |s|
    ensures s[i] == s[j] <==> i == j
  {
    if i < j {
      assert s[i] != s[j];
    } else if j < i {
      assert s[j] != s[i];
    }
  }

  function Reverse(s: seq<string>): (r: seq<string>)
    ensures |r| == |s| && forall i :: 0 <= i < |s| ==> r[i] == s[|s| - 1 - i]
  {
    seq(|s|, i requires 0 <= i < |s| => s[|s| - 1 - i])
  }

  /** The value an OSM holds at one moment: its key order and its key-to-list mapping. */
  datatype Matrix = Matrix(order: seq<string>, mapping: map<string, seq<string>>)
  {
    /**
     * `order` lists exactly the keys of `mapping`, each once (stated by
     * counting; `ValidKeys` derives that every key of `mapping` is listed).
     */
    ghost predicate Valid()
    {
      && NoDup(order)
      && |order| == |mapping|
      && (forall i :: 0 <= i < |order| ==> order[i] in mapping)
    }

    /** Every key has at least one candidate value. */
    ghost predicate NonEmptyLists()
    {
      forall k :: k in mapping ==> |mapping[k]| > 0
    }
  }

  /** Go's `Entry`. */
  datatype Entry = Entry(key: string, value: seq<string>)

  // -----------------------------------------------------------------------
  // Specification of Set

  /** `s` with every occurrence of `x` removed, the rest in their order. */
  function Without(s: seq<string>, x: string): (r: seq<string>)
    ensures |r| <= |s|
    ensures forall y :: y in r <==> y in s && y != x
  {
    if s == [] then []
    else if s[0] == x then Without(s[1..], x)
    else [s[0]] + Without(s[1..], x)
  }

  /** What `Set(key, value)` makes of a map: the new value, and `key` in last position. */
  function Assign(m: Matrix, key: string, value: seq<string>): Matrix
  {
    Matrix(Without(m.order, key) + [key], m.mapping[key := value])
  }

  lemma {:induction false} WithoutNoDup(s: seq<string>, x: string)
    requires NoDup(s)
    ensures NoDup(Without(s, x))
  {
    if s != [] {
      WithoutNoDup(s[1..], x);
      var w := Without(s[1..], x);
      if s[0] != x {
        assert s[0] !in s[1..];
        assert s[0] !in w;
        forall i, j | 0 <= i < j < |[s[0]] + w| ensures ([s[0]] + w)[i] != ([s[0]] + w)[j] {
          if i == 0 {
            assert ([s[0]] + w)[j] in w;
          }
        }
      }
    }
  }

  lemma {:induction false} WithoutAbsent(s: seq<string>, x: string)
    requires x !in s
    ensures Without(s, x) == s
  {
    if s != [] {
      WithoutAbsent(s[1..], x);
    }
  }

  lemma {:induction false} WithoutPresent(s: seq<string>, x: string)
    requires NoDup(s) && x in s
    ensures |Without(s, x)| == |s| - 1
  {
    if s[0] == x {
      WithoutAbsent(s[1..], x);
    } else {
      WithoutPresent(s[1..], x);
    }
  }

  lemma {:induction false} WithoutTwice(s: seq<string>, x: string)
    ensures Without(Without(s, x), x) == Without(s, x)
  {
    if s != [] {
      WithoutTwice(s[1..], x);
    }
  }

  /** Removing `x` from `s` without duplicates: the elements before it, then those after it. */
  lemma {:induction false} WithoutAt(s: seq<string>, p: nat)
    requires NoDup(s) && p < |s|
    ensures Without(s, s[p]) == s[..p] + s[p + 1..]
  {
    if p == 0 {
      WithoutAbsent(s[1..], s[0]);
    } else {
      WithoutAt(s[1..], p - 1);
      assert s[1..][p - 1] == s[p];
      assert s[..p] == [s[0]] + s[1..][..p - 1];
      assert s[p + 1..] == s[1..][p..];
    }
  }

  /**
   * The state the shifting loop of `Set` leaves: every key after position
   * `p` moved one place down, the last one duplicated. Writing the removed
   * key into the last place gives the specified order.
   */
  lemma ShiftedOut(o: seq<string>, p: nat, keys: seq<string>)
    requires NoDup(o) && p < |o| && |keys| == |o|
    requires forall i :: 0 <= i < |o| && (i < p || i + 1 == |o|) ==> keys[i] == o[i]
    requires forall i :: p <= i && i + 1 < |o| ==> keys[i] == o[i + 1]
    ensures keys[|o| - 1 := o[p]] == Without(o, o[p]) + [o[p]]
  {
    WithoutAt(o, p);
    var r := keys[|o| - 1 := o[p]];
    var e := o[..p] + o[p + 1..] + [o[p]];
    assert |r| == |e|;
    forall i | 0 <= i < |r| ensures r[i] == e[i] {
      if i < p {
      } else if i + 1 < |o| {
        assert e[i] == o[i + 1];
      }
    }
  }

  /** Set keeps the map well formed. */
  lemma AssignValid(m: Matrix, key: string, value: seq<string>)
    requires m.Valid()
    ensures Assign(m, key, value).Valid()
  {
    var w := Without(m.order, key);
    WithoutNoDup(m.order, key);
    if key in m.mapping {
      var j := Position(m, key);
      WithoutPresent(m.order, key);
    } else {
      WithoutAbsent(m.order, key);
    }
    forall i | 0 <= i < |w| ensures w[i] in m.mapping {
      assert w[i] in w;
      var j :| 0 <= j < |m.order| && m.order[j] == w[i];
    }
  }

  /** Setting an absent key appends it to the order and grows the map by one. */
  lemma AssignAbsent(m: Matrix, key: string, value: seq<string>)
    requires m.Valid() && key !in m.mapping
    ensures Assign(m, key, value).order == m.order + [key]
    ensures |Assign(m, key, value).order| == |m.order| + 1
  {
    WithoutAbsent(m.order, key);
  }

  /**
   * Setting a present key keeps the size, puts the key last, and leaves the
   * relative order of all the other keys as it was.
   */
  lemma AssignPresent(m: Matrix, key: string, value: seq<string>)
    requires m.Valid() && key in m.mapping
    ensures |Assign(m, key, value).order| == |m.order|
    ensures Assign(m, key, value).order[|m.order| - 1] == key
    ensures Without(Assign(m, key, value).order, key) == Without(m.order, key)
  {
    var w := Without(m.order, key);
    var j := Position(m, key);
    WithoutPresent(m.order, key);
    WithoutTwice(m.order, key);
    WithoutAppend(w, key);
  }

  lemma {:induction false} WithoutAppend(s: seq<string>, x: string)
    ensures Without(s + [x], x) == Without(s, x)
  {
    if s == [] {
      assert [x][1..] == [];
    } else {
      assert (s + [x])[1..] == s[1..] + [x];
      WithoutAppend(s[1..], x);
    }
  }

  /** After Set, the key reads back the new value and every other key reads as before. */
  lemma AssignGet(m: Matrix, key: string, value: seq<string>, other: string)
    requires other != key
    ensures Assign(m, key, value).mapping[key] == value
    ensures (other in Assign(m, key, value).mapping) == (other in m.mapping)
    ensures other in m.mapping ==> Assign(m, key, value).mapping[other] == m.mapping[other]
  {
  }

  // -----------------------------------------------------------------------
  // Specification of the product iteration

  /** Shape shared by the odometer's captured data: distinct keys, each with a non-empty list. */
  predicate Shaped(keys: seq<string>, sizes: seq<nat>, mapping: map<string, seq<string>>)
  {
    && |keys| == |sizes|
    && NoDup(keys)
    && forall i {:trigger keys[i]} :: 0 <= i < |keys| ==> keys[i] in mapping && sizes[i] == |mapping[keys[i]]| > 0
  }

  /** `d` picks, for every key `keys[i]`, a position `d[i]` inside that key's list. */
  predicate Picks(keys: seq<string>, mapping: map<string, seq<string>>, d: seq<nat>)
  {
    |d| == |keys| && forall i :: 0 <= i < |keys| ==> keys[i] in mapping && d[i] < |mapping[keys[i]]|
  }

  /** Digits within the radices of a shape pick a value of every list. */
  lemma ShapedPicks(keys: seq<string>, sizes: seq<nat>, mapping: map<string, seq<string>>, d: seq<nat>)
    requires Shaped(keys, sizes, mapping) && InRange(d, sizes)
    ensures Picks(keys, mapping, d)
  {
  }

  /**
   * The combination that maps key `keys[i]` to the value at position `d[i]`
   * of its list. (A position outside its list contributes nothing; under
   * `Picks` there is none.)
   */
  function TileOf(keys: seq<string>, mapping: map<string, seq<string>>, d: seq<nat>): map<string, string>
  {
    if keys == [] || d == [] then map[]
    else
      var rest := TileOf(keys[1..], mapping, d[1..]);
      if keys[0] in mapping && d[0] < |mapping[keys[0]]| then rest[keys[0] := mapping[keys[0]][d[0]]] else rest
  }

  /** A combination has exactly the given keys. */
  lemma {:induction false} TileOfDomain(keys: seq<string>, mapping: map<string, seq<string>>, d: seq<nat>, k: string)
    requires Picks(keys, mapping, d)
    ensures k in TileOf(keys, mapping, d) <==> k in keys
  {
    if keys != [] {
      TileOfDomain(keys[1..], mapping, d[1..], k);
      assert keys == [keys[0]] + keys[1..];
    }
  }

  /** A combination maps each key to its picked value. */
  lemma {:induction false} TileOfAt(keys: seq<string>, mapping: map<string, seq<string>>, d: seq<nat>, i: nat)
    requires Picks(keys, mapping, d) && NoDup(keys) && i < |keys|
    ensures keys[i] in TileOf(keys, mapping, d)
    ensures TileOf(keys, mapping, d)[keys[i]] == mapping[keys[i]][d[i]]
  {
    if i > 0 {
      TileOfAt(keys[1..], mapping, d[1..], i - 1);
      assert keys[i] != keys[0];
    }
  }

  /** A map with exactly the keys of `keys`, each holding its picked value, is their combination. */
  lemma TileOfUnique(keys: seq<string>, mapping: map<string, seq<string>>, d: seq<nat>, c: map<string, string>)
    requires Picks(keys, mapping, d) && NoDup(keys)
    requires forall k :: k in c <==> k in keys
    requires forall j :: 0 <= j < |keys| ==> c[keys[j]] == mapping[keys[j]][d[j]]
    ensures c == TileOf(keys, mapping, d)
  {
    var t := TileOf(keys, mapping, d);
    forall k ensures k in c <==> k in t {
      TileOfDomain(keys, mapping, d, k);
    }
    forall k | k in c ensures c[k] == t[k] {
      var j :| 0 <= j < |keys| && keys[j] == k;
      TileOfAt(keys, mapping, d, j);
    }
  }

  /** Re-picking one key's position is one update of the combination. */
  lemma {:induction false} TileOfUpdate(keys: seq<string>, mapping: map<string, seq<string>>, d: seq<nat>, n: nat, x: nat)
    requires NoDup(keys) && n < |keys| == |d| && keys[n] in mapping && x < |mapping[keys[n]]|
    ensures TileOf(keys, mapping, d[n := x]) == TileOf(keys, mapping, d)[keys[n] := mapping[keys[n]][x]]
  {
    if n == 0 {
      assert d[n := x][1..] == d[1..];
    } else {
      assert d[n := x][1..] == d[1..][n - 1 := x];
      TileOfUpdate(keys[1..], mapping, d[1..], n - 1, x);
      assert keys[n] != keys[0];
    }
  }

  lemma TileOfUpdateShaped(keys: seq<string>, sizes: seq<nat>, mapping: map<string, seq<string>>, d: seq<nat>, n: nat, x: nat)
    requires Shaped(keys, sizes, mapping) && n < |keys| == |d| && x < sizes[n]
    ensures TileOf(keys, mapping, d[n := x]) == TileOf(keys, mapping, d)[keys[n] := mapping[keys[n]][x]]
  {
    TileOfUpdate(keys, mapping, d, n, x);
  }

  /** Picking one more key, one not picked yet, is one update of the combination. */
  lemma {:induction false} TileOfSnoc(keys: seq<string>, mapping: map<string, seq<string>>, d: seq<nat>, k: string, x: nat)
    requires |keys| == |d| && k !in keys && k in mapping && x < |mapping[k]|
    ensures TileOf(keys + [k], mapping, d + [x]) == TileOf(keys, mapping, d)[k := mapping[k][x]]
  {
    if keys != [] {
      assert (keys + [k])[1..] == keys[1..] + [k];
      assert (d + [x])[1..] == d[1..] + [x];
      TileOfSnoc(keys[1..], mapping, d[1..], k, x);
      assert keys[0] != k;
    }
  }

  /** The radices of the odometer of `m`: list lengths, last-set key first. */
  function Radices(m: Matrix): (r: seq<nat>)
    ensures |r| == |m.order|
  {
    var keys := Reverse(m.order);
    seq(|keys|, i requires 0 <= i < |keys| => if keys[i] in m.mapping then |m.mapping[keys[i]]| else 0)
  }

  /** Reversal keeps the elements and their distinctness. */
  lemma ReverseSame(s: seq<string>)
    ensures forall k :: k in Reverse(s) <==> k in s
    ensures NoDup(s) ==> NoDup(Reverse(s))
  {
    var r := Reverse(s);
    forall k | k in s ensures k in r {
      var j :| 0 <= j < |s| && s[j] == k;
      assert r[|s| - 1 - j] == k;
    }
    forall k | k in r ensures k in s {
      var j :| 0 <= j < |r| && r[j] == k;
    }
    if NoDup(s) {
      forall i, j | 0 <= i < j < |r| ensures r[i] != r[j] {
        assert r[i] == s[|s| - 1 - i] && r[j] == s[|s| - 1 - j];
      }
    }
  }

  lemma RadicesShaped(m: Matrix)
    requires m.Valid() && m.NonEmptyLists()
    ensures Shaped(Reverse(m.order), Radices(m), m.mapping) && Positive(Radices(m))
  {
    var keys := Reverse(m.order);
    ReverseSame(m.order);
    forall i | 0 <= i < |keys| ensures keys[i] in m.mapping {
      assert keys[i] in keys;
    }
  }

  /** Number of tiles: the product of the list lengths. */
  function Count(m: Matrix): nat
  {
    Product(Radices(m))
  }

  /**
   * The `t`-th tile in iteration order: `t` turns of the odometer whose
   * fastest digit belongs to the key set last.
   */
  function Tile(m: Matrix, t: nat): map<string, string>
  {
    TileOf(Reverse(m.order), m.mapping, Digits(t, Radices(m)))
  }

  /**
   * Position, in the list of the key `m.order[j]`, of the value that tile `t`
   * picks: digit `|m.order| - 1 - j` of `t`, since the last key is the fastest.
   */
  function Pick(m: Matrix, t: nat, j: nat): (p: nat)
    requires m.Valid() && m.NonEmptyLists() && j < |m.order|
    ensures p < |m.mapping[m.order[j]]|
  {
    RadicesShaped(m);
    DigitsInRange(t, Radices(m));
    var d := Digits(t, Radices(m));
    assert Reverse(m.order)[|m.order| - 1 - j] == m.order[j];
    d[|m.order| - 1 - j]
  }

  /** Tile `t` maps key `m.order[j]` to the value at its picked position. */
  lemma TileAt(m: Matrix, t: nat, j: nat)
    requires m.Valid() && m.NonEmptyLists() && j < |m.order|
    ensures m.order[j] in Tile(m, t)
    ensures Tile(m, t)[m.order[j]] == m.mapping[m.order[j]][Pick(m, t, j)]
  {
    RadicesShaped(m);
    DigitsInRange(t, Radices(m));
    ShapedPicks(Reverse(m.order), Radices(m), m.mapping, Digits(t, Radices(m)));
    var n := |m.order|;
    assert Reverse(m.order)[n - 1 - j] == m.order[j];
    TileOfAt(Reverse(m.order), m.mapping, Digits(t, Radices(m)), n - 1 - j);
  }

  /** Every tile has exactly the keys of the map. */
  lemma TileKeys(m: Matrix, t: nat)
    requires m.Valid() && m.NonEmptyLists()
    ensures Tile(m, t).Keys == m.mapping.Keys
  {
    RadicesShaped(m);
    ReverseSame(m.order);
    var keys := Reverse(m.order);
    DigitsInRange(t, Radices(m));
    ShapedPicks(keys, Radices(m), m.mapping, Digits(t, Radices(m)));
    forall k ensures k in Tile(m, t) <==> k in m.mapping {
      TileOfDomain(keys, m.mapping, Digits(t, Radices(m)), k);
      if k in m.mapping {
        var j := Position(m, k);
        assert m.order[j] in m.order;
      }
    }
  }

  /** The first tile maps every key to the first value of its list. */
  lemma FirstTile(m: Matrix)
    requires m.Valid() && m.NonEmptyLists()
    ensures Tile(m, 0).Keys == m.mapping.Keys
    ensures forall k :: k in m.mapping ==> Tile(m, 0)[k] == m.mapping[k][0]
  {
    TileKeys(m, 0);
    forall k | k in m.mapping ensures Tile(m, 0)[k] == m.mapping[k][0] {
      var j := Position(m, k);
      TileAt(m, 0, j);
    }
  }

  /** Every tile picks, for each key, one of that key's candidate values. */
  lemma TileFromLists(m: Matrix, t: nat, k: string)
    requires m.Valid() && m.NonEmptyLists() && k in m.mapping
    ensures k in Tile(m, t) && Tile(m, t)[k] in m.mapping[k]
  {
    var j := Position(m, k);
    TileAt(m, t, j);
  }

  /** No list repeats a value. */
  predicate DistinctValues(m: Matrix)
  {
    forall k :: k in m.mapping ==> NoDup(m.mapping[k])
  }

  /** Two different positions in the iteration give two different tiles (lists without repeats). */
  lemma TilesDistinct(m: Matrix, t1: nat, t2: nat)
    requires m.Valid() && m.NonEmptyLists() && DistinctValues(m)
    requires t1 < Count(m) && t2 < Count(m) && t1 != t2
    ensures Tile(m, t1) != Tile(m, t2)
  {
    RadicesShaped(m);
    var r := Radices(m);
    var n := |r|;
    var d1, d2 := Digits(t1, r), Digits(t2, r);
    DigitsInjective(t1, t2, r);
    var i :| 0 <= i < n && d1[i] != d2[i];
    var j := n - 1 - i;
    assert Pick(m, t1, j) != Pick(m, t2, j);
    TileAt(m, t1, j);
    TileAt(m, t2, j);
    NoDupIndex(m.mapping[m.order[j]], Pick(m, t1, j), Pick(m, t2, j));
  }

  /**
   * Every combination (a value from each key's list) is a tile of the
   * iteration at some position below the count.
   */
  lemma TilesExhaustive(m: Matrix, tile: map<string, string>)
    requires m.Valid() && m.NonEmptyLists()
    requires tile.Keys == m.mapping.Keys
    requires forall k :: k in tile ==> tile[k] in m.mapping[k]
    ensures exists t: nat :: t < Count(m) && Tile(m, t) == tile
  {
    RadicesShaped(m);
    var r := Radices(m);
    var keys := Reverse(m.order);
    var n := |keys|;
    var d := seq(n, i requires 0 <= i < n => IndexOf(m.mapping[keys[i]], tile[keys[i]]));
    assert Picks(keys, m.mapping, d) && InRange(d, r);
    assert forall k :: k in tile <==> k in keys by {
      ReverseSame(m.order);
      ValidKeys(m);
    }
    assert tile == TileOf(keys, m.mapping, d) by {
      TileOfUnique(keys, m.mapping, d, tile);
    }
    DigitsOfValue(d, r);
    var t := Value(d, r);
    assert Tile(m, t) == tile;
  }

  function IndexOf(s: seq<string>, x: string): (i: nat)
    requires x in s
    ensures i < |s| && s[i] == x
  {
    if s[0] == x then 0 else 1 + IndexOf(s[1..], x)
  }

  /** Key `m.order[j]` takes a different value in tile `t + 1` than in tile `t`. */
  predicate Moves(m: Matrix, t: nat, j: nat)
    requires m.Valid() && m.NonEmptyLists() && j < |m.order|
  {
    Pick(m, t + 1, j) != Pick(m, t, j)
  }

  /** Key `m.order[j]` takes the first value of its list in tile `t + 1`. */
  predicate Restarts(m: Matrix, t: nat, j: nat)
    requires m.Valid() && m.NonEmptyLists() && j < |m.order|
  {
    Pick(m, t + 1, j) == 0
  }

  /**
   * From one tile to the next, the last key in `order` moves on to the next
   * value of its list (wrapping around), and a key moves only when every key
   * set after it has wrapped back to the first value of its list.
   */
  lemma TileStep(m: Matrix, t: nat)
    requires m.Valid() && m.NonEmptyLists() && |m.order| > 0
    ensures var n := |m.order|;
      Pick(m, t + 1, n - 1) == (Pick(m, t, n - 1) + 1) % |m.mapping[m.order[n - 1]]|
    ensures forall a, b :: 0 <= a < b < |m.order| && Moves(m, t, a) ==> Restarts(m, t, b)
  {
    RadicesShaped(m);
    var r := Radices(m);
    var n := |r|;
    var d, e := Digits(t, r), Digits(t + 1, r);
    assert e[0] == (d[0] + 1) % r[0] && CarriesFromBelow(d, e) by {
      DigitsSucc(t, r);
      DigitsInRange(t, r);
      OdometerStep(d, r);
    }
    assert Reverse(m.order)[0] == m.order[n - 1];
    assert Pick(m, t, n - 1) == d[0] && Pick(m, t + 1, n - 1) == e[0];
    forall a, b | 0 <= a < b < n && Moves(m, t, a)
      ensures Restarts(m, t, b)
    {
      assert Pick(m, t, a) == d[n - 1 - a] && Pick(m, t + 1, a) == e[n - 1 - a];
      assert e[n - 1 - b] == 0;
      assert Pick(m, t + 1, b) == e[n - 1 - b];
    }
  }

  // -----------------------------------------------------------------------
  // The mutable map

  class OSM {
    var mapping: map<string, seq<string>>
    var order: seq<string>

    /** The map's current contents as a value. */
    function Value(): Matrix
      reads this
    {
      Matrix(order, mapping)
    }

    ghost predicate Valid()
      reads this
    {
      Value().Valid()
    }

    /** `NewOSM`: an empty map. */
    constructor ()
      ensures Valid() && order == [] && mapping == map[]
    {
      mapping := map[];
      order := [];
    }

    /** `Get`: the list of `key`, or the empty (nil) list when `key` is absent. */
    function Get(key: string): (r: seq<string>)
      reads this
      ensures key in mapping ==> r == mapping[key]
      ensures key !in mapping ==> r == []
    {
      if key in mapping then mapping[key] else []
    }

    /** `TryGet`: tells an absent key apart from a present key with an empty list. */
    function TryGet(key: string): (r: Option<seq<string>>)
      reads this
      ensures r.Some? <==> key in mapping
      ensures r.Some? ==> r.value == mapping[key]
    {
      if key in mapping then Some(mapping[key]) else None
    }

    /** `Len`: the number of keys. */
    function Len(): (n: nat)
      reads this
      requires Valid()
      ensures n == |mapping|
    {
      |order|
    }

    /** `Keys`: every key exactly once, in order. */
    function Keys(): (r: seq<string>)
      reads this
      requires Valid()
      ensures NoDup(r) && forall k :: k in r <==> k in mapping
    {
      ValidKeys(Value());
      order
    }

    /** `Values`: the lists, in key order. */
    method Values() returns (result: seq<seq<string>>)
      requires Valid()
      ensures |result| == |order|
      ensures forall i :: 0 <= i < |order| ==> result[i] == mapping[order[i]]
    {
      result := [];
      var i := 0;
      while i < |order|
        invariant 0 <= i <= |order|
        invariant |result| == i
        invariant forall j :: 0 <= j < i ==> result[j] == mapping[order[j]]
      {
        result := result + [mapping[order[i]]];
        i := i + 1;
      }
    }

    /** `Entries`: key and list pairs, in key order. */
    method Entries() returns (result: seq<Entry>)
      requires Valid()
      ensures |result| == |order|
      ensures forall i :: 0 <= i < |order| ==> result[i] == Entry(order[i], mapping[order[i]])
    {
      result := [];
      var i := 0;
      while i < |order|
        invariant 0 <= i <= |order|
        invariant |result| == i
        invariant forall j :: 0 <= j < i ==> result[j] == Entry(order[j], mapping[order[j]])
      {
        result := result + [Entry(order[i], mapping[order[i]])];
        i := i + 1;
      }
    }

    /**
     * `Set`: store `value` under `key`; an existing key is shifted out of its
     * place and written back in last position.
     */
    method Set(key: string, value: seq<string>)
      requires Valid()
      modifies this
      ensures Valid()
      ensures Value() == Assign(old(Value()), key, value)
    {
      ghost var m0 := Value();
      var found := key in mapping;
      mapping := mapping[key := value];
      if found {
        ghost var o := order;
        ghost var p := Position(m0, key);
        var keys := order;
        var shifting := false;
        var k := 0;
        while k < |keys|
          invariant 0 <= k <= |o| && |keys| == |o|
          invariant mapping == m0.mapping[key := value]
          invariant shifting <==> k > p
          invariant forall i :: k <= i < |o| ==> keys[i] == o[i]
          invariant forall i :: 0 <= i < k && (i < p || i + 1 == |o|) ==> keys[i] == o[i]
          invariant forall i :: p <= i < k && i + 1 < |o| ==> keys[i] == o[i + 1]
        {
          NoDupIndex(o, k, p);
          if keys[k] == key {
            shifting := true;
          }
          if shifting && k + 1 < |keys| {
            keys := keys[k := keys[k + 1]];
          }
          k := k + 1;
        }
        ShiftedOut(o, p, keys);
        keys := keys[|keys| - 1 := key];
        assert keys == Without(m0.order, key) + [key];
        order := keys;
      } else {
        WithoutAbsent(order, key);
        order := order + [key];
        assert order == Without(m0.order, key) + [key];
      }
      assert Value() == Assign(m0, key, value);
      AssignValid(m0, key, value);
    }

    /** `Clone`: a fresh map with the same keys, order and lists. */
    method Clone() returns (result: OSM)
      requires Valid()
      ensures fresh(result) && result.Valid() && result.Value() == Value()
    {
      result := new OSM();
      var m: map<string, seq<string>> := map[];
      var rest := mapping.Keys;
      while rest != {}
        invariant rest <= mapping.Keys
        invariant m == map k | k in mapping.Keys - rest :: mapping[k]
        decreases rest
      {
        var key :| key in rest;
        m := m[key := mapping[key]];
        rest := rest - {key};
      }
      assert m == mapping;
      result.mapping := m;
      result.order := order;
    }

    /** `ProductIterator`: an odometer over this map's tiles, positioned before the first one. */
    method ProductIterator() returns (it: Odometer)
      requires Valid() && Value().NonEmptyLists()
      ensures fresh(it) && fresh(it.index)
      ensures it.Valid() && it.Source() == Value() && it.yielded == 0
    {
      it := new Odometer(Value());
    }
  }

  /** Every key of a well-formed map is listed in its order. */
  lemma ValidKeys(m: Matrix)
    requires m.Valid()
    ensures forall k :: k in m.mapping ==> k in m.order
  {
    var listed := set k | k in m.order;
    assert listed <= m.mapping.Keys by {
      forall k | k in listed ensures k in m.mapping {
        var j :| 0 <= j < |m.order| && m.order[j] == k;
      }
    }
    NoDupCard(m.order);
    var rest := m.mapping.Keys - listed;
    assert m.mapping.Keys == listed + rest;
    assert |rest| == 0;
  }

  /** The place of a key in the order of a well-formed map. */
  lemma Position(m: Matrix, k: string) returns (j: nat)
    requires m.Valid() && k in m.mapping
    ensures j < |m.order| && m.order[j] == k
  {
    ValidKeys(m);
    j :| 0 <= j < |m.order| && m.order[j] == k;
  }

  lemma {:induction false} NoDupCard(s: seq<string>)
    requires NoDup(s)
    ensures |set k | k in s| == |s|
  {
    if s != [] {
      NoDupCard(s[1..]);
      assert (set k | k in s) == (set k | k in s[1..]) + {s[0]};
    }
  }

  /** Two-copy independence: a Set on a clone leaves the original's contents as they were. */
  method CloneThenSet(o: OSM, key: string, value: seq<string>) returns (c: OSM)
    requires o.Valid()
    ensures fresh(c) && c.Valid()
    ensures o.Value() == old(o.Value())
    ensures c.Value() == Assign(o.Value(), key, value)
  {
    c := o.Clone();
    c.Set(key, value);
  }

  // -----------------------------------------------------------------------
  // The iterator

  /**
   * The state captured by the closure `ProductIterator` returns: the keys
   * reversed (so the last-set key is digit 0, the fastest), their list
   * lengths, the digit vector, the current combination, and the `first`
   * and `stopped` flags. `yielded` counts the tiles returned so far.
   */
  class Odometer {
    const keys: seq<string>
    const sizes: seq<nat>
    const mapping: map<string, seq<string>>
    const index: array<nat>
    const order: seq<string>
    var combination: map<string, string>
    var first: bool
    var stopped: bool
    ghost var yielded: nat
    /** How many times the digit loop has run: once on every call but the first, until it stops. */
    ghost var turns: nat

    /** The map this odometer enumerates. */
    function Source(): Matrix
    {
      Matrix(order, mapping)
    }

    /** What the closure captured: the keys reversed and their list lengths. */
    ghost predicate Captured()
    {
      && keys == Reverse(order) && sizes == Radices(Source())
      && Shaped(keys, sizes, mapping) && Positive(sizes)
    }

    ghost predicate Valid()
      reads this, index
    {
      && Captured()
      && yielded <= Product(sizes)
      && (first <==> yielded == 0)
      && (first ==> !stopped)
      && (stopped ==> yielded == Product(sizes))
      && (first ==> turns == 0)
      && (!first && !stopped ==> turns + 1 == yielded)
      && (stopped ==> turns == yielded)
      && index[..] == Digits(turns, sizes)
      && combination == TileOf(keys, mapping, index[..])
    }

    constructor (m: Matrix)
      requires m.Valid() && m.NonEmptyLists()
      ensures Valid() && Source() == m && yielded == 0 && fresh(index)
    {
      RadicesShaped(m);
      ReverseSame(m.order);
      var rkeys := Reverse(m.order);
      var rsizes: seq<nat> := [];
      var i := 0;
      while i < |rkeys|
        invariant 0 <= i <= |rkeys| && |rsizes| == i
        invariant forall j :: 0 <= j < i ==> rsizes[j] == |m.mapping[rkeys[j]]|
      {
        rsizes := rsizes + [|m.mapping[rkeys[i]]|];
        i := i + 1;
      }
      assert rsizes == Radices(m);
      var comb: map<string, string> := map[];
      i := 0;
      while i < |rkeys|
        invariant 0 <= i <= |rkeys|
        invariant comb == TileOf(rkeys[..i], m.mapping, Zeros(i))
      {
        NoDupIndex(rkeys, i, i);
        assert rkeys[i] !in rkeys[..i] by {
          forall j | 0 <= j < i ensures rkeys[..i][j] != rkeys[i] {
            NoDupIndex(rkeys, j, i);
          }
        }
        TileOfSnoc(rkeys[..i], m.mapping, Zeros(i), rkeys[i], 0);
        assert rkeys[..i + 1] == rkeys[..i] + [rkeys[i]];
        assert Zeros(i + 1) == Zeros(i) + [0];
        comb := comb[rkeys[i] := m.mapping[rkeys[i]][0]];
        i := i + 1;
      }
      keys := rkeys;
      sizes := rsizes;
      mapping := m.mapping;
      order := m.order;
      index := new nat[|rkeys|](_ => 0);
      combination := comb;
      first := true;
      stopped := false;
      yielded := 0;
      turns := 0;
      new;
      assert index[..] == Zeros(|sizes|);
      assert rkeys[..|rkeys|] == rkeys;
    }

    /** The `t`-th tile of the source map. */
    ghost function TileAt(t: nat): map<string, string>
    {
      Tile(Source(), t)
    }

    /**
     * The digit loop of the closure: the fastest digit advances, wrapping
     * to 0 at its radix and then carrying into the next digit, and the
     * combination follows every digit written. `wrapped` tells that the
     * carry ran off the slowest digit, i.e. that every digit came back to 0.
     */
    method Turn() returns (wrapped: bool)
      requires Shaped(keys, sizes, mapping) && index.Length == |sizes|
      requires InRange(index[..], sizes) && combination == TileOf(keys, mapping, index[..])
      modifies index, this`combination
      ensures combination == TileOf(keys, mapping, index[..])
      ensures index[..] == Inc(old(index[..]), sizes)
      ensures wrapped <==> index[..] == Zeros(|sizes|)
    {
      ghost var d0 := index[..];
      var n := -1;
      while n < 0 || index[n] == 0
        invariant -1 <= n < index.Length
        invariant forall i :: 0 <= i < n ==> index[i] == 0 && d0[i] + 1 == sizes[i]
        invariant forall i :: n < i < index.Length ==> index[i] == d0[i]
        invariant n >= 0 ==> index[n] == if d0[n] + 1 < sizes[n] then d0[n] + 1 else 0
        invariant combination == TileOf(keys, mapping, index[..])
        decreases index.Length - n
      {
        n := n + 1;
        if n >= index.Length {
          IncWraps(d0, sizes);
          assert index[..] == Zeros(|sizes|);
          return true;
        }
        // Go's `idx[n] += 1; idx[n] %= size[n]`, on an index below `size[n]`.
        var next := if index[n] + 1 < sizes[n] then index[n] + 1 else 0;
        TileOfUpdateShaped(keys, sizes, mapping, index[..], n, next);
        index[n] := next;
        combination := combination[keys[n] := mapping[keys[n]][index[n]]];
      }
      IncStopsAt(d0, index[..], sizes, n);
      assert index[..][n] != 0;
      return false;
    }

    /**
     * One call of the closure: the next tile while there is one, then
     * nothing on this and every later call. Over its lifetime the odometer
     * thus returns `Tile(Source(), 0)`, ..., `Tile(Source(), Count(Source()) - 1)`.
     */
    method Next() returns (tile: Option<map<string, string>>)
      requires Valid()
      modifies this, index
      ensures Valid()
      ensures old(yielded) < Count(Source()) ==> tile == Some(TileAt(old(yielded))) && yielded == old(yielded) + 1
      ensures old(yielded) == Count(Source()) ==> tile == None && yielded == old(yielded)
    {
      if stopped {
        return None;
      }
      if first {
        first := false;
        yielded := 1;
        ProductPositive(sizes);
        return Some(combination);
      }
      TurnFrom(turns, sizes);
      DigitsInRange(turns, sizes);
      var wrapped := Turn();
      turns := turns + 1;
      if wrapped {
        stopped := true;
        return None;
      }
      yielded := yielded + 1;
      return Some(combination);
    }
  }
}
