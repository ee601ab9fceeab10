/**
 * Mixed-radix counting: the arithmetic behind the tile odometer of
 * go/specimen/orderedstringmap/orderedstringmap.go. Digit 0 is the least
 * significant (fastest) one; digit `i` counts modulo `r[i]`.
 */
module MixedRadix {

  /** Every radix is at least 1 (every value list is non-empty). */
  predicate Positive(r: seq<nat>)
  {
    forall i :: 0 <= i < |r| ==> r[i] > 0
  }

  /** Number of distinct digit vectors: the product of the radices. */
  function Product(r: seq<nat>): nat
  {
    if r == [] then 1 else r[0] * Product(r[1..])
  }

  /** `d` is a digit vector for radices `r`. */
  predicate InRange(d: seq<nat>, r: seq<nat>)
  {
    |d| == |r| && forall i :: 0 <= i < |d| ==> d[i] < r[i]
  }

  /** The number a digit vector denotes. */
  function Value(d: seq<nat>, r: seq<nat>): nat
    requires |d| == |r|
  {
    if d == [] then 0 else d[0] + r[0] * Value(d[1..], r[1..])
  }

  function Zeros(n: nat): (z: seq<nat>)
    ensures |z| == n && forall i :: 0 <= i < n ==> z[i] == 0
  {
    seq(n, i => 0)
  }

  /**
   * One turn of the odometer: the fastest digit that is not at its greatest
   * value goes up by one and every faster digit wraps to 0; when every digit
   * is at its greatest value, all of them wrap.
   */
  function Inc(d: seq<nat>, r: seq<nat>): (e: seq<nat>)
    requires |d| == |r|
    ensures |e| == |d|
  {
    if d == [] then []
    else if d[0] + 1 < r[0] then [d[0] + 1] + d[1..]
    else [0] + Inc(d[1..], r[1..])
  }

  /** The digit vector reached after `t` turns from all zeros. */
  function Digits(t: nat, r: seq<nat>): (d: seq<nat>)
    ensures |d| == |r|
  {
    if t == 0 then Zeros(|r|) else Inc(Digits(t - 1, r), r)
  }

  /** The digits after any number of turns are in range. */
  lemma {:induction false} DigitsInRange(t: nat, r: seq<nat>)
    requires Positive(r)
    ensures InRange(Digits(t, r), r)
  {
    if t > 0 {
      DigitsInRange(t - 1, r);
      IncInRange(Digits(t - 1, r), r);
    }
  }

  // ---------------------------------------------------------------------
  // Arithmetic helpers

  lemma MulMono(a: nat, x: nat, y: nat)
    requires x <= y
    ensures a * x <= a * y
  {
    assert a * y == a * x + a * (y - x);
  }

  lemma DivModUnique(t: nat, r: nat, q: nat, m: nat)
    requires r > 0 && m < r && t == r * q + m
    ensures t / r == q && t % r == m
  {
    var q', m' := t / r, t % r;
    assert t == r * q' + m';
    if q' < q {
      MulMono(r, q' + 1, q);
      assert false;
    } else if q < q' {
      MulMono(r, q + 1, q');
      assert false;
    }
  }

  /** One step of a single digit: it wraps to 0 exactly when it was at its greatest value. */
  lemma ModStep(x: nat, r: nat)
    requires x < r
    ensures (x + 1) % r == if x + 1 < r then x + 1 else 0
  {
    if x + 1 < r {
      DivModUnique(x + 1, r, 0, x + 1);
    } else {
      DivModUnique(x + 1, r, 1, 0);
    }
  }

  // ---------------------------------------------------------------------
  // The odometer turn

  lemma {:induction false} IncInRange(d: seq<nat>, r: seq<nat>)
    requires Positive(r) && InRange(d, r)
    ensures InRange(Inc(d, r), r)
  {
    if d != [] && d[0] + 1 >= r[0] {
      IncInRange(d[1..], r[1..]);
      var e := Inc(d, r);
      assert forall i :: 1 <= i < |e| ==> e[i] == Inc(d[1..], r[1..])[i - 1];
    }
  }

  lemma {:induction false} ProductPositive(r: seq<nat>)
    requires Positive(r)
    ensures Product(r) > 0
  {
    if r != [] {
      ProductPositive(r[1..]);
    }
  }

  /** A digit vector denotes a number below the product of the radices. */
  lemma {:induction false} ValueBelowProduct(d: seq<nat>, r: seq<nat>)
    requires InRange(d, r)
    ensures Value(d, r) < Product(r)
  {
    if d != [] {
      ValueBelowProduct(d[1..], r[1..]);
      var v, p := Value(d[1..], r[1..]), Product(r[1..]);
      MulMono(r[0], v, p - 1);
      assert r[0] * p == r[0] * (p - 1) + r[0];
    }
  }

  /** A turn adds one to the denoted number, wrapping to 0 after the greatest one. */
  lemma {:induction false} IncValue(d: seq<nat>, r: seq<nat>)
    requires InRange(d, r)
    ensures Value(Inc(d, r), r) == if Value(d, r) + 1 < Product(r) then Value(d, r) + 1 else 0
  {
    if d != [] {
      if d[0] + 1 < r[0] {
        assert Inc(d, r)[1..] == d[1..];
        ValueBelowProduct(Inc(d, r), r);
      } else {
        var v, p := Value(d[1..], r[1..]), Product(r[1..]);
        IncValue(d[1..], r[1..]);
        ValueBelowProduct(d[1..], r[1..]);
        assert Inc(d, r)[1..] == Inc(d[1..], r[1..]);
        CarryArith(r[0], v, p);
      }
    }
  }

  /** The arithmetic of a carry out of digit 0: `r0 - 1 + r0 * v` plus one is `r0 * (v + 1)`. */
  lemma CarryArith(r0: nat, v: nat, p: nat)
    requires r0 > 0 && v < p
    ensures r0 - 1 + r0 * v + 1 == r0 * (v + 1)
    ensures r0 * (v + 1) < r0 * p <==> v + 1 < p
    ensures v + 1 == p ==> r0 * (v + 1) == r0 * p
  {
    if v + 1 < p {
      MulMono(r0, v + 2, p);
    }
  }

  /** Turning from `d` wraps every digit up to `n` and raises digit `n` when those below are at their greatest. */
  lemma {:induction false} IncCarries(d: seq<nat>, r: seq<nat>, n: nat)
    requires |d| == |r| && n < |d|
    requires forall j :: 0 <= j < n ==> d[j] + 1 == r[j]
    requires d[n] + 1 < r[n]
    ensures Inc(d, r) == Zeros(n) + [d[n] + 1] + d[n + 1..]
  {
    if n > 0 {
      IncCarries(d[1..], r[1..], n - 1);
      assert Zeros(n) + [d[n] + 1] + d[n + 1..] == [0] + (Zeros(n - 1) + [d[1..][n - 1] + 1] + d[1..][n..]);
    }
  }

  /**
   * A turn performed digit by digit: digits below `n` were at their greatest
   * value and wrapped to 0, digit `n` went up by one without wrapping, and
   * the slower digits are untouched. The result is `Inc(d, r)`.
   */
  lemma IncStopsAt(d: seq<nat>, e: seq<nat>, r: seq<nat>, n: nat)
    requires |d| == |r| && |e| == |d| && n < |d|
    requires forall j :: 0 <= j < n ==> e[j] == 0 && d[j] + 1 == r[j]
    requires e[n] == d[n] + 1 < r[n]
    requires forall i :: n < i < |e| ==> e[i] == d[i]
    ensures e == Inc(d, r)
  {
    IncCarries(d, r, n);
    var f := Zeros(n) + [d[n] + 1] + d[n + 1..];
    assert forall i :: 0 <= i < |e| ==> e[i] == f[i];
  }

  /** Turning from the vector of greatest digits gives all zeros. */
  lemma {:induction false} IncWraps(d: seq<nat>, r: seq<nat>)
    requires |d| == |r|
    requires forall j :: 0 <= j < |d| ==> d[j] + 1 == r[j]
    ensures Inc(d, r) == Zeros(|d|)
  {
    if d != [] {
      IncWraps(d[1..], r[1..]);
      assert Zeros(|d|) == [0] + Zeros(|d| - 1);
    }
  }

  // ---------------------------------------------------------------------
  // The bijection between [0, Product(r)) and digit vectors

  /** After `t` turns, with `t` in range, the digits denote `t`. */
  lemma {:induction false} ValueOfDigits(t: nat, r: seq<nat>)
    requires Positive(r) && t < Product(r)
    ensures Value(Digits(t, r), r) == t
  {
    if t == 0 {
      ZerosValue(r);
    } else {
      ValueOfDigits(t - 1, r);
      DigitsInRange(t - 1, r);
      IncValue(Digits(t - 1, r), r);
    }
  }

  lemma {:induction false} ZerosValue(r: seq<nat>)
    ensures Value(Zeros(|r|), r) == 0
  {
    if r != [] {
      assert Zeros(|r|)[1..] == Zeros(|r| - 1);
      ZerosValue(r[1..]);
    }
  }

  /** Two digit vectors that denote the same number are equal. */
  lemma {:induction false} ValueInjective(d: seq<nat>, e: seq<nat>, r: seq<nat>)
    requires InRange(d, r) && InRange(e, r) && Value(d, r) == Value(e, r)
    ensures d == e
  {
    if d != [] {
      var t := Value(d, r);
      DivModUnique(t, r[0], Value(d[1..], r[1..]), d[0]);
      DivModUnique(t, r[0], Value(e[1..], r[1..]), e[0]);
      ValueInjective(d[1..], e[1..], r[1..]);
      assert d == [d[0]] + d[1..] && e == [e[0]] + e[1..];
    }
  }

  /** Writing the number of a digit vector gives the vector back. */
  lemma DigitsOfValue(d: seq<nat>, r: seq<nat>)
    requires Positive(r) && InRange(d, r)
    ensures Value(d, r) < Product(r) && Digits(Value(d, r), r) == d
  {
    ValueBelowProduct(d, r);
    ValueOfDigits(Value(d, r), r);
    DigitsInRange(Value(d, r), r);
    ValueInjective(Digits(Value(d, r), r), d, r);
  }

  /** Distinct numbers in range have distinct digit vectors. */
  lemma DigitsInjective(t1: nat, t2: nat, r: seq<nat>)
    requires Positive(r) && t1 < Product(r) && t2 < Product(r) && t1 != t2
    ensures Digits(t1, r) != Digits(t2, r)
  {
    ValueOfDigits(t1, r);
    ValueOfDigits(t2, r);
  }

  /** One more turn applies `Inc` once more. */
  lemma DigitsSucc(t: nat, r: seq<nat>)
    ensures Digits(t + 1, r) == Inc(Digits(t, r), r)
  {
  }

  /** After `Product(r)` turns the odometer is back at all zeros. */
  lemma DigitsWrap(t: nat, r: seq<nat>)
    requires Positive(r) && t + 1 == Product(r)
    ensures Digits(t + 1, r) == Zeros(|r|)
  {
    DigitsInRange(t, r);
    ValueOfDigits(t, r);
    IncToZeros(Digits(t, r), r);
    DigitsSucc(t, r);
  }

  /** Turning from the digits of the greatest number in range gives all zeros. */
  lemma IncToZeros(d: seq<nat>, r: seq<nat>)
    requires Positive(r) && InRange(d, r) && Value(d, r) + 1 == Product(r)
    ensures Inc(d, r) == Zeros(|r|)
  {
    IncValue(d, r);
    IncInRange(d, r);
    ZerosValue(r);
    ValueInjective(Inc(d, r), Zeros(|r|), r);
  }

  /** Before `Product(r)` turns the odometer never comes back to all zeros. */
  lemma DigitsNoEarlyWrap(r: seq<nat>, t: nat)
    requires Positive(r) && 0 < t <= Product(r) && Digits(t, r) == Zeros(|r|)
    ensures t == Product(r)
  {
    if t < Product(r) {
      ValueOfDigits(t, r);
      ZerosValue(r);
    }
  }

  /**
   * Counting on from `t`: the turn gives the digits of `t + 1`, and it
   * wraps back to all zeros exactly when `t` was the last number in range.
   */
  lemma TurnFrom(t: nat, r: seq<nat>)
    requires Positive(r) && t < Product(r)
    ensures Inc(Digits(t, r), r) == Digits(t + 1, r)
    ensures Inc(Digits(t, r), r) == Zeros(|r|) <==> t + 1 == Product(r)
  {
    DigitsSucc(t, r);
    if t + 1 == Product(r) {
      DigitsWrap(t, r);
    } else if Digits(t + 1, r) == Zeros(|r|) {
      DigitsNoEarlyWrap(r, t + 1);
    }
  }

  // ---------------------------------------------------------------------
  // Shape of one turn

  /** Every digit that differs between `d` and `e` has only zeros below it in `e`. */
  predicate CarriesFromBelow(d: seq<nat>, e: seq<nat>)
  {
    |d| == |e| && forall i, j :: 0 <= i < j < |d| && e[j] != d[j] ==> e[i] == 0
  }

  /**
   * From one number to the next, digit 0 always advances (modulo its radix),
   * and a digit changes only when every faster digit has wrapped to 0.
   */
  lemma {:induction false} OdometerStep(d: seq<nat>, r: seq<nat>)
    requires Positive(r) && InRange(d, r) && |r| > 0
    ensures Inc(d, r)[0] == (d[0] + 1) % r[0]
    ensures CarriesFromBelow(d, Inc(d, r))
  {
    ModStep(d[0], r[0]);
    var e := Inc(d, r);
    if d[0] + 1 >= r[0] && |r| > 1 {
      OdometerStep(d[1..], r[1..]);
      assert forall i :: 1 <= i < |e| ==> e[i] == Inc(d[1..], r[1..])[i - 1];
    }
  }
}
