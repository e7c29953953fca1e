/**
 Natural numbers by their digits in any base, least significant first, and the bit
 operations of unbounded integers.
 */
module Digits {

  function Pow(b: nat, n: nat): nat {
    if n == 0 then 1 else b * Pow(b, n - 1)
  }

  function Value(ds: seq<nat>, b: nat): nat {
    if ds == [] then 0 else ds[0] + b * Value(ds[1..], b)
  }

  /** The `n` lowest digits of `v`. */
  function DigitsOf(v: nat, b: nat, n: nat): (r: seq<nat>)
    requires b > 0
    ensures |r| == n
    decreases n
  {
    if n == 0 then [] else [v % b] + DigitsOf(v / b, b, n - 1)
  }

  predicate AllBelow(ds: seq<nat>, b: nat) {
    forall k :: 0 <= k < |ds| ==> ds[k] < b
  }

  lemma DivModUnique(v: nat, b: nat, q: nat, r: nat)
    requires b > 0 && r < b && v == r + b * q
    ensures v / b == q && v % b == r
  {
    var e: int := v / b - q;
    assert b * e == r - v % b by {
      assert v == v % b + b * (v / b);
      assert b * e == b * (v / b) - b * q;
    }
    var m: int := b;
    assert -m < m * e < m;
    assert e == 0;
  }

  /** The digits of a value are the digits it was made of. */
  lemma {:induction false} DigitsOfValue(ds: seq<nat>, b: nat)
    requires b > 0 && AllBelow(ds, b)
    ensures DigitsOf(Value(ds, b), b, |ds|) == ds
  {
    if ds != [] {
      DigitsOfValue(ds[1..], b);
      DivModUnique(Value(ds, b), b, Value(ds[1..], b), ds[0]);
    }
  }

  lemma {:induction false} DigitsAreBelow(v: nat, b: nat, n: nat)
    requires b > 0
    ensures AllBelow(DigitsOf(v, b, n), b)
    decreases n
  {
    if n > 0 { DigitsAreBelow(v / b, b, n - 1); }
  }

  lemma DivBelow(v: nat, b: nat, p: nat)
    requires b > 0 && v < b * p
    ensures v / b < p
  {
    assert v == v % b + b * (v / b);
    if v / b >= p { ProductMonotone(b, p, v / b); }
  }

  lemma ProductMonotone(b: nat, p: nat, q: nat)
    requires p <= q
    ensures b * p <= b * q
  {
  }

  /** A value is made of its digits, if there are enough of them. */
  lemma {:induction false} ValueOfDigits(v: nat, b: nat, n: nat)
    requires b > 0 && v < Pow(b, n)
    ensures Value(DigitsOf(v, b, n), b) == v
    decreases n
  {
    if n > 0 {
      DivBelow(v, b, Pow(b, n - 1));
      ValueOfDigits(v / b, b, n - 1);
      assert DigitsOf(v, b, n)[1..] == DigitsOf(v / b, b, n - 1);
      assert v == v % b + b * (v / b);
    }
  }

  lemma {:induction false} ValueIsBelow(ds: seq<nat>, b: nat)
    requires b > 0 && AllBelow(ds, b)
    ensures Value(ds, b) < Pow(b, |ds|)
  {
    if ds != [] {
      ValueIsBelow(ds[1..], b);
      ProductMonotone(b, Value(ds[1..], b) + 1, Pow(b, |ds| - 1));
      assert b * (Value(ds[1..], b) + 1) == b * Value(ds[1..], b) + b;
    }
  }

  lemma PowPositive(b: nat, n: nat)
    requires b > 0
    ensures Pow(b, n) > 0
  {
  }

  lemma RemainderBelow(b: nat, p: nat, s: nat, r: nat)
    requires s < p && r < b
    ensures b * s + r < b * p
  {
    ProductMonotone(b, s + 1, p);
    assert b * (s + 1) == b * s + b;
  }

  lemma DivDiv(v: nat, b: nat, p: nat)
    requires b > 0 && p > 0
    ensures b * p > 0 && v / b / p == v / (b * p)
  {
    var q := v / b / p;
    var s, r := v / b % p, v % b;
    assert v / b == p * q + s;
    assert v == b * (v / b) + r;
    Regroup(b, s, p, q);
    RemainderBelow(b, p, s, r);
    DivModUnique(v, b * p, q, b * s + r);
  }

  /** Digit `k` is `(v / b^k) % b`. */
  lemma {:induction false} DigitIsQuotient(v: nat, b: nat, n: nat, k: nat)
    requires b > 0 && k < n
    ensures Pow(b, k) > 0 && DigitsOf(v, b, n)[k] == v / Pow(b, k) % b
    decreases k
  {
    if k == 0 {
      assert Pow(b, 0) == 1 && v / 1 == v;
    } else {
      DigitIsQuotient(v / b, b, n - 1, k - 1);
      assert DigitsOf(v, b, n)[k] == DigitsOf(v / b, b, n - 1)[k - 1];
      DivDiv(v, b, Pow(b, k - 1));
    }
  }

  lemma Regroup(b: nat, u: nat, p: nat, v: nat)
    ensures b * (u + p * v) == b * u + (b * p) * v
  {
  }

  lemma {:induction false} ValueAppend(ds: seq<nat>, es: seq<nat>, b: nat)
    ensures Value(ds + es, b) == Value(ds, b) + Pow(b, |ds|) * Value(es, b)
  {
    if ds == [] {
      assert ds + es == es;
    } else {
      assert (ds + es)[1..] == ds[1..] + es;
      ValueAppend(ds[1..], es, b);
      Regroup(b, Value(ds[1..], b), Pow(b, |ds| - 1), Value(es, b));
    }
  }

  // ---------------------------------------------------------------------------
  // Bit operations
  // ---------------------------------------------------------------------------

  function BitOr(x: nat, y: nat): nat {
    if x == 0 then y else if y == 0 then x
    else (if x % 2 == 1 || y % 2 == 1 then 1 else 0) + 2 * BitOr(x / 2, y / 2)
  }

  function BitAnd(x: nat, y: nat): nat {
    if x == 0 || y == 0 then 0
    else (if x % 2 == 1 && y % 2 == 1 then 1 else 0) + 2 * BitAnd(x / 2, y / 2)
  }

  function ShiftLeft(x: nat, n: nat): nat {
    x * Pow(2, n)
  }

  function ShiftRight(x: nat, n: nat): nat {
    PowPositive(2, n);
    x / Pow(2, n)
  }

  predicate Bit(x: nat, n: nat) {
    PowPositive(2, n);
    x / Pow(2, n) % 2 == 1
  }

  lemma BitOfHalf(x: nat, n: nat)
    requires n > 0
    ensures Bit(x, n) == Bit(x / 2, n - 1)
  {
    PowPositive(2, n - 1);
    DivDiv(x, 2, Pow(2, n - 1));
  }

  lemma HalvesOfBits(x: nat, y: nat)
    ensures BitOr(x, y) / 2 == BitOr(x / 2, y / 2) && (BitOr(x, y) % 2 == 1 <==> x % 2 == 1 || y % 2 == 1)
    ensures BitAnd(x, y) / 2 == BitAnd(x / 2, y / 2) && (BitAnd(x, y) % 2 == 1 <==> x % 2 == 1 && y % 2 == 1)
  {
  }

  lemma LowestBit(x: nat)
    ensures Bit(x, 0) <==> x % 2 == 1
  {
    assert Pow(2, 0) == 1 && x / 1 == x;
  }

  /** Bit by bit. */
  lemma {:induction false} BitsOfOrAndAnd(x: nat, y: nat, n: nat)
    ensures Bit(BitOr(x, y), n) <==> Bit(x, n) || Bit(y, n)
    ensures Bit(BitAnd(x, y), n) <==> Bit(x, n) && Bit(y, n)
    decreases n
  {
    HalvesOfBits(x, y);
    if n == 0 {
      LowestBit(x);
      LowestBit(y);
      LowestBit(BitOr(x, y));
      LowestBit(BitAnd(x, y));
    } else {
      BitsOfOrAndAnd(x / 2, y / 2, n - 1);
      BitOfHalf(x, n);
      BitOfHalf(y, n);
      BitOfHalf(BitOr(x, y), n);
      BitOfHalf(BitAnd(x, y), n);
    }
  }

  /** Or is addition where the bits do not overlap. */
  lemma {:induction false} OrOfDisjoint(x: nat, y: nat, n: nat)
    requires x < Pow(2, n)
    ensures BitOr(x, ShiftLeft(y, n)) == x + ShiftLeft(y, n)
    decreases n
  {
    if n > 0 && x > 0 && y > 0 {
      assert ShiftLeft(y, n) == 2 * ShiftLeft(y, n - 1);
      OrOfDisjoint(x / 2, y, n - 1);
      PowPositive(2, n - 1);
      ProductMonotone(Pow(2, n - 1), 1, y);
    }
  }

  /** And with `n` ones keeps the `n` lowest bits. */
  lemma {:induction false} AndOfOnes(x: nat, n: nat)
    ensures Pow(2, n) > 0 && BitAnd(x, Pow(2, n) - 1) == x % Pow(2, n)
    decreases n
  {
    PowPositive(2, n);
    if n > 0 {
      var p := Pow(2, n - 1);
      assert Pow(2, n) == 2 * p;
      AndOfOnes(x / 2, n - 1);
      AndHalves(x, p);
      HalvesOfMod(x, p);
    }
  }

  lemma AndHalves(x: nat, p: nat)
    requires p > 0
    ensures BitAnd(x, 2 * p - 1) == x % 2 + 2 * BitAnd(x / 2, p - 1)
  {
    assert (2 * p - 1) / 2 == p - 1 && (2 * p - 1) % 2 == 1;
  }

  lemma HalvesOfMod(x: nat, p: nat)
    requires p > 0
    ensures x % (2 * p) == x % 2 + 2 * (x / 2 % p)
  {
    var q, r := x / 2 / p, x / 2 % p;
    assert x / 2 == r + p * q;
    assert x == x % 2 + 2 * r + 2 * (p * q);
    assert 2 * (p * q) == (2 * p) * q;
    DivModUnique(x, 2 * p, q, x % 2 + 2 * r);
  }

  /** And with the bit of weight `2^n` tests it. */
  lemma {:induction false} AndOfBit(x: nat, n: nat)
    ensures Pow(2, n) > 0 && (BitAnd(x, Pow(2, n)) != 0 <==> x / Pow(2, n) % 2 == 1)
    decreases n
  {
    PowPositive(2, n);
    if n > 0 {
      AndOfBit(x / 2, n - 1);
      DivDiv(x, 2, Pow(2, n - 1));
      assert Pow(2, n) / 2 == Pow(2, n - 1) && Pow(2, n) % 2 == 0;
    }
  }
}
