/**
 Numbers as bits, most significant first, and bytes as eight bits each.
 */
module Bits {
  import opened Basics
  import opened Radix

  /** A shift to the right. */
  function Shr(x: nat, n: nat): nat {
    x / Pow2(n)
  }

  /** The low `n` bits of a number. */
  function BitsOf(x: nat, n: nat): (b: seq<int>)
    ensures |b| == n && DigitsIn(2, b)
  {
    if n == 0 then [] else BitsOf(x / 2, n - 1) + [x % 2]
  }

  function Ones(n: nat): seq<int> {
    seq(n, _ => 1)
  }

  predicate Bytes(bs: seq<int>) {
    DigitsIn(256, bs)
  }

  /** All the bits of some bytes. */
  function Unpack(bs: seq<int>): (b: seq<int>)
    requires Bytes(bs)
    ensures |b| == 8 * |bs| && DigitsIn(2, b)
  {
    if bs == [] then [] else Unpack(bs[..|bs| - 1]) + BitsOf(bs[|bs| - 1], 8)
  }

  // ----- Powers of two -----

  lemma Halves(n: nat)
    requires n > 0
    ensures Pow2(n) == 2 * Pow2(n - 1)
  {
  }

  lemma Pow2Sum(a: nat, b: nat)
    ensures Pow2(a + b) == Pow2(a) * Pow2(b) && Pow2(a) > 0 && Pow2(b) > 0
  {
    PowSum(2, a, b);
  }

  lemma Eight()
    ensures Pow2(0) == 1 && Pow2(8) == 256
  {
    assert Pow(2, 1) == 2 && Pow(2, 2) == 4;
    Pow2Sum(2, 2);
    Pow2Sum(4, 4);
  }

  lemma DivParts(x: nat, d: nat)
    requires d > 0
    ensures x == d * (x / d) + x % d && 0 <= x % d < d && x / d >= 0
  {
  }

  lemma DivIs(x: nat, d: nat, q: nat, r: nat)
    requires d > 0 && x == d * q + r && r < d
    ensures x / d == q && x % d == r
  {
    DivParts(x, d);
    assert d * (x / d - q) == r - x % d;
    if x / d > q {
      MulLe(1, x / d - q, d);
    } else if x / d < q {
      MulLe(x / d - q, -1, d);
    }
  }

  lemma Nested(a: nat, b: nat, q: nat, r: nat, s: nat)
    requires r < b && s < a
    ensures 0 <= a * r + s < a * b
    ensures a * (b * q + r) + s == (a * b) * q + (a * r + s)
  {
    MulLe(r + 1, b, a);
    MulLe(0, r, a);
    assert a * (r + 1) == a * r + a;
    assert a * (b * q + r) == a * (b * q) + a * r;
    Assoc(a, b, q);
  }

  lemma DivDiv(x: nat, a: nat, b: nat)
    requires a > 0 && b > 0
    ensures a * b > 0 && x / a / b == x / (a * b)
    ensures (x / a) % b == (x % (a * b)) / a
    ensures x % a == (x % (a * b)) % a
  {
    var y := x / a;
    var q, r, s := y / b, y % b, x % a;
    DivParts(x, a);
    DivParts(y, b);
    Nested(a, b, q, r, s);
    DivIs(x, a * b, q, a * r + s);
    DivIs(a * r + s, a, r, s);
  }

  // ----- Bits -----

  lemma {:induction false} BitsSplit(x: nat, a: nat, b: nat)
    ensures Pow2(b) > 0
    ensures BitsOf(x, a + b) == BitsOf(x / Pow2(b), a) + BitsOf(x, b)
    decreases b
  {
    if b == 0 {
      assert Pow2(0) == 1;
      assert x / 1 == x;
    } else {
      BitsSplit(x / 2, a, b - 1);
      Halves(b);
      DivDiv(x, 2, Pow2(b - 1));
    }
  }

  lemma {:induction false} BitsLow(x: nat, n: nat)
    ensures Pow2(n) > 0
    ensures BitsOf(x % Pow2(n), n) == BitsOf(x, n)
  {
    if n > 0 {
      Halves(n);
      var p := Pow2(n - 1);
      DivDiv(x, 2, p);
      var y := x % Pow2(n);
      assert y / 2 == (x / 2) % p && y % 2 == x % 2;
      BitsLow(x / 2, n - 1);
    }
  }

  /** The value of the low bits. */
  lemma {:induction false} BitsValue(x: nat, n: nat)
    ensures Pow2(n) > 0
    ensures Value(2, BitsOf(x, n)) == x % Pow2(n)
  {
    if n > 0 {
      Halves(n);
      BitsValue(x / 2, n - 1);
      var p := Pow2(n - 1);
      DivDiv(x, 2, p);
      var y := x % Pow2(n);
      DivParts(y, 2);
      ValueSnoc(2, BitsOf(x / 2, n - 1), x % 2);
    }
  }

  lemma SmallMod(x: nat, d: nat)
    requires x < d
    ensures x % d == x
  {
  }

  lemma {:induction false} ValueJoin(a: seq<int>, b: seq<int>)
    ensures Value(2, a + b) == Value(2, a) * Pow2(|b|) + Value(2, b)
    decreases |b|
  {
    if b == [] {
      assert a + b == a;
    } else {
      var n := |b| - 1;
      ValueJoin(a, b[..n]);
      assert a + b == (a + b[..n]) + [b[n]];
      ValueSnoc(2, a + b[..n], b[n]);
      Halves(|b|);
      Shift(Value(2, a), Pow2(n), Value(2, b[..n]), 2);
    }
  }

  lemma {:induction false} AllOnes(k: nat, n: nat)
    requires n <= k
    ensures Pow2(k) >= 1 && BitsOf(Pow2(k) - 1, n) == Ones(n)
    decreases n
  {
    if n > 0 {
      Halves(k);
      AllOnes(k - 1, n - 1);
      assert (Pow2(k) - 1) / 2 == Pow2(k - 1) - 1 && (Pow2(k) - 1) % 2 == 1;
    }
  }

  lemma {:induction false} NoOnes(n: nat)
    ensures BitsOf(0, n) == Zeroes(n)
  {
    if n > 0 {
      NoOnes(n - 1);
    }
  }

  lemma UnpackSnoc(bs: seq<int>, x: int)
    requires Bytes(bs) && 0 <= x < 256
    ensures Bytes(bs + [x]) && Unpack(bs + [x]) == Unpack(bs) + BitsOf(x, 8)
  {
    assert (bs + [x])[..|bs|] == bs;
  }

  lemma {:induction false} UnpackCons(bs: seq<int>)
    requires Bytes(bs) && bs != []
    ensures Unpack(bs) == BitsOf(bs[0], 8) + Unpack(bs[1..])
  {
    hide BitsOf, Unpack;
    var n := |bs| - 1;
    var last := bs[n];
    if n == 0 {
      assert bs[1..] == [] && bs == [] + [last];
      UnpackSnoc([], last);
      UnpackNone();
    } else {
      var front := bs[..n];
      UnpackCons(front);
      assert bs == front + [last] && bs[1..] == front[1..] + [last];
      UnpackSnoc(front, last);
      UnpackSnoc(front[1..], last);
    }
  }

  lemma UnpackNone()
    ensures Unpack([]) == []
  {
  }

  lemma {:induction false} UnpackJoin(a: seq<int>, b: seq<int>)
    requires Bytes(a) && Bytes(b)
    ensures Bytes(a + b) && Unpack(a + b) == Unpack(a) + Unpack(b)
    decreases |b|
  {
    hide BitsOf, Unpack;
    if b == [] {
      UnpackNone();
      assert a + b == a;
    } else {
      var front, last := b[..|b| - 1], b[|b| - 1];
      UnpackJoin(a, front);
      UnpackSnoc(a + front, last);
      UnpackSnoc(front, last);
      assert b == front + [last] && a + b == (a + front) + [last];
    }
  }

  lemma {:induction false} UnpackZeroes(n: nat)
    ensures Bytes(Zeroes(n)) && Unpack(Zeroes(n)) == Zeroes(8 * n)
  {
    hide BitsOf, Unpack;
    if n == 0 {
      UnpackNone();
    } else {
      UnpackZeroes(n - 1);
      UnpackSnoc(Zeroes(n - 1), 0);
      assert Zeroes(n) == Zeroes(n - 1) + [0];
      NoOnes(8);
    }
  }

  /** A byte with one bit set. */
  lemma BitAlone(k: nat)
    requires k < 8
    ensures Pow2(k) < 256 && BitsOf(Pow2(k), 8) == Zeroes(7 - k) + [1] + Zeroes(k)
  {
    hide BitsOf, Pow;
    Eight();
    Pow2Sum(k, 8 - k);
    Halves(8 - k);
    MulLe(2, Pow2(8 - k), Pow2(k));
    BitsSplit(Pow2(k), 8 - k, k);
    DivIs(Pow2(k), Pow2(k), 1, 0);
    BitsLow(Pow2(k), k);
    NoOnes(k);
    OneAtEnd(8 - k);
  }

  lemma OneAtEnd(n: nat)
    requires n > 0
    ensures BitsOf(1, n) == Zeroes(n - 1) + [1]
  {
    NoOnes(n - 1);
  }
}
