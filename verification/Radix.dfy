/**
 Numbers in a base: values of digit strings (most significant first), the shortest digits of a
 number, and powers.
 */
module Radix {

  function Pow(b: nat, n: nat): nat {
    if n == 0 then 1 else b * Pow(b, n - 1)
  }

  function Pow2(n: nat): (r: nat)
    ensures r >= 1
  {
    PowPositive(2, n);
    Pow(2, n)
  }

  predicate DigitsIn(base: nat, ds: seq<int>) {
    forall i :: 0 <= i < |ds| ==> 0 <= ds[i] < base
  }

  function Value(base: nat, ds: seq<int>): int {
    if ds == [] then 0 else Value(base, ds[..|ds| - 1]) * base + ds[|ds| - 1]
  }

  /** The digits of a number, without leading zeroes; none for zero. */
  function Digits(base: nat, v: nat): seq<int>
    requires base >= 2
    decreases v
  {
    if v == 0 then [] else Digits(base, v / base) + [v % base]
  }

  // ----- Powers -----

  lemma {:induction false} PowPositive(b: nat, n: nat)
    requires b >= 1
    ensures Pow(b, n) >= 1
  {
    if n > 0 {
      PowPositive(b, n - 1);
      MulLe(1, b, Pow(b, n - 1));
    }
  }

  lemma MulLe(a: int, b: int, c: int)
    requires a <= b && 0 <= c
    ensures a * c <= b * c
  {
  }

  lemma {:induction false} PowSum(b: nat, m: nat, n: nat)
    ensures Pow(b, m + n) == Pow(b, m) * Pow(b, n)
  {
    if m > 0 {
      PowSum(b, m - 1, n);
      assert Pow(b, m + n) == b * Pow(b, m - 1 + n);
      Assoc(b, Pow(b, m - 1), Pow(b, n));
    }
  }

  lemma Assoc(a: int, b: int, c: int)
    ensures a * b * c == a * (b * c)
  {
  }

  lemma PowMonotone(b: nat, m: nat, n: nat)
    requires b >= 1 && m <= n
    ensures Pow(b, m) <= Pow(b, n)
  {
    PowSum(b, n - m, m);
    PowPositive(b, n - m);
    MulLe(1, Pow(b, n - m), Pow(b, m));
  }

  /** If b^m <= c^n then b^(qm) <= c^(qn). */
  lemma {:induction false} PowRaise(b: nat, m: nat, c: nat, n: nat, q: nat)
    requires Pow(b, m) <= Pow(c, n)
    ensures Pow(b, q * m) <= Pow(c, q * n)
  {
    if q > 0 {
      PowRaise(b, m, c, n, q - 1);
      assert q * m == m + (q - 1) * m && q * n == n + (q - 1) * n;
      PowSum(b, m, (q - 1) * m);
      PowSum(c, n, (q - 1) * n);
      MulLeBoth(Pow(b, m), Pow(c, n), Pow(b, (q - 1) * m), Pow(c, (q - 1) * n));
    }
  }

  lemma MulLeBoth(a: nat, b: nat, c: nat, d: nat)
    requires a <= b && c <= d
    ensures a * c <= b * d
  {
    MulLe(a, b, c);
    MulLe(c, d, b);
  }

  // ----- Values -----

  lemma ValueSnoc(base: nat, ds: seq<int>, d: int)
    ensures Value(base, ds + [d]) == Value(base, ds) * base + d
  {
    assert (ds + [d])[..|ds|] == ds;
  }

  lemma {:induction false} ValueCons(base: nat, d: int, ds: seq<int>)
    ensures Value(base, [d] + ds) == d * Pow(base, |ds|) + Value(base, ds)
    decreases |ds|
  {
    if ds == [] {
      assert [d] + ds == [d] && [d][..0] == [];
    } else {
      var n := |ds| - 1;
      ValueCons(base, d, ds[..n]);
      assert [d] + ds == ([d] + ds[..n]) + [ds[n]];
      assert ([d] + ds)[..|ds|] == [d] + ds[..n];
      Shift(d, Pow(base, n), Value(base, ds[..n]), base);
    }
  }

  lemma Shift(d: int, p: int, v: int, base: int)
    ensures (d * p + v) * base == d * (base * p) + v * base
  {
  }

  lemma BoundStep(v: int, p: int, base: int, d: int)
    requires 0 <= v < p && 0 <= d < base
    ensures 0 <= v * base + d < base * p
  {
    MulLe(v + 1, p, base);
    MulLe(0, v, base);
    assert (v + 1) * base == v * base + base;
  }

  lemma {:induction false} ValueBound(base: nat, ds: seq<int>)
    requires DigitsIn(base, ds)
    ensures 0 <= Value(base, ds) < Pow(base, |ds|)
    decreases |ds|
  {
    if ds != [] {
      var n := |ds| - 1;
      ValueBound(base, ds[..n]);
      BoundStep(Value(base, ds[..n]), Pow(base, n), base, ds[n]);
    }
  }

  /** A digit string that starts with a non-zero digit is at least that power of the base. */
  lemma ValueAtLeast(base: nat, ds: seq<int>)
    requires DigitsIn(base, ds) && ds != [] && ds[0] != 0
    ensures Value(base, ds) >= Pow(base, |ds| - 1)
  {
    assert ds == [ds[0]] + ds[1..];
    ValueCons(base, ds[0], ds[1..]);
    ValueBound(base, ds[1..]);
    MulLe(1, ds[0], Pow(base, |ds| - 1));
  }

  lemma {:induction false} LeadingZeroes(base: nat, zs: seq<int>, ds: seq<int>)
    requires forall i :: 0 <= i < |zs| ==> zs[i] == 0
    ensures Value(base, zs + ds) == Value(base, ds)
    decreases |zs|
  {
    if zs == [] {
      assert zs + ds == ds;
    } else {
      LeadingZeroes(base, zs[1..], ds);
      assert zs + ds == [0] + (zs[1..] + ds);
      ValueCons(base, 0, zs[1..] + ds);
    }
  }

  // ----- Shortest digits -----

  lemma DivMod(v: nat, base: nat)
    requires base >= 2
    ensures v / base * base + v % base == v && 0 <= v % base < base && (v > 0 ==> v / base < v)
  {
  }

  lemma {:induction false} DigitsAre(base: nat, v: nat)
    requires base >= 2
    ensures DigitsIn(base, Digits(base, v))
    ensures Value(base, Digits(base, v)) == v
    ensures v > 0 ==> Digits(base, v) != [] && Digits(base, v)[0] != 0
    decreases v
  {
    if v > 0 {
      DivMod(v, base);
      DigitsAre(base, v / base);
      ValueSnoc(base, Digits(base, v / base), v % base);
    }
  }

  lemma DivUnique(q: nat, r: nat, base: nat)
    requires base >= 2 && r < base
    ensures (q * base + r) / base == q && (q * base + r) % base == r
  {
    var v := q * base + r;
    DivMod(v, base);
    assert (v / base - q) * base == r - v % base;
    if v / base > q { MulLe(1, v / base - q, base); } else if v / base < q { MulLe(v / base - q, -1, base); }
  }

  /** A digit string without leading zeroes is the digits of its value. */
  lemma {:induction false} DigitsUnique(base: nat, ds: seq<int>)
    requires base >= 2 && DigitsIn(base, ds) && (ds == [] || ds[0] != 0)
    ensures Value(base, ds) >= 0 && Digits(base, Value(base, ds)) == ds
    decreases |ds|
  {
    ValueBound(base, ds);
    if ds != [] {
      var n := |ds| - 1;
      ValueBound(base, ds[..n]);
      DigitsUnique(base, ds[..n]);
      ValueAtLeast(base, ds);
      PowPositive(base, n);
      DivUnique(Value(base, ds[..n]), ds[n], base);
      assert ds == ds[..n] + [ds[n]];
    }
  }
}
