/**
 Any three wrong symbols within a stretch of 1023 are found by the Bech32 checksum, as the
 comments on the generator promise.
 */
module Bech32Distance {
  import opened Bech32Checksum
  import opened Bech32Field

  // ----- The register as a polynomial -----

  /** The register's polynomial, evaluated at the element of `m`. */
  function At(m: Matrix, c: Register): Register {
    Horner(m, c >> 25, (c >> 20) & 31, (c >> 15) & 31, (c >> 10) & 31, (c >> 5) & 31, c & 31)
  }

  lemma LevelXor(m: Matrix, h: Register, k: Register, b: Register, d: Register)
    ensures Xor(Apply(m, Xor(h, k)), Xor(b, d)) == Xor(Xor(Apply(m, h), b), Xor(Apply(m, k), d))
  {
    hide Apply, Xor;
    Additive(m, h, k);
    Regroup(Apply(m, h), Apply(m, k), b, d);
  }

  lemma HornerXor(m: Matrix, a: Register, b: Register, c: Register, d: Register, e: Register, f: Register,
                  u: Register, v: Register, w: Register, x: Register, y: Register, z: Register)
    ensures Horner(m, Xor(a, u), Xor(b, v), Xor(c, w), Xor(d, x), Xor(e, y), Xor(f, z)) ==
            Xor(Horner(m, a, b, c, d, e, f), Horner(m, u, v, w, x, y, z))
  {
    hide Apply, Xor;
    LevelXor(m, a, u, b, v);
    var h1, k1 := Xor(Apply(m, a), b), Xor(Apply(m, u), v);
    LevelXor(m, h1, k1, c, w);
    var h2, k2 := Xor(Apply(m, h1), c), Xor(Apply(m, k1), w);
    LevelXor(m, h2, k2, d, x);
    var h3, k3 := Xor(Apply(m, h2), d), Xor(Apply(m, k2), x);
    LevelXor(m, h3, k3, e, y);
    var h4, k4 := Xor(Apply(m, h3), e), Xor(Apply(m, k3), y);
    LevelXor(m, h4, k4, f, z);
  }

  lemma HighLanes(c: Register, d: Register)
    ensures Xor(c, d) >> 25 == Xor(c >> 25, d >> 25)
    ensures (Xor(c, d) >> 20) & 31 == Xor((c >> 20) & 31, (d >> 20) & 31)
    ensures (Xor(c, d) >> 15) & 31 == Xor((c >> 15) & 31, (d >> 15) & 31)
  {
  }

  lemma LowLanes(c: Register, d: Register)
    ensures (Xor(c, d) >> 10) & 31 == Xor((c >> 10) & 31, (d >> 10) & 31)
    ensures (Xor(c, d) >> 5) & 31 == Xor((c >> 5) & 31, (d >> 5) & 31)
    ensures Xor(c, d) & 31 == Xor(c & 31, d & 31)
  {
  }

  lemma AtXor(m: Matrix, c: Register, d: Register)
    ensures At(m, Xor(c, d)) == Xor(At(m, c), At(m, d))
  {
    hide Horner, Xor;
    HighLanes(c, d);
    LowLanes(c, d);
    HornerXor(m, c >> 25, (c >> 20) & 31, (c >> 15) & 31, (c >> 10) & 31, (c >> 5) & 31, c & 31,
              d >> 25, (d >> 20) & 31, (d >> 15) & 31, (d >> 10) & 31, (d >> 5) & 31, d & 31);
  }

  lemma HornerShift(m: Matrix, b: Register, c: Register, d: Register, e: Register, f: Register)
    ensures Apply(m, Horner(m, 0, b, c, d, e, f)) == Horner(m, b, c, d, e, f, 0)
  {
    hide Apply, Xor;
    ApplyZero(m);
    XorFacts(b, 0);
    XorFacts(Apply(m, Horner(m, 0, b, c, d, e, f)), 0);
  }

  lemma HornerLast(m: Matrix, f: Register)
    ensures Horner(m, 0, 0, 0, 0, 0, f) == f
  {
    hide Apply, Xor;
    ApplyZero(m);
    XorFacts(0, 0);
    XorFacts(f, 0);
  }

  /** Multiplying by x carries the leading coefficient out of the register. */
  lemma HornerTop(m: Matrix, a: Register, b: Register, c: Register, d: Register, e: Register, f: Register)
    ensures Apply(m, Horner(m, a, b, c, d, e, f)) == Xor(Sixth(m, a), Horner(m, b, c, d, e, f, 0))
  {
    hide Apply, Xor, Horner;
    XorFacts(a, 0);
    XorFacts(b, 0);
    XorFacts(c, 0);
    XorFacts(d, 0);
    XorFacts(e, 0);
    XorFacts(f, 0);
    HornerXor(m, a, 0, 0, 0, 0, 0, 0, b, c, d, e, f);
    Additive(m, Horner(m, a, 0, 0, 0, 0, 0), Horner(m, 0, b, c, d, e, f));
    HornerShift(m, b, c, d, e, f);
  }

  lemma ShiftLanes(c: Register)
    requires c < TOP
    ensures ((c & 0x1ffffff) << 5) >> 25 == (c >> 20) & 31
    ensures (((c & 0x1ffffff) << 5) >> 20) & 31 == (c >> 15) & 31
    ensures (((c & 0x1ffffff) << 5) >> 15) & 31 == (c >> 10) & 31
    ensures (((c & 0x1ffffff) << 5) >> 10) & 31 == (c >> 5) & 31
    ensures (((c & 0x1ffffff) << 5) >> 5) & 31 == c & 31
    ensures ((c & 0x1ffffff) << 5) & 31 == 0
  {
  }

  lemma AtShift(m: Matrix, c: Register)
    requires c < TOP
    ensures Apply(m, At(m, c)) == Xor(Sixth(m, c >> 25), At(m, (c & 0x1ffffff) << 5))
  {
    hide Apply, Xor, Horner, Sixth;
    HornerTop(m, c >> 25, (c >> 20) & 31, (c >> 15) & 31, (c >> 10) & 31, (c >> 5) & 31, c & 31);
    ShiftLanes(c);
  }

  lemma SymbolLanes(v: Register)
    requires v < 32
    ensures v >> 25 == 0 && (v >> 20) & 31 == 0 && (v >> 15) & 31 == 0
    ensures (v >> 10) & 31 == 0 && (v >> 5) & 31 == 0 && v & 31 == v
  {
  }

  lemma AtSymbol(m: Matrix, v: Register)
    requires v < 32
    ensures At(m, v) == v
  {
    hide Horner;
    SymbolLanes(v);
    HornerLast(m, v);
  }

  // ----- The roots of the generator -----

  lemma AtPick(m: Matrix, t: Register, bit: Register, k: Register)
    ensures At(m, Pick(t, bit, k)) == Pick(t, bit, At(m, k))
  {
    hide At;
    AtSymbol(m, 0);
  }

  lemma AtFive(m: Matrix, t: Register, k0: Register, k1: Register, k2: Register, k3: Register, k4: Register)
    ensures At(m, Five(t, k0, k1, k2, k3, k4)) ==
            Five(t, At(m, k0), At(m, k1), At(m, k2), At(m, k3), At(m, k4))
  {
    hide At, Pick, Xor;
    AtPick(m, t, 1, k0);
    AtPick(m, t, 2, k1);
    AtPick(m, t, 4, k2);
    AtPick(m, t, 8, k3);
    AtPick(m, t, 16, k4);
    var p0, p1, p2, p3, p4 := Pick(t, 1, k0), Pick(t, 2, k1), Pick(t, 4, k2), Pick(t, 8, k3), Pick(t, 16, k4);
    AtXor(m, p0, p1);
    AtXor(m, p2, p3);
    AtXor(m, Xor(p0, p1), Xor(p2, p3));
    AtXor(m, Xor(Xor(p0, p1), Xor(p2, p3)), p4);
  }

  lemma SixthXor(m: Matrix, a: Register, b: Register)
    ensures Sixth(m, Xor(a, b)) == Xor(Sixth(m, a), Sixth(m, b))
  {
    hide Apply, Xor, Horner;
    XorFacts(0, 0);
    HornerXor(m, a, 0, 0, 0, 0, 0, b, 0, 0, 0, 0, 0);
    Additive(m, Horner(m, a, 0, 0, 0, 0, 0), Horner(m, b, 0, 0, 0, 0, 0));
  }

  lemma SixthPick(m: Matrix, t: Register, bit: Register, k: Register)
    ensures Sixth(m, Pick(t, bit, k)) == Pick(t, bit, Sixth(m, k))
  {
    hide Sixth, Xor;
    SixthXor(m, 0, 0);
    XorFacts(0, 0);
    XorFacts(Sixth(m, 0), 0);
  }

  lemma SixthFive(m: Matrix, t: Register, k0: Register, k1: Register, k2: Register, k3: Register, k4: Register)
    ensures Sixth(m, Five(t, k0, k1, k2, k3, k4)) ==
            Five(t, Sixth(m, k0), Sixth(m, k1), Sixth(m, k2), Sixth(m, k3), Sixth(m, k4))
  {
    hide Sixth, Pick, Xor;
    SixthPick(m, t, 1, k0);
    SixthPick(m, t, 2, k1);
    SixthPick(m, t, 4, k2);
    SixthPick(m, t, 8, k3);
    SixthPick(m, t, 16, k4);
    var p0, p1, p2, p3, p4 := Pick(t, 1, k0), Pick(t, 2, k1), Pick(t, 4, k2), Pick(t, 8, k3), Pick(t, 16, k4);
    SixthXor(m, p0, p1);
    SixthXor(m, p2, p3);
    SixthXor(m, Xor(p0, p1), Xor(p2, p3));
    SixthXor(m, Xor(Xor(p0, p1), Xor(p2, p3)), p4);
  }

  lemma GeneratorLanes(m: Matrix)
    ensures At(m, 0x3b6a57b2) == Horner(m, 29, 22, 20, 21, 29, 18)
    ensures At(m, 0x26508e6d) == Horner(m, 19, 5, 1, 3, 19, 13)
    ensures At(m, 0x1ea119fa) == Horner(m, 15, 10, 2, 6, 15, 26)
    ensures At(m, 0x3d4233dd) == Horner(m, 30, 20, 4, 12, 30, 29)
    ensures At(m, 0x2a1462b3) == Horner(m, 21, 1, 8, 24, 21, 19)
  {
    hide Horner;
  }

  /** The element of `m` is a root of the generator: x^6 and k(x) agree there. */
  ghost predicate Root(m: Matrix) {
    forall t: Register :: t < 32 ==> At(m, Feedback(t)) == Sixth(m, t)
  }

  lemma LowUnits(t: Register)
    requires t < 32
    ensures Five(t, 1, 2, 4, 8, 16) == t
  {
    hide Five;
    Units(t);
    SymbolLanes(t);
  }

  lemma RootByUnits(m: Matrix)
    requires At(m, 0x3b6a57b2) == Sixth(m, 1) && At(m, 0x26508e6d) == Sixth(m, 2)
    requires At(m, 0x1ea119fa) == Sixth(m, 4) && At(m, 0x3d4233dd) == Sixth(m, 8)
    requires At(m, 0x2a1462b3) == Sixth(m, 16)
    ensures Root(m)
  {
    hide At, Sixth, Five;
    forall t: Register | t < 32
      ensures At(m, Feedback(t)) == Sixth(m, t)
    {
      AtFive(m, t, 0x3b6a57b2, 0x26508e6d, 0x1ea119fa, 0x3d4233dd, 0x2a1462b3);
      SixthFive(m, t, 1, 2, 4, 8, 16);
      LowUnits(t);
    }
  }

  lemma Root997()
    ensures Root(E997)
  {
    hide Horner, Sixth, At, Root;
    GeneratorLanes(E997);
    Root997At1();
    Root997At2();
    Root997At4();
    Root997At8();
    Root997At16();
    RootByUnits(E997);
  }

  lemma Root998()
    ensures Root(E998)
  {
    hide Horner, Sixth, At, Root;
    GeneratorLanes(E998);
    Root998At1();
    Root998At2();
    Root998At4();
    Root998At8();
    Root998At16();
    RootByUnits(E998);
  }

  lemma Root999()
    ensures Root(E999)
  {
    hide Horner, Sixth, At, Root;
    GeneratorLanes(E999);
    Root999At1();
    Root999At2();
    Root999At4();
    Root999At8();
    Root999At16();
    RootByUnits(E999);
  }

  lemma Roots()
    ensures Root(E997) && Root(E998) && Root(E999)
  {
    hide Root;
    Root997();
    Root998();
    Root999();
  }

  // ----- From the register to the symbols -----

  lemma TopIsSmall(c: Register, v: Symbol)
    requires c < TOP
    ensures c >> 25 < 32
    ensures v as Register < 32
  {
  }

  lemma Rotate(a: Register, b: Register, c: Register)
    ensures Xor(Xor(a, b), c) == Xor(Xor(c, a), b)
  {
    assert (a ^ b) ^ c == (c ^ a) ^ b;
  }

  /** At a root, a round multiplies by the element and adds the symbol. */
  lemma StepAt(m: Matrix, c: Register, v: Symbol)
    requires Root(m) && c < TOP
    ensures At(m, Step(c, v)) == Xor(Apply(m, At(m, c)), v as Register)
  {
    hide At, Sixth, Apply, Xor, Feedback;
    var low, x, t := (c & 0x1ffffff) << 5, v as Register, c >> 25;
    TopIsSmall(c, v);
    AtXor(m, Xor(low, x), Feedback(t));
    AtXor(m, low, x);
    AtSymbol(m, x);
    AtShift(m, c);
    Rotate(At(m, low), x, Sixth(m, t));
  }

  /** The symbols read as a polynomial, evaluated at the element of `m`. */
  function Eval(m: Matrix, xs: seq<Symbol>): Register {
    if xs == [] then 0 else Xor(Apply(m, Eval(m, xs[..|xs| - 1])), xs[|xs| - 1] as Register)
  }

  lemma {:induction false} FoldAt(m: Matrix, xs: seq<Symbol>)
    requires Root(m)
    ensures At(m, Fold(0, xs)) == Eval(m, xs)
  {
    hide At, Apply, Xor, Step, Root;
    if xs == [] {
      AtSymbol(m, 0);
    } else {
      var rest := xs[..|xs| - 1];
      FoldAt(m, rest);
      FoldFits(0, rest);
      StepAt(m, Fold(0, rest), xs[|xs| - 1]);
    }
  }

  lemma {:induction false} EvalRun(m: Matrix, xs: seq<Symbol>, p: nat)
    requires p <= |xs| && Blank(xs[p..])
    ensures Eval(m, xs) == Iter(m, |xs| - p, Eval(m, xs[..p]))
  {
    hide Apply, Xor;
    if p == |xs| {
      assert xs[..p] == xs;
    } else {
      var n := |xs| - 1;
      assert xs[p..][n - p] == 0;
      assert forall i :: 0 <= i < n - p ==> xs[..n][p..][i] == xs[p..][i];
      EvalRun(m, xs[..n], p);
      assert xs[..n][..p] == xs[..p];
      ZeroSymbol();
      XorFacts(Apply(m, Eval(m, xs[..n])), 0);
    }
  }

  lemma ZeroSymbol()
    ensures (0 as Symbol) as Register == 0
  {
  }

  lemma {:induction false} IterZero(m: Matrix, n: nat)
    ensures Iter(m, n, 0) == 0
  {
    hide Apply;
    if n > 0 {
      IterZero(m, n - 1);
      ApplyZero(m);
    }
  }

  lemma EvalSpot(m: Matrix, xs: seq<Symbol>, p: nat, q: nat)
    requires p <= q < |xs| && Blank(xs[p..q])
    ensures Eval(m, xs[..q + 1]) == Xor(Iter(m, q + 1 - p, Eval(m, xs[..p])), xs[q] as Register)
  {
    hide Apply, Xor, Iter, Blank, Eval;
    assert xs[..q][p..] == xs[p..q] && xs[..q][..p] == xs[..p];
    EvalRun(m, xs[..q], p);
    EvalLast(m, xs, q);
    IterNext(m, q - p, Eval(m, xs[..p]));
  }

  lemma EvalLast(m: Matrix, xs: seq<Symbol>, q: nat)
    requires q < |xs|
    ensures Eval(m, xs[..q + 1]) == Xor(Apply(m, Eval(m, xs[..q])), xs[q] as Register)
  {
    assert xs[..q + 1][..q] == xs[..q];
  }

  lemma IterNext(m: Matrix, n: nat, v: Register)
    ensures Iter(m, n + 1, v) == Apply(m, Iter(m, n, v))
  {
  }

  /** Symbols at three places, the last of them at the end. */
  ghost predicate Sparse(xs: seq<Symbol>, i: nat, j: nat) {
    i < j < |xs| - 1 && Blank(xs[..i]) && Blank(xs[i + 1..j]) && Blank(xs[j + 1..|xs| - 1])
  }

  lemma EvalSparse(m: Matrix, xs: seq<Symbol>, i: nat, j: nat)
    requires Sparse(xs, i, j)
    ensures Eval(m, xs) == Xor(Xor(Iter(m, |xs| - 1 - i, xs[i] as Register), Iter(m, |xs| - 1 - j, xs[j] as Register)),
                               xs[|xs| - 1] as Register)
  {
    hide Apply, Xor, Iter, Blank, Eval;
    var k := |xs| - 1;
    var a, b := xs[i] as Register, xs[j] as Register;
    assert xs[0..i] == xs[..i] && xs[..0] == [] && xs[..k + 1] == xs;
    EvalSpot(m, xs, 0, i);
    assert Eval(m, []) == 0 by { EvalEmpty(m); }
    IterZero(m, i + 1);
    XorFacts(a, 0);
    EvalSpot(m, xs, i + 1, j);
    EvalSpot(m, xs, j + 1, k);
    IterXor(m, k - j, Iter(m, j - i, a), b);
    IterAdd(m, k - j, j - i, a);
  }

  lemma EvalEmpty(m: Matrix)
    ensures Eval(m, []) == 0
  {
  }

  // ----- The element e has order 1023 -----

  ghost predicate Fixed(n: nat, v: Register) {
    Iter(E1, n, v) == v
  }

  lemma {:induction false} FixedMultiple(n: nat, k: nat, v: Register)
    requires Fixed(n, v)
    ensures Fixed(n * k, v)
  {
    hide Apply;
    if k > 0 {
      FixedMultiple(n, k - 1, v);
      IterAdd(E1, n, n * (k - 1), v);
      assert n + n * (k - 1) == n * k;
    }
  }

  /** If d has an inverse modulo p, a period d makes 1023 / p a period. */
  lemma Cofactor(d: nat, s: nat, q: nat, p: nat, c: nat, v: Register)
    requires d * s == p * q + 1 && p * c == 1023
    requires Fixed(d, v) && Fixed(1023, v)
    ensures Fixed(c, v)
  {
    hide Iter;
    FixedMultiple(d, s * c, v);
    FixedMultiple(1023, q, v);
    calc {
      d * (s * c);
      (d * s) * c;
      (p * q + 1) * c;
      (p * c) * q + c;
      c + 1023 * q;
    }
    IterAdd(E1, c, 1023 * q, v);
  }

  function Inverse11(r: nat): nat {
    if r == 1 then 1 else if r == 2 then 6 else if r == 3 then 4 else if r == 4 then 3 else if r == 5 then 9
    else if r == 6 then 2 else if r == 7 then 8 else if r == 8 then 7 else if r == 9 then 5 else 10
  }

  function Inverse31(r: nat): nat {
    if r == 1 then 1 else if r == 2 then 16 else if r == 3 then 21 else if r == 4 then 8 else if r == 5 then 25
    else if r == 6 then 26 else if r == 7 then 9 else if r == 8 then 4 else if r == 9 then 7 else if r == 10 then 28
    else if r == 11 then 17 else if r == 12 then 13 else if r == 13 then 12 else if r == 14 then 20
    else if r == 15 then 29 else if r == 16 then 2 else if r == 17 then 11 else if r == 18 then 19
    else if r == 19 then 18 else if r == 20 then 14 else if r == 21 then 3 else if r == 22 then 24
    else if r == 23 then 27 else if r == 24 then 22 else if r == 25 then 5 else if r == 26 then 6
    else if r == 27 then 23 else if r == 28 then 10 else if r == 29 then 15 else 30
  }

  lemma Inverses(r: nat)
    ensures 0 < r < 11 ==> (r * Inverse11(r)) % 11 == 1
    ensures 0 < r < 31 ==> (r * Inverse31(r)) % 31 == 1
  {
  }

  lemma Lift(d: nat, s: nat, p: nat) returns (q: nat)
    requires p > 0 && ((d % p) * s) % p == 1
    ensures d * s == p * q + 1
  {
    var t, r := d / p, d % p;
    var u := (r * s) / p;
    q := t * s + u;
    assert r * s == p * u + 1;
    assert d == p * t + r;
    assert d * s == (p * t) * s + r * s;
    assert (p * t) * s == p * (t * s);
    assert p * q == p * (t * s) + p * u;
  }

  lemma Coprime(d: nat, s: nat, p: nat, c: nat, v: Register)
    requires p > 0 && ((d % p) * s) % p == 1 && p * c == 1023
    requires Fixed(d, v) && Fixed(1023, v)
    ensures Fixed(c, v)
  {
    hide Fixed;
    var q := Lift(d, s, p);
    Cofactor(d, s, q, p, c, v);
  }

  lemma Divisors(d: int, a: int, b: int, c: int)
    requires d == 3 * a && d == 11 * b && d == 31 * c
    ensures d == 1023 * (16 * c - 17 * (4 * b - a))
  {
  }

  /** Only zero comes back early. */
  lemma NoPeriod(d: nat, v: Register)
    requires 0 < d < 1023 && v < 1024 && Iter(E1, d, v) == v
    ensures v == 0
  {
    hide Power, Apply, Iter, Inverse11, Inverse31;
    Powers();
    assert Fixed(d, v);
    assert Fixed(1023, v) by {
      Order1023(v);
      PowerAt(1023, E1023, v);
    }
    if d % 3 != 0 {
      Coprime(d, d % 3, 3, 341, v);
      PowerAt(341, E341, v);
      Moves341(v);
    } else if d % 11 != 0 {
      Inverses(d % 11);
      Coprime(d, Inverse11(d % 11), 11, 93, v);
      PowerAt(93, E93, v);
      Moves93(v);
    } else if d % 31 != 0 {
      Inverses(d % 31);
      Coprime(d, Inverse31(d % 31), 31, 33, v);
      PowerAt(33, E33, v);
      Moves33(v);
    } else {
      Divisors(d, d / 3, d / 11, d / 31);
      assert false;
    }
  }

  lemma PowerAt(n: nat, m: Matrix, v: Register)
    requires Power(n, m)
    ensures Iter(E1, n, v) == Apply(m, v)
  {
  }

  // ----- Three unknowns -----

  lemma {:induction false} Commute(a: Matrix, n: nat, v: Register)
    requires Times(E1, a) == Times(a, E1)
    ensures Apply(a, Iter(E1, n, v)) == Iter(E1, n, Apply(a, v))
  {
    hide Apply, Times;
    if n > 0 {
      Commute(a, n - 1, v);
      var x := Iter(E1, n - 1, v);
      Compose(a, E1, x);
      Compose(E1, a, x);
    }
  }

  lemma {:induction false} Twist(a: Matrix, b: Matrix, n: nat, v: Register)
    requires Times(E1, a) == b && Times(a, E1) == b
    ensures Iter(b, n, v) == Iter(E1, n, Iter(a, n, v))
  {
    hide Apply, Times;
    if n > 0 {
      Twist(a, b, n - 1, v);
      var x := Iter(a, n - 1, v);
      Compose(E1, a, Iter(E1, n - 1, x));
      Commute(a, n - 1, x);
    }
  }

  lemma Cancel(a: Register, b: Register, c: Register, d: Register, e: Register)
    requires Xor(Xor(a, b), c) == 0 && Xor(Xor(d, e), c) == 0
    ensures Xor(d, a) == Xor(e, b)
  {
    hide Xor;
    XorFacts(Xor(a, b), c);
    XorFacts(Xor(d, e), c);
    XorFacts(c, c);
    Regroup(d, e, a, b);
    XorFacts(Xor(d, a), Xor(e, b));
  }

  /** Two different powers of e agree on nothing but zero. */
  lemma PowersDiffer(p: nat, q: nat, u: Register)
    requires q < p < q + 1023 && u < 1024 && Iter(E1, p, u) == Iter(E1, q, u)
    ensures u == 0
  {
    hide Apply, Xor, Iter, Regular;
    var w := Iter(E1, p - q, u);
    IterAdd(E1, q, p - q, u);
    IterXor(E1, q, w, u);
    XorFacts(Iter(E1, q, w), 0);
    Regular1();
    assert Small(E1);
    IterSmall(E1, p - q, u);
    XorSmall(w, u);
    IterRegular(E1, q, Xor(w, u));
    XorFacts(w, u);
    NoPeriod(p - q, u);
  }

  /** The equations for three errors at different places have no solution but zero. */
  lemma Vandermonde(p: nat, q: nat, a: Register, b: Register, c: Register)
    requires 0 < q < p < 1023 && a < 1024 && b < 1024
    requires Xor(Xor(a, b), c) == 0
    requires Xor(Xor(Iter(E1, p, a), Iter(E1, q, b)), c) == 0
    requires Xor(Xor(Iter(E1, p, Iter(E1, p, a)), Iter(E1, q, Iter(E1, q, b))), c) == 0
    ensures a == 0 && b == 0 && c == 0
  {
    hide Apply, Xor, Iter;
    var a1, b1 := Iter(E1, p, a), Iter(E1, q, b);
    var u := Xor(a1, a);
    Cancel(a, b, c, a1, b1);
    Cancel(a1, b1, c, Iter(E1, p, a1), Iter(E1, q, b1));
    IterXor(E1, p, a1, a);
    IterXor(E1, q, b1, b);
    assert Small(E1);
    IterSmall(E1, p, a);
    XorSmall(a1, a);
    PowersDiffer(p, q, u);
    XorFacts(a1, a);
    XorFacts(b1, b);
    NoPeriod(p, a);
    NoPeriod(q, b);
    XorFacts(0, 0);
    XorFacts(c, 0);
  }

  lemma SymbolSmall(v: Symbol)
    ensures v as Register < 1024
    ensures v as Register == 0 ==> v == 0
  {
  }

  lemma Regular997Small()
    ensures Small(E997)
  {
  }

  lemma Sums(xs: seq<Symbol>, i: nat, j: nat)
    requires Sparse(xs, i, j) && Fold(0, xs) == 0
    ensures var p, q := |xs| - 1 - i, |xs| - 1 - j;
      var a, b, c := Iter(E997, p, xs[i] as Register), Iter(E997, q, xs[j] as Register), xs[|xs| - 1] as Register;
      && Xor(Xor(a, b), c) == 0
      && Xor(Xor(Iter(E1, p, a), Iter(E1, q, b)), c) == 0
      && Xor(Xor(Iter(E1, p, Iter(E1, p, a)), Iter(E1, q, Iter(E1, q, b))), c) == 0
  {
    hide Apply, Xor, Iter, Eval, Fold, At, Root, Sparse, Times;
    Roots();
    FoldAt(E997, xs);
    FoldAt(E998, xs);
    FoldAt(E999, xs);
    AtSymbol(E997, 0);
    AtSymbol(E998, 0);
    AtSymbol(E999, 0);
    EvalSparse(E997, xs, i, j);
    EvalSparse(E998, xs, i, j);
    EvalSparse(E999, xs, i, j);
    assert Sparse(xs, i, j);
    SparseBounds(xs, i, j);
    Root998Products();
    Root999Products();
    Twist(E997, E998, |xs| - 1 - i, xs[i] as Register);
    Twist(E997, E998, |xs| - 1 - j, xs[j] as Register);
    Twist(E998, E999, |xs| - 1 - i, xs[i] as Register);
    Twist(E998, E999, |xs| - 1 - j, xs[j] as Register);
  }

  lemma SparseBounds(xs: seq<Symbol>, i: nat, j: nat)
    requires Sparse(xs, i, j)
    ensures i < j < |xs| - 1
  {
  }

  lemma SparseZero(xs: seq<Symbol>, i: nat, j: nat)
    requires Sparse(xs, i, j) && |xs| - 1 - i < 1023 && Fold(0, xs) == 0
    ensures xs[i] == 0 && xs[j] == 0 && xs[|xs| - 1] == 0
  {
    hide Apply, Xor, Iter, Fold, Regular;
    var p, q := |xs| - 1 - i, |xs| - 1 - j;
    var x, y, c := xs[i] as Register, xs[j] as Register, xs[|xs| - 1] as Register;
    Sums(xs, i, j);
    SymbolSmall(xs[i]);
    SymbolSmall(xs[j]);
    SymbolSmall(xs[|xs| - 1]);
    Regular997Small();
    IterSmall(E997, p, x);
    IterSmall(E997, q, y);
    Vandermonde(p, q, Iter(E997, p, x), Iter(E997, q, y), c);
    Regular997();
    IterRegular(E997, p, x);
    IterRegular(E997, q, y);
  }

  // ----- Any three wrong symbols -----

  /** Nothing but zeroes outside the places `i`, `j` and `k`. */
  ghost predicate OnlyAt(xs: seq<Symbol>, i: nat, j: nat, k: nat) {
    forall p :: 0 <= p < |xs| && p != i && p != j && p != k ==> xs[p] == 0
  }

  lemma OnlyAtSparse(xs: seq<Symbol>, i: nat, j: nat, k: nat)
    requires i < j < k < |xs| && OnlyAt(xs, i, j, k)
    ensures Sparse(xs[..k + 1], i, j) && Blank(xs[k + 1..])
  {
  }

  lemma ThreeApart(xs: seq<Symbol>, i: nat, j: nat, k: nat)
    requires i < j < k < |xs| && k - i < 1023 && OnlyAt(xs, i, j, k) && Fold(0, xs) == 0
    ensures Blank(xs)
  {
    hide Fold, Sparse;
    OnlyAtSparse(xs, i, j, k);
    var ys := xs[..k + 1];
    assert xs == ys + xs[k + 1..];
    FoldAppend(0, ys, xs[k + 1..]);
    FoldFits(0, ys);
    FoldBlank(Fold(0, ys), xs[k + 1..]);
    SparseZero(ys, i, j);
  }

  lemma NearBurst(xs: seq<Symbol>, i: nat, k: nat)
    requires i <= k < |xs| && k - i < 6 && OnlyAt(xs, i, i, k)
    requires forall p :: 0 <= p < |xs| && p < i ==> xs[p] == 0
    requires forall p :: 0 <= p < |xs| && p > k ==> xs[p] == 0
    requires Fold(0, xs) == 0
    ensures Blank(xs)
  {
    Burst(xs, i, k + 1);
  }

  lemma Three(xs: seq<Symbol>, i: nat, j: nat, k: nat)
    requires i <= j <= k < |xs| && k - i < 1023 && OnlyAt(xs, i, j, k) && Fold(0, xs) == 0
    ensures Blank(xs)
  {
    if i < j < k {
      ThreeApart(xs, i, j, k);
    } else if k - i < 2 {
      NearBurst(xs, i, k);
    } else {
      ThreeApart(xs, i, i + 1, k);
    }
  }

  /** Lists that differ in at most three places less than 1023 apart have different checksums. */
  lemma ThreeErrorsDetected(vs: seq<Symbol>, ws: seq<Symbol>, i: nat, j: nat, k: nat)
    requires |vs| == |ws| && i <= j <= k < |vs| && k - i < 1023
    requires forall p :: 0 <= p < |vs| && p != i && p != j && p != k ==> vs[p] == ws[p]
    ensures PolyMod(vs) == PolyMod(ws) <==> vs == ws
  {
    hide Fold, PolyMod;
    var xs := Difference(vs, ws);
    SameChecksum(vs, ws);
    forall p | 0 <= p < |xs|
      ensures xs[p] == 0 <==> vs[p] == ws[p]
    {
      SelfDifference(vs[p], ws[p]);
    }
    if Fold(0, xs) == 0 {
      Three(xs, i, j, k);
    }
  }
}
