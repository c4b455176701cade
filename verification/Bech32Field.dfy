/**
 Why the Bech32 generator finds any three wrong symbols: it has three consecutive powers of a
 primitive element of GF(1024) as roots. Elements are ten-bit words and multiplication by a
 fixed element is a ten by ten bit matrix.
 */
module Bech32Field {
  import opened Bech32Checksum

  /** A linear map on ten-bit words, by the images of the ten unit words. */
  datatype Matrix = Matrix(c0: Register, c1: Register, c2: Register, c3: Register, c4: Register,
                           c5: Register, c6: Register, c7: Register, c8: Register, c9: Register)

  function Apply(m: Matrix, v: Register): Register {
    Xor(Five(v, m.c0, m.c1, m.c2, m.c3, m.c4), Five(v >> 5, m.c5, m.c6, m.c7, m.c8, m.c9))
  }

  function Times(a: Matrix, b: Matrix): Matrix {
    Matrix(Apply(a, b.c0), Apply(a, b.c1), Apply(a, b.c2), Apply(a, b.c3), Apply(a, b.c4),
           Apply(a, b.c5), Apply(a, b.c6), Apply(a, b.c7), Apply(a, b.c8), Apply(a, b.c9))
  }

  function Iter(m: Matrix, n: nat, v: Register): Register {
    if n == 0 then v else Apply(m, Iter(m, n - 1, v))
  }

  // ----- Linear maps -----

  lemma ShiftBits(v: Register, w: Register)
    ensures (v ^ w) >> 5 == (v >> 5) ^ (w >> 5)
    ensures (v ^ w) & 31 == (v & 31) ^ (w & 31)
  {
  }

  lemma ShiftXor(v: Register, w: Register)
    ensures Xor(v, w) >> 5 == Xor(v >> 5, w >> 5)
    ensures Xor(v, w) & 31 == Xor(v & 31, w & 31)
  {
    ShiftBits(v, w);
  }

  lemma Additive(m: Matrix, v: Register, w: Register)
    ensures Apply(m, Xor(v, w)) == Xor(Apply(m, v), Apply(m, w))
  {
    hide Five, Xor;
    FiveLinear(v, w, m.c0, m.c1, m.c2, m.c3, m.c4);
    ShiftXor(v, w);
    FiveLinear(v >> 5, w >> 5, m.c5, m.c6, m.c7, m.c8, m.c9);
    Regroup(Five(v, m.c0, m.c1, m.c2, m.c3, m.c4), Five(w, m.c0, m.c1, m.c2, m.c3, m.c4),
            Five(v >> 5, m.c5, m.c6, m.c7, m.c8, m.c9), Five(w >> 5, m.c5, m.c6, m.c7, m.c8, m.c9));
  }

  lemma ApplyZero(m: Matrix)
    ensures Apply(m, 0) == 0
  {
    hide Apply;
    Additive(m, 0, 0);
    XorFacts(0, 0);
    XorFacts(Apply(m, 0), 0);
  }

  lemma ApplyPick(m: Matrix, v: Register, bit: Register, k: Register)
    ensures Apply(m, Pick(v, bit, k)) == Pick(v, bit, Apply(m, k))
  {
    hide Apply;
    ApplyZero(m);
  }

  lemma ApplyFive(m: Matrix, v: Register, k0: Register, k1: Register, k2: Register, k3: Register, k4: Register)
    ensures Apply(m, Five(v, k0, k1, k2, k3, k4)) ==
            Five(v, Apply(m, k0), Apply(m, k1), Apply(m, k2), Apply(m, k3), Apply(m, k4))
  {
    hide Apply, Pick, Xor;
    ApplyPick(m, v, 1, k0);
    ApplyPick(m, v, 2, k1);
    ApplyPick(m, v, 4, k2);
    ApplyPick(m, v, 8, k3);
    ApplyPick(m, v, 16, k4);
    var p0, p1, p2, p3, p4 := Pick(v, 1, k0), Pick(v, 2, k1), Pick(v, 4, k2), Pick(v, 8, k3), Pick(v, 16, k4);
    Additive(m, p0, p1);
    Additive(m, p2, p3);
    Additive(m, Xor(p0, p1), Xor(p2, p3));
    Additive(m, Xor(Xor(p0, p1), Xor(p2, p3)), p4);
  }

  lemma Compose(a: Matrix, b: Matrix, v: Register)
    ensures Apply(a, Apply(b, v)) == Apply(Times(a, b), v)
  {
    hide Five, Xor;
    var lo := Five(v, b.c0, b.c1, b.c2, b.c3, b.c4);
    var hi := Five(v >> 5, b.c5, b.c6, b.c7, b.c8, b.c9);
    assert Apply(a, Apply(b, v)) == Xor(Apply(a, lo), Apply(a, hi)) by {
      assert Apply(b, v) == Xor(lo, hi);
      hide Apply;
      Additive(a, lo, hi);
    }
    assert Apply(Times(a, b), v) == Xor(Apply(a, lo), Apply(a, hi)) by {
      assert Apply(Times(a, b), v) == Xor(Five(v, Apply(a, b.c0), Apply(a, b.c1), Apply(a, b.c2), Apply(a, b.c3), Apply(a, b.c4)),
        Five(v >> 5, Apply(a, b.c5), Apply(a, b.c6), Apply(a, b.c7), Apply(a, b.c8), Apply(a, b.c9)));
      hide Apply;
      ApplyFive(a, v, b.c0, b.c1, b.c2, b.c3, b.c4);
      ApplyFive(a, v >> 5, b.c5, b.c6, b.c7, b.c8, b.c9);
    }
  }


  ghost predicate Small(m: Matrix) {
    m.c0 < 1024 && m.c1 < 1024 && m.c2 < 1024 && m.c3 < 1024 && m.c4 < 1024 &&
    m.c5 < 1024 && m.c6 < 1024 && m.c7 < 1024 && m.c8 < 1024 && m.c9 < 1024
  }

  lemma XorSmall(a: Register, b: Register)
    requires a < 1024 && b < 1024
    ensures Xor(a, b) < 1024
  {
  }

  lemma PickSmall(v: Register, bit: Register, k: Register)
    requires k < 1024
    ensures Pick(v, bit, k) < 1024
  {
  }

  lemma FiveSmall(v: Register, k0: Register, k1: Register, k2: Register, k3: Register, k4: Register)
    requires k0 < 1024 && k1 < 1024 && k2 < 1024 && k3 < 1024 && k4 < 1024
    ensures Five(v, k0, k1, k2, k3, k4) < 1024
  {
    hide Pick, Xor;
    PickSmall(v, 1, k0);
    PickSmall(v, 2, k1);
    PickSmall(v, 4, k2);
    PickSmall(v, 8, k3);
    PickSmall(v, 16, k4);
    var p0, p1, p2, p3, p4 := Pick(v, 1, k0), Pick(v, 2, k1), Pick(v, 4, k2), Pick(v, 8, k3), Pick(v, 16, k4);
    XorSmall(p0, p1);
    XorSmall(p2, p3);
    XorSmall(Xor(p0, p1), Xor(p2, p3));
    XorSmall(Xor(Xor(p0, p1), Xor(p2, p3)), p4);
  }

  lemma ApplySmall(m: Matrix, v: Register)
    requires Small(m)
    ensures Apply(m, v) < 1024
  {
    hide Five, Xor;
    FiveSmall(v, m.c0, m.c1, m.c2, m.c3, m.c4);
    FiveSmall(v >> 5, m.c5, m.c6, m.c7, m.c8, m.c9);
    XorSmall(Five(v, m.c0, m.c1, m.c2, m.c3, m.c4), Five(v >> 5, m.c5, m.c6, m.c7, m.c8, m.c9));
  }

  lemma {:induction false} IterSmall(m: Matrix, n: nat, v: Register)
    requires Small(m) && v < 1024
    ensures Iter(m, n, v) < 1024
  {
    hide Apply, Small;
    if n > 0 {
      ApplySmall(m, Iter(m, n - 1, v));
    }
  }

  lemma {:induction false} IterAdd(m: Matrix, a: nat, b: nat, v: Register)
    ensures Iter(m, a + b, v) == Iter(m, a, Iter(m, b, v))
  {
    hide Apply;
    if a > 0 {
      IterAdd(m, a - 1, b, v);
    }
  }

  lemma {:induction false} IterXor(m: Matrix, n: nat, v: Register, w: Register)
    ensures Iter(m, n, Xor(v, w)) == Xor(Iter(m, n, v), Iter(m, n, w))
  {
    hide Apply, Xor;
    if n > 0 {
      IterXor(m, n - 1, v, w);
      Additive(m, Iter(m, n - 1, v), Iter(m, n - 1, w));
    }
  }

  /** A map that sends nothing but zero to zero can be undone. */
  ghost predicate Regular(m: Matrix) {
    Small(m) && forall v: Register :: v < 1024 && Apply(m, v) == 0 ==> v == 0
  }

  lemma {:induction false} IterRegular(m: Matrix, n: nat, v: Register)
    requires Regular(m) && v < 1024 && Iter(m, n, v) == 0
    ensures v == 0
  {
    hide Apply, Small;
    if n > 0 {
      IterSmall(m, n - 1, v);
      IterRegular(m, n - 1, v);
    }
  }

  // ----- The field GF(1024) -----

  /** Multiplication by a primitive element e, and by its powers. */
  const E1 := Matrix(0x20, 0x40, 0x80, 0x100, 0x200, 0x137, 0x247, 0x1ae, 0x35c, 0x3b1)
  const E2 := Matrix(0x137, 0x247, 0x1ae, 0x35c, 0x3b1, 0x8b, 0x116, 0x205, 0x12a, 0x254)
  const E3 := Matrix(0x8b, 0x116, 0x205, 0x12a, 0x254, 0xce, 0x19c, 0x311, 0x32b, 0x376)
  const E6 := Matrix(0x3a6, 0x26c, 0x1f8, 0x3d9, 0x2bb, 0xb4, 0x141, 0x282, 0x24, 0x48)
  const E12 := Matrix(0x1ce, 0x39c, 0x231, 0x16b, 0x2d6, 0x175, 0x2c3, 0xa6, 0x14c, 0x298)
  const E24 := Matrix(0x3ef, 0x2fe, 0xf5, 0x1c3, 0x386, 0x3d3, 0x2af, 0x7e, 0xd5, 0x183)
  const E30 := Matrix(0xf0, 0x1c9, 0x392, 0x22d, 0x17a, 0xde, 0x195, 0x303, 0x326, 0x36c)
  const E31 := Matrix(0xde, 0x195, 0x303, 0x326, 0x36c, 0x29, 0x52, 0x8d, 0x11a, 0x21d)
  const E33 := Matrix(0x17, 0x7, 0xe, 0x1c, 0x11, 0x2e0, 0xe0, 0x1c0, 0x380, 0x220)
  const E62 := Matrix(0x203, 0x126, 0x24c, 0x1b8, 0x359, 0x3d1, 0x2ab, 0x76, 0xc5, 0x18a)
  const E93 := Matrix(0x356, 0x3a5, 0x26a, 0x1f4, 0x3c1, 0x6a, 0xd4, 0x181, 0x302, 0x324)
  const E124 := Matrix(0x2af, 0x7e, 0xd5, 0x183, 0x306, 0x2c8, 0xb0, 0x149, 0x292, 0x2d)
  const E248 := Matrix(0x2b, 0x56, 0x85, 0x10a, 0x214, 0x57, 0x87, 0x10e, 0x21c, 0x131)
  const E310 := Matrix(0x14c, 0x298, 0x39, 0x5b, 0x9f, 0x9b, 0x11f, 0x217, 0x127, 0x24e)
  const E341 := Matrix(0x16d, 0x2da, 0xbd, 0x153, 0x28f, 0x18c, 0x318, 0x339, 0x37b, 0x3ff)
  const E682 := Matrix(0x16c, 0x2d8, 0xb9, 0x15b, 0x29f, 0x1ac, 0x358, 0x3b9, 0x27b, 0x1ff)
  const E997 := Matrix(0x1bd, 0x353, 0x3af, 0x27e, 0x1f5, 0x65, 0xca, 0x194, 0x301, 0x322)
  const E998 := Matrix(0x65, 0xca, 0x194, 0x301, 0x322, 0x3d0, 0x2a9, 0x72, 0xcd, 0x19a)
  const E999 := Matrix(0x3d0, 0x2a9, 0x72, 0xcd, 0x19a, 0x104, 0x208, 0x130, 0x249, 0x1b2)
  const E1023 := Matrix(0x1, 0x2, 0x4, 0x8, 0x10, 0x20, 0x40, 0x80, 0x100, 0x200)

  /** `m` is multiplication by the `n`-th power of e. */
  ghost predicate Power(n: nat, m: Matrix) {
    forall v: Register :: Iter(E1, n, v) == Apply(m, v)
  }

  lemma PowerSum(a: nat, b: nat, ma: Matrix, mb: Matrix)
    requires Power(a, ma) && Power(b, mb)
    ensures Power(a + b, Times(ma, mb))
  {
    hide Apply, Times, Iter;
    forall v: Register
      ensures Iter(E1, a + b, v) == Apply(Times(ma, mb), v)
    {
      IterAdd(E1, a, b, v);
      Compose(ma, mb, v);
    }
  }

  lemma Power1()
    ensures Power(1, E1)
  {
    hide Apply;
    forall v: Register
      ensures Iter(E1, 1, v) == Apply(E1, v)
    {
      assert Iter(E1, 0, v) == v;
    }
  }

  lemma Columns(a: Matrix, b: Matrix, p: Matrix)
    requires Apply(a, b.c0) == p.c0 && Apply(a, b.c1) == p.c1 && Apply(a, b.c2) == p.c2 && Apply(a, b.c3) == p.c3
    requires Apply(a, b.c4) == p.c4 && Apply(a, b.c5) == p.c5 && Apply(a, b.c6) == p.c6 && Apply(a, b.c7) == p.c7
    requires Apply(a, b.c8) == p.c8 && Apply(a, b.c9) == p.c9
    ensures Times(a, b) == p
  {
    hide Apply;
  }

  lemma Power2()
    ensures Power(2, E2)
  {
    hide Times, Power;
    Columns(E1, E1, E2);
    Power1();
    PowerSum(1, 1, E1, E1);
  }

  lemma Power3()
    ensures Power(3, E3)
  {
    hide Times, Power;
    Columns(E2, E1, E3);
    Power1();
    Power2();
    PowerSum(2, 1, E2, E1);
  }

  lemma Power6()
    ensures Power(6, E6)
  {
    hide Times, Power;
    Columns(E3, E3, E6);
    Power3();
    PowerSum(3, 3, E3, E3);
  }

  lemma Power12()
    ensures Power(12, E12)
  {
    hide Times, Power;
    Columns(E6, E6, E12);
    Power6();
    PowerSum(6, 6, E6, E6);
  }

  lemma Power24()
    ensures Power(24, E24)
  {
    hide Times, Power;
    Columns(E12, E12, E24);
    Power12();
    PowerSum(12, 12, E12, E12);
  }

  lemma Power30()
    ensures Power(30, E30)
  {
    hide Times, Power;
    Columns(E24, E6, E30);
    Power6();
    Power24();
    PowerSum(24, 6, E24, E6);
  }

  lemma Power31()
    ensures Power(31, E31)
  {
    hide Times, Power;
    Columns(E30, E1, E31);
    Power1();
    Power30();
    PowerSum(30, 1, E30, E1);
  }

  lemma Power33()
    ensures Power(33, E33)
  {
    hide Times, Power;
    Columns(E31, E2, E33);
    Power2();
    Power31();
    PowerSum(31, 2, E31, E2);
  }

  lemma Power62()
    ensures Power(62, E62)
  {
    hide Times, Power;
    Columns(E31, E31, E62);
    Power31();
    PowerSum(31, 31, E31, E31);
  }

  lemma Power93()
    ensures Power(93, E93)
  {
    hide Times, Power;
    Columns(E62, E31, E93);
    Power31();
    Power62();
    PowerSum(62, 31, E62, E31);
  }

  lemma Power124()
    ensures Power(124, E124)
  {
    hide Times, Power;
    Columns(E62, E62, E124);
    Power62();
    PowerSum(62, 62, E62, E62);
  }

  lemma Power248()
    ensures Power(248, E248)
  {
    hide Times, Power;
    Columns(E124, E124, E248);
    Power124();
    PowerSum(124, 124, E124, E124);
  }

  lemma Power310()
    ensures Power(310, E310)
  {
    hide Times, Power;
    Columns(E248, E62, E310);
    Power62();
    Power248();
    PowerSum(248, 62, E248, E62);
  }

  lemma Power341()
    ensures Power(341, E341)
  {
    hide Times, Power;
    Columns(E310, E31, E341);
    Power31();
    Power310();
    PowerSum(310, 31, E310, E31);
  }

  lemma Power682()
    ensures Power(682, E682)
  {
    hide Times, Power;
    Columns(E341, E341, E682);
    Power341();
    PowerSum(341, 341, E341, E341);
  }

  lemma Power1023()
    ensures Power(1023, E1023)
  {
    hide Times, Power;
    Columns(E682, E341, E1023);
    Power341();
    Power682();
    PowerSum(682, 341, E682, E341);
  }

  lemma Root998Products()
    ensures Times(E1, E997) == E998 && Times(E997, E1) == E998
  {
    hide Times;
    Columns(E1, E997, E998);
    Columns(E997, E1, E998);
  }

  lemma Root999Products()
    ensures Times(E1, E998) == E999 && Times(E998, E1) == E999
  {
    hide Times;
    Columns(E1, E998, E999);
    Columns(E998, E1, E999);
  }

  lemma Powers()
    ensures Power(33, E33) && Power(93, E93) && Power(341, E341) && Power(1023, E1023)
  {
    hide Power;
    Power33();
    Power93();
    Power341();
    Power1023();
  }

  lemma Moves33(v: Register)
    requires v < 1024 && Apply(E33, v) == v
    ensures v == 0
  {
  }

  lemma Moves93(v: Register)
    requires v < 1024 && Apply(E93, v) == v
    ensures v == 0
  {
  }

  lemma Moves341(v: Register)
    requires v < 1024 && Apply(E341, v) == v
    ensures v == 0
  {
  }

  lemma Units(v: Register)
    ensures Five(v, 1, 2, 4, 8, 16) == v & 31
    ensures Five(v, 32, 64, 128, 256, 512) == (v & 31) << 5
  {
  }

  lemma Halves(v: Register)
    requires v < 1024
    ensures (v & 31) ^ (((v >> 5) & 31) << 5) == v
  {
  }

  lemma Order1023(v: Register)
    requires v < 1024
    ensures Apply(E1023, v) == v
  {
    hide Five;
    Units(v);
    Units(v >> 5);
    Halves(v);
  }

  lemma Regular1()
    ensures Regular(E1)
  {
  }

  lemma Regular997()
    ensures Regular(E997)
  {
  }

  /** The polynomial with the given coefficients, evaluated at the element of `m`. */
  function Horner(m: Matrix, a: Register, b: Register, c: Register, d: Register, e: Register, f: Register): Register {
    Xor(Apply(m, Xor(Apply(m, Xor(Apply(m, Xor(Apply(m, Xor(Apply(m, a), b)), c)), d)), e)), f)
  }

  /** The sixth power of the element of `m`, times `a`. */
  function Sixth(m: Matrix, a: Register): Register {
    Apply(m, Horner(m, a, 0, 0, 0, 0, 0))
  }

  /** Horner's rule with the running value after each coefficient written out. */
  lemma Evaluated(m: Matrix, a: Register, b: Register, c: Register, d: Register, e: Register, f: Register,
                  p: Register, q: Register, r: Register, s: Register, t: Register)
    requires Xor(Apply(m, a), b) == p && Xor(Apply(m, p), c) == q && Xor(Apply(m, q), d) == r
    requires Xor(Apply(m, r), e) == s && Xor(Apply(m, s), f) == t
    ensures Horner(m, a, b, c, d, e, f) == t
  {
    hide Apply, Xor;
  }

  lemma Root997At1()
    ensures Horner(E997, 29, 22, 20, 21, 29, 18) == Sixth(E997, 1)
  {
    hide Horner;
    Evaluated(E997, 29, 22, 20, 21, 29, 18, 0x18f, 0x1be, 0x192, 0x2e, 0x2f5);
    Evaluated(E997, 1, 0, 0, 0, 0, 0, 0x1bd, 0x369, 0x34f, 0x3d6, 0x74);
  }

  lemma Root997At2()
    ensures Horner(E997, 19, 5, 1, 3, 19, 13) == Sixth(E997, 2)
  {
    hide Horner;
    Evaluated(E997, 19, 5, 1, 3, 19, 13, 0x31e, 0x355, 0x30d, 0x5c, 0xe3);
    Evaluated(E997, 2, 0, 0, 0, 0, 0, 0x353, 0x3f2, 0x3be, 0x2a5, 0xc1);
  }

  lemma Root997At4()
    ensures Horner(E997, 15, 10, 2, 6, 15, 26) == Sixth(E997, 4)
  {
    hide Horner;
    Evaluated(E997, 15, 10, 2, 6, 15, 26, 0x335, 0x3a3, 0x33a, 0x91, 0x1c6);
    Evaluated(E997, 4, 0, 0, 0, 0, 0, 0x3af, 0x2ed, 0x275, 0x6a, 0x182);
  }

  lemma Root997At8()
    ensures Horner(E997, 30, 20, 4, 12, 30, 29) == Sixth(E997, 8)
  {
    hide Horner;
    Evaluated(E997, 30, 20, 4, 12, 30, 29, 0x363, 0x266, 0x37d, 0x10b, 0x38c);
    Evaluated(E997, 8, 0, 0, 0, 0, 0, 0x27e, 0xfa, 0x1e3, 0xd4, 0x304);
  }

  lemma Root997At16()
    ensures Horner(E997, 21, 1, 8, 24, 21, 19) == Sixth(E997, 16)
  {
    hide Horner;
    Evaluated(E997, 21, 1, 8, 24, 21, 19, 0x3e6, 0x1ec, 0x3f3, 0x216, 0x238);
    Evaluated(E997, 16, 0, 0, 0, 0, 0, 0x1f5, 0x1dd, 0x3c6, 0x181, 0x328);
  }

  lemma Root998At1()
    ensures Horner(E998, 29, 22, 20, 21, 29, 18) == Sixth(E998, 1)
  {
    hide Horner;
    Evaluated(E998, 29, 22, 20, 21, 29, 18, 0x1c4, 0x396, 0x34c, 0x176, 0x3da);
    Evaluated(E998, 1, 0, 0, 0, 0, 0, 0x65, 0x88, 0x373, 0x3a3, 0x25a);
  }

  lemma Root998At2()
    ensures Horner(E998, 19, 5, 1, 3, 19, 13) == Sixth(E998, 2)
  {
    hide Horner;
    Evaluated(E998, 19, 5, 1, 3, 19, 13, 0x388, 0x225, 0x3b8, 0x2c5, 0x2bd);
    Evaluated(E998, 2, 0, 0, 0, 0, 0, 0xca, 0x110, 0x3ef, 0x266, 0x1bd);
  }

  lemma Root998At4()
    ensures Horner(E998, 15, 10, 2, 6, 15, 26) == Sixth(E998, 4)
  {
    hide Horner;
    Evaluated(E998, 15, 10, 2, 6, 15, 26, 0x230, 0x16a, 0x279, 0xaa, 0x73);
    Evaluated(E998, 4, 0, 0, 0, 0, 0, 0x194, 0x209, 0x2fe, 0x1ec, 0x353);
  }

  lemma Root998At8()
    ensures Horner(E998, 30, 20, 4, 12, 30, 29) == Sixth(E998, 8)
  {
    hide Horner;
    Evaluated(E998, 30, 20, 4, 12, 30, 29, 0x169, 0x2d4, 0x1fb, 0x154, 0xcf);
    Evaluated(E998, 8, 0, 0, 0, 0, 0, 0x301, 0x132, 0xf5, 0x3d8, 0x3af);
  }

  lemma Root998At16()
    ensures Horner(E998, 21, 1, 8, 24, 21, 19) == Sixth(E998, 16)
  {
    hide Horner;
    Evaluated(E998, 21, 1, 8, 24, 21, 19, 0x2d2, 0xa1, 0x3df, 0x281, 0x19e);
    Evaluated(E998, 16, 0, 0, 0, 0, 0, 0x322, 0x24d, 0x1c3, 0x2b9, 0x27e);
  }

  lemma Root999At1()
    ensures Horner(E999, 29, 22, 20, 21, 29, 18) == Sixth(E999, 1)
  {
    hide Horner;
    Evaluated(E999, 29, 22, 20, 21, 29, 18, 0x2e3, 0x2e3, 0x2e2, 0x13a, 0xa1);
    Evaluated(E999, 1, 0, 0, 0, 0, 0, 0x3d0, 0x159, 0x2c6, 0x51, 0x42);
  }

  lemma Root999At2()
    ensures Horner(E999, 19, 5, 1, 3, 19, 13) == Sixth(E999, 2)
  {
    hide Horner;
    Evaluated(E999, 19, 5, 1, 3, 19, 13, 0xe6, 0xe6, 0xe4, 0x25d, 0x142);
    Evaluated(E999, 2, 0, 0, 0, 0, 0, 0x2a9, 0x29b, 0xac, 0x8b, 0x84);
  }

  lemma Root999At4()
    ensures Horner(E999, 15, 10, 2, 6, 15, 26) == Sixth(E999, 4)
  {
    hide Horner;
    Evaluated(E999, 15, 10, 2, 6, 15, 26, 0x1cc, 0x1cc, 0x1c8, 0x1b3, 0x284);
    Evaluated(E999, 4, 0, 0, 0, 0, 0, 0x72, 0x3f, 0x158, 0x116, 0x108);
  }

  lemma Root999At8()
    ensures Horner(E999, 30, 20, 4, 12, 30, 29) == Sixth(E999, 8)
  {
    hide Horner;
    Evaluated(E999, 30, 20, 4, 12, 30, 29, 0x398, 0x398, 0x390, 0x34f, 0x28);
    Evaluated(E999, 8, 0, 0, 0, 0, 0, 0xcd, 0x57, 0x299, 0x205, 0x210);
  }

  lemma Root999At16()
    ensures Horner(E999, 21, 1, 8, 24, 21, 19) == Sixth(E999, 16)
  {
    hide Horner;
    Evaluated(E999, 21, 1, 8, 24, 21, 19, 0x239, 0x239, 0x229, 0x3be, 0x50);
    Evaluated(E999, 16, 0, 0, 0, 0, 0, 0x19a, 0x87, 0x3b, 0x12a, 0x129);
  }
}
