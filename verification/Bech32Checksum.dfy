/**
 The Bech32 checksum (BIP 173, section "Bech32", subsection "Checksum"): a shift register over
 five-bit symbols that is linear under XOR.
 */
module Bech32Checksum {

  type Symbol = bv5
  type Register = bv32

  const TOP: Register := 0x4000_0000

  function Xor(a: Register, b: Register): Register {
    a ^ b
  }

  function Pick(c: Register, bit: Register, k: Register): Register {
    if c & bit != 0 then k else 0
  }

  /** The sum of the constants whose bit is set in the low five bits of `c`. */
  function Five(c: Register, k0: Register, k1: Register, k2: Register, k3: Register, k4: Register): Register {
    Xor(Xor(Xor(Pick(c, 1, k0), Pick(c, 2, k1)), Xor(Pick(c, 4, k2), Pick(c, 8, k3))), Pick(c, 16, k4))
  }

  /** {2^n}k(x) for the set bits n of the five bits shifted out. */
  function Feedback(c0: Register): Register {
    Five(c0, 0x3b6a57b2, 0x26508e6d, 0x1ea119fa, 0x3d4233dd, 0x2a1462b3)
  }

  /** One round of `PolyMod`. */
  function Step(c: Register, v: Symbol): Register {
    Xor(Xor((c & 0x1ffffff) << 5, v as Register), Feedback(c >> 25))
  }

  function Fold(c: Register, vs: seq<Symbol>): Register {
    if vs == [] then c else Step(Fold(c, vs[..|vs| - 1]), vs[|vs| - 1])
  }

  function PolyMod(vs: seq<Symbol>): Register {
    Fold(1, vs)
  }

  /** Symbol by symbol difference. */
  function Difference(vs: seq<Symbol>, ws: seq<Symbol>): seq<Symbol>
    requires |vs| == |ws|
  {
    seq(|vs|, i requires 0 <= i < |vs| => vs[i] ^ ws[i])
  }

  predicate Blank(vs: seq<Symbol>) {
    forall i :: 0 <= i < |vs| ==> vs[i] == 0
  }

  // ----- XOR -----

  lemma RegroupBits(a: Register, b: Register, c: Register, d: Register)
    ensures (a ^ b) ^ (c ^ d) == (a ^ c) ^ (b ^ d)
  {
  }

  lemma Regroup(a: Register, b: Register, c: Register, d: Register)
    ensures Xor(Xor(a, b), Xor(c, d)) == Xor(Xor(a, c), Xor(b, d))
  {
    RegroupBits(a, b, c, d);
    calc {
      Xor(Xor(a, b), Xor(c, d));
      Xor(a, b) ^ Xor(c, d);
      (a ^ b) ^ (c ^ d);
      (a ^ c) ^ (b ^ d);
      Xor(a, c) ^ Xor(b, d);
      Xor(Xor(a, c), Xor(b, d));
    }
  }

  lemma XorBits(a: Register, b: Register)
    ensures a ^ a == 0 && a ^ 0 == a && 0 ^ a == a
    ensures a ^ b == b ^ a
    ensures a ^ b == 0 <==> a == b
    ensures (a ^ b) ^ b == a
  {
  }

  lemma XorFacts(a: Register, b: Register)
    ensures Xor(a, a) == 0 && Xor(a, 0) == a && Xor(0, a) == a
    ensures Xor(a, b) == Xor(b, a)
    ensures Xor(a, b) == 0 <==> a == b
    ensures Xor(Xor(a, b), b) == a
  {
    XorBits(a, b);
    assert Xor(Xor(a, b), b) == (a ^ b) ^ b;
  }

  lemma BitLinear(c: Register, d: Register, bit: Register)
    requires bit == 1 || bit == 2 || bit == 4 || bit == 8 || bit == 16
    ensures ((c ^ d) & bit != 0) == ((c & bit != 0) != (d & bit != 0))
  {
  }

  lemma PickLinear(c: Register, d: Register, bit: Register, k: Register)
    requires bit == 1 || bit == 2 || bit == 4 || bit == 8 || bit == 16
    ensures Pick(Xor(c, d), bit, k) == Xor(Pick(c, bit, k), Pick(d, bit, k))
  {
    BitLinear(c, d, bit);
    XorFacts(k, k);
  }

  lemma FiveLinear(c: Register, d: Register, k0: Register, k1: Register, k2: Register, k3: Register, k4: Register)
    ensures Five(Xor(c, d), k0, k1, k2, k3, k4) == Xor(Five(c, k0, k1, k2, k3, k4), Five(d, k0, k1, k2, k3, k4))
  {
    hide Pick, Xor;
    PickLinear(c, d, 1, k0);
    PickLinear(c, d, 2, k1);
    PickLinear(c, d, 4, k2);
    PickLinear(c, d, 8, k3);
    PickLinear(c, d, 16, k4);
    var c0, d0 := Pick(c, 1, k0), Pick(d, 1, k0);
    var c1, d1 := Pick(c, 2, k1), Pick(d, 2, k1);
    var c2, d2 := Pick(c, 4, k2), Pick(d, 4, k2);
    var c3, d3 := Pick(c, 8, k3), Pick(d, 8, k3);
    var c4, d4 := Pick(c, 16, k4), Pick(d, 16, k4);
    Regroup(c0, d0, c1, d1);
    Regroup(c2, d2, c3, d3);
    Regroup(Xor(c0, c1), Xor(d0, d1), Xor(c2, c3), Xor(d2, d3));
    Regroup(Xor(Xor(c0, c1), Xor(c2, c3)), Xor(Xor(d0, d1), Xor(d2, d3)), c4, d4);
  }

  // ----- One round -----

  lemma ShiftLinear(c: Register, d: Register, v: Symbol, w: Symbol)
    ensures (Xor(c, d) & 0x1ffffff) << 5 == Xor((c & 0x1ffffff) << 5, (d & 0x1ffffff) << 5)
    ensures (v ^ w) as Register == Xor(v as Register, w as Register)
    ensures Xor(c, d) >> 25 == Xor(c >> 25, d >> 25)
  {
  }

  lemma StepLinear(c: Register, d: Register, v: Symbol, w: Symbol)
    ensures Step(Xor(c, d), v ^ w) == Xor(Step(c, v), Step(d, w))
  {
    hide Five, Xor;
    FiveLinear(c >> 25, d >> 25, 0x3b6a57b2, 0x26508e6d, 0x1ea119fa, 0x3d4233dd, 0x2a1462b3);
    ShiftLinear(c, d, v, w);
    var a, b := (c & 0x1ffffff) << 5, (d & 0x1ffffff) << 5;
    var x, y := v as Register, w as Register;
    Regroup(a, b, x, y);
    Regroup(Xor(a, x), Xor(b, y), Feedback(c >> 25), Feedback(d >> 25));
  }

  lemma StepFits(c: Register, v: Symbol)
    requires c < TOP
    ensures Step(c, v) < TOP
  {
  }

  /** A round with no input loses nothing. */
  lemma StepInjective(c: Register)
    requires c < TOP && c != 0
    ensures Step(c, 0) != 0
  {
  }

  lemma NoFeedback(c: Register)
    requires c < 0x200_0000
    ensures c >> 25 == 0 && c & 0x1ffffff == c
    ensures Feedback(0) == 0
  {
  }

  /** While the top five bits are clear, a round only shifts the symbol in. */
  lemma StepShifts(c: Register, v: Symbol)
    requires c < 0x200_0000
    ensures Step(c, v) == Xor(c << 5, v as Register)
  {
    hide Feedback, Xor;
    NoFeedback(c);
    XorFacts(Xor(c << 5, v as Register), 0);
  }

  // ----- Many rounds -----

  lemma {:induction false} FoldLinear(c: Register, d: Register, vs: seq<Symbol>, ws: seq<Symbol>)
    requires |vs| == |ws|
    ensures Fold(Xor(c, d), Difference(vs, ws)) == Xor(Fold(c, vs), Fold(d, ws))
  {
    hide Step, Xor;
    if vs != [] {
      var n := |vs| - 1;
      FoldLinear(c, d, vs[..n], ws[..n]);
      assert Difference(vs, ws)[..n] == Difference(vs[..n], ws[..n]);
      StepLinear(Fold(c, vs[..n]), Fold(d, ws[..n]), vs[n], ws[n]);
    }
  }

  lemma {:induction false} FoldAppend(c: Register, vs: seq<Symbol>, ws: seq<Symbol>)
    ensures Fold(c, vs + ws) == Fold(Fold(c, vs), ws)
  {
    hide Step;
    if ws == [] {
      assert vs + ws == vs;
    } else {
      var n := |ws| - 1;
      FoldAppend(c, vs, ws[..n]);
      assert (vs + ws)[..|vs + ws| - 1] == vs + ws[..n];
    }
  }

  lemma {:induction false} FoldFits(c: Register, vs: seq<Symbol>)
    requires c < TOP
    ensures Fold(c, vs) < TOP
  {
    hide Step;
    if vs != [] {
      FoldFits(c, vs[..|vs| - 1]);
      StepFits(Fold(c, vs[..|vs| - 1]), vs[|vs| - 1]);
    }
  }

  lemma StepZero()
    ensures Step(0, 0) == 0
  {
  }

  lemma {:induction false} FoldBlank(c: Register, vs: seq<Symbol>)
    requires c < TOP && Blank(vs)
    ensures Fold(c, vs) == 0 <==> c == 0
  {
    hide Step;
    if vs != [] {
      var rest := vs[..|vs| - 1];
      FoldBlank(c, rest);
      FoldFits(c, rest);
      StepZero();
      if c != 0 {
        StepInjective(Fold(c, rest));
      }
    }
  }

  /** Equal checksums mean that the difference folds to nothing. */
  lemma SameChecksum(vs: seq<Symbol>, ws: seq<Symbol>)
    requires |vs| == |ws|
    ensures PolyMod(vs) == PolyMod(ws) <==> Fold(0, Difference(vs, ws)) == 0
  {
    hide Fold, Xor;
    FoldLinear(1, 1, vs, ws);
    XorFacts(1, 1);
    XorFacts(PolyMod(vs), PolyMod(ws));
  }

  // ----- Errors in six neighbouring symbols -----

  function Limit(n: nat): Register
    requires n <= 6
  {
    if n == 0 then 1 else if n == 1 then 0x20 else if n == 2 then 0x400 else if n == 3 then 0x8000
    else if n == 4 then 0x10_0000 else if n == 5 then 0x200_0000 else TOP
  }

  lemma ShiftIn(c: Register, v: Symbol, n: nat)
    requires n < 6 && c < Limit(n)
    ensures Xor(c << 5, v as Register) < Limit(n + 1)
    ensures Xor(c << 5, v as Register) == 0 <==> c == 0 && v == 0
  {
    if n == 0 {} else if n == 1 {} else if n == 2 {} else if n == 3 {} else if n == 4 {} else {}
  }

  lemma LimitFacts(n: nat)
    requires n <= 6
    ensures 0 < Limit(n) <= TOP
    ensures n < 6 ==> Limit(n) <= 0x200_0000
    ensures n == 6 ==> Limit(n) == TOP
  {
  }

  lemma WindowStep(c: Register, v: Symbol, n: nat)
    requires n < 6 && c < Limit(n)
    ensures Step(c, v) < Limit(n + 1)
    ensures Step(c, v) == 0 <==> c == 0 && v == 0
  {
    hide Step, Xor, Limit;
    LimitFacts(n);
    StepShifts(c, v);
    ShiftIn(c, v, n);
  }

  lemma BlankLast(vs: seq<Symbol>)
    requires vs != []
    ensures Blank(vs) <==> Blank(vs[..|vs| - 1]) && vs[|vs| - 1] == 0
  {
    assert forall i :: 0 <= i < |vs| - 1 ==> vs[i] == vs[..|vs| - 1][i];
  }

  /** Six symbols fit the register side by side. */
  lemma {:induction false} Window(vs: seq<Symbol>)
    requires |vs| <= 6
    ensures Fold(0, vs) < Limit(|vs|)
    ensures Fold(0, vs) == 0 <==> Blank(vs)
  {
    hide Step, Limit, Blank;
    if vs == [] {
      LimitFacts(0);
      BlankEmpty();
    } else {
      var n := |vs| - 1;
      Window(vs[..n]);
      WindowStep(Fold(0, vs[..n]), vs[n], n);
      BlankLast(vs);
    }
  }

  lemma BlankEmpty()
    ensures Blank([])
  {
  }

  lemma BlankParts(xs: seq<Symbol>, from: nat, to: nat)
    requires from <= to <= |xs|
    ensures Blank(xs) <==> Blank(xs[..from]) && Blank(xs[from..to]) && Blank(xs[to..])
  {
    forall i | 0 <= i < |xs|
      ensures xs[i] == if i < from then xs[..from][i] else if i < to then xs[from..to][i - from] else xs[to..][i - to]
    {
    }
    assert Blank(xs) ==> Blank(xs[..from]) && Blank(xs[from..to]) && Blank(xs[to..]);
  }

  /** Only the window can make the register non-zero, and it does. */
  lemma Burst(xs: seq<Symbol>, from: nat, to: nat)
    requires from <= to <= |xs| && to - from <= 6
    requires Blank(xs[..from]) && Blank(xs[to..])
    ensures Fold(0, xs) == 0 <==> Blank(xs)
  {
    hide Fold, Limit, Blank;
    var head, middle, tail := xs[..from], xs[from..to], xs[to..];
    assert xs == head + (middle + tail);
    FoldAppend(0, head, middle + tail);
    FoldBlank(0, head);
    FoldAppend(0, middle, tail);
    Window(middle);
    FoldFits(0, middle);
    FoldBlank(Fold(0, middle), tail);
    BlankParts(xs, from, to);
  }

  /** Lists that differ in at most six neighbouring symbols have different checksums. */
  lemma BurstDetected(vs: seq<Symbol>, ws: seq<Symbol>, from: nat, to: nat)
    requires |vs| == |ws| && from <= to <= |vs| && to - from <= 6
    requires vs[..from] == ws[..from] && vs[to..] == ws[to..]
    ensures PolyMod(vs) == PolyMod(ws) <==> vs == ws
  {
    hide Fold;
    var xs := Difference(vs, ws);
    SameChecksum(vs, ws);
    forall i | 0 <= i < from
      ensures xs[..from][i] == 0
    {
      assert vs[i] == vs[..from][i] == ws[..from][i] == ws[i];
      SelfDifference(vs[i], ws[i]);
    }
    forall i | 0 <= i < |xs| - to
      ensures xs[to..][i] == 0
    {
      assert vs[to + i] == vs[to..][i] == ws[to..][i] == ws[to + i];
      SelfDifference(vs[to + i], ws[to + i]);
    }
    Burst(xs, from, to);
    BlankDifference(vs, ws);
  }

  lemma SelfDifference(v: Symbol, w: Symbol)
    ensures v ^ w == 0 <==> v == w
  {
  }

  lemma BlankDifference(vs: seq<Symbol>, ws: seq<Symbol>)
    requires |vs| == |ws|
    ensures Blank(Difference(vs, ws)) <==> vs == ws
  {
    forall i | 0 <= i < |vs|
      ensures Difference(vs, ws)[i] == 0 <==> vs[i] == ws[i]
    {
      SelfDifference(vs[i], ws[i]);
    }
  }

  // ----- Making the checksum come out right -----

  /** The top `n` groups of five bits: the register shifted right by 5 * (6 - n). */
  function Head(c: Register, n: nat): Register
    requires n <= 6
    decreases 6 - n
  {
    if n == 6 then c else Head(c, n + 1) >> 5
  }

  /** The `n`-th group of five bits of a register, highest first. */
  function Group(c: Register, n: nat): Symbol
    requires n < 6
  {
    (Head(c, n + 1) & 31) as Symbol
  }

  function Groups(c: Register): (vs: seq<Symbol>)
    ensures |vs| == 6
  {
    seq(6, n requires 0 <= n < 6 => Group(c, n))
  }

  const ZEROES: seq<Symbol> := [0, 0, 0, 0, 0, 0]

  /** The checksum symbols `CreateChecksum` appends, for the constant `k` of the encoding. */
  function Checksum(vs: seq<Symbol>, k: Register): seq<Symbol> {
    Groups(Xor(PolyMod(vs + ZEROES), k))
  }

  lemma Join(x: Register)
    ensures ((x >> 5) << 5) ^ (((x & 31) as Symbol) as Register) == x
  {
  }

  lemma HeadNext(c: Register, n: nat)
    requires n < 6
    ensures Head(c, n) == Head(c, n + 1) >> 5
    ensures Head(c, 6) == c
  {
  }

  lemma HeadLimitStep(c: Register, n: nat)
    requires n < 6 && Head(c, n + 1) < Limit(n + 1)
    ensures Head(c, n) < Limit(n)
  {
    hide Head;
    HeadNext(c, n);
    if n == 0 {} else if n == 1 {} else if n == 2 {} else if n == 3 {} else if n == 4 {} else {}
  }

  lemma {:induction false} HeadLimit(c: Register, n: nat)
    requires n <= 6 && c < TOP
    ensures Head(c, n) < Limit(n)
    decreases 6 - n
  {
    hide Limit, Head;
    if n < 6 {
      HeadLimit(c, n + 1);
      HeadLimitStep(c, n);
    } else {
      LimitFacts(n);
      HeadNext(c, 0);
      assert Head(c, n) < Limit(n);
    }
  }

  lemma HeadBits(c: Register, n: nat)
    requires n < 6 && c < TOP
    ensures Head(c, n) < 0x200_0000
    ensures (Head(c, n) << 5) ^ (Group(c, n) as Register) == Head(c, n + 1)
  {
    hide Limit, Head;
    HeadNext(c, n);
    Join(Head(c, n + 1));
    HeadLimit(c, n);
    LimitFacts(n);
  }

  lemma HeadStep(c: Register, n: nat)
    requires n < 6 && c < TOP
    ensures Step(Head(c, n), Group(c, n)) == Head(c, n + 1)
  {
    hide Step, Head, Group;
    HeadBits(c, n);
    StepShifts(Head(c, n), Group(c, n));
  }

  lemma HeadEmpty(c: Register)
    requires c < TOP
    ensures Head(c, 0) == 0 && Head(c, 6) == c
  {
    HeadLimit(c, 0);
  }

  lemma FoldLast(c: Register, vs: seq<Symbol>, n: nat)
    requires n < |vs|
    ensures Fold(c, vs[..n + 1]) == Step(Fold(c, vs[..n]), vs[n])
  {
    assert vs[..n + 1][..n] == vs[..n];
  }

  lemma {:induction false} RepackHead(c: Register, n: nat)
    requires n <= 6 && c < TOP
    ensures Fold(0, Groups(c)[..n]) == Head(c, n)
  {
    hide Step, Group, Fold, Head;
    if n == 0 {
      FoldEmpty(0);
      HeadEmpty(c);
    } else {
      RepackHead(c, n - 1);
      FoldLast(0, Groups(c), n - 1);
      HeadStep(c, n - 1);
      assert Groups(c)[n - 1] == Group(c, n - 1);
    }
  }

  /** Feeding a register's own groups into an empty register restores it. */
  lemma Repack(c: Register)
    requires c < TOP
    ensures Fold(0, Groups(c)) == c
  {
    hide Fold, Groups;
    RepackHead(c, 6);
    HeadEmpty(c);
    assert Groups(c)[..6] == Groups(c);
  }

  lemma FoldEmpty(c: Register)
    ensures Fold(c, []) == c
  {
  }

  lemma ZeroDifference(v: Symbol)
    ensures 0 ^ v == v
  {
  }

  lemma ZeroesDifference(vs: seq<Symbol>)
    requires |vs| == 6
    ensures Difference(ZEROES, vs) == vs
  {
    forall i | 0 <= i < 6
      ensures Difference(ZEROES, vs)[i] == vs[i]
    {
      ZeroDifference(vs[i]);
      assert ZEROES[i] == 0;
    }
  }

  /** Six symbols at the end are added into the register as they stand. */
  lemma LastSix(vs: seq<Symbol>, c: Register)
    requires c < TOP
    ensures PolyMod(vs + Groups(c)) == Xor(PolyMod(vs + ZEROES), c)
  {
    hide Fold, Xor, Groups;
    var r := PolyMod(vs);
    FoldAppend(1, vs, Groups(c));
    FoldAppend(1, vs, ZEROES);
    ZeroesDifference(Groups(c));
    FoldLinear(r, 0, ZEROES, Groups(c));
    XorFacts(r, 0);
    Repack(c);
  }

  lemma XorFits(a: Register, b: Register)
    requires a < TOP && b < TOP
    ensures Xor(a, b) < TOP
  {
  }

  lemma XorCancels(a: Register, b: Register)
    ensures Xor(a, Xor(a, b)) == b
  {
    XorBits(b, a);
    assert a ^ (a ^ b) == (b ^ a) ^ a;
  }

  /** The checksum made for `k` is the one and only that verifies as `k`. */
  lemma ChecksumExact(vs: seq<Symbol>, cs: seq<Symbol>, k: Register)
    requires |cs| == 6 && k < TOP
    ensures PolyMod(vs + cs) == k <==> cs == Checksum(vs, k)
  {
    hide PolyMod, Fold, Xor;
    var r := PolyMod(vs + ZEROES);
    PolyModFits(vs + ZEROES);
    XorFits(r, k);
    LastSix(vs, Xor(r, k));
    XorCancels(r, k);
    var good := Checksum(vs, k);
    assert (vs + cs)[..|vs|] == vs == (vs + good)[..|vs|];
    BurstDetected(vs + cs, vs + good, |vs|, |vs| + 6);
    assert cs == (vs + cs)[|vs|..] && good == (vs + good)[|vs|..];
  }

  lemma PolyModFits(vs: seq<Symbol>)
    ensures PolyMod(vs) < TOP
  {
    FoldFits(1, vs);
  }

  lemma StepOfOne()
    ensures Step(1, 0) == 0x20 && Xor(0x20, 1) != 0 && Xor(0x20, 1) < TOP
  {
  }

  /** The checksum starts from one, so a symbol zero put in front is seen. */
  lemma LeadingZeroSeen(vs: seq<Symbol>)
    ensures PolyMod([0] + vs) != PolyMod(vs)
  {
    hide Fold, Step, Xor;
    StepOfOne();
    FoldAppend(1, [0], vs);
    FoldOne(1, 0);
    FoldLinear(0x20, 1, vs, vs);
    forall i | 0 <= i < |vs|
      ensures Difference(vs, vs)[i] == 0
    {
      SelfDifference(vs[i], vs[i]);
    }
    FoldBlank(Xor(0x20, 1), Difference(vs, vs));
    XorFacts(Fold(0x20, vs), Fold(1, vs));
  }

  lemma FoldOne(c: Register, v: Symbol)
    ensures Fold(c, [v]) == Step(c, v)
  {
    hide Step;
    assert [v][..0] == [];
    FoldEmpty(c);
  }
}
