/**
 Golomb-coded sets (BIP 158, section "Golomb-Coded Sets"): how a sorted list of numbers is coded
 in bits, and how a coded list is searched while it is being read.
 */
module FilterModel {
  import opened Basics
  import opened Radix
  import opened Bits

  /** 2^64 */
  const WORD := 0x1_0000_0000_0000_0000
  /** 2^32 */
  const HALF := 0x1_0000_0000
  /** The largest size that `ReadCompactSize` accepts. */
  const MAX_SIZE := 0x0200_0000

  type Element = seq<int>

  /** `hash` stands for SipHash under the filter's key, as a 64-bit number. */
  datatype Params = Params(p: nat, m: nat, hash: Element -> nat) {
    /** Shifting by `p` is defined, and `m` is a 32-bit number. */
    predicate Valid() {
      p < 64 && m < HALF
    }
  }

  /** A number uniform in 64 bits, moved to the range below `f`. */
  function HashToRange(par: Params, f: nat, e: Element): nat {
    ((par.hash(e) % WORD) * f) / WORD
  }

  // ----- One number -----

  /** The quotient in unary, a zero, and the remainder in binary. */
  function Golomb(p: nat, x: nat): seq<int> {
    Ones(Shr(x, p)) + [0] + BitsOf(x, p)
  }

  function LeadingOnes(bits: seq<int>): (n: nat)
    ensures n <= |bits| && (n < |bits| ==> bits[n] != 1)
    ensures forall i :: 0 <= i < n ==> bits[i] == 1
  {
    if bits == [] || bits[0] != 1 then 0 else 1 + LeadingOnes(bits[1..])
  }

  /** A number and the bits after it; sums wrap at 64 bits. */
  function ReadGolomb(p: nat, bits: seq<int>): (r: Option<(nat, seq<int>)>)
    requires DigitsIn(2, bits)
    ensures r.Some? ==> DigitsIn(2, r.value.1) && |r.value.1| < |bits|
  {
    var q := LeadingOnes(bits);
    if q == |bits| || |bits| - q - 1 < p then None
    else
      var r := bits[q + 1..q + 1 + p];
      ValueBound(2, r);
      Some(((q * Pow2(p) + Value(2, r)) % WORD, bits[q + 1 + p..]))
  }

  // ----- Lists -----

  predicate Sorted(vs: seq<nat>) {
    forall i, j :: 0 <= i < j < |vs| ==> vs[i] <= vs[j]
  }

  /** The differences of a sorted list, coded one after the other. */
  function Code(p: nat, vs: seq<nat>, last: nat): seq<int>
    requires Sorted(vs) && (vs != [] ==> last <= vs[0])
  {
    if vs == [] then []
    else
      assert forall i, j :: 0 <= i < j < |vs| - 1 ==> vs[1..][i] <= vs[1..][j];
      Golomb(p, vs[0] - last) + Code(p, vs[1..], vs[0])
  }

  /** `n` numbers and the bits after them. */
  function ReadAll(p: nat, bits: seq<int>, n: nat): Option<(seq<nat>, seq<int>)>
    requires DigitsIn(2, bits)
    decreases n
  {
    if n == 0 then Some(([], bits))
    else
      match ReadGolomb(p, bits)
      case None => None
      case Some((d, rest)) =>
        match ReadAll(p, rest, n - 1)
        case None => None
        case Some((ds, end)) => Some(([d] + ds, end))
  }

  /** Running totals. */
  function Totals(ds: seq<nat>, start: nat): seq<nat> {
    if ds == [] then [] else [start + ds[0]] + Totals(ds[1..], start + ds[0])
  }

  /** Running totals in 64 bits. */
  function Wrapped(ds: seq<nat>, start: nat): seq<nat> {
    if ds == [] then []
    else
      var v := (start + ds[0]) % WORD;
      [v] + Wrapped(ds[1..], v)
  }

  /** The values that are not below `top` or any value before them. */
  function Peaks(vs: seq<nat>, top: nat): seq<nat> {
    if vs == [] then []
    else if vs[0] >= top then [vs[0]] + Peaks(vs[1..], vs[0])
    else Peaks(vs[1..], top)
  }

  // ----- Searching -----

  /** Drop the queries below a value. */
  function Drop(qs: seq<nat>, v: nat): (r: seq<nat>) {
    if qs == [] || qs[0] >= v then qs else Drop(qs[1..], v)
  }

  /** Read `n` differences, moving through the sorted queries in step; `None` when the bits run out. */
  function Search(p: nat, bits: seq<int>, n: nat, value: nat, qs: seq<nat>): Option<bool>
    requires DigitsIn(2, bits)
    decreases n
  {
    if n == 0 then Some(false)
    else
      match ReadGolomb(p, bits)
      case None => None
      case Some((d, rest)) =>
        var v := (value + d) % WORD;
        var left := Drop(qs, v);
        if left == [] then Some(false)
        else if left[0] == v then Some(true)
        else Search(p, rest, n - 1, v, left)
  }

  ghost predicate Common(vs: seq<nat>, qs: seq<nat>) {
    exists x :: x in vs && x in qs
  }

  // ----- Reading what was written -----

  lemma WordIs()
    ensures Pow2(64) == WORD
  {
    Eight();
    Pow2Sum(8, 8);
    Pow2Sum(16, 16);
    Pow2Sum(32, 32);
  }

  lemma {:induction false} OnesFirst(n: nat, bits: seq<int>)
    requires bits != [] && bits[0] == 0
    ensures LeadingOnes(Ones(n) + bits) == n
  {
    var s := Ones(n) + bits;
    if n > 0 {
      OnesFirst(n - 1, bits);
      assert s[0] == 1 && s[1..] == Ones(n - 1) + bits;
    } else {
      assert s == bits;
    }
  }

  /** A coded number is read back, and the reader stops right after it. */
  lemma GolombRead(p: nat, x: nat, rest: seq<int>)
    requires x < WORD && DigitsIn(2, rest)
    ensures DigitsIn(2, Golomb(p, x) + rest)
    ensures ReadGolomb(p, Golomb(p, x) + rest) == Some((x, rest))
  {
    hide BitsOf, Value, LeadingOnes;
    var q := x / Pow2(p);
    var tail := [0] + (BitsOf(x, p) + rest);
    var bits := Golomb(p, x) + rest;
    assert bits == Ones(q) + tail;
    OnesFirst(q, tail);
    assert bits[q + 1..q + 1 + p] == BitsOf(x, p);
    assert bits[q + 1 + p..] == rest;
    BitsValue(x, p);
    DivParts(x, Pow2(p));
    assert q * Pow2(p) + x % Pow2(p) == x;
    SmallMod(x, WORD);
  }

  lemma SortedNext(vs: seq<nat>)
    requires vs != [] && Sorted(vs)
    ensures vs[1..] != [] ==> vs[0] <= vs[1..][0]
  {
  }

  lemma CodeReadStep(p: nat, d: nat, bits: seq<int>, n: nat, ds: seq<nat>, rest: seq<int>)
    requires d < WORD && DigitsIn(2, bits) && ReadAll(p, bits, n) == Some((ds, rest))
    ensures DigitsIn(2, Golomb(p, d) + bits)
    ensures ReadAll(p, Golomb(p, d) + bits, n + 1) == Some(([d] + ds, rest))
  {
    hide ReadGolomb, Golomb;
    GolombRead(p, d, bits);
  }

  lemma CodeStep(p: nat, vs: seq<nat>, last: nat, rest: seq<int>)
    requires vs != [] && Sorted(vs) && last <= vs[0]
    ensures Sorted(vs[1..]) && (vs[1..] != [] ==> vs[0] <= vs[1..][0])
    ensures Code(p, vs, last) + rest == Golomb(p, vs[0] - last) + (Code(p, vs[1..], vs[0]) + rest)
  {
    hide Golomb;
    SortedTail(vs);
    SortedNext(vs);
    var g, more := Golomb(p, vs[0] - last), Code(p, vs[1..], vs[0]);
    assert (g + more) + rest == g + (more + rest);
  }

  /** A coded list is read back as its differences, whose totals are the list. */
  lemma {:induction false} CodeRead(p: nat, vs: seq<nat>, last: nat, rest: seq<int>) returns (ds: seq<nat>)
    requires Sorted(vs) && (vs != [] ==> last <= vs[0]) && (forall i :: 0 <= i < |vs| ==> vs[i] < WORD)
    requires DigitsIn(2, rest)
    ensures DigitsIn(2, Code(p, vs, last) + rest)
    ensures ReadAll(p, Code(p, vs, last) + rest, |vs|) == Some((ds, rest))
    ensures Totals(ds, last) == vs
  {
    hide ReadAll, Golomb, Sorted, DigitsIn, Code;
    if vs == [] {
      CodeNone(p, last, rest);
      ds := [];
    } else {
      CodeStep(p, vs, last, rest);
      var tail := CodeRead(p, vs[1..], vs[0], rest);
      CodeReadStep(p, vs[0] - last, Code(p, vs[1..], vs[0]) + rest, |vs| - 1, tail, rest);
      ds := [vs[0] - last] + tail;
      assert ds[1..] == tail;
    }
  }

  lemma CodeNone(p: nat, last: nat, rest: seq<int>)
    requires DigitsIn(2, rest)
    ensures Code(p, [], last) + rest == rest && ReadAll(p, rest, 0) == Some(([], rest))
  {
  }

  // ----- The streaming search is set intersection -----

  lemma SortedTail(qs: seq<nat>)
    requires qs != [] && Sorted(qs)
    ensures Sorted(qs[1..])
    ensures forall x :: x in qs ==> qs[0] <= x
  {
    assert forall i, j :: 0 <= i < j < |qs| - 1 ==> qs[1..][i] <= qs[1..][j];
  }

  /** What is left are the queries that are not below the value. */
  lemma {:induction false} DropIs(qs: seq<nat>, v: nat)
    requires Sorted(qs)
    ensures Sorted(Drop(qs, v))
    ensures forall x :: x in Drop(qs, v) <==> x in qs && x >= v
  {
    hide Sorted;
    if qs != [] {
      SortedTail(qs);
      if qs[0] < v {
        DropIs(qs[1..], v);
        assert qs == [qs[0]] + qs[1..];
      }
    }
  }

  lemma {:induction false} PeaksAtLeast(vs: seq<nat>, top: nat)
    ensures forall x :: x in Peaks(vs, top) ==> x >= top && x in vs
  {
    if vs != [] {
      PeaksAtLeast(vs[1..], if vs[0] >= top then vs[0] else top);
    }
  }

  /** Without wrapping, the totals only grow and all of them are peaks. */
  lemma {:induction false} TotalsArePeaks(ds: seq<nat>, start: nat)
    requires forall x :: x in Totals(ds, start) ==> x < WORD
    ensures Peaks(Wrapped(ds, start), start) == Wrapped(ds, start) == Totals(ds, start)
  {
    if ds != [] {
      var v := start + ds[0];
      var vs := Totals(ds, start);
      assert vs == [v] + Totals(ds[1..], v) && v in vs;
      SmallMod(v, WORD);
      assert forall x :: x in Totals(ds[1..], v) ==> x in vs;
      TotalsArePeaks(ds[1..], v);
      assert Wrapped(ds, start) == [v] + Wrapped(ds[1..], v);
      assert Wrapped(ds, start)[1..] == Wrapped(ds[1..], v);
    }
  }

  lemma CommonLater(qs: seq<nat>, later: seq<nat>, v: nat)
    requires Sorted(qs) && forall x :: x in later ==> x >= v
    ensures Drop(qs, v) == [] ==> !Common([v] + later, qs)
    ensures Drop(qs, v) != [] && Drop(qs, v)[0] == v ==> Common([v] + later, qs)
    ensures Drop(qs, v) != [] && Drop(qs, v)[0] != v ==> (Common([v] + later, qs) <==> Common(later, Drop(qs, v)))
  {
    hide Drop, Sorted;
    DropIs(qs, v);
    var left := Drop(qs, v);
    if left != [] {
      SortedTail(left);
      assert left[0] in left;
      if left[0] == v {
        assert v in [v] + later && v in qs;
      } else {
        assert v !in left;
        if Common(later, left) {
          var x :| x in later && x in left;
          assert x in [v] + later && x in qs;
        }
        if Common([v] + later, qs) {
          var x :| x in [v] + later && x in qs;
          assert x in later && x in left;
        }
      }
    }
  }

  lemma ReadAllStep(p: nat, bits: seq<int>, n: nat, ds: seq<nat>, end: seq<int>)
    requires n > 0 && DigitsIn(2, bits) && ReadAll(p, bits, n) == Some((ds, end))
    ensures ReadGolomb(p, bits).Some? && ds != [] && ReadGolomb(p, bits).value.0 == ds[0]
    ensures DigitsIn(2, ReadGolomb(p, bits).value.1) && ReadAll(p, ReadGolomb(p, bits).value.1, n - 1) == Some((ds[1..], end))
  {
    hide ReadGolomb;
    var (d, rest) := ReadGolomb(p, bits).value;
    var (more, e) := ReadAll(p, rest, n - 1).value;
    assert ds == [d] + more && ds[1..] == more;
  }

  lemma NoneBelow(qs: seq<nat>, v: nat)
    requires forall x :: x in qs ==> x > v
    ensures Drop(qs, v) == qs
    ensures qs != [] ==> qs[0] != v
  {
    if qs != [] {
      assert qs[0] in qs;
    }
  }

  /** The search finds exactly the common values of the queries and the peaks of the running totals. */
  lemma {:induction false} SearchIs(p: nat, bits: seq<int>, n: nat, value: nat, top: nat, qs: seq<nat>, ds: seq<nat>,
                                    end: seq<int>)
    requires DigitsIn(2, bits) && ReadAll(p, bits, n) == Some((ds, end))
    requires Sorted(qs) && forall x :: x in qs ==> x >= top
    ensures Search(p, bits, n, value, qs) == Some(Common(Peaks(Wrapped(ds, value), top), qs))
    decreases n
  {
    hide ReadGolomb, ReadAll, Sorted, Drop, DigitsIn;
    if n == 0 {
      assert ds == [] by { ReadNone(p, bits, ds, end); }
    } else {
      ReadAllStep(p, bits, n, ds, end);
      var rest := ReadGolomb(p, bits).value.1;
      var v := (value + ds[0]) % WORD;
      var vs, more := Wrapped(ds, value), Wrapped(ds[1..], v);
      assert vs[0] == v && vs[1..] == more;
      if v >= top {
        var later := Peaks(more, v);
        PeaksAtLeast(more, v);
        CommonLater(qs, later, v);
        DropIs(qs, v);
        var left := Drop(qs, v);
        if left != [] && left[0] != v {
          SearchIs(p, rest, n - 1, v, v, left, ds[1..], end);
        }
      } else {
        NoneBelow(qs, v);
        SearchIs(p, rest, n - 1, v, top, qs, ds[1..], end);
      }
    }
  }

  lemma ReadNone(p: nat, bits: seq<int>, ds: seq<nat>, end: seq<int>)
    requires DigitsIn(2, bits) && ReadAll(p, bits, 0) == Some((ds, end))
    ensures ds == [] && end == bits
  {
  }

  // ----- Sizes -----

  /** A number in `k` bytes, lowest first. */
  function LittleEndian(n: nat, k: nat): (b: seq<int>)
    ensures |b| == k && Bytes(b)
  {
    if k == 0 then [] else [n % 256] + LittleEndian(n / 256, k - 1)
  }

  function FromLittle(b: seq<int>): nat
    requires Bytes(b)
  {
    if b == [] then 0 else b[0] + 256 * FromLittle(b[1..])
  }

  function WriteCompactSize(n: nat): (b: seq<int>)
    ensures Bytes(b)
  {
    if n < 253 then [n]
    else if n < 0x1_0000 then [253] + LittleEndian(n, 2)
    else if n < HALF then [254] + LittleEndian(n, 4)
    else [255] + LittleEndian(n, 8)
  }

  /** The size and the bytes after it; `None` when cut short, not in its shortest form, or too large. */
  function ReadCompactSize(b: seq<int>): (r: Option<(nat, seq<int>)>)
    requires Bytes(b)
    ensures r.Some? ==> Bytes(r.value.1)
  {
    if b == [] then None
    else if b[0] < 253 then Some((b[0], b[1..]))
    else
      var k := if b[0] == 253 then 2 else if b[0] == 254 then 4 else 8;
      var least := if b[0] == 253 then 253 else if b[0] == 254 then 0x1_0000 else HALF;
      if |b| < 1 + k then None
      else
        var n := FromLittle(b[1..1 + k]);
        if n < least || n > MAX_SIZE then None else Some((n, b[1 + k..]))
  }

  lemma {:induction false} LittleBack(n: nat, k: nat)
    requires n < Pow(256, k)
    ensures FromLittle(LittleEndian(n, k)) == n
  {
    if k > 0 {
      DivParts(n, 256);
      LittleBack(n / 256, k - 1);
      assert LittleEndian(n, k)[1..] == LittleEndian(n / 256, k - 1);
    }
  }

  /** Byte `i` counts the multiples of 256^i. */
  lemma {:induction false} LittleAt(n: nat, k: nat, i: nat)
    requires i < k
    ensures Pow(256, i) > 0 && LittleEndian(n, k)[i] == (n / Pow(256, i)) % 256
  {
    PowPositive(256, i);
    if i > 0 {
      LittleAt(n / 256, k - 1, i - 1);
      PowPositive(256, i - 1);
      DivDiv(n, 256, Pow(256, i - 1));
    } else {
      assert n / 1 == n;
    }
  }

  lemma Thousands()
    ensures Pow(256, 2) == 0x1_0000 && Pow(256, 4) == HALF && Pow(256, 8) == WORD
  {
    assert Pow(256, 1) == 256;
    PowSum(256, 1, 1);
    PowSum(256, 2, 2);
    PowSum(256, 4, 4);
  }

  /** A written size is read back if and only if it is not above the limit. */
  lemma SizeBack(n: nat, rest: seq<int>)
    requires n < WORD && Bytes(rest)
    ensures Bytes(WriteCompactSize(n) + rest)
    ensures ReadCompactSize(WriteCompactSize(n) + rest) == if n <= MAX_SIZE then Some((n, rest)) else None
  {
    hide LittleEndian, FromLittle, Pow;
    var b := WriteCompactSize(n) + rest;
    Thousands();
    if n < 253 {
      assert b[1..] == rest;
    } else {
      var k := if n < 0x1_0000 then 2 else if n < HALF then 4 else 8;
      LittleBack(n, k);
      assert b[1..1 + k] == LittleEndian(n, k) && b[1 + k..] == rest;
    }
  }
}
