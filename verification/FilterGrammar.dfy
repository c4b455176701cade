/**
 Which bytes a filter is loaded from, stated without the reader: the count in its shortest form,
 then exactly that many Golomb-Rice codes, then less than a byte of rest.
 */
module FilterGrammar {
  import opened Basics
  import opened Radix
  import opened Bits
  import opened FilterModel
  import opened BlockFilter

  // ----- The count -----

  lemma {:induction false} LittleForth(b: seq<int>)
    requires Bytes(b)
    ensures LittleEndian(FromLittle(b), |b|) == b && FromLittle(b) < Pow(256, |b|)
  {
    if b != [] {
      LittleForth(b[1..]);
      var m := FromLittle(b[1..]);
      DivIs(FromLittle(b), 256, m, b[0]);
      MulLe(m + 1, Pow(256, |b| - 1), 256);
    }
  }

  /** A count is read exactly from its written form, and only up to the limit. */
  lemma SizeIff(b: seq<int>, n: nat, rest: seq<int>)
    requires Bytes(b) && Bytes(rest)
    ensures ReadCompactSize(b) == Some((n, rest)) <==> n <= MAX_SIZE && b == WriteCompactSize(n) + rest
  {
    hide LittleEndian, FromLittle, Pow;
    if n <= MAX_SIZE && b == WriteCompactSize(n) + rest {
      SizeBack(n, rest);
    }
    if ReadCompactSize(b) == Some((n, rest)) {
      if b[0] < 253 {
        assert b == [n] + rest;
      } else {
        var k := if b[0] == 253 then 2 else if b[0] == 254 then 4 else 8;
        LittleForth(b[1..1 + k]);
        Thousands();
        assert b == [b[0]] + b[1..1 + k] + b[1 + k..];
      }
    }
  }

  // ----- The codes -----

  /** A quotient and a remainder. */
  datatype Coded = Coded(q: nat, r: nat)

  function CodeOf(p: nat, x: Coded): (b: seq<int>)
    ensures DigitsIn(2, b)
  {
    Ones(x.q) + [0] + BitsOf(x.r, p)
  }

  function CodesOf(p: nat, xs: seq<Coded>): (b: seq<int>)
    ensures DigitsIn(2, b)
  {
    if xs == [] then [] else CodeOf(p, xs[0]) + CodesOf(p, xs[1..])
  }

  function NumberOf(p: nat, x: Coded): nat {
    (x.q * Pow2(p) + x.r) % WORD
  }

  ghost predicate InBits(p: nat, xs: seq<Coded>) {
    forall i :: 0 <= i < |xs| ==> xs[i].r < Pow2(p)
  }

  lemma {:induction false} BitsBack(b: seq<int>)
    requires DigitsIn(2, b)
    ensures 0 <= Value(2, b) < Pow2(|b|) && BitsOf(Value(2, b), |b|) == b
  {
    ValueBound(2, b);
    if b != [] {
      var n := |b| - 1;
      BitsBack(b[..n]);
      assert b == b[..n] + [b[n]];
      ValueSnoc(2, b[..n], b[n]);
      DivIs(Value(2, b), 2, Value(2, b[..n]), b[n]);
    }
  }

  lemma CodeRead(p: nat, x: Coded, rest: seq<int>)
    requires x.r < Pow2(p) && DigitsIn(2, rest)
    ensures DigitsIn(2, CodeOf(p, x) + rest) && ReadGolomb(p, CodeOf(p, x) + rest) == Some((NumberOf(p, x), rest))
  {
    hide BitsOf, Value, LeadingOnes, Pow2;
    var tail := [0] + (BitsOf(x.r, p) + rest);
    var bits, q := CodeOf(p, x) + rest, x.q;
    assert bits == Ones(q) + tail;
    OnesFirst(q, tail);
    assert bits[q + 1..q + 1 + p] == BitsOf(x.r, p);
    assert bits[q + 1 + p..] == rest;
    BitsValue(x.r, p);
    SmallMod(x.r, Pow2(p));
  }

  lemma ReadCode(p: nat, bits: seq<int>) returns (x: Coded)
    requires DigitsIn(2, bits) && ReadGolomb(p, bits).Some?
    ensures x.r < Pow2(p) && bits == CodeOf(p, x) + ReadGolomb(p, bits).value.1
  {
    hide BitsOf, Value, LeadingOnes, Pow2;
    var q := LeadingOnes(bits);
    var r := bits[q + 1..q + 1 + p];
    assert forall i :: 0 <= i < p ==> r[i] == bits[q + 1 + i];
    BitsBack(r);
    x := Coded(q, Value(2, r));
    assert bits[..q] == Ones(q);
    assert bits[q] == 0;
    assert bits == bits[..q] + [bits[q]] + r + bits[q + 1 + p..];
  }

  function NumbersOf(p: nat, xs: seq<Coded>): seq<nat> {
    if xs == [] then [] else [NumberOf(p, xs[0])] + NumbersOf(p, xs[1..])
  }

  lemma {:induction false} CodesRead(p: nat, xs: seq<Coded>, rest: seq<int>)
    requires InBits(p, xs) && DigitsIn(2, rest)
    ensures DigitsIn(2, CodesOf(p, xs) + rest)
    ensures ReadAll(p, CodesOf(p, xs) + rest, |xs|) == Some((NumbersOf(p, xs), rest))
  {
    hide CodeOf, NumberOf, ReadGolomb;
    if xs == [] {
      assert CodesOf(p, xs) + rest == rest;
    } else {
      var more := CodesOf(p, xs[1..]) + rest;
      CodesRead(p, xs[1..], rest);
      assert CodesOf(p, xs) + rest == CodeOf(p, xs[0]) + more;
      CodeRead(p, xs[0], more);
    }
  }

  lemma {:induction false} ReadCodes(p: nat, bits: seq<int>, n: nat) returns (xs: seq<Coded>)
    requires DigitsIn(2, bits) && ReadAll(p, bits, n).Some?
    ensures |xs| == n && InBits(p, xs) && bits == CodesOf(p, xs) + ReadAll(p, bits, n).value.1
    decreases n
  {
    hide CodeOf, NumberOf, ReadGolomb;
    if n == 0 {
      xs := [];
    } else {
      var rest := ReadGolomb(p, bits).value.1;
      var x := ReadCode(p, bits);
      var more := ReadCodes(p, rest, n - 1);
      xs := [x] + more;
      assert xs[1..] == more;
      CodesStep(p, x, more, ReadAll(p, bits, n).value.1);
    }
  }

  lemma CodesStep(p: nat, x: Coded, xs: seq<Coded>, end: seq<int>)
    ensures CodesOf(p, [x] + xs) + end == CodeOf(p, x) + (CodesOf(p, xs) + end)
  {
    hide CodeOf;
    assert ([x] + xs)[1..] == xs;
  }

  // ----- The whole filter -----

  /** The bytes are the count of the codes, the codes, and less than a byte of rest. */
  ghost predicate FilterOf(p: nat, bytes: seq<int>, xs: seq<Coded>, body: seq<int>, rest: seq<int>) {
    && |xs| <= MAX_SIZE && Bytes(body) && bytes == WriteCompactSize(|xs|) + body
    && InBits(p, xs) && Unpack(body) == CodesOf(p, xs) + rest && |rest| < 8
  }

  lemma FilterLoads(par: Params, bytes: seq<int>, xs: seq<Coded>, body: seq<int>, rest: seq<int>)
    requires par.Valid() && FilterOf(par.p, bytes, xs, body, rest)
    ensures Bytes(bytes) && Loaded(par, bytes, false) == Some(Filter(par, |xs|, |xs| * par.m, bytes))
    ensures Decoded(par, bytes) == Wrapped(NumbersOf(par.p, xs), 0)
  {
    hide ReadCompactSize, ReadAll, Unpack, WriteCompactSize, CodesOf;
    assert Bytes(bytes);
    SizeIff(bytes, |xs|, body);
    assert rest == Unpack(body)[|CodesOf(par.p, xs)|..];
    assert forall i :: 0 <= i < |rest| ==> rest[i] == Unpack(body)[|CodesOf(par.p, xs)| + i];
    CodesRead(par.p, xs, rest);
  }

  /** Bytes are loaded if and only if they are such a filter. */
  lemma LoadsIff(par: Params, bytes: seq<int>)
    requires par.Valid() && Bytes(bytes)
    ensures Loaded(par, bytes, false).Some? <==> exists xs, body, rest :: FilterOf(par.p, bytes, xs, body, rest)
  {
    hide ReadCompactSize, ReadAll, Unpack, WriteCompactSize, CodesOf, InBits;
    if Loaded(par, bytes, false).Some? {
      var (n, body) := ReadCompactSize(bytes).value;
      SizeIff(bytes, n, body);
      var (ds, end) := ReadAll(par.p, Unpack(body), n).value;
      var xs := ReadCodes(par.p, Unpack(body), n);
      assert FilterOf(par.p, bytes, xs, body, end);
    }
    if xs, body, rest :| FilterOf(par.p, bytes, xs, body, rest) {
      FilterLoads(par, bytes, xs, body, rest);
    }
  }
}
