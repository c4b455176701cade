/**
 The filter object: built from a set of elements or loaded from bytes, and queried while its
 bits are being read.
 */
module BlockFilter {
  import opened Basics
  import opened Radix
  import opened Bits
  import opened FilterModel
  import opened BitStreams

  datatype Filter = Filter(par: Params, n: nat, f: nat, encoded: seq<int>)

  // ----- Golomb-Rice coding -----

  /** The quotient in unary, up to 64 ones at a time. */
  method WriteOnes(w: BitStreamWriter, n: nat)
    requires w.Valid()
    modifies w
    ensures w.Valid() && w.Written() == old(w.Written()) + Ones(n)
  {
    hide Pow, BitsOf, Pow2, BitStreamWriter.Valid, BitStreamWriter.Written;
    WordIs();
    var q := n;
    while q > 0
      invariant 0 <= q <= n && w.Valid()
      invariant w.Written() == old(w.Written()) + Ones(n - q)
    {
      var nbits := if q <= 64 then q else 64;
      AllOnes(64, nbits);
      w.Write(WORD - 1, nbits);
      q := q - nbits;
    }
  }

  method GolombRiceEncode(w: BitStreamWriter, p: nat, x: nat)
    requires w.Valid() && p < 64 && x < WORD
    modifies w
    ensures w.Valid() && w.Written() == old(w.Written()) + Golomb(p, x)
  {
    hide BitsOf, Shr, Ones, BitStreamWriter.Valid, BitStreamWriter.Written;
    WriteOnes(w, Shr(x, p));
    w.Write(0, 1);
    assert BitsOf(0, 1) == [0] by { NoOnes(1); }
    w.Write(x, p);
  }

  lemma OneBit(bits: seq<int>)
    requires bits != []
    ensures Value(2, bits[..1]) == bits[0]
  {
    assert bits[..1] == [] + [bits[0]];
    ValueSnoc(2, [], bits[0]);
  }

  lemma {:induction false} OnesThen(bits: seq<int>, q: nat)
    requires q <= |bits| && (forall i :: 0 <= i < q ==> bits[i] == 1) && (q < |bits| ==> bits[q] != 1)
    ensures LeadingOnes(bits) == q
  {
    if q > 0 {
      assert forall i :: 0 <= i < q - 1 ==> bits[1..][i] == bits[i + 1];
      OnesThen(bits[1..], q - 1);
    }
  }

  /** The unary quotient and the bit after it; `None` at the end of the stream. */
  method ReadOnes(r: BitStreamReader) returns (q: Option<nat>)
    requires r.Valid()
    modifies r
    ensures r.Valid()
    ensures q.None? <==> LeadingOnes(old(r.Left())) == |old(r.Left())|
    ensures q.Some? ==> q.value == LeadingOnes(old(r.Left())) && r.Left() == old(r.Left())[q.value + 1..] && r.offset > 0
  {
    hide BitsOf, Value, LeadingOnes, BitStreamReader.Valid, BitStreamReader.Left;
    ghost var bits := r.Left();
    var n: nat := 0;
    var b := r.Read(1);
    if b.Some? {
      OneBit(bits);
    }
    while b.Some? && b.value == 1
      invariant r.Valid() && n <= |bits| && forall i :: 0 <= i < n ==> bits[i] == 1
      invariant b.None? ==> n == |bits|
      invariant b.Some? ==> n < |bits| && b.value == bits[n] && r.Left() == bits[n + 1..] && r.offset > 0
      decreases |bits| - n, b.Some?
    {
      n := n + 1;
      b := r.Read(1);
      if b.Some? {
        OneBit(bits[n..]);
      }
    }
    OnesThen(bits, n);
    q := if b.None? then None else Some(n);
  }

  method GolombRiceDecode(r: BitStreamReader, p: nat) returns (x: Option<nat>)
    requires r.Valid() && p < 64
    modifies r
    ensures r.Valid()
    ensures x.None? <==> ReadGolomb(p, old(r.Left())).None?
    ensures x.Some? ==> ReadGolomb(p, old(r.Left())) == Some((x.value, r.Left()))
    ensures x.Some? ==> r.offset > 0
  {
    hide Pow, Pow2, Value, LeadingOnes, BitStreamReader.Valid, BitStreamReader.Left;
    ghost var bits := r.Left();
    var ones := ReadOnes(r);
    if ones.None? {
      return None;
    }
    var q := ones.value;
    var low := r.Read(p);
    if low.None? {
      return None;
    }
    assert bits[q + 1..][..p] == bits[q + 1..q + 1 + p] && bits[q + 1..][p..] == bits[q + 1 + p..];
    x := Some((q * Pow2(p) + low.value) % WORD);
  }

  // ----- Hashed sets -----

  function Hashes(par: Params, f: nat, es: seq<Element>): seq<nat> {
    seq(|es|, i requires 0 <= i < |es| => HashToRange(par, f, es[i]))
  }

  function Insert(x: nat, s: seq<nat>): (r: seq<nat>)
    requires Sorted(s)
    ensures Sorted(r) && multiset(r) == multiset(s) + multiset{x}
  {
    if s == [] || x <= s[0] then
      assert multiset([x] + s) == multiset{x} + multiset(s);
      [x] + s
    else
      SortedTail(s);
      var r := Insert(x, s[1..]);
      assert s == [s[0]] + s[1..];
      InsertFirst(s[0], r, s[1..], x);
      assert multiset([s[0]] + r) == multiset{s[0]} + multiset(r);
      [s[0]] + r
  }

  lemma InsertFirst(a: nat, r: seq<nat>, s: seq<nat>, x: nat)
    requires Sorted(r) && multiset(r) == multiset(s) + multiset{x} && a <= x && forall y :: y in s ==> a <= y
    ensures Sorted([a] + r)
  {
    forall y | y in r
      ensures a <= y
    {
      assert y in multiset(s) + multiset{x};
      if y != x {
        assert y in multiset(s) && y in s;
      }
    }
    var t := [a] + r;
    forall i, j | 0 <= i < j < |t|
      ensures t[i] <= t[j]
    {
      assert t[j] == r[j - 1] && r[j - 1] in r;
      if i > 0 {
        assert t[i] == r[i - 1];
      }
    }
  }

  /** What `std::sort` promises. */
  function Sort(s: seq<nat>): (r: seq<nat>)
    ensures Sorted(r) && multiset(r) == multiset(s)
  {
    if s == [] then []
    else
      assert s == [s[0]] + s[1..];
      Insert(s[0], Sort(s[1..]))
  }

  lemma SortSame(s: seq<nat>)
    ensures |Sort(s)| == |s| && forall x :: x in Sort(s) <==> x in s
  {
    var r := Sort(s);
    assert |multiset(r)| == |multiset(s)|;
    forall x
      ensures x in r <==> x in s
    {
      assert x in r <==> x in multiset(r);
      assert x in s <==> x in multiset(s);
    }
  }

  method BuildHashedSet(par: Params, f: nat, es: seq<Element>) returns (hs: seq<nat>)
    ensures hs == Sort(Hashes(par, f, es))
  {
    hs := [];
    var i := 0;
    while i < |es|
      invariant 0 <= i <= |es| && hs == Hashes(par, f, es)[..i]
    {
      hs := hs + [HashToRange(par, f, es[i])];
      i := i + 1;
    }
    assert hs == Hashes(par, f, es);
    hs := Sort(hs);
  }

  lemma RangeFits(par: Params, n: nat, e: Element)
    requires par.Valid() && n < HALF
    ensures n * par.m < WORD && HashToRange(par, n * par.m, e) < WORD
  {
    MulLeBoth(n, HALF - 1, par.m, HALF - 1);
    var h, f := par.hash(e) % WORD, n * par.m;
    MulLeBoth(h, WORD - 1, f, WORD - 1);
    DivParts(h * f, WORD);
  }

  /** The range is cut evenly: number `v` stands for the hashes from v/f to (v + 1)/f of all 64-bit words. */
  lemma RangeEven(par: Params, f: nat, e: Element, v: nat)
    ensures HashToRange(par, f, e) == v <==> v * WORD <= (par.hash(e) % WORD) * f < (v + 1) * WORD
    ensures f > 0 ==> HashToRange(par, f, e) < f
  {
    var h := par.hash(e) % WORD;
    DivParts(h * f, WORD);
    var q, r := HashToRange(par, f, e), (h * f) % WORD;
    assert h * f == WORD * q + r;
    if v * WORD <= h * f < (v + 1) * WORD {
      DivIs(h * f, WORD, v, h * f - v * WORD);
    }
    if f > 0 {
      MulLe(h + 1, WORD, f);
    }
  }

  /** A larger hash never gives a smaller number. */
  lemma RangeOrder(par: Params, f: nat, x: Element, y: Element)
    requires par.hash(x) % WORD <= par.hash(y) % WORD
    ensures HashToRange(par, f, x) <= HashToRange(par, f, y)
  {
    var a, b := par.hash(x) % WORD, par.hash(y) % WORD;
    MulLe(a, b, f);
    var v, w := HashToRange(par, f, x), HashToRange(par, f, y);
    RangeEven(par, f, x, v);
    RangeEven(par, f, y, w);
    Cancel(v, w + 1, WORD);
  }

  lemma Cancel(a: nat, b: nat, d: nat)
    requires a * d < b * d
    ensures a < b
  {
    if b <= a {
      MulLe(b, a, d);
    }
  }

  // ----- Filters -----

  /** The filter codes the sorted list `vs`. */
  ghost predicate Holds(flt: Filter, vs: seq<nat>) {
    var size := WriteCompactSize(flt.n);
    && flt.par.Valid() && flt.n == |vs| < HALF && flt.f == flt.n * flt.par.m
    && Sorted(vs) && (forall x :: x in vs ==> x < WORD)
    && Bytes(flt.encoded) && size <= flt.encoded
    && var code := Code(flt.par.p, vs, 0);
      Unpack(flt.encoded[|size|..]) == code + Zeroes((8 - |code| % 8) % 8)
  }

  /** What loading gives; `None` stands for the exception. */
  function Loaded(par: Params, bytes: seq<int>, skip: bool): Option<Filter>
    requires par.Valid() && Bytes(bytes)
  {
    match ReadCompactSize(bytes)
    case None => None
    case Some((n, body)) =>
      if skip then Some(Filter(par, n, n * par.m, bytes))
      else
        match ReadAll(par.p, Unpack(body), n)
        case None => None
        case Some((ds, end)) => if |end| >= 8 then None else Some(Filter(par, n, n * par.m, bytes))
  }

  /** The stored count is the one at the head of the bytes, when that can be read at all. */
  ghost predicate Usable(flt: Filter) {
    && flt.par.Valid() && Bytes(flt.encoded)
    && (ReadCompactSize(flt.encoded).Some? ==> ReadCompactSize(flt.encoded).value.0 == flt.n)
  }

  /** The answer for sorted queries; `None` stands for the exception. */
  ghost function Answer(flt: Filter, qs: seq<nat>): Option<bool>
    requires Usable(flt)
  {
    match ReadCompactSize(flt.encoded)
    case None => None
    case Some((n, body)) => Search(flt.par.p, Unpack(body), n, 0, qs)
  }

  function Last(vs: seq<nat>, i: nat): nat
    requires i <= |vs|
  {
    if i == 0 then 0 else vs[i - 1]
  }

  lemma SortedFrom(vs: seq<nat>, i: nat)
    requires Sorted(vs) && i <= |vs|
    ensures Sorted(vs[i..]) && (vs[i..] != [] ==> Last(vs, i) <= vs[i..][0])
  {
    assert forall a, b :: 0 <= a < b < |vs| - i ==> vs[i..][a] <= vs[i..][b];
  }

  /** What has been written and what is still to be coded. */
  ghost predicate Coded(p: nat, vs: seq<nat>, i: nat, done: seq<int>) {
    && Sorted(vs) && i <= |vs| && Sorted(vs[i..]) && (vs[i..] != [] ==> Last(vs, i) <= vs[i..][0])
    && done + Code(p, vs[i..], Last(vs, i)) == Code(p, vs, 0)
  }

  lemma CodedStep(p: nat, vs: seq<nat>, i: nat, done: seq<int>)
    requires i < |vs| && Coded(p, vs, i, done)
    ensures Last(vs, i) <= vs[i] && Coded(p, vs, i + 1, done + Golomb(p, vs[i] - Last(vs, i)))
  {
    hide Golomb, Sorted;
    SortedFrom(vs, i);
    SortedFrom(vs, i + 1);
    var rest := vs[i..];
    assert rest[0] == vs[i] && rest[1..] == vs[i + 1..];
    var g, more := Golomb(p, vs[i] - Last(vs, i)), Code(p, vs[i + 1..], vs[i]);
    assert Code(p, rest, Last(vs, i)) == g + more;
    assert (done + g) + more == done + (g + more);
  }

  lemma CodedAll(p: nat, vs: seq<nat>)
    requires Sorted(vs)
    ensures Coded(p, vs, 0, [])
    ensures forall done :: Coded(p, vs, |vs|, done) ==> done == Code(p, vs, 0)
  {
    assert vs[0..] == vs && vs[|vs|..] == [];
    assert Code(p, [], Last(vs, |vs|)) == [];
  }

  /** Code the sorted values; the bits are those of `Code`, padded to whole bytes. */
  method EncodeValues(p: nat, vs: seq<nat>, head: seq<int>) returns (bytes: seq<int>)
    requires p < 64 && Sorted(vs) && Bytes(head) && forall x :: x in vs ==> x < WORD
    ensures Bytes(bytes) && head <= bytes && Bytes(bytes[|head|..])
    ensures var code := Code(p, vs, 0); Unpack(bytes[|head|..]) == code + Zeroes((8 - |code| % 8) % 8)
  {
    hide Golomb, Code, BitStreamWriter.Written, Unpack, Coded, Sorted;
    var w := new BitStreamWriter([]);
    NothingLeft(0);
    CodedAll(p, vs);
    var last := 0;
    var i := 0;
    while i < |vs|
      invariant 0 <= i <= |vs| && w.Valid() && fresh(w) && last == Last(vs, i)
      invariant Coded(p, vs, i, w.Written())
    {
      CodedStep(p, vs, i, w.Written());
      assert vs[i] in vs;
      GolombRiceEncode(w, p, vs[i] - last);
      last := vs[i];
      i := i + 1;
    }
    WrittenSize(w);
    w.Flush();
    bytes := head + w.out;
    assert bytes[|head|..] == w.out;
  }

  lemma WrittenSize(w: BitStreamWriter)
    requires w.Valid()
    ensures |w.Written()| % 8 == w.offset
  {
  }

  /** Build a filter from a set of elements, given in the order they come out; `None` for 2^32 or more. */
  method Build(par: Params, es: seq<Element>) returns (r: Option<Filter>)
    requires par.Valid()
    ensures r.None? <==> |es| >= HALF
    ensures r.Some? ==> r.value.par == par && Holds(r.value, Sort(Hashes(par, |es| * par.m, es)))
  {
    hide Sort, HashToRange, WriteCompactSize, Code, Unpack;
    var n := |es|;
    if n >= HALF { return None; }
    var f := n * par.m;
    var head := WriteCompactSize(n);
    var hs := BuildHashedSet(par, f, es);
    SortSame(Hashes(par, f, es));
    forall x | x in hs
      ensures x < WORD
    {
      var i :| 0 <= i < |es| && Hashes(par, f, es)[i] == x;
      RangeFits(par, n, es[i]);
    }
    if n == 0 {
      EmptyHolds(par, hs);
      return Some(Filter(par, 0, f, head));
    }
    var bytes := EncodeValues(par.p, hs, head);
    r := Some(Filter(par, n, f, bytes));
  }

  lemma EmptyHolds(par: Params, hs: seq<nat>)
    requires par.Valid() && hs == []
    ensures Holds(Filter(par, 0, 0, WriteCompactSize(0)), hs)
  {
    var flt := Filter(par, 0, 0, WriteCompactSize(0));
    assert flt.encoded[|WriteCompactSize(0)|..] == [];
    assert Code(par.p, [], 0) == [];
  }

  // ----- Loading and searching -----

  lemma ByteEnd(r: BitStreamReader)
    requires r.Valid() && r.offset > 0
    ensures r.input == [] <==> |r.Left()| < 8
  {
  }

  /** Read and forget the given number of values. */
  method SkipValues(r: BitStreamReader, p: nat, n: nat) returns (ok: bool)
    requires r.Valid() && p < 64 && r.offset > 0
    modifies r
    ensures r.Valid()
    ensures ok <==> ReadAll(p, old(r.Left()), n).Some?
    ensures ok ==> r.offset > 0 && ReadAll(p, old(r.Left()), n).value.1 == r.Left()
  {
    hide ReadGolomb, BitStreamReader.Left, BitStreamReader.Valid;
    ghost var goal := ReadAll(p, r.Left(), n);
    var i := 0;
    while i < n
      invariant 0 <= i <= n && r.Valid() && r.offset > 0
      invariant goal.Some? <==> ReadAll(p, r.Left(), n - i).Some?
      invariant goal.Some? ==> goal.value.1 == ReadAll(p, r.Left(), n - i).value.1
    {
      var x := GolombRiceDecode(r, p);
      if x.None? { return false; }
      i := i + 1;
    }
    ok := true;
  }

  method Load(par: Params, bytes: seq<int>, skip: bool) returns (r: Option<Filter>)
    requires par.Valid() && Bytes(bytes)
    ensures r == Loaded(par, bytes, skip)
  {
    hide ReadCompactSize, ReadAll;
    var size := ReadCompactSize(bytes);
    if size.None? { return None; }
    var (n, body) := size.value;
    var flt := Filter(par, n, n * par.m, bytes);
    if skip { return Some(flt); }
    var reader := new BitStreamReader(body);
    var ok := SkipValues(reader, par.p, n);
    if !ok { return None; }
    ByteEnd(reader);
    if reader.input != [] { return None; }
    r := Some(flt);
  }

  lemma DropStep(qs: seq<nat>, i: nat, v: nat)
    requires i < |qs|
    ensures Drop(qs[i..], v) == if qs[i] >= v then qs[i..] else Drop(qs[i + 1..], v)
  {
    assert qs[i..][1..] == qs[i + 1..];
  }

  /** Helper used to answer `Match` and `MatchAny`. */
  method MatchInternal(flt: Filter, qs: seq<nat>) returns (r: Option<bool>)
    requires Usable(flt)
    ensures r == Answer(flt, qs)
  {
    hide ReadCompactSize, ReadGolomb, Drop, BitStreamReader.Left, BitStreamReader.Valid;
    var size := ReadCompactSize(flt.encoded);
    if size.None? { return None; }
    var (n, body) := size.value;
    assert n == flt.n;
    var reader := new BitStreamReader(body);
    var value: nat, index := 0, 0;
    var i := 0;
    assert qs[0..] == qs;
    ghost var p := flt.par.p;
    ghost var goal := Search(p, reader.Left(), n, 0, qs);
    while i < n
      invariant 0 <= i <= n && reader.Valid() && 0 <= index <= |qs| && fresh(reader)
      invariant goal == Search(p, reader.Left(), n - i, value, qs[index..])
    {
      var delta := GolombRiceDecode(reader, flt.par.p);
      if delta.None? { return None; }
      ghost var before := index;
      value := (value + delta.value) % WORD;
      assert goal == (var left := Drop(qs[before..], value);
        if left == [] then Some(false) else if left[0] == value then Some(true)
        else Search(p, reader.Left(), n - i - 1, value, left));
      while true
        modifies {}
        invariant before <= index <= |qs|
        invariant Drop(qs[before..], value) == Drop(qs[index..], value)
        decreases |qs| - index
      {
        if index == |qs| {
          DropNone(value);
          assert qs[index..] == [];
          return Some(false);
        }
        DropStep(qs, index, value);
        if qs[index] == value {
          return Some(true);
        } else if qs[index] > value {
          break;
        }
        index := index + 1;
      }
      i := i + 1;
    }
    r := Some(false);
  }

  lemma DropNone(v: nat)
    ensures Drop([], v) == []
  {
  }

  method Match(flt: Filter, e: Element) returns (r: Option<bool>)
    requires Usable(flt)
    ensures r == Answer(flt, [HashToRange(flt.par, flt.f, e)])
  {
    r := MatchInternal(flt, [HashToRange(flt.par, flt.f, e)]);
  }

  method MatchAny(flt: Filter, es: seq<Element>) returns (r: Option<bool>)
    requires Usable(flt)
    ensures r == Answer(flt, Sort(Hashes(flt.par, flt.f, es)))
  {
    var qs := BuildHashedSet(flt.par, flt.f, es);
    r := MatchInternal(flt, qs);
  }

  // ----- What the answers mean -----

  lemma HoldsReads(flt: Filter, vs: seq<nat>) returns (ds: seq<nat>, pad: seq<int>, body: seq<int>)
    requires Holds(flt, vs)
    ensures Bytes(body) && |pad| < 8
    ensures ReadCompactSize(flt.encoded) == if flt.n <= MAX_SIZE then Some((flt.n, body)) else None
    ensures ReadAll(flt.par.p, Unpack(body), flt.n) == Some((ds, pad)) && Totals(ds, 0) == vs
  {
    hide ReadCompactSize, ReadAll, Code, Unpack, WriteCompactSize;
    var size := WriteCompactSize(flt.n);
    body := flt.encoded[|size|..];
    assert flt.encoded == size + body;
    SizeBack(flt.n, body);
    var code := Code(flt.par.p, vs, 0);
    pad := Zeroes((8 - |code| % 8) % 8);
    assert forall i :: 0 <= i < |vs| ==> vs[i] in vs;
    ds := CodeRead(flt.par.p, vs, 0, pad);
  }

  /** A built filter can be loaded from its own bytes, as itself, if and only if its count can be read. */
  lemma BuiltLoads(flt: Filter, vs: seq<nat>)
    requires Holds(flt, vs)
    ensures Usable(flt)
    ensures Loaded(flt.par, flt.encoded, false) == if flt.n <= MAX_SIZE then Some(flt) else None
  {
    hide ReadCompactSize, ReadAll, Code, Unpack, WriteCompactSize;
    var ds, pad, body := HoldsReads(flt, vs);
  }

  /**
   On a built filter the streaming search answers whether a query's number is among the
   elements' numbers, if and only if the count can be read; otherwise it throws.
   */
  lemma BuiltAnswers(flt: Filter, vs: seq<nat>, hs: seq<nat>)
    requires Holds(flt, vs)
    ensures Usable(flt)
    ensures Answer(flt, Sort(hs)) == if flt.n <= MAX_SIZE then Some(Common(vs, hs)) else None
  {
    hide ReadCompactSize, ReadAll, Code, Unpack, WriteCompactSize, Search;
    var ds, pad, body := HoldsReads(flt, vs);
    BuiltLoads(flt, vs);
    SortSame(hs);
    if flt.n <= MAX_SIZE {
      SearchIs(flt.par.p, Unpack(body), flt.n, 0, 0, Sort(hs), ds, pad);
      TotalsArePeaks(ds, 0);
    }
  }

  lemma HoldsCount(flt: Filter, vs: seq<nat>)
    requires Holds(flt, vs)
    ensures flt.n == |vs| && flt.f == flt.n * flt.par.m
  {
  }

  /** No element that went into a filter is ever missed. */
  lemma NeverMissed(par: Params, es: seq<Element>, flt: Filter, queries: seq<Element>, e: Element)
    requires |es| <= MAX_SIZE && flt.par == par && Holds(flt, Sort(Hashes(par, |es| * par.m, es)))
    requires e in es && e in queries
    ensures Usable(flt) && Answer(flt, Sort(Hashes(par, flt.f, queries))) == Some(true)
  {
    hide Answer, Sort, HashToRange, Holds, Usable;
    var hs := Hashes(par, |es| * par.m, es);
    SortSame(hs);
    HoldsCount(flt, Sort(hs));
    var qs := Hashes(par, flt.f, queries);
    BuiltAnswers(flt, Sort(hs), qs);
    var i :| 0 <= i < |es| && es[i] == e;
    var j :| 0 <= j < |queries| && queries[j] == e;
    var x := HashToRange(par, flt.f, e);
    assert hs[i] == x && qs[j] == x;
    assert x in Sort(hs) && x in qs;
  }

  /** The numbers a filter's bytes decode to, as the search adds them up. */
  ghost function Decoded(par: Params, bytes: seq<int>): seq<nat>
    requires par.Valid() && Bytes(bytes) && Loaded(par, bytes, false).Some?
  {
    var (n, body) := ReadCompactSize(bytes).value;
    Wrapped(ReadAll(par.p, Unpack(body), n).value.0, 0)
  }

  /**
   Loaded bytes, whoever wrote them: the search never throws, and finds exactly the numbers that
   are not below an earlier one.
   */
  lemma LoadedAnswers(par: Params, bytes: seq<int>, hs: seq<nat>)
    requires par.Valid() && Bytes(bytes) && Loaded(par, bytes, false).Some?
    ensures var flt := Loaded(par, bytes, false).value;
      Usable(flt) && Answer(flt, Sort(hs)) == Some(Common(Peaks(Decoded(par, bytes), 0), hs))
  {
    hide ReadCompactSize, ReadAll, Unpack, Search;
    var (n, body) := ReadCompactSize(bytes).value;
    var (ds, end) := ReadAll(par.p, Unpack(body), n).value;
    SortSame(hs);
    SearchIs(par.p, Unpack(body), n, 0, 0, Sort(hs), ds, end);
  }

  /** The search is exact for every query if and only if each number that is below an earlier one was also met in time. */
  lemma ExactWhen(par: Params, bytes: seq<int>)
    requires par.Valid() && Bytes(bytes) && Loaded(par, bytes, false).Some?
    ensures var flt, vs := Loaded(par, bytes, false).value, Decoded(par, bytes);
      && Usable(flt)
      && ((forall hs :: Answer(flt, Sort(hs)) == Some(Common(vs, hs))) <==> forall x :: x in vs ==> x in Peaks(vs, 0))
  {
    hide Loaded, Decoded, Answer, Usable;
    var flt, vs := Loaded(par, bytes, false).value, Decoded(par, bytes);
    LoadedAnswers(par, bytes, []);
    PeaksAtLeast(vs, 0);
    if forall x :: x in vs ==> x in Peaks(vs, 0) {
      forall hs
        ensures Answer(flt, Sort(hs)) == Some(Common(vs, hs))
      {
        LoadedAnswers(par, bytes, hs);
      }
    }
    if forall hs :: Answer(flt, Sort(hs)) == Some(Common(vs, hs)) {
      forall x | x in vs
        ensures x in Peaks(vs, 0)
      {
        LoadedAnswers(par, bytes, [x]);
        assert x in [x];
        assert Common(vs, [x]);
      }
    }
  }

  // ----- Bytes whose totals wrap -----

  const WRAPPING: seq<int> := [128] + Zeroes(7) + ([64] + Zeroes(8))

  lemma HighBit()
    ensures Golomb(63, Pow2(63)) == [1] + Zeroes(64) && Pow2(63) + Pow2(63) == WORD && Pow2(63) > 0
  {
    hide BitsOf, Pow;
    WordIs();
    Halves(64);
    DivIs(Pow2(63), Pow2(63), 1, 0);
    BitsLow(Pow2(63), 63);
    NoOnes(63);
  }

  lemma WrappingBits()
    ensures Bytes(WRAPPING)
    ensures Unpack(WRAPPING) == Golomb(63, Pow2(63)) + (Golomb(63, Pow2(63)) + Zeroes(6))
  {
    hide BitsOf, Pow, Unpack, Golomb;
    HighBit();
    BitAlone(7);
    BitAlone(6);
    Sizes();
    UnpackNone();
    UnpackSnoc([], 128);
    UnpackSnoc([], 64);
    assert [] + [128] == [128] && [] + [64] == [64];
    UnpackZeroes(7);
    UnpackZeroes(8);
    UnpackJoin([128], Zeroes(7));
    UnpackJoin([64], Zeroes(8));
    UnpackJoin([128] + Zeroes(7), [64] + Zeroes(8));
    assert Unpack(WRAPPING) == [1] + Zeroes(7) + Zeroes(56) + ([0, 1] + Zeroes(6) + Zeroes(64));
  }

  lemma Sizes()
    ensures Pow2(6) == 64 && Pow2(7) == 128
  {
    Halves(7);
    Halves(6);
    assert Pow(2, 3) == 8;
    Pow2Sum(3, 3);
  }

  /** A filter that loads, whose second number wraps to zero and is not found. */
  lemma WrapsAround(m: nat, hash: Element -> nat)
    requires m < HALF
    ensures var par, bytes := Params(63, m, hash), [2] + WRAPPING;
      && par.Valid() && Bytes(bytes) && Loaded(par, bytes, false).Some?
      && Decoded(par, bytes) == [Pow2(63), 0]
      && var flt := Loaded(par, bytes, false).value;
        Usable(flt) && 0 in Decoded(par, bytes) && Answer(flt, Sort([0])) == Some(false)
  {
    hide BitsOf, Pow, Unpack, Golomb, ReadAll, Search, Answer;
    var par, bytes, h := Params(63, m, hash), [2] + WRAPPING, Pow2(63);
    WrappingBits();
    HighBit();
    assert bytes[1..] == WRAPPING;
    assert Bytes(bytes);
    var pad := Zeroes(6);
    CodeNone(63, 0, pad);
    CodeReadStep(63, h, pad, 0, [], pad);
    CodeReadStep(63, h, Golomb(63, h) + pad, 1, [h] + [], pad);
    assert [h] + ([h] + []) == [h, h];
    assert Wrapped([h, h], 0) == [h, 0] by { WrapTwo(h); }
    LoadedAnswers(par, bytes, [0]);
    PeaksTwo(h);
  }

  lemma WrapTwo(h: nat)
    requires 0 < h && h + h == WORD
    ensures Wrapped([h, h], 0) == [h, 0]
  {
    assert [h, h][1..] == [h] && [h][1..] == [];
    assert Wrapped([h], h) == [0];
  }

  lemma PeaksTwo(h: nat)
    requires 0 < h
    ensures Peaks([h, 0], 0) == [h] && !Common([h], [0])
  {
    assert [h, 0][1..] == [0] && [0][1..] == [];
    assert Peaks([0], h) == Peaks([], h) == [];
  }
}
