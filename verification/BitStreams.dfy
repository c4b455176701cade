/**
 Streams of bits over streams of bytes. Shifts of 64-bit words are multiplications and divisions
 by powers of two with the overflow cut off; OR-ing disjoint bits is addition.
 */
module BitStreams {
  import opened Basics
  import opened Radix
  import opened Bits

  // ----- One byte's worth -----

  lemma ScaleMod(x: nat, m: nat, c: nat)
    requires m > 0 && c > 0
    ensures m * c > 0 && (x * c) % (m * c) == (x % m) * c
  {
    DivParts(x, m);
    var q, r := x / m, x % m;
    MulLe(1, m, c);
    assert x * c == (m * c) * q + r * c by {
      assert x * c == (m * q) * c + r * c;
      Assoc(m, q, c);
      Assoc(m, c, q);
    }
    MulLe(r + 1, m, c);
    MulLe(0, r, c);
    DivIs(x * c, m * c, q, r * c);
  }

  lemma ScaleDiv(x: nat, m: nat, c: nat)
    requires m > 0 && c > 0
    ensures m * c > 0 && (x * c) / (m * c) == x / m
  {
    ScaleMod(x, m, c);
    DivParts(x, m);
    var q, r := x / m, x % m;
    assert x * c == (m * c) * q + r * c by {
      assert x * c == (m * q) * c + r * c;
      Assoc(m, q, c);
      Assoc(m, c, q);
    }
    MulLe(r + 1, m, c);
    MulLe(0, r, c);
    DivIs(x * c, m * c, q, r * c);
  }

  function Min(a: int, b: int): int {
    if a <= b then a else b
  }

  /** `(data << (64 - n)) >> (64 - 8 + offset)`: the next bits to write, moved to where they go. */
  function Chunk(data: nat, n: nat, offset: nat): nat
    requires 0 < n <= 64 && offset < 8
  {
    Shr((data * Pow2(64 - n)) % Pow2(64), 56 + offset)
  }

  lemma ChunkIs(data: nat, n: nat, offset: nat, k: nat, e: nat)
    requires 0 < n <= 64 && offset < 8 && k == Min(8 - offset, n) && e == 8 - offset - k
    ensures Pow2(n - k) > 0 && Pow2(k) > 0
    ensures Chunk(data, n, offset) == ((data / Pow2(n - k)) % Pow2(k)) * Pow2(e)
  {
    hide Pow;
    Pow2Sum(n, 64 - n);
    Pow2Sum(n - k, k);
    var d := data % Pow2(n);
    ScaleMod(data, Pow2(n), Pow2(64 - n));
    DivDiv(data, Pow2(n - k), Pow2(k));
    var c := d / Pow2(n - k);
    assert c == (data / Pow2(n - k)) % Pow2(k);
    if k == n {
      Pow2Sum(e, 56 + offset);
      Pow2Zero();
      Assoc(d, Pow2(e), Pow2(56 + offset));
      DivIs(d * Pow2(64 - n), Pow2(56 + offset), d * Pow2(e), 0);
    } else {
      Pow2Sum(n - k, 64 - n);
      Pow2Zero();
      ScaleDiv(d, Pow2(n - k), Pow2(64 - n));
    }
  }

  lemma Pow2Zero()
    ensures Pow2(0) == 1
  {
  }

  lemma Joined(hi: nat, c: nat, a: nat, k: nat)
    requires c < Pow2(k)
    ensures BitsOf(hi * Pow2(k) + c, a + k) == BitsOf(hi, a) + BitsOf(c, k)
  {
    hide Pow, BitsOf;
    BitsSplit(hi * Pow2(k) + c, a, k);
    DivIs(hi * Pow2(k) + c, Pow2(k), hi, c);
    BitsLow(hi * Pow2(k) + c, k);
  }

  /** A byte whose unused low bits are clear, and what its used bits are. */
  predicate Partial(buffer: int, offset: int, hi: nat) {
    0 <= offset <= 8 && buffer == hi * Pow2(8 - offset) && hi < Pow2(offset)
  }

  lemma PutArith(buffer: int, hi: nat, c: nat, pk: nat, pe: nat, po: nat)
    requires buffer == hi * (pk * pe) && hi < po && c < pk
    ensures buffer + c * pe == (hi * pk + c) * pe
    ensures 0 <= hi * pk + c < po * pk
  {
    Assoc(hi, pk, pe);
    MulLe(hi + 1, po, pk);
    MulLe(0, hi, pk);
  }

  lemma Put(buffer: int, offset: nat, hi: nat, c: nat, k: nat) returns (next: nat)
    requires k <= 8 - offset && c < Pow2(k) && Partial(buffer, offset, hi)
    ensures Partial(buffer + c * Pow2(8 - offset - k), offset + k, next)
    ensures BitsOf(next, offset + k) == BitsOf(hi, offset) + BitsOf(c, k)
  {
    hide Pow, BitsOf, Pow2, Partial;
    next := hi * Pow2(k) + c;
    PutPartial(buffer, offset, hi, c, k);
    Joined(hi, c, offset, k);
  }

  lemma PutPartial(buffer: int, offset: nat, hi: nat, c: nat, k: nat)
    requires k <= 8 - offset && c < Pow2(k) && Partial(buffer, offset, hi)
    ensures Partial(buffer + c * Pow2(8 - offset - k), offset + k, hi * Pow2(k) + c)
  {
    hide Pow, Pow2;
    var e := 8 - offset - k;
    Pow2Sum(k, e);
    Pow2Sum(offset, k);
    PutArith(buffer, hi, c, Pow2(k), Pow2(e), Pow2(offset));
  }

  lemma Extend(data: nat, total: nat, n: nat, k: nat)
    requires 0 < k <= n <= total
    ensures Pow2(n) > 0 && Pow2(n - k) > 0
    ensures BitsOf(data / Pow2(n), total - n) + BitsOf(data / Pow2(n - k), k) == BitsOf(data / Pow2(n - k), total - (n - k))
  {
    hide Pow, BitsOf, Pow2;
    Pow2Sum(n - k, k);
    Pow2Sum(n, 0);
    DivDiv(data, Pow2(n - k), Pow2(k));
    BitsSplit(data / Pow2(n - k), total - n, k);
  }

  lemma PartialByte(buffer: int, hi: nat)
    requires Partial(buffer, 8, hi)
    ensures 0 <= buffer < 256 && hi == buffer
  {
    Eight();
  }

  class BitStreamWriter {
    var out: seq<int>
    var buffer: int
    var offset: int
    ghost var hi: nat

    ghost predicate Valid()
      reads this
    {
      Bytes(out) && 0 <= offset < 8 && Partial(buffer, offset, hi)
    }

    /** The bits written so far. */
    ghost function Written(): seq<int>
      reads this
      requires Valid()
    {
      Unpack(out) + BitsOf(hi, offset)
    }

    constructor (bytes: seq<int>)
      requires Bytes(bytes)
      ensures Valid() && Written() == Unpack(bytes) && offset == 0 && out == bytes
    {
      out, buffer, offset, hi := bytes, 0, 0, 0;
      new;
      Eight();
    }

    /** Fill up the current byte with the highest of the remaining bits. */
    method WriteSome(data: nat, n: nat) returns (k: nat)
      requires Valid() && 0 < n <= 64
      modifies this
      ensures Valid() && 0 < k <= n && Pow2(n - k) > 0
      ensures Written() == old(Written()) + BitsOf(data / Pow2(n - k), k)
    {
      hide Pow, BitsOf, Chunk, Unpack, Partial, Pow2;
      k := Min(8 - offset, n);
      ChunkIs(data, n, offset, k, 8 - offset - k);
      BitsLow(data / Pow2(n - k), k);
      ghost var next := Put(buffer, offset, hi, (data / Pow2(n - k)) % Pow2(k), k);
      buffer := buffer + Chunk(data, n, offset);
      offset := offset + k;
      hi := next;
      if offset == 8 {
        PartialByte(buffer, hi);
        UnpackSnoc(out, buffer);
        out := out + [buffer];
        buffer, offset, hi := 0, 0, 0;
        PartialNone();
      }
    }

    /** Write the low bits of a 64-bit word, highest first. */
    method Write(data: nat, nbits: nat)
      requires Valid() && nbits <= 64
      modifies this
      ensures Valid() && Written() == old(Written()) + BitsOf(data, nbits)
    {
      hide Pow, BitsOf, Valid, Written, Pow2;
      var n := nbits;
      Pow2Zero();
      Pow2Sum(n, 0);
      while n > 0
        invariant 0 <= n <= nbits && Pow2(n) > 0 && Valid()
        invariant Written() == old(Written()) + BitsOf(data / Pow2(n), nbits - n)
      {
        var k := WriteSome(data, n);
        Extend(data, nbits, n, k);
        n := n - k;
      }
      assert data / 1 == data;
    }

    /** Pad with zeroes to the next byte boundary. */
    method Flush()
      requires Valid()
      modifies this
      ensures Valid() && offset == 0 && Written() == Unpack(out)
      ensures Written() == old(Written()) + Zeroes((8 - old(offset)) % 8)
    {
      hide Pow, BitsOf, Unpack;
      if offset == 0 {
        assert BitsOf(hi, 0) == [];
        return;
      }
      PartialPads(buffer, offset, hi);
      UnpackSnoc(out, buffer);
      out := out + [buffer];
      buffer, offset, hi := 0, 0, 0;
      PartialNone();
      assert BitsOf(0, 0) == [];
    }
  }

  lemma PartialNone()
    ensures Partial(0, 0, 0)
  {
  }

  lemma PartialPads(buffer: int, offset: nat, hi: nat)
    requires offset <= 8 && Partial(buffer, offset, hi)
    ensures 0 <= buffer < 256
    ensures BitsOf(buffer, 8) == BitsOf(hi, offset) + Zeroes(8 - offset)
  {
    hide Pow, BitsOf;
    var k := 8 - offset;
    Pow2Sum(offset, k);
    Eight();
    Nested(Pow2(k), Pow2(offset), 0, hi, 0);
    Joined(hi, 0, offset, k);
    NoOnes(k);
  }

  // ----- Reading -----

  /** `uint8_t(buffer << offset) >> (8 - k)` */
  function Piece(buffer: nat, offset: nat, k: nat): nat
    requires offset <= 8 && k <= 8
  {
    Shr((buffer * Pow2(offset)) % 256, 8 - k)
  }

  lemma PieceIs(buffer: nat, offset: nat, k: nat, e: nat)
    requires offset < 8 && k <= 8 - offset && e == 8 - offset - k
    ensures Pow2(e) > 0 && Pow2(k) > 0 && Piece(buffer, offset, k) == (buffer / Pow2(e)) % Pow2(k)
  {
    hide Pow2;
    Eight();
    Pow2Sum(8 - offset, offset);
    ScaleMod(buffer, Pow2(8 - offset), Pow2(offset));
    Pow2Sum(e, offset);
    ScaleDiv(buffer % Pow2(8 - offset), Pow2(e), Pow2(offset));
    Pow2Sum(e, k);
    DivDiv(buffer, Pow2(e), Pow2(k));
  }

  lemma Get(buffer: nat, offset: nat, k: nat)
    requires offset < 8 && k <= 8 - offset
    ensures BitsOf(buffer, 8 - offset) == BitsOf(Piece(buffer, offset, k), k) + BitsOf(buffer, 8 - offset - k)
    ensures Value(2, BitsOf(Piece(buffer, offset, k), k)) == Piece(buffer, offset, k)
  {
    hide Pow2, BitsOf, Value, Piece;
    var e := 8 - offset - k;
    PieceIs(buffer, offset, k, e);
    BitsSplit(buffer, k, e);
    BitsLow(buffer / Pow2(e), k);
    BitsValue(buffer / Pow2(e), k);
  }

  class BitStreamReader {
    /** The bytes of the underlying stream that have not been read. */
    var input: seq<int>
    var buffer: nat
    var offset: nat

    ghost predicate Valid()
      reads this
    {
      Bytes(input) && offset <= 8 && buffer < 256
    }

    /** The bits still to come. */
    ghost function Left(): (b: seq<int>)
      reads this
      requires Valid()
      ensures DigitsIn(2, b)
    {
      BitsOf(buffer, 8 - offset) + Unpack(input)
    }

    constructor (bytes: seq<int>)
      requires Bytes(bytes)
      ensures Valid() && Left() == Unpack(bytes) && offset == 8 && input == bytes
    {
      input, buffer, offset := bytes, 0, 8;
    }

    /** Make sure there is a bit in the buffer; false at the end of the stream. */
    method Fetch() returns (ok: bool)
      requires Valid()
      modifies this
      ensures Valid() && Left() == old(Left())
      ensures ok <==> Left() != []
      ensures ok ==> offset < 8
    {
      hide Pow, BitsOf, Unpack;
      if offset == 8 {
        NothingLeft(buffer);
        if input == [] {
          return false;
        }
        UnpackCons(input);
        buffer := input[0];
        input := input[1..];
        offset := 0;
      }
      ok := true;
    }

    /** Take bits from the current byte. */
    method ReadSome(n: nat) returns (k: nat, piece: nat)
      requires Valid() && offset < 8 && n > 0
      modifies this
      ensures Valid() && 0 < k <= n && k <= |old(Left())| && offset > 0
      ensures old(Left()) == BitsOf(piece, k) + Left() && Value(2, BitsOf(piece, k)) == piece
    {
      hide Pow, BitsOf, Unpack, Piece, Value;
      k := Min(8 - offset, n);
      Get(buffer, offset, k);
      piece := Piece(buffer, offset, k);
      offset := offset + k;
    }

    /** Read some bits as a number; `None` at the end of the stream. */
    method Read(nbits: nat) returns (r: Option<nat>)
      requires Valid() && nbits <= 64
      modifies this
      ensures Valid()
      ensures r.None? <==> |old(Left())| < nbits
      ensures r.Some? ==> r.value == Value(2, old(Left())[..nbits]) && Left() == old(Left())[nbits..]
      ensures r.Some? && nbits > 0 ==> offset > 0
      ensures r.Some? && nbits == 0 ==> offset == old(offset) && input == old(input)
    {
      hide Pow, BitsOf, Unpack, Value, Pow2, Valid, Left;
      ghost var all := Left();
      ghost var taken: seq<int> := [];
      var data: nat := 0;
      var n := nbits;
      ValueNone();
      while n > 0
        invariant 0 <= n <= nbits && Valid() && (n < nbits ==> offset > 0)
        invariant n == nbits ==> offset == old(offset) && input == old(input)
        invariant all == taken + Left() && |taken| == nbits - n
        invariant data == Value(2, taken)
      {
        var ok := Fetch();
        if !ok {
          return None;
        }
        var k, piece := ReadSome(n);
        ValueJoin(taken, BitsOf(piece, k));
        taken := taken + BitsOf(piece, k);
        data := data * Pow2(k) + piece;
        n := n - k;
      }
      assert all[..nbits] == taken && all[nbits..] == Left();
      r := Some(data);
    }
  }

  lemma ValueNone()
    ensures Value(2, []) == 0
  {
  }

  lemma NothingLeft(buffer: nat)
    ensures BitsOf(buffer, 0) == []
    ensures Unpack([]) == []
  {
  }
}
