/**
 `CPartialMerkleTree` with its in-place builder and parser, and the packing of its bits into bytes.
 */
module Merkle {
  import opened Basics
  import opened Radix
  import opened MerkleModel
  import opened MerkleProofs

  // ----- Bits and bytes -----

  type Byte = bv8

  /** Bit `k` of a byte, least significant first. */
  predicate BitOf(b: Byte, k: nat)
    requires k < 8
  {
    b & ((1 as bv8) << k) != 0
  }

  lemma SetBit(b: Byte, k: nat, j: nat)
    requires k < 8 && j < 8
    ensures BitOf(b | ((1 as bv8) << k), j) == (BitOf(b, j) || j == k)
  {
    var one: bv8 := 1;
    assert one << 0 == 1 && one << 1 == 2 && one << 2 == 4 && one << 3 == 8;
    assert one << 4 == 16 && one << 5 == 32 && one << 6 == 64 && one << 7 == 128;
  }

  lemma NoBits(k: nat)
    requires k < 8
    ensures !BitOf(0, k)
  {
  }

  /** A byte is determined by its bits. */
  lemma SameBits(x: Byte, y: Byte)
    requires forall k :: 0 <= k < 8 ==> BitOf(x, k) == BitOf(y, k)
    ensures x == y
  {
    assert BitOf(x, 0) == BitOf(y, 0) && BitOf(x, 1) == BitOf(y, 1) && BitOf(x, 2) == BitOf(y, 2) && BitOf(x, 3) == BitOf(y, 3);
    assert BitOf(x, 4) == BitOf(y, 4) && BitOf(x, 5) == BitOf(y, 5) && BitOf(x, 6) == BitOf(y, 6) && BitOf(x, 7) == BitOf(y, 7);
    SameEight(x, y);
  }

  lemma SameEight(x: bv8, y: bv8)
    requires (x & 1 != 0) == (y & 1 != 0) && (x & 2 != 0) == (y & 2 != 0)
    requires (x & 4 != 0) == (y & 4 != 0) && (x & 8 != 0) == (y & 8 != 0)
    requires (x & 16 != 0) == (y & 16 != 0) && (x & 32 != 0) == (y & 32 != 0)
    requires (x & 64 != 0) == (y & 64 != 0) && (x & 128 != 0) == (y & 128 != 0)
    ensures x == y
  {
  }

  /** `bytes` are `bits` packed eight to a byte, the rest of the last byte zero. */
  ghost predicate Packs(bits: seq<bool>, bytes: seq<Byte>) {
    && |bytes| == (|bits| + 7) / 8
    && forall p :: 0 <= p < 8 * |bytes| ==> BitOf(bytes[p / 8], p % 8) == (p < |bits| && bits[p])
  }

  method BitsToBytes(bits: seq<bool>) returns (r: seq<Byte>)
    ensures Packs(bits, r)
  {
    hide BitOf;
    var ret := new Byte[(|bits| + 7) / 8](_ => 0);
    forall p | 0 <= p < 8 * ret.Length ensures !BitOf(ret[p / 8], p % 8) { NoBits(p % 8); }
    for p := 0 to |bits|
      invariant forall q :: 0 <= q < 8 * ret.Length ==> BitOf(ret[q / 8], q % 8) == (q < p && bits[q])
    {
      if bits[p] {
        forall q | 0 <= q < 8 * ret.Length && q / 8 == p / 8
          ensures BitOf(ret[p / 8] | ((1 as bv8) << (p % 8)), q % 8) == (BitOf(ret[q / 8], q % 8) || q == p)
        {
          SetBit(ret[p / 8], p % 8, q % 8);
        }
        ret[p / 8] := ret[p / 8] | ((1 as bv8) << (p % 8));
      }
    }
    r := ret[..];
  }

  method BytesToBits(bytes: seq<Byte>) returns (r: seq<bool>)
    ensures |r| == 8 * |bytes|
    ensures forall p :: 0 <= p < |r| ==> r[p] == BitOf(bytes[p / 8], p % 8)
  {
    var ret := new bool[8 * |bytes|](_ => false);
    for p := 0 to ret.Length
      invariant forall q :: 0 <= q < p ==> ret[q] == BitOf(bytes[q / 8], q % 8)
    {
      ret[p] := BitOf(bytes[p / 8], p % 8);
    }
    r := ret[..];
  }

  function Unpack(bytes: seq<Byte>): seq<bool> {
    seq(8 * |bytes|, p requires 0 <= p < 8 * |bytes| => BitOf(bytes[p / 8], p % 8))
  }

  /** Unpacking what was packed gives the bits and up to seven false ones. */
  lemma PackUnpack(bits: seq<bool>, bytes: seq<Byte>)
    requires Packs(bits, bytes)
    ensures Padded(bits, Unpack(bytes))
    ensures forall p :: |bits| <= p < |Unpack(bytes)| ==> !Unpack(bytes)[p]
  {
    hide BitOf;
    assert Unpack(bytes)[..|bits|] == bits;
  }

  /** Packing what was unpacked gives the bytes back. */
  lemma UnpackPack(bytes: seq<Byte>, again: seq<Byte>)
    requires Packs(Unpack(bytes), again)
    ensures again == bytes
  {
    hide BitOf;
    assert |again| == |bytes|;
    forall i | 0 <= i < |bytes| ensures again[i] == bytes[i] {
      forall k | 0 <= k < 8 ensures BitOf(again[i], k) == BitOf(bytes[i], k) {
        var p := 8 * i + k;
        assert p / 8 == i && p % 8 == k;
      }
      SameBits(again[i], bytes[i]);
    }
  }

  /** Build a tree, put its bits on the wire as bytes, read them back and extract. */
  lemma WireRoundTrip(H: Combine, txids: seq<Hash>, match_: seq<bool>, bytes: seq<Byte>)
    requires Injective(H) && |match_| == |txids|
    requires 0 < |txids| <= MAX_TRANSACTIONS
    requires Distinct(txids)
    requires Packs(BuildTree(H, txids, match_).0, bytes)
    ensures ExtractMatches(H, |txids|, Unpack(bytes), BuildTree(H, txids, match_).1, false) ==
      (Root(H, txids), Matched(txids, match_, 0, |txids|), false)
  {
    hide Packs, ExtractMatches;
    PackUnpack(BuildTree(H, txids, match_).0, bytes);
    RoundTrip(H, txids, match_, Unpack(bytes));
  }

  // ----- The object -----

  class PartialMerkleTree {
    const H: Combine
    var nTransactions: nat
    var bits: seq<bool>
    var hashes: seq<Hash>
    var bad: bool

    /** Build the tree of a list of transaction ids and the matches among them. */
    constructor (H: Combine, txids: seq<Hash>, match_: seq<bool>)
      requires |match_| == |txids| > 0
      ensures this.H == H && nTransactions == |txids| && !bad
      ensures (bits, hashes) == BuildTree(H, txids, match_)
    {
      this.H := H;
      nTransactions, bits, hashes, bad := |txids|, [], [], false;
      new;
      var height := FindHeight();
      TraverseAndBuild(height, 0, txids, match_);
      ghost var (b, k) := Build(H, txids, match_, height, 0);
      assert [] + b == b && [] + k == k;
    }

    /** What a reader has after deserialising: any bits and any hashes. */
    constructor FromWire(H: Combine, nTransactions: nat, bytes: seq<Byte>, hashes: seq<Hash>)
      ensures this.H == H && this.nTransactions == nTransactions && !bad
      ensures bits == Unpack(bytes) && this.hashes == hashes
    {
      this.H := H;
      this.nTransactions, this.hashes, bad := nTransactions, hashes, false;
      new;
      bits := BytesToBits(bytes);
    }

    method FindHeight() returns (height: nat)
      requires nTransactions > 0
      ensures height == Height(nTransactions)
    {
      height := 0;
      while Width(nTransactions, height) > 1
        invariant HeightFrom(nTransactions, height) == Height(nTransactions)
        decreases nTransactions - height
      {
        WidthIs(nTransactions, height, 1);
        Pow2Grows(height);
        height := height + 1;
      }
    }

    method ParentOfMatch(height: nat, pos: nat, match_: seq<bool>) returns (any: bool)
      ensures any == AnyMatch(match_, pos * Pow2(height), (pos + 1) * Pow2(height))
    {
      any := false;
      var lo, hi := pos * Pow2(height), (pos + 1) * Pow2(height);
      assert lo <= hi;
      var p := lo;
      while p < hi && p < |match_|
        invariant lo <= p <= hi
        invariant any == AnyMatch(match_, lo, p)
      {
        any := any || match_[p];
        p := p + 1;
      }
    }

    method TraverseAndBuild(height: nat, pos: nat, txids: seq<Hash>, match_: seq<bool>)
      requires nTransactions == |txids| == |match_| && pos < Width(|txids|, height)
      modifies this`bits, this`hashes
      ensures bits == old(bits) + Build(H, txids, match_, height, pos).0
      ensures hashes == old(hashes) + Build(H, txids, match_, height, pos).1
      decreases height
    {
      hide AnyMatch, Width, CalcHash, Pow2;
      ghost var b0, k0 := bits, hashes;
      var parent := ParentOfMatch(height, pos, match_);
      bits := bits + [parent];
      if height == 0 || !parent {
        hashes := hashes + [CalcHash(H, txids, height, pos)];
      } else {
        ChildrenIn(|txids|, height, pos);
        TraverseAndBuild(height - 1, pos * 2, txids, match_);
        ghost var (b1, k1) := Build(H, txids, match_, height - 1, 2 * pos);
        assert bits == b0 + ([true] + b1);
        if pos * 2 + 1 < Width(nTransactions, height - 1) {
          TraverseAndBuild(height - 1, pos * 2 + 1, txids, match_);
          ghost var (b2, k2) := Build(H, txids, match_, height - 1, 2 * pos + 1);
          assert bits == b0 + ([true] + b1 + b2);
          assert hashes == k0 + (k1 + k2);
        }
      }
    }

    /** The registers are passed and returned; what is found is appended to `matches` and `indexes`. */
    method TraverseAndExtract(height: nat, pos: nat, bitsUsed: nat, hashUsed: nat, matches: seq<Hash>, indexes: seq<nat>)
      returns (hash: Hash, bitsUsed': nat, hashUsed': nat, matches': seq<Hash>, indexes': seq<nat>)
      modifies this`bad
      ensures var p := Extract(H, nTransactions, bits, hashes, height, pos, bitsUsed, hashUsed);
        && hash == p.hash && bitsUsed' == p.bitsUsed && hashUsed' == p.hashUsed && bad == (old(bad) || p.bad)
        && matches' == matches + Ids(p.found) && indexes' == indexes + Indexes(p.found)
      decreases height
    {
      hide Width, Ids, Indexes;
      ListsNone(matches, indexes);
      bitsUsed', hashUsed', matches', indexes' := bitsUsed, hashUsed, matches, indexes;
      if bitsUsed >= |bits| {
        bad := true;
        return ZERO, bitsUsed', hashUsed', matches', indexes';
      }
      var parent := bits[bitsUsed'];
      bitsUsed' := bitsUsed' + 1;
      if height == 0 || !parent {
        if hashUsed >= |hashes| {
          bad := true;
          return ZERO, bitsUsed', hashUsed', matches', indexes';
        }
        hash := hashes[hashUsed'];
        hashUsed' := hashUsed' + 1;
        if height == 0 && parent {
          ListsOne(Found(hash, pos));
          matches' := matches' + [hash];
          indexes' := indexes' + [pos];
        }
      } else {
        var left, right;
        left, bitsUsed', hashUsed', matches', indexes' :=
          TraverseAndExtract(height - 1, pos * 2, bitsUsed', hashUsed', matches', indexes');
        if pos * 2 + 1 < Width(nTransactions, height - 1) {
          ghost var l := Extract(H, nTransactions, bits, hashes, height - 1, pos * 2, bitsUsed + 1, hashUsed);
          right, bitsUsed', hashUsed', matches', indexes' :=
            TraverseAndExtract(height - 1, pos * 2 + 1, bitsUsed', hashUsed', matches', indexes');
          ghost var r := Extract(H, nTransactions, bits, hashes, height - 1, pos * 2 + 1, l.bitsUsed, l.hashUsed);
          ListsJoin(l.found, r.found);
          assert matches + Ids(l.found) + Ids(r.found) == matches + (Ids(l.found) + Ids(r.found));
          assert indexes + Indexes(l.found) + Indexes(r.found) == indexes + (Indexes(l.found) + Indexes(r.found));
          if right == left { bad := true; }
        } else {
          right := left;
        }
        hash := H(left, right);
      }
    }

    /** `ExtractMatches`: `matches` is emptied first, `indexes` is appended to. */
    method ExtractMatches(indexes: seq<nat>) returns (root: Hash, matches: seq<Hash>, indexes': seq<nat>)
      modifies this`bad
      ensures var (r, found, b) := MerkleModel.ExtractMatches(H, nTransactions, bits, hashes, old(bad));
        root == r && matches == Ids(found) && indexes' == indexes + Indexes(found) && bad == b
    {
      matches, indexes' := [], indexes;
      if nTransactions == 0 { return ZERO, matches, indexes'; }
      if nTransactions > MAX_TRANSACTIONS { return ZERO, matches, indexes'; }
      if |hashes| > nTransactions { return ZERO, matches, indexes'; }
      if |bits| < |hashes| { return ZERO, matches, indexes'; }
      var height := FindHeight();
      var bitsUsed, hashUsed;
      root, bitsUsed, hashUsed, matches, indexes' := TraverseAndExtract(height, 0, 0, 0, matches, indexes');
      if bad { return ZERO, matches, indexes'; }
      if (bitsUsed + 7) / 8 != (|bits| + 7) / 8 { return ZERO, matches, indexes'; }
      if hashUsed != |hashes| { return ZERO, matches, indexes'; }
    }
  }

  function Ids(found: seq<Found>): seq<Hash> {
    seq(|found|, i requires 0 <= i < |found| => found[i].txid)
  }

  function Indexes(found: seq<Found>): seq<nat> {
    seq(|found|, i requires 0 <= i < |found| => found[i].index)
  }

  lemma ListsNone(matches: seq<Hash>, indexes: seq<nat>)
    ensures matches + Ids([]) == matches && indexes + Indexes([]) == indexes
  {
  }

  lemma ListsOne(f: Found)
    ensures Ids([f]) == [f.txid] && Indexes([f]) == [f.index]
  {
  }

  lemma ListsJoin(x: seq<Found>, y: seq<Found>)
    ensures Ids(x + y) == Ids(x) + Ids(y)
    ensures Indexes(x + y) == Indexes(x) + Indexes(y)
  {
  }
}
