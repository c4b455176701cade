/**
 The parser undoes the builder, and what the parser finds is in order.
 */
module MerkleProofs {
  import opened Basics
  import opened Radix
  import opened MerkleModel

  /** The matched leaves from `lo` up to `hi`, in order. */
  function Matched(txids: seq<Hash>, match_: seq<bool>, lo: nat, hi: nat): seq<Found>
    requires |match_| == |txids|
    decreases hi - lo
  {
    if lo >= hi || lo >= |txids| then []
    else (if match_[lo] then [Found(txids[lo], lo)] else []) + Matched(txids, match_, lo + 1, hi)
  }

  lemma {:induction false} MatchedSplit(txids: seq<Hash>, match_: seq<bool>, lo: nat, mid: nat, hi: nat)
    requires |match_| == |txids| && lo <= mid <= hi
    ensures Matched(txids, match_, lo, hi) == Matched(txids, match_, lo, mid) + Matched(txids, match_, mid, hi)
    decreases mid - lo
  {
    if lo < mid && lo < |txids| {
      MatchedSplit(txids, match_, lo + 1, mid, hi);
    }
  }

  lemma {:induction false} MatchedNone(txids: seq<Hash>, match_: seq<bool>, lo: nat, hi: nat)
    requires |match_| == |txids| && !AnyMatch(match_, lo, hi)
    ensures Matched(txids, match_, lo, hi) == []
    decreases hi - lo
  {
    if lo < hi && lo < |txids| {
      assert !match_[lo];
      MatchedNone(txids, match_, lo + 1, hi);
    }
  }

  /** Every matched leaf and nothing else. */
  lemma {:induction false} MatchedIs(txids: seq<Hash>, match_: seq<bool>, lo: nat, hi: nat, f: Found)
    requires |match_| == |txids|
    ensures f in Matched(txids, match_, lo, hi) <==>
      lo <= f.index < hi && f.index < |txids| && match_[f.index] && txids[f.index] == f.txid
    decreases hi - lo
  {
    if lo < hi && lo < |txids| {
      MatchedIs(txids, match_, lo + 1, hi, f);
    }
  }

  /** Distinct nodes of one level have distinct hashes, when the transaction ids are distinct. */
  lemma {:induction false} HashesDiffer(H: Combine, txids: seq<Hash>, h: nat, p: nat, q: nat)
    requires Injective(H) && p < q < Width(|txids|, h)
    requires Distinct(txids)
    ensures CalcHash(H, txids, h, p) != CalcHash(H, txids, h, q)
    decreases h
  {
    if h == 0 {
      WidthIs(|txids|, 0, q);
    } else {
      ChildrenIn(|txids|, h, p);
      ChildrenIn(|txids|, h, q);
      HashesDiffer(H, txids, h - 1, 2 * p, 2 * q);
    }
  }

  lemma Halves(h: nat, pos: nat)
    requires h > 0
    ensures pos * Pow2(h) == 2 * pos * Pow2(h - 1)
    ensures (pos + 1) * Pow2(h) == (2 * pos + 2) * Pow2(h - 1)
    ensures 2 * pos * Pow2(h - 1) <= (2 * pos + 1) * Pow2(h - 1) <= (2 * pos + 2) * Pow2(h - 1)
  {
  }

  ghost predicate Stands<T>(s: seq<T>, i: nat, part: seq<T>) {
    i + |part| <= |s| && s[i..i + |part|] == part
  }

  ghost function Below(txids: seq<Hash>, match_: seq<bool>, h: nat, pos: nat): seq<Found>
    requires |match_| == |txids|
  {
    Matched(txids, match_, pos * Pow2(h), (pos + 1) * Pow2(h))
  }

  ghost predicate ParsesBack(H: Combine, txids: seq<Hash>, match_: seq<bool>, h: nat, pos: nat,
                             bits: seq<bool>, hashes: seq<Hash>, b: nat, k: nat)
    requires |match_| == |txids| && pos < Width(|txids|, h)
  {
    var (bs, ks) := Build(H, txids, match_, h, pos);
    Extract(H, |txids|, bits, hashes, h, pos, b, k) ==
      Parse(CalcHash(H, txids, h, pos), b + |bs|, k + |ks|, false, Below(txids, match_, h, pos))
  }

  /** What was built at a node, wherever it stands in the stream, parses back: the node's hash, everything
      consumed, nothing bad, and exactly the matched leaves below the node. */
  lemma {:induction false} BuildExtract(H: Combine, txids: seq<Hash>, match_: seq<bool>, h: nat, pos: nat,
                                        bits: seq<bool>, hashes: seq<Hash>, b: nat, k: nat)
    requires Injective(H) && |match_| == |txids| && pos < Width(|txids|, h)
    requires Distinct(txids)
    requires Stands(bits, b, Build(H, txids, match_, h, pos).0)
    requires Stands(hashes, k, Build(H, txids, match_, h, pos).1)
    ensures ParsesBack(H, txids, match_, h, pos, bits, hashes, b, k)
    decreases h
  {
    hide Injective, Below, Stands, ParsesBack, CalcHash, Extract, Width, AnyMatch, Pow2;
    if h == 0 || !AnyMatch(match_, pos * Pow2(h), (pos + 1) * Pow2(h)) {
      ParseLeaf(H, txids, match_, h, pos, bits, hashes, b, k);
    } else {
      ChildrenIn(|txids|, h, pos);
      var (b1, k1) := Build(H, txids, match_, h - 1, 2 * pos);
      if 2 * pos + 1 < Width(|txids|, h - 1) {
        var (b2, k2) := Build(H, txids, match_, h - 1, 2 * pos + 1);
        Slices3(bits, b, [true], b1, b2);
        Slices2(hashes, k, k1, k2);
        BuildExtract(H, txids, match_, h - 1, 2 * pos, bits, hashes, b + 1, k);
        BuildExtract(H, txids, match_, h - 1, 2 * pos + 1, bits, hashes, b + 1 + |b1|, k + |k1|);
        HashesDiffer(H, txids, h - 1, 2 * pos, 2 * pos + 1);
        ParseTwo(H, txids, match_, h, pos, bits, hashes, b, k);
      } else {
        Slices2(bits, b, [true], b1);
        BuildExtract(H, txids, match_, h - 1, 2 * pos, bits, hashes, b + 1, k);
        ParseOne(H, txids, match_, h, pos, bits, hashes, b, k);
      }
    }
  }

  lemma ParseLeaf(H: Combine, txids: seq<Hash>, match_: seq<bool>, h: nat, pos: nat,
                  bits: seq<bool>, hashes: seq<Hash>, b: nat, k: nat)
    requires |match_| == |txids| && pos < Width(|txids|, h)
    requires h == 0 || !AnyMatch(match_, pos * Pow2(h), (pos + 1) * Pow2(h))
    requires Stands(bits, b, Build(H, txids, match_, h, pos).0)
    requires Stands(hashes, k, Build(H, txids, match_, h, pos).1)
    ensures ParsesBack(H, txids, match_, h, pos, bits, hashes, b, k)
  {
    hide Matched, CalcHash;
    var parent := AnyMatch(match_, pos * Pow2(h), (pos + 1) * Pow2(h));
    assert bits[b] == bits[b..b + 1][0] == parent;
    assert hashes[k] == hashes[k..k + 1][0] == CalcHash(H, txids, h, pos);
    if h == 0 {
      LeafMatch(txids, match_, pos);
      LeafHash(H, txids, pos);
    } else {
      MatchedNone(txids, match_, pos * Pow2(h), (pos + 1) * Pow2(h));
    }
  }

  lemma LeafHash(H: Combine, txids: seq<Hash>, pos: nat)
    requires pos < Width(|txids|, 0)
    ensures pos < |txids| && CalcHash(H, txids, 0, pos) == txids[pos]
  {
    WidthIs(|txids|, 0, pos);
  }

  lemma ParseTwo(H: Combine, txids: seq<Hash>, match_: seq<bool>, h: nat, pos: nat,
                 bits: seq<bool>, hashes: seq<Hash>, b: nat, k: nat)
    requires |match_| == |txids| && h > 0 && pos < Width(|txids|, h)
    requires AnyMatch(match_, pos * Pow2(h), (pos + 1) * Pow2(h))
    requires 2 * pos + 1 < Width(|txids|, h - 1)
    requires Stands(bits, b, Build(H, txids, match_, h, pos).0)
    requires CalcHash(H, txids, h - 1, 2 * pos) != CalcHash(H, txids, h - 1, 2 * pos + 1)
    requires ParsesBack(H, txids, match_, h - 1, 2 * pos, bits, hashes, b + 1, k)
    requires var (b1, k1) := Build(H, txids, match_, h - 1, 2 * pos);
      ParsesBack(H, txids, match_, h - 1, 2 * pos + 1, bits, hashes, b + 1 + |b1|, k + |k1|)
    ensures ParsesBack(H, txids, match_, h, pos, bits, hashes, b, k)
  {
    hide Matched, AnyMatch, Width;
    ChildrenIn(|txids|, h, pos);
    var (bs, ks) := Build(H, txids, match_, h, pos);
    assert bits[b] == bits[b..b + |bs|][0] == true;
    BelowSplit(txids, match_, h, pos);
  }

  lemma ParseOne(H: Combine, txids: seq<Hash>, match_: seq<bool>, h: nat, pos: nat,
                 bits: seq<bool>, hashes: seq<Hash>, b: nat, k: nat)
    requires |match_| == |txids| && h > 0 && pos < Width(|txids|, h)
    requires AnyMatch(match_, pos * Pow2(h), (pos + 1) * Pow2(h))
    requires 2 * pos + 1 >= Width(|txids|, h - 1) && 2 * pos < Width(|txids|, h - 1)
    requires Stands(bits, b, Build(H, txids, match_, h, pos).0)
    requires ParsesBack(H, txids, match_, h - 1, 2 * pos, bits, hashes, b + 1, k)
    ensures ParsesBack(H, txids, match_, h, pos, bits, hashes, b, k)
  {
    hide Matched, AnyMatch, Width;
    var (bs, ks) := Build(H, txids, match_, h, pos);
    assert bits[b] == bits[b..b + |bs|][0] == true;
    BelowSplit(txids, match_, h, pos);
    BelowNone(txids, match_, h - 1, 2 * pos + 1);
  }

  lemma BelowSplit(txids: seq<Hash>, match_: seq<bool>, h: nat, pos: nat)
    requires |match_| == |txids| && h > 0
    ensures Below(txids, match_, h, pos) == Below(txids, match_, h - 1, 2 * pos) + Below(txids, match_, h - 1, 2 * pos + 1)
  {
    hide Matched;
    Halves(h, pos);
    MatchedSplit(txids, match_, pos * Pow2(h), (2 * pos + 1) * Pow2(h - 1), (pos + 1) * Pow2(h));
  }

  lemma BelowNone(txids: seq<Hash>, match_: seq<bool>, h: nat, pos: nat)
    requires |match_| == |txids| && pos >= Width(|txids|, h)
    ensures Below(txids, match_, h, pos) == []
  {
    WidthIs(|txids|, h, pos);
  }

  lemma LeafMatch(txids: seq<Hash>, match_: seq<bool>, pos: nat)
    requires |match_| == |txids| && pos < Width(|txids|, 0)
    ensures pos < |txids|
    ensures AnyMatch(match_, pos * Pow2(0), (pos + 1) * Pow2(0)) == match_[pos]
    ensures Matched(txids, match_, pos * Pow2(0), (pos + 1) * Pow2(0)) == if match_[pos] then [Found(txids[pos], pos)] else []
  {
    WidthIs(|txids|, 0, pos);
    assert Matched(txids, match_, pos + 1, pos + 1) == [];
  }

  lemma Slices2<T>(s: seq<T>, i: nat, x: seq<T>, y: seq<T>)
    requires Stands(s, i, x + y)
    ensures Stands(s, i, x) && Stands(s, i + |x|, y)
  {
    assert s[i..i + |x + y|][..|x|] == x;
    assert s[i..i + |x + y|][|x|..] == y;
  }

  lemma Slices3<T>(s: seq<T>, i: nat, x: seq<T>, y: seq<T>, z: seq<T>)
    requires Stands(s, i, x + y + z)
    ensures Stands(s, i + |x|, y) && Stands(s, i + |x| + |y|, z)
  {
    Slices2(s, i, x + y, z);
    Slices2(s, i, x, y);
  }

  /** The leaves below a node. */
  ghost function Leaves(n: nat, h: nat, pos: nat): int {
    (if (pos + 1) * Pow2(h) < n then (pos + 1) * Pow2(h) else n) - pos * Pow2(h)
  }

  /** At most one hash per leaf and at least one bit per hash. */
  lemma {:induction false} BuildSizes(H: Combine, txids: seq<Hash>, match_: seq<bool>, h: nat, pos: nat)
    requires |match_| == |txids| && pos < Width(|txids|, h)
    ensures var (bs, ks) := Build(H, txids, match_, h, pos);
      1 <= |ks| <= Leaves(|txids|, h, pos) && |ks| <= |bs|
    decreases h
  {
    WidthIs(|txids|, h, pos);
    assert (pos + 1) * Pow2(h) == pos * Pow2(h) + Pow2(h);
    if h > 0 && AnyMatch(match_, pos * Pow2(h), (pos + 1) * Pow2(h)) {
      ChildrenIn(|txids|, h, pos);
      Halves(h, pos);
      BuildSizes(H, txids, match_, h - 1, 2 * pos);
      if 2 * pos + 1 < Width(|txids|, h - 1) {
        WidthIs(|txids|, h - 1, 2 * pos + 1);
        BuildSizes(H, txids, match_, h - 1, 2 * pos + 1);
      }
    }
  }

  /** The tree a builder makes for a list of transaction ids and a match vector. */
  function BuildTree(H: Combine, txids: seq<Hash>, match_: seq<bool>): (seq<bool>, seq<Hash>)
    requires |match_| == |txids| > 0
  {
    Build(H, txids, match_, Height(|txids|), 0)
  }

  /** Up to seven bits of padding after the last used bit. */
  ghost predicate Padded(bits: seq<bool>, padded: seq<bool>) {
    bits <= padded && |padded| == (|bits| + 7) / 8 * 8
  }

  /** Build, pad to whole bytes, extract: the Merkle root and exactly the matched ids with their indexes. */
  lemma RoundTrip(H: Combine, txids: seq<Hash>, match_: seq<bool>, padded: seq<bool>)
    requires Injective(H) && |match_| == |txids|
    requires 0 < |txids| <= MAX_TRANSACTIONS
    requires Distinct(txids)
    requires Padded(BuildTree(H, txids, match_).0, padded)
    ensures ExtractMatches(H, |txids|, padded, BuildTree(H, txids, match_).1, false) ==
      (Root(H, txids), Matched(txids, match_, 0, |txids|), false)
  {
    hide Injective, Extract, Build, CalcHash, Width, Matched, Pow2;
    var n, h := |txids|, Height(|txids|);
    var (bs, ks) := Build(H, txids, match_, h, 0);
    assert (bs, ks) == BuildTree(H, txids, match_);
    TopCovers(n, h);
    BuildSizes(H, txids, match_, h, 0);
    assert Leaves(n, h, 0) == n;
    assert Stands(padded, 0, bs) && Stands(ks, 0, ks);
    BuildExtract(H, txids, match_, h, 0, padded, ks, 0, 0);
    BelowTop(txids, match_, h);
    WholeBytes(|bs|);
  }

  lemma WholeBytes(m: nat)
    ensures ((m + 7) / 8 * 8 + 7) / 8 == (m + 7) / 8
    ensures m <= (m + 7) / 8 * 8
  {
  }

  /** At a height of width one, the root covers every leaf. */
  lemma TopCovers(n: nat, h: nat)
    requires Width(n, h) == 1
    ensures n <= Pow2(h) && (0 + 1) * Pow2(h) == Pow2(h) && 0 * Pow2(h) == 0
  {
    WidthIs(n, h, 1);
  }

  lemma BelowTop(txids: seq<Hash>, match_: seq<bool>, h: nat)
    requires |match_| == |txids| <= Pow2(h)
    ensures Below(txids, match_, h, 0) == Matched(txids, match_, 0, |txids|)
  {
    hide Matched;
    MatchedSplit(txids, match_, 0, |txids|, Pow2(h));
    MatchedEnd(txids, match_, Pow2(h));
    assert 0 * Pow2(h) == 0 && (0 + 1) * Pow2(h) == Pow2(h);
  }

  lemma MatchedEnd(txids: seq<Hash>, match_: seq<bool>, hi: nat)
    requires |match_| == |txids|
    ensures Matched(txids, match_, |txids|, hi) == []
  {
  }

  // ----- Order of what is found, on any input -----

  ghost predicate InOrder(found: seq<Found>, lo: nat, hi: nat) {
    && (forall i :: 0 <= i < |found| ==> lo <= found[i].index < hi)
    && (forall i, j :: 0 <= i < j < |found| ==> found[i].index < found[j].index)
  }

  lemma InOrderJoin(x: seq<Found>, y: seq<Found>, lo: nat, mid: nat, hi: nat)
    requires InOrder(x, lo, mid) && InOrder(y, mid, hi) && lo <= mid <= hi
    ensures InOrder(x + y, lo, hi)
  {
  }

  /** On any bits and hashes, what is found has strictly increasing indexes below the node. */
  lemma {:induction false} ExtractOrdered(H: Combine, n: nat, bits: seq<bool>, hashes: seq<Hash>, h: nat, pos: nat, b: nat, k: nat)
    ensures InOrder(Extract(H, n, bits, hashes, h, pos, b, k).found, pos * Pow2(h), (pos + 1) * Pow2(h))
    decreases h
  {
    if b < |bits| && h > 0 && bits[b] {
      Halves(h, pos);
      var l := Extract(H, n, bits, hashes, h - 1, 2 * pos, b + 1, k);
      ExtractOrdered(H, n, bits, hashes, h - 1, 2 * pos, b + 1, k);
      var lo, mid, hi := 2 * pos * Pow2(h - 1), (2 * pos + 1) * Pow2(h - 1), (2 * pos + 2) * Pow2(h - 1);
      if 2 * pos + 1 < Width(n, h - 1) {
        var r := Extract(H, n, bits, hashes, h - 1, 2 * pos + 1, l.bitsUsed, l.hashUsed);
        ExtractOrdered(H, n, bits, hashes, h - 1, 2 * pos + 1, l.bitsUsed, l.hashUsed);
        InOrderJoin(l.found, r.found, lo, mid, hi);
      }
    }
  }
}
