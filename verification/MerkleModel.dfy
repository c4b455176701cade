/**
 Partial Merkle trees (BIP 37, section "Partial Merkle branch format") as functions on values:
 the hash of a tree node, the depth-first builder and the depth-first parser.

 The pair hash `H` is a parameter; where collision freedom matters, `Injective(H)` is assumed.
 */
module MerkleModel {
  import opened Basics
  import opened Radix

  type Hash = int
  type Combine = (Hash, Hash) -> Hash

  const ZERO: Hash := 0
  /** MAX_BLOCK_WEIGHT / MIN_TRANSACTION_WEIGHT. */
  const MAX_TRANSACTIONS := 4000000 / (4 * 60)

  ghost predicate Injective(H: Combine) {
    forall a, b, c, d :: H(a, b) == H(c, d) ==> a == c && b == d
  }

  /** `CalcTreeWidth`. */
  function Width(n: nat, h: nat): nat {
    (n + Pow2(h) - 1) / Pow2(h)
  }

  lemma WidthIs(n: nat, h: nat, pos: nat)
    ensures pos < Width(n, h) <==> pos * Pow2(h) < n
  {
    var p := Pow2(h);
    var w := Width(n, h);
    Ceiling(n, p, w);
    if pos < w { Scale(pos + 1, w, p); } else { Scale(w, pos, p); }
  }

  lemma Ceiling(n: nat, p: nat, w: nat)
    requires p >= 1 && w == (n + p - 1) / p
    ensures (w - 1) * p < n <= w * p
  {
    assert n + p - 1 == w * p + (n + p - 1) % p;
  }

  lemma Scale(a: int, b: int, p: nat)
    requires a <= b
    ensures a * p <= b * p
  {
  }

  /** The children of a node of the tree are in the tree, except perhaps the right one. */
  lemma ChildrenIn(n: nat, h: nat, pos: nat)
    requires h > 0 && pos < Width(n, h)
    ensures 2 * pos < Width(n, h - 1)
  {
    WidthIs(n, h, pos);
    WidthIs(n, h - 1, 2 * pos);
    assert 2 * pos * Pow2(h - 1) == pos * Pow2(h);
  }

  /** The height of the tree over n leaves: the loop that looks for width one. */
  function Height(n: nat): (h: nat)
    requires n > 0
    ensures Width(n, h) == 1
  {
    HeightFrom(n, 0)
  }

  function HeightFrom(n: nat, h: nat): (r: nat)
    requires n > 0
    ensures h <= r && Width(n, r) <= 1
    ensures Width(n, r) == 1
    ensures h < r ==> Width(n, h) > 1
    decreases n - h
  {
    WidthIs(n, h, 0);
    WidthIs(n, h, 1);
    Pow2Grows(h);
    if Width(n, h) > 1 then HeightFrom(n, h + 1) else h
  }

  lemma {:induction false} Pow2Grows(h: nat)
    ensures Pow2(h) > h
  {
    if h > 0 {
      Pow2Grows(h - 1);
    }
  }

  /** `CalcHash`: the Merkle hash of node (h, pos) over the transaction ids. */
  function CalcHash(H: Combine, txids: seq<Hash>, h: nat, pos: nat): Hash
    requires pos < Width(|txids|, h)
    decreases h
  {
    if h == 0 then WidthIs(|txids|, 0, pos); txids[pos]
    else
      ChildrenIn(|txids|, h, pos);
      var left := CalcHash(H, txids, h - 1, 2 * pos);
      var right := if 2 * pos + 1 < Width(|txids|, h - 1) then CalcHash(H, txids, h - 1, 2 * pos + 1) else left;
      H(left, right)
  }

  function Root(H: Combine, txids: seq<Hash>): Hash
    requires txids != []
  {
    CalcHash(H, txids, Height(|txids|), 0)
  }

  /** Whether a leaf from `lo` up to `hi` is matched. */
  predicate AnyMatch(match_: seq<bool>, lo: nat, hi: nat) {
    exists p :: lo <= p < hi && p < |match_| && match_[p]
  }

  /** `TraverseAndBuild`: the bits and hashes it appends at node (h, pos). */
  function Build(H: Combine, txids: seq<Hash>, match_: seq<bool>, h: nat, pos: nat): (seq<bool>, seq<Hash>)
    requires |match_| == |txids| && pos < Width(|txids|, h)
    decreases h
  {
    var parent := AnyMatch(match_, pos * Pow2(h), (pos + 1) * Pow2(h));
    if h == 0 || !parent then ([parent], [CalcHash(H, txids, h, pos)])
    else
      ChildrenIn(|txids|, h, pos);
      var (b, k) := Build(H, txids, match_, h - 1, 2 * pos);
      if 2 * pos + 1 < Width(|txids|, h - 1) then
        var (b', k') := Build(H, txids, match_, h - 1, 2 * pos + 1);
        ([true] + b + b', k + k')
      else ([true] + b, k)
  }

  /** A matched transaction id and its index. */
  datatype Found = Found(txid: Hash, index: nat)

  /** The parser's registers after a subtree, with the hash it computed. */
  datatype Parse = Parse(hash: Hash, bitsUsed: nat, hashUsed: nat, bad: bool, found: seq<Found>)

  /** `TraverseAndExtract` for a tree over n leaves, from the given registers. */
  function Extract(H: Combine, n: nat, bits: seq<bool>, hashes: seq<Hash>, h: nat, pos: nat,
                   bitsUsed: nat, hashUsed: nat): Parse
    decreases h
  {
    if bitsUsed >= |bits| then Parse(ZERO, bitsUsed, hashUsed, true, [])
    else
      var parent := bits[bitsUsed];
      if h == 0 || !parent then
        if hashUsed >= |hashes| then Parse(ZERO, bitsUsed + 1, hashUsed, true, [])
        else
          var hash := hashes[hashUsed];
          Parse(hash, bitsUsed + 1, hashUsed + 1, false, if h == 0 && parent then [Found(hash, pos)] else [])
      else
        var l := Extract(H, n, bits, hashes, h - 1, 2 * pos, bitsUsed + 1, hashUsed);
        if 2 * pos + 1 < Width(n, h - 1) then
          var r := Extract(H, n, bits, hashes, h - 1, 2 * pos + 1, l.bitsUsed, l.hashUsed);
          Parse(H(l.hash, r.hash), r.bitsUsed, r.hashUsed, l.bad || r.bad || r.hash == l.hash, l.found + r.found)
        else
          l.(hash := H(l.hash, l.hash))
  }

  /** `ExtractMatches` on an object whose `fBad` was `bad`: the root, or zero, and what was found. */
  function ExtractMatches(H: Combine, n: nat, bits: seq<bool>, hashes: seq<Hash>, bad: bool): (Hash, seq<Found>, bool) {
    if n == 0 || n > MAX_TRANSACTIONS || |hashes| > n || |bits| < |hashes| then (ZERO, [], bad)
    else
      var p := Extract(H, n, bits, hashes, Height(n), 0, 0, 0);
      if bad || p.bad || (p.bitsUsed + 7) / 8 != (|bits| + 7) / 8 || p.hashUsed != |hashes|
      then (ZERO, p.found, bad || p.bad)
      else (p.hash, p.found, false)
  }

  // ----- Soundness of the parser -----

  ghost predicate Genuine(txids: seq<Hash>, found: seq<Found>) {
    forall f :: f in found ==> f.index < |txids| && txids[f.index] == f.txid
  }

  /** Whatever the bits and hashes, if a subtree parses to its real hash then everything found in it is real. */
  lemma {:induction false} ExtractSound(H: Combine, txids: seq<Hash>, bits: seq<bool>, hashes: seq<Hash>,
                                        h: nat, pos: nat, b: nat, k: nat)
    requires Injective(H) && pos < Width(|txids|, h)
    requires Extract(H, |txids|, bits, hashes, h, pos, b, k).hash == CalcHash(H, txids, h, pos)
    ensures Genuine(txids, Extract(H, |txids|, bits, hashes, h, pos, b, k).found)
    decreases h
  {
    WidthIs(|txids|, 0, pos);
    if b < |bits| && h > 0 && bits[b] {
      ChildrenIn(|txids|, h, pos);
      var l := Extract(H, |txids|, bits, hashes, h - 1, 2 * pos, b + 1, k);
      assert l.hash == CalcHash(H, txids, h - 1, 2 * pos);
      ExtractSound(H, txids, bits, hashes, h - 1, 2 * pos, b + 1, k);
      if 2 * pos + 1 < Width(|txids|, h - 1) {
        ExtractSound(H, txids, bits, hashes, h - 1, 2 * pos + 1, l.bitsUsed, l.hashUsed);
      }
    }
  }

  /** A proof that yields the Merkle root of a list proves membership at the stated indexes. */
  lemma ExtractMatchesSound(H: Combine, txids: seq<Hash>, bits: seq<bool>, hashes: seq<Hash>, bad: bool)
    requires Injective(H) && txids != []
    requires ExtractMatches(H, |txids|, bits, hashes, bad).0 == Root(H, txids) != ZERO
    ensures Genuine(txids, ExtractMatches(H, |txids|, bits, hashes, bad).1)
  {
    ExtractSound(H, txids, bits, hashes, Height(|txids|), 0, 0, 0);
  }
}
