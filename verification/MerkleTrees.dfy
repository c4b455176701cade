/**
 Which bits and hashes the parser accepts, stated without the parser: they are the depth-first
 writing of a partial tree of the right shape in which no two siblings have the same hash.
 */
module MerkleTrees {
  import opened Basics
  import opened Radix
  import opened MerkleModel
  import opened MerkleProofs

  /** A partial tree: a node given by its hash only, a node whose right child is missing, or one with both. */
  datatype Tree = Stub(hash: Hash, flag: bool) | One(only: Tree) | Two(left: Tree, right: Tree)

  /** The tree fits node (h, pos) over `n` leaves; only a leaf can be flagged without being opened. */
  predicate Shaped(n: nat, t: Tree, h: nat, pos: nat) {
    match t
    case Stub(_, flag) => flag ==> h == 0
    case One(l) => h > 0 && 2 * pos + 1 >= Width(n, h - 1) && Shaped(n, l, h - 1, 2 * pos)
    case Two(l, r) =>
      h > 0 && 2 * pos + 1 < Width(n, h - 1) && Shaped(n, l, h - 1, 2 * pos) && Shaped(n, r, h - 1, 2 * pos + 1)
  }

  function BitsOf(t: Tree): seq<bool> {
    match t
    case Stub(_, flag) => [flag]
    case One(l) => [true] + BitsOf(l)
    case Two(l, r) => [true] + BitsOf(l) + BitsOf(r)
  }

  function HashesOf(t: Tree): seq<Hash> {
    match t
    case Stub(hash, _) => [hash]
    case One(l) => HashesOf(l)
    case Two(l, r) => HashesOf(l) + HashesOf(r)
  }

  /** A missing right child counts as a copy of the left one. */
  function HashOf(H: Combine, t: Tree): Hash {
    match t
    case Stub(hash, _) => hash
    case One(l) => H(HashOf(H, l), HashOf(H, l))
    case Two(l, r) => H(HashOf(H, l), HashOf(H, r))
  }

  /** The flagged leaves with their places. */
  function Flagged(t: Tree, pos: nat): seq<Found> {
    match t
    case Stub(hash, flag) => if flag then [Found(hash, pos)] else []
    case One(l) => Flagged(l, 2 * pos)
    case Two(l, r) => Flagged(l, 2 * pos) + Flagged(r, 2 * pos + 1)
  }

  /** No two siblings have the same hash. */
  predicate NoTwins(H: Combine, t: Tree) {
    match t
    case Stub(_, _) => true
    case One(l) => NoTwins(H, l)
    case Two(l, r) => NoTwins(H, l) && NoTwins(H, r) && HashOf(H, l) != HashOf(H, r)
  }

  /** A proper tree for node (h, pos) is written from bit `b` and hash `k` on. */
  ghost predicate WrittenAt(H: Combine, n: nat, t: Tree, h: nat, pos: nat, bits: seq<bool>, hashes: seq<Hash>, b: nat, k: nat) {
    Shaped(n, t, h, pos) && NoTwins(H, t) && Stands(bits, b, BitsOf(t)) && Stands(hashes, k, HashesOf(t))
  }

  /** What parsing a tree written at some place gives. */
  function Parsed(H: Combine, t: Tree, pos: nat, b: nat, k: nat): Parse {
    Parse(HashOf(H, t), b + |BitsOf(t)|, k + |HashesOf(t)|, false, Flagged(t, pos))
  }

  // ----- From tree to parse -----

  lemma ParsedTwo(H: Combine, n: nat, t: Tree, h: nat, pos: nat, bits: seq<bool>, hashes: seq<Hash>, b: nat, k: nat)
    requires t.Two? && h > 0 && 2 * pos + 1 < Width(n, h - 1) && HashOf(H, t.left) != HashOf(H, t.right)
    requires b < |bits| && bits[b]
    requires var l := Parsed(H, t.left, 2 * pos, b + 1, k);
      && Extract(H, n, bits, hashes, h - 1, 2 * pos, b + 1, k) == l
      && Extract(H, n, bits, hashes, h - 1, 2 * pos + 1, l.bitsUsed, l.hashUsed) ==
         Parsed(H, t.right, 2 * pos + 1, l.bitsUsed, l.hashUsed)
    ensures Extract(H, n, bits, hashes, h, pos, b, k) == Parsed(H, t, pos, b, k)
  {
    hide Width;
  }

  lemma ParsedOne(H: Combine, n: nat, t: Tree, h: nat, pos: nat, bits: seq<bool>, hashes: seq<Hash>, b: nat, k: nat)
    requires t.One? && h > 0 && 2 * pos + 1 >= Width(n, h - 1) && b < |bits| && bits[b]
    requires Extract(H, n, bits, hashes, h - 1, 2 * pos, b + 1, k) == Parsed(H, t.only, 2 * pos, b + 1, k)
    ensures Extract(H, n, bits, hashes, h, pos, b, k) == Parsed(H, t, pos, b, k)
  {
    hide Width;
  }

  lemma ParsedStub(H: Combine, n: nat, t: Tree, h: nat, pos: nat, bits: seq<bool>, hashes: seq<Hash>, b: nat, k: nat)
    requires t.Stub? && (t.flag ==> h == 0) && b < |bits| && bits[b] == t.flag && k < |hashes| && hashes[k] == t.hash
    ensures Extract(H, n, bits, hashes, h, pos, b, k) == Parsed(H, t, pos, b, k)
  {
  }

  lemma {:induction false} WrittenParses(H: Combine, n: nat, t: Tree, h: nat, pos: nat,
                                         bits: seq<bool>, hashes: seq<Hash>, b: nat, k: nat)
    requires WrittenAt(H, n, t, h, pos, bits, hashes, b, k)
    ensures Extract(H, n, bits, hashes, h, pos, b, k) == Parsed(H, t, pos, b, k)
    decreases t
  {
    hide Width, Stands, Extract;
    FirstOf(bits, b, BitsOf(t));
    match t {
      case Stub(hash, flag) =>
        FirstOf(hashes, k, HashesOf(t));
        ParsedStub(H, n, t, h, pos, bits, hashes, b, k);
      case One(l) =>
        Slices2(bits, b, [true], BitsOf(l));
        WrittenParses(H, n, l, h - 1, 2 * pos, bits, hashes, b + 1, k);
        ParsedOne(H, n, t, h, pos, bits, hashes, b, k);
      case Two(l, r) =>
        Slices3(bits, b, [true], BitsOf(l), BitsOf(r));
        Slices2(hashes, k, HashesOf(l), HashesOf(r));
        WrittenParses(H, n, l, h - 1, 2 * pos, bits, hashes, b + 1, k);
        WrittenParses(H, n, r, h - 1, 2 * pos + 1, bits, hashes, b + 1 + |BitsOf(l)|, k + |HashesOf(l)|);
        ParsedTwo(H, n, t, h, pos, bits, hashes, b, k);
    }
  }

  lemma FirstOf<T>(s: seq<T>, i: nat, part: seq<T>)
    requires Stands(s, i, part) && part != []
    ensures i < |s| && s[i] == part[0]
  {
    assert s[i..i + |part|][0] == s[i];
  }

  // ----- From parse to tree -----

  lemma StandsOne<T>(s: seq<T>, i: nat)
    requires i < |s|
    ensures Stands(s, i, [s[i]])
  {
  }

  lemma StandsJoin<T>(s: seq<T>, i: nat, x: seq<T>, y: seq<T>)
    requires Stands(s, i, x) && Stands(s, i + |x|, y)
    ensures Stands(s, i, x + y)
  {
    assert s[i..i + |x + y|] == s[i..i + |x|] + s[i + |x|..i + |x| + |y|];
  }

  lemma JoinTwo(H: Combine, n: nat, l: Tree, r: Tree, h: nat, pos: nat, bits: seq<bool>, hashes: seq<Hash>, b: nat, k: nat)
    requires h > 0 && 2 * pos + 1 < Width(n, h - 1) && HashOf(H, l) != HashOf(H, r) && b < |bits| && bits[b]
    requires WrittenAt(H, n, l, h - 1, 2 * pos, bits, hashes, b + 1, k)
    requires WrittenAt(H, n, r, h - 1, 2 * pos + 1, bits, hashes, b + 1 + |BitsOf(l)|, k + |HashesOf(l)|)
    ensures WrittenAt(H, n, Two(l, r), h, pos, bits, hashes, b, k)
  {
    hide Width, Stands;
    StandsOne(bits, b);
    StandsJoin(bits, b, [true], BitsOf(l));
    StandsJoin(bits, b, [true] + BitsOf(l), BitsOf(r));
    StandsJoin(hashes, k, HashesOf(l), HashesOf(r));
  }

  lemma JoinOne(H: Combine, n: nat, l: Tree, h: nat, pos: nat, bits: seq<bool>, hashes: seq<Hash>, b: nat, k: nat)
    requires h > 0 && 2 * pos + 1 >= Width(n, h - 1) && b < |bits| && bits[b]
    requires WrittenAt(H, n, l, h - 1, 2 * pos, bits, hashes, b + 1, k)
    ensures WrittenAt(H, n, One(l), h, pos, bits, hashes, b, k)
  {
    hide Width, Stands;
    StandsOne(bits, b);
    StandsJoin(bits, b, [true], BitsOf(l));
  }

  /** What a parse without fault says about its parts. */
  lemma GoodParts(H: Combine, n: nat, h: nat, pos: nat, bits: seq<bool>, hashes: seq<Hash>, b: nat, k: nat)
    requires !Extract(H, n, bits, hashes, h, pos, b, k).bad
    ensures b < |bits| && (h == 0 || !bits[b] ==> k < |hashes|)
    ensures h > 0 && bits[b] ==>
      var l := Extract(H, n, bits, hashes, h - 1, 2 * pos, b + 1, k);
      && !l.bad
      && (2 * pos + 1 < Width(n, h - 1) ==>
            var r := Extract(H, n, bits, hashes, h - 1, 2 * pos + 1, l.bitsUsed, l.hashUsed);
            !r.bad && r.hash != l.hash)
  {
    hide Width;
  }

  lemma {:induction false} ParseIsTree(H: Combine, n: nat, h: nat, pos: nat, bits: seq<bool>, hashes: seq<Hash>,
                                       b: nat, k: nat) returns (t: Tree)
    requires !Extract(H, n, bits, hashes, h, pos, b, k).bad
    ensures WrittenAt(H, n, t, h, pos, bits, hashes, b, k)
    decreases h
  {
    hide Width, WrittenAt, HashOf, BitsOf, HashesOf, Flagged, Extract;
    GoodParts(H, n, h, pos, bits, hashes, b, k);
    if h == 0 || !bits[b] {
      t := Stub(hashes[k], bits[b]);
      WrittenStub(H, n, h, pos, bits, hashes, b, k);
    } else {
      var l := ParseIsTree(H, n, h - 1, 2 * pos, bits, hashes, b + 1, k);
      WrittenParses(H, n, l, h - 1, 2 * pos, bits, hashes, b + 1, k);
      if 2 * pos + 1 < Width(n, h - 1) {
        var b', k' := b + 1 + |BitsOf(l)|, k + |HashesOf(l)|;
        var r := ParseIsTree(H, n, h - 1, 2 * pos + 1, bits, hashes, b', k');
        WrittenParses(H, n, r, h - 1, 2 * pos + 1, bits, hashes, b', k');
        JoinTwo(H, n, l, r, h, pos, bits, hashes, b, k);
        t := Two(l, r);
      } else {
        JoinOne(H, n, l, h, pos, bits, hashes, b, k);
        t := One(l);
      }
    }
  }

  lemma WrittenStub(H: Combine, n: nat, h: nat, pos: nat, bits: seq<bool>, hashes: seq<Hash>, b: nat, k: nat)
    requires b < |bits| && k < |hashes| && (bits[b] ==> h == 0)
    ensures WrittenAt(H, n, Stub(hashes[k], bits[b]), h, pos, bits, hashes, b, k)
  {
    StandsOne(bits, b);
    StandsOne(hashes, k);
  }

  /** A subtree parses without fault if and only if a proper tree is written there, and then as that tree. */
  lemma ExtractIff(H: Combine, n: nat, h: nat, pos: nat, bits: seq<bool>, hashes: seq<Hash>, b: nat, k: nat)
    ensures !Extract(H, n, bits, hashes, h, pos, b, k).bad <==>
            exists t :: WrittenAt(H, n, t, h, pos, bits, hashes, b, k)
    ensures forall t :: WrittenAt(H, n, t, h, pos, bits, hashes, b, k) ==>
              Extract(H, n, bits, hashes, h, pos, b, k) == Parsed(H, t, pos, b, k)
  {
    hide Extract, WrittenAt;
    forall t | WrittenAt(H, n, t, h, pos, bits, hashes, b, k)
      ensures Extract(H, n, bits, hashes, h, pos, b, k) == Parsed(H, t, pos, b, k)
    {
      WrittenParses(H, n, t, h, pos, bits, hashes, b, k);
    }
    if !Extract(H, n, bits, hashes, h, pos, b, k).bad {
      var t := ParseIsTree(H, n, h, pos, bits, hashes, b, k);
    }
  }

  /** At most one tree is written at a place. */
  lemma {:induction false} OneReading(n: nat, t: Tree, u: Tree, h: nat, pos: nat, bits: seq<bool>, hashes: seq<Hash>, b: nat, k: nat)
    requires Shaped(n, t, h, pos) && Shaped(n, u, h, pos)
    requires Stands(bits, b, BitsOf(t)) && Stands(bits, b, BitsOf(u))
    requires Stands(hashes, k, HashesOf(t)) && Stands(hashes, k, HashesOf(u))
    ensures t == u
    decreases t
  {
    hide Width, Stands;
    FirstOf(bits, b, BitsOf(t));
    FirstOf(bits, b, BitsOf(u));
    match t {
      case Stub(_, _) =>
        FirstOf(hashes, k, HashesOf(t));
        if u.Stub? {
          FirstOf(hashes, k, HashesOf(u));
        }
      case One(l) =>
        if u.One? {
          Slices2(bits, b, [true], BitsOf(l));
          Slices2(bits, b, [true], BitsOf(u.only));
          OneReading(n, l, u.only, h - 1, 2 * pos, bits, hashes, b + 1, k);
        }
      case Two(l, r) =>
        if u.Two? {
          Slices3(bits, b, [true], BitsOf(l), BitsOf(r));
          Slices3(bits, b, [true], BitsOf(u.left), BitsOf(u.right));
          Slices2(hashes, k, HashesOf(l), HashesOf(r));
          Slices2(hashes, k, HashesOf(u.left), HashesOf(u.right));
          OneReading(n, l, u.left, h - 1, 2 * pos, bits, hashes, b + 1, k);
          OneReading(n, r, u.right, h - 1, 2 * pos + 1, bits, hashes, b + 1 + |BitsOf(l)|, k + |HashesOf(l)|);
        }
    }
  }

  // ----- The size tests of ExtractMatches reject no tree -----

  lemma {:induction false} TreeSizes(n: nat, t: Tree, h: nat, pos: nat)
    requires Shaped(n, t, h, pos) && pos < Width(n, h)
    ensures 1 <= |HashesOf(t)| <= Leaves(n, h, pos) && |HashesOf(t)| <= |BitsOf(t)|
    decreases t
  {
    hide Width, Pow2;
    WidthIs(n, h, pos);
    NodeWidth(h, pos);
    if !t.Stub? {
      ChildrenIn(n, h, pos);
      Halves(h, pos);
      if t.One? {
        TreeSizes(n, t.only, h - 1, 2 * pos);
      } else {
        WidthIs(n, h - 1, 2 * pos + 1);
        TreeSizes(n, t.left, h - 1, 2 * pos);
        TreeSizes(n, t.right, h - 1, 2 * pos + 1);
      }
    }
  }

  lemma NodeWidth(h: nat, pos: nat)
    ensures (pos + 1) * Pow2(h) == pos * Pow2(h) + Pow2(h)
  {
  }

  /** The bits and hashes are those of a proper tree over `n` transactions; only the rest of the last byte is unused. */
  ghost predicate WritingOf(H: Combine, n: nat, t: Tree, bits: seq<bool>, hashes: seq<Hash>) {
    && 0 < n <= MAX_TRANSACTIONS && Shaped(n, t, Height(n), 0) && NoTwins(H, t)
    && BitsOf(t) <= bits && (|bits| + 7) / 8 == (|BitsOf(t)| + 7) / 8 && hashes == HashesOf(t)
  }

  lemma WritingExtracts(H: Combine, n: nat, t: Tree, bits: seq<bool>, hashes: seq<Hash>)
    requires WritingOf(H, n, t, bits, hashes)
    ensures ExtractMatches(H, n, bits, hashes, false) == (HashOf(H, t), Flagged(t, 0), false)
  {
    hide Extract, Width, Pow2, Shaped;
    var h := Height(n);
    TopCovers(n, h);
    TreeSizes(n, t, h, 0);
    assert Stands(bits, 0, BitsOf(t)) && Stands(hashes, 0, HashesOf(t));
    WrittenParses(H, n, t, h, 0, bits, hashes, 0, 0);
  }

  lemma ExtractsWriting(H: Combine, n: nat, bits: seq<bool>, hashes: seq<Hash>, bad: bool) returns (t: Tree)
    requires ExtractMatches(H, n, bits, hashes, bad).0 != ZERO
    ensures !bad && WritingOf(H, n, t, bits, hashes)
  {
    hide Extract, Width, Pow2, Shaped;
    t := ParseIsTree(H, n, Height(n), 0, bits, hashes, 0, 0);
    WrittenParses(H, n, t, Height(n), 0, bits, hashes, 0, 0);
    assert hashes[0..|hashes|] == hashes;
  }

  /**
   On arbitrary bits and hashes: a proper tree written there gives its hash and its flagged leaves,
   and every other input gives the zero hash.
   */
  lemma AcceptedIff(H: Combine, n: nat, bits: seq<bool>, hashes: seq<Hash>)
    ensures forall t :: WritingOf(H, n, t, bits, hashes) ==>
              ExtractMatches(H, n, bits, hashes, false) == (HashOf(H, t), Flagged(t, 0), false)
    ensures (exists t :: WritingOf(H, n, t, bits, hashes) && HashOf(H, t) != ZERO) <==>
            ExtractMatches(H, n, bits, hashes, false).0 != ZERO
    ensures ExtractMatches(H, n, bits, hashes, true).0 == ZERO
  {
    hide ExtractMatches, WritingOf;
    forall t | WritingOf(H, n, t, bits, hashes)
      ensures ExtractMatches(H, n, bits, hashes, false) == (HashOf(H, t), Flagged(t, 0), false)
    {
      WritingExtracts(H, n, t, bits, hashes);
    }
    if ExtractMatches(H, n, bits, hashes, false).0 != ZERO {
      var t := ExtractsWriting(H, n, bits, hashes, false);
    }
    if ExtractMatches(H, n, bits, hashes, true).0 != ZERO {
      var t := ExtractsWriting(H, n, bits, hashes, true);
    }
  }

  /** The tests made before parsing. */
  predicate Sized(n: nat, bits: seq<bool>, hashes: seq<Hash>) {
    0 < n <= MAX_TRANSACTIONS && |hashes| <= n && |hashes| <= |bits|
  }

  /** The object is marked bad exactly when it was, or when it gets as far as parsing and no proper tree is written. */
  lemma MarkedBadIff(H: Combine, n: nat, bits: seq<bool>, hashes: seq<Hash>, bad: bool)
    ensures ExtractMatches(H, n, bits, hashes, bad).2 <==>
            bad || (Sized(n, bits, hashes) && !exists t :: WrittenAt(H, n, t, Height(n), 0, bits, hashes, 0, 0))
  {
    hide Extract, WrittenAt;
    if Sized(n, bits, hashes) {
      ExtractIff(H, n, Height(n), 0, bits, hashes, 0, 0);
    }
  }

  /** A tree in which a branch is repeated, however it is written, gives no root and marks the object. */
  lemma TwinsRefused(H: Combine, n: nat, t: Tree, bits: seq<bool>, hashes: seq<Hash>)
    requires Sized(n, bits, hashes) && Shaped(n, t, Height(n), 0) && !NoTwins(H, t)
    requires BitsOf(t) <= bits && HashesOf(t) <= hashes
    ensures ExtractMatches(H, n, bits, hashes, false).0 == ZERO && ExtractMatches(H, n, bits, hashes, false).2
  {
    hide Extract, Shaped, NoTwins, Width;
    if !Extract(H, n, bits, hashes, Height(n), 0, 0, 0).bad {
      var u := ParseIsTree(H, n, Height(n), 0, bits, hashes, 0, 0);
      OneReading(n, t, u, Height(n), 0, bits, hashes, 0, 0);
    }
  }
}
