/**
 Compact blocks (BIP 152, sections "HeaderAndShortIDs" and "Short transaction IDs"): what a
 compact block says about each slot, and how slots are filled from transactions at hand.
 */
module CompactModel {
  import opened Basics

  datatype Tx = Tx(wtxid: int, isNull: bool, content: int)

  datatype Header = Header(nBits: nat, rest: int)

  const NULL_HEADER := Header(0, 0)

  predicate IsNull(h: Header) {
    h.nBits == 0
  }

  datatype Block = Block(header: Header, vtx: seq<Tx>)

  /** The index is an offset since the last prefilled transaction. */
  datatype Prefilled = Prefilled(index: nat, tx: Tx)

  /** `sid` is the short id of a witness hash under the block's own key. */
  datatype Compact = Compact(header: Header, shortIds: seq<int>, prefilled: seq<Prefilled>, sid: int -> int) {
    function TxCount(): nat {
      |shortIds| + |prefilled|
    }
  }

  /** A transaction at hand, with the witness hash it is listed under. */
  datatype Entry = Entry(wtxid: int, tx: Tx)

  datatype Status = OK | INVALID | FAILED

  const MAX_INDEX := 65535
  /** How many slots sixteen bits can number. */
  const SLOT_NUMBERS := 65536
  /** MAX_BLOCK_WEIGHT / MIN_SERIALIZABLE_TRANSACTION_WEIGHT */
  const MAX_TXS := 100_000

  type Slots = seq<Option<Tx>>

  /** The compact block made from a full one: only the coinbase is prefilled. */
  function FromBlock(b: Block, sid: int -> int): Compact
    requires b.vtx != []
  {
    Compact(b.header, seq(|b.vtx| - 1, i requires 0 <= i < |b.vtx| - 1 => sid(b.vtx[i + 1].wtxid)),
            [Prefilled(0, b.vtx[0])], sid)
  }

  // ----- Prefilled transactions -----

  /** Where the `i`-th prefilled transaction goes. */
  function Position(c: Compact, i: nat): (p: int)
    requires i < |c.prefilled|
    ensures p >= i
  {
    (if i == 0 then -1 else Position(c, i - 1)) + c.prefilled[i].index + 1
  }

  predicate PlacedAt(c: Compact, i: nat)
    requires i < |c.prefilled|
  {
    !c.prefilled[i].tx.isNull && Position(c, i) <= MAX_INDEX && Position(c, i) <= |c.shortIds| + i
  }

  /** The first `k` prefilled transactions are acceptable. */
  predicate Placed(c: Compact, k: nat)
    requires k <= |c.prefilled|
  {
    forall i :: 0 <= i < k ==> PlacedAt(c, i)
  }

  /** The slots once the first `k` prefilled transactions are in. */
  function Lay(c: Compact, k: nat): (s: Slots)
    requires k <= |c.prefilled| && Placed(c, k)
    ensures |s| == c.TxCount()
  {
    if k == 0 then seq(c.TxCount(), _ => None)
    else
      assert PlacedAt(c, k - 1);
      Lay(c, k - 1)[Position(c, k - 1) := Some(c.prefilled[k - 1].tx)]
  }

  /** The empty slots, in order. */
  function Gaps(s: Slots): (g: seq<nat>)
    ensures forall i :: 0 <= i < |g| ==> g[i] < |s| && s[g[i]].None?
  {
    if s == [] then []
    else
      var n := |s| - 1;
      assert forall i :: 0 <= i < |Gaps(s[..n])| ==> s[..n][Gaps(s[..n])[i]] == s[Gaps(s[..n])[i]];
      Gaps(s[..n]) + if s[n].None? then [n] else []
  }

  // ----- Short ids -----

  /** Each of the given ids with the gap of the same number; later ids win. */
  function Index(ids: seq<int>, gaps: seq<nat>): (m: map<int, nat>)
    requires |ids| <= |gaps|
  {
    if ids == [] then map[]
    else
      var n := |ids| - 1;
      Index(ids[..n], gaps)[ids[n] := gaps[n]]
  }

  /** Slot numbers are stored in sixteen bits. */
  function Narrow(gaps: seq<nat>): (r: seq<nat>)
    ensures |r| == |gaps|
  {
    seq(|gaps|, i requires 0 <= i < |gaps| => gaps[i] % SLOT_NUMBERS)
  }

  // ----- Filling from the mempool and from extra transactions -----

  /** `have` marks the slots that have been matched once. */
  datatype Work = Work(slots: Slots, have: seq<bool>, count: int)

  predicate Fits(m: map<int, nat>, w: Work) {
    |w.have| == |w.slots| && forall id :: id in m ==> m[id] < |w.slots|
  }

  /** A second match empties the slot, unless it is the very same extra transaction. */
  function Match(m: map<int, nat>, sid: int -> int, w: Work, e: Entry, extra: bool): (r: Work)
    requires Fits(m, w)
    ensures Fits(m, r) && |r.slots| == |w.slots|
  {
    var id := sid(e.wtxid);
    if id !in m then w
    else
      var p := m[id];
      if !w.have[p] then Work(w.slots[p := Some(e.tx)], w.have[p := true], w.count + 1)
      else if w.slots[p].Some? && (extra ==> w.slots[p].value.wtxid != e.tx.wtxid) then
        w.(slots := w.slots[p := None], count := w.count - 1)
      else w
  }

  /** All entries in order, stopping as soon as every short id has its transaction. */
  function Scan(m: map<int, nat>, sid: int -> int, w: Work, es: seq<Entry>, extra: bool): (r: Work)
    requires Fits(m, w)
    ensures Fits(m, r) && |r.slots| == |w.slots|
    decreases es
  {
    if es == [] then w
    else
      var w' := Match(m, sid, w, es[0], extra);
      if w'.count == |m| then w' else Scan(m, sid, w', es[1..], extra)
  }

  // ----- The whole of InitData -----

  predicate Crowding(c: Compact, crowded: seq<int> -> bool) {
    exists k :: 0 < k <= |c.shortIds| && crowded(c.shortIds[..k])
  }

  /** How many prefilled transactions are placed before the first bad one. */
  function Accepted(c: Compact, k: nat): (n: nat)
    requires k <= |c.prefilled| && Placed(c, k)
    ensures k <= n <= |c.prefilled| && Placed(c, n)
    ensures n < |c.prefilled| ==> !PlacedAt(c, n)
    decreases |c.prefilled| - k
  {
    if k < |c.prefilled| && PlacedAt(c, k) then Accepted(c, k + 1) else k
  }

  /** Every slot that a sixteen-bit offset can reach is prefilled: the search for a free one would not end. */
  predicate Endless(c: Compact) {
    |c.prefilled| == SLOT_NUMBERS && c.shortIds != [] && Placed(c, |c.prefilled|)
  }

  function Ids(c: Compact): map<int, nat>
    requires Placed(c, |c.prefilled|) && |Gaps(Lay(c, |c.prefilled|))| == |c.shortIds|
  {
    Index(c.shortIds, Narrow(Gaps(Lay(c, |c.prefilled|))))
  }

  /** Nothing but the prefilled transactions, with the count the object came with. */
  function Start(c: Compact, count: int): (w: Work)
    requires Placed(c, |c.prefilled|)
    ensures |w.have| == |w.slots|
  {
    Work(Lay(c, |c.prefilled|), seq(c.TxCount(), _ => false), count)
  }

  /** The slots once the mempool and the extra transactions have been looked at. */
  function Final(c: Compact, count: int, pool: seq<Entry>, extra: seq<Entry>): (w: Work)
    requires Placed(c, |c.prefilled|) && |Gaps(Lay(c, |c.prefilled|))| == |c.shortIds|
    requires Fits(Ids(c), Start(c, count))
  {
    var m := Ids(c);
    Scan(m, c.sid, Scan(m, c.sid, Start(c, count), pool, false), extra, true)
  }

  /** The empty slots are where the missing transactions go, in order. */
  function Merge(s: Slots, missing: seq<Tx>): (r: seq<Tx>)
    requires |Gaps(s)| == |missing|
    ensures |r| == |s|
  {
    if s == [] then []
    else
      var n := |s| - 1;
      if s[n].None? then Merge(s[..n], missing[..|missing| - 1]) + [missing[|missing| - 1]]
      else Merge(s[..n], missing) + [s[n].value]
  }
}
