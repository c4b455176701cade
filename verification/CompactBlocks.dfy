/**
 The block being downloaded: slots filled from a compact block, the mempool and extra
 transactions, and turned into a full block once the missing transactions have arrived.
 */
module CompactBlocks {
  import opened Basics
  import opened CompactModel
  import opened CompactProofs

  /** The compact block of a full block. */
  method MakeCompact(b: Block, sid: int -> int) returns (c: Compact)
    requires b.vtx != []
    ensures c == FromBlock(b, sid)
  {
    var ids: seq<int> := [];
    var i := 1;
    while i < |b.vtx|
      invariant 1 <= i <= |b.vtx| && ids == FromBlock(b, sid).shortIds[..i - 1]
    {
      ids := ids + [sid(b.vtx[i].wtxid)];
      i := i + 1;
    }
    c := Compact(b.header, ids, [Prefilled(0, b.vtx[0])], sid);
  }

  /** There is no header or no transaction, or there are too many, or the object is in use. */
  predicate Refused(c: Compact, header: Header, available: Slots) {
    IsNull(c.header) || c.TxCount() == 0 || c.TxCount() > MAX_TXS || !IsNull(header) || available != []
  }

  class PartiallyDownloadedBlock {
    var header: Header
    var available: Slots
    var prefilledCount: nat
    var mempoolCount: int
    /** The mempool's transactions in the order they are looked at. */
    const pool: seq<Entry>

    constructor (pool: seq<Entry>)
      ensures this.pool == pool && header == NULL_HEADER && available == [] && prefilledCount == 0 && mempoolCount == 0
    {
      this.pool := pool;
      header, available, prefilledCount, mempoolCount := NULL_HEADER, [], 0, 0;
    }

    /** Put the prefilled transactions in place, up to the first bad one. */
    method PlacePrefilled(c: Compact) returns (ok: bool)
      requires available == seq(c.TxCount(), _ => None)
      modifies this`available
      ensures ok <==> Placed(c, |c.prefilled|)
      ensures available == Lay(c, Accepted(c, 0))
      ensures ok ==> available == Lay(c, |c.prefilled|)
    {
      var last := -1;
      var i := 0;
      while i < |c.prefilled|
        invariant 0 <= i <= |c.prefilled| && Placed(c, i)
        invariant last == if i == 0 then -1 else Position(c, i - 1)
        invariant available == Lay(c, i)
        invariant Accepted(c, 0) == Accepted(c, i)
      {
        if c.prefilled[i].tx.isNull { return false; }
        last := last + c.prefilled[i].index + 1;
        if last > MAX_INDEX { return false; }
        if last > |c.shortIds| + i { return false; }
        assert PlacedAt(c, i);
        available := available[last := Some(c.prefilled[i].tx)];
        i := i + 1;
      }
      ok := true;
    }

    /** The slot of each short id, in sixteen bits; `None` when the hash table is too uneven. */
    method MapShortIds(c: Compact, crowded: seq<int> -> bool) returns (m: Option<map<int, nat>>)
      requires |c.prefilled| <= MAX_INDEX || c.shortIds == []
      requires Placed(c, |c.prefilled|) && available == Lay(c, |c.prefilled|)
      ensures |Gaps(available)| == |c.shortIds|
      ensures m.None? <==> Crowding(c, crowded)
      ensures m.Some? ==> m.value == Index(c.shortIds, Narrow(Gaps(available)))
    {
      hide Gaps, Index, Lay, Narrow, Placed;
      GapsLeft(c, |c.prefilled|);
      NoneYet(Narrow(Gaps(available)));
      var table: map<int, nat> := map[];
      var offset := 0;
      var i := 0;
      while i < |c.shortIds|
        invariant 0 <= i <= |c.shortIds| && 0 <= offset && i + offset <= |available|
        invariant |Gaps(available[..i + offset])| == i
        invariant table == Index(c.shortIds[..i], Narrow(Gaps(available)))
        invariant forall k :: 0 < k <= i ==> !crowded(c.shortIds[..k])
      {
        offset := SkipFilled(i, offset);
        var p := i + offset;
        GapNumber(available, p, i);
        GapStep(available, p);
        NarrowStep(c.shortIds, Gaps(available), i, p);
        table := table[c.shortIds[i] := p % SLOT_NUMBERS];
        if crowded(c.shortIds[..i + 1]) {
          return None;
        }
        i := i + 1;
      }
      assert c.shortIds[..i] == c.shortIds;
      m := Some(table);
    }

    /**
     The first empty slot from here on; there is one as long as there are short ids left, and the
     sixteen-bit offset does not wrap on the way.
     */
    method SkipFilled(i: nat, start: nat) returns (offset: nat)
      requires i + start <= |available| && |Gaps(available[..i + start])| == i < |Gaps(available)|
      requires |available| - |Gaps(available)| <= MAX_INDEX
      ensures start <= offset && i + offset < |available| && available[i + offset].None?
      ensures |Gaps(available[..i + offset])| == i
    {
      offset := start;
      InRange(i, offset);
      while available[i + offset].Some?
        invariant start <= offset && i + offset < |available|
        invariant |Gaps(available[..i + offset])| == i
        decreases |available| - offset
      {
        GapStep(available, i + offset);
        FilledWithin(available, i + offset + 1);
        offset := (offset + 1) % SLOT_NUMBERS;
        InRange(i, offset);
      }
    }

    lemma InRange(i: nat, offset: nat)
      requires i + offset <= |available| && |Gaps(available[..i + offset])| == i < |Gaps(available)|
      ensures i + offset < |available|
    {
      assert available[..|available|] == available;
    }

    /** Look for the short ids among the given transactions. */
    method ScanEntries(m: map<int, nat>, sid: int -> int, es: seq<Entry>, extra: bool, have: seq<bool>)
      returns (now: seq<bool>)
      requires Fits(m, Work(available, have, mempoolCount))
      modifies this`available, this`mempoolCount
      ensures Work(available, now, mempoolCount) == Scan(m, sid, old(Work(available, have, mempoolCount)), es, extra)
    {
      now := have;
      ghost var goal := Scan(m, sid, Work(available, have, mempoolCount), es, extra);
      var i := 0;
      while i < |es|
        invariant 0 <= i <= |es|
        invariant Fits(m, Work(available, now, mempoolCount))
        invariant goal == Scan(m, sid, Work(available, now, mempoolCount), es[i..], extra)
      {
        ghost var before := Work(available, now, mempoolCount);
        var id := sid(es[i].wtxid);
        if id in m {
          var p := m[id];
          if !now[p] {
            available := available[p := Some(es[i].tx)];
            now := now[p := true];
            mempoolCount := mempoolCount + 1;
          } else if available[p].Some? && (extra ==> available[p].value.wtxid != es[i].tx.wtxid) {
            available := available[p := None];
            mempoolCount := mempoolCount - 1;
          }
        }
        assert Work(available, now, mempoolCount) == Match(m, sid, before, es[i..][0], extra);
        assert es[i..][1..] == es[i + 1..];
        i := i + 1;
        if mempoolCount == |m| {
          return;
        }
      }
    }

    /** Start the download from a compact block. */
    method InitData(c: Compact, extra: seq<Entry>, crowded: seq<int> -> bool) returns (status: Status)
      requires !Endless(c)
      modifies this
      ensures Refused(c, old(header), old(available)) ==> status == INVALID && unchanged(this)
      ensures !Refused(c, old(header), old(available)) ==>
        && header == c.header
        && (status == INVALID <==> !Placed(c, |c.prefilled|))
        && (status == FAILED <==> Placed(c, |c.prefilled|) && (Crowding(c, crowded) || !Distinct(c.shortIds)))
        && (status == INVALID ==>
              available == Lay(c, Accepted(c, 0)) && prefilledCount == old(prefilledCount) && mempoolCount == old(mempoolCount))
      ensures status == FAILED ==>
        && Placed(c, |c.prefilled|) && available == Lay(c, |c.prefilled|)
        && prefilledCount == |c.prefilled| && mempoolCount == old(mempoolCount)
      ensures status == OK ==>
        && Placed(c, |c.prefilled|) && |Gaps(Lay(c, |c.prefilled|))| == |c.shortIds|
        && Fits(Ids(c), Start(c, old(mempoolCount)))
        && var f := Final(c, old(mempoolCount), pool, extra);
          available == f.slots && mempoolCount == f.count && prefilledCount == |c.prefilled|
    {
      hide Scan, Lay, Gaps, Index, Accepted, Narrow;
      if IsNull(c.header) || (|c.shortIds| == 0 && |c.prefilled| == 0) { return INVALID; }
      if c.TxCount() > MAX_TXS { return INVALID; }
      if !IsNull(header) || available != [] { return INVALID; }
      header := c.header;
      available := seq(c.TxCount(), _ => None);
      var placed := PlacePrefilled(c);
      if !placed { return INVALID; }
      prefilledCount := |c.prefilled|;
      PrefilledFew(c);
      var found := MapShortIds(c, crowded);
      if found.None? { return FAILED; }
      var m := found.value;
      IndexKeys(c.shortIds, Narrow(Gaps(available)));
      if |m| != |c.shortIds| { return FAILED; }
      IdsFit(c, mempoolCount);
      var have := seq(|available|, _ => false);
      ghost var start := Start(c, mempoolCount);
      assert Work(available, have, mempoolCount) == start;
      have := ScanEntries(m, c.sid, pool, false, have);
      have := ScanEntries(m, c.sid, extra, true, have);
      status := OK;
    }

    method IsTxAvailable(index: nat) returns (r: bool)
      requires !IsNull(header) ==> index < |available|
      ensures r <==> !IsNull(header) && available[index].Some?
    {
      if IsNull(header) { return false; }
      r := available[index] != None;
    }

    /** Move the slots out one by one, taking the next missing transaction for each gap. */
    method Assemble(missing: seq<Tx>) returns (ok: bool, used: nat, vtx: seq<Tx>)
      modifies this`available
      ensures ok <==> |missing| >= |Gaps(old(available))|
      ensures ok ==> used == |Gaps(old(available))| && vtx == Merge(old(available), missing[..used])
      ensures !ok ==> var p := Gaps(old(available))[|missing|]; available == seq(p, _ => None) + old(available)[p..]
    {
      hide Gaps, Merge;
      ghost var s := available;
      MergeNone(s, missing);
      var n := |available|;
      used, vtx := 0, [];
      var i := 0;
      while i < n
        invariant 0 <= i <= n == |s| == |available|
        invariant used == |Gaps(s[..i])| <= |missing|
        invariant forall k :: 0 <= k < n ==> available[k] == if k < i then None else s[k]
        invariant vtx == Merge(s[..i], missing[..used])
      {
        if available[i].None? {
          if used >= |missing| {
            GapNumber(s, i, used);
            assert available == seq(i, _ => None) + s[i..];
            return false, used, vtx;
          }
          MergeStep(s, missing, i, used);
          vtx := vtx + [missing[used]];
          used := used + 1;
        } else {
          MergeStep(s, missing, i, used);
          vtx := vtx + [available[i].value];
          available := available[i := None];
        }
        i := i + 1;
      }
      assert s[..i] == s;
      ok := true;
    }

    /** Put the missing transactions into the gaps; the block can be filled only once. */
    method FillBlock(missing: seq<Tx>, mutated: Block -> bool) returns (status: Status, block: Block)
      modifies this`header, this`available
      ensures IsNull(old(header)) ==> status == INVALID && header == old(header) && available == old(available)
      ensures !IsNull(old(header)) && |missing| < |Gaps(old(available))| ==>
        status == INVALID && header == old(header) &&
        var p := Gaps(old(available))[|missing|];
        available == seq(p, _ => None) + old(available)[p..]
      ensures !IsNull(old(header)) && |missing| >= |Gaps(old(available))| ==>
        && header == NULL_HEADER && available == []
        && block == Block(old(header), Merge(old(available), missing[..|Gaps(old(available))|]))
        && status == if |missing| > |Gaps(old(available))| then INVALID else if mutated(block) then FAILED else OK
    {
      hide Gaps, Merge;
      block := Block(header, []);
      if IsNull(header) { return INVALID, block; }
      var ok, used, vtx := Assemble(missing);
      block := Block(header, vtx);
      if !ok { return INVALID, block; }
      header := NULL_HEADER;
      available := [];
      if |missing| != used { return INVALID, block; }
      if mutated(block) { return FAILED, block; }
      status := OK;
    }
  }

  /** What the receiver asks for: the slots it could not fill, in order. */
  method Request(partial: PartiallyDownloadedBlock) returns (indexes: seq<nat>)
    requires !IsNull(partial.header)
    ensures indexes == Gaps(partial.available)
  {
    hide Gaps;
    indexes := [];
    var i := 0;
    NoGaps(partial.available);
    while i < |partial.available|
      invariant 0 <= i <= |partial.available| && indexes == Gaps(partial.available[..i])
    {
      GapStep(partial.available, i);
      var have := partial.IsTxAvailable(i);
      if !have {
        indexes := indexes + [i];
      }
      i := i + 1;
    }
    assert partial.available[..i] == partial.available;
  }

  /** What the sender answers: its transactions at those indexes. */
  method Answer(b: Block, indexes: seq<nat>) returns (txs: Option<seq<Tx>>)
    ensures txs.None? <==> exists k :: 0 <= k < |indexes| && indexes[k] >= |b.vtx|
    ensures txs.Some? ==> |txs.value| == |indexes| && forall k :: 0 <= k < |indexes| ==> txs.value[k] == b.vtx[indexes[k]]
  {
    var found: seq<Tx> := [];
    var i := 0;
    while i < |indexes|
      invariant 0 <= i <= |indexes| == |indexes| && |found| == i
      invariant forall k :: 0 <= k < i ==> indexes[k] < |b.vtx| && found[k] == b.vtx[indexes[k]]
    {
      if indexes[i] >= |b.vtx| { return None; }
      found := found + [b.vtx[indexes[i]]];
      i := i + 1;
    }
    txs := Some(found);
  }

  /**
   Sender and receiver together, whatever the receiver's count was: a block sent compactly, with
   the transactions the receiver asks for sent after it, arrives as it was. With a harmless count
   the receiver asks for exactly the transactions it had not been offered.
   */
  method Relay(b: Block, sid: int -> int, partial: PartiallyDownloadedBlock, extra: seq<Entry>, crowded: seq<int> -> bool,
               mutated: Block -> bool) returns (indexes: seq<nat>, status: Status, block: Block)
    requires Sendable(b, sid) && !IsNull(b.header) && !Crowding(FromBlock(b, sid), crowded)
    requires IsNull(partial.header) && partial.available == [] && partial.mempoolCount >= 0
    requires Faithful(b, sid, partial.pool) && Faithful(b, sid, extra)
    modifies partial
    ensures block == b && status == if mutated(b) then FAILED else OK
    ensures IsNull(partial.header) && partial.available == []
    ensures forall k :: 0 <= k < |indexes| ==> 0 < indexes[k] < |b.vtx|
    ensures partial.mempoolCount == old(partial.mempoolCount) + |b.vtx| - 1 - |indexes|
    ensures Harmless(FromBlock(b, sid), old(partial.mempoolCount)) && Once(partial.pool) ==>
      forall p :: 0 < p < |b.vtx| ==> (p in indexes <==> !Offers(partial.pool + extra, b.vtx[p].wtxid))
  {
    hide Gaps, Final, Distinct, Crowding, Faithful, Once, Harmless, Offers, SlotsFrom, Lay, Ids, AllFound, Wanted;
    var c := MakeCompact(b, sid);
    ghost var n, pool := partial.mempoolCount, partial.pool;
    Received(b, sid, n, pool, extra);
    status := partial.InitData(c, extra, crowded);
    ghost var s := partial.available;
    indexes := Request(partial);
    var missing := Answer(b, indexes);
    OwnOrNothing(b, sid, n, pool, extra);
    WantedIs(b, s, missing.value);
    MergeHonest(b, s);
    status, block := partial.FillBlock(missing.value, mutated);
    if Harmless(c, n) && Once(pool) {
      HonestSlots(b, sid, n, pool, extra);
      forall p | 0 < p < |b.vtx|
        ensures p in indexes <==> !Offers(pool + extra, b.vtx[p].wtxid)
      {
        Unlisted(b, s, pool + extra, p);
      }
    }
  }

  lemma WantedIs(b: Block, s: Slots, txs: seq<Tx>)
    requires |s| == |b.vtx| && |txs| == |Gaps(s)| && forall k :: 0 <= k < |txs| ==> txs[k] == b.vtx[Gaps(s)[k]]
    ensures txs == Wanted(b, s) && txs[..|txs|] == txs
  {
    hide Gaps;
  }

  lemma PairSendable(b: Block, sid: int -> int)
    requires |b.vtx| == 2 && !b.vtx[0].isNull
    ensures Sendable(b, sid) && FromBlock(b, sid).shortIds == [sid(b.vtx[1].wtxid)]
  {
  }

  lemma OnlyOne(indexes: seq<nat>)
    requires forall k :: 0 <= k < |indexes| ==> indexes[k] == 1
    ensures indexes == [] || 1 in indexes
  {
    if indexes != [] {
      assert indexes[0] in indexes;
    }
  }

  /**
   One object used for two blocks in turn. The count left over from the first is the number of
   short ids of the second, and a transaction that is listed is not found.
   */
  method SecondBlock(first: Block, second: Block, sid: int -> int)
    returns (partial: PartiallyDownloadedBlock, status: Status, have: bool)
    requires |first.vtx| == |second.vtx| == 2 && !first.vtx[0].isNull && !second.vtx[0].isNull
    requires !IsNull(first.header) && !IsNull(second.header) && sid(first.vtx[1].wtxid) != sid(second.vtx[1].wtxid)
    ensures partial.header == second.header && status == OK && Offers(partial.pool, second.vtx[1].wtxid) && !have
  {
    hide Gaps, Final, SlotsFrom, Lay, Ids, Distinct;
    var a, b := first.vtx[1], second.vtx[1];
    var pool := [Entry(a.wtxid, a), Entry(b.wtxid, b)];
    assert pool[0].wtxid == a.wtxid && pool[1].wtxid == b.wtxid;
    assert Offers(pool, a.wtxid) by { assert pool[0] in pool; }
    assert Offers(pool, b.wtxid) by { assert pool[1] in pool; }
    partial := new PartiallyDownloadedBlock(pool);
    var never := (ids: seq<int>) => false;
    PairSendable(first, sid);
    PairSendable(second, sid);
    var indexes, s, block := Relay(first, sid, partial, [], never, block => false);
    assert pool + [] == pool;
    OnlyOne(indexes);
    var c := MakeCompact(second, sid);
    Received(second, sid, 1, pool, []);
    StopsAtOnce(second, sid, 1, pool);
    HonestLay(second, sid);
    status := partial.InitData(c, [], never);
    have := partial.IsTxAvailable(1);
  }
}
