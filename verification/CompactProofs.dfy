/**
 Short ids land on the slots they stand for, and an honest compact block is rebuilt exactly.
 */
module CompactProofs {
  import opened Basics
  import opened CompactModel
  import Sets

  // ----- Positions -----

  lemma {:induction false} PositionsRise(c: Compact, i: nat, j: nat)
    requires i < j < |c.prefilled|
    ensures Position(c, i) < Position(c, j)
  {
    if i < j - 1 {
      PositionsRise(c, i, j - 1);
    }
  }

  /** The sum of the first `k` offsets. */
  function Offsets(c: Compact, k: nat): nat
    requires k <= |c.prefilled|
  {
    if k == 0 then 0 else Offsets(c, k - 1) + c.prefilled[k - 1].index
  }

  lemma {:induction false} PositionIs(c: Compact, i: nat)
    requires i < |c.prefilled|
    ensures Position(c, i) == i + Offsets(c, i + 1)
  {
    if i > 0 {
      PositionIs(c, i - 1);
    }
  }

  lemma {:induction false} OffsetsGrow(c: Compact, i: nat, j: nat)
    requires i <= j <= |c.prefilled|
    ensures Offsets(c, i) <= Offsets(c, j)
  {
    if i < j {
      OffsetsGrow(c, i, j - 1);
    }
  }

  /** The prefilled transactions are acceptable if and only if none is null, their offsets skip no more slots than
      there are short ids, and the last one has a sixteen-bit position. */
  lemma PlacedIff(c: Compact)
    ensures var n := |c.prefilled|;
      Placed(c, n) <==>
        && (forall i :: 0 <= i < n ==> !c.prefilled[i].tx.isNull)
        && (n > 0 ==> Offsets(c, n) <= |c.shortIds| && n - 1 + Offsets(c, n) <= MAX_INDEX)
  {
    var n := |c.prefilled|;
    forall i | 0 <= i < n
      ensures Position(c, i) == i + Offsets(c, i + 1) && Offsets(c, i + 1) <= Offsets(c, n)
    {
      PositionIs(c, i);
      OffsetsGrow(c, i + 1, n);
    }
    if n > 0 && Placed(c, n) {
      assert PlacedAt(c, n - 1);
      forall i | 0 <= i < n
        ensures !c.prefilled[i].tx.isNull
      {
        assert PlacedAt(c, i);
      }
    }
  }

  lemma LayNext(c: Compact, k: nat)
    requires k < |c.prefilled| && Placed(c, k + 1)
    ensures Position(c, k) < c.TxCount()
    ensures Lay(c, k + 1) == Lay(c, k)[Position(c, k) := Some(c.prefilled[k].tx)]
  {
    assert PlacedAt(c, k);
  }

  lemma LayNone(c: Compact)
    ensures Lay(c, 0) == seq(c.TxCount(), _ => None)
  {
  }

  /** A prefilled transaction stands at its position. */
  lemma {:induction false} LaidAt(c: Compact, k: nat, i: nat)
    requires i < k <= |c.prefilled| && Placed(c, k)
    ensures Position(c, i) < c.TxCount() && Lay(c, k)[Position(c, i)] == Some(c.prefilled[i].tx)
  {
    hide Lay, Position, PlacedAt;
    LayNext(c, k - 1);
    if i < k - 1 {
      LaidAt(c, k - 1, i);
      PositionsRise(c, i, k - 1);
    }
  }

  /** Everything else is empty. */
  lemma {:induction false} LaidFrom(c: Compact, k: nat, p: nat)
    requires k <= |c.prefilled| && Placed(c, k) && p < c.TxCount() && Lay(c, k)[p].Some?
    ensures exists i :: 0 <= i < k && Position(c, i) == p
  {
    hide Lay, Position, PlacedAt;
    if k == 0 {
      LayNone(c);
      assert false;
    } else {
      LayNext(c, k - 1);
      if Position(c, k - 1) != p {
        LaidFrom(c, k - 1, p);
      }
    }
  }

  /** The prefilled transactions stand at their positions and everything else is empty. */
  lemma LayAt(c: Compact, k: nat)
    requires k <= |c.prefilled| && Placed(c, k)
    ensures forall i :: 0 <= i < k ==> Position(c, i) < c.TxCount() && Lay(c, k)[Position(c, i)] == Some(c.prefilled[i].tx)
    ensures forall p :: 0 <= p < c.TxCount() && Lay(c, k)[p].Some? ==> exists i :: 0 <= i < k && Position(c, i) == p
  {
    hide Lay, Position, PlacedAt;
    forall i | 0 <= i < k
      ensures Position(c, i) < c.TxCount() && Lay(c, k)[Position(c, i)] == Some(c.prefilled[i].tx)
    {
      LaidAt(c, k, i);
    }
    forall p | 0 <= p < c.TxCount() && Lay(c, k)[p].Some?
      ensures exists i :: 0 <= i < k && Position(c, i) == p
    {
      LaidFrom(c, k, p);
    }
  }

  // ----- Gaps -----

  /** Every empty slot is listed, once, in order. */
  lemma {:induction false} GapsAre(s: Slots)
    ensures forall i, j :: 0 <= i < j < |Gaps(s)| ==> Gaps(s)[i] < Gaps(s)[j]
    ensures forall p :: 0 <= p < |s| && s[p].None? ==> p in Gaps(s)
  {
    if s != [] {
      var n := |s| - 1;
      GapsAre(s[..n]);
      forall p | 0 <= p < |s| && s[p].None?
        ensures p in Gaps(s)
      {
        if p < n {
          assert s[..n][p] == s[p];
        } else {
          assert Gaps(s)[|Gaps(s)| - 1] == n;
        }
      }
    }
  }

  /** The first `p` slots hold the first of the gaps. */
  lemma {:induction false} GapsPrefix(s: Slots, p: nat)
    requires p <= |s|
    ensures |Gaps(s[..p])| <= |Gaps(s)| && Gaps(s[..p]) == Gaps(s)[..|Gaps(s[..p])|]
    decreases |s|
  {
    if p == |s| {
      assert s[..p] == s;
    } else {
      var n := |s| - 1;
      GapsPrefix(s[..n], p);
      assert s[..n][..p] == s[..p];
    }
  }

  lemma GapNumber(s: Slots, p: nat, i: nat)
    requires p < |s| && s[p].None? && |Gaps(s[..p])| == i
    ensures i < |Gaps(s)| && Gaps(s)[i] == p
  {
    GapsPrefix(s, p + 1);
    assert s[..p + 1][..p] == s[..p];
    assert Gaps(s[..p + 1]) == Gaps(s[..p]) + [p];
  }

  lemma GapStep(s: Slots, p: nat)
    requires p < |s|
    ensures Gaps(s[..p + 1]) == Gaps(s[..p]) + if s[p].None? then [p] else []
  {
    assert s[..p + 1][..p] == s[..p];
  }

  /** A stretch of slots has no more filled ones than the whole. */
  lemma {:induction false} FilledWithin(s: Slots, p: nat)
    requires p <= |s|
    ensures p - |Gaps(s[..p])| <= |s| - |Gaps(s)|
    decreases |s| - p
  {
    if p == |s| {
      assert s[..p] == s;
    } else {
      GapStep(s, p);
      FilledWithin(s, p + 1);
    }
  }

  lemma {:induction false} GapsUpdate(s: Slots, p: nat, x: Tx)
    requires p < |s| && s[p].None?
    ensures |Gaps(s[p := Some(x)])| == |Gaps(s)| - 1
    decreases |s|
  {
    var n := |s| - 1;
    var t := s[p := Some(x)];
    if p == n {
      assert t[..n] == s[..n];
    } else {
      GapsUpdate(s[..n], p, x);
      assert t[..n] == s[..n][p := Some(x)];
    }
  }

  lemma {:induction false} AllGaps(n: nat)
    ensures |Gaps(seq(n, _ => None))| == n
  {
    if n > 0 {
      AllGaps(n - 1);
      var s: Slots := seq(n, _ => None);
      assert s[..n - 1] == seq(n - 1, _ => None);
    }
  }

  lemma NextIsFree(c: Compact, k: nat)
    requires k < |c.prefilled| && Placed(c, k + 1)
    ensures Position(c, k) < c.TxCount() && Lay(c, k)[Position(c, k)].None?
    ensures Lay(c, k + 1) == Lay(c, k)[Position(c, k) := Some(c.prefilled[k].tx)]
  {
    hide Lay;
    assert PlacedAt(c, k);
    LayAt(c, k);
    forall i | 0 <= i < k
      ensures Position(c, i) != Position(c, k)
    {
      PositionsRise(c, i, k);
    }
    LayNext(c, k);
  }

  /** Each prefilled transaction takes one gap. */
  lemma {:induction false} GapsLeft(c: Compact, k: nat)
    requires k <= |c.prefilled| && Placed(c, k)
    ensures |Gaps(Lay(c, k))| == c.TxCount() - k
  {
    hide Lay, Gaps, Position, PlacedAt;
    if k == 0 {
      LayNone(c);
      AllGaps(c.TxCount());
    } else {
      GapsLeft(c, k - 1);
      NextIsFree(c, k - 1);
      GapsUpdate(Lay(c, k - 1), Position(c, k - 1), c.prefilled[k - 1].tx);
    }
  }

  // ----- Short ids -----

  lemma {:induction false} IndexKeys(ids: seq<int>, gaps: seq<nat>)
    requires |ids| <= |gaps|
    ensures forall id :: id in Index(ids, gaps) <==> id in ids
    ensures |Index(ids, gaps)| <= |ids|
    ensures |Index(ids, gaps)| == |ids| <==> Distinct(ids)
  {
    if ids != [] {
      var n := |ids| - 1;
      var rest := Index(ids[..n], gaps);
      IndexKeys(ids[..n], gaps);
      assert ids == ids[..n] + [ids[n]];
      var m := Index(ids, gaps);
      assert m.Keys == rest.Keys + {ids[n]};
      if ids[n] in ids[..n] {
        var i :| 0 <= i < n && ids[..n][i] == ids[n];
        assert m.Keys == rest.Keys;
        assert !Distinct(ids);
      } else {
        var last := ids[n];
        assert last !in ids[..n] && last !in rest;
        assert last !in rest.Keys;
        assert |m.Keys| == |rest.Keys| + 1;
        assert Distinct(ids[..n]) ==> Distinct(ids);
        if Distinct(ids) {
          assert forall i, j :: 0 <= i < j < n ==> ids[..n][i] == ids[i] && ids[..n][j] == ids[j];
        }
      }
    }
  }

  lemma NoneYet(gaps: seq<nat>)
    ensures Index([], gaps) == map[]
    ensures Gaps([]) == []
  {
  }

  lemma IndexStep(ids: seq<int>, gaps: seq<nat>, i: nat)
    requires i < |ids| <= |gaps|
    ensures Index(ids[..i + 1], gaps) == Index(ids[..i], gaps)[ids[i] := gaps[i]]
  {
    assert ids[..i + 1][..i] == ids[..i];
  }

  /** The i-th short id stands for the i-th slot that is not prefilled. */
  lemma {:induction false} IndexAt(ids: seq<int>, gaps: seq<nat>, i: nat)
    requires i < |ids| <= |gaps| && Distinct(ids)
    ensures ids[i] in Index(ids, gaps) && Index(ids, gaps)[ids[i]] == gaps[i]
  {
    var n := |ids| - 1;
    if i < n {
      assert Distinct(ids[..n]) by {
        assert forall a, b :: 0 <= a < b < n ==> ids[..n][a] == ids[a] && ids[..n][b] == ids[b];
      }
      IndexAt(ids[..n], gaps, i);
      assert ids[..n][i] == ids[i];
    }
  }

  lemma {:induction false} IndexFrom(ids: seq<int>, gaps: seq<nat>, id: int) returns (i: nat)
    requires |ids| <= |gaps| && id in Index(ids, gaps)
    ensures i < |ids| && ids[i] == id && Index(ids, gaps)[id] == gaps[i]
  {
    var n := |ids| - 1;
    if id == ids[n] {
      i := n;
    } else {
      i := IndexFrom(ids[..n], gaps, id);
    }
  }

  lemma NarrowStep(ids: seq<int>, gaps: seq<nat>, i: nat, p: nat)
    requires i < |ids| <= |gaps| && gaps[i] == p
    ensures Index(ids[..i + 1], Narrow(gaps)) == Index(ids[..i], Narrow(gaps))[ids[i] := p % SLOT_NUMBERS]
  {
    hide Index;
    IndexStep(ids, Narrow(gaps), i);
  }

  lemma NarrowSame(gaps: seq<nat>)
    requires forall i :: 0 <= i < |gaps| ==> gaps[i] < SLOT_NUMBERS
    ensures Narrow(gaps) == gaps
  {
  }

  // ----- What the scans keep, for any compact block -----

  /** Different ids stand for different slots. */
  ghost predicate Apart(m: map<int, nat>) {
    forall a, b :: a in m && b in m && a != b ==> m[a] != m[b]
  }

  ghost function Filled(m: map<int, nat>, w: Work): set<int>
    requires Fits(m, w)
  {
    set id | id in m && w.slots[m[id]].Some?
  }

  /** A filled slot was offered under its short id. */
  ghost predicate Justified(m: map<int, nat>, sid: int -> int, w: Work, id: int, seen: seq<Entry>)
    requires Fits(m, w) && id in m
  {
    w.slots[m[id]].Some? ==>
      w.have[m[id]] && exists e :: e in seen && sid(e.wtxid) == id && w.slots[m[id]] == Some(e.tx)
  }

  ghost predicate Sound(base: Slots, m: map<int, nat>, sid: int -> int, n: int, w: Work, seen: seq<Entry>) {
    && Fits(m, w) && |w.slots| == |base| && Apart(m)
    && (forall p :: 0 <= p < |base| && p !in m.Values ==> w.slots[p] == base[p])
    && (forall id :: id in m ==> Justified(m, sid, w, id, seen))
    && w.count == n + |Filled(m, w)|
  }

  lemma MatchCount(m: map<int, nat>, sid: int -> int, n: int, w: Work, e: Entry, extra: bool)
    requires Fits(m, w) && Apart(m)
    requires forall id :: id in m && w.slots[m[id]].Some? ==> w.have[m[id]]
    requires w.count == n + |Filled(m, w)|
    ensures var r := Match(m, sid, w, e, extra); r.count == n + |Filled(m, r)|
  {
    var id := sid(e.wtxid);
    var r := Match(m, sid, w, e, extra);
    if id in m {
      forall x | x in m && x != id
        ensures x in Filled(m, r) <==> x in Filled(m, w)
      {
        assert m[x] != m[id];
      }
      var p := m[id];
      if !w.have[p] {
        assert id !in Filled(m, w) && id in Filled(m, r);
        assert Filled(m, r) == Filled(m, w) + {id};
      } else if w.slots[p].Some? && (extra ==> w.slots[p].value.wtxid != e.tx.wtxid) {
        assert id in Filled(m, w) && id !in Filled(m, r);
        assert Filled(m, r) == Filled(m, w) - {id};
      }
    }
  }

  lemma MatchJustified(m: map<int, nat>, sid: int -> int, w: Work, seen: seq<Entry>, e: Entry, extra: bool, x: int)
    requires Fits(m, w) && Apart(m) && x in m && Justified(m, sid, w, x, seen)
    ensures Justified(m, sid, Match(m, sid, w, e, extra), x, seen + [e])
  {
    var r := Match(m, sid, w, e, extra);
    if r.slots[m[x]].Some? && r.slots[m[x]] != w.slots[m[x]] {
      assert sid(e.wtxid) == x && e in seen + [e];
    }
  }

  lemma MatchSound(base: Slots, m: map<int, nat>, sid: int -> int, n: int, w: Work, seen: seq<Entry>, e: Entry, extra: bool)
    requires Sound(base, m, sid, n, w, seen)
    ensures Sound(base, m, sid, n, Match(m, sid, w, e, extra), seen + [e])
  {
    hide Apart, Filled;
    var id := sid(e.wtxid);
    var r := Match(m, sid, w, e, extra);
    forall x | x in m
      ensures Justified(m, sid, r, x, seen + [e])
    {
      MatchJustified(m, sid, w, seen, e, extra, x);
    }
    forall x | x in m && w.slots[m[x]].Some?
      ensures w.have[m[x]]
    {
      assert Justified(m, sid, w, x, seen);
    }
    MatchCount(m, sid, n, w, e, extra);
    if id in m {
      assert m[id] in m.Values;
    }
  }

  lemma Unoffered(base: Slots, m: map<int, nat>, sid: int -> int, n: int, w: Work, seen: seq<Entry>, more: seq<Entry>)
    requires Sound(base, m, sid, n, w, seen)
    ensures Sound(base, m, sid, n, w, seen + more)
  {
    forall x | x in m
      ensures Justified(m, sid, w, x, seen + more)
    {
      assert Justified(m, sid, w, x, seen);
    }
  }

  /** Scanning touches no slot without a short id, fills the others only as offered, and counts right. */
  lemma {:induction false} ScanSound(base: Slots, m: map<int, nat>, sid: int -> int, n: int, w: Work, seen: seq<Entry>,
                                     es: seq<Entry>, extra: bool)
    requires Sound(base, m, sid, n, w, seen)
    ensures Sound(base, m, sid, n, Scan(m, sid, w, es, extra), seen + es)
    decreases es
  {
    hide Sound, Match;
    assert Fits(m, w) by { SoundFits(base, m, sid, n, w, seen); }
    if es == [] {
      assert seen + es == seen;
    } else {
      var r := Match(m, sid, w, es[0], extra);
      MatchSound(base, m, sid, n, w, seen, es[0], extra);
      assert seen + [es[0]] + es[1..] == seen + es;
      if r.count == |m| {
        Unoffered(base, m, sid, n, r, seen + [es[0]], es[1..]);
      } else {
        ScanSound(base, m, sid, n, r, seen + [es[0]], es[1..], extra);
      }
    }
  }

  lemma SoundFits(base: Slots, m: map<int, nat>, sid: int -> int, n: int, w: Work, seen: seq<Entry>)
    requires Sound(base, m, sid, n, w, seen)
    ensures Fits(m, w)
  {
  }

  /** The count has grown by as many as there are short ids exactly when nothing is missing. */
  lemma CountFull(base: Slots, m: map<int, nat>, sid: int -> int, n: int, w: Work, seen: seq<Entry>)
    requires Sound(base, m, sid, n, w, seen)
    ensures w.count == n + |m| <==> forall id :: id in m ==> w.slots[m[id]].Some?
    ensures n <= w.count <= n + |m|
  {
    assert Filled(m, w) <= m.Keys;
    Sets.SubsetCard(Filled(m, w), m.Keys);
    if w.count == n + |m| {
      assert Filled(m, w) == m.Keys;
      forall id | id in m
        ensures w.slots[m[id]].Some?
      {
        assert id in Filled(m, w);
      }
    }
    if forall id :: id in m ==> w.slots[m[id]].Some? {
      assert Filled(m, w) == m.Keys;
    }
  }

  // ----- Any compact block -----

  /** A compact block whose short ids can be told apart and whose slots can be numbered. */
  ghost predicate Proper(c: Compact) {
    Placed(c, |c.prefilled|) && Distinct(c.shortIds) && c.TxCount() <= SLOT_NUMBERS
  }

  /** Whatever the short ids, the map leads to slots that exist. */
  lemma IdsFit(c: Compact, count: int)
    requires Placed(c, |c.prefilled|)
    ensures |Gaps(Lay(c, |c.prefilled|))| == |c.shortIds| && Fits(Ids(c), Start(c, count))
  {
    hide Index, Lay;
    GapsLeft(c, |c.prefilled|);
    var gaps := Gaps(Lay(c, |c.prefilled|));
    forall id | id in Ids(c)
      ensures Ids(c)[id] < c.TxCount()
    {
      var i := IndexFrom(c.shortIds, Narrow(gaps), id);
      assert gaps[i] % SLOT_NUMBERS <= gaps[i];
    }
  }

  /** The map from short ids to slots is well defined, one slot each, none of them prefilled. */
  lemma IdsAre(c: Compact)
    requires Proper(c)
    ensures |Gaps(Lay(c, |c.prefilled|))| == |c.shortIds|
    ensures Apart(Ids(c)) && |Ids(c)| == |c.shortIds|
    ensures forall id :: id in Ids(c) ==> Ids(c)[id] < c.TxCount() && Lay(c, |c.prefilled|)[Ids(c)[id]].None?
    ensures forall id :: id in Ids(c) <==> id in c.shortIds
    ensures forall i :: 0 <= i < |c.shortIds| ==>
              c.shortIds[i] in Ids(c) && Ids(c)[c.shortIds[i]] == Gaps(Lay(c, |c.prefilled|))[i]
  {
    hide Lay, Gaps, Index;
    var s := Lay(c, |c.prefilled|);
    GapsLeft(c, |c.prefilled|);
    var gaps := Gaps(s);
    GapsAre(s);
    NarrowSame(gaps);
    IndexKeys(c.shortIds, gaps);
    forall i | 0 <= i < |c.shortIds|
      ensures c.shortIds[i] in Ids(c) && Ids(c)[c.shortIds[i]] == gaps[i]
    {
      IndexAt(c.shortIds, gaps, i);
    }
    forall a, b | a in Ids(c) && b in Ids(c) && a != b
      ensures Ids(c)[a] != Ids(c)[b]
    {
      var i := IndexFrom(c.shortIds, gaps, a);
      var j := IndexFrom(c.shortIds, gaps, b);
    }
    forall id | id in Ids(c)
      ensures Ids(c)[id] < c.TxCount() && s[Ids(c)[id]].None?
    {
      var i := IndexFrom(c.shortIds, gaps, id);
    }
  }

  lemma FarSlot(c: Compact)
    requires Placed(c, |c.prefilled|) && c.TxCount() > SLOT_NUMBERS
    ensures c.TxCount() - 1 in Gaps(Lay(c, |c.prefilled|))
  {
    hide Lay, Gaps;
    var s, p := Lay(c, |c.prefilled|), c.TxCount() - 1;
    forall i | 0 <= i < |c.prefilled|
      ensures Position(c, i) != p
    {
      assert PlacedAt(c, i);
    }
    LayAt(c, |c.prefilled|);
    GapsAre(s);
  }

  /** Every short id leads to its own slot exactly when sixteen bits can number the slots. */
  lemma OwnSlots(c: Compact)
    requires Placed(c, |c.prefilled|) && Distinct(c.shortIds)
    ensures |Gaps(Lay(c, |c.prefilled|))| == |c.shortIds|
    ensures (forall i :: 0 <= i < |c.shortIds| ==>
               c.shortIds[i] in Ids(c) && Ids(c)[c.shortIds[i]] == Gaps(Lay(c, |c.prefilled|))[i])
        <==> c.TxCount() <= SLOT_NUMBERS
  {
    hide Lay, Gaps, Index;
    if c.TxCount() <= SLOT_NUMBERS {
      IdsAre(c);
    } else {
      GapsLeft(c, |c.prefilled|);
      var gaps := Gaps(Lay(c, |c.prefilled|));
      FarSlot(c);
      var i :| 0 <= i < |gaps| && gaps[i] == c.TxCount() - 1;
      IndexAt(c.shortIds, Narrow(gaps), i);
      assert Ids(c)[c.shortIds[i]] == gaps[i] % SLOT_NUMBERS < gaps[i];
    }
  }

  lemma PrefilledFew(c: Compact)
    requires Placed(c, |c.prefilled|)
    ensures |c.prefilled| <= SLOT_NUMBERS
  {
    if c.prefilled != [] {
      assert PlacedAt(c, |c.prefilled| - 1);
    }
  }

  lemma StartSound(c: Compact, n: int)
    requires Proper(c)
    ensures |Gaps(Lay(c, |c.prefilled|))| == |c.shortIds|
    ensures Sound(Lay(c, |c.prefilled|), Ids(c), c.sid, n, Start(c, n), [])
  {
    hide Ids;
    IdsAre(c);
    var m, w := Ids(c), Start(c, n);
    assert Fits(m, w);
    forall id | id in m
      ensures w.slots[m[id]].None?
    {
    }
    assert Filled(m, w) == {};
  }

  lemma FinalSound(c: Compact, n: int, pool: seq<Entry>, extra: seq<Entry>)
    requires Proper(c)
    ensures |Gaps(Lay(c, |c.prefilled|))| == |c.shortIds| && Fits(Ids(c), Start(c, n))
    ensures Sound(Lay(c, |c.prefilled|), Ids(c), c.sid, n, Final(c, n, pool, extra), pool + extra)
  {
    hide Ids, Scan, Sound;
    StartSound(c, n);
    var base, m := Lay(c, |c.prefilled|), Ids(c);
    SoundFits(base, m, c.sid, n, Start(c, n), []);
    var w := Scan(m, c.sid, Start(c, n), pool, false);
    ScanSound(base, m, c.sid, n, Start(c, n), [], pool, false);
    assert [] + pool == pool;
    ScanSound(base, m, c.sid, n, w, pool, extra, true);
  }

  lemma PrefilledApart(c: Compact, i: nat)
    requires Proper(c) && i < |c.prefilled|
    ensures |Gaps(Lay(c, |c.prefilled|))| == |c.shortIds|
    ensures Position(c, i) < c.TxCount() && Position(c, i) !in Ids(c).Values
    ensures Lay(c, |c.prefilled|)[Position(c, i)] == Some(c.prefilled[i].tx)
  {
    hide Ids;
    IdsAre(c);
    LayAt(c, |c.prefilled|);
    var m := Ids(c);
    forall id | id in m
      ensures m[id] != Position(c, i)
    {
    }
  }

  /**
   After InitData, with whatever count it began, prefilled slots hold the prefilled transactions,
   the i-th slot that is not prefilled holds nothing or a transaction offered under the i-th
   short id, and the count has grown by the number of the latter.
   */
  lemma SlotsFilled(c: Compact, n: int, pool: seq<Entry>, extra: seq<Entry>)
    requires Proper(c)
    ensures |Gaps(Lay(c, |c.prefilled|))| == |c.shortIds| && Fits(Ids(c), Start(c, n))
    ensures var gaps, f := Gaps(Lay(c, |c.prefilled|)), Final(c, n, pool, extra);
      && |f.slots| == c.TxCount() && Fits(Ids(c), f)
      && (forall i :: 0 <= i < |c.prefilled| ==>
            Position(c, i) < c.TxCount() && f.slots[Position(c, i)] == Some(c.prefilled[i].tx))
      && (forall i :: 0 <= i < |gaps| && f.slots[gaps[i]].Some? ==>
            exists e :: e in pool + extra && c.sid(e.wtxid) == c.shortIds[i] && f.slots[gaps[i]] == Some(e.tx))
      && f.count == n + |Filled(Ids(c), f)|
  {
    hide Ids, Final, Filled, Apart, Lay, Gaps;
    FinalSound(c, n, pool, extra);
    var base, m, f := Lay(c, |c.prefilled|), Ids(c), Final(c, n, pool, extra);
    forall i | 0 <= i < |c.prefilled|
      ensures Position(c, i) < c.TxCount() && f.slots[Position(c, i)] == Some(c.prefilled[i].tx)
    {
      PrefilledApart(c, i);
    }
    var gaps := Gaps(base);
    IdsAre(c);
    forall i | 0 <= i < |gaps| && f.slots[gaps[i]].Some?
      ensures exists e :: e in pool + extra && c.sid(e.wtxid) == c.shortIds[i] && f.slots[gaps[i]] == Some(e.tx)
    {
      assert Justified(m, c.sid, f, c.shortIds[i], pool + extra);
    }
  }

  // ----- An honest compact block -----

  /** Nothing listed shares a short id with a transaction of the block, other than that transaction. */
  ghost predicate Faithful(b: Block, sid: int -> int, es: seq<Entry>) {
    forall e, p :: e in es && 0 < p < |b.vtx| && sid(e.wtxid) == sid(b.vtx[p].wtxid) ==>
      e.wtxid == b.vtx[p].wtxid && e.tx == b.vtx[p]
  }

  /** No witness hash is listed twice. */
  ghost predicate Once(es: seq<Entry>) {
    forall i, j :: 0 <= i < j < |es| ==> es[i].wtxid != es[j].wtxid
  }

  ghost predicate Offers(es: seq<Entry>, wtxid: int) {
    exists e :: e in es && e.wtxid == wtxid
  }

  /** The ids are those of the block's transactions after the first. */
  ghost predicate Stands(b: Block, sid: int -> int, m: map<int, nat>) {
    && (forall p :: 0 < p < |b.vtx| ==> sid(b.vtx[p].wtxid) in m && m[sid(b.vtx[p].wtxid)] == p)
    && (forall id :: id in m ==> 0 < m[id] < |b.vtx| && id == sid(b.vtx[m[id]].wtxid))
  }

  /** Exactly the transactions offered so far are in their slots. */
  ghost predicate ExactAt(b: Block, w: Work, p: nat, seen: seq<Entry>)
    requires |w.have| == |w.slots| == |b.vtx| && p < |b.vtx|
  {
    && w.slots[p] == (if w.have[p] then Some(b.vtx[p]) else None)
    && (w.have[p] <==> Offers(seen, b.vtx[p].wtxid))
  }

  ghost predicate Exact(b: Block, m: map<int, nat>, w: Work, seen: seq<Entry>) {
    && Fits(m, w) && |w.slots| == |b.vtx|
    && forall p :: 0 < p < |b.vtx| ==> ExactAt(b, w, p, seen)
  }

  lemma OffersMore(seen: seq<Entry>, e: Entry, wtxid: int)
    ensures Offers(seen + [e], wtxid) <==> Offers(seen, wtxid) || e.wtxid == wtxid
  {
    if Offers(seen, wtxid) {
      var x :| x in seen && x.wtxid == wtxid;
      assert x in seen + [e];
    }
    if e.wtxid == wtxid {
      assert e in seen + [e];
    }
  }

  lemma MatchExact(b: Block, sid: int -> int, m: map<int, nat>, w: Work, seen: seq<Entry>, e: Entry, extra: bool)
    requires Exact(b, m, w, seen) && Stands(b, sid, m) && Faithful(b, sid, [e])
    requires extra || !Offers(seen, e.wtxid)
    ensures Exact(b, m, Match(m, sid, w, e, extra), seen + [e])
  {
    var id := sid(e.wtxid);
    var r := Match(m, sid, w, e, extra);
    assert e in [e];
    forall p | 0 < p < |b.vtx|
      ensures ExactAt(b, r, p, seen + [e])
    {
      assert ExactAt(b, w, p, seen);
      OffersMore(seen, e, b.vtx[p].wtxid);
      if id in m && m[id] == p {
        assert e.wtxid == b.vtx[p].wtxid && e.tx == b.vtx[p];
      } else if e.wtxid == b.vtx[p].wtxid {
        assert false;
      }
    }
  }

  /** When every slot is full, what is still to come changes nothing. */
  lemma FullExact(b: Block, sid: int -> int, m: map<int, nat>, w: Work, seen: seq<Entry>, more: seq<Entry>)
    requires Exact(b, m, w, seen) && Stands(b, sid, m)
    requires forall id :: id in m ==> w.slots[m[id]].Some?
    ensures Exact(b, m, w, seen + more)
  {
    forall p | 0 < p < |b.vtx|
      ensures ExactAt(b, w, p, seen + more)
    {
      assert ExactAt(b, w, p, seen);
      var id := sid(b.vtx[p].wtxid);
      assert id in m && m[id] == p;
      var e :| e in seen && e.wtxid == b.vtx[p].wtxid;
      assert e in seen + more;
    }
  }

  lemma NotYet(seen: seq<Entry>, es: seq<Entry>)
    requires es != [] && Once(seen + es)
    ensures !Offers(seen, es[0].wtxid)
  {
    forall x | x in seen
      ensures x.wtxid != es[0].wtxid
    {
      var i :| 0 <= i < |seen| && seen[i] == x;
      assert (seen + es)[i] == x && (seen + es)[|seen|] == es[0];
    }
  }

  /** Stopping when the count equals the number of short ids loses nothing. */
  ghost predicate Harmless(c: Compact, n: int) {
    n == 0 || n > |c.shortIds| || (n == |c.shortIds| && forall w: int :: c.sid(w) in c.shortIds)
  }

  lemma OfferedIsFilled(b: Block, sid: int -> int, m: map<int, nat>, w: Work, seen: seq<Entry>, e: Entry)
    requires Exact(b, m, w, seen) && Stands(b, sid, m) && Faithful(b, sid, [e]) && e in seen && sid(e.wtxid) in m
    ensures sid(e.wtxid) in Filled(m, w)
  {
    var id := sid(e.wtxid);
    var p := m[id];
    assert id == sid(b.vtx[p].wtxid);
    assert e in [e];
    assert ExactAt(b, w, p, seen);
    assert Offers(seen, b.vtx[p].wtxid);
  }

  /** With a harmless count the scan stops early only when every slot is full. */
  lemma StopsFull(b: Block, c: Compact, base: Slots, n: nat, w: Work, seen: seq<Entry>, e: Entry)
    requires Proper(c) && |Gaps(Lay(c, |c.prefilled|))| == |c.shortIds| && Harmless(c, n)
    requires Sound(base, Ids(c), c.sid, n, w, seen) && Exact(b, Ids(c), w, seen)
    requires Stands(b, c.sid, Ids(c)) && Faithful(b, c.sid, [e]) && e in seen && w.count == |Ids(c)|
    ensures forall id :: id in Ids(c) ==> w.slots[Ids(c)[id]].Some?
  {
    hide Ids, Apart, Justified, Filled, Exact, Faithful, Stands;
    var m := Ids(c);
    IdsAre(c);
    if n == |m| && n != 0 {
      OfferedIsFilled(b, c.sid, m, w, seen, e);
    }
    CountFull(base, m, c.sid, n, w, seen);
  }

  lemma {:induction false} ScanExact(b: Block, c: Compact, base: Slots, n: nat, w: Work, seen: seq<Entry>,
                                     es: seq<Entry>, extra: bool)
    requires Proper(c) && |Gaps(Lay(c, |c.prefilled|))| == |c.shortIds| && Harmless(c, n)
    requires Sound(base, Ids(c), c.sid, n, w, seen)
    requires Exact(b, Ids(c), w, seen) && Stands(b, c.sid, Ids(c)) && Faithful(b, c.sid, es)
    requires extra || Once(seen + es)
    ensures Exact(b, Ids(c), Scan(Ids(c), c.sid, w, es, extra), seen + es)
    decreases es
  {
    hide Sound, Match, Stands, Ids, Harmless, Gaps, Lay;
    var m, sid := Ids(c), c.sid;
    if es == [] {
      assert seen + es == seen;
    } else {
      var e := es[0];
      var r := Match(m, sid, w, e, extra);
      assert seen + [e] + es[1..] == seen + es;
      if !extra {
        NotYet(seen, es);
      }
      MatchExact(b, sid, m, w, seen, e, extra);
      MatchSound(base, m, sid, n, w, seen, e, extra);
      if r.count == |m| {
        assert e in seen + [e];
        StopsFull(b, c, base, n, r, seen + [e], e);
        FullExact(b, sid, m, r, seen + [e], es[1..]);
      } else {
        ScanExact(b, c, base, n, r, seen + [e], es[1..], extra);
      }
    }
  }

  /** A block that can be sent compactly. */
  ghost predicate Sendable(b: Block, sid: int -> int) {
    b.vtx != [] && !b.vtx[0].isNull && |b.vtx| <= SLOT_NUMBERS && Distinct(FromBlock(b, sid).shortIds)
  }

  /** The compact block of a block: the coinbase is in place and the rest are gaps in order. */
  lemma HonestLay(b: Block, sid: int -> int)
    requires b.vtx != [] && !b.vtx[0].isNull
    ensures var c := FromBlock(b, sid);
      && Placed(c, 1) && c.TxCount() == |b.vtx|
      && Lay(c, 1)[0] == Some(b.vtx[0]) && (forall p :: 0 < p < |b.vtx| ==> Lay(c, 1)[p].None?)
      && Gaps(Lay(c, 1)) == seq(|b.vtx| - 1, i => i + 1)
  {
    var c := FromBlock(b, sid);
    assert Position(c, 0) == 0;
    assert PlacedAt(c, 0);
    var s := Lay(c, 1);
    assert s == Lay(c, 0)[0 := Some(b.vtx[0])];
    HonestGaps(s, |b.vtx|);
    assert s[..|b.vtx|] == s;
  }

  lemma {:induction false} HonestGaps(s: Slots, n: nat)
    requires 0 < n <= |s| && s[0].Some? && forall p :: 0 < p < |s| ==> s[p].None?
    ensures Gaps(s[..n]) == seq(n - 1, i => i + 1)
  {
    if n > 1 {
      HonestGaps(s, n - 1);
      GapStep(s, n - 1);
    } else {
      GapStep(s, 0);
      assert s[..0] == [];
    }
  }

  lemma HonestIds(b: Block, sid: int -> int)
    requires Sendable(b, sid)
    ensures var c := FromBlock(b, sid);
      Proper(c) && |Gaps(Lay(c, 1))| == |c.shortIds| && Stands(b, sid, Ids(c))
  {
    var c := FromBlock(b, sid);
    HonestLay(b, sid);
    IdsAre(c);
    var m := Ids(c);
    forall p | 0 < p < |b.vtx|
      ensures sid(b.vtx[p].wtxid) in m && m[sid(b.vtx[p].wtxid)] == p
    {
      assert c.shortIds[p - 1] == sid(b.vtx[p].wtxid);
    }
    forall id | id in m
      ensures 0 < m[id] < |b.vtx| && id == sid(b.vtx[m[id]].wtxid)
    {
      assert id in c.shortIds;
      var i :| 0 <= i < |c.shortIds| && c.shortIds[i] == id;
      assert c.shortIds[i] == sid(b.vtx[i + 1].wtxid);
    }
  }

  /** The slots after InitData with the count at `n`. */
  ghost function SlotsFrom(b: Block, sid: int -> int, n: nat, pool: seq<Entry>, extra: seq<Entry>): (s: Slots)
    requires Sendable(b, sid)
  {
    var c := FromBlock(b, sid);
    HonestIds(b, sid);
    IdsFit(c, n);
    Final(c, n, pool, extra).slots
  }

  /** Exactly the coinbase and the transactions listed are in their slots, and nothing else is in any. */
  ghost predicate AllFound(b: Block, s: Slots, listed: seq<Entry>) {
    && |s| == |b.vtx|
    && forall p :: 0 <= p < |b.vtx| ==>
         s[p] == (if p == 0 || Offers(listed, b.vtx[p].wtxid) then Some(b.vtx[p]) else None)
  }

  /** Whatever the count, no slot holds anything but the block's own transaction. */
  lemma OwnOrNothing(b: Block, sid: int -> int, n: nat, pool: seq<Entry>, extra: seq<Entry>)
    requires Sendable(b, sid) && Faithful(b, sid, pool) && Faithful(b, sid, extra)
    ensures var s := SlotsFrom(b, sid, n, pool, extra);
      && |s| == |b.vtx| && s[0] == Some(b.vtx[0])
      && forall p :: 0 < p < |b.vtx| && s[p].Some? ==> s[p].value == b.vtx[p] && Offers(pool + extra, b.vtx[p].wtxid)
  {
    hide Ids, Final, Gaps, Lay, Filled;
    var c := FromBlock(b, sid);
    HonestIds(b, sid);
    HonestLay(b, sid);
    SlotsFilled(c, n, pool, extra);
    assert Position(c, 0) == 0;
    var s, gaps := SlotsFrom(b, sid, n, pool, extra), Gaps(Lay(c, 1));
    forall p | 0 < p < |b.vtx| && s[p].Some?
      ensures s[p].value == b.vtx[p] && Offers(pool + extra, b.vtx[p].wtxid)
    {
      assert gaps[p - 1] == p && c.shortIds[p - 1] == sid(b.vtx[p].wtxid);
      var e :| e in pool + extra && sid(e.wtxid) == c.shortIds[p - 1] && s[p] == Some(e.tx);
      assert e in pool || e in extra;
    }
  }

  /**
   From the compact block of a block, with a harmless count, exactly the coinbase and the
   transactions found in the mempool or among the extra ones are in their slots.
   */
  lemma HonestSlots(b: Block, sid: int -> int, n: nat, pool: seq<Entry>, extra: seq<Entry>)
    requires Sendable(b, sid) && Harmless(FromBlock(b, sid), n)
    requires Faithful(b, sid, pool) && Faithful(b, sid, extra) && Once(pool)
    ensures AllFound(b, SlotsFrom(b, sid, n, pool, extra), pool + extra)
  {
    hide Sound, Match, Scan, Ids, Harmless, Faithful, Once;
    var c := FromBlock(b, sid);
    HonestLay(b, sid);
    HonestIds(b, sid);
    StartSound(c, n);
    var m, base, w0 := Ids(c), Lay(c, 1), Start(c, n);
    assert Fits(m, w0) by { SoundFits(base, m, sid, n, w0, []); }
    assert Exact(b, m, w0, []);
    assert [] + pool == pool;
    var w1 := Scan(m, sid, w0, pool, false);
    ScanExact(b, c, base, n, w0, [], pool, false);
    ScanSound(base, m, sid, n, w0, [], pool, false);
    var f := Scan(m, sid, w1, extra, true);
    ScanExact(b, c, base, n, w1, pool, extra, true);
    OwnOrNothing(b, sid, n, pool, extra);
    forall p | 0 < p < |b.vtx|
      ensures f.slots[p] == (if Offers(pool + extra, b.vtx[p].wtxid) then Some(b.vtx[p]) else None)
    {
      assert ExactAt(b, f, p, pool + extra);
    }
  }

  ghost function FilledBelow(m: map<int, nat>, s: Slots, p: nat): set<int> {
    set id | id in m && m[id] < p && m[id] < |s| && s[m[id]].Some?
  }

  lemma FilledStep(b: Block, sid: int -> int, m: map<int, nat>, s: Slots, p: nat)
    requires Stands(b, sid, m) && 0 < p < |s| == |b.vtx|
    ensures |FilledBelow(m, s, p + 1)| == |FilledBelow(m, s, p)| + if s[p].Some? then 1 else 0
  {
    var id := sid(b.vtx[p].wtxid);
    assert m[id] == p;
    var low, all := FilledBelow(m, s, p), FilledBelow(m, s, p + 1);
    assert id !in low;
    forall x | x in m
      ensures x in all <==> x in low || (x == id && s[p].Some?)
    {
      assert x == sid(b.vtx[m[x]].wtxid);
    }
    assert all == low + if s[p].Some? then {id} else {};
  }

  /** Every slot but the coinbase's is either filled under its short id or a gap. */
  lemma {:induction false} FilledOrGap(b: Block, sid: int -> int, m: map<int, nat>, s: Slots, p: nat)
    requires Stands(b, sid, m) && 0 < p <= |s| == |b.vtx| && s[0].Some?
    ensures |FilledBelow(m, s, p)| + |Gaps(s[..p])| == p - 1
  {
    hide Gaps;
    GapStep(s, p - 1);
    if p == 1 {
      NoGaps(s);
      forall id | id in m
        ensures m[id] > 0
      {
      }
      assert FilledBelow(m, s, 1) == {};
    } else {
      hide Stands, FilledBelow;
      FilledOrGap(b, sid, m, s, p - 1);
      FilledStep(b, sid, m, s, p - 1);
    }
  }

  /** What the receiver of an honest compact block is left with. */
  lemma Received(b: Block, sid: int -> int, n: nat, pool: seq<Entry>, extra: seq<Entry>)
    requires Sendable(b, sid)
    ensures var c := FromBlock(b, sid);
      && Proper(c) && |Gaps(Lay(c, 1))| == |c.shortIds| && Fits(Ids(c), Start(c, n))
      && var f := Final(c, n, pool, extra);
        && |f.slots| == |b.vtx| && f.slots == SlotsFrom(b, sid, n, pool, extra)
        && f.count == n + |b.vtx| - 1 - |Gaps(f.slots)|
  {
    hide Final, Gaps, Lay, Ids, Stands;
    var c := FromBlock(b, sid);
    HonestIds(b, sid);
    HonestLay(b, sid);
    IdsFit(c, n);
    SlotsFilled(c, n, pool, extra);
    var f, m := Final(c, n, pool, extra), Ids(c);
    assert Position(c, 0) == 0;
    FilledOrGap(b, sid, m, f.slots, |b.vtx|);
    assert f.slots[..|b.vtx|] == f.slots;
    forall id | id in m
      ensures id in FilledBelow(m, f.slots, |b.vtx|) <==> id in Filled(m, f)
    {
      assert m[id] < |f.slots|;
    }
    assert FilledBelow(m, f.slots, |b.vtx|) == Filled(m, f);
  }

  /** The gaps left with a harmless count are the transactions not listed. */
  lemma Unlisted(b: Block, s: Slots, listed: seq<Entry>, p: nat)
    requires AllFound(b, s, listed) && 0 < p < |b.vtx|
    ensures p in Gaps(s) <==> !Offers(listed, b.vtx[p].wtxid)
  {
    GapsAre(s);
  }

  // ----- When the count may be left over from an earlier block -----

  /** A scan that starts below the number of short ids stops at that number. */
  lemma {:induction false} ScanCap(m: map<int, nat>, sid: int -> int, w: Work, es: seq<Entry>, extra: bool)
    requires Fits(m, w) && w.count < |m|
    ensures Scan(m, sid, w, es, extra).count <= |m|
    decreases es
  {
    if es != [] {
      var r := Match(m, sid, w, es[0], extra);
      if r.count != |m| {
        ScanCap(m, sid, r, es[1..], extra);
      }
    }
  }

  /** The block's own transactions, listed as they stand. */
  ghost function OwnPool(b: Block): seq<Entry>
    requires b.vtx != []
  {
    seq(|b.vtx| - 1, i requires 0 <= i < |b.vtx| - 1 => Entry(b.vtx[i + 1].wtxid, b.vtx[i + 1]))
  }

  lemma OwnPoolAt(b: Block, sid: int -> int, e: Entry) returns (i: nat)
    requires b.vtx != [] && e in OwnPool(b)
    ensures i < |b.vtx| - 1 && e == Entry(b.vtx[i + 1].wtxid, b.vtx[i + 1]) && FromBlock(b, sid).shortIds[i] == sid(e.wtxid)
  {
    var es := OwnPool(b);
    i :| 0 <= i < |es| && es[i] == e;
  }

  lemma OwnPoolFaithful(b: Block, sid: int -> int)
    requires Sendable(b, sid)
    ensures Faithful(b, sid, OwnPool(b))
  {
    hide OwnPool;
    var ids := FromBlock(b, sid).shortIds;
    forall e, p | e in OwnPool(b) && 0 < p < |b.vtx| && sid(e.wtxid) == sid(b.vtx[p].wtxid)
      ensures e.wtxid == b.vtx[p].wtxid && e.tx == b.vtx[p]
    {
      var i := OwnPoolAt(b, sid, e);
      assert ids[p - 1] == sid(b.vtx[p].wtxid);
    }
  }

  lemma OwnPoolOnce(b: Block, sid: int -> int)
    requires Sendable(b, sid)
    ensures Once(OwnPool(b))
  {
    var es, ids := OwnPool(b), FromBlock(b, sid).shortIds;
    forall i, j | 0 <= i < j < |es|
      ensures es[i].wtxid != es[j].wtxid
    {
      assert ids[i] == sid(es[i].wtxid) && ids[j] == sid(es[j].wtxid);
    }
  }

  lemma OwnPoolOffers(b: Block, p: nat)
    requires 0 < p < |b.vtx|
    ensures Offers(OwnPool(b), b.vtx[p].wtxid)
  {
    assert OwnPool(b)[p - 1] == Entry(b.vtx[p].wtxid, b.vtx[p]);
  }

  /** A left-over count below the number of short ids: the block's own transactions are not all found. */
  lemma SmallCountLoses(b: Block, sid: int -> int, n: nat)
    requires Sendable(b, sid) && 0 < n < |b.vtx| - 1
    ensures !AllFound(b, SlotsFrom(b, sid, n, OwnPool(b), []), OwnPool(b) + [])
  {
    hide Scan, Ids, Gaps, Lay, Offers, Apart, Justified, Filled;
    var c, pool := FromBlock(b, sid), OwnPool(b);
    HonestIds(b, sid);
    HonestLay(b, sid);
    IdsAre(c);
    FinalSound(c, n, pool, []);
    var m, f := Ids(c), Final(c, n, pool, []);
    ScanCap(m, sid, Start(c, n), pool, false);
    NothingMore(m, sid, Scan(m, sid, Start(c, n), pool, false));
    CountFull(Lay(c, 1), m, sid, n, f, pool + []);
    assert pool + [] == pool;
    var id :| id in m && f.slots[m[id]].None?;
    OwnPoolOffers(b, m[id]);
  }

  lemma NothingMore(m: map<int, nat>, sid: int -> int, w: Work)
    requires Fits(m, w)
    ensures Scan(m, sid, w, [], true) == w
  {
  }

  /** With the count at the number of short ids, a first entry that matches none of them ends the scan. */
  lemma StopsAtOnce(b: Block, sid: int -> int, n: nat, pool: seq<Entry>)
    requires Sendable(b, sid) && n == |b.vtx| - 1 && pool != []
    requires sid(pool[0].wtxid) !in FromBlock(b, sid).shortIds
    ensures SlotsFrom(b, sid, n, pool, []) == Lay(FromBlock(b, sid), 1)
  {
    hide Ids, Gaps, Lay;
    var c := FromBlock(b, sid);
    HonestIds(b, sid);
    IdsAre(c);
    IdsFit(c, n);
    assert Scan(Ids(c), sid, Start(c, n), pool, false) == Start(c, n);
  }

  /** A transaction that is none of the block's, then one of the block's: the second is missed. */
  lemma FullCountLoses(b: Block, sid: int -> int, stray: Entry)
    requires Sendable(b, sid) && |b.vtx| > 1 && sid(stray.wtxid) !in FromBlock(b, sid).shortIds
    ensures var pool := [stray, Entry(b.vtx[1].wtxid, b.vtx[1])];
      && Faithful(b, sid, pool) && Once(pool) && Offers(pool, b.vtx[1].wtxid)
      && SlotsFrom(b, sid, |b.vtx| - 1, pool, []) == Lay(FromBlock(b, sid), 1)
      && !AllFound(b, SlotsFrom(b, sid, |b.vtx| - 1, pool, []), pool + [])
  {
    hide Gaps, Lay;
    var c, own := FromBlock(b, sid), Entry(b.vtx[1].wtxid, b.vtx[1]);
    var pool := [stray, own];
    assert forall p :: 0 < p < |b.vtx| ==> c.shortIds[p - 1] == sid(b.vtx[p].wtxid);
    assert Once(pool);
    assert pool[1] == own;
    assert Offers(pool, b.vtx[1].wtxid);
    StopsAtOnce(b, sid, |b.vtx| - 1, pool);
    HonestLay(b, sid);
    assert pool + [] == pool;
  }

  ghost predicate AlwaysFound(b: Block, sid: int -> int, n: nat)
    requires Sendable(b, sid)
  {
    forall pool, extra :: Faithful(b, sid, pool) && Faithful(b, sid, extra) && Once(pool) ==>
      AllFound(b, SlotsFrom(b, sid, n, pool, extra), pool + extra)
  }

  /**
   Everything listed is found, whatever is listed, exactly when the count starts at zero or above
   the number of short ids, or at that number when no witness hash at all has another short id.
   */
  lemma CountMatters(b: Block, sid: int -> int, n: nat)
    requires Sendable(b, sid)
    ensures AlwaysFound(b, sid, n) <==> Harmless(FromBlock(b, sid), n)
    ensures (exists w: int :: sid(w) !in FromBlock(b, sid).shortIds) ==>
              (AlwaysFound(b, sid, n) <==> n == 0 || n >= |b.vtx|)
  {
    hide SlotsFrom, AllFound, Faithful, Once, Distinct;
    var c := FromBlock(b, sid);
    assert |c.shortIds| == |b.vtx| - 1;
    if Harmless(c, n) {
      forall pool, extra | Faithful(b, sid, pool) && Faithful(b, sid, extra) && Once(pool)
        ensures AllFound(b, SlotsFrom(b, sid, n, pool, extra), pool + extra)
      {
        HonestSlots(b, sid, n, pool, extra);
      }
    } else {
      FaithfulNone(b, sid);
      if n < |c.shortIds| {
        SmallCountLoses(b, sid, n);
        OwnPoolFaithful(b, sid);
        OwnPoolOnce(b, sid);
      } else {
        var w: int :| sid(w) !in c.shortIds;
        FullCountLoses(b, sid, Entry(w, b.vtx[0]));
      }
    }
  }

  lemma FaithfulNone(b: Block, sid: int -> int)
    ensures Faithful(b, sid, [])
  {
  }

  // ----- Filling the block -----

  lemma {:induction false} MergeAt(s: Slots, missing: seq<Tx>, p: nat)
    requires |Gaps(s)| == |missing| && p < |s|
    ensures |Gaps(s[..p])| <= |missing| && (s[p].None? ==> |Gaps(s[..p])| < |missing|)
    ensures Merge(s, missing)[p] == if s[p].None? then missing[|Gaps(s[..p])|] else s[p].value
    decreases |s|
  {
    var n := |s| - 1;
    GapsPrefix(s, p);
    if p < n {
      MergeAt(s[..n], if s[n].None? then missing[..|missing| - 1] else missing, p);
      assert s[..n][..p] == s[..p];
    }
  }

  /** Missing transactions go to the gaps in order, and the others stay. */
  lemma MergeIs(s: Slots, missing: seq<Tx>)
    requires |Gaps(s)| == |missing|
    ensures forall i :: 0 <= i < |missing| ==> Merge(s, missing)[Gaps(s)[i]] == missing[i]
    ensures forall p :: 0 <= p < |s| && s[p].Some? ==> Merge(s, missing)[p] == s[p].value
  {
    hide Gaps, Merge;
    forall i | 0 <= i < |missing|
      ensures Merge(s, missing)[Gaps(s)[i]] == missing[i]
    {
      var p := Gaps(s)[i];
      MergeAt(s, missing, p);
      GapNumber(s, p, |Gaps(s[..p])|);
      GapsAre(s);
    }
    forall p | 0 <= p < |s| && s[p].Some?
      ensures Merge(s, missing)[p] == s[p].value
    {
      MergeAt(s, missing, p);
    }
  }

  lemma NoGaps(s: Slots)
    ensures Gaps(s[..0]) == []
  {
  }

  lemma MergeNone(s: Slots, missing: seq<Tx>)
    ensures Gaps(s[..0]) == [] && Merge(s[..0], missing[..0]) == []
  {
  }

  lemma MergeStep(s: Slots, missing: seq<Tx>, i: nat, used: nat)
    requires i < |s| && used == |Gaps(s[..i])| <= |missing|
    requires s[i].None? ==> used < |missing|
    ensures |Gaps(s[..i + 1])| == if s[i].None? then used + 1 else used
    ensures s[i].None? ==>
              Merge(s[..i + 1], missing[..used + 1]) == Merge(s[..i], missing[..used]) + [missing[used]]
    ensures s[i].Some? ==> Merge(s[..i + 1], missing[..used]) == Merge(s[..i], missing[..used]) + [s[i].value]
  {
    GapStep(s, i);
    assert s[..i + 1][..i] == s[..i];
    if s[i].None? {
      assert missing[..used + 1][..used] == missing[..used];
    }
  }

  /** The transactions of the block that have no slot yet, in order. */
  function Wanted(b: Block, s: Slots): seq<Tx>
    requires |s| == |b.vtx|
  {
    var g := Gaps(s);
    seq(|g|, i requires 0 <= i < |g| => b.vtx[g[i]])
  }

  /** Slots that hold nothing but the block's own transactions, filled up, are the block. */
  lemma MergeHonest(b: Block, s: Slots)
    requires |s| == |b.vtx| && forall p :: 0 <= p < |s| && s[p].Some? ==> s[p].value == b.vtx[p]
    ensures Merge(s, Wanted(b, s)) == b.vtx
  {
    var missing := Wanted(b, s);
    MergeIs(s, missing);
    GapsAre(s);
    forall p | 0 <= p < |s|
      ensures Merge(s, missing)[p] == b.vtx[p]
    {
      if s[p].None? {
        assert p in Gaps(s);
        var i :| 0 <= i < |Gaps(s)| && Gaps(s)[i] == p;
        assert missing[i] == b.vtx[p];
      }
    }
  }
}
