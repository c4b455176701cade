/**
 What a slot holds after InitData, for any compact block and anything at hand: the one candidate
 under its short id, or nothing when there is none or more than one.
 */
module CompactChoices {
  import opened Basics
  import opened CompactModel
  import opened CompactProofs
  import Sets

  /** The entries listed under a short id, in order. */
  ghost function Hits(sid: int -> int, es: seq<Entry>, id: int): (h: seq<Entry>) {
    if es == [] then []
    else
      var n := |es| - 1;
      Hits(sid, es[..n], id) + if sid(es[n].wtxid) == id then [es[n]] else []
  }

  /** All the transactions have the given witness hash. */
  ghost predicate Agree(es: seq<Entry>, wtxid: int) {
    forall i :: 0 <= i < |es| ==> es[i].tx.wtxid == wtxid
  }

  /**
   One in the mempool and nothing different among the extra ones, or none in the mempool and only
   one transaction, perhaps repeated, among the extra ones.
   */
  ghost function Choice(pool: seq<Entry>, extra: seq<Entry>): Option<Tx> {
    if |pool| == 1 then if Agree(extra, pool[0].tx.wtxid) then Some(pool[0].tx) else None
    else if pool == [] && extra != [] then if Agree(extra, extra[0].tx.wtxid) then Some(extra[0].tx) else None
    else None
  }

  ghost function Chosen(c: Compact, pool: seq<Entry>, extra: seq<Entry>, id: int): Option<Tx> {
    Choice(Hits(c.sid, pool, id), Hits(c.sid, extra, id))
  }

  ghost function Picked(c: Compact, pool: seq<Entry>, extra: seq<Entry>): set<int> {
    set id | id in c.shortIds && Chosen(c, pool, extra, id).Some?
  }

  /** The count has reached the number of short ids. */
  ghost predicate Enough(c: Compact, n: int, pool: seq<Entry>, extra: seq<Entry>) {
    n + |Picked(c, pool, extra)| == |c.shortIds|
  }

  /** How many mempool entries are looked at: up to the first after which the count is enough. */
  ghost function PoolSeen(c: Compact, n: int, pool: seq<Entry>, k: nat): (i: nat)
    requires k <= |pool|
    ensures k <= i <= |pool|
    ensures forall j :: k < j < i ==> !Enough(c, n, pool[..j], [])
    ensures i == |pool| || (k < i && Enough(c, n, pool[..i], []))
    decreases |pool| - k
  {
    if k == |pool| then k
    else if Enough(c, n, pool[..k + 1], []) then k + 1
    else PoolSeen(c, n, pool, k + 1)
  }

  ghost function ExtraSeen(c: Compact, n: int, pool: seq<Entry>, extra: seq<Entry>, k: nat): (i: nat)
    requires k <= |extra|
    ensures k <= i <= |extra|
    ensures forall j :: k < j < i ==> !Enough(c, n, pool, extra[..j])
    ensures i == |extra| || (k < i && Enough(c, n, pool, extra[..i]))
    decreases |extra| - k
  {
    if k == |extra| then k
    else if Enough(c, n, pool, extra[..k + 1]) then k + 1
    else ExtraSeen(c, n, pool, extra, k + 1)
  }

  // ----- Hits -----

  lemma HitsMore(sid: int -> int, es: seq<Entry>, e: Entry, id: int)
    ensures Hits(sid, es + [e], id) == if sid(e.wtxid) == id then Hits(sid, es, id) + [e] else Hits(sid, es, id)
  {
    assert (es + [e])[..|es|] == es;
  }

  ghost function Places(sid: int -> int, es: seq<Entry>, id: int): set<int> {
    set i | 0 <= i < |es| && sid(es[i].wtxid) == id
  }

  /** Exactly the entries under the id. */
  lemma {:induction false} HitsAre(sid: int -> int, es: seq<Entry>, id: int)
    ensures forall e :: e in Hits(sid, es, id) <==> e in es && sid(e.wtxid) == id
  {
    if es != [] {
      var n := |es| - 1;
      HitsAre(sid, es[..n], id);
      assert es == es[..n] + [es[n]];
    }
  }

  /** As many as there are places where one is listed. */
  lemma {:induction false} HitsCount(sid: int -> int, es: seq<Entry>, id: int)
    ensures |Hits(sid, es, id)| == |Places(sid, es, id)|
  {
    if es == [] {
      assert Places(sid, es, id) == {};
    } else {
      var n := |es| - 1;
      HitsCount(sid, es[..n], id);
      var before := Places(sid, es[..n], id);
      assert n !in before;
      assert Places(sid, es, id) == before + if sid(es[n].wtxid) == id then {n} else {};
    }
  }

  // ----- One entry -----

  /** The slot of an id and its mark after some of the mempool and some of the extra entries. */
  ghost predicate Settled(m: map<int, nat>, w: Work, pool: seq<Entry>, extra: seq<Entry>, id: int)
    requires Fits(m, w) && id in m
  {
    w.slots[m[id]] == Choice(pool, extra) && (w.have[m[id]] <==> pool != [] || extra != [])
  }

  lemma AgreeMore(es: seq<Entry>, e: Entry, wtxid: int)
    ensures Agree(es + [e], wtxid) <==> Agree(es, wtxid) && e.tx.wtxid == wtxid
  {
    if Agree(es + [e], wtxid) {
      assert forall i :: 0 <= i < |es| ==> (es + [e])[i] == es[i];
      assert (es + [e])[|es|] == e;
    }
  }

  lemma MatchPool(m: map<int, nat>, sid: int -> int, w: Work, e: Entry, pool: seq<Entry>, id: int)
    requires Fits(m, w) && Apart(m) && id in m && Settled(m, w, pool, [], id)
    ensures Settled(m, Match(m, sid, w, e, false), if sid(e.wtxid) == id then pool + [e] else pool, [], id)
  {
    if sid(e.wtxid) in m && sid(e.wtxid) != id {
      assert m[sid(e.wtxid)] != m[id];
    }
  }

  lemma MatchExtra(m: map<int, nat>, sid: int -> int, w: Work, e: Entry, pool: seq<Entry>, extra: seq<Entry>, id: int)
    requires Fits(m, w) && Apart(m) && id in m && Settled(m, w, pool, extra, id)
    ensures Settled(m, Match(m, sid, w, e, true), pool, if sid(e.wtxid) == id then extra + [e] else extra, id)
  {
    hide Agree;
    if sid(e.wtxid) in m && sid(e.wtxid) != id {
      assert m[sid(e.wtxid)] != m[id];
    }
    if |pool| == 1 {
      AgreeMore(extra, e, pool[0].tx.wtxid);
    } else if pool == [] && extra != [] {
      AgreeMore(extra, e, extra[0].tx.wtxid);
      assert (extra + [e])[0] == extra[0];
    } else if pool == [] {
      AgreeOne(e);
      assert extra + [e] == [e];
    }
    if extra == [] {
      AgreeNone();
    }
  }

  lemma AgreeOne(e: Entry)
    ensures Agree([e], e.tx.wtxid)
  {
  }

  lemma AgreeNone()
    ensures forall w :: Agree([], w)
  {
  }

  // ----- The scans -----

  /** Every slot of a short id is settled by what has been looked at, and the count is right. */
  ghost predicate Standing(c: Compact, n: int, w: Work, pool: seq<Entry>, extra: seq<Entry>)
    requires Placed(c, |c.prefilled|) && |Gaps(Lay(c, |c.prefilled|))| == |c.shortIds|
  {
    && Sound(Lay(c, |c.prefilled|), Ids(c), c.sid, n, w, pool + extra)
    && forall id :: id in Ids(c) ==> Settled(Ids(c), w, Hits(c.sid, pool, id), Hits(c.sid, extra, id), id)
  }

  lemma StandingCount(c: Compact, n: int, w: Work, pool: seq<Entry>, extra: seq<Entry>)
    requires Proper(c) && |Gaps(Lay(c, |c.prefilled|))| == |c.shortIds| && Standing(c, n, w, pool, extra)
    ensures w.count == n + |Picked(c, pool, extra)|
    ensures w.count == |Ids(c)| <==> Enough(c, n, pool, extra)
  {
    hide Ids, Choice, Hits, Apart, Justified, Gaps, Lay;
    IdsAre(c);
    var m := Ids(c);
    forall id | id in m
      ensures id in Filled(m, w) <==> id in Picked(c, pool, extra)
    {
      assert Settled(m, w, Hits(c.sid, pool, id), Hits(c.sid, extra, id), id);
    }
    assert Filled(m, w) == Picked(c, pool, extra);
  }

  lemma PoolStep(c: Compact, n: int, w: Work, pool: seq<Entry>, e: Entry)
    requires Proper(c) && |Gaps(Lay(c, |c.prefilled|))| == |c.shortIds| && Standing(c, n, w, pool, [])
    ensures Fits(Ids(c), w) && Standing(c, n, Match(Ids(c), c.sid, w, e, false), pool + [e], [])
  {
    hide Ids, Choice, Hits, Match, Gaps, Lay;
    var m, base := Ids(c), Lay(c, |c.prefilled|);
    assert pool + [] == pool && (pool + [e]) + [] == pool + [e];
    MatchSound(base, m, c.sid, n, w, pool, e, false);
    HitsNone(c.sid);
    forall id | id in m
      ensures Settled(m, Match(m, c.sid, w, e, false), Hits(c.sid, pool + [e], id), Hits(c.sid, [], id), id)
    {
      MatchPool(m, c.sid, w, e, Hits(c.sid, pool, id), id);
      HitsMore(c.sid, pool, e, id);
    }
  }

  lemma HitsNone(sid: int -> int)
    ensures forall id :: Hits(sid, [], id) == []
  {
  }

  lemma ExtraStep(c: Compact, n: int, w: Work, pool: seq<Entry>, extra: seq<Entry>, e: Entry)
    requires Proper(c) && |Gaps(Lay(c, |c.prefilled|))| == |c.shortIds| && Standing(c, n, w, pool, extra)
    ensures Fits(Ids(c), w) && Standing(c, n, Match(Ids(c), c.sid, w, e, true), pool, extra + [e])
  {
    hide Ids, Choice, Hits, Match, Gaps, Lay;
    var m, base := Ids(c), Lay(c, |c.prefilled|);
    assert (pool + extra) + [e] == pool + (extra + [e]);
    MatchSound(base, m, c.sid, n, w, pool + extra, e, true);
    forall id | id in m
      ensures Settled(m, Match(m, c.sid, w, e, true), Hits(c.sid, pool, id), Hits(c.sid, extra + [e], id), id)
    {
      MatchExtra(m, c.sid, w, e, Hits(c.sid, pool, id), Hits(c.sid, extra, id), id);
      HitsMore(c.sid, extra, e, id);
    }
  }

  lemma StandingFits(c: Compact, n: int, w: Work, pool: seq<Entry>, extra: seq<Entry>)
    requires Placed(c, |c.prefilled|) && |Gaps(Lay(c, |c.prefilled|))| == |c.shortIds| && Standing(c, n, w, pool, extra)
    ensures Fits(Ids(c), w)
  {
  }

  lemma {:induction false} PoolScan(c: Compact, n: int, w: Work, pool: seq<Entry>, k: nat)
    requires Proper(c) && |Gaps(Lay(c, |c.prefilled|))| == |c.shortIds|
    requires k <= |pool| && Standing(c, n, w, pool[..k], [])
    ensures Fits(Ids(c), w)
    ensures Standing(c, n, Scan(Ids(c), c.sid, w, pool[k..], false), pool[..PoolSeen(c, n, pool, k)], [])
    decreases |pool| - k
  {
    hide Standing, Ids, Match, Enough, Gaps, Lay;
    StandingFits(c, n, w, pool[..k], []);
    if k < |pool| {
      var e := pool[k];
      var r := Match(Ids(c), c.sid, w, e, false);
      PoolStep(c, n, w, pool[..k], e);
      assert pool[..k] + [e] == pool[..k + 1] && pool[k..][0] == e && pool[k..][1..] == pool[k + 1..];
      StandingCount(c, n, r, pool[..k + 1], []);
      if r.count != |Ids(c)| {
        PoolScan(c, n, r, pool, k + 1);
      }
    }
  }

  lemma {:induction false} ExtraScan(c: Compact, n: int, w: Work, pool: seq<Entry>, extra: seq<Entry>, k: nat)
    requires Proper(c) && |Gaps(Lay(c, |c.prefilled|))| == |c.shortIds|
    requires k <= |extra| && Standing(c, n, w, pool, extra[..k])
    ensures Fits(Ids(c), w)
    ensures Standing(c, n, Scan(Ids(c), c.sid, w, extra[k..], true), pool, extra[..ExtraSeen(c, n, pool, extra, k)])
    decreases |extra| - k
  {
    hide Standing, Ids, Match, Enough, Gaps, Lay;
    StandingFits(c, n, w, pool, extra[..k]);
    if k < |extra| {
      var e := extra[k];
      var r := Match(Ids(c), c.sid, w, e, true);
      ExtraStep(c, n, w, pool, extra[..k], e);
      assert extra[..k] + [e] == extra[..k + 1] && extra[k..][0] == e && extra[k..][1..] == extra[k + 1..];
      StandingCount(c, n, r, pool, extra[..k + 1]);
      if r.count != |Ids(c)| {
        ExtraScan(c, n, r, pool, extra, k + 1);
      }
    }
  }

  lemma StartStanding(c: Compact, n: int)
    requires Proper(c)
    ensures |Gaps(Lay(c, |c.prefilled|))| == |c.shortIds| && Standing(c, n, Start(c, n), [], [])
  {
    hide Ids, Gaps, Lay;
    StartSound(c, n);
    IdsAre(c);
    var none: seq<Entry> := [];
    assert none + none == none;
    HitsNone(c.sid);
  }

  /**
   After InitData, whatever was listed and whatever the count: the slot of each short id holds the
   choice among the entries looked at, and these are all entries unless the count was enough before.
   */
  lemma SlotChoice(c: Compact, n: int, pool: seq<Entry>, extra: seq<Entry>)
    requires Proper(c)
    ensures |Gaps(Lay(c, |c.prefilled|))| == |c.shortIds| && Fits(Ids(c), Start(c, n))
    ensures var i := PoolSeen(c, n, pool, 0); var j := ExtraSeen(c, n, pool[..i], extra, 0);
      var gaps, f := Gaps(Lay(c, |c.prefilled|)), Final(c, n, pool, extra);
      && |f.slots| == c.TxCount() && f.count == n + |Picked(c, pool[..i], extra[..j])|
      && forall q :: 0 <= q < |c.shortIds| ==> f.slots[gaps[q]] == Chosen(c, pool[..i], extra[..j], c.shortIds[q])
  {
    hide Ids, Gaps, Lay, Scan, Standing, PoolSeen, ExtraSeen, Choice, Hits;
    StartStanding(c, n);
    IdsFit(c, n);
    var i := PoolSeen(c, n, pool, 0);
    assert pool[..0] == [] && pool[0..] == pool && extra[..0] == [] && extra[0..] == extra;
    var w := Scan(Ids(c), c.sid, Start(c, n), pool, false);
    PoolScan(c, n, Start(c, n), pool, 0);
    var j := ExtraSeen(c, n, pool[..i], extra, 0);
    ExtraScan(c, n, w, pool[..i], extra, 0);
    var f := Final(c, n, pool, extra);
    StandingCount(c, n, f, pool[..i], extra[..j]);
    StandingAt(c, n, f, pool[..i], extra[..j]);
  }

  lemma StandingAt(c: Compact, n: int, w: Work, pool: seq<Entry>, extra: seq<Entry>)
    requires Proper(c) && |Gaps(Lay(c, |c.prefilled|))| == |c.shortIds| && Standing(c, n, w, pool, extra)
    ensures |w.slots| == c.TxCount()
    ensures forall q :: 0 <= q < |c.shortIds| ==>
              w.slots[Gaps(Lay(c, |c.prefilled|))[q]] == Chosen(c, pool, extra, c.shortIds[q])
  {
    hide Ids, Gaps, Lay, Choice, Hits;
    IdsAre(c);
    forall q | 0 <= q < |c.shortIds|
      ensures w.slots[Gaps(Lay(c, |c.prefilled|))[q]] == Chosen(c, pool, extra, c.shortIds[q])
    {
      var id := c.shortIds[q];
      assert Settled(Ids(c), w, Hits(c.sid, pool, id), Hits(c.sid, extra, id), id);
    }
  }

  /** Two entries under one short id in the mempool that was looked at: the slot is left for the sender to fill. */
  lemma TwoCandidates(c: Compact, n: int, pool: seq<Entry>, extra: seq<Entry>, q: nat, a: nat, b: nat)
    requires Proper(c) && q < |c.shortIds| && a < b < PoolSeen(c, n, pool, 0)
    requires c.sid(pool[a].wtxid) == c.shortIds[q] == c.sid(pool[b].wtxid)
    ensures |Gaps(Lay(c, |c.prefilled|))| == |c.shortIds| && Fits(Ids(c), Start(c, n))
    ensures var f := Final(c, n, pool, extra);
      |f.slots| == c.TxCount() && f.slots[Gaps(Lay(c, |c.prefilled|))[q]] == None
  {
    hide Ids, Gaps, Lay, Final, PoolSeen, ExtraSeen, Hits;
    SlotChoice(c, n, pool, extra);
    var seen, id := pool[..PoolSeen(c, n, pool, 0)], c.shortIds[q];
    HitsCount(c.sid, seen, id);
    var two := {a, b};
    assert seen[a] == pool[a] && seen[b] == pool[b];
    assert two <= Places(c.sid, seen, id);
    Sets.SubsetCard(two, Places(c.sid, seen, id));
  }
}
