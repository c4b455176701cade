/**
 Reading any file that passes the final check gives a state that satisfies the whole invariant,
 and reading a saved state gives that state back up to the numbering of its entries.
 */
module AddrDiskProofs {
  import opened Basics
  import opened AddrTypes
  import opened AddrOps
  import opened AddrInv
  import opened AddrProofs
  import opened AddrTimes
  import opened AddrCheck
  import opened AddrDisk
  import opened Sets

  // ----- Any file -----

  /** Every address in the index is that of the entry it leads to. */
  ghost predicate NoStale(info: map<Nid, Info>, ids: map<Service, Nid>) {
    forall s :: s in ids ==> ids[s] in info && info[ids[s]].service == s
  }

  /** Entries in a table have valid addresses. */
  ghost predicate ValidPlaced(e: Env, info: map<Nid, Info>) {
    forall id :: id in info && (info[id].inTried || info[id].refCount != 0) ==> e.valid(info[id].service)
  }

  ghost predicate Below(info: map<Nid, Info>, n: int) {
    0 <= n && forall id :: id in info ==> 0 <= id < n
  }

  ghost predicate Networked(e: Env, info: map<Nid, Info>, counts: map<Network, Tally>) {
    forall id :: id in info ==> e.network(info[id].service) in counts
  }

  /** What reading keeps, whatever the file says. */
  ghost predicate Sturdy(e: Env, b: Book) {
    && Shuffled(b.info, b.random) && Below(b.info, b.idCount) && NoStale(b.info, b.ids)
    && Networked(e, b.info, b.counts) && ValidPlaced(e, b.info) && b.collisions == {}
  }

  lemma StartSturdy(e: Env, f: File)
    ensures Sturdy(e, Empty(f.key).(nNew := f.nNew, nTried := f.nTried))
  {
  }

  lemma JoinSturdy(e: Env, b: Book, i: Info, counts: map<Network, Tally>)
    requires Sturdy(e, b) && i.randomPos == |b.random| && i.refCount == 0 && (i.inTried ==> e.valid(i.service))
    requires forall n :: n in b.counts || n == e.network(i.service) ==> n in counts
    ensures var info := b.info[b.idCount := i];
      && Shuffled(info, b.random + [b.idCount]) && Below(info, b.idCount + 1) && NoStale(info, b.ids[i.service := b.idCount])
      && Networked(e, info, counts) && ValidPlaced(e, info)
  {
    hide Shuffled;
    assert b.idCount !in b.info;
    ShuffledAdded(b.info, b.random, b.idCount, i);
  }

  lemma AddSturdy(e: Env, b: Book, r: Record, tried: bool)
    requires Sturdy(e, b)
    ensures Sturdy(e, if tried then AddTried(e, b, r) else AddNew(e, b, r))
  {
    hide Shuffled, NoStale, Networked, ValidPlaced, Below;
    if !tried {
      JoinSturdy(e, b, Restored(r, false, |b.random|), Bump(b.counts, e.network(r.service), 1, 0));
    } else if e.valid(r.service) {
      JoinSturdy(e, b, Restored(r, true, |b.random|), Bump(b.counts, e.network(r.service), 0, 1));
    }
  }

  lemma {:induction false} AddAllSturdy(e: Env, b: Book, rs: seq<Record>, tried: bool)
    requires Sturdy(e, b)
    ensures Sturdy(e, AddAll(e, b, rs, tried))
  {
    hide Sturdy, AddTried, AddNew;
    if rs != [] {
      AddAllSturdy(e, b, rs[..|rs| - 1], tried);
      AddSturdy(e, AddAll(e, b, rs[..|rs| - 1], tried), rs[|rs| - 1], tried);
    }
  }

  lemma AddRefSturdy(e: Env, b: Book, id: Nid, s: Slot)
    requires Sturdy(e, b) && id in b.info && e.valid(b.info[id].service)
    ensures Sturdy(e, AddRef(b, id, s))
  {
    var c := AddRef(b, id, s);
    SetRefs(b.info, id, b.info[id].refCount + 1);
    ShuffledKept(b.info, c.info, b.random);
  }

  lemma {:induction false} PutAllSturdy(e: Env, b: Book, ps: seq<Pair>, restore: bool)
    requires Sturdy(e, b)
    ensures Sturdy(e, PutAll(e, b, ps, restore))
  {
    hide Sturdy, AddRef;
    if ps != [] {
      var c, p := PutAll(e, b, ps[..|ps| - 1], restore), ps[|ps| - 1];
      PutAllSturdy(e, b, ps[..|ps| - 1], restore);
      if p.index in c.info && e.valid(c.info[p.index].service) {
        AddRefSturdy(e, c, p.index, Slot(p.bucket, BucketPos(e, c.key, true, p.bucket, c.info[p.index].service)));
        AddRefSturdy(e, c, p.index, NewSlot(e, c.key, c.info[p.index].service, c.info[p.index].source));
      }
    }
  }

  /** Deleting leaves the other entries as they are, but for their place in the random list. */
  lemma DeleteSturdy(e: Env, b: Book, id: Nid)
    requires Sturdy(e, b) && id in b.info
    ensures Sturdy(e, Delete(e, b, id))
    ensures AllMoved(b.info - {id}, Delete(e, b, id).info)
  {
    hide SwapRandom, Shuffled;
    var p, q := b.info[id].randomPos, |b.random| - 1;
    var c := SwapRandom(b, p, q);
    SwapToEnd(b, id);
    SwapKeeps(b, p, q);
    ShuffledSwapped(b, p, q);
    assert Moved(b.info[id], c.info[id]);
    ShuffledDropped(c.info, c.random, id);
    SwapFields(b, p, q);
    var d := Delete(e, b, id);
    assert d.info == c.info - {id};
    forall x | x in d.info
      ensures x in b.info && Moved(b.info[x], d.info[x])
    {
    }
  }

  lemma SwapFields(b: Book, i: int, j: int)
    ensures var c := SwapRandom(b, i, j);
      c == b.(info := c.info, random := c.random) && |c.random| == |b.random|
  {
  }

  /** Pruning removes exactly the listed new entries without a reference. */
  lemma {:induction false} PruneSturdy(e: Env, b: Book, order: seq<Nid>)
    requires Sturdy(e, b)
    ensures Sturdy(e, Prune(e, b, order))
    ensures forall id :: id in order && id in Prune(e, b, order).info ==>
              Prune(e, b, order).info[id].inTried || Prune(e, b, order).info[id].refCount != 0
    ensures Prune(e, b, order).info.Keys <= b.info.Keys
  {
    hide Sturdy, Delete;
    if order != [] {
      var c, id := Prune(e, b, order[..|order| - 1]), order[|order| - 1];
      PruneSturdy(e, b, order[..|order| - 1]);
      var d := Prune(e, b, order);
      if id in c.info && !c.info[id].inTried && c.info[id].refCount == 0 {
        DeleteSturdy(e, c, id);
      }
      forall x | x in order && x in d.info
        ensures d.info[x].inTried || d.info[x].refCount != 0
      {
        if x != id {
          assert x in order[..|order| - 1];
          if d != c {
            assert Moved(c.info[x], d.info[x]);
          }
        }
      }
    }
  }

  /** Whatever a file says, if reading it succeeds the result satisfies the invariant and has its times in order. */
  lemma LoadedInv(e: Env, f: File, asmap: int, order: seq<Nid>)
    requires Loaded(e, f, asmap, order).Some?
    requires forall id :: id in Entries(e, f).info ==> id in order
    ensures Inv(e, Loaded(e, f, asmap, order).value) && Dated(Loaded(e, f, asmap, order).value.info)
  {
    hide Sturdy, Checked, Prune, PutAll, AddAll, Readable;
    var start := Empty(f.key).(nNew := f.nNew, nTried := f.nTried);
    StartSturdy(e, f);
    AddAllSturdy(e, start, f.news, false);
    AddAllSturdy(e, AddAll(e, start, f.news, false), f.trieds, true);
    var b := Entries(e, f);
    var ps := Pairs(f.table, f.nNew);
    PutAllSturdy(e, b, ps, Restorable(f, asmap));
    PutAllKeys(e, b, ps, Restorable(f, asmap));
    var c := PutAll(e, b, ps, Restorable(f, asmap));
    PruneSturdy(e, c, order);
    SturdyUnchecked(e, Prune(e, c, order));
    InvIffChecked(e, Prune(e, c, order));
  }

  lemma {:induction false} PutAllKeys(e: Env, b: Book, ps: seq<Pair>, restore: bool)
    ensures PutAll(e, b, ps, restore).info.Keys == b.info.Keys
  {
    if ps != [] {
      PutAllKeys(e, b, ps[..|ps| - 1], restore);
    }
  }

  lemma SturdyUnchecked(e: Env, b: Book)
    requires Sturdy(e, b)
    requires forall id :: id in b.info ==> b.info[id].inTried || b.info[id].refCount != 0
    ensures Unchecked(e, b)
  {
    hide Shuffled;
    assert Nets(e, b.info) <= b.counts.Keys;
  }

  // ----- The image of a state under renumbering -----

  /** An entry as it comes back: numbered anew, without what is kept in memory only. */
  function Reborn(i: Info, n: int, refs: int): Info {
    Restored(Stored(i), i.inTried, n).(refCount := refs)
  }

  /** `ids` lists all entries, the new ones first. */
  ghost predicate Numbering(b: Book, ids: seq<Nid>) {
    && Distinct(ids)
    && (forall n :: 0 <= n < |ids| ==> ids[n] in b.info)
    && (forall id :: id in b.info ==> id in ids)
  }

  /** The first `k` entries, with references counted in `t`. */
  ghost predicate ImgInfo(info: map<Nid, Info>, b: Book, ids: seq<Nid>, k: nat, t: map<Slot, Nid>) {
    && (forall n :: n in info <==> 0 <= n < k)
    && (forall n :: 0 <= n < k && n < |ids| && ids[n] in b.info ==>
          info[n] == Reborn(b.info[ids[n]], n, |SlotsOf(t, ids[n])|))
  }

  ghost predicate ImgIds(index: map<Service, Nid>, b: Book, ids: seq<Nid>, k: nat)
    requires k <= |ids| && forall n :: 0 <= n < |ids| ==> ids[n] in b.info
  {
    && (forall n :: 0 <= n < k ==> b.info[ids[n]].service in index && index[b.info[ids[n]].service] == n)
    && (forall s :: s in index ==> 0 <= index[s] < k && b.info[ids[index[s]]].service == s)
  }

  ghost predicate ImgRandom(random: seq<Nid>, k: nat) {
    |random| == k && forall i :: 0 <= i < k ==> random[i] == i
  }

  ghost predicate ImgTried(e: Env, tried: map<Slot, Nid>, b: Book, ids: seq<Nid>, k: nat)
    requires k <= |ids| && forall n :: 0 <= n < |ids| ==> ids[n] in b.info
  {
    && (forall s :: s in tried ==> 0 <= tried[s] < k && s in b.tried && b.tried[s] == ids[tried[s]])
    && (forall n :: 0 <= n < k && b.info[ids[n]].inTried ==>
          var s := TriedSlot(e, b.key, b.info[ids[n]].service); s in tried && tried[s] == n)
  }

  ghost predicate ImgNew(untried: map<Slot, Nid>, ids: seq<Nid>, t: map<Slot, Nid>) {
    && untried.Keys == t.Keys
    && (forall s :: s in t ==> 0 <= untried[s] < |ids| && ids[untried[s]] == t[s])
  }

  ghost predicate ImgCounts(e: Env, info: map<Nid, Info>, counts: map<Network, Tally>) {
    Tallied(e, info, {}, |Everyone(e, info, {}, false)|, |Everyone(e, info, {}, true)|, counts)
  }

  ghost predicate ImgRest(c: Book, b: Book, k: nat) {
    && c.key == b.key && c.idCount == k && c.nNew == b.nNew && c.nTried == b.nTried
    && c.collisions == {} && c.lastGood == 1
  }

  ghost predicate Img(e: Env, c: Book, b: Book, ids: seq<Nid>, k: nat, t: map<Slot, Nid>) {
    && k <= |ids| && Numbering(b, ids)
    && ImgInfo(c.info, b, ids, k, t) && ImgIds(c.ids, b, ids, k) && ImgRandom(c.random, k)
    && ImgTried(e, c.tried, b, ids, k) && ImgNew(c.untried, ids, t) && ImgCounts(e, c.info, c.counts) && ImgRest(c, b, k)
  }

  lemma StartImg(e: Env, b: Book, ids: seq<Nid>)
    requires Numbering(b, ids)
    ensures Img(e, Empty(b.key).(nNew := b.nNew, nTried := b.nTried), b, ids, 0, map[])
  {
    var c := Empty(b.key).(nNew := b.nNew, nTried := b.nTried);
    forall n: Network
      ensures TalliedOn(e, c.info, {}, TallyOf(c.counts, n), n)
    {
      assert Locals(e, c.info, {}, AsNew(n)) == {} == Locals(e, c.info, {}, AsTried(n));
    }
  }

  /** Reading one more record of the right side adds the next entry. */
  function AddOne(e: Env, c: Book, i: Info): Book {
    if i.inTried then AddTried(e, c, Stored(i)) else AddNew(e, c, Stored(i))
  }

  lemma NextService(e: Env, index: map<Service, Nid>, b: Book, ids: seq<Nid>, k: nat)
    requires Inv(e, b) && Numbering(b, ids) && k < |ids| && ImgIds(index, b, ids, k)
    ensures b.info[ids[k]].service !in index && e.valid(b.info[ids[k]].service)
  {
    hide Shuffled, NewPlaced, TriedPlaced, Tallied, Referenced, Balanced, Pending;
    var id := ids[k];
    assert id in b.info;
    var s := b.info[id].service;
    if s in index {
      assert false;
    }
  }

  lemma NextSlot(e: Env, tried: map<Slot, Nid>, b: Book, ids: seq<Nid>, k: nat)
    requires Inv(e, b) && Numbering(b, ids) && k < |ids| && ImgTried(e, tried, b, ids, k) && b.info[ids[k]].inTried
    ensures var s := TriedSlot(e, b.key, b.info[ids[k]].service); s !in tried && ImgTried(e, tried[s := k], b, ids, k + 1)
  {
    hide Shuffled, NewPlaced, Tallied, Referenced, Balanced, Pending;
    var id := ids[k];
    assert id in b.info && b.info[id].inTried;
    var s := TriedSlot(e, b.key, b.info[id].service);
    assert s in b.tried && b.tried[s] == id;
    if s in tried {
      assert false;
    }
    forall n | 0 <= n < k && b.info[ids[n]].inTried
      ensures TriedSlot(e, b.key, b.info[ids[n]].service) != s
    {
    }
  }

  lemma NextInfo(e: Env, info: map<Nid, Info>, b: Book, ids: seq<Nid>, k: nat, counts: map<Network, Tally>)
    requires Numbering(b, ids) && k < |ids| && ImgInfo(info, b, ids, k, map[]) && ImgCounts(e, info, counts)
    ensures var i := b.info[ids[k]];
      var info' := info[k := Restored(Stored(i), i.inTried, k)];
      && ImgInfo(info', b, ids, k + 1, map[])
      && ImgCounts(e, info', Bump(counts, e.network(i.service), if i.inTried then 0 else 1, if i.inTried then 1 else 0))
  {
    hide Tallied;
    var i := b.info[ids[k]];
    var info' := info[k := Restored(Stored(i), i.inTried, k)];
    assert SlotsOf(map[], ids[k]) == {};
    assert k !in info;
    assert SameElsewhere(e, info, {}, info', {}, k);
    TalliedMoved(e, info, {}, info', {}, k, e.network(i.service),
                 |Everyone(e, info, {}, false)|, |Everyone(e, info, {}, true)|, counts);
    EveryoneMoved(e, info, {}, info', {}, k);
  }

  lemma NextIndex(index: map<Service, Nid>, b: Book, ids: seq<Nid>, k: nat)
    requires Numbering(b, ids) && k < |ids| && ImgIds(index, b, ids, k) && b.info[ids[k]].service !in index
    ensures ImgIds(index[b.info[ids[k]].service := k], b, ids, k + 1)
  {
  }

  lemma StayTried(e: Env, tried: map<Slot, Nid>, b: Book, ids: seq<Nid>, k: nat)
    requires Numbering(b, ids) && k < |ids| && ImgTried(e, tried, b, ids, k) && !b.info[ids[k]].inTried
    ensures ImgTried(e, tried, b, ids, k + 1)
  {
  }

  lemma AddImg(e: Env, c: Book, b: Book, ids: seq<Nid>, k: nat)
    requires Inv(e, b) && k < |ids| && Img(e, c, b, ids, k, map[])
    ensures ids[k] in b.info && Img(e, AddOne(e, c, b.info[ids[k]]), b, ids, k + 1, map[])
  {
    hide ImgInfo, ImgIds, ImgCounts, ImgTried, ImgNew, Inv, Bump;
    var i := b.info[ids[k]];
    NextService(e, c.ids, b, ids, k);
    NextInfo(e, c.info, b, ids, k, c.counts);
    NextIndex(c.ids, b, ids, k);
    if i.inTried {
      NextSlot(e, c.tried, b, ids, k);
    } else {
      StayTried(e, c.tried, b, ids, k);
    }
  }

  lemma RecordsAt(b: Book, ids: seq<Nid>, from: nat, n: nat)
    requires Numbering(b, ids) && 0 < n && from + n <= |ids|
    ensures var rs := Records(b.info, ids[from..from + n]);
      && |rs| == n && rs[..n - 1] == Records(b.info, ids[from..from + n - 1])
      && rs[n - 1] == Stored(b.info[ids[from + n - 1]])
  {
    hide Stored;
    assert ids[from..from + n][..n - 1] == ids[from..from + n - 1];
  }

  /** The entries from one number on, added as the file lists them. */
  ghost predicate ImgAdded(e: Env, c: Book, b: Book, ids: seq<Nid>, from: nat, n: nat, tried: bool) {
    && Numbering(b, ids) && from + n <= |ids|
    && Img(e, AddAll(e, c, Records(b.info, ids[from..from + n]), tried), b, ids, from + n, map[])
  }

  /** Some records of one side of the file. */
  lemma {:induction false} AddAllImg(e: Env, c: Book, b: Book, ids: seq<Nid>, from: nat, n: nat, tried: bool)
    requires Numbering(b, ids) && from + n <= |ids|
    requires forall i :: from <= i < from + n ==> b.info[ids[i]].inTried == tried
    requires Inv(e, b) && Img(e, c, b, ids, from, map[])
    ensures ImgAdded(e, c, b, ids, from, n, tried)
  {
    hide Img, Inv, AddNew, AddTried, Stored;
    var rs := Records(b.info, ids[from..from + n]);
    if n > 0 {
      AddAllImg(e, c, b, ids, from, n - 1, tried);
      RecordsAt(b, ids, from, n);
      AddImg(e, AddAll(e, c, rs[..n - 1], tried), b, ids, from + n - 1);
    }
  }

  // ----- Putting references back -----

  lemma SubSlots(t: map<Slot, Nid>, u: map<Slot, Nid>, s: Slot)
    requires s in u && s !in t && (forall x :: x in t ==> x in u && t[x] == u[x])
    ensures |SlotsOf(t, u[s])| < |SlotsOf(u, u[s])|
    ensures |SlotsOf(t[s := u[s]], u[s])| == |SlotsOf(t, u[s])| + 1
    ensures forall x :: x != u[s] ==> SlotsOf(t[s := u[s]], x) == SlotsOf(t, x)
  {
    SlotsAdded(t, s, u[s]);
    var a, b := SlotsOf(t, u[s]) + {s}, SlotsOf(u, u[s]);
    assert a <= b;
    assert b == a + (b - a);
    assert |SlotsOf(t, u[s]) + {s}| == |SlotsOf(t, u[s])| + 1;
  }

  lemma PutInfo(info: map<Nid, Info>, b: Book, ids: seq<Nid>, t: map<Slot, Nid>, s: Slot, n: nat)
    requires Numbering(b, ids) && ImgInfo(info, b, ids, |ids|, t) && n < |ids|
    requires s in b.untried && b.untried[s] == ids[n] && s !in t
    requires forall x :: x in t ==> x in b.untried && t[x] == b.untried[x]
    ensures n in info
    ensures ImgInfo(info[n := info[n].(refCount := info[n].refCount + 1)], b, ids, |ids|, t[s := ids[n]])
  {
    SubSlots(t, b.untried, s);
    var info' := info[n := info[n].(refCount := info[n].refCount + 1)];
    forall m | 0 <= m < |ids|
      ensures info'[m] == Reborn(b.info[ids[m]], m, |SlotsOf(t[s := ids[n]], ids[m])|)
    {
      if m != n {
        assert ids[m] != ids[n];
      }
    }
  }

  lemma PutCounts(e: Env, info: map<Nid, Info>, counts: map<Network, Tally>, n: Nid, refs: int)
    requires ImgCounts(e, info, counts) && n in info
    ensures ImgCounts(e, info[n := info[n].(refCount := refs)], counts)
  {
    var info' := info[n := info[n].(refCount := refs)];
    SetRefs(info, n, refs);
    assert Everyone(e, info', {}, false) == Everyone(e, info, {}, false);
    assert Everyone(e, info', {}, true) == Everyone(e, info, {}, true);
    TalliedKept(e, info, info', {}, |Everyone(e, info, {}, false)|, |Everyone(e, info, {}, true)|, counts);
  }

  lemma OldSlot(e: Env, b: Book, s: Slot)
    requires Inv(e, b) && s in b.untried
    ensures var id := b.untried[s];
      && id in b.info && e.valid(b.info[id].service) && |SlotsOf(b.untried, id)| <= MAX_REFS
      && s.pos == BucketPos(e, b.key, true, s.bucket, b.info[id].service)
  {
    hide Shuffled, TriedPlaced, Tallied, Balanced, Pending, Indexed;
    assert HoldsNew(e, b.key, b.info, s, b.untried[s]);
  }

  /** The entry is where the file says, and that slot is free. */
  lemma PutsBack(e: Env, c: Book, b: Book, ids: seq<Nid>, t: map<Slot, Nid>, s: Slot, n: nat)
    requires Inv(e, b) && Numbering(b, ids) && n < |ids| && c.key == b.key
    requires ImgInfo(c.info, b, ids, |ids|, t) && ImgNew(c.untried, ids, t)
    requires s in b.untried && b.untried[s] == ids[n] && s !in t
    requires forall x :: x in t ==> x in b.untried && t[x] == b.untried[x]
    ensures n in c.info && PutBack(e, c, Pair(s.bucket, n), true) == AddRef(c, n, s)
  {
    hide Inv, SlotsOf;
    var id := ids[n];
    OldSlot(e, b, s);
    SubSlots(t, b.untried, s);
    assert c.info[n] == Reborn(b.info[id], n, |SlotsOf(t, id)|);
  }

  lemma PutImg(e: Env, c: Book, b: Book, ids: seq<Nid>, t: map<Slot, Nid>, s: Slot, n: nat)
    requires Inv(e, b) && Img(e, c, b, ids, |ids|, t) && n < |ids|
    requires s in b.untried && b.untried[s] == ids[n] && s !in t
    requires forall x :: x in t ==> x in b.untried && t[x] == b.untried[x]
    ensures Img(e, PutBack(e, c, Pair(s.bucket, n), true), b, ids, |ids|, t[s := ids[n]])
  {
    hide ImgInfo, ImgIds, ImgTried, ImgCounts, Inv, PutBack, SlotsOf;
    PutsBack(e, c, b, ids, t, s, n);
    PutInfo(c.info, b, ids, t, s, n);
    PutCounts(e, c.info, c.counts, n, c.info[n].refCount + 1);
  }

  lemma PassedRow(e: Env, b: Book, k: int)
    requires NewPlaced(e, b.key, b.info, b.untried)
    ensures Passed(b.untried, k + 1, 0) == Passed(b.untried, k, BUCKET_SIZE)
  {
    forall s | s in b.untried
      ensures 0 <= s.pos < BUCKET_SIZE
    {
      assert HoldsNew(e, b.key, b.info, s, b.untried[s]);
    }
  }

  lemma PassedAll(e: Env, b: Book)
    requires NewPlaced(e, b.key, b.info, b.untried)
    ensures Passed(b.untried, 0, 0) == map[] && Passed(b.untried, NEW_BUCKETS, 0) == b.untried
  {
    forall s | s in b.untried
      ensures InNew(s)
    {
      assert HoldsNew(e, b.key, b.info, s, b.untried[s]);
    }
  }

  lemma {:induction false} PutAllAppend(e: Env, b: Book, ps: seq<Pair>, qs: seq<Pair>, restore: bool)
    ensures PutAll(e, b, ps + qs, restore) == PutAll(e, PutAll(e, b, ps, restore), qs, restore)
    decreases |qs|
  {
    hide PutBack;
    if qs == [] {
      assert ps + qs == ps;
    } else {
      PutAllAppend(e, b, ps, qs[..|qs| - 1], restore);
      assert (ps + qs)[..|ps + qs| - 1] == ps + qs[..|qs| - 1];
    }
  }

  /** The list of new ids is the beginning of the numbering. */
  ghost predicate NewsFirst(b: Book, news: seq<Nid>, ids: seq<Nid>) {
    && news <= ids && |news| == b.nNew
    && forall id :: id in b.info && !b.info[id].inTried ==> id in news
  }

  lemma PlaceNew(e: Env, b: Book, news: seq<Nid>, ids: seq<Nid>, s: Slot)
    requires Inv(e, b) && NewsFirst(b, news, ids) && s in b.untried
    ensures PlaceIn(news, b.untried[s]) < |news| <= |ids| && ids[PlaceIn(news, b.untried[s])] == b.untried[s]
  {
    hide PlaceIn;
    var id := b.untried[s];
    assert HoldsNew(e, b.key, b.info, s, id);
    assert id in news;
    var i :| 0 <= i < |news| && news[i] == id;
    assert PlaceIn(news, id) <= i;
  }

  lemma RowStep(b: Book, news: seq<Nid>, k: nat, p: nat)
    requires p > 0
    ensures var s, rest := Slot(k, p - 1), RowPairs(k, Row(b.untried, news, k, p - 1), b.nNew);
      && (s !in b.untried ==> RowPairs(k, Row(b.untried, news, k, p), b.nNew) == rest)
      && (s in b.untried && PlaceIn(news, b.untried[s]) < b.nNew ==>
            RowPairs(k, Row(b.untried, news, k, p), b.nNew) == rest + [Pair(k, PlaceIn(news, b.untried[s]))])
  {
    hide PlaceIn;
    var s, row, rest := Slot(k, p - 1), Row(b.untried, news, k, p), Row(b.untried, news, k, p - 1);
    if s in b.untried {
      assert row[..|row| - 1] == rest && row[|row| - 1] == PlaceIn(news, b.untried[s]);
    } else {
      assert row == rest;
    }
  }

  lemma PutSnoc(e: Env, c: Book, ps: seq<Pair>, p: Pair)
    ensures PutAll(e, c, ps + [p], true) == PutBack(e, PutAll(e, c, ps, true), p, true)
  {
    hide PutBack;
    assert (ps + [p])[..|ps|] == ps;
  }

  /** Reading one bucket back, up to a position. */
  lemma {:induction false} RowImg(e: Env, c: Book, b: Book, news: seq<Nid>, ids: seq<Nid>, k: nat, p: nat)
    requires Inv(e, b) && NewsFirst(b, news, ids) && Img(e, c, b, ids, |ids|, Passed(b.untried, k, 0))
    ensures Img(e, PutAll(e, c, RowPairs(k, Row(b.untried, news, k, p), b.nNew), true), b, ids, |ids|, Passed(b.untried, k, p))
  {
    hide Img, Inv, PutBack, NewsFirst, Passed, PlaceIn;
    if p > 0 {
      hide Row, RowPairs, PutAll;
      RowImg(e, c, b, news, ids, k, p - 1);
      var s, ps := Slot(k, p - 1), RowPairs(k, Row(b.untried, news, k, p - 1), b.nNew);
      PassedNext(b.untried, s);
      RowStep(b, news, k, p);
      if s in b.untried {
        PlaceNew(e, b, news, ids, s);
        NewsSize(b, news, ids);
        var n := PlaceIn(news, b.untried[s]);
        PutSnoc(e, c, ps, Pair(k, n));
        PassedWithin(b.untried, k, p - 1);
        PutImg(e, PutAll(e, c, ps, true), b, ids, Passed(b.untried, k, p - 1), s, n);
      }
    }
  }

  lemma PassedWithin(u: map<Slot, Nid>, k: int, p: int)
    ensures forall x :: x in Passed(u, k, p) ==> x in u && Passed(u, k, p)[x] == u[x]
  {
  }

  lemma NewsSize(b: Book, news: seq<Nid>, ids: seq<Nid>)
    requires NewsFirst(b, news, ids)
    ensures |news| == b.nNew && news <= ids
  {
  }

  /** Reading the first buckets back. */
  lemma {:induction false} TableImg(e: Env, c: Book, b: Book, news: seq<Nid>, ids: seq<Nid>, table: seq<seq<int>>, k: nat)
    requires Inv(e, b) && NewsFirst(b, news, ids) && Img(e, c, b, ids, |ids|, map[])
    requires k <= |table| && forall i :: 0 <= i < |table| ==> table[i] == Row(b.untried, news, i, BUCKET_SIZE)
    ensures Img(e, PutAll(e, c, Pairs(table[..k], b.nNew), true), b, ids, |ids|, Passed(b.untried, k, 0))
  {
    hide Img, NewsFirst, PutAll, RowPairs, Row, Core, Pending;
    assert NewPlaced(e, b.key, b.info, b.untried) by { InvPlaced(e, b); }
    hide Inv;
    if k == 0 {
      PassedAll(e, b);
      PutNone(e, c);
    } else {
      TableImg(e, c, b, news, ids, table, k - 1);
      assert table[..k][..k - 1] == table[..k - 1];
      var ps := Pairs(table[..k - 1], b.nNew);
      var row := RowPairs(k - 1, table[k - 1], b.nNew);
      PutAllAppend(e, c, ps, row, true);
      RowImg(e, PutAll(e, c, ps, true), b, news, ids, k - 1, BUCKET_SIZE);
      PassedRow(e, b, k - 1);
    }
  }

  lemma InvPlaced(e: Env, b: Book)
    requires Inv(e, b)
    ensures NewPlaced(e, b.key, b.info, b.untried)
  {
  }

  lemma PutNone(e: Env, c: Book)
    ensures PutAll(e, c, [], true) == c
  {
  }

  // ----- The full image satisfies the invariant -----

  lemma ImgShuffled(c: Book, b: Book, ids: seq<Nid>, t: map<Slot, Nid>)
    requires Numbering(b, ids) && ImgInfo(c.info, b, ids, |ids|, t) && ImgRandom(c.random, |ids|)
    ensures Shuffled(c.info, c.random)
  {
    UpToIs(|ids|);
    assert c.info.Keys == UpTo(|ids|) by {
      forall n
        ensures n in c.info.Keys <==> n in UpTo(|ids|)
      {
        assert n in c.info <==> 0 <= n < |ids|;
      }
    }
    assert |c.info| == |c.info.Keys|;
  }

  lemma ImgIndexed(c: Book, b: Book, ids: seq<Nid>, t: map<Slot, Nid>)
    requires Numbering(b, ids) && ImgInfo(c.info, b, ids, |ids|, t) && ImgIds(c.ids, b, ids, |ids|)
    ensures Indexed(c.info, c.ids)
  {
    hide SlotsOf;
    forall n | n in c.info
      ensures c.info[n].service in c.ids && c.ids[c.info[n].service] == n
    {
      assert c.info[n].service == b.info[ids[n]].service;
    }
  }

  lemma ImgNewPlaced(e: Env, c: Book, b: Book, ids: seq<Nid>)
    requires Inv(e, b) && Numbering(b, ids) && c.key == b.key
    requires ImgInfo(c.info, b, ids, |ids|, b.untried) && ImgNew(c.untried, ids, b.untried)
    ensures NewPlaced(e, c.key, c.info, c.untried)
  {
    hide SlotsOf, Shuffled, TriedPlaced, Tallied, Balanced, Pending, Indexed, Numbered, Referenced;
    forall s | s in c.untried
      ensures HoldsNew(e, c.key, c.info, s, c.untried[s])
    {
      var n := c.untried[s];
      assert HoldsNew(e, b.key, b.info, s, b.untried[s]);
      assert c.info[n] == Reborn(b.info[ids[n]], n, |SlotsOf(b.untried, ids[n])|);
    }
  }

  lemma ImgSlots(c: Book, ids: seq<Nid>, t: map<Slot, Nid>, n: nat)
    requires Distinct(ids) && ImgNew(c.untried, ids, t) && n < |ids|
    ensures SlotsOf(c.untried, n) == SlotsOf(t, ids[n])
  {
    forall s | s in t
      ensures t[s] == ids[n] <==> c.untried[s] == n
    {
      assert ids[c.untried[s]] == t[s];
    }
  }

  lemma InvRefs(e: Env, b: Book, id: Nid)
    requires Inv(e, b) && id in b.info
    ensures b.info[id].refCount == |SlotsOf(b.untried, id)| <= MAX_REFS
  {
    hide Shuffled, NewPlaced, TriedPlaced, Tallied, Balanced, Pending, Indexed, Numbered;
  }

  ghost predicate SameRefs(info: map<Nid, Info>, was: map<Nid, Info>, ids: seq<Nid>) {
    forall n :: 0 <= n < |ids| && n in info && ids[n] in was ==> info[n].refCount == was[ids[n]].refCount
  }

  lemma ImgReferenced(e: Env, c: Book, b: Book, ids: seq<Nid>)
    requires Inv(e, b) && Numbering(b, ids)
    requires ImgInfo(c.info, b, ids, |ids|, b.untried) && ImgNew(c.untried, ids, b.untried)
    ensures Referenced(c.info, c.untried) && SameRefs(c.info, b.info, ids)
  {
    hide Inv, SlotsOf, ImgNew;
    forall n | 0 <= n < |ids|
      ensures c.info[n].refCount == |SlotsOf(c.untried, n)| <= MAX_REFS && c.info[n].refCount == b.info[ids[n]].refCount
    {
      ImgSlots(c, ids, b.untried, n);
      InvRefs(e, b, ids[n]);
      assert c.info[n] == Reborn(b.info[ids[n]], n, |SlotsOf(b.untried, ids[n])|);
    }
  }

  lemma ImgTriedPlaced(e: Env, c: Book, b: Book, ids: seq<Nid>)
    requires Inv(e, b) && Numbering(b, ids) && c.key == b.key
    requires ImgInfo(c.info, b, ids, |ids|, b.untried) && ImgTried(e, c.tried, b, ids, |ids|)
    ensures TriedPlaced(e, c.key, c.info, c.tried)
  {
    hide SlotsOf, Shuffled, NewPlaced, Tallied, Balanced, Pending, Indexed, Numbered, Referenced;
    forall s | s in c.tried
      ensures HoldsTried(e, c.key, c.info, s, c.tried[s])
    {
      var n := c.tried[s];
      assert HoldsTried(e, b.key, b.info, s, b.tried[s]);
      assert c.info[n] == Reborn(b.info[ids[n]], n, |SlotsOf(b.untried, ids[n])|);
    }
    forall n | n in c.info && c.info[n].inTried
      ensures TriedSlot(e, c.key, c.info[n].service) in c.tried && c.tried[TriedSlot(e, c.key, c.info[n].service)] == n
    {
      assert c.info[n] == Reborn(b.info[ids[n]], n, |SlotsOf(b.untried, ids[n])|);
    }
  }

  /** A set of entries and its image have the same size. */
  lemma SameSize(ids: seq<Nid>, x: set<Nid>, y: set<Nid>)
    requires Distinct(ids) && (forall n :: n in x ==> 0 <= n < |ids| && ids[n] in y)
    requires forall id :: id in y ==> id in ids
    requires forall n :: 0 <= n < |ids| && ids[n] in y ==> n in x
    ensures |x| == |y|
  {
    var pos := map n | n in x :: ids[n];
    ImageCard(x, pos);
    assert Image(x, pos) == y by {
      forall id | id in y
        ensures id in Image(x, pos)
      {
        var n :| 0 <= n < |ids| && ids[n] == id;
        assert n in x && pos[n] == id;
      }
    }
  }

  lemma ImgSides(e: Env, c: Book, b: Book, ids: seq<Nid>, t: map<Slot, Nid>, tried: bool)
    requires Numbering(b, ids) && ImgInfo(c.info, b, ids, |ids|, t)
    ensures |Everyone(e, c.info, {}, tried)| == |Everyone(e, b.info, {}, tried)|
  {
    hide SlotsOf;
    SameSize(ids, Everyone(e, c.info, {}, tried), Everyone(e, b.info, {}, tried));
  }

  lemma ImgLocals(e: Env, c: Book, b: Book, ids: seq<Nid>, t: map<Slot, Nid>, st: Standing)
    requires Numbering(b, ids) && ImgInfo(c.info, b, ids, |ids|, t)
    ensures |Locals(e, c.info, {}, st)| == |Locals(e, b.info, {}, st)|
  {
    hide SlotsOf;
    forall n | 0 <= n < |ids|
      ensures StandingOf(e, c.info, {}, n) == StandingOf(e, b.info, {}, ids[n])
    {
      assert c.info[n] == Reborn(b.info[ids[n]], n, |SlotsOf(t, ids[n])|);
    }
    SameSize(ids, Locals(e, c.info, {}, st), Locals(e, b.info, {}, st));
  }

  /** The counters come back as they were. */
  lemma ImgTallied(e: Env, c: Book, b: Book, ids: seq<Nid>, t: map<Slot, Nid>)
    requires Inv(e, b) && Numbering(b, ids) && ImgInfo(c.info, b, ids, |ids|, t) && ImgCounts(e, c.info, c.counts)
    requires c.nNew == b.nNew && c.nTried == b.nTried
    ensures Tallied(e, c.info, {}, c.nNew, c.nTried, c.counts)
    ensures forall n :: TallyOf(c.counts, n) == TallyOf(b.counts, n)
  {
    hide Shuffled, NewPlaced, TriedPlaced, Referenced, Balanced, Pending, Indexed, Numbered, ImgInfo;
    ImgSides(e, c, b, ids, t, false);
    ImgSides(e, c, b, ids, t, true);
    forall n: Network
      ensures TallyOf(c.counts, n) == TallyOf(b.counts, n)
    {
      ImgLocals(e, c, b, ids, t, AsNew(n));
      ImgLocals(e, c, b, ids, t, AsTried(n));
      assert TalliedOn(e, b.info, {}, TallyOf(b.counts, n), n);
      assert TalliedOn(e, c.info, {}, TallyOf(c.counts, n), n);
    }
  }

  lemma ImgNumbered(e: Env, c: Book, b: Book, ids: seq<Nid>)
    requires Inv(e, b) && Numbering(b, ids) && ImgInfo(c.info, b, ids, |ids|, b.untried)
    requires SameRefs(c.info, b.info, ids)
    ensures Numbered(e, c.info, |ids|) && Balanced(c.info, {}, {})
  {
    hide SlotsOf, Shuffled, NewPlaced, TriedPlaced, Tallied, Pending, Indexed, Referenced;
    forall n | 0 <= n < |ids|
      ensures var i := c.info[n]; e.valid(i.service) && (!i.inTried ==> i.refCount > 0)
    {
      var id := ids[n];
      assert id in b.info;
      assert c.info[n] == Reborn(b.info[id], n, |SlotsOf(b.untried, id)|);
    }
  }

  /** The successes are stored; the last tries are forgotten. */
  lemma ImgDated(c: Book, b: Book, ids: seq<Nid>)
    requires Numbering(b, ids) && ImgInfo(c.info, b, ids, |ids|, b.untried)
    ensures Dated(c.info) <==> Stamped(b.info)
  {
    hide SlotsOf;
    forall n | 0 <= n < |ids|
      ensures var i, j := c.info[n], b.info[ids[n]];
        i.lastTry == 0 && i.lastSuccess == j.lastSuccess && i.inTried == j.inTried
    {
      assert c.info[n] == Reborn(b.info[ids[n]], n, |SlotsOf(b.untried, ids[n])|);
    }
    if Dated(c.info) {
      forall id | id in b.info
        ensures b.info[id].lastSuccess >= 0 && (b.info[id].inTried ==> b.info[id].lastSuccess > 0)
      {
        assert id in ids;
        var n :| 0 <= n < |ids| && ids[n] == id;
        assert n in c.info;
      }
    }
  }

  lemma ImgInv(e: Env, c: Book, b: Book, ids: seq<Nid>)
    requires Inv(e, b) && Img(e, c, b, ids, |ids|, b.untried)
    ensures Inv(e, c) && SameRefs(c.info, b.info, ids)
    ensures forall n :: TallyOf(c.counts, n) == TallyOf(b.counts, n)
  {
    hide SameRefs, ImgInfo, ImgIds, ImgTried, ImgCounts, ImgRandom, ImgNew, Numbering;
    hide Shuffled, NewPlaced, TriedPlaced, Referenced, Balanced, Indexed, Numbered, Tallied;
    ImgShuffled(c, b, ids, b.untried);
    ImgIndexed(c, b, ids, b.untried);
    ImgNewPlaced(e, c, b, ids);
    ImgReferenced(e, c, b, ids);
    ImgTriedPlaced(e, c, b, ids);
    ImgTallied(e, c, b, ids, b.untried);
    ImgNumbered(e, c, b, ids);
  }

  lemma {:induction false} PruneNothing(e: Env, c: Book, order: seq<Nid>)
    requires forall id :: id in c.info ==> c.info[id].inTried || c.info[id].refCount != 0
    ensures Prune(e, c, order) == c
  {
    if order != [] {
      PruneNothing(e, c, order[..|order| - 1]);
    }
  }

  // ----- What is written -----

  /** One side of the file lists exactly the entries of that side, each once. */
  lemma {:induction false} SideIs(info: map<Nid, Info>, order: seq<Nid>, tried: bool)
    requires (forall i :: 0 <= i < |order| ==> order[i] in info) && Distinct(order)
    ensures Distinct(Side(info, order, tried))
    ensures forall id :: id in Side(info, order, tried) <==>
              id in order && id in info && (if tried then info[id].inTried else info[id].refCount != 0)
  {
    if order != [] {
      var n := |order| - 1;
      SideIs(info, order[..n], tried);
      assert order == order[..n] + [order[n]];
      var rest := Side(info, order[..n], tried);
      assert order[n] !in order[..n];
      assert order[n] !in rest;
    }
  }

  lemma {:induction false} ListSize(s: seq<Nid>, x: set<Nid>)
    requires Distinct(s) && forall id :: id in s <==> id in x
    ensures |s| == |x|
  {
    if s == [] {
      forall id
        ensures id !in x
      {
        assert id in s <==> id in x;
      }
    } else {
      var n := |s| - 1;
      var y := x - {s[n]};
      assert forall id :: id in s[..n] <==> id in y;
      ListSize(s[..n], y);
      assert x == y + {s[n]};
    }
  }

  lemma SideSize(e: Env, b: Book, order: seq<Nid>, tried: bool)
    requires Inv(e, b) && Listed(b.info, order)
    ensures |Side(b.info, order, tried)| == if tried then b.nTried else b.nNew
    ensures forall id :: id in Side(b.info, order, tried) <==> id in b.info && b.info[id].inTried == tried
    ensures Distinct(Side(b.info, order, tried))
  {
    hide Side;
    SideIs(b.info, order, tried);
    forall id | id in b.info
      ensures b.info[id].refCount != 0 <==> !b.info[id].inTried
    {
      EntryRefs(e, b, id);
    }
    ListSize(Side(b.info, order, tried), Everyone(e, b.info, {}, tried));
    InvCounted(e, b);
  }

  lemma InvCounted(e: Env, b: Book)
    requires Inv(e, b)
    ensures b.nNew == |Everyone(e, b.info, {}, false)| && b.nTried == |Everyone(e, b.info, {}, true)|
  {
  }

  lemma EntryRefs(e: Env, b: Book, id: Nid)
    requires Inv(e, b) && id in b.info
    ensures b.info[id].refCount != 0 <==> !b.info[id].inTried
  {
    hide Shuffled, NewPlaced, TriedPlaced, Referenced, Indexed, Numbered, Tallied, Pending;
    if b.info[id].inTried {
      NoRefsWhenTried(e, b, id);
    }
  }

  /** The numbering a saved file gives the entries: new ones first. */
  function Renumbering(b: Book, order: seq<Nid>): seq<Nid>
    requires forall i :: 0 <= i < |order| ==> order[i] in b.info
  {
    Side(b.info, order, false) + Side(b.info, order, true)
  }

  lemma RenumberingIs(e: Env, b: Book, order: seq<Nid>)
    requires Inv(e, b) && Listed(b.info, order)
    ensures Numbering(b, Renumbering(b, order))
    ensures NewsFirst(b, Side(b.info, order, false), Renumbering(b, order))
    ensures |Renumbering(b, order)| == b.nNew + b.nTried
    ensures forall n :: 0 <= n < |Renumbering(b, order)| ==>
              b.info[Renumbering(b, order)[n]].inTried == (n >= b.nNew)
  {
    hide Inv, Side;
    SideSize(e, b, order, false);
    SideSize(e, b, order, true);
    var news, trieds, ids := Side(b.info, order, false), Side(b.info, order, true), Renumbering(b, order);
    forall n | 0 <= n < |ids|
      ensures ids[n] in b.info && b.info[ids[n]].inTried == (n >= b.nNew)
      ensures ids[n] == if n < |news| then news[n] else trieds[n - |news|]
    {
      var id := ids[n];
      if n < |news| {
        assert id == news[n] && id in news;
      } else {
        assert id == trieds[n - |news|] && id in trieds;
      }
    }
    forall id | id in b.info
      ensures id in ids
    {
      assert id in news || id in trieds;
    }
  }

  // ----- The counts are within what the reader accepts -----

  ghost function Number(s: Slot): int {
    s.bucket * BUCKET_SIZE + s.pos
  }

  lemma NumberIs(s: Slot, t: Slot, buckets: nat)
    requires 0 <= s.bucket < buckets && 0 <= s.pos < BUCKET_SIZE && 0 <= t.bucket < buckets && 0 <= t.pos < BUCKET_SIZE
    ensures 0 <= Number(s) < buckets * BUCKET_SIZE
    ensures Number(s) == Number(t) ==> s == t
  {
  }

  /** No more entries than slots, if every entry can be given a slot of its own. */
  lemma SlotsSuffice(x: set<Nid>, slot: map<Nid, Slot>, buckets: nat)
    requires x <= slot.Keys
    requires forall id :: id in x ==> 0 <= slot[id].bucket < buckets && 0 <= slot[id].pos < BUCKET_SIZE
    requires forall a, b :: a in x && b in x && a != b ==> slot[a] != slot[b]
    ensures |x| <= buckets * BUCKET_SIZE
  {
    var pos := map id | id in x :: Number(slot[id]);
    forall a, b | a in x && b in x && a != b
      ensures pos[a] != pos[b]
    {
      NumberIs(slot[a], slot[b], buckets);
    }
    ImageCard(x, pos);
    UpToIs(buckets * BUCKET_SIZE);
    forall n | n in Image(x, pos)
      ensures n in UpTo(buckets * BUCKET_SIZE)
    {
      var id :| id in x && pos[id] == n;
      NumberIs(slot[id], slot[id], buckets);
    }
    SubsetCard(Image(x, pos), UpTo(buckets * BUCKET_SIZE));
  }

  lemma TriedBound(e: Env, b: Book)
    requires Inv(e, b)
    ensures 0 <= b.nTried <= TRIED_BUCKETS * BUCKET_SIZE
  {
    hide Shuffled, NewPlaced, Referenced, Indexed, Numbered, Balanced, Pending;
    var x := Everyone(e, b.info, {}, true);
    var slot := map id | id in x :: TriedSlot(e, b.key, b.info[id].service);
    forall id | id in x
      ensures b.tried[slot[id]] == id
    {
    }
    SlotsSuffice(x, slot, TRIED_BUCKETS);
    InvCounted(e, b);
  }

  lemma OneSlot(e: Env, b: Book, id: Nid) returns (s: Slot)
    requires Inv(e, b) && id in b.info && !b.info[id].inTried
    ensures s in b.untried && b.untried[s] == id && InNew(s)
  {
    hide Shuffled, TriedPlaced, Indexed, Numbered, Tallied, Pending;
    assert |SlotsOf(b.untried, id)| > 0;
    Inhabited(SlotsOf(b.untried, id));
    s :| s in SlotsOf(b.untried, id);
    assert HoldsNew(e, b.key, b.info, s, b.untried[s]);
  }

  lemma NewBound(e: Env, b: Book)
    requires Inv(e, b)
    ensures 0 <= b.nNew <= NEW_BUCKETS * BUCKET_SIZE
  {
    var x := Everyone(e, b.info, {}, false);
    var slot: map<Nid, Slot> := map[];
    var left := x;
    hide Inv;
    while left != {}
      invariant left <= x && slot.Keys == x - left
      invariant forall id :: id in slot ==> slot[id] in b.untried && b.untried[slot[id]] == id && InNew(slot[id])
      decreases |left|
    {
      InhabitedInts(left);
      var id :| id in left;
      var s := OneSlot(e, b, id);
      slot := slot[id := s];
      left := left - {id};
    }
    SlotsSuffice(x, slot, NEW_BUCKETS);
    InvCounted(e, b);
  }

  // ----- The round trip -----

  lemma FlipBack()
    ensures Flip(Flip(NEW_BUCKETS)) == NEW_BUCKETS
  {
  }

  lemma SavedReadable(e: Env, b: Book, order: seq<Nid>, asmap: int)
    requires Inv(e, b) && Listed(b.info, order)
    ensures Readable(Saved(b, order, asmap)) && Restorable(Saved(b, order, asmap), asmap)
  {
    hide Inv, Side, Row, Records;
    SideSize(e, b, order, false);
    SideSize(e, b, order, true);
    NewBound(e, b);
    TriedBound(e, b);
    FlipBack();
    SavedFields(b, order, asmap);
  }

  lemma SavedFields(b: Book, order: seq<Nid>, asmap: int)
    requires Listed(b.info, order)
    ensures var f := Saved(b, order, asmap);
      && |f.news| == |Side(b.info, order, false)| && |f.trieds| == |Side(b.info, order, true)|
      && |f.table| == NEW_BUCKETS
      && forall k :: 0 <= k < NEW_BUCKETS ==> f.table[k] == Row(b.untried, Side(b.info, order, false), k, BUCKET_SIZE)
  {
  }

  lemma SavedEntries(e: Env, b: Book, order: seq<Nid>, asmap: int)
    requires Inv(e, b) && Listed(b.info, order)
    ensures var ids := Renumbering(b, order); Img(e, Entries(e, Saved(b, order, asmap)), b, ids, |ids|, map[])
  {
    hide Inv, Img, Side, Row, AddAll;
    var ids, f := Renumbering(b, order), Saved(b, order, asmap);
    RenumberingIs(e, b, order);
    SideSize(e, b, order, false);
    SideSize(e, b, order, true);
    var start := Empty(b.key).(nNew := b.nNew, nTried := b.nTried);
    StartImg(e, b, ids);
    AddAllImg(e, start, b, ids, 0, b.nNew, false);
    assert ids[0..0 + b.nNew] == Side(b.info, order, false);
    var c := AddAll(e, start, f.news, false);
    AddAllImg(e, c, b, ids, b.nNew, b.nTried, true);
    assert ids[b.nNew..b.nNew + b.nTried] == Side(b.info, order, true);
  }

  /** Saved and read back, with nothing lost but what is kept in memory only. */
  ghost predicate SameUpToNumbers(e: Env, b: Book, c: Book, ids: seq<Nid>) {
    && Numbering(b, ids) && |c.info| == |ids|
    && (forall n :: 0 <= n < |ids| ==>
          n in c.info && c.info[n] == b.info[ids[n]].(lastTry := 0, lastCount := 0, randomPos := n))
    && ImgIds(c.ids, b, ids, |ids|)
    && ImgTried(e, c.tried, b, ids, |ids|) && c.tried.Keys == b.tried.Keys
    && ImgNew(c.untried, ids, b.untried)
    && (forall n :: TallyOf(c.counts, n) == TallyOf(b.counts, n))
    && c.key == b.key && c.nNew == b.nNew && c.nTried == b.nTried
  }

  lemma ImgSame(e: Env, b: Book, c: Book, ids: seq<Nid>)
    requires Inv(e, b) && Img(e, c, b, ids, |ids|, b.untried)
    ensures SameUpToNumbers(e, b, c, ids) && Inv(e, c) && (Dated(c.info) <==> Stamped(b.info))
  {
    hide Inv, ImgIds, ImgTried, ImgCounts, ImgNew, SlotsOf;
    ImgInv(e, c, b, ids);
    ImgDated(c, b, ids);
    ImgShuffled(c, b, ids, b.untried);
    forall n | 0 <= n < |ids|
      ensures c.info[n] == b.info[ids[n]].(lastTry := 0, lastCount := 0, randomPos := n)
    {
      assert c.info[n] == Reborn(b.info[ids[n]], n, |SlotsOf(b.untried, ids[n])|);
    }
    TriedKeys(e, b, c, ids);
  }

  lemma TriedKeys(e: Env, b: Book, c: Book, ids: seq<Nid>)
    requires Inv(e, b) && Numbering(b, ids) && ImgTried(e, c.tried, b, ids, |ids|)
    ensures c.tried.Keys == b.tried.Keys
  {
    hide Shuffled, NewPlaced, Referenced, Indexed, Numbered, Balanced, Pending, Tallied;
    forall s | s in b.tried
      ensures s in c.tried
    {
      assert HoldsTried(e, b.key, b.info, s, b.tried[s]);
      var n :| 0 <= n < |ids| && ids[n] == b.tried[s];
      assert b.info[ids[n]].inTried;
    }
  }

  /**
   Any consistent state, written and read back with the same asmap, comes back if and only if its
   successes are in order, which the check at the end of reading asks: every entry with its stored
   fields, its reference count and its side, every table slot with its entry, every counter; only
   the numbers of the entries change, to the given ones.
   */
  lemma RoundTrip(e: Env, b: Book, order: seq<Nid>, asmap: int, order': seq<Nid>)
    requires Inv(e, b) && Listed(b.info, order)
    ensures Loaded(e, Saved(b, order, asmap), asmap, order').Some? <==> Stamped(b.info)
    ensures Stamped(b.info) ==>
      var c := Loaded(e, Saved(b, order, asmap), asmap, order').value;
      Inv(e, c) && SameUpToNumbers(e, b, c, Renumbering(b, order))
  {
    hide Inv, Img, Side, Row, AddAll, Saved, Readable, Checked, Unchecked, SameUpToNumbers, PutAll, Pairs, Entries, Core;
    var ids, f := Renumbering(b, order), Saved(b, order, asmap);
    var news := Side(b.info, order, false);
    SavedReadable(e, b, order, asmap);
    RenumberingIs(e, b, order);
    SavedEntries(e, b, order, asmap);
    SavedFields(b, order, asmap);
    SavedCounts(b, order, asmap);
    var c := Entries(e, f);
    TableImg(e, c, b, news, ids, f.table, NEW_BUCKETS);
    assert f.table[..NEW_BUCKETS] == f.table;
    InvPlaced(e, b);
    PassedAll(e, b);
    var d := PutAll(e, c, Pairs(f.table, f.nNew), true);
    ImgSame(e, b, d, ids);
    forall id | id in d.info
      ensures d.info[id].inTried || d.info[id].refCount != 0
    {
      EntryRefs(e, d, id);
    }
    PruneNothing(e, d, order');
    InvUnchecked(e, d);
    InvIffChecked(e, d);
  }

  lemma SavedCounts(b: Book, order: seq<Nid>, asmap: int)
    requires Listed(b.info, order)
    ensures Saved(b, order, asmap).nNew == b.nNew
  {
  }
}
