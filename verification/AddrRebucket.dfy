/**
 Reading a file under another asmap or bucket count: who keeps a place in the new table and who is
 lost, and which tried records survive a change of buckets.
 */
module AddrRebucket {
  import opened Basics
  import opened AddrTypes
  import opened AddrOps
  import opened AddrInv
  import opened AddrProofs
  import opened AddrQueries
  import opened AddrDisk
  import opened AddrDiskProofs

  // ----- References by source -----

  /** The slot an entry's own source calls for. */
  function OwnSlot(e: Env, key: int, i: Info): Slot {
    NewSlot(e, key, i.service, i.source)
  }

  /** The j-th pair of the file names an entry that may have the slot. */
  ghost predicate Claims(e: Env, b: Book, ps: seq<Pair>, j: nat, s: Slot)
    requires j < |ps|
  {
    ps[j].index in b.info && e.valid(b.info[ps[j].index].service) && OwnSlot(e, b.key, b.info[ps[j].index]) == s
  }

  /** No pair before the i-th names another entry that may have the slot. */
  ghost predicate Foremost(e: Env, b: Book, ps: seq<Pair>, i: nat, s: Slot, id: Nid)
    requires i <= |ps|
  {
    forall j :: 0 <= j < i && Claims(e, b, ps, j, s) ==> ps[j].index == id
  }

  /** An entry is named before any other that may have its slot. */
  ghost predicate Wins(e: Env, b: Book, ps: seq<Pair>, id: Nid) {
    && id in b.info && e.valid(b.info[id].service)
    && exists i :: 0 <= i < |ps| && ps[i].index == id && Foremost(e, b, ps, i, OwnSlot(e, b.key, b.info[id]), id)
  }

  /** The slot is claimed by someone. */
  ghost predicate Sought(e: Env, b: Book, ps: seq<Pair>, s: Slot) {
    exists j :: 0 <= j < |ps| && Claims(e, b, ps, j, s)
  }

  /** Nobody has a reference yet. */
  ghost predicate Blank(b: Book) {
    b.untried == map[] && forall id :: id in b.info ==> b.info[id].refCount == 0
  }

  lemma WinsSought(e: Env, b: Book, ps: seq<Pair>, id: Nid)
    requires Wins(e, b, ps, id)
    ensures Sought(e, b, ps, OwnSlot(e, b.key, b.info[id]))
  {
    var i :| 0 <= i < |ps| && ps[i].index == id && Foremost(e, b, ps, i, OwnSlot(e, b.key, b.info[id]), id);
    assert Claims(e, b, ps, i, OwnSlot(e, b.key, b.info[id]));
  }

  /** Two entries with the same slot do not both win. */
  lemma OneWinner(e: Env, b: Book, ps: seq<Pair>, x: Nid, y: Nid)
    requires Wins(e, b, ps, x) && Wins(e, b, ps, y)
    requires OwnSlot(e, b.key, b.info[x]) == OwnSlot(e, b.key, b.info[y])
    ensures x == y
  {
    var s := OwnSlot(e, b.key, b.info[x]);
    var i :| 0 <= i < |ps| && ps[i].index == x && Foremost(e, b, ps, i, s, x);
    var j :| 0 <= j < |ps| && ps[j].index == y && Foremost(e, b, ps, j, s, y);
    assert Claims(e, b, ps, i, s) && Claims(e, b, ps, j, s);
  }

  lemma ClaimsMore(e: Env, b: Book, ps: seq<Pair>, p: Pair, s: Slot)
    ensures forall j :: 0 <= j < |ps| ==> (Claims(e, b, ps + [p], j, s) <==> Claims(e, b, ps, j, s))
    ensures Sought(e, b, ps + [p], s) <==>
      Sought(e, b, ps, s) || (p.index in b.info && e.valid(b.info[p.index].service) && OwnSlot(e, b.key, b.info[p.index]) == s)
  {
    var qs := ps + [p];
    assert forall j :: 0 <= j < |ps| ==> qs[j] == ps[j];
    assert qs[|ps|] == p;
    if Sought(e, b, ps, s) {
      var j :| 0 <= j < |ps| && Claims(e, b, ps, j, s);
      assert Claims(e, b, qs, j, s);
    }
    if p.index in b.info && e.valid(b.info[p.index].service) && OwnSlot(e, b.key, b.info[p.index]) == s {
      assert Claims(e, b, qs, |ps|, s);
    }
  }

  /** A further pair makes its entry win exactly when nobody has claimed the slot before. */
  lemma WinsMore(e: Env, b: Book, ps: seq<Pair>, p: Pair, id: Nid)
    ensures Wins(e, b, ps + [p], id) <==>
      || Wins(e, b, ps, id)
      || (&& id in b.info && e.valid(b.info[id].service) && p.index == id
          && !Sought(e, b, ps, OwnSlot(e, b.key, b.info[id])))
  {
    if id in b.info && e.valid(b.info[id].service) {
      var qs, s := ps + [p], OwnSlot(e, b.key, b.info[id]);
      ClaimsMore(e, b, ps, p, s);
      forall i | 0 <= i <= |ps|
        ensures Foremost(e, b, qs, i, s, id) <==> Foremost(e, b, ps, i, s, id)
      {
        assert forall j :: 0 <= j < i ==> qs[j] == ps[j];
      }
      if Wins(e, b, ps, id) {
        var i :| 0 <= i < |ps| && ps[i].index == id && Foremost(e, b, ps, i, s, id);
        assert qs[i].index == id && Foremost(e, b, qs, i, s, id);
      }
      if p.index == id && !Sought(e, b, ps, s) {
        assert qs[|ps|].index == id && Foremost(e, b, qs, |ps|, s, id);
      }
      if Wins(e, b, qs, id) && !Wins(e, b, ps, id) {
        var i :| 0 <= i < |qs| && qs[i].index == id && Foremost(e, b, qs, i, s, id);
        assert i == |ps|;
        forall j | 0 <= j < |ps|
          ensures !Claims(e, b, ps, j, s)
        {
          if Claims(e, b, ps, j, s) {
            WinsEarlier(e, b, ps, j, id);
          }
        }
      }
    }
  }

  lemma WinsEarlier(e: Env, b: Book, ps: seq<Pair>, j: nat, id: Nid)
    requires id in b.info && j < |ps| && Claims(e, b, ps, j, OwnSlot(e, b.key, b.info[id]))
    requires Foremost(e, b, ps, |ps|, OwnSlot(e, b.key, b.info[id]), id)
    ensures Wins(e, b, ps, id)
  {
    assert Foremost(e, b, ps, j, OwnSlot(e, b.key, b.info[id]), id);
  }

  ghost predicate PlacedInfo(e: Env, b: Book, ps: seq<Pair>, info: map<Nid, Info>) {
    && info.Keys == b.info.Keys
    && forall id :: id in b.info ==> info[id] == b.info[id].(refCount := if Wins(e, b, ps, id) then 1 else 0)
  }

  ghost predicate PlacedTable(e: Env, b: Book, ps: seq<Pair>, t: map<Slot, Nid>) {
    && (forall s :: s in t <==> Sought(e, b, ps, s))
    && (forall s :: s in t ==> Wins(e, b, ps, t[s]) && OwnSlot(e, b.key, b.info[t[s]]) == s)
  }

  /** The new table holds exactly the winners, each at its own slot with one reference. */
  ghost predicate Placed(e: Env, b: Book, ps: seq<Pair>, c: Book) {
    c == b.(info := c.info, untried := c.untried) && PlacedInfo(e, b, ps, c.info) && PlacedTable(e, b, ps, c.untried)
  }

  /** What a further pair does: nothing, or it makes its entry win. */
  ghost predicate Newly(e: Env, b: Book, ps: seq<Pair>, p: Pair) {
    && p.index in b.info && e.valid(b.info[p.index].service) && !Sought(e, b, ps, OwnSlot(e, b.key, b.info[p.index]))
  }

  lemma PlacedInfoNext(e: Env, b: Book, ps: seq<Pair>, p: Pair, info: map<Nid, Info>)
    requires PlacedInfo(e, b, ps, info)
    ensures PlacedInfo(e, b, ps + [p],
      if Newly(e, b, ps, p) then info[p.index := info[p.index].(refCount := info[p.index].refCount + 1)] else info)
  {
    hide Wins, Sought, NewSlot;
    forall id
      ensures Wins(e, b, ps + [p], id) <==> Wins(e, b, ps, id) || (Newly(e, b, ps, p) && p.index == id)
    {
      WinsMore(e, b, ps, p, id);
    }
    if p.index in b.info && Wins(e, b, ps, p.index) {
      WinsSought(e, b, ps, p.index);
    }
  }

  lemma PlacedTableNext(e: Env, b: Book, ps: seq<Pair>, p: Pair, t: map<Slot, Nid>)
    requires PlacedTable(e, b, ps, t)
    ensures PlacedTable(e, b, ps + [p],
      if Newly(e, b, ps, p) then t[OwnSlot(e, b.key, b.info[p.index]) := p.index] else t)
  {
    hide Wins, Sought, NewSlot;
    forall id
      ensures Wins(e, b, ps + [p], id) <==> Wins(e, b, ps, id) || (Newly(e, b, ps, p) && p.index == id)
    {
      WinsMore(e, b, ps, p, id);
    }
    forall s
      ensures Sought(e, b, ps + [p], s) <==>
        Sought(e, b, ps, s) || (p.index in b.info && e.valid(b.info[p.index].service) && OwnSlot(e, b.key, b.info[p.index]) == s)
    {
      ClaimsMore(e, b, ps, p, s);
    }
  }

  lemma PlacedNext(e: Env, b: Book, ps: seq<Pair>, p: Pair, c: Book)
    requires Placed(e, b, ps, c)
    ensures Placed(e, b, ps + [p], PutBack(e, c, p, false))
  {
    hide Wins, Sought, NewSlot;
    PlacedInfoNext(e, b, ps, p, c.info);
    PlacedTableNext(e, b, ps, p, c.untried);
    hide PlacedTable;
    assert PlacedTable(e, b, ps, c.untried);
    if p.index in b.info {
      SoughtIs(e, b, ps, c.untried, OwnSlot(e, b.key, b.info[p.index]));
    }
  }

  lemma SoughtIs(e: Env, b: Book, ps: seq<Pair>, t: map<Slot, Nid>, s: Slot)
    requires PlacedTable(e, b, ps, t)
    ensures s in t <==> Sought(e, b, ps, s)
  {
  }

  /** Giving references by source to entries that have none. */
  lemma {:induction false} PutByOwn(e: Env, b: Book, ps: seq<Pair>)
    requires Blank(b)
    ensures Placed(e, b, ps, PutAll(e, b, ps, false))
  {
    hide Placed, PutBack, Blank;
    if ps == [] {
      PlacedNone(e, b);
    } else {
      var n := |ps| - 1;
      PutByOwn(e, b, ps[..n]);
      PlacedNext(e, b, ps[..n], ps[n], PutAll(e, b, ps[..n], false));
      assert ps == ps[..n] + [ps[n]];
    }
  }

  lemma PlacedNone(e: Env, b: Book)
    requires Blank(b)
    ensures Placed(e, b, [], b)
  {
  }

  // ----- Either way of giving references -----

  /** Whoever is in the new table has a reference, and nobody has more of them than allowed. */
  ghost predicate Credited(b: Book) {
    && (forall id :: id in b.info ==> 0 <= b.info[id].refCount <= MAX_REFS)
    && (forall s :: s in b.untried ==> b.untried[s] in b.info && b.info[b.untried[s]].refCount > 0)
  }

  /** References and slots only ever come in; nothing else about an entry changes. */
  ghost predicate Grown(b: Book, c: Book) {
    && c.key == b.key && c.info.Keys == b.info.Keys
    && (forall id :: id in b.info ==>
          c.info[id] == b.info[id].(refCount := c.info[id].refCount) && c.info[id].refCount >= b.info[id].refCount)
    && (forall s :: s in b.untried ==> s in c.untried && c.untried[s] == b.untried[s])
  }

  lemma AddRefGrows(b: Book, id: Nid, s: Slot)
    requires Credited(b) && id in b.info && b.info[id].refCount < MAX_REFS && s !in b.untried
    ensures Credited(AddRef(b, id, s)) && Grown(b, AddRef(b, id, s)) && AddRef(b, id, s).info[id].refCount > 0
  {
  }

  lemma PutGrows(e: Env, b: Book, p: Pair, restore: bool)
    requires Credited(b)
    ensures Credited(PutBack(e, b, p, restore)) && Grown(b, PutBack(e, b, p, restore))
    ensures p.index in b.info && e.valid(b.info[p.index].service) ==>
      var c := PutBack(e, b, p, restore); var own := OwnSlot(e, b.key, b.info[p.index]);
      c.info[p.index].refCount > 0 || (own in c.untried && c.untried[own] != p.index)
  {
    hide NewSlot, AddRef, Grown, Credited;
    GrownSelf(b);
    if p.index in b.info {
      var s := Slot(p.bucket, BucketPos(e, b.key, true, p.bucket, b.info[p.index].service));
      var own := OwnSlot(e, b.key, b.info[p.index]);
      if b.info[p.index].refCount < MAX_REFS {
        if s !in b.untried {
          AddRefGrows(b, p.index, s);
        }
        if own !in b.untried {
          AddRefGrows(b, p.index, own);
        }
      }
      if own in b.untried {
        CreditedAt(b, own);
      }
    }
  }

  lemma CreditedAt(b: Book, s: Slot)
    requires Credited(b) && s in b.untried
    ensures b.untried[s] in b.info && b.info[b.untried[s]].refCount > 0
  {
  }

  lemma GrownTwice(b: Book, c: Book, d: Book)
    requires Grown(b, c) && Grown(c, d)
    ensures Grown(b, d)
  {
  }

  /**
   Whatever the file says and whether or not old buckets can be used: an entry with a valid address
   that is named at all has a reference in the end, or its own slot is held by another.
   */
  lemma {:induction false} NamedKept(e: Env, b: Book, ps: seq<Pair>, restore: bool, i: nat)
    requires Credited(b) && i <= |ps|
    ensures var c := PutAll(e, b, ps, restore);
      && Credited(c) && Grown(b, c)
      && (i < |ps| && ps[i].index in b.info && e.valid(b.info[ps[i].index].service) ==>
            var id := ps[i].index; var own := OwnSlot(e, b.key, b.info[id]);
            c.info[id].refCount > 0 || (own in c.untried && c.untried[own] != id))
  {
    hide PutBack, Credited, NewSlot;
    if ps == [] {
      GrownSelf(b);
    } else {
      var n := |ps| - 1;
      NamedKept(e, b, ps[..n], restore, if i < n then i else n);
      var c := PutAll(e, b, ps[..n], restore);
      PutGrows(e, c, ps[n], restore);
      GrownTwice(b, c, PutAll(e, b, ps, restore));
    }
  }

  lemma GrownSelf(b: Book)
    ensures Grown(b, b)
  {
  }

  // ----- What the file's records become -----

  /** The first records are the entries with the first numbers. */
  ghost predicate RecordsFirst(b: Book, rs: seq<Record>) {
    && b.untried == map[] && b.idCount >= |rs| && |b.random| == b.idCount
    && (forall k :: 0 <= k < |rs| ==> k in b.info && b.info[k] == Restored(rs[k], false, k))
    && (forall id :: id in b.info ==> 0 <= id < b.idCount && b.info[id].refCount == 0)
    && (forall id :: id in b.info && id >= |rs| ==> b.info[id].inTried)
  }

  lemma {:induction false} NewsFirstRead(e: Env, b: Book, rs: seq<Record>)
    requires b.info == map[] && b.untried == map[] && b.idCount == 0 && b.random == []
    ensures var c := AddAll(e, b, rs, false); RecordsFirst(c, rs) && c.idCount == |rs| && c.key == b.key && c.tried == b.tried
  {
    if rs != [] {
      NewsFirstRead(e, b, rs[..|rs| - 1]);
    }
  }

  lemma {:induction false} TriedsAfter(e: Env, b: Book, news: seq<Record>, rs: seq<Record>)
    requires RecordsFirst(b, news)
    ensures RecordsFirst(AddAll(e, b, rs, true), news) && AddAll(e, b, rs, true).key == b.key
  {
    if rs != [] {
      TriedsAfter(e, b, news, rs[..|rs| - 1]);
    }
  }

  lemma EntriesAre(e: Env, f: File)
    ensures var b := Entries(e, f); RecordsFirst(b, f.news) && b.key == f.key && Blank(b)
  {
    hide AddAll;
    var start := Empty(f.key).(nNew := f.nNew, nTried := f.nTried);
    NewsFirstRead(e, start, f.news);
    TriedsAfter(e, AddAll(e, start, f.news, false), f.news, f.trieds);
  }

  lemma {:induction false} RowPairsIn(bucket: int, row: seq<int>, nNew: int)
    ensures forall i :: 0 <= i < |RowPairs(bucket, row, nNew)| ==> 0 <= RowPairs(bucket, row, nNew)[i].index < nNew
  {
    if row != [] {
      RowPairsIn(bucket, row[..|row| - 1], nNew);
    }
  }

  lemma {:induction false} PairsIn(table: seq<seq<int>>, nNew: int)
    ensures forall i :: 0 <= i < |Pairs(table, nNew)| ==> 0 <= Pairs(table, nNew)[i].index < nNew
  {
    if table != [] {
      PairsIn(table[..|table| - 1], nNew);
      RowPairsIn(|table| - 1, table[|table| - 1], nNew);
    }
  }

  // ----- Pruning -----

  /** Entries in a table stay, whoever stays is as it was, and both tables too. */
  ghost predicate Pruned(b: Book, c: Book) {
    && c.untried == b.untried && c.tried == b.tried && c.key == b.key
    && (forall id :: id in c.info ==> id in b.info && Moved(b.info[id], c.info[id]))
    && (forall id :: id in b.info && (b.info[id].inTried || b.info[id].refCount != 0) ==> id in c.info)
  }

  lemma PrunedNext(e: Env, b: Book, c: Book, id: Nid)
    requires Pruned(b, c) && Sturdy(e, c) && id in c.info && !c.info[id].inTried && c.info[id].refCount == 0
    ensures Pruned(b, Delete(e, c, id))
  {
    hide Sturdy, Delete;
    DeleteSturdy(e, c, id);
    DeleteFrame(e, c, id);
    var d := Delete(e, c, id);
    forall x | x in d.info
      ensures x in b.info && Moved(b.info[x], d.info[x])
    {
      assert Moved((c.info - {id})[x], d.info[x]);
      assert Moved(b.info[x], c.info[x]);
    }
  }

  lemma {:induction false} PruneKeeps(e: Env, b: Book, order: seq<Nid>)
    requires Sturdy(e, b)
    ensures Pruned(b, Prune(e, b, order))
  {
    hide Sturdy, Delete;
    if order != [] {
      var c, id := Prune(e, b, order[..|order| - 1]), order[|order| - 1];
      PruneSturdy(e, b, order[..|order| - 1]);
      PruneKeeps(e, b, order[..|order| - 1]);
      if id in c.info && !c.info[id].inTried && c.info[id].refCount == 0 {
        PrunedNext(e, b, c, id);
      }
    }
  }

  // ----- The whole file -----

  function RecordSlot(e: Env, key: int, r: Record): Slot {
    NewSlot(e, key, r.service, r.source)
  }

  /** Pair `j` of the file names a valid record that its source would put into the slot. */
  ghost predicate Names(e: Env, f: File, j: nat, s: Slot)
    requires j < |Pairs(f.table, f.nNew)| && |f.news| == f.nNew
  {
    PairsIn(f.table, f.nNew);
    var r := f.news[Pairs(f.table, f.nNew)[j].index];
    e.valid(r.service) && RecordSlot(e, f.key, r) == s
  }

  /** A record is valid and named before any other that its slot is for. */
  ghost predicate Keeps(e: Env, f: File, k: nat)
    requires |f.news| == f.nNew && k < |f.news|
  {
    var ps := Pairs(f.table, f.nNew);
    && e.valid(f.news[k].service)
    && exists i :: 0 <= i < |ps| && ps[i].index == k &&
         forall j :: 0 <= j < i && Names(e, f, j, RecordSlot(e, f.key, f.news[k])) ==> ps[j].index == k
  }

  lemma WinsIsKeeps(e: Env, f: File, k: nat)
    requires |f.news| == f.nNew && k < |f.news|
    ensures Wins(e, Entries(e, f), Pairs(f.table, f.nNew), k) <==> Keeps(e, f, k)
  {
    hide Entries, NewSlot, Pairs;
    EntriesAre(e, f);
    var b, ps, s := Entries(e, f), Pairs(f.table, f.nNew), RecordSlot(e, f.key, f.news[k]);
    PairsIn(f.table, f.nNew);
    assert b.info[k] == Restored(f.news[k], false, k);
    forall j | 0 <= j < |ps|
      ensures Claims(e, b, ps, j, s) <==> Names(e, f, j, s)
    {
      assert b.info[ps[j].index] == Restored(f.news[ps[j].index], false, ps[j].index);
    }
    if Wins(e, b, ps, k) {
      var i :| 0 <= i < |ps| && ps[i].index == k && Foremost(e, b, ps, i, s, k);
    }
    if Keeps(e, f, k) {
      var i :| 0 <= i < |ps| && ps[i].index == k && forall j :: 0 <= j < i && Names(e, f, j, s) ==> ps[j].index == k;
      assert Foremost(e, b, ps, i, s, k);
    }
  }

  /**
   A file that cannot be restored bucket by bucket: a new record is kept if and only if it is valid
   and named before any other that is after its slot; then it has exactly one reference, there.
   */
  lemma Rebucketed(e: Env, f: File, asmap: int, order: seq<Nid>, k: nat)
    requires Readable(f) && !Restorable(f, asmap) && k < f.nNew
    requires forall id :: id in Entries(e, f).info ==> id in order
    ensures var c, own := Read(e, f, asmap, order), RecordSlot(e, f.key, f.news[k]);
      && (k in c.info <==> Keeps(e, f, k))
      && (k in c.info ==>
            && Stored(c.info[k]) == f.news[k] && !c.info[k].inTried && c.info[k].refCount == 1
            && own in c.untried && c.untried[own] == k && SlotsOf(c.untried, k) == {own})
      && ((exists j :: 0 <= j < |Pairs(f.table, f.nNew)| && Names(e, f, j, own)) ==> own in c.untried)
  {
    hide Entries, NewSlot, Pairs, PutAll, Prune, Sturdy, Keeps, Wins, Readable;
    var b, ps := Entries(e, f), Pairs(f.table, f.nNew);
    ReadableSize(f);
    EntriesAre(e, f);
    EntriesSturdy(e, f);
    PutByOwn(e, b, ps);
    PutAllSturdy(e, b, ps, false);
    var d := PutAll(e, b, ps, false);
    PruneKeeps(e, d, order);
    PruneSturdy(e, d, order);
    WinsIsKeeps(e, f, k);
    var c, own := Prune(e, d, order), RecordSlot(e, f.key, f.news[k]);
    assert b.info[k] == Restored(f.news[k], false, k);
    assert k in order;
    assert k in c.info ==> Moved(d.info[k], c.info[k]);
    if Wins(e, b, ps, k) {
      WinsSought(e, b, ps, k);
      OneWinner(e, b, ps, k, d.untried[own]);
      assert Moved(d.info[k], c.info[k]);
    }
    if j :| 0 <= j < |ps| && Names(e, f, j, own) {
      PairsIn(f.table, f.nNew);
      assert b.info[ps[j].index] == Restored(f.news[ps[j].index], false, ps[j].index);
      assert Claims(e, b, ps, j, own);
      assert Sought(e, b, ps, own);
    }
  }

  lemma ReadableSize(f: File)
    requires Readable(f)
    ensures |f.news| == f.nNew
  {
  }

  lemma EntriesSturdy(e: Env, f: File)
    ensures Sturdy(e, Entries(e, f))
  {
    hide Sturdy, AddAll;
    var start := Empty(f.key).(nNew := f.nNew, nTried := f.nTried);
    StartSturdy(e, f);
    AddAllSturdy(e, start, f.news, false);
    AddAllSturdy(e, AddAll(e, start, f.news, false), f.trieds, true);
  }

  // ----- A saved state under another asmap -----

  lemma {:induction false} RowHas(t: map<Slot, Nid>, ids: seq<Nid>, bucket: int, p: nat, pos: nat)
    requires pos < p && Slot(bucket, pos) in t
    ensures PlaceIn(ids, t[Slot(bucket, pos)]) in Row(t, ids, bucket, p)
  {
    hide PlaceIn;
    if pos < p - 1 {
      RowHas(t, ids, bucket, p - 1, pos);
    }
  }

  lemma {:induction false} RowPairsHas(bucket: int, row: seq<int>, nNew: int, x: int)
    requires x in row && 0 <= x < nNew
    ensures Pair(bucket, x) in RowPairs(bucket, row, nNew)
  {
    var n := |row| - 1;
    if row[n] != x {
      assert x in row[..n];
      RowPairsHas(bucket, row[..n], nNew, x);
    }
  }

  lemma {:induction false} PairsHas(table: seq<seq<int>>, nNew: int, k: nat, x: int)
    requires k < |table| && x in table[k] && 0 <= x < nNew
    ensures Pair(k, x) in Pairs(table, nNew)
  {
    hide RowPairs;
    var n := |table| - 1;
    if k < n {
      PairsHas(table[..n], nNew, k, x);
    } else {
      RowPairsHas(n, table[n], nNew, x);
    }
  }

  lemma PlaceOf(ids: seq<Nid>, k: nat)
    requires Distinct(ids) && k < |ids|
    ensures PlaceIn(ids, ids[k]) == k
  {
    hide PlaceIn;
    var n := PlaceIn(ids, ids[k]);
    assert n <= k;
  }

  /** Every new entry of a consistent state is named in the file. */
  lemma SavedNames(e: Env, b: Book, order: seq<Nid>, asmap: int, k: nat) returns (j: nat)
    requires Inv(e, b) && Listed(b.info, order) && k < |Side(b.info, order, false)|
    ensures var f := Saved(b, order, asmap);
      && f.nNew == |f.news| == |Side(b.info, order, false)| && j < |Pairs(f.table, f.nNew)| && Pairs(f.table, f.nNew)[j].index == k
  {
    hide Core, Pending, Side, Row, Pairs, PlaceIn;
    SideSize(e, b, order, false);
    SavedFields(b, order, asmap);
    SavedCounts(b, order, asmap);
    var f, news := Saved(b, order, asmap), Side(b.info, order, false);
    var id := news[k];
    assert id in news;
    var s := SlotOf(e, b, id);
    NewInRange(e, b, s);
    PlaceOf(news, k);
    RowHas(b.untried, news, s.bucket, BUCKET_SIZE, s.pos);
    PairsHas(f.table, f.nNew, s.bucket, k);
    var ps := Pairs(f.table, f.nNew);
    j :| 0 <= j < |ps| && ps[j] == Pair(s.bucket, k);
  }

  lemma NewInRange(e: Env, b: Book, s: Slot)
    requires Core(e, b, {}, {}) && s in b.untried
    ensures InNew(s) && Slot(s.bucket, s.pos) == s
  {
    assert HoldsNew(e, b.key, b.info, s, b.untried[s]);
  }

  /** A valid entry that is after the same slot as another. */
  predicate Rivals(e: Env, key: int, i: Info, j: Info) {
    e.valid(i.service) && OwnSlot(e, key, i) == OwnSlot(e, key, j)
  }

  /** No other new entry with a valid address has the same own slot. */
  ghost predicate Unrivalled(e: Env, b: Book, id: Nid)
    requires id in b.info
  {
    forall x :: x in b.info && !b.info[x].inTried && Rivals(e, b.key, b.info[x], b.info[id]) ==> x == id
  }

  lemma UnrivalledKeeps(e: Env, e': Env, b: Book, order: seq<Nid>, asmap: int, k: nat)
    requires Inv(e, b) && Listed(b.info, order) && k < |Side(b.info, order, false)|
    requires var id := Side(b.info, order, false)[k]; e'.valid(b.info[id].service) && Unrivalled(e', b, id)
    ensures var f := Saved(b, order, asmap); |f.news| == f.nNew && k < |f.news| && Keeps(e', f, k)
  {
    hide Core, Pending, Side, Pairs, NewSlot, Row;
    var j := SavedNames(e, b, order, asmap, k);
    SideSize(e, b, order, false);
    SavedFields(b, order, asmap);
    var f, news := Saved(b, order, asmap), Side(b.info, order, false);
    var ps, s := Pairs(f.table, f.nNew), RecordSlot(e', f.key, f.news[k]);
    PairsIn(f.table, f.nNew);
    SavedRecord(b, order, asmap, k);
    forall i | 0 <= i < j && Names(e', f, i, s)
      ensures ps[i].index == k
    {
      SavedRecord(b, order, asmap, ps[i].index);
      assert news[ps[i].index] in news;
    }
  }

  lemma SavedRecord(b: Book, order: seq<Nid>, asmap: int, k: nat)
    requires Listed(b.info, order) && k < |Side(b.info, order, false)|
    ensures var f := Saved(b, order, asmap);
      && k < |f.news| && f.news[k] == Stored(b.info[Side(b.info, order, false)[k]]) && f.key == b.key
  {
    hide Side, Row;
  }

  lemma OtherAsmap(b: Book, order: seq<Nid>, asmap: int, asmap': int)
    requires Listed(b.info, order) && asmap != asmap'
    ensures !Restorable(Saved(b, order, asmap), asmap')
  {
    hide Side, Row;
  }

  /**
   A consistent state read under another asmap: every new entry whose address is still valid keeps a
   place unless another has its own slot, and no slot that one of them is after is left empty.
   */
  lemma SavedRebucketed(e: Env, e': Env, b: Book, order: seq<Nid>, asmap: int, asmap': int, order': seq<Nid>, k: nat)
    requires Inv(e, b) && Listed(b.info, order) && asmap != asmap' && k < b.nNew
    requires forall id :: id in Entries(e', Saved(b, order, asmap)).info ==> id in order'
    ensures |Side(b.info, order, false)| == b.nNew && Readable(Saved(b, order, asmap))
    ensures var id, c := Side(b.info, order, false)[k], Read(e', Saved(b, order, asmap), asmap', order');
      var own := OwnSlot(e', b.key, b.info[id]);
      && (k in c.info ==>
            && Stored(c.info[k]) == Stored(b.info[id]) && c.info[k].refCount == 1 && own in c.untried && c.untried[own] == k)
      && (k in c.info ==> e'.valid(b.info[id].service))
      && (e'.valid(b.info[id].service) ==> own in c.untried)
      && (e'.valid(b.info[id].service) && Unrivalled(e', b, id) ==> k in c.info)
  {
    hide Core, Pending, Side, Pairs, NewSlot, Row, Readable, Restorable, Read, Entries, Keeps, Unrivalled;
    SideSize(e, b, order, false);
    SavedReadable(e, b, order, asmap);
    OtherAsmap(b, order, asmap, asmap');
    SavedFields(b, order, asmap);
    SavedCounts(b, order, asmap);
    SavedRecord(b, order, asmap, k);
    var f, id := Saved(b, order, asmap), Side(b.info, order, false)[k];
    Rebucketed(e', f, asmap', order', k);
    var j := SavedNames(e, b, order, asmap, k);
    KeepsValid(e', f, k);
    if e'.valid(b.info[id].service) {
      assert Names(e', f, j, OwnSlot(e', b.key, b.info[id]));
      if Unrivalled(e', b, id) {
        UnrivalledKeeps(e, e', b, order, asmap, k);
      }
    }
  }

  lemma KeepsValid(e: Env, f: File, k: nat)
    requires |f.news| == f.nNew && k < |f.news|
    ensures Keeps(e, f, k) ==> e.valid(f.news[k].service)
  {
  }

  // ----- Tried records -----

  /** A valid record of the tried side is for the slot. */
  predicate For(e: Env, key: int, r: Record, s: Slot) {
    e.valid(r.service) && TriedSlot(e, key, r.service) == s
  }

  /** The first record for a slot. */
  ghost predicate FirstFor(e: Env, key: int, rs: seq<Record>, i: nat, s: Slot)
    requires i < |rs|
  {
    For(e, key, rs[i], s) && forall j :: 0 <= j < i ==> !For(e, key, rs[j], s)
  }

  /** The slot holds the first record for it, if there is one. */
  ghost predicate TriedAt(e: Env, b: Book, rs: seq<Record>, s: Slot) {
    && (s in b.tried <==> exists i :: 0 <= i < |rs| && For(e, b.key, rs[i], s))
    && (s in b.tried ==>
          && b.tried[s] in b.info && b.info[b.tried[s]].inTried
          && exists i :: 0 <= i < |rs| && FirstFor(e, b.key, rs, i, s) && Stored(b.info[b.tried[s]]) == rs[i])
  }

  lemma TriedAtNext(e: Env, b: Book, rs: seq<Record>, r: Record, s: Slot)
    requires TriedAt(e, b, rs, s) && b.idCount !in b.info
    ensures TriedAt(e, AddTried(e, b, r), rs + [r], s)
  {
    hide TriedSlot;
    var c, qs := AddTried(e, b, r), rs + [r];
    assert forall j :: 0 <= j < |rs| ==> qs[j] == rs[j];
    assert qs[|rs|] == r;
    if s in b.tried {
      var i :| 0 <= i < |rs| && FirstFor(e, b.key, rs, i, s) && Stored(b.info[b.tried[s]]) == rs[i];
      assert FirstFor(e, b.key, qs, i, s);
    } else if For(e, b.key, r, s) {
      assert FirstFor(e, b.key, qs, |rs|, s);
      assert Stored(Restored(r, true, |b.random|)) == r;
    }
  }

  /** Of the tried records for one slot, whatever their order of age, the first in the file is kept and the others are lost. */
  lemma {:induction false} TriedKept(e: Env, b: Book, rs: seq<Record>, s: Slot)
    requires b.tried == map[] && Below(b.info, b.idCount)
    ensures var c := AddAll(e, b, rs, true);
      TriedAt(e, c, rs, s) && c.key == b.key && Below(c.info, c.idCount) && c.nTried == b.nTried - |rs| + c.idCount - b.idCount
  {
    hide AddTried, TriedAt;
    if rs == [] {
      NoneTried(e, b, s);
    } else {
      var n := |rs| - 1;
      TriedKept(e, b, rs[..n], s);
      var c := AddAll(e, b, rs[..n], true);
      TriedAtNext(e, c, rs[..n], rs[n], s);
      AddTriedFields(e, c, rs[n]);
      assert rs == rs[..n] + [rs[n]];
    }
  }

  lemma NoneTried(e: Env, b: Book, s: Slot)
    requires b.tried == map[]
    ensures TriedAt(e, b, [], s)
  {
  }

  lemma AddTriedFields(e: Env, b: Book, r: Record)
    requires Below(b.info, b.idCount)
    ensures var c := AddTried(e, b, r);
      c.key == b.key && Below(c.info, c.idCount) && c.nTried == b.nTried - 1 + c.idCount - b.idCount
  {
  }
}
