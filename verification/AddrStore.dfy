/**
 Writing the address manager to disk and reading it back, loop by loop.
 */
module AddrStore {
  import opened AddrTypes
  import opened AddrOps
  import opened AddrInv
  import opened AddrTables
  import opened AddrMan
  import opened AddrCheck
  import opened AddrDisk
  import opened AddrDiskProofs

  // ----- Writing -----

  lemma {:induction false} PlaceAppend(s: seq<Nid>, x: Nid, id: Nid)
    requires x !in s
    ensures id in s ==> PlaceIn(s + [x], id) == PlaceIn(s, id)
    ensures id == x ==> PlaceIn(s + [x], id) == |s|
  {
    if s != [] {
      assert (s + [x])[0] == s[0] && (s + [x])[1..] == s[1..] + [x];
      PlaceAppend(s[1..], x, id);
    } else {
      assert s + [x] == [x];
    }
  }

  lemma SideStep(info: map<Nid, Info>, order: seq<Nid>, i: nat, tried: bool)
    requires i < |order| && forall j :: 0 <= j < |order| ==> order[j] in info
    ensures Side(info, order[..i + 1], tried) == Side(info, order[..i], tried) +
              if (if tried then info[order[i]].inTried else info[order[i]].refCount != 0) then [order[i]] else []
  {
    assert order[..i + 1][..i] == order[..i];
  }

  lemma {:induction false} SideGrows(info: map<Nid, Info>, order: seq<Nid>, i: nat, tried: bool)
    requires i <= |order| && forall j :: 0 <= j < |order| ==> order[j] in info
    ensures |Side(info, order[..i], tried)| <= |Side(info, order, tried)|
    decreases |order| - i
  {
    if i == |order| {
      assert order[..i] == order;
    } else {
      SideStep(info, order, i, tried);
      SideGrows(info, order, i + 1, tried);
    }
  }

  /** One side's entries, with the number each new entry gets in the file. */
  method WriteSide(info: map<Nid, Info>, order: seq<Nid>, tried: bool, limit: int)
    returns (rs: seq<Record>, numbers: map<Nid, int>)
    requires Listed(info, order) && |Side(info, order, tried)| == limit
    ensures rs == Records(info, Side(info, order, tried))
    ensures forall id :: id in Side(info, order, tried) ==>
              id in numbers && numbers[id] == PlaceIn(Side(info, order, tried), id)
  {
    hide Side, PlaceIn;
    rs, numbers := [], map[];
    var n := 0;
    var i := 0;
    SideNone(info, order, tried);
    while i < |order|
      invariant 0 <= i <= |order| && n == |Side(info, order[..i], tried)|
      invariant rs == Records(info, Side(info, order[..i], tried))
      invariant forall id :: id in Side(info, order[..i], tried) ==>
                  id in numbers && numbers[id] == PlaceIn(Side(info, order[..i], tried), id)
    {
      var id := order[i];
      ghost var before := Side(info, order[..i], tried);
      SideStep(info, order, i, tried);
      assert order[..i + 1] == order[..i] + [id];
      assert id !in order[..i];
      assert id !in before;
      numbers := numbers[id := n];
      if if tried then info[id].inTried else info[id].refCount != 0 {
        SideGrows(info, order, i + 1, tried);
        assert n != limit;
        forall x | x in before + [id]
          ensures x in numbers && numbers[x] == PlaceIn(before + [id], x)
        {
          PlaceAppend(before, id, x);
        }
        rs := rs + [Stored(info[id])];
        n := n + 1;
      } else {
        assert before + [] == before;
      }
      i := i + 1;
    }
    assert order[..i] == order;
  }

  lemma SideNone(info: map<Nid, Info>, order: seq<Nid>, tried: bool)
    ensures Side(info, order[..0], tried) == []
  {
  }

  /** One bucket: its size, and the number of each entry in it. */
  method WriteBucket(t: array2<Nid>, bucket: nat, numbers: map<Nid, int>, ghost news: seq<Nid>) returns (size: int, row: seq<int>)
    requires bucket < t.Length0 && t.Length1 == BUCKET_SIZE
    requires forall s :: s in Occupied(t) ==> Occupied(t)[s] in numbers && numbers[Occupied(t)[s]] == PlaceIn(news, Occupied(t)[s])
    ensures row == Row(Occupied(t), news, bucket, BUCKET_SIZE) && size == |row|
  {
    hide PlaceIn, Occupied;
    size := 0;
    var i := 0;
    while i < BUCKET_SIZE
      invariant 0 <= i <= BUCKET_SIZE && size == |Row(Occupied(t), news, bucket, i)|
    {
      Empties(t, Slot(bucket, i));
      if t[bucket, i] != NOBODY {
        size := size + 1;
      }
      i := i + 1;
    }
    row := [];
    i := 0;
    while i < BUCKET_SIZE
      invariant 0 <= i <= BUCKET_SIZE && row == Row(Occupied(t), news, bucket, i)
    {
      Empties(t, Slot(bucket, i));
      if t[bucket, i] != NOBODY {
        row := row + [numbers[t[bucket, i]]];
      }
      i := i + 1;
    }
  }

  lemma NumberedSlots(e: Env, b: Book, order: seq<Nid>, s: Slot)
    requires Inv(e, b) && Listed(b.info, order) && s in b.untried
    ensures b.untried[s] in Side(b.info, order, false)
  {
    hide Side;
    OldSlot(e, b, s);
    InvPlaced(e, b);
    assert HoldsNew(e, b.key, b.info, s, b.untried[s]);
    SideSize(e, b, order, false);
  }

  method Serialize(m: AddrMan, order: seq<Nid>, asmap: int) returns (f: File)
    requires m.Valid() && Listed(m.info, order)
    ensures f == Saved(m.Snap(), order, asmap)
  {
    hide Inv, Side, Occupied, PlaceIn, Row;
    ghost var b := m.Snap();
    ghost var news := Side(m.info, order, false);
    SideSize(m.env, b, order, false);
    SideSize(m.env, b, order, true);
    var news', numbers := WriteSide(m.info, order, false, m.nNew);
    var trieds, _ := WriteSide(m.info, order, true, m.nTried);
    forall s | s in Occupied(m.newTable)
      ensures Occupied(m.newTable)[s] in numbers
      ensures numbers[Occupied(m.newTable)[s]] == PlaceIn(news, Occupied(m.newTable)[s])
    {
      NumberedSlots(m.env, b, order, s);
      var id := Occupied(m.newTable)[s];
      assert id in news;
    }
    var table: seq<seq<int>> := [];
    var k := 0;
    while k < NEW_BUCKETS
      invariant 0 <= k <= NEW_BUCKETS && |table| == k
      invariant forall i :: 0 <= i < k ==> table[i] == Row(b.untried, news, i, BUCKET_SIZE)
    {
      var size, row := WriteBucket(m.newTable, k, numbers, news);
      table := table + [row];
      k := k + 1;
    }
    f := File(FILE_FORMAT, INCOMPATIBILITY_BASE + LOWEST_COMPATIBLE, m.key, m.nNew, m.nTried, Flip(NEW_BUCKETS),
              news', trieds, table, asmap);
    SavedFields(b, order, asmap);
    assert table == Saved(b, order, asmap).table;
  }

  // ----- Reading -----

  lemma AddAllStep(e: Env, b: Book, rs: seq<Record>, i: nat, tried: bool)
    requires i < |rs|
    ensures AddAll(e, b, rs[..i + 1], tried) ==
            var c := AddAll(e, b, rs[..i], tried); if tried then AddTried(e, c, rs[i]) else AddNew(e, c, rs[i])
  {
    assert rs[..i + 1][..i] == rs[..i];
  }

  method ReadNews(m: AddrMan, rs: seq<Record>)
    requires m.Shaped() && m.idCount == 0
    modifies m`info, m`ids, m`random, m`counts, m`idCount
    ensures m.Snap() == AddAll(m.env, old(m.Snap()), rs, false)
  {
    hide AddAll, Occupied;
    ghost var b := m.Snap();
    var n := 0;
    AddNone(m.env, b, rs, false);
    while n < |rs|
      invariant 0 <= n <= |rs| && m.idCount == 0
      invariant Occupied(m.newTable) == b.untried && Occupied(m.triedTable) == b.tried
      invariant m.Snap().(idCount := n) == AddAll(m.env, b, rs[..n], false)
    {
      AddAllStep(m.env, b, rs, n, false);
      m.info := m.info[n := Restored(rs[n], false, |m.random|)];
      m.ids := m.ids[rs[n].service := n];
      m.random := m.random + [n];
      m.counts := Bump(m.counts, m.env.network(rs[n].service), 1, 0);
      n := n + 1;
    }
    m.idCount := n;
    assert rs[..n] == rs;
  }

  lemma AddNone(e: Env, b: Book, rs: seq<Record>, tried: bool)
    ensures AddAll(e, b, rs[..0], tried) == b
  {
  }

  /** One tried record: kept if its address is valid and its slot is free. */
  method ReadTried(m: AddrMan, r: Record) returns (kept: bool)
    requires m.Shaped() && m.idCount >= 0
    modifies m`info, m`ids, m`random, m`counts, m`idCount, m.triedTable
    ensures m.idCount >= 0
    ensures AddTried(m.env, old(m.Snap()), r) == if kept then m.Snap() else m.Snap().(nTried := m.nTried - 1)
    ensures !kept ==> m.Snap() == old(m.Snap())
  {
    hide Occupied;
    var bucket := TriedBucket(m.env, m.key, r.service);
    var pos := BucketPos(m.env, m.key, false, bucket, r.service);
    Empties(m.triedTable, Slot(bucket, pos));
    kept := m.env.valid(r.service) && m.triedTable[bucket, pos] == NOBODY;
    if kept {
      var id := m.idCount;
      m.info := m.info[id := Restored(r, true, |m.random|)];
      m.random := m.random + [id];
      m.ids := m.ids[r.service := id];
      Put(m.triedTable, Slot(bucket, pos), id);
      m.idCount := id + 1;
      m.counts := Bump(m.counts, m.env.network(r.service), 0, 1);
    }
  }

  lemma LaterKept(e: Env, b: Book, r: Record, s: Slot, n: int)
    ensures AddKept(e, b.(nTried := n), r, s) == AddKept(e, b, r, s).(nTried := n)
    ensures AddKept(e, b, r, s).nTried == b.nTried
  {
  }

  lemma LaterLost(e: Env, b: Book, r: Record, lost: int)
    ensures AddTried(e, b.(nTried := b.nTried - lost), r) ==
            var c := AddTried(e, b, r); c.(nTried := c.nTried - lost)
  {
    hide AddKept;
    LaterKept(e, b, r, TriedSlot(e, b.key, r.service), b.nTried - lost);
  }

  method ReadTrieds(m: AddrMan, rs: seq<Record>)
    requires m.Shaped() && m.idCount >= 0
    modifies m`info, m`ids, m`random, m`counts, m`idCount, m`nTried, m.triedTable
    ensures m.Snap() == AddAll(m.env, old(m.Snap()), rs, true)
  {
    hide AddAll, AddTried, Occupied;
    ghost var b := m.Snap();
    var lost := 0;
    var n := 0;
    AddNone(m.env, b, rs, true);
    while n < |rs|
      invariant 0 <= n <= |rs| && m.idCount >= 0
      invariant m.Snap().(nTried := m.nTried - lost) == AddAll(m.env, b, rs[..n], true)
    {
      AddAllStep(m.env, b, rs, n, true);
      LaterLost(m.env, m.Snap(), rs[n], lost);
      var kept := ReadTried(m, rs[n]);
      if !kept {
        lost := lost + 1;
      }
      n := n + 1;
    }
    m.nTried := m.nTried - lost;
    assert rs[..n] == rs;
  }

  /** The bucket entries to apply later, in the order of the file. */
  method CollectPairs(table: seq<seq<int>>, nNew: int) returns (ps: seq<Pair>)
    ensures ps == Pairs(table, nNew)
    ensures forall i :: 0 <= i < |ps| ==> 0 <= ps[i].bucket < |table| && 0 <= ps[i].index < nNew
  {
    hide RowPairs;
    ps := [];
    var k := 0;
    assert table[..0] == [];
    while k < |table|
      invariant 0 <= k <= |table| && ps == Pairs(table[..k], nNew)
      invariant forall i :: 0 <= i < |ps| ==> 0 <= ps[i].bucket < |table| && 0 <= ps[i].index < nNew
    {
      assert table[..k + 1][..k] == table[..k];
      var row := CollectRow(k, table[k], nNew);
      ps := ps + row;
      k := k + 1;
    }
    assert table[..k] == table;
  }

  method CollectRow(k: int, row: seq<int>, nNew: int) returns (ps: seq<Pair>)
    ensures ps == RowPairs(k, row, nNew)
    ensures forall i :: 0 <= i < |ps| ==> ps[i].bucket == k && 0 <= ps[i].index < nNew
  {
    ps := [];
    var n := 0;
    assert row[..0] == [];
    while n < |row|
      invariant 0 <= n <= |row| && ps == RowPairs(k, row[..n], nNew)
      invariant forall i :: 0 <= i < |ps| ==> ps[i].bucket == k && 0 <= ps[i].index < nNew
    {
      assert row[..n + 1][..n] == row[..n];
      if row[n] >= 0 && row[n] < nNew {
        ps := ps + [Pair(k, row[n])];
      }
      n := n + 1;
    }
    assert row[..n] == row;
  }

  /** Apply one bucket entry. */
  method PutOne(m: AddrMan, p: Pair, restore: bool)
    requires m.Shaped() && p.index in m.info && p.index >= 0 && (restore ==> 0 <= p.bucket < NEW_BUCKETS)
    modifies m`info, m.newTable
    ensures m.Snap() == PutBack(m.env, old(m.Snap()), p, restore)
  {
    hide Occupied;
    var i := m.info[p.index];
    if !m.env.valid(i.service) { return; }
    if i.refCount >= MAX_REFS { return; }
    var s := Slot(p.bucket, BucketPos(m.env, m.key, true, p.bucket, i.service));
    if restore {
      Empties(m.newTable, s);
    }
    if restore && m.newTable[s.bucket, s.pos] == NOBODY {
      Put(m.newTable, s, p.index);
      m.info := m.info[p.index := i.(refCount := i.refCount + 1)];
    } else {
      var own := NewSlot(m.env, m.key, i.service, i.source);
      Empties(m.newTable, own);
      if m.newTable[own.bucket, own.pos] == NOBODY {
        Put(m.newTable, own, p.index);
        m.info := m.info[p.index := i.(refCount := i.refCount + 1)];
      }
    }
  }

  method PutPairs(m: AddrMan, ps: seq<Pair>, restore: bool)
    requires m.Shaped()
    requires forall i :: 0 <= i < |ps| ==> ps[i].index in m.info && ps[i].index >= 0
    requires restore ==> forall i :: 0 <= i < |ps| ==> 0 <= ps[i].bucket < NEW_BUCKETS
    modifies m`info, m.newTable
    ensures m.Snap() == PutAll(m.env, old(m.Snap()), ps, restore)
  {
    hide Occupied, PutBack;
    ghost var b := m.Snap();
    var i := 0;
    assert ps[..0] == [];
    while i < |ps|
      invariant 0 <= i <= |ps| && m.info.Keys == b.info.Keys
      invariant m.Snap() == PutAll(m.env, b, ps[..i], restore)
    {
      assert ps[..i + 1][..i] == ps[..i];
      PutAllKeys(m.env, b, ps[..i + 1], restore);
      PutOne(m, ps[i], restore);
      i := i + 1;
    }
    assert ps[..i] == ps;
  }

  /** `Delete`, in a state that may not be consistent yet. */
  method DeleteUnread(m: AddrMan, id: Nid)
    requires Sturdy(m.env, m.Snap()) && id in m.info
    modifies m`info, m`ids, m`random, m`nNew, m`counts
    ensures m.Snap() == Delete(m.env, old(m.Snap()), id)
  {
    hide Occupied, AddrOps.SwapRandom, Sturdy, Shuffled;
    ghost var b := m.Snap();
    SturdyLast(m.env, b, id);
    SwapFields(b, m.info[id].randomPos, |m.random| - 1);
    var service := m.info[id].service;
    m.SwapRandom(m.info[id].randomPos, |m.random| - 1);
    m.counts := Bump(m.counts, m.env.network(service), -1, 0);
    m.random := m.random[..|m.random| - 1];
    m.ids := m.ids - {service};
    m.info := m.info - {id};
    m.nNew := m.nNew - 1;
  }

  lemma SturdyLast(e: Env, b: Book, id: Nid)
    requires Sturdy(e, b) && id in b.info
    ensures var p, q := b.info[id].randomPos, |b.random| - 1;
      0 <= p <= q && b.random[p] in b.info && b.random[q] in b.info
  {
  }

  method PruneUnread(m: AddrMan, order: seq<Nid>)
    requires Sturdy(m.env, m.Snap())
    modifies m`info, m`ids, m`random, m`nNew, m`counts
    ensures m.Snap() == Prune(m.env, old(m.Snap()), order)
  {
    hide Occupied, Delete, Sturdy;
    ghost var b := m.Snap();
    var i := 0;
    assert order[..0] == [];
    while i < |order|
      invariant 0 <= i <= |order| && Sturdy(m.env, m.Snap())
      invariant m.Snap() == Prune(m.env, b, order[..i])
    {
      assert order[..i + 1][..i] == order[..i];
      PruneSturdy(m.env, b, order[..i + 1]);
      var id := order[i];
      if id in m.info && !m.info[id].inTried && m.info[id].refCount == 0 {
        DeleteUnread(m, id);
      }
      i := i + 1;
    }
    assert order[..i] == order;
  }

  lemma {:induction false} NewsKeys(e: Env, b: Book, rs: seq<Record>)
    requires b.info == map[] && b.idCount == 0
    ensures AddAll(e, b, rs, false).idCount == |rs|
    ensures forall id :: id in AddAll(e, b, rs, false).info <==> 0 <= id < |rs|
  {
    if rs != [] {
      NewsKeys(e, b, rs[..|rs| - 1]);
    }
  }

  lemma {:induction false} TriedsKeys(e: Env, b: Book, rs: seq<Record>)
    ensures b.info.Keys <= AddAll(e, b, rs, true).info.Keys
  {
    if rs != [] {
      TriedsKeys(e, b, rs[..|rs| - 1]);
    }
  }

  /** All the entries of the file. */
  method ReadEntries(m: AddrMan, f: File)
    requires m.Shaped() && m.Snap() == Empty(f.key).(nNew := f.nNew, nTried := f.nTried)
    modifies m`info, m`ids, m`random, m`counts, m`idCount, m`nTried, m.triedTable
    ensures m.Snap() == Entries(m.env, f) && Sturdy(m.env, m.Snap())
    ensures forall id :: 0 <= id < |f.news| ==> id in m.info
  {
    hide Occupied, AddAll, Sturdy;
    ghost var start := m.Snap();
    StartSturdy(m.env, f);
    AddAllSturdy(m.env, start, f.news, false);
    NewsKeys(m.env, start, f.news);
    ReadNews(m, f.news);
    ghost var middle := m.Snap();
    AddAllSturdy(m.env, middle, f.trieds, true);
    TriedsKeys(m.env, middle, f.trieds);
    ReadTrieds(m, f.trieds);
  }

  /** The tests made on the header, and whether the stream holds what is asked of it. */
  method ReadHeader(f: File) returns (ok: bool)
    ensures ok ==>
      && INCOMPATIBILITY_BASE <= f.compat <= INCOMPATIBILITY_BASE + FILE_FORMAT
      && 0 <= |f.news| == f.nNew <= NEW_BUCKETS * BUCKET_SIZE && 0 <= |f.trieds| == f.nTried <= TRIED_BUCKETS * BUCKET_SIZE
    ensures ok <==> Readable(f)
  {
    if f.compat < INCOMPATIBILITY_BASE { return false; }
    if f.compat - INCOMPATIBILITY_BASE > FILE_FORMAT { return false; }
    var buckets := if f.format >= V1_DETERMINISTIC then Flip(f.buckets) else f.buckets;
    if f.nNew > NEW_BUCKETS * BUCKET_SIZE || f.nNew < 0 { return false; }
    if f.nTried > TRIED_BUCKETS * BUCKET_SIZE || f.nTried < 0 { return false; }
    ok := |f.news| == f.nNew && |f.trieds| == f.nTried && |f.table| == (if buckets < 0 then 0 else buckets);
  }

  /** Read a file into a fresh object; false stands for the exception. `order` is the order entries come out of the map. */
  method Unserialize(m: AddrMan, f: File, asmap: int, order: seq<Nid>) returns (ok: bool)
    requires m.Shaped() && m.Snap() == Empty(m.key)
    modifies m, m.newTable, m.triedTable
    ensures ok ==>
      && INCOMPATIBILITY_BASE <= f.compat <= INCOMPATIBILITY_BASE + FILE_FORMAT
      && 0 <= |f.news| == f.nNew <= NEW_BUCKETS * BUCKET_SIZE && 0 <= |f.trieds| == f.nTried <= TRIED_BUCKETS * BUCKET_SIZE
    ensures ok <==> Loaded(m.env, f, asmap, order).Some?
    ensures ok ==> m.Snap() == Loaded(m.env, f, asmap, order).value
  {
    hide Occupied, Checked, Entries, PutAll, Prune, Pairs, Sturdy;
    var readable := ReadHeader(f);
    if !readable { return false; }
    hide Readable;
    m.key, m.nNew, m.nTried := f.key, f.nNew, f.nTried;
    var buckets := if f.format >= V1_DETERMINISTIC then Flip(f.buckets) else f.buckets;
    ReadEntries(m, f);
    var ps := CollectPairs(f.table, f.nNew);
    var supplied := if f.format >= V2_ASMAP then f.asmap else 0;
    var restore := buckets == NEW_BUCKETS && supplied == asmap;
    PutAllSturdy(m.env, m.Snap(), ps, restore);
    PutPairs(m, ps, restore);
    PruneUnread(m, order);
    var code := CheckAddrman(m);
    ok := code == 0;
  }
}
