/**
 The address manager on disk: what is written, and what is made of a file when it is read.
 A `File` is the stream of values in order; reading past its end is an error.
 */
module AddrDisk {
  import opened Basics
  import opened AddrTypes
  import opened AddrOps
  import opened AddrInv
  import opened AddrCheck

  const FILE_FORMAT := 4
  const LOWEST_COMPATIBLE := 4
  const INCOMPATIBILITY_BASE := 32
  const V1_DETERMINISTIC := 1
  const V2_ASMAP := 2

  /** The fields of an entry that are stored. */
  datatype Record = Record(service: Service, flags: set<int>, time: int, source: NetAddr, lastSuccess: int, attempts: int)

  datatype File = File(
    format: int, compat: int, key: int, nNew: int, nTried: int, buckets: int,
    news: seq<Record>, trieds: seq<Record>, table: seq<seq<int>>, asmap: int)

  /** `x ^ (1 << 30)` */
  function Flip(x: int): int {
    if (x / 0x4000_0000) % 2 == 1 then x - 0x4000_0000 else x + 0x4000_0000
  }

  function Stored(i: Info): Record {
    Record(i.service, i.flags, i.time, i.source, i.lastSuccess, i.attempts)
  }

  function Restored(r: Record, inTried: bool, randomPos: int): Info {
    Info(r.service, r.flags, r.time, 0, 0, r.source, r.lastSuccess, r.attempts, 0, inTried, randomPos)
  }

  // ----- Writing -----

  /** The ids of one side, in the order the entries come out of the map. */
  function Side(info: map<Nid, Info>, order: seq<Nid>, tried: bool): (r: seq<Nid>)
    requires forall i :: 0 <= i < |order| ==> order[i] in info
    ensures forall i :: 0 <= i < |r| ==> r[i] in info && r[i] in order
  {
    if order == [] then []
    else
      var n := |order| - 1;
      var i := info[order[n]];
      Side(info, order[..n], tried) + if (if tried then i.inTried else i.refCount != 0) then [order[n]] else []
  }

  /** The place of an id in a list; its length when it is not there. */
  function PlaceIn(ids: seq<Nid>, id: Nid): (n: nat)
    ensures n <= |ids| && (n < |ids| ==> ids[n] == id)
    ensures forall i :: 0 <= i < n ==> ids[i] != id
  {
    if ids == [] then 0 else if ids[0] == id then 0 else 1 + PlaceIn(ids[1..], id)
  }

  function Records(info: map<Nid, Info>, ids: seq<Nid>): seq<Record>
    requires forall i :: 0 <= i < |ids| ==> ids[i] in info
  {
    seq(|ids|, i requires 0 <= i < |ids| => Stored(info[ids[i]]))
  }

  /** One bucket up to a position: the place in the list of new ids of each id in it. */
  function Row(t: map<Slot, Nid>, ids: seq<Nid>, bucket: int, p: nat): seq<int> {
    if p == 0 then []
    else
      var s := Slot(bucket, p - 1);
      Row(t, ids, bucket, p - 1) + if s in t then [PlaceIn(ids, t[s])] else []
  }

  /** The iteration order lists every id. */
  ghost predicate Listed(info: map<Nid, Info>, order: seq<Nid>) {
    && (forall i :: 0 <= i < |order| ==> order[i] in info)
    && (forall id :: id in info ==> id in order)
    && Distinct(order)
  }

  ghost function Saved(b: Book, order: seq<Nid>, asmap: int): File
    requires Listed(b.info, order)
  {
    var news, trieds := Side(b.info, order, false), Side(b.info, order, true);
    File(FILE_FORMAT, INCOMPATIBILITY_BASE + LOWEST_COMPATIBLE, b.key, b.nNew, b.nTried, Flip(NEW_BUCKETS),
         Records(b.info, news), Records(b.info, trieds),
         seq(NEW_BUCKETS, k requires 0 <= k < NEW_BUCKETS => Row(b.untried, news, k, BUCKET_SIZE)), asmap)
  }

  // ----- Reading -----

  function AddNew(e: Env, b: Book, r: Record): Book {
    var id := b.idCount;
    b.(info := b.info[id := Restored(r, false, |b.random|)],
       ids := b.ids[r.service := id],
       random := b.random + [id],
       counts := Bump(b.counts, e.network(r.service), 1, 0),
       idCount := id + 1)
  }

  function AddKept(e: Env, b: Book, r: Record, s: Slot): Book {
    var id := b.idCount;
    b.(info := b.info[id := Restored(r, true, |b.random|)],
       ids := b.ids[r.service := id],
       random := b.random + [id],
       tried := b.tried[s := id],
       counts := Bump(b.counts, e.network(r.service), 0, 1),
       idCount := id + 1)
  }

  /** A tried record is lost if its address is not valid or its slot is taken. */
  function AddTried(e: Env, b: Book, r: Record): Book {
    var s := TriedSlot(e, b.key, r.service);
    if e.valid(r.service) && s !in b.tried then AddKept(e, b, r, s) else b.(nTried := b.nTried - 1)
  }

  function AddAll(e: Env, b: Book, rs: seq<Record>, tried: bool): Book {
    if rs == [] then b
    else
      var n := |rs| - 1;
      var c := AddAll(e, b, rs[..n], tried);
      if tried then AddTried(e, c, rs[n]) else AddNew(e, c, rs[n])
  }

  datatype Pair = Pair(bucket: int, index: int)

  /** One bucket of the file, without indexes that name no entry. */
  function RowPairs(bucket: int, row: seq<int>, nNew: int): seq<Pair> {
    if row == [] then []
    else
      var n := |row| - 1;
      RowPairs(bucket, row[..n], nNew) + if 0 <= row[n] < nNew then [Pair(bucket, row[n])] else []
  }

  function Pairs(table: seq<seq<int>>, nNew: int): seq<Pair> {
    if table == [] then []
    else
      var n := |table| - 1;
      Pairs(table[..n], nNew) + RowPairs(n, table[n], nNew)
  }

  /** Give an entry a reference where it was, or else where its source would put it. */
  function PutBack(e: Env, b: Book, p: Pair, restore: bool): Book {
    if p.index !in b.info then b
    else
      var i := b.info[p.index];
      if !e.valid(i.service) || i.refCount >= MAX_REFS then b
      else
        var s := Slot(p.bucket, BucketPos(e, b.key, true, p.bucket, i.service));
        if restore && s !in b.untried then AddRef(b, p.index, s)
        else
          var own := NewSlot(e, b.key, i.service, i.source);
          if own !in b.untried then AddRef(b, p.index, own) else b
  }

  function PutAll(e: Env, b: Book, ps: seq<Pair>, restore: bool): Book {
    if ps == [] then b
    else PutBack(e, PutAll(e, b, ps[..|ps| - 1], restore), ps[|ps| - 1], restore)
  }

  /** Delete the new entries that have no reference. */
  function Prune(e: Env, b: Book, order: seq<Nid>): Book {
    if order == [] then b
    else
      var c := Prune(e, b, order[..|order| - 1]);
      var id := order[|order| - 1];
      if id in c.info && !c.info[id].inTried && c.info[id].refCount == 0 then Delete(e, c, id) else c
  }

  function Buckets(f: File): int {
    if f.format >= V1_DETERMINISTIC then Flip(f.buckets) else f.buckets
  }

  /** The header is acceptable and the stream holds everything the reader asks for. */
  predicate Readable(f: File) {
    && f.compat >= INCOMPATIBILITY_BASE && f.compat - INCOMPATIBILITY_BASE <= FILE_FORMAT
    && 0 <= f.nNew <= NEW_BUCKETS * BUCKET_SIZE && 0 <= f.nTried <= TRIED_BUCKETS * BUCKET_SIZE
    && |f.news| == f.nNew && |f.trieds| == f.nTried
    && |f.table| == (if Buckets(f) < 0 then 0 else Buckets(f))
  }

  /** Bucket count and asmap are those the file was written with; before asmaps, the version read is zero. */
  predicate Restorable(f: File, asmap: int) {
    Buckets(f) == NEW_BUCKETS && (if f.format >= V2_ASMAP then f.asmap else 0) == asmap
  }

  function Entries(e: Env, f: File): Book {
    var start := Empty(f.key).(nNew := f.nNew, nTried := f.nTried);
    AddAll(e, AddAll(e, start, f.news, false), f.trieds, true)
  }

  /** Everything but the final check. */
  function Read(e: Env, f: File, asmap: int, order: seq<Nid>): Book {
    Prune(e, PutAll(e, Entries(e, f), Pairs(f.table, f.nNew), Restorable(f, asmap)), order)
  }

  /** The result of reading a file; `None` stands for the exception. */
  ghost function Loaded(e: Env, f: File, asmap: int, order: seq<Nid>): Option<Book> {
    if Readable(f) && Checked(e, Read(e, f, asmap, order)) then Some(Read(e, f, asmap, order)) else None
  }
}
