/**
 The address manager's invariant and what each elementary update does to it.

 `Inv` is `CheckAddrman() == 0` made inductive. Inside an operation some entries are
 out of balance: `bare` ids may be without a reference in the new table, and `skip`
 ids are in neither table and not counted. `Core` allows for both.
 */
module AddrInv {
  import opened AddrTypes
  import opened AddrOps

  /** `mapAddr` is the inverse of the services in `mapInfo`. */
  ghost predicate Indexed(info: map<Nid, Info>, ids: map<Service, Nid>) {
    && (forall id :: id in info ==> info[id].service in ids && ids[info[id].service] == id)
    && (forall s :: s in ids ==> ids[s] in info && info[ids[s]].service == s)
  }

  /** `vRandom` lists every id once, at the position its entry names. */
  ghost predicate Shuffled(info: map<Nid, Info>, random: seq<Nid>) {
    && |random| == |info|
    && (forall id :: id in info ==>
      0 <= info[id].randomPos < |random| && random[info[id].randomPos] == id)
    && (forall i :: 0 <= i < |random| ==> random[i] in info && info[random[i]].randomPos == i)
  }

  ghost predicate HoldsNew(e: Env, key: int, info: map<Nid, Info>, s: Slot, id: Nid) {
    && InNew(s)
    && id in info
    && !info[id].inTried
    && s.pos == BucketPos(e, key, true, s.bucket, info[id].service)
  }

  /** Every occupied new slot holds a new entry at the position the key gives it there. */
  ghost predicate NewPlaced(e: Env, key: int, info: map<Nid, Info>, t: map<Slot, Nid>) {
    forall s :: s in t ==> HoldsNew(e, key, info, s, t[s])
  }

  /** Reference counts count slots. */
  ghost predicate Referenced(info: map<Nid, Info>, t: map<Slot, Nid>) {
    forall id :: id in info ==> info[id].refCount == |SlotsOf(t, id)| <= MAX_REFS
  }

  ghost predicate HoldsTried(e: Env, key: int, info: map<Nid, Info>, s: Slot, id: Nid) {
    && id in info
    && info[id].inTried
    && s == TriedSlot(e, key, info[id].service)
  }

  /** The tried entries and the occupied tried slots correspond one to one. */
  ghost predicate TriedPlaced(e: Env, key: int, info: map<Nid, Info>, t: map<Slot, Nid>) {
    && (forall s :: s in t ==> HoldsTried(e, key, info, s, t[s]))
    && (forall id :: id in info && info[id].inTried ==>
      TriedSlot(e, key, info[id].service) in t && t[TriedSlot(e, key, info[id].service)] == id)
  }

  /** How an id enters the counters. */
  datatype Standing = Away | AsNew(net: Network) | AsTried(net: Network)

  ghost function StandingOf(e: Env, info: map<Nid, Info>, skip: set<Nid>, id: Nid): Standing {
    if id !in info || id in skip then Away
    else if info[id].inTried then AsTried(e.network(info[id].service))
    else AsNew(e.network(info[id].service))
  }

  ghost function Everyone(e: Env, info: map<Nid, Info>, skip: set<Nid>, tried: bool): set<Nid> {
    set id | id in info && id !in skip && info[id].inTried == tried
  }

  ghost function Locals(e: Env, info: map<Nid, Info>, skip: set<Nid>, st: Standing): set<Nid> {
    set id | id in info && StandingOf(e, info, skip, id) == st
  }

  ghost predicate TalliedOn(e: Env, info: map<Nid, Info>, skip: set<Nid>, t: Tally, n: Network) {
    && t.untried == |Locals(e, info, skip, AsNew(n))|
    && t.tried == |Locals(e, info, skip, AsTried(n))|
  }

  /** `nNew`, `nTried` and the per-network counters are the true counts. */
  ghost predicate Tallied(e: Env, info: map<Nid, Info>, skip: set<Nid>,
                          nNew: int, nTried: int, counts: map<Network, Tally>)
  {
    && nNew == |Everyone(e, info, skip, false)|
    && nTried == |Everyone(e, info, skip, true)|
    && forall n :: TalliedOn(e, info, skip, TallyOf(counts, n), n)
  }

  ghost predicate Numbered(e: Env, info: map<Nid, Info>, idCount: int) {
    && 0 <= idCount
    && forall id :: id in info ==> 0 <= id < idCount && e.valid(info[id].service)
  }

  ghost predicate Balanced(info: map<Nid, Info>, bare: set<Nid>, skip: set<Nid>) {
    && skip <= bare
    && (forall id :: id in bare ==> id in info && !info[id].inTried)
    && (forall id :: id in skip ==> id in info && info[id].refCount == 0)
    && (forall id :: id in info && !info[id].inTried && id !in bare ==> info[id].refCount > 0)
  }

  ghost predicate Core(e: Env, b: Book, bare: set<Nid>, skip: set<Nid>) {
    && b.key != 0
    && Numbered(e, b.info, b.idCount)
    && Indexed(b.info, b.ids)
    && Shuffled(b.info, b.random)
    && NewPlaced(e, b.key, b.info, b.untried)
    && Referenced(b.info, b.untried)
    && TriedPlaced(e, b.key, b.info, b.tried)
    && Tallied(e, b.info, skip, b.nNew, b.nTried, b.counts)
    && Balanced(b.info, bare, skip)
  }

  /** Pending collisions name old ids; those still present are new entries whose tried slot is taken. */
  ghost predicate Pending(e: Env, b: Book, collisions: set<Nid>) {
    && |collisions| <= MAX_COLLISIONS
    && forall id :: id in collisions ==>
      && 0 <= id < b.idCount
      && (id in b.info ==> !b.info[id].inTried && TriedSlot(e, b.key, b.info[id].service) in b.tried)
  }

  ghost predicate Inv(e: Env, b: Book) {
    Core(e, b, {}, {}) && Pending(e, b, b.collisions)
  }

  // ----- Counting -----

  lemma SlotsAdded(t: map<Slot, Nid>, s: Slot, id: Nid)
    requires s !in t
    ensures |SlotsOf(t[s := id], id)| == |SlotsOf(t, id)| + 1
    ensures forall x :: x != id ==> SlotsOf(t[s := id], x) == SlotsOf(t, x)
  {
    assert SlotsOf(t[s := id], id) == SlotsOf(t, id) + {s};
  }

  lemma SlotsDropped(t: map<Slot, Nid>, s: Slot)
    requires s in t
    ensures |SlotsOf(t - {s}, t[s])| == |SlotsOf(t, t[s])| - 1
    ensures forall x :: x != t[s] ==> SlotsOf(t - {s}, x) == SlotsOf(t, x)
  {
    assert SlotsOf(t, t[s]) == SlotsOf(t - {s}, t[s]) + {s};
  }

  lemma SlotsSwept(t: map<Slot, Nid>, id: Nid)
    ensures SlotsOf(t - SlotsOf(t, id), id) == {}
    ensures forall x :: x != id ==> SlotsOf(t - SlotsOf(t, id), x) == SlotsOf(t, x)
  {
  }

  ghost function Weight(st: Standing, want: Standing): int {
    if st == want then 1 else 0
  }

  ghost function NewWeight(st: Standing): int { if st.AsNew? then 1 else 0 }
  ghost function TriedWeight(st: Standing): int { if st.AsTried? then 1 else 0 }

  ghost predicate SameElsewhere(e: Env, info: map<Nid, Info>, skip: set<Nid>,
                                info': map<Nid, Info>, skip': set<Nid>, id: Nid)
  {
    forall x :: x != id ==> StandingOf(e, info', skip', x) == StandingOf(e, info, skip, x)
  }

  lemma CardShift(s: set<Nid>, s': set<Nid>, id: Nid)
    requires forall x :: x != id ==> (x in s <==> x in s')
    ensures |s'| == |s| + (if id in s' then 1 else 0) - (if id in s then 1 else 0)
  {
    assert s - {id} == s' - {id} by {
      forall x ensures x in s - {id} <==> x in s' - {id} {}
    }
    assert |s - {id}| == |s| - (if id in s then 1 else 0);
    assert |s' - {id}| == |s'| - (if id in s' then 1 else 0);
  }

  lemma LocalsMoved(e: Env, info: map<Nid, Info>, skip: set<Nid>,
                    info': map<Nid, Info>, skip': set<Nid>, id: Nid, st: Standing)
    requires SameElsewhere(e, info, skip, info', skip', id)
    requires st != Away
    ensures |Locals(e, info', skip', st)| == |Locals(e, info, skip, st)|
      + Weight(StandingOf(e, info', skip', id), st) - Weight(StandingOf(e, info, skip, id), st)
  {
    CardShift(Locals(e, info, skip, st), Locals(e, info', skip', st), id);
  }

  lemma EveryoneMoved(e: Env, info: map<Nid, Info>, skip: set<Nid>,
                      info': map<Nid, Info>, skip': set<Nid>, id: Nid)
    requires SameElsewhere(e, info, skip, info', skip', id)
    ensures |Everyone(e, info', skip', false)| == |Everyone(e, info, skip, false)|
      + NewWeight(StandingOf(e, info', skip', id)) - NewWeight(StandingOf(e, info, skip, id))
    ensures |Everyone(e, info', skip', true)| == |Everyone(e, info, skip, true)|
      + TriedWeight(StandingOf(e, info', skip', id)) - TriedWeight(StandingOf(e, info, skip, id))
  {
    EveryoneMovedIn(e, info, skip, info', skip', id, false);
    EveryoneMovedIn(e, info, skip, info', skip', id, true);
  }

  lemma EveryoneMovedIn(e: Env, info: map<Nid, Info>, skip: set<Nid>,
                        info': map<Nid, Info>, skip': set<Nid>, id: Nid, tried: bool)
    requires SameElsewhere(e, info, skip, info', skip', id)
    ensures |Everyone(e, info', skip', tried)| == |Everyone(e, info, skip, tried)|
      + (if id in Everyone(e, info', skip', tried) then 1 else 0)
      - (if id in Everyone(e, info, skip, tried) then 1 else 0)
  {
    forall x | x != id ensures x in Everyone(e, info', skip', tried) <==> x in Everyone(e, info, skip, tried) {
      assert StandingOf(e, info', skip', x) == StandingOf(e, info, skip, x);
    }
    CardShift(Everyone(e, info, skip, tried), Everyone(e, info', skip', tried), id);
  }

  lemma Elsewhere(e: Env, info: map<Nid, Info>, id: Nid, i: Info, skip: set<Nid>, skip': set<Nid>)
    requires forall x :: x != id ==> (x in skip <==> x in skip')
    ensures SameElsewhere(e, info, skip, info[id := i], skip', id)
  {
  }

  /** Moving one id from one standing to another moves the counters by exactly that much. */
  lemma TalliedMoved(e: Env, info: map<Nid, Info>, skip: set<Nid>, info': map<Nid, Info>, skip': set<Nid>,
                     id: Nid, n: Network, nNew: int, nTried: int, counts: map<Network, Tally>)
    requires Tallied(e, info, skip, nNew, nTried, counts)
    requires SameElsewhere(e, info, skip, info', skip', id)
    requires StandingOf(e, info, skip, id) in {Away, AsNew(n), AsTried(n)}
    requires StandingOf(e, info', skip', id) in {Away, AsNew(n), AsTried(n)}
    ensures
      var dNew := NewWeight(StandingOf(e, info', skip', id)) - NewWeight(StandingOf(e, info, skip, id));
      var dTried := TriedWeight(StandingOf(e, info', skip', id)) - TriedWeight(StandingOf(e, info, skip, id));
      Tallied(e, info', skip', nNew + dNew, nTried + dTried, Bump(counts, n, dNew, dTried))
  {
    EveryoneMoved(e, info, skip, info', skip', id);
    var dNew := NewWeight(StandingOf(e, info', skip', id)) - NewWeight(StandingOf(e, info, skip, id));
    var dTried := TriedWeight(StandingOf(e, info', skip', id)) - TriedWeight(StandingOf(e, info, skip, id));
    var counts' := Bump(counts, n, dNew, dTried);
    forall m ensures TalliedOn(e, info', skip', TallyOf(counts', m), m) {
      assert TalliedOn(e, info, skip, TallyOf(counts, m), m);
      LocalsMoved(e, info, skip, info', skip', id, AsNew(m));
      LocalsMoved(e, info, skip, info', skip', id, AsTried(m));
    }
  }

  /** An update that moves nobody keeps the counters right. */
  lemma TalliedKept(e: Env, info: map<Nid, Info>, info': map<Nid, Info>, skip: set<Nid>,
                    nNew: int, nTried: int, counts: map<Network, Tally>)
    requires Tallied(e, info, skip, nNew, nTried, counts)
    requires SameServices(info, info') && SameSide(info, info')
    ensures Tallied(e, info', skip, nNew, nTried, counts)
  {
    forall x ensures StandingOf(e, info', skip, x) == StandingOf(e, info, skip, x) {
      if x in info { assert x in info'; } else { assert x !in info'; }
    }
    EveryoneMoved(e, info, skip, info', skip, NOBODY);
    forall n ensures TalliedOn(e, info', skip, TallyOf(counts, n), n) {
      assert TalliedOn(e, info, skip, TallyOf(counts, n), n);
      LocalsMoved(e, info, skip, info', skip, NOBODY, AsNew(n));
      LocalsMoved(e, info, skip, info', skip, NOBODY, AsTried(n));
    }
  }

  // ----- What stays true when entries keep some of their fields -----

  ghost predicate SameServices(info: map<Nid, Info>, info': map<Nid, Info>) {
    && info'.Keys == info.Keys
    && forall id :: id in info ==> info'[id].service == info[id].service
  }

  ghost predicate SameSide(info: map<Nid, Info>, info': map<Nid, Info>)
    requires info'.Keys == info.Keys
  {
    forall id :: id in info ==> info'[id].inTried == info[id].inTried
  }

  ghost predicate SamePositions(info: map<Nid, Info>, info': map<Nid, Info>)
    requires info'.Keys == info.Keys
  {
    forall id :: id in info ==> info'[id].randomPos == info[id].randomPos
  }

  ghost predicate SameRefs(info: map<Nid, Info>, info': map<Nid, Info>)
    requires info'.Keys == info.Keys
  {
    forall id :: id in info ==> info'[id].refCount == info[id].refCount
  }

  lemma IndexedKept(info: map<Nid, Info>, info': map<Nid, Info>, ids: map<Service, Nid>)
    requires Indexed(info, ids) && SameServices(info, info')
    ensures Indexed(info', ids)
  {
  }

  lemma ShuffledKept(info: map<Nid, Info>, info': map<Nid, Info>, random: seq<Nid>)
    requires Shuffled(info, random) && info'.Keys == info.Keys && SamePositions(info, info')
    ensures Shuffled(info', random)
  {
    assert |info'.Keys| == |info'|;
  }

  lemma NewPlacedKept(e: Env, key: int, info: map<Nid, Info>, info': map<Nid, Info>, t: map<Slot, Nid>)
    requires NewPlaced(e, key, info, t) && SameServices(info, info')
    requires SameSide(info, info')
    ensures NewPlaced(e, key, info', t)
  {
  }

  lemma TriedPlacedKept(e: Env, key: int, info: map<Nid, Info>, info': map<Nid, Info>, t: map<Slot, Nid>)
    requires TriedPlaced(e, key, info, t) && SameServices(info, info') && SameSide(info, info')
    ensures TriedPlaced(e, key, info', t)
  {
  }

  lemma NumberedKept(e: Env, info: map<Nid, Info>, info': map<Nid, Info>, n: int)
    requires Numbered(e, info, n) && SameServices(info, info')
    ensures Numbered(e, info', n)
  {
  }

  lemma ReferencedKept(info: map<Nid, Info>, info': map<Nid, Info>, t: map<Slot, Nid>)
    requires Referenced(info, t) && info'.Keys == info.Keys && SameRefs(info, info')
    ensures Referenced(info', t)
  {
  }

  lemma BalancedKept(info: map<Nid, Info>, info': map<Nid, Info>, bare: set<Nid>, skip: set<Nid>)
    requires Balanced(info, bare, skip) && info'.Keys == info.Keys && SameSide(info, info') && SameRefs(info, info')
    ensures Balanced(info', bare, skip)
  {
  }

  // ----- Elementary updates -----

  ghost predicate SameShape(i: Info, j: Info) {
    && i.service == j.service && i.refCount == j.refCount
    && i.inTried == j.inTried && i.randomPos == j.randomPos
  }

  lemma SetInfoCore(e: Env, b: Book, id: Nid, i: Info, bare: set<Nid>, skip: set<Nid>)
    requires Core(e, b, bare, skip) && id in b.info
    requires SameShape(i, b.info[id])
    ensures Core(e, SetInfo(b, id, i), bare, skip)
  {
    hide Tallied, Shuffled, Indexed, NewPlaced, TriedPlaced, Numbered, Referenced, Balanced;
    var info' := b.info[id := i];
    assert info'.Keys == b.info.Keys;
    TalliedKept(e, b.info, info', skip, b.nNew, b.nTried, b.counts);
    IndexedKept(b.info, info', b.ids);
    ShuffledKept(b.info, info', b.random);
    NewPlacedKept(e, b.key, b.info, info', b.untried);
    TriedPlacedKept(e, b.key, b.info, info', b.tried);
    NumberedKept(e, b.info, info', b.idCount);
    ReferencedKept(b.info, info', b.untried);
    BalancedKept(b.info, info', bare, skip);
  }

  /** What a change of side, references or times leaves alone. */
  lemma StableParts(e: Env, b: Book, info': map<Nid, Info>)
    requires Numbered(e, b.info, b.idCount) && Indexed(b.info, b.ids) && Shuffled(b.info, b.random)
    requires SameServices(b.info, info') && SamePositions(b.info, info')
    ensures Numbered(e, info', b.idCount) && Indexed(info', b.ids) && Shuffled(info', b.random)
  {
    IndexedKept(b.info, info', b.ids);
    ShuffledKept(b.info, info', b.random);
    NumberedKept(e, b.info, info', b.idCount);
  }

  // Adding an entry.

  lemma IndexedAdded(info: map<Nid, Info>, ids: map<Service, Nid>, id: Nid, i: Info)
    requires Indexed(info, ids) && id !in info && i.service !in ids
    ensures Indexed(info[id := i], ids[i.service := id])
  {
  }

  lemma ShuffledAdded(info: map<Nid, Info>, random: seq<Nid>, id: Nid, i: Info)
    requires Shuffled(info, random) && id !in info && i.randomPos == |random|
    ensures Shuffled(info[id := i], random + [id])
  {
  }

  lemma ReferencedNewcomer(e: Env, key: int, info: map<Nid, Info>, t: map<Slot, Nid>, id: Nid, i: Info)
    requires NewPlaced(e, key, info, t) && Referenced(info, t) && id !in info && i.refCount == 0
    ensures Referenced(info[id := i], t)
  {
    assert SlotsOf(t, id) == {};
  }

  lemma PlacedNewcomer(e: Env, key: int, info: map<Nid, Info>, t: map<Slot, Nid>, t': map<Slot, Nid>, id: Nid, i: Info)
    requires NewPlaced(e, key, info, t) && TriedPlaced(e, key, info, t') && id !in info && !i.inTried
    ensures NewPlaced(e, key, info[id := i], t) && TriedPlaced(e, key, info[id := i], t')
  {
  }

  lemma NumberedAdded(e: Env, info: map<Nid, Info>, id: Nid, i: Info)
    requires Numbered(e, info, id) && e.valid(i.service)
    ensures id !in info
    ensures Numbered(e, info[id := i], id + 1)
  {
  }

  lemma BalancedAdded(info: map<Nid, Info>, id: Nid, i: Info)
    requires Balanced(info, {}, {}) && !i.inTried
    ensures Balanced(info[id := i], {id}, {})
  {
  }

  lemma CreateCore(e: Env, b: Book, a: Address, source: NetAddr)
    requires Core(e, b, {}, {})
    requires a.service !in b.ids && e.valid(a.service)
    ensures Core(e, Create(e, b, a, source), {b.idCount}, {})
  {
    var c := Create(e, b, a, source);
    var id, i := b.idCount, Fresh(a, source, |b.random|);
    hide Tallied, Shuffled, Indexed, NewPlaced, TriedPlaced, Numbered, Referenced, Balanced;
    NumberedAdded(e, b.info, id, i);
    BalancedAdded(b.info, id, i);
    assert SameElsewhere(e, b.info, {}, c.info, {}, id);
    TalliedMoved(e, b.info, {}, c.info, {}, id, e.network(a.service), b.nNew, b.nTried, b.counts);
    IndexedAdded(b.info, b.ids, id, i);
    ShuffledAdded(b.info, b.random, id, i);
    ReferencedNewcomer(e, b.key, b.info, b.untried, id, i);
    PlacedNewcomer(e, b.key, b.info, b.untried, b.tried, id, i);
  }

  // Reordering the random list.

  lemma ShuffledSwapped(b: Book, i: int, j: int)
    requires Shuffled(b.info, b.random)
    ensures Shuffled(SwapRandom(b, i, j).info, SwapRandom(b, i, j).random)
  {
    var c := SwapRandom(b, i, j);
    if i != j && CanSwap(b, i, j) {
      var x, y := b.random[i], b.random[j];
      assert x != y;
      assert c.info.Keys == b.info.Keys;
      assert |c.info| == |c.info.Keys|;
      forall id | id in c.info
        ensures 0 <= c.info[id].randomPos < |c.random| && c.random[c.info[id].randomPos] == id
      {
        if id != x && id != y { assert c.info[id] == b.info[id]; }
      }
    }
  }

  /** Equal up to the position in the random list. */
  ghost predicate Moved(i: Info, j: Info) {
    j == i.(randomPos := j.randomPos)
  }

  ghost predicate AllMoved(info: map<Nid, Info>, info': map<Nid, Info>) {
    info'.Keys == info.Keys && forall id :: id in info ==> Moved(info[id], info'[id])
  }

  lemma SwapKeeps(b: Book, i: int, j: int)
    ensures AllMoved(b.info, SwapRandom(b, i, j).info)
  {
    if i != j && CanSwap(b, i, j) {
      var x, y := b.random[i], b.random[j];
      var info1 := b.info[x := b.info[x].(randomPos := j)];
      var info2 := info1[y := info1[y].(randomPos := i)];
      assert info2.Keys == b.info.Keys;
      assert Moved(b.info[x], info1[x]);
      assert Moved(info1[y], info2[y]);
    }
  }

  lemma MovedKeeps(info: map<Nid, Info>, info': map<Nid, Info>)
    requires AllMoved(info, info')
    ensures SameServices(info, info') && SameSide(info, info') && SameRefs(info, info')
  {
    forall id | id in info
      ensures info'[id].service == info[id].service && info'[id].inTried == info[id].inTried
      ensures info'[id].refCount == info[id].refCount
    {
      assert Moved(info[id], info'[id]);
    }
  }

  lemma SwapCore(e: Env, b: Book, i: int, j: int, bare: set<Nid>, skip: set<Nid>)
    requires Core(e, b, bare, skip)
    ensures Core(e, SwapRandom(b, i, j), bare, skip)
  {
    var c := SwapRandom(b, i, j);
    SwapKeeps(b, i, j);
    MovedKeeps(b.info, c.info);
    hide Tallied, Shuffled, Indexed, NewPlaced, TriedPlaced, Numbered, Referenced, Balanced;
    ShuffledSwapped(b, i, j);
    TalliedKept(e, b.info, c.info, skip, b.nNew, b.nTried, b.counts);
    IndexedKept(b.info, c.info, b.ids);
    NewPlacedKept(e, b.key, b.info, c.info, b.untried);
    TriedPlacedKept(e, b.key, b.info, c.info, b.tried);
    NumberedKept(e, b.info, c.info, b.idCount);
    ReferencedKept(b.info, c.info, b.untried);
    BalancedKept(b.info, c.info, bare, skip);
  }

  // Removing an entry.

  lemma IndexedDropped(info: map<Nid, Info>, ids: map<Service, Nid>, id: Nid)
    requires Indexed(info, ids) && id in info
    ensures Indexed(info - {id}, ids - {info[id].service})
  {
  }

  lemma MapDrop<K, V>(m: map<K, V>, k: K)
    requires k in m
    ensures |m - {k}| == |m| - 1
  {
    assert (m - {k}).Keys == m.Keys - {k};
    assert |(m - {k}).Keys| == |m - {k}|;
  }

  lemma ShuffledDropped(info: map<Nid, Info>, random: seq<Nid>, id: Nid)
    requires Shuffled(info, random) && id in info && info[id].randomPos == |random| - 1
    ensures Shuffled(info - {id}, random[..|random| - 1])
  {
    MapDrop(info, id);
  }

  lemma PlacedDropped(e: Env, key: int, info: map<Nid, Info>, t: map<Slot, Nid>, t': map<Slot, Nid>, id: Nid)
    requires NewPlaced(e, key, info, t) && TriedPlaced(e, key, info, t') && Referenced(info, t)
    requires id in info && !info[id].inTried && info[id].refCount == 0
    ensures NewPlaced(e, key, info - {id}, t) && TriedPlaced(e, key, info - {id}, t') && Referenced(info - {id}, t)
  {
    assert SlotsOf(t, id) == {};
    forall s | s in t ensures t[s] != id { assert t[s] == id ==> s in SlotsOf(t, id); }
  }

  lemma SoftDropped(e: Env, info: map<Nid, Info>, n: int, id: Nid, bare: set<Nid>, skip: set<Nid>)
    requires Numbered(e, info, n) && Balanced(info, bare, skip) && id !in skip
    ensures Numbered(e, info - {id}, n) && Balanced(info - {id}, bare - {id}, skip)
  {
  }

  /** `Delete` after its swap: the entry is last in the random list. */
  ghost function DropLast(e: Env, c: Book, id: Nid): Book
    requires id in c.info && c.random != []
  {
    c.(random := c.random[..|c.random| - 1],
       ids := c.ids - {c.info[id].service},
       info := c.info - {id},
       nNew := c.nNew - 1,
       counts := Bump(c.counts, e.network(c.info[id].service), -1, 0))
  }

  lemma ShuffledLast(info: map<Nid, Info>, random: seq<Nid>, id: Nid)
    requires Shuffled(info, random) && id in info
    ensures random != []
  {
  }

  lemma SameAfterDrop(e: Env, info: map<Nid, Info>, skip: set<Nid>, id: Nid)
    requires id in info && id !in skip && !info[id].inTried
    ensures SameElsewhere(e, info, skip, info - {id}, skip, id)
    ensures StandingOf(e, info - {id}, skip, id) == Away
    ensures StandingOf(e, info, skip, id) == AsNew(e.network(info[id].service))
  {
  }

  lemma DropLastCore(e: Env, b: Book, id: Nid, bare: set<Nid>, skip: set<Nid>)
    requires Core(e, b, bare, skip)
    requires id in b.info && !b.info[id].inTried && b.info[id].refCount == 0 && id !in skip
    requires b.info[id].randomPos == |b.random| - 1
    ensures b.random != []
    ensures Core(e, DropLast(e, b, id), bare - {id}, skip)
  {
    hide Tallied, Shuffled, Indexed, NewPlaced, TriedPlaced, Numbered, Referenced, Balanced;
    ShuffledLast(b.info, b.random, id);
    var c := DropLast(e, b, id);
    SoftDropped(e, b.info, b.idCount, id, bare, skip);
    SameAfterDrop(e, b.info, skip, id);
    hide SameElsewhere;
    TalliedMoved(e, b.info, skip, c.info, skip, id, e.network(b.info[id].service), b.nNew, b.nTried, b.counts);
    IndexedDropped(b.info, b.ids, id);
    ShuffledDropped(b.info, b.random, id);
    PlacedDropped(e, b.key, b.info, b.untried, b.tried, id);
  }

  /** Swapping an entry with the last position puts it last. */
  lemma SwapToEnd(b: Book, id: Nid)
    requires Shuffled(b.info, b.random) && id in b.info
    ensures b.random != []
    ensures var c := SwapRandom(b, b.info[id].randomPos, |b.random| - 1);
      id in c.info && c.info[id].randomPos == |c.random| - 1 && c.random != []
  {
  }

  lemma DeleteCore(e: Env, b: Book, id: Nid, bare: set<Nid>, skip: set<Nid>)
    requires Core(e, b, bare, skip)
    requires id in b.info && !b.info[id].inTried && b.info[id].refCount == 0 && id !in skip
    ensures Core(e, Delete(e, b, id), bare - {id}, skip)
    ensures AllMoved(b.info - {id}, Delete(e, b, id).info)
  {
    hide Tallied, Shuffled, Indexed, NewPlaced, TriedPlaced, Numbered, Referenced, Balanced, SwapRandom;
    var p, q := b.info[id].randomPos, |b.random| - 1;
    var c := SwapRandom(b, p, q);
    SwapToEnd(b, id);
    SwapKeeps(b, p, q);
    assert Moved(b.info[id], c.info[id]);
    SwapCore(e, b, p, q, bare, skip);
    DropLastCore(e, c, id, bare, skip);
    assert Delete(e, b, id) == DropLast(e, c, id);
  }

  // Entering and leaving the new table.

  lemma NewPlacedShrunk(e: Env, key: int, info: map<Nid, Info>, t: map<Slot, Nid>, gone: set<Slot>)
    requires NewPlaced(e, key, info, t)
    ensures NewPlaced(e, key, info, t - gone)
  {
  }

  lemma NewPlacedGrown(e: Env, key: int, info: map<Nid, Info>, t: map<Slot, Nid>, s: Slot, id: Nid)
    requires NewPlaced(e, key, info, t) && HoldsNew(e, key, info, s, id)
    ensures NewPlaced(e, key, info, t[s := id])
  {
  }

  /** Entries other than `id` keep their reference count, and no entry changes anything else that `Core` reads. */
  ghost predicate RefsAt(info: map<Nid, Info>, info': map<Nid, Info>, id: Nid) {
    && SameServices(info, info') && SameSide(info, info') && SamePositions(info, info')
    && (forall x :: x in info && x != id ==> info'[x] == info[x])
  }

  lemma SetRefs(info: map<Nid, Info>, id: Nid, n: int)
    requires id in info
    ensures RefsAt(info, info[id := info[id].(refCount := n)], id)
  {
    var info' := info[id := info[id].(refCount := n)];
    assert info'.Keys == info.Keys;
  }

  lemma ReferencedFewer(info: map<Nid, Info>, t: map<Slot, Nid>, s: Slot)
    requires Referenced(info, t) && s in t && t[s] in info
    ensures info[t[s]].refCount >= 1
    ensures Referenced(info[t[s] := info[t[s]].(refCount := info[t[s]].refCount - 1)], t - {s})
  {
    SlotsDropped(t, s);
  }

  lemma ReferencedMore(info: map<Nid, Info>, t: map<Slot, Nid>, s: Slot, id: Nid)
    requires Referenced(info, t) && s !in t && id in info && info[id].refCount < MAX_REFS
    ensures Referenced(info[id := info[id].(refCount := info[id].refCount + 1)], t[s := id])
  {
    SlotsAdded(t, s, id);
  }

  lemma ReferencedSwept(info: map<Nid, Info>, t: map<Slot, Nid>, id: Nid)
    requires Referenced(info, t) && id in info
    ensures Referenced(info[id := info[id].(refCount := 0)], t - SlotsOf(t, id))
  {
    SlotsSwept(t, id);
  }

  lemma BalancedBared(info: map<Nid, Info>, id: Nid, n: int, bare: set<Nid>, skip: set<Nid>)
    requires Balanced(info, bare, skip) && id in info && id !in skip && !info[id].inTried
    ensures Balanced(info[id := info[id].(refCount := n)], bare + {id}, skip)
    ensures n > 0 ==> Balanced(info[id := info[id].(refCount := n)], bare - {id}, skip)
    ensures n == 0 ==> Balanced(info[id := info[id].(refCount := n)], bare + {id}, skip + {id})
  {
  }

  lemma UnrefReady(e: Env, b: Book, s: Slot, bare: set<Nid>, skip: set<Nid>)
    requires Core(e, b, bare, skip) && s in b.untried
    ensures b.untried[s] in b.info && b.info[b.untried[s]].refCount >= 1 && b.untried[s] !in skip
    ensures !b.info[b.untried[s]].inTried
  {
    hide Tallied, Shuffled, Indexed, TriedPlaced, Numbered;
    var id := b.untried[s];
    assert HoldsNew(e, b.key, b.info, s, id);
    ReferencedFewer(b.info, b.untried, s);
  }

  lemma UnrefCore(e: Env, b: Book, s: Slot, bare: set<Nid>, skip: set<Nid>)
    requires Core(e, b, bare, skip) && s in b.untried
    ensures b.untried[s] in b.info && b.info[b.untried[s]].refCount >= 1 && b.untried[s] !in skip
    ensures !b.info[b.untried[s]].inTried
    ensures Core(e, Unref(b, s), bare + {b.untried[s]}, skip)
    ensures Unref(b, s).info[b.untried[s]].refCount > 0 ==> Core(e, Unref(b, s), bare - {b.untried[s]}, skip)
  {
    hide Tallied, Shuffled, Indexed, NewPlaced, TriedPlaced, Numbered, Referenced, Balanced;
    UnrefReady(e, b, s, bare, skip);
    var id := b.untried[s];
    ReferencedFewer(b.info, b.untried, s);
    var n := b.info[id].refCount - 1;
    var info' := b.info[id := b.info[id].(refCount := n)];
    SetRefs(b.info, id, n);
    StableParts(e, b, info');
    TalliedKept(e, b.info, info', skip, b.nNew, b.nTried, b.counts);
    NewPlacedKept(e, b.key, b.info, info', b.untried);
    NewPlacedShrunk(e, b.key, info', b.untried, {s});
    TriedPlacedKept(e, b.key, b.info, info', b.tried);
    BalancedBared(b.info, id, n, bare, skip);
  }

  lemma AddRefCore(e: Env, b: Book, id: Nid, s: Slot, bare: set<Nid>, skip: set<Nid>)
    requires Core(e, b, bare, skip) && id in b.info && id !in skip
    requires s !in b.untried && HoldsNew(e, b.key, b.info, s, id)
    requires b.info[id].refCount < MAX_REFS
    ensures Core(e, AddRef(b, id, s), bare - {id}, skip)
  {
    assert b.info[id].refCount >= 0;
    var n := b.info[id].refCount + 1;
    var info' := b.info[id := b.info[id].(refCount := n)];
    hide Tallied, Shuffled, Indexed, NewPlaced, TriedPlaced, Numbered, Referenced, Balanced;
    ReferencedMore(b.info, b.untried, s, id);
    SetRefs(b.info, id, n);
    StableParts(e, b, info');
    TalliedKept(e, b.info, info', skip, b.nNew, b.nTried, b.counts);
    NewPlacedKept(e, b.key, b.info, info', b.untried);
    NewPlacedGrown(e, b.key, info', b.untried, s, id);
    TriedPlacedKept(e, b.key, b.info, info', b.tried);
    BalancedBared(b.info, id, n, bare, skip);
  }

  lemma SweepCore(e: Env, b: Book, id: Nid, bare: set<Nid>, skip: set<Nid>)
    requires Core(e, b, bare, skip) && id in b.info && id !in skip && !b.info[id].inTried
    ensures Core(e, Sweep(e, b, id), bare + {id}, skip + {id})
  {
    hide Tallied, Shuffled, Indexed, NewPlaced, TriedPlaced, Numbered, Referenced, Balanced;
    var info' := b.info[id := b.info[id].(refCount := 0)];
    SetRefs(b.info, id, 0);
    StableParts(e, b, info');
    ReferencedSwept(b.info, b.untried, id);
    NewPlacedKept(e, b.key, b.info, info', b.untried);
    NewPlacedShrunk(e, b.key, info', b.untried, SlotsOf(b.untried, id));
    TriedPlacedKept(e, b.key, b.info, info', b.tried);
    BalancedBared(b.info, id, 0, bare, skip);
    Elsewhere(e, b.info, id, info'[id], skip, skip + {id});
    TalliedMoved(e, b.info, skip, info', skip + {id}, id, e.network(b.info[id].service), b.nNew, b.nTried, b.counts);
  }

  lemma BalancedBack(info: map<Nid, Info>, id: Nid, bare: set<Nid>, skip: set<Nid>)
    requires Balanced(info, bare, skip) && id in skip
    ensures id in info && info[id].refCount == 0 && !info[id].inTried
    ensures Balanced(info[id := info[id].(refCount := 1)], bare - {id}, skip - {id})
    ensures Balanced(info[id := info[id].(inTried := true)], bare - {id}, skip - {id})
  {
  }

  lemma ReenterCore(e: Env, b: Book, id: Nid, s: Slot, bare: set<Nid>, skip: set<Nid>)
    requires Core(e, b, bare, skip) && id in skip
    requires s !in b.untried && HoldsNew(e, b.key, b.info, s, id)
    ensures id in b.info
    ensures Core(e, Reenter(e, b, id, s), bare - {id}, skip - {id})
  {
    hide Tallied, Shuffled, Indexed, NewPlaced, TriedPlaced, Numbered, Referenced, Balanced;
    BalancedBack(b.info, id, bare, skip);
    var info' := b.info[id := b.info[id].(refCount := 1)];
    ReferencedMore(b.info, b.untried, s, id);
    SetRefs(b.info, id, 1);
    StableParts(e, b, info');
    NewPlacedKept(e, b.key, b.info, info', b.untried);
    NewPlacedGrown(e, b.key, info', b.untried, s, id);
    TriedPlacedKept(e, b.key, b.info, info', b.tried);
    Elsewhere(e, b.info, id, info'[id], skip, skip - {id});
    TalliedMoved(e, b.info, skip, info', skip - {id}, id, e.network(b.info[id].service), b.nNew, b.nTried, b.counts);
  }

  // Entering and leaving the tried table.

  ghost predicate SideAt(info: map<Nid, Info>, info': map<Nid, Info>, id: Nid) {
    && SameServices(info, info') && SamePositions(info, info') && SameRefs(info, info')
    && (forall x :: x in info && x != id ==> info'[x] == info[x])
  }

  lemma SetSide(info: map<Nid, Info>, id: Nid, tried: bool)
    requires id in info
    ensures SideAt(info, info[id := info[id].(inTried := tried)], id)
  {
    var info' := info[id := info[id].(inTried := tried)];
    assert info'.Keys == info.Keys;
  }

  lemma NewPlacedSide(e: Env, key: int, info: map<Nid, Info>, info': map<Nid, Info>, t: map<Slot, Nid>, id: Nid)
    requires NewPlaced(e, key, info, t) && SideAt(info, info', id)
    requires Referenced(info, t) && id in info && info[id].refCount == 0
    ensures NewPlaced(e, key, info', t)
  {
    assert SlotsOf(t, id) == {};
    forall s | s in t ensures HoldsNew(e, key, info', s, t[s]) {
      assert t[s] == id ==> s in SlotsOf(t, id);
      var x := t[s];
      assert info'[x] == info[x];
    }
  }

  lemma TriedPlacedLeft(e: Env, key: int, info: map<Nid, Info>, t: map<Slot, Nid>, s: Slot)
    requires TriedPlaced(e, key, info, t) && s in t && t[s] in info
    ensures TriedPlaced(e, key, info[t[s] := info[t[s]].(inTried := false)], t - {s})
  {
    var id := t[s];
    var info', t' := info[id := info[id].(inTried := false)], t - {s};
    assert HoldsTried(e, key, info, s, id);
    forall x | x in t' ensures HoldsTried(e, key, info', x, t'[x]) {
      assert HoldsTried(e, key, info, x, t[x]);
    }
  }

  lemma TriedPlacedEntered(e: Env, key: int, info: map<Nid, Info>, t: map<Slot, Nid>, id: Nid)
    requires TriedPlaced(e, key, info, t) && id in info && TriedSlot(e, key, info[id].service) !in t
    ensures TriedPlaced(e, key, info[id := info[id].(inTried := true)], t[TriedSlot(e, key, info[id].service) := id])
  {
    var s := TriedSlot(e, key, info[id].service);
    var info', t' := info[id := info[id].(inTried := true)], t[s := id];
    forall x | x in t' ensures HoldsTried(e, key, info', x, t'[x]) {
      if x != s { assert HoldsTried(e, key, info, x, t[x]); }
    }
  }

  lemma UntryReady(e: Env, b: Book, s: Slot, bare: set<Nid>, skip: set<Nid>)
    requires Core(e, b, bare, skip) && s in b.tried
    ensures b.tried[s] in b.info && b.info[b.tried[s]].inTried && s == TriedSlot(e, b.key, b.info[b.tried[s]].service)
    ensures b.info[b.tried[s]].refCount == 0 && b.tried[s] !in skip
    ensures var id := b.tried[s]; Balanced(b.info[id := b.info[id].(inTried := false)], bare + {id}, skip + {id})
  {
    hide Tallied, Shuffled, Indexed, Numbered;
    var id := b.tried[s];
    assert HoldsTried(e, b.key, b.info, s, id);
    RefsOfTried(e, b, id);
  }

  lemma UntryCore(e: Env, b: Book, s: Slot, bare: set<Nid>, skip: set<Nid>)
    requires Core(e, b, bare, skip) && s in b.tried
    ensures b.tried[s] in b.info && b.info[b.tried[s]].inTried && s == TriedSlot(e, b.key, b.info[b.tried[s]].service)
    ensures Core(e, Untry(e, b, s), bare + {b.tried[s]}, skip + {b.tried[s]})
  {
    hide Tallied, Shuffled, Indexed, NewPlaced, TriedPlaced, Numbered, Referenced, Balanced;
    UntryReady(e, b, s, bare, skip);
    var id := b.tried[s];
    var info' := b.info[id := b.info[id].(inTried := false)];
    SetSide(b.info, id, false);
    StableParts(e, b, info');
    ReferencedKept(b.info, info', b.untried);
    NewPlacedSide(e, b.key, b.info, info', b.untried, id);
    TriedPlacedLeft(e, b.key, b.info, b.tried, s);
    Elsewhere(e, b.info, id, info'[id], skip, skip + {id});
    TalliedMoved(e, b.info, skip, info', skip + {id}, id, e.network(b.info[id].service), b.nNew, b.nTried, b.counts);
  }

  /** Tried entries hold no reference in the new table. */
  lemma RefsOfTried(e: Env, b: Book, id: Nid)
    requires NewPlaced(e, b.key, b.info, b.untried) && Referenced(b.info, b.untried)
    requires id in b.info && b.info[id].inTried
    ensures b.info[id].refCount == 0
  {
    forall s | s in b.untried ensures b.untried[s] != id {
      assert HoldsNew(e, b.key, b.info, s, b.untried[s]);
    }
    assert SlotsOf(b.untried, id) == {};
  }

  lemma EnterTriedCore(e: Env, b: Book, id: Nid, bare: set<Nid>, skip: set<Nid>)
    requires Core(e, b, bare, skip) && id in skip
    requires id in b.info
    requires TriedSlot(e, b.key, b.info[id].service) !in b.tried
    ensures Core(e, EnterTried(e, b, id, TriedSlot(e, b.key, b.info[id].service)), bare - {id}, skip - {id})
  {
    hide Tallied, Shuffled, Indexed, NewPlaced, TriedPlaced, Numbered, Referenced, Balanced;
    BalancedBack(b.info, id, bare, skip);
    var info' := b.info[id := b.info[id].(inTried := true)];
    SetSide(b.info, id, true);
    StableParts(e, b, info');
    ReferencedKept(b.info, info', b.untried);
    NewPlacedSide(e, b.key, b.info, info', b.untried, id);
    TriedPlacedEntered(e, b.key, b.info, b.tried, id);
    Elsewhere(e, b.info, id, info'[id], skip, skip - {id});
    TalliedMoved(e, b.info, skip, info', skip - {id}, id, e.network(b.info[id].service), b.nNew, b.nTried, b.counts);
  }
}
