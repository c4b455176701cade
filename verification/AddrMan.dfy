/**
 The address manager itself: an object whose methods update its maps, lists, counters and
 two fixed-size tables in place. `Snap` reads the object as a `Book`; every method states
 its whole effect as the corresponding `AddrOps` function, and `Valid` is the invariant.
 */
module AddrMan {
  import opened Basics
  import opened AddrTypes
  import opened AddrOps
  import opened AddrInv
  import opened AddrProofs
  import opened AddrRuns
  import opened AddrQueries
  import opened AddrTables
  import opened Sets

  class AddrMan {
    const env: Env
    const newTable: array2<Nid>
    const triedTable: array2<Nid>
    var key: int
    var idCount: int
    var info: map<Nid, Info>
    var ids: map<Service, Nid>
    var random: seq<Nid>
    var nNew: int
    var nTried: int
    var counts: map<Network, Tally>
    var collisions: set<Nid>
    var lastGood: int

    ghost predicate Shaped() {
      && newTable.Length0 == NEW_BUCKETS && newTable.Length1 == BUCKET_SIZE
      && triedTable.Length0 == TRIED_BUCKETS && triedTable.Length1 == BUCKET_SIZE
      && newTable != triedTable
    }

    ghost function Snap(): Book
      reads this, newTable, triedTable
    {
      Book(key, idCount, info, ids, random, Occupied(newTable), Occupied(triedTable),
           nNew, nTried, counts, collisions, lastGood)
    }

    ghost predicate Valid()
      reads this, newTable, triedTable
    {
      Shaped() && Inv(env, Snap())
    }

    constructor (env: Env, key: int)
      ensures Shaped() && fresh(newTable) && fresh(triedTable) && this.env == env
      ensures Snap() == Empty(key)
      ensures key != 0 ==> Valid()
    {
      this.env := env;
      this.key := key;
      idCount, info, ids, random := 0, map[], map[], [];
      nNew, nTried, counts, collisions, lastGood := 0, 0, map[], {}, 1;
      newTable := new Nid[NEW_BUCKETS, BUCKET_SIZE]((_, _) => NOBODY);
      triedTable := new Nid[TRIED_BUCKETS, BUCKET_SIZE]((_, _) => NOBODY);
      new;
      assert Occupied(newTable) == map[] && Occupied(triedTable) == map[];
      if key != 0 { EmptyInv(env, key); }
    }

    method SwapRandom(i: int, j: int)
      requires 0 <= i < |random| && 0 <= j < |random|
      requires random[i] in info && random[j] in info
      modifies this`info, this`random
      ensures Snap() == AddrOps.SwapRandom(old(Snap()), i, j)
    {
      if i == j { return; }
      var x, y := random[i], random[j];
      info := info[x := info[x].(randomPos := j)];
      info := info[y := info[y].(randomPos := i)];
      random := random[i := y][j := x];
    }

    method Create(a: Address, source: NetAddr) returns (id: Nid)
      modifies this`idCount, this`info, this`ids, this`random, this`nNew, this`counts
      ensures id == old(idCount)
      ensures Snap() == AddrOps.Create(env, old(Snap()), a, source)
    {
      id := idCount;
      idCount := idCount + 1;
      info := info[id := Fresh(a, source, |random|)];
      ids := ids[a.service := id];
      random := random + [id];
      nNew := nNew + 1;
      counts := Bump(counts, env.network(a.service), 1, 0);
    }

    /** `Delete`. Its preconditions are its asserts; the counters it lowers are positive. */
    method Delete(id: Nid, ghost bare: set<Nid>, ghost skip: set<Nid>)
      requires Core(env, Snap(), bare, skip)
      requires id in info && !info[id].inTried && info[id].refCount == 0 && id !in skip
      modifies this`info, this`ids, this`random, this`nNew, this`counts
      ensures Snap() == AddrOps.Delete(env, old(Snap()), id)
      ensures Core(env, Snap(), bare - {id}, skip)
    {
      hide Core, AddrOps.SwapRandom, Occupied;
      ghost var b := Snap();
      SwapReady(env, b, id, bare, skip);
      DeleteCore(env, b, id, bare, skip);
      CountedOnce(env, b, bare, skip, id);
      var service := info[id].service;
      SwapRandom(info[id].randomPos, |random| - 1);
      assert nNew > 0 && TallyOf(counts, env.network(service)).untried > 0;
      counts := Bump(counts, env.network(service), -1, 0);
      random := random[..|random| - 1];
      ids := ids - {service};
      info := info - {id};
      nNew := nNew - 1;
    }

    method ClearNew(s: Slot, ghost bare: set<Nid>, ghost skip: set<Nid>)
      requires Shaped() && InNew(s) && Core(env, Snap(), bare, skip)
      requires s in Snap().untried ==> Snap().untried[s] !in bare
      modifies this`info, this`ids, this`random, this`nNew, this`counts, newTable
      ensures Snap() == AddrOps.ClearNew(env, old(Snap()), s)
      ensures Core(env, Snap(), bare, skip)
      ensures newTable[s.bucket, s.pos] == NOBODY
    {
      hide Core, Occupied, AddrOps.Delete, Survive, Descends;
      ghost var b := Snap();
      Empties(newTable, s);
      ClearNewCore(env, b, s, bare, skip);
      if newTable[s.bucket, s.pos] != NOBODY {
        UnrefCore(env, b, s, bare, skip);
        var id := newTable[s.bucket, s.pos];
        assert info[id].refCount > 0;
        info := info[id := info[id].(refCount := info[id].refCount - 1)];
        Vacate(newTable, s);
        if info[id].refCount == 0 {
          Delete(id, bare + {id}, skip);
        }
        Empties(newTable, s);
      }
    }

    /** The loop of `MakeTried` over all new buckets, which stops at the last reference.
        Whatever bucket it starts at, it takes out every slot of `id` and ends with no reference. */
    method SweepNew(id: Nid)
      requires Shaped() && Core(env, Snap(), {}, {}) && id in info && !info[id].inTried
      modifies this`info, newTable
      ensures Occupied(newTable) == old(Occupied(newTable) - SlotsOf(Occupied(newTable), id))
      ensures info == old(info[id := info[id].(refCount := 0)])
    {
      hide Core, Occupied, SlotsOf, Ahead;
      ghost var b := Snap();
      ghost var all := SlotsOf(b.untried, id);
      ghost var left := all;
      var service := info[id].service;
      var start := NewBucket(env, key, service, info[id].source);
      AheadStart(env, b, id, start);
      assert b.info[id := b.info[id].(refCount := |left|)] == b.info;
      var n := 0;
      while n < NEW_BUCKETS
        invariant 0 <= n <= NEW_BUCKETS && left <= all
        invariant Occupied(newTable) == b.untried - (all - left)
        invariant info == b.info[id := b.info[id].(refCount := |left|)]
        invariant Ahead(env, key, service, left, start, n)
      {
        var bucket := (start + n) % NEW_BUCKETS;
        var pos := BucketPos(env, key, true, bucket, service);
        ghost var s := Slot(bucket, pos);
        AheadStep(env, key, service, left, start, n);
        SweepLook(newTable, b.untried, left, id, s);
        if newTable[bucket, pos] == id {
          SweepTake(b.untried, all, left, s);
          left := left - {s};
          Vacate(newTable, Slot(bucket, pos));
          info := info[id := info[id].(refCount := info[id].refCount - 1)];
          if info[id].refCount == 0 { break; }
        }
        n := n + 1;
      }
      if n == NEW_BUCKETS { AheadDone(env, key, service, left, start); }
      assert left == {};
    }

    method LeaveTried(s: Slot, ghost skip: set<Nid>)
      requires Shaped() && Core(env, Snap(), skip, skip) && InTried(s)
      requires triedTable[s.bucket, s.pos] != NOBODY
      modifies this`info, this`nTried, this`counts, triedTable
      ensures s in old(Snap()).tried && old(Snap()).tried[s] in old(Snap()).info
      ensures Snap() == Untry(env, old(Snap()), s)
    {
      hide Core, Occupied;
      ghost var b := Snap();
      Empties(triedTable, s);
      UntryCore(env, b, s, skip, skip);
      var prior := triedTable[s.bucket, s.pos];
      CountedTried(env, b, skip, prior);
      info := info[prior := info[prior].(inTried := false)];
      Vacate(triedTable, s);
      assert nTried > 0 && TallyOf(counts, env.network(info[prior].service)).tried > 0;
      nTried := nTried - 1;
      counts := Bump(counts, env.network(info[prior].service), 0, -1);
    }

    method EnterNew(id: Nid, u: Slot)
      requires Shaped() && InNew(u) && id in info && id != NOBODY
      modifies this`info, this`nNew, this`counts, newTable
      ensures Snap() == Reenter(env, old(Snap()), id, u)
    {
      info := info[id := info[id].(refCount := 1)];
      Put(newTable, u, id);
      nNew := nNew + 1;
      counts := Bump(counts, env.network(info[id].service), 1, 0);
    }

    method EnterTried(id: Nid, s: Slot)
      requires Shaped() && InTried(s) && id in info && id != NOBODY
      modifies this`info, this`nTried, this`counts, triedTable
      ensures Snap() == AddrOps.EnterTried(env, old(Snap()), id, s)
    {
      Put(triedTable, s, id);
      nTried := nTried + 1;
      info := info[id := info[id].(inTried := true)];
      counts := Bump(counts, env.network(info[id].service), 0, 1);
    }

    /** The part of `MakeTried` that moves the occupant of a tried slot to the new table. */
    method MakeRoom(s: Slot, ghost skip: set<Nid>)
      requires Shaped() && Core(env, Snap(), skip, skip) && InTried(s)
      requires triedTable[s.bucket, s.pos] != NOBODY
      modifies this`info, this`ids, this`random, this`nNew, this`nTried, this`counts, newTable, triedTable
      ensures s in old(Snap()).tried && old(Snap()).tried[s] in old(Snap()).info
      ensures Snap() == Evict(env, old(Snap()), s)
    {
      hide Core, Occupied, AddrOps.ClearNew, Untry, Reenter;
      ghost var b := Snap();
      Empties(triedTable, s);
      UntryCore(env, b, s, skip, skip);
      var prior := triedTable[s.bucket, s.pos];
      var u := NewSlot(env, key, info[prior].service, info[prior].source);
      LeaveTried(s, skip);
      ghost var skip' := skip + {prior};
      if u in Snap().untried { BareHasNoSlot(env, Snap(), skip', u); }
      ClearNew(u, skip', skip');
      assert newTable[u.bucket, u.pos] == NOBODY;
      InCore(env, Snap(), skip', skip', prior);
      EnterNew(prior, u);
    }

    /** `MakeTried`. The assertions in its body are the program's own. */
    method MakeTried(id: Nid)
      requires Shaped() && Core(env, Snap(), {}, {})
      requires id in info && !info[id].inTried
      modifies this`info, this`ids, this`random, this`nNew, this`nTried, this`counts, newTable, triedTable
      ensures Snap() == AddrOps.MakeTried(env, old(Snap()), id)
      ensures Core(env, Snap(), {}, {})
    {
      hide Core, Occupied, SlotsOf, Evict, Promoted, AddrOps.EnterTried, Evicted;
      ghost var b := Snap();
      MakeTriedCore(env, b, id);
      CountedOnce(env, b, {}, {}, id);
      InCore(env, b, {}, {}, id);
      SweepCore(env, b, id, {}, {});
      assert {} + {id} == {id};
      var service := info[id].service;
      SweepNew(id);
      assert nNew > 0 && TallyOf(counts, env.network(service)).untried > 0;
      nNew := nNew - 1;
      counts := Bump(counts, env.network(service), -1, 0);
      assert info[id].refCount == 0;
      ghost var swept := Snap();
      assert swept == Sweep(env, b, id);
      var s := TriedSlot(env, key, service);
      Empties(triedTable, s);
      if triedTable[s.bucket, s.pos] != NOBODY {
        EvictCore(env, swept, s, {id});
        MakeRoom(s, {id});
        InCore(env, Snap(), {id}, {id}, id);
        Empties(triedTable, s);
      }
      assert triedTable[s.bucket, s.pos] == NOBODY;
      EnterTried(id, s);
    }

    /** The second half of `AddSingle`: find a slot for entry `id`. */
    method Place(id: Nid, source: NetAddr, now: int) returns (inserted: bool)
      requires Shaped() && Core(env, Snap(), {id}, {})
      requires id in info && !info[id].inTried && info[id].refCount < MAX_REFS
      modifies this`info, this`ids, this`random, this`nNew, this`counts, newTable
      ensures (Snap(), inserted) == AddrOps.Place(env, old(Snap()), id, source, now)
      ensures Core(env, Snap(), {}, {})
    {
      hide Core, Occupied, AddrOps.ClearNew, AddrOps.Delete, Terrible, Calm;
      ghost var b := Snap();
      PlaceCore(env, b, id, source, now);
      InCore(env, b, {id}, {}, id);
      var s := NewSlot(env, key, info[id].service, source);
      Empties(newTable, s);
      var occupant := newTable[s.bucket, s.pos];
      inserted := occupant == NOBODY;
      if occupant != id {
        if !inserted {
          SlotMeansRef(env, b, s, {id}, {});
          if Terrible(info[occupant], now) || (info[occupant].refCount > 1 && info[id].refCount == 0) {
            inserted := true;
          }
        }
        if inserted {
          ClearNewCore(env, b, s, {id}, {});
          ClearNew(s, {id}, {});
          InCore(env, Snap(), {id}, {}, id);
          Put(newTable, s, id);
          info := info[id := info[id].(refCount := info[id].refCount + 1)];
        } else if info[id].refCount == 0 {
          Delete(id, {id}, {});
        }
      }
    }

    method AddSingle(a: Address, source: NetAddr, penalty: int, d: Draw) returns (inserted: bool)
      requires Valid() && Sane(env)
      modifies this`idCount, this`info, this`ids, this`random, this`nNew, this`counts, newTable
      ensures (Snap(), inserted) == AddrOps.AddSingle(env, old(Snap()), a, source, penalty, d)
      ensures Valid()
    {
      hide Core, Occupied, AddrOps.Place, Pending, Calm;
      ghost var b := Snap();
      AddSingleKeeps(env, b, a, source, penalty, d);
      if !env.routable(a.service) { return false; }
      var penalty' := if a.service.host == source then 0 else penalty;
      if a.service in ids {
        FoundIs(env, b, a.service);
        var id := ids[a.service];
        var i := Refresh(info[id], a, penalty', d.online);
        SetInfoCore(env, b, id, i, {}, {});
        info := info[id := i];
        if !Worthwhile(i, a, d.dice) { return false; }
        Bare(env, Snap(), id);
        inserted := Place(id, source, d.terrible);
      } else {
        CreateCore(env, b, a, source);
        var id := Create(a, source);
        var i := info[id].(time := Max(0, info[id].time - penalty'));
        SetInfoCore(env, Snap(), id, i, {id}, {});
        info := info[id := i];
        inserted := Place(id, source, d.terrible);
      }
    }

    /** `Add_`: a run of `Add` steps, and whether any of them inserted. */
    method Add(addresses: seq<Address>, source: NetAddr, penalty: int, draws: nat -> Draw) returns (any: bool)
      requires Valid() && Sane(env)
      modifies this`idCount, this`info, this`ids, this`random, this`nNew, this`counts, newTable
      ensures Valid()
      ensures Snap() == Run(env, old(Snap()), Adds(addresses, source, penalty, draws))
      ensures any <==>
        (exists k :: 0 <= k < |addresses| && Inserts(env, old(Snap()), Adds(addresses, source, penalty, draws), k))
    {
      hide Core, Occupied, Inv, AddrOps.AddSingle;
      ghost var b := Snap();
      ghost var ops := Adds(addresses, source, penalty, draws);
      var added := 0;
      for k := 0 to |addresses|
        invariant Valid()
        invariant Snap() == Run(env, b, ops[..k])
        invariant added >= 0
        invariant added > 0 <==> (exists j :: 0 <= j < k && Inserts(env, b, ops, j))
      {
        RunSplit(env, b, ops, k);
        var inserted := AddSingle(addresses[k], source, penalty, draws(k));
        assert inserted <==> Inserts(env, b, ops, k);
        if inserted { added := added + 1; }
      }
      assert ops[..|addresses|] == ops;
      any := added > 0;
    }

    method Good(service: Service, test: bool, time: int) returns (moved: bool)
      requires Valid()
      modifies this`info, this`ids, this`random, this`nNew, this`nTried, this`counts, this`collisions, this`lastGood,
        newTable, triedTable
      ensures Shaped()
      ensures (Snap(), moved) == MarkGood(env, old(Snap()), service, test, time)
      ensures test ==> Valid()
    {
      hide Core, Occupied, AddrOps.MakeTried, Pending;
      ghost var b := Snap();
      if test { GoodKeeps(env, b, service, time); }
      lastGood := time;
      if service !in ids { return false; }
      FoundIs(env, b, service);
      var id := ids[service];
      ghost var i := b.info[id].(lastSuccess := time, lastTry := time, attempts := 0);
      SetInfoCore(env, b, id, i, {}, {});
      info := info[id := info[id].(lastSuccess := time, lastTry := time, attempts := 0)];
      if info[id].inTried { return false; }
      assert info[id].refCount > 0;
      var s := TriedSlot(env, key, info[id].service);
      Empties(triedTable, s);
      if test && triedTable[s.bucket, s.pos] != NOBODY {
        if |collisions| < MAX_COLLISIONS {
          collisions := collisions + {id};
        }
        return false;
      }
      LastGoodFree(env, SetInfo(b, id, i), time);
      MakeTried(id);
      return true;
    }

    method Attempt(service: Service, countFailure: bool, time: int)
      requires Valid()
      modifies this`info
      ensures Valid()
      ensures Snap() == NoteAttempt(old(Snap()), service, countFailure, time)
    {
      hide Core, Occupied, Pending, Calm;
      ghost var b := Snap();
      AttemptKeeps(env, b, service, countFailure, time);
      if service !in ids { return; }
      FoundIs(env, b, service);
      var id := ids[service];
      info := info[id := info[id].(lastTry := time)];
      if countFailure && info[id].lastCount < lastGood {
        info := info[id := info[id].(lastCount := time, attempts := info[id].attempts + 1)];
      }
      assert Snap() == NoteAttempt(b, service, countFailure, time);
    }

    method Connected(service: Service, time: int)
      requires Valid()
      modifies this`info
      ensures Valid()
      ensures Snap() == NoteConnected(old(Snap()), service, time)
    {
      hide Core, Occupied, Pending, Calm;
      ghost var b := Snap();
      ConnectedKeeps(env, b, service, time);
      if service !in ids { return; }
      FoundIs(env, b, service);
      var id := ids[service];
      if time - info[id].time > 20 * MINUTE {
        info := info[id := info[id].(time := time)];
      }
    }

    method SetServices(service: Service, flags: set<int>)
      requires Valid()
      modifies this`info
      ensures Valid()
      ensures Snap() == NoteServices(old(Snap()), service, flags)
    {
      hide Core, Occupied, Pending, Calm;
      ghost var b := Snap();
      ServicesKeeps(env, b, service, flags);
      if service !in ids { return; }
      FoundIs(env, b, service);
      var id := ids[service];
      info := info[id := info[id].(flags := flags)];
    }

    /** `ResolveCollisions_`: the pending collisions in ascending order, each with its own clock reading.
        The program walks its ordered set while erasing from it; `order` is that walk. */
    method ResolveCollisions(clock: Nid -> int) returns (ghost order: seq<Nid>)
      requires Valid()
      modifies this`info, this`ids, this`random, this`nNew, this`nTried, this`counts, this`collisions, this`lastGood,
        newTable, triedTable
      ensures Valid()
      ensures Ascending(order) && (set id | id in order) == old(collisions)
      ensures Snap() == Run(env, old(Snap()), Rounds(order, clock))
    {
      hide Core, Occupied, Inv, ResolveOne, Ascending, Walk, TriedStep, Step;
      ghost var b := Snap();
      order := [];
      var last := NOBODY;
      WalkStart(env, b);
      while Beyond(collisions, last) != {}
        invariant Valid()
        invariant Walk(order, last, collisions, b.collisions)
        invariant Snap() == Run(env, b, Rounds(order, clock))
        decreases |Beyond(collisions, last)|
      {
        LeastExists(Beyond(collisions, last));
        var id :| id in Beyond(collisions, last) && forall x :: x in Beyond(collisions, last) ==> id <= x;
        ghost var mid := Snap();
        ResolveStep(env, mid, id, clock(id));
        ResolveErases(env, mid, id, clock(id));
        RoundsMore(env, b, order, id, clock);
        ResolveRound(id, clock(id));
        WalkStep(order, last, mid.collisions, collisions, b.collisions, id);
        order := order + [id];
        last := id;
      }
      WalkEnd(order, last, collisions, b.collisions);
    }

    /** One turn of that loop. */
    method ResolveRound(id: Nid, now: int)
      requires Valid() && id in collisions
      modifies this`info, this`ids, this`random, this`nNew, this`nTried, this`counts, this`collisions, this`lastGood,
        newTable, triedTable
      ensures Shaped()
      ensures Snap() == ResolveOne(env, old(Snap()), id, now)
    {
      hide Core, Occupied, Pending, MarkGood;
      ghost var b := Snap();
      var erase := false;
      if id !in info {
        erase := true;
      } else {
        JudgeEvicts(env, b, id, now);
        var s := TriedSlot(env, key, info[id].service);
        Empties(triedTable, s);
        if !env.valid(info[id].service) {
          erase := true;
        } else {
          // The slot is taken: the program's branch for a collision that has gone away is dead.
          assert triedTable[s.bucket, s.pos] != NOBODY;
          var prior := info[triedTable[s.bucket, s.pos]];
          if now - prior.lastSuccess < REPLACEMENT {
            erase := true;
          } else if now - prior.lastTry < REPLACEMENT {
            if now - prior.lastTry > MINUTE {
              var _ := Good(info[id].service, false, now);
              erase := true;
            }
          } else if now - info[id].lastSuccess > TEST_WINDOW {
            var _ := Good(info[id].service, false, now);
            erase := true;
          }
        }
      }
      if erase {
        collisions := collisions - {id};
      }
    }

    /** `SelectTriedCollision_`: some pending collision `drawn`, and the tried entry it competes with.
        A collision whose entry is gone is forgotten; otherwise the tried slot is always occupied. */
    method SelectTriedCollision() returns (r: Option<Info>, ghost drawn: Nid)
      requires Valid()
      modifies this`collisions
      ensures Valid()
      ensures old(collisions) == {} ==> r == None && Snap() == old(Snap())
      ensures old(collisions) != {} ==> drawn in old(collisions) && Snap() == ForgetStale(old(Snap()), drawn)
      ensures old(collisions) != {} && drawn !in info ==> r == None
      ensures old(collisions) != {} && drawn in info ==>
        var s := TriedSlot(env, key, info[drawn].service);
        s in Snap().tried && Snap().tried[s] in info && r == Some(info[Snap().tried[s]])
    {
      hide Core, Occupied;
      ghost var b := Snap();
      drawn := NOBODY;
      if collisions == {} { return None, drawn; }
      InhabitedInts(collisions);
      var id :| id in collisions;
      drawn := id;
      ForgetKeeps(env, b, id);
      if id !in info {
        collisions := collisions - {id};
        return None, drawn;
      }
      JudgeEvicts(env, b, id, 0);
      var s := TriedSlot(env, key, info[id].service);
      Empties(triedTable, s);
      assert triedTable[s.bucket, s.pos] != NOBODY;
      return Some(info[triedTable[s.bucket, s.pos]]), drawn;
    }

    /** The number of entries of the requested networks in each table, from the counters. */
    method Census(networks: set<Network>) returns (news: int, trieds: int)
      requires Valid()
      ensures news == |Wanted(env, Snap(), networks, false)|
      ensures trieds == |Wanted(env, Snap(), networks, true)|
    {
      hide Core, Occupied, Wanted, Among;
      if networks == {} {
        WantedAll(env, Snap());
        return nNew, nTried;
      }
      WantedIsAmong(env, Snap(), networks);
      AmongNone(env, Snap());
      news, trieds := 0, 0;
      var rest := networks;
      ghost var done: set<Network> := {};
      while rest != {}
        invariant done !! rest && done + rest == networks
        invariant news == |Among(env, Snap(), done, false)|
        invariant trieds == |Among(env, Snap(), done, true)|
        decreases |rest|
      {
        Inhabited(rest);
        var n :| n in rest;
        AmongMore(env, Snap(), done, n);
        if n in counts {
          news := news + counts[n].untried;
          trieds := trieds + counts[n].tried;
        }
        done := done + {n};
        rest := rest - {n};
      }
      assert done == networks;
    }

    /** The inner loop of `Select_`: around one bucket from a starting position. */
    method Scan(tried: bool, bucket: int, start: int, networks: set<Network>) returns (found: Nid)
      requires Valid() && 0 <= bucket < BucketCount(tried) && 0 <= start < BUCKET_SIZE
      ensures found == NOBODY <==> !Offers(env, Snap(), networks, tried, bucket)
      ensures found != NOBODY ==> FirstFrom(env, Snap(), networks, tried, bucket, start, found)
    {
      hide Core, Occupied, Wanted, Offer, FirstFrom;
      ghost var b := Snap();
      for i := 0 to BUCKET_SIZE
        invariant forall pos :: 0 <= pos < BUCKET_SIZE && (pos - start) % BUCKET_SIZE < i ==>
          !Offer(env, b, networks, tried, Slot(bucket, pos))
      {
        var s := Slot(bucket, (start + i) % BUCKET_SIZE);
        found := if tried then triedTable[s.bucket, s.pos] else newTable[s.bucket, s.pos];
        if tried { Empties(triedTable, s); } else { Empties(newTable, s); }
        if found != NOBODY {
          OnItsSide(env, b, networks, tried, s);
          if networks == {} || env.network(info[found].service) in networks {
            OfferIs(env, b, networks, tried, s);
            FirstIs(env, b, networks, tried, bucket, start, i);
            return;
          }
        } else {
          OfferIs(env, b, networks, tried, s);
        }
      }
      found := NOBODY;
    }

    /** `Select_`, fed with the rounds it draws. `tried` is the table it settles on. It gives up at once
        exactly when nothing can be selected; otherwise its table holds a wanted entry (so by `WayOut` some
        bucket offers one), and the first accepted round on an offering bucket ends the search. */
    method Select(newOnly: bool, networks: set<Network>, coin: bool, picks: seq<Pick>)
      returns (r: Option<Nid>, tried: bool, gaveUp: bool)
      requires Valid()
      ensures gaveUp <==>
        Wanted(env, Snap(), networks, false) == {} && (newOnly || Wanted(env, Snap(), networks, true) == {})
      ensures gaveUp ==> r == None
      ensures !gaveUp ==> Wanted(env, Snap(), networks, tried) != {}
      ensures !gaveUp ==> tried == Settles(env, Snap(), newOnly, networks, coin)
      ensures r.Some? ==> r.value in Wanted(env, Snap(), networks, tried)
      ensures r.Some? ==> exists k :: 0 <= k < |picks| && EndsAt(env, Snap(), networks, tried, picks, k, r.value)
      ensures !gaveUp && r.None? ==> forall k :: 0 <= k < |picks| && picks[k].accept ==>
        !Offers(env, Snap(), networks, tried, picks[k].bucket % BucketCount(tried))
    {
      hide Core, Occupied, Wanted, Offers, FirstFrom;
      ghost var b := Snap();
      tried := false;
      if random == [] {
        NobodyWanted(env, b, networks);
        return None, false, true;
      }
      var news, trieds := Census(networks);
      CardZero(Wanted(env, b, networks, false));
      CardZero(Wanted(env, b, networks, true));
      if newOnly && news == 0 { return None, false, true; }
      if news + trieds == 0 { return None, false, true; }
      gaveUp := false;
      tried := if newOnly || trieds == 0 then false else if news == 0 then true else coin;
      for n := 0 to |picks|
        invariant forall k :: 0 <= k < n && picks[k].accept ==>
          !Offers(env, b, networks, tried, picks[k].bucket % BucketCount(tried))
      {
        var found := Scan(tried, picks[n].bucket % BucketCount(tried), picks[n].start % BUCKET_SIZE, networks);
        if found != NOBODY && picks[n].accept {
          FirstIsWanted(env, b, networks, tried, picks[n].bucket % BucketCount(tried), picks[n].start % BUCKET_SIZE, found);
          assert EndsAt(env, b, networks, tried, picks, n, found);
          return Some(found), tried, false;
        }
      }
      r := None;
    }

    /** `GetAddr_`: a partial shuffle of the random list. The entries returned are distinct, eligible and
        within the quota, and a result short of the quota has every eligible entry. */
    method GetAddr(maxAddresses: nat, maxPct: nat, network: Option<Network>, filtered: bool, now: int, rand: nat -> nat)
      returns (r: seq<Address>, ghost picked: seq<Nid>)
      requires Valid()
      modifies this`info, this`random
      ensures Valid()
      ensures AllMoved(old(info), info)
      ensures |r| == |picked| <= Quota(|old(random)|, maxAddresses, maxPct)
      ensures Distinct(picked)
      ensures forall k :: 0 <= k < |picked| ==>
        picked[k] in old(info) && r[k] == AddressOf(old(info)[picked[k]])
        && Eligible(env, old(info)[picked[k]], network, filtered, now)
      ensures |r| < Quota(|old(random)|, maxAddresses, maxPct) ==>
        forall id :: id in old(info) && Eligible(env, old(info)[id], network, filtered, now) ==> id in picked
    {
      hide Core, Occupied, Inv, Eligible, AddressOf, AllMoved;
      ghost var b := Snap();
      var quota := Quota(|random|, maxAddresses, maxPct);
      r, picked := [], [];
      AllMovedSelf(b.info);
      var n := 0;
      while n < |random| && |r| < quota
        invariant 0 <= n <= |random| == |b.random| && Shaped() && Inv(env, Snap())
        invariant AllMoved(b.info, info)
        invariant |r| == |picked| <= quota
        invariant Chosen(env, b, random[..n], picked, r, network, filtered, now)
      {
        var p := rand(n) % (|random| - n) + n;
        ShuffledIn(env, Snap(), n, p);
        ShuffleKeeps(env, Snap(), n, p);
        SwapKeeps(Snap(), n, p);
        SwapPrefix(Snap(), n, p);
        ghost var mid := Snap();
        SwapRandom(n, p);
        AllMovedTwice(b.info, mid.info, info);
        ShuffledIn(env, Snap(), n, n);
        var id := random[n];
        EligibleAt(env, b, info, id, network, filtered, now);
        ChosenMore(env, Snap(), b, n, picked, r, network, filtered, now);
        if Eligible(env, info[id], network, filtered, now) {
          r := r + [AddressOf(info[id])];
          picked := picked + [id];
        }
        n := n + 1;
      }
      ChosenAll(env, b, Snap(), n, picked, r, network, filtered, now);
    }
  }

  /** `picked` are the eligible ids of `seen`, each once, and `r` their addresses. */
  ghost predicate Chosen(e: Env, b: Book, seen: seq<Nid>, picked: seq<Nid>, r: seq<Address>,
                         network: Option<Network>, filtered: bool, now: int)
  {
    && |r| == |picked| && Distinct(picked)
    && (forall k :: 0 <= k < |picked| ==>
      picked[k] in seen && picked[k] in b.info && r[k] == AddressOf(b.info[picked[k]])
      && Eligible(e, b.info[picked[k]], network, filtered, now))
    && (forall id :: id in seen && id in b.info && Eligible(e, b.info[id], network, filtered, now) ==> id in picked)
  }

  lemma AllMovedSelf(info: map<Nid, Info>)
    ensures AllMoved(info, info)
  {
  }

  lemma AllMovedTwice(x: map<Nid, Info>, y: map<Nid, Info>, z: map<Nid, Info>)
    requires AllMoved(x, y) && AllMoved(y, z)
    ensures AllMoved(x, z)
  {
    forall id | id in x ensures Moved(x[id], z[id]) { assert Moved(x[id], y[id]) && Moved(y[id], z[id]); }
  }

  lemma ShuffledIn(e: Env, b: Book, i: int, j: int)
    requires Inv(e, b) && 0 <= i < |b.random| && 0 <= j < |b.random|
    ensures b.random[i] in b.info && b.random[j] in b.info
  {
    hide Tallied, Indexed, NewPlaced, TriedPlaced, Numbered, Referenced, Balanced, Pending;
  }

  lemma SwapPrefix(b: Book, i: int, j: int)
    requires 0 <= i <= j < |b.random|
    ensures |AddrOps.SwapRandom(b, i, j).random| == |b.random|
    ensures AddrOps.SwapRandom(b, i, j).random[..i] == b.random[..i]
  {
  }

  lemma EligibleAt(e: Env, b: Book, info: map<Nid, Info>, id: Nid, network: Option<Network>, filtered: bool, now: int)
    requires AllMoved(b.info, info) && id in info
    ensures id in b.info && Eligible(e, info[id], network, filtered, now) == Eligible(e, b.info[id], network, filtered, now)
    ensures AddressOf(info[id]) == AddressOf(b.info[id])
  {
    EligibleMoved(e, b.info[id], info[id], network, filtered, now);
  }

  lemma ChosenMore(e: Env, c: Book, b: Book, n: nat, picked: seq<Nid>, r: seq<Address>,
                   network: Option<Network>, filtered: bool, now: int)
    requires Inv(e, c) && n < |c.random| && Chosen(e, b, c.random[..n], picked, r, network, filtered, now)
    requires c.random[n] in b.info
    ensures var id := c.random[n];
      if Eligible(e, b.info[id], network, filtered, now)
      then Chosen(e, b, c.random[..n + 1], picked + [id], r + [AddressOf(b.info[id])], network, filtered, now)
      else Chosen(e, b, c.random[..n + 1], picked, r, network, filtered, now)
  {
    hide Inv, Chosen;
    var id := c.random[n];
    assert c.random[..n + 1] == c.random[..n] + [id];
    ShuffledDistinct(e, c, n);
    ChosenGrows(e, b, c.random[..n], id, picked, r, network, filtered, now);
  }

  lemma ChosenGrows(e: Env, b: Book, seen: seq<Nid>, id: Nid, picked: seq<Nid>, r: seq<Address>,
                    network: Option<Network>, filtered: bool, now: int)
    requires Chosen(e, b, seen, picked, r, network, filtered, now) && id !in seen && id in b.info
    ensures if Eligible(e, b.info[id], network, filtered, now)
      then Chosen(e, b, seen + [id], picked + [id], r + [AddressOf(b.info[id])], network, filtered, now)
      else Chosen(e, b, seen + [id], picked, r, network, filtered, now)
  {
    hide Eligible, AddressOf;
    forall k | 0 <= k < |picked| ensures picked[k] != id && picked[k] in seen + [id] {}
    forall x | x in seen + [id] ensures x in seen || x == id {}
  }

  lemma ShuffledDistinct(e: Env, c: Book, n: nat)
    requires Inv(e, c) && n < |c.random|
    ensures c.random[n] !in c.random[..n]
  {
    hide Tallied, Indexed, NewPlaced, TriedPlaced, Numbered, Referenced, Balanced, Pending;
    var id := c.random[n];
    assert c.info[id].randomPos == n;
  }

  lemma ChosenAll(e: Env, b: Book, c: Book, n: nat, picked: seq<Nid>, r: seq<Address>,
                  network: Option<Network>, filtered: bool, now: int)
    requires Inv(e, c) && AllMoved(b.info, c.info) && n <= |c.random|
    requires Chosen(e, b, c.random[..n], picked, r, network, filtered, now)
    ensures n == |c.random| ==>
      forall id :: id in b.info && Eligible(e, b.info[id], network, filtered, now) ==> id in picked
  {
    hide Tallied, Indexed, NewPlaced, TriedPlaced, Numbered, Referenced, Balanced, Pending;
    if n == |c.random| {
      forall id | id in b.info ensures id in c.random[..n] {
        assert id in c.info;
        assert c.random[..n] == c.random;
        assert c.random[c.info[id].randomPos] == id;
      }
    }
  }

  lemma OfferIs(e: Env, b: Book, networks: set<Network>, tried: bool, s: Slot)
    ensures Offer(e, b, networks, tried, s) ==> s in Table(b, tried) && Table(b, tried)[s] in Wanted(e, b, networks, tried)
  {
  }

  lemma NobodyWanted(e: Env, b: Book, networks: set<Network>)
    requires Core(e, b, {}, {}) && b.random == []
    ensures Wanted(e, b, networks, false) == {} == Wanted(e, b, networks, true)
  {
    assert |b.info| == 0;
    assert b.info == map[];
  }

  ghost predicate Ascending(s: seq<Nid>) {
    forall i, j :: 0 <= i < j < |s| ==> s[i] < s[j]
  }

  /** An ascending walk that has reached `last`; `now` is what is left of the set `all` being walked. */
  ghost predicate Walk(order: seq<Nid>, last: Nid, now: set<Nid>, all: set<Nid>) {
    && Ascending(order)
    && (forall i :: 0 <= i < |order| ==> order[i] <= last)
    && (set id | id in order) + Beyond(now, last) == all
  }

  lemma WalkStart(e: Env, b: Book)
    requires Inv(e, b)
    ensures Walk([], NOBODY, b.collisions, b.collisions)
  {
  }

  lemma ElementsMore(order: seq<Nid>, id: Nid)
    ensures (set x | x in order + [id]) == (set x | x in order) + {id}
  {
  }

  lemma AscendingMore(order: seq<Nid>, last: Nid, id: Nid)
    requires Ascending(order) && (forall i :: 0 <= i < |order| ==> order[i] <= last) && id > last
    ensures Ascending(order + [id]) && forall i :: 0 <= i < |order + [id]| ==> (order + [id])[i] <= id
  {
  }

  lemma WalkStep(order: seq<Nid>, last: Nid, was: set<Nid>, now: set<Nid>, all: set<Nid>, id: Nid)
    requires Walk(order, last, was, all)
    requires id in Beyond(was, last) && forall x :: x in Beyond(was, last) ==> id <= x
    requires now == was || now == was - {id}
    ensures Walk(order + [id], id, now, all)
    ensures |Beyond(now, id)| < |Beyond(was, last)|
  {
    hide Ascending;
    BeyondNext(was, now, last, id);
    AscendingMore(order, last, id);
    ElementsMore(order, id);
    hide Beyond;
    var done, rest := (set x | x in order), Beyond(was, last);
    assert done + {id} + (rest - {id}) == done + rest;
    assert |rest - {id}| == |rest| - 1;
  }

  lemma BeyondNext(was: set<Nid>, now: set<Nid>, last: Nid, id: Nid)
    requires id in Beyond(was, last) && forall x :: x in Beyond(was, last) ==> id <= x
    requires now == was || now == was - {id}
    ensures Beyond(now, id) == Beyond(was, last) - {id}
  {
  }

  lemma WalkEnd(order: seq<Nid>, last: Nid, now: set<Nid>, all: set<Nid>)
    requires Walk(order, last, now, all) && Beyond(now, last) == {}
    ensures Ascending(order) && (set id | id in order) == all
  {
  }

  function Beyond(s: set<Nid>, last: Nid): set<Nid> {
    set x | x in s && x > last
  }

  lemma {:induction false} LeastExists(s: set<Nid>)
    requires s != {}
    ensures exists id :: id in s && forall x :: x in s ==> id <= x
  {
    InhabitedInts(s);
    var id :| id in s;
    if s != {id} {
      LeastExists(s - {id});
      var m :| m in s - {id} && forall x :: x in s - {id} ==> m <= x;
      var least := if id < m then id else m;
      assert least in s && forall x :: x in s ==> least <= x by {
        forall x | x in s ensures least <= x { if x != id { assert x in s - {id}; } }
      }
    }
  }

  ghost function Rounds(order: seq<Nid>, clock: Nid -> int): (r: seq<Op>)
    ensures |r| == |order|
    ensures forall k :: 0 <= k < |r| ==> r[k] == Op.Resolve(order[k], clock(order[k]))
  {
    seq(|order|, k requires 0 <= k < |order| => Op.Resolve(order[k], clock(order[k])))
  }

  lemma RoundsMore(e: Env, b: Book, order: seq<Nid>, id: Nid, clock: Nid -> int)
    ensures Run(e, b, Rounds(order + [id], clock)) == ResolveOne(e, Run(e, b, Rounds(order, clock)), id, clock(id))
  {
    var ops := Rounds(order + [id], clock);
    RunSplit(e, b, ops, |order|);
    assert ops[..|order|] == Rounds(order, clock);
    assert ops[..|order| + 1] == ops;
  }

  lemma ResolveErases(e: Env, b: Book, id: Nid, now: int)
    requires Inv(e, b)
    ensures var c := ResolveOne(e, b, id, now).collisions; c == b.collisions || c == b.collisions - {id}
  {
    hide Tallied, Shuffled, NewPlaced, TriedPlaced, Numbered, Referenced, Balanced, Indexed, Judge, MarkGood, Pending;
    if id in b.collisions && Judge(e, b, id, now) == Replace {
      JudgeEvicts(e, b, id, now);
      PendingIs(e, b, id);
      FoundById(e, b, id);
      GoodCore(e, b, b.info[id].service, false, now);
      GoodMoves(e, b, id, now);
    }
  }

  /** Whether the k-th step of a run of `Add` steps puts its address into the new table. */
  ghost predicate Inserts(e: Env, b: Book, ops: seq<Op>, k: nat)
    requires k < |ops| && ops[k].Add?
  {
    AddrOps.AddSingle(e, Run(e, b, ops[..k]), ops[k].address, ops[k].source, ops[k].penalty, ops[k].draw).1
  }

  function Adds(addresses: seq<Address>, source: NetAddr, penalty: int, draws: nat -> Draw): (r: seq<Op>)
    ensures |r| == |addresses|
    ensures forall k :: 0 <= k < |r| ==> r[k] == Op.Add(addresses[k], source, penalty, draws(k))
  {
    seq(|addresses|, k requires 0 <= k < |addresses| => Op.Add(addresses[k], source, penalty, draws(k)))
  }

  lemma LastGoodFree(e: Env, b: Book, time: int)
    requires Core(e, b, {}, {})
    ensures Core(e, b.(lastGood := time), {}, {})
  {
    hide Tallied, Shuffled, Indexed, NewPlaced, TriedPlaced, Numbered, Referenced, Balanced;
  }

  lemma InCore(e: Env, b: Book, bare: set<Nid>, skip: set<Nid>, id: Nid)
    requires Core(e, b, bare, skip)
    ensures id in bare ==> id in b.info
    ensures id in b.info ==> id != NOBODY
  {
  }

  lemma CountedTried(e: Env, b: Book, skip: set<Nid>, id: Nid)
    requires Core(e, b, skip, skip) && id in b.info && b.info[id].inTried
    ensures id != NOBODY
    ensures b.nTried > 0 && TallyOf(b.counts, e.network(b.info[id].service)).tried > 0
  {
    SkipsAreNew(e, b, skip, skip, id);
    CountedOnce(e, b, skip, skip, id);
  }

  lemma SwapReady(e: Env, b: Book, id: Nid, bare: set<Nid>, skip: set<Nid>)
    requires Core(e, b, bare, skip) && id in b.info
    ensures |b.random| > 0 && CanSwap(b, b.info[id].randomPos, |b.random| - 1)
    ensures var c := AddrOps.SwapRandom(b, b.info[id].randomPos, |b.random| - 1);
      && |c.random| == |b.random| && c.ids == b.ids && c.nNew == b.nNew && c.counts == b.counts
  {
    assert b.random[b.info[id].randomPos] == id;
    var last := b.random[|b.random| - 1];
    assert last in b.info;
  }

  /** An entry that is counted makes its counters positive. */
  lemma CountedOnce(e: Env, b: Book, bare: set<Nid>, skip: set<Nid>, id: Nid)
    requires Core(e, b, bare, skip) && id in b.info && id !in skip
    ensures !b.info[id].inTried ==>
      b.nNew > 0 && TallyOf(b.counts, e.network(b.info[id].service)).untried > 0
    ensures b.info[id].inTried ==>
      b.nTried > 0 && TallyOf(b.counts, e.network(b.info[id].service)).tried > 0
  {
    var n := e.network(b.info[id].service);
    assert TalliedOn(e, b.info, skip, TallyOf(b.counts, n), n);
    assert id in Everyone(e, b.info, skip, b.info[id].inTried);
    assert id in Locals(e, b.info, skip, StandingOf(e, b.info, skip, id));
  }

  /** Every slot of `left` is in a bucket the loop has yet to visit, at the position it will look at. */
  ghost predicate Ahead(e: Env, key: int, service: Service, left: set<Slot>, start: int, n: int) {
    forall s :: s in left ==>
      && InNew(s) && (s.bucket - start) % NEW_BUCKETS >= n
      && s.pos == BucketPos(e, key, true, s.bucket, service)
  }

  lemma AheadStart(e: Env, b: Book, id: Nid, start: int)
    requires Core(e, b, {}, {}) && id in b.info && !b.info[id].inTried
    ensures id != NOBODY && b.info[id].refCount == |SlotsOf(b.untried, id)|
    ensures Ahead(e, b.key, b.info[id].service, SlotsOf(b.untried, id), start, 0)
    ensures b.untried - (SlotsOf(b.untried, id) - SlotsOf(b.untried, id)) == b.untried
  {
    forall s | s in SlotsOf(b.untried, id)
      ensures InNew(s) && s.pos == BucketPos(e, b.key, true, s.bucket, b.info[id].service)
    {
      assert HoldsNew(e, b.key, b.info, s, b.untried[s]);
    }
  }

  lemma AheadStep(e: Env, key: int, service: Service, left: set<Slot>, start: int, n: int)
    requires 0 <= start < NEW_BUCKETS && 0 <= n < NEW_BUCKETS && Ahead(e, key, service, left, start, n)
    ensures var s := Slot((start + n) % NEW_BUCKETS, BucketPos(e, key, true, (start + n) % NEW_BUCKETS, service));
      Ahead(e, key, service, left - {s}, start, n + 1) && (s !in left ==> left - {s} == left)
  {
  }

  lemma SweepTake(was: map<Slot, Nid>, all: set<Slot>, left: set<Slot>, s: Slot)
    requires s in left && left <= all
    ensures |left - {s}| == |left| - 1
    ensures was - (all - left) - {s} == was - (all - (left - {s}))
  {
  }

  lemma AheadDone(e: Env, key: int, service: Service, left: set<Slot>, start: int)
    requires Ahead(e, key, service, left, start, NEW_BUCKETS)
    ensures left == {}
  {
    if s :| s in left { assert false; }
  }

  lemma SweepLook(t: array2<Nid>, was: map<Slot, Nid>, left: set<Slot>, id: Nid, s: Slot)
    requires 0 <= s.bucket < t.Length0 && 0 <= s.pos < t.Length1 && id != NOBODY
    requires left <= SlotsOf(was, id) && Occupied(t) == was - (SlotsOf(was, id) - left)
    ensures t[s.bucket, s.pos] == id <==> s in left
  {
    Empties(t, s);
  }
}
