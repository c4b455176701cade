/**
 Every address-manager step keeps the invariant, and what it leaves alone.
 */
module AddrProofs {
  import opened AddrTypes
  import opened AddrOps
  import opened AddrInv
  import opened Sets

  /** Nobody appears, nobody changes its service, nobody outside `risen` becomes tried, no tried slot is vacated. */
  ghost predicate Descends(b: Book, c: Book, risen: set<Nid>) {
    && c.key == b.key && c.idCount == b.idCount && c.collisions == b.collisions
    && c.info.Keys <= b.info.Keys
    && (forall x :: x in c.info ==> c.info[x].service == b.info[x].service)
    && (forall x :: x in c.info && x !in risen && c.info[x].inTried ==> b.info[x].inTried)
    && b.tried.Keys <= c.tried.Keys
  }

  /** Entries in `who` survive with nothing but their random position changed. */
  ghost predicate Survive(b: Book, c: Book, who: set<Nid>) {
    forall x :: x in who && x in b.info ==> x in c.info && Moved(b.info[x], c.info[x])
  }

  lemma NoSlot(info: map<Nid, Info>, t: map<Slot, Nid>, id: Nid)
    requires Referenced(info, t) && id in info && info[id].refCount == 0
    ensures forall s :: s in t ==> t[s] != id
  {
    assert SlotsOf(t, id) == {};
    forall s | s in t ensures t[s] != id { assert t[s] == id ==> s in SlotsOf(t, id); }
  }

  lemma ClearNewCore(e: Env, b: Book, s: Slot, bare: set<Nid>, skip: set<Nid>)
    requires Core(e, b, bare, skip)
    requires s in b.untried ==> b.untried[s] !in bare
    ensures var c := ClearNew(e, b, s);
      && Core(e, c, bare, skip)
      && c.untried == b.untried - {s}
      && c.tried == b.tried
      && Descends(b, c, {})
      && Survive(b, c, if s in b.untried then b.info.Keys - {b.untried[s]} else b.info.Keys)
  {
    hide Tallied, Shuffled, Indexed, NewPlaced, TriedPlaced, Numbered, Referenced, Balanced, SwapRandom;
    if s !in b.untried {
      assert b.untried - {s} == b.untried;
    } else {
      var id := b.untried[s];
      UnrefCore(e, b, s, bare, skip);
      var c := Unref(b, s);
      assert c.info.Keys == b.info.Keys;
      assert bare - {id} == bare == bare + {id} - {id};
      if c.info[id].refCount == 0 {
        DeleteCore(e, c, id, bare + {id}, skip);
        var d := Delete(e, c, id);
        assert d == ClearNew(e, b, s);
        assert d.info.Keys == c.info.Keys - {id};
        forall x | x in d.info ensures Moved(b.info[x], d.info[x]) { assert Moved((c.info - {id})[x], d.info[x]); }
        DeleteFrame(e, c, id);
      }
    }
  }

  lemma DeleteFrame(e: Env, b: Book, id: Nid)
    ensures var c := Delete(e, b, id);
      && c.key == b.key && c.idCount == b.idCount && c.collisions == b.collisions
      && c.untried == b.untried && c.tried == b.tried && c.lastGood == b.lastGood
  {
  }

  /** What moving the occupant `prior` of a tried slot to the new table does to everybody. */
  ghost predicate Evicted(b: Book, c: Book, prior: Nid, skip: set<Nid>) {
    && c.key == b.key && c.idCount == b.idCount && c.collisions == b.collisions
    && c.info.Keys <= b.info.Keys
    && (forall x :: x in c.info ==> c.info[x].service == b.info[x].service)
    && (forall x :: x in c.info && c.info[x].inTried ==> b.info[x].inTried)
    && Survive(b, c, skip)
    && (forall x :: x in b.info && b.info[x].inTried && x != prior ==> x in c.info && Moved(b.info[x], c.info[x]))
    && prior in c.info && !c.info[prior].inTried && c.info[prior].refCount == 1
    && prior in b.info && b.info[prior].inTried
  }

  lemma BareHasNoSlot(e: Env, b: Book, bare: set<Nid>, s: Slot)
    requires Core(e, b, bare, bare) && s in b.untried
    ensures b.untried[s] !in bare
    ensures b.untried[s] in b.info && !b.info[b.untried[s]].inTried
  {
    var id := b.untried[s];
    assert HoldsNew(e, b.key, b.info, s, id);
    if id in bare {
      assert id in b.info && b.info[id].refCount == 0;
      NoSlot(b.info, b.untried, id);
    }
  }

  lemma EvictCore(e: Env, b: Book, s: Slot, skip: set<Nid>)
    requires Core(e, b, skip, skip) && s in b.tried
    ensures b.tried[s] in b.info && s == TriedSlot(e, b.key, b.info[b.tried[s]].service)
    ensures var c := Evict(e, b, s);
      && Core(e, c, skip, skip)
      && c.tried == b.tried - {s}
      && Evicted(b, c, b.tried[s], skip)
  {
    hide Tallied, Shuffled, Indexed, NewPlaced, TriedPlaced, Numbered, Referenced, Balanced, SwapRandom;
    UntryCore(e, b, s, skip, skip);
    var prior := b.tried[s];
    assert prior !in skip by { SkipsAreNew(e, b, skip, skip, prior); }
    var u := NewSlot(e, b.key, b.info[prior].service, b.info[prior].source);
    var b1 := Untry(e, b, s);
    if u in b1.untried { BareHasNoSlot(e, b1, skip + {prior}, u); }
    ClearNewCore(e, b1, u, skip + {prior}, skip + {prior});
    hide ClearNew;
    var c := ClearNew(e, b1, u);
    assert b1.info.Keys == b.info.Keys;
    assert prior in c.info && Moved(b1.info[prior], c.info[prior]);
    assert HoldsNew(e, c.key, c.info, u, prior);
    ReenterCore(e, c, prior, u, skip + {prior}, skip + {prior});
    assert skip + {prior} - {prior} == skip;
    EvictFrame(b, b1, c, Evict(e, b, s), prior, skip, if u in b1.untried then {b1.untried[u]} else {});
  }

  /** Only entries of the current `Balanced` sets are new. */
  lemma SkipsAreNew(e: Env, b: Book, bare: set<Nid>, skip: set<Nid>, id: Nid)
    requires Balanced(b.info, bare, skip) && id in b.info && b.info[id].inTried
    ensures id !in skip
  {
  }

  lemma EvictFrame(b: Book, b1: Book, c: Book, d: Book, prior: Nid, skip: set<Nid>, lost: set<Nid>)
    requires prior in b.info && b.info[prior].inTried
    requires b1.info == b.info[prior := b.info[prior].(inTried := false)]
    requires b1.key == b.key && b1.idCount == b.idCount && b1.collisions == b.collisions
    requires Descends(b1, c, {}) && Survive(b1, c, b1.info.Keys - lost)
    requires lost !! skip && prior !in lost && prior !in skip
    requires forall x :: x in lost ==> x in b1.info && !b1.info[x].inTried
    requires prior in c.info && d.info == c.info[prior := c.info[prior].(refCount := 1)]
    requires d.key == c.key && d.idCount == c.idCount && d.collisions == c.collisions
    ensures Evicted(b, d, prior, skip)
  {
    assert Moved(b1.info[prior], c.info[prior]);
    forall x | x in b.info && x != prior && x !in lost
      ensures x in d.info && Moved(b.info[x], d.info[x])
    {
      assert b1.info[x] == b.info[x];
      assert Moved(b1.info[x], c.info[x]);
    }
  }

  /** What moving `id` to its tried slot does to everybody. */
  ghost predicate Promoted(e: Env, b: Book, c: Book, id: Nid) {
    && id in b.info && !b.info[id].inTried && Descends(b, c, {id})
    && id in c.info && c.info[id].inTried
    && var s := TriedSlot(e, b.key, b.info[id].service);
    && c.tried == b.tried[s := id]
    && (forall x :: x in b.info && b.info[x].inTried && !(s in b.tried && x == b.tried[s]) ==>
      x in c.info && Moved(b.info[x], c.info[x]))
    && (s in b.tried ==>
      b.tried[s] in c.info && !c.info[b.tried[s]].inTried && c.info[b.tried[s]].refCount == 1)
  }

  lemma MakeTriedCore(e: Env, b: Book, id: Nid)
    requires Core(e, b, {}, {}) && id in b.info && !b.info[id].inTried
    ensures Core(e, MakeTried(e, b, id), {}, {})
    ensures Promoted(e, b, MakeTried(e, b, id), id)
  {
    hide Tallied, Shuffled, Indexed, NewPlaced, TriedPlaced, Numbered, Referenced, Balanced, SwapRandom;
    var b1 := Sweep(e, b, id);
    var s := TriedSlot(e, b.key, b.info[id].service);
    SweepCore(e, b, id, {}, {});
    assert b1.info.Keys == b.info.Keys;
    assert {} + {id} == {id};
    assert {id} - {id} == {};
    if s in b1.tried {
      EvictCore(e, b1, s, {id});
      hide Evict;
      var c := Evict(e, b1, s);
      assert Moved(b1.info[id], c.info[id]);
      EnterTriedCore(e, c, id, {id}, {id});
      PromoteAfterEvict(e, b, b1, c, id, s);
    } else {
      EnterTriedCore(e, b1, id, {id}, {id});
      PromoteFrame(e, b, b1, id, s);
    }
  }

  lemma PromoteFrame(e: Env, b: Book, b1: Book, id: Nid, s: Slot)
    requires id in b.info && !b.info[id].inTried && s == TriedSlot(e, b.key, b.info[id].service)
    requires b1.info == b.info[id := b.info[id].(refCount := 0)] && b1.tried == b.tried
    requires b1.key == b.key && b1.idCount == b.idCount && b1.collisions == b.collisions
    requires s !in b.tried
    ensures Promoted(e, b, EnterTried(e, b1, id, s), id)
  {
  }

  lemma PromoteAfterEvict(e: Env, b: Book, b1: Book, c: Book, id: Nid, s: Slot)
    requires id in b.info && !b.info[id].inTried && s == TriedSlot(e, b.key, b.info[id].service)
    requires b1.info == b.info[id := b.info[id].(refCount := 0)] && b1.tried == b.tried
    requires b1.key == b.key && b1.idCount == b.idCount && b1.collisions == b.collisions
    requires s in b.tried && Evicted(b1, c, b.tried[s], {id}) && c.tried == b.tried - {s}
    requires id in c.info
    ensures Promoted(e, b, EnterTried(e, c, id, s), id)
  {
    var d := EnterTried(e, c, id, s);
    var prior := b.tried[s];
    assert prior != id;
    assert d.tried == b.tried[s := id];
    forall x | x in b.info && b.info[x].inTried && x != prior ensures x in d.info && Moved(b.info[x], d.info[x]) {
      assert b1.info[x] == b.info[x];
      assert Moved(b1.info[x], c.info[x]);
    }
  }

  /** Pending collisions stay well placed when `id` has moved up and left the set. */
  lemma PendingAfter(e: Env, b: Book, c: Book, risen: set<Nid>)
    requires Pending(e, b, b.collisions) && Descends(b, c, risen)
    ensures Pending(e, c, c.collisions - risen)
  {
    var rest := c.collisions - risen;
    assert |rest| <= |c.collisions| by { SubsetCard(rest, c.collisions); }
    forall x | x in rest && x in c.info
      ensures !c.info[x].inTried && TriedSlot(e, c.key, c.info[x].service) in c.tried
    {
      assert x in b.info;
    }
  }

  // ----- Whole steps -----

  /** The tried table and everybody's side are as before; at most brand-new ids appear. */
  ghost predicate Calm(b: Book, c: Book) {
    && c.key == b.key && c.tried == b.tried && b.idCount <= c.idCount
    && (forall x :: x in c.info && x < b.idCount ==>
      x in b.info && c.info[x].service == b.info[x].service && c.info[x].inTried == b.info[x].inTried)
    && (forall x :: x in b.info && b.info[x].inTried ==> x in c.info && c.info[x].inTried)
  }

  lemma CalmTwice(b: Book, c: Book, d: Book)
    requires Calm(b, c) && Calm(c, d)
    ensures Calm(b, d)
  {
  }

  lemma PendingCalm(e: Env, b: Book, c: Book, collisions: set<Nid>)
    requires Pending(e, b, collisions) && Calm(b, c)
    ensures Pending(e, c, collisions)
  {
  }

  lemma SetInfoCalm(b: Book, id: Nid, i: Info)
    requires id in b.info && i.service == b.info[id].service && i.inTried == b.info[id].inTried
    ensures Calm(b, SetInfo(b, id, i))
  {
  }

  lemma CreateCalm(e: Env, b: Book, a: Address, source: NetAddr)
    requires Numbered(e, b.info, b.idCount)
    ensures Calm(b, Create(e, b, a, source))
  {
  }

  lemma ClearNewCalm(e: Env, b: Book, c: Book, victims: set<Nid>)
    requires Descends(b, c, {}) && c.tried == b.tried && Survive(b, c, b.info.Keys - victims)
    requires forall x :: x in victims ==> x in b.info && !b.info[x].inTried
    ensures Calm(b, c)
  {
    forall x | x in c.info ensures c.info[x].inTried == b.info[x].inTried {
      assert x in b.info;
      if x !in victims { assert Moved(b.info[x], c.info[x]); }
    }
    forall x | x in b.info && b.info[x].inTried ensures x in c.info {
      assert x !in victims;
    }
  }

  lemma Settle(e: Env, b: Book, id: Nid)
    requires Core(e, b, {id}, {}) && b.info[id].refCount > 0
    ensures Core(e, b, {}, {})
  {
    assert Balanced(b.info, {}, {});
  }

  lemma Bare(e: Env, b: Book, id: Nid)
    requires Core(e, b, {}, {}) && id in b.info && !b.info[id].inTried
    ensures Core(e, b, {id}, {})
  {
    assert Balanced(b.info, {id}, {});
  }

  lemma SlotMeansRef(e: Env, b: Book, s: Slot, bare: set<Nid>, skip: set<Nid>)
    requires Core(e, b, bare, skip) && s in b.untried
    ensures b.untried[s] in b.info && !b.info[b.untried[s]].inTried && b.info[b.untried[s]].refCount > 0
  {
    var id := b.untried[s];
    assert HoldsNew(e, b.key, b.info, s, id);
    assert b.info[id].refCount == |SlotsOf(b.untried, id)|;
    assert s in SlotsOf(b.untried, id);
  }

  lemma PlaceCore(e: Env, b: Book, id: Nid, source: NetAddr, now: int)
    requires Core(e, b, {id}, {}) && id in b.info && !b.info[id].inTried && b.info[id].refCount < MAX_REFS
    ensures var c := Place(e, b, id, source, now).0;
      Core(e, c, {}, {}) && Calm(b, c) && c.collisions == b.collisions
  {
    hide Tallied, Shuffled, Indexed, NewPlaced, TriedPlaced, Numbered, Referenced, Balanced, SwapRandom;
    var s := NewSlot(e, b.key, b.info[id].service, source);
    assert {id} - {id} == {};
    if s in b.untried && b.untried[s] == id {
      SlotMeansRef(e, b, s, {id}, {});
      Settle(e, b, id);
    } else if s !in b.untried || Displaceable(b, b.untried[s], b.info[id].refCount, now) {
      var victims := if s in b.untried then {b.untried[s]} else {};
      if s in b.untried { SlotMeansRef(e, b, s, {id}, {}); }
      ClearNewCore(e, b, s, {id}, {});
      hide ClearNew;
      var c := ClearNew(e, b, s);
      ClearNewCalm(e, b, c, victims);
      assert id in c.info && Moved(b.info[id], c.info[id]);
      AddRefCore(e, c, id, s, {id}, {});
      AddRefCalm(c, id, s);
      CalmTwice(b, c, AddRef(c, id, s));
    } else if b.info[id].refCount == 0 {
      DeleteCore(e, b, id, {id}, {});
      DeleteFrame(e, b, id);
      DeleteCalm(e, b, id);
    } else {
      assert b.info[id].refCount > 0 by { RefsNatural(e, b, id); }
      Settle(e, b, id);
    }
  }

  lemma RefsNatural(e: Env, b: Book, id: Nid)
    requires Referenced(b.info, b.untried) && id in b.info
    ensures b.info[id].refCount >= 0
  {
  }

  lemma AddRefCalm(b: Book, id: Nid, s: Slot)
    requires id in b.info
    ensures Calm(b, AddRef(b, id, s))
  {
  }

  lemma DeleteCalm(e: Env, b: Book, id: Nid)
    requires id in b.info && !b.info[id].inTried
    requires AllMoved(b.info - {id}, Delete(e, b, id).info)
    ensures Calm(b, Delete(e, b, id))
  {
    hide Delete;
    var c := Delete(e, b, id);
    assert c.key == b.key && c.tried == b.tried && c.idCount == b.idCount by { DeleteFrame(e, b, id); }
    forall x | x in c.info ensures x in b.info && Moved(b.info[x], c.info[x]) {
      assert Moved((b.info - {id})[x], c.info[x]);
    }
  }

  lemma AddSingleKeeps(e: Env, b: Book, a: Address, source: NetAddr, penalty: int, d: Draw)
    requires Sane(e) && Inv(e, b)
    ensures Inv(e, AddSingle(e, b, a, source, penalty, d).0)
    ensures Calm(b, AddSingle(e, b, a, source, penalty, d).0)
  {
    hide Tallied, Shuffled, Indexed, NewPlaced, TriedPlaced, Numbered, Referenced, Balanced, Place, Pending;
    var penalty' := if a.service.host == source then 0 else penalty;
    var r := AddSingle(e, b, a, source, penalty, d).0;
    if e.routable(a.service) {
      if a.service in b.ids {
        var id := b.ids[a.service];
        FoundIs(e, b, a.service);
        var i := Refresh(b.info[id], a, penalty', d.online);
        SetInfoCore(e, b, id, i, {}, {});
        var c := SetInfo(b, id, i);
        SetInfoCalm(b, id, i);
        if Worthwhile(i, a, d.dice) {
          Bare(e, c, id);
          PlaceCore(e, c, id, source, d.terrible);
          CalmTwice(b, c, r);
        }
      } else {
        CreateCore(e, b, a, source);
        CreateCalm(e, b, a, source);
        var c := Create(e, b, a, source);
        var i := c.info[b.idCount];
        var i' := i.(time := Max(0, i.time - penalty'));
        SetInfoCore(e, c, b.idCount, i', {b.idCount}, {});
        SetInfoCalm(c, b.idCount, i');
        var f := SetInfo(c, b.idCount, i');
        PlaceCore(e, f, b.idCount, source, d.terrible);
        CalmTwice(b, c, f);
        CalmTwice(b, f, r);
      }
      PendingCalm(e, b, r, b.collisions);
    }
  }

  /** A service in the index has an entry, with that service and references in range. */
  lemma FoundIs(e: Env, b: Book, service: Service)
    requires Core(e, b, {}, {}) && service in b.ids
    ensures b.ids[service] in b.info
    ensures var i := b.info[b.ids[service]];
      && i.service == service && i.refCount <= MAX_REFS
      && (!i.inTried ==> i.refCount > 0)
  {
    var id := b.ids[service];
    assert id in b.info && b.info[id].refCount <= MAX_REFS;
  }

  /** Noting a success moves nobody. */
  lemma TouchCore(e: Env, b: Book, service: Service, time: int)
    requires Inv(e, b) && service in b.ids
    ensures var id := b.ids[service];
      && id in b.info && b.info[id].service == service
      && var d := Touch(b.(lastGood := time), id, time);
        && Core(e, d, {}, {}) && Calm(b, d) && Pending(e, d, d.collisions)
        && id in d.info && d.info[id].service == service
  {
    hide Tallied, Shuffled, Indexed, NewPlaced, TriedPlaced, Numbered, Referenced, Balanced, Pending;
    FoundIs(e, b, service);
    var id := b.ids[service];
    var i := b.info[id].(lastSuccess := time, lastTry := time, attempts := 0);
    SetInfoCore(e, b, id, i, {}, {});
    SetInfoCalm(b, id, i);
    PendingCalm(e, b, Touch(b.(lastGood := time), id, time), b.collisions);
  }

  /** `Good_` for any clock value: who changes side, and nothing else. */
  lemma GoodCore(e: Env, b: Book, service: Service, test: bool, time: int)
    requires Inv(e, b)
    ensures var (c, moved) := MarkGood(e, b, service, test, time);
      && Core(e, c, {}, {})
      && (!moved ==> Calm(b, c) && Pending(e, c, c.collisions))
      && (moved ==>
        && service in b.ids
        && (test ==> TriedSlot(e, b.key, service) !in b.tried)
        && var id := b.ids[service];
        && id in b.info && b.info[id].service == service
        && Promoted(e, Touch(b.(lastGood := time), id, time), c, id)
        && Pending(e, c, c.collisions - {id}))
  {
    hide Tallied, Shuffled, Indexed, NewPlaced, TriedPlaced, Numbered, Referenced, Balanced, MakeTried, Pending, Touch;
    var c := b.(lastGood := time);
    if service in b.ids {
      TouchCore(e, b, service, time);
      var id := b.ids[service];
      var d := Touch(c, id, time);
      if !d.info[id].inTried {
        if test && TriedSlot(e, d.key, service) in d.tried {
          PendingMore(e, d, id);
          if |d.collisions| < MAX_COLLISIONS {
            PendingSame(e, d, d.collisions + {id});
          }
        } else {
          MakeTriedCore(e, d, id);
          PendingAfter(e, d, MakeTried(e, d, id), {id});
        }
      }
    } else {
      PendingCalm(e, b, c, b.collisions);
    }
  }

  lemma PendingMore(e: Env, b: Book, id: Nid)
    requires Pending(e, b, b.collisions) && Numbered(e, b.info, b.idCount)
    requires id in b.info && !b.info[id].inTried && TriedSlot(e, b.key, b.info[id].service) in b.tried
    ensures |b.collisions| < MAX_COLLISIONS ==> Pending(e, b, b.collisions + {id})
  {
    assert |b.collisions + {id}| <= |b.collisions| + 1;
  }

  lemma GoodKeeps(e: Env, b: Book, service: Service, time: int)
    requires Inv(e, b)
    ensures Inv(e, MarkGood(e, b, service, true, time).0)
    ensures b.tried.Keys <= MarkGood(e, b, service, true, time).0.tried.Keys
    ensures forall x :: x in b.info && b.info[x].inTried ==>
      x in MarkGood(e, b, service, true, time).0.info && MarkGood(e, b, service, true, time).0.info[x].inTried
  {
    hide Tallied, Shuffled, Indexed, NewPlaced, TriedPlaced, Numbered, Referenced, Balanced, MakeTried;
    GoodCore(e, b, service, true, time);
    var (c, moved) := MarkGood(e, b, service, true, time);
    if moved {
      var id := b.ids[service];
      // A pending collision has its tried slot taken, so a promoted entry was not pending.
      assert id !in b.collisions;
      var d := Touch(b.(lastGood := time), id, time);
      assert c.collisions == b.collisions == c.collisions - {id};
      forall x | x in b.info && b.info[x].inTried ensures x in c.info && c.info[x].inTried {
        assert x in d.info && d.info[x].inTried;
        assert Moved(d.info[x], c.info[x]);
      }
    }
  }

  /** When `Judge` evicts: the occupant's last success is at least 4 hours old, and either it was
      tried between a minute and 4 hours ago, or the newcomer has waited over 40 minutes. */
  ghost predicate Evictable(prior: Info, newcomer: Info, now: int) {
    && now - prior.lastSuccess >= REPLACEMENT
    && ((MINUTE < now - prior.lastTry < REPLACEMENT)
      || (now - prior.lastTry >= REPLACEMENT && now - newcomer.lastSuccess > TEST_WINDOW))
  }

  /** A pending collision still in the book: its slot is taken, so the "not a collision any more"
      branch is not reached and a replacement is always an eviction. */
  lemma JudgeEvicts(e: Env, b: Book, id: Nid, now: int)
    requires Inv(e, b) && id in b.collisions
    ensures id in b.info ==>
      && TriedSlot(e, b.key, b.info[id].service) in b.tried
      && b.tried[TriedSlot(e, b.key, b.info[id].service)] in b.info
    ensures Judge(e, b, id, now) == Replace <==>
      && id in b.info
      && Evictable(b.info[b.tried[TriedSlot(e, b.key, b.info[id].service)]], b.info[id], now)
  {
    if id in b.info {
      var s := TriedSlot(e, b.key, b.info[id].service);
      assert HoldsTried(e, b.key, b.info, s, b.tried[s]);
    }
  }

  lemma ResolveKeeps(e: Env, b: Book, id: Nid, now: int)
    requires Inv(e, b)
    ensures var c := ResolveOne(e, b, id, now);
      && Inv(e, c)
      && b.tried.Keys <= c.tried.Keys
      && (forall x :: x in b.info && b.info[x].inTried ==>
        || (x in c.info && c.info[x].inTried)
        || (&& id in b.collisions && id in b.info && Evictable(b.info[x], b.info[id], now)
            && x in c.info && !c.info[x].inTried && c.info[x].refCount == 1))
  {
    hide Tallied, Shuffled, Indexed, NewPlaced, TriedPlaced, Numbered, Referenced, Balanced, Judge, MarkGood, Pending;
    if id in b.collisions {
      JudgeEvicts(e, b, id, now);
      match Judge(e, b, id, now) {
        case Wait =>
        case Drop => PendingFewer(e, b, id);
        case Replace =>
          PendingIs(e, b, id);
          FoundById(e, b, id);
          GoodCore(e, b, b.info[id].service, false, now);
          GoodMoves(e, b, id, now);
          var (c, moved) := MarkGood(e, b, b.info[id].service, false, now);
          assert ResolveOne(e, b, id, now) == c.(collisions := c.collisions - {id});
          assert Pending(e, c.(collisions := c.collisions - {id}), c.collisions - {id}) by { PendingSame(e, c, c.collisions - {id}); }
          PromotedTried(e, b, c, id, now);
      }
    }
  }

  lemma PendingSame(e: Env, b: Book, collisions: set<Nid>)
    requires Pending(e, b, collisions)
    ensures Pending(e, b.(collisions := collisions), collisions)
  {
  }

  lemma PendingFewer(e: Env, b: Book, id: Nid)
    requires Pending(e, b, b.collisions)
    ensures Pending(e, b.(collisions := b.collisions - {id}), b.collisions - {id})
  {
    SubsetCard(b.collisions - {id}, b.collisions);
  }

  lemma PendingIs(e: Env, b: Book, id: Nid)
    requires Pending(e, b, b.collisions) && id in b.collisions && id in b.info
    ensures !b.info[id].inTried
  {
  }

  lemma FoundById(e: Env, b: Book, id: Nid)
    requires Indexed(b.info, b.ids) && id in b.info
    ensures b.info[id].service in b.ids && b.ids[b.info[id].service] == id
  {
  }

  /** Without the test, `Good_` on a new entry always moves it. */
  lemma GoodMoves(e: Env, b: Book, id: Nid, now: int)
    requires Core(e, b, {}, {}) && id in b.info && !b.info[id].inTried
    ensures MarkGood(e, b, b.info[id].service, false, now).1
  {
    FoundById(e, b, id);
    assert b.info[id].refCount > 0;
  }

  lemma PromotedTried(e: Env, b: Book, c: Book, id: Nid, now: int)
    requires id in b.info && Promoted(e, Touch(b.(lastGood := now), id, now), c, id)
    requires TriedSlot(e, b.key, b.info[id].service) in b.tried
    ensures b.tried.Keys <= c.tried.Keys
    ensures forall x :: x in b.info && b.info[x].inTried && x != b.tried[TriedSlot(e, b.key, b.info[id].service)] ==>
      x in c.info && c.info[x].inTried
    ensures var x := b.tried[TriedSlot(e, b.key, b.info[id].service)];
      x in c.info && !c.info[x].inTried && c.info[x].refCount == 1
  {
    var d := Touch(b.(lastGood := now), id, now);
    forall x | x in b.info && b.info[x].inTried && x != b.tried[TriedSlot(e, b.key, b.info[id].service)]
      ensures x in c.info && c.info[x].inTried
    {
      assert x in d.info && d.info[x].inTried;
      assert Moved(d.info[x], c.info[x]);
    }
  }
}
