/**
 What adding one address does, entry by entry: who gets a reference, who loses one, who is
 forgotten, and that nothing else changes.
 */
module AddrEffects {
  import opened Radix
  import opened AddrTypes
  import opened AddrOps
  import opened AddrInv
  import opened AddrProofs

  /** Every entry but those listed is as it was, up to its place in the random list. */
  ghost predicate OthersStay(info: map<Nid, Info>, info': map<Nid, Info>, who: set<Nid>) {
    && (forall x :: x in info && x !in who ==> x in info' && Moved(info[x], info'[x]))
    && (forall x :: x in info' && x !in who ==> x in info)
  }

  /** The occupant of a slot loses that reference, and is forgotten if it was its last. */
  ghost predicate Bereft(info: map<Nid, Info>, info': map<Nid, Info>, x: Nid)
    requires x in info
  {
    if info[x].refCount == 1 then x !in info'
    else x in info' && Moved(info[x].(refCount := info[x].refCount - 1), info'[x])
  }

  lemma ClearNewEffect(e: Env, b: Book, s: Slot, bare: set<Nid>, skip: set<Nid>)
    requires Core(e, b, bare, skip) && s in b.untried && b.untried[s] !in bare
    ensures var c, x := ClearNew(e, b, s), b.untried[s];
      && x in b.info && Bereft(b.info, c.info, x) && OthersStay(b.info, c.info, {x})
      && c.untried == b.untried - {s}
  {
    hide Tallied, Shuffled, Indexed, NewPlaced, TriedPlaced, Numbered, Referenced, Balanced, SwapRandom;
    UnrefCore(e, b, s, bare, skip);
    ClearNewCore(e, b, s, bare, skip);
    var x, u := b.untried[s], Unref(b, s);
    assert u.info == b.info[x := b.info[x].(refCount := b.info[x].refCount - 1)];
    if u.info[x].refCount == 0 {
      DeleteCore(e, u, x, bare + {x}, skip);
      DeleteFrame(e, u, x);
      var c := Delete(e, u, x);
      forall y | y in b.info && y != x
        ensures y in c.info && Moved(b.info[y], c.info[y])
      {
        assert Moved((u.info - {x})[y], c.info[y]);
      }
    }
  }

  /** The entry got one more reference, at the given slot; whoever was there lost one. */
  ghost predicate Took(b: Book, c: Book, id: Nid, s: Slot)
    requires id in b.info
  {
    && id in c.info && Moved(b.info[id].(refCount := b.info[id].refCount + 1), c.info[id])
    && c.untried == b.untried[s := id]
    && (s in b.untried ==>
      && b.untried[s] != id && b.untried[s] in b.info
      && Bereft(b.info, c.info, b.untried[s])
      && OthersStay(b.info, c.info, {id, b.untried[s]}))
    && (s !in b.untried ==> OthersStay(b.info, c.info, {id}))
  }

  /** Nothing happened, except that an entry without any reference is forgotten. */
  ghost predicate Missed(b: Book, c: Book, id: Nid)
    requires id in b.info
  {
    && c.untried == b.untried && OthersStay(b.info, c.info, {id})
    && (if b.info[id].refCount == 0 then id !in c.info else id in c.info && c.info[id] == b.info[id])
  }

  /** An entry gives up its slot if it is terrible, or has other references and the newcomer has none. */
  predicate Yields(i: Info, refs: int, now: int) {
    Terrible(i, now) || (i.refCount > 1 && refs == 0)
  }

  /** Whether a slot is taken, and what taking it does. */
  lemma PlaceEffect(e: Env, b: Book, id: Nid, source: NetAddr, now: int)
    requires Core(e, b, {id}, {}) && id in b.info && !b.info[id].inTried && b.info[id].refCount < MAX_REFS
    ensures var (c, inserted) := Place(e, b, id, source, now); var s := NewSlot(e, b.key, b.info[id].service, source);
      && (s in b.untried ==> b.untried[s] in b.info)
      && (inserted <==> (s in b.untried ==> b.untried[s] != id && Yields(b.info[b.untried[s]], b.info[id].refCount, now)))
      && (if inserted then Took(b, c, id, s) else Missed(b, c, id))
  {
    hide Tallied, Shuffled, Indexed, NewPlaced, TriedPlaced, Numbered, Referenced, Balanced, SwapRandom, ClearNew, Delete;
    var s := NewSlot(e, b.key, b.info[id].service, source);
    if s in b.untried {
      SlotMeansRef(e, b, s, {id}, {});
    }
    if s in b.untried && b.untried[s] == id {
    } else if s !in b.untried {
      ClearNone(e, b, s);
    } else if Displaceable(b, b.untried[s], b.info[id].refCount, now) {
      ClearNewEffect(e, b, s, {id}, {});
      var c := ClearNew(e, b, s);
      assert (b.untried - {s})[s := id] == b.untried[s := id];
    } else if b.info[id].refCount == 0 {
      DeleteCore(e, b, id, {id}, {});
      DeleteFrame(e, b, id);
      var c := Delete(e, b, id);
      forall y | y in b.info && y != id
        ensures y in c.info && Moved(b.info[y], c.info[y])
      {
        assert Moved((b.info - {id})[y], c.info[y]);
      }
    }
  }

  lemma ClearNone(e: Env, b: Book, s: Slot)
    requires s !in b.untried
    ensures ClearNew(e, b, s) == b
  {
  }

  /** An address that is already known keeps its number, side and history; it may only gain a reference. */
  lemma AddKnownEffect(e: Env, b: Book, a: Address, source: NetAddr, penalty: int, d: Draw)
    requires Inv(e, b) && e.routable(a.service) && a.service in b.ids
    ensures var (c, inserted) := AddSingle(e, b, a, source, penalty, d);
      var id := b.ids[a.service];
      && id in b.info
      && var p := if a.service.host == source then 0 else penalty;
        var i := Refresh(b.info[id], a, p, d.online);
        var s := NewSlot(e, b.key, a.service, source);
        && (s in b.untried ==> b.untried[s] in b.info)
        && (inserted <==>
              && i.time < a.time && !i.inTried && i.refCount < MAX_REFS && d.dice % Pow2(i.refCount) == 0
              && (s in b.untried ==> b.untried[s] != id && Yields(b.info[b.untried[s]], i.refCount, d.terrible)))
        && (inserted ==> Took(SetInfo(b, id, i), c, id, s))
        && (!inserted ==> c == SetInfo(b, id, i))
  {
    hide Tallied, Shuffled, Indexed, NewPlaced, TriedPlaced, Numbered, Referenced, Balanced, Place, Pending, Took;
    FoundIs(e, b, a.service);
    var id := b.ids[a.service];
    var p := if a.service.host == source then 0 else penalty;
    var i := Refresh(b.info[id], a, p, d.online);
    var c := SetInfo(b, id, i);
    var s := NewSlot(e, b.key, a.service, source);
    RefsNatural(e, b, id);
    SetInfoCore(e, b, id, i, {}, {});
    if s in b.untried {
      SlotMeansRef(e, b, s, {}, {});
    }
    if Worthwhile(i, a, d.dice) {
      Bare(e, c, id);
      PlaceEffect(e, c, id, source, d.terrible);
      PlaceStays(e, c, id, source, d.terrible);
    }
  }

  /** The timestamp only ever moves forward, and only to an announcement that is newer by more than the penalty
      and the update interval; the services only grow. */
  lemma RefreshForward(i: Info, a: Address, penalty: int, now: int)
    ensures var j, lag := Refresh(i, a, penalty, now), penalty + if now - a.time < DAY then HOUR else DAY;
      && j == i.(time := j.time, flags := i.flags + a.flags)
      && j.time >= i.time
      && (j.time > i.time ==> j.time == Max(0, a.time - penalty))
      && (penalty >= 0 && i.time >= 0 ==> (j.time > i.time <==> a.time - i.time > lag))
      && (penalty < 0 && i.time >= 0 ==> (a.time - i.time > lag ==> j.time > i.time))
  {
  }

  /** Each reference an entry has halves its chance of another: of 2^refs neighbouring draws one lets it pass. */
  lemma OneDrawInPow2(refs: nat, start: nat) returns (dice: nat)
    ensures start <= dice < start + Pow2(refs) && dice % Pow2(refs) == 0
    ensures forall x :: start <= x < start + Pow2(refs) && x % Pow2(refs) == 0 ==> x == dice
  {
    hide Pow2;
    var p := Pow2(refs);
    var q := (start + p - 1) / p;
    dice := q * p;
    Multiples(start, p, q);
  }

  lemma Multiples(start: nat, p: nat, q: nat)
    requires p >= 1 && q == (start + p - 1) / p
    ensures start <= q * p < start + p && (q * p) % p == 0
    ensures forall x :: start <= x < start + p && x % p == 0 ==> x == q * p
  {
    assert start + p - 1 == q * p + (start + p - 1) % p;
    MultipleMod(q, p);
    forall x | start <= x < start + p && x % p == 0
      ensures x == q * p
    {
      assert x == (x / p) * p;
      SameMultiple(x / p, q, p);
    }
  }

  lemma MultipleMod(q: nat, p: nat)
    requires p >= 1
    ensures (q * p) % p == 0
  {
    var r := (q * p) % p;
    assert q * p == ((q * p) / p) * p + r;
    assert (q - (q * p) / p) * p == r;
    if q - (q * p) / p >= 1 {
      MulLe(1, q - (q * p) / p, p);
    } else if q - (q * p) / p <= -1 {
      MulLe(q - (q * p) / p, -1, p);
    }
  }

  lemma SameMultiple(a: int, b: int, p: nat)
    requires p >= 1 && a * p < b * p + p && b * p < a * p + p
    ensures a == b
  {
    if a > b {
      MulLe(1, a - b, p);
    } else if a < b {
      MulLe(1, b - a, p);
    }
  }

  lemma PlaceStays(e: Env, b: Book, id: Nid, source: NetAddr, now: int)
    requires id in b.info && b.info[id].refCount != 0
    ensures !Place(e, b, id, source, now).1 ==> Place(e, b, id, source, now).0 == b
  {
    hide ClearNew, Delete;
  }

  /** An address not seen before either gets an entry with one reference, or leaves no trace but a used number. */
  lemma AddUnknownEffect(e: Env, b: Book, a: Address, source: NetAddr, penalty: int, d: Draw)
    requires Inv(e, b) && Sane(e) && e.routable(a.service) && a.service !in b.ids
    ensures var (c, inserted) := AddSingle(e, b, a, source, penalty, d);
      var id, s := b.idCount, NewSlot(e, b.key, a.service, source);
      var p := if a.service.host == source then 0 else penalty;
      && c.idCount == b.idCount + 1 && id !in b.info
      && (s in b.untried ==> b.untried[s] in b.info)
      && (inserted <==> (s in b.untried ==> Yields(b.info[b.untried[s]], 0, d.terrible)))
      && (inserted ==>
        && id in c.info && c.untried == b.untried[s := id]
        && Moved(Info(a.service, a.flags, Max(0, a.time - p), 0, 0, source, 0, 0, 1, false, 0), c.info[id])
        && (s in b.untried ==> Bereft(b.info, c.info, b.untried[s]) && OthersStay(b.info, c.info, {id, b.untried[s]}))
        && (s !in b.untried ==> OthersStay(b.info, c.info, {id})))
      && (!inserted ==> c.untried == b.untried && id !in c.info && OthersStay(b.info, c.info, {id}))
  {
    hide Tallied, Shuffled, Indexed, NewPlaced, TriedPlaced, Referenced, Balanced, Place, Pending, OthersStay, Bump, NewSlot;
    var id, s := b.idCount, NewSlot(e, b.key, a.service, source);
    var p := if a.service.host == source then 0 else penalty;
    CreateCore(e, b, a, source);
    var f := Create(e, b, a, source);
    var i := f.info[id].(time := Max(0, f.info[id].time - p));
    SetInfoCore(e, f, id, i, {id}, {});
    var g := SetInfo(f, id, i);
    assert g.info == b.info[id := i];
    PlaceEffect(e, g, id, source, d.terrible);
    PlaceCore(e, g, id, source, d.terrible);
    var (c, inserted) := Place(e, g, id, source, d.terrible);
    assert (c, inserted) == AddSingle(e, b, a, source, penalty, d);
    if s in b.untried {
      SlotMeansRef(e, b, s, {}, {});
      StayWithout(b.info, id, i, c.info, {id, b.untried[s]});
    }
    StayWithout(b.info, id, i, c.info, {id});
    PlaceCount(e, g, id, source, d.terrible);
  }

  lemma StayWithout(info: map<Nid, Info>, id: Nid, i: Info, info': map<Nid, Info>, who: set<Nid>)
    requires id !in info && id in who
    ensures OthersStay(info[id := i], info', who) <==> OthersStay(info, info', who)
  {
    assert forall x :: x in info ==> x in info[id := i] && info[id := i][x] == info[x];
  }

  lemma PlaceCount(e: Env, b: Book, id: Nid, source: NetAddr, now: int)
    requires id in b.info
    ensures Place(e, b, id, source, now).0.idCount == b.idCount
  {
    hide SwapRandom;
    var s := NewSlot(e, b.key, b.info[id].service, source);
    DeleteFrame(e, b, id);
    if s in b.untried && b.untried[s] in b.info {
      DeleteFrame(e, Unref(b, s), b.untried[s]);
    }
  }

  // ----- Notes -----

  /** A connection refreshes the timestamp when it is more than twenty minutes old, so at most once in that time. */
  lemma ConnectedEffect(b: Book, service: Service, time: int)
    requires service in b.ids && b.ids[service] in b.info
    ensures var c, id := NoteConnected(b, service, time), b.ids[service];
      && c == b.(info := b.info[id := b.info[id].(time := c.info[id].time)])
      && (c.info[id].time == b.info[id].time || c.info[id].time == time)
      && c.info[id].time >= b.info[id].time && time - c.info[id].time <= 20 * MINUTE
      && (time - b.info[id].time <= 20 * MINUTE ==> c == b)
  {
  }

  /** New services replace the old ones of a known address; nothing else changes. */
  lemma ServicesEffect(b: Book, service: Service, flags: set<int>)
    ensures var c := NoteServices(b, service, flags);
      && c == b.(info := c.info) && c.info.Keys == b.info.Keys
      && forall x :: x in b.info ==>
           c.info[x] == if service in b.ids && b.ids[service] == x then b.info[x].(flags := flags) else b.info[x]
  {
  }

  /** A drawn collision is forgotten exactly when its entry is gone. */
  lemma ForgetEffect(b: Book, id: Nid)
    requires id in b.collisions
    ensures var c := ForgetStale(b, id);
      c == b.(collisions := c.collisions) && (id in c.collisions <==> id in b.info) && c.collisions + {id} == b.collisions
  {
  }

  /** Unless it is dated in the future, a terrible entry stays terrible until it is tried or announced again; an
      entry tried within the last minute never is, nor is a fresh one that answered within the week. */
  lemma TerribleStays(i: Info, now: int, later: int)
    requires now <= later
    ensures Terrible(i, now) && i.time <= now + 10 * MINUTE ==> Terrible(i, later)
    ensures now - i.lastTry <= MINUTE ==> !Terrible(i, now)
    ensures i.time > now + 10 * MINUTE && now - i.lastTry > MINUTE ==> Terrible(i, now)
    ensures 0 <= now - i.time <= HORIZON && 0 < i.lastSuccess && now - i.lastSuccess <= MIN_FAIL ==> !Terrible(i, now)
    ensures now - i.time > HORIZON && now - i.lastTry > MINUTE ==> Terrible(i, now)
    ensures now - i.lastTry > MINUTE && i.lastSuccess == 0 ==>
      (Terrible(i, now) <==> i.attempts >= RETRIES || i.time > now + 10 * MINUTE || now - i.time > HORIZON
                             || (now > MIN_FAIL && i.attempts >= MAX_FAILURES))
  {
  }

  // ----- Attempts -----

  /** An attempt stamps the entry; a failure counts only if none has been counted since the last success anywhere. */
  lemma AttemptEffect(b: Book, service: Service, count: bool, time: int)
    requires service in b.ids && b.ids[service] in b.info
    ensures var c, id := NoteAttempt(b, service, count, time), b.ids[service];
      && c == b.(info := c.info) && c.info.Keys == b.info.Keys
      && (forall x :: x in b.info && x != id ==> c.info[x] == b.info[x])
      && c.info[id].lastTry == time
      && c.info[id] == b.info[id].(lastTry := time, attempts := c.info[id].attempts, lastCount := c.info[id].lastCount)
      && (c.info[id].attempts == b.info[id].attempts + 1 <==> count && b.info[id].lastCount < b.lastGood)
      && c.info[id].attempts <= b.info[id].attempts + 1
      && (c.info[id].lastCount == if c.info[id].attempts == b.info[id].attempts then b.info[id].lastCount else time)
      && c.info[id].attempts >= b.info[id].attempts
  {
  }

  /** Failed attempts at one address, with the clock after the last success anywhere, count once together. */
  lemma {:induction false} AttemptsCountOnce(e: Env, b: Book, service: Service, ops: seq<Op>)
    requires service in b.ids && b.ids[service] in b.info
    requires forall op :: op in ops ==> op.Attempt? && op.service == service && op.countFailure && op.time >= b.lastGood
    ensures var c, id := Run(e, b, ops), b.ids[service];
      && c.ids == b.ids && id in c.info && c.lastGood == b.lastGood
      && c.info[id].attempts ==
           b.info[id].attempts + if ops != [] && b.info[id].lastCount < b.lastGood then 1 else 0
    decreases |ops|
  {
    if ops != [] {
      assert ops[0] in ops;
      AttemptsCountOnce(e, Step(e, b, ops[0]), service, ops[1..]);
    }
  }

  // ----- Moving an entry to the tried table -----

  lemma ClearNewFrame(e: Env, b: Book, s: Slot)
    ensures ClearNew(e, b, s).lastGood == b.lastGood
  {
    hide Delete;
    if s in b.untried && b.untried[s] in b.info {
      DeleteFrame(e, Unref(b, s), b.untried[s]);
    }
  }

  /** Where an entry that leaves the tried table goes: to the bucket its own source calls for. */
  ghost function ReturnSlot(e: Env, b: Book, id: Nid): Slot
    requires id in b.info
  {
    NewSlot(e, b.key, b.info[id].service, b.info[id].source)
  }

  /** The occupant of a tried slot is new again, with one reference at its return slot; whoever was there lost one. */
  lemma EvictEffect(e: Env, b: Book, s: Slot, skip: set<Nid>)
    requires Core(e, b, skip, skip) && s in b.tried
    ensures b.tried[s] in b.info
    ensures var c, x := Evict(e, b, s), b.tried[s]; var u := ReturnSlot(e, b, x);
      && x in c.info && Moved(b.info[x].(inTried := false, refCount := 1), c.info[x])
      && c.tried == b.tried - {s} && c.untried == b.untried[u := x] && c.lastGood == b.lastGood
      && (u in b.untried ==>
            && b.untried[u] in b.info && b.untried[u] != x && b.untried[u] !in skip
            && Bereft(b.info, c.info, b.untried[u]) && OthersStay(b.info, c.info, {x, b.untried[u]}))
      && (u !in b.untried ==> OthersStay(b.info, c.info, {x}))
  {
    hide Tallied, Shuffled, Indexed, NewPlaced, TriedPlaced, Numbered, Referenced, Balanced, ClearNew;
    EvictCore(e, b, s, skip);
    UntryCore(e, b, s, skip, skip);
    var x := b.tried[s];
    var u, b1 := ReturnSlot(e, b, x), Untry(e, b, s);
    ClearNewFrame(e, b1, u);
    if u in b1.untried {
      BareHasNoSlot(e, b1, skip + {x}, u);
      ClearNewEffect(e, b1, u, skip + {x}, skip + {x});
      assert (b.untried - {u})[u := x] == b.untried[u := x];
    } else {
      ClearNone(e, b1, u);
    }
  }

  /** Everything about a promotion: the entry keeps all its fields but side and references, its new slots are free,
      the occupant of its tried slot goes to its return slot, and nobody else changes but the one displaced there. */
  lemma MakeTriedEffect(e: Env, b: Book, id: Nid)
    requires Core(e, b, {}, {}) && id in b.info && !b.info[id].inTried
    ensures var c, s, left := MakeTried(e, b, id), TriedSlot(e, b.key, b.info[id].service), b.untried - SlotsOf(b.untried, id);
      && id in c.info && Moved(b.info[id].(inTried := true, refCount := 0), c.info[id])
      && c.tried == b.tried[s := id] && c.lastGood == b.lastGood
      && (s !in b.tried ==> c.untried == left && OthersStay(b.info, c.info, {id}))
      && (s in b.tried ==>
            && b.tried[s] in b.info && b.tried[s] != id
            && var x := b.tried[s]; var u := ReturnSlot(e, b, x);
              && x in c.info && Moved(b.info[x].(inTried := false, refCount := 1), c.info[x])
              && c.untried == left[u := x]
              && (u in left ==>
                    && left[u] in b.info && left[u] != x && left[u] != id
                    && Bereft(b.info, c.info, left[u]) && OthersStay(b.info, c.info, {id, x, left[u]}))
              && (u !in left ==> OthersStay(b.info, c.info, {id, x})))
  {
    hide Tallied, Shuffled, Indexed, NewPlaced, TriedPlaced, Numbered, Referenced, Balanced, Evict;
    var b1, s := Sweep(e, b, id), TriedSlot(e, b.key, b.info[id].service);
    SweepCore(e, b, id, {}, {});
    assert {} + {id} == {id};
    if s in b1.tried {
      OccupantOther(e, b, s, id);
      EvictCore(e, b1, s, {id});
      EvictEffect(e, b1, s, {id});
      var x := b1.tried[s];
      assert Moved(b1.info[id], Evict(e, b1, s).info[id]);
      assert (b.tried - {s})[s := id] == b.tried[s := id];
    }
  }

  lemma OccupantOther(e: Env, b: Book, s: Slot, id: Nid)
    requires Core(e, b, {}, {}) && s in b.tried && id in b.info && !b.info[id].inTried
    ensures b.tried[s] in b.info && b.tried[s] != id
  {
    assert HoldsTried(e, b.key, b.info, s, b.tried[s]);
  }
}
