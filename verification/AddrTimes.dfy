/**
 The times in the book. No operation needs them for its bookkeeping, but `CheckAddrman` asks that
 none is before the epoch and that a tried entry has a success after it: which clock readings keep
 that so.
 */
module AddrTimes {
  import opened AddrTypes
  import opened AddrOps
  import opened AddrInv
  import opened AddrProofs

  /** A success that has been noted is not before the epoch, and a tried entry has one after it. */
  ghost predicate Stamped(info: map<Nid, Info>) {
    forall id :: id in info ==> info[id].lastSuccess >= 0 && (info[id].inTried ==> info[id].lastSuccess > 0)
  }

  ghost predicate Dated(info: map<Nid, Info>) {
    Stamped(info) && forall id :: id in info ==> info[id].lastTry >= 0
  }

  // ----- What leaves the times alone -----

  /** Everybody in `c` has the times it had in `b`, and nobody outside `risen` has become tried. */
  ghost predicate Timeless(b: Book, c: Book, risen: set<Nid>) {
    forall x :: x in c.info ==>
      && x in b.info && c.info[x].lastTry == b.info[x].lastTry && c.info[x].lastSuccess == b.info[x].lastSuccess
      && (c.info[x].inTried && x !in risen ==> b.info[x].inTried)
  }

  lemma SwapTimeless(b: Book, i: int, j: int)
    ensures Timeless(b, SwapRandom(b, i, j), {})
  {
  }

  lemma DeleteTimeless(e: Env, b: Book, id: Nid)
    ensures Timeless(b, Delete(e, b, id), {})
  {
    hide SwapRandom;
    if id in b.info && b.random != [] {
      SwapTimeless(b, b.info[id].randomPos, |b.random| - 1);
    }
  }

  lemma ClearNewTimeless(e: Env, b: Book, s: Slot)
    ensures Timeless(b, ClearNew(e, b, s), {})
  {
    hide Delete;
    if s in b.untried && b.untried[s] in b.info {
      DeleteTimeless(e, Unref(b, s), b.untried[s]);
    }
  }

  lemma EvictTimeless(e: Env, b: Book, s: Slot)
    requires s in b.tried && b.tried[s] in b.info
    ensures Timeless(b, Evict(e, b, s), {})
  {
    hide ClearNew;
    var prior := b.tried[s];
    var u := NewSlot(e, b.key, b.info[prior].service, b.info[prior].source);
    ClearNewTimeless(e, Untry(e, b, s), u);
  }

  lemma MakeTriedTimeless(e: Env, b: Book, id: Nid)
    requires id in b.info
    ensures Timeless(b, MakeTried(e, b, id), {id})
  {
    hide Evict;
    var swept := Sweep(e, b, id);
    var s := TriedSlot(e, b.key, b.info[id].service);
    if s in swept.tried && swept.tried[s] in swept.info {
      EvictTimeless(e, swept, s);
    }
  }

  lemma PlaceTimeless(e: Env, b: Book, id: Nid, source: NetAddr, now: int)
    requires id in b.info
    ensures Timeless(b, Place(e, b, id, source, now).0, {})
  {
    hide ClearNew, Delete;
    var s := NewSlot(e, b.key, b.info[id].service, source);
    ClearNewTimeless(e, b, s);
    DeleteTimeless(e, b, id);
  }

  lemma TimelessDated(b: Book, c: Book)
    requires Timeless(b, c, {}) && Dated(b.info)
    ensures Dated(c.info)
  {
  }

  // ----- Which clock readings are in order -----

  lemma AddSingleDated(e: Env, b: Book, a: Address, source: NetAddr, penalty: int, d: Draw)
    requires Dated(b.info)
    ensures Dated(AddSingle(e, b, a, source, penalty, d).0.info)
  {
    hide Place;
    var penalty' := if a.service.host == source then 0 else penalty;
    var c, id := b, b.idCount;
    if a.service in b.ids && b.ids[a.service] in b.info {
      id := b.ids[a.service];
      c := SetInfo(b, id, Refresh(b.info[id], a, penalty', d.online));
    } else {
      c := Create(e, b, a, source);
      var i := c.info[id];
      c := SetInfo(c, id, i.(time := Max(0, i.time - penalty')));
    }
    assert Dated(c.info);
    PlaceTimeless(e, c, id, source, d.terrible);
    TimelessDated(c, Place(e, c, id, source, d.terrible).0);
  }

  /** An attempt keeps the times in order if and only if its clock reading is not before the epoch, or the
      address is unknown. */
  lemma AttemptDated(b: Book, service: Service, count: bool, time: int)
    requires Dated(b.info)
    ensures Dated(NoteAttempt(b, service, count, time).info) <==>
      service !in b.ids || b.ids[service] !in b.info || time >= 0
  {
    if service in b.ids && b.ids[service] in b.info {
      var id := b.ids[service];
      assert NoteAttempt(b, service, count, time).info[id].lastTry == time;
    }
  }

  /** Noting a success moves the address to the tried table or finds it there. */
  ghost predicate EndsTried(e: Env, b: Book, service: Service, test: bool)
    requires service in b.ids && b.ids[service] in b.info
  {
    b.info[b.ids[service]].inTried || !test || TriedSlot(e, b.key, service) !in b.tried
  }

  lemma TouchDated(b: Book, id: Nid, time: int)
    requires Dated(b.info) && id in b.info
    ensures Dated(Touch(b, id, time).info) <==> time > 0 || (time == 0 && !b.info[id].inTried)
    ensures Stamped(Touch(b, id, time).info) <==> time > 0 || (time == 0 && !b.info[id].inTried)
  {
    var c := Touch(b, id, time);
    assert c.info[id].lastSuccess == time && c.info[id].lastTry == time && c.info[id].inTried == b.info[id].inTried;
    forall x | x in b.info && x != id
      ensures c.info[x] == b.info[x]
    {
    }
  }

  /** A success keeps the times in order if and only if its clock reading is after the epoch, or the address is
      unknown, or the reading is the epoch itself and the address stays in the new table. */
  lemma GoodDated(e: Env, b: Book, service: Service, test: bool, time: int)
    requires Inv(e, b) && Dated(b.info)
    ensures service in b.ids ==> b.ids[service] in b.info
    ensures Dated(MarkGood(e, b, service, test, time).0.info) <==>
      service !in b.ids || time > 0 || (time == 0 && !EndsTried(e, b, service, test))
  {
    hide MakeTried, Pending, Tallied, Shuffled, NewPlaced, TriedPlaced, Numbered, Referenced, Balanced, Touch, Promoted;
    if service in b.ids {
      FoundIs(e, b, service);
      var id, c := b.ids[service], b.(lastGood := time);
      TouchDated(c, id, time);
      TouchCore(e, b, service, time);
      var d := Touch(c, id, time);
      TouchFields(c, id, time);
      if !d.info[id].inTried && !(test && TriedSlot(e, d.key, service) in d.tried) {
        MakeTriedTimeless(e, d, id);
        MakeTriedCore(e, d, id);
        RisenDated(e, d, id);
      }
    }
  }

  lemma TouchFields(b: Book, id: Nid, time: int)
    requires id in b.info
    ensures var d := Touch(b, id, time);
      && d == b.(info := d.info) && id in d.info
      && d.info[id] == b.info[id].(lastSuccess := time, lastTry := time, attempts := 0)
  {
  }

  lemma RisenDated(e: Env, d: Book, id: Nid)
    requires Core(e, d, {}, {}) && id in d.info && !d.info[id].inTried
    ensures d.info[id].lastSuccess <= 0 ==> !Dated(MakeTried(e, d, id).info)
    ensures Dated(d.info) && d.info[id].lastSuccess > 0 ==> Dated(MakeTried(e, d, id).info)
  {
    hide MakeTried, Tallied, Shuffled, NewPlaced, TriedPlaced, Numbered, Referenced, Balanced;
    MakeTriedCore(e, d, id);
    MakeTriedTimeless(e, d, id);
    var c := MakeTried(e, d, id);
    assert id in c.info && c.info[id].inTried && c.info[id].lastSuccess == d.info[id].lastSuccess;
  }

  /** A replacement is only ever decided at a time after the epoch. */
  lemma ReplaceIsLate(e: Env, b: Book, id: Nid, now: int)
    requires Inv(e, b) && Dated(b.info) && id in b.collisions && Judge(e, b, id, now) == Replace
    ensures now > 0
  {
    JudgeEvicts(e, b, id, now);
    var s := TriedSlot(e, b.key, b.info[id].service);
    assert HoldsTried(e, b.key, b.info, s, b.tried[s]);
    var prior := b.tried[s];
    assert b.info[prior].lastSuccess > 0;
  }

  lemma ResolveDated(e: Env, b: Book, id: Nid, now: int)
    requires Inv(e, b) && Dated(b.info)
    ensures Dated(ResolveOne(e, b, id, now).info)
  {
    hide MarkGood, Judge, Dated, Core, Pending;
    if id in b.collisions && Judge(e, b, id, now) == Replace {
      ReplaceIsLate(e, b, id, now);
      JudgeEvicts(e, b, id, now);
      GoodDated(e, b, b.info[id].service, false, now);
    }
  }

  /** The clock reading of a step, where it matters. */
  ghost predicate InTime(e: Env, b: Book, op: Op) {
    match op
    case Good(service, time) =>
      service !in b.ids || b.ids[service] !in b.info || time > 0 || (time == 0 && !EndsTried(e, b, service, true))
    case Attempt(service, _, time) => service !in b.ids || b.ids[service] !in b.info || time >= 0
    case _ => true
  }

  /** A step keeps the times in order exactly when its clock reading is. */
  lemma StepDated(e: Env, b: Book, op: Op)
    requires Inv(e, b) && Dated(b.info)
    ensures Dated(Step(e, b, op).info) <==> InTime(e, b, op)
  {
    hide Inv, Dated, MarkGood, AddSingle, ResolveOne, NoteAttempt, ForgetStale, SwapRandom, EndsTried;
    match op {
      case Add(a, source, penalty, d) => AddSingleDated(e, b, a, source, penalty, d);
      case Good(service, time) => GoodDated(e, b, service, true, time);
      case Attempt(service, count, time) => AttemptDated(b, service, count, time);
      case Connected(service, time) => ConnectedDated(b, service, time);
      case SetServices(service, flags) => ServicesDated(b, service, flags);
      case Resolve(id, time) => ResolveDated(e, b, id, time);
      case Forget(id) => ForgetDated(b, id);
      case Shuffle(i, j) => SwapTimeless(b, i, j); TimelessDated(b, SwapRandom(b, i, j));
    }
  }

  lemma ConnectedDated(b: Book, service: Service, time: int)
    requires Dated(b.info)
    ensures Dated(NoteConnected(b, service, time).info)
  {
  }

  lemma ServicesDated(b: Book, service: Service, flags: set<int>)
    requires Dated(b.info)
    ensures Dated(NoteServices(b, service, flags).info)
  {
  }

  lemma ForgetDated(b: Book, id: Nid)
    requires Dated(b.info)
    ensures Dated(ForgetStale(b, id).info)
  {
  }
}
