/**
 Collisions in the tried table: when one is recorded, what becomes of it, and that an address which
 keeps answering gets the slot of one that does not.
 */
module AddrCollisions {
  import opened AddrTypes
  import opened AddrOps
  import opened AddrInv
  import opened AddrProofs
  import opened AddrRuns
  import opened AddrEffects

  // ----- Recording -----

  /** A known new address whose tried slot is taken. */
  ghost predicate Collides(e: Env, b: Book, service: Service) {
    && service in b.ids && b.ids[service] in b.info && !b.info[b.ids[service]].inTried
    && TriedSlot(e, b.key, service) in b.tried
  }

  /** The collisions after noting a success: the address is listed if it collides and there is room. */
  lemma GoodCollisions(e: Env, b: Book, service: Service, test: bool, time: int)
    requires Inv(e, b)
    ensures var c, id := MarkGood(e, b, service, test, time).0, if service in b.ids then b.ids[service] else NOBODY;
      c.collisions ==
        if test && Collides(e, b, service) && (|b.collisions| < MAX_COLLISIONS || id in b.collisions)
        then b.collisions + {id} else b.collisions
  {
    hide Tallied, Shuffled, Indexed, NewPlaced, TriedPlaced, Numbered, Referenced, Balanced, MakeTried, Pending;
    if service in b.ids {
      FoundIs(e, b, service);
      GoodCore(e, b, service, test, time);
      var id := b.ids[service];
      if id in b.collisions {
        assert b.collisions + {id} == b.collisions;
      }
    }
  }

  /** Noting a success stamps the entry and the book; a collision changes nothing else. */
  lemma GoodStamps(e: Env, b: Book, service: Service, test: bool, time: int)
    requires Inv(e, b)
    ensures var (c, moved) := MarkGood(e, b, service, test, time);
      && (moved <==> service in b.ids && b.ids[service] in b.info && !b.info[b.ids[service]].inTried
                     && !(test && Collides(e, b, service)))
      && (!moved ==>
            c.lastGood == time && c.tried == b.tried && c.untried == b.untried && c.ids == b.ids && c.random == b.random
            && c.info == if service in b.ids && b.ids[service] in b.info
                         then b.info[b.ids[service] := b.info[b.ids[service]].(lastSuccess := time, lastTry := time, attempts := 0)]
                         else b.info)
  {
    hide Tallied, Shuffled, Indexed, NewPlaced, TriedPlaced, Numbered, Referenced, Balanced, MakeTried, Pending;
    if service in b.ids {
      FoundIs(e, b, service);
    }
  }

  /** A success that moves the address: it is stamped, in its tried slot, and everything else is as a promotion does. */
  lemma GoodPromotes(e: Env, b: Book, service: Service, test: bool, time: int)
    requires Inv(e, b) && MarkGood(e, b, service, test, time).1
    ensures var c := MarkGood(e, b, service, test, time).0;
      && service in b.ids && b.ids[service] in b.info
      && var id := b.ids[service]; var d := Touch(b.(lastGood := time), id, time);
        && c == MakeTried(e, d, id) && c.lastGood == time && id in c.info
        && Moved(b.info[id].(lastSuccess := time, lastTry := time, attempts := 0, inTried := true, refCount := 0), c.info[id])
        && c.tried == b.tried[TriedSlot(e, b.key, service) := id]
  {
    hide Tallied, Shuffled, Indexed, NewPlaced, TriedPlaced, Numbered, Referenced, Balanced, MakeTried, Pending, OthersStay;
    FoundIs(e, b, service);
    TouchCore(e, b, service, time);
    MakeTriedEffect(e, Touch(b.(lastGood := time), b.ids[service], time), b.ids[service]);
  }

  // ----- Resolving -----

  /** The newcomer has the slot and the occupant is back in the new table with one reference. */
  ghost predicate Exchanged(e: Env, b: Book, c: Book, id: Nid)
    requires id in b.info
  {
    var s := TriedSlot(e, b.key, b.info[id].service);
    && s in b.tried && c.tried == b.tried[s := id]
    && id in c.info && c.info[id].inTried && id !in c.collisions
    && b.tried[s] != id && b.tried[s] in c.info && !c.info[b.tried[s]].inTried && c.info[b.tried[s]].refCount == 1
  }

  /** The collision is forgotten and nothing else happens. */
  ghost predicate Forgotten(b: Book, c: Book, id: Nid) {
    c == b.(collisions := b.collisions - {id})
  }

  /** The occupant of the slot a pending entry is after. */
  ghost function Occupant(e: Env, b: Book, id: Nid): Info
    requires Inv(e, b) && id in b.collisions && id in b.info
  {
    JudgeEvicts(e, b, id, 0);
    b.info[b.tried[TriedSlot(e, b.key, b.info[id].service)]]
  }

  /**
   One pending collision, exactly: forgotten when the newcomer is gone or the occupant has answered
   within four hours; otherwise exchanged when the occupant may be evicted; otherwise left pending.
   */
  lemma ResolveExactly(e: Env, b: Book, id: Nid, now: int)
    requires Inv(e, b) && id in b.collisions
    ensures var c := ResolveOne(e, b, id, now);
      if id !in b.info || now - Occupant(e, b, id).lastSuccess < REPLACEMENT then Forgotten(b, c, id)
      else if Evictable(Occupant(e, b, id), b.info[id], now) then Exchanged(e, b, c, id)
      else c == b
  {
    hide Tallied, Shuffled, Indexed, NewPlaced, TriedPlaced, Referenced, Balanced, MarkGood, Pending;
    JudgeEvicts(e, b, id, now);
    if id in b.info {
      ValidEntry(e, b, id);
      if Judge(e, b, id, now) == Replace {
        ReplaceExchanges(e, b, id, now);
      }
    }
  }

  lemma ValidEntry(e: Env, b: Book, id: Nid)
    requires Numbered(e, b.info, b.idCount) && id in b.info
    ensures e.valid(b.info[id].service)
  {
  }

  lemma ReplaceExchanges(e: Env, b: Book, id: Nid, now: int)
    requires Inv(e, b) && id in b.collisions && id in b.info && Judge(e, b, id, now) == Replace
    ensures Exchanged(e, b, ResolveOne(e, b, id, now), id)
  {
    hide Tallied, Shuffled, Indexed, NewPlaced, TriedPlaced, Numbered, Referenced, Balanced, Judge, MarkGood, Pending;
    JudgeEvicts(e, b, id, now);
    PendingIs(e, b, id);
    FoundById(e, b, id);
    GoodCore(e, b, b.info[id].service, false, now);
    GoodMoves(e, b, id, now);
    var c := MarkGood(e, b, b.info[id].service, false, now).0;
    PromotedTried(e, b, c, id, now);
    OccupantIsTried(e, b, id);
  }

  lemma OccupantIsTried(e: Env, b: Book, id: Nid)
    requires Inv(e, b) && id in b.info && !b.info[id].inTried && TriedSlot(e, b.key, b.info[id].service) in b.tried
    ensures var x := b.tried[TriedSlot(e, b.key, b.info[id].service)]; x in b.info && b.info[x].inTried && x != id
  {
    var s := TriedSlot(e, b.key, b.info[id].service);
    assert HoldsTried(e, b.key, b.info, s, b.tried[s]);
  }

  // ----- Over runs -----

  /** What a step that does not resolve a pending entry does to it: nothing but perhaps forgetting the entry. */
  lemma StepPending(e: Env, b: Book, op: Op, id: Nid)
    requires Sane(e) && Inv(e, b) && id in b.collisions && (op.Resolve? ==> op.id != id)
    ensures var c := Step(e, b, op);
      && 0 <= id < b.idCount <= c.idCount
      && (id in c.info ==> id in b.info && id in c.collisions && c.info[id].service == b.info[id].service)
  {
    hide Core, Calm, MarkGood, AddSingle, ResolveOne, NoteAttempt, NoteConnected, NoteServices, SwapRandom;
    var c := Step(e, b, op);
    match op {
      case Add(a, source, penalty, d) => AddSingleKeeps(e, b, a, source, penalty, d); CalmPending(b, c, id); AddCollisions(e, b, a, source, penalty, d);
      case Good(service, time) => GoodPending(e, b, service, time, id);
      case Attempt(service, count, time) => AttemptKeeps(e, b, service, count, time); CalmPending(b, c, id); NotesCollisions(b, op);
      case Connected(service, time) => ConnectedKeeps(e, b, service, time); CalmPending(b, c, id); NotesCollisions(b, op);
      case SetServices(service, flags) => ServicesKeeps(e, b, service, flags); CalmPending(b, c, id); NotesCollisions(b, op);
      case Resolve(other, time) => ResolvePending(e, b, other, time, id);
      case Forget(other) => 
      case Shuffle(i, j) => ShuffleKeeps(e, b, i, j); CalmPending(b, c, id); SwapFrame(b, i, j);
    }
  }

  lemma CalmPending(b: Book, c: Book, id: Nid)
    requires Calm(b, c) && id < b.idCount
    ensures b.idCount <= c.idCount && (id in c.info ==> id in b.info && c.info[id].service == b.info[id].service)
  {
  }

  lemma NotesCollisions(b: Book, op: Op)
    ensures op.Attempt? ==> NoteAttempt(b, op.service, op.countFailure, op.time).collisions == b.collisions
    ensures op.Connected? ==> NoteConnected(b, op.service, op.time).collisions == b.collisions
    ensures op.SetServices? ==> NoteServices(b, op.service, op.flags).collisions == b.collisions
  {
  }

  lemma AddCollisions(e: Env, b: Book, a: Address, source: NetAddr, penalty: int, d: Draw)
    ensures AddSingle(e, b, a, source, penalty, d).0.collisions == b.collisions
  {
    hide Place;
    forall c: Book, id | id in c.info
      ensures Place(e, c, id, source, d.terrible).0.collisions == c.collisions
    {
      PlaceCollisions(e, c, id, source, d.terrible);
    }
  }

  lemma PlaceCollisions(e: Env, b: Book, id: Nid, source: NetAddr, now: int)
    requires id in b.info
    ensures Place(e, b, id, source, now).0.collisions == b.collisions
  {
    hide Delete;
    var s := NewSlot(e, b.key, b.info[id].service, source);
    DeleteFrame(e, b, id);
    if s in b.untried && b.untried[s] in b.info {
      DeleteFrame(e, Unref(b, s), b.untried[s]);
    }
  }

  lemma GoodPending(e: Env, b: Book, service: Service, time: int, id: Nid)
    requires Inv(e, b) && id in b.collisions
    ensures var c := MarkGood(e, b, service, true, time).0;
      && b.idCount == c.idCount
      && (id in c.info ==> id in b.info && id in c.collisions && c.info[id].service == b.info[id].service)
  {
    hide Tallied, Shuffled, Indexed, NewPlaced, TriedPlaced, Numbered, Referenced, Balanced, MakeTried;
    GoodCollisions(e, b, service, true, time);
    GoodStamps(e, b, service, true, time);
    GoodCore(e, b, service, true, time);
  }

  lemma ResolvePending(e: Env, b: Book, other: Nid, now: int, id: Nid)
    requires Inv(e, b) && id in b.collisions && other != id
    ensures var c := ResolveOne(e, b, other, now);
      && b.idCount == c.idCount
      && (id in c.info ==> id in b.info && id in c.collisions && c.info[id].service == b.info[id].service)
  {
    hide Tallied, Shuffled, Indexed, NewPlaced, TriedPlaced, Numbered, Referenced, Balanced, Judge, MarkGood, Pending;
    if other in b.collisions && Judge(e, b, other, now) == Replace {
      JudgeEvicts(e, b, other, now);
      PendingIs(e, b, other);
      FoundById(e, b, other);
      GoodCore(e, b, b.info[other].service, false, now);
      GoodMoves(e, b, other, now);
    }
  }

  /** A recorded collision stays pending through any run that does not resolve it, as long as its entry stays. */
  lemma {:induction false} StaysPending(e: Env, b: Book, ops: seq<Op>, id: Nid)
    requires Sane(e) && Inv(e, b) && id in b.collisions
    requires forall op :: op in ops && op.Resolve? ==> op.id != id
    ensures var c := Run(e, b, ops);
      && Inv(e, c)
      && (id in c.info ==> id in b.info && id in c.collisions && c.info[id].service == b.info[id].service)
    decreases |ops|
  {
    hide Inv, Step;
    if ops != [] {
      StepKeeps(e, b, ops[0]);
      StepPending(e, b, ops[0], id);
      var c := Step(e, b, ops[0]);
      if id in c.info {
        StaysPending(e, c, ops[1..], id);
      } else {
        NumberUsed(e, b, id);
        StepNumbers(e, b, ops[0], id);
        StaysGone(e, c, ops[1..], id);
      }
    }
  }

  lemma NumberUsed(e: Env, b: Book, id: Nid)
    requires Inv(e, b) && id in b.collisions
    ensures 0 <= id < b.idCount
  {
  }

  /** Numbers are never used twice. */
  lemma StepNumbers(e: Env, b: Book, op: Op, id: Nid)
    requires Sane(e) && Inv(e, b) && 0 <= id < b.idCount
    ensures var c := Step(e, b, op); b.idCount <= c.idCount && (id in c.info ==> id in b.info)
  {
    hide Core, Calm, Pending, MarkGood, AddSingle, ResolveOne, NoteAttempt, NoteConnected, NoteServices, SwapRandom;
    var c := Step(e, b, op);
    match op {
      case Add(a, source, penalty, d) => AddSingleKeeps(e, b, a, source, penalty, d); CalmPending(b, c, id);
      case Good(service, time) => GoodNumbers(e, b, service, true, time);
      case Attempt(service, count, time) => AttemptKeeps(e, b, service, count, time); CalmPending(b, c, id);
      case Connected(service, time) => ConnectedKeeps(e, b, service, time); CalmPending(b, c, id);
      case SetServices(service, flags) => ServicesKeeps(e, b, service, flags); CalmPending(b, c, id);
      case Resolve(other, time) => ResolveNumbers(e, b, other, time);
      case Forget(other) =>
      case Shuffle(i, j) => ShuffleKeeps(e, b, i, j); CalmPending(b, c, id);
    }
  }

  lemma GoodNumbers(e: Env, b: Book, service: Service, test: bool, time: int)
    requires Inv(e, b)
    ensures var c := MarkGood(e, b, service, test, time).0; c.idCount == b.idCount && c.info.Keys <= b.info.Keys
  {
    hide Tallied, Shuffled, Indexed, NewPlaced, TriedPlaced, Numbered, Referenced, Balanced, MakeTried, Pending;
    GoodStamps(e, b, service, test, time);
    GoodCore(e, b, service, test, time);
  }

  lemma ResolveNumbers(e: Env, b: Book, other: Nid, now: int)
    requires Inv(e, b)
    ensures var c := ResolveOne(e, b, other, now); c.idCount == b.idCount && c.info.Keys <= b.info.Keys
  {
    hide Core, Pending, Judge, MarkGood;
    if other in b.collisions && Judge(e, b, other, now) == Replace {
      JudgeEvicts(e, b, other, now);
      GoodNumbers(e, b, b.info[other].service, false, now);
    }
  }

  lemma {:induction false} StaysGone(e: Env, b: Book, ops: seq<Op>, id: Nid)
    requires Sane(e) && Inv(e, b) && 0 <= id < b.idCount && id !in b.info
    ensures Inv(e, Run(e, b, ops)) && id !in Run(e, b, ops).info
    decreases |ops|
  {
    hide Inv, Step;
    if ops != [] {
      StepKeeps(e, b, ops[0]);
      StepNumbers(e, b, ops[0], id);
      StaysGone(e, Step(e, b, ops[0]), ops[1..], id);
    }
  }

  lemma {:induction false} RunJoin(e: Env, b: Book, xs: seq<Op>, ys: seq<Op>)
    ensures Run(e, b, xs + ys) == Run(e, Run(e, b, xs), ys)
    decreases |xs|
  {
    hide Step;
    if xs == [] {
      assert xs + ys == ys;
    } else {
      RunJoin(e, Step(e, b, xs[0]), xs[1..], ys);
      assert (xs + ys)[1..] == xs[1..] + ys;
    }
  }

  lemma RunSingle(e: Env, b: Book, op: Op)
    ensures Run(e, b, [op]) == Step(e, b, op)
  {
    assert [op][1..] == [];
  }

  /**
   A success of an address whose tried slot is taken, any run that does not resolve it, and a
   resolution when the occupant may be evicted: the address has the slot, and the occupant is back
   in the new table with one reference. When the occupant answered lately, the collision is dropped;
   otherwise it stays pending.
   */
  lemma AnswersThenReplaces(e: Env, b: Book, service: Service, time: int, ops: seq<Op>, now: int)
    requires Sane(e) && Inv(e, b) && Collides(e, b, service)
    requires |b.collisions| < MAX_COLLISIONS || b.ids[service] in b.collisions
    requires forall op :: op in ops && op.Resolve? ==> op.id != b.ids[service]
    ensures var id := b.ids[service];
      var c := Run(e, b, [Good(service, time)] + ops);
      var d := Run(e, b, [Good(service, time)] + ops + [Resolve(id, now)]);
      && Inv(e, c)
      && (id in c.info ==>
            && id in c.collisions && c.info[id].service == service
            && if now - Occupant(e, c, id).lastSuccess < REPLACEMENT then Forgotten(c, d, id)
               else if Evictable(Occupant(e, c, id), c.info[id], now) then Exchanged(e, c, d, id)
               else d == c)
  {
    hide Inv, Step, Run, Exchanged, Occupant, Evictable;
    var id, good := b.ids[service], Op.Good(service, time);
    var b1 := Step(e, b, good);
    StepKeeps(e, b, good);
    GoodListed(e, b, service, time);
    StaysPending(e, b1, ops, id);
    RunSingle(e, b, good);
    RunJoin(e, b, [good], ops);
    var c := Run(e, b, [good] + ops);
    RunSingle(e, c, Resolve(id, now));
    RunJoin(e, b, [good] + ops, [Resolve(id, now)]);
    if id in c.info {
      ResolveExactly(e, c, id, now);
      StepIsResolve(e, c, id, now);
    }
  }

  lemma StepIsResolve(e: Env, b: Book, id: Nid, now: int)
    ensures Step(e, b, Resolve(id, now)) == ResolveOne(e, b, id, now)
  {
  }

  lemma GoodListed(e: Env, b: Book, service: Service, time: int)
    requires Inv(e, b) && Collides(e, b, service) && (|b.collisions| < MAX_COLLISIONS || b.ids[service] in b.collisions)
    ensures var c, id := Step(e, b, Op.Good(service, time)), b.ids[service];
      && id in c.collisions && id in c.info && c.info[id].service == service
      && c.info == b.info[id := b.info[id].(lastSuccess := time, lastTry := time, attempts := 0)]
  {
    hide Core, Pending, MarkGood;
    GoodCollisions(e, b, service, true, time);
    GoodStamps(e, b, service, true, time);
    FoundIs(e, b, service);
  }

  /** Without anything in between: the occupant is the one there was, and it gives way exactly when it may be evicted. */
  lemma AnswersAtOnce(e: Env, b: Book, service: Service, time: int, now: int)
    requires Sane(e) && Inv(e, b) && Collides(e, b, service)
    requires |b.collisions| < MAX_COLLISIONS || b.ids[service] in b.collisions
    ensures var id, s := b.ids[service], TriedSlot(e, b.key, service);
      && b.tried[s] in b.info
      && var c := Run(e, b, [Op.Good(service, time), Resolve(id, now)]);
        Evictable(b.info[b.tried[s]], b.info[id].(lastSuccess := time, lastTry := time, attempts := 0), now) <==>
          s in c.tried && c.tried[s] == id && id in c.info && c.info[id].inTried
          && b.tried[s] in c.info && !c.info[b.tried[s]].inTried && c.info[b.tried[s]].refCount == 1
  {
    hide Inv, Step, Run, Occupant;
    var id, s, good := b.ids[service], TriedSlot(e, b.key, service), Op.Good(service, time);
    var ops: seq<Op> := [];
    AnswersThenReplaces(e, b, service, time, ops, now);
    var c := Step(e, b, good);
    assert [good] + ops == [good] && [good] + [Resolve(id, now)] == [good, Resolve(id, now)];
    RunSingle(e, b, good);
    GoodListed(e, b, service, time);
    CollidesWith(e, b, service);
    OccupantIs(e, b, service, time);
  }

  lemma CollidesWith(e: Env, b: Book, service: Service)
    requires Inv(e, b) && Collides(e, b, service)
    ensures var s, id := TriedSlot(e, b.key, service), b.ids[service];
      b.tried[s] in b.info && b.info[b.tried[s]].inTried && b.tried[s] != id && b.info[id].service == service
  {
    FoundIs(e, b, service);
    OccupantIsTried(e, b, b.ids[service]);
  }

  lemma OccupantIs(e: Env, b: Book, service: Service, time: int)
    requires Inv(e, b) && Collides(e, b, service) && Inv(e, Step(e, b, Op.Good(service, time)))
    requires var c, id := Step(e, b, Op.Good(service, time)), b.ids[service];
      id in c.collisions && id in c.info && c.info[id].service == service
      && c.info == b.info[id := b.info[id].(lastSuccess := time, lastTry := time, attempts := 0)]
    ensures var c, s := Step(e, b, Op.Good(service, time)), TriedSlot(e, b.key, service);
      && c.key == b.key && c.tried == b.tried && s in b.tried && b.tried[s] in b.info
      && Occupant(e, c, b.ids[service]) == b.info[b.tried[s]]
  {
    hide Core, Pending, MarkGood, Judge;
    GoodStamps(e, b, service, true, time);
    GoodKey(e, b, service, time);
    CollidesWith(e, b, service);
  }

  lemma GoodKey(e: Env, b: Book, service: Service, time: int)
    requires Inv(e, b)
    ensures MarkGood(e, b, service, true, time).0.key == b.key
  {
    hide Tallied, Shuffled, Indexed, NewPlaced, TriedPlaced, Numbered, Referenced, Balanced, MakeTried, Pending;
    GoodCore(e, b, service, true, time);
  }
}
