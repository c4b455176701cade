/**
 Runs of address-manager steps: the invariant everywhere, tried slots that stay filled,
 and the one way out of the tried table.
 */
module AddrRuns {
  import opened AddrTypes
  import opened AddrOps
  import opened AddrInv
  import opened AddrProofs

  lemma EmptyInv(e: Env, key: int)
    requires key != 0
    ensures Inv(e, Empty(key))
  {
    var b := Empty(key);
    assert Everyone(e, b.info, {}, false) == {} == Everyone(e, b.info, {}, true);
    forall n ensures TalliedOn(e, b.info, {}, TallyOf(b.counts, n), n) {
      assert Locals(e, b.info, {}, AsNew(n)) == {} == Locals(e, b.info, {}, AsTried(n));
    }
  }

  lemma NoteKeeps(e: Env, b: Book, id: Nid, i: Info)
    requires Inv(e, b) && id in b.info && SameShape(i, b.info[id])
    ensures Inv(e, SetInfo(b, id, i)) && Calm(b, SetInfo(b, id, i))
  {
    hide Core;
    SetInfoCore(e, b, id, i, {}, {});
    SetInfoCalm(b, id, i);
    PendingCalm(e, b, SetInfo(b, id, i), b.collisions);
  }

  lemma AttemptKeeps(e: Env, b: Book, service: Service, count: bool, time: int)
    requires Inv(e, b)
    ensures Inv(e, NoteAttempt(b, service, count, time)) && Calm(b, NoteAttempt(b, service, count, time))
  {
    hide Core, Pending;
    if service in b.ids {
      FoundIs(e, b, service);
      var id := b.ids[service];
      NoteKeeps(e, b, id, NoteAttempt(b, service, count, time).info[id]);
    }
  }

  lemma ConnectedKeeps(e: Env, b: Book, service: Service, time: int)
    requires Inv(e, b)
    ensures Inv(e, NoteConnected(b, service, time)) && Calm(b, NoteConnected(b, service, time))
  {
    hide Core, Pending;
    if service in b.ids {
      FoundIs(e, b, service);
      var id := b.ids[service];
      NoteKeeps(e, b, id, b.info[id].(time := time));
    }
  }

  lemma ServicesKeeps(e: Env, b: Book, service: Service, flags: set<int>)
    requires Inv(e, b)
    ensures Inv(e, NoteServices(b, service, flags)) && Calm(b, NoteServices(b, service, flags))
  {
    hide Core, Pending;
    if service in b.ids {
      FoundIs(e, b, service);
      var id := b.ids[service];
      NoteKeeps(e, b, id, b.info[id].(flags := flags));
    }
  }

  lemma ForgetKeeps(e: Env, b: Book, id: Nid)
    requires Inv(e, b)
    ensures Inv(e, ForgetStale(b, id)) && Calm(b, ForgetStale(b, id))
  {
    hide Core, Pending;
    CollisionsFree(e, b, b.collisions - {id});
    PendingFewer(e, b, id);
  }

  lemma CollisionsFree(e: Env, b: Book, collisions: set<Nid>)
    requires Core(e, b, {}, {})
    ensures Core(e, b.(collisions := collisions), {}, {})
  {
    hide Tallied, Shuffled, Indexed, NewPlaced, TriedPlaced, Numbered, Referenced, Balanced;
  }

  lemma ShuffleKeeps(e: Env, b: Book, i: int, j: int)
    requires Inv(e, b)
    ensures Inv(e, SwapRandom(b, i, j)) && Calm(b, SwapRandom(b, i, j))
  {
    hide Core, Pending, SwapRandom;
    var c := SwapRandom(b, i, j);
    SwapCore(e, b, i, j, {}, {});
    SwapKeeps(b, i, j);
    SwapFrame(b, i, j);
    assert Calm(b, c) by {
      forall x | x in b.info ensures Moved(b.info[x], c.info[x]) {}
    }
    PendingCalm(e, b, c, b.collisions);
  }

  lemma SwapFrame(b: Book, i: int, j: int)
    ensures var c := SwapRandom(b, i, j);
      c.collisions == b.collisions && c.key == b.key && c.tried == b.tried && c.idCount == b.idCount
  {
  }

  /** What one step may do to the tried table: fill slots, and exchange the occupant of one,
      by a `Resolve` step, under the eviction rule, back into the new table with one reference. */
  ghost predicate TriedStep(b: Book, c: Book, op: Op) {
    && b.tried.Keys <= c.tried.Keys
    && forall x :: x in b.info && b.info[x].inTried ==>
      (x in c.info && c.info[x].inTried) || Displaced(b, c, op, x)
  }

  ghost predicate Displaced(b: Book, c: Book, op: Op, x: Nid) {
    && op.Resolve? && op.id in b.collisions && op.id in b.info
    && x in b.info && Evictable(b.info[x], b.info[op.id], op.time)
    && x in c.info && !c.info[x].inTried && c.info[x].refCount == 1
  }

  lemma CalmTried(b: Book, c: Book, op: Op)
    requires Calm(b, c)
    ensures TriedStep(b, c, op)
  {
  }

  lemma ResolveStep(e: Env, b: Book, id: Nid, time: int)
    requires Inv(e, b)
    ensures Inv(e, ResolveOne(e, b, id, time)) && TriedStep(b, ResolveOne(e, b, id, time), Resolve(id, time))
  {
    hide Core, Pending, MarkGood;
    if id in b.collisions && Judge(e, b, id, time) == Replace {
      ResolveKeeps(e, b, id, time);
    } else {
      var c := ResolveOne(e, b, id, time);
      assert Calm(b, c);
      PendingFewer(e, b, id);
      assert Core(e, c, {}, {}) by { CollisionsFree(e, b, c.collisions); }
    }
  }

  /** Every step, with every key, draw and clock reading, keeps the invariant. */
  lemma StepKeeps(e: Env, b: Book, op: Op)
    requires Sane(e) && Inv(e, b)
    ensures Inv(e, Step(e, b, op))
    ensures TriedStep(b, Step(e, b, op), op)
  {
    hide Inv, Calm, TriedStep, MarkGood, AddSingle, ResolveOne, NoteAttempt, NoteConnected, NoteServices, ForgetStale, SwapRandom;
    var c := Step(e, b, op);
    match op {
      case Add(a, source, penalty, d) => AddSingleKeeps(e, b, a, source, penalty, d); CalmTried(b, c, op);
      case Good(service, time) => GoodKeeps(e, b, service, time); GoodTried(b, c, op);
      case Attempt(service, count, time) => AttemptKeeps(e, b, service, count, time); CalmTried(b, c, op);
      case Connected(service, time) => ConnectedKeeps(e, b, service, time); CalmTried(b, c, op);
      case SetServices(service, flags) => ServicesKeeps(e, b, service, flags); CalmTried(b, c, op);
      case Resolve(id, time) => ResolveStep(e, b, id, time);
      case Forget(id) => ForgetKeeps(e, b, id); CalmTried(b, c, op);
      case Shuffle(i, j) => ShuffleKeeps(e, b, i, j); CalmTried(b, c, op);
    }
  }

  lemma GoodTried(b: Book, c: Book, op: Op)
    requires b.tried.Keys <= c.tried.Keys
    requires forall x :: x in b.info && b.info[x].inTried ==> x in c.info && c.info[x].inTried
    ensures TriedStep(b, c, op)
  {
  }

  /** The invariant holds at the end of every run, and no tried slot filled before it is empty after it. */
  lemma {:induction false} RunKeeps(e: Env, b: Book, ops: seq<Op>)
    requires Sane(e) && Inv(e, b)
    ensures Inv(e, Run(e, b, ops))
    ensures b.tried.Keys <= Run(e, b, ops).tried.Keys
    decreases |ops|
  {
    hide Inv, Step;
    if ops != [] {
      StepKeeps(e, b, ops[0]);
      RunKeeps(e, Step(e, b, ops[0]), ops[1..]);
    }
  }

  /** From a new address manager with a non-null key, every reachable state satisfies the invariant. */
  lemma ReachableInv(e: Env, key: int, ops: seq<Op>)
    requires Sane(e) && key != 0
    ensures Inv(e, Run(e, Empty(key), ops))
  {
    EmptyInv(e, key);
    RunKeeps(e, Empty(key), ops);
  }

  lemma {:induction false} RunSplit(e: Env, b: Book, ops: seq<Op>, k: nat)
    requires k < |ops|
    ensures Run(e, b, ops[..k + 1]) == Step(e, Run(e, b, ops[..k]), ops[k])
    decreases |ops|
  {
    hide Step;
    if k == 0 {
      assert ops[..1] == [ops[0]] && ops[..0] == [];
      assert ops[..1][1..] == [];
    } else {
      RunSplit(e, Step(e, b, ops[0]), ops[1..], k - 1);
      assert ops[..k + 1][1..] == ops[1..][..k] && ops[..k][1..] == ops[1..][..k - 1];
    }
  }

  /** If a tried entry is no longer tried at the end of a run, some `Resolve` step of the run displaced it,
      under the eviction rule, leaving it in the new table with one reference. */
  lemma {:induction false} LeavesTriedByResolve(e: Env, b: Book, ops: seq<Op>, x: Nid)
    returns (k: nat)
    requires Sane(e) && Inv(e, b)
    requires x in b.info && b.info[x].inTried
    requires var c := Run(e, b, ops); !(x in c.info && c.info[x].inTried)
    ensures k < |ops| && Displaced(Run(e, b, ops[..k]), Run(e, b, ops[..k + 1]), ops[k], x)
    decreases |ops|
  {
    hide Inv, Step;
    StepKeeps(e, b, ops[0]);
    var c := Step(e, b, ops[0]);
    if x in c.info && c.info[x].inTried {
      var j := LeavesTriedByResolve(e, c, ops[1..], x);
      k := j + 1;
      assert ops[..k][1..] == ops[1..][..k - 1];
      assert ops[..k + 1][1..] == ops[1..][..k];
    } else {
      k := 0;
      assert ops[..0] == [];
      RunSplit(e, b, ops, 0);
    }
  }
}
