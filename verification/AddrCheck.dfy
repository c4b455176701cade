/**
 `CheckAddrman`, the program's own run-time consistency check: what its result 0 means,
 and that together with four facts it does not look at it is exactly the invariant.
 */
module AddrCheck {
  import opened AddrTypes
  import opened AddrOps
  import opened AddrInv
  import opened AddrProofs
  import opened AddrTimes
  import opened AddrRuns
  import opened AddrTables
  import opened AddrMan
  import opened Sets

  /** What the first loop asks of one entry. */
  ghost predicate EntryOk(b: Book, id: Nid)
    requires id in b.info
  {
    var i := b.info[id];
    && (if i.inTried then i.lastSuccess != 0 && i.refCount == 0 else 0 < i.refCount <= MAX_REFS)
    && i.service in b.ids && b.ids[i.service] == id
    && 0 <= i.randomPos < |b.random| && b.random[i.randomPos] == id
    && i.lastTry >= 0 && i.lastSuccess >= 0
  }

  ghost predicate EntriesOk(b: Book) {
    forall id :: id in b.info ==> EntryOk(b, id)
  }

  ghost predicate RefsOk(b: Book) {
    forall id :: id in b.info && !b.info[id].inTried ==> b.info[id].refCount == |SlotsOf(b.untried, id)|
  }

  /** The networks that have entries. */
  ghost function Nets(e: Env, info: map<Nid, Info>): set<Network> {
    set id | id in info :: e.network(info[id].service)
  }

  ghost predicate CountsOk(e: Env, b: Book) {
    && |Nets(e, b.info)| <= |b.counts|
    && forall n :: n in b.counts ==> TalliedOn(e, b.info, {}, b.counts[n], n)
  }

  /** `CheckAddrman() == 0`. */
  ghost predicate Checked(e: Env, b: Book) {
    && |b.random| == b.nTried + b.nNew
    && EntriesOk(b)
    && |Everyone(e, b.info, {}, true)| == b.nTried
    && |Everyone(e, b.info, {}, false)| == b.nNew
    && TriedPlaced(e, b.key, b.info, b.tried)
    && NewPlaced(e, b.key, b.info, b.untried)
    && RefsOk(b)
    && b.key != 0
    && CountsOk(e, b)
  }

  /** What `CheckAddrman` does not look at: ids below the id counter and valid addresses, no stale entry in
      the address index, a counter for every network in use, and pending collisions in order. */
  ghost predicate Unchecked(e: Env, b: Book) {
    && Numbered(e, b.info, b.idCount)
    && (forall s :: s in b.ids ==> b.ids[s] in b.info && b.info[b.ids[s]].service == s)
    && Nets(e, b.info) <= b.counts.Keys
    && Pending(e, b, b.collisions)
  }

  // ----- Checked + Unchecked <==> Inv -----

  /** An injection from a finite set into 0..n, with n its size, hits every number. */
  lemma {:induction false} Onto(s: set<Nid>, pos: map<Nid, int>, n: nat, k: nat)
    requires s <= pos.Keys && |s| == n && k < n
    requires forall x :: x in s ==> 0 <= pos[x] < n
    requires forall x, y :: x in s && y in s && x != y ==> pos[x] != pos[y]
    ensures exists x :: x in s && pos[x] == k
  {
    if forall x :: x in s ==> pos[x] != k {
      ImageCard(s, pos);
      UpToIs(n);
      var room := UpTo(n) - {k};
      assert Image(s, pos) <= room;
      SubsetCard(Image(s, pos), room);
      assert false;
    }
  }

  ghost function Image(s: set<Nid>, pos: map<Nid, int>): set<int> {
    set x | x in s && x in pos :: pos[x]
  }

  lemma {:induction false} ImageCard(s: set<Nid>, pos: map<Nid, int>)
    requires s <= pos.Keys
    requires forall x, y :: x in s && y in s && x != y ==> pos[x] != pos[y]
    ensures |Image(s, pos)| == |s|
  {
    InhabitedInts(s);
    if x :| x in s {
      ImageCard(s - {x}, pos);
      assert Image(s, pos) == Image(s - {x}, pos) + {pos[x]};
    } else {
      assert s == {};
      assert Image(s, pos) == {};
    }
  }

  /** The numbers below n. */
  ghost function UpTo(n: nat): set<int> {
    if n == 0 then {} else UpTo(n - 1) + {n - 1}
  }

  lemma {:induction false} UpToIs(n: nat)
    ensures |UpTo(n)| == n && forall i :: i in UpTo(n) <==> 0 <= i < n
  {
    if n > 0 { UpToIs(n - 1); }
  }

  lemma SidesCard(e: Env, info: map<Nid, Info>)
    ensures |Everyone(e, info, {}, true)| + |Everyone(e, info, {}, false)| == |info|
  {
    var x, y := Everyone(e, info, {}, true), Everyone(e, info, {}, false);
    assert info.Keys == x + y && x !! y;
    assert |info.Keys| == |info|;
  }

  /** If every entry knows its place in a list of the right length, the list has every entry at its place. */
  lemma PlacesShuffle(b: Book)
    requires |b.random| == |b.info|
    requires forall id :: id in b.info ==>
      0 <= b.info[id].randomPos < |b.random| && b.random[b.info[id].randomPos] == id
    ensures Shuffled(b.info, b.random)
  {
    var pos := map id | id in b.info :: b.info[id].randomPos;
    assert |b.info.Keys| == |b.info|;
    forall i | 0 <= i < |b.random| ensures b.random[i] in b.info && b.info[b.random[i]].randomPos == i {
      Onto(b.info.Keys, pos, |b.random|, i);
    }
  }

  lemma CheckedShuffled(e: Env, b: Book)
    requires EntriesOk(b) && |b.random| == b.nTried + b.nNew
    requires |Everyone(e, b.info, {}, true)| == b.nTried && |Everyone(e, b.info, {}, false)| == b.nNew
    ensures Shuffled(b.info, b.random)
  {
    hide Shuffled, Everyone;
    SidesCard(e, b.info);
    forall id | id in b.info
      ensures 0 <= b.info[id].randomPos < |b.random| && b.random[b.info[id].randomPos] == id
    {
      assert EntryOk(b, id);
    }
    PlacesShuffle(b);
  }

  lemma CheckedEntries(b: Book)
    requires EntriesOk(b) && forall s :: s in b.ids ==> b.ids[s] in b.info && b.info[b.ids[s]].service == s
    ensures Indexed(b.info, b.ids) && Dated(b.info) && Balanced(b.info, {}, {})
  {
    forall id | id in b.info
      ensures EntryOk(b, id)
    {
    }
  }

  lemma CheckedIsInv(e: Env, b: Book)
    requires Checked(e, b) && Unchecked(e, b)
    ensures Inv(e, b) && Dated(b.info)
  {
    hide TriedPlaced, NewPlaced, Shuffled, Pending, Indexed, Dated, Balanced, Tallied, Referenced, EntriesOk, CountsOk, Everyone, Nets;
    CheckedShuffled(e, b);
    CheckedEntries(b);
    CountsTally(e, b);
    RefsReference(e, b);
  }

  lemma CountsTally(e: Env, b: Book)
    requires CountsOk(e, b) && Nets(e, b.info) <= b.counts.Keys
    requires |Everyone(e, b.info, {}, true)| == b.nTried && |Everyone(e, b.info, {}, false)| == b.nNew
    ensures Tallied(e, b.info, {}, b.nNew, b.nTried, b.counts)
  {
    forall n ensures TalliedOn(e, b.info, {}, TallyOf(b.counts, n), n) {
      if n !in b.counts {
        forall id | id in b.info ensures e.network(b.info[id].service) != n {
          assert e.network(b.info[id].service) in Nets(e, b.info);
        }
        assert Locals(e, b.info, {}, AsNew(n)) == {} == Locals(e, b.info, {}, AsTried(n));
      }
    }
  }

  lemma RefsReference(e: Env, b: Book)
    requires RefsOk(b) && EntriesOk(b) && NewPlaced(e, b.key, b.info, b.untried)
    ensures Referenced(b.info, b.untried)
  {
    forall id | id in b.info ensures b.info[id].refCount == |SlotsOf(b.untried, id)| <= MAX_REFS {
      assert EntryOk(b, id);
      if b.info[id].inTried {
        forall s | s in b.untried ensures b.untried[s] != id {
          assert HoldsNew(e, b.key, b.info, s, b.untried[s]);
        }
        assert SlotsOf(b.untried, id) == {};
      }
    }
  }

  lemma InvIsChecked(e: Env, b: Book)
    requires Inv(e, b) && Dated(b.info)
    ensures Checked(e, b) && Unchecked(e, b)
  {
    SidesCard(e, b.info);
    InvEntries(e, b);
    InvCounts(e, b);
  }

  lemma InvEntries(e: Env, b: Book)
    requires Core(e, b, {}, {}) && Dated(b.info)
    ensures EntriesOk(b)
  {
    hide Tallied, NewPlaced, TriedPlaced;
    forall id | id in b.info ensures EntryOk(b, id) {
      if b.info[id].inTried {
        assert b.info[id].refCount == 0 by { NoRefsWhenTried(e, b, id); }
      }
    }
  }

  lemma NoRefsWhenTried(e: Env, b: Book, id: Nid)
    requires Core(e, b, {}, {}) && id in b.info && b.info[id].inTried
    ensures b.info[id].refCount == 0
  {
    RefsOfTried(e, b, id);
  }

  lemma InvCounts(e: Env, b: Book)
    requires Tallied(e, b.info, {}, b.nNew, b.nTried, b.counts)
    ensures CountsOk(e, b) && Nets(e, b.info) <= b.counts.Keys
  {
    forall id | id in b.info ensures e.network(b.info[id].service) in b.counts {
      var n := e.network(b.info[id].service);
      assert TalliedOn(e, b.info, {}, TallyOf(b.counts, n), n);
      assert id in Locals(e, b.info, {}, AsNew(n)) || id in Locals(e, b.info, {}, AsTried(n));
    }
    SubsetCard(Nets(e, b.info), b.counts.Keys);
    assert |b.counts.Keys| == |b.counts|;
    forall n | n in b.counts ensures TalliedOn(e, b.info, {}, b.counts[n], n) {
      assert TalliedOn(e, b.info, {}, TallyOf(b.counts, n), n);
    }
  }

  /** The invariant and times after the epoch are `CheckAddrman() == 0` together with the four facts the check
      does not look at. */
  lemma InvIffChecked(e: Env, b: Book)
    ensures Inv(e, b) && Dated(b.info) <==> Checked(e, b) && Unchecked(e, b)
  {
    if Inv(e, b) && Dated(b.info) { InvIsChecked(e, b); }
    if Checked(e, b) && Unchecked(e, b) { CheckedIsInv(e, b); }
  }

  /** The caller's clock is after the epoch. */
  predicate Punctual(op: Op) {
    match op
    case Good(_, time) => time > 0
    case Attempt(_, _, time) => time >= 0
    case _ => true
  }

  lemma {:induction false} RunDated(e: Env, b: Book, ops: seq<Op>)
    requires Sane(e) && Inv(e, b) && Dated(b.info) && forall op :: op in ops ==> Punctual(op)
    ensures Inv(e, Run(e, b, ops)) && Dated(Run(e, b, ops).info)
    decreases |ops|
  {
    hide Inv, Step, Dated;
    if ops != [] {
      assert Punctual(ops[0]);
      StepKeeps(e, b, ops[0]);
      StepDated(e, b, ops[0]);
      RunDated(e, Step(e, b, ops[0]), ops[1..]);
    }
  }

  /** From a new address manager, with a clock after the epoch, `CheckAddrman` never finds fault. */
  lemma ReachableChecked(e: Env, key: int, ops: seq<Op>)
    requires Sane(e) && key != 0 && forall op :: op in ops ==> Punctual(op)
    ensures Checked(e, Run(e, Empty(key), ops))
  {
    hide Inv, Checked;
    EmptyInv(e, key);
    RunDated(e, Empty(key), ops);
    InvIffChecked(e, Run(e, Empty(key), ops));
  }

  /** From a faultless state, one step leads to a state without fault exactly when its clock reading is in order. */
  lemma StepChecked(e: Env, b: Book, op: Op)
    requires Sane(e) && Checked(e, b) && Unchecked(e, b)
    ensures Checked(e, Step(e, b, op)) <==> InTime(e, b, op)
  {
    hide Inv, Checked, Unchecked, Step, Dated, InTime;
    InvIffChecked(e, b);
    StepKeeps(e, b, op);
    StepDated(e, b, op);
    var c := Step(e, b, op);
    InvIffChecked(e, c);
    if Checked(e, c) {
      InvUnchecked(e, c);
    }
  }

  lemma InvUnchecked(e: Env, b: Book)
    requires Inv(e, b)
    ensures Unchecked(e, b)
  {
    InvCounts(e, b);
  }

  // ----- The loops of CheckAddrman -----

  ghost function Part(info: map<Nid, Info>, done: set<Nid>): map<Nid, Info> {
    map id | id in info && id in done :: info[id]
  }

  /** The first loop: one entry at a time, collecting the tried ids, the reference counts and local counters. */
  method CheckEntries(e: Env, info: map<Nid, Info>, ids: map<Service, Nid>, random: seq<Nid>, ghost b: Book)
    returns (code: int, tried: set<Nid>, refs: map<Nid, int>, local: map<Network, Tally>)
    requires b.info == info && b.ids == ids && b.random == random
    ensures code == 0 <==> EntriesOk(b)
    ensures code == 0 ==> tried == Everyone(e, info, {}, true)
    ensures code == 0 ==> refs.Keys == Everyone(e, info, {}, false)
    ensures code == 0 ==> forall id :: id in refs ==> refs[id] == info[id].refCount
    ensures code == 0 ==> local.Keys == Nets(e, info)
    ensures code == 0 ==> forall n :: TalliedOn(e, info, {}, TallyOf(local, n), n)
  {
    code, tried, refs, local := 0, {}, map[], map[];
    var rest := info.Keys;
    ghost var done: set<Nid> := {};
    SurveyStart(e, info);
    hide EntryOk, Survey;
    while rest != {}
      invariant done !! rest && done + rest == info.Keys
      invariant forall id :: id in done ==> EntryOk(b, id)
      invariant Survey(e, Part(info, done), tried, refs, local)
      decreases |rest|
    {
      InhabitedInts(rest);
      var id :| id in rest;
      code := CheckEntry(info[id], id, ids, random, b);
      if code != 0 { return; }
      SurveyMore(e, info, done, id, tried, refs, local);
      var n := e.network(info[id].service);
      if info[id].inTried {
        tried := tried + {id};
        local := Bump(local, n, 0, 1);
      } else {
        refs := refs[id := info[id].refCount];
        local := Bump(local, n, 1, 0);
      }
      done := done + {id};
      rest := rest - {id};
    }
    assert Part(info, done) == info;
    SurveyIs(e, info, tried, refs, local);
  }

  method CheckEntry(i: Info, id: Nid, ids: map<Service, Nid>, random: seq<Nid>, ghost b: Book) returns (code: int)
    requires id in b.info && b.info[id] == i && b.ids == ids && b.random == random
    ensures code == 0 <==> EntryOk(b, id)
    ensures code <= 0
  {
    if i.inTried {
      if i.lastSuccess == 0 { return -1; }
      if i.refCount != 0 { return -2; }
    } else {
      if i.refCount < 0 || i.refCount > MAX_REFS { return -3; }
      if i.refCount == 0 { return -4; }
    }
    if i.service !in ids || ids[i.service] != id { return -5; }
    if i.randomPos < 0 || i.randomPos >= |random| || random[i.randomPos] != id { return -14; }
    if i.lastTry < 0 { return -6; }
    if i.lastSuccess < 0 { return -8; }
    return 0;
  }

  ghost predicate Split(e: Env, seen: map<Nid, Info>, tried: set<Nid>, refs: map<Nid, int>) {
    && tried == Everyone(e, seen, {}, true)
    && refs.Keys == Everyone(e, seen, {}, false)
    && (forall id :: id in refs ==> refs[id] == seen[id].refCount)
  }

  ghost predicate Counted(e: Env, seen: map<Nid, Info>, local: map<Network, Tally>) {
    && local.Keys == Nets(e, seen)
    && Tallied(e, seen, {}, |Everyone(e, seen, {}, false)|, |Everyone(e, seen, {}, true)|, local)
  }

  /** What the first loop has collected from the entries seen so far. */
  ghost predicate Survey(e: Env, seen: map<Nid, Info>, tried: set<Nid>, refs: map<Nid, int>, local: map<Network, Tally>) {
    Split(e, seen, tried, refs) && Counted(e, seen, local)
  }

  lemma SurveyStart(e: Env, info: map<Nid, Info>)
    ensures Survey(e, Part(info, {}), {}, map[], map[])
  {
    var seen := Part(info, {});
    assert Everyone(e, seen, {}, true) == {} == Everyone(e, seen, {}, false);
    assert Nets(e, seen) == {};
    forall n ensures TalliedOn(e, seen, {}, TallyOf(map[], n), n) {
      assert Locals(e, seen, {}, AsNew(n)) == {} == Locals(e, seen, {}, AsTried(n));
    }
  }

  lemma SurveyIs(e: Env, info: map<Nid, Info>, tried: set<Nid>, refs: map<Nid, int>, local: map<Network, Tally>)
    requires Survey(e, info, tried, refs, local)
    ensures tried == Everyone(e, info, {}, true) && refs.Keys == Everyone(e, info, {}, false)
    ensures forall id :: id in refs ==> refs[id] == info[id].refCount
    ensures local.Keys == Nets(e, info) && forall n :: TalliedOn(e, info, {}, TallyOf(local, n), n)
  {
  }

  lemma SurveyMore(e: Env, info: map<Nid, Info>, done: set<Nid>, id: Nid,
                   tried: set<Nid>, refs: map<Nid, int>, local: map<Network, Tally>)
    requires id in info && id !in done && Survey(e, Part(info, done), tried, refs, local)
    ensures var n := e.network(info[id].service);
      if info[id].inTried
      then Survey(e, Part(info, done + {id}), tried + {id}, refs, Bump(local, n, 0, 1))
      else Survey(e, Part(info, done + {id}), tried, refs[id := info[id].refCount], Bump(local, n, 1, 0))
  {
    hide Survey;
    assert Part(info, done + {id}) == Part(info, done)[id := info[id]];
    SurveyJoin(e, Part(info, done), id, info[id], tried, refs, local);
  }

  lemma SurveyJoin(e: Env, seen: map<Nid, Info>, id: Nid, i: Info,
                   tried: set<Nid>, refs: map<Nid, int>, local: map<Network, Tally>)
    requires id !in seen && Survey(e, seen, tried, refs, local)
    ensures var n := e.network(i.service);
      if i.inTried
      then Survey(e, seen[id := i], tried + {id}, refs, Bump(local, n, 0, 1))
      else Survey(e, seen[id := i], tried, refs[id := i.refCount], Bump(local, n, 1, 0))
  {
    hide Split, Counted;
    SplitJoin(e, seen, id, i, tried, refs);
    CountedJoin(e, seen, id, i, local);
  }

  lemma SplitJoin(e: Env, seen: map<Nid, Info>, id: Nid, i: Info, tried: set<Nid>, refs: map<Nid, int>)
    requires id !in seen && Split(e, seen, tried, refs)
    ensures if i.inTried then Split(e, seen[id := i], tried + {id}, refs)
      else Split(e, seen[id := i], tried, refs[id := i.refCount])
  {
    var more := seen[id := i];
    assert id in more && forall x :: x in seen ==> x in more && more[x] == seen[x];
    assert Everyone(e, more, {}, true) == Everyone(e, seen, {}, true) + (if i.inTried then {id} else {});
    assert Everyone(e, more, {}, false) == Everyone(e, seen, {}, false) + (if i.inTried then {} else {id});
  }

  lemma CountedJoin(e: Env, seen: map<Nid, Info>, id: Nid, i: Info, local: map<Network, Tally>)
    requires id !in seen && Counted(e, seen, local)
    ensures Counted(e, seen[id := i], Bump(local, e.network(i.service), if i.inTried then 0 else 1, if i.inTried then 1 else 0))
  {
    hide Tallied, Everyone;
    var more := seen[id := i];
    assert SameElsewhere(e, seen, {}, more, {}, id);
    TalliedMoved(e, seen, {}, more, {}, id, e.network(i.service),
                 |Everyone(e, seen, {}, false)|, |Everyone(e, seen, {}, true)|, local);
    EveryoneMoved(e, seen, {}, more, {}, id);
    assert Nets(e, more) == Nets(e, seen) + {e.network(i.service)} by {
      assert id in more && forall x :: x in seen ==> x in more && more[x] == seen[x];
    }
  }

  // ----- The tried table -----

  /** Slots the row-by-row scan has passed when it is at (n, i). */
  ghost predicate Before(s: Slot, n: int, i: int) {
    s.bucket < n || (s.bucket == n && s.pos < i)
  }

  ghost predicate Unfound(e: Env, key: int, info: map<Nid, Info>, m: map<Slot, Nid>, n: int, i: int, id: Nid) {
    && id in info && info[id].inTried
    && var s := TriedSlot(e, key, info[id].service);
    !(Before(s, n, i) && s in m && m[s] == id)
  }

  /** Every slot passed holds a tried entry at its place; `left` are the tried entries not met yet. */
  ghost predicate TriedSoFar(e: Env, key: int, info: map<Nid, Info>, m: map<Slot, Nid>, left: set<Nid>, n: int, i: int) {
    && (forall s :: s in m && Before(s, n, i) ==> HoldsTried(e, key, info, s, m[s]))
    && left == set id | id in info && Unfound(e, key, info, m, n, i, id)
  }

  lemma TriedStart(e: Env, key: int, info: map<Nid, Info>, m: map<Slot, Nid>)
    requires forall s :: s in m ==> InTried(s)
    ensures TriedSoFar(e, key, info, m, Everyone(e, info, {}, true), 0, 0)
  {
  }

  lemma TriedNext(e: Env, key: int, info: map<Nid, Info>, m: map<Slot, Nid>, left: set<Nid>, s: Slot)
    requires TriedSoFar(e, key, info, m, left, s.bucket, s.pos)
    ensures s !in m ==> TriedSoFar(e, key, info, m, left, s.bucket, s.pos + 1)
    ensures s in m && HoldsTried(e, key, info, s, m[s]) ==>
      m[s] in left && TriedSoFar(e, key, info, m, left - {m[s]}, s.bucket, s.pos + 1)
  {
    if s in m && HoldsTried(e, key, info, s, m[s]) {
      var id := m[s];
      assert Unfound(e, key, info, m, s.bucket, s.pos, id);
      forall x ensures x in left - {id} <==> x in info && Unfound(e, key, info, m, s.bucket, s.pos + 1, x) {}
    }
  }

  lemma TriedRow(e: Env, key: int, info: map<Nid, Info>, m: map<Slot, Nid>, left: set<Nid>, n: int)
    requires forall s :: s in m ==> InTried(s)
    requires TriedSoFar(e, key, info, m, left, n, BUCKET_SIZE)
    ensures TriedSoFar(e, key, info, m, left, n + 1, 0)
  {
    forall x | x in info
      ensures Unfound(e, key, info, m, n, BUCKET_SIZE, x) <==> Unfound(e, key, info, m, n + 1, 0, x) {}
  }

  lemma TriedEnd(e: Env, key: int, info: map<Nid, Info>, m: map<Slot, Nid>, left: set<Nid>)
    requires forall s :: s in m ==> InTried(s)
    requires TriedSoFar(e, key, info, m, left, TRIED_BUCKETS, 0)
    ensures left == {} <==> TriedPlaced(e, key, info, m)
  {
    InhabitedInts(left);
    forall id ensures id in left <==> id in info && Unfound(e, key, info, m, TRIED_BUCKETS, 0, id) {}
    forall id | id in info
      ensures Unfound(e, key, info, m, TRIED_BUCKETS, 0, id) <==>
        info[id].inTried && !(TriedSlot(e, key, info[id].service) in m && m[TriedSlot(e, key, info[id].service)] == id)
    {
      assert Before(TriedSlot(e, key, info[id].service), TRIED_BUCKETS, 0);
    }
  }

  method CheckTriedTable(e: Env, key: int, info: map<Nid, Info>, t: array2<Nid>, tried: set<Nid>)
    returns (code: int, left: set<Nid>)
    requires t.Length0 == TRIED_BUCKETS && t.Length1 == BUCKET_SIZE
    requires tried == Everyone(e, info, {}, true)
    ensures code != 0 ==> !TriedPlaced(e, key, info, Occupied(t))
    ensures code == 0 ==> (left == {} <==> TriedPlaced(e, key, info, Occupied(t)))
  {
    hide TriedSoFar, Everyone;
    left := tried;
    ghost var m := Occupied(t);
    TriedStart(e, key, info, m);
    for n := 0 to TRIED_BUCKETS
      invariant TriedSoFar(e, key, info, m, left, n, 0)
    {
      for i := 0 to BUCKET_SIZE
        invariant TriedSoFar(e, key, info, m, left, n, i)
      {
        ghost var s := Slot(n, i);
        TriedNext(e, key, info, m, left, s);
        if t[n, i] != NOBODY {
          assert s in m && m[s] == t[n, i];
          if t[n, i] !in left { return -11, left; }
          if t[n, i] !in info || TriedBucket(e, key, info[t[n, i]].service) != n { return -17, left; }
          if BucketPos(e, key, false, n, info[t[n, i]].service) != i { return -18, left; }
          assert HoldsTried(e, key, info, s, m[s]) by { LeftAreTried(e, key, info, m, left, n, i, m[s]); }
          left := left - {t[n, i]};
        } else {
          assert s !in m;
        }
      }
      TriedRow(e, key, info, m, left, n);
    }
    TriedEnd(e, key, info, m, left);
    code := 0;
  }

  lemma LeftAreTried(e: Env, key: int, info: map<Nid, Info>, m: map<Slot, Nid>, left: set<Nid>, n: int, i: int, id: Nid)
    requires TriedSoFar(e, key, info, m, left, n, i) && id in left
    ensures id in info && info[id].inTried
  {
    assert Unfound(e, key, info, m, n, i, id);
  }

  // ----- The new table -----

  /** The slots the row-by-row scan has passed. */
  ghost function Passed(m: map<Slot, Nid>, n: int, i: int): map<Slot, Nid> {
    map s | s in m && Before(s, n, i) :: m[s]
  }

  /** How many of an entry's references the scan has yet to meet. */
  ghost function Owed(info: map<Nid, Info>, m: map<Slot, Nid>, n: int, i: int, id: Nid): int
    requires id in info
  {
    info[id].refCount - |SlotsOf(Passed(m, n, i), id)|
  }

  /** Every slot passed holds a new entry at its place; `refs` are the references not met yet. */
  ghost predicate NewSoFar(e: Env, key: int, info: map<Nid, Info>, m: map<Slot, Nid>, refs: map<Nid, int>, n: int, i: int) {
    && (forall s :: s in m && Before(s, n, i) ==> HoldsNew(e, key, info, s, m[s]))
    && (forall id :: id in refs ==> id in info && !info[id].inTried && refs[id] == Owed(info, m, n, i, id) > 0)
    && (forall id :: id in info && !info[id].inTried && id !in refs ==> Owed(info, m, n, i, id) == 0)
  }

  lemma NewStart(e: Env, key: int, info: map<Nid, Info>, m: map<Slot, Nid>, refs: map<Nid, int>)
    requires forall s :: s in m ==> InNew(s)
    requires refs.Keys == Everyone(e, info, {}, false)
    requires forall id :: id in refs ==> refs[id] == info[id].refCount > 0
    ensures NewSoFar(e, key, info, m, refs, 0, 0)
  {
    assert Passed(m, 0, 0) == map[];
    forall id ensures SlotsOf(Passed(m, 0, 0), id) == {} {}
  }

  lemma PassedNext(m: map<Slot, Nid>, s: Slot)
    ensures s !in Passed(m, s.bucket, s.pos)
    ensures Passed(m, s.bucket, s.pos + 1) ==
      if s in m then Passed(m, s.bucket, s.pos)[s := m[s]] else Passed(m, s.bucket, s.pos)
  {
  }

  lemma PassedCount(m: map<Slot, Nid>, s: Slot, id: Nid)
    ensures |SlotsOf(Passed(m, s.bucket, s.pos + 1), id)| ==
      |SlotsOf(Passed(m, s.bucket, s.pos), id)| + (if s in m && m[s] == id then 1 else 0)
  {
    PassedNext(m, s);
    if s in m {
      SlotsAdded(Passed(m, s.bucket, s.pos), s, m[s]);
    }
  }

  lemma PassedFewer(m: map<Slot, Nid>, n: int, i: int, id: Nid)
    ensures |SlotsOf(Passed(m, n, i), id)| <= |SlotsOf(m, id)|
  {
    var x, y := SlotsOf(Passed(m, n, i), id), SlotsOf(m, id);
    assert y == x + (y - x);
  }

  /** A slot that holds a new entry at its place either is owed to that entry or shows too many references. */
  lemma NewNext(e: Env, key: int, info: map<Nid, Info>, m: map<Slot, Nid>, refs: map<Nid, int>, s: Slot)
    requires NewSoFar(e, key, info, m, refs, s.bucket, s.pos)
    ensures s !in m ==> NewSoFar(e, key, info, m, refs, s.bucket, s.pos + 1)
    ensures s in m && HoldsNew(e, key, info, s, m[s]) && m[s] !in refs ==>
      info[m[s]].refCount < |SlotsOf(m, m[s])|
    ensures s in m && HoldsNew(e, key, info, s, m[s]) && m[s] in refs ==>
      NewSoFar(e, key, info, m, if refs[m[s]] == 1 then refs - {m[s]} else refs[m[s] := refs[m[s]] - 1], s.bucket, s.pos + 1)
  {
    hide SlotsOf, Passed;
    forall id ensures |SlotsOf(Passed(m, s.bucket, s.pos + 1), id)| ==
      |SlotsOf(Passed(m, s.bucket, s.pos), id)| + (if s in m && m[s] == id then 1 else 0)
    {
      PassedCount(m, s, id);
    }
    if s in m && HoldsNew(e, key, info, s, m[s]) {
      var id := m[s];
      PassedFewer(m, s.bucket, s.pos + 1, id);
      assert id !in refs ==> Owed(info, m, s.bucket, s.pos, id) == 0;
      forall x | x in m && Before(x, s.bucket, s.pos + 1) ensures HoldsNew(e, key, info, x, m[x]) {
        if x != s { assert Before(x, s.bucket, s.pos); }
      }
    }
  }

  lemma NewRow(e: Env, key: int, info: map<Nid, Info>, m: map<Slot, Nid>, refs: map<Nid, int>, n: int)
    requires forall s :: s in m ==> InNew(s)
    requires NewSoFar(e, key, info, m, refs, n, BUCKET_SIZE)
    ensures NewSoFar(e, key, info, m, refs, n + 1, 0)
  {
    assert Passed(m, n, BUCKET_SIZE) == Passed(m, n + 1, 0);
    hide Passed;
  }

  lemma NewEnd(e: Env, b: Book, refs: map<Nid, int>)
    requires forall s :: s in b.untried ==> InNew(s)
    requires NewSoFar(e, b.key, b.info, b.untried, refs, NEW_BUCKETS, 0)
    ensures NewPlaced(e, b.key, b.info, b.untried)
    ensures refs == map[] <==> RefsOk(b)
  {
    assert Passed(b.untried, NEW_BUCKETS, 0) == b.untried;
    hide Passed, SlotsOf;
    InhabitedInts(refs.Keys);
    forall id | id in b.info && !b.info[id].inTried
      ensures id in refs <==> b.info[id].refCount != |SlotsOf(b.untried, id)|
    {
      assert Owed(b.info, b.untried, NEW_BUCKETS, 0, id) == b.info[id].refCount - |SlotsOf(b.untried, id)|;
    }
  }

  method CheckNewTable(e: Env, key: int, info: map<Nid, Info>, t: array2<Nid>, counted: map<Nid, int>, ghost b: Book)
    returns (code: int, refs: map<Nid, int>)
    requires t.Length0 == NEW_BUCKETS && t.Length1 == BUCKET_SIZE
    requires b.key == key && b.info == info && b.untried == Occupied(t)
    requires counted.Keys == Everyone(e, info, {}, false)
    requires forall id :: id in counted ==> counted[id] == info[id].refCount > 0
    ensures code != 0 ==> !(NewPlaced(e, key, info, b.untried) && RefsOk(b))
    ensures code == 0 ==> NewPlaced(e, key, info, b.untried) && (refs == map[] <==> RefsOk(b))
  {
    hide NewSoFar, Everyone, RefsOk, SlotsOf;
    refs := counted;
    ghost var m := b.untried;
    NewStart(e, key, info, m, refs);
    for n := 0 to NEW_BUCKETS
      invariant NewSoFar(e, key, info, m, refs, n, 0)
    {
      for i := 0 to BUCKET_SIZE
        invariant NewSoFar(e, key, info, m, refs, n, i)
      {
        ghost var s := Slot(n, i);
        NewNext(e, key, info, m, refs, s);
        if t[n, i] != NOBODY {
          assert s in m && m[s] == t[n, i];
          var id := t[n, i];
          if id !in refs {
            TooMany(e, b, s);
            return -12, refs;
          }
          if id !in info || BucketPos(e, key, true, n, info[id].service) != i { return -19, refs; }
          assert HoldsNew(e, key, info, s, m[s]) by { OwedAreNew(e, key, info, m, refs, n, i, id); }
          assert refs[id := refs[id] - 1] - {id} == refs - {id};
          refs := refs[id := refs[id] - 1];
          if refs[id] == 0 { refs := refs - {id}; }
        } else {
          assert s !in m;
        }
      }
      NewRow(e, key, info, m, refs, n);
    }
    NewEnd(e, b, refs);
    code := 0;
  }

  lemma OwedAreNew(e: Env, key: int, info: map<Nid, Info>, m: map<Slot, Nid>, refs: map<Nid, int>, n: int, i: int, id: Nid)
    requires NewSoFar(e, key, info, m, refs, n, i) && id in refs
    ensures id in info && !info[id].inTried && refs[id] > 0
  {
  }

  lemma TooMany(e: Env, b: Book, s: Slot)
    requires s in b.untried
    requires HoldsNew(e, b.key, b.info, s, b.untried[s]) ==> b.info[b.untried[s]].refCount < |SlotsOf(b.untried, b.untried[s])|
    ensures !(NewPlaced(e, b.key, b.info, b.untried) && RefsOk(b))
  {
    hide SlotsOf;
    var id := b.untried[s];
    if NewPlaced(e, b.key, b.info, b.untried) {
      assert HoldsNew(e, b.key, b.info, s, id);
    }
  }

  // ----- The whole check -----

  method CheckCounts(e: Env, counts: map<Network, Tally>, local: map<Network, Tally>, ghost b: Book) returns (code: int)
    requires b.counts == counts && local.Keys == Nets(e, b.info)
    requires forall n :: TalliedOn(e, b.info, {}, TallyOf(local, n), n)
    ensures code == 0 <==> CountsOk(e, b)
  {
    hide TalliedOn, Nets, TallyOf;
    assert |local.Keys| == |local|;
    if |counts| < |local| { return -20; }
    var rest := counts.Keys;
    while rest != {}
      invariant rest <= counts.Keys
      invariant forall n :: n in counts && n !in rest ==> TalliedOn(e, b.info, {}, counts[n], n)
      decreases |rest|
    {
      Inhabited(rest);
      var n :| n in rest;
      TallyUnique(e, b.info, TallyOf(local, n), counts[n], n);
      if TallyOf(local, n).untried != counts[n].untried || TallyOf(local, n).tried != counts[n].tried {
        return -21;
      }
      rest := rest - {n};
    }
    code := 0;
  }

  lemma TallyUnique(e: Env, info: map<Nid, Info>, t: Tally, u: Tally, n: Network)
    requires TalliedOn(e, info, {}, t, n)
    ensures TalliedOn(e, info, {}, u, n) <==> t == u
  {
  }

  /** `CheckAddrman`. Its result is 0 exactly on the states `Checked` describes. */
  method CheckAddrman(m: AddrMan) returns (code: int)
    requires m.Shaped()
    ensures code == 0 <==> Checked(m.env, m.Snap())
  {
    ghost var b := m.Snap();
    hide EntriesOk, RefsOk, CountsOk, TriedPlaced, NewPlaced, Occupied, Nets, TalliedOn;
    if |m.random| != m.nTried + m.nNew { return -7; }
    var tried, refs, local;
    code, tried, refs, local := CheckEntries(m.env, m.info, m.ids, m.random, b);
    if code != 0 { return; }
    if |tried| != m.nTried { return -9; }
    assert |refs.Keys| == |refs|;
    if |refs| != m.nNew { return -10; }
    RefsPositive(m.env, b, refs);
    code, tried := CheckTriedTable(m.env, m.key, m.info, m.triedTable, tried);
    if code != 0 { return; }
    code, refs := CheckNewTable(m.env, m.key, m.info, m.newTable, refs, b);
    if code != 0 { return; }
    if |tried| != 0 { return -13; }
    if |refs| != 0 { return -15; }
    if m.key == 0 { return -16; }
    code := CheckCounts(m.env, m.counts, local, b);
  }

  lemma RefsPositive(e: Env, b: Book, refs: map<Nid, int>)
    requires EntriesOk(b) && refs.Keys == Everyone(e, b.info, {}, false)
    requires forall id :: id in refs ==> refs[id] == b.info[id].refCount
    ensures forall id :: id in refs ==> refs[id] > 0
  {
    forall id | id in refs ensures refs[id] > 0 { assert EntryOk(b, id); }
  }
}
