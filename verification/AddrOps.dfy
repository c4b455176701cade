/**
 What each address-manager operation does to a `Book`. Clock readings and random
 draws are arguments. Where the program asserts, the function has a guard that
 leaves the book alone; class `AddrMan` proves the guards never fail.
 */
module AddrOps {
  import opened Basics
  import opened Radix
  import opened AddrTypes

  function SetInfo(b: Book, id: Nid, i: Info): Book {
    b.(info := b.info[id := i])
  }

  function Fresh(a: Address, source: NetAddr, pos: int): Info {
    Info(a.service, a.flags, a.time, 0, 0, source, 0, 0, 0, false, pos)
  }

  function Create(e: Env, b: Book, a: Address, source: NetAddr): Book {
    b.(idCount := b.idCount + 1,
       info := b.info[b.idCount := Fresh(a, source, |b.random|)],
       ids := b.ids[a.service := b.idCount],
       random := b.random + [b.idCount],
       nNew := b.nNew + 1,
       counts := Bump(b.counts, e.network(a.service), 1, 0))
  }

  predicate CanSwap(b: Book, i: int, j: int) {
    0 <= i < |b.random| && 0 <= j < |b.random| && b.random[i] in b.info && b.random[j] in b.info
  }

  function SwapRandom(b: Book, i: int, j: int): Book {
    if i == j || !CanSwap(b, i, j) then b
    else
      var x, y := b.random[i], b.random[j];
      var info := b.info[x := b.info[x].(randomPos := j)];
      b.(info := info[y := info[y].(randomPos := i)],
         random := b.random[i := y][j := x])
  }

  function Delete(e: Env, b: Book, id: Nid): Book {
    if id !in b.info || b.random == [] then b
    else
      var c := SwapRandom(b, b.info[id].randomPos, |b.random| - 1);
      c.(random := c.random[..|c.random| - 1],
         ids := c.ids - {b.info[id].service},
         info := c.info - {id},
         nNew := c.nNew - 1,
         counts := Bump(c.counts, e.network(b.info[id].service), -1, 0))
  }

  function Unref(b: Book, s: Slot): Book
    requires s in b.untried && b.untried[s] in b.info
  {
    var id := b.untried[s];
    b.(untried := b.untried - {s}, info := b.info[id := b.info[id].(refCount := b.info[id].refCount - 1)])
  }

  function ClearNew(e: Env, b: Book, s: Slot): Book {
    if s !in b.untried || b.untried[s] !in b.info then b
    else
      var c := Unref(b, s);
      if c.info[b.untried[s]].refCount == 0 then Delete(e, c, b.untried[s]) else c
  }

  /** Enter `id` at a free slot of the new table. */
  function AddRef(b: Book, id: Nid, s: Slot): Book
    requires id in b.info
  {
    b.(untried := b.untried[s := id], info := b.info[id := b.info[id].(refCount := b.info[id].refCount + 1)])
  }

  ghost function SlotsOf(t: map<Slot, Nid>, id: Nid): set<Slot> {
    set s | s in t && t[s] == id
  }

  /** Take `id` out of every new bucket it is in. */
  ghost function Sweep(e: Env, b: Book, id: Nid): Book
    requires id in b.info
  {
    b.(untried := b.untried - SlotsOf(b.untried, id),
       info := b.info[id := b.info[id].(refCount := 0)],
       nNew := b.nNew - 1,
       counts := Bump(b.counts, e.network(b.info[id].service), -1, 0))
  }

  /** Take the entry at a tried slot out of the tried table. */
  function Untry(e: Env, b: Book, s: Slot): Book
    requires s in b.tried && b.tried[s] in b.info
  {
    var prior := b.tried[s];
    b.(info := b.info[prior := b.info[prior].(inTried := false)],
       tried := b.tried - {s},
       nTried := b.nTried - 1,
       counts := Bump(b.counts, e.network(b.info[prior].service), 0, -1))
  }

  /** Enter an entry that is in neither table into the new table, with one reference. */
  function Reenter(e: Env, b: Book, id: Nid, s: Slot): Book
    requires id in b.info
  {
    b.(info := b.info[id := b.info[id].(refCount := 1)],
       untried := b.untried[s := id],
       nNew := b.nNew + 1,
       counts := Bump(b.counts, e.network(b.info[id].service), 1, 0))
  }

  /** The occupant of a tried slot moves to the new table, at its own source's bucket. */
  function Evict(e: Env, b: Book, s: Slot): Book
    requires s in b.tried && b.tried[s] in b.info
  {
    var prior := b.tried[s];
    var u := NewSlot(e, b.key, b.info[prior].service, b.info[prior].source);
    var c := ClearNew(e, Untry(e, b, s), u);
    if prior in c.info then Reenter(e, c, prior, u) else c
  }

  function EnterTried(e: Env, b: Book, id: Nid, s: Slot): Book
    requires id in b.info
  {
    b.(tried := b.tried[s := id],
       nTried := b.nTried + 1,
       info := b.info[id := b.info[id].(inTried := true)],
       counts := Bump(b.counts, e.network(b.info[id].service), 0, 1))
  }

  ghost function MakeTried(e: Env, b: Book, id: Nid): Book
    requires id in b.info
  {
    var swept := Sweep(e, b, id);
    var s := TriedSlot(e, b.key, b.info[id].service);
    var c := if s in swept.tried && swept.tried[s] in swept.info then Evict(e, swept, s) else swept;
    if id in c.info then EnterTried(e, c, id, s) else c
  }

  /** Clock readings and the random draw of one `AddSingle`. */
  datatype Draw = Draw(online: int, terrible: int, dice: nat)

  function Max(x: int, y: int): int { if x < y then y else x }

  /** The entry's timestamp and services after a repeated announcement. */
  function Refresh(i: Info, a: Address, penalty: int, now: int): Info {
    var interval := if now - a.time < DAY then HOUR else DAY;
    var time := if i.time < a.time - interval - penalty then Max(0, a.time - penalty) else i.time;
    i.(time := time, flags := i.flags + a.flags)
  }

  /** Whether a repeated announcement goes on to look for another new bucket. */
  predicate Worthwhile(i: Info, a: Address, dice: nat) {
    && a.time > i.time
    && !i.inTried
    && i.refCount != MAX_REFS
    && (i.refCount > 0 ==> dice % Pow2(i.refCount) == 0)
  }

  /** Put entry `id` into the bucket its source calls for, if that slot can be had. */
  function Place(e: Env, b: Book, id: Nid, source: NetAddr, now: int): (Book, bool)
    requires id in b.info
  {
    var s := NewSlot(e, b.key, b.info[id].service, source);
    if s in b.untried && b.untried[s] == id then (b, false)
    else if s !in b.untried || Displaceable(b, b.untried[s], b.info[id].refCount, now) then
      var c := ClearNew(e, b, s);
      (if id in c.info then AddRef(c, id, s) else c, true)
    else
      (if b.info[id].refCount == 0 then Delete(e, b, id) else b, false)
  }

  predicate Displaceable(b: Book, id: Nid, refs: int, now: int) {
    id in b.info && (Terrible(b.info[id], now) || (b.info[id].refCount > 1 && refs == 0))
  }

  function AddSingle(e: Env, b: Book, a: Address, source: NetAddr, penalty: int, d: Draw): (Book, bool) {
    var penalty' := if a.service.host == source then 0 else penalty;
    if !e.routable(a.service) then (b, false)
    else if a.service in b.ids && b.ids[a.service] in b.info then
      var id := b.ids[a.service];
      var i := Refresh(b.info[id], a, penalty', d.online);
      var c := SetInfo(b, id, i);
      if Worthwhile(i, a, d.dice) then Place(e, c, id, source, d.terrible) else (c, false)
    else
      var c := Create(e, b, a, source);
      var i := c.info[b.idCount];
      Place(e, SetInfo(c, b.idCount, i.(time := Max(0, i.time - penalty'))), b.idCount, source, d.terrible)
  }

  function Touch(b: Book, id: Nid, time: int): Book
    requires id in b.info
  {
    SetInfo(b, id, b.info[id].(lastSuccess := time, lastTry := time, attempts := 0))
  }

  ghost function MarkGood(e: Env, b: Book, service: Service, test: bool, time: int): (Book, bool) {
    var c := b.(lastGood := time);
    if service !in b.ids || b.ids[service] !in b.info then (c, false)
    else
      var id := b.ids[service];
      var d := Touch(c, id, time);
      if d.info[id].inTried || d.info[id].refCount <= 0 then (d, false)
      else if test && TriedSlot(e, d.key, d.info[id].service) in d.tried then
        (if |d.collisions| < MAX_COLLISIONS then d.(collisions := d.collisions + {id}) else d, false)
      else
        (MakeTried(e, d, id), true)
  }

  function NoteAttempt(b: Book, service: Service, countFailure: bool, time: int): Book {
    if service !in b.ids || b.ids[service] !in b.info then b
    else
      var id := b.ids[service];
      var i := b.info[id].(lastTry := time);
      SetInfo(b, id, if countFailure && i.lastCount < b.lastGood
                     then i.(lastCount := time, attempts := i.attempts + 1) else i)
  }

  function NoteConnected(b: Book, service: Service, time: int): Book {
    if service !in b.ids || b.ids[service] !in b.info then b
    else
      var id := b.ids[service];
      if time - b.info[id].time > 20 * MINUTE then SetInfo(b, id, b.info[id].(time := time)) else b
  }

  function NoteServices(b: Book, service: Service, flags: set<int>): Book {
    if service !in b.ids || b.ids[service] !in b.info then b
    else SetInfo(b, b.ids[service], b.info[b.ids[service]].(flags := flags))
  }

  /** What `ResolveCollisions_` decides about one pending collision. */
  datatype Verdict = Drop | Wait | Replace

  function Judge(e: Env, b: Book, id: Nid, now: int): Verdict {
    if id !in b.info || !e.valid(b.info[id].service) then Drop
    else
      var s := TriedSlot(e, b.key, b.info[id].service);
      if s !in b.tried || b.tried[s] !in b.info then Replace
      else
        var prior := b.info[b.tried[s]];
        if now - prior.lastSuccess < REPLACEMENT then Drop
        else if now - prior.lastTry < REPLACEMENT then
          if now - prior.lastTry > MINUTE then Replace else Wait
        else if now - b.info[id].lastSuccess > TEST_WINDOW then Replace
        else Wait
  }

  /** One round of the loop of `ResolveCollisions_`. */
  ghost function ResolveOne(e: Env, b: Book, id: Nid, now: int): Book {
    if id !in b.collisions then b
    else match Judge(e, b, id, now)
      case Wait => b
      case Drop => b.(collisions := b.collisions - {id})
      case Replace =>
        var c := MarkGood(e, b, b.info[id].service, false, now).0;
        c.(collisions := c.collisions - {id})
  }

  /** `SelectTriedCollision_` forgets the collision it drew when that entry is gone. */
  function ForgetStale(b: Book, id: Nid): Book {
    if id in b.collisions && id !in b.info then b.(collisions := b.collisions - {id}) else b
  }

  /** One atomic step. `Add_` is a run of `Add` steps, `ResolveCollisions_` a run of
      `Resolve` steps in ascending id order and `GetAddr_` a run of `Shuffle` steps. */
  datatype Op =
    | Add(address: Address, source: NetAddr, penalty: int, draw: Draw)
    | Good(service: Service, time: int)
    | Attempt(service: Service, countFailure: bool, time: int)
    | Connected(service: Service, time: int)
    | SetServices(service: Service, flags: set<int>)
    | Resolve(id: Nid, time: int)
    | Forget(id: Nid)
    | Shuffle(i: int, j: int)

  ghost function Step(e: Env, b: Book, op: Op): Book {
    match op
    case Add(a, source, penalty, d) => AddSingle(e, b, a, source, penalty, d).0
    case Good(service, time) => MarkGood(e, b, service, true, time).0
    case Attempt(service, count, time) => NoteAttempt(b, service, count, time)
    case Connected(service, time) => NoteConnected(b, service, time)
    case SetServices(service, flags) => NoteServices(b, service, flags)
    case Resolve(id, time) => ResolveOne(e, b, id, time)
    case Forget(id) => ForgetStale(b, id)
    case Shuffle(i, j) => SwapRandom(b, i, j)
  }

  ghost function Run(e: Env, b: Book, ops: seq<Op>): Book
    decreases |ops|
  {
    if ops == [] then b else Run(e, Step(e, b, ops[0]), ops[1..])
  }
}
