/**
 What the read-only address-manager queries look for.
 */
module AddrQueries {
  import opened Basics
  import opened Radix
  import opened AddrTypes
  import opened AddrOps
  import opened AddrInv
  import opened Sets

  /** The entries of one table that belong to the requested networks; no request means all. */
  ghost function Wanted(e: Env, b: Book, networks: set<Network>, tried: bool): set<Nid> {
    set id | id in b.info && b.info[id].inTried == tried &&
      (networks == {} || e.network(b.info[id].service) in networks)
  }

  ghost function Among(e: Env, b: Book, networks: set<Network>, tried: bool): set<Nid> {
    set id | id in b.info && b.info[id].inTried == tried && e.network(b.info[id].service) in networks
  }

  lemma WantedAll(e: Env, b: Book)
    requires Core(e, b, {}, {})
    ensures b.nNew == |Wanted(e, b, {}, false)| && b.nTried == |Wanted(e, b, {}, true)|
  {
    assert Wanted(e, b, {}, false) == Everyone(e, b.info, {}, false);
    assert Wanted(e, b, {}, true) == Everyone(e, b.info, {}, true);
  }

  lemma WantedIsAmong(e: Env, b: Book, networks: set<Network>)
    requires networks != {}
    ensures Wanted(e, b, networks, false) == Among(e, b, networks, false)
    ensures Wanted(e, b, networks, true) == Among(e, b, networks, true)
  {
  }

  lemma AmongNone(e: Env, b: Book)
    ensures Among(e, b, {}, false) == {} && Among(e, b, {}, true) == {}
  {
  }

  lemma AmongJoin(e: Env, b: Book, done: set<Network>, n: Network, tried: bool)
    requires n !in done
    ensures var more := Locals(e, b.info, {}, if tried then AsTried(n) else AsNew(n));
      |Among(e, b, done + {n}, tried)| == |Among(e, b, done, tried)| + |more|
  {
    var more := Locals(e, b.info, {}, if tried then AsTried(n) else AsNew(n));
    var before, after := Among(e, b, done, tried), Among(e, b, done + {n}, tried);
    assert before !! more;
    assert after == before + more;
    hide Locals, Among;
    assert |before + more| == |before| + |more|;
  }

  lemma AmongMore(e: Env, b: Book, done: set<Network>, n: Network)
    requires Core(e, b, {}, {}) && n !in done
    ensures |Among(e, b, done + {n}, false)| == |Among(e, b, done, false)| + TallyOf(b.counts, n).untried
    ensures |Among(e, b, done + {n}, true)| == |Among(e, b, done, true)| + TallyOf(b.counts, n).tried
  {
    assert TalliedOn(e, b.info, {}, TallyOf(b.counts, n), n);
    AmongJoin(e, b, done, n, false);
    AmongJoin(e, b, done, n, true);
  }

  function Table(b: Book, tried: bool): map<Slot, Nid> {
    if tried then b.tried else b.untried
  }

  function BucketCount(tried: bool): int {
    if tried then TRIED_BUCKETS else NEW_BUCKETS
  }

  /** Slot `s` of a table holds an entry of a requested network. */
  ghost predicate Offer(e: Env, b: Book, networks: set<Network>, tried: bool, s: Slot) {
    s in Table(b, tried) && Table(b, tried)[s] in Wanted(e, b, networks, tried)
  }

  ghost predicate Offers(e: Env, b: Book, networks: set<Network>, tried: bool, bucket: int) {
    exists pos :: 0 <= pos < BUCKET_SIZE && Offer(e, b, networks, tried, Slot(bucket, pos))
  }

  /** An occupied slot holds an entry on its own side. */
  lemma OnItsSide(e: Env, b: Book, networks: set<Network>, tried: bool, s: Slot)
    requires Core(e, b, {}, {}) && s in Table(b, tried)
    ensures Table(b, tried)[s] in b.info
    ensures Offer(e, b, networks, tried, s) <==>
      networks == {} || e.network(b.info[Table(b, tried)[s]].service) in networks
  {
    var id := Table(b, tried)[s];
    if tried { assert HoldsTried(e, b.key, b.info, s, id); } else { assert HoldsNew(e, b.key, b.info, s, id); }
  }

  /** While a wanted entry exists, some bucket offers one: the retry loop always has a way out. */
  lemma WayOut(e: Env, b: Book, networks: set<Network>, tried: bool)
    requires Core(e, b, {}, {}) && Wanted(e, b, networks, tried) != {}
    ensures exists bucket :: 0 <= bucket < BucketCount(tried) && Offers(e, b, networks, tried, bucket)
  {
    var id := AnyWanted(e, b, networks, tried);
    var s: Slot;
    if tried {
      s := TriedSlot(e, b.key, b.info[id].service);
      assert s in b.tried && b.tried[s] == id;
    } else {
      s := SlotOf(e, b, id);
      assert HoldsNew(e, b.key, b.info, s, id);
    }
    assert Offer(e, b, networks, tried, Slot(s.bucket, s.pos));
    assert Offers(e, b, networks, tried, s.bucket);
  }

  lemma AnyWanted(e: Env, b: Book, networks: set<Network>, tried: bool) returns (id: Nid)
    requires Wanted(e, b, networks, tried) != {}
    ensures id in Wanted(e, b, networks, tried)
  {
    var w := Wanted(e, b, networks, tried);
    InhabitedInts(w);
    id :| id in w;
  }

  lemma SlotOf(e: Env, b: Book, id: Nid) returns (s: Slot)
    requires Core(e, b, {}, {}) && id in b.info && !b.info[id].inTried
    ensures s in b.untried && b.untried[s] == id
  {
    assert b.info[id].refCount == |SlotsOf(b.untried, id)| > 0;
    var slots := SlotsOf(b.untried, id);
    Inhabited(slots);
    s :| s in slots;
  }

  /** The random part of one round of `Select_`: a bucket, a starting position, and whether the
      entry found passes the chance test. */
  datatype Pick = Pick(bucket: nat, start: nat, accept: bool)

  /** The i-th slot of a bucket, going around from `start`. */
  function Around(bucket: int, start: int, i: int): Slot {
    Slot(bucket, (start + i) % BUCKET_SIZE)
  }

  /** The entry at the first position of a bucket, going around from `start`, that holds a wanted one. */
  ghost predicate FirstFrom(e: Env, b: Book, networks: set<Network>, tried: bool, bucket: int, start: int, id: Nid) {
    exists i :: 0 <= i < BUCKET_SIZE && FirstAt(e, b, networks, tried, bucket, start, i)
      && Table(b, tried)[Around(bucket, start, i)] == id
  }

  ghost predicate FirstAt(e: Env, b: Book, networks: set<Network>, tried: bool, bucket: int, start: int, i: int) {
    && Offer(e, b, networks, tried, Around(bucket, start, i))
    && forall j :: 0 <= j < i ==> !Offer(e, b, networks, tried, Around(bucket, start, j))
  }

  lemma Wraps(start: int, j: int)
    requires 0 <= start < BUCKET_SIZE && 0 <= j < BUCKET_SIZE
    ensures var pos := (start + j) % BUCKET_SIZE; 0 <= pos < BUCKET_SIZE && (pos - start) % BUCKET_SIZE == j
  {
    var pos := (start + j) % BUCKET_SIZE;
    if start + j < BUCKET_SIZE {
      assert pos == start + j;
    } else {
      assert pos == start + j - BUCKET_SIZE;
    }
  }

  lemma AroundIs(bucket: int, start: int, i: int)
    ensures Around(bucket, start, i) == Slot(bucket, (start + i) % BUCKET_SIZE)
  {
  }

  lemma FirstIs(e: Env, b: Book, networks: set<Network>, tried: bool, bucket: int, start: int, i: int)
    requires 0 <= i < BUCKET_SIZE && 0 <= start < BUCKET_SIZE
    requires Offer(e, b, networks, tried, Around(bucket, start, i))
    requires forall pos :: 0 <= pos < BUCKET_SIZE && (pos - start) % BUCKET_SIZE < i ==>
      !Offer(e, b, networks, tried, Slot(bucket, pos))
    ensures FirstFrom(e, b, networks, tried, bucket, start, Table(b, tried)[Around(bucket, start, i)])
  {
    hide Offer, Around, Table;
    forall j | 0 <= j < i
      ensures !Offer(e, b, networks, tried, Around(bucket, start, j))
    {
      Wraps(start, j);
      AroundIs(bucket, start, j);
    }
    assert FirstAt(e, b, networks, tried, bucket, start, i);
  }

  lemma FirstIsWanted(e: Env, b: Book, networks: set<Network>, tried: bool, bucket: int, start: int, id: Nid)
    requires FirstFrom(e, b, networks, tried, bucket, start, id)
    ensures id in Wanted(e, b, networks, tried)
  {
  }

  /** The table `Select_` looks into: the one with wanted entries, or by the coin. */
  ghost predicate Settles(e: Env, b: Book, newOnly: bool, networks: set<Network>, coin: bool) {
    && !newOnly && Wanted(e, b, networks, true) != {}
    && (Wanted(e, b, networks, false) == {} || coin)
  }

  /** The k-th round ends the search: it is the first accepted one on a bucket that offers anything, and it
      finds the first wanted entry of that bucket. */
  ghost predicate EndsAt(e: Env, b: Book, networks: set<Network>, tried: bool, picks: seq<Pick>, k: nat, id: Nid)
    requires k < |picks|
  {
    && picks[k].accept
    && FirstFrom(e, b, networks, tried, picks[k].bucket % BucketCount(tried), picks[k].start % BUCKET_SIZE, id)
    && forall j :: 0 <= j < k && picks[j].accept ==>
         !Offers(e, b, networks, tried, picks[j].bucket % BucketCount(tried))
  }

  /** How many addresses `GetAddr_` may return. */
  function Quota(size: nat, maxAddresses: nat, maxPct: nat): nat {
    var pct := if maxPct < 100 then maxPct else 100;
    var n := if maxPct != 0 then pct * size / 100 else size;
    if maxAddresses != 0 && maxAddresses < n then maxAddresses else n
  }

  /** The quota is the largest number within the book, the given maximum and the given percentage. */
  lemma QuotaIs(size: nat, maxAddresses: nat, maxPct: nat, n: nat)
    ensures n <= Quota(size, maxAddresses, maxPct) <==>
      && n <= size && (maxAddresses != 0 ==> n <= maxAddresses) && (maxPct != 0 ==> 100 * n <= maxPct * size)
  {
    var pct := if maxPct < 100 then maxPct else 100;
    PercentIs(pct * size, n);
    MulLe(pct, maxPct, size);
    if maxPct >= 100 {
      assert pct * size == 100 * size;
    }
  }

  lemma PercentIs(x: nat, n: nat)
    ensures n <= x / 100 <==> 100 * n <= x
  {
  }

  predicate Eligible(e: Env, i: Info, network: Option<Network>, filtered: bool, now: int) {
    && (network.Some? ==> e.netClass(i.service) == network.value)
    && !(Terrible(i, now) && filtered)
  }

  /** Filters only narrow: without them everybody is eligible, and each one excludes exactly what it names. */
  lemma EligibleIs(e: Env, i: Info, network: Option<Network>, now: int)
    ensures Eligible(e, i, None, false, now)
    ensures Eligible(e, i, None, true, now) <==> !Terrible(i, now)
    ensures Eligible(e, i, network, false, now) <==> network == None || network == Some(e.netClass(i.service))
    ensures Eligible(e, i, network, true, now) <==> Eligible(e, i, network, false, now) && Eligible(e, i, None, true, now)
  {
  }

  lemma EligibleMoved(e: Env, i: Info, j: Info, network: Option<Network>, filtered: bool, now: int)
    requires Moved(i, j)
    ensures Eligible(e, i, network, filtered, now) == Eligible(e, j, network, filtered, now)
    ensures AddressOf(i) == AddressOf(j)
  {
  }

  function AddressOf(i: Info): Address {
    Address(i.service, i.flags, i.time)
  }
}
