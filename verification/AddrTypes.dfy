/**
 The address manager's data: constants, entries and the whole state as one value.

 `Book` is the content of an `AddrManImpl` object with its two tables read as
 partial maps from slots to ids (an empty slot holds -1 in the table and is
 absent from the map). The table the program calls "new" is `untried` here.
 */
module AddrTypes {

  const NEW_BUCKETS := 1024
  const TRIED_BUCKETS := 256
  const BUCKET_SIZE := 64
  const MAX_REFS := 8
  const MAX_COLLISIONS := 10

  // Durations in seconds.
  const MINUTE := 60
  const HOUR := 3600
  const DAY := 86400
  const HORIZON := 30 * DAY
  const RETRIES := 3
  const MAX_FAILURES := 10
  const MIN_FAIL := 7 * DAY
  const REPLACEMENT := 4 * HOUR
  const TEST_WINDOW := 40 * MINUTE

  type Nid = int
  const NOBODY: Nid := -1

  datatype Network = Unroutable | Ipv4 | Ipv6 | Onion | I2p | Cjdns | Internal
  datatype NetAddr = NetAddr(net: Network, bytes: seq<int>)
  datatype Service = Service(host: NetAddr, port: int)
  /** A `CAddress`: a service with its advertised flags and a timestamp. */
  datatype Address = Address(service: Service, flags: set<int>, time: int)

  /** An `AddrInfo`. */
  datatype Info = Info(
    service: Service, flags: set<int>, time: int,
    lastTry: int, lastCount: int, source: NetAddr, lastSuccess: int,
    attempts: int, refCount: int, inTried: bool, randomPos: int)

  datatype Slot = Slot(bucket: int, pos: int)
  datatype Tally = Tally(untried: int, tried: int)

  /** Everything that does not change while the program runs: the keyed hashes behind the
      bucket choice (already combined with the netgroup map) and the address predicates. */
  datatype Env = Env(
    triedHash: (int, Service) -> nat,
    newHash: (int, Service, NetAddr) -> nat,
    posHash: (int, bool, int, Service) -> nat,
    network: Service -> Network,
    netClass: Service -> Network,
    valid: Service -> bool,
    routable: Service -> bool)

  /** `IsRoutable` is `IsValid` and more. */
  ghost predicate Sane(e: Env) {
    forall s :: e.routable(s) ==> e.valid(s)
  }

  function TriedBucket(e: Env, key: int, s: Service): (r: int)
    ensures 0 <= r < TRIED_BUCKETS
  {
    e.triedHash(key, s) % TRIED_BUCKETS
  }

  function NewBucket(e: Env, key: int, s: Service, source: NetAddr): (r: int)
    ensures 0 <= r < NEW_BUCKETS
  {
    e.newHash(key, s, source) % NEW_BUCKETS
  }

  function BucketPos(e: Env, key: int, untried: bool, bucket: int, s: Service): (r: int)
    ensures 0 <= r < BUCKET_SIZE
  {
    e.posHash(key, untried, bucket, s) % BUCKET_SIZE
  }

  function TriedSlot(e: Env, key: int, s: Service): (r: Slot)
    ensures InTried(r)
  {
    var bucket := TriedBucket(e, key, s);
    Slot(bucket, BucketPos(e, key, false, bucket, s))
  }

  function NewSlot(e: Env, key: int, s: Service, source: NetAddr): (r: Slot)
    ensures InNew(r)
  {
    var bucket := NewBucket(e, key, s, source);
    Slot(bucket, BucketPos(e, key, true, bucket, s))
  }

  predicate InTried(s: Slot) {
    0 <= s.bucket < TRIED_BUCKETS && 0 <= s.pos < BUCKET_SIZE
  }

  predicate InNew(s: Slot) {
    0 <= s.bucket < NEW_BUCKETS && 0 <= s.pos < BUCKET_SIZE
  }

  datatype Book = Book(
    key: int,
    idCount: int,
    info: map<Nid, Info>,
    ids: map<Service, Nid>,
    random: seq<Nid>,
    untried: map<Slot, Nid>,
    tried: map<Slot, Nid>,
    nNew: int,
    nTried: int,
    counts: map<Network, Tally>,
    collisions: set<Nid>,
    lastGood: int)

  function Empty(key: int): Book {
    Book(key, 0, map[], map[], [], map[], map[], 0, 0, map[], {}, 1)
  }

  /** `IsTerrible`. */
  predicate Terrible(i: Info, now: int) {
    if now - i.lastTry <= MINUTE then false
    else
      || i.time > now + 10 * MINUTE
      || now - i.time > HORIZON
      || (i.lastSuccess == 0 && i.attempts >= RETRIES)
      || (now - i.lastSuccess > MIN_FAIL && i.attempts >= MAX_FAILURES)
  }

  function TallyOf(counts: map<Network, Tally>, n: Network): Tally {
    if n in counts then counts[n] else Tally(0, 0)
  }

  /** `m_network_counts[n]` with both counters moved; the map creates missing entries. */
  function Bump(counts: map<Network, Tally>, n: Network, untried: int, tried: int): map<Network, Tally> {
    counts[n := Tally(TallyOf(counts, n).untried + untried, TallyOf(counts, n).tried + tried)]
  }
}
