/**
 The download-twice headers synchronisation as a state machine on values.

 A peer sends batches of headers. In PRESYNC the machine keeps one salted bit for every
 `period`-th header; once the chain has enough work it asks for the same headers again
 and, in REDOWNLOAD, checks them against those bits while holding back a look-ahead
 buffer. `Log` records what was accepted and released, for the proofs only.
 */
module HeadersModel {

  type Hash = int

  datatype Header = Header(version: int, prev: Hash, merkle: Hash, time: int, bits: int, nonce: int)
  /** A header without the hash of its predecessor. */
  datatype Compressed = Compressed(version: int, merkle: Hash, time: int, bits: int, nonce: int)

  function Compress(h: Header): Compressed {
    Compressed(h.version, h.merkle, h.time, h.bits, h.nonce)
  }

  /** `GetFullHeader`. */
  function Expand(c: Compressed, prev: Hash): Header {
    Header(c.version, prev, c.merkle, c.time, c.bits, c.nonce)
  }

  const NULL_HEADER := Header(0, 0, 0, 0, 0, 0)

  /** The fixed parameters of one synchronisation: the header hash, the salted commitment bit of a hash, the
      difficulty rule (height, previous bits, bits), the work of a header, and the limits. */
  datatype Chain = Chain(
    hash: Header -> Hash,
    salted: Hash -> bool,
    permitted: (int, int, int) -> bool,
    proof: Header -> nat,
    period: nat,
    offset: nat,
    bufferSize: nat,
    start: Header,
    startHeight: nat,
    startWork: nat,
    minWork: nat,
    maxCommitments: nat)

  datatype Phase = PRESYNC | REDOWNLOAD | FINAL

  datatype Sync = Sync(
    phase: Phase,
    work: nat,
    commitments: seq<bool>,
    last: Header,
    height: int,
    buffer: seq<Compressed>,
    bufferLastHeight: int,
    bufferLastHash: Hash,
    bufferFirstPrev: Hash,
    redWork: nat,
    releaseAll: bool)

  datatype Result = Result(headers: seq<Header>, success: bool, more: bool)

  function Begin(c: Chain): Sync {
    Sync(PRESYNC, c.startWork, [], c.start, c.startHeight, [], 0, 0, 0, 0, false)
  }

  predicate Committed(c: Chain, height: int) {
    c.period > 0 && height % c.period == c.offset
  }

  function Bit(c: Chain, h: Header): bool {
    c.salted(c.hash(h))
  }

  /** `Finalize`. */
  function Final(s: Sync): Sync {
    s.(phase := FINAL, commitments := [], last := NULL_HEADER, height := 0, buffer := [],
       bufferLastHash := 0, bufferFirstPrev := 0, releaseAll := false)
  }

  /** `ValidateAndProcessSingleHeader`. */
  function ProcessOne(c: Chain, s: Sync, h: Header): (Sync, bool) {
    var next := s.height + 1;
    if !c.permitted(next, s.last.bits, h.bits) then (s, false)
    else
      var t := if Committed(c, next) then s.(commitments := s.commitments + [Bit(c, h)]) else s;
      if Committed(c, next) && |t.commitments| > c.maxCommitments then (t, false)
      else (t.(work := s.work + c.proof(h), last := h, height := next), true)
  }

  /** The loop over a batch, with the number of headers accepted. */
  function ProcessAll(c: Chain, s: Sync, hs: seq<Header>): (Sync, bool, nat)
    decreases |hs|
  {
    if hs == [] then (s, true, 0)
    else
      var (t, ok) := ProcessOne(c, s, hs[0]);
      if !ok then (t, false, 0)
      else
        var (u, ok', n) := ProcessAll(c, t, hs[1..]);
        (u, ok', n + 1)
  }

  function StartRedownload(c: Chain, s: Sync): Sync {
    s.(buffer := [], bufferLastHeight := c.startHeight, bufferFirstPrev := c.hash(c.start),
       bufferLastHash := c.hash(c.start), redWork := c.startWork, phase := REDOWNLOAD)
  }

  /** `ValidateAndStoreHeadersCommitments`. */
  function Presync(c: Chain, s: Sync, hs: seq<Header>): (Sync, bool, nat) {
    if hs == [] then (s, true, 0)
    else if hs[0].prev != c.hash(s.last) then (s, false, 0)
    else
      var (t, ok, n) := ProcessAll(c, s, hs);
      if ok && t.work >= c.minWork then (StartRedownload(c, t), true, n) else (t, ok, n)
  }

  /** `ValidateAndStoreRedownloadedHeader`. */
  function StoreOne(c: Chain, s: Sync, h: Header): (Sync, bool) {
    var next := s.bufferLastHeight + 1;
    var previous := if s.buffer != [] then s.buffer[|s.buffer| - 1].bits else c.start.bits;
    if h.prev != s.bufferLastHash then (s, false)
    else if !c.permitted(next, previous, h.bits) then (s, false)
    else
      var work := s.redWork + c.proof(h);
      var t := s.(redWork := work, releaseAll := s.releaseAll || work >= c.minWork);
      if !t.releaseAll && Committed(c, next) && t.commitments == [] then (t, false)
      else
        var check := !t.releaseAll && Committed(c, next);
        var u := if check then t.(commitments := t.commitments[1..]) else t;
        if check && Bit(c, h) != t.commitments[0] then (u, false)
        else (u.(buffer := u.buffer + [Compress(h)], bufferLastHeight := next, bufferLastHash := c.hash(h)), true)
  }

  function StoreAll(c: Chain, s: Sync, hs: seq<Header>): (Sync, bool, nat)
    decreases |hs|
  {
    if hs == [] then (s, true, 0)
    else
      var (t, ok) := StoreOne(c, s, hs[0]);
      if !ok then (t, false, 0)
      else
        var (u, ok', n) := StoreAll(c, t, hs[1..]);
        (u, ok', n + 1)
  }

  /** `PopHeadersReadyForAcceptance`. */
  function Pop(c: Chain, s: Sync): (Sync, seq<Header>)
    decreases |s.buffer|
  {
    if |s.buffer| > c.bufferSize || (|s.buffer| > 0 && s.releaseAll) then
      var h := Expand(s.buffer[0], s.bufferFirstPrev);
      var (t, rest) := Pop(c, s.(buffer := s.buffer[1..], bufferFirstPrev := c.hash(h)));
      (t, [h] + rest)
    else (s, [])
  }

  /** What a batch leads to before the machine may stop, and how many of its headers were accepted. */
  function React(c: Chain, s: Sync, hs: seq<Header>, full: bool): (Sync, Result, nat) {
    match s.phase
    case PRESYNC =>
      var (t, ok, n) := Presync(c, s, hs);
      (t, Result([], ok, ok && (full || t.phase == REDOWNLOAD)), n)
    case REDOWNLOAD =>
      var (t, ok, n) := StoreAll(c, s, hs);
      if !ok then (t, Result([], false, false), n)
      else
        var (u, out) := Pop(c, t);
        (u, Result(out, true, !(u.buffer == [] && u.releaseAll) && full), n)
    case FINAL => (s, Result([], false, false), 0)
  }

  /** `ProcessNextHeaders`. */
  function Next(c: Chain, s: Sync, hs: seq<Header>, full: bool): (Sync, Result) {
    if hs == [] || s.phase == FINAL then (s, Result([], false, false))
    else
      var (t, r, n) := React(c, s, hs, full);
      (if r.success && r.more then t else Final(t), r)
  }

  // ----- Histories -----

  /** Headers accepted in each phase, and released. */
  datatype Log = Log(pre: seq<Header>, red: seq<Header>, released: seq<Header>)

  datatype Batch = Batch(headers: seq<Header>, full: bool)

  ghost function NextLog(c: Chain, s: Sync, log: Log, m: Batch): Log {
    if m.headers == [] || s.phase == FINAL then log
    else
      var (t, r, n) := React(c, s, m.headers, m.full);
      var accepted := if n <= |m.headers| then m.headers[..n] else m.headers;
      if s.phase == PRESYNC then log.(pre := log.pre + accepted)
      else log.(red := log.red + accepted, released := log.released + r.headers)
  }

  ghost function Run(c: Chain, s: Sync, ms: seq<Batch>): Sync
    decreases |ms|
  {
    if ms == [] then s else Run(c, Next(c, s, ms[0].headers, ms[0].full).0, ms[1..])
  }

  ghost function RunLog(c: Chain, s: Sync, log: Log, ms: seq<Batch>): Log
    decreases |ms|
  {
    if ms == [] then log
    else RunLog(c, Next(c, s, ms[0].headers, ms[0].full).0, NextLog(c, s, log, ms[0]), ms[1..])
  }

  /** Headers in a batch follow one another; the caller checks this before handing a batch over. */
  ghost predicate Continuous(c: Chain, hs: seq<Header>) {
    forall i :: 0 < i < |hs| ==> hs[i].prev == c.hash(hs[i - 1])
  }

  /** The header before position `i` of a chain grown on the start header. */
  function Parent(c: Chain, hs: seq<Header>, i: nat): Header
    requires i <= |hs|
  {
    if i == 0 then c.start else hs[i - 1]
  }

  ghost predicate LinkedAt(c: Chain, hs: seq<Header>, i: nat)
    requires i < |hs|
  {
    hs[i].prev == c.hash(Parent(c, hs, i))
  }

  /** An unbroken hash chain on the start header. */
  ghost predicate Linked(c: Chain, hs: seq<Header>) {
    forall i :: 0 <= i < |hs| ==> LinkedAt(c, hs, i)
  }

  ghost predicate PermittedAt(c: Chain, hs: seq<Header>, i: nat)
    requires i < |hs|
  {
    c.permitted(c.startHeight + i + 1, Parent(c, hs, i).bits, hs[i].bits)
  }

  /** Every header passes the difficulty rule against its real predecessor. */
  ghost predicate Permitted(c: Chain, hs: seq<Header>) {
    forall i :: 0 <= i < |hs| ==> PermittedAt(c, hs, i)
  }

  /** The work of the start header and the headers after it. */
  ghost function Work(c: Chain, hs: seq<Header>): nat {
    if hs == [] then c.startWork else Work(c, hs[..|hs| - 1]) + c.proof(hs[|hs| - 1])
  }

  /** The commitment bits of headers `from`, `from + 1`, ... of a chain. */
  ghost function Bits(c: Chain, hs: seq<Header>, from: nat): seq<bool>
    decreases |hs| - from
  {
    if from >= |hs| then []
    else if Committed(c, c.startHeight + from + 1) then [Bit(c, hs[from])] + Bits(c, hs, from + 1)
    else Bits(c, hs, from + 1)
  }

  ghost function Squeeze(hs: seq<Header>): seq<Compressed> {
    seq(|hs|, i requires 0 <= i < |hs| => Compress(hs[i]))
  }

  /** The look-ahead buffer with the missing hashes put back. */
  ghost function Inflate(c: Chain, prev: Hash, buffer: seq<Compressed>): seq<Header>
    decreases |buffer|
  {
    if buffer == [] then []
    else var h := Expand(buffer[0], prev); [h] + Inflate(c, c.hash(h), buffer[1..])
  }
}
