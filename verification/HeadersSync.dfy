/**
 `HeadersSyncState`: the headers synchronisation as the object the program uses, field by field,
 each method proved to compute the corresponding function of `HeadersModel`.
 */
module HeadersSync {
  import opened HeadersModel
  import opened HeadersProofs

  class HeadersSyncState {
    const chain: Chain
    var phase: Phase
    var work: nat
    var commitments: seq<bool>
    var last: Header
    var height: int
    var buffer: seq<Compressed>
    var bufferLastHeight: int
    var bufferLastHash: Hash
    var bufferFirstPrev: Hash
    var redWork: nat
    var releaseAll: bool
    /** Accepted and released headers so far. */
    ghost var log: Log

    ghost function State(): Sync
      reads this
    {
      Sync(phase, work, commitments, last, height, buffer, bufferLastHeight, bufferLastHash,
           bufferFirstPrev, redWork, releaseAll)
    }

    ghost predicate Valid()
      reads this
    {
      Inv(chain, State(), log)
    }

    constructor (chain: Chain)
      requires chain.period > 0
      ensures this.chain == chain && State() == Begin(chain) && log == Log([], [], []) && Valid()
    {
      this.chain := chain;
      phase, work, commitments, last, height := PRESYNC, chain.startWork, [], chain.start, chain.startHeight;
      buffer, bufferLastHeight, bufferLastHash, bufferFirstPrev, redWork := [], 0, 0, 0, 0;
      releaseAll := false;
      log := Log([], [], []);
      new;
      BeginInv(chain);
    }

    method Finalize()
      modifies this`phase, this`commitments, this`last, this`height, this`buffer,
        this`bufferLastHash, this`bufferFirstPrev, this`releaseAll
      ensures State() == Final(old(State()))
    {
      commitments := [];
      last := NULL_HEADER;
      buffer := [];
      bufferLastHash := 0;
      bufferFirstPrev := 0;
      releaseAll := false;
      height := 0;
      phase := FINAL;
    }

    method ProcessSingle(h: Header) returns (ok: bool)
      modifies this`work, this`commitments, this`last, this`height
      ensures (State(), ok) == ProcessOne(chain, old(State()), h)
    {
      var next := height + 1;
      if !chain.permitted(next, last.bits, h.bits) { return false; }
      if Committed(chain, next) {
        commitments := commitments + [Bit(chain, h)];
        if |commitments| > chain.maxCommitments { return false; }
      }
      work := work + chain.proof(h);
      last := h;
      height := next;
      return true;
    }

    /** `ValidateAndStoreHeadersCommitments`. */
    method StoreCommitments(hs: seq<Header>) returns (ok: bool, ghost n: nat)
      requires phase == PRESYNC
      modifies this`phase, this`work, this`commitments, this`last, this`height, this`buffer, this`bufferLastHeight,
        this`bufferLastHash, this`bufferFirstPrev, this`redWork
      ensures (State(), ok, n) == Presync(chain, old(State()), hs)
    {
      hide ProcessOne;
      n := 0;
      if |hs| == 0 { return true, 0; }
      if hs[0].prev != chain.hash(last) { return false, 0; }
      ghost var s := State();
      assert hs[0..] == hs;
      for i := 0 to |hs|
        invariant phase == PRESYNC && n == i
        invariant ProcessAll(chain, s, hs) ==
          (var r := ProcessAll(chain, State(), hs[i..]); (r.0, r.1, r.2 + i))
      {
        var h := hs[i];
        assert hs[i..][0] == h && hs[i..][1..] == hs[i + 1..];
        var good := ProcessSingle(h);
        if !good { return false, n; }
        n := n + 1;
      }
      if work >= chain.minWork {
        buffer := [];
        bufferLastHeight := chain.startHeight;
        bufferFirstPrev := chain.hash(chain.start);
        bufferLastHash := chain.hash(chain.start);
        redWork := chain.startWork;
        phase := REDOWNLOAD;
      }
      return true, n;
    }

    /** `ValidateAndStoreRedownloadedHeader`. */
    method StoreRedownloaded(h: Header) returns (ok: bool)
      modifies this`redWork, this`releaseAll, this`commitments, this`buffer, this`bufferLastHeight, this`bufferLastHash
      ensures (State(), ok) == StoreOne(chain, old(State()), h)
    {
      var next := bufferLastHeight + 1;
      if h.prev != bufferLastHash { return false; }
      var previous := chain.start.bits;
      if buffer != [] { previous := buffer[|buffer| - 1].bits; }
      if !chain.permitted(next, previous, h.bits) { return false; }
      redWork := redWork + chain.proof(h);
      if redWork >= chain.minWork { releaseAll := true; }
      if !releaseAll && Committed(chain, next) {
        if |commitments| == 0 { return false; }
        var expected := commitments[0];
        commitments := commitments[1..];
        if Bit(chain, h) != expected { return false; }
      }
      buffer := buffer + [Compress(h)];
      bufferLastHeight := next;
      bufferLastHash := chain.hash(h);
      return true;
    }

    /** `PopHeadersReadyForAcceptance`. */
    method PopReady() returns (ready: seq<Header>)
      modifies this`buffer, this`bufferFirstPrev
      ensures (State(), ready) == Pop(chain, old(State()))
    {
      ready := [];
      ghost var s := State();
      while |buffer| > chain.bufferSize || (|buffer| > 0 && releaseAll)
        invariant Pop(chain, s).0 == Pop(chain, State()).0
        invariant Pop(chain, s).1 == ready + Pop(chain, State()).1
        decreases |buffer|
      {
        var h := Expand(buffer[0], bufferFirstPrev);
        ghost var was, rest := ready, Pop(chain, State().(buffer := buffer[1..], bufferFirstPrev := chain.hash(h))).1;
        ready := ready + [h];
        buffer := buffer[1..];
        bufferFirstPrev := chain.hash(h);
        assert was + ([h] + rest) == ready + rest;
      }
      assert Pop(chain, State()) == (State(), []) && ready + [] == ready;
    }

    /** `ProcessNextHeaders`; its caller has checked that the headers of a batch follow one another. */
    method ProcessNextHeaders(hs: seq<Header>, full: bool) returns (r: Result)
      modifies this
      ensures old(Valid()) && Continuous(chain, hs) ==> Valid()
      ensures (State(), r) == Next(chain, old(State()), hs, full)
      ensures log == NextLog(chain, old(State()), old(log), Batch(hs, full))
    {
      ghost var s, before := State(), log;
      if Valid() && Continuous(chain, hs) {
        NextKeeps(chain, s, log, Batch(hs, full));
      }
      hide Inv, ProcessAll, StoreAll, Pop, Presync;
      r := Result([], false, false);
      if |hs| == 0 { return; }
      if phase == FINAL { return; }
      ghost var n := 0;
      if phase == PRESYNC {
        var ok;
        ok, n := StoreCommitments(hs);
        r := Result([], ok, ok && (full || phase == REDOWNLOAD));
      } else {
        var ok;
        ok, n := StoreBatch(hs);
        r := Result([], ok, false);
        if ok {
          var ready := PopReady();
          r := Result(ready, true, !(buffer == [] && releaseAll) && full);
        }
      }
      assert (State(), r, n) == React(chain, s, hs, full);
      log := NextLog(chain, s, before, Batch(hs, full));
      if !(r.success && r.more) { Finalize(); }
    }

    /** The loop of `ProcessNextHeaders` over a batch of the second phase. */
    method StoreBatch(hs: seq<Header>) returns (ok: bool, ghost n: nat)
      modifies this`redWork, this`releaseAll, this`commitments, this`buffer, this`bufferLastHeight, this`bufferLastHash
      ensures (State(), ok, n) == StoreAll(chain, old(State()), hs)
    {
      hide StoreOne;
      ghost var s := State();
      n := 0;
      assert hs[0..] == hs;
      for i := 0 to |hs|
        invariant n == i
        invariant StoreAll(chain, s, hs) == (var r := StoreAll(chain, State(), hs[i..]); (r.0, r.1, r.2 + i))
      {
        var h := hs[i];
        assert hs[i..][0] == h && hs[i..][1..] == hs[i + 1..];
        var good := StoreRedownloaded(h);
        if !good { return false, n; }
        n := n + 1;
      }
      return true, n;
    }
  }
}
