/**
 What every run of the headers synchronisation keeps, and that an honest peer gets through.
 */
module HeadersProofs {
  import opened HeadersModel

  // ----- The invariant -----

  ghost predicate MatchedAt(c: Chain, pre: seq<Header>, red: seq<Header>, i: nat)
    requires i < |red|
  {
    Committed(c, c.startHeight + i + 1) && Work(c, red[..i + 1]) < c.minWork ==>
      i < |pre| && Bit(c, red[i]) == Bit(c, pre[i])
  }

  /** Every redownloaded header at a commitment height, while the redownloaded work is below the minimum,
      has the commitment bit of the first-phase header at the same height. */
  ghost predicate Matches(c: Chain, pre: seq<Header>, red: seq<Header>) {
    forall i :: 0 <= i < |red| ==> MatchedAt(c, pre, red, i)
  }

  /** Released headers are the first of the redownloaded ones, and are released only on a chain with enough
      work or under a full look-ahead buffer. */
  ghost predicate Held(c: Chain, log: Log) {
    && log.released <= log.red
    && (log.released == [] || Work(c, log.red) >= c.minWork || |log.red| - |log.released| >= c.bufferSize)
  }

  /** What holds of the accepted and released headers in every reachable state. */
  ghost predicate Sound(c: Chain, log: Log) {
    && Linked(c, log.pre) && Permitted(c, log.pre)
    && Linked(c, log.red)
    && (c.bufferSize >= 1 ==> Permitted(c, log.red))
    && Matches(c, log.pre, log.red)
    && Held(c, log)
  }

  ghost predicate PreOk(c: Chain, s: Sync, log: Log) {
    && s.height == c.startHeight + |log.pre|
    && s.last == Parent(c, log.pre, |log.pre|)
    && s.work == Work(c, log.pre)
    && s.commitments == Bits(c, log.pre, 0)
    && s.buffer == [] && !s.releaseAll
    && log.red == [] && log.released == []
  }

  /** The registers of the second phase describe the redownloaded headers. */
  ghost predicate RedOk(c: Chain, s: Sync, log: Log) {
    && s.bufferLastHeight == c.startHeight + |log.red|
    && s.bufferLastHash == c.hash(Parent(c, log.red, |log.red|))
    && s.redWork == Work(c, log.red)
    && (s.releaseAll <==> log.red != [] && s.redWork >= c.minWork)
    && log.released <= log.red
    && s.buffer == Squeeze(log.red[|log.released|..])
    && s.bufferFirstPrev == c.hash(Parent(c, log.red, |log.released|))
    && (!s.releaseAll ==> s.commitments == Bits(c, log.pre, |log.red|))
  }

  /** With a look-ahead buffer, the last redownloaded header is still in it. */
  ghost predicate Kept(c: Chain, log: Log) {
    c.bufferSize >= 1 && log.red != [] ==> |log.released| < |log.red|
  }

  /** The memory a peer can make the machine hold between batches. */
  ghost predicate Bounded(c: Chain, s: Sync) {
    |s.commitments| <= c.maxCommitments && |s.buffer| <= c.bufferSize
  }

  ghost predicate Worthy(c: Chain, log: Log) {
    log.pre != [] && Work(c, log.pre) >= c.minWork
  }

  ghost predicate Inv(c: Chain, s: Sync, log: Log) {
    && Sound(c, log)
    && match s.phase
       case PRESYNC => PreOk(c, s, log) && Bounded(c, s)
       case REDOWNLOAD => RedOk(c, s, log) && Kept(c, log) && Bounded(c, s) && Worthy(c, log)
       case FINAL => true
  }

  // ----- Growing a chain by one header -----

  lemma WorkMore(c: Chain, hs: seq<Header>, h: Header)
    ensures Work(c, hs + [h]) == Work(c, hs) + c.proof(h)
  {
    assert (hs + [h])[..|hs|] == hs;
  }

  lemma LinkedMore(c: Chain, hs: seq<Header>, h: Header)
    requires Linked(c, hs) && h.prev == c.hash(Parent(c, hs, |hs|))
    ensures Linked(c, hs + [h])
  {
    var more := hs + [h];
    forall i | 0 <= i < |more| ensures LinkedAt(c, more, i) {
      assert Parent(c, more, i) == Parent(c, hs, i);
      if i < |hs| { assert LinkedAt(c, hs, i); }
    }
  }

  lemma PermittedMore(c: Chain, hs: seq<Header>, h: Header)
    requires Permitted(c, hs) && c.permitted(c.startHeight + |hs| + 1, Parent(c, hs, |hs|).bits, h.bits)
    ensures Permitted(c, hs + [h])
  {
    var more := hs + [h];
    forall i | 0 <= i < |more| ensures PermittedAt(c, more, i) {
      assert Parent(c, more, i) == Parent(c, hs, i);
      if i < |hs| { assert PermittedAt(c, hs, i); }
    }
  }

  lemma {:induction false} BitsMore(c: Chain, hs: seq<Header>, h: Header, from: nat)
    requires from <= |hs|
    ensures Bits(c, hs + [h], from) ==
      Bits(c, hs, from) + (if Committed(c, c.startHeight + |hs| + 1) then [Bit(c, h)] else [])
    decreases |hs| - from
  {
    if from < |hs| {
      BitsMore(c, hs, h, from + 1);
    } else {
      assert Bits(c, hs + [h], from + 1) == [];
    }
  }

  lemma SqueezeMore(hs: seq<Header>, h: Header)
    ensures Squeeze(hs + [h]) == Squeeze(hs) + [Compress(h)]
  {
  }

  // ----- PRESYNC -----

  lemma ProcessOneKeeps(c: Chain, s: Sync, log: Log, h: Header)
    requires Sound(c, log) && PreOk(c, s, log) && h.prev == c.hash(s.last)
    ensures var (t, ok) := ProcessOne(c, s, h);
      && (ok ==> Sound(c, log.(pre := log.pre + [h])) && PreOk(c, t, log.(pre := log.pre + [h])) && t.phase == s.phase)
      && (ok && Bounded(c, s) ==> Bounded(c, t))
  {
    var (t, ok) := ProcessOne(c, s, h);
    if ok {
      LinkedMore(c, log.pre, h);
      PermittedMore(c, log.pre, h);
      WorkMore(c, log.pre, h);
      BitsMore(c, log.pre, h, 0);
    }
  }

  lemma TakeFront(a: seq<Header>, hs: seq<Header>, n: nat)
    requires n < |hs|
    ensures a + [hs[0]] + hs[1..][..n] == a + hs[..n + 1]
    ensures a + [hs[0]] + hs[1..] == a + hs
  {
    assert hs[..n + 1] == [hs[0]] + hs[1..][..n];
    assert hs == [hs[0]] + hs[1..];
  }

  lemma {:induction false} ProcessAllKeeps(c: Chain, s: Sync, log: Log, hs: seq<Header>)
    requires Sound(c, log) && PreOk(c, s, log) && Continuous(c, hs)
    requires hs != [] ==> hs[0].prev == c.hash(s.last)
    ensures var (t, ok, n) := ProcessAll(c, s, hs);
      && n <= |hs| && (ok ==> n == |hs|)
      && Sound(c, log.(pre := log.pre + hs[..n]))
      && (ok ==> PreOk(c, t, log.(pre := log.pre + hs)) && t.phase == s.phase)
      && (ok && Bounded(c, s) ==> Bounded(c, t))
    decreases |hs|
  {
    hide Sound;
    if hs == [] {
      assert log.(pre := log.pre + hs) == log;
    } else {
      var (t, ok) := ProcessOne(c, s, hs[0]);
      if ok {
        ProcessOneKeeps(c, s, log, hs[0]);
        var log' := log.(pre := log.pre + [hs[0]]);
        assert |hs| > 1 ==> hs[1..][0].prev == c.hash(t.last);
        forall i | 0 < i < |hs[1..]| ensures hs[1..][i].prev == c.hash(hs[1..][i - 1]) {
          assert hs[i + 1].prev == c.hash(hs[i]);
        }
        ProcessAllKeeps(c, t, log', hs[1..]);
        var (u, ok', n) := ProcessAll(c, t, hs[1..]);
        TakeFront(log.pre, hs, n);
      } else {
        assert log.(pre := log.pre + hs[..0]) == log;
      }
    }
  }

  lemma PresyncKeeps(c: Chain, s: Sync, log: Log, hs: seq<Header>, full: bool)
    requires Inv(c, s, log) && s.phase == PRESYNC && Continuous(c, hs) && hs != []
    ensures var (t, r, n) := React(c, s, hs, full); var log' := NextLog(c, s, log, Batch(hs, full));
      && Sound(c, log')
      && (r.success ==> Inv(c, t, log'))
  {
    hide Sound, PreOk;
    if hs[0].prev == c.hash(s.last) {
      ProcessAllKeeps(c, s, log, hs);
      var (t, ok, n) := ProcessAll(c, s, hs);
      assert hs[..|hs|] == hs;
      if ok && t.work >= c.minWork { PresyncEnds(c, t, log.(pre := log.pre + hs)); }
    } else {
      assert log.(pre := log.pre + hs[..0]) == log;
    }
  }

  lemma PresyncEnds(c: Chain, t: Sync, log: Log)
    requires PreOk(c, t, log) && t.work >= c.minWork
    ensures RedOk(c, StartRedownload(c, t), log) && Kept(c, log) && Work(c, log.pre) >= c.minWork
    ensures Bounded(c, t) ==> Bounded(c, StartRedownload(c, t))
  {
    assert Squeeze([]) == [];
  }

  // ----- REDOWNLOAD -----

  lemma MatchesMore(c: Chain, pre: seq<Header>, red: seq<Header>, h: Header)
    requires Matches(c, pre, red)
    requires Committed(c, c.startHeight + |red| + 1) && Work(c, red + [h]) < c.minWork ==>
      |red| < |pre| && Bit(c, h) == Bit(c, pre[|red|])
    ensures Matches(c, pre, red + [h])
  {
    hide Work;
    var more := red + [h];
    forall i | 0 <= i < |more| ensures MatchedAt(c, pre, more, i) {
      if i < |red| {
        assert MatchedAt(c, pre, red, i);
        assert more[..i + 1] == red[..i + 1];
      } else {
        assert more[..i + 1] == more;
      }
    }
  }

  /** The front of the commitment queue belongs to the next commitment height. */
  lemma BitsFront(c: Chain, hs: seq<Header>, from: nat)
    requires Committed(c, c.startHeight + from + 1)
    ensures Bits(c, hs, from) != [] <==> from < |hs|
    ensures from < |hs| ==> Bits(c, hs, from)[0] == Bit(c, hs[from]) && Bits(c, hs, from)[1..] == Bits(c, hs, from + 1)
  {
  }

  lemma BitsSkip(c: Chain, hs: seq<Header>, from: nat)
    requires !Committed(c, c.startHeight + from + 1)
    ensures Bits(c, hs, from) == Bits(c, hs, from + 1)
  {
  }

  lemma BufferBack(c: Chain, s: Sync, log: Log)
    requires RedOk(c, s, log) && |log.released| < |log.red|
    ensures s.buffer != [] && s.buffer[|s.buffer| - 1].bits == log.red[|log.red| - 1].bits
  {
  }

  lemma StoreOneKeeps(c: Chain, s: Sync, log: Log, h: Header)
    requires Sound(c, log) && RedOk(c, s, log) && Kept(c, log)
    ensures var (t, ok) := StoreOne(c, s, h); var log' := log.(red := log.red + [h]);
      ok ==> Sound(c, log') && RedOk(c, t, log') && Kept(c, log') && t.phase == s.phase && |t.commitments| <= |s.commitments|
  {
    var (t, ok) := StoreOne(c, s, h);
    if ok {
      WorkMore(c, log.red, h);
      StoreOneSound(c, s, log, h);
      StoreOneRed(c, s, log, h);
    }
  }

  lemma StoreOneSound(c: Chain, s: Sync, log: Log, h: Header)
    requires Sound(c, log) && RedOk(c, s, log) && Kept(c, log) && StoreOne(c, s, h).1
    requires Work(c, log.red + [h]) == Work(c, log.red) + c.proof(h)
    ensures Sound(c, log.(red := log.red + [h]))
  {
    hide Bits, Matches;
    LinkedMore(c, log.red, h);
    if c.bufferSize >= 1 {
      if log.red != [] { BufferBack(c, s, log); }
      PermittedMore(c, log.red, h);
    }
    if Committed(c, c.startHeight + |log.red| + 1) && Work(c, log.red + [h]) < c.minWork {
      BitsFront(c, log.pre, |log.red|);
    }
    MatchesMore(c, log.pre, log.red, h);
  }

  lemma StoreOneRed(c: Chain, s: Sync, log: Log, h: Header)
    requires RedOk(c, s, log) && StoreOne(c, s, h).1
    requires Work(c, log.red + [h]) == Work(c, log.red) + c.proof(h)
    ensures RedOk(c, StoreOne(c, s, h).0, log.(red := log.red + [h]))
  {
    hide Bits;
    var red := log.red + [h];
    var k := |log.released|;
    assert red[k..] == log.red[k..] + [h];
    SqueezeMore(log.red[k..], h);
    assert Parent(c, red, k) == Parent(c, log.red, k);
    if Committed(c, c.startHeight + |log.red| + 1) {
      BitsFront(c, log.pre, |log.red|);
    } else {
      BitsSkip(c, log.pre, |log.red|);
    }
  }

  lemma {:induction false} StoreAllKeeps(c: Chain, s: Sync, log: Log, hs: seq<Header>)
    requires Sound(c, log) && RedOk(c, s, log) && Kept(c, log)
    ensures var (t, ok, n) := StoreAll(c, s, hs);
      && n <= |hs| && (ok ==> n == |hs|)
      && Sound(c, log.(red := log.red + hs[..n]))
      && (ok ==> var log' := log.(red := log.red + hs); RedOk(c, t, log') && Kept(c, log') && t.phase == s.phase && |t.commitments| <= |s.commitments|)
    decreases |hs|
  {
    hide Sound, RedOk, StoreOne;
    if hs == [] {
      assert log.(red := log.red + hs) == log;
    } else {
      StoreOneKeeps(c, s, log, hs[0]);
      var (t, ok) := StoreOne(c, s, hs[0]);
      if ok {
        StoreAllKeeps(c, t, log.(red := log.red + [hs[0]]), hs[1..]);
        var (u, ok', n) := StoreAll(c, t, hs[1..]);
        TakeFront(log.red, hs, n);
      } else {
        assert log.(red := log.red + hs[..0]) == log;
      }
    }
  }

  lemma PopOne(c: Chain, s: Sync, log: Log)
    requires Linked(c, log.red) && RedOk(c, s, log) && s.buffer != []
    ensures var h := Expand(s.buffer[0], s.bufferFirstPrev);
      RedOk(c, s.(buffer := s.buffer[1..], bufferFirstPrev := c.hash(h)), log.(released := log.released + [h]))
  {
    hide Bits, Work;
    var k := |log.released|;
    var h := Expand(s.buffer[0], s.bufferFirstPrev);
    assert LinkedAt(c, log.red, k);
    assert h == log.red[k];
    assert log.released + [h] == log.red[..k + 1];
    assert Squeeze(log.red[k..])[1..] == Squeeze(log.red[k + 1..]);
  }

  /** Popping releases the next headers in order, with their real predecessor hashes. */
  lemma {:induction false} PopKeeps(c: Chain, s: Sync, log: Log)
    requires Linked(c, log.red) && RedOk(c, s, log)
    ensures var (t, out) := Pop(c, s); var log' := log.(released := log.released + out);
      && RedOk(c, t, log')
      && t.phase == s.phase && t.releaseAll == s.releaseAll && t.commitments == s.commitments
      && (s.releaseAll ==> t.buffer == [])
      && (!s.releaseAll ==> |t.buffer| == if |s.buffer| < c.bufferSize then |s.buffer| else c.bufferSize)
    decreases |s.buffer|
  {
    hide Linked, RedOk;
    if |s.buffer| > c.bufferSize || (|s.buffer| > 0 && s.releaseAll) {
      var h := Expand(s.buffer[0], s.bufferFirstPrev);
      var s' := s.(buffer := s.buffer[1..], bufferFirstPrev := c.hash(h));
      var log' := log.(released := log.released + [h]);
      PopOne(c, s, log);
      PopKeeps(c, s', log');
      var (t, rest) := Pop(c, s');
      assert log.released + [h] + rest == log.released + ([h] + rest);
    } else {
      assert log.released + [] == log.released;
    }
  }

  lemma RedownloadKeeps(c: Chain, s: Sync, log: Log, hs: seq<Header>, full: bool)
    requires Inv(c, s, log) && s.phase == REDOWNLOAD && hs != []
    ensures var (t, r, n) := React(c, s, hs, full); var log' := NextLog(c, s, log, Batch(hs, full));
      && Sound(c, log')
      && (r.success && r.more ==> Inv(c, t, log'))
      && (r.success && t.releaseAll ==> log'.released == log'.red && Work(c, log'.red) >= c.minWork)
  {
    hide Sound, RedOk, Kept;
    StoreAllKeeps(c, s, log, hs);
    var (t, ok, n) := StoreAll(c, s, hs);
    assert hs[..|hs|] == hs;
    if ok {
      var log1 := log.(red := log.red + hs);
      SoundLinked(c, log1);
      PopKeeps(c, t, log1);
      var (u, out) := Pop(c, t);
      var log2 := log1.(released := log1.released + out);
      Released(c, t, u, log1, log2);
    } else {
      assert log.released + [] == log.released;
    }
  }

  lemma SoundLinked(c: Chain, log: Log)
    requires Sound(c, log)
    ensures Linked(c, log.red)
  {
  }

  lemma Released(c: Chain, t: Sync, u: Sync, log1: Log, log2: Log)
    requires Sound(c, log1) && RedOk(c, t, log1) && RedOk(c, u, log2) && log1.red != []
    requires log2 == log1.(released := log2.released) && log1.released <= log2.released
    requires u.releaseAll == t.releaseAll
    requires t.releaseAll ==> u.buffer == []
    requires !t.releaseAll ==> |u.buffer| == if |t.buffer| < c.bufferSize then |t.buffer| else c.bufferSize
    requires Kept(c, log1)
    ensures Sound(c, log2)
    ensures !(u.buffer == [] && u.releaseAll) ==> Kept(c, log2)
    ensures u.releaseAll ==> log2.released == log2.red && Work(c, log2.red) >= c.minWork
  {
    assert |u.buffer| == |log2.red| - |log2.released|;
    assert |t.buffer| == |log1.red| - |log1.released|;
  }

  // ----- Runs -----

  lemma NextKeeps(c: Chain, s: Sync, log: Log, m: Batch)
    requires Inv(c, s, log) && Continuous(c, m.headers)
    ensures Inv(c, Next(c, s, m.headers, m.full).0, NextLog(c, s, log, m))
  {
    hide Sound, PreOk, RedOk, Kept, React;
    if m.headers != [] {
      match s.phase {
        case PRESYNC => PresyncKeeps(c, s, log, m.headers, m.full);
        case REDOWNLOAD => RedownloadKeeps(c, s, log, m.headers, m.full);
        case FINAL =>
      }
    }
  }

  lemma BeginInv(c: Chain)
    ensures Inv(c, Begin(c), Log([], [], []))
  {
  }

  /** In every run, whatever the peer sends: both chains are unbroken, each redownloaded header passed the
      difficulty rule against its real predecessor and has the bit committed to at its height, and only
      headers with enough on top of them are released. */
  lemma {:induction false} RunKeeps(c: Chain, s: Sync, log: Log, ms: seq<Batch>)
    requires Inv(c, s, log) && forall m :: m in ms ==> Continuous(c, m.headers)
    ensures Inv(c, Run(c, s, ms), RunLog(c, s, log, ms))
    decreases |ms|
  {
    hide Inv, Next, NextLog;
    if ms != [] {
      NextKeeps(c, s, log, ms[0]);
      RunKeeps(c, Next(c, s, ms[0].headers, ms[0].full).0, NextLog(c, s, log, ms[0]), ms[1..]);
    }
  }

  lemma ReachableSound(c: Chain, ms: seq<Batch>)
    requires forall m :: m in ms ==> Continuous(c, m.headers)
    ensures Sound(c, RunLog(c, Begin(c), Log([], [], []), ms))
  {
    BeginInv(c);
    RunKeeps(c, Begin(c), Log([], [], []), ms);
  }

  /** Undoing the compression of a chain gives it back. */
  lemma {:induction false} InflateSqueeze(c: Chain, red: seq<Header>, k: nat)
    requires Linked(c, red) && k <= |red|
    ensures Inflate(c, c.hash(Parent(c, red, k)), Squeeze(red[k..])) == red[k..]
    decreases |red| - k
  {
    if k < |red| {
      InflateSqueeze(c, red, k + 1);
      assert Squeeze(red[k..])[1..] == Squeeze(red[k + 1..]);
      assert LinkedAt(c, red, k);
      assert Expand(Squeeze(red[k..])[0], c.hash(Parent(c, red, k))) == red[k];
      assert red[k..] == [red[k]] + red[k + 1..];
    }
  }

  /** Released headers followed by the decompressed buffer are the accepted redownloaded headers, in order. */
  lemma ReleasedThenBuffer(c: Chain, s: Sync, log: Log)
    requires Inv(c, s, log) && s.phase == REDOWNLOAD
    ensures log.released + Inflate(c, s.bufferFirstPrev, s.buffer) == log.red
  {
    InflateSqueeze(c, log.red, |log.released|);
  }

  // ----- The end -----

  const REFUSED := Result([], false, false)

  lemma {:induction false} StaysFinal(c: Chain, s: Sync, log: Log, ms: seq<Batch>)
    requires s.phase == FINAL
    ensures Run(c, s, ms) == s && RunLog(c, s, log, ms) == log
    decreases |ms|
  {
    if ms != [] {
      StaysFinal(c, s, log, ms[1..]);
    }
  }

  /** A batch that is refused or answered with "no more" ends the synchronisation for good: nothing is kept
      in memory, every later batch is refused, and nothing more is accepted or released. */
  lemma StoppedForGood(c: Chain, s: Sync, log: Log, m: Batch, ms: seq<Batch>)
    requires s.phase != FINAL && m.headers != []
    ensures var (t, r) := Next(c, s, m.headers, m.full); var log' := NextLog(c, s, log, m);
      && (r.success && r.more <==> t.phase != FINAL)
      && (t.phase == FINAL ==>
            && t.commitments == [] && t.buffer == []
            && Run(c, t, ms) == t && RunLog(c, t, log', ms) == log'
            && forall j :: 0 <= j < |ms| ==> Reply(c, t, ms, j) == REFUSED)
  {
    hide ProcessAll, StoreAll, Pop, Run, RunLog;
    var (t, r) := Next(c, s, m.headers, m.full);
    ReactsBeforeEnd(c, s, m.headers, m.full);
    if t.phase == FINAL {
      StaysFinal(c, t, NextLog(c, s, log, m), ms);
      forall j | 0 <= j < |ms|
        ensures Reply(c, t, ms, j) == REFUSED
      {
        StaysFinal(c, t, log, ms[..j]);
      }
    }
  }

  lemma {:induction false} PhaseKept(c: Chain, s: Sync, hs: seq<Header>)
    ensures ProcessAll(c, s, hs).0.phase == s.phase && StoreAll(c, s, hs).0.phase == s.phase
    decreases |hs|
  {
    if hs != [] {
      PhaseKept(c, ProcessOne(c, s, hs[0]).0, hs[1..]);
      PhaseKept(c, StoreOne(c, s, hs[0]).0, hs[1..]);
    }
  }

  lemma {:induction false} PopPhase(c: Chain, s: Sync)
    ensures Pop(c, s).0.phase == s.phase
    decreases |s.buffer|
  {
    if |s.buffer| > c.bufferSize || (|s.buffer| > 0 && s.releaseAll) {
      PopPhase(c, s.(buffer := s.buffer[1..], bufferFirstPrev := c.hash(Expand(s.buffer[0], s.bufferFirstPrev))));
    }
  }

  lemma ReactsBeforeEnd(c: Chain, s: Sync, hs: seq<Header>, full: bool)
    requires s.phase != FINAL
    ensures React(c, s, hs, full).0.phase != FINAL
  {
    hide ProcessAll, StoreAll, Pop;
    PhaseKept(c, s, hs);
    PopPhase(c, StoreAll(c, s, hs).0);
  }

  // ----- An honest peer -----

  lemma ParentOfPrefix(c: Chain, red: seq<Header>, pre: seq<Header>)
    requires red <= pre
    ensures Parent(c, red, |red|) == Parent(c, pre, |red|)
  {
  }

  /** The next header of the first-phase chain passes every check of the second phase. */
  lemma HonestStore(c: Chain, s: Sync, log: Log, h: Header)
    requires c.bufferSize >= 1 && Sound(c, log) && RedOk(c, s, log) && Kept(c, log)
    requires log.red <= log.pre && |log.red| < |log.pre| && h == log.pre[|log.red|]
    ensures StoreOne(c, s, h).1
  {
    hide Bits, Matches, Held;
    var k := |log.red|;
    ParentOfPrefix(c, log.red, log.pre);
    assert LinkedAt(c, log.pre, k) && PermittedAt(c, log.pre, k);
    if log.red != [] { BufferBack(c, s, log); }
    if Committed(c, c.startHeight + k + 1) { BitsFront(c, log.pre, k); }
  }

  lemma {:induction false} HonestStoreAll(c: Chain, s: Sync, log: Log, hs: seq<Header>)
    requires c.bufferSize >= 1 && Sound(c, log) && RedOk(c, s, log) && Kept(c, log)
    requires log.red + hs <= log.pre
    ensures StoreAll(c, s, hs).1
    decreases |hs|
  {
    hide Sound, RedOk, StoreOne;
    if hs != [] {
      assert hs[0] == (log.red + hs)[|log.red|] == log.pre[|log.red|];
      assert log.red == (log.red + hs)[..|log.red|];
      HonestStore(c, s, log, hs[0]);
      StoreOneKeeps(c, s, log, hs[0]);
      TakeFront(log.red, hs, 0);
      HonestStoreAll(c, StoreOne(c, s, hs[0]).0, log.(red := log.red + [hs[0]]), hs[1..]);
    }
  }

  lemma HonestReact(c: Chain, s: Sync, log: Log, m: Batch)
    requires c.bufferSize >= 1 && Inv(c, s, log) && s.phase == REDOWNLOAD && !s.releaseAll
    requires m.headers != [] && log.red + m.headers <= log.pre
    requires m.full || Work(c, log.red + m.headers) >= c.minWork
    ensures var (t, r, n) := React(c, s, m.headers, m.full);
      && r.success && n == |m.headers| && t.phase == REDOWNLOAD
      && (t.releaseAll <==> Work(c, log.red + m.headers) >= c.minWork) && (r.more <==> !t.releaseAll)
  {
    hide Sound, Bits, Matches, Held, Kept, Bounded, Worthy, StoreAll, Pop;
    HonestStoreAll(c, s, log, m.headers);
    StoreAllKeeps(c, s, log, m.headers);
    assert m.headers[..|m.headers|] == m.headers;
    var t := StoreAll(c, s, m.headers).0;
    var log1 := log.(red := log.red + m.headers);
    SoundLinked(c, log1);
    PopKeeps(c, t, log1);
  }

  /** One honest batch: accepted, and once there is enough work everything is released and the machine stops. */
  lemma HonestBatch(c: Chain, s: Sync, log: Log, m: Batch)
    requires c.bufferSize >= 1 && Inv(c, s, log) && s.phase == REDOWNLOAD && !s.releaseAll
    requires m.headers != [] && log.red + m.headers <= log.pre
    requires m.full || Work(c, log.red + m.headers) >= c.minWork
    ensures var (t, r) := Next(c, s, m.headers, m.full); var log' := NextLog(c, s, log, m);
      && r.success && log'.pre == log.pre && log'.red == log.red + m.headers
      && Inv(c, t, log')
      && (Work(c, log'.red) < c.minWork ==> t.phase == REDOWNLOAD && !t.releaseAll && r.more)
      && (Work(c, log'.red) >= c.minWork ==> t.phase == FINAL && log'.released == log'.red && !r.more)
  {
    hide React, RedOk, PreOk, Sound, Kept, Bounded, Worthy;
    HonestReact(c, s, log, m);
    RedownloadKeeps(c, s, log, m.headers, m.full);
    assert m.headers[..|m.headers|] == m.headers;
    PartContinuous(c, log, m.headers);
    NextKeeps(c, s, log, m);
  }

  lemma PartContinuous(c: Chain, log: Log, hs: seq<Header>)
    requires Sound(c, log) && log.red + hs <= log.pre
    ensures Continuous(c, hs)
  {
    forall i | 0 < i < |hs| ensures hs[i].prev == c.hash(hs[i - 1]) {
      var k := |log.red| + i;
      assert hs[i] == (log.red + hs)[k] == log.pre[k];
      assert hs[i - 1] == (log.red + hs)[k - 1] == log.pre[k - 1];
      assert LinkedAt(c, log.pre, k);
    }
  }

  ghost function Flatten(ms: seq<Batch>): seq<Header>
    decreases |ms|
  {
    if ms == [] then [] else ms[0].headers + Flatten(ms[1..])
  }

  /** The reply to the j-th batch of a run. */
  ghost function Reply(c: Chain, s: Sync, ms: seq<Batch>, j: nat): Result
    requires j < |ms|
  {
    Next(c, Run(c, s, ms[..j]), ms[j].headers, ms[j].full).1
  }

  /** A peer that sends the first-phase chain again, in whatever non-empty batches, is never refused: after
      some number `k` of batches the machine stops, having released every header fed to it, with enough work. */
  lemma {:induction false} HonestRun(c: Chain, s: Sync, log: Log, ms: seq<Batch>) returns (k: nat)
    requires c.bufferSize >= 1 && Inv(c, s, log) && s.phase == REDOWNLOAD && !s.releaseAll
    requires log.red + Flatten(ms) == log.pre
    requires forall j :: 0 <= j < |ms| ==>
      ms[j].headers != [] && (ms[j].full || Work(c, log.red + Flatten(ms[..j + 1])) >= c.minWork)
    ensures 1 <= k <= |ms|
    ensures Run(c, s, ms[..k]).phase == FINAL
    ensures var end := RunLog(c, s, log, ms[..k]);
      end.released == end.red == log.red + Flatten(ms[..k]) && Work(c, end.red) >= c.minWork
    ensures forall j :: 0 <= j < k ==> Reply(c, s, ms, j).success && (Reply(c, s, ms, j).more <==> j < k - 1)
    decreases |ms|
  {
    hide Next, NextLog, Inv, Work, Run, RunLog, Flatten;
    NotDone(c, s, log);
    NoneFlatten();
    var m := ms[0];
    FlattenFront(log.red, ms);
    assert ms[..1] == [m];
    OneFlatten(m);
    HonestBatch(c, s, log, m);
    var t := Next(c, s, m.headers, m.full).0;
    var log' := NextLog(c, s, log, m);
    assert ms[..0] == [];
    RunNone(c, s);
    if t.phase == FINAL {
      k := 1;
      RunOne(c, s, log, m);
    } else {
      forall j | 0 <= j < |ms[1..]|
        ensures ms[1..][j].headers != []
        ensures ms[1..][j].full || Work(c, log'.red + Flatten(ms[1..][..j + 1])) >= c.minWork
      {
        FlattenNext(log.red, ms, j + 1);
      }
      var n := HonestRun(c, t, log', ms[1..]);
      k := n + 1;
      FlattenNext(log.red, ms, n);
      RunNext(c, s, log, ms, k);
      forall j | 0 <= j < k ensures Reply(c, s, ms, j).success && (Reply(c, s, ms, j).more <==> j < k - 1) {
        if j > 0 {
          RunNext(c, s, log, ms, j);
          assert Reply(c, s, ms, j) == Reply(c, t, ms[1..], j - 1);
        }
      }
    }
  }

  lemma NoneFlatten()
    ensures Flatten([]) == []
  {
  }

  lemma OneFlatten(m: Batch)
    ensures Flatten([m]) == m.headers
  {
    assert [m][1..] == [];
  }

  lemma RunNone(c: Chain, s: Sync)
    ensures Run(c, s, []) == s
  {
  }

  lemma NotDone(c: Chain, s: Sync, log: Log)
    requires Inv(c, s, log) && s.phase == REDOWNLOAD && !s.releaseAll
    ensures log.red != log.pre
  {
  }

  lemma RunOne(c: Chain, s: Sync, log: Log, m: Batch)
    ensures Run(c, s, [m]) == Next(c, s, m.headers, m.full).0
    ensures RunLog(c, s, log, [m]) == NextLog(c, s, log, m)
  {
    assert [m][1..] == [];
  }

  lemma RunNext(c: Chain, s: Sync, log: Log, ms: seq<Batch>, k: nat)
    requires 1 <= k <= |ms|
    ensures var t := Next(c, s, ms[0].headers, ms[0].full).0; var log' := NextLog(c, s, log, ms[0]);
      Run(c, s, ms[..k]) == Run(c, t, ms[1..][..k - 1]) && RunLog(c, s, log, ms[..k]) == RunLog(c, t, log', ms[1..][..k - 1])
  {
    hide Next, NextLog;
    assert ms[..k][1..] == ms[1..][..k - 1];
  }

  lemma FlattenFront(red: seq<Header>, ms: seq<Batch>)
    requires ms != []
    ensures red + ms[0].headers <= red + Flatten(ms)
    ensures red + ms[0].headers + Flatten(ms[1..]) == red + Flatten(ms)
  {
    var h, f := ms[0].headers, Flatten(ms[1..]);
    assert Flatten(ms) == h + f;
    JoinThree(red, h, f);
  }

  lemma JoinThree(a: seq<Header>, b: seq<Header>, c: seq<Header>)
    ensures a + b <= a + (b + c) && a + b + c == a + (b + c)
  {
  }

  lemma FlattenNext(red: seq<Header>, ms: seq<Batch>, n: nat)
    requires 0 <= n < |ms|
    ensures red + ms[0].headers + Flatten(ms[1..][..n]) == red + Flatten(ms[..n + 1])
  {
    assert ms[..n + 1][1..] == ms[1..][..n];
  }
}
