/**
 The look-ahead buffer must hold at least one header, and one is enough: for the difficulty rule
 on what is let through, and for an honest peer not to be refused.
 */
module HeadersBuffer {
  import opened HeadersModel
  import opened HeadersProofs

  const NO_LOG := Log([], [], [])

  ghost predicate AllContinuous(c: Chain, ms: seq<Batch>) {
    forall m :: m in ms ==> Continuous(c, m.headers)
  }

  /** Whatever a peer sends, every redownloaded header passed the difficulty rule against its real predecessor. */
  ghost predicate AlwaysPermitted(n: nat) {
    forall c: Chain, ms: seq<Batch> :: c.bufferSize == n && AllContinuous(c, ms) ==>
      Permitted(c, RunLog(c, Begin(c), NO_LOG, ms).red)
  }

  /** The chain of the first phase again, in non-empty batches; only a batch that completes the work may be short. */
  ghost predicate Resends(c: Chain, log: Log, ms: seq<Batch>) {
    && log.red == [] && Flatten(ms) == log.pre
    && forall j :: 0 <= j < |ms| ==> ms[j].headers != [] && (ms[j].full || Work(c, Flatten(ms[..j + 1])) >= c.minWork)
  }

  /** The first `k` batches are accepted, and with the last of them everything is released and the machine stops. */
  ghost predicate Completes(c: Chain, s: Sync, log: Log, ms: seq<Batch>, k: nat)
    requires k <= |ms|
  {
    && Run(c, s, ms[..k]).phase == FINAL
    && (forall j :: 0 <= j < k ==> Reply(c, s, ms, j).success)
    && var end := RunLog(c, s, log, ms[..k]);
      end.released == end.red == Flatten(ms[..k]) && Work(c, end.red) >= c.minWork
  }

  ghost predicate GetsThrough(c: Chain, first: seq<Batch>, again: seq<Batch>) {
    var s, log := Run(c, Begin(c), first), RunLog(c, Begin(c), NO_LOG, first);
    s.phase == REDOWNLOAD && Resends(c, log, again) ==> exists k: nat :: k <= |again| && Completes(c, s, log, again, k)
  }

  /** A peer that sends a chain with enough work, and then the same chain again, gets it accepted. */
  ghost predicate AlwaysAccepted(n: nat) {
    forall c: Chain, first: seq<Batch>, again: seq<Batch> :: c.bufferSize == n && AllContinuous(c, first) ==>
      GetsThrough(c, first, again)
  }

  // ----- One header is enough -----

  lemma HonestGetsThrough(c: Chain, first: seq<Batch>, again: seq<Batch>)
    requires c.bufferSize >= 1 && AllContinuous(c, first)
    ensures GetsThrough(c, first, again)
  {
    var s, log := Run(c, Begin(c), first), RunLog(c, Begin(c), NO_LOG, first);
    if s.phase == REDOWNLOAD && Resends(c, log, again) {
      BeginInv(c);
      RunKeeps(c, Begin(c), NO_LOG, first);
      forall fs: seq<Header>
        ensures log.red + fs == fs
      {
      }
      var k := HonestRun(c, s, log, again);
      assert Completes(c, s, log, again, k);
    }
  }

  // ----- No header is not -----

  /** A rule under which the difficulty field counts up by one, and no look-ahead buffer. */
  function Unbuffered(): Chain {
    Chain((h: Header) => h.nonce, (_: Hash) => false, (_: int, was: int, now: int) => now == was + 1,
          (_: Header) => 1, 1000, 999, 0, Header(0, 0, 0, 0, 0, 0), 0, 0, 3, 10)
  }

  const H1 := Header(0, 0, 0, 0, 1, 1)
  const H2 := Header(0, 1, 0, 0, 2, 2)
  const H3 := Header(0, 2, 0, 0, 3, 3)
  /** A second header whose difficulty field does not follow its predecessor's. */
  const H2_BAD := Header(0, 1, 0, 0, 1, 7)

  const FIRST := Batch([H1, H2, H3], true)

  /** The machine once the whole chain has been seen, and once its first header has come again. */
  function Seen(): Sync {
    Sync(REDOWNLOAD, 3, [], H3, 3, [], 0, 0, 0, 0, false)
  }

  function Again(): Sync {
    Sync(REDOWNLOAD, 3, [], H3, 3, [], 1, 1, 1, 1, false)
  }

  lemma ProcessThree(c: Chain, s: Sync, x: Header, y: Header, z: Header)
    requires ProcessOne(c, s, x).1
    requires ProcessOne(c, ProcessOne(c, s, x).0, y).1
    requires ProcessOne(c, ProcessOne(c, ProcessOne(c, s, x).0, y).0, z).1
    ensures ProcessAll(c, s, [x, y, z]) == (ProcessOne(c, ProcessOne(c, ProcessOne(c, s, x).0, y).0, z).0, true, 3)
  {
    hide ProcessOne;
    var s1 := ProcessOne(c, s, x).0;
    var s2 := ProcessOne(c, s1, y).0;
    var s3 := ProcessOne(c, s2, z).0;
    assert ProcessAll(c, s3, []) == (s3, true, 0);
    assert [z][1..] == [] && ProcessAll(c, s2, [z]) == (s3, true, 1);
    assert [y, z][1..] == [z] && ProcessAll(c, s1, [y, z]) == (s3, true, 2);
    assert [x, y, z][1..] == [y, z];
  }

  lemma FirstPhase()
    ensures Next(Unbuffered(), Begin(Unbuffered()), FIRST.headers, true).0 == Seen()
    ensures NextLog(Unbuffered(), Begin(Unbuffered()), NO_LOG, FIRST) == Log([H1, H2, H3], [], [])
  {
    var c := Unbuffered();
    var s0 := Begin(c);
    var (s1, ok1) := ProcessOne(c, s0, H1);
    var (s2, ok2) := ProcessOne(c, s1, H2);
    var (s3, ok3) := ProcessOne(c, s2, H3);
    assert ok1 && ok2 && ok3;
    ProcessThree(c, s0, H1, H2, H3);
    assert StartRedownload(c, s3) == Seen();
    assert FIRST.headers[..3] == FIRST.headers;
  }

  /** A single redownloaded header that is accepted leaves an empty buffer and is released at once. */
  lemma PassesThrough(c: Chain, s: Sync, log: Log, h: Header)
    requires c.bufferSize == 0 && s.phase == REDOWNLOAD && s.buffer == [] && s.bufferFirstPrev == h.prev
    requires StoreOne(c, s, h).1 && !StoreOne(c, s, h).0.releaseAll
    ensures Next(c, s, [h], true) ==
      (StoreOne(c, s, h).0.(buffer := [], bufferFirstPrev := c.hash(h)), Result([h], true, true))
    ensures NextLog(c, s, log, Batch([h], true)) == log.(red := log.red + [h], released := log.released + [h])
  {
    var t := StoreOne(c, s, h).0;
    assert StoreAll(c, s, [h]) == (t, true, 1) by {
      hide StoreOne;
      assert [h][1..] == [];
      assert StoreAll(c, t, []) == (t, true, 0);
    }
    assert t.buffer == [Compress(h)] && t.buffer[1..] == [];
    var u := t.(buffer := [], bufferFirstPrev := c.hash(h));
    assert Pop(c, u) == (u, []);
    assert Expand(t.buffer[0], t.bufferFirstPrev) == h;
    assert [h] + [] == [h];
    assert Pop(c, t.(buffer := t.buffer[1..], bufferFirstPrev := c.hash(h))) == (u, []);
    assert Pop(c, t) == (u, [h]);
    assert [h][..1] == [h];
  }

  lemma RunTwice(c: Chain, s: Sync, log: Log, x: Batch, y: Batch)
    ensures var t := Next(c, s, x.headers, x.full).0;
      && Run(c, s, [x, y]) == Next(c, t, y.headers, y.full).0
      && RunLog(c, s, log, [x, y]) == NextLog(c, t, NextLog(c, s, log, x), y)
  {
    hide Next, NextLog;
    assert [x, y][1..] == [y];
    RunOne(c, Next(c, s, x.headers, x.full).0, NextLog(c, s, log, x), y);
  }

  lemma FirstAgain(log: Log)
    ensures Next(Unbuffered(), Seen(), [H1], true) == (Again(), Result([H1], true, true))
    ensures NextLog(Unbuffered(), Seen(), log, Batch([H1], true)) ==
            log.(red := log.red + [H1], released := log.released + [H1])
  {
    PassesThrough(Unbuffered(), Seen(), log, H1);
  }

  /** With an empty buffer the rule is applied against the start header, and a header that breaks it is let through. */
  lemma LetThrough()
    ensures var c, ms := Unbuffered(), [FIRST, Batch([H1], true), Batch([H2_BAD], true)];
      var log := RunLog(c, Begin(c), NO_LOG, ms);
      && AllContinuous(c, ms) && log.red == log.released == [H1, H2_BAD] && !Permitted(c, log.red)
  {
    hide Next, NextLog, Run, RunLog;
    var c, m1, m2, m3 := Unbuffered(), FIRST, Batch([H1], true), Batch([H2_BAD], true);
    var log := Log([H1, H2, H3], [], []);
    FirstPhase();
    FirstAgain(log);
    assert log.red + [H1] == [H1] && log.released + [H1] == [H1];
    PassesThrough(c, Again(), log.(red := [H1], released := [H1]), H2_BAD);
    RunTwice(c, Seen(), log, m2, m3);
    assert [H1] + [H2_BAD] == [H1, H2_BAD];
    RunFront(c, Begin(c), NO_LOG, [m1, m2, m3]);
    assert [m1, m2, m3][1..] == [m2, m3];
    assert !PermittedAt(c, [H1, H2_BAD], 1);
  }

  lemma RunFront(c: Chain, s: Sync, log: Log, ms: seq<Batch>)
    requires ms != []
    ensures var t := Next(c, s, ms[0].headers, ms[0].full).0;
      && Run(c, s, ms) == Run(c, t, ms[1..]) && RunLog(c, s, log, ms) == RunLog(c, t, NextLog(c, s, log, ms[0]), ms[1..])
  {
    hide Next, NextLog;
  }

  const AGAIN := [Batch([H1], true), Batch([H2], true), Batch([H3], true)]

  /** The honest chain, sent again one header at a time, is refused at its second header. */
  lemma TurnedAway()
    ensures AllContinuous(Unbuffered(), [FIRST]) && !GetsThrough(Unbuffered(), [FIRST], AGAIN)
  {
    hide Next, NextLog, Run, RunLog, Flatten, Work;
    var c := Unbuffered();
    var log := Log([H1, H2, H3], [], []);
    FirstPhase();
    RunOne(c, Begin(c), NO_LOG, FIRST);
    ResendsAll();
    FirstAgain(log);
    assert AGAIN[..0] == [] && AGAIN[..1] == [AGAIN[0]];
    RunNone(c, Seen());
    RunOne(c, Seen(), log, AGAIN[0]);
    Refused();
    forall k: nat | k <= 3
      ensures !Completes(c, Seen(), log, AGAIN, k)
    {
      if k >= 2 {
        assert !Reply(c, Seen(), AGAIN, 1).success;
      }
    }
  }

  lemma Refused()
    ensures !Next(Unbuffered(), Again(), [H2], true).1.success
  {
  }

  lemma ResendsAll()
    ensures Resends(Unbuffered(), Log([H1, H2, H3], [], []), AGAIN)
  {
    assert AGAIN[1..] == [Batch([H2], true), Batch([H3], true)];
    assert AGAIN[1..][1..] == [Batch([H3], true)];
    OneFlatten(Batch([H3], true));
    assert Flatten(AGAIN[1..]) == [H2] + [H3];
    assert Flatten(AGAIN) == [H1] + ([H2] + [H3]);
  }

  /** What is let through always obeys the rule, and an honest peer is always accepted, exactly when the buffer
      holds at least one header. */
  lemma BufferNeeded(n: nat)
    ensures AlwaysPermitted(n) <==> n >= 1
    ensures AlwaysAccepted(n) <==> n >= 1
  {
    hide RunLog, GetsThrough, Permitted, AllContinuous;
    if n >= 1 {
      forall c: Chain, ms: seq<Batch> | c.bufferSize == n && AllContinuous(c, ms)
        ensures Permitted(c, RunLog(c, Begin(c), NO_LOG, ms).red)
      {
        SoundRun(c, ms);
      }
      forall c: Chain, first: seq<Batch>, again: seq<Batch> | c.bufferSize == n && AllContinuous(c, first)
        ensures GetsThrough(c, first, again)
      {
        HonestGetsThrough(c, first, again);
      }
    } else {
      LetThrough();
      TurnedAway();
      assert Unbuffered().bufferSize == n;
    }
  }

  lemma SoundRun(c: Chain, ms: seq<Batch>)
    requires c.bufferSize >= 1 && AllContinuous(c, ms)
    ensures Permitted(c, RunLog(c, Begin(c), NO_LOG, ms).red)
  {
    ReachableSound(c, ms);
  }
}
