/**
 The exact reply to any batch, and an honest peer from the very beginning: a chain with enough work,
 sent twice, is accepted and released.
 */
module HeadersHonest {
  import opened HeadersModel
  import opened HeadersProofs
  import opened HeadersBuffer

  // ----- The first phase -----

  /** A chain the first phase takes: unbroken, within the difficulty rule and the memory limit. */
  ghost predicate Takable(c: Chain, hs: seq<Header>) {
    Linked(c, hs) && Permitted(c, hs) && |Bits(c, hs, 0)| <= c.maxCommitments
  }

  lemma LinkedPart(c: Chain, hs: seq<Header>, k: nat)
    requires k <= |hs| && Linked(c, hs)
    ensures Linked(c, hs[..k])
  {
    forall i | 0 <= i < k
      ensures LinkedAt(c, hs[..k], i)
    {
      assert LinkedAt(c, hs, i);
    }
  }

  lemma PermittedPart(c: Chain, hs: seq<Header>, k: nat)
    requires k <= |hs| && Permitted(c, hs)
    ensures Permitted(c, hs[..k])
  {
    forall i | 0 <= i < k
      ensures PermittedAt(c, hs[..k], i)
    {
      assert PermittedAt(c, hs, i);
    }
  }

  lemma {:induction false} BitsPart(c: Chain, hs: seq<Header>, k: nat)
    requires k <= |hs|
    ensures |Bits(c, hs[..k], 0)| <= |Bits(c, hs, 0)|
    decreases |hs| - k
  {
    if k < |hs| {
      BitsPart(c, hs, k + 1);
      assert hs[..k + 1] == hs[..k] + [hs[k]];
      BitsMore(c, hs[..k], hs[k], 0);
    } else {
      assert hs[..k] == hs;
    }
  }

  lemma TakablePart(c: Chain, hs: seq<Header>, k: nat)
    requires k <= |hs| && Takable(c, hs)
    ensures Takable(c, hs[..k])
  {
    LinkedPart(c, hs, k);
    PermittedPart(c, hs, k);
    BitsPart(c, hs, k);
  }

  /** One header of the first phase is accepted exactly when the chain with it can be taken. */
  lemma ProcessOneIff(c: Chain, s: Sync, log: Log, h: Header)
    requires Sound(c, log) && PreOk(c, s, log) && Bounded(c, s) && h.prev == c.hash(s.last)
    ensures ProcessOne(c, s, h).1 <==> Takable(c, log.pre + [h])
  {
    hide Bits, Matches, Held;
    BitsMore(c, log.pre, h, 0);
    LinkedMore(c, log.pre, h);
    var more := log.pre + [h];
    assert Parent(c, more, |log.pre|) == Parent(c, log.pre, |log.pre|);
    if c.permitted(c.startHeight + |log.pre| + 1, Parent(c, log.pre, |log.pre|).bits, h.bits) {
      PermittedMore(c, log.pre, h);
    } else {
      assert !PermittedAt(c, more, |log.pre|);
    }
  }

  lemma TailContinuous(c: Chain, hs: seq<Header>)
    requires Continuous(c, hs) && hs != []
    ensures Continuous(c, hs[1..])
  {
    forall i | 0 < i < |hs[1..]|
      ensures hs[1..][i].prev == c.hash(hs[1..][i - 1])
    {
      assert hs[i + 1].prev == c.hash(hs[i]);
    }
  }

  lemma NextLinks(c: Chain, s: Sync, hs: seq<Header>)
    requires Continuous(c, hs) && |hs| > 1 && ProcessOne(c, s, hs[0]).1
    ensures hs[1..][0].prev == c.hash(ProcessOne(c, s, hs[0]).0.last)
  {
  }

  lemma {:induction false} ProcessAllIff(c: Chain, s: Sync, log: Log, hs: seq<Header>)
    requires Sound(c, log) && PreOk(c, s, log) && Bounded(c, s) && Continuous(c, hs)
    requires hs != [] ==> hs[0].prev == c.hash(s.last)
    ensures ProcessAll(c, s, hs).1 <==> hs == [] || Takable(c, log.pre + hs)
    decreases |hs|
  {
    hide Sound, Takable, PreOk, Bounded, ProcessOne, Continuous;
    if hs != [] {
      var (t, ok) := ProcessOne(c, s, hs[0]);
      var all, more := log.pre + hs, log.pre + [hs[0]];
      assert all[..|log.pre| + 1] == more;
      ProcessOneIff(c, s, log, hs[0]);
      if ok {
        ProcessOneKeeps(c, s, log, hs[0]);
        TailContinuous(c, hs);
        assert more + hs[1..] == all;
        if |hs| > 1 {
          NextLinks(c, s, hs);
        } else {
          assert all == more;
        }
        ProcessAllIff(c, t, log.(pre := more), hs[1..]);
      } else if Takable(c, all) {
        TakablePart(c, all, |log.pre| + 1);
      }
    }
  }

  /** What a batch of the first phase is answered, in every reachable state. */
  lemma FirstReply(c: Chain, s: Sync, log: Log, m: Batch)
    requires Inv(c, s, log) && s.phase == PRESYNC && Continuous(c, m.headers) && m.headers != []
    ensures var (t, r) := Next(c, s, m.headers, m.full); var all := log.pre + m.headers;
      && r.headers == []
      && (r.success <==> Takable(c, all))
      && (r.more <==> r.success && (m.full || Work(c, all) >= c.minWork))
      && (t.phase == REDOWNLOAD <==> r.success && Work(c, all) >= c.minWork)
      && (t.phase == PRESYNC <==> r.success && Work(c, all) < c.minWork && m.full)
      && (r.success ==> NextLog(c, s, log, m) == log.(pre := all))
  {
    hide Sound, Takable, ProcessAll, PreOk, Work;
    var hs, all := m.headers, log.pre + m.headers;
    if hs[0].prev == c.hash(s.last) {
      ProcessAllIff(c, s, log, hs);
      ProcessAllKeeps(c, s, log, hs);
      var (t, ok, n) := ProcessAll(c, s, hs);
      if ok {
        PreWork(c, t, log.(pre := all));
        assert hs[..|hs|] == hs;
      }
    } else {
      NotTakable(c, s, log, hs);
    }
  }

  lemma PreWork(c: Chain, s: Sync, log: Log)
    requires PreOk(c, s, log)
    ensures s.work == Work(c, log.pre)
  {
  }

  lemma NotTakable(c: Chain, s: Sync, log: Log, hs: seq<Header>)
    requires PreOk(c, s, log) && hs != [] && hs[0].prev != c.hash(s.last)
    ensures !Takable(c, log.pre + hs)
  {
    var all := log.pre + hs;
    assert Parent(c, all, |log.pre|) == s.last;
    assert !LinkedAt(c, all, |log.pre|);
  }

  // ----- The second phase -----

  /** One header of the second phase is accepted exactly when the chain with it is unbroken, within the rule, and
      has the bits committed to. */
  lemma StoreOneIff(c: Chain, s: Sync, log: Log, h: Header)
    requires c.bufferSize >= 1 && Sound(c, log) && RedOk(c, s, log) && Kept(c, log)
    ensures StoreOne(c, s, h).1 <==>
      var red := log.red + [h]; Linked(c, red) && Permitted(c, red) && Matches(c, log.pre, red)
  {
    hide Bits, Held;
    var red, k := log.red + [h], |log.red|;
    assert red[..k + 1] == red;
    WorkMore(c, log.red, h);
    assert Parent(c, red, k) == Parent(c, log.red, k);
    if log.red != [] {
      BufferBack(c, s, log);
    }
    if Committed(c, c.startHeight + k + 1) {
      BitsFront(c, log.pre, k);
    }
    if StoreOne(c, s, h).1 {
      StoreOneSound(c, s, log, h);
    } else {
      assert !LinkedAt(c, red, k) || !PermittedAt(c, red, k) || !MatchedAt(c, log.pre, red, k);
    }
  }

  ghost predicate Repeats(c: Chain, pre: seq<Header>, red: seq<Header>) {
    Linked(c, red) && Permitted(c, red) && Matches(c, pre, red)
  }

  lemma RepeatsPart(c: Chain, pre: seq<Header>, red: seq<Header>, k: nat)
    requires k <= |red| && Repeats(c, pre, red)
    ensures Repeats(c, pre, red[..k])
  {
    hide Work;
    LinkedPart(c, red, k);
    PermittedPart(c, red, k);
    forall i | 0 <= i < k
      ensures MatchedAt(c, pre, red[..k], i)
    {
      assert MatchedAt(c, pre, red, i);
      assert red[..k][..i + 1] == red[..i + 1];
    }
  }

  lemma {:induction false} StoreAllIff(c: Chain, s: Sync, log: Log, hs: seq<Header>)
    requires c.bufferSize >= 1 && Sound(c, log) && RedOk(c, s, log) && Kept(c, log)
    ensures StoreAll(c, s, hs).1 <==> hs == [] || Repeats(c, log.pre, log.red + hs)
    decreases |hs|
  {
    hide Sound, RedOk, StoreOne, Linked, Permitted, Matches, Kept;
    if hs != [] {
      var (t, ok) := StoreOne(c, s, hs[0]);
      var all := log.red + hs;
      assert all[..|log.red| + 1] == log.red + [hs[0]];
      StoreOneIff(c, s, log, hs[0]);
      if ok {
        StoreOneKeeps(c, s, log, hs[0]);
        assert log.red + [hs[0]] + hs[1..] == all;
        if hs[1..] == [] {
          assert all == log.red + [hs[0]];
        }
        StoreAllIff(c, t, log.(red := log.red + [hs[0]]), hs[1..]);
      } else if Repeats(c, log.pre, all) {
        RepeatsPart(c, log.pre, all, |log.red| + 1);
      }
    }
  }

  /** What a batch of the second phase is answered, in every reachable state: accepted exactly when it goes on
      repeating the chain, with everything released and no more asked for once there is enough work. */
  lemma SecondReply(c: Chain, s: Sync, log: Log, m: Batch)
    requires c.bufferSize >= 1 && Inv(c, s, log) && s.phase == REDOWNLOAD && m.headers != []
    ensures var (t, r) := Next(c, s, m.headers, m.full); var all := log.red + m.headers; var log' := NextLog(c, s, log, m);
      && (r.success <==> Repeats(c, log.pre, all))
      && (r.more <==> r.success && m.full && Work(c, all) < c.minWork)
      && (r.success ==> log'.red == all)
      && (r.success && Work(c, all) >= c.minWork ==> log'.released == all)
      && (r.success && Work(c, all) < c.minWork ==>
            |log'.released| == if |all| <= |log.released| + c.bufferSize then |log.released| else |all| - c.bufferSize)
      && (!r.success ==> r.headers == [])
  {
    hide Sound, Kept, Bounded, Worthy, StoreAll, Pop, Repeats, Bits, Matches;
    var hs := m.headers;
    StoreAllIff(c, s, log, hs);
    StoreAllKeeps(c, s, log, hs);
    assert hs[..|hs|] == hs;
    var (t, ok, n) := StoreAll(c, s, hs);
    if ok {
      var log1 := log.(red := log.red + hs);
      SoundLinked(c, log1);
      PopKeeps(c, t, log1);
      var (u, out) := Pop(c, t);
      BufferSize(c, t, log1);
      BufferSize(c, u, log1.(released := log1.released + out));
    }
  }

  lemma BufferSize(c: Chain, s: Sync, log: Log)
    requires RedOk(c, s, log)
    ensures |s.buffer| == |log.red| - |log.released| && log.released <= log.red
    ensures s.releaseAll <==> log.red != [] && Work(c, log.red) >= c.minWork
  {
  }

  // ----- An honest peer from the beginning -----

  /** A chain sent in non-empty batches, all but the last full and short of the work. */
  ghost predicate SendsOnce(c: Chain, hs: seq<Header>, ms: seq<Batch>) {
    && ms != [] && Flatten(ms) == hs
    && (forall j :: 0 <= j < |ms| ==> ms[j].headers != [])
    && (forall j :: 0 <= j < |ms| - 1 ==> ms[j].full && Work(c, Flatten(ms[..j + 1])) < c.minWork)
  }

  lemma {:induction false} FlattenJoin(a: seq<Batch>, b: seq<Batch>)
    ensures Flatten(a + b) == Flatten(a) + Flatten(b)
    decreases |a|
  {
    if a == [] {
      assert a + b == b;
    } else {
      FlattenJoin(a[1..], b);
      assert (a + b)[1..] == a[1..] + b;
    }
  }

  lemma {:induction false} RunJoin(c: Chain, s: Sync, log: Log, a: seq<Batch>, m: Batch)
    ensures Run(c, s, a + [m]) == Next(c, Run(c, s, a), m.headers, m.full).0
    ensures RunLog(c, s, log, a + [m]) == NextLog(c, Run(c, s, a), RunLog(c, s, log, a), m)
    decreases |a|
  {
    hide Next, NextLog;
    if a == [] {
      assert a + [m] == [m];
      RunOne(c, s, log, m);
    } else {
      RunJoin(c, Next(c, s, a[0].headers, a[0].full).0, NextLog(c, s, log, a[0]), a[1..], m);
      assert (a + [m])[1..] == a[1..] + [m];
    }
  }

  lemma SliceContinuous(c: Chain, hs: seq<Header>, i: nat, j: nat)
    requires Linked(c, hs) && i <= j <= |hs|
    ensures Continuous(c, hs[i..j])
  {
    forall k | 0 < k < j - i
      ensures hs[i..j][k].prev == c.hash(hs[i..j][k - 1])
    {
      assert LinkedAt(c, hs, i + k);
    }
  }

  /** The state and the log after the first `k` batches. */
  lemma {:induction false} FirstRun(c: Chain, hs: seq<Header>, ms: seq<Batch>, k: nat)
    requires Takable(c, hs) && SendsOnce(c, hs, ms) && Work(c, hs) >= c.minWork && k <= |ms|
    ensures var s, log := Run(c, Begin(c), ms[..k]), RunLog(c, Begin(c), NO_LOG, ms[..k]);
      && Inv(c, s, log) && log == Log(Flatten(ms[..k]), [], [])
      && s.phase == (if k < |ms| then PRESYNC else REDOWNLOAD)
    ensures forall j :: 0 <= j < k ==> Reply(c, Begin(c), ms, j).success && Reply(c, Begin(c), ms, j).more
    decreases k
  {
    hide Inv, Next, NextLog, Run, RunLog, Takable, Work, Flatten;
    if k == 0 {
      assert ms[..0] == [];
      RunNone(c, Begin(c));
      RunLogNone(c, Begin(c), NO_LOG);
      BeginInv(c);
      NoneFlatten();
    } else {
      FirstRun(c, hs, ms, k - 1);
      var m, before := ms[k - 1], ms[..k - 1];
      assert ms[..k] == before + [m];
      var s, log := Run(c, Begin(c), before), RunLog(c, Begin(c), NO_LOG, before);
      RunJoin(c, Begin(c), NO_LOG, before, m);
      FlattenJoin(before, [m]);
      OneFlatten(m);
      FlattenJoin(ms[..k], ms[k..]);
      assert ms == ms[..k] + ms[k..];
      var a, b := |Flatten(before)|, |Flatten(ms[..k])|;
      assert hs[..b] == Flatten(ms[..k]) && hs[a..b] == m.headers;
      TakablePart(c, hs, b);
      SliceOfTakable(c, hs, a, b);
      FirstReply(c, s, log, m);
      NextKeeps(c, s, log, m);
      if k == |ms| {
        assert ms[..k] == ms;
      }
    }
  }

  lemma SliceOfTakable(c: Chain, hs: seq<Header>, i: nat, j: nat)
    requires Takable(c, hs) && i <= j <= |hs|
    ensures Continuous(c, hs[i..j])
  {
    SliceContinuous(c, hs, i, j);
  }

  lemma RunLogNone(c: Chain, s: Sync, log: Log)
    ensures RunLog(c, s, log, []) == log
  {
  }

  /**
   A peer that sends a chain with enough work, whatever the size of its last message, is asked for
   more every time and gets the machine to the second phase; sending the chain again completes.
   */
  lemma SentTwice(c: Chain, hs: seq<Header>, first: seq<Batch>, again: seq<Batch>)
    requires Takable(c, hs) && Work(c, hs) >= c.minWork && SendsOnce(c, hs, first)
    ensures Run(c, Begin(c), first).phase == REDOWNLOAD && RunLog(c, Begin(c), NO_LOG, first) == Log(hs, [], [])
    ensures forall j :: 0 <= j < |first| ==> Reply(c, Begin(c), first, j).success && Reply(c, Begin(c), first, j).more
    ensures var s, log := Run(c, Begin(c), first), RunLog(c, Begin(c), NO_LOG, first);
      c.bufferSize >= 1 && Resends(c, log, again) ==> exists k: nat :: k <= |again| && Completes(c, s, log, again, k)
  {
    hide Inv, Run, RunLog, Takable, Work, Flatten, Resends, Completes;
    FirstRun(c, hs, first, |first|);
    assert first[..|first|] == first;
    var s, log := Run(c, Begin(c), first), RunLog(c, Begin(c), NO_LOG, first);
    if c.bufferSize >= 1 && Resends(c, log, again) {
      FirstContinuous(c, hs, first);
      HonestGetsThrough(c, first, again);
    }
  }

  lemma FirstContinuous(c: Chain, hs: seq<Header>, ms: seq<Batch>)
    requires Takable(c, hs) && Flatten(ms) == hs
    ensures AllContinuous(c, ms)
  {
    hide Takable, Flatten, Continuous;
    forall j | 0 <= j < |ms|
      ensures Continuous(c, ms[j].headers)
    {
      FlattenJoin(ms[..j], [ms[j]]);
      FlattenJoin(ms[..j + 1], ms[j + 1..]);
      OneFlatten(ms[j]);
      assert ms == ms[..j + 1] + ms[j + 1..] && ms[..j + 1] == ms[..j] + [ms[j]];
      var a, b := |Flatten(ms[..j])|, |Flatten(ms[..j + 1])|;
      assert hs[a..b] == ms[j].headers;
      SliceOfTakable(c, hs, a, b);
    }
  }
}
