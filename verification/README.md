# Verified model of the Bitcoin Core logic behind the Swift package

The repository is a Swift layer over vendored Bitcoin Core sources. This project models the
stateful and encoding logic of those C++ sources in Dafny 4.11 and proves what the code is for.
`dafny verify dfyconfig.toml` checks everything.

The files fall into these parts:

- `Basics`, `Sets`: what the other parts share.
- `AddrTypes`, `AddrOps`, `AddrInv`, `AddrProofs`, `AddrEffects`, `AddrTimes`, `AddrRuns`,
  `AddrCollisions`, `AddrQueries`, `AddrTables`, `AddrMan`, `AddrCheck`: the address manager. `Book` is its whole state as a value,
  `AddrOps` what each operation does to it, `AddrInv.Inv` the invariant. Class `AddrMan` has the
  program's maps, lists, counters and two fixed tables, and each method states its effect as the
  `AddrOps` function. The invariant holds for every clock reading; `AddrTimes` says which readings
  also keep the recorded times in order. `CheckAddrman` is modelled loop by loop and proved
  equivalent to the two together minus the four facts it does not look at.
- `AddrDisk`, `AddrDiskProofs`, `AddrRebucket`, `AddrStore`: the address manager written to and read
  from a file, under the same asmap or another.
- `HeadersModel`, `HeadersProofs`, `HeadersBuffer`, `HeadersHonest`, `HeadersSync`: the headers
  pre-synchronisation protocol.
- `MerkleModel`, `MerkleProofs`, `MerkleTrees`, `Merkle`: partial Merkle trees (BIP 37, section "Partial Merkle
  branch format").
- `Radix`, `Base58Carry`, `Base58`: base58 text.
- `Bech32Checksum`, `Bech32Field`, `Bech32Distance`, `Bech32`: Bech32 and Bech32m text (BIP 173,
  section "Bech32"; BIP 350, section "Bech32m").
- `CompactModel`, `CompactProofs`, `CompactChoices`, `CompactBlocks`: compact block reconstruction (BIP 152, sections
  "HeaderAndShortIDs" and "Short transaction IDs"). `Bits`, `BitStreams`, `FilterModel`,
  `BlockFilter`, `FilterGrammar`: Golomb-coded block filters (BIP 158, section "Golomb-Coded Sets").

Conventions. Hash functions, keys, bucket hashes, the netgroup map, address predicates, the
difficulty rule, proof-of-work and the block mutation test are arbitrary functions passed in (`Env`,
`Chain`, `H`, `sid`, `sum`, `mutated`); where a result needs one to be injective, its `requires` says
so. Clock readings, random draws and the iteration order of unordered containers are arguments.
Exceptions are `None` or a status. The lock held across each address-manager operation makes every
operation one atomic step.

Where code and promise part, the code is kept:

- The pre-sync look-ahead buffer must hold at least one header, or an honest chain is refused and a
  chain with a forbidden difficulty change is let through: `HeadersBuffer.BufferNeeded` has both as
  equivalences over the buffer size, `HeadersBuffer.LetThrough` and `HeadersBuffer.TurnedAway` the
  runs that fail.
- The address manager's own consistency check finds fault after `Good` or `Attempt` with a clock at
  or before the epoch: `AddrCheck.StepChecked` is the exact condition. Saved successes out of order
  make a file unreadable: `AddrDiskProofs.RoundTrip`.
- A block filter with more than 0x02000000 elements can be built but not read or queried, because the
  size reader refuses its count: `FilterModel.SizeBack`, `BlockFilter.BuiltLoads` and
  `BlockFilter.BuiltAnswers` give the exact condition.
- A loaded filter whose running totals wrap 64 bits can hold numbers the search does not find:
  `BlockFilter.WrapsAround` is such a filter, `BlockFilter.LoadedAnswers` says what is found and
  `BlockFilter.ExactWhen` when that is everything.
- A partially downloaded block whose transaction counter is left over from an earlier block can stop
  its scan before it has found everything: `CompactBlocks.SecondBlock` drives one object through two
  blocks, and `CompactProofs.CountMatters` is the exact condition on the counter. The block is rebuilt
  all the same (`CompactBlocks.Relay`), and `net_processing.cpp` makes a new object for every block
  (lines 1260, 4670 and 4729), so its counter starts at zero.
- Slot numbers are kept in sixteen bits, so short ids lead to their own slots only up to 65536
  transactions: `CompactProofs.OwnSlots`. The message reader refuses more than 65535.

## Model

| member | source | states |
|---|---|---|
| `AddrMan.AddrMan.constructor` | Sources/bitcoind/src/addrman.cpp:109-125 | an empty manager with a non-null key satisfies the whole invariant |
| `AddrMan.AddrMan.SwapRandom` | Sources/bitcoind/src/addrman.cpp:432-454 | exchanges two places of the random list and keeps the back pointers right |
| `AddrMan.AddrMan.Create` | Sources/bitcoind/src/addrman.cpp:416-430 | a new entry under the next id, indexed, last in the random list and counted as new |
| `AddrMan.AddrMan.Delete` | Sources/bitcoind/src/addrman.cpp:456-471 | forgets an entry without references; the asserts hold, the counters it lowers are positive and the invariant is kept |
| `AddrMan.AddrMan.ClearNew` | Sources/bitcoind/src/addrman.cpp:473-489 | empties a new slot, forgets its occupant if that was its last reference, and keeps the invariant |
| `AddrMan.AddrMan.SweepNew` | Sources/bitcoind/src/addrman.cpp:495-509 | the sweep that stops when the reference count reaches zero removes every reference the entry has, so the assert after it holds |
| `AddrMan.AddrMan.LeaveTried` | Sources/bitcoind/src/addrman.cpp:517-526 | the occupant of a tried slot exists, leaves the table and the tried counters |
| `AddrMan.AddrMan.MakeRoom` | Sources/bitcoind/src/addrman.cpp:515-541 | the occupant of the tried slot moves to the new table at the place its own source calls for |
| `AddrMan.AddrMan.EnterNew` | Sources/bitcoind/src/addrman.cpp:534-538 | the displaced entry is back in the new table with one reference and counted as new |
| `AddrMan.AddrMan.EnterTried` | Sources/bitcoind/src/addrman.cpp:542-547 | the entry fills its tried slot, is marked tried and counted as tried |
| `AddrMan.AddrMan.MakeTried` | Sources/bitcoind/src/addrman.cpp:491-548 | moves an entry to the tried table; all asserts hold and the invariant is kept |
| `AddrMan.AddrMan.Place` | Sources/bitcoind/src/addrman.cpp:599-624 | the entry takes the slot its source calls for, or is forgotten if it has no reference; the invariant is kept |
| `AddrMan.AddrMan.AddSingle` | Sources/bitcoind/src/addrman.cpp:550-624 | adding one address, for every clock and random draw; the invariant is kept |
| `AddrMan.AddrMan.Add` | Sources/bitcoind/src/addrman.cpp:681-691 | adding a list is adding its addresses in turn; the result says whether any of them was inserted |
| `AddrMan.AddrMan.Good` | Sources/bitcoind/src/addrman.cpp:626-679 | a successful connection at any clock reading, with or without the collision test; with the test the invariant is kept. What it does is `AddrCollisions.GoodCollisions`, `GoodStamps` and `GoodPromotes` |
| `AddrMan.AddrMan.Attempt` | Sources/bitcoind/src/addrman.cpp:693-711 | a connection attempt at any clock reading changes only the attempt fields of that entry and keeps the invariant |
| `AddrMan.AddrMan.Connected` | Sources/bitcoind/src/addrman.cpp:877-894 | a live connection changes only the timestamp and keeps the invariant |
| `AddrMan.AddrMan.SetServices` | Sources/bitcoind/src/addrman.cpp:896-910 | changes only the service flags and keeps the invariant |
| `AddrMan.AddrMan.ResolveRound` | Sources/bitcoind/src/addrman.cpp:916-972 | one pending collision is dropped, kept or resolved as the times of the two entries say |
| `AddrMan.AddrMan.ResolveCollisions` | Sources/bitcoind/src/addrman.cpp:912-973 | every pending collision is judged once, in ascending order, and the invariant is kept |
| `AddrMan.AddrMan.SelectTriedCollision` | Sources/bitcoind/src/addrman.cpp:975-1001 | the slot of a pending collision is always occupied by a known entry, which is what is returned; a stale id is dropped |
| `AddrMan.AddrMan.Census` | Sources/bitcoind/src/addrman.cpp:719-738 | the counters of the requested networks are the true numbers of candidate entries |
| `AddrMan.AddrMan.Scan` | Sources/bitcoind/src/addrman.cpp:763-783 | the first wanted entry of the bucket going around from the start, or none exactly when the bucket offers none |
| `AddrMan.AddrMan.Select` | Sources/bitcoind/src/addrman.cpp:713-794 | gives up exactly when nothing can be selected; otherwise settles on a table as the counts and the coin say, and returns what the first accepted round on an offering bucket finds |
| `AddrMan.AddrMan.GetAddr` | Sources/bitcoind/src/addrman.cpp:812-851 | distinct eligible entries within the quota, and all eligible ones when the quota is not reached; only the random order changes |
| `AddrInv.TalliedMoved` | Sources/bitcoind/src/addrman.cpp:1154-1163 | when one entry changes side or network, moving the counters by that much keeps them the true counts |
| `AddrInv.SwapCore` | Sources/bitcoind/src/addrman.cpp:432-454 | swapping in the random list keeps every part of the invariant |
| `AddrInv.CreateCore` | Sources/bitcoind/src/addrman.cpp:416-430 | creating keeps the invariant, with the newcomer still without reference |
| `AddrInv.DeleteCore` | Sources/bitcoind/src/addrman.cpp:456-471 | deleting keeps the invariant and leaves the other entries alone but for their place in the random list |
| `AddrInv.SweepCore` | Sources/bitcoind/src/addrman.cpp:495-509 | taking an entry out of all new buckets keeps the invariant, with that entry in neither table |
| `AddrInv.UntryCore` | Sources/bitcoind/src/addrman.cpp:517-526 | taking an entry out of the tried table keeps the invariant, with that entry in neither table |
| `AddrInv.ReenterCore` | Sources/bitcoind/src/addrman.cpp:534-538 | re-entering the new table restores the balance |
| `AddrInv.EnterTriedCore` | Sources/bitcoind/src/addrman.cpp:542-547 | entering the tried table restores the balance |
| `AddrInv.RefsOfTried` | Sources/bitcoind/src/addrman.cpp:1080-1086 | tried entries hold no reference in the new table |
| `AddrProofs.ClearNewCore` | Sources/bitcoind/src/addrman.cpp:473-489 | clearing a slot keeps the invariant, frees exactly that slot and loses at most its occupant |
| `AddrProofs.EvictCore` | Sources/bitcoind/src/addrman.cpp:515-541 | eviction keeps the invariant and the evicted entry survives with one reference |
| `AddrProofs.MakeTriedCore` | Sources/bitcoind/src/addrman.cpp:491-548 | promotion keeps the invariant; the entry holds its tried slot and the one before it is back in the new table with one reference |
| `AddrProofs.PlaceCore` | Sources/bitcoind/src/addrman.cpp:599-624 | placing keeps the invariant and moves nobody between the tables |
| `AddrProofs.AddSingleKeeps` | Sources/bitcoind/src/addrman.cpp:550-624 | adding one address keeps the invariant and changes no tried slot |
| `AddrProofs.GoodKeeps` | Sources/bitcoind/src/addrman.cpp:626-679 | marking an entry good keeps the invariant, vacates no tried slot and demotes nobody |
| `AddrProofs.JudgeEvicts` | Sources/bitcoind/src/addrman.cpp:916-970 | a pending collision still known has an occupied slot, so the branch for a vanished collision is unreachable; an entry is evicted if and only if the stated ages hold |
| `AddrProofs.ResolveKeeps` | Sources/bitcoind/src/addrman.cpp:912-973 | resolving keeps the invariant; a tried entry stays or satisfies the eviction ages and is back in the new table with one reference |
| `AddrEffects.ClearNewEffect` | Sources/bitcoind/src/addrman.cpp:473-489 | the occupant loses one reference or, if it was the last, its entry; every other entry stays |
| `AddrEffects.PlaceEffect` | Sources/bitcoind/src/addrman.cpp:599-624 | exactly when a slot is taken from its occupant, and what each entry looks like after |
| `AddrEffects.AddKnownEffect` | Sources/bitcoind/src/addrman.cpp:563-595 | a known address gains at most one reference, at the slot its source calls for, and only if the announcement is worthwhile |
| `AddrEffects.AddUnknownEffect` | Sources/bitcoind/src/addrman.cpp:550-624 | an unknown address gets an entry with one reference, or leaves no trace but a used id; exactly when |
| `AddrEffects.RefreshForward` | Sources/bitcoind/src/addrman.cpp:566-573 | a repeated announcement only ever moves the timestamp forward, exactly when it is newer by more than penalty and interval, and only adds services |
| `AddrEffects.OneDrawInPow2` | Sources/bitcoind/src/addrman.cpp:589-593 | of 2^refs neighbouring draws exactly one lets an entry with that many references gain another |
| `AddrEffects.ConnectedEffect` | Sources/bitcoind/src/addrman.cpp:877-894 | a connection refreshes a timestamp more than twenty minutes old, and nothing else |
| `AddrEffects.ServicesEffect` | Sources/bitcoind/src/addrman.cpp:896-910 | only the services of the named address are replaced |
| `AddrEffects.ForgetEffect` | Sources/bitcoind/src/addrman.cpp:975-990 | a drawn collision is forgotten exactly when its entry is gone |
| `AddrEffects.TerribleStays` | Sources/bitcoind/src/addrman.cpp:69-92 | a terrible entry stays so until tried or announced again; one tried in the last minute, or recent and answering, never is |
| `AddrEffects.AttemptEffect` | Sources/bitcoind/src/addrman.cpp:693-711 | an attempt stamps the entry; a failure counts exactly if none has been counted since the last success anywhere |
| `AddrEffects.AttemptsCountOnce` | Sources/bitcoind/src/addrman.cpp:693-711 | any run of failed attempts at one address after that success counts once |
| `AddrEffects.EvictEffect` | Sources/bitcoind/src/addrman.cpp:515-541 | the occupant of a tried slot is new again with one reference at the slot its own source calls for; who was there loses one; nobody else changes |
| `AddrEffects.MakeTriedEffect` | Sources/bitcoind/src/addrman.cpp:491-548 | a promotion entry by entry and slot by slot: who moves where, who loses a reference, and that nobody else changes |
| `AddrCollisions.GoodCollisions` | Sources/bitcoind/src/addrman.cpp:660-670 | a collision is recorded if and only if the test is on, a known new address finds its tried slot taken, and there is room or it is listed already |
| `AddrCollisions.GoodStamps` | Sources/bitcoind/src/addrman.cpp:626-670 | exactly when a success moves the address, and that otherwise only the stamps change |
| `AddrCollisions.GoodPromotes` | Sources/bitcoind/src/addrman.cpp:671-678 | a success that moves the address leaves it stamped in its tried slot |
| `AddrCollisions.ResolveExactly` | Sources/bitcoind/src/addrman.cpp:912-973 | a pending collision is forgotten, exchanged or left, each exactly under the ages the code names |
| `AddrCollisions.StepPending` | Sources/bitcoind/src/addrman.cpp:416-1001 | no other operation touches a pending collision whose entry stays |
| `AddrCollisions.StaysPending` | Sources/bitcoind/src/addrman.cpp:416-1001 | over any run that does not resolve it, a recorded collision stays pending while its entry stays |
| `AddrCollisions.AnswersThenReplaces` | Sources/bitcoind/src/addrman.cpp:626-973 | a success on a taken slot, any run, then a resolution: the newcomer has the slot and the occupant is new with one reference exactly when the occupant may be evicted |
| `AddrCollisions.AnswersAtOnce` | Sources/bitcoind/src/addrman.cpp:626-973 | with nothing in between, the exchange happens if and only if the occupant may be evicted |
| `AddrRuns.StepKeeps` | Sources/bitcoind/src/addrman.cpp:416-1001 | every operation, with any clock reading, keeps the invariant, vacates no tried slot, and lets an entry leave tried only by a resolved collision |
| `AddrRuns.RunKeeps` | Sources/bitcoind/src/addrman.cpp:416-1001 | over any run the invariant holds and no tried slot once filled is ever empty again |
| `AddrRuns.ReachableInv` | Sources/bitcoind/src/addrman.cpp:416-1001 | every state reachable from an empty manager satisfies the invariant |
| `AddrRuns.LeavesTriedByResolve` | Sources/bitcoind/src/addrman.cpp:912-973 | in any run that demotes an entry there is a step that is a collision resolution with the eviction ages satisfied, after which the entry is new with one reference |
| `AddrTimes.ReplaceIsLate` | Sources/bitcoind/src/addrman.cpp:932-962 | with times in order a replacement is decided only after the epoch |
| `AddrTimes.GoodDated` | Sources/bitcoind/src/addrman.cpp:626-679 | a success leaves the recorded times in order if and only if the address is unknown, or the clock is after the epoch, or at the epoch with the address staying new |
| `AddrTimes.AttemptDated` | Sources/bitcoind/src/addrman.cpp:693-711 | an attempt leaves them in order if and only if the address is unknown or the clock is not before the epoch |
| `AddrTimes.MakeTriedTimeless` | Sources/bitcoind/src/addrman.cpp:491-548 | moving an entry to tried changes nobody's times and makes nobody else tried |
| `AddrTimes.StepDated` | Sources/bitcoind/src/addrman.cpp:416-1001 | for every operation: the times stay in order if and only if its clock reading is |
| `AddrQueries.WayOut` | Sources/bitcoind/src/addrman.cpp:740-793 | if there is a candidate, some bucket of the chosen table offers one, so the retry loop has a reachable exit |
| `AddrQueries.OnItsSide` | Sources/bitcoind/src/addrman.cpp:795-810 | what a slot offers is an entry of that table and of a requested network |
| `AddrQueries.QuotaIs` | Sources/bitcoind/src/addrman.cpp:817-824 | the quota is the largest number within the book, the maximum and the percentage |
| `AddrQueries.EligibleIs` | Sources/bitcoind/src/addrman.cpp:841-845 | each filter of the address list excludes exactly what it names |
| `AddrCheck.CheckEntries` | Sources/bitcoind/src/addrman.cpp:1077-1108 | the first loop succeeds if and only if every entry is in order, and then its tallies are right |
| `AddrCheck.CheckEntry` | Sources/bitcoind/src/addrman.cpp:1079-1107 | 0 if and only if the entry is in order; every other code is negative |
| `AddrCheck.CheckTriedTable` | Sources/bitcoind/src/addrman.cpp:1115-1130 | the tried scan succeeds if and only if table and tried entries correspond one to one |
| `AddrCheck.CheckNewTable` | Sources/bitcoind/src/addrman.cpp:1132-1145 | the new scan succeeds if and only if slots are in place and counted right |
| `AddrCheck.CheckCounts` | Sources/bitcoind/src/addrman.cpp:1154-1163 | the per-network comparison succeeds if and only if the counters are true |
| `AddrCheck.CheckAddrman` | Sources/bitcoind/src/addrman.cpp:1063-1166 | the result is 0 if and only if the checked conditions hold |
| `AddrCheck.InvIffChecked` | Sources/bitcoind/src/addrman.cpp:1063-1166 | the invariant and times in order are the check together with four facts it does not look at |
| `AddrCheck.StepChecked` | Sources/bitcoind/src/addrman.cpp:1063-1166 | after one operation on a state without fault the check finds no fault if and only if the clock reading was in order |
| `AddrCheck.ReachableChecked` | Sources/bitcoind/src/addrman.cpp:1048-1166 | with a clock after the epoch the check never finds fault in any run |
| `AddrStore.WriteSide` | Sources/bitcoind/src/addrman.cpp:191-210 | one side of the entries in iteration order, with their numbers; the count asserts hold |
| `AddrStore.WriteBucket` | Sources/bitcoind/src/addrman.cpp:211-224 | the size written is the number of entries written, each by its number |
| `AddrStore.Serialize` | Sources/bitcoind/src/addrman.cpp:133-228 | the file is the saved form of the state |
| `AddrStore.ReadNews` | Sources/bitcoind/src/addrman.cpp:282-291 | the new entries of the file, numbered from zero |
| `AddrStore.ReadTried` | Sources/bitcoind/src/addrman.cpp:295-313 | a tried entry is kept if and only if its address is valid and its slot free |
| `AddrStore.ReadTrieds` | Sources/bitcoind/src/addrman.cpp:293-314 | all tried entries, and the count lowered by those lost |
| `AddrStore.CollectPairs` | Sources/bitcoind/src/addrman.cpp:316-331 | the bucket entries in file order, without indexes that name no entry |
| `AddrStore.PutOne` | Sources/bitcoind/src/addrman.cpp:348-376 | one reference goes back to its slot, or to the slot its source calls for, or is dropped |
| `AddrStore.PruneUnread` | Sources/bitcoind/src/addrman.cpp:378-388 | new entries without reference are deleted, in any iteration order |
| `AddrStore.Unserialize` | Sources/bitcoind/src/addrman.cpp:231-399 | succeeds if and only if header, stream and final check allow it, with the loaded state |
| `AddrDiskProofs.LoadedInv` | Sources/bitcoind/src/addrman.cpp:231-399 | whatever the file says, a successful read gives a state that satisfies the whole invariant with its times in order, not only the check |
| `AddrDiskProofs.PruneSturdy` | Sources/bitcoind/src/addrman.cpp:378-388 | pruning leaves only entries in a table, consistent with index and random list |
| `AddrDiskProofs.PutImg` | Sources/bitcoind/src/addrman.cpp:348-376 | with the same asmap every reference of a saved state goes back to its own free slot |
| `AddrDiskProofs.ImgInv` | Sources/bitcoind/src/addrman.cpp:231-399 | the renumbered image of a consistent state is consistent and has the same counters and reference counts |
| `AddrDiskProofs.NewBound` | Sources/bitcoind/src/addrman.cpp:268-273 | a consistent state never has more new entries than the reader accepts |
| `AddrDiskProofs.TriedBound` | Sources/bitcoind/src/addrman.cpp:275-280 | a consistent state never has more tried entries than the reader accepts |
| `AddrDiskProofs.RoundTrip` | Sources/bitcoind/src/addrman.cpp:133-399 | any consistent state written and read back with the same asmap is accepted if and only if its recorded successes are in order, and then comes back: entries, sides, slots, reference counts and counters, up to numbering |
| `AddrRebucket.PutByOwn` | Sources/bitcoind/src/addrman.cpp:348-376 | references given by source: the new table holds exactly the entries named first for their slot, each there and with one reference |
| `AddrRebucket.NamedKept` | Sources/bitcoind/src/addrman.cpp:348-376 | in any file, restored or not, a valid entry that is named ends with a reference or its own slot is held by another, and nobody has more references than allowed |
| `AddrRebucket.PruneKeeps` | Sources/bitcoind/src/addrman.cpp:378-388 | pruning changes nobody who is in a table, and neither table |
| `AddrRebucket.Rebucketed` | Sources/bitcoind/src/addrman.cpp:231-388 | in a file that cannot be restored a new record is kept if and only if it is valid and named before any other that is after its slot, and then has exactly that reference |
| `AddrRebucket.SavedRebucketed` | Sources/bitcoind/src/addrman.cpp:133-388 | a consistent state read under another asmap: a new entry that is still valid keeps a place unless another has its own slot, and no slot one of them is after stays empty |
| `AddrRebucket.TriedKept` | Sources/bitcoind/src/addrman.cpp:293-315 | of the valid tried records for one slot the first in the file is kept, and the count is lowered by the others |
| `AddrStore.ReadHeader` | Sources/bitcoind/src/addrman.cpp:231-280 | the tests on the header: everything a file must satisfy before its entries are looked at |
| `HeadersSync.HeadersSyncState.constructor` | Sources/bitcoind/src/headerssync.cpp:17-46 | the initial PRESYNC state |
| `HeadersProofs.StoppedForGood` | Sources/bitcoind/src/headerssync.cpp:48-137 | a batch that is refused or ends the download leaves nothing in memory, and ever after every batch is refused and nothing is accepted or released |
| `HeadersSync.HeadersSyncState.ProcessSingle` | Sources/bitcoind/src/headerssync.cpp:177-213 | one pre-sync header: difficulty, commitment at its height, memory limit |
| `HeadersSync.HeadersSyncState.StoreCommitments` | Sources/bitcoind/src/headerssync.cpp:139-175 | a pre-sync batch, header by header, and the switch to REDOWNLOAD |
| `HeadersSync.HeadersSyncState.StoreRedownloaded` | Sources/bitcoind/src/headerssync.cpp:215-278 | one redownloaded header: link, difficulty, work, commitment, buffering |
| `HeadersSync.HeadersSyncState.StoreBatch` | Sources/bitcoind/src/headerssync.cpp:103-112 | a redownloaded batch, up to the first refused header |
| `HeadersSync.HeadersSyncState.PopReady` | Sources/bitcoind/src/headerssync.cpp:280-294 | releases from the front while the buffer is over-full or all may go |
| `HeadersSync.HeadersSyncState.ProcessNextHeaders` | Sources/bitcoind/src/headerssync.cpp:68-137 | one step of the machine, for any batch; a batch whose headers are linked keeps the invariant with the histories. The replies are `HeadersHonest.FirstReply` and `SecondReply` |
| `HeadersProofs.NextKeeps` | Sources/bitcoind/src/headerssync.cpp:68-294 | one step keeps the invariant for any peer |
| `HeadersProofs.RunKeeps` | Sources/bitcoind/src/headerssync.cpp:68-294 | any run keeps it |
| `HeadersProofs.ReachableSound` | Sources/bitcoind/src/headerssync.cpp:177-294 | in every reachable state both accepted chains are linked and obey the difficulty rule, committed bits agree while work is short, and released headers are a prefix held back by the buffer |
| `HeadersProofs.StoreOneKeeps` | Sources/bitcoind/src/headerssync.cpp:215-278 | an accepted redownloaded header keeps work, heights, buffer and the alignment of the commitment queue |
| `HeadersProofs.PopKeeps` | Sources/bitcoind/src/headerssync.cpp:280-294 | popping moves headers from buffer to released in order and keeps the rest |
| `HeadersProofs.InflateSqueeze` | Sources/bitcoind/src/headerssync.cpp:280-294 | a compressed run of linked headers is recovered from the hash before it |
| `HeadersProofs.ReleasedThenBuffer` | Sources/bitcoind/src/headerssync.cpp:215-294 | released headers followed by the decompressed buffer are the accepted redownloaded headers |
| `HeadersProofs.HonestBatch` | Sources/bitcoind/src/headerssync.cpp:68-137 | a batch that repeats the pre-synced chain is accepted; with enough work everything is released and the machine stops |
| `HeadersProofs.HonestRun` | Sources/bitcoind/src/headerssync.cpp:68-294 | a peer that repeats its chain in any non-empty batches reaches FINAL with no failed check, every header released and enough work |
| `HeadersHonest.FirstReply` | Sources/bitcoind/src/headerssync.cpp:68-175 | in every reachable state: a first-phase batch succeeds if and only if the whole chain is linked, permitted and within the memory limit; more is asked for if and only if the batch was full or the work suffices; and which phase follows |
| `HeadersHonest.SecondReply` | Sources/bitcoind/src/headerssync.cpp:95-294 | in every reachable state: a second-phase batch succeeds if and only if it goes on repeating the chain; when more is asked for, and exactly how many headers are released |
| `HeadersHonest.FirstRun` | Sources/bitcoind/src/headerssync.cpp:68-175 | a chain with enough work, sent in batches whose last may be short, is answered with success and more every time and leads to the second phase |
| `HeadersHonest.SentTwice` | Sources/bitcoind/src/headerssync.cpp:68-294 | from the beginning: such a chain sent twice is accepted and released |
| `HeadersBuffer.BufferNeeded` | Sources/bitcoind/src/headerssync.cpp:215-294 | over every chain and run: what is let through always obeys the difficulty rule, and a peer that repeats its chain is always accepted, if and only if the look-ahead buffer holds at least one header |
| `HeadersBuffer.HonestGetsThrough` | Sources/bitcoind/src/headerssync.cpp:68-294 | from a new machine: once a chain with enough work has been seen, sending it again in any non-empty batches gets it accepted and released |
| `HeadersBuffer.LetThrough` | Sources/bitcoind/src/headerssync.cpp:226-238 | without a buffer there is a run that accepts and releases a header breaking the rule against its predecessor |
| `HeadersBuffer.TurnedAway` | Sources/bitcoind/src/headerssync.cpp:226-238 | without a buffer there is an honest chain that is refused when sent again |
| `MerkleModel.ExtractSound` | Sources/bitcoind/src/merkleblock.cpp:98-134 | a subtree that parses to the true hash yields only true transactions |
| `MerkleModel.ExtractMatchesSound` | Sources/bitcoind/src/merkleblock.cpp:152-183 | for arbitrary bits and hashes, if the extracted root is that of a real list, every returned transaction is in it at its index |
| `MerkleModel.WidthIs` | Sources/bitcoind/src/merkleblock.cpp:58-76 | a node exists at a height exactly when it covers a transaction |
| `MerkleProofs.BuildExtract` | Sources/bitcoind/src/merkleblock.cpp:79-134 | a built subtree, wherever it stands in the stream, parses back to its hash and its matched transactions |
| `MerkleProofs.BuildSizes` | Sources/bitcoind/src/merkleblock.cpp:79-96 | a built subtree has at least one hash, no more hashes than transactions, and no more hashes than bits |
| `MerkleProofs.HashesDiffer` | Sources/bitcoind/src/merkleblock.cpp:98-134 | with distinct transactions no two nodes of a level have equal hashes |
| `MerkleProofs.RoundTrip` | Sources/bitcoind/src/merkleblock.cpp:136-183 | building and extracting gives the root and exactly the matched transactions in order |
| `MerkleProofs.MatchedIs` | Sources/bitcoind/src/merkleblock.cpp:98-134 | membership in the list of matches |
| `MerkleProofs.ExtractOrdered` | Sources/bitcoind/src/merkleblock.cpp:98-134 | extracted indexes are strictly ascending within the subtree |
| `MerkleTrees.ExtractIff` | Sources/bitcoind/src/merkleblock.cpp:98-133 | on any bits and hashes a node parses without fault if and only if a partial tree of its shape without equal siblings is written there, and then as that tree |
| `MerkleTrees.AcceptedIff` | Sources/bitcoind/src/merkleblock.cpp:149-183 | on any input: a root comes out if and only if bits and hashes are the writing of such a tree with only the rest of the last byte unused, and then it is the tree's hash with its flagged leaves |
| `MerkleTrees.MarkedBadIff` | Sources/bitcoind/src/merkleblock.cpp:98-133 | the object is marked bad exactly when parsing is reached and no such tree is written |
| `MerkleTrees.TwinsRefused` | Sources/bitcoind/src/merkleblock.cpp:121-127 | a tree in which a branch is repeated gives no root and marks the object |
| `MerkleTrees.OneReading` | Sources/bitcoind/src/merkleblock.cpp:98-133 | no input is the writing of two trees |
| `MerkleTrees.TreeSizes` | Sources/bitcoind/src/merkleblock.cpp:158-163 | the size tests before parsing refuse no tree |
| `Merkle.BitsToBytes` | Sources/bitcoind/src/merkleblock.cpp:12-19 | packs bits, lowest first, padding with zeroes |
| `Merkle.BytesToBits` | Sources/bitcoind/src/merkleblock.cpp:21-28 | unpacks every bit of every byte |
| `Merkle.PackUnpack` | Sources/bitcoind/src/merkleblock.cpp:12-28 | unpacking what was packed gives the bits and zero padding |
| `Merkle.UnpackPack` | Sources/bitcoind/src/merkleblock.cpp:12-28 | packing what was unpacked gives the bytes |
| `Merkle.WireRoundTrip` | Sources/bitcoind/src/merkleblock.cpp:12-183 | build, pack, unpack and extract gives the root and exactly the matched transactions |
| `Merkle.PartialMerkleTree.constructor` | Sources/bitcoind/src/merkleblock.cpp:136-148 | the built tree |
| `Merkle.PartialMerkleTree.FindHeight` | Sources/bitcoind/src/merkleblock.cpp:140-144 | the height at which one node covers all |
| `Merkle.PartialMerkleTree.ParentOfMatch` | Sources/bitcoind/src/merkleblock.cpp:80-84 | whether a matched transaction is under the node |
| `Merkle.PartialMerkleTree.TraverseAndBuild` | Sources/bitcoind/src/merkleblock.cpp:79-96 | appends the bits and hashes of the subtree |
| `Merkle.PartialMerkleTree.TraverseAndExtract` | Sources/bitcoind/src/merkleblock.cpp:98-134 | consumes the bits and hashes of the subtree, reporting overruns and duplicated children |
| `Merkle.PartialMerkleTree.ExtractMatches` | Sources/bitcoind/src/merkleblock.cpp:152-183 | all the checks on sizes and unused data, and the result |
| `Base58Carry.EncoderFits` | Sources/bitcoind/src/base58.cpp:98-100 | the encoder buffer is large enough for every input |
| `Base58Carry.DecoderFits` | Sources/bitcoind/src/base58.cpp:53-55 | the decoder buffer is large enough for every input |
| `Base58Carry.MulAdd` | Sources/bitcoind/src/base58.cpp:63-70 | the carry loop multiplies and adds in place, leaves no carry, and the digits in use start with a non-zero one |
| `Base58.TableInverse` | Sources/bitcoind/src/base58.cpp:19-38 | alphabet and table are inverse |
| `Base58.ToBase58` | Sources/bitcoind/src/base58.cpp:98-119 | the shortest base-58 digits of the number |
| `Base58.Encode` | Sources/bitcoind/src/base58.cpp:89-127 | the method computes the encoding |
| `Base58.DecodeBody` | Sources/bitcoind/src/base58.cpp:53-86 | the characters after the leading ones, and why they may be refused |
| `Base58.Decode` | Sources/bitcoind/src/base58.cpp:40-135 | the method computes the decoding, `None` for every refused text |
| `Base58.DecodeDigits` | Sources/bitcoind/src/base58.cpp:56-74 | the digit loop: the buffer holds the value of the characters read, or the text is refused for a foreign character or its length |
| `Base58.DecodeEncode` | Sources/bitcoind/src/base58.cpp:40-135 | decoding the encoding gives the bytes back when the limit allows their length |
| `Base58.EncodeDecode` | Sources/bitcoind/src/base58.cpp:40-135 | encoding what was decoded gives the text without surrounding spaces |
| `Base58.DecodedIff` | Sources/bitcoind/src/base58.cpp:40-135 | a text is decoded to some bytes if and only if, without surrounding spaces, it is their encoding and they are within the limit |
| `Base58.EncodeCheck` | Sources/bitcoind/src/base58.cpp:137-144 | the bytes followed by their checksum, encoded |
| `Base58.DecodeCheck` | Sources/bitcoind/src/base58.cpp:146-169 | accepted if and only if the last four bytes are the checksum of the others |
| `Base58.CheckRoundTrip` | Sources/bitcoind/src/base58.cpp:137-169 | decoding undoes encoding with checksum |
| `Base58.CheckAccepts` | Sources/bitcoind/src/base58.cpp:137-169 | only encodings with a right checksum are accepted |
| `Bech32Checksum.StepLinear` | Sources/bitcoind/src/bech32.cpp:178-214 | one round of the register is linear under XOR |
| `Bech32Checksum.FoldLinear` | Sources/bitcoind/src/bech32.cpp:177-215 | so is the whole checksum |
| `Bech32Checksum.BurstDetected` | Sources/bitcoind/src/bech32.cpp:130-216 | lists of any equal length that differ only within six neighbouring symbols have equal checksums only if equal |
| `Bech32Checksum.LastSix` | Sources/bitcoind/src/bech32.cpp:342-353 | six symbols at the end are added into the register as they stand |
| `Bech32Checksum.ChecksumExact` | Sources/bitcoind/src/bech32.cpp:327-353 | the created checksum is the one and only that verifies |
| `Bech32Checksum.LeadingZeroSeen` | Sources/bitcoind/src/bech32.cpp:177-215 | a symbol zero put in front changes the checksum |
| `Bech32Field.Compose` | Sources/bitcoind/src/bech32.cpp:37-45 | applying two linear maps is applying their product |
| `Bech32Field.Powers` | Sources/bitcoind/src/bech32.cpp:37-114 | multiplication by the powers of the primitive element that the order argument needs |
| `Bech32Distance.Roots` | Sources/bitcoind/src/bech32.cpp:158-175 | three consecutive powers of the primitive element are roots of the generator |
| `Bech32Distance.StepAt` | Sources/bitcoind/src/bech32.cpp:178-214 | at a root, a round multiplies by the element and adds the symbol |
| `Bech32Distance.NoPeriod` | Sources/bitcoind/src/bech32.cpp:37-45 | the element has order 1023: no smaller power fixes anything but zero |
| `Bech32Distance.Vandermonde` | Sources/bitcoind/src/bech32.cpp:172-175 | the three equations for errors at three places have no solution but zero |
| `Bech32Distance.ThreeErrorsDetected` | Sources/bitcoind/src/bech32.cpp:137-142 | any three changed symbols less than 1023 apart change the checksum |
| `Bech32.Tables` | Sources/bitcoind/src/bech32.cpp:22-35 | the two character tables are inverse, upper case reading as lower case |
| `Bech32.CheckCharacters` | Sources/bitcoind/src/bech32.cpp:286-309 | succeeds exactly on printable text of one case, and otherwise lists exactly the faulty places in order |
| `Bech32.Round` | Sources/bitcoind/src/bech32.cpp:193-212 | the round with its five conditional constants computes the register step |
| `Bech32.ComputePolyMod` | Sources/bitcoind/src/bech32.cpp:130-216 | the loop computes the checksum register |
| `Bech32.PreparePolynomialCoefficients` | Sources/bitcoind/src/bech32.cpp:311-324 | the expanded prefix followed by the values |
| `Bech32.VerifyChecksum` | Sources/bitcoind/src/bech32.cpp:326-339 | which of the two encodings, if any, the checksum is for |
| `Bech32.CreateChecksum` | Sources/bitcoind/src/bech32.cpp:341-353 | the only six symbols that make the text verify as the given encoding |
| `Bech32.Encode` | Sources/bitcoind/src/bech32.cpp:357-371 | the method computes the encoding |
| `Bech32.FindSeparator` | Sources/bitcoind/src/bech32.cpp:377-377 | the last separator |
| `Bech32.Decode` | Sources/bitcoind/src/bech32.cpp:373-400 | the method computes the decoding, `None` for every refused text |
| `Bech32.DecodeEncode` | Sources/bitcoind/src/bech32.cpp:357-400 | an encoded text decodes to what was encoded if and only if the prefix is non-empty, printable and the length within the limit |
| `Bech32.EncodeDecode` | Sources/bitcoind/src/bech32.cpp:357-400 | encoding what was decoded gives the text in lower case |
| `Bech32.CaseBlind` | Sources/bitcoind/src/bech32.cpp:373-400 | an upper-case text means what its lower-case form means |
| `Bech32.Accepted` | Sources/bitcoind/src/bech32.cpp:357-400 | a text is accepted as something if and only if it is, in lower case, the encoding of that |
| `Bech32.ThreeTypos` | Sources/bitcoind/src/bech32.cpp:137-142 | accepted texts with the same prefix and encoding that differ in at most three characters are the same |
| `Bech32.SixTypos` | Sources/bitcoind/src/bech32.cpp:130-216 | the same for any changes within six neighbouring characters |
| `Bech32.ExpandBack` | Sources/bitcoind/src/bech32.cpp:311-324 | the checksum sees every character of a prefix |
| `Bech32.PrefixTypo` | Sources/bitcoind/src/bech32.cpp:311-415 | one mistyped prefix character together with one mistyped data character is refused |
| `CompactBlocks.MakeCompact` | Sources/bitcoind/src/blockencodings.cpp:20-33 | the coinbase prefilled, and the short id of every other transaction |
| `CompactBlocks.PartiallyDownloadedBlock.PlacePrefilled` | Sources/bitcoind/src/blockencodings.cpp:72-88 | accepts exactly the placements within the block and the 16-bit range, and lays them out |
| `CompactBlocks.PartiallyDownloadedBlock.SkipFilled` | Sources/bitcoind/src/blockencodings.cpp:97-98 | there is always an empty slot left, so the inner loop stays in range and its sixteen-bit offset does not wrap |
| `CompactBlocks.PartiallyDownloadedBlock.MapShortIds` | Sources/bitcoind/src/blockencodings.cpp:94-116 | every short id is mapped to the sixteen low bits of the slot of its number; fails exactly when a bucket is crowded |
| `CompactBlocks.PartiallyDownloadedBlock.ScanEntries` | Sources/bitcoind/src/blockencodings.cpp:118-176 | both scans with their early exit; what they leave in a slot is `CompactChoices.SlotChoice` |
| `CompactBlocks.PartiallyDownloadedBlock.InitData` | Sources/bitcoind/src/blockencodings.cpp:59-181 | exactly when the answer is INVALID, FAILED or OK, and the whole new state in each case; what the slots hold is `CompactChoices.SlotChoice` |
| `CompactBlocks.Request` | Sources/bitcoind/src/net_processing.cpp:4697-4701 | the transactions asked for are exactly the empty slots, in order |
| `CompactBlocks.Answer` | Sources/bitcoind/src/net_processing.cpp:2600-2609 | the transactions at the indexes asked for, refused exactly when one is out of range |
| `CompactBlocks.PartiallyDownloadedBlock.Assemble` | Sources/bitcoind/src/blockencodings.cpp:195-208 | moves the slots out, taking the next missing transaction for each gap |
| `CompactBlocks.PartiallyDownloadedBlock.FillBlock` | Sources/bitcoind/src/blockencodings.cpp:191-237 | the block, the verdict and the state, when there are too few, enough or too many transactions |
| `CompactBlocks.Relay` | Sources/bitcoind/src/blockencodings.cpp:20-237 | whatever the counter was, a block sent compactly and completed with what the receiver asks for arrives as it was; with a counter that `CountMatters` allows the receiver asks for exactly what it had not been offered |
| `CompactBlocks.SecondBlock` | Sources/bitcoind/src/blockencodings.cpp:59-237 | one object used for two blocks in turn misses a transaction of the second that is listed |
| `CompactProofs.LayAt` | Sources/bitcoind/src/blockencodings.cpp:72-88 | prefilled transactions stand at the positions their offsets add up to, and nothing else is filled |
| `CompactProofs.PlacedIff` | Sources/bitcoind/src/blockencodings.cpp:72-88 | prefilled transactions are accepted if and only if none is null, their offsets skip no more slots than there are short ids, and the last position has sixteen bits |
| `CompactProofs.GapsLeft` | Sources/bitcoind/src/blockencodings.cpp:72-88 | the number of empty slots is the number of short ids |
| `CompactProofs.IndexKeys` | Sources/bitcoind/src/blockencodings.cpp:94-116 | the map has as many entries as ids if and only if the ids are distinct |
| `CompactProofs.IndexAt` | Sources/bitcoind/src/blockencodings.cpp:94-116 | the i-th short id lands on the i-th slot that is not prefilled |
| `CompactProofs.OwnSlots` | Sources/bitcoind/src/blockencodings.cpp:94-99 | every short id leads to its own slot if and only if there are at most 65536 transactions |
| `CompactProofs.ScanSound` | Sources/bitcoind/src/blockencodings.cpp:118-176 | whatever the counter was, scanning fills a slot only with a transaction offered under its short id, touches no other slot, and counts right |
| `CompactProofs.CountFull` | Sources/bitcoind/src/blockencodings.cpp:139-143 | the counter has grown by the number of short ids exactly when no slot is empty |
| `CompactProofs.SlotsFilled` | Sources/bitcoind/src/blockencodings.cpp:59-181 | for any compact block and any counter: what every slot can hold after initialisation |
| `CompactProofs.OwnOrNothing` | Sources/bitcoind/src/blockencodings.cpp:20-181 | for the compact block of a block and any counter: a slot holds its own transaction or nothing |
| `CompactProofs.HonestSlots` | Sources/bitcoind/src/blockencodings.cpp:20-181 | for the compact block of a block and a counter that `CountMatters` allows: a slot is filled, with the right transaction, exactly when that transaction was at hand |
| `CompactProofs.CountMatters` | Sources/bitcoind/src/blockencodings.cpp:118-176 | whatever is listed is found, for every mempool and extra list, if and only if the counter starts at zero or above the number of short ids, or at that number when no witness hash has another short id |
| `CompactChoices.SlotChoice` | Sources/bitcoind/src/blockencodings.cpp:118-176 | for any compact block, counter and lists: a slot is filled if and only if exactly one mempool entry looked at has its short id and no extra one differs, or none has and the extra ones agree; the counter; and how many entries are looked at |
| `CompactChoices.TwoCandidates` | Sources/bitcoind/src/blockencodings.cpp:130-137 | two mempool entries with one short id leave the slot empty, so the transaction is requested |
| `CompactChoices.HitsCount` | Sources/bitcoind/src/blockencodings.cpp:122-137 | the entries under an id are counted as often as they are listed |
| `CompactProofs.MergeIs` | Sources/bitcoind/src/blockencodings.cpp:198-208 | missing transactions go to the gaps in order and the others stay |
| `CompactProofs.MergeHonest` | Sources/bitcoind/src/blockencodings.cpp:191-237 | filling the gaps of honest slots in order rebuilds the block |
| `BitStreams.BitStreamWriter.Write` | Sources/libbitcoinkernel/src/streams.h:326-344 | appends the low bits of a word, highest first |
| `BitStreams.BitStreamWriter.Flush` | Sources/libbitcoinkernel/src/streams.h:346-357 | pads with zeroes to a whole byte |
| `BitStreams.BitStreamReader.Read` | Sources/libbitcoinkernel/src/streams.h:278-300 | the value of the next bits, or failure exactly when there are too few |
| `BitStreams.ChunkIs` | Sources/libbitcoinkernel/src/streams.h:335-337 | the shifted word is the next bits at their place in the byte |
| `FilterModel.SizeBack` | Sources/libbitcoinkernel/src/serialize.h:298-360 | a written size is read back if and only if it is at most the limit |
| `FilterModel.LittleAt` | Sources/libbitcoinkernel/src/serialize.h:299-328 | byte i of a written size counts the multiples of 256^i |
| `FilterGrammar.SizeIff` | Sources/libbitcoinkernel/src/serialize.h:299-360 | a size is read from exactly its written form, and only up to the limit |
| `FilterModel.GolombRead` | Sources/libbitcoinkernel/src/util/golombrice.h:14-43 | a coded number is read back and the reader stops right after it |
| `FilterModel.CodeRead` | Sources/bitcoind/src/blockfilter.cpp:49-102 | a coded list is read back as its differences, whose totals are the list |
| `FilterModel.SearchIs` | Sources/bitcoind/src/blockfilter.cpp:104-134 | the streaming merge finds exactly the common values of the queries and the running totals, in 64 bits, that are not below an earlier one |
| `FilterModel.TotalsArePeaks` | Sources/bitcoind/src/blockfilter.cpp:113-131 | while the totals fit 64 bits every one of them is such a value |
| `BlockFilter.GolombRiceEncode` | Sources/libbitcoinkernel/src/util/golombrice.h:14-29 | appends the code of a number |
| `BlockFilter.GolombRiceDecode` | Sources/libbitcoinkernel/src/util/golombrice.h:31-43 | reads one number, or fails at the end of the stream |
| `BlockFilter.RangeFits` | Sources/bitcoind/src/blockfilter.cpp:26-32 | hashed elements are 64-bit numbers |
| `BlockFilter.RangeEven` | Sources/bitcoind/src/blockfilter.cpp:26-32 | number v stands for the hashes from v/f to (v+1)/f of all 64-bit words, and is below f |
| `BlockFilter.RangeOrder` | Sources/bitcoind/src/blockfilter.cpp:26-32 | a larger hash never gives a smaller number |
| `BlockFilter.BuildHashedSet` | Sources/bitcoind/src/blockfilter.cpp:34-43 | the sorted hashes of the elements |
| `BlockFilter.EncodeValues` | Sources/bitcoind/src/blockfilter.cpp:92-101 | the bytes are the coded differences, padded |
| `BlockFilter.Build` | Sources/bitcoind/src/blockfilter.cpp:74-102 | fails exactly for 2^32 elements or more; otherwise the filter holds the sorted hashes |
| `BlockFilter.Load` | Sources/bitcoind/src/blockfilter.cpp:49-72 | accepts exactly the bytes that hold the promised number of values and no whole byte more |
| `BlockFilter.MatchInternal` | Sources/bitcoind/src/blockfilter.cpp:104-134 | the loop computes the streaming search |
| `BlockFilter.Match` | Sources/bitcoind/src/blockfilter.cpp:136-140 | one query |
| `BlockFilter.MatchAny` | Sources/bitcoind/src/blockfilter.cpp:142-146 | any of a set of queries |
| `BlockFilter.BuiltLoads` | Sources/bitcoind/src/blockfilter.cpp:49-102 | a built filter loads as itself if and only if its count is within the size limit |
| `FilterGrammar.LoadsIff` | Sources/bitcoind/src/blockfilter.cpp:49-72 | bytes are loaded if and only if they are a count in its shortest form, that many codes, and less than a byte of rest |
| `FilterGrammar.FilterLoads` | Sources/bitcoind/src/blockfilter.cpp:49-72 | what such bytes are loaded as, and the numbers they decode to |
| `BlockFilter.BuiltAnswers` | Sources/bitcoind/src/blockfilter.cpp:74-146 | on a built filter the answer is whether a query hash equals an element hash, if and only if its count is within the size limit |
| `BlockFilter.NeverMissed` | Sources/bitcoind/src/blockfilter.cpp:74-146 | an element that was put in is always found |
| `BlockFilter.LoadedAnswers` | Sources/bitcoind/src/blockfilter.cpp:49-146 | on any accepted bytes the search never throws, and answers whether a query is among the decoded numbers that are not below an earlier one |
| `BlockFilter.ExactWhen` | Sources/bitcoind/src/blockfilter.cpp:49-146 | the search answers for all decoded numbers, whatever the query, if and only if each number below an earlier one also occurs among the others |
| `BlockFilter.WrapsAround` | Sources/bitcoind/src/blockfilter.cpp:104-134 | bytes that are accepted, whose second number wraps to zero and is not found |

## Left out

- Swift layer: the wrappers, RPC client, transports and daemon control forward to C functions or build strings; each claim would be one branch.
- Sockets, files, processes and event loops (`httpserver.cpp`, `httprpc.cpp`, `i2p.cpp`, `mapport.cpp`, `addrdb.cpp`, `external_signer.cpp`, `noui.cpp`, `bitcoind.cpp`).
- `key.cpp`, `musig.cpp`, `bip324.cpp`, `core_io.cpp`, `key_io.cpp`, `addresstype.cpp`: thin layers over code that is not part of this model.
- `bech32::LocateErrors`, `Syndrome` and the generated GF(1024) tables: the location of errors is a heuristic choice between two encodings; only detection is modelled.
- Bech32Distance.ThreeErrorsDetected: the comments also promise detection of any four errors within 89 characters, which rests on an exhaustive search over the code; three errors within 1023 and any burst of six are proved.
- Bech32.Encode: prefix characters above 127 enter the checksum as sign-extended bytes in the program; the model takes their low ten bits, and every decoder refuses such prefixes.
- AddrMan.AddrMan.Select: the retry loop runs over a given list of draws, because with real random draws it ends only with probability one; the chance computed in floating point is a given answer per draw.
- AddrMan.AddrMan.Good: without the collision test the entry may remain listed as pending until `ResolveCollisions` erases it, so only the table part of the invariant is kept by that call alone.
- AddrStore.Unserialize: the file is a list of typed values, not bytes; how addresses, flags and times are laid out in bytes, and the 32-bit storage of times, are not modelled, and on failure nothing is said about the half-filled object.
- `GetEntries_`, `FindAddressEntry_`, `Size_` and `GetChance`: simple readers of the state, or floating point.
- Integer widths in the address manager: ids (64 bits), counters and times are unbounded integers.
- Headers: heights are unbounded integers and chain work does not wrap at 256 bits; `NextHeadersRequestLocator` only packs hashes.
- HeadersSync.HeadersSyncState.ProcessNextHeaders: the invariant is claimed for batches linked internally, which the caller has checked as the header file asks.
- `CMerkleBlock` and the bloom filter: they choose which transactions match.
- MerkleModel.ExtractMatchesSound: transaction counts are unbounded integers up to the limit the code checks; the combining hash is assumed injective.
- CompactBlocks.PartiallyDownloadedBlock.MapShortIds: as InitData, not for 65536 prefilled transactions with short ids besides.
- CompactBlocks.PartiallyDownloadedBlock.InitData: not for 65536 prefilled transactions in the first 65536 places with short ids besides, where the sixteen-bit search for a free slot would not end (the message reader refuses such a block); the crowding of hash-table buckets is an arbitrary function of the ids inserted so far.
- `BlockTransactionsRequest`, `DifferenceFormatter` and other message formats of compact blocks: plain serialisation.
- BlockFilter.Build: the coding parameter is below 64, since the shift is undefined otherwise; the element set comes in an arbitrary order, and `std::sort` is its specification.
- `BlockFilter` headers, filter types and the collection of elements from a block: plain bookkeeping.
- Logging, and counters used only for log lines.
