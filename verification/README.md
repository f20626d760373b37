# Proofs about the data structures of a Minerium node

Minerium is a cryptocurrency node in C++. This project models the parts of it in
which an efficient structure has to agree with something simpler, and proves that
it does.

| module | what it models |
|---|---|
| `Coins`, `CoinsCache` | the stack of coin caches with DIRTY and FRESH flags over the database |
| `CheckQueue`, `CheckQueueProgress`, `CheckQueueLock` | the queue that shares script checks between a master and worker threads |
| `AddrMan`, `AddrManInv`, `AddrManLaws`, `AddrManSpread`, `AddrManObject`, `AddrManCheck`, `AddrManDisk`, `AddrManFile` | the address manager: four indexes of the same addresses, the test of their consistency, and the peers file |
| `Ledger`, `LedgerDb` | zero-confirmation balances of asset allocations beside the proof-of-work balances |
| `Bloom`, `BloomFilter` | the rolling Bloom filter with two bits per position |
| `Cuckoo`, `CuckooCache` | the cuckoo cache with epochs and packed flags |
| `Limbs`, `Arith256`, `Compact`, `Target` | 256-bit numbers in limbs, compact targets and the work of a block |
| `SkipHeight`, `Chain` | the skip list of block index entries and the active chain |
| `CompactBlocks`, `PartialBlocks`, `BlockRequest` | compact blocks as in BIP 152, sections "HeaderAndShortIDs" and "BlockTransactionsRequest" |
| `Positional`, `Base58`, `Base58Code` | base-58 text with and without checksum |
| `Compressor` | compact amounts |
| `Common` | what several modules share |

Most components come as a pair. One module holds the structure as a value with
functions on it, and the theorems over all inputs and all sequences of
operations. Another holds the code: classes and loops that change fields and
arrays in place, each method proved to do what the function says, with the
assertions of the source in their places. Threads are steps of a state machine,
one for each critical section.

Hash functions, the clock, random numbers, the mempool, CheckBlock and the
bucket-size test of a hash table are parameters. Integers have no bound, except
where the width matters: limbs, compact targets, balances and amounts, slot
numbers, request indexes and table sizes wrap as in the source. Overflow of a
signed 64-bit amount, which C++ leaves undefined, is taken as wrap-around.

Where code and comments differ, the model follows the code:

- `src/cuckoocache.h:420` says that the first element to be displaced is the one
  at the first location. The code at line 431 starts with the second, as
  `Cuckoo.FirstDisplaced` says.
- `src/cuckoocache.h:350` takes 45% of the size in 32 bits, which is less for large
  tables: `Cuckoo.EpochSizeIff`.
- `src/addrman.h:452-471`: `Clear` does not empty the two maps of entries. A
  cleared manager is consistent exactly if it had none (`AddrManDisk.ClearedIff`),
  and `AddrManDisk.ClearedFires` states when writing it fires an assertion.
- `src/coins.h:102-119`: what the FRESH flag promises depends on callers of
  `AddCoin`. `Coins.AddSoundIffPromised` states the exact condition, and
  `Coins.FreshExample` is a view on which it fails.
- `src/assetallocation.cpp:581-586`: a send that lists its own sender fails after
  earlier receivers have been credited, and `src/assetallocation.cpp:557-563` adds
  up amounts in 64 bits without a limit. `Ledger.TotalChange` states exactly how
  the total changes, `Ledger.ExactIff` and `Ledger.KeptIff` when a send does what
  its amounts say.
- A block should not depend on the mempool. It does for a send whose total wraps
  to nothing (`Ledger.PhantomRun`); `Ledger.InvisibleIff` states exactly when.
- `src/addrman.cpp:191-241`: nothing keeps Good from being called at time 0, after
  which the test in Check_ fails. `AddrManInv.GoodConsistentIff` states exactly when.
- `src/addrman.h:367-373` has limits for the numbers of entries in a peers file, and
  none below. `AddrManFile.SoundIff` states exactly when the counters come out right.
- `src/compressor.cpp:134-186`: not every 64-bit amount survives compression.
  `Compressor.ReturnsIff` states exactly which do.
- `src/arith_uint256.cpp:68-82`: the product is cleared before the factor is read,
  so that a number multiplied by itself in place comes out as 0.
- `src/blockencodings.cpp:88-94`: slot numbers and the offset have 16 bits.
  `CompactBlocks.SixteenBits` and `CompactBlocks.SearchEndsIff` state exactly when
  they are right and when the search ends.
- `src/blockencodings.h:50-57`: reading a request lets some lists through that are
  not ascending. `BlockRequest.AcceptedAscending` states exactly which.

## Model

| member | source | states |
|---|---|---|
| `Coins.RunRefinesMaps` | src/coins.cpp:43-217 | For a stack of any depth over the database and any sequence of add, spend, read, uncache, new cache and flush, no exception is thrown, every answer is the one a stack of plain maps gives, and the stack still shows those maps |
| `Coins.StepRefinesMaps` | src/coins.cpp:43-217 | The same for one operation, from any sound stack |
| `Coins.DatabaseStarts` | src/txdb.cpp:78-101 | A database alone is a sound stack that shows its unspent coins |
| `Coins.FetchKeepsViews` | src/coins.cpp:43-58 | Fetching caches what the parent shows; no lookup at any level changes and the flags stay sound |
| `Coins.GetCoinKeepsViews` | src/coins.cpp:60-67 | The answer is the coin the view shows, with spent coins as absent; lookups do not change |
| `Coins.AddCoinAdds` | src/coins.cpp:69-88 | On a sound view that keeps the promise about overwriting, the new view is the old one with the coin set, unless its script starts with OP_RETURN or is longer than 10000 bytes; sound again, and nothing is thrown |
| `Coins.UnspendableIgnored` | src/coins.cpp:69-72 | A coin whose script starts with OP_RETURN or is longer than 10000 bytes changes nothing, whatever the view, and is never an error |
| `Coins.AddSoundIffPromised` | src/coins.h:102-119 | An added coin leaves the flags sound if and only if overwriting was announced or the view had no coin there; otherwise the old coin reappears once the new one is spent |
| `Coins.FreshExample` | src/coins.h:102-119 | Over one stored coin, an empty cache to which a second coin is added without announcement is unsound, and spending the second brings the stored one back |
| `Coins.SpendCoinRemoves` | src/coins.cpp:100-114 | After a spend the view is the old one without that coin, whatever the flags were, and sound |
| `Coins.UncacheKeepsViews` | src/coins.cpp:210-217 | The entry goes exactly if it is neither DIRTY nor FRESH, all other entries stay, and no lookup changes |
| `Coins.BatchWriteSound` | src/coins.cpp:147-201 | Writing a sound child into its parent never reaches the exception, gives the parent exactly the view of the child and keeps it sound against its own parent |
| `Coins.FlushPushesDown` | src/coins.cpp:203-208 | After a flush, parent and child both show what the child showed, and both are sound |
| `Coins.ReadNotWritten` | src/coins.cpp:43-58 | A coin that was only read is not written back: a flush into any base leaves the same with and without it |
| `Coins.BatchWriteLean` | src/coins.cpp:147-201 | Whatever is written into a cache, no coin that is spent and was never in its base is kept as modified |
| `Coins.RunLean` | src/coins.cpp:43-217 | No run of operations leaves such an entry at any level of the stack |
| `CoinsCache.CoinsView.FetchCoin` | src/coins.cpp:43-58 | The object, over linked views: state after the call is Fetch of the state before, at every level |
| `CoinsCache.CoinsView.GetCoin` | src/coins.cpp:60-67 | The object: answer and new state are those of GetCoin in the model |
| `CoinsCache.CoinsView.AddCoin` | src/coins.cpp:69-88 | The object: throws exactly where the model says, else its state is that of the model |
| `CoinsCache.CoinsView.SpendCoin` | src/coins.cpp:100-114 | The object: answer, coin moved out and new state are those of the model |
| `CoinsCache.CoinsView.Uncache` | src/coins.cpp:210-217 | The object: the entry is dropped exactly if it is cached and unmodified |
| `CoinsCache.CoinsView.BatchWrite` | src/coins.cpp:147-201 | The object, cache or database: throws exactly where the model says, else merges every modified entry |
| `CoinsCache.CoinsView.WriteDatabase` | src/txdb.cpp:78-101 | The loop over the entries leaves the database with all modified coins written and spent ones erased |
| `CoinsCache.CoinsView.Flush` | src/coins.cpp:203-208 | The object: throws exactly where writing into the base does, else its state is that of Flush; from a sound stack it never throws, and cache and base both show what the cache showed |
| `CheckQueue.StepKeepsInv` | src/checkqueue.h:70-162 | Every step of any thread (entering a critical section, sleeping, being woken, running a check, adding) keeps the invariant of the queue |
| `CheckQueue.ReachableInv` | src/checkqueue.h:70-162 | The invariant holds in every state that any interleaving of any number of workers and one master can reach |
| `CheckQueue.TodoExact` | src/checkqueue.h:57-61 | In every reachable state nTodo is the number of queued checks plus the checks held in batches, and idle threads are at most all threads |
| `CheckQueue.NoCheckRunsTwice` | src/checkqueue.h:70-128 | In every reachable state, the calls of a check, its places in the queue and those ahead in any batch are together at most as many as it was added |
| `CheckQueue.WaitIsExact` | src/checkqueue.h:144-147 | Every value that Wait has returned in a reachable state is true exactly if all checks of its round are true, and then each was called exactly as often as it was added |
| `CheckQueue.BlockedMasterHasWorker` | src/checkqueue.h:84-105 | A master that sleeps without a pending wake-up has nTodo above zero, and some worker holds a batch |
| `CheckQueue.BatchLength` | src/checkqueue.h:106-111 | The size of a batch is between one and the queue length, and at most nBatchSize unless it is one |
| `CheckQueue.FairShare` | src/checkqueue.h:106-111 | A batch is never more than its share, the queue divided by all threads and all idle ones once more, unless it is one check; and never less, up to nBatchSize |
| `CheckQueue.AddNotifies` | src/checkqueue.h:150-162 | Adding several checks notifies every waiting worker; adding one notifies one that was not yet notified, if there is any, and no other |
| `CheckQueue.AddPossible` | src/checkqueue.h:150-162 | Outside Wait the master can add any checks in any state |
| `CheckQueueProgress.WaitReturns` | src/checkqueue.h:70-147 | From every reachable state in which the master has called Wait, steps that threads are bound to take lead, in a bounded number, to its return, with the verdict on all checks of the round |
| `CheckQueueProgress.NextStep` | src/checkqueue.h:80-105 | There is no deadlock and no lost wake-up: while the master is in Loop, some thread holds a batch or was notified |
| `CheckQueueProgress.BusyAtMost` | src/checkqueue.h:70-128 | Without new checks, whatever the scheduler does, the number of steps that threads are bound to take is bounded |
| `CheckQueueProgress.AnyWorkers` | src/checkqueue.h:136-141 | Reachable states have any number of workers |
| `CheckQueueLock.Queue.Take` | src/checkqueue.h:106-120 | The batch is the last checks of the queue, the last one first, and the queue keeps the others in order |
| `CheckQueueLock.Queue.Proceed` | src/checkqueue.h:92-120 | The code of the critical section after accounting: return, wait or take a batch as the step of the protocol says |
| `CheckQueueLock.Queue.Account` | src/checkqueue.h:80-90 | The code that books finished checks does what the step of the protocol says, and tells whether the master is to be woken |
| `CheckQueueLock.Queue.Add` | src/checkqueue.h:150-162 | Checks are appended in order, nTodo grows by their number, and the right wake-up is sent |
| `CheckQueueLock.RunBatch` | src/checkqueue.h:123-127 | The loop over a batch calls checks until one fails; the result is true exactly if all are true and it was true before |
| `CheckQueueLock.BatchCalls` | src/checkqueue.h:122-127 | Of a batch the checks up to the first that fails are called, once each, and none if the result was false before |
| `AddrManInv.EveryRunConsistent` | src/addrman.cpp:82-520 | From a new manager, any sequence of Add, Good, Attempt, Connected, SetServices and GetAddr, whatever the times, fires no assertion and leaves indexes, tables and counters in agreement; with proper times it ends consistent |
| `AddrManInv.ApplyKeeps` | src/addrman.cpp:191-520 | Any one operation at any time fires no assertion and leaves indexes, tables and counters in agreement |
| `AddrManInv.ApplyConsistentIff` | src/addrman.cpp:191-520 | It keeps a consistent manager consistent if and only if its time fits: for a known service Good needs a positive time and Attempt none before the epoch |
| `AddrManInv.GoodConsistentIff` | src/addrman.cpp:191-241 | Good keeps a manager consistent if and only if the service is unknown or the time is positive |
| `AddrManInv.AttemptConsistentIff` | src/addrman.cpp:316-336 | Attempt does if and only if the service is unknown or the time is not before the epoch |
| `AddrManInv.GoodAtZeroExample` | src/addrman.cpp:191-241 | One address added, and Good for it at time 0: the manager is no longer consistent |
| `AddrManInv.CreateKeeps` | src/addrman.cpp:82-92 | A created entry is in all indexes, and only the reference it still lacks is open |
| `AddrManInv.SwapKeeps` | src/addrman.cpp:94-112 | A swap in the order keeps everything in agreement |
| `AddrManInv.DeleteKeeps` | src/addrman.cpp:114-126 | Deleting an unreferenced new entry removes it from every index and leaves all others as they were |
| `AddrManInv.ClearNewKeeps` | src/addrman.cpp:128-141 | Emptying a new slot lowers one reference count, deletes an entry with none left, and keeps the rest consistent |
| `AddrManInv.EvictKeeps` | src/addrman.cpp:161-183 | The occupant of a tried slot moves back to its new slot, whose occupant gives way; counts stay exact |
| `AddrManInv.MakeTriedKeeps` | src/addrman.cpp:143-189 | The entry leaves all its new slots and ends up tried; no assertion fires |
| `AddrManInv.GoodKeeps` | src/addrman.cpp:191-241 | Good at any time keeps everything in agreement, and a known service ends up tried, with that time of success |
| `AddrManInv.AddKeeps` | src/addrman.cpp:243-314 | Add keeps everything in agreement, also where the new slot is taken and the entry is deleted again |
| `AddrManInv.PlaceNewKeeps` | src/addrman.cpp:292-312 | Placing an entry in its bucket, or dropping it, leaves no entry without a reference |
| `AddrManInv.AttemptKeeps` | src/addrman.cpp:316-336 | Attempt keeps everything in agreement |
| `AddrManInv.ConnectedKeeps` | src/addrman.cpp:484-502 | Connected keeps everything in agreement |
| `AddrManInv.SetServicesKeeps` | src/addrman.cpp:504-520 | SetServices keeps everything in agreement |
| `AddrManInv.GetAddrKeeps` | src/addrman.cpp:463-482 | GetAddr permutes the order and leaves all else; its list holds distinct known addresses of good quality, at most the limit, and all of them if there are fewer |
| `AddrManLaws.TerribleIff` | src/addrman.cpp:34-52 | An entry is terrible if and only if it was not tried within 60 seconds and is dated over 10 minutes ahead, has no time or one over 30 days back, failed 3 times without any success, or 10 times with the last success over a week ago |
| `AddrManLaws.AddLaw` | src/addrman.cpp:243-314 | Add from any sound manager: not routable, nothing changes; known, the entry gets services, time and perhaps one more reference, each exactly under its condition; unknown, it is entered with its values if and only if the slot is free or gives way; all other entries stay but the one displaced |
| `AddrManLaws.AddKnownRenews` | src/addrman.cpp:261-298 | What an announcement changes of a known entry, of both tables and of all other entries |
| `AddrManLaws.AddUnknownIntroduces` | src/addrman.cpp:299-312 | What it changes for an unknown address |
| `AddrManLaws.AttemptLaw` | src/addrman.cpp:316-336 | Attempt changes the one entry: time of the try always, and the count exactly if asked for and none was counted since the last success of any entry |
| `AddrManLaws.CountedOnce` | src/addrman.cpp:331-335 | Between two successes a second failure is not counted |
| `AddrManLaws.ConnectedLaw` | src/addrman.cpp:484-502 | Connected moves the time of the one entry if it is over 20 minutes old, and changes nothing else |
| `AddrManLaws.SetServicesLaw` | src/addrman.cpp:504-520 | SetServices changes the services of the one entry and nothing else |
| `AddrManLaws.GetAddrLaw` | src/addrman.cpp:463-482 | The list is at most 2500 and 23% of the entries; it leaves out a good address only if it is as long as that allows |
| `AddrManLaws.GoodLaw` | src/addrman.cpp:191-241 | Good notes the success and clears the failures of the one entry, which becomes tried if it was not |
| `AddrManLaws.MakeTriedLaw` | src/addrman.cpp:143-189 | The entry leaves all new slots for its tried slot; an entry there goes back to the new slot of its source, whose entry loses that reference; all else stays |
| `AddrManLaws.EvictLaw` | src/addrman.cpp:161-183 | The way back of one entry from the tried to the new table |
| `AddrManSpread.OneSourceGroup` | src/addrman.h:118-137 | Over every run in which all announcements come from sources of one group, at most 64 of the new buckets are used and there are at most 4096 new entries |
| `AddrManSpread.AddReaches` | src/addrman.h:121-123 | An announcement changes no slot outside the 64 buckets of its source group |
| `AddrManSpread.OneGroupTried` | src/addrman.h:128-130 | Over every run, the tried entries of one group are at most 512, in at most 8 buckets |
| `AddrManSpread.NewSpread` | src/addrman.cpp:20-32 | The new bucket is one of 64 of the source group, the same for all addresses of one group; the place in it depends on the whole service |
| `AddrManSpread.TriedSpread` | src/addrman.cpp:13-18 | The tried bucket is one of 8 of the group |
| `AddrManCheck.Check` | src/addrman.cpp:386-460 | The test written in the source, slot by slot, returns 0 if and only if there is a key and all that it looks at is in order |
| `AddrManCheck.ConsistentIff` | src/addrman.cpp:386-460 | A manager is consistent if and only if it passes and its index by address holds the entries and nothing else |
| `AddrManCheck.CheckEntry` | src/addrman.cpp:394-418 | None of the nine error codes occurs if and only if the entry is in order: tried or referenced but not both, at its place in the order, indexed, with sensible times |
| `AddrManCheck.CheckTried` | src/addrman.cpp:425-438 | Every tried slot passes and no tried entry is left over if and only if the tried table holds exactly the tried entries, each in its slot |
| `AddrManCheck.CheckNew` | src/addrman.cpp:440-452 | Every new slot passes and the references are used up if and only if every slot holds a new entry at its position and the counts are exact |
| `AddrManCheck.SizesAgree` | src/addrman.cpp:391-392 | The order is as long as both counters together |
| `AddrManDisk.RoundTrip` | src/addrman.h:296-450 | Writing a consistent manager fires no assertion, and reading it back gives a consistent manager with the same addresses, sources, successes, attempts, reference counts, new slots and tried slots, the ids renumbered; nothing is lost or pruned |
| `AddrManFile.ReadAny` | src/addrman.h:347-450 | Any stream of any version that holds the data it announces and names no address twice is read without a failing assertion into a sound manager: of the tried records the first for each slot is there; bucket lists are heeded as far as slots and eight references allow and nothing else is; lists that cannot be used give way to the home slot, first come, first served; what has no reference is pruned |
| `AddrManFile.SoundIff` | src/addrman.h:347-450 | Of such streams exactly those with a negative number of entries leave wrong counters |
| `AddrManFile.OnlyAccepted` | src/addrman.h:353-378 | No other stream is read: the key must have 32 bytes, the numbers must not exceed the slots |
| `AddrManFile.HeaderWritten` | src/addrman.h:300-310 | Version 1, key size 32, the key, both counters and 1024 buckets with bit 30 set are written first |
| `AddrManFile.FlagTwice` | src/addrman.h:280-282 | Setting bit 30 of a bucket count is taken back by the same operation |
| `AddrManDisk.ListingExists` | src/addrman.h:296-296 | Every manager can be written: there is a listing of its entries in the order of the map |
| `AddrManDisk.WriteEntriesIs` | src/addrman.h:310-329 | An assertion of the writing loops fires exactly if more entries are chosen than the counter announces |
| `AddrManDisk.ClearedIff` | src/addrman.h:452-471 | A cleared manager is consistent if and only if it had no entries |
| `AddrManDisk.ClearedFires` | src/addrman.h:310-329 | Writing a cleared manager fires an assertion if and only if an entry is left that is referenced or tried |
| `AddrManDisk.ClearedExample` | src/addrman.h:316-316 | Any routable address added to a new manager, then Clear: writing fires the assertion |
| `AddrManDisk.LoadNewAll` | src/addrman.h:375-393 | Reading the records of the new table numbers them in order and enters each in all indexes |
| `AddrManDisk.LoadTriedAll` | src/addrman.h:395-414 | Reading the records of the tried table puts each into its slot without collision |
| `AddrManDisk.LoadBucketsAll` | src/addrman.h:416-432 | Reading the bucket lists restores every new slot and reference count |
| `AddrManDisk.PruneNothing` | src/addrman.h:434-447 | The final pruning finds nothing to delete |
| `AddrManDisk.NewBounded` | src/addrman.h:367-369 | A consistent manager never has more new entries than the reader accepts |
| `AddrManDisk.TriedBounded` | src/addrman.h:371-373 | A consistent manager never has more tried entries than the reader accepts |
| `AddrManObject.AddressManager.constructor` | src/addrman.h:473-476 | A new object stands for the empty manager |
| `AddrManObject.AddressManager.Clear` | src/addrman.h:452-471 | Clears order, tables and counters, and leaves the two maps as they are; what follows for the cleared manager holds for every key |
| `AddrManObject.AddressManager.Create` | src/addrman.cpp:82-92 | The object: new state and id are those of Create |
| `AddrManObject.AddressManager.SwapRandom` | src/addrman.cpp:94-112 | The object: new state is that of SwapRandom; assertions hold |
| `AddrManObject.AddressManager.Delete` | src/addrman.cpp:114-126 | The object: new state is that of Delete; assertions hold |
| `AddrManObject.AddressManager.ClearNew` | src/addrman.cpp:128-141 | The object: new state is that of ClearNew; the assertion holds |
| `AddrManObject.AddressManager.MakeTried` | src/addrman.cpp:143-189 | The object, over the two bucket arrays: new state is that of MakeTried |
| `AddrManObject.AddressManager.Good` | src/addrman.cpp:191-241 | The object: new state is that of Good, wherever the search over buckets starts; it stays consistent exactly if the service is unknown or the time positive |
| `AddrManObject.AddressManager.Add` | src/addrman.cpp:243-314 | The object: answer and new state are those of Add |
| `AddrManObject.AddressManager.Attempt` | src/addrman.cpp:316-336 | The object: new state is that of Attempt |
| `AddrManObject.AddressManager.GetAddr` | src/addrman.cpp:463-482 | The object: list and new state are those of GetAddr |
| `Ledger.PoolIsInvisible` | src/assetallocation.cpp:471-752 | Proof-of-work balances after any interleaving of mempool sends and blocks are those of the blocks alone, from any two states with equal proof-of-work balances, if no block has a send that pays out of an allocation of 0 because its total wraps |
| `Ledger.InvisibleIff` | src/assetallocation.cpp:541-625 | That condition is exact: a block of one send has the same effect from all states with equal proof-of-work balances if and only if it is not of that kind |
| `Ledger.PhantomRun` | src/assetallocation.cpp:541-625 | A send of that kind, and a run in which a mempool send changes what its block pays out: an owner ends with the largest amount instead of nothing |
| `Ledger.ModestIsNoPhantom` | src/assetallocation.cpp:557-563 | No send whose amounts add up to at most 2^63 is of that kind |
| `Ledger.RunNonNegative` | src/assetallocation.cpp:471-752 | Over every run of mempool sends and blocks, no balance of either table is ever negative if and only if at every send each receiver has room for what it gets |
| `Ledger.NonNegativeIff` | src/assetallocation.cpp:564-624 | The same for one send |
| `Ledger.NegativeExample` | src/assetallocation.cpp:613-613 | A holder of 5 who is sent the largest amount ends with a negative balance |
| `Ledger.PoolEffect` | src/assetallocation.cpp:540-625 | A mempool send never touches the proof-of-work table; every live balance moves by its credits and debits modulo 2^64, and not at all on an overrun |
| `Ledger.BlockEffect` | src/assetallocation.cpp:471-625 | A block send moves every proof-of-work balance by its credits and debits modulo 2^64, judged against the reverted state, and not at all on an overrun; untouched tuples keep their live balance |
| `Ledger.TotalChange` | src/assetallocation.cpp:564-625 | The total of the holders changes by exactly what the send creates: the credits before the sender itself, where it stops halfway, less 2^64 for every carry out of a balance |
| `Ledger.ExactIff` | src/assetallocation.cpp:564-625 | Every balance is the old one plus credits minus debits if and only if the sender has the true sum of the amounts and every receiver has room for its credits |
| `Ledger.KeptIff` | src/assetallocation.cpp:564-625 | In that range, the total is kept if and only if the send does not stop halfway: the sender is listed after at least one other receiver |
| `Ledger.SupplyKept` | src/assetallocation.cpp:471-752 | Over every run, whatever the mempool does: blocks of sends to others, each of a total below 2^63, keep the supply and never make a balance negative, from a supply below 2^63 |
| `Ledger.WrapExample` | src/assetallocation.cpp:557-563 | From a balance of 0, the largest amount to two owners and 2 to a third wraps to a total of 0: no error, and the two have it |
| `Ledger.CancelExample` | src/assetallocation.cpp:557-563 | A send far out of range that yet changes no balance, so that staying in range is sufficient for the total and not necessary |
| `Ledger.PoolConserves` | src/assetallocation.cpp:540-749 | The exact change of the total of the live table under a mempool send |
| `Ledger.BlockConserves` | src/assetallocation.cpp:540-749 | The exact change of the total of the proof-of-work table under a block send |
| `Ledger.DoneConserves` | src/assetallocation.cpp:581-625 | A block send that ends without error keeps the total if and only if the carries out of 64 bits cancel |
| `Ledger.HalfwayExample` | src/assetallocation.cpp:581-586 | A block send of 3 to another and then to the sender itself ends in an error with the 3 already credited |
| `Ledger.SendOutcome` | src/assetallocation.cpp:471-752 | A send ends with the error of the first of eleven tests that it fails; if it passes all, it is done, and an overrun exactly if the live balance, or in a block the proof-of-work balance, does not cover the total |
| `Ledger.PoolMarks` | src/assetallocation.cpp:564-624 | A mempool send marks as in conflict the sender exactly on an overrun, the receivers exactly if it overran or the sender was in conflict, and nobody else |
| `Ledger.BlockMarks` | src/assetallocation.cpp:237-271 | A send in a block takes the mark off exactly the tuples it touches for the first time in that block, and sets none |
| `Ledger.StepMarks` | src/assetallocation.cpp:237-271 | A mark goes only in a block, and exactly for the tuples the block reverts |
| `Ledger.ConflictStays` | src/assetallocation.cpp:237-271 | Over every run a tuple in conflict stays so until a block reverts it |
| `LedgerDb.AllocationDb.WriteAssetAllocation` | src/assetallocation.h:172-191 | The live table is always written, the proof-of-work table only outside the mempool check |
| `LedgerDb.AllocationDb.RevertAssetAllocation` | src/assetallocation.cpp:237-271 | First touch in a block restores the tuple from the proof-of-work table and clears its conflict mark; later touches do nothing |
| `LedgerDb.AllocationDb.CheckReceivers` | src/assetallocation.cpp:546-563 | The first loop reverts and adds up the receivers until an amount that is not positive |
| `LedgerDb.AllocationDb.CreditReceivers` | src/assetallocation.cpp:581-624 | The second loop credits and marks the receivers up to the sender itself |
| `LedgerDb.AllocationDb.SendAmounts` | src/assetallocation.cpp:540-625 | Both loops and the final write: outcome and new tables are those of Pay |
| `LedgerDb.AllocationDb.CheckAssetAllocationInputs` | src/assetallocation.cpp:471-752 | The whole amount send: error code or success, reverted set and new tables are those of Send |
| `Bloom.RecentKeysStay` | src/bloom.cpp:250-298 | After any insertions since a reset, each of the last 2 * nEntriesPerGeneration keys is still a member, through wrap-around of generations, wipes and shared bits |
| `Bloom.ElementsStay` | src/bloom.h:114-115 | In every filter with an array, as the constructor sizes it for nElements, each of the last nElements keys is a member |
| `Bloom.MemberIff` | src/bloom.cpp:250-298 | A key is a member if and only if each of its positions was set by a key of the last generation or one of the two before it, counted by insertions |
| `Bloom.NewFilterEmpty` | src/bloom.cpp:306-314 | A new or reset filter with hash functions holds no key |
| `Bloom.Forgotten` | src/bloom.cpp:250-278 | A key whose first position no key of the last three generations shares is not a member |
| `Bloom.HashSplits` | src/bloom.cpp:270-273 | The low 6 bits of a hash choose the bit and the other 26 the word, and every choice has its hash |
| `Bloom.EmptyIff` | src/bloom.cpp:225-242 | The array is empty if and only if nElements is 0 or 2^32 - 1, so that a generation has no room, or rounding the bits up to words wraps |
| `Bloom.NoBitsIff` | src/bloom.cpp:225-235 | There are no filter bits if and only if nElements is 0 or 2^32 - 1 |
| `Bloom.PerGenerationIff` | src/bloom.cpp:225-225 | Two generations hold nElements keys if and only if nElements + 1 does not wrap |
| `Bloom.SetPair` | src/bloom.cpp:275-276 | Of the 64 two-bit numbers in a word pair, the one at the bit becomes the generation and no other changes |
| `Bloom.WipePair` | src/bloom.cpp:262-265 | Of the 64 two-bit numbers in a word pair, those equal to the generation become 0 and no other changes |
| `Bloom.IsSet` | src/bloom.cpp:293-295 | The test of a bit in a word pair tells whether its number is not 0 |
| `BloomFilter.Wipe` | src/bloom.cpp:258-266 | The loop over the array wipes one generation everywhere and nothing else |
| `BloomFilter.Mark` | src/bloom.cpp:270-277 | The loop over the hash functions marks exactly the positions of the key |
| `BloomFilter.RollingBloomFilter.constructor` | src/bloom.cpp:218-243 | A new filter holds no key, is sized by the arithmetic of the source, and can be used if and only if it has an array |
| `BloomFilter.RollingBloomFilter.Reset` | src/bloom.cpp:306-314 | After a reset the filter holds no key |
| `BloomFilter.RollingBloomFilter.Insert` | src/bloom.cpp:250-278 | The array stays the exact image of the keys inserted since the reset, the new one included |
| `BloomFilter.RollingBloomFilter.Contains` | src/bloom.cpp:286-298 | The answer is true exactly if every position of the key was touched in a generation not yet wiped |
| `Cuckoo.EpochNeverOverflows` | src/cuckoocache.h:289-322 | From setup, over any insertions and lookups, live entries of the current epoch never exceed epoch_size + max(1, epoch_size / 16) |
| `Cuckoo.InsertKeeps` | src/cuckoocache.h:393-441 | After the epoch check, an insert keeps every live element and the new one except the one it reports dropped, overwrites only discardable slots, and leaves each element at one of its eight locations |
| `Cuckoo.InsertedStays` | src/cuckoocache.h:289-478 | Over every run from setup: an element once inserted, and from then on never erased and never reported dropped, is found until two epochs have ended |
| `Cuckoo.InsertThenFound` | src/cuckoocache.h:393-478 | After an insert, the new element and every live one that was not dropped is found |
| `Cuckoo.KeptIsFound` | src/cuckoocache.h:468-478 | A live element at one of its locations is found |
| `Cuckoo.EraseIsLazy` | src/cuckoocache.h:468-478 | An erasing lookup only allows the slot to be reused: the element is still found until then |
| `Cuckoo.ContainsIff` | src/cuckoocache.h:468-478 | A lookup answers true if and only if one of the eight locations holds the element; erasing marks one such slot and nothing else, any other lookup changes nothing |
| `Cuckoo.NeverInsertedNeverFound` | src/cuckoocache.h:289-478 | Over every run from setup, an element that was never inserted, other than the initial one, is never found |
| `Cuckoo.ScansAreRare` | src/cuckoocache.h:289-322 | Over every run from setup, at most one insert in 1 + max(1, epoch_size / 16) counts the slots |
| `Cuckoo.MovesOn` | src/cuckoocache.h:427-431 | A displaced element moves on to the next of its eight locations, and not back if they differ |
| `Cuckoo.ContainsKeeps` | src/cuckoocache.h:468-478 | A lookup keeps every element at its locations and the epoch count within bounds |
| `Cuckoo.LocInRange` | src/cuckoocache.h:243-253 | The multiply-and-shift hash lies within the table for any table size |
| `Cuckoo.FirstDisplaced` | src/cuckoocache.h:420-431 | The first element to be displaced is the one at the second location |
| `Cuckoo.EpochSizeIff` | src/cuckoocache.h:350-350 | An epoch is 45% of the table if and only if the table has at most 95443717 slots |
| `Cuckoo.RunKeeps` | src/cuckoocache.h:289-478 | The invariant of the cache holds after any insertions and lookups |
| `CuckooCache.PackedFlags.constructor` | src/cuckoocache.h:61-68 | All flags are set; the bytes are as many as the 32-bit arithmetic gives |
| `CuckooCache.BytesFitIff` | src/cuckoocache.h:61-68 | There is a flag for every slot if and only if size + 7 does not wrap |
| `CuckooCache.PackedFlags.BitSet` | src/cuckoocache.h:92-95 | Sets one flag and leaves all others |
| `CuckooCache.PackedFlags.BitUnset` | src/cuckoocache.h:103-106 | Clears one flag and leaves all others |
| `CuckooCache.PackedFlags.BitIsSet` | src/cuckoocache.h:113-116 | Reads one flag |
| `CuckooCache.Cache.Setup` | src/cuckoocache.h:341-354 | The object, with size and epoch size computed in 32 bits: usable if and only if there is a flag for every slot, and then all slots are discardable and the heuristic counter is at its start |
| `CuckooCache.Cache.EpochCheck` | src/cuckoocache.h:289-322 | The object: new state is that of EpochCheck |
| `CuckooCache.Cache.Insert` | src/cuckoocache.h:393-441 | The object, over the table and the packed flags: new state and dropped element are those of Insert |
| `CuckooCache.Cache.Contains` | src/cuckoocache.h:468-478 | The object: answer and flags are those of Contains |
| `Arith256.BaseUint.Add` | src/arith_uint256.h:136-146 | Sum modulo 2^256, also of a number with itself |
| `Arith256.BaseUint.Complement` | src/arith_uint256.h:70-76 | 2^256 - 1 minus the number |
| `Arith256.BaseUint.Negate` | src/arith_uint256.h:78-85 | The negative modulo 2^256 |
| `Arith256.BaseUint.Sub` | src/arith_uint256.h:148-152 | Difference modulo 2^256 |
| `Arith256.BaseUint.Increment` | src/arith_uint256.h:174-181 | Plus one modulo 2^256 |
| `Arith256.BaseUint.Decrement` | src/arith_uint256.h:191-198 | Minus one modulo 2^256 |
| `Arith256.BaseUint.SetUint64` | src/arith_uint256.h:89-96 | The number is the 64-bit value |
| `Arith256.BaseUint.GetLow64` | src/arith_uint256.h:246-250 | The number modulo 2^64 |
| `Arith256.BaseUint.Shl` | src/arith_uint256.cpp:22-37 | Product with 2^shift modulo 2^256, for every shift |
| `Arith256.BaseUint.Shr` | src/arith_uint256.cpp:39-54 | Quotient by 2^shift, for every shift |
| `Arith256.BaseUint.MulSmall` | src/arith_uint256.cpp:56-66 | Product with a 32-bit number modulo 2^256 |
| `Arith256.BaseUint.Mul` | src/arith_uint256.cpp:68-82 | Product modulo 2^256 of two objects; 0 for a number multiplied by itself in place |
| `Arith256.BaseUint.Div` | src/arith_uint256.cpp:84-108 | Exact quotient; the remainder is what is left over; refused exactly for a zero divisor |
| `Arith256.BaseUint.DivStep` | src/arith_uint256.cpp:98-105 | One turn: subtract where the divisor fits and set that bit of the quotient, then halve the divisor |
| `Arith256.BaseUint.CompareTo` | src/arith_uint256.cpp:110-120 | The sign of the difference of the numbers |
| `Arith256.BaseUint.EqualTo` | src/arith_uint256.cpp:122-133 | Whether the number equals a 64-bit value |
| `Arith256.BaseUint.Bits` | src/arith_uint256.cpp:171-185 | The place of the highest bit, or 0 |
| `Compact.DecodeEncode` | src/arith_uint256.cpp:205-246 | Decoding an encoded 256-bit number clears low-order bytes and nothing else, never overflows, and keeps the sign |
| `Compact.EncodeIsLargest` | src/arith_uint256.cpp:225-246 | No 32-bit word stands for a value between the decoded one and the number: encoding rounds down as little as possible |
| `Compact.Reencode` | src/arith_uint256.cpp:205-246 | Encoding the decoded value gives the same word |
| `Compact.OverflowExact` | src/arith_uint256.cpp:218-221 | The three-way test holds exactly if mantissa * 256^(exponent - 3) is at least 2^256 |
| `Compact.BitsToBytes` | src/arith_uint256.cpp:227-227 | (bits + 7) / 8 is the size in bytes |
| `Target.SetCompact` | src/arith_uint256.cpp:205-223 | The number is the meaning of the word modulo 2^256; overflow and sign flags are exact |
| `Target.GetCompact` | src/arith_uint256.cpp:225-246 | The word packs exponent, mantissa and sign of the encoding; both assertions hold |
| `Target.GetBlockProof` | src/chain.cpp:147-160 | floor(2^256 / (target + 1)) for every accepted word, without wrap-around or zero divisor, and 0 for every other |
| `Target.MeaningHasRoom` | src/chain.cpp:147-160 | No word stands for 2^256 - 1, so target + 1 does not wrap |
| `SkipHeight.GetSkipHeight` | src/chain.cpp:100-108 | The skip height of a positive height is below it |
| `SkipHeight.LowestOne` | src/chain.cpp:97-97 | n & (n - 1) takes away the lowest bit that is set, and that one only |
| `SkipHeight.SkipsTo` | src/chain.cpp:100-108 | An even height skips to itself without its lowest bit; an odd one loses the two lowest bits above the last |
| `Chain.BlockIndex.GetAncestor` | src/chain.cpp:110-134 | The skip list leads to the same block as walking back one block at a time, or to null for the same heights; the assertion on pprev holds |
| `Chain.BlockIndex.BuildSkip` | src/chain.cpp:141-145 | Building one skip pointer, in any order, keeps the skip list right |
| `Chain.BlockMap.AddToBlockIndex` | src/validation.cpp:3682-3705 | A new header becomes the child of its parent and gets its skip pointer; known entries are returned; the tree stays well linked |
| `Chain.AncestorOfAncestor` | src/chain.cpp:110-134 | Ancestors of an ancestor are ancestors |
| `Chain.ChainGrows` | src/chain.cpp:38-48 | New entries in the tree leave a chain the chain of its tip |
| `Chain.ActiveChain.SetTip` | src/chain.cpp:38-48 | After the call the entry at every height is the ancestor of the new tip, although the walk stops at the first block in place |
| `Chain.ActiveChain.FindFork` | src/chain.cpp:78-87 | The result is the highest block that is both in the chain and an ancestor of the argument; null if there is none |
| `Chain.ForkParts` | src/chain.cpp:78-87 | An ancestor of the argument is in the chain exactly if it is not above the fork |
| `Chain.ActiveChain.GetLocator` | src/chain.cpp:50-76 | The locator lists the hashes of the ancestors at heights with doubling steps, from the block itself to the first block |
| `Chain.LocatorIsShort` | src/chain.cpp:50-76 | A locator of a block below height 2^k + 10 has at most k + 11 entries |
| `Chain.LocatorAt` | src/chain.cpp:50-76 | Entry i of a locator lies i blocks back up to the eleventh and then 9 + 2^(i-10), down to the first block, which comes once |
| `CompactBlocks.Delivered` | src/blockencodings.cpp:50-199 | From a message of the block, any pool and extra transactions without short-id collision, and the reply to the request, the receiver assembles exactly the block |
| `CompactBlocks.CompressEncodes` | src/blockencodings.cpp:20-30 | The message the sender builds is one of its block |
| `CompactBlocks.ScanIsPartial` | src/blockencodings.cpp:108-164 | Without collisions every filled slot holds the transaction of the block at that place |
| `CompactBlocks.ScanKeeps` | src/blockencodings.cpp:108-164 | Scanning any part of a list keeps filled slots matched to their short ids, prefilled slots untouched, and the count exact |
| `CompactBlocks.PoolExact` | src/blockencodings.cpp:112-131 | After the pool scan a slot is filled exactly if one scanned transaction has its short id |
| `CompactBlocks.ExtraExact` | src/blockencodings.cpp:138-164 | After the scan of extra transactions, a slot for which nothing came before is filled exactly if some came and all have the same hash, with the first of them; a filled slot stays exactly if all that came have its hash; an emptied slot stays empty |
| `CompactBlocks.PoolFills` | src/blockencodings.cpp:112-131 | If exactly one scanned pool transaction has the short id, it is the one in the slot |
| `CompactBlocks.AllFitIff` | src/blockencodings.cpp:61-79 | The prefilled transactions pass the checks made one by one if and only if none is null and the last lies within the block and within 16 bits |
| `CompactBlocks.PlacedAt` | src/blockencodings.cpp:61-79 | A slot is prefilled exactly at the positions of the message, each with its own transaction |
| `CompactBlocks.FreeCount` | src/blockencodings.cpp:58-95 | Exactly as many slots stay free as there are short ids |
| `CompactBlocks.SixteenBits` | src/blockencodings.cpp:89-94 | Slot numbers kept in 16 bits are right for every short id if and only if the message counts at most 65536 transactions |
| `CompactBlocks.SearchEndsIff` | src/blockencodings.cpp:88-91 | The search for the first free slot ends if and only if at most 65535 transactions are prefilled; otherwise the 16-bit offset goes round for ever |
| `CompactBlocks.TruncatedClash` | src/blockencodings.cpp:89-94 | A slot number that does not fit lands on a prefilled slot or on that of another short id |
| `CompactBlocks.Reassembles` | src/blockencodings.cpp:184-195 | Slots that agree with the block, filled up with its missing transactions in order, give the block |
| `PartialBlocks.PartialBlock.InitData` | src/blockencodings.cpp:50-170 | Invalid exactly for the malformed messages, failed only for repeated short ids or a crowded table, else short ids have the free slots in order, cut to 16 bits, and the slots are those of the scans; up to 65536 transactions every slot is matched and counted, and every short id that pool and extra transactions offer without dispute has its transaction |
| `PartialBlocks.AllServed` | src/blockencodings.cpp:108-164 | Although both scans stop early, every short id on offer without dispute gets its transaction |
| `PartialBlocks.PartialBlock.PlacePrefilled` | src/blockencodings.cpp:61-80 | The first loop stops at the first prefilled transaction that does not fit, with those before it placed |
| `PartialBlocks.AssignSlots` | src/blockencodings.cpp:88-106 | Short ids get the free slots in order, cut to 16 bits; the search never leaves the slots |
| `PartialBlocks.SkipFull` | src/blockencodings.cpp:90-91 | The search for the next free slot ends within the slots |
| `PartialBlocks.PartialBlock.ScanOffers` | src/blockencodings.cpp:112-137 | One scan, cut short once all short ids are served, is the model scan of a prefix of the list |
| `PartialBlocks.PartialBlock.Take` | src/blockencodings.cpp:114-131 | One transaction on offer fills, empties or leaves its slot as the model says |
| `PartialBlocks.PartialBlock.IsTxAvailable` | src/blockencodings.cpp:172-176 | True exactly for the indexes that need not be asked for |
| `PartialBlocks.PartialBlock.FillBlock` | src/blockencodings.cpp:178-219 | Too few or too many missing transactions are refused; else the block is assembled from slots and missing ones in order, and the object is spent |
| `BlockRequest.Write` | src/blockencodings.h:58-64 | The distances that go out |
| `BlockRequest.Read` | src/blockencodings.h:44-57 | The list that comes in, or an error, as Decode says |
| `BlockRequest.RoundTrip` | src/blockencodings.h:38-68 | Every ascending list of 16-bit indexes comes back as it was sent |
| `BlockRequest.AcceptedAscending` | src/blockencodings.h:50-57 | An accepted list is ascending if and only if no entry before the last arrives at 65535, where the 16-bit offset wraps |
| `BlockRequest.NotAscendingExample` | src/blockencodings.h:50-57 | The distances 65535, 0 are accepted as the list 65535, 0 |
| `Base58.DecodeEncode` | src/base58.cpp:22-112 | Decoding an encoded byte string gives it back, leading zeros included |
| `Base58.EncodeDecode` | src/base58.cpp:22-112 | Text that decodes is, but for spaces around it, the encoding of what it decodes to |
| `Base58.DecodesIff` | src/base58.cpp:22-72 | Text decodes to given bytes if and only if it is their encoding between blanks, which are the six characters of isspace |
| `Base58.Alphabet` | src/base58.cpp:20-20 | The digits are the characters of the alphabet in its order |
| `Base58.DecodeEncodeCheck` | src/base58.cpp:124-148 | The same with a checksum |
| `Base58.CheckAccepts` | src/base58.cpp:133-148 | Text with checksum decodes to given bytes exactly if it is their encoding between spaces |
| `Positional.EncodeRoom` | src/base58.cpp:85-85 | 138 / 100 base-58 digits to the byte are always enough |
| `Positional.DecodeRoom` | src/base58.cpp:37-37 | 733 / 1000 bytes to the base-58 digit are always enough |
| `Base58Code.MulAdd` | src/base58.cpp:45-54 | The buffer holds old value * factor + digit, and nothing is left to carry: the assertion holds |
| `Base58Code.EncodeBase58` | src/base58.cpp:74-112 | The loops compute Encode |
| `Base58Code.DecodeBase58` | src/base58.cpp:22-72 | The loops accept exactly the texts that Decode accepts, and compute it |
| `Base58Code.EncodeBase58Check` | src/base58.cpp:124-131 | Bytes and checksum encoded |
| `Base58Code.DecodeBase58Check` | src/base58.cpp:133-148 | Refused exactly for bad text, too few bytes or a wrong checksum |
| `Base58Code.NulCutsIff` | src/base58.cpp:119-122 | A std::string decodes otherwise than its whole text if and only if it has a NUL and the text before the first one decodes |
| `Base58Code.DecodeBase58String` | src/base58.cpp:119-122 | The overload for std::string: what Decode makes of the text before the first NUL |
| `Base58Code.DecodeBase58CheckString` | src/base58.cpp:150-153 | The same with a checksum |
| `Compressor.DecompressCompress` | src/compressor.cpp:134-186 | Every amount comes back from its compact form |
| `Compressor.CompressDecompress` | src/compressor.cpp:134-186 | Every number is the compact form of the amount it stands for |
| `Compressor.ReturnsIff` | src/compressor.cpp:134-186 | A 64-bit amount comes back through CompressAmount and DecompressAmount if and only if it ends in a zero or is at most 2049638230412172402 |
| `Compressor.FitsIff` | src/compressor.cpp:143-160 | These are exactly the amounts whose compact form does not overflow 64 bits |
| `Compressor.LostAmountExample` | src/compressor.cpp:134-186 | 2049638230412172403 does not come back |
| `Compressor.MoneyFits` | src/amount.h:32-33 | No amount up to MAX_MONEY overflows 64 bits in its compact form |
| `Compressor.CompressBound` | src/compressor.cpp:143-160 | The compact form is at most nine times the amount |
| `Compressor.CompressAmount` | src/compressor.cpp:143-160 | The code computes the compact form modulo 2^64; the assertion on the digit holds |
| `Compressor.DecompressAmount` | src/compressor.cpp:162-186 | The code computes the amount modulo 2^64 |

## Left out

- RPC handlers, JSON, the wallet, scripts, signatures, sockets, LevelDB and flat files: plumbing over libraries.
- Asset creation, update and transfer, certificates and aliases: they set supplies from the transaction, so that no balance law holds across them.
- Ledger: sends of input ranges, interest, arrival times and the sanity-check mode are not modelled.
- Coins: the best-block hash, memory accounting, cursors and the helpers that add all outputs of a transaction.
- CoinsCache.CoinsView.Flush: what an exception leaves in the caches is not stated.
- CheckQueue: shutdown and the scoped control object; the memory model below the mutex.
- AddrMan: `Select_` and `GetChance` are probabilistic; the 32-bit wrap of the id counter and the new random key drawn by `Clear` are not modelled.
- AddrManCheck.Check: which error code is returned is not stated; entries that std::map would insert on lookup are read as 0.
- AddrManDisk.RoundTrip: the stream is read into a new manager, not into one that has entries; the loops over the stream are recursive functions on values, so that reading in place is not captured; versions other than the current one are not written.
- Bloom: the plain Bloom filter.
- BloomFilter.RollingBloomFilter.constructor: the number of hash functions and the logarithm of the false-positive rate are parameters, and the filter bits are computed in real numbers, without rounding.
- Cuckoo: memory ordering of the atomic flags.
- CuckooCache.Cache.Setup: the depth limit, a logarithm in floating point, is a parameter.
- Arith256: conversion to text and to double, and the bitwise operators on whole numbers.
- Target.GetBlockProof: the sum of proofs along a chain is not modelled.
- Chain.BlockMap.AddToBlockIndex: assumes that a header does not name itself as its parent; block status, time and work fields are left out.
- Chain.ActiveChain.SetTip: the walk fills a copy of the vector, which then replaces it.
- PartialBlocks.PartialBlock.InitData: assumes a new object and that the search for free slots ends, in the words of CompactBlocks.SearchEndsIff; so do PartialBlocks.AssignSlots and PartialBlocks.SkipFull.
- CompactBlocks: the counter of extra transactions, which is only logged, and the wire form of short ids.
- Compressor: the compact form of scripts.
- Base58: addresses and keys built on the codec; characters above 127 in the test for spaces.
