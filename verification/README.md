# Verified models of the cspn node

cspn is a full node for a Bitcoin-derived currency. This project models the parts of it where many pieces of state must agree, or where arithmetic and encodings must be exact, and proves what they promise.

| files | component |
|---|---|
| `Coins`, `CoinsView` | the stack of unspent-coin caches over the database |
| `AddrMan`, `AddrManOps`, `AddrManRuns`, `AddrManEffects`, `AddrManager`, `AddrManCheck`, `AddrManDisk` | the address manager: its five indexes, every operation, its self-check and its file format |
| `CheckQueue` | the queue on which a master and worker threads run script checks |
| `Miner` | package selection for a new block |
| `Digits`, `Limbs`, `Arith`, `Compact` | multi-limb arithmetic, the compact form of targets, and the work of a block |
| `Merkle` | partial Merkle trees |
| `Cuckoo`, `CuckooCache` | the cuckoo cache |
| `RollingBloom` | the rolling Bloom filter |
| `Chain` | skip pointers, forks, the active chain and locators |
| `Serialize` | the length prefix of the serialization format |
| `BitStreams`, `Golomb`, `GolombFilter` | Golomb-coded block filters |
| `Bech32`, `Bech32Distance`, `Bech32Codec`, `Base58` | the two address encodings |
| `BlockRequest`, `CompactBlocks`, `PartialBlock` | compact blocks (BIP 152) |
| `Sets`, `Options` | facts about finite sets; optional values |

`dafny verify dfyconfig.toml` checks all of it.

## How to read it

Code that updates objects is modelled as classes and methods with loops. Each method is proved equal to a function on values, or to a direct statement of its result. The theorems are about those functions: a plain map for the coin caches, one invariant for all indexes of the address manager, a transition system for the threads, integers for limbs, sequences of bits for streams.

The main theorems, one for each component: `Coins.RunRefines`, `AddrManRuns.RunKeeps`, `AddrManCheck.Check_`, `AddrManager.AddressManager.Unserialize`, `CheckQueue.RunKeeps` with `CheckQueue.WaitAlwaysReturns`, `Miner.BlockAssembler.AddPackageTxs`, `Arith.BaseUint.DivAssign`, `Compact.RoundTrip`, `Compact.GetBlockProof`, `Merkle.Completeness` and `Merkle.Soundness`, `Cuckoo.RunKeeps` and `Cuckoo.NoDuplicates`, `RollingBloom.Retains`, `Chain.BlockIndex.GetAncestor` with `Chain.StepsBound` and `Chain.LastCommonAncestor`, `GolombFilter.MatchAny` with `GolombFilter.AcceptedIff`, `Bech32Codec.DecodeIff` with `Bech32Distance.ThreeDetected` and `Bech32.BurstDetected`, `Base58.DecodeEncode` and `Base58.EncodeDecode`, `PartialBlock.Relay`.

Hash functions, clock readings and random draws are parameters. No property of a hash is assumed except where a statement says so: Merkle soundness holds unless two pairs that are actually hashed collide, and these are returned; compact blocks hold for candidates whose short ids belong to the block's own transactions.

## Where the code does not do what was expected

Each of these is proved, with the exact condition.

- Clearing the address manager does not clear its pending collisions. It is consistent afterwards if and only if there were none (`AddrManager.AddressManager.Clear`), and otherwise the next address added can make SelectTriedCollision_ read an entry with id -1 (`AddrManCheck.StaleCollisionAfterClear`). The same holds for every stale id as long as an entry has it again (`AddrManCheck.StaleCollisionsAfterAdditions`).
- Flush, when the parent throws, has already lost the entries that the parent was given before, while the memory counter still counts them (`CoinsView.CoinsViewCache.Flush`, `CoinsView.HalfFlushed`).
- AddCoin, when it throws, has already taken the old coin off the memory counter (`CoinsView.CoinsViewCache.AddCoin`).
- An entry that re-enters mapModifiedTx after it failed overstates what is left of its package (`Miner.ReentryExcess`). It is never understated.
- A Golomb filter of more than 0x02000000 elements can be built, but it is refused when read again and matching against it throws (`GolombFilter.AcceptedIff`).
- Extraction from a partial Merkle tree reports failure as the root zero, which is indistinguishable from success for a block whose root is zero (`Merkle.ZeroRootUnsound`).
- InitData admits compact blocks of up to 100000 transactions but keeps slot numbers in 16 bits: they are right if and only if there are at most 65536 (`CompactBlocks.SlotsFitIff`). Its counter index_offset has 16 bits too: if 65536 transactions are prefilled and there is a short id, it wraps around and the loop that looks for an empty slot never ends; it is large enough in every other case (`CompactBlocks.OffsetFitsIff`). Received messages have at most 65535 transactions, so they reach neither.
- A partial Merkle tree with two equal hashes side by side on a path to a match is refused by its receiver, even though it was built correctly (`Merkle.Completeness`); for distinct transactions that takes a hash collision (`Merkle.UnreadableCollides`).
- The first displacement of the cuckoo cache is at the second of the eight locations; the comment above it says the first. The model follows the code.

## Model

| member | source | states |
|---|---|---|
| `Coins.AddKeepsFlagsIff` | src/coins.cpp:68-87 | AddCoin keeps the flags truthful if and only if the entry was overwritable, already dirty, or not shown by the parent |
| `Coins.AddRefines` | src/coins.cpp:68-87 | under its precondition AddCoin does not throw, keeps FRESH and DIRTY truthful, and shows the plain map with the coin added (or unchanged for an unspendable output) |
| `Coins.SpendRefines` | src/coins.cpp:100-114 | spending a fetched coin shows the plain map without it, and the flags stay truthful |
| `Coins.UncacheRefines` | src/coins.cpp:212-219 | dropping an unflagged entry changes nothing that is shown |
| `Coins.CopyRefines` | src/coins.cpp:42-57 | keeping a fetched copy changes nothing that is shown |
| `Coins.GetCoinRefines` | src/coins.cpp:42-66 | fetching through a stack of any depth changes no view at any level and finds exactly what the top shows |
| `Coins.MergeRefines` | src/coins.cpp:147-203 | the logic_error of BatchWrite is unreachable, the parent keeps truthful flags for the grandparent, and shows what the child showed |
| `Coins.MergeDbRefines` | src/txdb.cpp:82-131 | writing the dirty entries to the database leaves it equal to what the cache showed |
| `Coins.FetchStepRefines` | src/coins.cpp:42-57 | a fetch at any level of a stack leaves every view and all flags |
| `Coins.FlushStepRefines` | src/coins.cpp:205-210 | Flush never throws; the level below then shows what the top showed, and so does the emptied top |
| `Coins.StepRefines` | src/coins.cpp:42-219 | every operation of the stack is the corresponding operation on plain maps, level by level, and throws nothing |
| `Coins.RunRefines` | src/coins.cpp:42-219 | every run of fetch, add, spend, uncache, flush, push and drop over a stack of any depth acts on the visible maps as on plain maps; flags are truthful at the end and no exception is thrown |
| `CoinsView.CoinsDB.BatchWrite` | src/txdb.cpp:82-131 | the loop over the entries leaves exactly the merged database, in whatever order it goes; a null block hash fails before anything is written |
| `CoinsView.UsageSplit` | src/coins.cpp:38-40 | the memory of a cache is a sum over its entries that does not depend on their order |
| `CoinsView.CoinsViewCache.FetchCoin` | src/coins.cpp:42-57 | acts on all levels of the linked caches as the fetch of the stack, and keeps the memory counter exact |
| `CoinsView.CoinsViewCache.GetCoin` | src/coins.cpp:59-66 | acts as the stack's GetCoin and keeps the memory counter exact |
| `CoinsView.CoinsViewCache.HaveCoin` | src/coins.cpp:127-130 | true if and only if the coin is in the plain map of the top |
| `CoinsView.CoinsViewCache.AddCoin` | src/coins.cpp:68-87 | throws exactly when told that nothing is overwritten while an unspent coin is cached; the memory counter stays exact except on that throw, when it loses the coin |
| `CoinsView.CoinsViewCache.SpendCoin` | src/coins.cpp:100-114 | true exactly if an entry was found, with the coin it held moved out; memory counter exact |
| `CoinsView.CoinsViewCache.Uncache` | src/coins.cpp:212-219 | removes only an entry without flags; memory counter exact |
| `CoinsView.CoinsViewCache.WriteOne` | src/coins.cpp:149-199 | one child entry: throws exactly if FRESH over an unspent coin, then changing nothing, and counts the change of memory exactly |
| `CoinsView.CoinsViewCache.WriteAll` | src/coins.cpp:148-200 | the whole child map, in any order, gives the merged map; throws exactly if some entry is misapplied, and then the entries before it are written here and erased from the child's map, and no others |
| `CoinsView.CoinsViewCache.BatchWrite` | src/coins.cpp:147-203 | the merged map and the new best block; on a throw the half-written map and what is left of the child; no other level changes |
| `CoinsView.CoinsViewCache.Flush` | src/coins.cpp:205-210 | throws exactly if the flags do not fit the parent: the parent then holds the entries written before, they are gone from this cache, the counter is unchanged, and the accounting survives if and only if they counted nothing; fails over a database exactly if no best block is set; otherwise the cache is empty with memory zero; on a truthful stack it never throws, and the plain maps of all levels are as after a plain flush |
| `CoinsView.HalfFlushed` | src/coins.cpp:148-178 | if an entry is misapplied and another one is iterated first, that other one is gone from the child when BatchWrite throws |
| `CoinsView.UsageParts` | src/coins.cpp:38-40 | the memory of a map is that of a part of it and of the rest |
| `CoinsView.CoinsViewCache.AddOutput` | src/coins.cpp:92-97 | one output of AddCoins is a plain add |
| `CoinsView.CoinsViewCache.AddCoins` | src/coins.cpp:89-98 | all outputs of a transaction are added to the plain map of the top, without exception |
| `CoinsView.MergeStep` | src/coins.cpp:148-200 | writing one entry and then the rest is writing them all, and the verdict on misapplied flags is the same |
| `CoinsView.MergeDbStep` | src/txdb.cpp:107-131 | the same for the database |
| `CoinsView.OutputsShown` | src/coins.cpp:89-98 | after AddCoins the top shows exactly the spendable outputs of the transaction and elsewhere what it showed before |
| `AddrMan.SwapRandomOk` | src/addrman.cpp:92-110 | exchanging two positions keeps vRandom and nRandomPos inverse and changes nothing else |
| `AddrMan.SwapRandomKeeps` | src/addrman.cpp:92-110 | and keeps all indexes consistent |
| `AddrMan.DeleteKeeps` | src/addrman.cpp:112-124 | deleting an entry without references removes it from every index and keeps the others consistent |
| `AddrMan.ClearNewEffect` | src/addrman.cpp:126-139 | what emptying a cell does to every entry: one reference less for its entry, which goes with the last |
| `AddrMan.ClearNewKeeps` | src/addrman.cpp:126-139 | emptying a cell of the new table keeps the indexes consistent |
| `AddrManOps.LeaveNewKeeps` | src/addrman.cpp:143-151 | leaving every new bucket brings the reference count to zero and keeps the rest consistent |
| `AddrManOps.EvictKeeps` | src/addrman.cpp:160-169 | taking an entry out of its tried cell keeps the rest consistent |
| `AddrManOps.ReEnterKeeps` | src/addrman.cpp:171-181 | putting an evicted entry into the new table, over whatever was there, keeps everything consistent |
| `AddrManOps.PlaceTriedKeeps` | src/addrman.cpp:182-187 | taking the free tried cell completes the move |
| `AddrManOps.MakeTriedKeeps` | src/addrman.cpp:141-187 | moving an entry to the tried table, with eviction, keeps all indexes consistent |
| `AddrManOps.MarkedGoodKeeps` | src/addrman.cpp:189-212 | noting a success keeps everything consistent |
| `AddrManOps.GoodKeeps` | src/addrman.cpp:189-253 | Good_ keeps consistency for every input; an untried entry is always found in some new bucket, so the bail-out is dead |
| `AddrManOps.CreatedKeeps` | src/addrman.cpp:80-90 | a created entry gets an unused id and is entered in every index |
| `AddrManOps.PlaceNewKeeps` | src/addrman.cpp:304-324 | giving an entry a cell, or deleting it if it has none, keeps everything consistent |
| `AddrManOps.AddKeepsIndexes` | src/addrman.cpp:255-326 | Add_ keeps the indexes in agreement whatever collisions are pending, and touches neither them nor the tried table |
| `AddrManOps.AddKeeps` | src/addrman.cpp:255-326 | Add_ keeps consistency for every address, source, time and draw |
| `AddrManOps.CollisionsEvolve` | src/addrman.cpp:534-591 | pending collisions stay meaningful as long as tried cells stay filled |
| `AddrManRuns.AttemptKeeps` | src/addrman.cpp:328-348 | Attempt_ keeps consistency |
| `AddrManRuns.GetAddrConsistent` | src/addrman.cpp:475-494 | GetAddr_ only reshuffles vRandom, hands out distinct known ids and no more than the limit |
| `AddrManRuns.ResolveOneKeeps` | src/addrman.cpp:536-589 | one pending collision: either verdict keeps consistency and never reads an empty cell's entry |
| `AddrManRuns.ResolveKeeps` | src/addrman.cpp:534-591 | the same for all of them |
| `AddrManRuns.SelectTriedCollisionReads` | src/addrman.cpp:593-618 | the tried cell SelectTriedCollision_ looks at always holds an existing tried entry, so mapInfo[-1] is never touched |
| `AddrManRuns.StepKeeps` | src/addrman.cpp:80-618 | every operation, at positive times, keeps consistency and never empties a filled tried cell |
| `AddrManRuns.RunKeeps` | src/addrman.cpp:80-618 | so does every run of Add_, Good_, Attempt_, Connected_, SetServices_, GetAddr_, ResolveCollisions_ and SelectTriedCollision_; ids keep their address |
| `AddrManRuns.InitialConsistent` | src/addrman.h:459-481 | an empty manager is consistent |
| `AddrManRuns.MakeTriedEffect` | src/addrman.cpp:141-187 | after MakeTried the entry is in its tried cell, with no references, and every other tried cell is as before |
| `AddrManRuns.EvictionEffect` | src/addrman.cpp:158-181 | an evicted entry is back in the new table with one reference in its own source's cell; only the entry whose last reference was there can be lost |
| `AddrManRuns.AddLoses` | src/addrman.cpp:255-326 | Add_ removes a known entry only if it is terrible and its last reference was in the target cell |
| `AddrManEffects.PlaceEffect` | src/addrman.cpp:304-324 | taking a cell: whatever was there has one reference less and goes with its last; no other cell or entry changes |
| `AddrManEffects.AddNewEffect` | src/addrman.cpp:255-326 | an unknown routable address gets a new id, and ends in its source's cell with one reference if and only if the cell is empty or held by an entry that is terrible or has other references; otherwise nothing is kept |
| `AddrManEffects.AddKnownEffect` | src/addrman.cpp:269-324 | a known address is refreshed, and gains a reference exactly if it brings newer information, is untried with fewer than eight, is drawn, and the cell is empty or held by a terrible entry |
| `AddrManEffects.GoodEffect` | src/addrman.cpp:189-253 | a success is noted; an untried entry moves to the tried table, or if its cell is taken and must be tested first the collision is noted, up to ten |
| `AddrManEffects.GetAddrCovers` | src/addrman.cpp:475-494 | from any position on, handed out are exactly, in the final order of vRandom and up to the limit, the ids whose entry is not terrible at the clock reading of its turn |
| `AddrManEffects.GetAddrComplete` | src/addrman.cpp:475-494 | so GetAddr_ hands out no address that is terrible at its turn and, unless the limit is reached, every other one; the turn of an entry is its final position in vRandom |
| `AddrManCheck.Check_` | src/addrman.cpp:398-472 | on any state whatever, Check_ returns 0 if and only if the indexes agree (Checked) |
| `AddrManCheck.CheckEntry` | src/addrman.cpp:406-428 | one entry passes exactly if it meets every test of the loop; looking up a missing address inserts 0 and changes no lookup |
| `AddrManCheck.CheckEntries` | src/addrman.cpp:406-428 | the loop accepts exactly the maps whose entries all pass, and collects the tried ids and the reference counts |
| `AddrManCheck.CheckTriedBucket` | src/addrman.cpp:436-446 | one bucket of the tried table |
| `AddrManCheck.CheckTriedTable` | src/addrman.cpp:435-447 | setTried ends empty without error exactly if every tried id is in its computed cell and every filled cell is a tried entry's |
| `AddrManCheck.CheckNewBucket` | src/addrman.cpp:450-459 | one bucket of the new table |
| `AddrManCheck.CheckNewTable` | src/addrman.cpp:449-460 | mapNew ends empty without error exactly if every filled cell is at its computed position and every reference count is the number of cells |
| `AddrManCheck.CheckTables` | src/addrman.cpp:435-468 | both tables and the key |
| `AddrManCheck.ListedIsInverse` | src/addrman.cpp:403-424 | a list as long as the map in which every entry finds itself is exactly the inverse of the positions |
| `AddrManCheck.EntriesDecide` | src/addrman.cpp:403-433 | the tests on entries and counts decide the list, address, count and entry conditions |
| `AddrManCheck.ConsistentChecked` | src/addrman.cpp:398-472 | every consistent manager with a key passes Check_ |
| `AddrManCheck.CheckedConsistent` | src/addrman.cpp:398-472 | a manager that passes is consistent, apart from stray addresses, the id counter and pending collisions, which Check_ does not look at |
| `AddrManCheck.RunChecked` | src/addrman.cpp:80-618 | after any run Check_ finds nothing |
| `AddrManCheck.StaleCollisionAfterClear` | src/addrman.h:459-481 | Clear leaves pending collisions: if id 0 is pending, the next routable Add_ gives that id out while its tried cell is empty, so SelectTriedCollision_ would read mapInfo[-1] |
| `AddrManCheck.StaleCollisionsAfterAdditions` | src/addrman.h:459-481 | after Clear and any additions the cell of every stale id that has an entry again is empty; the manager is consistent if and only if all stale ids were given out again and their entries are gone |
| `AddrManCheck.StaleIdGivenOut` | src/addrman.h:459-481 | when the id counter reaches a stale id, the next unknown routable address whose cell yields gets it |
| `AddrManDisk.SerializedIsWritten` | src/addrman.h:304-350 | what Serialize writes for a consistent manager is what reading needs |
| `AddrManDisk.OrderWritten` | src/addrman.h:317-336 | every id is listed once, new ones first, and the counts in the header are those of the lists |
| `AddrManDisk.CountsFit` | src/addrman.h:374-380 | the counts of a consistent manager are within the limits that Unserialize enforces |
| `AddrManDisk.ReadNewStep` | src/addrman.h:382-400 | reading one new entry keeps the indexes consistent up to entries without references |
| `AddrManDisk.ReadTriedStep` | src/addrman.h:402-421 | a written tried entry always finds its cell free, so none is lost |
| `AddrManDisk.ReadRefStep` | src/addrman.h:423-439 | each bucket reference finds its cell free and goes back to where it was |
| `AddrManDisk.RefCountsRestored` | src/addrman.h:423-439 | at the end every reference count is the one that was written |
| `AddrManDisk.TriedRestored` | src/addrman.h:402-421 | every tried cell holds the entry that stands for the one it held |
| `AddrManDisk.ReadDone` | src/addrman.h:441-457 | nothing is pruned, the indexes agree, and the manager is the written one up to renaming of ids |
| `AddrManDisk.SoundNewStep` | src/addrman.h:383-388 | reading any new entry of a stream that lists no address twice keeps the indexes in agreement up to entries without references |
| `AddrManDisk.SoundTriedStep` | src/addrman.h:404-417 | so does any tried entry whose cell is free |
| `AddrManDisk.SoundPut` | src/addrman.h:425-438 | so does a reference that is put where there is room, from the bucket section or by the primary source |
| `AddrManDisk.WrittenSound` | src/addrman.h:304-350 | what Serialize writes lists no address twice |
| `AddrManager.AddressManager.constructor` | src/addrman.h:483-486 | a fresh manager is the initial state: every index and both tables empty, id counter zero, no pending collision |
| `AddrManager.AddressManager.Clear` | src/addrman.h:459-481 | everything is empty but the pending collisions: the manager is valid if and only if there were none |
| `AddrManager.AddressManager.SwapRandom` | src/addrman.cpp:92-110 | is the value-level step; the two asserts hold |
| `AddrManager.AddressManager.Delete` | src/addrman.cpp:112-124 | is the value-level step; the three asserts hold |
| `AddrManager.AddressManager.ClearNew` | src/addrman.cpp:126-139 | is the value-level step; the assert on the reference count holds |
| `AddrManager.AddressManager.LeaveNewBuckets` | src/addrman.cpp:143-150 | the loop over the buckets removes every reference |
| `AddrManager.AddressManager.MakeSpace` | src/addrman.cpp:158-181 | the eviction is the value-level step; the assert on the cell holds |
| `AddrManager.AddressManager.MakeTried` | src/addrman.cpp:141-187 | is the value-level step; the three asserts hold |
| `AddrManager.AddressManager.Find` | src/addrman.cpp:67-78 | the id if and only if the address is known |
| `AddrManager.AddressManager.FindNewBucket` | src/addrman.cpp:218-233 | searching from a random start finds a bucket if and only if the entry is in one |
| `AddrManager.AddressManager.Good_` | src/addrman.cpp:189-253 | is the value-level step and keeps the manager valid |
| `AddrManager.AddressManager.Create` | src/addrman.cpp:80-90 | is the value-level step |
| `AddrManager.AddressManager.PlaceNew` | src/addrman.cpp:304-324 | is the value-level step |
| `AddrManager.AddressManager.Refresh` | src/addrman.cpp:269-277 | is the value-level step |
| `AddrManager.AddressManager.Add_` | src/addrman.cpp:255-326 | is the value-level step, keeps the manager valid, and returns whether a routable address was unknown |
| `AddrManager.AddressManager.Attempt_` | src/addrman.cpp:328-348 | is the value-level step and keeps the manager valid |
| `AddrManager.AddressManager.Connected_` | src/addrman.cpp:496-514 | is the value-level step and keeps the manager valid |
| `AddrManager.AddressManager.SetServices_` | src/addrman.cpp:516-532 | is the value-level step and keeps the manager valid |
| `AddrManager.AddressManager.GetAddr_` | src/addrman.cpp:475-494 | hands out known addresses, none twice, at most 23 percent and at most 2500, and keeps the manager valid |
| `AddrManager.AddressManager.ResolveOne_` | src/addrman.cpp:536-589 | is the value-level step and keeps the manager valid |
| `AddrManager.AddressManager.ResolveCollisions_` | src/addrman.cpp:534-591 | is the value-level step and keeps the manager valid |
| `AddrManager.AddressManager.SelectTriedCollision_` | src/addrman.cpp:593-618 | returns the tried entry in the way, or nothing if none is pending, or erases a collision whose entry is gone; only existing entries are read |
| `AddrManager.AddressManager.WriteNewEntries` | src/addrman.h:317-327 | the entries with references in ascending order, each with its index; the assert on the count holds |
| `AddrManager.AddressManager.WriteTriedEntries` | src/addrman.h:328-336 | the tried entries in ascending order; the assert on the count holds |
| `AddrManager.AddressManager.WriteRefs` | src/addrman.h:337-350 | the bucket section lists the index of every reference, bucket by bucket |
| `AddrManager.AddressManager.Serialize` | src/addrman.h:304-351 | the stream is the one the format describes, and neither assert fails |
| `AddrManager.AddressManager.TakeOwnCell` | src/addrman.h:389-398 | an entry whose references cannot be used takes the cell of its primary source, and gains a reference, exactly if that cell is free; nothing else changes |
| `AddrManager.AddressManager.ReadNewEntries` | src/addrman.h:382-400 | the first loop: ids are given out in order, and the indexes agree whatever the version and the bucket count, if no address is listed twice |
| `AddrManager.AddressManager.ReadTriedEntries` | src/addrman.h:402-421 | the second loop: an entry whose cell is taken is lost and counted as lost, and the indexes agree; nothing is lost on a written stream |
| `AddrManager.AddressManager.ReadBucket` | src/addrman.h:425-438 | one bucket of references, whatever they are: no cell and no count goes out of range, and the indexes agree |
| `AddrManager.AddressManager.ReadRefs` | src/addrman.h:423-439 | all buckets of references |
| `AddrManager.AddressManager.Prune` | src/addrman.h:441-451 | removes exactly the new entries without references and keeps all others, up to their place in vRandom; the indexes then agree without exception |
| `AddrManager.AddressManager.Unserialize` | src/addrman.h:353-457 | any accepted stream that lists no address twice, of whatever version, bucket count and references, leaves a manager whose indexes agree; reading what Serialize wrote for any consistent state succeeds and restores it up to renaming of ids: same cells, same persisted fields, same reference counts; pending collisions stay |
| `CheckQueue.BatchSize` | src/checkqueue.h:102-107 | between one and the whole queue, and no more than the batch limit |
| `CheckQueue.TakenSplits` | src/checkqueue.h:108-114 | the batch and what stays queued are together the queue: no check is lost or run twice |
| `CheckQueue.MergedKeeps` | src/checkqueue.h:75-86 | merging a finished batch keeps the invariant of the queue |
| `CheckQueue.AtHeadKeeps` | src/checkqueue.h:87-117 | sleeping, taking a batch or returning keeps the invariant |
| `CheckQueue.ReturnKeeps` | src/checkqueue.h:88-97 | Wait returns with nothing queued or held, every check of the session finished, and the answer whether all of them hold; the next session starts clean |
| `CheckQueue.StepKeeps` | src/checkqueue.h:66-158 | every step of every thread keeps: nTodo is the number of queued plus held checks, and the verdict so far is exact |
| `CheckQueue.RunKeeps` | src/checkqueue.h:66-158 | in every interleaving of a master and any number of workers, over any number of sessions, every recorded answer is that of its own session |
| `CheckQueue.InitialOk` | src/checkqueue.h:131 | the invariant holds at the start |
| `CheckQueue.WaitReturns` | src/checkqueue.h:140-143 | whenever the master leaves Wait, the session is finished and its answer is whether all its checks hold |
| `CheckQueue.SessionGrows` | src/checkqueue.h:146-158 | no check is forgotten or added outside Add, and no answer recorded outside the return of Wait |
| `CheckQueue.MasterWaitsForWorker` | src/checkqueue.h:80-100 | a master asleep and not notified waits for a worker that holds checks and can go on |
| `CheckQueue.NoDeadlock` | src/checkqueue.h:66-124 | while the master is in Wait some thread can take a step that is not a spurious wake-up |
| `CheckQueue.StepWorks` | src/checkqueue.h:66-124 | every such step leaves less work |
| `CheckQueue.WaitTerminates` | src/checkqueue.h:140-143 | so no run of such steps is longer than the work there was |
| `CheckQueue.WaitCanReturn` | src/checkqueue.h:140-143 | from every reachable state such steps lead to the master leaving Wait |
| `CheckQueue.WaitAlwaysReturns` | src/checkqueue.h:140-143 | and every run of such steps that cannot go on has ended with the master outside Wait |
| `CheckQueue.Queue.constructor` | src/checkqueue.h:131 | the initial fields |
| `CheckQueue.Queue.FinishRound` | src/checkqueue.h:75-86 | merges a batch; notifies the master exactly if the last check is done by a worker |
| `CheckQueue.Queue.Proceed` | src/checkqueue.h:87-117 | sleeps, returns or takes a batch as the step function says |
| `CheckQueue.Queue.TakeBatch` | src/checkqueue.h:108-114 | moves the checks from the back of the queue |
| `CheckQueue.Queue.Wakened` | src/checkqueue.h:88-101 | the rest of the loop after the condition variable |
| `CheckQueue.Queue.Add` | src/checkqueue.h:146-158 | appends the checks, raises nTodo and says whom to notify |
| `CheckQueue.Execute` | src/checkqueue.h:118-122 | the batch passes if and only if the verdict so far was good and all its checks hold |
| `Miner.WeightBound` | src/policy/policy.cpp:238-241 | the weight of a set of transactions is at most four times the sum of their virtual sizes |
| `Miner.UpdateEntry` | src/miner.cpp:331-352 | accounting for one included transaction keeps a tracked package's figures not below what is left of it, and exact if it never failed |
| `Miner.ReentryExcess` | src/miner.cpp:337-346 | an entry that comes back into mapModifiedTx after failing overstates what is left by exactly its ancestors already in the block |
| `Miner.UpdateOne` | src/miner.cpp:335-350 | one included transaction is accounted for in one descendant |
| `Miner.UpdateDescendants` | src/miner.cpp:331-351 | one included transaction is accounted for in all descendants outside the block |
| `Miner.UpdatePackagesForAdded` | src/miner.cpp:327-352 | afterwards the figures of every package match the enlarged block |
| `Miner.BlockClosed` | src/miner.cpp:308-325 | a block in which everything comes after its ancestors is ancestor-closed |
| `Miner.First` | src/miner.cpp:369-378 | the least remaining transaction by ancestor count, ties by hash |
| `Miner.SortForBlock` | src/miner.cpp:369-378 | the package, each transaction once, sorted by ancestor count |
| `Miner.SortedAncestors` | src/miner.cpp:369-378 | in that order every transaction comes after its ancestors that are not in the block |
| `Miner.TestFigures` | src/miner.cpp:446-464 | the figures given to the package test are never below the true total of what is left of the package, and exact unless the entry had failed before |
| `Miner.StaysWithin` | src/miner.cpp:280-288 | a package whose figures pass the test leaves weight and sigops below their limits |
| `Miner.BlockAssembler.constructor` | src/miner.cpp:63-99 | the block starts empty and within its limits |
| `Miner.BlockAssembler.TestPackageTransactions` | src/miner.cpp:295-306 | true if and only if every transaction may be mined |
| `Miner.BlockAssembler.OnlyUnconfirmed` | src/miner.cpp:267-278 | what is not in the block yet |
| `Miner.BlockAssembler.AddToBlock` | src/miner.cpp:308-325 | appends, with the counters equal to the sums over the block |
| `Miner.BlockAssembler.AddPackage` | src/miner.cpp:503-511 | appends the sorted package and drops it from mapModifiedTx |
| `Miner.BlockAssembler.IncludePackage` | src/miner.cpp:483-516 | adds exactly the package's missing part, keeps block and mapModifiedTx disjoint and all figures right |
| `Miner.BlockAssembler.Drop` | src/miner.cpp:464-471 | erases a failed entry |
| `Miner.BlockAssembler.StartTracking` | src/miner.cpp:398-400 | accounts for what is already in the block |
| `Miner.BlockAssembler.Choose` | src/miner.cpp:420-444 | the next entry of the pool or one of mapModifiedTx |
| `Miner.BlockAssembler.Pick` | src/miner.cpp:420-457 | the entry to look at is outside the block, and the figures it comes with are right |
| `Miner.BlockAssembler.Round` | src/miner.cpp:420-516 | one round of the loop: a low fee ends it, otherwise the measure (transactions outside the block, entries still to visit) falls |
| `Miner.BlockAssembler.Evaluate` | src/miner.cpp:464-516 | one package: it is included, does not fit, or needs a transaction that may not be mined; the record of verdicts stays right and the termination measure falls |
| `Miner.OneMoreVerdict` | src/miner.cpp:464-498 | verdicts stay right as the block grows |
| `Miner.BlockAssembler.AddPackageTxs` | src/miner.cpp:390-518 | for any pool: terminates; the block only grows, has parents before children, no transaction twice and all ancestors of each; weight and sigops end below their limits; the package test is never given a figure below the true one; every package was taken, or refused by the figures recorded for it or for a transaction that may not be mined; and unless it stops for a low fee or a nearly full block, every entry of the pool ends in the block or was refused; it gives up only with a nearly full block after more than 1000 packages that did not fit since the last one taken |
| `Miner.MisfitsRefused` | src/miner.cpp:464-481 | then at least as many of the last tests ended in a refusal |
| `Limbs.OrDisjoint` | src/arith_uint256.cpp:23-54 | joining bits that do not overlap adds |
| `Limbs.ShiftLeftValue` | src/arith_uint256.cpp:23-37 | a limb-wise left shift multiplies by the power of two, modulo the width |
| `Limbs.ShiftRightValue` | src/arith_uint256.cpp:40-54 | a limb-wise right shift divides by the power of two |
| `Arith.ColumnFits` | src/arith_uint256.cpp:57-82 | a column of the product fits in 64 bits |
| `Arith.HigherLimb` | src/arith_uint256.cpp:111-120 | the highest limb that differs decides the order |
| `Arith.TopBit` | src/arith_uint256.cpp:173-185 | the highest bit of the highest nonzero limb is that of the number |
| `Arith.BaseUint.constructor` | src/arith_uint256.h:33-39 | zero |
| `Arith.BaseUint.Copy` | src/arith_uint256.h:41-47 | an equal number |
| `Arith.BaseUint.Assign` | src/arith_uint256.h:49-54 | takes the value |
| `Arith.BaseUint.AssignSmall` | src/arith_uint256.h:87-94 | takes a 64-bit value |
| `Arith.BaseUint.AddAssign` | src/arith_uint256.h:134-144 | the sum modulo 2^BITS |
| `Arith.BaseUint.SubAssign` | src/arith_uint256.h:146-150 | the difference modulo 2^BITS |
| `Arith.BaseUint.Complement` | src/arith_uint256.h:68-74 | 2^BITS - 1 minus the number |
| `Arith.BaseUint.Negated` | src/arith_uint256.h:76-83 | the additive inverse modulo 2^BITS |
| `Arith.BaseUint.Increment` | src/arith_uint256.h:172-179 | one more modulo 2^BITS |
| `Arith.BaseUint.Decrement` | src/arith_uint256.h:189-196 | one less modulo 2^BITS |
| `Arith.BaseUint.MulSmall` | src/arith_uint256.cpp:57-66 | the product with a 32-bit number modulo 2^BITS, without 64-bit overflow |
| `Arith.BaseUint.AddRow` | src/arith_uint256.cpp:73-79 | one row of the schoolbook product, without 64-bit overflow |
| `Arith.BaseUint.MulAssign` | src/arith_uint256.cpp:69-82 | the product modulo 2^BITS, for any number of limbs |
| `Arith.BaseUint.ShiftLeftAssign` | src/arith_uint256.cpp:23-37 | multiplication by 2^shift modulo 2^BITS, for every shift |
| `Arith.BaseUint.ShiftRightAssign` | src/arith_uint256.cpp:40-54 | the floor of the quotient by 2^shift, for every shift |
| `Arith.BaseUint.CompareTo` | src/arith_uint256.cpp:111-120 | the sign of the difference |
| `Arith.BaseUint.EqualTo` | src/arith_uint256.cpp:123-134 | equality with a 64-bit number |
| `Arith.BaseUint.Bits` | src/arith_uint256.cpp:173-185 | the position of the highest bit plus one, or zero |
| `Arith.BaseUint.GetLow64` | src/arith_uint256.h:244-248 | the number modulo 2^64 |
| `Arith.BaseUint.SetBit` | src/arith_uint256.cpp:101 | setting a bit below which nothing is set adds it |
| `Arith.BaseUint.DivStep` | src/arith_uint256.cpp:97-105 | one bit of the quotient keeps dividend = quotient * divisor + num |
| `Arith.BaseUint.LongDivide` | src/arith_uint256.cpp:97-105 | at the end num is below the divisor |
| `Arith.BaseUint.DivAssign` | src/arith_uint256.cpp:85-108 | for any number of limbs the quotient is the floor of the division, and num ends as the remainder; division by zero throws |
| `Compact.OverflowIff` | src/arith_uint256.cpp:205-223 | the overflow flag is set if and only if mantissa * 256^(size-3) does not fit in 256 bits |
| `Compact.SizeOfBounds` | src/arith_uint256.cpp:225-246 | the size field is the least number of bytes that holds the number with a clear sign bit |
| `Compact.MantissaBounds` | src/arith_uint256.cpp:225-246 | the mantissa has a clear sign bit and no more leading zeros than that needs |
| `Compact.RoundTrip` | src/arith_uint256.cpp:205-246 | decoding an encoding is the number with low-order bytes cleared, raises neither flag, and encodes to the same value again |
| `Compact.SetCompact` | src/arith_uint256.cpp:205-223 | the target modulo 2^256, with both flags exact |
| `Compact.GetCompact` | src/arith_uint256.cpp:225-246 | the compact form, with the sign only on a nonzero mantissa |
| `Compact.TargetEven` | src/chain.cpp:122-136 | no target is 2^256 - 1, so target + 1 does not wrap |
| `Compact.ProofArith` | src/chain.cpp:122-136 | (~t / (t+1)) + 1 is the floor of 2^256 / (t+1) |
| `Compact.GetBlockProof` | src/chain.cpp:122-136 | floor(2^256 / (target+1)), or 0 for a negative, overflowing or zero target |
| `Merkle.WidthIff` | src/merkleblock.h:66-68 | a position is in a row of the tree if and only if it has a leaf below it |
| `Merkle.Children` | src/merkleblock.h:66-68 | the leaves below a node divide between its children |
| `Merkle.SameHash` | src/merkleblock.cpp:39-57 | nodes of one height with equal hashes start with equal leaves, unless two of the pairs hashed for them collide |
| `Merkle.Reads` | src/merkleblock.cpp:59-113 | extraction reads exactly what was built, whatever follows it, and finds fault exactly if some node descended into has two equal children |
| `Merkle.Sizes` | src/merkleblock.cpp:59-75 | what is built has at most one hash for every leaf, at most 1 + matches * height, and a bit for every hash |
| `Merkle.Sound` | src/merkleblock.cpp:77-113 | extraction that ends with a node's true hash reported only true transactions, whatever the bits and hashes, unless a pair it hashed collides with one hashed for the node; the two pairs are returned |
| `Merkle.PackRoundTrip` | src/merkleblock.h:88-105 | unpacking packed bits gives them back, padded to whole bytes |
| `Merkle.TwinsCollide` | src/merkleblock.cpp:39-113 | with distinct leaves, two equal children take a collision of two pairs hashed for the tree; they are returned |
| `Merkle.UnreadableCollides` | src/merkleblock.cpp:39-162 | so a block of distinct transactions whose partial tree cannot be read hashes two pairs that collide |
| `Merkle.Completeness` | src/merkleblock.cpp:39-162 | for any txids within the size limit and any node hash, building, packing, unpacking and extracting returns exactly the matched txids with their positions in order, and the true root if and only if no node descended into has two equal children, with at most min(n, 1 + matches * height) hashes |
| `Merkle.Soundness` | src/merkleblock.cpp:77-162 | for any bits and hashes whatever, a nonzero true root means that every reported pair is true, unless a pair hashed in extraction collides with one hashed for the block; the two pairs are returned |
| `Merkle.ZeroRootUnsound` | src/merkleblock.cpp:131-162 | for a block whose root is zero the failure value passes for the root: every hash is reported as its first transaction by some partial tree |
| `Merkle.PackBits` | src/merkleblock.h:99-104 | is the packing function |
| `Merkle.UnpackBits` | src/merkleblock.h:92-98 | is the unpacking function |
| `Merkle.TreeHeight` | src/merkleblock.cpp:120-123 | the least height at which the tree has one node |
| `Merkle.PartialMerkleTree.Of` | src/merkleblock.cpp:115-127 | holds the tree that is built for the mask |
| `Merkle.PartialMerkleTree.TraverseAndBuild` | src/merkleblock.cpp:59-75 | appends what is built for a node |
| `Merkle.PartialMerkleTree.TraverseAndExtract` | src/merkleblock.cpp:77-113 | with its cursors in range, reads what extraction of the node reads |
| `Merkle.PartialMerkleTree.ExtractMatches` | src/merkleblock.cpp:131-162 | the root or zero, with matches; vnIndex is appended to and not cleared |
| `Merkle.PartialMerkleTree.Serialize` | src/merkleblock.h:88-105 | number, hashes and packed bits |
| `Merkle.PartialMerkleTree.Unserialize` | src/merkleblock.h:88-105 | takes them over and clears fBad |
| `Merkle.SendAndReceive` | src/merkleblock.cpp:39-162 | a tree sent to a peer yields there exactly the matched txids and positions, and the true root unless some node descended into has two equal children |
| `Cuckoo.LocInRange` | src/cuckoocache.h:243-260 | every location is in the table |
| `Cuckoo.PushKeeps` | src/cuckoocache.h:406-439 | displacement keeps every element at one of its own places and loses at most the element it is left with |
| `Cuckoo.InsertKeeps` | src/cuckoocache.h:392-440 | insertion turns the live entries into those plus the new one, with at most one lost; an element already there is only marked as recent |
| `Cuckoo.AgedKeeps` | src/cuckoocache.h:301-310 | ageing keeps exactly the live entries of the current epoch and counts none of them as recent |
| `Cuckoo.EpochCheckKeeps` | src/cuckoocache.h:289-321 | afterwards there is room in the bound for one more entry |
| `Cuckoo.StepKeeps` | src/cuckoocache.h:289-477 | insert and contains keep the invariant |
| `Cuckoo.RunKeeps` | src/cuckoocache.h:289-477 | in every run each live slot holds an element at one of its own eight places, and the live entries of the current epoch never exceed E + max(1, E/16) |
| `Cuckoo.SetupOk` | src/cuckoocache.h:340-353 | the invariant holds after setup, for every size |
| `Cuckoo.PutTidy` | src/cuckoocache.h:406-439 | an absent element that takes one of its places drives out the one that was there, which is then nowhere |
| `Cuckoo.PushTidy` | src/cuckoocache.h:406-439 | displacement never holds an element that is in the table as well |
| `Cuckoo.NoDuplicates` | src/cuckoocache.h:289-477 | after setup and any run, no element but the default one is in two slots, whatever the flags, and each is at one of its own places |
| `Cuckoo.InsertedSet` | src/cuckoocache.h:392-440 | insertion as an operation on sets: the live elements become those and the new one, without the one that displacement is left holding |
| `Cuckoo.LiveIsFound` | src/cuckoocache.h:467-477 | a live element is found, also after it was marked as erasable |
| `Cuckoo.InsertedIsFound` | src/cuckoocache.h:392-477 | an inserted element is found, and found again after it was marked as erasable, unless displacement was left holding it |
| `Cuckoo.InsertedIsFoundIff` | src/cuckoocache.h:392-477 | it is found if and only if displacement was not left holding it |
| `Cuckoo.RoomIsFound` | src/cuckoocache.h:392-477 | that is certain if one of its eight places holds it already or may be overwritten |
| `Cuckoo.FoundWasInserted` | src/cuckoocache.h:467-477 | after setup and any run, whatever is found was inserted before or is the default element |
| `CuckooCache.BitPackedFlags.constructor` | src/cuckoocache.h:61-68 | all flags set |
| `CuckooCache.BitPackedFlags.BitSet` | src/cuckoocache.h:92-95 | sets that flag and no other |
| `CuckooCache.BitPackedFlags.BitUnset` | src/cuckoocache.h:103-106 | clears that flag and no other |
| `CuckooCache.BitPackedFlags.BitIsSet` | src/cuckoocache.h:113-116 | reads that flag |
| `CuckooCache.Cuckoos.constructor` | src/cuckoocache.h:340-353 | the cache after setup |
| `CuckooCache.Cuckoos.CountRecent` | src/cuckoocache.h:295-300 | the number of live entries of the current epoch |
| `CuckooCache.Cuckoos.Age` | src/cuckoocache.h:305-310 | is the ageing function |
| `CuckooCache.Cuckoos.EpochChecked` | src/cuckoocache.h:289-321 | is the epoch check of the model |
| `CuckooCache.Cuckoos.FindElement` | src/cuckoocache.h:398-405 | the first place that holds the element |
| `CuckooCache.Cuckoos.FindFree` | src/cuckoocache.h:407-415 | the first free place |
| `CuckooCache.Cuckoos.Displace` | src/cuckoocache.h:430-435 | exchanges the carried element and flag with those of the slot |
| `CuckooCache.Cuckoos.PushOnce` | src/cuckoocache.h:406-439 | one round of the displacement loop |
| `CuckooCache.Cuckoos.PushAll` | src/cuckoocache.h:406-439 | the whole displacement loop |
| `CuckooCache.Cuckoos.Inserted` | src/cuckoocache.h:392-440 | is the insertion of the model and keeps the invariant |
| `CuckooCache.Cuckoos.Contains` | src/cuckoocache.h:467-477 | true if and only if one of the places holds the element; marks it as erasable if asked |
| `RollingBloom.FastModBelow` | src/bloom.cpp:242-244 | the multiply-and-shift reduction stays below its bound |
| `RollingBloom.RolledOk` | src/bloom.cpp:248-263 | wiping a label forgets exactly the generation three before the new one |
| `RollingBloom.MarkedOk` | src/bloom.cpp:266-274 | marking a key labels all its positions with the current generation and takes no position back in time |
| `RollingBloom.InsertKeeps` | src/bloom.cpp:246-275 | insertion keeps the correspondence of labels and generations |
| `RollingBloom.AfterOk` | src/bloom.cpp:246-275 | it holds after any sequence of insertions since reset |
| `RollingBloom.Retains` | src/bloom.cpp:246-295 | the filter contains every key of the current generation and of the two full ones before, however many were inserted |
| `RollingBloom.RetainsLast` | src/bloom.cpp:206-295 | so it contains each of the last nElements keys, even for the one number whose half is computed as zero in 32 bits |
| `RollingBloom.WipePair` | src/bloom.cpp:254-262 | the mask on a pair of words clears exactly the label of the generation |
| `RollingBloom.MarkPair` | src/bloom.cpp:271-273 | writing a bit of each word of a pair sets exactly that label |
| `RollingBloom.RollingBloomFilter.constructor` | src/bloom.cpp:206-231 | the filter after reset |
| `RollingBloom.RollingBloomFilter.ResetTo` | src/bloom.cpp:303-309 | all labels cleared, first generation |
| `RollingBloom.RollingBloomFilter.Wipe` | src/bloom.cpp:254-262 | clears the label everywhere, with every index in range |
| `RollingBloom.RollingBloomFilter.Mark` | src/bloom.cpp:271-273 | sets one label, with every index in range |
| `RollingBloom.RollingBloomFilter.Roll` | src/bloom.cpp:248-263 | is the change of generation of the model |
| `RollingBloom.RollingBloomFilter.Locate` | src/bloom.cpp:267-271 | word pair and bit of a hash are in range and are its position |
| `RollingBloom.RollingBloomFilter.Inserted` | src/bloom.cpp:246-275 | is the insertion of the model |
| `RollingBloom.RollingBloomFilter.Has` | src/bloom.cpp:283-295 | true if and only if every position of the key has a label |
| `Chain.InvertLowestOneIs` | src/chain.cpp:71 | n & (n-1) clears the lowest bit set |
| `Chain.GetSkipHeight` | src/chain.cpp:74-82 | below every positive height |
| `Chain.BlockIndex.GetAncestor` | src/chain.cpp:84-109 | terminates and is the block reached by single parent steps, or null outside the heights; with all skip pointers built it takes at most b * (b + 2) steps for a height of b binary digits |
| `Chain.InvertStays` | src/chain.cpp:71-82 | clearing the lowest bit set stays in a block of 2^m heights if a single step does |
| `Chain.OddSkip` | src/chain.cpp:74-109 | from an odd height the skip pointer is followed whenever it does not lead too far, and it clears two bits |
| `Chain.EffortFalls` | src/chain.cpp:84-109 | every step that stays in the upper half of a block lowers a measure of at most 2m + 3 |
| `Chain.StepsBound` | src/chain.cpp:74-109 | the number of steps of a walk is at most quadratic in the number of binary digits of the height |
| `Chain.BlockIndex.BuildSkip` | src/chain.cpp:116-120 | the skip pointer is the ancestor at the skip height |
| `Chain.WalkWalk` | src/chain.cpp:84-109 | ancestors of ancestors are ancestors |
| `Chain.BlockTree.AddBlock` | src/chain.cpp:116-120 | every tree grown by linking a child and calling BuildSkip has right skip pointers throughout |
| `Chain.LastCommonAncestor` | src/chain.cpp:157-172 | the highest block shared by the two branches |
| `Chain.LocatorGoesDown` | src/chain.cpp:23-49 | a locator starts at its block, goes strictly down and ends at the first block |
| `Chain.LocatorShort` | src/chain.cpp:23-49 | it has at most twelve entries more than the height has binary digits |
| `Chain.LocatorNear` | src/chain.cpp:23-49 | its first twelve entries are consecutive |
| `Chain.LocatorBlocks` | src/chain.cpp:23-49 | it lists the blocks of the branch at its heights |
| `Chain.ActiveChain.SetTip` | src/chain.cpp:11-21 | after any sequence of calls the vector is exactly the branch of the tip |
| `Chain.ActiveChain.ContainsBranch` | src/chain.h:547-549 | a block of the chain brings all its ancestors |
| `Chain.ActiveChain.FindFork` | src/chain.cpp:51-60 | the last block of a branch that is in the chain |
| `Chain.ActiveChain.ForkIsHighestShared` | src/chain.cpp:51-60 | which is the highest block that the branch shares with the tip's |
| `Chain.ActiveChain.StepBack` | src/chain.cpp:36-43 | both ways of stepping back give the same block |
| `Chain.ActiveChain.LocatorFrom` | src/chain.cpp:23-49 | the loop yields the locator of the block |
| `Chain.ActiveChain.GetLocator` | src/chain.cpp:23-49 | the same from the tip by default; empty for an empty chain |
| `BitStreams.BitWriter.Write` | src/streams.h:564-579 | appends the low bits of the number, highest first; throws exactly for a number of bits outside 0 to 64 |
| `BitStreams.BitWriter.Flush` | src/streams.h:584-592 | pads the last byte with zeros |
| `BitStreams.BitReader.Read` | src/streams.h:516-535 | the next bits as a number; fails exactly if there are not enough or the number of bits is outside 0 to 64 |
| `BitStreams.BitReader.EmptyIff` | src/streams.h:496-535 | the byte stream is empty exactly when fewer than eight bits are left |
| `Serialize.SizeRoundTrip` | src/serialize.h:266-320 | a written length is read back if and only if it is not above MAX_SIZE |
| `Serialize.SizeCanonical` | src/serialize.h:291-320 | a length can be read from one byte string only, the one written for it |
| `Golomb.MapIntoRange` | src/blockfilter.cpp:61-85 | the portable form computes floor(x * n / 2^64) with no step overflowing 64 bits |
| `Golomb.DecodeCode` | src/blockfilter.cpp:25-54 | decoding undoes coding, whatever follows |
| `Golomb.CodeExact` | src/blockfilter.cpp:42-54 | every bit string that decodes begins with the code of that value, as long as nothing is cut off at 64 bits |
| `Golomb.GolombRiceEncode` | src/blockfilter.cpp:25-40 | writes the code, quotients of more than 64 included |
| `Golomb.GolombRiceDecode` | src/blockfilter.cpp:42-54 | reads one code, and fails exactly if the bits do not hold one |
| `GolombFilter.SkipCoded` | src/blockfilter.cpp:110-131 | skipping as many codes as values leaves exactly what follows them |
| `GolombFilter.HashToRange` | src/blockfilter.cpp:87-93 | the hash mapped into the range of the filter |
| `GolombFilter.BuildHashedSet` | src/blockfilter.cpp:95-104 | the mapped hashes of all elements and of nothing else, sorted |
| `GolombFilter.BuildFilter` | src/blockfilter.cpp:133-161 | encodes the number and the sorted values of the set; throws exactly if there are 2^32 or more |
| `GolombFilter.EncodeAll` | src/blockfilter.cpp:151-160 | the differences in order, padded to a whole byte |
| `GolombFilter.AcceptedIff` | src/blockfilter.cpp:110-131 | re-reading an encoding is accepted, with the same N and no excess data, if and only if N is not above MAX_SIZE |
| `GolombFilter.SumsCoded` | src/blockfilter.cpp:110-131 | bits that hold n codes are the coding of their running sums |
| `GolombFilter.AcceptedEncodes` | src/blockfilter.cpp:110-131 | every accepted encoding whose running sums stay below 2^64, whoever made it, is the encoding of those sums |
| `GolombFilter.FromEncoded` | src/blockfilter.cpp:110-131 | accepts exactly the byte strings with a length, that many codes and less than a byte more; what it accepts encodes its running sums, so it can be matched against |
| `GolombFilter.MatchInternal` | src/blockfilter.cpp:163-193 | for every filter that either constructor leaves: throws exactly if the length cannot be read; a positive answer names a common value; and if the values, as summed in 64 bits, are sorted, the answer is whether a query is one of them |
| `GolombFilter.EncodesHeld` | src/blockfilter.cpp:163-193 | of a filter that encodes values exactly these are matched against, so they are sorted |
| `GolombFilter.CommonElements` | src/blockfilter.cpp:201-205 | a common value is a query and an element with the same mapped hash |
| `GolombFilter.MatchAny` | src/blockfilter.cpp:201-205 | true if and only if the mapped hash of some query is that of some element |
| `GolombFilter.Match` | src/blockfilter.cpp:195-199 | no false negatives, and true only for an equal mapped hash |
| `Bech32.StepLinear` | src/bech32.cpp:80-91 | a step of PolyMod is linear over GF(2) |
| `Bech32.StepInjective` | src/bech32.cpp:80-91 | a difference never dies out: the generator's constant coefficients are independent |
| `Bech32.PolyLinear` | src/bech32.cpp:37-94 | the whole computation is linear |
| `Bech32.PolySmall` | src/bech32.cpp:37-94 | up to six symbols fit in the state without reduction |
| `Bech32.BurstDetected` | src/bech32.cpp:37-94 | at any length, sequences that differ only within six consecutive symbols have different checksums |
| `Bech32Distance.FullTurn` | src/bech32.cpp:46-49 | the field element behind the code has an order that divides 1023 |
| `Bech32Distance.NoFixedPoint` | src/bech32.cpp:46-49 | no smaller power of it fixes anything but zero |
| `Bech32Distance.TapsValue` | src/bech32.cpp:86-91 | the five constants are multiples of a polynomial with three consecutive powers of that element as roots |
| `Bech32Distance.StepValue` | src/bech32.cpp:80-91 | a step of PolyMod multiplies the value of the state at a root by the root and adds the symbol |
| `Bech32Distance.NoThreeTerms` | src/bech32.cpp:46-49 | three terms that are not all zero do not vanish at three consecutive powers |
| `Bech32Distance.ThreeDetected` | src/bech32.cpp:46-49 | at any length, sequences that differ in up to three places within a window of 1023 have different checksums |
| `Bech32Codec.CharsetOk` | src/bech32.cpp:10-25 | the character set is lower case, lacks the separator, and is undone by its reverse |
| `Bech32Codec.ChecksumVerifies` | src/bech32.cpp:118-139 | the checksum made for any values verifies |
| `Bech32Codec.RoundTrip` | src/bech32.cpp:147-190 | decoding gives back every non-empty prefix of printable non-upper-case characters and all 5-bit values, up to 90 characters |
| `Bech32Codec.RoundTripIff` | src/bech32.cpp:147-190 | decoding an encoding of 5-bit values gives them back if and only if the prefix is non-empty, printable and without upper case and the whole has at most 90 characters |
| `Bech32Codec.CaseInsensitive` | src/bech32.cpp:97-100 | the case of a string that is not of mixed case does not matter |
| `Bech32Codec.ChecksumUnique` | src/bech32.cpp:118-139 | six symbols that verify are the checksum |
| `Bech32Codec.DecodedWasEncoded` | src/bech32.cpp:159-190 | every accepted string is, in lower case, the encoding of what it decodes to |
| `Bech32Codec.DecodeIff` | src/bech32.cpp:147-190 | a string decodes to a prefix and values if and only if it is not of mixed case, has at most 90 characters, and is in lower case their encoding, for a prefix as above |
| `Bech32Codec.ThreeErrorsDetected` | src/bech32.cpp:46-49 | changing up to three data symbols within a window of 1023 makes verification fail |
| `Bech32Codec.ThreeCharactersDetected` | src/bech32.cpp:46-49 | a valid string with up to three data characters changed, to other ones than the separator, is refused |
| `Bech32Codec.ErrorDetected` | src/bech32.cpp:118-125 | changing one data symbol, or several within six consecutive ones, makes verification fail, at any length |
| `Bech32Codec.PolyMod` | src/bech32.cpp:37-94 | is the step function applied to all values |
| `Bech32Codec.ExpandInto` | src/bech32.cpp:103-115 | the expanded prefix |
| `Bech32Codec.MakeChecksum` | src/bech32.cpp:128-139 | the six checksum symbols |
| `Bech32Codec.EncodeString` | src/bech32.cpp:147-156 | the encoding |
| `Bech32Codec.CheckCase` | src/bech32.cpp:160-167 | true if and only if all characters are printable and not of mixed case |
| `Bech32Codec.ReadValues` | src/bech32.cpp:172-181 | the values, if all characters are of the set |
| `Bech32Codec.DecodeString` | src/bech32.cpp:159-190 | decodes or refuses, case by case |
| `Bech32Codec.Verified` | src/bech32.cpp:118-125 | whether the checksum verifies |
| `Base58.DigitsOk` | src/base58.cpp:84-122 | the digits of a number have no leading zero and that value |
| `Base58.DigitsBack` | src/base58.cpp:35-122 | digits without leading zero are those of their number |
| `Base58.EncodeFits` | src/base58.cpp:93-95 | 138 digits for every 100 bytes plus one always suffice |
| `Base58.DecodeFits` | src/base58.cpp:47-49 | 733 bytes for every 1000 digits plus one always suffice |
| `Base58.DecodeEncode` | src/base58.cpp:35-122 | decoding an encoding gives the bytes back, for every byte string |
| `Base58.EncodeDecode` | src/base58.cpp:35-122 | encoding what was decoded gives the string without the spaces around it, for every accepted string |
| `Base58.EncodeDecodeExact` | src/base58.cpp:35-122 | and the string itself if it has no spaces |
| `Base58.CheckRoundTrip` | src/base58.cpp:134-163 | a string decodes to some bytes exactly if it is, up to spaces, their encoding with the checksum |
| `Base58.Accumulate` | src/base58.cpp:57-64 | multiplies the buffer and adds a digit in place; the carry is always used up, so the assert holds |
| `Base58.Significant` | src/base58.cpp:72-80 | the digits after the leading zeros |
| `Base58.ConvertBase` | src/base58.cpp:93-110 | conversion of digits from one base to another |
| `Base58.EncodeBase58` | src/base58.cpp:84-122 | is the encoding |
| `Base58.ReadDigits` | src/base58.cpp:50-56 | the digits up to the first space, or a character that is not in the alphabet |
| `Base58.DecodeFrom` | src/base58.cpp:40-82 | decodes after the leading spaces |
| `Base58.DecodeBase58` | src/base58.cpp:35-82 | is the decoding, and refuses exactly what it refuses |
| `BlockRequest.RequestRoundTrip` | src/blockencodings.h:38-68 | a request of 16-bit indexes is read back as it was sent if and only if they increase; otherwise it is refused |
| `BlockRequest.RequestCanonical` | src/blockencodings.h:42-61 | every index list that is read increases, fits 16 bits, and is accepted in no other bytes |
| `BlockRequest.WriteRequest` | src/blockencodings.h:62-67 | the loop writes the differences |
| `BlockRequest.ReadAll` | src/blockencodings.h:43-53 | the loop reads the differences, none of more than 16 bits |
| `BlockRequest.SumInPlace` | src/blockencodings.h:55-61 | turns differences into indexes in place; refuses what needs more than 16 bits |
| `BlockRequest.ReadList` | src/blockencodings.h:38-61 | reads a whole request |
| `BlockRequest.IdRoundTrip` | src/blockencodings.h:168-187 | a short id survives its six bytes if and only if it has no more than 48 bits |
| `BlockRequest.IdCanonical` | src/blockencodings.h:168-187 | six bytes are what is written for the short id read from them |
| `CompactBlocks.PlaceNext` | src/blockencodings.cpp:61-75 | placing a prefilled transaction takes an empty slot in range |
| `CompactBlocks.CheckPrefilled` | src/blockencodings.cpp:62-73 | the three refusals |
| `CompactBlocks.PlacePrefilled` | src/blockencodings.cpp:58-76 | accepts exactly if no prefilled transaction is null or out of reach, and then each is in its slot and no other slot is filled |
| `CompactBlocks.NextGap` | src/blockencodings.cpp:85-86 | the next empty slot, always in range |
| `CompactBlocks.MapNext` | src/blockencodings.cpp:84-100 | the map has lost an id exactly if two ids were equal |
| `CompactBlocks.MapShortIds` | src/blockencodings.cpp:82-100 | the i-th short id is mapped to the i-th empty slot, in 16 bits |
| `CompactBlocks.MapExact` | src/blockencodings.cpp:82-104 | without a collision the map is exactly that |
| `CompactBlocks.OffsetFitsIff` | src/blockencodings.cpp:83-87 | the 16-bit index_offset is enough if and only if there are not 65536 prefilled transactions together with a short id |
| `CompactBlocks.SlotsFitIff` | src/blockencodings.cpp:82-87 | no slot number is cut off by 16 bits if and only if the block has at most 65536 transactions |
| `CompactBlocks.OfferMatches` | src/blockencodings.cpp:113-127 | taking or dropping a candidate keeps the count equal to the filled short-id slots and the prefilled slots as they are |
| `CompactBlocks.SettleNext` | src/blockencodings.cpp:113-127 | after any number of candidates, a slot without a match is untouched, one without an earlier match holds the first, and it is emptied exactly when a further one turns up (for extra transactions: a different one) |
| `CompactBlocks.HitNext` | src/blockencodings.cpp:113-127 | the same for one slot and a matching candidate |
| `CompactBlocks.MissNext` | src/blockencodings.cpp:113-127 | and for a candidate that does not match |
| `CompactBlocks.TakeCandidate` | src/blockencodings.cpp:113-127 | one candidate |
| `CompactBlocks.MatchPool` | src/blockencodings.cpp:106-134 | the loop keeps all of this, stops only when the count reaches the number of short ids, and own matches only put the block's transactions in place |
| `PartialBlock.FullWhenCounted` | src/blockencodings.cpp:128-132 | the count equals the number of short ids only if nothing is missing |
| `PartialBlock.PartiallyDownloadedBlock.InitData` | src/blockencodings.cpp:49-165 | accepts or refuses by the compact block alone; then every slot holds what the search through pool and extra transactions settles, a search ends early only if nothing is missing, short ids have their slots, mempool_count has grown by the number of filled short-id slots, prefilled slots are untouched, and own matches leave only the block's transactions in place |
| `PartialBlock.MatchBoth` | src/blockencodings.cpp:106-165 | the pool and then the extra transactions |
| `PartialBlock.PartiallyDownloadedBlock.FillBlock` | src/blockencodings.cpp:178-221 | missing transactions go to the empty slots in order; too few or too many are refused, with the exact state left behind |
| `PartialBlock.Rebuilt` | src/blockencodings.cpp:178-200 | with the missing transactions in order the block is rebuilt exactly |
| `PartialBlock.Compacted` | src/blockencodings.cpp:19-29 | describes the block by its first transaction and the short ids of the others |
| `PartialBlock.DescribedOk` | src/blockencodings.cpp:49-104 | such a compact block is accepted if and only if the first transaction is not null, no two short ids are equal and no bucket is crowded |
| `PartialBlock.DescribedPlaced` | src/blockencodings.cpp:58-76 | its empty slots are all but the first |
| `PartialBlock.Missing` | src/net_processing.cpp:3128-3132 | lists exactly the empty slots |
| `PartialBlock.Answer` | src/net_processing.cpp:1943-1952 | the transactions asked for; refuses exactly a request out of range |
| `PartialBlock.Ask` | src/net_processing.cpp:3128-3132 | the request reaches the sender as it was made |
| `PartialBlock.Relay` | src/blockencodings.cpp:19-221 | a block of up to 65535 transactions sent in compact form, with the request and the answer for what is missing, is rebuilt exactly, whatever the receiver had, if every candidate with one of its short ids is its own |

## Left out

- AddrManRuns.RunKeeps: ids are unbounded, so the 32-bit id counter never wraps.
- AddrManager.AddressManager.Unserialize: works on the sequence of fields of the stream and not on its bytes. For streams that list an address twice, or have success times that Check_ would object to, it is only stated that every access is in range.
- AddrManager.AddressManager.SelectTriedCollision_: the pending id it draws is a parameter.
- AddrManCheck.Check_: which of the error codes is returned is not stated, only when it is zero.
- The address manager's Select_ and GetChance: probabilistic choice in floating point; GetAddressInfo_ would be an easy lookup.
- CoinsView.CoinsDB.BatchWrite: the partial batches and the crash markers of the database are one atomic write.
- CheckQueue.RunKeeps: nTodo is unbounded, so its 32-bit wrap is not modelled; thread interruption and the control object around the queue are left out; a check is a fixed verdict.
- Miner.BlockAssembler.AddPackageTxs: any entry may be the best one, so the order by ancestor score is not used and not stated; the minimum fee is a parameter; fee totals are not stated, since the two update paths subtract different figures.
- CreateNewBlock outside package selection and the staking loop: they depend on wallet and validation code.
- Arith.BaseUint.DivAssign: the exception is a result; conversion to double and to hexadecimal strings are left out.
- GetBlockProofEquivalentTime: an easy use of division.
- Merkle.Soundness: for a nonzero root. Within the size limit that is the exact condition, by Merkle.ZeroRootUnsound; above it extraction always fails and reports nothing.
- Merkle.PartialMerkleTree.Serialize: the hashes and the number are passed on as they are; only the bits are packed into bytes.
- Cuckoo.RunKeeps: the depth limit, a logarithm in floating point, is a parameter; concurrent readers that mark elements as erasable are separate steps.
- RollingBloom.Retains: the number of hash functions and the size of the table, computed in floating point, are parameters, with at least one pair of words, which the source does not give when generations have size zero; the false-positive rate is not stated.
- Chain.ActiveChain.SetTip: FindEarliestAtLeast, a binary search over monotone times, is left out.
- Golomb.GolombRiceEncode: for P below 64, since the shift is undefined in C++ from there on.
- BitStreams.BitReader.Read: the two exceptions, for a bad number of bits and for the end of the stream, are one failure.
- GolombFilter.MatchInternal: for values that are not sorted, which takes an encoding from elsewhere whose sums wrap around in 64 bits, a negative answer is not characterized.
- BuildParams and the choice of elements for a basic block filter would only add easy members.
- Base58.DecodeBase58: a C string is its bytes before the terminating zero.
- Bech32Distance.ThreeDetected: the further claim that four errors within 89 characters are detected rests on an exhaustive search and is not stated.
- Bech32Codec.EncodeString: for 5-bit values, as the table lookup demands.
- CompactBlocks.MapShortIds: whether a hash bucket is crowded is a parameter; index_offset is unbounded, which differs only where OffsetFitsIff says that it wraps around.
- PartialBlock.PartiallyDownloadedBlock.InitData: extra transactions are not null; extra_count, which only feeds a log line, and the block signature are left out.
- PartialBlock.PartiallyDownloadedBlock.FillBlock: CheckBlock is a parameter.
- BlockRequest.ReadAll: growing the vector by at most 1000 entries at a time is left out.
- Script, signature and consensus validation, networking, the wallet, RPC and storage other than the above.
