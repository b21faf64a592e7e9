# Node core, modelled and proved in Dafny

This project models the parts of the DeVault node, a Bitcoin-derived full node written in C++, whose
correctness depends on several functions keeping an invariant together, and proves what those parts
are for.  Each part is one or a few modules:

| part | modules |
|---|---|
| stack of unspent-output caches | CoinsModel, CoinsEffects, CoinsCache |
| address manager and its file | AddrManModel, AddrManOps, AddrManCalls, AddrManRuns, AddrManEffects, AddrManNews, AddrManCheck, AddrManDisk, AddrManLoad, AddrManFile, AddrMan |
| script-check queue | CheckQueue, QueueNotices, QueueShutdown |
| partial Merkle trees and Merkle roots | MerkleTree, PartialMerkleTree, ProofTrees, MerkleRoot |
| block assembly | MempoolGraph, ModifiedSet, PackageSelection, PrioritySelection, BlockAssembler, SigOpsOverrun |
| cuckoo cache of signatures | ByteFlags, CuckooModel, CuckooChain, CuckooCache |
| avalanche voting | VoteRecord, PollSlots, Avalanche |
| cash addresses | CashAddrCode, CashAddrField, CashAddr, CashAddrShort, CashAddrKnown |
| rolling Bloom filter | RollingBloom |
| block index and active chain | SkipHeights, BlockChain |
| 256-bit arithmetic and compact targets | Arithmetic, Limbs, ArithUint256, CompactTarget |
| Golomb-coded block filters | GolombFilter |
| compact blocks | CompactBlocks |

Objects that the program updates in place are classes (`CoinsViewCache`, `AddressManager`, `Queue`,
`Tree`, `Assembler`, `ElementCache`, `Recorder`, `Processor`, `RollingFilter`, `Chain`, `Filter`,
`PartialBlock`) with the program's fields, arrays and loops.  Most of their methods are proved equal to
a function on values, and the theorems are about those functions: invariants over all runs, refinement
of a simple form, round trips, conservation, and the exact conditions under which a property fails.
Hash functions, clocks, random draws and verdicts of code outside a component are parameters, so every
theorem holds whatever they return; where a theorem needs a hash to be free of collisions it says so.
`dafny verify dfyconfig.toml` checks all of it.

Where a promise of the source is false of its code, the code is kept, a concrete case shows the
failure, and a theorem says exactly when the promise holds:

- a block template can hold more signature operations than the network allows a block of its size: never
  up to a limit of one megabyte and one byte, and for some pool above every larger limit;
- multiplying a 256-bit number by itself in place gives zero: wrong exactly unless it is a multiple of 2^128;
- matching a received block filter can miss a value it holds, because sums wrap: exactly unless every value
  is met with nothing above it before (`AllPeak`);
- more than ten requests can be in flight for a block by the counter, which then blocks further polls:
  exactly when at some point more requests end than were polled;
- clearing the address manager keeps pending collisions: the selection then looks up the id -1 exactly when
  it draws a pending id that has been given out again;
- `AddCoin` misuse resurrects spent coins: exactly when the caller breaks its side of the contract;
- an interrupted check queue can leave a worker blocked for good: exactly when `CanStrand` holds;
- the "2N-1 bits" remark on proofs: exactly when no match lies below a node without a right child;
- a stream loads into a consistent address manager: exactly under the condition of `LoadsConsistentlyIff`;
- an address with a verifying checksum has an undefined payload: exactly with fewer than eight symbols;
- a lowered package entry has the right fees: exactly when base and modified fees of what was added agree;
- 32-bit tree widths are right: exactly when the sum does not wrap.

## Model

| member | source | states |
|---|---|---|
| CoinsModel.RunRefines | src/coins.cpp:70-270 | over every sequence of reads, evictions, flushes, new layers, additions and spends, at any level of any stack of caches, the top view is that of one plain map under the same operations, nothing throws, and DIRTY and FRESH flags and usage counters stay coherent |
| CoinsModel.ExecRefines | src/coins.cpp:70-270 | the same for one operation, given that an addition respects the overwrite rule |
| CoinsModel.GetKeepsView | src/coins.cpp:70-101 | looking a coin up through all levels, caching on the way, changes no view and answers from the view: a missing and a spent coin are told apart from a present one |
| CoinsModel.AddCoinIff | src/coins.cpp:103-129 | adding succeeds and keeps the invariant if and only if overwriting is allowed, the view has no coin there, or the output is unspendable; then the view is updated at that point only |
| CoinsModel.AddCoinThrowLosesUsage | src/coins.cpp:103-129 | the throwing path has already lowered the usage counter by the entry it keeps, so the counter is right only for an entry without memory |
| CoinsModel.MisusedAddResurrects | src/coins.cpp:103-129 | a coin added over an existing one without leave to overwrite and then spent brings the old one back into view |
| CoinsModel.AddCoinUsage | src/coins.cpp:103-129 | the usage counter stays the total memory of the cached coins |
| CoinsModel.SpendRemoves | src/coins.cpp:146-162 | spending removes exactly that coin from the view, whether the entry was fresh or not, and reports every coin in view as found |
| CoinsModel.BatchWriteCommits | src/coins.cpp:195-255 | writing a coherent child back makes the parent's view the child's, never raises the FRESH error and leaves the parent coherent with what is below |
| CoinsModel.NeverMisapplied | src/coins.cpp:219-227 | no coherent child ever carries a FRESH entry over an unspent coin of the parent |
| CoinsModel.FlushKeepsView | src/coins.cpp:257-262 | flushing succeeds, keeps the view of the top and makes the view below equal to it |
| CoinsModel.UncacheKeepsView | src/coins.cpp:264-270 | dropping a clean entry changes no view |
| CoinsModel.ReplaceKeepsView | src/coins.cpp:195-270 | levels above notice a change at some level only through its view |
| CoinsEffects.GetEffect | src/coins.cpp:70-92 | what a lookup leaves in the cache it starts from: nothing, or a clean copy of the answer that is FRESH exactly if the coin is spent, with its memory counted; repeating it changes nothing at any level |
| CoinsEffects.UncacheEffect | src/coins.cpp:264-270 | a clean entry is gone afterwards and the usage is lower by its memory; any other entry stays and nothing else changes |
| CoinsEffects.UncacheUndoesGet | src/coins.cpp:70-270 | uncaching a coin in view right after looking it up restores the cache and its counter |
| CoinsEffects.AddEffect | src/coins.cpp:103-129 | the entry an addition leaves: the coin, DIRTY, and FRESH exactly if the level below is known to have none |
| CoinsEffects.SpendEffect | src/coins.cpp:146-162 | the entry a spend leaves: none if it was FRESH, otherwise a spent coin that is DIRTY; the usage is lower by the coin spent |
| CoinsEffects.AddThenSpend | src/coins.cpp:103-162 | a coin added and spent before any flush leaves no trace if the level below was known to have none, and otherwise a spent entry to write down |
| CoinsEffects.FlushEffect | src/coins.cpp:195-262 | a flush empties the cache and its counter and settles every entry with the cache below, flag by flag, or writes exactly the DIRTY entries to the database |
| CoinsEffects.FlushFailsIff | src/coins.cpp:219-227 | the FRESH error is raised if and only if a DIRTY and FRESH entry lies over an unspent one |
| CoinsEffects.ShortLivedCoin | src/coins.cpp:103-262 | a coin added, flushed one level down, spent and flushed again is gone from that level too |
| CoinsEffects.MemoryIs | src/memusage.h:71-82 | memory counted for a script is a multiple of sixteen, between sixteen and thirty-one bytes more than the script, and zero for short ones |
| CoinsCache.CoinsViewCache.FetchCoin | src/coins.cpp:70-92 | the recursive lookup through parent pointers is the lookup on the stack of caches, entry by entry |
| CoinsCache.CoinsViewCache.AddCoin | src/coins.cpp:103-129 | the object ends in the modelled state and throws exactly when the model does |
| CoinsCache.CoinsViewCache.SpendCoin | src/coins.cpp:146-162 | the object ends in the modelled state and moves out the coin that was in view |
| CoinsCache.CoinsViewCache.Flush | src/coins.cpp:257-262 | on success the modelled state of all levels; when the parent throws, the cache is not cleared |
| CoinsCache.CoinsViewCache.HaveCoin | src/coins.cpp:174-177 | true exactly for coins in view |
| CoinsCache.AddCoins | src/coins.cpp:131-144 | all spendable outputs of a transaction enter the view and nothing else changes, with the overwrite check or, for non-coinbase transactions whose outputs are new, without |
| CoinsCache.HaveInputs | src/coins.cpp:292-304 | true exactly if every input of a non-coinbase transaction is in view |
| AddrManRuns.RunsAreConsistent | src/addrman.cpp:170-720 | from an empty manager, after every sequence of calls with positive times: all tables, indices, reference counts and counters are consistent, a tried slot once filled stays filled, and the collision selected always leads to a known entry |
| AddrManRuns.ApplyKeeps | src/addrman.cpp:218-720 | every public call keeps consistency, keeps pending collisions answerable and never empties a tried slot |
| AddrManRuns.RunEvolves | src/addrman.cpp:170-720 | along a run an id is never reused or bound to another endpoint, and a tried slot once filled stays filled |
| AddrManRuns.Resolve | src/addrman.cpp:628-691 | settling any set of pending collisions keeps consistency and adds no pending collision; who gets and who loses a slot is stated by ResolveEffect, ResolveIsFair and ResolveSettles |
| AddrManRuns.SelectFinds | src/addrman.cpp:693-720 | the selection looks up exactly the entry that holds the tried slot wanted by the pending newcomer, which is always a tried entry, and forgets exactly a collision whose entry is gone |
| AddrManRuns.QuietCalls | src/addrman.cpp:243-288 | only Good makes collisions pending |
| AddrManRuns.RivalPends | src/addrman.cpp:218-372 | a run of four calls from an empty manager that makes the first id pending |
| AddrManRuns.ClearStrandsCollisions | src/addrman.h:508-530 | after clearing with any ids pending and adding any addresses, the selection looks up the id -1 if and only if it draws a pending id that is known again |
| AddrManRuns.ClearStrandsFirst | src/addrman.h:508-530 | it happens: with id 0 pending, the first routable address added after clearing makes the selection look up the id -1 |
| AddrManRuns.SelectMisses | src/addrman.cpp:693-720 | in every consistent manager the selection looks up the id -1 if and only if it draws a pending, known id whose tried slot is empty |
| AddrManRuns.ClearedPending | src/addrman.h:508-530 | what the selection relies on holds after clearing if and only if nothing is pending |
| AddrManEffects.ResolveEffect | src/addrman.cpp:634-689 | one pending newcomer: dropped if unknown or invalid or if the entry in its slot succeeded in the last four hours; given the slot if that is free or its holder was tried in the last four hours, more than a minute ago, without success; left waiting otherwise |
| AddrManEffects.ResolveIsFair | src/addrman.cpp:628-691 | over a whole call, whatever is pending: a tried entry loses its slot only to a newcomer for that slot and only if it failed its test |
| AddrManEffects.RecentStays | src/addrman.cpp:658-661 | no tried entry that succeeded in the four hours before the start loses its slot |
| AddrManEffects.ResolveSettles | src/addrman.cpp:628-691 | only newcomers that had to wait to begin with are still pending |
| AddrManEffects.GoodRecords | src/addrman.cpp:218-241 | reporting an endpoint good changes the record of that entry only, to a success now without failed attempts |
| AddrManEffects.GoodCollides | src/addrman.cpp:262-288 | a newcomer joins the pending collisions if and only if evictions are tested first, another entry holds its slot and fewer than ten are pending |
| AddrManEffects.AttemptEffect | src/addrman.cpp:374-397 | an attempt is noted in that record only, and counted if and only if it should be and none was since the last success with anyone |
| AddrManEffects.AttemptsCountOnce | src/addrman.cpp:374-397 | however many attempts fail after a success, at most one counts |
| AddrManEffects.ConnectedEffect | src/addrman.cpp:581-602 | a connection moves the time seen forward, at most every twenty minutes |
| AddrManEffects.SetServicesEffect | src/addrman.cpp:604-622 | only the services of that entry change |
| AddrManNews.AddUnknownEffect | src/addrman.cpp:290-372 | an unknown address gets the next id and the slot it points to, if that is free or its holder may be displaced; otherwise nothing is kept; all other entries and slots stay |
| AddrManNews.AddKnownEffect | src/addrman.cpp:290-372 | a known address keeps its id, its record is refreshed, and it gains the slot pointed to if and only if it wants another and may have that one; no other record changes |
| AddrManNews.PlaceEffect | src/addrman.cpp:344-370 | who is displaced from an occupied new slot: an entry that is terrible, or one with further slots if the newcomer has none |
| AddrManNews.RefreshedIs | src/addrman.cpp:302-316 | services and time left by a repeated announcement |
| AddrManNews.WantsIff | src/addrman.cpp:318-338 | another slot is looked for only for newer announcements of untried entries with fewer than eight, with a chance of one in two to the number held |
| AddrManNews.TerribleIff | src/addrman.cpp:49-77 | the conditions and time spans under which an address is not worth keeping |
| AddrManNews.TriedSpread | src/addrman.cpp:14-47 | an address range reaches eight of the 256 tried buckets, and one place in each |
| AddrManNews.NewSpread | src/addrman.cpp:26-47 | the sources of a range reach 64 of the 1024 new buckets, and all addresses of a range go to the same one |
| AddrManCalls.GoodEffect | src/addrman.cpp:218-288 | a known endpoint reported good ends up in its tried slot, unless evictions are to be tested first and another holds the slot, which then keeps it; times are recorded either way |
| AddrManCalls.GoodKeeps | src/addrman.cpp:218-288 | Good keeps the invariant |
| AddrManCalls.MakeTriedKeeps | src/addrman.cpp:170-216 | moving an entry to tried keeps the invariant, fills exactly its slot and leaves it tried |
| AddrManCalls.MakeTriedDisplaces | src/addrman.cpp:187-208 | the entry displaced from tried is back in the new table, at its home slot, with exactly one reference |
| AddrManCalls.AddKeeps | src/addrman.cpp:290-372 | adding keeps the invariant and the tried table, and reports new exactly for routable addresses not known before |
| AddrManOps.CreateKeeps | src/addrman.cpp:110-121 | a created entry is indexed and listed, and is the only one not yet referenced |
| AddrManOps.SwapRandomKeeps | src/addrman.cpp:123-141 | swapping two places of vRandom changes only recorded places |
| AddrManOps.DeleteKeeps | src/addrman.cpp:143-154 | deleting an unreferenced entry removes exactly it from all indices |
| AddrManOps.ClearNewKeeps | src/addrman.cpp:156-168 | clearing a new slot empties it, forgets its entry exactly at the last reference and leaves all others alone |
| AddrManOps.WithdrawKeeps | src/addrman.cpp:171-182 | the loop over an entry's own buckets finds all its references |
| AddrManOps.EvictKeeps | src/addrman.cpp:187-208 | evicting from a tried slot keeps the invariant and every bystander |
| AddrManCheck.Check | src/addrman.cpp:459-557 | the manager's own consistency check, with its loops over both tables, returns zero if and only if all its conditions hold |
| AddrManCheck.InvariantIsCheck | src/addrman.cpp:459-557 | the invariant proved of all runs is exactly what that check accepts, together with what it takes for granted |
| AddrManDisk.RoundTrip | src/addrman.h:340-506 | loading what was saved gives the same manager up to the numbering of its entries and fields kept in memory only, consistent again |
| AddrManDisk.ListsAreComplete | src/addrman.h:340-387 | exactly nNew and nTried entries are written |
| AddrManDisk.StreamHeader | src/addrman.h:308-387 | the header of the format, as many entries as it says, and 1024 buckets of at most 64 |
| AddrManDisk.ManagersFit | src/addrman.h:412-420 | no consistent manager exceeds the size limits that loading enforces |
| AddrManLoad.LoadsConsistentlyIff | src/addrman.h:389-506 | whatever the version, key, counts and buckets of a stream that loads: the result is consistent if and only if neither count is negative and every entry kept has a possible time of success and shares its address with no other entry read |
| AddrManLoad.DistinctLoadsConsistently | src/addrman.h:389-506 | distinct addresses and possible times of success are enough, for every version and every content of the buckets |
| AddrManLoad.NegativeCount | src/addrman.h:422-464 | a negative nNew never loads consistently |
| AddrManLoad.DuplicateAddress | src/addrman.h:422-464 | a stream of one new and one tried entry loads consistently if and only if their addresses differ and their times of success are possible |
| AddrManLoad.PruneIs | src/addrman.h:486-497 | the final loop removes exactly the entries neither tried nor referenced, with their addresses |
| AddrManFile.Save | src/addrman.h:340-387 | the writing loops produce the stream the round trip is about |
| AddrManFile.Load | src/addrman.h:389-506 | the reading loops reach the modelled manager, or fail for the modelled reason, on every stream |
| AddrMan.AddressManager.Good | src/addrman.cpp:218-288 | the call on bucket arrays, maps and vector is the modelled step |
| AddrMan.AddressManager.Add | src/addrman.cpp:290-372 | the call on bucket arrays, maps and vector is the modelled step, with its verdict |
| AddrMan.AddressManager.MakeTried | src/addrman.cpp:170-216 | the loops over all buckets and the eviction are the modelled step |
| AddrMan.AddressManager.ResolveCollisions | src/addrman.cpp:628-691 | the loop over pending collisions is the modelled step, whose effect on every slot ResolveEffect and ResolveIsFair state |
| AddrMan.AddressManager.SelectTriedCollision | src/addrman.cpp:693-720 | the call is the modelled selection |
| AddrMan.AddressManager.GetAddr | src/addrman.cpp:560-579 | a sample without repetition and without terrible addresses, at most the fixed share, and complete when it is smaller than that share |
| CheckQueue.WaitVerdict | src/checkqueue.h:66-175 | under every interleaving, Wait returns the conjunction of all checks added since it last returned: none is lost, skipped or counted for another round |
| CheckQueue.WaitTerminates | src/checkqueue.h:66-175 | in every run, however threads enter, wake for no reason, are added to or interrupted in between: productive steps number at most the work there was and what was supplied meanwhile, and when none is left the master has returned |
| CheckQueue.NothingSupplied | src/checkqueue.h:66-175 | without additions and Interrupt the bound is the work there was |
| CheckQueue.NoDeadlock | src/checkqueue.h:66-135 | while the master waits, some thread can take a productive step: no wake-up is lost |
| CheckQueue.Run | src/checkqueue.h:66-175 | every step of every thread keeps the invariant relating nTodo, nTotal, nIdle, the queue, the batches in hand and the pending wake-ups |
| CheckQueue.HistoryIsAdded | src/checkqueue.h:163-175 | what is recorded as added in a round is what Add was given |
| CheckQueue.Queue.Take | src/checkqueue.h:105-126 | a batch of the computed size comes off the back of the queue, and the queue keeps the rest |
| CheckQueue.Queue.Begin | src/checkqueue.h:74-89 | settling a batch lowers nTodo, joins the verdict and notifies the master exactly when nothing is left |
| CheckQueue.ExecuteBatch | src/checkqueue.h:127-133 | skipping after a failure still yields the conjunction |
| QueueNotices.WorkIsNoticed | src/checkqueue.h:66-175 | in every run: while something is queued and a worker is in the loop, some worker is at work or has been notified |
| QueueNotices.AddEffect | src/checkqueue.h:163-175 | one check notifies one waiting worker if there is one, several notify all of them, and the master never |
| QueueNotices.InterruptEffect | src/checkqueue.h:148-155 | every thread that waits is notified |
| QueueNotices.BatchIs | src/checkqueue.h:105-116 | the largest batch within the limit that leaves as much for every other thread, counting idle ones twice, but at least one |
| QueueNotices.DecideTakes | src/checkqueue.h:117-126 | the newest checks are taken, newest first, and not run if a failure is on record |
| QueueShutdown.InterruptStrandsIff | src/checkqueue.h:66-155 | after Interrupt, some run without further additions leaves a worker blocked for ever if and only if checks are outstanding, there is a worker, and there is a second worker, something is still queued or the master holds a batch |
| QueueShutdown.SafeRuns | src/checkqueue.h:66-155 | from a state that is safe, no run without additions ever strands a worker; this covers interrupting with nothing outstanding |
| QueueShutdown.BlockedCanStrand | src/checkqueue.h:91-104 | a blocked worker and outstanding checks are enough |
| QueueShutdown.Strand | src/checkqueue.h:91-104 | with the queue empty, any thread still at work can finish last and leave any chosen other worker blocked |
| QueueShutdown.InterruptStrands | src/checkqueue.h:148-175 | from a new queue: one check is added, Interrupt follows, and a worker can be stranded |
| PartialMerkleTree.OnlyGenuineMatches | src/merkleblock.cpp:108-227 | whatever proof is received, if it leads to the Merkle root of a block with as many transactions, the ids it yields are that block's, at increasing positions |
| PartialMerkleTree.RoundTrip | src/merkleblock.cpp:84-227 | building, packing into bytes, unpacking and extracting gives the Merkle root and exactly the matched ids and positions |
| PartialMerkleTree.ProofSize | src/merkleblock.h:32-51 | at most one hash per transaction, and at most one more than matches times height |
| PartialMerkleTree.UnpackPads | src/merkleblock.h:101-121 | the bits read are those written and at most seven zeros |
| PartialMerkleTree.Tree.Of | src/merkleblock.cpp:157-172 | the constructor's traversal builds the modelled proof |
| PartialMerkleTree.Tree.Matched | src/merkleblock.cpp:176-227 | the traversal with its shared cursors computes the modelled extraction, every rejection included |
| MerkleTree.ExtractSound | src/merkleblock.cpp:108-155 | a subtree that hashes to the block's node carries only ids of the block below that node |
| MerkleTree.BuildRecovers | src/merkleblock.cpp:84-155 | extracting what was built for a subtree recovers its hash and matches and uses exactly its bits and hashes |
| MerkleTree.BuildSize | src/merkleblock.h:32-51 | bounds on hashes and bits of every subtree |
| MerkleTree.BitsBound | src/merkleblock.h:47-51 | at most 2N-1 flag bits for N hashes if and only if no match lies below a node without a right child |
| MerkleTree.OddTreeOverruns | src/merkleblock.h:47-51 | three transactions with the last matched need four bits for two hashes |
| ProofTrees.VerifiesIff | src/merkleblock.cpp:108-227 | exactly the proofs that verify: those that flatten a tree over the shape of the block in which no siblings hash alike, with nothing left over but the padding of the last byte; the answer is its root and its flagged leaves |
| ProofTrees.ReadsTree | src/merkleblock.cpp:108-155 | the traversal reads back any flattened tree, and marks it bad exactly if two siblings hash alike |
| ProofTrees.TreeRead | src/merkleblock.cpp:108-155 | whatever the traversal reads without fault is a flattened tree |
| ProofTrees.BuildIsPruned | src/merkleblock.cpp:84-106 | the proof built is the full tree, stopped exactly at leaves and where nothing below matches |
| MerkleTree.WidthIn32Bits | src/merkleblock.h:70-72 | the 32-bit width is right if and only if its sum does not wrap, and always up to 2^31 transactions |
| MerkleTree.HeightIsLeast | src/merkleblock.cpp:164-168 | the height is the least whose tree holds all transactions |
| MerkleRoot.ComputeMerkleRoot | src/consensus/merkle.cpp:45-62 | the in-place level-by-level loop computes the recursive root, and the flag is set if and only if two siblings anywhere hash alike |
| MerkleRoot.UnmutatedRootIsUnique | src/consensus/merkle.cpp:9-62 | without hash collisions, two lists that are both unmutated have the same root only if they are equal |
| MerkleRoot.DuplicateKeepsRoot | src/consensus/merkle.cpp:9-43 | repeating the last of three ids keeps the root, and is flagged |
| BlockAssembler.Assembler.CreateNewBlock | src/miner.cpp:130-261 | the template holds each transaction once, with its ancestors, ordered by id, counters in step and within the limits; the logs account for every priority turn and fee-rate pick, every refusal in either phase and why each phase ended; signature operations fit the block's own size for every limit up to a megabyte and a byte, and beyond it if no package picked had failed before |
| BlockAssembler.Assembler.AddPackageTxs | src/miner.cpp:459-603 | at every pick all that was left and not refused paid a lower fee per byte, or the same under a later id; each pick paid the minimum and fitted; every refusal really did not fit; nothing is left for any reason but the one given |
| BlockAssembler.Assembler.SelectOne | src/miner.cpp:493-602 | one round of the loop, as a relation on its tables; unless it ends, the block grows or less is left to consider |
| BlockAssembler.Assembler.ConsiderPackage | src/miner.cpp:541-602 | a package is added with exactly the ancestors missing, refused, or ends the selection, exactly under the source's conditions |
| BlockAssembler.Assembler.ChooseNext | src/miner.cpp:503-530 | what is chosen is not in the block, and nothing in either table pays more per byte, or the same with an earlier id |
| BlockAssembler.Assembler.AddPriorityTxs | src/miner.cpp:605-700 | each transaction taken was ready and of highest priority among those ready, what was turned down did not fit, and taking ended for the reason given |
| BlockAssembler.Assembler.Requeue | src/miner.cpp:684-698 | waiting children of the transaction added, and only they, go back in the queue with their priorities |
| BlockAssembler.Assembler.SmallBlocksFit | src/miner.cpp:287-300 | under the loop invariant alone, a limit up to a megabyte and a byte keeps the signature operations within the allowance of the block's own size |
| BlockAssembler.Assembler.TestPackageTransactions | src/miner.cpp:307-327 | accepted if and only if all are final and all together stay below the limit |
| BlockAssembler.Assembler.TestForBlock | src/miner.cpp:329-370 | the three verdicts, and when the near-full counter moves, exactly |
| BlockAssembler.SortForBlock | src/miner.cpp:440-450 | a permutation of the package in order of ancestor count, ties by id |
| SigOpsOverrun.Overrun | src/miner.cpp:287-300 | for every limit above a megabyte and a byte, assembling from one concrete pool of three transactions ends with more signature operations than the network allows a block of that size, even without those reserved for the coinbase |
| SigOpsOverrun.RunsTakeAll | src/miner.cpp:459-603 | every run of the selection on that pool takes all three transactions, the last with an overestimated size after it failed once |
| MempoolGraph.SortedPackageFits | src/miner.cpp:440-450 | appending a package sorted by ancestor count to a closed block leaves every parent before its child |
| MempoolGraph.AncestorsFirst | src/miner.h:97-108 | in a list with parents first, all ancestors of an entry come before it |
| ModifiedSet.UpdatePackagesForAdded | src/miner.cpp:395-423 | the table afterwards has exactly the descendants' entries lowered by what was added, created from the pool where there was none |
| ModifiedSet.LoweredCovers | src/miner.cpp:395-423 | lowering never underestimates what a package still needs |
| ModifiedSet.LoweredExact | src/miner.cpp:395-423 | for entries that never failed, lowered sizes and signature operations are exactly those missing |
| ModifiedSet.LoweredKeepsAll | src/miner.cpp:395-423 | everything that never failed and has an ancestor in the block keeps an entry |
| ModifiedSet.LoweredFees | src/miner.h:128-138 | an entry with the right fees keeps them right if and only if base and modified fees of the ancestors just added agree in total |
| PackageSelection.ForemostLeads | src/miner.cpp:503-530 | everything not in the block and not refused pays, for what it truly still needs, a lower real rate than the best of the two tables, or the same under a later id |
| PackageSelection.FiguresCover | src/miner.cpp:532-546 | the figures tested cover what is missing, and exactly so if the package never failed |
| PackageSelection.LogRound | src/miner.cpp:493-602 | one round extends the account of picks and refusals, or ends it |
| PackageSelection.NothingRemains | src/miner.cpp:493-501 | when both tables are empty, what is outside the block was refused |
| PackageSelection.BetterIff | src/miner.h:82-95 | comparing the products is comparing fee per byte as exact fractions, with ties by id |
| PackageSelection.BetterTotal | src/miner.h:82-95 | of two different packages exactly one comes first; BetterIff says which |
| PackageSelection.BetterTransitive | src/miner.h:82-95 | the order by fee rate with ties by id is transitive; BetterIff says what it orders by |
| PackageSelection.MaxSigOpsGrows | src/consensus/consensus.h:48-51 | the allowance never shrinks with size |
| PackageSelection.MaxSigOpsIs | src/consensus/consensus.h:48-51 | twenty thousand for every megabyte begun |
| PrioritySelection.QuotaIs | src/miner.cpp:612-613 | the share kept for priority is the percentage of the limit, rounded down |
| PrioritySelection.PopHighest | src/miner.cpp:639-657 | the entry popped has the highest priority of all ready transactions |
| PrioritySelection.QueueRanOut | src/miner.cpp:639-700 | an empty queue means everything ready was taken or turned down |
| CuckooModel.EveryRunIsSound | src/cuckoocache.h:216-466 | after every sequence of inserts and lookups: found if and only if in the table, there at most once and in one of its own eight slots, and the kept elements of an epoch stay bounded |
| CuckooModel.InsertLosesAtMostOne | src/cuckoocache.h:377-427 | an insert conserves the table plus the new element but for at most one, and a kept element is lost only if it is the one dropped; CuckooChain says when and which |
| CuckooModel.InsertThenContains | src/cuckoocache.h:377-466 | what is inserted is found next unless it is the one lost, and erasing does not hide it at once; RoomIsUsed says when it is not lost |
| CuckooModel.EpochCheckKeeps | src/cuckoocache.h:272-304 | ageing makes garbage of kept elements of the epoch before and of nothing else, and restores the bound |
| CuckooModel.ContainsIffInTable | src/cuckoocache.h:455-466 | probing eight slots decides membership in the whole table |
| CuckooModel.EraseKeeps | src/cuckoocache.h:455-466 | a lookup with erase unmarks exactly that element and moves nothing |
| CuckooModel.Loc | src/cuckoocache.h:216-242 | a slot is the hash scaled to the table: its share of 2^32, rounded down |
| CuckooChain.InsertChains | src/cuckoocache.h:377-427 | the whole of an insertion: the new element and what it displaces move on one by one, each because all its eight slots were kept and to the slot after the one it was taken from, until one finds its first open slot or the moves are used up |
| CuckooChain.RoomIsUsed | src/cuckoocache.h:377-427 | unless all eight slots of the element are kept, it is in the cache afterwards, kept and found, and nothing is dropped |
| CuckooChain.DroppedOnlyIfFull | src/cuckoocache.h:400-427 | something is dropped only after as many moves as allowed, and every element on the way, the new one first, had all eight slots kept |
| CuckooChain.FirstInsertIsFound | src/cuckoocache.h:325-466 | the first element inserted into a new cache is found |
| CuckooChain.InsertHeld | src/cuckoocache.h:383-390 | an element held already stays in place and is kept again |
| CuckooChain.InsertCarries | src/cuckoocache.h:391-427 | a new element belongs to the current epoch, and displaced ones keep theirs |
| CuckooChain.EpochCheckAges | src/cuckoocache.h:272-304 | exactly when elements age, what ageing does to every flag, and how long until the next look |
| CuckooChain.SetupIsEmpty | src/cuckoocache.h:325-340 | a new cache holds nothing, and an epoch is forty-five percent of its size |
| CuckooCache.ElementCache.Insert | src/cuckoocache.h:377-427 | the loop with swaps on table and flag arrays is the modelled insertion, whose outcome InsertChains, RoomIsUsed and DroppedOnlyIfFull state |
| CuckooCache.ElementCache.EpochCheck | src/cuckoocache.h:272-304 | the loops over flags are the modelled ageing |
| CuckooCache.ElementCache.Contains | src/cuckoocache.h:455-466 | the probe and the flag update are the modelled lookup |
| CuckooCache.BitPackedFlags.Set | src/cuckoocache.h:88-90 | setting one packed flag changes that flag only |
| CuckooCache.BitPackedFlags.Unset | src/cuckoocache.h:99-101 | clearing one packed flag changes that flag only |
| VoteRecord.FinalityIsEarned | src/avalanche.cpp:43-120 | after every sequence of votes: a final record has counted at least 134 votes, and the last 128 conclusive rounds all agree with its state |
| VoteRecord.RegisterTracks | src/avalanche.cpp:43-89 | shift registers, confidence and ring do to a record what the vote does to its history, and a change is reported exactly on a flip or on reaching finality |
| VoteRecord.RoundIsOutcome | src/avalanche.cpp:59-78 | the bitwise verdict is that of the last eight votes: conclusive only if seven agree |
| VoteRecord.QuorumIsDistinct | src/avalanche.cpp:91-120 | any eight votes counted in a row come from eight different nodes |
| VoteRecord.RingSearch | src/avalanche.cpp:91-120 | searching the ring finds a node if and only if it is among the last seven counted |
| VoteRecord.CountBitsOfByte | src/avalanche.cpp:26-41 | the bit trick counts the ones of a byte |
| VoteRecord.FinalIsEarned | src/avalanche.h:56-130 | any record that tracks a history earned its finality in that history |
| VoteRecord.FinalityIff | src/avalanche.cpp:43-120 | after every sequence of votes: final if and only if the last 128 conclusive rounds or more confirmed the state they found, counted on fifteen bits; the state is that of the last conclusive round |
| VoteRecord.AgreedIff | src/avalanche.cpp:80-89 | that count is at least n if and only if the last n rounds and what they found agree |
| VoteRecord.OutcomeIff | src/avalanche.cpp:59-78 | a round passes if and only if all of the last eight votes but at most one are yes, and fails likewise for no |
| VoteRecord.VoteMeaning | src/avalanche.cpp:52-60 | error zero is yes, up to 2^31 no, beyond it neither |
| VoteRecord.VoteAnswersRequest | src/avalanche.cpp:43-51 | every vote, counted or not, ends one request in flight |
| VoteRecord.KnownHashes | src/avalanche.cpp:97-103 | the node hash of two node ids |
| Avalanche.Processor.RegisterVotes | src/avalanche.cpp:187-299 | accepted if and only if it answers a query sent to that node item by item; then each block under vote gets exactly its one vote, blocks not voted on are untouched, and no block is updated twice |
| Avalanche.Processor.VoteOn | src/avalanche.cpp:259-296 | an update is reported exactly on a change, and a record that became final is removed with a history that earned it |
| Avalanche.Processor.AddBlockToReconcile | src/avalanche.cpp:149-165 | a vote starts unless there is one |
| Avalanche.Recorder.Register | src/avalanche.cpp:43-89 | the object's fields and ring follow the modelled vote |
| Avalanche.Recorder.RegisterPoll | src/avalanche.cpp:122-131 | granted if and only if fewer than ten are in flight, and then one more is |
| PollSlots.BoundedIff | src/avalanche.cpp:122-131 | over every run of polls and ended requests from a new record, with fewer than 246 ending at once: never more than ten in flight if and only if at no point more have ended than were polled |
| PollSlots.SolventCounts | src/avalanche.h:106-121 | while that holds the counter is the exact number of requests in flight |
| PollSlots.StuckBeyond | src/avalanche.cpp:122-131 | above the limit no poll is granted until enough requests have ended |
| PollSlots.LateVoteBlocksPolls | src/avalanche.cpp:43-46 | a vote counted by a new record with nothing in flight leaves 255, and no poll is granted before 245 more requests have ended |
| CashAddrCode.BurstDetected | src/cashaddr.cpp:42-147 | two symbol strings of any length that differ only within eight places have different checksums |
| CashAddrCode.FoldLinear | src/cashaddr.cpp:101-138 | the checksum is linear |
| CashAddrCode.DifferenceLasts | src/cashaddr.cpp:101-138 | a difference never dies out over equal symbols |
| CashAddrCode.PolyMod | src/cashaddr.cpp:42-147 | the loop computes that checksum, which ChecksumIsRemainder identifies |
| CashAddrField.ChecksumIsRemainder | src/cashaddr.cpp:42-147 | for every string of symbols, the checksum is the remainder, over the field of 32 elements, of the symbols with a one in front on division by x^8 + {19}x^7 + {3}x^6 + {25}x^5 + {11}x^4 + {25}x^3 + {3}x^2 + {19}x + {1} |
| CashAddrField.RemainderUnique | src/cashaddr.cpp:42-100 | there is only one such remainder, since the field has no divisors of zero |
| CashAddrField.StepReduces | src/cashaddr.cpp:101-138 | one step multiplies by x, adds the symbol and takes away the multiple of the generator called for by the leading coefficient: the five constants are the generator times the powers of the base element |
| CashAddrField.MulAssociates | src/cashaddr.cpp:58-70 | multiplication modulo a^5 + a^3 + 1 is associative |
| CashAddrField.MulDistributes | src/cashaddr.cpp:58-70 | it distributes over exclusive or |
| CashAddrField.MulCancels | src/cashaddr.cpp:58-70 | it has no divisors of zero |
| CashAddrField.MulExample | src/cashaddr.cpp:58-70 | the worked examples of the comment |
| CashAddr.ChecksumVerifies | src/cashaddr.cpp:176-196 | appending the created checksum verifies |
| CashAddr.ChecksumUnique | src/cashaddr.cpp:176-196 | no other eight symbols verify |
| CashAddr.DecodeInvertsEncode | src/cashaddr.cpp:205-297 | decoding inverts encoding for every prefix of lower-case letters |
| CashAddr.DecodeIsCanonical | src/cashaddr.cpp:221-297 | what is accepted is, up to case, exactly the encoding of what it decodes to |
| CashAddr.Encode | src/cashaddr.cpp:205-216 | the loop writes the modelled string, whose letters Alphabet fixes and whose checksum ChecksumIsRemainder |
| CashAddr.Decode | src/cashaddr.cpp:221-297 | the three loops with their early exits compute the modelled result on every string; DecodeCases says which that is |
| CashAddrShort.DecodeCases | src/cashaddr.cpp:221-297 | rejected if and only if the string does not verify, undefined if and only if it verifies with fewer than eight characters after the colon, and otherwise exactly the payload before the checksum |
| CashAddrShort.ShortIsUndefined | src/cashaddr.cpp:296-296 | a string of seven symbols that verifies, so eight is tight |
| CashAddrKnown.Alphabet | src/cashaddr.cpp:15-30 | symbol n is written as letter n of the published alphabet and read back from it |
| CashAddrKnown.PrefixSymbol | src/cashaddr.cpp:160-169 | of a prefix letter the checksum sees the low five bits |
| CashAddrKnown.PublishedAddress | src/test/cashaddr_tests.cpp:42-42 | encoding the empty payload under "prefix" gives the published address |
| RollingBloom.RollingFilter.Contains | src/bloom.cpp:302-314 | true if and only if all cells of the key are set; so for every key of the current generation and the two before it, and only if each cell was written for some key of those generations |
| RollingBloom.RollingFilter.RecentIsFound | src/bloom.h:133-134 | a key among the last two generations and the current one has all cells set in every reachable filter |
| RollingBloom.RollingFilter.SetCellIsRecent | src/bloom.cpp:265-314 | in every reachable filter a set cell belongs to some key inserted in the last three generations |
| RollingBloom.RollingFilter.Insert | src/bloom.cpp:265-295 | inserting keeps every cell equal to the code of the generation that last set it, written for a key inserted in that generation and for no other reason, and wipes exactly the generation that expires |
| RollingBloom.WipeGeneration | src/bloom.cpp:271-287 | the masking of two words zeroes exactly the cells of one generation |
| RollingBloom.RecentGeneration | src/bloom.h:133-134 | a key within reach is at most two generations old |
| BlockChain.BlockIndex.GetAncestor | src/chain.cpp:96-120 | the walk over skip pointers ends at the ancestor a walk over parents reaches, or null out of range, in a number of steps that is a function of the two heights |
| SkipHeights.StepsAreFew | src/chain.cpp:79-120 | from any height below 2^b to any ancestor that walk takes at most b(b+3)/2 steps |
| SkipHeights.InvertLowestOneIs | src/chain.cpp:79-81 | exactly the lowest one bit goes |
| SkipHeights.SkipHeightIs | src/chain.cpp:83-94 | even heights lose their lowest one bit, odd ones keep the last and lose the next two |
| BlockChain.BlockIndex.BuildSkip | src/chain.cpp:127-131 | the index stays right with the new pointer |
| BlockChain.Chain.SetTip | src/chain.cpp:11-22 | entry i of the chain becomes the tip's ancestor at height i, though the loop stops at the first entry that agrees |
| BlockChain.Chain.GetLocator | src/chain.cpp:24-53 | the entries are ancestors of the start at the stepped heights, on and off the active chain |
| BlockChain.LocatorDescends | src/chain.cpp:24-53 | strictly descending to the genesis, with at most eleven entries more than the bits of the height |
| BlockChain.LocatorGaps | src/chain.cpp:24-53 | the first twelve blocks follow one another, then every gap is twice the one before, except that the last ends at the genesis |
| BlockChain.Chain.FindFork | src/chain.cpp:55-66 | the highest ancestor of the block that is on the chain |
| BlockChain.LastCommonAncestor | src/chain.cpp:171-187 | the highest common ancestor |
| BlockChain.AreOnTheSameFork | src/chain.cpp:189-194 | true if and only if one is an ancestor of the other |
| ArithUint256.Divide | src/arith_uint256.cpp:76-104 | shift-and-subtract division is integer division, and fails exactly for zero |
| ArithUint256.ShiftLeft | src/arith_uint256.cpp:20-33 | multiplication by a power of two modulo 2^256, for every shift |
| ArithUint256.ShiftRight | src/arith_uint256.cpp:35-48 | division by a power of two, for every shift |
| Limbs.Add | src/arith_uint256.h:112-120 | addition modulo 2^256 |
| Limbs.Subtract | src/arith_uint256.h:122-125 | subtraction modulo 2^256 |
| Limbs.Multiply | src/arith_uint256.cpp:61-74 | multiplication modulo 2^256 by another number, which is unchanged; by itself in place the result is zero, so it is the product if and only if the operands are different objects or the number is a multiple of 2^128 |
| Limbs.SquareLost | src/arith_uint256.cpp:61-74 | a square is zero modulo 2^256 if and only if its root is a multiple of 2^128 |
| Limbs.SquareOfOne | src/arith_uint256.cpp:61-74 | one squared in place is zero |
| Limbs.MultiplySmall | src/arith_uint256.cpp:50-59 | multiplication by a word modulo 2^256 |
| Limbs.CompareTo | src/arith_uint256.cpp:106-113 | the order of the values |
| Limbs.Bits | src/arith_uint256.cpp:151-163 | the position of the highest one bit |
| CompactTarget.CompactStable | src/arith_uint256.cpp:183-223 | for every 256-bit number, writing it compactly, reading it and writing it again gives the same compact form, without sign or overflow |
| CompactTarget.SignedRoundTrip | src/arith_uint256.cpp:183-223 | for every 256-bit number and either sign: it is read back with that sign, zero with none, and with the magnitude written without sign, and writing what was read gives the same form |
| CompactTarget.SignAside | src/arith_uint256.cpp:183-200 | for every form, setting the sign bit makes it negative exactly if its mantissa is not read as zero, and changes nothing else that is read |
| CompactTarget.ReadsAs | src/arith_uint256.cpp:183-194 | a form reads as its mantissa times 256 to the size less three, rounded down |
| CompactTarget.RoundsDown | src/arith_uint256.cpp:183-223 | writing and reading loses less than one unit of the last place kept |
| CompactTarget.KnownForms | src/test/arith_uint256_tests.cpp:474-636 | forms of the original tests, a negative and an overflowing one among them |
| CompactTarget.OverflowIffTooLarge | src/arith_uint256.cpp:196-198 | the overflow flag is set if and only if the number does not fit in 256 bits |
| CompactTarget.ShortComesBack | src/arith_uint256.cpp:202-223 | a value that needs no rounding is read back unchanged |
| CompactTarget.LongComesBack | src/arith_uint256.cpp:202-223 | a longer value is read back as its leading bytes |
| CompactTarget.SetCompact | src/arith_uint256.cpp:183-200 | value and both flags, for every 32-bit input, as ReadsAs, SignAside and OverflowIffTooLarge fix them |
| CompactTarget.GetCompact | src/arith_uint256.cpp:202-223 | the compact form, for every number |
| CompactTarget.GetBlockProof | src/chain.cpp:133-146 | the complement trick computes 2^256 divided by target plus one, and zero for targets that are negative, zero or too large |
| GolombFilter.CodeRoundTrip | src/blockfilter.cpp:19-47 | decoding a coded number gives it back and stops right after it, wherever it stands |
| GolombFilter.CodeShape | src/blockfilter.cpp:19-33 | a code is the quotient in ones, a zero, and the remainder |
| GolombFilter.LowBitsAt | src/blockfilter.cpp:30-33 | the remainder is written most significant bit first |
| GolombFilter.RangedIs | src/blockfilter.cpp:49-88 | a hash is mapped to its share of the range, rounded down |
| GolombFilter.Filter.MatchInternal | src/blockfilter.cpp:155-185 | on every filter from which N numbers can be read, built or received, the stream never runs out, and the merge finds a match if and only if a query equals a value that no earlier value exceeds; for sorted values, as in every filter built, if and only if they have a value in common |
| GolombFilter.MatchesAllIff | src/blockfilter.cpp:155-185 | matching finds every common value for all queries if and only if each value is met somewhere with nothing above it before |
| GolombFilter.WrappedMisses | src/blockfilter.cpp:103-185 | two differences whose sum passes 2^64 make an accepted stream whose second value is not found |
| GolombFilter.Receive | src/blockfilter.cpp:103-124 | a received filter is refused if and only if N is too large or the stream does not hold exactly N numbers, and can be matched on otherwise |
| GolombFilter.Filter.MatchAny | src/blockfilter.cpp:192-195 | the same for hashed elements; in a filter that was built, true if and only if some element's hash is in the set, so never false for a member |
| GolombFilter.Filter.constructor | src/blockfilter.cpp:126-153 | the coded set holds exactly the hashes of the elements |
| GolombFilter.BuiltIsAccepted | src/blockfilter.cpp:103-124 | every filter built passes the check on received filters |
| GolombFilter.CheckEncoded | src/blockfilter.cpp:103-124 | accepted if and only if it holds N numbers and no byte more |
| GolombFilter.MapIntoRange | src/blockfilter.cpp:55-80 | the pieces of 64 bits compute the upper half of the 128-bit product |
| CompactBlocks.PartialBlock.InitData | src/blockencodings.cpp:51-205 | invalid if and only if there is no header, nothing or too much in it, or a whole transaction that is null or out of line; otherwise it fails if and only if a bucket is crowded or a short id repeats; for an encoding of a block with unambiguous short ids it is never out of line and every slot filled is right; with no transaction twice in the pool the empty slots are exactly those of transactions neither prefilled nor known |
| CompactBlocks.PartialBlock.FillBlock | src/blockencodings.cpp:213-269 | given the missing transactions the block is rebuilt exactly, and invalid is returned if and only if their number is wrong or the block check says so |
| CompactBlocks.FromBlock | src/blockencodings.cpp:21-32 | the compact form encodes the block, with its first transaction whole |
| CompactBlocks.IndexShortIds | src/blockencodings.cpp:97-129 | short ids are assigned to the empty slots in order, and refused if and only if a bucket is crowded or an id repeats |
| CompactBlocks.FilledIsStocked | src/blockencodings.cpp:131-196 | when both scans are over, a slot is filled exactly if its transaction is prefilled, in the pool or among the extra ones |

## Left out

Weaker than the source, member by member:

- AddrManCheck.Check: a missing address reads as zero as in the source, but the entry that reading leaves in mapAddr is not kept; entries are taken in any order, so which of several failures is reported is left open.
- AddrManCalls.GoodKeeps: requires a positive time, as the clock always gives; nIdCount is unbounded where the source has 32 bits.
- AddrManRuns.RunsAreConsistent: the same two assumptions over runs, and Clear is not one of the calls (ClearStrandsCollisions shows why).
- AddrManLoad.LoadsConsistentlyIff: the condition speaks of the entries as read just before pruning, since which entries find a slot depends on the hashes of the key; DistinctLoadsConsistently gives a condition on the stream alone.
- BlockAssembler.Assembler.AddPackageTxs: fee rates are compared as exact integers; the source compares doubles, and its product of fee and size in unsigned 64 bits wraps for negative fees.
- PackageSelection.ForemostLeads: leads by fees only for pools without fee adjustments, because entries are created from modified fees and lowered by base fees; LoweredFees gives the exact condition for one entry.
- AddrManEffects.ResolveSettles: assumes that the clock read for a swap is not before the start of the call.
- PollSlots.BoundedIff: for 246 or more requests ending at once a wrapped counter can come back into range, so the equivalence is stated below that.
- BlockAssembler.Assembler.AddPriorityTxs: which of several equal priorities the heap yields first is left open; priorities are reals.
- PartialMerkleTree.RoundTrip: widths are unbounded integers; WidthIn32Bits says when the 32-bit sum agrees.
- SkipHeights.StepsAreFew: quadratic in the bits; the remark of at most 110 steps for heights up to 2^18 (src/chain.cpp:89-90) is about one range of heights and is not proved as a number.
- CompactTarget.GetCompact: the bit-ors of disjoint parts are written as additions.
- CuckooModel.EveryRunIsSound: the depth limit is a parameter and the relaxed atomics on flags are sequential.
- CashAddr.DecodeInvertsEncode: holds for prefixes of lower-case letters; encoding does not look at the prefix, and other prefixes need not decode.
- CompactBlocks.PartialBlock.InitData: whether a bucket is too full is a parameter, because the hash table's buckets are not modelled; the verdict of CheckBlock is a parameter too.

Where the code and its documentation disagree, the code is followed:

- src/cuckoocache.h says that the first of the eight locations is swapped first; the code starts with the second.
- src/miner.cpp says that a failed package is sure to fail again; it can be picked later with an overestimated size, as SigOpsOverrun shows.
- src/merkleblock.h bounds flag bits by 2N-1; BitsBound says when that holds.
- ExtractMatches clears the vector of matches but not that of indices.

Not modelled:

- Select_ of the address manager, which searches at random with a changing probability.
- FindEarliestAtLeast and GetBlockProofEquivalentTime in src/chain.cpp.
- Best-block bookkeeping of the coin caches, the memory of the map itself and fixed script allocations, and cursors.
- Coinbase construction, the validity check of the finished template (which refuses one with too many signature operations), logging and statistics of the miner.
- The avalanche event loop, timeouts and peer selection; the seed that the node hash mixes in is always zero here.
- Byte packing of the filter bit stream and its CompactSize prefix.
- Concrete hash functions, serialisation primitives, locks as such, and floating-point scoring of addresses by GetChance.
- Wallet, consensus validation, script interpreter, networking, RPC and storage.
