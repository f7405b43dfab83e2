# Blocknet in Dafny

A model of the state machine at the heart of the Blocknet node, and proofs about it: the block
chain with its store and cache, the mempool beside it, the consensus arithmetic and its
auditors, the transaction wire format, and the wallet that selects, leases, spends, scans and
rewinds outputs.

Cryptography is uninterpreted. A block carries its hash as a number; the Merkle tree is over an
arbitrary hash function, and its results return an explicit collision where they fail; a commitment is a pair of value and blinding modulo the group
order, and the outcome of every signature, range-proof, proof-of-work and stealth-address check
is an input. So are clocks and random draws. Storage is a record of maps changed atomically,
without I/O failure. Integers are unbounded except where the width matters, and there the
truncation is written out (`Words`).

How the modules build on each other:

* `Words`, `Arith`, `Seqs`, `Bytes` hold the arithmetic and sequence facts everything else uses.
* `Blocks`, `Lwma`, `Median`, `Pow`, `Merkle` hold the block data and the consensus arithmetic.
* `ChainModel` is the abstract chain: stored blocks and a tip, the four steps it can take
  (refuse, keep as a side block, adopt, truncate), and what holds on every run of them.
  `Storage`, `Cache` and `Chain` are the imperative code; every public method of class `Chain` is
  proved to take one of these steps. `Fork` and `Branch` hold the facts about two paths,
  `Serving` what a lookup may do to the cache, `Loading` what start-up reads, `Adoption` when a
  heavier block becomes the tip, and `Crowding` a run on which one does not. `Audit` holds the
  two chain auditors. `Stranded` holds runs on which deep truncations do harm.
* `Pool` and `Node` are the abstract mempool and the node as interleaved steps. `Queue`,
  `Mempool` and `Reorg` are the code, tied to them by `Node.UpdateMempool`; `Daemon` composes
  block processing with that update, and admission with the node's steps; `Recovery` says what the
  pool holds after a switch.
* `Wire` is the transaction format as a printer, a parser and a specification.
* `WalletModel` and `Leases` are the wallet's abstract steps. `CoinSelect`, `Wallet`, `Scanner`,
  `Commitments` and `Builder` are the code; `Discovery` says what a scan finds and spends.

## What the code turns out to do

* The branch-aware spent check asks about the block's own branch and about the current main chain
  (block.go:1587-1591), so a side block may be refused for a spend that is only on the main chain.
  `ChainModel.Validated` says so.
* Unmarking the key images of disconnected blocks is right because no branch spends an image
  twice; `Storage.UnmarkLosesDoubleSpend` shows what would be lost otherwise.
* While a reorganisation walks back, the new tip is only in the cache, and the branch below it
  overtakes it there. With the recent main chain cached, a heavier admissible block becomes the tip
  exactly when finality allows it and the branch, with the new block, fits the cache beside the
  pinned blocks: `|NewPath| - Shared + min(height, 100) + 1 <= cap` (`Adoption.Adoptable`,
  `Chain.Chain.ProcessBlock`). `Crowding.HeavierYetCrowded` reaches a refused block at every
  permitted capacity below 202; from 202 on only a branch that outgrows the main chain by more
  than one block, and so has lower difficulties, can be refused (`Crowding.SteadyBranchFits`).
  Whatever is cached, `Adoption.Reachable` suffices, a branch longer than the cache is refused, and
  a tip extension always fits (`Adoption.ExtensionFits`). The recent chain stays cached through
  everything but a truncation or a switch that lowers the height.
* After `TruncateToHeight` the removed blocks are still stored, so they are refused as known. If a
  child of the old tip is adopted, all of them are back (`ChainModel.TruncationHeals`). Finality
  never forbids that, but the cache may: the removed blocks and the child must fit it
  (`Adoption.HealingBranch`), and at every capacity some truncation is too deep to heal
  (`Stranded.TooDeepToHeal`).
* `collectReorgDiffBlocks` gives up when either branch has 1000 blocks or more above the fork. Only
  the tip block is then taken out of the mempool, and the pool ends up clean exactly when nothing
  that outlives the tip block and expiry uses an image spent below the tip
  (`Node.LongBranchLeavesSpent`). On every run the images missed in this way are the only spent
  ones the pool can use (`Node.PoolCleanOnRuns`). A cache of fewer than 1000 blocks, such as the
  default one of 512, never lets a branch that long through, and one of 1000 does not while it
  holds the recent chain, so there the pool stays clean (`Daemon.HandleBlock`,
  `Node.PoolCleanInSmallCache`). At every larger capacity `Stranded.SpentStaysPooled` reaches a pool
  that holds a spent transaction, by truncating and healing a thousand blocks.
* The auditor subtracts timestamps in 64 bits. It agrees with the validator exactly when no two
  consecutive timestamps are 2^63 or more apart (`Audit.AuditorAgrees`); this always holds after
  a genesis block with a non-negative timestamp.
* The LWMA bound (2^64-1)/549000 on difficulties is tight (`Lwma.SafeDifficultyIsTight`).
* `RewindToHeight` undoes a scan exactly when the scan confirmed no spend that was pending before it
  (`WalletModel.RewindUndoesScan`); the source's comment promises the general case. A pending spend
  that was confirmed comes back as unspent (`WalletModel.PendingSpendForgotten`).
* After a switch within the walk's reach the pool holds what the new blocks neither hold nor
  conflict with, and every transaction of the blocks left behind that has an input and whose images
  neither the new chain nor the pool uses, unless it has expired (`Daemon.HandleBlock`,
  `Recovery.LeftOffReturns`); beyond that reach nothing comes back.
* `evictLowest` evicts the oldest entry if its fee rate is below the newcomer's; its name and
  comment speak of the lowest fee rate.
* The scanner confirms only the first output with a one-time key. When two owned outputs share
  one, no scan changes the second (`Scanner.OnlyFirstsChange`, `Scanner.SharedKeyStaysUnspent`);
  `Scanner.FirstsSuffice` says exactly when all users of a key image are confirmed.
* `SelectInputs` with target 0 and only spent candidates reports the input-limit error. Its totals
  are 64-bit words: whatever it selects pays, but unspent amounts of 2^64 or more may be refused
  (`CoinSelect.WrappedFundsRefused`). Which targets are refused is decided by single coins, pairs,
  and the 64-bit totals of the smallest and of the largest coins (`CoinSelect.Choosable`).
* At difficulty 0 the conversion to a target fails unnoticed and leaves the zero target, which the
  all-zero hash meets (`Pow.MeetsDifficulty`).
* The serialiser sizes its buffer by the ring members alone, counted twice; on rings with another
  number of commitments it truncates or overruns (`Wire.Serialize`, `Wire.PrintersAgree`,
  `Wire.UnevenRings`).
* The in-memory difficulty fails if a block of its window is not in memory
  (`Chain.Chain.NextDifficulty`). A truncation by more than 40 blocks after a restart brings that
  about (`Stranded.RestartThenTruncate`).
* The wallet's fee is at least the rate on the estimated size exactly when the product fits in 64
  bits (`Builder.FeeCovers`). It is the least fee or what one of at most four attempts called for,
  and no attempt called for more (`Builder.FeeIsCalledFor`, `Builder.FeeSuffices`).

## Model

| member | source | states |
|---|---|---|
| `ChainModel.NextInv` | block.go:1458-1512 | Every step (refusal, side block, adoption, truncation) keeps all stored blocks linked and rule-abiding with the tip among them, and says which path is the main chain afterwards. |
| `ChainModel.RunInv` | block.go:1458-1512 | The invariant holds after every step of every run. |
| `ChainModel.NoDoubleSpendOnAnyRun` | block.go:1557-1593 | On every run no key image occurs twice on the path from genesis to any stored block, main chain or side branch. |
| `ChainModel.GoodPathNoDup` | block.go:475-489 | A path whose blocks each pass validation in turn spends no key image twice. |
| `ChainModel.GoodPathTimes` | block.go:410-413 | Timestamps strictly increase along any accepted path, not only between neighbours. |
| `ChainModel.GoodPathWork` | block.go:37-42 | The work of an accepted path fits 64 bits. |
| `ChainModel.NextHeaviest` | block.go:1476-1511 | A step other than truncation leaves no stored block heavier than the tip, and a change of tip strictly increases the work. |
| `ChainModel.HeaviestOnRuns` | block.go:1476-1511 | On runs without truncation the tip's work never falls, rises strictly whenever the tip differs, and no stored block is ever heavier. |
| `ChainModel.FinalityStep` | block.go:1974-1998 | One step other than truncation disconnects at most 100 blocks and leaves every finalised block in place. |
| `ChainModel.FinalityOnRuns` | block.go:2333-2341 | On runs without truncation whose height never falls, a finalised block stays finalised and on the main chain for ever. |
| `ChainModel.TruncationHeals` | block.go:2126-2204 | After truncation no old main-chain block is admissible, and adopting a child of the old tip restores the whole old chain below it. |
| `ChainModel.PathUnique` | block.go:2083-2121 | A hash-linked list of stored blocks from height 0 is the path to its last block: paths are unique. |
| `ChainModel.PathsAgreeBelow` | block.go:2000-2053 | Two paths with the same hash at some height are equal up to that height. |
| `ChainModel.FoundedInv` | block.go:505-537 | A chain holding only a bare genesis block meets the invariant and is heaviest. |
| `ChainModel.AdmitGood` | block.go:384-503 | Storing a validated block keeps all paths good and unchanged, and completes exactly its parent's path. |
| `ChainModel.AdmissibleExactly` | block.go:384-503 | A block is admissible exactly when it is new and either bare at height 0 or one above a stored parent with the difficulty the rule yields on the parent's path, a later timestamp, one coinbase which comes first, no repeated image, no image that a block of its path or of the main chain spends, and work that fits 64 bits. |
| `ChainModel.FinalityIs` | block.go:1974-1998 | Finality allows exactly the branches that share a block with the main chain and take at most 100 blocks off it. |
| `Storage.SpentMapUnmark` | storage.go:598-621 | Removing the key images of a suffix from the spent map of a chain gives the spent map of the rest, heights included, provided no image is spent twice. |
| `Storage.UnmarkLosesDoubleSpend` | storage.go:598-621 | If an image is spent below and inside the suffix, unmarking the suffix loses it although the rest still spends it. |
| `Storage.ReorgIndexes` | storage.go:598-671 | Dropping the old suffix and entering the new one turns both indexes of the old chain into both indexes of the new chain. |
| `Storage.HeightMapAt` | storage.go:158-186 | The height index of a chain maps exactly 0..height, each to that block's hash. |
| `Storage.DropLastImages` | block.go:2126-2204 | Unmarking the last block gives the spent map without it. |
| `Storage.DropBlocks` | storage.go:598-621 | The disconnect loop removes exactly the heights and images of the listed blocks. |
| `Storage.EnterBlocks` | storage.go:623-671 | The connect loop enters exactly the listed blocks in order. |
| `Storage.Store.SaveBlock` | storage.go:104-122 | A block is stored exactly when it is of height 0 or its parent is stored; nothing else changes. |
| `Storage.Store.CommitBlock` | storage.go:391-491 | Succeeds exactly on a child of the tip (or a genesis block on an empty store), with blocks, height index, spent set and tip all moved together; otherwise nothing changes. |
| `Storage.Store.CheckReorg` | storage.go:506-597 | Accepts a plan exactly when the disconnects walk down from the tip, the connects link up from the base, and height and tip fit. |
| `Storage.Store.CommitReorg` | storage.go:506-692 | Commits exactly the plans that pass the check, replacing the suffix in blocks and both indexes and moving the tip; a refused plan changes nothing. |
| `Fork.SameHashIffShared` | block.go:2000-2053 | Two paths carry the same hash at a height exactly below their fork. |
| `Fork.ReorgPasses` | block.go:1895-1928 | The disconnect and connect lists of a reorganisation always pass the store's checks. |
| `Fork.ReorgCommits` | storage.go:598-671 | Committing those lists yields the block set with the new block, and the height and spent indexes of exactly the new path. |
| `Fork.ExtensionIsReorg` | block.go:1846-1881 | The fast path is the special case of a reorganisation that disconnects nothing, and finality always allows it. |
| `Fork.CommitFork` | storage.go:506-692 | On a valid store, committing a reorganisation to b gives a valid store whose abstract state is "b added and tip moved to b". |
| `Fork.MedianImplied` | block.go:1653-1685 | On an accepted path the median of the last eleven timestamps is at most the parent's, so the median rule follows from the parent rule. |
| `Cache.CapFromEnv` | block.go:977-993 | The capacity is the setting from 164 to 100000, 512 if there is none, and otherwise the nearer end of that range. |
| `Cache.PinnedCard` | block.go:1015-1030 | At most 101 hashes are pinned. |
| `Cache.TouchKeepsRecent` | block.go:995-1004 | Looking up the walked blocks never makes the kept block older than them. |
| `Cache.LoopStep` | block.go:1032-1056 | One round of trimming either evicts an unpinned block or moves a pinned one forward; the pinned prefix it has seen grows and stays below 102, which is why the loop ends. |
| `Cache.BlockCache.Trim` | block.go:1032-1056 | Trimming terminates with exactly min(size, cap) entries, evicts no pinned block, alters no surviving entry, keeps the order of the unpinned ones, and keeps the block being processed if the walk fits. |
| `Chain.Chain.Lookup` | block.go:1687-1699 | A lookup returns the known block with that hash exactly when it is stored or cached, keeps pinned blocks cached, keeps the block in process, and puts what it looked up ahead of it. |
| `Chain.Chain.CumulativeWork` | block.go:1058-1083 | Under any cache state the result is the genesis-to-block sum of difficulties, and it is found for every stored block. |
| `Chain.Chain.BlockByHeightIsMain` | block.go:1313-1328 | Reading by height, from memory or store, gives exactly the main-chain block at that height and nothing above the tip. |
| `Chain.Chain.SpentExact` | block.go:1701-1707 | A key image is reported spent exactly when a main-chain block spends it. |
| `Chain.Chain.constructor` | block.go:1086-1117 | A new chain is blank on its store with an empty cache of permitted size. |
| `Chain.Chain.Load` | block.go:1120-1207 | From any valid store loading succeeds, memory agrees with the store, work entries are right, and the last 101 main-chain blocks are cached; from any other it succeeds only if every recent height has its block, which memory then indexes; an empty store changes nothing. |
| `Loading.OffsetWork` | block.go:1187-1202 | The offset is added to every entry, failing exactly on 64-bit overflow. |
| `Loading.LoadedOffset` | block.go:1187-1202 | The stored tip work minus the relative work computed for the tip is the work below the loaded part. |
| `Loading.LoadedAgrees` | block.go:1187-1202 | With that offset every loaded entry is the work from genesis. |
| `Chain.Chain.AddGenesis` | block.go:1351-1369 | Founds exactly an empty chain with a bare block of height 0, giving a valid one-block chain; otherwise nothing changes. |
| `Chain.Chain.NextDifficulty` | block.go:1787-1830 | The in-memory difficulty is the consensus difficulty of the main chain, and fails exactly if a block of the averaging window is not in memory, never with the recent chain cached. |
| `Chain.Chain.ProcessBlock` | block.go:1458-1512 | Memory, cache and store stay consistent; the call takes exactly the step its outcome names; admissible blocks no heavier than the tip become side blocks; with the recent chain cached a heavier one becomes the tip exactly when finality allows it and its branch fits the cache; under any cache state it does if both branches fit, and never on a branch longer than the cache; the recent chain stays cached unless the height falls. |
| `Adoption.ExtensionFits` | block.go:1846-1881 | Any joining child of the tip fits at every permitted cache size, so a heavier extension is never refused. |
| `Adoption.AdoptableIs` | block.go:1833-1970 | A branch is adoptable exactly when finality allows it and its blocks, with the last 101 main-chain blocks or all of them, are no more than the cache holds. |
| `Adoption.TooMany` | block.go:2055-2080 | With the recent main chain cached and the branch used after the new tip, a branch too long for the cache has pushed the new tip out. |
| `Adoption.TooLong` | block.go:2055-2080 | Whatever else is cached, a branch longer than the cache has pushed its last block out. |
| `Adoption.BranchStays` | block.go:2055-2080 | While the last block of the branch is still cached, so is the whole branch. |
| `Serving.WindowMoves` | block.go:1929-1970 | A switch to cached blocks that does not lower the height leaves the last 101 blocks indexed and cached. |
| `Adoption.HealingBranch` | block.go:2126-2204 | After a truncation a child of the old tip completes a branch of the removed blocks and itself, which finality allows; it is adoptable, or reachable, exactly as these fit the cache beside the pinned blocks. |
| `Serving.LoadOvertakes` | block.go:1687-1699 | Loading a block puts it, and all that was ahead of the block in process, ahead of that block, or evicts it. |
| `Crowding.HeavierYetCrowded` | block.go:1833-1970 | For every n up to 100 a run from a bare block reaches a state of height n with an admissible heavier block that finality allows and that does not fit any cache of fewer than 2(n+1) blocks. |
| `Crowding.SteadyBranchFits` | block.go:1833-1970 | A cache of 202 blocks has room for every branch within finality that outgrows the main chain by at most one block. |
| `Crowding.LineDifficulty` | block.go:1595-1651 | Blocks mined on target at the minimum difficulty repeat it for ever. |
| `Stranded.TooDeepToHeal` | block.go:2126-2204 | At every capacity a run truncates a chain so deeply that the child of its old tip, though admissible, heavier and allowed by finality, lies on a branch longer than the cache. |
| `Stranded.RestartThenTruncate` | block.go:1787-1830 | After a restart and a truncation by more than 40 blocks to a height of 60 or more, the next difficulty cannot be computed from memory. |
| `Stranded.SpentStaysPooled` | daemon.go:942-975 | At every capacity above 1000 a run of switches that the cache lets through ends with nothing left to update and a spent transaction in the pool. |
| `Chain.Chain.Validate` | block.go:1514-1552 | Accepts exactly the blocks that pass the outside checks and the chain rules on their own branch. |
| `Chain.Chain.BranchSpent` | block.go:1557-1593 | The collected images together with the main chain's are exactly those of the path to the parent together with the main chain's; it fails exactly for an unknown parent. |
| `Branch.PeelStep` | block.go:1557-1593 | Walking back one block moves it from the path to the collected segment and its images to the collected set. |
| `Chain.Chain.DifficultyFromParent` | block.go:1595-1651 | The walk over parent links computes the consensus difficulty after the parent's path. |
| `Chain.Chain.MedianFromParent` | block.go:1653-1685 | The walk over parent links computes the median of the last eleven timestamps of the parent's path. |
| `Branch.CheckCoinbase` | block.go:460-472 | Accepts exactly the lists whose first and only coinbase is the first transaction. |
| `Chain.Chain.FindCommonAncestor` | block.go:2000-2053 | A block found is the highest shared block of both paths; none is reported only if nothing is shared or the new tip has left the cache; with the old tip cached one is found exactly when the paths share a block and the new tip is still cached, and with the walk covered whenever they share one. |
| `Chain.Chain.EnforceFinality` | block.go:1974-1998 | Passes only young chains or forks at most 100 blocks deep, and refuses these only if the new tip has left the cache; with the old tip cached it passes exactly those whose new tip is still cached. |
| `Chain.Chain.CollectConnect` | block.go:2055-2080 | The connect list is exactly the new path above the fork, lowest first, and collecting it puts the whole branch ahead of its tip in the cache. |
| `Chain.Chain.CollectDisconnect` | block.go:1895-1903 | The disconnect list is exactly the main chain above the fork, tip first. |
| `Chain.Chain.ReorganizeTo` | block.go:1833-1970 | Success adds the block, moves the tip to it within the finality bound and keeps memory and store in step; failure changes neither; a covered branch allowed by finality always succeeds, one longer than the cache always fails, and with the recent chain cached so does one that does not fit beside it; a switch that does not lower the height keeps the recent chain cached. |
| `Chain.Chain.Switch` | block.go:1929-1970 | After the commit the in-memory height index, spent set, tip and work follow the store, and the recent chain stays cached if the branch is and the height does not fall; a refused commit changes nothing. |
| `Chain.Chain.TruncateToHeight` | block.go:2126-2204 | Truncating below the tip takes exactly the truncation step with memory and store in step and enters no height into the in-memory index; truncating at or above it changes nothing. |
| `Chain.Chain.VerifyChain` | block.go:585-671 | On a valid chain the audit returns exactly the specified violations, and none at all above a genesis with non-negative timestamp. |
| `Chain.Chain.VerifyChainWithCheckpoints` | block.go:680-855 | With checkpoint c used, c matches the main chain and the result is exactly the full audit's violations above c. |
| `Audit.ExpectedIsConsensus` | block.go:894-922 | The auditor's difficulty at height h is the validator's after the blocks below h. |
| `Audit.LwmaFrom` | block.go:746-780 | The checkpoint auditor's own LWMA, on a partial window, is the consensus value, and it reports missing history exactly when its window starts too late. |
| `Audit.MedianFrom` | block.go:817-837 | Likewise for the median. |
| `Audit.CleanAt` | block.go:585-671 | At a height of an accepted path the auditor finds nothing exactly when its timestamp difference is positive in 64 bits. |
| `Audit.AuditorAgrees` | block.go:585-671 | A path accepted by the validator audits clean exactly when no two consecutive timestamps are 2^63 or more apart. |
| `Audit.BuiltChainIsClean` | block.go:585-671 | Every main chain built by the node's steps on a genesis with non-negative timestamp audits clean. |
| `Audit.FaultsAt` | block.go:603-668 | For any list of blocks and any height above 0, each kind of violation is reported exactly when its own condition fails, once, in the order of the checks and with the values of the block and of the rule. |
| `Audit.CleanIffInOrder` | block.go:603-668 | Nothing is reported at a height exactly when link, difficulty, median and gap are all right there. |
| `Audit.AuditExactly` | block.go:585-671 | The whole audit from a height up lists exactly the faults from there up, and is empty exactly when all blocks from there up are in order. |
| `Audit.GapExactly` | block.go:658-665 | The gap counts as positive exactly when the block is later than its parent by less than 2^63 seconds, or earlier by more than that, where the subtraction wraps. |
| `Audit.VerifyChain` | block.go:585-671 | On a complete chain the result lists every fault of every block above the first, each once, by height and kind, with the stated and the expected value; it is empty exactly when every block is linked, has the consensus difficulty, is later than the median of the last eleven and at least a second later than its parent as 64-bit words subtract; on an incomplete chain it is the first missing height. |
| `Audit.FindCheckpoint` | block.go:689-711 | The checkpoint used matches the chain and is the highest that does when heights are sorted; a missing block is reported only for a listed checkpoint, then the highest that matches or is missing; none is used or reported only if none matches and none is missing. |
| `Audit.HistorySuffices` | block.go:713-743 | The preloaded history is enough for every height audited, so the insufficient-history exits are never taken. |
| `Audit.VerifyChainWithCheckpoints` | block.go:680-855 | With checkpoint c used: nothing if c is the tip, the first missing block if one that is needed is missing, and otherwise exactly the faults above c, empty exactly when every block above c is in order; without one: nothing, or the missing checkpoint block. |
| `Audit.CheckpointAuditIsRestriction` | block.go:680-855 | The violations from c+1 on are exactly the full audit's violations at heights above c. |
| `Lwma.LwmaShift` | block.go:894-922 | LWMA depends only on the blocks of its window, wherever that window sits, so all copies of the rule agree. |
| `Lwma.WindowDifficulty` | block.go:894-922 | The loop with its 64-bit arithmetic computes the LWMA that `Lwma.DifficultyIs` gives in numbers. |
| `Lwma.DifficultyIs` | block.go:894-922 | For any window the result d is at least 4, and is 4 or the largest d with d S at most 549000 times the average modulo 2^64; the average is that of the sixty blocks, their sum modulo 2^64, and S the weighted sum of solve times. |
| `Lwma.ConsensusDifficulty` | block.go:1595-1651 | What consensus demands of a child: 4 up to height 60, and above it that value on the last sixty-one blocks. |
| `Lwma.SteadyDifficulty` | block.go:894-922 | With every solve time t from 1 to 1800 and no wrap, the result is max(4, avg 300 / t). |
| `Lwma.GapCarriesWeight` | block.go:899-909 | A change of the solve time of block i alone, within 1 to 1800, moves the weighted sum by i times that change. |
| `Lwma.DifficultySumIsWork` | block.go:899-909 | The difficulties summed are those of the window's blocks above its first, each once. |
| `Lwma.RetargetBounds` | block.go:894-922 | With window difficulties at most (2^64-1)/549000 nothing wraps, the result lies between max(4, avg/6) and max(4, 300 avg), and is max(4, avg) when every solve time is 300. |
| `Lwma.SlowerNeverHarder` | block.go:894-922 | Longer solve times at equal difficulties never raise the result. |
| `Lwma.SafeDifficultyIsTight` | block.go:894-922 | One above that bound, a window of on-target blocks wraps to the minimum difficulty. |
| `Median.SortedUnique` | block.go:1653-1685 | Sorting is determined by the multiset. |
| `Median.MedianOrderFree` | block.go:1764-1785 | The median does not depend on the order of the timestamps. |
| `Median.MedianMember` | block.go:1653-1685 | The median is one of the timestamps. |
| `Median.MedianCounts` | block.go:1653-1685 | At most half of the timestamps are below the median, and more than half are not above it. |
| `Median.MedianUnique` | block.go:1653-1685 | No other number has that property. |
| `Median.WindowIs` | block.go:1653-1685 | The window holds the last eleven timestamps in order, or all if there are fewer. |
| `Median.ExchangeSort` | block.go:1675-1682 | The in-place exchange sort produces the sorted copy of the array. |
| `Median.Compute` | block.go:1653-1685 | Sorting and taking the middle computes the specified median. |
| `Pow.CheckTarget` | crypto-rs/src/pow.rs:70-91 | The byte-wise comparison accepts exactly when the hash, as a big-endian number, is at most the target. |
| `Pow.DivideLimb` | crypto-rs/src/pow.rs:96-128 | One step of long division never truncates its quotient limb and keeps the division identity. |
| `Pow.DivideMax` | crypto-rs/src/pow.rs:96-128 | The four quotient limbs denote floor((2^256-1)/d). |
| `Pow.DifficultyToTarget` | crypto-rs/src/pow.rs:96-128 | The 32 bytes encode floor((2^256-1)/d) for every d > 0, and d = 0 is refused. |
| `Pow.TargetMeaning` | crypto-rs/src/pow.rs:96-128 | h is at most the target for d exactly when h d is at most 2^256-1. |
| `Pow.MeetsDifficulty` | block.go:341-352 | The whole check accepts a hash exactly when hash times d is at most 2^256-1, and at d = 0 exactly the zero hash. |
| `Pow.HarderAcceptsFewer` | crypto-rs/src/pow.rs:70-91 | A hash accepted at a difficulty is accepted at every smaller one. |
| `Merkle.ComputeRoot` | block.go:204-227 | The recursive computation with its per-level loop gives the specified root, for any hash function, and 32 zero bytes for no leaves. |
| `Merkle.RootOfHalves` | block.go:204-227 | Over a power of two of leaves the root is the hash of the root of the left half followed by the root of the right half. |
| `Merkle.RootPads` | block.go:204-227 | Over an odd number of leaves above one the root is that of the list with its last leaf repeated. |
| `Merkle.RootIsDigest` | block.go:204-227 | The root is the digest of one tree over the leaves, for any hash function. |
| `Merkle.DigestBinds` | block.go:204-227 | Two trees whose leaves are never 64 bytes long and whose digests agree are equal, or two different preimages with one hash are returned. |
| `Merkle.LevelInjective` | block.go:204-227 | A level determines the duplicate-free level below it, despite the duplicated last leaf. |
| `Merkle.RootInjective` | block.go:204-227 | Equal trees over duplicate-free leaves of one depth mean equal lists, of equal length, despite the duplicated last leaf. |
| `Merkle.DuplicationCollides` | block.go:204-227 | Without distinctness the root does not bind: repeating the last leaf of three changes nothing. |
| `Merkle.RootBindsTransactions` | block.go:185-201 | Two duplicate-free lists of transactions in the format with equal roots are equal, or a collision or a preimage of the zero hash of the empty list is returned. |
| `Merkle.CheckedDistinct` | block.go:460-489 | The coinbase and key-image checks make a block's transaction list duplicate-free. |
| `Merkle.CheckedFit` | block.go:460-500 | The ring and size checks put every transaction of an accepted block within the format, whatever its number of inputs and outputs. |
| `Merkle.RootBindsCheckedBlocks` | block.go:460-500 | Two accepted blocks with equal Merkle roots have the same transactions, or a hash collision is returned. |
| `Blocks.CheckedTxsDistinct` | block.go:460-489 | One coinbase and no repeated key image make transactions pairwise distinct. |
| `Wire.DecodeSound` | transaction.go:239-398 | Whatever the parser accepts is within its limits and prints back to exactly the bytes parsed. |
| `Wire.DecodeEncode` | transaction.go:239-398 | Every transaction within the limits parses back from its own bytes. |
| `Wire.Layout` | transaction.go:101-182 | Version at byte 0, key at 1, counts of inputs and outputs at 33 and 37, fee at 41, least significant byte first, then the outputs and then the inputs. |
| `Wire.OutputLayout` | transaction.go:286-321 | Key, commitment, amount, memo, proof length and proof of an output stand at bytes 0, 32, 64, 72, 200 and 204. |
| `Wire.InputLayout` | transaction.go:323-383 | Key image, pseudo-output, ring size, members, commitments, signature length and signature of an input stand at bytes 0, 32, 64, 68 and behind each other from there. |
| `Wire.EncodeInjective` | transaction.go:101-182 | Transactions with even rings and lengths below 2^32 and equal bytes are equal; the parser's limits play no part. |
| `Wire.ShortFits` | transaction.go:101-182 | A transaction with even rings that prints to fewer than 2^32 bytes is within the format. |
| `Wire.ManyComplete` | transaction.go:286-383 | A repeated reader reads back a printed list, item for item. |
| `Wire.ManySound` | transaction.go:286-383 | A list read from bytes prints to exactly the bytes consumed. |
| `Wire.OutputExact` | transaction.go:286-321 | Reading an output at an offset gives o exactly when o's bytes stand there and o is within limits. |
| `Wire.InputExact` | transaction.go:323-383 | Likewise for inputs with their rings and signatures. |
| `Wire.Size` | block.go:2468-2485 | The computed size counts every ring member twice and never its commitments. |
| `Wire.RoomIsLength` | block.go:2468-2485 | That size is the printed length exactly when members and commitments are equally many in all. |
| `Wire.Serialize` | transaction.go:101-182 | The buffer-filling printer overruns, cuts off or zero-pads the specified bytes exactly as the buffer is too small or too large, and on even rings produces them. |
| `Wire.SigningPreimage` | transaction.go:188-233 | The signed bytes are the header and outputs, without any input data. |
| `Wire.WalletPrefix` | wallet/builder.go:713-771 | The wallet's prefix equals the signing preimage of the same transaction. |
| `Wire.WalletSerialize` | wallet/builder.go:774-828 | The appending printer of the wallet produces the specified bytes for any rings. |
| `Wire.PrintersAgree` | wallet/builder.go:774-828 | Node and wallet print the same bytes exactly when members and commitments are equally many in all. |
| `Wire.OneUnevenRing` | transaction.go:101-182 | For one input and no outputs the node overruns exactly when the surplus commitments outweigh the signature, and otherwise cuts off or pads as there are more or fewer commitments than members. |
| `Wire.UnevenRings` | transaction.go:101-182 | One transaction loses its last bytes and one overruns the buffer. |
| `Wire.DeserializeTx` | transaction.go:239-398 | The offset-moving parser accepts exactly the printed forms of transactions with at most 256 inputs and 256 outputs, even rings of at most 16, signatures of at most 1120 and range proofs of at most 1024 bytes, with no trailing bytes. |
| `Wire.NeverTwoDigests` | block.go:185-227 | No transaction is 64 bytes long, so a leaf is never the preimage of an inner node; the Merkle binding uses it. |
| `Queue.FirstIsBest` | mempool.go:546-576 | In a heap the first entry has the highest fee rate. |
| `Queue.TxQueue.Swap` | mempool.go:555-559 | Swapping keeps every entry's index field right. |
| `Queue.TxQueue.Push` | mempool.go:561-566 | Pushing keeps heap order and index fields and adds exactly one entry. |
| `Queue.TxQueue.Remove` | mempool.go:195-211 | Removing at a position keeps heap order and index fields, removes exactly that entry and clears its index. |
| `Mempool.IndexConsistent` | mempool.go:86-166 | An exact key-image index means that no two pooled transactions share an image and that every used image is indexed. |
| `Mempool.Mempool.constructor` | mempool.go:74-83 | A new pool is empty and consistent. |
| `Mempool.Mempool.RemoveById` | mempool.go:195-211 | Removes exactly that transaction from all four structures, and its size from the total. |
| `Mempool.Mempool.RemoveByImage` | mempool.go:231-238 | Removes exactly the users of the image. |
| `Mempool.Mempool.EvictLowest` | mempool.go:169-192 | Evicts an oldest entry exactly when its fee rate is below the given one. |
| `Mempool.Mempool.AddTransaction` | mempool.go:86-166 | All structures agree afterwards; a transaction is added exactly as recorded, beside the survivors; each eviction took an oldest entry of a lower fee rate while the pool was full or too few bytes were left, and with room for one more there is none; counts stay within max(MaxSize, old count) and bytes within MaxSizeBytes if it fits; refusals only lose evicted entries, and an acceptable transaction is refused only for want of room, when nothing is left to evict or an oldest entry pays as much. |
| `Mempool.Mempool.OnBlockConnected` | mempool.go:359-379 | Drops exactly the block's transactions and every user of its key images. |
| `Mempool.Mempool.OnBlockDisconnected` | mempool.go:383-449 | Every entry stays as it was, and exactly the block's free transactions come back, each recorded with its size and fee rate and the present time (`Pool.DisconnectedExactly`). |
| `Mempool.Mempool.RemoveExpired` | mempool.go:334-355 | Drops exactly the entries older than the cutoff and counts them. |
| `Mempool.Mempool.GetTransactionsForBlock` | mempool.go:269-306 | Distinct pooled entries in falling fee-rate order within both limits; for every entry left out, some first choices all pay at least as much and leave it no place or no space; below the count limit nothing left out would still fit. |
| `Mempool.SortByRate` | mempool.go:279-286 | The exchange sort rearranges the entries into falling fee rate. |
| `Pool.DisconnectedClean` | mempool.go:383-449 | Returning transactions brings in no user of a spent image. |
| `Pool.ConnectedClean` | mempool.go:359-379 | Connecting a block removes the users of its images from those still pending. |
| `Pool.DisconnectedConsistent` | mempool.go:383-449 | Returning transactions never makes two pooled ones share an image. |
| `Pool.DisconnectedExactly` | mempool.go:383-449 | After a block with distinct key images is disconnected the pool holds all it held, unchanged, and of the block exactly the transactions that have an input and whose images are neither spent nor used in the pool. |
| `Pool.ReturnsIffFree` | mempool.go:383-449 | With distinct ids too, a transaction of the block that was not pooled is in the pool afterwards, as it was, exactly when it is free in this sense. |
| `Pool.ConnectedExactly` | mempool.go:359-379 | A connected block leaves, unchanged, exactly what shares neither id nor key image with a transaction of it. |
| `Reorg.SeenIffShared` | daemon.go:977-1060 | A block of the old path has a hash seen on the new path exactly when it is shared and low enough to have been visited. |
| `Reorg.ForkSeen` | daemon.go:977-1060 | The first walk reaches the fork exactly when the new branch has fewer than 1000 blocks above it. |
| `Reorg.CollectReorgDiff` | daemon.go:977-1060 | Returns exactly the blocks taken off, tip first, and put on, lowest first, when both branches have fewer than 1000 blocks above the fork, and two empty lists otherwise. |
| `Node.NewlySpent` | daemon.go:942-975 | Every image the new main chain spends and the old did not is spent by a block the update connects. |
| `Node.SpentGrows` | daemon.go:942-975 | After a chain step the spent images are among the old ones, those the pending update connects and those it misses. |
| `Node.StepInv` | daemon.go:942-975 | Every node step, chain change, single update, or either half of an admission, keeps "only images still to be connected, or missed by a switch beyond the walk, may be both pooled and spent". |
| `Node.InvOnRuns` | daemon.go:942-975 | That holds on every run, however the steps interleave and whatever branches are adopted. |
| `Node.PoolCleanOnRuns` | daemon.go:942-975 | Whenever no update is pending, every spent image the pool uses was missed by a switch beyond the walk; without such a switch it uses none. |
| `Node.PoolCleanInSmallCache` | daemon.go:942-975 | On runs that adopt no branch of 1000 blocks or more, as with any smaller cache, no pooled transaction uses a spent image whenever no update is pending. |
| `Node.LongBranchLeavesSpent` | daemon.go:942-975 | After a switch of 1000 blocks or more and the expiry that follows, the pool is clean exactly when no transaction that outlives both uses an image spent below the new tip. |
| `Node.UpdateMempool` | daemon.go:942-975 | The update changes the pool exactly as the specified list of disconnects, connects and expiry, and expiry drops exactly what is older than the cutoff, where what came back counts as new. |
| `Node.AppliedClean` | daemon.go:942-975 | Working off the pending updates leaves no use of a spent image but the missed ones. |
| `Daemon.HandleBlock` | daemon.go:662-678 | Processing a block and then updating the mempool is one chain step and the updates it causes; a pool free of spent images stays so but for the missed ones, and entirely if the cache holds fewer than 1000 blocks, or 1000 with the recent chain among them; transaction by transaction the pool holds exactly what the new blocks leave of it and what the blocks left behind bring back, less the expired. |
| `Daemon.FinishAdding` | mempool.go:86-166 | Admission of a checked transaction, whatever its outcome, is the finishing step of the node. |
| `Recovery.SwitchExactly` | daemon.go:942-975 | After a switch within the walk's reach and before expiry, a pooled transaction is still there exactly when no new block has its id or an image of it, and another is there exactly when a block left behind has it, it is free, and no new block has its id. |
| `Recovery.TipExactly` | daemon.go:942-961 | After an extension, or a switch beyond that reach, exactly the pooled transactions that the tip neither holds nor conflicts with are left. |
| `Recovery.UpdateFollows` | daemon.go:942-975 | The same once expiry has run: of these, exactly the ones not older than the cutoff. |
| `Recovery.LeftOffReturns` | mempool.go:383-449 | A transaction of a block left behind that the new blocks do not hold and whose images the new chain and the pool leave free is pooled after the switch, exactly unless what enters now has expired. |
| `Recovery.LeftDistinct` | mempool.go:383-449 | The blocks of an accepted path that are left behind share no key image, so no returning transaction keeps another out. |
| `CoinSelect.LargestAreBest` | wallet/coinselect.go:253-280 | No set of at most k coins is worth more than the k largest. |
| `CoinSelect.Shuffle` | wallet/coinselect.go:313-329 | The in-place shuffle is a permutation. |
| `CoinSelect.ExactMatch` | wallet/coinselect.go:77-110 | Finds one or two coins worth exactly the target, as 64-bit words add up, exactly when there are any, and one coin if one suffices. |
| `CoinSelect.SmallestFirst` | wallet/coinselect.go:162-190 | Pays with the smallest coins and no more than needed, exactly when some number of the smallest under the cap pays as 64-bit words add up. |
| `CoinSelect.LargestFirst` | wallet/coinselect.go:253-280 | Pays exactly when some number of the largest coins under the cap does as 64-bit words add up; without wrap-around it fails only if no set under the cap pays, and takes as few coins as any set that pays. |
| `CoinSelect.EndsSameValue` | wallet/coinselect.go:162-190 | Any two choices of the k smallest, or k largest, coins have the same value. |
| `CoinSelect.Replace` | wallet/coinselect.go:194-251 | Swaps the small coin in for the first larger one that it can stand in for, if any; size, distinctness and coverage are kept and the total never rises. |
| `CoinSelect.Mixed` | wallet/coinselect.go:194-251 | Pays under the cap, exactly when largest-first does; without wrap-around it fails only if no set under the cap pays, takes as few coins as any set that pays, and no coin left out could stand in for a larger one taken. |
| `CoinSelect.SwapTight` | wallet/coinselect.go:236-248 | Trying each candidate once, smallest first, is enough: no coin done with can stand in for a larger one that is still selected. |
| `CoinSelect.SelectInputs` | wallet/coinselect.go:20-62 | A selection is non-empty, distinct, unspent, within 256 inputs and truly reaches the target, whatever the amounts; it is made exactly when the 64-bit total reaches the target and a coin or pair matches it or some number of the smallest or largest coins under the cap reaches it; without wrap-around, whenever some set under the cap pays; each error has its exact condition; a single coin worth the target is preferred to a pair, a pair to the smallest coins, as few of them as pay, and these to the mixed strategy, with as few coins as can pay. |
| `CoinSelect.WrappedFundsRefused` | wallet/coinselect.go:20-62 | Two coins of 2^63 pay any target and are refused for every one but zero. |
| `Leases.HeldStays` | wallet/wallet.go:1008-1084 | A step that does not free a reservation leaves it and does not hand its outpoint out. |
| `Leases.HeldExactly` | wallet/wallet.go:1008-1274 | A reservation ends at exactly the steps that release its lease, find it expired or spend its output. |
| `Leases.LeaseExclusive` | wallet/wallet.go:1008-1274 | On any run, an outpoint handed out twice was freed in between: its lease released, expired, or its output spent. |
| `Leases.HandedOutIsSpendable` | wallet/wallet.go:1008-1252 | On any run from distinct outputs, what is handed out is free of duplicates, and every output of the wallet with a handed-out outpoint is unspent and mature. |
| `Leases.StepDistinct` | wallet/wallet.go:837-865 | Every wallet step keeps outpoints unique. |
| `Leases.DistinctOnRuns` | wallet/wallet.go:837-865 | Outpoints stay unique on every run. |
| `Leases.LeasesIncrease` | wallet/wallet.go:1008-1084 | Lease numbers only grow, so none is reused. |
| `Leases.ReleaseUndoesReserve` | wallet/wallet.go:1263-1274 | Releasing a lease just granted leaves exactly the reservations that had not expired. |
| `Leases.ReconciledIs` | wallet/wallet.go:961-1003 | Reconciling makes exactly the outputs unspent whose pending spender is gone, and touches nothing else. |
| `Leases.PendingMarkedIs` | wallet/wallet.go:940-956 | A spend by a pending transaction marks the first unspent output with the key, if there is one, and nothing else. |
| `Leases.ReconcileUndoesSpend` | wallet/wallet.go:940-1003 | Reconciling takes a pending spend back exactly when no output waited for the same transaction before. |
| `WalletModel.MaturityIs` | wallet/wallet.go:688-704 | An unspent output is mature exactly from 10 blocks above its own on, a coinbase output from 60. |
| `Wallet.Wallet.AddOutput` | wallet/wallet.go:837-865 | Adds the output unless its outpoint is known. |
| `Wallet.Wallet.MarkSpent` | wallet/wallet.go:912-936 | Confirms the first output with the key, frees its reservation if it was unspent, and reports whether anything changed. |
| `Wallet.Wallet.MarkSpentByTx` | wallet/wallet.go:940-956 | Marks the first unspent output with the key as spent by a pending transaction and frees its reservation. |
| `Wallet.Wallet.ReconcileUnconfirmedSpends` | wallet/wallet.go:961-1003 | Restores exactly the outputs whose pending spender is gone, and counts them. |
| `Wallet.Wallet.RewindToHeight` | wallet/wallet.go:1292-1315 | Drops outputs above the height, unspends spends above it, lowers the synced height, and counts what was dropped. |
| `Wallet.Wallet.ReleaseInputLease` | wallet/wallet.go:1263-1274 | Removes exactly the reservations of that lease. |
| `Wallet.Wallet.Candidates` | wallet/wallet.go:1030-1048 | Exactly the unspent, mature, unreserved and unfiltered outputs. |
| `Wallet.Wallet.ReserveMatureInputs` | wallet/wallet.go:1008-1084 | A grant reserves distinct usable outputs that reach the target, one to 256, under the next lease, those that coin selection prefers, and is made exactly when coin selection succeeds on the usable outputs; a denial gives its reason and only sweeps expired leases; a payable positive target is granted if the usable amounts stay below 2^64. |
| `Wallet.Wallet.ReserveAllMatureInputs` | wallet/wallet.go:1087-1149 | Grants exactly all usable outputs, and denies exactly when there are none. |
| `Wallet.Wallet.ReserveSpecificInputs` | wallet/wallet.go:1159-1252 | Grants the named outputs, in order, exactly when they are non-empty, distinct and all usable; otherwise none. |
| `WalletModel.RewindUndoesScan` | wallet/wallet.go:1292-1315 | Rewinding to h after scanning above h restores the outputs exactly if and only if the scan promoted no pending spend. |
| `WalletModel.RewoundExactly` | wallet/wallet.go:1292-1315 | Rewinding to h keeps exactly the outputs from h or below, in order, and makes unspent exactly those of them that were spent above h. |
| `WalletModel.PendingSpendForgotten` | wallet/wallet.go:1292-1315 | An output with a pending spend that a block above h confirms comes back from the rewind to h as unspent. |
| `WalletModel.NothingToPromote` | wallet/wallet.go:912-936 | Without pending spends a scan promotes nothing. |
| `WalletModel.RescanForgetsBranch` | wallet/scanner.go:215-224 | Scan, rewind and scan of another branch gives the same outputs as scanning only the other branch. |
| `Scanner.BuildIndex` | wallet/scanner.go:202-212 | The index lists every first output with its key that may still be confirmed, under its image. |
| `Scanner.SpendImage` | wallet/scanner.go:187-196 | Confirms exactly the first output of each key with that image, counting the new confirmations. |
| `Scanner.FirstsSuffice` | wallet/wallet.go:912-936 | Confirming first outputs confirms all users of an image exactly when every unconfirmed one is the first with its key. |
| `Scanner.SharedKeyStaysUnspent` | wallet/wallet.go:912-936 | Of two outputs with one key the second stays as it was. |
| `Scanner.OnlyFirstsChange` | wallet/wallet.go:912-936 | Scanning any blocks leaves every output with an earlier output's key as it was. |
| `Scanner.ScanOne` | wallet/scanner.go:66-200 | Scanning through the index amounts to adding each transaction's owned outputs and then confirming its key images, with exact counts. |
| `Scanner.ScanBlocks` | wallet/scanner.go:215-224 | Scanning blocks is a run of wallet actions, above h if the blocks are, with exact counts and the last height recorded. |
| `Discovery.ScanFindsAll` | wallet/scanner.go:66-224 | After a scan the wallet has every owned output of every block scanned. |
| `Discovery.ScanFindsOnly` | wallet/scanner.go:66-224 | Everything new in the wallet is an owned output of one of the blocks, with its outpoint, amount, key, height and origin. |
| `Discovery.ScanSpends` | wallet/scanner.go:187-224 | The first output with its key is spent by a scan exactly when a block carries its image, at the height of the first that does; otherwise it is left as it was. |
| `Scanner.HitIsPromotion` | wallet/wallet.go:1292-1315 | A scan confirms a pending spend exactly when its blocks carry the image of a first output whose spend is pending. |
| `Scanner.ScanThenRewind` | wallet/wallet.go:1292-1315 | Scanning any blocks above the synced height h and rewinding to h restores outputs, spend marks and synced height exactly when no block confirms a pending spend; without pending spends always. |
| `Commitments.VerifyBalance` | transaction.go:1049-1108 | Accepts exactly non-empty lists whose commitments sum to the outputs plus the fee. |
| `Commitments.SumOpens` | transaction.go:1049-1108 | Commitments add up to the commitment to the sums of amounts and of blindings. |
| `Commitments.BalanceIsConservation` | transaction.go:1049-1108 | For lists under 2^32 long, the check holds exactly when the hidden amounts are conserved as integers and the blindings agree. |
| `Builder.CheckedSum` | wallet/builder.go:20-28 | The sum, or failure exactly on 64-bit overflow. |
| `Builder.SplitChange` | wallet/builder.go:334-349 | The change is split into positive parts, equal except the first, which sum to it: none for no change, else one for a split of at most one, else as many as asked for or as there are units. |
| `Builder.SumBlindings` | wallet/builder.go:622-639 | The sum of the blindings modulo the group order. |
| `Builder.DistributeBlindings` | wallet/builder.go:642-671 | The drawn blindings and the balancing last one sum to the target. |
| `Builder.BuildTransaction` | wallet/builder.go:253-448 | Succeeds exactly when nothing overflows, the inputs cover sends and fee and the cryptography works, and names what stood against it first; then inputs equal recipients plus change plus fee, every recipient is paid in order, change parts are positive, and the balance check accepts. |
| `Builder.FeeCovers` | wallet/builder.go:197-202 | The required fee is at least size times rate exactly when that product fits 64 bits. |
| `Builder.EstimateCovers` | wallet/builder.go:601-619 | The size estimate is never below the serialised length, given range proofs of at most 1024 bytes and full rings with signatures to match. |
| `Builder.EstimateExact` | wallet/builder.go:601-619 | It is the serialised length when every range proof has 1024 bytes. |
| `Builder.RateOnBytes` | mempool.go:125-129 | A fee at rate times estimate passes the mempool's fee-rate test at that rate. |
| `Builder.PaymentMeetsRate` | wallet/builder.go:197-202 | A built payment, in the form it is sent, passes the mempool's fee-rate test at its rate unless the fee product overflows. |
| `Builder.Transfer` | wallet/builder.go:138-206 | A built payment is sound, accepted by the balance check, spends the one to 256 inputs that coin selection prefers among what was usable at its last attempt, held under one new lease; its fee is settled by at most four attempts, the first for the least fee and each later one for what the one before called for, and without overflow it pays the rate on its own estimate; a failure has its exact reason, every lease taken is given back and only expired ones are gone. |
| `Builder.FeeForIs` | wallet/builder.go:601-619 | The fee for given numbers of inputs and outputs is max(MinFee, rate times bytes modulo 2^64), with bytes 49 + 1228 per output + 168 + 128 ring per input. |
| `Builder.CallsForIs` | wallet/builder.go:191-198 | An attempt calls for that fee on its own inputs, with an output for change exactly when there is change. |
| `Builder.FeeIsCalledFor` | wallet/builder.go:165-203 | The fee settled on is MinFee or what one of the attempts called for. |
| `Builder.FeeSuffices` | wallet/builder.go:165-203 | No attempt called for more than the fee settled on. |
| `Builder.TransferWithInputs` | wallet/builder.go:212-247 | Succeeds exactly when there are recipients and inputs, nothing overflows, the inputs cover recipients and fee and the cryptography works; the payment is sound, accepted by the balance check and pays exactly the fee required for its inputs, recipients and split; on failure exactly the caller's lease is released. |
| `Builder.TransferAll` | wallet/builder.go:451-594 | A sweep spends all usable outputs, at most 256, into one positive output with no change and exactly the required fee; it succeeds exactly when there are usable outputs, not more than 256, whose sum fits 64 bits and exceeds the fee, and the cryptography works; on failure its lease is given back. |

## Left out

- Chain.Chain.ProcessBlock: the exact condition for adoption is for a cache that holds the recent main chain; without it, as after a truncation or a switch that lowers the height, a sufficient one (`Reachable`) and a necessary one (a branch no longer than the cache) are stated; blocks of height 0 are handled as the source does, but the genesis block of a new chain goes through `AddGenesis`.
- Chain.Chain.Load: of a store that is not valid it says only what a successful load has found.
- Chain.Chain.Validate: version, size, future-timestamp, checkpoint pinning, proof of work, Merkle root, reward, signature, range-proof and ring-membership checks are one input; ring membership is checked by the source against the main chain, not the branch.
- Builder.Transfer: gives the exact reason of a failure in terms of its attempts, but does not promise success when funds suffice, because after the fourth attempt the source builds with a fee its inputs were not selected for; key derivation, memos, ring selection and signing are one outcome.
- Mempool.Mempool.AddTransaction: parsing, transaction validation and the caller's fee are inputs; no claim that a failed call leaves the pool unchanged.
- Mempool.Mempool.OnBlockDisconnected: no claim about the pool's caps, which the source does not check here.
- ChainModel.FinalityOnRuns: only on runs whose height never falls; nothing is claimed once a heavier but shorter branch has lowered it.
- ChainModel.HeaviestOnRuns: only without truncation, after which removed blocks stay stored.
- Stranded.SpentStaysPooled: at a capacity of exactly 1001 its last switch needs the recent chain cached, and at exactly 1000 without it nothing is claimed either way.
- Scanner.ScanOne: which outputs are owned, and the key image of a one-time key, are inputs.
- Elliptic-curve, ring-signature, range-proof, SHA3 and Argon2id internals and the foreign-function layer.
- The in-memory timestamp list and the canonical ring index of the chain, which no modelled decision reads.
- Locks and goroutines inside one component; the interleaving of chain, mempool updates and admissions is modelled in `Node`.
- The block reward, an exponential in floating point.
- Networking, gossip limits, sync timers, HTTP API, command line, explorer, wallet file encryption, backups, mnemonic, memo envelope and amount formatting: I/O, or easier than the parts above.
