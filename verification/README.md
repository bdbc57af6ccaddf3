# Verification of the Macbeth node's stateful cores

This project models five parts of the Macbeth node (the Botanix chain) in Dafny and proves what they keep over
whole runs.

* **Blockchain tree.** Sidechains over a canonical chain in the database, with redundant indices and a buffer of
  disconnected blocks. Files `Common`, `Blocks`, `BlockBuffer`, `Chains`, `HashDifference`, `BlockIndices`, `Tree`,
  `Finalization`, `Dependents`, `Canonicalization`, `ChainQueries`, `Insertion`, `BlockchainTree`.
* **Peg-in.** Validation of Bitcoin proofs, the checks on mint events and the mint contract, with calls made during its payments. Files
  `Bitcoin`, `PegIn`, `Minting`.
* **Bitcoin checkpoints.** The window of recent checkpoints and its synchronizer. File `Checkpoint`.
* **Network upgrades.** The vote table and the activation manager. Files `VoteTracker`, `Activation`.
* **Pegouts.** The checks before signing, and the rule by which a pegout may be retried, over runs of all that changes
  what a signer keeps. Files `Pegout`, `PegoutMemory`, `PegoutRuns`, `PegoutSigner`.

How it is modelled:

* Hashes of blocks, headers, transactions and Merkle nodes, and tweaked scripts, are free constructors over what they
  commit to. So a hash determines its block, and no block is its own ancestor.
* Objects that the code updates in place are classes. Each has a function `View()` that gives its contents as a value;
  invariants and most lemmas are about that value, and methods tie `View()` to `old(View())`.
* Consensus and execution are an oracle (`Insertion.Verdicts`), the database is the sequence of canonical blocks, and
  the Bitcoin node is whatever it answers during a pass (`Checkpoints.Node`).
* A panic of the code is an outcome (`PegIns.Abort`, `BlockchainTrees.Unreachable`) unless a precondition of the
  method is the very condition it asserts.

Where code and documentation differ, the model follows the code:

* `update_block_hashes` is documented to disconnect what changed. It compares the new hashes with themselves, so it
  finds no change: `BlockIndexing.BlockIndices.UpdateBlockHashes`.
* The removal loop after it never takes an id out of its set, so it would not end if there were one:
  `BlockchainTrees.RemovalEnds`.
* A buffer limit of zero still admits one block: `BlockBuffers.SizeWithinLimit`.
* Unwinding below the last finalized block, and finalizing a number below what the canonical index covers, break the
  tree's invariant. The exact conditions are `Canonicalization.UnwoundWellFormed` and
  `Finalization.FinalizedWellFormed`; `Canonicalization.UnwindingFinalizedBlock` and
  `Canonicalization.FinalizingLowerNumber` give a case of each.
* The synchronizer does not always heal. `Checkpoints.PassesConverge` gives the exact condition, for every state and
  every stable chain. `Checkpoints.LeftoverBlock` is a block left by a failed pass while no block is sufficiently
  confirmed, and `Checkpoints.SameHeightReorganisation` a reorganisation that keeps the height.
* Validation of a peg-in can panic on an output index one past the end: `PegIns.AbortsExactly` says when, and
  `PegIns.PanickingProof` gives a case.
* The node bounds the amount in a mint event by the outputs paid in, but the contract also pays a refund on top of it.
  A mint stays within its backing exactly if its call asks for no more than that: `Minting.WithinBacking`;
  `Minting.RefundAboveBacking` gives a case where it does not.
* A comment on untracking says that a retry will conflict with the untracked transaction. It need not, because only
  tracked ones are looked at: `PegoutMemory.NextSigningExactly` gives the exact condition.
* A signer tracks a transaction only with the requests that are pending on it, although it signs for others.
  `PegoutMemory.SigningRemembers` says when signing remembers, and `PegoutRuns.UnqueuedIsPaidTwice` gives two signings
  after which a pegout can be paid twice.
* Finalized ids are pruned by the time of the request, so a late one is dropped as it is added:
  `PegoutRuns.FinalizedExactly` and `PegoutRuns.FinalizedTooLate`.
* The check of PSBT inputs stops at the first one not in the database: `Pegouts.KnownInputsMatch` and
  `Pegouts.UncheckedInput`.

The main results are `BlockchainTrees.BlockchainTree.Run`, `BlockchainTrees.BlockchainTree.MakeCanonical`,
`BlockchainTrees.BlockchainTree.TryConnectBufferedBlocks`, `Minting.MintLedger.Run`, `Checkpoints.PassesConverge`,
`Activation.VotesAreHistory`, `Activation.ChangesAtMostOnce`, `PegoutMemory.NextSigningExactly` and
`PegoutSigners.Signer.Run`.

## Model

| member | source | states |
|---|---|---|
| BlockchainTrees.BlockchainTree.Run | crates/blockchain-tree/src/blockchain_tree.rs:771-1310 | every run of inserting, canonicalizing, finalizing (numbers not falling) and unwinding (not below the last finalized block) does what each operation specifies, goes only through well-formed trees, and from each of them on never replaces a database block finalized there |
| BlockchainTrees.BlockchainTree.Step | crates/blockchain-tree/src/blockchain_tree.rs:771-1310 | one operation of such a run does what `BlockchainTrees.Did` says, keeps the tree well formed and the database up to the last finalized block, and moves that block only by finalizing |
| BlockchainTrees.BlockchainTree.constructor | crates/blockchain-tree/src/blockchain_tree.rs:117-150 | a new tree is empty over exactly the newest hashes, as many as the larger of its two settings; it is consistent, and well formed exactly if those hashes reach down to the last finalized block |
| BlockchainTrees.BlockchainTree.InsertBlock | crates/blockchain-tree/src/blockchain_tree.rs:771-792 | a known, too old or invalid block changes nothing; a new one is inserted as `Insertion.Inserted` says; the answer is determined in every case; the tree stays well formed |
| BlockchainTrees.BlockchainTree.IsBlockKnown | crates/blockchain-tree/src/blockchain_tree.rs:183-220 | the answer for a canonical, finalized, sidechain or buffered block |
| BlockchainTrees.KnownOrFresh | crates/blockchain-tree/src/blockchain_tree.rs:183-220 | a block gets no such answer exactly if the tree does not hold it and it lies above the last finalized block |
| BlockchainTrees.KnownExactly | crates/blockchain-tree/src/blockchain_tree.rs:183-220 | a sidechain block counts as canonical exactly if it leads down to the last block of the database; a buffered one is answered with its parent and the tip; an unknown one not above the last finalized block fails |
| BlockchainTrees.ExtendsExactly | crates/blockchain-tree/src/blockchain_tree.rs:388-513 | a block that is attached counts as canonical exactly if it sits on the last block of the database, or on the end of a sidechain that leads down to it |
| BlockchainTrees.MissingIsUnknown | crates/blockchain-tree/src/blockchain_tree.rs:358-380 | the block named as missing is held nowhere, and is the parent of the new block or of a buffered one it descends from |
| BlockchainTrees.BlockchainTree.TryInsertValidatedBlock | crates/blockchain-tree/src/blockchain_tree.rs:323-380 | with a connected parent an accepted block is attached with exactly the buffered blocks that can follow it; without one it is buffered, unless its buffered parent does not fit; a rejected block changes nothing |
| BlockchainTrees.BlockchainTree.BufferDisconnected | crates/blockchain-tree/src/blockchain_tree.rs:358-380 | the buffer after a disconnected block, and the missing parent named in the answer |
| BlockchainTrees.BlockchainTree.TryAppendCanonicalChain | crates/blockchain-tree/src/blockchain_tree.rs:388-445 | a block on a database block starts a sidechain if it is accepted, and the attachment says whether it extends the tip |
| BlockchainTrees.BlockchainTree.TryInsertBlockIntoSideChain | crates/blockchain-tree/src/blockchain_tree.rs:451-519 | a block on a sidechain block is appended to that sidechain if it sits on its tip, and otherwise starts a new one |
| BlockchainTrees.BlockchainTree.AttachToSideChain | crates/blockchain-tree/src/blockchain_tree.rs:451-513 | the same before reconnecting: exactly the block is added, and only its children may now be attached |
| BlockchainTrees.BlockchainTree.TryConnectBufferedBlocks | crates/blockchain-tree/src/blockchain_tree.rs:923-938 | one call attaches exactly the buffered descendants all of whose blocks in between are accepted, keeps what does not descend from the block, puts back exactly what is stuck above a rejected block, and terminates |
| Insertion.ConnectingSteps | crates/blockchain-tree/src/blockchain_tree.rs:923-938 | after each block tried, parents first, exactly the attachable ones among those tried are attached and the stuck ones buffered |
| Insertion.ParentOfNext | crates/blockchain-tree/src/blockchain_tree.rs:923-938 | when a listed block is tried, its parent is connected exactly if it is the root or was attachable |
| Insertion.BufferAfterNext | crates/blockchain-tree/src/blockchain_tree.rs:358-380 | trying a listed block adds it to the buffer exactly if it is stuck, and never evicts another one |
| BlockchainTrees.BlockchainTree.AllChainHashes | crates/blockchain-tree/src/blockchain_tree.rs:527-557 | the result is exactly the number-to-hash map of the ancestor path from the sidechain's tip down to its canonical fork |
| ChainQueries.AddHashes | crates/blockchain-tree/src/blockchain_tree.rs:533-545 | adding the hashes of a parent chain that are not above the highest number held adds exactly those of the path, although the chain holds others |
| BlockchainTrees.BlockchainTree.CanonicalFork | crates/blockchain-tree/src/blockchain_tree.rs:565-579 | the result is the canonical block the sidechain leads down to, if the canonical index has it |
| ChainQueries.PathStartsAtFork | crates/blockchain-tree/src/blockchain_tree.rs:565-579 | the canonical fork is the parent of the lowest block of the ancestor path |
| BlockchainTrees.BlockchainTree.FindAllDependentChains | crates/blockchain-tree/src/blockchain_tree.rs:590-618 | whenever sidechains and fork index agree, also while dropped blocks are in no collection, the result is exactly the sidechains whose bases lead down to the block through other sidechains |
| Dependents.VisitedDepend | crates/blockchain-tree/src/blockchain_tree.rs:590-618 | the sidechains visited when the worklist is empty are exactly those that depend on the block |
| Dependents.DependsIsFork | crates/blockchain-tree/src/blockchain_tree.rs:627-658 | for a block that the sidechains lead down to, those that depend on it are exactly those whose fork it is |
| BlockchainTrees.BlockchainTree.InsertUnwoundChain | crates/blockchain-tree/src/blockchain_tree.rs:627-658 | each block of the unwound chain hands its state to exactly the sidechains that fork from it, so to none twice; the early return is never taken and the chain is filed under the next id |
| BlockchainTrees.CutBackIsIndexed | crates/blockchain-tree/src/blockchain_tree.rs:1290-1306 | after a cut the sidechains and indices still agree, although those on dropped blocks have their base in no collection |
| BlockchainTrees.BlockchainTree.FinalizeBlock | crates/blockchain-tree/src/blockchain_tree.rs:800-819 | the removal loop terminates; the sidechains removed are the closure over the canonical blocks left behind, and the indices and the buffer follow; the canonical index keeps exactly what lies within the retained blocks |
| Finalization.RemovedExactly | crates/blockchain-tree/src/blockchain_tree.rs:800-813 | a sidechain is removed exactly if its ancestors lead down to one of the canonical blocks left behind |
| Finalization.FinalizedConsistent | crates/blockchain-tree/src/block_indices.rs:206-248 | finalization restores the agreement of indices and sidechains that removing single blocks breaks midway |
| Finalization.FinalizedKeeps | crates/blockchain-tree/src/blockchain_tree.rs:800-813 | in a well-formed tree the sidechains that stay are exactly those that fork at or above the finalized number, unchanged |
| Finalization.FinalizedWellFormed | crates/blockchain-tree/src/block_indices.rs:311-348 | finalization keeps the tree well formed exactly if the canonical index reaches from the finalized number to the tip, so whenever that number does not fall |
| Canonicalization.FinalizingLowerNumber | crates/blockchain-tree/src/block_indices.rs:311-348 | a well-formed tree that finalizing a lower number leaves ill formed |
| Finalization.ForkIsFinal | crates/blockchain-tree/src/block_indices.rs:20-42 | every sidechain traces back to a canonical block not below the last finalized one |
| Finalization.PurgingSteps | crates/blockchain-tree/src/blockchain_tree.rs:806-811 | removing one pending sidechain keeps the account of what is out, what is pending and what the indices still hold |
| BlockchainTrees.BlockchainTree.UpdateBlockHashes | crates/blockchain-tree/src/blockchain_tree.rs:847-863 | only the canonical index is replaced and no sidechain is reported for removal; the tree stays well formed exactly if the hashes read reach down to the last finalized block |
| BlockchainTrees.RemovalEnds | crates/blockchain-tree/src/blockchain_tree.rs:856-860 | the removal loop, which never takes an id out of its set, ends exactly if the set is empty, and then before its first round |
| BlockchainTrees.BlockchainTree.FindCanonicalHeader | crates/blockchain-tree/src/blockchain_tree.rs:976-1000 | the lookup through index, sidechains and database finds a header exactly for the hashes of the database |
| BlockchainTrees.BlockchainTree.MakeCanonical | crates/blockchain-tree/src/blockchain_tree.rs:1022-1190 | a canonical hash changes nothing and is answered with its header and the highest entry of the canonical index, which is the last block of the database unless the last finalized number is beyond it; an unknown hash changes nothing; for a sidechain block the database becomes the old chain up to the fork followed by exactly the path to the block, the canonical index likewise, no block is lost or added, no unreachable branch is taken, and the tree stays well formed |
| BlockchainTrees.BlockchainTree.SplitAncestors | crates/blockchain-tree/src/blockchain_tree.rs:1062-1095 | the split loop terminates and the pieces merge into the linked path from the canonical fork to the block |
| BlockchainTrees.BlockchainTree.RemoveAndSplitChain | crates/blockchain-tree/src/blockchain_tree.rs:945-967 | the lower part up to the target is returned and the upper part stays under the same id |
| BlockchainTrees.BlockchainTree.CommitPath | crates/blockchain-tree/src/blockchain_tree.rs:1121-1190 | the path is committed on the tip or by a reorganisation, with the outcome of the whole operation |
| BlockchainTrees.BlockchainTree.Reorganize | crates/blockchain-tree/src/blockchain_tree.rs:1153-1180 | the database, the index and the block set are as specified, with the replaced blocks back in the tree as a sidechain |
| Canonicalization.PathComplete | crates/blockchain-tree/src/blockchain_tree.rs:1062-1115 | when no ancestor is left in a sidechain, what was split off is exactly the path from the canonical fork |
| Canonicalization.PromotingSteps | crates/blockchain-tree/src/blockchain_tree.rs:945-967 | splitting off one more ancestor keeps the account of path, remaining sidechains and indices |
| Canonicalization.CommitOnTip | crates/blockchain-tree/src/blockchain_tree.rs:1121-1138 | committing a path on the tip gives the specified, well-formed tree |
| Canonicalization.CommitWithReorg | crates/blockchain-tree/src/blockchain_tree.rs:1139-1181 | committing a path below the tip and filing the dropped blocks gives the specified, well-formed tree |
| BlockchainTrees.BlockchainTree.Unwind | crates/blockchain-tree/src/blockchain_tree.rs:1290-1306 | nothing happens at or above the tip; below it the database and the canonical index are cut and the rest becomes a sidechain, with all its blocks |
| Canonicalization.UnwoundConsistent | crates/blockchain-tree/src/blockchain_tree.rs:1290-1306 | unwinding keeps indices and sidechains in agreement and loses no block |
| Canonicalization.UnwoundWellFormed | crates/blockchain-tree/src/blockchain_tree.rs:1290-1306 | unwinding keeps the tree well formed exactly if it stops at or above the last finalized block |
| Canonicalization.UnwindingFinalizedBlock | crates/blockchain-tree/src/blockchain_tree.rs:1290-1306 | a tree that unwinding below the last finalized block leaves ill formed |
| BlockchainTrees.BlockchainTree.InsertChain | crates/blockchain-tree/src/state.rs:44-98 | a chain is filed under the next id, its blocks and its first block are indexed, and nothing else changes |
| Grouping.GroupsUnique | crates/blockchain-tree/src/block_indices.rs:20-42 | the number and fork indices are determined by the blocks they hold |
| BlockIndexing.BlockIndices.InsertNonForkBlock | crates/blockchain-tree/src/block_indices.rs:103-111 | the block is filed under its number and its sidechain |
| BlockIndexing.BlockIndices.InsertChain | crates/blockchain-tree/src/block_indices.rs:114-124 | the three indices afterwards hold exactly the old members and the chain's |
| BlockIndexing.BlockIndices.UpdateBlockHashes | crates/blockchain-tree/src/block_indices.rs:134-202 | the canonical hashes are replaced and both results are empty for every input |
| HashDifference.Compare | crates/blockchain-tree/src/block_indices.rs:141-190 | the two-pointer walk finds, in order, exactly the old entries absent or changed in the new chain and the new ones absent or changed in the old |
| HashDifference.NothingMissing | crates/blockchain-tree/src/block_indices.rs:134-202 | nothing is missing from a chain that has every entry |
| BlockIndexing.BlockIndices.RemoveBlock | crates/blockchain-tree/src/block_indices.rs:218-248 | the block leaves the indices, the forks on it lose their owner, and their sidechains are returned |
| BlockIndexing.BlockIndices.RemoveChain | crates/blockchain-tree/src/block_indices.rs:206-216 | all blocks of a sidechain leave the indices, and exactly the sidechains that fork from it are returned |
| BlockIndexing.BlockIndices.CanonicalizeBlocks | crates/blockchain-tree/src/block_indices.rs:253-296 | the canonical index is the old one below the first block followed by the blocks, which leave every sidechain index |
| BlockIndexing.BlockIndices.FinalizeCanonicalBlocks | crates/blockchain-tree/src/block_indices.rs:311-348 | the forks on the canonical blocks left behind are dropped and their sidechains returned, and old canonical hashes beyond the retained ones go |
| BlockIndexing.BlockIndices.BlocksToFinalize | crates/blockchain-tree/src/block_indices.rs:316-323 | the hashes collected are exactly the canonical ones from the last finalized block up to the new one |
| BlockIndexing.BlockIndices.UnwindCanonicalChain | crates/blockchain-tree/src/block_indices.rs:303-306 | the canonical index is cut after the given number |
| Chains.SplitChain | crates/evm/execution-types/src/chain.rs:305-352 | the three outcomes of a split, and the two parts of a linked chain by the number of the target |
| Chains.AppendChain | crates/evm/execution-types/src/chain.rs:265-282 | a chain is appended exactly if it starts on the tip |
| Trees.InsertedConsistent | crates/blockchain-tree/src/block_indices.rs:114-124 | indexing a fitting chain keeps owners, number index, fork index and attachment in agreement |
| BlockBuffers.BlockBuffer.InsertBlock | crates/blockchain-tree/src/block_buffer.rs:69-84 | the block is added, at most the least recent other block is evicted, and the four collections still agree |
| BlockBuffers.BlockBuffer.LowestAncestor | crates/blockchain-tree/src/block_buffer.rs:60-66 | the walk ends at the last buffered block on the way down |
| BlockBuffers.LowestAncestorIsRoot | crates/blockchain-tree/src/block_buffer.rs:60-66 | that block is buffered, its parent is not, and the start descends from it |
| BlockBuffers.BlockBuffer.RemoveBlock | crates/blockchain-tree/src/block_buffer.rs:127-158 | the block leaves every collection |
| BlockBuffers.BlockBuffer.RemoveChildren | crates/blockchain-tree/src/block_buffer.rs:161-179 | exactly the descendants of the given parents are removed, each once and after its parent, and the collections agree |
| BlockBuffers.BlockBuffer.RemoveBlockWithChildren | crates/blockchain-tree/src/block_buffer.rs:91-101 | exactly the block and its descendants are removed, each once and after its parent |
| BlockBuffers.BlockBuffer.RemoveOldBlocks | crates/blockchain-tree/src/block_buffer.rs:104-124 | exactly the blocks numbered up to the bound and their descendants are removed |
| BlockBuffers.SizeWithinLimit | crates/blockchain-tree/src/block_buffer.rs:69-84 | in a valid buffer the number of blocks is that of the cache, within a positive limit |
| BlockBuffers.AddedWithEviction | crates/blockchain-tree/src/block_buffer.rs:69-84 | inserting with an eviction leaves four agreeing collections |
| BlockBuffers.DescendsFromOld | crates/blockchain-tree/src/block_buffer.rs:104-124 | descending from the outdated blocks once they are out is the same as being outdated |
| Recency.InsertKeepsOrder | crates/net/network/src/cache.rs:43-53 | what the least-recently-used cache evicts and the order it leaves |
| PegIns.ValidateProof | crates/botanix-authority-peg/src/peg_contract.rs:61-141 | the decision on one proof, with every error and panic in the order of the checks |
| PegIns.Validate | crates/botanix-authority-peg/src/peg_contract.rs:53-145 | the outcome is the sum, or what the first failing proof decides |
| PegIns.VerdictShows | crates/botanix-authority-peg/src/peg_contract.rs:61-141 | the checks accept exactly the proofs that show a payment to the account's gateway script in a block leading up to the commitment, whatever their order |
| PegIns.ErrorMeans | crates/botanix-authority-peg/src/peg_contract.rs:61-141 | a proof that is refused is wrong in the way its error says |
| PegIns.ValidatedExactly | crates/botanix-authority-peg/src/peg_contract.rs:53-145 | a peg-in passes exactly if every proof shows its payment and the sum fits; its value is the exact sum times 10^10 |
| PegIns.AcceptedPinsBlock | crates/botanix-authority-peg/src/peg_contract.rs:73-141 | the first header of an accepted proof is the chain's block at exactly the claimed height, that block holds the transaction, and a coinbase is 100 blocks below the commitment |
| PegIns.AbortsExactly | crates/botanix-authority-peg/src/peg_contract.rs:95-134 | validation panics exactly on an output index one past the end or an overflowing sum; on a chain with 32-bit heights the subtraction of the depth never underflows |
| PegIns.PanickingProof | crates/botanix-authority-peg/src/peg_contract.rs:95-106 | a proof on a chain that passes every check before its index one past the outputs makes validation panic |
| PegIns.CountUpTo | crates/botanix-authority-peg/src/peg_contract.rs:124-131 | the reverse scan finds the last position of the commitment |
| PegIns.FollowOneAnother | crates/botanix-authority-peg/src/peg_contract.rs:114-122 | the scan accepts exactly the linked header lists |
| Bitcoin.LinkedBack | crates/botanix-authority-peg/src/peg_contract.rs:114-136 | linking back from a block of a chain stays on the chain and cannot pass the genesis block |
| Minting.ParseProofs | crates/botanix-authority-peg/src/mint_validation.rs:193-219 | the proofs are returned in order exactly if each decodes, with at most 2016 headers, and no outpoint repeats |
| Minting.CheckLog | crates/ethereum/evm/src/execute.rs:485-616 | an event is accepted exactly if it carries proofs that are alike, distinct and not too long, and all show their payment against the commitment that decides about them, for more than the amount; validating it panics exactly if a proof does |
| Minting.PassesExactly | crates/ethereum/evm/src/execute.rs:485-616 | a version 1 peg-in is decided against the commitment of the block it refers to, one of version 0 without a reference against that of the block being executed, and every other is rejected; it passes exactly if its proofs show the payments and pay more than the amount |
| Minting.OnlyOneDecides | crates/ethereum/evm/src/execute.rs:497-545 | for version 1 proofs the block being executed makes no difference, and for version 0 ones the blocks referred to make none |
| Minting.MintLedger.MintOne | contracts/src/Minting.sol:28-52 | a call succeeds exactly if the height increases, the cost is covered and both payments succeed; its height is recorded before the payments, calls made meanwhile see it and emit first, and a failing call takes back everything since it began |
| Minting.CallsAreDistinct | contracts/src/Minting.sol:28-52 | over any tree of calls, reentrant ones included, the heights emitted for an account are pairwise distinct, above the one recorded before and not above the one recorded after |
| Minting.HigherFirst | contracts/src/Minting.sol:28-52 | they need not rise: a call made during another one emits the higher height first |
| Minting.EventsFromCalls | contracts/src/Minting.sol:41-51 | every event is that of a call whose payments succeeded, and credits its amount less 150000 times the base fee, which is paid as a refund |
| Minting.MintLedger.ExecuteTransaction | crates/ethereum/evm/src/execute.rs:319-407 | a transaction commits exactly if all its mint events pass and its burn events parse, recording what they carry, and is otherwise taken back completely; the node crashes exactly if the first mint event that does not pass panics |
| Minting.PassingIsBacked | crates/ethereum/evm/src/execute.rs:485-616 | a peg-in that passes is backed by distinct outputs of the block at its height that pay its account, and credits less than they hold |
| Minting.OneMintPerOutpoint | crates/botanix-authority-peg/src/mint_validation.rs:193-221 | on a chain where a transaction has one height, one outpoint cannot back two mints |
| Minting.NoDoubleMint | crates/botanix-authority-peg/src/mint_validation.rs:193-221 | all outpoints ever minted for are pairwise distinct |
| Minting.PaidOutIsBounded | contracts/src/Minting.sol:41-51 | the contract pays out, to accounts and refund addresses, exactly what callers asked for; if anything is minted, less is credited than was paid in, and less is paid out than that and the refunds together |
| Minting.WithinBacking | crates/ethereum/evm/src/execute.rs:590-605 | a mint pays out no more than its backing exactly if its call asks for no more, and runs of such mints stay within what was paid in |
| Minting.RefundAboveBacking | crates/ethereum/evm/src/execute.rs:590-605 | a transaction that commits and pays out more than was paid in, because only the event's amount is bounded |
| Minting.MintLedger.Run | crates/ethereum/evm/src/execute.rs:260-425 | in every ledger of every run of transactions no Bitcoin output is minted for twice; if anything is minted, less is credited to accounts than was paid in, and less is paid out in all than was paid in and the refunds together |
| Checkpoints.TryNew | crates/botanix-bitcoin-checkpoint/src/chain.rs:51-96 | when parameters are accepted, which error they cause otherwise, and the window, from the strong depth less the weak count to that depth plus the historical count |
| Checkpoints.BitcoinCheckpointsChain.Push | crates/botanix-bitcoin-checkpoint/src/chain.rs:116-140 | a checkpoint is added exactly if it connects to the newest one, and the oldest one goes when the window is full |
| Checkpoints.Synchronizer.SyncNewBlocks | crates/botanix-bitcoin-checkpoint/src/syncer.rs:125-213 | the window, the last synced height and the result after a pass over whatever the node answers, including a failure at any height |
| Checkpoints.Synchronizer.HandleResult | crates/botanix-bitcoin-checkpoint/src/syncer.rs:375-416 | a stale block resets everything, another failure keeps everything, and both sync again |
| Checkpoints.Synchronizer.Sync | crates/botanix-bitcoin-checkpoint/src/syncer.rs:250-289 | after any passes, through reorganisations and failures, two passes over a stable chain leave exactly its newest confirmed blocks if and only if the state before them heals |
| Checkpoints.PlanIsNewest | crates/botanix-bitcoin-checkpoint/src/syncer.rs:125-188 | the heights fetched end at the highest confirmed block and are those not yet synced as far as there is room |
| Checkpoints.PassKeeps | crates/botanix-bitcoin-checkpoint/src/syncer.rs:125-213 | every pass keeps the window linked, as long as the synced blocks allow and reaching the synced height, whatever the node answers |
| Checkpoints.PassIsExact | crates/botanix-bitcoin-checkpoint/src/syncer.rs:154-213 | a pass over a stable chain syncs exactly if its first block connects, and then the whole window, with blocks never fetched again, is the newest confirmed slice of the chain; otherwise it is stale |
| Checkpoints.TwoPassesConverge | crates/botanix-bitcoin-checkpoint/src/syncer.rs:125-213 | from every reachable state at most two passes over a stable chain that has a confirmed block and is above the last synced height leave the newest min(limit, available) blocks |
| Checkpoints.PassesConverge | crates/botanix-bitcoin-checkpoint/src/syncer.rs:125-213 | from every reachable state and for every stable chain, two or more passes leave the newest blocks if and only if there is a confirmed block and the chain is above the last synced height or the newest checkpoint is its highest confirmed block, or there is none and the window is empty |
| Checkpoints.NotAbove | crates/botanix-bitcoin-checkpoint/src/syncer.rs:130-134 | a chain not above the last synced height is not looked at, so the window is right exactly if its newest block is the chain's highest confirmed one |
| Checkpoints.SameHeightReorganisation | crates/botanix-bitcoin-checkpoint/src/syncer.rs:130-134 | a reorganisation that keeps the height after which no number of passes leaves the right window |
| Checkpoints.DepthIsHeight | crates/botanix-bitcoin-checkpoint/src/chain.rs:165-188 | on such a window depth d is the block at height tip - d + 1, for exactly the depths kept that the chain is high enough for |
| Checkpoints.StrongIsAvailable | crates/botanix-bitcoin-checkpoint/src/chain.rs:190-198 | on such a window the strong checkpoint is the block that deep, there exactly once the chain is high enough |
| Checkpoints.FollowsGrowth | crates/botanix-bitcoin-checkpoint/src/syncer.rs:178-191 | a growing chain is followed without a reset exactly if it grew by no more blocks than the window holds |
| Checkpoints.NothingConfirmed | crates/botanix-bitcoin-checkpoint/src/syncer.rs:136-152 | without a confirmed block a pass leaves the window as it is, so it is right exactly if it is empty |
| Checkpoints.LeftoverBlock | crates/botanix-bitcoin-checkpoint/src/syncer.rs:136-152 | a failed pass and then a shorter chain after which two passes leave a wrong window |
| VoteTracker.RateReachesQuorum | crates/botanix-activation-manager/src/vote_tracker.rs:84-112 | the rounded rate reaches quorum q exactly if 100 times the count exceeds (q - 1) times the total |
| VoteTracker.BothReachQuorum | crates/botanix-activation-manager/src/manager.rs:657-679 | when ayes and compliance both reach the quorum, more than (2q - 102) percent of the total are both |
| VoteTracker.NoQuorumAboveAll | crates/botanix-activation-manager/src/vote_tracker.rs:84-112 | no quorum above 100 is ever reached |
| VoteTracker.VoteWatcher.UpdateUpgradingVote | crates/botanix-activation-manager/src/vote_tracker.rs:29-58 | a vote replaces only one cast at a lower height |
| VoteTracker.VoteWatcher.RemoveUpgradingVotes | crates/botanix-activation-manager/src/vote_tracker.rs:114-121 | exactly the votes cast below the height go, and their number is returned |
| VoteTracker.VoteWatcher.ApprovalRateAyes | crates/botanix-activation-manager/src/vote_tracker.rs:84-97 | the least percentage of the votes, or of the minimum count if that is larger, that the ayes do not exceed |
| VoteTracker.VoteWatcher.ApprovalRateCompliance | crates/botanix-activation-manager/src/vote_tracker.rs:99-112 | the same for compliance, with the same total |
| Activation.ActivationManager.OnPrepareProposal | crates/botanix-activation-manager/src/manager.rs:364-401 | the proposal has the tracked version exactly if the node accepts it, the height is reached, and ayes and compliant votes both exceed (q - 1) percent of the total; otherwise the active one; it carries the tracked version, the node's vote and its compliance |
| Activation.PreparedExactly | crates/botanix-activation-manager/src/manager.rs:364-401 | the same of the specification, with no vote and no conditions where no upgrade is tracked |
| Activation.ActivationManager.OnProcessProposal | crates/botanix-activation-manager/src/manager.rs:425-455 | a version is processed exactly if it is active, or tracked with the upgrade due as for a proposal |
| Activation.ActivationManager.OnFinalizeBlock | crates/botanix-activation-manager/src/manager.rs:482-547 | a block is finalized exactly if it is not above the active version or has the tracked one on an accepting node, which activates it; a block of the tracked version ends the tracking, and above the active version only votes cast later stay |
| Activation.ActivationManager.ForceUpgradeChecked | crates/botanix-activation-manager/src/manager.rs:615-640 | the upgrade is forced exactly if its version matches and the node accepts it, and then that version is active |
| Activation.ActivationManager.GetUpgradePolling | crates/botanix-activation-manager/src/manager.rs:562-581 | ayes, nays and abstentions add up to the total |
| Activation.ActivationManager.Ignore | crates/botanix-activation-manager/src/builder.rs:82-85 | a node that ignores upgrades starts in a legal state without one |
| Activation.ActivationManager.Signal | crates/botanix-activation-manager/src/builder.rs:107-126 | a node that only votes starts in a legal state that does not accept the upgrade |
| Activation.ActivationManager.Accept | crates/botanix-activation-manager/src/builder.rs:156-190 | an accepting node starts in a legal state |
| Activation.ActivationManager.Run | crates/botanix-activation-manager/src/manager.rs:364-640 | every run from a legal state stays legal, with the start version or the tracked one active |
| Activation.ChangesAtMostOnce | crates/botanix-activation-manager/src/manager.rs:482-547 | in a run the active version changes at most once, from the start version to the tracked one, and only on an accepting node |
| Activation.NeverAbove | crates/botanix-activation-manager/src/manager.rs:364-547 | after every run a node that does not accept the upgrade proposes and processes exactly its start version, finalizes exactly what is not above it, and cannot be forced |
| Activation.ProposalsAreAccepted | crates/botanix-activation-manager/src/manager.rs:364-455 | what one node proposes, every node with equal settings and votes processes and finalizes, and that version is then active |
| Activation.ProcessedExactly | crates/botanix-activation-manager/src/manager.rs:425-455 | a version is processed exactly if it is active, or tracked and due by the counts of votes; above the active version more than (2q - 102) percent of the total then voted for it and comply |
| Activation.TableIsHistory | crates/botanix-activation-manager/src/manager.rs:700-741 | while no finalized block is above the active version, the vote table is each proposer's latest effective vote within the retention period, recomputed from the history |
| Activation.VotesAreHistory | crates/botanix-activation-manager/src/manager.rs:700-741 | a validator is an aye, a nay or compliant exactly if their latest block within the retention period carries a payload of the tracked version that says so; any other validator with such a block abstains and does not comply, and one without is not in the table |
| Activation.TableUnique | crates/botanix-activation-manager/src/vote_tracker.rs:29-58 | the history determines the table |
| Activation.SameTables | crates/botanix-activation-manager/src/manager.rs:700-741 | nodes that track one version with one retention period hold the same table in every mode |
| Pegouts.HasConflictingInput | bin/btc-server/src/util.rs:538-562 | passes exactly if every id decodes and the transaction spends an input of every tracked transaction with a request for one of its pegouts |
| PegoutSigners.Signer.ValidateOutputs | bin/btc-server/src/util.rs:425-507 | passes exactly for outputs that are distinct pegouts not finalized and at most one valid change output; each error means what it says, and a finalized pegout is no longer pending |
| Pegouts.ScanOutputs | bin/btc-server/src/util.rs:446-464 | the ids in order and the position of the change output, or the first problem |
| PegoutSigners.Signer.ValidatePsbt | bin/btc-server/src/util.rs:263-389 | passes exactly if the PSBT is signable at the stage: conflicts, outputs, fee, commitments, signatures, extraction and inputs; each error means what it says |
| Pegouts.SignableMeans | bin/btc-server/src/util.rs:263-389 | a signable PSBT pays distinct pegouts not finalized, with at most one other output, to the signers; known inputs are right if they come first, and commitments and signatures are as the round needs |
| Pegouts.FeeExactly | bin/btc-server/src/util.rs:284-291 | the fee is what the outputs leave of the inputs exactly if these are known, in range and enough, and negative exactly if they are known and in range but not enough |
| Pegouts.FeeIsBounded | bin/btc-server/src/util.rs:284-300 | a signable PSBT gives all the outputs it spends, and spends no less than it pays and at most twice as much |
| Pegouts.CheckRound | bin/btc-server/src/util.rs:307-356 | passes exactly if the commitments and signatures are as many, and from the same signers, as the stage asks for |
| Pegouts.CheckInputs | bin/btc-server/src/util.rs:358-386 | passes exactly if the inputs before the first unknown one match the database |
| Pegouts.KnownInputsMatch | bin/btc-server/src/util.rs:358-386 | if the known inputs come first, this checks every known input |
| Pegouts.UncheckedInput | bin/btc-server/src/util.rs:358-386 | any signable PSBT with a known input after an unknown one can be changed to give another script for the known one, and is still signable |
| PegoutSigners.Signer.Sign | bin/btc-server/src/bin/main.rs:1181-1312 | in round 2 exactly the PSBTs are signed that are signable, get a share, have at most 101 outputs and serve the pending requests; the record has the requests that are pending, replaces one of the same id, and empties what is pending unless this is the coordinator; a request not served panics |
| PegoutSigners.Signer.Queue | bin/btc-server/src/bin/main.rs:771-833 | without anything to spend nothing changes; otherwise the requests not finalized or tracked are stored, a single one over what is pending and several behind it |
| PegoutRuns.QueuedExactly | bin/btc-server/src/bin/main.rs:806-832 | exactly the pegouts asked for that are neither finalized nor tracked become pending, each with its first request; one that is pending keeps its own unless it is the only one stored |
| PegoutSigners.Signer.StorePending | bin/btc-server/src/database/mod.rs:1041-1081 | one request replaces what is pending, of several each is kept that is the first for its pegout and not pending |
| PegoutSigners.Signer.Untrack | bin/btc-server/src/pegout_scheduler/mod.rs:408-421 | the transaction is no longer tracked, nothing is queued again, and an unknown one is not found |
| PegoutSigners.Signer.Drop | bin/btc-server/src/pegout_scheduler/mod.rs:441-458 | after dropping a tracked transaction a pegout is pending exactly if it was or the transaction has a request for it; one that was pending keeps its request unless the transaction has only one; an unknown transaction changes nothing |
| PegoutRuns.DroppedExactly | bin/btc-server/src/pegout_scheduler/mod.rs:426-458 | the same of the specification, and nothing else changes |
| PegoutSigners.Signer.Finish | bin/btc-server/src/bin/main.rs:1342-1418 | a transaction the node takes, or already has, leaves its pegouts no longer pending; a rejected one is untracked with nothing queued again, after inputs found spent have left the database |
| PegoutSigners.Signer.RemoveSpent | bin/btc-server/src/bin/main.rs:2323-2356 | exactly the inputs the node no longer has leave the database |
| PegoutSigners.Signer.FinalizeBlock | bin/btc-server/src/pegout_scheduler/mod.rs:462-597 | tracked transactions that an input of the block comes from are dropped, those of the block that are left are finalized in order, and all inputs leave the database; before the first unknown transaction only change is put back, and nothing after it happens |
| PegoutSigners.Signer.CollectInputs | bin/btc-server/src/pegout_scheduler/mod.rs:469-511 | passes exactly if every transaction is tracked, with all their inputs; otherwise only the change of those before the first unknown one is put back |
| PegoutSigners.Signer.FinalizeIds | bin/btc-server/src/pegout_scheduler/mod.rs:538-582 | the transactions still tracked add the ids of their requests one after the other, each pruning what is too old, and are no longer tracked |
| PegoutSigners.Signer.PruneFinalized | bin/btc-server/src/database/mod.rs:1319-1364 | exactly the ids with a time before the last ninety days go, and those without a time get the present one |
| PegoutRuns.AgedExactly | bin/btc-server/src/database/mod.rs:1319-1344 | an id is too old exactly if its time is more than ninety days ago |
| PegoutRuns.FinalizedExactly | bin/btc-server/src/pegout_scheduler/mod.rs:538-582 | which ids are final after a block: those before it that are not too old or were not pruned, and those of a request that is not too old unless an old entry stands in its way |
| PegoutRuns.FinalizedTooLate | bin/btc-server/src/pegout_scheduler/mod.rs:541-576 | a pegout whose request is older than ninety days when its transaction is finalized is forgotten at once, and one that pays it again and does not conflict is signed |
| PegoutMemory.RememberedConflicts | bin/btc-server/src/util.rs:538-562 | while the id is finalized, or a tracked transaction with a request for it spends only outputs that an earlier one spends, whatever is signable for it conflicts with the earlier one |
| PegoutMemory.ForgottenIsSigned | bin/btc-server/src/util.rs:263-389 | otherwise a transaction that pays the pegout, does not conflict with the earlier one and has its fee and commitments in order is signed in round 2 |
| PegoutMemory.NextSigningExactly | bin/btc-server/src/util.rs:538-562 | whatever is signed next, all that is signed for a pegout stays in conflict if and only if all of it is remembered |
| PegoutMemory.SigningRemembers | bin/btc-server/src/bin/main.rs:1275-1309 | signing remembers what it signs if and only if the pegout was pending or another record covers it, and forgets an earlier transaction if and only if that rested on the replaced record alone and the new one has no request for the pegout |
| PegoutRuns.RemembersExactly | bin/btc-server/src/pegout_scheduler/mod.rs:408-597 | for every action, what is remembered after it in terms of what is kept before it |
| PegoutRuns.UnqueuedIsPaidTwice | bin/btc-server/src/bin/main.rs:1275-1309 | for a pegout that is not pending, finalized or tracked, two signings alone leave two signed transactions that pay it and that a ledger can both confirm |
| PegoutRuns.SignedConflict | bin/btc-server/src/util.rs:538-562 | in a run that never forgets a pegout when it signs for it, all that is signed for it is pairwise in conflict |
| PegoutRuns.CarefulRemembers | bin/btc-server/src/bin/main.rs:1275-1309 | in a run where the pegout is pending whenever something is signed for it, none of its transactions is untracked or replaced without it, and none of its requests or entries is too old at a finalization, all that is signed for it stays remembered |
| Pegouts.PaidAtMostOnce | bin/btc-server/src/pegout_scheduler/mod.rs:72-111 | a ledger that spends each output once confirms at most one of conflicting transactions for a pegout, and that one carries the id once |
| Pegouts.PaidOnceExactly | bin/btc-server/src/pegout_scheduler/mod.rs:72-111 | every ledger that spends each output once pays a pegout at most once if and only if all that is signed for it is in conflict |
| PegoutSigners.Signer.Act | bin/btc-server/src/pegout_scheduler/mod.rs:408-597 | one action of a run does what `PegoutRuns.Acted` says |
| PegoutSigners.Signer.Run | bin/btc-server/src/bin/main.rs:1181-1312 | over every run of validating, signing, queueing, broadcasting, dropping, finalizing and resetting, a ledger that spends each output once pays each pegout at most once that is never forgotten, and a pegout that every action is careful about never is |

## Left out

- EVM execution, state roots, trie updates, bundle states and state prepending: an accept or reject oracle stands for them.
- The states that `insert_unwound_chain` prepends: the model has which sidechains get them, not the states.
- Failures of database commits and reverts, static files, metrics, notifications and locks.
- `buffer_block` and `connect_buffered_blocks_to_hashes`: they skip the check for known blocks and are no steps of a run.
- `pending_blocks` and other read-only queries on the indices: they would only add easy members.
- The insertion order of `fork_to_child`: the index maps to a set.
- The number check in `try_insert_validated_block` against a canonical parent: the branch before it has already returned for those.
- The checks by total difficulty that a block is past the merge.
- BlockIndexing.BlockIndices.RemoveBlocks: states only that nothing changes for an empty list, because no other list can reach it.
- Codecs, ABI decoding, Merkle parsing beyond the symbolic tree, FROST and taproot arithmetic: abstract functions without collisions.
- Restarts of the synchronizer on a non-empty window: runs start from an empty one.
- A vote store that already holds votes when the manager is built.
- The in-memory indices, memory pool polling and block queue of the pegout scheduler: only what they do to the store.
- Nonces and sessions of signing, and the values in pegout requests: whether a signer gives a share is an input.
- The clock within the finalization of a block: it is read once.
- Fee-rate conversion, configuration, RPC clients, CLI and generated bindings.
