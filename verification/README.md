# vprogs, verified

A Dafny model of the stateful core of vprogs: the sparse Merkle tree with its updater, proof
builder and verifier walk, the dataflow scheduler, the multi-version store with rollback,
pruning and cancellation, the canonical-chain oracle and its ring, the write worker, the
batch and bundle verifiers, the bundling worker of the aggregate prover, and the streaming
Merkle builder. `dafny verify dfyconfig.toml` checks everything.

What it establishes:

- **Sparse Merkle tree.** Three computations of one canonical shortcut tree agree: the
  versioned updater from any clean view, the proof builder, and the verifier's walk. A proof
  built for at least one key gives the canonical roots of the map and of every updated map;
  any accepted proof claims only entries of the map. With deletions a later update can commit
  a deleted entry again; the exact condition for staying clean is proved beside the
  counterexample.
- **Scheduler.** Over every interleaving of disk reads, executions and hand-offs each
  transaction reads, and each resource ends with, the values of a serial run, in which a failed
  transaction leaves everything as it was and a successful one leaves its outputs; wake-ups are
  neither lost nor doubled, the number of steps is bounded, and every run can be carried on
  until all that was scheduled has run. After a rollback the later transactions read serially
  exactly when the resources they name show the target's state. They do if the target is
  committed and the diffs of each resource were submitted in batch order; the machine does not
  keep that order, and a run that breaks it shows a later transaction reading what was rolled
  back.
- **Store.** In any order of diffs, a resource shows the target's state after a rollback
  exactly if the entry found for it leads back there and the target's data has landed,
  orphaned ids interleaved. With diffs in batch order every rollback to a committed batch
  restores it; out of order a committed target can be missed. Pruning deletes exactly the
  versions that canonical batches replaced and those of orphans, and changes neither what is
  shown nor what is restored; the pause handshake keeps the pruner off what a rollback
  needs. A batch is canceled only if a later rollback went below it, and exactly then unless a
  walk missed its context behind one that had been dropped.
- **Canonical chain.** Bit buckets, hot zone and shared ring refine a plain set of ids, and a
  held snapshot never changes its answers. The chain goes on as the plain set with an appended
  id exactly if the id lies in or above the tail bucket, or in the bucket below it with the
  body ring ending there and nothing canonical in that bucket and the one before. A new block
  always fits. A returning one that does not either takes the ids of two buckets out of the
  answers at once, or is itself lost to the next new block.
- **Proving.** An accepted batch is one honest run of its transactions. Over a built proof it
  commits the canonical roots exactly if a key was queried or the state is empty: a batch
  whose transactions name no resource commits the empty root whatever the state. An accepted
  bundle has the exits and deposit of one run of all its batches, and settles that run if
  every batch commits its roots; an honest bundle that puts a resource-free batch next to one
  with resources, over a state that is not empty, is refused. Over whole runs, bundling loses
  a batch only to a settlement that covers it, to its cancellation, or to a shutdown or
  missing settlement watch. The settled lane tip records every transaction of the bundle. The
  write worker's batching cannot be observed, and over every run of its commands its cells hold
  the columns of the versioned store.
- **Streaming Merkle root.** The binary-counter stack computes the padded tree.

## How it is modelled

Hashes are free terms, so they are injective and domain-separated. Resource ids are 256-bit
strings. Objects whose methods update fields are classes; in-place array passes keep their
arrays; shared reference-counted cells are indices into a store value. Concurrent parts are
state machines whose steps are the atomic operations of the source, interleaved freely under
sequential consistency. Panics and failed assertions of the verifiers are `None`. The answers
of clocks, queues, cancellation flags, readiness checks and inner proof checks are inputs.

Where documentation and code differ the code is followed: `required_depth` promises a root at
depth 1 for an empty tree (core/merkle-tree/src/streaming_builder.rs:61-63), while `finalize`
returns the level-0 empty hash for it.

## Model

| member | source | states |
|---|---|---|
| `SmtKeys.NextBitAscends` | core/smt/src/proving/traversal.rs:76-81 | Of two ids below one position, the smaller never has the larger next bit. |
| `SmtKeys.PartitionPointIsExact` | core/smt/src/proving/traversal.rs:76-81 | On a partitioned slice the binary search returns the boundary. |
| `SmtKeys.SplitIsExact` | core/smt/src/proving/traversal.rs:76-81 | Ascending ids below one position split exactly into those with next bit 0 and those with next bit 1, each half below its child. |
| `SmtTree.CombineIsCanonical` | core/smt/src/hashed_node.rs:46-68 | Promotion algebra: combining the canonical summaries of the children gives the canonical summary of the parent, whatever the number of entries; at a fork `combine` and `internal` coincide. |
| `SmtTree.RootFollowsTheBits` | core/smt/src/hashed_node.rs:46-68 | Going down the canonical root by the bits of a position, left for 0 and right for 1, leads to what lies there: its hash, and its kind as its parent committed it. |
| `SmtTree.RootLeadsToEveryEntry` | core/smt/src/hashed_node.rs:38-68 | Going down by all bits of a key ends at the leaf of the key and a value if and only if the map has that entry. |
| `SmtTree.KindOfCanon` | core/smt/src/hashed_node.rs:38-68 | The kind byte of a canonical summary tells whether none, one or several entries lie below. |
| `SmtTree.CanonCommitsExactlyItsEntries` | core/smt/src/hashed_node.rs:38-68 | Under ideal hashing the canonical hash at a position commits an entry exactly when the map has it there. |
| `SmtTree.CanonRootIsInjective` | core/smt/src/hashed_node.rs:38-68 | Equal canonical roots mean equal maps. |
| `SmtTree.EmptyRootMeansEmptyMap` | core/smt/src/hashed_node.rs:38-68 | The empty root is the root of the empty map and of no other. |
| `SmtUpdater.SortByKey` | core/smt/src/updater.rs:31 | The result is ordered by key, a permutation of the input, and gives each key the same last write. |
| `SmtUpdater.DedupByKey` | core/smt/src/updater.rs:32-39 | Deduplication keeps one commitment per key, with the value the key was given last. |
| `SmtUpdater.Updater.Apply` | core/smt/src/updater.rs:22-54 | From a clean view of any map the returned root is the canonical root of the map with the last writes applied, and committing the writes makes exactly its canonical tree readable; the depth assertion is never hit. |
| `SmtUpdater.Updater.UpdateSubtree` | core/smt/src/updater.rs:66-96 | Returns the node, and appends the writes, of the update function for its subtree. |
| `SmtUpdater.Updater.ResolveLeaves` | core/smt/src/updater.rs:99-113 | The same for a slice of commitments where no node is stored. |
| `SmtUpdater.Updater.UpdateAtLeaf` | core/smt/src/updater.rs:116-149 | The same at a stored shortcut leaf: replace, delete, keep or split it. |
| `SmtUpdater.Updater.SplitAndRecurse` | core/smt/src/updater.rs:152-182 | The same where both halves are updated: bubble a lone leaf up, drop an emptied node, or write both children. |
| `SmtUpdater.Updater.WriteChild` | core/smt/src/updater.rs:185-201 | Writes a child, or a tombstone over a node that disappeared, and returns its summary. |
| `SmtUpdateProofs.UpdateIsCorrect` | core/smt/src/updater.rs:66-201 | From a clean view of a map, updating any subtree with any commitments (deletions included) yields the canonical node of the updated map there, and after the writes exactly its canonical subtree is readable. |
| `SmtUpdateProofs.JoinedNodeIsCanonical` | core/smt/src/updater.rs:152-182 | Joining canonical child nodes gives the canonical parent; a leaf bubbles up exactly when the parent is no fork. |
| `SmtUpdateProofs.LastWriteWins` | core/smt/src/updater.rs:22-54 | Of several commitments for a key exactly the last one decides. |
| `SmtUpdateProofs.WritesDecide` | core/smt/src/updater.rs:22-54 | A write of the empty hash removes its key, any other sets it, and keys not written stay. |
| `SmtHistory.CleanViewsMirror` | core/smt/src/updater.rs:57-63 | A clean view of a map reads exactly the map's canonical tree and nothing else. |
| `SmtHistory.UpdateFromCleanView` | core/smt/src/updater.rs:22-201 | One update from any clean view: canonical root of the updated map, and exactly its canonical tree readable from the root. |
| `SmtHistory.StaysCleanExactlyWhenForksAreKept` | core/smt/src/updater.rs:168-175 | The view after an update is clean if and only if no prefix shared by two live keys drops below two. |
| `SmtHistory.NonDeletingKeepsForks` | core/smt/src/updater.rs:66-96 | An update without deletions keeps every fork, hence the view clean. |
| `SmtHistory.HistoryIsCanonical` | core/smt/src/updater.rs:22-201 | After every fork-keeping history the readable tree is the canonical tree of the final map. |
| `SmtHistory.RootDependsOnlyOnTheFinalMap` | core/smt/src/updater.rs:22-201 | Two non-deleting histories have equal roots if and only if they end in the same map. |
| `SmtDeletions.DeletionLeavesTwoLeaves` | core/smt/src/updater.rs:168-175 | Deleting one of two neighbours leaves a correct tree of the rest, but not a clean view: below the leaf that bubbled up, both old children of the lost fork can still be read. |
| `SmtDeletions.InsertResurrects` | core/smt/src/updater.rs:116-149 | An insert over such leftovers commits every stale entry still readable there. |
| `SmtDeletions.DeletionsCanResurrect` | core/smt/src/updater.rs:168-175 | A run theorem with deletions is false: from a clean view of three keys, deleting one and inserting another ends in the root of a map that still holds the deleted key, not of the final map. |
| `SmtDeletions.NeighboursExist` | core/smt/src/updater.rs:168-175 | Concrete ids of that counterexample. |
| `SmtProof.WalkVisitsEveryLeafOnce` | core/smt/src/proving/traversal.rs:25-142 | A walk that succeeds asks for every leaf of its range exactly once, in order, whatever the proof. |
| `SmtProof.WalkCommitsItsLeaves` | core/smt/src/proving/traversal.rs:25-142 | A walk that succeeds commits every live leaf of its range, whatever siblings and topology it was given. |
| `SmtProof.InclusionIsSound` | core/smt/src/proving/proof.rs:68-70 | Any proof at all whose root is the canonical root of a map visits each leaf once and claims only entries of that map. |
| `SmtRoots.PairWalkStartsWithTheWalk` | core/smt/src/proving/traversal.rs:158-196 | The first half of the pair walk is the plain walk: same summary, cursors and visits. |
| `SmtRoots.PrevRootIsSound` | core/smt/src/proving/proof.rs:78-88 | The same soundness for the first of the two roots of `compute_roots`. |
| `SmtRoots.MembersAreSound` | core/smt/src/proving/proof.rs:55-135 | If the first computed root is the canonical root of a map, every member that resolves to a value has that value in the map. |
| `SmtLeafPost.SubtreeHashIsCanonical` | core/smt/src/proving/proof.rs:260-279 | The hash synthesised from sorted live entries is the canonical summary of the map of these entries. |
| `SmtLeafPost.ScanRecordsItsWrites` | core/smt/src/proving/proof.rs:207-257 | The pass over a leaf's members records exactly their last writes: own value, synthesis flag, change flag and live entries. |
| `SmtLeafPost.PostIsCanonical` | core/smt/src/proving/proof.rs:183-205 | The post-state summary of a leaf is the canonical summary of the updated map at its position. |
| `SmtPlan.WalkFollowsPlan` | core/smt/src/proving/traversal.rs:158-196 | On a proof that flattens a collection plan, the cursor-driven pair walk evaluates the plan. |
| `SmtBuild.PlanEvaluates` | core/smt/src/proving/proof_builder.rs:87-163 | Along the nodes of a represented map the plan evaluates to the canonical summaries before and after any writes to the queried keys. |
| `SmtBuild.EmptyPlanEvaluates` | core/smt/src/proving/proof_builder.rs:109-129 | The same where no node is stored and one empty leaf per key is emitted. |
| `SmtBuild.BuiltProofGivesBothRoots` | core/smt/src/proving/proof.rs:78-88 | Completeness: for every map and every assignment of new value hashes, deletions included, a built proof makes `compute_roots` return the canonical root of the map and of the updated map. |
| `SmtBuild.BuiltProofDecidesItsMembers` | core/smt/src/proving/proof.rs:55-134 | Every member of a built proof resolves to the queried key's value in the map; absence is decided as well as presence. |
| `SmtBuilder.SortOrder` | core/smt/src/proving/proof_builder.rs:37-57 | The sort order is an order-giving permutation of the input positions. |
| `SmtBuilder.SortUnique` | core/smt/src/proving/proof_builder.rs:37-57 | Succeeds if and only if no key occurs twice; the result is the sorted input with the permutation that sorted it. |
| `SmtBuilder.ProofBuilder.constructor` | core/smt/src/proving/proof_builder.rs:59-79 | The key table starts with the queried keys in input order. |
| `SmtBuilder.ProofBuilder.InternKey` | core/smt/src/proving/proof_builder.rs:194-203 | A key gets one index in the table, old or new, and old indices stay. |
| `SmtBuilder.ProofBuilder.EmitLeaf` | core/smt/src/proving/proof_builder.rs:184-191 | Appends one leaf and makes it the answer of its run of slots. |
| `SmtBuilder.ProofBuilder.Collect` | core/smt/src/proving/proof_builder.rs:87-106 | Appends exactly the flattened plan of the subtree to leaves, siblings and topology, and fills exactly its slots. |
| `SmtBuilder.ProofBuilder.CollectEmpty` | core/smt/src/proving/proof_builder.rs:109-129 | The same for absent keys, split until each has a leaf of its own. |
| `SmtBuilder.ProofBuilder.CollectInternal` | core/smt/src/proving/proof_builder.rs:132-163 | The same at an internal node: both children, or one beside the other's summary. |
| `SmtBuilder.ProofBuilder.ClassifyMemberships` | core/smt/src/proving/proof_builder.rs:166-181 | One membership per queried key in input order, present exactly when its leaf carries the key. |
| `SmtBuilder.Build` | core/smt/src/proving/proof_builder.rs:37-57 | A proof exists if and only if no key is queried twice. With keys it gives both canonical roots for every represented map and all new values and decides its members; without keys its roots are empty, whatever the tree. |
| `SmtTraversal.CountMembers` | core/smt/src/proving/proof.rs:147-156 | First pass: members per leaf, one place to the right; out-of-range members are skipped. |
| `SmtTraversal.SumPrefixes` | core/smt/src/proving/proof.rs:158-161 | Counts become the start of each leaf's group. |
| `SmtTraversal.FillIndices` | core/smt/src/proving/proof.rs:163-173 | Each membership index goes to its leaf's cursor, so groups fill in ascending order. |
| `SmtTraversal.ShiftCursors` | core/smt/src/proving/proof.rs:174-177 | The moved cursors become starts again, in place. |
| `SmtTraversal.MembersByLeaf.constructor` | core/smt/src/proving/proof.rs:143-180 | After all passes every leaf's slice is the ascending list of the members naming it. |
| `SmtTraversal.MembersByLeaf.At` | core/smt/src/proving/members_by_leaf.rs:14-18 | Returns exactly the ascending membership indices of the leaf, for every membership list. |
| `SmtTraversal.ClassifyLeafUpdate` | core/smt/src/proving/proof.rs:207-257 | The loop classifies a leaf as the recursive scan does and leaves its live entries sorted in the buffer. |
| `SmtTraversal.Traversal.Walk` | core/smt/src/proving/traversal.rs:122-142 | The cursor-mutating walk returns the value of the walk function and consumes exactly its siblings and topology bits. |
| `SmtTraversal.Traversal.LeafPair` | core/smt/src/proving/proof.rs:183-205 | Pre- and post-state summaries of one leaf. |
| `SmtTraversal.Traversal.WalkPair` | core/smt/src/proving/traversal.rs:158-196 | The same for the pair walk; equal halves reuse the pre-state summary. |
| `SmtTraversal.RunRoots` | core/smt/src/proving/proof.rs:78-88 | One traversal computes both roots of a proof. |
| `SchedProgram.ChainCarriesValues` | scheduling/scheduler/src/resource.rs:20-40 | In the serial run, what one access to a resource leaves is what the next one reads. |
| `SchedProgram.FailureChangesNothing` | scheduling/scheduler/src/access_handle.rs:65-69 | In the serial run a failed transaction leaves every resource as it was. |
| `SchedProgram.SuccessLeavesItsOutputs` | scheduling/scheduler/src/access_handle.rs:59-63 | A successful one leaves, of each resource, the output of its write access to it, and every other resource as it was. |
| `SchedInvariant.LatestIsSerial` | state/version/src/lib.rs:22-32 | Looking back from a batch, the latest committed value of a resource is its serial value at the start of the batch. |
| `SchedInvariant.DiskHoldsTheSerialValue` | scheduling/scheduler/src/resource_access.rs:111-116 | An access without predecessor (never cached, or evicted after commit) reads from disk the value it would read serially. |
| `SchedInvariant.PerformKeepsAccess` | scheduling/scheduler/src/resource_access.rs:99-183 | Every step of every thread keeps the read, write, diff, hand-off and eviction stages of every access. |
| `SchedRuns.PerformKeepsInv` | scheduling/scheduler/src/resource_access.rs:99-183 | Each atomic step of `connect`, `set_read_state`, `set_written_state` and the count-down keeps the whole invariant. |
| `SchedRuns.ExecuteKeepsInv` | scheduling/scheduler/src/scheduled_transaction.rs:131-158 | Executing an available transaction keeps the invariant; a failed one writes back what it read. |
| `SchedRuns.ScheduleKeepsInv` | scheduling/scheduler/src/scheduler.rs:80-110 | Scheduling a batch, with its chains linked behind cached accesses, keeps the invariant. |
| `SchedRuns.CommitKeepsInv` | scheduling/scheduler/src/scheduled_batch.rs:400-445 | Committing the next processed batch and making its resources evictable keeps the invariant. |
| `SchedRuns.FinishIsOpen` | scheduling/scheduler/src/scheduled_transaction.rs:123-128 | The count-down of pending resources never underflows. |
| `SchedTheorems.RunKeepsInv` | scheduling/scheduler/src/resource_access.rs:99-183 | The invariant holds in every state of every interleaving. |
| `SchedTheorems.SerialEquivalence` | scheduling/scheduler/src/scheduled_transaction.rs:131-158 | In every state of every interleaving each read, each written state, each available transaction's inputs and the committed value of each resource are those of running all transactions one by one in schedule order. |
| `SchedTheorems.HandsOnReadOrOutput` | scheduling/scheduler/src/access_handle.rs:59-69 | Over every interleaving a read access hands on what it read; a write access hands on its output if the transaction succeeded on what it read, and what it read if not. |
| `SchedTheorems.OffersOnce` | scheduling/scheduler/src/scheduled_transaction.rs:123-128 | When the last resource arrives, the transaction becomes available and was neither available nor executed before. |
| `SchedTheorems.ExecutesOnce` | scheduling/scheduler/src/scheduled_transaction.rs:131-158 | No run executes a transaction twice. |
| `SchedTheorems.SlotsAreSetOnce` | scheduling/scheduler/src/resource_access.rs:155-183 | Once set, a read or written state never changes. |
| `SchedTheorems.WrittenMeansHeadNoted` | scheduling/scheduler/src/resource_access.rs:155-183 | If any access of a batch to a resource has written, the batch's first access to it was recorded in the diff. |
| `SchedTheorems.SubmittedDiffsAreComplete` | scheduling/scheduler/src/state_diff.rs:76-86 | In every run a diff submitted for writing has both its states. |
| `SchedTheorems.StuckMeansExecuted` | scheduling/scheduler/src/resource_access.rs:99-109 | If no thread can move, every scheduled transaction has run: no wake-up is lost in the race of `connect` with `set_written_state`. |
| `SchedTheorems.Progress` | scheduling/scheduler/src/resource_access.rs:99-183 | While a scheduled transaction has not run, some thread can take a step. |
| `SchedTheorems.Settled` | scheduling/scheduler/src/scheduled_batch.rs:373-384 | When nothing moves, every access holds its states and the next batch can be committed; once all are committed the next batch can be scheduled, whatever is evicted. |
| `SchedBound.EventsUseWork` | scheduling/scheduler/src/resource_access.rs:99-183 | A measure of the work left falls with every hand-off step and every execution, and no other event raises it. |
| `SchedBound.StepsAreBounded` | scheduling/scheduler/src/resource_access.rs:99-183 | Over every run the steps and executions taken stay within twelve per declared access and one per transaction. |
| `SchedBound.EveryRunSettles` | scheduling/scheduler/src/scheduled_batch.rs:373-384 | Every run can be carried on by steps and executions alone until nothing moves, and then every scheduled transaction has run. |
| `SchedRollback.ResumesSeriallyExactlyWhen` | scheduling/scheduler/src/scheduler.rs:127-173 | Transactions scheduled after a rollback read what a serial run of kept and later transactions gives them if and only if every resource they name starts on the value the kept ones left. |
| `SchedRollback.RollbackStaysSerial` | scheduling/scheduler/src/scheduler.rs:127-173 | After any run, rolling back to a committed batch whose state the disk then shows and running anything, in any interleaving, reads, writes, executes on and commits as if what was rolled back had never been scheduled. |
| `SchedRollback.InFlightTargetIsSerialExactlyWhen` | scheduling/scheduler/src/scheduler.rs:127-173 | After any run, with the target not yet committed and the disk at the last committed batch, all later reads are serial if and only if the batches in between left every resource the later transactions name as it was. |
| `SchedRollback.InFlightTargetIsMissed` | scheduling/scheduler/src/scheduler.rs:161-162 | Two scheduled batches, none committed, the second rolled back: the cleared cache makes a later transaction read the state before the first. |
| `SchedUndo.DiffIsSerial` | scheduling/scheduler/src/state_diff.rs:79-106 | A submitted diff leads from the serial value at the start of its batch to that at its end, whatever else has been submitted. |
| `SchedUndo.RollbackIsSerialExactlyWhen` | scheduling/scheduler/src/scheduler.rs:127-173 | After any run and a rollback to any batch, with the pointers the submitted diffs give, all later reads are serial if and only if each resource the later transactions name has the same serial value at the target and at the first undone batch with an entry, or without one at the committed batch. |
| `SchedUndo.InOrderRollbackStaysSerial` | scheduling/scheduler/src/scheduler.rs:127-173 | With the diffs of each resource submitted in batch order, rolling back to a committed batch and running anything is serially equivalent to never having scheduled what was rolled back. |
| `SchedUndo.SecondSubmitsFirst` | scheduling/scheduler/src/resource_access.rs:173-183 | The order is not kept: a run in which a batch hands its written state on, and the next batch submits its diff before the first one does. |
| `SchedUndo.OutOfOrderDiffIsMissed` | scheduling/scheduler/src/resource_access.rs:173-183 | After that run and the rollback of both batches, a later transaction reads the value the first of them wrote. |
| `VersionedStore.VersionedStore.FromLatestData` | state/version/src/lib.rs:22-32 | The version the latest pointer names and its data, empty if there is none; for a resource that is up to date they are those of one state between the last committed batch and the tip, and with all committed those of the tip. |
| `VersionedStore.VersionedStore.WriteDiff` | scheduling/scheduler/src/state_diff.rs:89-106 | Persists a diff of any in-flight batch in any order. Every other resource is held as before; this one is held right if and only if the version read is the one the batch replaces, and its pointer stays in step if and only if the diff comes in batch order. |
| `VersionedStore.VersionedStore.CommitBatch` | scheduling/scheduler/src/scheduled_batch.rs:400-427 | Moves exactly the pointers of the next batch; what is held right stays so, and each resource of the batch that is held right is up to date afterwards, whatever its pointer showed before. |
| `VersionedStore.VersionedStore.Rollback` | scheduling/scheduler/src/rollback.rs:50-94 | In any order of diffs: each pointer becomes what the first undone batch with an entry for the resource recorded, or stays; data and entries are untouched. A resource held right shows the target's state if and only if that entry leads back to it and its data has landed; one whose diffs came in order stays in step and shows every committed target. |
| `VersionedStore.VersionedStore.UndoBatches` | scheduling/scheduler/src/rollback.rs:70-82 | The reverse loop over the canonical ids leaves each pointer at what the first undone batch with an entry recorded. |
| `VersionedStore.VersionedStore.UndoBatch` | scheduling/scheduler/src/rollback.rs:102-115 | The entries of one batch are applied to its resources and to no other. |
| `VersionedStore.VersionedStore.Prune` | scheduling/scheduler/src/pruning_worker.rs:189-227 | Of the data exactly these go: the version each canonical batch of the range replaced, by its entries, and the own versions of orphans; of the entries exactly those of the range. For a resource held right every version replaced in the range is gone, and no state from its end on changes, neither what is shown nor what is restored. |
| `VersionedStore.VersionedStore.PruneBatch` | scheduling/scheduler/src/pruning_worker.rs:206-227 | The entries of one batch decide: what they name is deleted and nothing else, and they go. |
| `VersionedStore.RollbackKeepsStored` | scheduling/scheduler/src/rollback.rs:50-94 | The columns of the shortened history hold right every resource they held right before, whatever its pointer now names. |
| `VersionedStore.PruneKeepsStored` | scheduling/scheduler/src/pruning_worker.rs:206-227 | What is left after pruning still shows and restores every state from the first kept batch on. |
| `VersionedStore.DroppedIsDead` | scheduling/scheduler/src/pruning_worker.rs:206-227 | What pruning deletes of a resource held right is shown by no state from the end of the range on. |
| `VersionedStore.ReplacedIsDropped` | scheduling/scheduler/src/pruning_worker.rs:216-219 | Every version a batch of the range replaced is among what is deleted. |
| `VersionedStore.ReplacedIsDead` | scheduling/scheduler/src/pruning_worker.rs:216-219 | The version a canonical batch replaced is shown by no state from that batch on. |
| `VersionedStore.ShowsTargetExactlyWhen` | scheduling/scheduler/src/rollback.rs:50-94 | After a rollback pointer and data of a resource show the target's state if and only if no undone batch before the one whose entry was applied changes the resource, up to a deletion of what did not exist, or without an entry its latest pointer named the target already; and the data the target shows is committed, written or a deletion. |
| `VersionedStore.RestoresExactlyWhen` | scheduling/scheduler/src/rollback.rs:67-78 | The latest pointer alone: it names the target's version if and only if the entry leads back there. |
| `VersionedStore.ReadableExactlyWhen` | state/version/src/lib.rs:22-32 | The state after any number of batches can be read if and only if the last change it shows is committed, written or a deletion. |
| `VersionedStore.RollbackStaysInStep` | scheduling/scheduler/src/rollback.rs:50-94 | With diffs in batch order a rollback leaves every pointer at a state whose changes are all on disk, and at the target's state if the target is committed. |
| `VersionedStore.OutOfOrderDiffBreaksTheRollback` | scheduling/scheduler/src/rollback.rs:67-78 | By calls: with batch 1 committed and of batches 2 and 3, both changing a resource, only the later diff written, rolling back to 1 leaves its latest pointer at version 2, which has no data. |
| `VersionedStore.InFlightTargetCanShowMixedState` | scheduling/scheduler/src/rollback.rs:54-58 | Reached by calls on the store: rolling back to a target whose diffs are written but which is not committed leaves one resource at the target and another before it. |
| `PruningHandshake.StepKeepsInv` | scheduling/scheduler/src/pruning_worker.rs:77-93 | Every atomic step of the pruner loop, `pause`, `unpause` and `set_threshold` keeps the handshake invariant. |
| `PruningHandshake.RunKeepsInv` | scheduling/scheduler/src/pruning_worker.rs:148-177 | The invariant holds in every state of every interleaving. |
| `PruningHandshake.PausedMeansSafe` | scheduling/scheduler/src/pruning_worker.rs:77-93 | Once `pause(c)` has returned true and until it is lifted, no batch above `c` has been deleted and no pass under way may delete one, aborted passes included. |
| `PruningHandshake.PassPrunesUpToTheThreshold` | scheduling/scheduler/src/pruning_worker.rs:148-177 | Left alone, a pass deletes exactly up to below the threshold and moves the root there; with nothing to do it changes nothing. |
| `PruningHandshake.PauseIsGrantedExactlyWhen` | scheduling/scheduler/src/pruning_worker.rs:77-93 | A pause is granted if and only if the claimed cursor is not above its ceiling; a pass claimed but not cleared when it comes is called off without deleting. |
| `Cancellation.LowestDecides` | scheduling/scheduler/src/scheduled_batch.rs:116-118 | An index is above the lowest target since some rollback if and only if one of those targets is below it. |
| `Cancellation.CancellationContexts.constructor` | scheduling/scheduler/src/cancellation_context.rs:26-32 | A fresh context cancels nothing. |
| `Cancellation.CancellationContexts.Canceled` | scheduling/scheduler/src/scheduled_batch.rs:116-118 | A batch found canceled has a rollback target below its index since its context was made; for contexts no walk has missed this is an if-and-only-if. |
| `Cancellation.CancellationContexts.Rollback` | scheduling/scheduler/src/cancellation_context.rs:50-56 | Lowers the contexts the walk reaches, opens a context at the target and keeps the exactness of all contexts but those the walk missed; none is missed if and only if no needed parent has been dropped. |
| `Cancellation.CancellationContexts.CanceledParent` | scheduling/scheduler/src/cancellation_context.rs:62-77 | Lowers exactly the contexts from the current one to the first that contains the target, or that can still be reached. |
| `Cancellation.RollbackIsExact` | scheduling/scheduler/src/cancellation_context.rs:50-77 | After a walk every threshold is the lowest target since the context's creation, or below everything it held, except for the contexts the walk missed. |
| `Cancellation.StopsInFullExactlyWhenReachable` | scheduling/scheduler/src/cancellation_context.rs:67-76 | The walk gets as far as it must if and only if no parent up to the context of the target has been dropped. |
| `Cancellation.BlindExactlyWhenUnreachable` | scheduling/scheduler/src/cancellation_context.rs:62-77 | A rollback leaves contexts it should have lowered if and only if a parent up to the context of the target has been dropped. |
| `Cancellation.DroppedContextShieldsItsParents` | scheduling/scheduler/src/cancellation_context.rs:72-76 | Reached by calls: after rollbacks to 10 and 20 and the drop of the context between, the rollback to 5 does not cancel batch 8 of the first context. |
| `CanonicalChain.LocateIsExact` | storage/canonical-chain/src/bucket.rs:52-55 | Bucket and bit of an id determine the id. |
| `CanonicalChain.GroupEdits` | storage/canonical-chain/src/chain.rs:135-140 | The ids above the new tip, grouped by bucket: each exactly once. |
| `CanonicalChain.CanonicalChain.constructor` | storage/canonical-chain/src/chain.rs:167-173 | An empty chain answers the empty set. |
| `CanonicalChain.CanonicalChain.AnswersThePlainSet` | storage/canonical-chain/src/snapshot.rs:60-80 | Every published snapshot, held or current, answers for each id from the finalized floor on as the plain set it stands for. |
| `CanonicalChain.CanonicalChain.Query` | storage/canonical-chain/src/snapshot.rs:60-80 | The bucket lookup answers membership in that set. |
| `CanonicalChain.CanonicalChain.BucketAt` | storage/canonical-chain/src/hot_zone.rs:53-61 | The hot bucket of an index, or a fresh empty one beyond the hot zone. |
| `CanonicalChain.CanonicalChain.RollForward` | storage/canonical-chain/src/hot_zone.rs:26-50 | In any state: upwards the buckets left behind the ring's end are sealed into the body ring; downwards, which only a debug assertion refuses, two empty buckets become the hot zone. |
| `CanonicalChain.CanonicalChain.Append` | storage/canonical-chain/src/chain.rs:109-122 | In any state every bucket of the new snapshot is what the old hot zone and ring give it, plus the id, and every held snapshot answers as before. A chain that stands for a plain set goes on as that set with the id if and only if the append fits; below the tail bucket the answers that are left are stated. |
| `CanonicalChain.GoesOnExactlyWhen` | storage/canonical-chain/src/chain.rs:109-122 | After an append the buckets stand for the plain set with the id, and the ring is ready for the appends to come, if and only if the id fits: a condition on its bucket, the tail bucket, the ring's end and the set. |
| `CanonicalChain.PassedIdIsLost` | storage/canonical-chain/src/hot_zone.rs:38-49 | A returned id whose bucket the ring had passed is answered at first and lost to any append two buckets on, whatever the state. |
| `CanonicalChain.ReturningKeepsTheSetExactlyWhen` | storage/canonical-chain/src/hot_zone.rs:26-50 | The snapshot that an append below the tail bucket publishes answers the plain set with the id if and only if no canonical id from the floor on lies in the bucket of the id or the one before; a later append may still lose the id. |
| `CanonicalChain.ReturnedAnswers` | storage/canonical-chain/src/chain.rs:109-122 | What the snapshot published by such an append answers for every id from the floor on. |
| `CanonicalChain.CanonicalChain.Rollback` | storage/canonical-chain/src/chain.rs:125-155 | In any state the answers lose exactly the ids above the new tip, shallow or deep, every held snapshot answers as before, and a chain that stands for a plain set goes on doing so. |
| `CanonicalChain.CanonicalChain.ClearBits` | storage/canonical-chain/src/chain.rs:142-151 | One bucket is rewritten by copy or by replacement in the forked ring, a pruned one not at all. |
| `CanonicalChain.CanonicalChain.Finalize` | storage/canonical-chain/src/chain.rs:158-163 | The body loses exactly the buckets below that of the id; answers from the new floor on stay, and a chain that stands for a plain set goes on doing so. |
| `CanonicalChain.AppendKeepsAnswers` | storage/canonical-chain/src/chain.rs:109-122 | The in-place write to the shared tail bucket is invisible to every older snapshot. |
| `CanonicalChain.EditKeepsAnswers` | storage/canonical-chain/src/chain.rs:125-155 | Rewriting buckets of the writer's ring is invisible to snapshots on other rings. |
| `CanonicalChain.OnlyDeepEditsReachTheBody` | storage/canonical-chain/src/chain.rs:130-132 | A bucket in the body ring is edited only by a rollback deep enough to have forked it. |
| `CanonicalManager.CanonicalChainManager.Append` | storage/canonical-chain/src/manager.rs:48-61 | A new block gets a fresh id, which always fits; a known one keeps its id and becomes canonical again if it is above the tip. The chain goes on as the plain set with the id if and only if it fits. |
| `CanonicalManager.CanonicalChainManager.Push` | storage/canonical-chain/src/manager.rs:97-102 | Ids are dense and never reused. |
| `CanonicalManager.CanonicalChainManager.Rollback` | storage/canonical-chain/src/manager.rs:64-66 | Rolls the chain back, in any state; log and index stay. |
| `CanonicalManager.CanonicalChainManager.Finalize` | storage/canonical-chain/src/manager.rs:69-79 | Finalizes the chain, whose body loses the buckets below that of the id, and drops exactly the log and index entries of finalized ids. |
| `CanonicalManager.FreshIdsExtendTheChain` | storage/canonical-chain/src/manager.rs:97-102 | A fresh id lies in or above the tail bucket. |
| `CanonicalManager.ReturningBlockErasesItsBucket` | storage/canonical-chain/src/manager.rs:50-53 | Through the manager: after 129 blocks and a rollback to the 120th, the return of block 121 takes block 120 out of the canonical chain. |
| `CanonicalManager.PassedBlockIsLostToTheNext` | storage/canonical-chain/src/manager.rs:48-61 | From every state that stands for a plain set: a returning block whose bucket the ring has passed is canonical after its return and no longer after the next new block. |
| `CanonicalManager.ReturnedBlockIsLostLater` | storage/canonical-chain/src/manager.rs:48-61 | That state arises: 513 blocks, a rollback of them all, block 257 returns and is lost to block 514. |
| `AtomicRing.ReadsLastStored` | core/atomics/src/atomic_ring.rs:47-135 | After any sequence of push, replace, truncate and prune an index reads as the last value stored at it exactly when it is between base and tip. |
| `AtomicRing.AtomicRing.WithCapacity` | core/atomics/src/atomic_ring.rs:28-34 | An empty window over `capacity` slots. |
| `AtomicRing.AtomicRing.Push` | core/atomics/src/atomic_ring.rs:47-64 | The window gains the value at its next index, which is returned; a full array is doubled once. |
| `AtomicRing.AtomicRing.Get` | core/atomics/src/atomic_ring.rs:67-87 | The tagged slot yields the window's value, and none outside it. |
| `AtomicRing.AtomicRing.Replace` | core/atomics/src/atomic_ring.rs:90-96 | Replaces one live value and no other; outside the window nothing happens. |
| `AtomicRing.AtomicRing.TruncateFrom` | core/atomics/src/atomic_ring.rs:122-126 | Drops the window's suffix. |
| `AtomicRing.AtomicRing.PruneBelow` | core/atomics/src/atomic_ring.rs:129-133 | Drops the window's prefix. |
| `AtomicRing.AtomicRing.Grow` | core/atomics/src/atomic_ring.rs:136-152 | Doubling re-maps every live entry and keeps the window. |
| `AtomicRing.AtomicRing.Fork` | core/atomics/src/atomic_ring.rs:99-119 | A new ring with the same window and a slot array of its own. |
| `AtomicRing.AtomicRing.Perform` | core/atomics/src/atomic_ring.rs:47-135 | Each operation on the slots is its operation on the window. |
| `AtomicRing.ForkIsIndependent` | core/atomics/src/atomic_ring.rs:99-119 | Under every interleaving of operations on a ring and its fork, each window is what its own operations make of the forked one. |
| `BatchRuns.DepositIsTheOnlyOne` | zk/abi/src/batch_processor/verifier.rs:241-250 | The carry exists if and only if at most one deposit hash other than zero occurs, and then is that hash. |
| `BatchRuns.CarryOfGroup` | zk/abi/src/batch_aggregator/verifier.rs:177-186 | Carrying the carry of a group equals carrying its members one by one. |
| `BatchRuns.RunLeavesWhatWasLastGiven` | zk/abi/src/batch_processor/verifier.rs:155-177 | After a run a resource has the hash that the last output of a successful transaction gave it, or its first value if none did. |
| `BatchRuns.InputsFollowTheChain` | zk/abi/src/batch_processor/verifier.rs:222-233 | In an honest run each input of each transaction carries the hash the resource was last given before it, earlier resources of the same transaction included. |
| `BatchRuns.ExitsAreThoseOfSuccesses` | zk/abi/src/batch_processor/verifier.rs:130-154 | The exits of a run are those of its successful transactions, each after those before it. |
| `BatchRuns.DepositIsTheOneDeclared` | zk/abi/src/batch_processor/verifier.rs:241-250 | A run has a deposit if and only if its successful transactions name at most one, and then it is that one or zero. |
| `BatchRuns.MergeIndicesAscend` | zk/abi/src/batch_processor/verifier.rs:191-219 | Any two transactions of an honest run have ascending merge indices. |
| `BatchVerifier.CheckSortedQueriedKeys` | core/smt/src/proving/proof.rs:42-52 | Accepts if and only if the key table covers the memberships and its prefix is strictly ascending. |
| `BatchVerifier.MemberValues` | zk/abi/src/batch_processor/verifier.rs:46-48 | The initial value hashes; refused if and only if some member does not resolve. |
| `BatchVerifier.Verifier.VerifiedJournal` | zk/abi/src/batch_processor/verifier.rs:191-219 | A journal passes if and only if it is proven, in merge order, and only goes without execution for an incompatible version. |
| `BatchVerifier.Verifier.VerifiedBatchIdx` | zk/abi/src/batch_processor/verifier.rs:222-233 | A resource passes if and only if its slot's key is its id and its hash is the state's value. |
| `BatchVerifier.Verifier.VerifyResources` | zk/abi/src/batch_processor/verifier.rs:155-177 | Accepts if and only if each input matches the state at that point and outputs are one-to-one; then the tracked hashes are those of the transaction's final state. |
| `BatchVerifier.Verifier.VerifyTx` | zk/abi/src/batch_processor/verifier.rs:130-178 | One journal: accepted if and only if it fits the current state; adds the exits and carries the deposit of a successful transaction only. |
| `BatchVerifier.Verifier.VerifiedActivity` | zk/abi/src/batch_processor/verifier.rs:124-188 | The journals are accepted if and only if they are one honest run from the state; exits, deposit, activity and tracked hashes are those of the whole run. |
| `BatchVerifier.Verifier.VerifyLane` | zk/abi/src/batch_processor/verifier.rs:56-88 | Adds the declared deposit pin; an empty batch leaves the lane tip alone, an expired lane re-anchors. |
| `BatchVerifier.Verifier.CommitBatchTransition` | zk/abi/src/batch_processor/verifier.rs:91-121 | Commits both roots of the proof for the tracked hashes. |
| `BatchVerifier.VerifyBatch` | zk/abi/src/batch_processor/verifier.rs:38-121 | For any proof and any state its members agree with: a batch is accepted if and only if keys are canonical, members resolve, the journals are an honest run from that state, and the walk succeeds; the journal committed is that run's. |
| `BatchVerifier.AcceptedBatchAgrees` | zk/abi/src/batch_processor/verifier.rs:56-88 | Each transaction of an accepted batch is proven, ran in the context of its block or is of a version not run, and deposits what the batch declares or nothing. |
| `BatchVerifier.SomeStateExplains` | zk/abi/src/batch_processor/verifier.rs:46-48 | Every proof with distinct keys has such a state. |
| `BatchVerifier.BatchRootsAreCanonicalExactlyWhen` | zk/abi/src/batch_processor/verifier.rs:91-121 | Over a proof built for a state, an accepted batch commits the canonical roots of that state and of the state its successful transactions leave if and only if a key was queried or the state is empty; otherwise it commits two empty roots. |
| `BatchVerifier.ResourceFreeBatchCommitsTheEmptyRoot` | zk/batch-prover/src/worker.rs:94-109 | Over every non-empty state a batch of one transaction without resources is accepted with the proof built for no key and commits the empty root as the root of that state. |
| `BundleVerifier.Verifier.StreamExits` | zk/abi/src/batch_aggregator/verifier.rs:134-139 | Appends the batch's exits in order. |
| `BundleVerifier.Verifier.VerifyBatches` | zk/abi/src/batch_aggregator/verifier.rs:69-97 | Accepts if and only if all journals are proven and chained and agree on the deposit; accumulates all exits in order. |
| `BundleVerifier.VerifyBundle` | zk/abi/src/batch_aggregator/verifier.rs:50-121 | Refuses exactly the empty, unproven, unchained or deposit-conflicting bundles; otherwise commits first, last, exits and deposit. |
| `BundleVerifier.SettlementOfOne` | zk/abi/src/batch_aggregator/verifier.rs:50-121 | The settlement of one batch has its states, lane tips, exits, deposit and identity. |
| `BundleVerifier.SettlementsCompose` | zk/abi/src/batch_aggregator/verifier.rs:69-121 | Cut anywhere, a bundle settles from where its first part starts to where its second ends; the second starts on the state the first ends on, exits are joined in order, and lane, covenant and image are the same in both. |
| `BundleVerifier.AcceptedBatchCommits` | zk/abi/src/batch_processor/verifier.rs:91-121 | The journal of any accepted batch over a built proof commits its exits and deposit and the roots of its states, or two empty roots if it queried nothing. |
| `BundleVerifier.RootsHoldExactlyWhen` | zk/abi/src/batch_processor/verifier.rs:91-121 | A committed batch shows the canonical roots of its states if and only if it queried a key or ran on the empty state. |
| `BundleVerifier.OneFoldOverAll` | zk/abi/src/batch_aggregator/verifier.rs:69-97 | Exits and deposit of a bundle are one fold over all transactions, wherever the batches are cut. |
| `BundleVerifier.ChainedBatchesRunOn` | zk/abi/src/batch_aggregator/verifier.rs:79-92 | Batches that commit their roots and are chained by them run one after the other: the final state is that of all transactions run from the first batch's state. |
| `BundleVerifier.BundleIsOneRun` | zk/abi/src/batch_aggregator/verifier.rs:69-121 | A settled bundle of accepted batches has the exits and deposit of one run of all their transactions; it settles that run's roots if every batch commits its own, and, for batches that ran one after the other, if and only if the first one does. |
| `BundleVerifier.HonestBundleIsAcceptedExactlyWhen` | zk/abi/src/batch_aggregator/verifier.rs:79-92 | Honest batches run one after the other are accepted as a bundle if and only if no neighbours over a non-empty state differ in whether they queried a key. |
| `BundleVerifier.HonestBundleCanBeRefused` | zk/abi/src/batch_aggregator/verifier.rs:79-92 | A resource-free batch behind one with resources makes an honest bundle refused. |
| `BundleVerifier.ResourceFreeBatchBreaksABundle` | zk/abi/src/batch_aggregator/verifier.rs:79-92 | Over every non-empty state, by calls: a batch with one failed transaction on a resource and a batch with one on none behind it are both accepted, and their bundle is refused. |
| `LaneHistory.BatchIsRecorded` | zk/abi/src/batch_processor/verifier.rs:56-121 | The lane tip a batch commits records all of its transactions, failed ones too, behind what the lane held, or behind the given commitment if the lane had expired; an empty batch leaves tip and score. |
| `LaneHistory.LaneRecordsTheBundle` | zk/abi/src/batch_aggregator/verifier.rs:69-121 | Over every chained bundle whose lane does not expire on the way, the last tip records what the lane held before and then every transaction of the bundle in order. |
| `LaneHistory.ScoreIsOfTheLastActive` | zk/abi/src/batch_aggregator/verifier.rs:79-92 | The blue score at the end is that of the last batch with transactions; a bundle without any leaves score and tip. |
| `Bundling.SettledPrefix` | zk/aggregate-prover/src/worker.rs:502-504 | None if and only if the boundary is not retained; otherwise one past its last occurrence. |
| `BundleRounds.HeldAscends` | zk/aggregate-prover/src/worker.rs:39-46 | `retained ++ queued` is strictly ascending and holds exactly the live batches that have not left. |
| `BundleRounds.RunConserves` | zk/aggregate-prover/src/worker.rs:111-169 | Over every run the held batches are, in order, exactly the live ones that were not settled, canceled or discarded. |
| `BundleRounds.RunJustifies` | zk/aggregate-prover/src/worker.rs:111-169 | Over every run a batch counts as settled only if it lies at or before a live batch whose block some round's settlement named, as canceled only if some round found it canceled, and is discarded only without a settlement watch or by a shutdown while its bundle was proved. |
| `BundleRounds.RunForms` | zk/aggregate-prover/src/worker.rs:174-235 | Every bundle of a run belongs to a round and was cut from what was held then: a first-time one is the longest ready, uncanceled front of the queue within both size bounds, a re-formed one starts right behind the settled block and is as long as the rest and the maximal size allow. |
| `BundleRounds.BundleAscends` | zk/aggregate-prover/src/worker.rs:202-235 | Each such bundle is non-empty, strictly ascending and made of live batches. |
| `BundleRounds.ReadyFrontIsBundled` | zk/aggregate-prover/src/worker.rs:174-235 | The longest ready, uncanceled front within the size bounds becomes the bundle, leaves the queue and is retained while settlements are watched. |
| `BundleRounds.SettlementReforms` | zk/aggregate-prover/src/worker.rs:412-446 | A settlement drops the retained batches up to its block and forms a bundle from the front of the rest, unless it was formed from the same batch before; for a block that is not retained nothing happens. |
| `BundleRounds.RollbackAllowsReforming` | zk/aggregate-prover/src/worker.rs:453-457 | After a rollback the next settlement forms that bundle again, even from the same batch. |
| `BatchWindow.LiveExactlyWhen` | zk/aggregate-prover/src/worker.rs:115-124 | A batch is live if and only if it arrived and no later rollback went below it. |
| `Bundling.Worker.Receive` | zk/aggregate-prover/src/worker.rs:115-124 | An arrived batch is queued last; a rollback keeps in both queues exactly what is not above its target and resets the guard. |
| `Bundling.Worker.ApplyRollback` | zk/aggregate-prover/src/worker.rs:453-457 | Both queues keep exactly the batches up to the target and the re-form guard is reset. |
| `Bundling.Worker.ProveBundle` | zk/aggregate-prover/src/worker.rs:244-275 | The formation is recorded and its handle published with size, first index, first and last block; it is resolved at once exactly when no batch has transactions. |
| `Bundling.Worker.EvictCanceled` | zk/aggregate-prover/src/worker.rs:194-199 | Exactly the canceled front leaves the queue. |
| `Bundling.Worker.TryProveOneBundle` | zk/aggregate-prover/src/worker.rs:174-235 | Progress is made if and only if no shutdown comes before the front is there, the queue is not empty, and its front is canceled or the ready front reaches the minimal size; the canceled front then leaves, or the ready front becomes a bundle and moves to `retained`. |
| `Bundling.Worker.ReaggregateSuperseded` | zk/aggregate-prover/src/worker.rs:412-446 | A settlement drains exactly the retained prefix up to its block, or nothing if the block is not retained; the front of the rest is re-formed once per first batch. |
| `Bundling.Worker.Drain` | zk/aggregate-prover/src/worker.rs:115-124 | The whole inbox is applied in order. |
| `Bundling.Worker.Run` | zk/aggregate-prover/src/worker.rs:111-169 | For every sequence of rounds up to a shutdown both queues, the guard and the bundles formed are those of the round-by-round specification, to which the run theorems apply. |
| `WriteCommands.WaitingIsEager` | scheduling/scheduler/src/storage_cmd.rs:282-306 | A run of diffs and receipts committed at once equals committing each on its own. |
| `WriteCommands.CommitIgnoresWaiting` | scheduling/scheduler/src/scheduled_batch.rs:400-427 | A batch commit executed behind uncommitted diffs writes what it would write after them. |
| `WriteEffects.DiffStores` | scheduling/scheduler/src/state_diff.rs:89-106 | A diff that advances stores its data, unless empty, and the version it read, 0 for empty data, and touches no other cell; a canceled one or one that does not advance stores nothing. |
| `WriteEffects.CommitStores` | scheduling/scheduler/src/scheduled_batch.rs:400-437 | A commit moves the latest pointer of each resource to the version of its last advancing diff, or deletes it for empty data, and no other pointer; it records batch, root, metadata and tree update and leaves data and entries alone. A canceled one stores nothing. |
| `WriteEffects.RollbackStores` | scheduling/scheduler/src/rollback.rs:50-94 | A rollback records its target on disk and in memory only if that was committed, resets the root only at genesis, and otherwise changes latest pointers alone. |
| `WriteEffects.ReceiptStores` | scheduling/scheduler/src/storage_cmd.rs:235-240 | A receipt is stored under its key and nothing else changes. |
| `StoreColumns.CommitMirrors` | scheduling/scheduler/src/scheduled_batch.rs:400-427 | Where the cells hold the columns of the versioned store, they hold them again after a commit of the next batch, as `CommitBatch` changes them. |
| `StoreColumns.RepointsToTheFirst` | scheduling/scheduler/src/rollback.rs:67-82 | Applied newest batch first, the entry of the oldest undone batch decides where a latest pointer ends. |
| `StoreColumns.RollbackMirrors` | scheduling/scheduler/src/rollback.rs:50-94 | The same for a rollback, whatever the order of entries within a batch. |
| `StoreColumns.RunMirrors` | storage/manager/src/write/worker.rs:62-91 | Over every run of commands the store holds exactly the columns that the diffs, commits and rollbacks of the versioned store lead to. |
| `WriteBatching.WriteWorker.Execute` | scheduling/scheduler/src/storage_cmd.rs:282-306 | A commit sees all earlier commits and rollbacks, a rollback also all earlier diffs. |
| `WriteBatching.WriteWorker.Flush` | storage/manager/src/write/worker.rs:111-115 | Commits, then runs every callback once, in order, on a store that holds its writes. |
| `WriteBatching.WriteWorker.Process` | storage/manager/src/write/worker.rs:75-88 | One command keeps the invariant and the order. |
| `WriteBatching.WriteWorker.Run` | storage/manager/src/write/worker.rs:62-91 | For every command sequence and flush timing the flushed store and last-committed pointer equal those of committing after each command. |
| `MerkleTree.EmptyAtIsEmptyTree` | core/merkle-tree/src/streaming_builder.rs:91-111 | The recurrence of the empty-hash table gives the roots of all-empty trees. |
| `MerkleTree.PaddedLifts` | core/merkle-tree/src/streaming_builder.rs:153-156 | Pairing with an empty sibling pads a tree by one level. |
| `MerkleTree.RootLeadsToItsLeaves` | core/merkle-tree/src/streaming_builder.rs:129-166 | Going down a padded tree by the bits of an index leads to that leaf, or to the empty one behind the last. |
| `StreamingMerkle.StackIsBinaryCount` | core/merkle-tree/src/streaming_builder.rs:170-187 | The levels on the stack are the one-bits of the leaf count, highest first. |
| `StreamingMerkle.RoomForOne` | core/merkle-tree/src/streaming_builder.rs:184 | While the tree has room the stack has room. |
| `StreamingMerkle.StreamingBuilder.ComputeEmptyHashes` | core/merkle-tree/src/streaming_builder.rs:100-111 | The table holds the roots of all-empty trees of each height. |
| `StreamingMerkle.StreamingBuilder.AddLeafHash` | core/merkle-tree/src/streaming_builder.rs:170-187 | Appends a leaf for every count below `2^MAX_DEPTH` without overflow; the stack stays the binary representation of the count. |
| `StreamingMerkle.StreamingBuilder.MergeRight` | core/merkle-tree/src/streaming_builder.rs:174-182 | Completed subtrees are merged into full trees. |
| `StreamingMerkle.StreamingBuilder.Combine` | core/merkle-tree/src/streaming_builder.rs:140-166 | Right-to-left combination gives the padded tree of least depth. |
| `StreamingMerkle.StreamingBuilder.Finalize` | core/merkle-tree/src/streaming_builder.rs:129-166 | For every leaf list up to `2^MAX_DEPTH` the result is the root of the full tree over the leaves and empty padding at `required_depth` if and only if there is a leaf; without leaves it is the empty leaf hash. |
| `StreamingMerkle.DepthOf` | core/merkle-tree/src/streaming_builder.rs:64-70 | The reported depth is the least with room for the leaves. |

## Left out

- SMT stale markers and node pruning: markers of orphaned versions are applied too, so keeping every live node is not a property of the code.
- SmtUpdater.Updater.UpdateSubtree: the stale marker of a visited node is not modelled.
- SmtUpdater.Updater.UpdateAtLeaf: the stale marker of the replaced leaf is not modelled.
- SmtUpdater.Updater.WriteChild: the stale marker of a tombstone is not modelled.
- SMT node versions: a view is the newest canonical node per position; how the store finds it is not modelled.
- Histories with deletions beyond the one-step theorem, its exact condition and the counterexample.
- Absence claims for proofs that were not built: only presence is sound for an arbitrary proof.
- Wire formats: topology bits packed into bytes, little-endian fields, Borsh and zero-copy layouts.
- `Bucket` word packing: the 128 bits of a bucket are a set, not two 64-bit words with masks.
- `CanonicalChain::restore`, `CanonicalChainManager::new` over stored entries and `canonical_ancestry`.
- `restore_committed_data` and `restore_committed`: batches that return from disk are not re-executed by the scheduler model.
- VersionedStore.VersionedStore.Rollback: ids are never reused, so batches that return under their old id are not covered.
- Cancellation.CancellationContexts.Canceled: for contexts a walk has missed only one direction holds; when contexts are reclaimed is not modelled, dropping one is a step of its own.
- Canceled batches in the scheduler model, the clearing of `prev` links, and artifact latches.
- SchedRollback.RollbackStaysSerial: takes what the disk shows after the rollback as given; SchedUndo derives it from the submitted diffs. A target that commits while later transactions already read is covered only by the counterexample.
- SchedUndo.RollbackIsSerialExactlyWhen: a version a latest pointer leads to but which was never written counts as the value it stands for; in the code it reads as empty data, as OutOfOrderDiffBreaksTheRollback shows.
- BatchVerifier.BatchRootsAreCanonicalExactlyWhen: for proofs made by the builder; an arbitrary proof only has the inclusion soundness of its first root.
- `new_seq_commit` and the other `kaspa_seq_commit` hashes: free terms.
- LaneHistory.LaneRecordsTheBundle: for a lane that expires inside a bundle it applies from that batch on.
- StoreColumns.RunMirrors: the pruner commits outside the write worker; its deletions are covered on the columns only.
- Bundling.Worker.ProveBundle: receipt caching, lane proofs and the no-op check of a proved journal are not modelled.
- StreamingMerkle.StreamingBuilder.AddLeafHash: more than `2^MAX_DEPTH` leaves, where the stack may overflow, are outside its precondition.
- Overflow of 64-bit ids and indices; weak memory orderings; thread parking, timeouts and shutdown.
- RocksDB, RPC, wallet, runner, CLI, simulation, L1 bridge transport and `transaction-runtime`: I/O, foreign libraries or unfinished code.
- Codec readers and writers, reorg filter, receipt keys and configuration: only easy members.
