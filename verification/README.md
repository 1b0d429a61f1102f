# libtxl: models and proofs

This project models the cores of libtxl in Dafny and proves what they are for. It
verifies on its own: `dafny verify dfyconfig.toml`.

| files | what they model |
|---|---|
| `SortedSeq`, `BTreeModel`, `BTreeOrder`, `BTreeRefinement`, `BTreeTheorems`, `BTreeRepeats`, `BTreeNodes`, `BTree` | the B-tree (`include/txl/btree.h`) |
| `RingModel`, `RingProofs`, `RingRuns`, `RingFile` | the ring-buffer file (`include/txl/ring_buffer_file.h`) |
| `LockFreeStack`, `StackCalls` | the lock-free linked list (`include/txl/linked_list.h`) |
| `ThreadPool`, `PoolJobs`, `PoolRuns`, `PoolTurns`, `PoolIdle`, `PoolHang` | the thread pool and its awaiters (`include/txl/threading.h`) |
| `StableSeq`, `TreeShape`, `SearchTree`, `BinarySearchTree` | the binary search tree with duplicates (`include/txl/tree.h`) |
| `LazyAtomic`, `LazyEffects`, `LazyAlone`, `LazyOnce` | `lazy_atomic` (`include/txl/atomic.h`) |
| `WorkUnits`, `WorkOrder`, `WorkTurns`, `WorkShifts`, `WorkDistributor` | work units, chains and the distributor (`include/txl/work_list.h`) |
| `Borders`, `StreamFind` | the stream matcher (`include/txl/find.h`) |
| `TarModel`, `TarLayout`, `TarFile` | the tar reader (`include/txl/tar_file.h`, `include/txl/convert.h`) |
| `Options`, `Seqs`, `Remainders` | a value or its absence; facts about sequences of anything; quotient and remainder |

**B-tree.** A node is an object with two vectors that are updated in place; the
routines are methods that walk, rotate, merge and split it. Each method is proved to
compute a function on tree values (`BTreeModel`), and about those functions it is proved
that every tree that insertions and removals reach keeps its shape and holds exactly what
the same operations leave in a finite map. The occupancy invariant is the one the code
keeps, not the textbook one: underflow means "not full", so a node below the root holds
between 1 and max(degree - 1, 3) values; a leaf has more null slots than values, except
the rightmost one, which may have as many as values. Two exceptions are stated exactly. A
root leaf with a single slot is dropped by a removal whatever the key. A present key may be
inserted, and its pair then goes before the other one; but the keys are no longer distinct,
and a later split finds the child's place by key: a run in which it overwrites another child
is given, and so is the condition under which it does not.

**Ring-buffer file.** The mapped bytes are an array and the cursors monotone offsets. A
log of everything ever written is carried as auxiliary state; the bytes between head and
tail are proved to decode to a suffix of it after every write, with no surviving byte
touched, and readers are followed over whole runs.

**Lock-free stack, thread pool, lazy_atomic.** Transition systems over any number of
threads: every atomic access is a step, weak compare-and-swaps may fail spuriously, and
the allocator may hand out freed addresses again. The theorems are about every run. The
pool's job counter is incremented after the job is pushed, so it may run behind, and the
idle flag is reset by the first client that wakes. Both matter to `wait_for_idle`, and the
answers are exact: it returns only when all accepted jobs are done if and only if no post
may overlap a wait, and it never hangs if and only if nothing may, neither a post nor
another client's wait, and the pool is not stopped. The runs that hang are given. Every
execution of a job and every answer of its next() is kept as history, and a completed job
has been executed once more than next() asked for. In the same way `lazy_atomic`
initialises once, and gives every caller the same pointer, if and only if neither clear nor
assignment is allowed. What a call of the stack or of `lazy_atomic` does is proved among any
other threads, by what it has done between its beginning and its return; and for
`lazy_atomic` also for a thread that runs alone, by the whole state it leaves.

**Binary search tree.** Pointer loops over node objects, proved against sequences in
which equal keys keep their order, so that duplicates are served first in, first out.

**Work distributor and stream matcher.** Loops over objects, proved to terminate and
against functions whose properties are proved separately. The order of all calls is written
down without executing anything: a lambda's tries, a rotating chain's units round by round
or a straight chain's one after the other, and the units of the list in shifts, each worker
taking the next one when it has finished its own. The matcher is sound but not complete, and it is proved for
which patterns it is complete.

**Tar reader.** The archive layout is written down independently (the ustar Interchange
Format in the pax utility section of IEEE Std 1003.1, with the GNU 'L' and 'K' records for
long names), and reading what was laid out is proved to give it back, kinds by the table of
their type flags included. What a cut archive or a bad size gives is proved too.

## Model

| member | source | states |
|---|---|---|
| BTreeTheorems.InsertAddsPair | include/txl/btree.h:390-417 | inserting any pair, its key present or not, puts it before the first pair whose key is not smaller and leaves the others as they were; all leaves stay at one depth and the occupancy bounds hold; the tree grows only at the root |
| BTreeTheorems.InsertIsMapUpdate | include/txl/btree.h:390-417 | the keys are distinct and in search order again if and only if the key was absent, and then the tree holds the updated map |
| BTreeRepeats.RepeatedKeysLoseAPair | include/txl/btree.h:85-100 | a run from the empty tree that inserts a present key and in which a later split, of another key, drops a pair |
| BTreeTheorems.RootSplit | include/txl/btree.h:396-401 | a split root becomes a one-value node over its halves, with the same pairs in the same order |
| BTreeTheorems.RemoveKeepsTree | include/txl/btree.h:375-388 | every removal, whatever the key, leaves a well-shaped tree; the pairs left are the old ones without the key, or none in the one exception |
| BTreeTheorems.RemoveIsMapRemoval | include/txl/btree.h:384-387 | removal is map removal if and only if there is no root, the key is present, or the root does not have exactly one child slot |
| BTreeTheorems.AbsentRemoveDropsOnlyPair | include/txl/btree.h:384-387 | the exception happens: removing an absent key from the one-pair tree empties it |
| BTreeTheorems.FindIsMapSelect | include/txl/btree.h:366-373 | lookup gives the map's value for the key, or nothing when the key is absent |
| BTreeTheorems.HeightIsLogarithmic | include/txl/btree.h:38-50 | a tree with n pairs and height h has 2^(h+1) <= n + 1 |
| BTreeTheorems.SizeOfLevel | include/txl/btree.h:38-50 | a tree of height h with a value at its root has at least 2^(h+1) - 1 pairs |
| BTreeTheorems.RunRefinesMap | include/txl/btree.h:375-417 | after any run that inserts absent keys and removes any keys, the tree is well shaped and holds what the same run leaves in a map, which a removal empties where the exception of removal happens |
| BTreeTheorems.StepRefines | include/txl/btree.h:375-417 | one operation of such a run; where the exception happens there was one pair |
| BTreeRefinement.InsertIntoLeafRefines | include/txl/btree.h:180-200 | the cascade of leaf insert and splits below any node keeps order and shape, adds exactly the pair, its key present or not, and leaves the node at most one value over the bound, in which case it reports that it does not fit |
| BTreeRefinement.SplitAtOwnIndex | include/txl/btree.h:85-100 | where the value before a split child has a smaller key than its separator, the separator goes to the child's own index, both halves land in the child's place, and order and shape are kept |
| BTreeRefinement.SplitIndex | include/txl/btree.h:119-128 | the index the separator is searched to is the split child's own if and only if the value before the child has a smaller key; keys may repeat |
| BTreeRefinement.SplitReplacesAtBound | include/txl/btree.h:85-100 | the halves replace the child at the index the separator is searched to, whichever child that is |
| BTreeRefinement.RebalanceOrder | include/txl/btree.h:254-286 | a rebalance, in each of its four outcomes, keeps all pairs in order |
| BTreeRefinement.StealMaxRefines | include/txl/btree.h:240-252 | stealing takes the largest pair out of a subtree and keeps the others, in order |
| BTreeRefinement.RemoveFromRefines | include/txl/btree.h:202-238 | removal below any node leaves exactly the other pairs, in order, and reports whether the key was there |
| BTreeRefinement.FindRefines | include/txl/btree.h:38-50 | descending by key finds a pair if and only if it is among the pairs in order |
| BTreeOrder.SplitOrder | include/txl/btree.h:85-100 | the halves and the middle value are the pairs of the split node, in order |
| BTreeOrder.RotatedLeftOrder | include/txl/btree.h:288-307 | a left rotation keeps the pairs and their order |
| BTreeOrder.RotatedRightOrder | include/txl/btree.h:309-328 | a right rotation keeps the pairs and their order |
| BTreeOrder.MergedOrder | include/txl/btree.h:330-351 | a merge keeps the pairs and their order |
| BTreeModel.PairLevels | include/txl/btree.h:254-264 | when a rebalance runs, only one child of the pair may be empty and every slot the rotations and the merge index exists |
| BTreeModel.Rebalance | include/txl/btree.h:254-286 | repairs a node whose one child ran empty: the result is again well shaped and has lost at most one value |
| BTreeModel.RebalanceCounts | include/txl/btree.h:254-286 | a rebalance works on the child at the index and the next one, at the last index on it and the one before: a child with fewer than degree - 1 values gains one from a sibling with more than one, the left one first; else the two are joined with the value between them; else nothing changes |
| BTreeModel.RotateLeft | include/txl/btree.h:288-307 | repairs the pair without changing the number of the parent's values |
| BTreeModel.RotateRight | include/txl/btree.h:309-328 | repairs the pair without changing the number of the parent's values |
| BTreeModel.Merge | include/txl/btree.h:330-351 | repairs the pair by joining it; the parent loses one value |
| BTreeModel.StealMax | include/txl/btree.h:240-252 | no index is out of range and the subtree keeps its level, with at most one value fewer at its top |
| BTreeModel.RemoveFrom | include/txl/btree.h:202-238 | keeps the level of the subtree, loses at most one value at its top, and changes nothing when it reports that no rebalance is needed |
| BTreeModel.InsertIntoLeaf | include/txl/btree.h:180-200 | reports "does not fit" only for a node that reached the degree |
| BTreeModel.StealBelow | include/txl/btree.h:249-251 | stealing through an inner node is stealing from its last child followed by a rebalance of the last pair |
| BTreeModel.RemoveInChild | include/txl/btree.h:214-226 | removal through an inner node rebalances exactly when the child asks for it, and the node has a value then |
| BTreeModel.RemoveHere | include/txl/btree.h:235-237 | removal of a separator replaces it by the stolen maximum and rebalances |
| BTreeNodes.RotateLeft | include/txl/btree.h:288-307 | in place: the vectors of parent and children become the left rotation, and nothing outside the three nodes changes |
| BTreeNodes.RotateRight | include/txl/btree.h:309-328 | in place: the right rotation |
| BTreeNodes.Merge | include/txl/btree.h:330-351 | in place: the merge |
| BTreeNodes.Rebalance | include/txl/btree.h:254-286 | in place: picks the pair and does what the function on values does |
| BTreeNodes.StealMax | include/txl/btree.h:240-252 | in place: returns the largest pair and leaves the subtree without it |
| BTreeNodes.RemoveFrom | include/txl/btree.h:202-238 | in place: the whole removal below a node, with both flags |
| BTreeNodes.RemoveThroughChild | include/txl/btree.h:213-226 | in place: the branch that collapses an empty child of an empty node is never taken |
| BTreeNodes.SplitInto | include/txl/btree.h:85-100 | in place: the parent gets the separator and the two halves |
| BTreeNodes.InsertIntoLeaf | include/txl/btree.h:180-200 | in place: the insertion below a node |
| BTreeNodes.TreeNode.EmplaceValue | include/txl/btree.h:135-141 | in place: the value and a null slot at the same index |
| BTreeNodes.Search | include/txl/btree.h:38-50 | in place: the recursive lookup, with the nodes it touches: a path down by key of at most height + 1 nodes |
| BTree.OrderedMap.constructor | include/txl/btree.h:361-364 | a new tree is the empty map |
| BTree.OrderedMap.Get | include/txl/btree.h:366-373 | the map's value for the key, or nothing, after touching the nodes of a path p with 2^|p| <= n + 1 for n pairs |
| BTree.OrderedMap.Insert | include/txl/btree.h:390-417 | in place: the pair goes before the first pair whose key is not smaller; the tree is one with distinct keys again, and the map updated, if and only if the key was absent |
| BTree.OrderedMap.Remove | include/txl/btree.h:375-388 | map removal if and only if the root is null, the key is present, or the root does not have exactly one slot; otherwise the tree is emptied |
| RingProofs.WriteAppends | include/txl/ring_buffer_file.h:224-292 | a write appends its record to the log, evicts oldest records one at a time only, and leaves every surviving byte untouched across the wrap; the entry stands at the old tail if it fits before the end of the ring, else at the next start; afterwards more than the padding is free, and at every boundary passed it was not yet |
| RingProofs.WriteIsBoundedAppend | include/txl/ring_buffer_file.h:224-292 | decoding the bytes from head to tail after a write gives what was stored before without some of the oldest records, followed by the new one |
| RingProofs.MakeRoomStopsFirst | include/txl/ring_buffer_file.h:236-254 | the eviction loop stops at the first record boundary where the room asked for is free, and evicts nothing when it is free at once |
| RingProofs.EvictErases | include/txl/ring_buffer_file.h:239-253 | after it no entry starts where the evicted one did |
| RingProofs.EvictDropsOldest | include/txl/ring_buffer_file.h:239-253 | one pass of the loop drops exactly the oldest record and touches no byte of the others |
| RingProofs.PlacedIsRecord | include/txl/ring_buffer_file.h:256-289 | the new entry decodes to its payload from the old tail on, whichever of the three placements applies, and everything less than a lap behind is untouched |
| RingProofs.WrappedSkips | include/txl/ring_buffer_file.h:264-287 | when the entry wraps, a reader at the old tail goes round to the start |
| RingProofs.EntryVisibleIffNonempty | include/txl/ring_buffer_file.h:204-217 | an entry placed at the tail is one a reader stops at if and only if its payload is not empty |
| RingProofs.StoredIsSuffix | include/txl/ring_buffer_file.h:189-222 | the records decoded between the cursors are a suffix of everything written |
| RingProofs.ReadSpec | include/txl/ring_buffer_file.h:189-222 | a reader gets the record at its cursor, or the oldest left when that one is evicted, and nothing exactly when it has reached the tail |
| RingModel.SizeRoundTrip | include/txl/ring_buffer_file.h:71-75 | the four bytes of a length prefix decode to the length |
| RingModel.SlotIsRemainder | include/txl/ring_buffer_file.h:98-112 | the place of a cursor is its offset modulo the size of the ring |
| RingRuns.RunFaithful | include/txl/ring_buffer_file.h:189-292 | in every interleaving of one writer and any number of readers, each reader has returned a duplicate-free, in-order part of what was written and passed over only records already evicted |
| RingRuns.PollFaithful | include/txl/ring_buffer_file.h:189-222 | one read: empty exactly when the cursor has reached the tail, otherwise the next record still stored |
| RingRuns.StepKeeps | include/txl/ring_buffer_file.h:189-292 | any step of any party keeps the file a suffix of the log and all readers faithful to it |
| RingFile.RingBufferFile.constructor | include/txl/ring_buffer_file.h:147-175 | opening copies the file's cursor |
| RingFile.RingBufferFile.Write | include/txl/ring_buffer_file.h:224-292 | in place: the record is appended to the log, oldest records are evicted exactly as long as entry and padding do not fit, and the returned place holds the payload |
| RingFile.RingBufferFile.Read | include/txl/ring_buffer_file.h:189-222 | in place: the next record still stored, or nothing exactly at the tail |
| RingFile.RingBufferFile.KeepRoom | include/txl/ring_buffer_file.h:236-254 | in place: the eviction loop |
| RingFile.RingBufferFile.EvictHead | include/txl/ring_buffer_file.h:239-253 | in place: skipped end zeroed, size zeroed, head past the entry |
| RingFile.RingBufferFile.PlaceEntry | include/txl/ring_buffer_file.h:256-291 | in place: the entry and the published cursor |
| RingFile.RingBufferFile.ReadBytes | include/txl/ring_buffer_file.h:189-222 | in place: what read does to the object's cursor |
| LockFreeStack.RunLinearizes | include/txl/linked_list.h:112-194 | every run from the empty list is a run of the sequential stack: its successful compare-and-swaps, in their order, are pushes of the values given to emplace_front, pops of a nonempty stack and drains, and every other step leaves the stack as it is |
| LockFreeStack.StepLinearizes | include/txl/linked_list.h:112-194 | the same for one step from any reachable state |
| LockFreeStack.PopInstallsTrueSuccessor | include/txl/linked_list.h:172-184 | no ABA: a pop that succeeds installs the present successor of an allocated head node, though the address may have been freed and reused meanwhile |
| LockFreeStack.HoldingsAreExclusive | include/txl/linked_list.h:131-141 | what a thread is about to write, read or delete is allocated, not on the stack and held by no other thread |
| LockFreeStack.GenerationCountsEffects | include/txl/linked_list.h:49-57 | the counter grows by one at each successful compare-and-swap and the head moves at no other step |
| LockFreeStack.EmptyPopIsTrue | include/txl/linked_list.h:177-181 | a pop reports an empty list if and only if the stack is empty at that step |
| LockFreeStack.HandsOutWhatItTook | include/txl/linked_list.h:132-141 | a thread hands out what the sequential stack gave it, in that order; all of it once it is between operations |
| LockFreeStack.PushStep | include/txl/linked_list.h:155-167 | a successful push puts the value it was given on top |
| LockFreeStack.PopStep | include/txl/linked_list.h:172-191 | a successful pop takes the top value and gives its node to the popping thread |
| LockFreeStack.DrainStep | include/txl/linked_list.h:113-124 | a successful release takes the whole stack |
| LockFreeStack.FreeStep | include/txl/linked_list.h:137-138 | a deleted node was allocated and the thread's alone, so it is deleted once |
| StackCalls.CallTakesEffectOnce | include/txl/linked_list.h:112-194 | between its beginning and its return, among any other threads, a push takes effect exactly once, with its argument, and a release exactly once; a pop takes effect once and hands out one value, or not at all, and then the list was empty at its last step |
| StackCalls.NothingLeaks | include/txl/linked_list.h:131-191 | with all threads between calls there are as many live nodes as values on the stack |
| ThreadPool.NoLostWakeup | include/txl/threading.h:50-82 | a worker asleep although its stack has work or it was stopped is about to be woken: a client is between its push or store and set(), or inside set() before the notify; for any number of clients |
| ThreadPool.JoinFindsWorkersTold | include/txl/threading.h:316-326 | a client that joins the workers has stopped them all, and each that sleeps is about to be woken |
| ThreadPool.StepKeepsInv | include/txl/threading.h:146-326 | every step of every thread keeps the invariant behind these |
| PoolJobs.StepKeepsJobs | include/txl/threading.h:146-298 | for any number of clients, with or without stops, every step keeps: each accepted job not yet subtracted has one owner, it has run before it is completed and is completed once, and the counter is the number of those jobs less the posts still to be counted |
| PoolJobs.ZeroMeansDoneIffCounted | include/txl/threading.h:284-306 | a zero counter means that all accepted jobs have run and completed if and only if no client is between its push and its increment |
| PoolRuns.CompletedRanAsAsked | include/txl/threading.h:154-160 | in every run a completed job has been executed once more than next() answered true; next() answered false at most once, and exactly once unless some worker was stopped |
| PoolRuns.CompletesWhenDone | include/txl/threading.h:154-160 | a worker about to complete a job has executed it as often as asked, nobody has completed it, and next() has answered false or the worker was stopped |
| PoolRuns.OnlyAcceptedRun | include/txl/threading.h:222-231 | a job whose post was refused, or has not pushed it, is never executed, asked or completed |
| PoolRuns.NewestOnTop | include/txl/threading.h:150-229 | every worker's stack has its jobs in the order of their acceptance, newest on top, so the job it pops is the newest it has |
| PoolTurns.PostsInTurn | include/txl/threading.h:284-294 | when no client takes an index while another is about to store one, the k-th post, counted from 0, goes to worker k modulo n + 1 of the n workers, and to worker 0 when the remainder is n: worker 0 gets two posts of every n + 1 |
| PoolTurns.OneReturnPerSet | include/txl/threading.h:56-82 | over any run a worker leaves its wait at most as often as set() was called on its awaiter |
| PoolTurns.RefusedIffStopped | include/txl/threading.h:222-231 | a post is refused if and only if the worker it goes to was stopped, and then nothing is pushed or counted |
| PoolTurns.StoppedLooksOnce | include/txl/threading.h:146-154 | a worker that was stopped looks at its stack at most once more, so it takes at most one more job |
| PoolTurns.StopWaitsForAll | include/txl/threading.h:316-326 | when stop_workers returns every worker is gone |
| PoolIdle.IdleMeansDone | include/txl/threading.h:300-306 | when no post overlaps a wait, whatever else does, wait_for_idle returns only when every accepted job has run and completed and no worker holds one |
| PoolIdle.BlockedClientIsOwed | include/txl/threading.h:165-176 | when nothing overlaps a wait, a client blocked in it with nothing left to count is owed a set() by a worker on its way to it, or a notify by one that has already set the flag; for any number of clients |
| PoolIdle.BlockedClientHasARunner | include/txl/threading.h:146-177 | and no deadlock: while it is blocked some worker can take a step |
| PoolIdle.StepKeepsQuiet | include/txl/threading.h:146-306 | every step under which nothing overlaps a wait keeps that a client waiting with the flag clear and no job left is owed a set() |
| PoolHang.WaitNeverHangsIff | include/txl/threading.h:300-306 | over all runs of any number of workers and clients: a wait never hangs if and only if no post and no other client's wait may overlap a wait and nobody may stop the pool |
| PoolHang.WaitIsHonestIff | include/txl/threading.h:300-306 | a wait returns only when all accepted jobs are done if and only if no post may overlap a wait |
| PoolHang.OverlappingPostHangs | include/txl/threading.h:284-306 | a run in which a client waits for ever because another posts: the job was done before it was counted |
| PoolHang.OverlappingWaitHangs | include/txl/threading.h:65-82 | a run in which a client waits for ever because another waits: both are woken, and the first to go on resets the flag |
| PoolHang.StopHangs | include/txl/threading.h:308-326 | a run in which a client waits for ever after the pool was stopped with a job left |
| PoolHang.HungHasNoRunner | include/txl/threading.h:300-306 | in a hung state no thread has a step to take but spurious wakeups and new operations |
| StableSeq.RunIsQueues | include/txl/tree.h:145-271 | over any run of emplace and remove, the values under each key form a first-in first-out queue |
| StableSeq.InsertEnqueues | include/txl/tree.h:231-271 | emplacing enqueues under the key and leaves the other keys alone |
| StableSeq.RemoveDequeues | include/txl/tree.h:145-229 | removing dequeues under the key and leaves the other keys alone |
| StableSeq.FindPeeks | include/txl/tree.h:113-136 | finding looks at the oldest value under the key |
| SearchTree.OrderedContents | include/txl/tree.h:113-136 | a tree with strictly smaller keys to the left and no smaller ones to the right has its pairs in key order |
| SearchTree.EmplaceShape | include/txl/tree.h:240-270 | the new leaf goes after every pair with a key up to its own, and keeps strictly smaller keys to the left |
| SearchTree.RemoveShape | include/txl/tree.h:145-229 | what goes is the first pair with the key, and the order within the tree is kept |
| SearchTree.SearchEnds | include/txl/tree.h:113-136 | where a descent by key ends there is the first pair with the key, or there is none |
| SearchTree.MinValue | include/txl/tree.h:42-63 | in place: takes the smallest pair out of the right subtree, in both of its cases |
| SearchTree.Assign | include/txl/tree.h:34-40 | in place: the node takes over its only child's pair and children |
| SearchTree.ReplaceByMin | include/txl/tree.h:217-220 | in place: the node's pair is replaced by the smallest to its right |
| BinarySearchTrees.BinarySearchTree.Find | include/txl/tree.h:113-136 | the oldest pair with the key, or nothing |
| BinarySearchTrees.BinarySearchTree.Emplace | include/txl/tree.h:231-271 | in place: the pair is inserted after all pairs with an equal key |
| BinarySearchTrees.BinarySearchTree.Remove | include/txl/tree.h:145-229 | in place: exactly the oldest pair with the key goes; without one nothing changes |
| BinarySearchTrees.BinarySearchTree.RemoveRoot | include/txl/tree.h:180-200 | in place: the four cases at the root |
| BinarySearchTrees.BinarySearchTree.DropLeaf | include/txl/tree.h:202-214 | in place: a leaf is unhooked from its parent |
| BinarySearchTrees.BinarySearchTree.RemoveInner | include/txl/tree.h:216-228 | in place: a node with one or two children |
| LazyAtomic.PendingHasOneInitialiser | include/txl/atomic.h:291-317 | the cell is pending if and only if a thread is between reserve and publish, and there is only one |
| LazyAtomic.PublishReplacesPending | include/txl/atomic.h:312-316 | a publish only ever replaces pending |
| LazyAtomic.DeletesItsOwn | include/txl/atomic.h:239-256 | a deleted value is live, out of the cell and held by no other thread: never deleted twice, even with address reuse |
| LazyAtomic.QuietCellOwnsAll | include/txl/atomic.h:234-256 | nothing leaks: when no thread holds a value the live values are exactly what the cell holds |
| LazyEffects.AssignTakesEffect | include/txl/atomic.h:258-289 | among any other threads, an assignment that has returned has left the cell without a value at one of its steps, and after that either published its own argument, replacing the pending word it had put into the empty cell and that stayed there all the time, or found the cell taken |
| LazyEffects.ClearTakesEffect | include/txl/atomic.h:239-256 | a clear() that has returned has left the cell without a value at one of its steps |
| LazyEffects.PtrTakesEffect | include/txl/atomic.h:291-326 | a ptr() that has returned has published a live value in the place of its own pending word or found the cell taken, and gives what the cell held at its last step, which was not pending |
| LazyAlone.AssignAlone | include/txl/atomic.h:258-289 | an assignment alone, from an empty or a ready cell, leaves its argument in the cell at an address of its own and the old value deleted, and nothing else changed; the factory is not called |
| LazyAlone.PtrAlone | include/txl/atomic.h:291-326 | a ptr() alone returns the pointer in the cell and changes nothing; from an empty cell it calls the factory once, stores the value and returns it |
| LazyAlone.ClearAlone | include/txl/atomic.h:239-256 | a clear() alone leaves the cell empty, the old value deleted and nothing else changed |
| LazyAlone.AssignThenPtr | include/txl/atomic.h:258-326 | the ptr() after an assignment, both alone, returns a pointer to the assigned value, without the factory |
| LazyAlone.AloneIsShort | include/txl/atomic.h:239-326 | an operation alone takes at most ten steps, and two more for each compare-and-swap that fails spuriously |
| LazyOnce.FactoryRunsOnce | include/txl/atomic.h:291-326 | in a run of ptr() alone the factory runs at most once and all completed calls return the same pointer, not null |
| LazyOnce.OnceIffOnlyPtr | include/txl/atomic.h:239-326 | over all runs: the factory runs at most once, and no pointer is null, and all pointers are the same, each if and only if neither clear nor assignment is allowed |
| LazyOnce.ReturnsNull | include/txl/atomic.h:319-325 | runs in which ptr() returns null, with clear alone and with assignment alone |
| LazyOnce.CallsTwice | include/txl/atomic.h:291-326 | runs in which the factory is called twice and two pointers differ, with clear alone and with assignment alone |
| LazyAtomic.StepKeepsInv | include/txl/atomic.h:239-326 | every step keeps that each live value has exactly one owner, and that what an assignment is about to publish is its argument |
| WorkUnits.ExecuteProgress | include/txl/work_list.h:66-83 | an execution uses up one round of a unit and the calls it makes; the last round is the one that reports completion |
| WorkUnits.ChainProgress | include/txl/work_list.h:146-171 | the same for a chain, whichever end an unfinished unit goes back to |
| WorkUnits.DriveMakesOwedCalls | include/txl/work_list.h:146-171 | driving a unit, nested chains included, to completion makes exactly the calls it owes |
| WorkUnits.LambdaIsRetried | include/txl/work_list.h:66-83 | a lambda with r retries is called until its first success or r + 1 times |
| WorkTurns.ExecuteTakesTurn | include/txl/work_list.h:66-171 | an execution makes the calls of the first turn in the unit's schedule and leaves the others; the schedule is written down without executing: a lambda's tries, and for a chain the schedules of its units round by round or one after the other |
| WorkTurns.DriveInTurn | include/txl/work_list.h:146-171 | driving a unit to completion makes its calls in the order of the schedule, chains within chains included |
| WorkTurns.StatusTells | include/txl/work_list.h:66-83 | an execution makes at most one call; the status says whether there was one, and success means there was none or it succeeded |
| WorkShifts.OneTurn | include/txl/work_list.h:249-272 | serving one slot serves the next element of the order in which shifts serve all lists |
| WorkOrder.DueOfApart | include/txl/work_list.h:146-171 | what a list of units still owes to the lambdas of a unit that shares none with the others is what driving that unit alone calls, in that order |
| WorkOrder.ExecuteDue | include/txl/work_list.h:66-83 | an execution makes the next calls of those due, and leaves the rest |
| WorkDistributor.WorkList.PopFront | include/txl/work_list.h:117-126 | the first unit, or nothing |
| WorkDistributor.InlineWorker.Add | include/txl/work_list.h:179-187 | takes a unit only when idle |
| WorkDistributor.InlineWorker.Execute | include/txl/work_list.h:189-203 | executes the unit held and drops it when it is complete |
| WorkDistributor.PassKeeps | include/txl/work_list.h:249-272 | one pass of the loop loses no call owed and uses up a round unless there was no unit to offer and none in the worker |
| WorkDistributor.PassInOrder | include/txl/work_list.h:249-272 | one pass of the loop keeps the order of the calls of any lambdas that one unit at most holds |
| WorkDistributor.PassOnPlan | include/txl/work_list.h:249-272 | one pass of the loop makes the next calls of the order in shifts and leaves the rest |
| WorkDistributor.PassDecreases | include/txl/work_list.h:249-272 | the loop's measure, rounds to do and then turns to the next busy worker, goes down |
| WorkDistributor.Distributor.Pass | include/txl/work_list.h:251-266 | in place: one pass, after which the flags and the count again say which workers hold a unit |
| WorkDistributor.Distributor.Note | include/txl/work_list.h:218-266 | the count of busy workers follows the flags |
| WorkDistributor.Distributor.Run | include/txl/work_list.h:241-274 | terminates; every unit of the list makes exactly the calls it owes, and all workers are idle again; the calls of a unit that shares no lambda with the others come in the order of its schedule; and the calls of all units together come in shifts: in every round each worker without a unit takes the next of the list, then each makes the next calls of its unit's schedule |
| Borders.EntryGrows | include/txl/find.h:22-28 | a match extends the longest border by one |
| Borders.EntryFallsBack | include/txl/find.h:37-41 | falling back to the longest border of the candidate loses no border |
| Borders.FeedConcat | include/txl/find.h:59-85 | how the stream is cut into chunks does not matter |
| Borders.FeedSound | include/txl/find.h:59-85 | the bytes used end in as many bytes of the pattern as the match index says |
| Borders.CompleteIffSafe | include/txl/find.h:72-82 | every occurrence is found if and only if each prefix of the pattern without a border is followed by the pattern's first byte |
| Borders.UnsafeLoses | include/txl/find.h:72-82 | a stream that contains such a pattern and is not matched |
| StreamFinder.StreamFind.constructor | include/txl/find.h:46-51 | a new matcher has the longest proper border of each prefix in its table |
| StreamFinder.StreamFind.InitLpsTable | include/txl/find.h:16-44 | terminates with each entry the longest proper border of that prefix |
| StreamFinder.StreamFind.Scan | include/txl/find.h:59-85 | the loop over a chunk |
| StreamFinder.StreamFind.Process | include/txl/find.h:59-85 | the match index and the bytes used depend only on the stream so far |
| StreamFinder.StreamFind.Reset | include/txl/find.h:53-57 | starts a new stream |
| StreamFinder.StreamFind.MatchedMeansFound | include/txl/find.h:89-92 | matched means that the last bytes used are the pattern; for a safe pattern, not matched means that no occurrence has gone by |
| TarLayout.ArchiveReads | include/txl/tar_file.h:213-262 | the round trip: reading an archive laid out from any items, each name in its header or in a record of its own, with any number of zero blocks before each and at the end, gives exactly those items in order, with name, size, kind, time and payload offset, and then the empty result |
| TarLayout.RecordReads | include/txl/tar_file.h:213-262 | reading one record gives its item back and moves to the next record, whether the name stands in the header or in a record of its own |
| TarLayout.CutArchiveReads | include/txl/tar_file.h:143-173 | an archive cut within a header gives the items before it, and then a partial read |
| TarLayout.BadSizeReads | include/txl/tar_file.h:143-173 | a size field with a byte that is no decimal digit gives the items before it, and then a decoding error |
| TarLayout.PayloadAt | include/txl/tar_file.h:110-115 | the payload is found at the offset reported |
| TarLayout.BlockFields | include/txl/tar_file.h:20-38 | the reader finds name, size, time and type flag in a header block, whatever the other fields hold |
| TarLayout.EndReads | include/txl/tar_file.h:215-224 | zero blocks and the end of the archive give the empty result |
| TarLayout.OctalOfDigits | include/txl/convert.h:39-52 | octal digits decode to the number they write |
| TarFile.OctalTakesDecimalDigits | include/txl/convert.h:45-48 | a field decodes if and only if all its bytes are decimal digits, 8 and 9 included |
| TarFile.DecodeOctal | include/txl/convert.h:39-52 | the loop over the digits |
| TarFile.TarReader.NextHeader | include/txl/tar_file.h:143-173 | in place: the header at the position, which moves past it and its payload only on success |
| TarFile.TarReader.NextEntry | include/txl/tar_file.h:213-262 | in place: the next entry, with the loop over zero headers and the record that names the entry after it |
| TarFile.TarReader.Convert | include/txl/tar_file.h:175-204 | the entry a header describes, with the name given and the kind that the table of type flags has for its flag |

## Left out

- BTree.OrderedMap.Insert: starts from distinct keys. A present key is accepted, but then keys repeat and a later split may find another child's place by key (`include/txl/btree.h:97`), as BTreeRepeats.RepeatedKeysLoseAPair shows.
- BTree.OrderedMap.constructor: requires degree >= 3; with a smaller degree, which the source accepts, the first split leaves a node without values.
- BTreeTheorems.RunRefinesMap: over runs that put absent keys, since pairs may be lost once keys repeat.
- RingProofs.WriteAppends: requires a nonempty payload, since a zero size marks a wrap, and room for entry, unused end and padding within the ring, so that eviction does not pass the tail.
- Keys are integers standing for any totally ordered key type; values are opaque.
- Moved-from pairs are copied; `insert(Key const &, Value &&)` and `insert(kv_pair &&)` are one operation.
- The B-tree's `print` and private iterative `find`, which no caller uses.
- 64-bit wrap-around of cursors, generation counters, sizes and counters, which are unbounded here.
- Opening, truncating and mapping the ring-buffer file, and its cursor area, which is two fields here.
- Torn cursor copies and C++ memory orders: reads and writes of the ring-buffer file are atomic here, and all atomics sequentially consistent.
- Two writers on one ring-buffer file: the writer is the object whose cursor is the file's.
- The stack's `num_inserts_` and `num_pops_`, and its `empty()`.
- LockFreeStack.StepLinearizes: a read through an address that is no longer the head may return anything, which is more than the program does.
- Starting workers again after a stop, moving workers and awaiters, and `thread_pool_worker::wait_for_idle`.
- Exceptions out of a job, a factory or an allocation.
- Index selection with no workers at all, which is out of range in the source.
- The work distributor's other worker types: `work_chain` as a worker; the units and exceptions a status carries.
- WorkUnits.ExecuteProgress: units are values that execution replaces, because each has one owner; updating them behind a pointer is not modelled.
- Handing an empty optional to a worker is handing it no unit.
- The stream matcher's table has an entry for each byte of the pattern, starting at zero, as the constructor evidently means (`include/txl/find.h:48`, where the braces make a list of two entries).
- `memory_pool.h`, `flat_map.h`, `fixed_vector.h`, `observer.h`, `csv.h`, `http.h`: unfinished, or not giving the abstraction they suggest.
- TarLayout.ArchiveReads: for names without zero bytes, sizes and times of at most eleven octal digits, and items whose own type flag is not 'K' or 'L', which the reader takes for long names.
- LazyAlone.PtrAlone: from a cell that is not pending; while another thread is between reserve and publish, a ptr() alone spins.
- Archives are byte sequences: read errors, `tar_data_reader` as a stream, and the copying of a long name in pieces of 4096 bytes; a header field without a zero byte ends with the header here.
- Time points are seconds.
- System calls, sockets, events, files and memory maps; smart pointers, `result`, injectors and the other language plumbing.
- `ring_buffer.h`, `set.h`, `delta_vector.h`, `iterators.h`, `backoff.h`, `string_builder.h`, `resource_pool.h`: easy next to the above.
