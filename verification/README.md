# A verified model of the Boehm-Demers-Weiser collector

This project models the core of the Boehm-Demers-Weiser conservative garbage
collector (`bdwgc`) and proves what the collector is for: that no object the
program can still reach is ever left unmarked when marking ends, that the block
allocator never loses or duplicates memory, and that the tables both rely on
answer every query correctly. `dafny verify dfyconfig.toml` checks the project.

Build-time parameters (block size, granule, word size, alignment, hash table
sizes, number of markers) are constants without a value, so every theorem holds
for every configuration the source accepts.

## What is modelled

| files | subject |
|---|---|
| `ObjectGraph`, `MarkModel`, `MarkSafety`, `MarkProgress` | the incremental marker as a state machine interleaved with the mutator, its tri-colour invariant, and a measure of the work left |
| `Marker`, `CollectionDriver` | the marker's functions and the collection drivers as classes whose methods are proved to be runs of that machine |
| `MarkExact` | marking marks nothing but what it has to |
| `MarkRecovery`, `MarkFault` | faults in the midst of marking: when recovering from one loses nothing, and a run in which it does |
| `ParallelMark`, `ParallelWork`, `ParallelFinish`, `ParallelStart` | the parallel marker as interleaved atomic steps of any number of threads, what it does with its work, how a cycle can be ended, and how the marker starts one |
| `FreeLists`, `Tiling`, `BlockModel`, `BlockFree`, `BlackList`, `BlockHeap` | the large-block allocator: free lists linked through headers, splitting, coalescing, dropping, heap growth, black-listing |
| `HeaderIndex`, `HeaderQueries`, `ObjectBase`, `HeaderUpdates` | the two-level header index with its forwarding counts, the way from an address to its object, and the allocator's updates of the index |
| `Chains`, `LinkTable`, `LinkHash`, `Finalize` | the disappearing-link hash tables and finalization |
| `RangeSplit`, `Plausible`, `Exclusions`, `SizeMap` | splitting of mark stack ranges, the plausible-address bounds, the static-root exclusion table, the size map |
| `Config`, `Division` | build-time parameters, arithmetic |

Solver-heavy invariants are wrapped in predicates whose definition is used only
where a key for the very same arguments is mentioned (`TilePart`/`TileKey`,
`Sound`/`SoundKey` and others); a small `...Facts` lemma unwraps each.

## Main results

- **Marking is safe over every run** (`MarkSafety.MarkingIsSafe`): whatever the
  interleaving of marker steps, pointer stores with dirty bits, allocation,
  mark-stack overflow, rescans, faults that strike when the marks made so far are on
  record, stops of the world and sweeps that reuse
  memory, when a stopped mark phase ends every reachable object is marked, so that
  sweeping frees garbage only (`SweepFreesGarbage`). `Marker.Collector.MarkSome` and
  the drivers above it are proved to be such runs, to make progress on every call,
  and to end with complete marks if not asked to stop. The one fatal error, a mark
  stack without room for the static root ranges, is excluded by a condition on the
  roots alone (`Marker.RootsFit`), and `PushRanges` says exactly when it occurs.
- **Marking is exact** (`MarkExact.MarksExactly`): a stopped mark that completes marks
  what was marked at its start and what that and the roots lead to, and nothing else. A
  full collection therefore keeps exactly what roots and uncollectable objects lead to
  (`CollectionDriver.Driver.FullStoppedMark`, `MaybeGc`), and the sweep that follows leaves
  exactly that (`MarkExact.SweepLeavesLive`).
- **Parallel termination detection is right** (`ParallelSafety.TerminationIsDetected`,
  `CyclesDoNotOverlap`): a helper that leaves leaves nothing behind, although
  entries are taken from the shared stack without a lock and may be taken twice.
  Started from the marker's own invariant, a parallel cycle completes the marks
  (`ParallelStart.ParallelArmCompletes`), and marks nothing but what has to be
  (`ParallelArmIsExact`). Marks become invalid exactly when a stack overflows
  (`ParallelWork.OnlyOverflowInvalidates`). From every state of every run the cycle can be
  brought to its end (`ParallelFinish.CycleCanFinish`): no thread waits for what cannot
  happen, and the threads never have to go in circles.
- **Allocation and freeing keep the heap** (`BlockHeap.BlockHeap.Allochblk`,
  `FreeBlock`, `AddToHeap`): blocks tile the sections, adjacent free blocks are
  coalesced, each free block is on the list for its size, and bytes are conserved.
  `Allochblk` fails exactly when no free block can serve the request: for pointer-free
  requests of up to two blocks and uncollectable ones if all are too small, for others if
  none has a place that the black list leaves clear. What is given is the first such place.
- **The index answers like the set of block intervals it stands for**
  (`HeaderQueries`), and `ObjectBase.Base` finds exactly the object containing an
  address. Every step of the allocator, from the empty index on, keeps that so
  (`HeaderUpdates.Headers`).
- **Finalization** (`Finalize.Finalizer.Finalize`) queues exactly the finalizable
  objects that no tracing of a finalizable object reaches, marks exactly what these
  tracings reach and what has a finalizer, and clears exactly the dead links. Only a
  mark stack smaller than the number of unmarked objects can make a difference.
- **The size map is sound and tight** (`SizeMap.Map.Extend`): an entry is large enough
  for its index, exceeds it by at most five quarters and one and a half granules, and no
  larger even size lets as many objects fit in a block.
- **Splitting a range loses no word** (`RangeSplit.Scanner.MarkAll`), even one that
  straddles two pieces.

### Where the source does not hold what it says

- `bdwgc/mark.c:925-930` says that once the active count returns to zero it stays
  zero for the cycle. It does not: a helper can join after the last active thread has
  left and become active again (`ParallelSafety.LateHelperReactivates`). The count
  leaves zero exactly when such a helper enters (`OnlyEnterReactivates`,
  `DryUntilEntered`). What termination needs is weaker and true: it finds no work
  (`QuiescentUntilNextCycle`).
- A fault caught in the midst of marking makes marking start over. In all runs that can
  follow, this loses no reachable object if and only if the marks made so far are on record
  or are all on objects that are uncollectable or have no words
  (`MarkRecovery.RecoveryIsSafe`). While the first stacks are scanned they need not be,
  because `GC_objects_are_marked` is set only afterwards (`bdwgc/mark.c:377-378`):
  `MarkFault.FaultLosesObject` is a run from the start of the program.
- Adding a heap section while the least plausible address is zero raises that
  bound, so that sections below the new one are no longer covered.
  `Plausible.Bounds.AddToHeap` and `ExpandHp` state exactly when the bounds go on
  covering every section, and `Plausible.LosingASection` gives a history of three
  expansions, with the source's own increments and slop, that loses one.
- Excluding a static-root range shifts the table up before it checks for a free slot
  (`bdwgc/mark_rts.c:470-477`), so a full table is written one past its end if any
  range lies above the new one (`PastTheEnd` in `Exclusions.Table.Exclude`, with the
  exact condition; `Exclusions.FillingUp` reaches it for a table of any size). The
  check for overlap, which the source calls incomplete, is proved complete.
- After finalization the marks are closed under pointers if and only if no finalizer
  that ignores order belongs to an object that is unmarked, that no tracing reaches, and
  that points to something unmarked, not traced and without a finalizer
  (`Finalize.ClosedAgain`). `Finalize.NoOrderLeavesUnmarked` finalizes a heap where
  there is one.
- The size map as set up at start fits its table in every configuration but blocks of
  512 bytes with granules of 16 (`SizeMap.TinyFitsUnless`, `SizeMap.LastTinyInside`).

## Model

| member | source | states |
|---|---|---|
| `ObjectGraph.ClosedSetHoldsReachable` | bdwgc/doc/gcdescr.md:27-36 | marks that contain the root targets and are closed under pointers contain every reachable object |
| `MarkSafety.StepKeepsInv` | bdwgc/mark.c:331-453 | every step of the marker or the mutator keeps the invariant: a pointer to an unmarked object is on the stack, under the cursor, in a block still to be rescanned, on a dirty page, or in roots still to be pushed |
| `MarkSafety.RunKeepsInv` | bdwgc/mark.c:331-453 | the invariant holds in every state of every run |
| `MarkSafety.FinishedMarksAreClosed` | bdwgc/mark.c:386-419 | in a stopped world with mark state none, marks contain the root targets and are closed under pointers |
| `MarkSafety.MarkingIsSafe` | bdwgc/alloc.c:629-770 | after any run that may end a stopped mark phase, every reachable object is marked |
| `MarkSafety.PushMarkedFacts` | bdwgc/mark.c:1825-1875 | pushing a block's marked objects covers all their fields, or leaves the mark state invalid |
| `MarkSafety.StoreKeeps` | bdwgc/os_dep.c:2926-2932 | a pointer store that dirties its page keeps the invariant at every point of a collection |
| `MarkSafety.MarkAndPushKeeps` | bdwgc/include/private/gc_pmark.h:121-140 | marking an object covers its fields by a stack entry or leaves the mark state invalid |
| `MarkSafety.AllocBlockKeeps` | bdwgc/allchblk.c:814-841 | a block allocated during marking keeps the invariant: its objects are unmarked and hold no pointers yet |
| `MarkSafety.AllocObjectKeeps` | bdwgc/malloc.c:109-158 | so does an object allocated in a block that is already there |
| `MarkSafety.FaultKeeps` | bdwgc/mark.c:605-611 | starting over after a fault keeps the invariant if the marks made so far are on record or harmless |
| `MarkRecovery.RecoveryIsSafe` | bdwgc/mark.c:605-611 | every run after the recovery ends its stopped marks with everything reachable marked, if and only if the marks made before the fault are on record or on uncollectable or empty objects |
| `MarkRecovery.StaleLosesSomething` | bdwgc/mark.c:605-611 | from any state with such a mark that is not on record, the mutator and the marker can go on so that a reachable object is lost |
| `MarkFault.FaultLosesObject` | bdwgc/mark.c:605-611 | a run in which a fault strikes before that, and which ends with a reachable object unmarked |
| `MarkSafety.SweepKeeps` | bdwgc/reclaim.c:377-462 | freeing every unmarked object at the end of a stopped mark keeps the invariant |
| `MarkSafety.SweepFreesGarbage` | bdwgc/reclaim.c:377-462 | sweeping changes neither what is reachable nor the contents of anything reachable, and frees exactly what is not marked |
| `MarkProgress.PushMarkedFits` | bdwgc/mark.c:338-362 | with room for a block's objects on the stack, rescanning a block never overflows |
| `MarkProgress.MoreMarkedIsCloser` | bdwgc/mark.c:331-453 | marking one more object is progress whatever happens to the stack and the mark state |
| `MarkProgress.ScanAdvanceIsCloser` | bdwgc/mark.c:421-447 | going on to a later block is progress |
| `MarkProgress.MarkerRunFrame` | bdwgc/mark.c:331-453 | no run of the marker changes the heap, and marks only grow |
| `MarkExact.StepPrecise` | bdwgc/mark.c:331-453 | no step of the marker marks or pushes anything that roots and the objects marked at the start do not lead to |
| `MarkExact.MarksExactly` | bdwgc/mark.c:331-453 | a run of the marker that ends with complete marks has marked exactly what these lead to |
| `MarkExact.SweepLeavesLive` | bdwgc/reclaim.c:377-462 | after a stopped mark the sweep leaves exactly what roots and the objects marked at its start lead to; exactly the reachable objects if nothing was marked |
| `Marker.Collector.constructor` | bdwgc/mark.c:1338-1341 | the initial state is a start state of the machine |
| `Marker.Collector.PushEntry` | bdwgc/mark.c:621-636 | with room the new entry goes on top of the old ones; otherwise the newest are discarded, the new one is kept and the mark state becomes invalid |
| `Marker.Collector.MarkOne` | bdwgc/mark.c:652-918 | one entry or piece is scanned as machine steps, at least one word of work is done, and without new marks the stack work shrinks |
| `Marker.Collector.MarkFrom` | bdwgc/mark.c:652-918 | a bounded amount of scanning is a run of the machine and brings marking closer to its end |
| `Marker.Collector.NextUsedBlock` | bdwgc/headers.c:341-372 | finds the first block at or after an address |
| `Marker.Collector.BlockDirty` | bdwgc/mark.c:1918-1932 | true if and only if some page of the block hashes to a dirty entry |
| `Marker.Collector.NextRelevant` | bdwgc/mark.c:1937-2020 | the block found is the first from the scan pointer that has to be rescanned; none is skipped |
| `Marker.Collector.PushMarkedOf` | bdwgc/mark.c:1825-1875 | rescanning a block is the machine's scan step |
| `Marker.Collector.PushNext` | bdwgc/mark.c:1937-2020 | one relevant block is rescanned, or there is none left |
| `Marker.Collector.PushRanges` | bdwgc/mark_rts.c:773-788 | the static ranges are pushed if and only if the mark stack has room for all of them |
| `Marker.Collector.PushRoots` | bdwgc/mark_rts.c:767-835 | static ranges are pushed first, stacks are marked from last, as a run of the machine; it succeeds if and only if the ranges fit the stack |
| `Marker.Collector.ScanSome` | bdwgc/mark.c:348-360 | one step of the scan makes progress, and aborts if and only if no block is left and the static ranges do not fit |
| `Marker.Collector.SomeRescuers` | bdwgc/mark.c:338-362 | the push-rescuers arm is a run, makes progress, and cannot abort if the static ranges fit half of the initial stack |
| `Marker.Collector.SomeUncollectable` | bdwgc/mark.c:364-384 | the same for the push-uncollectable arm |
| `Marker.Collector.SomeRootsPushed` | bdwgc/mark.c:410-419 | the roots-pushed arm is a run, and finishes only with mark state none |
| `Marker.Collector.SomeInvalid` | bdwgc/mark.c:421-447 | the same for the invalid and partially-invalid arms |
| `Marker.Collector.GrowStack` | bdwgc/mark.c:1295-1336 | an empty stack doubles or stays, and the too-small flag is cleared |
| `Marker.Collector.MarkSome` | bdwgc/mark.c:331-453 | a call is a run, makes progress unless nothing is in progress, cannot abort if the static ranges fit, and in a stopped world returns done only with complete marks |
| `Marker.Collector.MarkUntil` | bdwgc/alloc.c:683-708 | the loop of a stopped mark phase ends, early only after exactly the number of calls at which it is told to stop; otherwise, if the static ranges fit, with complete marks |
| `Marker.Collector.StoppedMark` | bdwgc/alloc.c:629-770 | if the static ranges fit, the phase completes with every reachable object marked, and exactly what is live if the stack was empty; or it is abandoned on request and can go on later |
| `Marker.Collector.ReadDirty` | bdwgc/os_dep.c:2916-2921 | dirty bits move to the table marking uses, or are discarded, and start again empty |
| `Marker.Collector.InitiateGc` | bdwgc/mark.c:254-281 | fails exactly in states other than none and invalid; otherwise a collection starts with the recorded dirty bits, unless marks are invalid already |
| `Marker.Collector.ClearMarks` | bdwgc/mark.c:240-246 | a mark stays exactly if its object is in a block of one of the two uncollectable kinds; the mark state becomes invalid and the invariant holds |
| `Marker.Collector.InvalidateMarkState` | bdwgc/mark.c:615-619 | called between mark phases, the mark state becomes invalid, the stack empty, and the invariant holds |
| `Marker.Collector.RecoverFromFault` | bdwgc/mark.c:605-611 | called in the midst of marking, mark stack and register contents are gone and marking starts over; the collector is sound if marks made so far are on record or harmless |
| `Marker.Collector.WriteWord` | bdwgc/os_dep.c:2926-2932 | a store by the mutator keeps the collector sound; its page becomes dirty and no other within a table size does |
| `CollectionDriver.Driver.TryToFinish` | bdwgc/alloc.c:560-575 | finishing an incremental collection makes it safe to sweep, with exactly the live objects marked, or uses up one of finitely many attempts; it gives up only for lack of time while attempts are left; no abort if the static ranges fit |
| `CollectionDriver.Driver.ContinueCollection` | bdwgc/alloc.c:547-579 | each call completes the collection, uses up an attempt, or comes closer to the end of marking; no abort if the static ranges fit |
| `CollectionDriver.Driver.FinishInProgress` | bdwgc/alloc.c:452-463 | a collection in progress is brought to its end, unless the stop function asks otherwise; no abort if the static ranges fit |
| `CollectionDriver.Driver.FullStoppedMark` | bdwgc/alloc.c:487-505 | if the static ranges fit, a full collection ends safe to sweep unless asked to stop; marked is then exactly what roots and uncollectable objects lead to |
| `CollectionDriver.Driver.TryToCollect` | bdwgc/alloc.c:441-518 | if the static ranges fit, a collection completes safe to sweep unless disabled or asked to stop; disabled or stopped at once, nothing has changed; unless another was in progress, marked is exactly what roots and uncollectable objects lead to |
| `CollectionDriver.Driver.MaybeGc` | bdwgc/alloc.c:363-415 | nothing happens if no collection is due; a full one is due after the set number of partial ones, and its marks are exactly what roots and uncollectable objects lead to, those of a partial one also what was marked before; it is put off only for lack of time |
| `CollectionDriver.Driver.CollectALittle` | bdwgc/alloc.c:541-584 | disabled it does nothing; with a collection in progress each call completes it, uses up an attempt, comes closer to the end or pays off a deficit; otherwise it does what a collection that may be due does, and its marks are exact |
| `ParallelSafety.CountsKeep` | bdwgc/mark.c:1107-1204 | the active and helper counts equal the number of active and helping threads after every step |
| `ParallelSafety.CycleKeep` | bdwgc/mark.c:1210-1268 | threads help only in the current cycle, and only while the initiator has not finished it |
| `ParallelSafety.SharedKeep` | bdwgc/mark.c:986-1051 | nothing below the first-nonempty index is live, and live entries are valid ranges |
| `ParallelSafety.HelpersKeep` | bdwgc/mark.c:1057-1204 | what a helper holds stays consistent with the shared stack while others change it |
| `ParallelSafety.CoverageKeep` | bdwgc/mark.c:986-1097 | every pointer to an unmarked object stays on a live shared entry or in some helper's hands, unless marks are invalid, which `OnlyOverflowInvalidates` limits to overflow |
| `ParallelSafety.LeaveMeansQuiescent` | bdwgc/mark.c:1163-1180 | when a helper leaves, no thread holds work and no live entry is on the shared stack |
| `ParallelSafety.QuiescencePersists` | bdwgc/mark.c:1163-1172 | after that no step but a new cycle creates work |
| `ParallelSafety.RunKeepsInv` | bdwgc/mark.c:1107-1268 | all of the protocol's invariants hold in every state of every run |
| `ParallelSafety.TerminationIsDetected` | bdwgc/mark.c:1107-1204 | in any run a helper leaves only when all work is done, and then the marks are complete or known to be invalid |
| `ParallelSafety.QuiescentUntilNextCycle` | bdwgc/mark.c:925-930 | over any run without a new cycle, helpers that join late find and create no work |
| `ParallelSafety.CyclesDoNotOverlap` | bdwgc/mark.c:1210-1268 | the checks that abort at a start never fire, a cycle finishes only with all counts zero, and threads join only while it is open |
| `ParallelSafety.LateHelperReactivates` | bdwgc/mark.c:925-930 | a run in which the last active thread leaves and the active count then leaves zero again within the cycle |
| `ParallelSafety.OnlyEnterReactivates` | bdwgc/mark.c:925-930 | with nobody active and nothing on the stack, a step within the cycle makes the active count nonzero if and only if a helper enters |
| `ParallelSafety.DryUntilEntered` | bdwgc/mark.c:925-930 | over any run within the cycle the count stays zero until a helper enters |
| `ParallelWork.OnlyOverflowInvalidates` | bdwgc/mark.c:1024-1051 | a step within a cycle makes valid marks invalid if and only if the shared stack has no room for what is returned, or a local stack none for what is pushed |
| `ParallelWork.ReturnsWork` | bdwgc/mark.c:1024-1051 | with room, the entries a helper returns are on the shared stack, live and in order, above what was there, and the helper keeps the rest, about half when it shares its load |
| `ParallelWork.ReturnLosesNoWord` | bdwgc/mark.c:1024-1051 | so every word of its entries is on the shared stack or still its own |
| `ParallelWork.PushKeepsOlder` | bdwgc/include/private/gc_pmark.h:121-140 | a marked object is pushed on top of the local stack, and an overflow loses at most the set number of newest entries |
| `ParallelWork.SplitsInHalves` | bdwgc/mark.c:698-722 | a long range is replaced by two halves that overlap in one word |
| `ParallelWork.CalmTermination` | bdwgc/mark.c:1107-1204 | in any run in which no stack has overflowed since marks were valid, marks are complete when a helper leaves |
| `ParallelWork.HelpersStealFew` | bdwgc/mark.c:986-1020 | on every run a helper takes at most two entries from a stack of fewer than ten and at most six from a longer one |
| `ParallelWork.StepPrecise` | bdwgc/mark.c:1057-1204 | no step of a thread marks or hands on anything that roots and the objects marked at the start do not lead to |
| `ParallelWork.NeverStuck` | bdwgc/mark.c:1107-1268 | in every state within a cycle some thread can take a step |
| `ParallelFinish.NextStepProgress` | bdwgc/mark.c:1057-1204 | a thread that has anything to look at can take its next step, which touches no other thread and brings down the work in front of it |
| `ParallelFinish.SoloRun` | bdwgc/mark.c:1107-1204 | so by itself it gets to where it waits with nothing left to look at |
| `ParallelFinish.CycleCanFinish` | bdwgc/mark.c:1107-1268 | from every state of every run that is within a cycle, some run ends the cycle, with no work left |
| `ParallelStart.RootsPushedCovers` | bdwgc/mark.c:386-399 | with roots pushed in a stopped world, the mark stack covers every pointer to an unmarked object |
| `ParallelStart.ParallelArmCompletes` | bdwgc/mark.c:386-408 | from there a parallel cycle can begin, and when a thread leaves it the marks are complete or known to be invalid, and complete if no stack has overflowed |
| `ParallelStart.ParallelArmIsExact` | bdwgc/mark.c:386-408 | complete marks of such a cycle are exactly what roots and the objects marked before it lead to |
| `BlackList.BlackLists.constructor` | bdwgc/blacklst.c:107-121 | nothing is black-listed at first |
| `BlackList.HashApart` | bdwgc/include/private/gc_priv.h:902-902 | blocks share an entry of the tables only if they are a table size apart |
| `BlackList.BlackLists.IsBlackListed` | bdwgc/blacklst.c:229-258 | zero if and only if no block of the range is listed; otherwise every start before the result is listed, so none is skipped |
| `BlackList.BlackLists.FirstUsableStart` | bdwgc/allchblk.c:703-717 | the search finds the first start that is not listed, if one leaves enough room |
| `BlackList.BlackLists.AddNormal` | bdwgc/blacklst.c:182-200 | exactly the blocks sharing the hash entry become candidates, if the offset is valid and the block is outside the heap or listed before; no other block within a table size is affected |
| `BlackList.BlackLists.AddStack` | bdwgc/blacklst.c:204-219 | the same for pointers found on stacks |
| `BlackList.BlackLists.Promote` | bdwgc/blacklst.c:137-168 | what the last collection found is what is listed from now on |
| `FreeLists.FlMonotone` | bdwgc/allchblk.c:84-91 | larger blocks are on later lists, and the exact lists hold one size each |
| `FreeLists.FlWidth` | bdwgc/allchblk.c:84-91 | the lists in between hold at most eight neighbouring sizes each, and the last one exactly the huge blocks |
| `FreeLists.AddedOk` | bdwgc/allchblk.c:356-385 | adding a block keeps all lists doubly linked, disjoint and their byte counts exact |
| `FreeLists.RemovedOk` | bdwgc/allchblk.c:297-317 | removing a block does so too |
| `FreeLists.ReplacedOk` | bdwgc/allchblk.c:556-585 | replacing a block by a later part of it does so too |
| `BlockModel.ValidMeans` | bdwgc/allchblk.c:103-119 | what a valid heap is: blocks tile the sections, forwarding counts are right, lists hold exactly the free blocks, byte counts are exact, no two free blocks are adjacent |
| `BlockModel.HeapIsConserved` | bdwgc/allchblk.c:103-119 | bytes in use plus bytes on the free lists are the heap size, which is the sum of the sections |
| `BlockModel.SplitOffValid` | bdwgc/allchblk.c:556-585 | splitting keeps the heap valid except that the rest may be on the wrong list |
| `BlockModel.KeepFirstLoose` | bdwgc/allchblk.c:515-540 | returning the tail of a block leaves only the head unlisted |
| `BlockModel.OccupiedValid` | bdwgc/allchblk.c:816-841 | allocating the unlisted block makes the heap valid again |
| `BlockModel.VacatedLoose` | bdwgc/allchblk.c:857-877 | marking a block free leaves the heap valid but for that block |
| `BlockFree.MergedNextLoose` | bdwgc/allchblk.c:881-888 | merging the next block restores coalescing on that side |
| `BlockFree.MergedPrevReady` | bdwgc/allchblk.c:889-903 | merging into the previous block restores it on the other |
| `BlockFree.InsertedValid` | bdwgc/allchblk.c:908-909 | putting the merged block on its list makes the heap valid |
| `BlockFree.DroppedValid` | bdwgc/allchblk.c:769-788 | dropping a black-listed block in single units keeps the heap valid |
| `BlockFree.GrownLoose` | bdwgc/alloc.c:1135-1192 | a new section leaves the heap valid but for the block it consists of |
| `BlockHeap.BlockHeap.constructor` | bdwgc/allchblk.c:48-54 | an empty heap is valid |
| `BlockHeap.BlockHeap.RemoveFromFlAt` | bdwgc/allchblk.c:297-317 | the pointer updates remove the block from its list |
| `BlockHeap.BlockHeap.AddToFl` | bdwgc/allchblk.c:356-385 | the pointer updates put the block first on the list for its size and mark it free |
| `BlockHeap.BlockHeap.ComputeLargeFreeBytes` | bdwgc/allchblk.c:103-119 | walking all lists finds exactly the recorded number of free bytes |
| `BlockHeap.BlockHeap.PrevBlock` | bdwgc/headers.c:377-406 | the last block that starts at or before a unit |
| `BlockHeap.BlockHeap.FreeBlockEndingAt` | bdwgc/allchblk.c:327-352 | the free block that ends where this one starts, or none exactly if there is none |
| `BlockHeap.BlockHeap.SplitBlock` | bdwgc/allchblk.c:556-585 | the rest takes the place of the block on its list, the front moves to its own list |
| `BlockHeap.BlockHeap.GetFirstPart` | bdwgc/allchblk.c:515-540 | the block has the requested size and the tail is a free block on its own list |
| `BlockHeap.BlockHeap.TakeAt` | bdwgc/allchblk.c:718-842 | exactly the requested units at the chosen place become allocated, and the heap stays valid |
| `BlockHeap.BlockHeap.Examine` | bdwgc/allchblk.c:676-757 | a block that can serve is taken exactly if it fits or the next block is not obviously better; one that cannot is passed over, or found hopeless |
| `BlockHeap.BlockHeap.Search` | bdwgc/allchblk.c:700-757 | the first place the black list leaves clear, or the start for a very large request in a much larger block; hopeless exactly if a single unit is wanted and the whole block is listed |
| `BlockHeap.BlockHeap.PassHopeless` | bdwgc/allchblk.c:754-795 | every fourth hopeless block is dropped, none when looking for leaks |
| `BlockHeap.BlockHeap.Drop` | bdwgc/allchblk.c:769-788 | a completely black-listed block becomes allocated single units |
| `BlockHeap.BlockHeap.AllochblkNth` | bdwgc/allchblk.c:666-842 | fails if and only if no block of the list can serve; otherwise grants a right place; other allocated blocks are unchanged |
| `BlockHeap.BlockHeap.Allochblk` | bdwgc/allchblk.c:602-655 | in terms of the kind: uncollectable requests and pointer-free ones of up to two units fail if and only if every admissible block is too small, and get the start of a block; all others fail if and only if no place in an admissible block is clear for the units that count, nor both request and rest very large, and get the first clear place; allocated blocks stay, and nothing else changes but for single units that heed the black list |
| `BlockHeap.UnservableMeans` | bdwgc/allchblk.c:602-655 | a request that ignores the black list fails if and only if every free block is too small |
| `BlockHeap.BlockHeap.Coalesce` | bdwgc/allchblk.c:878-909 | a freed block is merged with its free neighbours and listed, and the heap is valid |
| `BlockHeap.BlockHeap.Freehblk` | bdwgc/allchblk.c:851-910 | the two aborts happen exactly for oversized and for already free blocks; otherwise just that block becomes free |
| `BlockHeap.BlockHeap.FreeBlock` | bdwgc/allchblk.c:851-910 | in a valid heap only a second free can fail, and freeing keeps validity and all other allocated blocks |
| `BlockHeap.BlockHeap.AddToHeap` | bdwgc/alloc.c:1135-1192 | all outcomes and when they occur; an added section becomes free memory of a valid heap |
| `BlockHeap.Usable` | bdwgc/alloc.c:1143-1155 | exactly the units of a section that avoid the first two blocks and the last of the address space |
| `HeaderIndex.Index.GetBi` | bdwgc/include/private/gc_hdrs.h:170-181 | the hash chain leads to the bottom index of an address, or to the empty one |
| `HeaderIndex.SlotApart` | bdwgc/include/private/gc_hdrs.h:171-171 | bottom indices less than a table size apart are on different hash chains |
| `HeaderIndex.Index.LinkInOrder` | bdwgc/headers.c:239-254 | the new bottom index is linked in key order in both directions |
| `HeaderIndex.Index.GetIndex` | bdwgc/headers.c:210-256 | afterwards the address has a bottom index, and no entry has changed |
| `HeaderIndex.Index.InstallHeader` | bdwgc/headers.c:261-274 | one entry changes |
| `HeaderIndex.Index.RemoveHeader` | bdwgc/headers.c:294-300 | one entry is cleared |
| `HeaderIndex.Index.InstallCounts` | bdwgc/headers.c:277-291 | interior entries become forwarding counts, all others keep their value |
| `HeaderIndex.Index.RemoveCounts` | bdwgc/headers.c:303-309 | interior entries are cleared, all others keep their value |
| `HeaderIndex.Index.HdrAt` | bdwgc/include/private/gc_hdrs.h:182-193 | look-up through the hash chain gives the entry |
| `HeaderQueries.ExpectedIsFlat` | bdwgc/headers.c:277-309 | the index of a block heap is its headers and its forwarding counts |
| `HeaderQueries.JumpDown` | bdwgc/include/private/gc_hdrs.h:203-209 | a forwarding count leads towards the start of the block and not past it |
| `HeaderQueries.NextUsedBlock` | bdwgc/headers.c:341-372 | the first allocated block at or after an address, or none exactly if there is none |
| `HeaderQueries.PrevBlock` | bdwgc/headers.c:377-406 | the last block at or before an address |
| `HeaderQueries.ApplyToAllBlocks` | bdwgc/headers.c:313-337 | every allocated block is visited exactly once and nothing else is |
| `HeaderQueries.FollowCounts` | bdwgc/misc.c:441-449 | following counts from any unit of an allocated block ends at its header |
| `ObjectBase.Base` | bdwgc/misc.c:430-467 | the start of the object containing the address, or zero exactly if no object does |
| `ObjectBase.HeaderCacheMiss` | bdwgc/headers.c:56-108 | the header of the block a pointer may point into, or nothing exactly if it may point into none; black-listed exactly then, unless it leads past the first unit of an allocated block where such pointers do not count |
| `HeaderUpdates.Headers.constructor` | bdwgc/headers.c:193-205 | the empty index describes the empty set of blocks |
| `HeaderUpdates.IndexOfHeap` | bdwgc/headers.c:277-309 | for a valid heap of the allocator, the index describes its blocks if and only if it holds their headers and the allocator's own forwarding counts |
| `HeaderUpdates.Headers.AddSection` | bdwgc/alloc.c:1156-1168 | a header for a new free block keeps the index describing the blocks |
| `HeaderUpdates.Headers.Allocate` | bdwgc/allchblk.c:816-824 | so do the forwarding counts and the header of an allocated block |
| `HeaderUpdates.Headers.Free` | bdwgc/allchblk.c:864-877 | so does removing the counts of a freed block |
| `HeaderUpdates.Headers.SplitFree` | bdwgc/allchblk.c:556-585 | so do the two headers of a block that is split |
| `HeaderUpdates.Headers.MergeFree` | bdwgc/allchblk.c:881-903 | so does removing the header of a block that is merged into the one before |
| `HeaderUpdates.Headers.Drop` | bdwgc/allchblk.c:777-788 | so do the headers of a block dropped in single units |
| `HeaderUpdates.Headers.ObjectOf` | bdwgc/misc.c:430-467 | after any of these steps the object containing an address is found, or there is none |
| `LinkTable.Table.Grow` | bdwgc/finalize.c:96-134 | rehashing into twice the buckets keeps the contents |
| `LinkTable.Table.Register` | bdwgc/finalize.c:146-212 | no table, duplicate, no memory and success, and exactly when; the link is in the table after duplicate and success; the table doubles exactly if it is missing or has more entries than buckets |
| `LinkTable.Table.Unregister` | bdwgc/finalize.c:231-257 | found if and only if registered, and gone afterwards |
| `LinkTable.Table.Move` | bdwgc/finalize.c:495-547 | all outcomes and when; success renames the link and changes nothing else |
| `LinkTable.Table.Filter` | bdwgc/finalize.c:889-918 | the traversal deletes exactly the entries that fail the test |
| `LinkHash.SlotSpreads` | bdwgc/finalize.c:26-29 | in an aligned window of as many words as there are buckets each word has a bucket of its own |
| `Finalize.Finalizer.MarkFo` | bdwgc/include/private/gc_pmark.h:426-434 | what the mark procedure pushes and everything reachable from it becomes marked, and nothing else but the object itself after an overflow, which needs more unmarked objects than stack entries |
| `Finalize.Finalizer.CompleteMarks` | bdwgc/include/private/gc_pmark.h:430-433 | after an overflow the marks become closed and only what the finalizer leads to is added |
| `Finalize.Finalizer.Trace` | bdwgc/finalize.c:977-992 | every finalizable object has been traced; each new mark is led to by a finalizer of an unmarked object or is the object of an ordered finalizer whose tracing overflowed |
| `Finalize.Finalizer.Enqueue` | bdwgc/finalize.c:993-1033 | exactly the entries whose object is unmarked leave the table for the queue |
| `Finalize.Finalizer.MakeLinksDisappear` | bdwgc/finalize.c:920-935 | exactly the links to unmarked objects are removed; each of them reads null afterwards, and no other word changes |
| `Finalize.Finalizer.RemoveDangling` | bdwgc/finalize.c:937-950 | a link stays exactly if it is outside the heap or in a marked object |
| `Finalize.Finalizer.Finalize` | bdwgc/finalize.c:955-1097 | exactly which finalizers are queued and what is marked; short links to objects unmarked before and long links to objects unmarked after the tracing read null and no other word changes; exactly which links remain; no overflow if the unmarked objects fit the stack |
| `Finalize.QueuedInOrder` | bdwgc/finalize.c:974-992 | no queued object is reachable from a finalizable object registered in the normal way |
| `Finalize.ClosedAgain` | bdwgc/finalize.c:993-1033 | marks are closed afterwards if and only if no unordered finalizer of an unreached object points to something that nothing keeps |
| `Finalize.QueuedReachIsMarked` | bdwgc/finalize.c:993-1033 | under that condition everything reachable from a queued object is marked |
| `Finalize.NoOrderLeavesUnmarked` | bdwgc/finalize.c:621-621 | finalizing a heap after which a queued object points to an unmarked one |
| `RangeSplit.WordsMean` | bdwgc/mark.c:834-839 | the word positions of a range |
| `RangeSplit.PieceAndRest` | bdwgc/mark.c:723-738 | a piece and the rest cover the words of the range, straddling ones included |
| `RangeSplit.TwoHalves` | bdwgc/mark.c:698-722 | the two shared halves cover the words of the range |
| `RangeSplit.Scanner.ShareOnce` | bdwgc/mark.c:698-722 | the first half, in whole words and with one word more, goes on the stack |
| `RangeSplit.Scanner.LastPlausible` | bdwgc/mark.c:852-873 | the backward search skips only words that cannot be heap pointers |
| `RangeSplit.Scanner.ScanRange` | bdwgc/mark.c:836-915 | the plausible words of the range are considered, no more and no less |
| `RangeSplit.Scanner.Iterate` | bdwgc/mark.c:674-916 | considered and pending words together stay the same, and the load shrinks |
| `RangeSplit.Scanner.MarkFrom` | bdwgc/mark.c:652-918 | so does a call with any credit |
| `RangeSplit.Scanner.MarkAll` | bdwgc/mark.c:652-918 | when the stack is empty exactly those words of all entries have been considered whose value is between the plausible bounds |
| `Plausible.Increment` | bdwgc/alloc.c:1252-1253 | an expansion is the least number of whole pages that is enough for the request and for the smallest increment |
| `Plausible.Bounds.AddToHeap` | bdwgc/alloc.c:1181-1191 | the new bounds, which cover every section if and only if the lower one was not zero with a section below the new one |
| `Plausible.Bounds.ExpandHp` | bdwgc/alloc.c:1252-1295 | the same after an expansion, with its increment in whole pages, slop and wrap-around, and the exact exception; the bounds reach beyond the section by the slop in the direction of growth |
| `Plausible.LosingASection` | bdwgc/alloc.c:1252-1295 | three expansions after which a section is outside the bounds |
| `Exclusions.OnlyTheFirst` | bdwgc/mark_rts.c:455-469 | looking at one range decides overlap and adjacency with all of them |
| `Exclusions.Table.NextExclusion` | bdwgc/mark_rts.c:424-441 | binary search finds the first range that ends after the address |
| `Exclusions.Table.Exclude` | bdwgc/mark_rts.c:445-481 | all outcomes and exactly when; success adds exactly the range to what is excluded |
| `Exclusions.FillingUp` | bdwgc/mark_rts.c:470-477 | a table of any size can be filled so that the next exclusion is written past its end |
| `Exclusions.Table.PushConditional` | bdwgc/mark_rts.c:501-517 | the ranges pushed are ordered, disjoint and cover exactly what is not excluded |
| `SizeMap.Map.constructor` | bdwgc/misc.c:231-246 | if the tiny sizes fit, the initial map satisfies the invariant |
| `SizeMap.InitSizeMap` | bdwgc/misc.c:231-246 | setting up the map stays inside it in every configuration but one, and then the invariant holds |
| `SizeMap.TinyFitsUnless` | bdwgc/misc.c:238-244 | the tiny sizes fit if and only if it is not 512-byte blocks with 16-byte granules |
| `SizeMap.LastTinyInside` | bdwgc/misc.c:238-244 | the last index of the initial loop is inside the map if and only if the tiny sizes fit |
| `SizeMap.FillBlockFills` | bdwgc/misc.c:281-291 | as many objects fit in a block as before, no larger even size has that property, and sizes grow by at most half |
| `SizeMap.Map.Choose` | bdwgc/misc.c:252-291 | the granules chosen suffice and are at most an eighth more than asked for, filling starts no lower than three quarters of the size, and the sizes just below are filled already or will be |
| `SizeMap.Map.Extend` | bdwgc/misc.c:252-298 | every filled entry is large enough for its index and not too much bigger, filled runs reach down by a quarter, no entry is lost, and the one new size is the largest even one that fits a block as often |

## Left out

- The allocator and the marker are separate models: `MarkModel` has its own blocks, so a block of the allocator is not the same value as a block of the marker; the allocator's methods do not call those of `HeaderUpdates.Headers`, but both are stated with the same functions, and `IndexOfHeap` says what the index of a valid heap is.
- Marker.Collector.WriteWord: the store and the dirtying of its page are one step; a collection cannot start between them.
- Marker.Collector.PushRoots: every root area is pushed, because outside the heap every page counts as dirty; the tests of individual root pages are not modelled.
- MarkSafety.SweepKeeps: all garbage is freed at once at the end of a stopped mark, where the source sweeps block by block later on; explicit freeing and the marking of free lists are not modelled.
- Bitmap, procedure and per-object descriptors, the disclaim and gcj kinds: an object is a length of words, as with a length descriptor.
- LinkTable.Table.Register: the leak-finding mode and the API wrappers' alignment checks are not modelled.
- Finalize.Finalizer.Finalize: Java finalization and toggle references are off; finalizers are sequences of buckets, since only their order matters there; objects are scanned whole, so that the pieces of large objects do not take up stack entries of their own.
- BlockHeap.BlockHeap.Allochblk: running out of memory for headers or bottom indexes is not modelled; the split limit and the black-list spacing are parameters, since they come from statistics of earlier collections.
- BlockHeap.BlockHeap.Freehblk: sizes are in whole blocks; the rounding of a byte size is in `ObjectBase.BlocksFor`.
- Finalize.Finalizer.CompleteMarks: marked objects are rescanned, but the roots are not pushed again as the source does; at the end of a collection what they point to is marked already, unless the program has changed them in the meantime.
- HeaderIndex.Index.GetIndex: getting memory for a bottom index never fails.
- Plausible.Bounds.AddToHeap: the section has already been cut to its usable part, as `BlockHeap.Usable` describes.
- Unmapping of memory, typed allocation, thread-local free lists, stopping of threads, finding of roots and stacks, debugging and logging would add cases but no harder property.
