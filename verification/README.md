# A verified model of the Boehm-Demers-Weiser collector's core

This project models the hard core of the collector in Dafny and proves what its design rests on. `dafny verify
dfyconfig.toml` checks all of it.

## What is modelled

**The marker** (`MarkHeap`, `MarkSpec`, `Mutator`, `Marker`, `MarkRuns`, `MarkDriver`). `GC_mark_some` is a six-state
machine over mark bits, a bounded mark stack and `GC_scan_ptr`. When the stack overflows it throws entries away and
recovers by rescanning the heap. `MarkSpec.Consistent` says, state by state, where the marker will still come across a
pointer from a marked object to an unmarked one: on the stack, in a dirty block, or in a block the scan has still to
visit. `Marking.Marker` is the machine itself, down to the scan of a range word by word; `Mutator` is the program that runs
between its steps and only leaves dirty pages behind; `MarkRuns` interleaves both freely; `MarkDriver` has the drivers
of `alloc.c` with their attempts and deficits. The ghost field `bound` of the marker carries the other direction of
exactness: no object outside it is ever marked.

**The parallel marker** (`ParallelMark`, `ActiveCount`, `ParallelEnds`). Atomic steps of any number of helpers over a
shared append-only stack: reading and advancing `GC_first_nonempty`, reading descriptors, zeroing them, marking,
returning entries, notifying, waiting and leaving. What is marked is exact, and marking comes to an end without any
wake-up but by notification.

**Stopping the world** (`StopWorld`, `StopEnds`). Atomic steps of any number of threads, of the thread that stops them,
and of signal delivery, over repeated stops.

**Blocks** (`HeapMap`, `Headers`, `FreeLists`, `Tiling`, `HeapAccount`, `Coalescing`, `HeapOps`, `Allocator`,
`MergeUnmapped`, `HeapRuns`). The two-level index with its forwarding counts refines an interval map from pages to blocks
(`HeapMap.Tiled`); the doubly linked lists refine sequences (`FreeLists.Consistent`). The functions of `HeapOps` are the
steps that allocation and freeing are made of; the methods of the classes `Headers` and `Allocator` are shown to perform
them in place.

**Finalization** (`LinkTable`, `Finalize`, `Collection`). The chained hash tables refine finite maps. `Finalize` is the
algorithm on top of them and of the marker; `Collection` joins it to full collections and to incremental ones. Where
pointers may be half-word aligned, a store of NULL to a link also changes the words that overlap it; what these happen to
name from then on counts as stale.

**Tables** (`BlackList`, `SizeMap`, `Exclusions`). `Basics` has what several of these share.

Sizes of blocks are counted in pages of 4096 bytes. In the marker, addresses count steps of `ALIGNMENT` bytes, and a word
is one or two of them, so both aligned targets and those with half-word aligned pointers are covered.

Memory obtained from the system, when the time limit passes, how often the stop function says no, the decisions whether
a collection is due and whether the next one must be a full one, and whether growing the mark stack succeeds are inputs
or arbitrary choices.

## Where the code differs from what is said about it

- A comment in the parallel marker says that `GC_active_count`, once it has returned to zero, stays zero for the cycle.
  `ActiveCount.MayRise` is a run in which it does not. `ActiveCount.StaysZeroExactly` says which steps raise it, and
  `ActiveCount.StaysZeroForGood` when it does stay zero: if and only if nothing is left above `GC_first_nonempty` and
  nobody can join. What the design rests on is not the count: no work is left from the moment a helper leaves
  (`ParallelMark.LeftMeansQuiet`).
- Incremental marking promises that every object reachable when it ends is marked. The write barrier records stores, but
  an allocation can turn a word that was left over in a marked, clean object into a pointer without any store: small
  pointer-free blocks, for one, are allocated without consulting the black lists. Such words are called stale here.
  `MarkRuns.StaleWordIsMissed` is a run where that happens. `MarkRuns.StoppedMarkIsSafe` says exactly which objects are
  missed, `MarkRuns.StaleHistory` where such words come from, `MarkRuns.StoppedMarkIsComplete` that nothing is missed
  without them, and `Collection.CollectALittleAndFinalize` that only such objects are finalized too early. Full
  collections are exact in any case.
- After an abandoned collection in non-incremental mode the mark stack is flushed and the state is invalid while objects
  stay marked, which the per-state invariant does not cover. The next collection clears all marks first, and
  `MarkDriver.Driver.TryToCollectInner` therefore asks for no more than a well-formed stack there.
- The signed test of the merged size lets two neighbours of 2^63 bytes or more together stay apart. "No two adjacent free
  blocks" is stated with that exception, and without it for heaps below 2^63 bytes (`Coalescing.SmallHeapAlone`).

## Model

| member | source | states |
|---|---|---|
| MarkDriver.Driver.TryToCollectInner | alloc.c:544-640 | A full collection that finishes has marked exactly the objects reachable from the roots or from objects of uncollectable blocks that were marked, however often the mark stack overflowed and whatever state an incremental collection had been left in; with a stop function that never stops, it terminates. It gives up only because the stop function said so, and the process ends only if there are more static roots than always fit on the mark stack; with neither it is done. |
| MarkDriver.Driver.StoppedMark | alloc.c:797-898 | A stopped mark that returns TRUE leaves state MS_NONE, no dirty pages and fresh roots, and the objects reachable from roots or marked objects that are not marked are exactly those that stale words lead to; the collection number grows exactly then; the heap is untouched and no mark is lost. It gives up exactly when the stop function answers yes for the first time, which becomes the deficit, and then the collection is in progress. |
| MarkDriver.Driver.ContinueCollection | alloc.c:690-746 | An incremental step loses no mark, and either the collection has ended, with only what stale words lead to missed and the attempts starting over, or it is still in progress and of the same kind: with fewer attempts left because time ran out during the stopped mark that follows a finished phase, or in a smaller state, or in the same state with a smaller deficit. |
| MarkDriver.Driver.FollowUp | alloc.c:711-736 | The stopped mark after a phase may run out of time only a bounded number of times in a row; if it does not, only what stale words lead to is missed. It runs out of time only if time was limited and there were attempts left. |
| MarkDriver.Driver.FinishInProgress | alloc.c:557-571 | Driving an incremental collection to its end terminates, overflows, abandoned attempts and deficits included, and does nothing when none is in progress. A collection in progress ends by having been counted as a collection. |
| MarkDriver.Driver.MaybeGc | alloc.c:472-518 | A collection that succeeds has marked all that is reachable from roots and marked objects but for what stale words lead to, and exactly the reachable objects if it was a full one; full ones happen when one is needed or enough partial ones have passed, and a partial one that ran out of time counts as the first attempt. When no collection is due nothing changes. A collection that is due takes place in full unless it is incremental and time ran out. |
| MarkDriver.Driver.ChooseKind | alloc.c:490-503 | A full collection starts from the marks of uncollectable objects, a partial one from those of the previous collection. |
| MarkDriver.Driver.FullCollection | alloc.c:598-623 | From any sane state, with the world stopped: the marks are exactly the objects reachable from the roots or from objects of uncollectable blocks that were marked. |
| MarkDriver.Driver.CollectALittle | alloc.c:690-746 | Whichever way the collector goes on, when a collection ends only what stale words lead to is missed. Otherwise, if one was due or in progress, one is in progress. |
| MarkDriver.Driver.Round | alloc.c:690-746 | The same after the world has run for any number of mutator steps. |
| MarkDriver.NothingMissed | alloc.c:797-898 | Without stale words nothing reachable is missed. |
| MarkDriver.MarksExact | mark.c:296-413 | Where the bound that GC_clear_marks sets and the closure at the end of marking meet: the marks are exactly the reachable objects, in both directions. |
| MarkDriver.ReachableTransitive | alloc.c:797-898 | An exact mark set is also closed under reachability from itself. |
| MarkRuns.StoppedMarkIsSafe | alloc.c:797-898 | For every run of marking steps, mutator steps, flushed stacks, cleared marks and restarts in any order: if a stopped mark then reaches MS_NONE, an object reachable at that moment is unmarked if and only if a chain of unmarked objects leads to it from a stale word in a marked object. |
| MarkRuns.StaleHistory | mark.c:1913-1950 | A word is stale only if it stood in a marked object of a clean block when what it names was allocated, and has not been written since before that. |
| MarkRuns.StoppedMarkIsComplete | alloc.c:797-898 | If no allocation in the run hands out memory that such a word already names, everything reachable is marked. |
| MarkRuns.MissingTakesAllocation | alloc.c:797-898 | If some object is missed, the run has such an allocation. |
| MarkRuns.StaleWordIsMissed | allchblk.c:795-811 | A run in which a left-over word makes a freshly allocated object reachable and the stopped mark does not mark it. |
| MarkRuns.StoppedMarkProgresses | mark.c:296-413 | While the world is stopped each step is smaller in a well-founded order, so marking ends despite overflows. |
| MarkRuns.RunConsistent | mark.c:296-413 | Every state of every such run satisfies the marker's invariant. |
| MarkSpec.MarkStepKeeps | mark.c:296-413 | Each call of GC_mark_some that asks for more keeps the invariant and makes the measure of unmarked objects, state, blocks left and stack bytes smaller. |
| MarkSpec.FinishStepKeeps | mark.c:354-366 | The call that reports the end of a mark phase keeps the invariant. |
| MarkSpec.FinishedIsClosed | mark.c:354-366 | In MS_NONE with nothing dirty and fresh roots, the marked set holds every root target and is closed under points-to except at stale words. |
| MarkSpec.MissedExactly | mark.c:354-366 | Exactly the objects that stale words lead to are reachable and unmarked; so all reachable objects are marked if and only if no stale word in a marked object refers to an unmarked one. |
| MarkSpec.MutatorKeeps | mark.c:1913-1950 | A mutator that respects the write-barrier contract cannot break the invariant, whatever state marking was interrupted in. |
| MarkSpec.ScannedKeeps | mark.c:1894-1984 | A scan that pushed the marked objects of a block, or skipped uninteresting ones, may move GC_scan_ptr past them; at the end of the heap every pointer to an unmarked object is pending or its block is dirty. |
| MarkSpec.MarkedFromKeeps | mark.c:546-809 | Marking from the stack keeps the invariant even when it overflows and throws entries away, and makes progress. |
| MarkSpec.RootsPushedKeeps | mark.c:271-279 | Pushing the roots once the scan has reached the end keeps the invariant, also when the eager part overflows. |
| MarkSpec.RescanConsistent | mark.c:381-407 | After an overflow, rescanning the whole heap for marked objects restores what the lost entries stood for. |
| MarkSpec.ClearedConsistent | mark.c:218-225 | Clearing marks, except those of uncollectable objects, establishes the invariant whatever was marked. |
| MarkSpec.InitiatedConsistent | mark.c:229-251 | Reading the dirty bits when a collection starts turns what mutators dirtied into what the scan will visit. |
| Mutator.MutatorStepRespectsBarrier | mark.c:1870-1889 | Stores into objects, changes of roots, fresh blocks and reclaimed objects all meet the write-barrier contract, given that each store dirties its page; what an allocation makes of left-over words is recorded as stale. |
| Mutator.WriteRespectsBarrier | mark.c:1870-1889 | A store only creates new pointers in an object whose block counts as dirty afterwards, also for objects of many pages. |
| Mutator.MutatorRunKeeps | mark.c:1913-1950 | Any number of mutator steps keep the marker's invariant. |
| Mutator.ObjectsDisjoint | mark.c:1773-1826 | Objects laid out as GC_push_marked enumerates them never share an address. |
| Marking.Marker.constructor | mark.c:1220-1223 | A marker with nothing marked and an empty stack satisfies the invariant. |
| Marking.Marker.FinishedClosed | mark.c:354-366 | When a mark phase has ended with nothing dirty and fresh roots, only what stale words lead to is missed. |
| Marking.Marker.MarkSome | mark.c:296-413 | One call keeps the invariant and loses no mark; it reports the end of the phase only in state MS_NONE, and otherwise has made progress. It aborts only if there are more static root ranges than always fit on the mark stack. |
| Marking.Marker.MarkFrom | mark.c:546-633 | Emptying the stack, or a page's worth of it, loses no pending position unless the stack overflowed, in which case something new was marked. Without overflow the books balance for every position: it has been examined as often as it was pending or belongs to a newly marked object, less what is still pending. If the stack has room for every unmarked object it does not overflow. |
| Marking.AllExaminedOnce | mark.c:546-809 | Once the stack is empty, each candidate position of a newly marked object has been examined exactly once more than it was pending before, and any other exactly as often as it was, over all splits of long ranges. |
| Finalization.Drain | finalize.c:298-305 | Marking until the stack is empty: unless it overflows, no pending position is lost, and every position is examined as often as it was pending, plus once if it belongs to a newly marked object. It does not overflow if there is room for every unmarked object. |
| Marking.Marker.ScanRange | mark.c:728-805 | Scanning down to the first plausible word, deferring it, and scanning up from the start examines every candidate position of the range exactly once and nothing else. |
| Marking.Marker.FindDeferred | mark.c:735-765 | The scan down stops at the highest plausible word; everything above it is no pointer. |
| Marking.Marker.ExamineUpTo | mark.c:768-790 | The scan up examines exactly the positions up to the limit, once each. |
| Marking.Marker.TakeRange | mark.c:565-633 | What is taken off the stack and what stays on it together cover the entry, and do not overlap; no position becomes pending more or less often. |
| MarkHeap.SplitCoversOnce | mark.c:617-633 | Splitting a long range puts every candidate position on exactly one side of the cut. |
| MarkHeap.HalvesCover | mark.c:591-616 | Halving a range for sharing keeps every candidate position, and only the one at the cut is examined twice. |
| Marking.Marker.PushContents | include/private/gc_pmark.h:138-360 | The target is marked, and pushed only if it was not; an overflow happens only together with a new mark. With room for every unmarked object there is none, and that room remains. |
| Marking.Marker.PushObj | include/private/gc_pmark.h:119-136 | The object's range is on the stack afterwards unless it has none or the stack overflowed. |
| Marking.Marker.SignalOverflow | mark.c:514-529 | The state becomes invalid and exactly GC_MARK_STACK_DISCARDS entries are thrown away. |
| MarkHeap.BlockObjsFit | mark.c:304-325 | A block never has more objects than the room each scanning state leaves on the mark stack, so its scan cannot overflow it. |
| Marking.Marker.PushMarked | mark.c:1773-1826 | All marked objects of the block are on the stack afterwards, and it did not overflow where room was left. |
| Marking.Marker.PushNextMarked | mark.c:1894-1910 | The marked objects of the next block at or above h are pushed; 0 is returned only when there is none. |
| Marking.Marker.PushNextMarkedDirty | mark.c:1913-1950 | The same for the next block with a page in the dirty snapshot; all blocks in between are clean. |
| Marking.Marker.PushNextMarkedUncollectable | mark.c:1955-1984 | The same for the next uncollectable block. |
| Marking.Marker.BlockWasDirty | mark.c:1870-1889 | True exactly when the block's page, or any page of a large object, is in the dirty snapshot. |
| Marking.Marker.PushAll | mark.c:1232-1252 | Exactly the given range is added to the stack, unless the stack is full, and only then the process ends. |
| Marking.Marker.PushAllEager | mark.c:1503-1525 | Nothing in the range refers to an unmarked object afterwards, and no pending position is lost unless the stack overflowed. |
| Marking.Marker.PushRoots | mark_rts.c:881-955 | Every root position that refers to an unmarked object is pending afterwards, unless the stack overflowed; the process ends exactly if the static ranges do not all fit on the stack. |
| Marking.Marker.PushRootsAndAdvance | mark.c:271-279 | Nothing happens before the scan reaches the end of the heap; then the roots are pushed and, unless the state became invalid, it is MS_ROOTS_PUSHED. The process ends exactly if they do not fit. |
| Marking.Marker.AllocMarkStack | mark.c:1171-1213 | The stack is empty afterwards whether or not growing it succeeded. |
| Marking.Marker.ClearMarks | mark.c:218-225 | Exactly the marks of uncollectable objects stay, and from an empty stack nothing but what they and the roots reach may get marked from here on. |
| Marking.Marker.UnmarkCollectable | mark.c:157-168 | Walking all blocks keeps a mark exactly when its object is uncollectable. |
| Marking.Marker.InitiateGc | mark.c:229-251 | The dirty bits are read and reset, and the scan starts from the first block. |
| Marking.Marker.InvalidateMarkState | mark.c:508-512 | The stack is flushed and the state is MS_INVALID. |
| Marking.Marker.MarkUntilDone | alloc.c:851-890 | The marking loop of a stopped mark: it stops early exactly when the stop function says so, after that many steps; otherwise it ends with MS_NONE and fresh roots. |
| Marking.Marker.MarkSteps | alloc.c:699-709 | Up to the given number of steps; if none finished the phase, exactly as many were made, and each made progress. |
| Marking.Marker.MutatorsRun | mark.c:1913-1950 | The collector's state after the world ran for a while is consistent again. |
| ParallelMark.ParallelMarkIsExact | mark.c:1109-1140 | For any number of helpers and any interleaving of their atomic steps: if GC_do_parallel_mark returned and no overflow occurred, the marked set holds the initial marks and targets, is closed under points-to, and lies within every closed set that holds them. That it returns, and when an overflow occurs, is stated by the next rows. |
| ParallelEnds.ParallelMarkReturns | mark.c:1011-1140 | However the helpers are scheduled and whoever joins when, GC_do_parallel_mark returns, even if nobody ever wakes without having been notified: every step makes one measure smaller. |
| ParallelEnds.ParallelMarkCanReturn | mark.c:1046-1140 | From every state of every run there is a continuation to the return in which nobody joins and nobody wakes unnotified. |
| ParallelEnds.NeverStuck | mark.c:1046-1140 | In every state of every run short of the return somebody inside can take a step without waking unnotified: no notification is missing. |
| ParallelEnds.StepShrinks | mark.c:878-1140 | Each step of a helper has fewer helpers outside, fewer unmarked objects, fewer objects about to be marked twice, less room on the shared stack, less work, fewer entries not known to be taken, or is nearer to one of these or to leaving, in this order. |
| ParallelEnds.SteadyKept | mark.c:921-1105 | A helper sleeps unnotified only while others are active and nothing is on the shared stack; the last one to leave has notified the initiator; and a steal that begins finds an entry. |
| ParallelEnds.ValidWhileFitting | mark.c:921-943 | Over any run the mark state becomes invalid exactly if some step pushed more than fits on the shared stack or on a local one. |
| ParallelEnds.InvalidExactly | mark.c:921-943 | The same for one step. |
| ParallelMark.LeftMeansQuiet | mark.c:1011-1105 | As soon as any helper has left GC_mark_local all shared entries are taken and all local stacks empty, and that stays so. |
| ParallelMark.LeavingIsQuiet | mark.c:1046-1081 | When a helper finds no active helper and GC_first_nonempty above the top, nothing is left to do. |
| ParallelMark.NextKeeps | mark.c:878-1165 | Every atomic step keeps: entries below GC_first_nonempty and below each helper's my_first_nonempty are taken, the two counters count the active and the entered helpers, no work is lost unless the mark state is invalid, and nothing unreachable is marked. |
| ParallelMark.RunKeeps | mark.c:878-1165 | That invariant holds after every run. |
| ParallelMark.ClaimKeeps | mark.c:878-911 | Stealing an entry loses no work, even when two helpers take the same one. |
| ParallelMark.SwapFirstKeeps | mark.c:1034-1042 | Advancing GC_first_nonempty by compare-and-swap with a stale value never moves it past an entry that is not taken. |
| ParallelMark.ShareHalfKeeps | mark.c:982-1000 | Returning the lower half of a local stack to the shared one loses no work unless it does not fit. |
| ParallelMark.SetMarkKeeps | mark.c:966-1000 | Testing and setting a mark bit not being atomic is harmless: the object's words end up pending with whoever set it. |
| ParallelMark.BeginEstablishes | mark.c:1109-1130 | Starting a parallel mark establishes the invariant whatever GC_first_nonempty held before. |
| ActiveCount.StaysZeroForGood | mark.c:815-821 | After any run in which GC_active_count has come back to zero, it stays zero in every continuation of the mark phase if and only if GC_first_nonempty is above the top of the shared stack and no helper can join any more. |
| ActiveCount.StaysZeroExactly | mark.c:1046-1087 | From an index of a run where the count is zero, it stays zero up to a later one if and only if no step in between is a helper joining or one going on because GC_first_nonempty is not above the top. |
| ActiveCount.RaisesExactly | mark.c:1046-1165 | With the count at zero, a step makes it positive exactly if it starts a mark, lets a helper in, or is a decision to go on; and only testing, waking up and returning are left otherwise. |
| ActiveCount.MayRise | mark.c:815-821 | A run of three helpers in which the count returns to zero, and a continuation in which it is positive again. |
| StopWorld.WorldIsStopped | pthread_stop_world.c:1043-1087 | In every run, with any threads and any number of earlier stops: whenever GC_stop_world has returned, the semaphore is zero and every other thread that is neither finished, blocking nor gone is inside the handler, has saved its stack pointer for this stop, and has acknowledged it exactly once. |
| StopEnds.StopCompletes | pthread_stop_world.c:919-1087 | From every state of every run in which the world is being stopped there is a continuation to the return of GC_stop_world, by steps of the stopping thread and of suspend handlers only, in which threads wake by their restart signals only. |
| StopEnds.RestartCompletes | pthread_stop_world.c:1256-1340 | From every state of every run in which the world is stopped or being restarted there is such a continuation to a state in which all threads have returned to client code. |
| StopWorld.HaltedUntilRestart | pthread_stop_world.c:384-400 | Such a thread stays in the handler until GC_stop_count changes, whatever other signals wake it. |
| StopWorld.NothingLeftOver | pthread_stop_world.c:433-450 | While the world runs or restarts the semaphore is zero and no suspend signal is pending or half handled, even though threads may still be leaving the handler. |
| StopWorld.NextKeeps | pthread_stop_world.c:324-450 | Every atomic step of every thread keeps the invariant behind these statements, threads that disappear during a stop included. |
| StopWorld.AwaitedThreadAdvances | pthread_stop_world.c:324-400 | A thread that the barrier waits for always has a step to take towards its acknowledgement, and one that still sleeps in the handler of the previous stop has its restart signal pending: no wake-up is lost. |
| StopWorld.NothingSetsBack | pthread_stop_world.c:324-450 | No step of anyone takes an awaited thread further away from its acknowledgement. |
| StopWorld.BarrierNotStuck | pthread_stop_world.c:433-450 | If the stopping thread must wait at the barrier, there is a thread it waits for. |
| StopWorld.RunWakeful | pthread_stop_world.c:1256-1340 | After every run, a thread that sleeps for a stop that is over has its restart signal pending or still to be sent. |
| StopWorld.PostKeeps | pthread_stop_world.c:377-383 | The semaphore counts exactly the acknowledgements that the barrier has not yet consumed. |
| HeaderIndex.Headers.Base | misc.c:421-455 | Returns an address exactly when some object holds p, and then the start of that object: the forwarding chain ends at the header of the block that the interval map gives. |
| HeaderIndex.OneHolder | misc.c:421-455 | At most one object holds an address, so what GC_base returns is determined. |
| HeapMap.CountLeadsBack | include/private/gc_hdrs.h:121-126 | A forwarding count leads to an entry of the same block, towards its header and never past it, so that following counts terminates. |
| HeaderIndex.Headers.NextBlock | headers.c:358-391 | The first block (or used block) at or above h, across bottom indices; none exactly when there is none. |
| HeaderIndex.Headers.PrevBlock | headers.c:393-424 | The last block at or below h, used or free; none exactly when there is none. |
| HeaderIndex.Headers.ApplyToAllBlocks | headers.c:332-356 | Visits every used block, no free one, and none twice. |
| HeaderIndex.Headers.GetIndex | headers.c:212-261 | The page has a bottom index afterwards, linked in at its place in key order, and no entry changes. |
| HeaderIndex.Headers.SetHdr | include/private/gc_hdrs.h:168-205 | Exactly one page's entry changes. |
| HeaderIndex.Headers.InstallHeader | headers.c:266-281 | Exactly page h gets a header. |
| HeaderIndex.Headers.InstallCounts | headers.c:284-302 | Every other page of the block gets its forwarding count, across as many bottom indices as the block spans, and nothing else changes. |
| HeaderIndex.Headers.RemoveCounts | headers.c:314-330 | Exactly the entries of those pages go. |
| HeaderIndex.Headers.RemoveHeader | headers.c:305-311 | Exactly the entry of page h goes. |
| HeapRuns.Run | allchblk.c:690-1007 | Any sequence of expanding, allocating, freeing, unmapping and merging keeps sections tiled by blocks, headers and counts right, each free block on exactly the list for its size, and the byte counters conserved; without unmapping, and below 2^63 bytes, no two free neighbours that could be merged remain. |
| BlockAllocation.Allocator.Conservation | allchblk.c:123-129 | GC_large_free_bytes is the size of the free part of the heap, and with the used and dropped blocks it makes up GC_heapsize. |
| HeapAccount.FreeBytesConserved | allchblk.c:116-129 | The counts of the lists add up to the free pages, counted page by page from the interval map. |
| BlockAllocation.Allocator.ComputeLargeFree | allchblk.c:60-129 | Walking all lists along their links adds up to GC_large_free_bytes. |
| BlockAllocation.Allocator.Allochblk | allchblk.c:690-743 | The block returned was free and has the size and header asked for; apart from blocks dropped as unusable nothing else changes hands. If a free block of exactly the size needed can serve, such a block is returned, whatever the policy. Otherwise it is cut off the first block that can serve on the lowest list that has one, which is not kept back by the split limit. None means that no block of exactly the size can serve, and that every other is too small, has no clean start while its size does not exceed the black-list limit, would have to be remapped, or is kept back. |
| BlockAllocation.Allocator.ExactFitRemains | allchblk.c:865-890 | Dropping blocks never takes one that would fit exactly. |
| BlockAllocation.Allocator.SplitLimit | allchblk.c:705-731 | Lists above the limit are exactly kept back because too few large free bytes would be left, or finalizers free a lot; remapping is avoided only when memory can be unmapped and something may be split. |
| BlockAllocation.Allocator.AllochblkNth | allchblk.c:755-939 | The same for one list: the block is the first on it that can serve or is not passed over for a smaller clean one after it. None means that every block left on it is too small for an exact fit or a split, or, if the black lists matter to the request, has no clean start while its size does not exceed the black-list limit, or would have to be remapped and does not start clean; if they do not matter, the heap is as it was. |
| BlockAllocation.Allocator.Examine | allchblk.c:766-909 | A block is taken from its lowest clean start; the black lists are ignored only if it has none and exceeds the limit; it is dropped only when none of its pages is clean, every fourth time; and it is passed over only for one of the reasons the search has. |
| BlockAllocation.Allocator.Freehblk | allchblk.c:948-1007 | The block and its free, mapped neighbours that fit become one block on the list for its size; counters grow by its size; no two free neighbours remain that could be merged. |
| BlockAllocation.Allocator.Free | allchblk.c:948-1007 | As its callers see it: exactly that block is no longer used and GC_large_free_bytes grows by its size. |
| BlockAllocation.Allocator.AddToHeap | alloc.c:1338-1423 | The new pages, without the first page of the address space and its end, join the heap as one more section and are free; plausible heap bounds still enclose the heap. |
| BlockAllocation.Allocator.SplitBlock | allchblk.c:644-673 | The second part takes the place of the block on its list, which need not be the list for its size; nothing else is misplaced. |
| BlockAllocation.Allocator.GetFirstPart | allchblk.c:601-631 | The block is off its list, wherever that was, and what it has beyond the bytes asked for is a free block on the right list: a misplaced block does not survive. |
| BlockAllocation.Allocator.RemoveFromFlAt | allchblk.c:314-335 | The block's neighbours on the list are linked to each other and the list's byte count shrinks by its size. |
| BlockAllocation.Allocator.RemoveFromFl | allchblk.c:338-341 | The block leaves the list for its size and nothing else changes. |
| BlockAllocation.Allocator.AddToFl | allchblk.c:384-416 | The block heads the list for its size, is marked free, and everything else stays where it was. |
| FreeLists.RemoveKeeps | allchblk.c:314-335 | Unlinking keeps all doubly linked lists consistent, also for a block that is on the wrong list. |
| FreeLists.PushKeeps | allchblk.c:384-416 | Putting a block first keeps all doubly linked lists consistent. |
| FreeLists.HalveKeeps | allchblk.c:644-673 | Exchanging a block for its second part keeps all lists consistent, with that part as the only misplaced block. |
| FreeLists.ListForMonotone | allchblk.c:97-104 | Larger blocks are never on lists of smaller numbers, and the first lists hold one size each. |
| BlockAllocation.Allocator.GetBlockEndingAt | allchblk.c:344-366 | The block that ends at h; None exactly when there is none. |
| BlockAllocation.Allocator.FreeBlockEndingAt | allchblk.c:368-380 | The same for free blocks. |
| BlockAllocation.Allocator.EnoughLargeBytesLeft | allchblk.c:83-94 | The highest list such that it and those above hold enough free bytes. |
| BlockAllocation.Allocator.UseBlock | allchblk.c:239-311 | The block is used with the header asked for, its pages have forwarding counts, and nothing else changes. |
| BlockAllocation.Allocator.DropBlock | allchblk.c:865-890 | Every page of the block becomes a used block of its own and is counted as dropped. |
| Tiling.TiledSplit | allchblk.c:644-673 | Cutting a free block keeps the heap tiled. |
| Tiling.TiledMerge | allchblk.c:974-1001 | Joining neighbours keeps the heap tiled. |
| Tiling.TiledUse | allchblk.c:601-631 | Giving a block out with forwarding counts keeps the heap tiled. |
| Tiling.TiledFree | allchblk.c:948-973 | Taking the counts away and marking the block free keeps the heap tiled. |
| Coalescing.SmallHeapAlone | allchblk.c:974-1001 | In a heap below 2^63 bytes the signed size test never keeps free neighbours apart. |
| MergeUnmapped.MergeUnmapped | allchblk.c:524-588 | Terminates, and afterwards no free block could be merged with its successor, whatever mixture of mapped and unmapped blocks there was. The free blocks have changed by merging adjacent pairs one after the other and by nothing else, the smaller of each pair having been mapped or unmapped like the larger; used blocks and heap are untouched. |
| MergeUnmapped.Consider | allchblk.c:533-569 | Two neighbours are merged exactly when both are free and the merged size is positive as a signed word; which one is unmapped or mapped first follows their sizes. |
| MergeUnmapped.DoneAfterMerge | allchblk.c:524-588 | A merge never makes two other blocks mergeable, so lists that were done stay done. |
| BlackListing.BlackList.IsBlackListed | blacklst.c:244-274 | None exactly when no page of the block is listed bit by bit, skipped words included; otherwise the page after the first listed one. |
| BlackListing.BlackList.FirstClean | allchblk.c:795-811 | The search stops at the lowest clean start, or has proved that there is none up to its end. |
| BlackListing.SameWord | blacklst.c:258-272 | The pages that a zero word lets the scan skip all hash into that word. |
| Finalization.Finalizers.Finalize | finalize.c:991-1146 | From marks that are closed but for stale words, as every kind of collection leaves them. Unless the mark stack overflows: exactly the finalizable objects outside the marks of the first pass are enqueued and marked; none of them is at the end of a pointer chain, stale words apart, from an entry with the normal procedure, and if all of them have it the final marks are closed but for stale words; short links are judged by the marks before, long ones by the final marks; links located in unmarked objects are dropped, and exactly the locations of links to dead objects are cleared; table and queue together keep all entries. It does not overflow if it has room for all unmarked objects and one more. |
| Finalization.EnqueuedInOrder | finalize.c:1014-1078 | No enqueued object is at the end of a non-empty pointer chain from an entry with the normal mark procedure, so no object on a cycle of such entries is enqueued; and if only such entries are, nothing reachable from them is unmarked. |
| Finalization.NoChainToEnqueued | finalize.c:1014-1044 | What is at the end of a non-empty pointer chain from an entry with the normal mark procedure is marked before the queue is filled, so it, and every object on a cycle, is never enqueued. |
| Finalization.NormalEnqueuedClosed | finalize.c:1046-1078 | If only such entries are enqueued, everything reachable from an enqueued object is marked. |
| Finalization.LinksLeft | finalize.c:935-987 | A surviving link has a marked target and a location outside the heap or in a marked object; a link to a newly enqueued object survives exactly if it is long. |
| Finalization.LocationInOneObject | finalize.c:957-963 | At most one object holds a link's location, and the link is kept by that object's mark. |
| Finalization.ClearedTwice | finalize.c:1137-1146 | Over both passes exactly the locations of dead links are cleared, also where the words of two links overlap. |
| Finalization.Finalizers.MarkFinalizable | finalize.c:1014-1044 | Without overflow, and whatever the order of the table, the marks hold everything that the old marks and the procedures of all finalizable objects reach without stale words, and nothing that they do not reach with them. |
| Finalization.PassMarksExact | finalize.c:1014-1044 | With no stale words that is one set, what the old marks and all the procedures reach. |
| Finalization.ClearedStillClosed | finalize.c:970-970 | A store of NULL leaves closed marks closed, but for the words that overlap the one that is cleared. |
| Finalization.MarkFo | finalize.c:298-305 | Without overflow all that the mark procedure refers to is marked, and marks that are closed but for stale words stay so. There is no overflow if all unmarked objects and one more fit on the stack. |
| Finalization.PushOutside | finalize.c:633-654 | Every word that does not point into the object itself has been examined. The same bound excludes an overflow. |
| Finalization.Finalizers.Enqueue | finalize.c:1046-1078 | Exactly the unmarked entries leave the table, in front of the queue, and their objects are marked. |
| Finalization.Finalizers.DropDead | finalize.c:935-987 | Exactly the links to unmarked objects go, and exactly their locations are cleared; a word that overlaps one of them may change and is stale from then on, unless it was zero. |
| Finalization.Finalizers.DropDangling | finalize.c:935-987 | Exactly the links located in unmarked objects go. |
| Finalization.FinMarksLeast | finalize.c:1014-1044 | What the first pass marks is the least closed set that holds the old marks and what the procedures refer to. |
| Collection.CollectAndFinalize | alloc.c:1101-1160 | A whole collection with finalization, which takes place unless there are too many static roots: what is reachable from the roots or from objects of uncollectable blocks that were marked is marked and never enqueued, what is enqueued is marked, no entry is lost. |
| Collection.CollectALittleAndFinalize | alloc.c:690-746 | However an incremental, partial or full collection ends: no marked object is enqueued, and an enqueued object that can still be reached is one that a stale word of before leads to. |
| LinkTables.LinkTable.Register | finalize.c:160-230 | The map gains or updates exactly this link; GC_DUPLICATE exactly when it was there. |
| LinkTables.LinkTable.Unregister | finalize.c:248-276 | The map loses exactly this link and its object is returned. |
| LinkTables.LinkTable.Move | finalize.c:525-579 | The entry is renamed, also within one bucket; not found, duplicate and identical keys change nothing. |
| LinkTables.LinkTable.SetFinalizer | finalize.c:680-812 | Replaces, removes or adds exactly this object's finalizer and returns the old one. |
| LinkTables.LinkTable.Grow | finalize.c:93-148 | Rehashing into twice as many chains is the identity on the map. |
| LinkTables.LinkTable.Find | finalize.c:176-195 | The cell of the key and its predecessor; nothing exactly when the key is not in the map. |
| LinkTables.LinkTable.Sweep | finalize.c:937-987 | Walking all chains while deleting visits every entry: exactly the entries that satisfy the condition go. |
| LinkTables.RehashStep | finalize.c:129-145 | Moving one cell to its new chain keeps every other cell in the chain it was or has been moved to. |
| LinkTables.RehashDone | finalize.c:129-148 | When all old chains have been walked the new ones hold the whole table. |
| SizeMapping.SizeMap.Extend | malloc.c:108-156 | The entry asked for is filled, every filled entry covers its size with the extra byte and is at most MAXOBJGRANULES, filled entries do not decrease, none becomes unfilled, and the rounding leaves as many objects per block. The sizes are evened up from at most an eighth more than asked for, or from that itself where the map is still empty nearby, and then are the largest even ones with as many objects per block; entries are filled from three quarters of the size on at the lowest. |
| SizeMapping.RoundingKeepsObjects | malloc.c:139-147 | The final rounding never lowers the number of objects per block nor the object size. |
| SizeMapping.RoundingIsLargest | malloc.c:139-147 | With any larger even size fewer objects fit in a block. |
| SizeMapping.FillingIsSound | malloc.c:148-155 | Filling keeps the map sound even where it overwrites entries that are filled. |
| SizeMapping.SizeMap.constructor | misc.c:240-255 | The entries for tiny sizes are filled and the rest are not. |
| Exclusions.ExclusionTable.Exclude | mark_rts.c:563-600 | Refused exactly when the range overlaps one that is there; otherwise the table stays sorted and disjoint, backward extension included, and excludes exactly the old ranges and the new one. |
| Exclusions.ExclusionTable.NextExclusion | mark_rts.c:539-561 | The binary search finds the first exclusion that ends above the address. |
| Exclusions.ExclusionTable.PushWithExclusions | mark_rts.c:629-647 | Pushes exactly what is in the range and not excluded, as ascending pieces with gaps between them. |

## Left out

- Roots: the root set is always pushed whole; conditional roots, dynamic libraries and the pushing of registers are not modelled.
- Object descriptors other than lengths: bitmaps, mark procedures, per-object descriptors, disclaim and unconditional marking, whose meaning depends on client code.
- Kinds: an uncollectable block stands for `UNCOLLECTABLE`, and one with descriptor 0 for pointer-free objects; `AUNCOLLECTABLE` is not told apart.
- The word-level test that turns a word into an object base is a map in the marker (`resolve`) and the function of `GC_base` in `HeaderIndex`; the header cache between them is not modelled.
- The accelerated `GC_push_marked1`, `2` and `4`, prefetching, and statistics.
- The parallel branch inside `GC_mark_some`: `ParallelMark` starts from a stack with all roots on it and works on objects; thread creation and `GC_help_marker`'s waiting for a next collection are not modelled.
- ParallelMark.ParallelMarkIsExact: says nothing after an overflow of a local or shared stack, because the state is then MS_INVALID and the sequential machine takes over.
- ParallelEnds.ParallelMarkReturns: a range that is cut in two more than once at a time is one entry afterwards, and the words at the cuts beyond the first are not repeated.
- Waiting in `GC_help_marker` for a mark to begin is not modelled, so a new mark notifies nobody here.
- StopEnds.StopCompletes: states that completion is always possible, and `StopWorld.NothingSetsBack` that nothing works against it, not that the system's scheduler brings it about.
- MarkDriver.Driver.TryToCollectInner: how many static root ranges fit beyond the number that always do depends on the state of the stack; `Marking.Marker.PushRoots` is exact.
- Weak memory: the steps of the parallel marker and of the signal handshake are sequentially consistent.
- Sweeping and free lists of objects inside a block; the marker sees sweeping as `Mutator.Reclaimed`.
- Page protection and the actual reading of dirty bits: only sets of pages.
- Signal resending under `GC_retry_signals`, equal suspend and restart signals, `GC_suspend_thread`, and wrap-around of `GC_stop_count`.
- StopWorld.AwaitedThreadAdvances: states that each awaited thread can step and gets closer, not that the system's scheduler lets it.
- Failure to allocate a header or an index, overflow of an address in `get_index`, and the hash chains of the top-level index, which is a map from keys here. Headers are values in the index, not objects of their own.
- Real mapping and unmapping of memory: only the flags. `GC_unmap_old` is the unmapping of any free block at any time; its threshold and its counting of regions are not modelled.
- MarkDriver.Driver.ContinueCollection: the heap stays as it is between the marking steps of one call, where the code lets other threads run; `MarkDriver.Driver.Round` has them run between calls, and `MarkRuns.StoppedMarkIsSafe` between any two steps.
- MarkDriver.Driver.FinishInProgress: terminates with no mutator step between its calls; with them there is no bound on the work.
- StopWorld.WorldIsStopped: a thread may cease to exist at any time except between the arrival of a suspend signal and its acknowledgement, for which the barrier would wait for ever, and except while it stops the world itself.
- Adding to and promoting the black lists: `BlackListing` has arbitrary tables.
- HeapRuns.Run: free neighbours are proved to be merged without unmapping and in heaps below 2^63 bytes only; with unmapping `MergeUnmapped.MergeUnmapped` restores it.
- Exclusions.ExclusionTable.Exclude: the code moves entries up before it finds the table full and aborts; here the test comes first, since nothing happens after the abort.
- LinkTables.LinkTable.Grow: the collection that `GC_grow_table` may trigger is absent.
- LinkTables.LinkTable.Move: the moved cell gets a new number, where the code relinks the same one.
- Hash keys are word addresses; running out of memory while registering is not modelled.
- Finalization.Finalizers.Finalize: threads do not run while links are cleared and marks are set. Nothing is said about marks if the mark stack overflows in `GC_mark_fo`; Java mode, toggle references, the unreachable mark procedure and the marking of the table's own cells are not modelled.
- Invoking finalizers, `GC_finalize_all`, environment variables, logging, getters and setters, and debugging aids.
