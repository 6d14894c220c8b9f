# Verification of the operating-systems projects

A Dafny model of the three algorithmic programs of this repository, with proofs
of what they promise. `dafny verify dfyconfig.toml` checks all of it.

## The programs

**Hierarchical virtual memory.** `VMread` and `VMwrite` present a flat array of
words. Underneath, a small RAM holds both the pages and the tables of a
multi-level page table, and a swap file holds the pages that do not fit. Nothing
else is stored: which frame is a table, which is a page, and which page a leaf
holds is implicit in the nonzero cells reachable from frame 0. A translation may
reclaim an empty table, take a frame never used, or evict a page while it is in
the middle of a walk.

The model keeps the imperative form: `Ram` has the RAM as an array of frames and
the swap file as a map field, `PagedMemory` has the operations as methods. The
assertions of `PhysicalMemory.cpp` are preconditions that every caller meets.
The one ghost field, `tree`, maps the path of each linked frame to its frame
number; it is determined by the RAM words (`PageTree.ViewIsUnique`). Page size,
depth, number of frames and number of pages are parameters (`Geometry`), with
only what the code needs of them (`PageTree.Admissible`): at least two words to
a page, more frames than levels, and no more pages than paths. The number of
pages may be less than the number of paths, as it is when the depth was rounded
up.

A page touched for the first time holds whatever its frame held before, so the
memory seen by the caller is partial: `Pages()` maps each page touched so far to
its words. The main results: every call is one access to that flat memory
(`VMread`, `VMwrite`), so in every run a read returns the last value written
there (`AccessRuns.LastWriteWins`); in the middle of a walk the page table keeps
its shape, the frames in use stay contiguous, and at most one table besides the
one the walk stands at is empty (`FrameChoice.WalkSurvives`); and there is always
a page to evict when one is needed (`FrameChoice.FarthestExists`), so the three
assertions of `PMevict` hold. `Faults` records a translation fault by fault: what
an access swaps out is always the resident page farthest from the page accessed.

**User-level threads.** The scheduler keeps the same facts in a ready queue, a
blocked vector, a sleeping map, a thread map, a counter and a map of threads
waiting to be freed. `SchedulerSpec` is the library as a state machine in which
`T` is the identity of a thread object; `Uthreads` is the library as a class
over thread objects, with the loops of the original, and each of its calls is
proved to be the machine's step. The other modules prove what holds in every
run: consistency, the order of the ready queue, quantum conservation, bounded
waiting, the exact sleep deadline, and when thread objects are freed. One call,
with the scheduler invocation it leads to, is one step; so is one timer tick.

**MapReduce.** `PairVectors` and `Grouping` define merging and grouping;
`ShuffleStage` has the in-place pairwise merge and the grouping loop as code
over shared vectors. `JobProtocol` is the job as an interleaving of any number
of threads, where one atomic increment or one mutex-protected block is one step,
with the barrier used twice. Proved for every interleaving: pairs and outputs are
conserved, the phases stay apart, no thread is stuck, every schedule ends, and
the groups are those of a sequential job, with pairs and outputs in the order the
schedule leaves them. `CounterClient` is the sample client; its output is proved
exact.

## Where the code and its documentation differ

- `uthread_resume` also fails when a thread that ended itself with the same id
  is still waiting to be freed, although a thread with that id may exist by then
  (`uthreads.h:73-81` names only a missing thread). The model follows the code;
  `SchedulerEffects.FailsWhen` says exactly when each call fails.
- Freeing a thread erases an entry of the blocked vector by thread id. When the
  id has been reused by a thread that is now blocked, that thread's entry is
  erased, and `uthread_resume` can no longer wake it: it never runs again until
  it is ended (`SchedulerBlocking.LostForGood`).
  `SchedulerReclaim.EntryCanBeLost` is a run in which this happens, and
  `SchedulerBlocking.StepExact` says exactly when: the blocked vector stays exact
  in a step if and only if the step does not enter the scheduler while a blocked
  thread has the id of a thread waiting to be freed.
- `VMinitialize` clears the RAM but not the swap file: a second call forgets the
  resident pages and keeps the others (`VirtualMemory.PagedMemory.VMinitialize`).

## Model

| member | source | states |
|---|---|---|
| PageNumbers.IndicesAreDigits | Hierarchical_Virtual_Memory_System/VirtualMemory.cpp:252-256 | the index the walk takes at each level is that digit of the address's page number |
| PageNumbers.PathNumberOfPagePath | Hierarchical_Virtual_Memory_System/VirtualMemory.cpp:113 | folding the indices of a page's path, as the search does, gives the page number back |
| PageNumbers.PagePathOfPathNumber | Hierarchical_Virtual_Memory_System/VirtualMemory.cpp:113 | every path of digits is the path of the page number it folds to, which is below the page size to the power of the depth |
| PageNumbers.DistinctPagesDistinctPaths | Hierarchical_Virtual_Memory_System/VirtualMemory.cpp:252-256 | two pages never share a path |
| PageTree.CodeIsAdmissible | Hierarchical_Virtual_Memory_System/MemoryConstants.h:10-33 | the sizes the code is compiled with (16 words, 64 frames, 65536 pages, 4 levels) are admissible, and every path is a page |
| PhysicalMemory.Ram.ReadsWord | Hierarchical_Virtual_Memory_System/PhysicalMemory.cpp:16-26 | reading the address of word j of frame f is inside the RAM and gives exactly that word |
| PhysicalMemory.Ram.PMwrite | Hierarchical_Virtual_Memory_System/PhysicalMemory.cpp:28-38 | exactly the named word changes |
| PhysicalMemory.Ram.PMevict | Hierarchical_Virtual_Memory_System/PhysicalMemory.cpp:40-50 | with the three assertions as preconditions, the frame's words are added to the swap file |
| PhysicalMemory.Ram.PMrestore | Hierarchical_Virtual_Memory_System/PhysicalMemory.cpp:52-68 | a swapped page moves into the frame and leaves the swap file; a page never swapped out changes nothing |
| PageTree.ViewIsUnique | Hierarchical_Virtual_Memory_System/VirtualMemory.cpp:97-136 | the RAM words determine which frames are linked, where, and which page each leaf holds |
| PageTree.ReclaimKeepsPages | Hierarchical_Virtual_Memory_System/VirtualMemory.cpp:158-165 | clearing the parent cell of an empty table leaves a consistent page table with the same pages |
| PageTree.EvictKeepsPages | Hierarchical_Virtual_Memory_System/VirtualMemory.cpp:173-178 | copying a leaf to the swap file and clearing its parent cell leaves a consistent page table with the same pages |
| PageTree.LinkTableKeepsPages | Hierarchical_Virtual_Memory_System/VirtualMemory.cpp:231-235 | linking a cleared frame as a table keeps consistency and every page |
| PageTree.LinkPageKeepsOthers | Hierarchical_Virtual_Memory_System/VirtualMemory.cpp:226-230 | restoring into a frame and linking it as a leaf keeps consistency, every other page, and the words of this page if it was swapped out |
| PageTree.WriteWord | Hierarchical_Virtual_Memory_System/VirtualMemory.cpp:282-286 | writing a word of a leaf changes that word of that page and nothing else |
| PageTree.LeafExists | Hierarchical_Virtual_Memory_System/VirtualMemory.cpp:173-178 | with all frames linked, more frames than levels and no empty table besides the walk's, some page is resident |
| PageTree.LinkedFramesAreContiguous | Hierarchical_Virtual_Memory_System/VirtualMemory.cpp:167-171 | distinct linked frames that are all below their number are exactly the range from 0 |
| PageTree.LargestFrame | Hierarchical_Virtual_Memory_System/VirtualMemory.cpp:121-125 | the largest linked frame is one less than the number of linked frames |
| FrameSearch.RingDistanceIsShortest | Hierarchical_Virtual_Memory_System/VirtualMemory.cpp:29-53 | the cyclic distance is the least number of steps round the ring of pages in either direction, zero only for the page itself |
| FrameSearch.ScanFinds | Hierarchical_Virtual_Memory_System/VirtualMemory.cpp:127-132 | an empty table reported by a child, other than the old frame, is the first one of the whole subtree |
| FrameSearch.ScanEnd | Hierarchical_Virtual_Memory_System/VirtualMemory.cpp:136-137 | if no cell's subtree held one, the table reports itself with the true farthest page and largest frame of its subtree |
| FrameChoice.FarthestExists | Hierarchical_Virtual_Memory_System/VirtualMemory.cpp:173-178 | when no frame is free and no table can be reclaimed, the candidate found is a resident page at positive distance with its true frame, parent and slot |
| FrameChoice.EvictionPolicy | Hierarchical_Virtual_Memory_System/VirtualMemory.cpp:55-63 | the page evicted is strictly farther from the target than any other resident page, or as far and lower-numbered |
| FrameChoice.ReclaimFound | Hierarchical_Virtual_Memory_System/VirtualMemory.cpp:158-165 | what the search reports for an empty table is a legal reclaim that keeps all pages and never takes frame 0 |
| FrameChoice.FreshFound | Hierarchical_Virtual_Memory_System/VirtualMemory.cpp:167-171 | without an empty table the largest frame reported is the largest linked, so the next number is unused |
| FrameChoice.EvictFound | Hierarchical_Virtual_Memory_System/VirtualMemory.cpp:173-178 | the eviction is legal: frame, page and swap satisfy the assertions of `PMevict`, all pages are kept, frame 0 is never taken |
| FrameChoice.WalkSurvives | Hierarchical_Virtual_Memory_System/VirtualMemory.cpp:252-270 | whichever frame is chosen in the middle of a walk, every link walked so far stays, the empty cell stays empty, frames stay contiguous, and at most one table besides the new frame is empty |
| FlatMemory.RangeTest | Hierarchical_Virtual_Memory_System/VirtualMemory.cpp:277-280 | the bound tested holds exactly for addresses whose page exists |
| Faults.FaultPolicy | Hierarchical_Virtual_Memory_System/VirtualMemory.cpp:158-178 | a fault reuses an empty table other than the walk's if there is one, else takes the next frame never used, else swaps out the resident page farthest from the page accessed, with its words; only then does a page enter the swap file, and only the page accessed leaves it |
| Faults.EvictedWasFarthest | Hierarchical_Virtual_Memory_System/VirtualMemory.cpp:223-224 | every page a translation puts into the swap file was, at that moment and with all frames in use, the resident page farthest from the page accessed, the lowest-numbered of several |
| Faults.AccessEvictsFarthest | Hierarchical_Virtual_Memory_System/VirtualMemory.cpp:243-304 | the same for a whole read or write |
| Faults.ResidentUntouched | Hierarchical_Virtual_Memory_System/VirtualMemory.cpp:258-265 | reaching a resident page moves no frame and swaps nothing |
| VirtualMemory.PagedMemory.constructor | Hierarchical_Virtual_Memory_System/PhysicalMemory.cpp:9-14 | a fresh memory is valid and knows no page |
| VirtualMemory.PagedMemory.CyclicDistance | Hierarchical_Virtual_Memory_System/VirtualMemory.cpp:29-64 | the candidate is replaced exactly when the new page is strictly farther round the ring |
| VirtualMemory.PagedMemory.TreeTraversal | Hierarchical_Virtual_Memory_System/VirtualMemory.cpp:73-138 | reports the first empty table other than the old frame if the subtree has one; otherwise the farthest resident page and the largest linked frame of the subtree |
| VirtualMemory.PagedMemory.EmptyFrame | Hierarchical_Virtual_Memory_System/VirtualMemory.cpp:146-179 | returns an unlinked frame other than 0, chosen in the stated order (empty table, unused number, farthest page), and keeps every page |
| VirtualMemory.PagedMemory.ClearMemory | Hierarchical_Virtual_Memory_System/VirtualMemory.cpp:190-213 | the frame, or every frame, is all zeros and nothing else changes |
| VirtualMemory.PagedMemory.VMinitialize | Hierarchical_Virtual_Memory_System/VirtualMemory.cpp:181-185 | valid afterwards with any swap file; the pages known are exactly the swapped ones |
| VirtualMemory.PagedMemory.FindEmptyCell | Hierarchical_Virtual_Memory_System/VirtualMemory.cpp:220-237 | the cell is linked to the frame the policy chooses for the address's own page (a `Fault`), the path walked so far is unchanged, an inner level keeps every page and the last level touches exactly the page of the address |
| VirtualMemory.PagedMemory.ExtractPhysicalAdd | Hierarchical_Virtual_Memory_System/VirtualMemory.cpp:243-272 | the result is the word of the leaf the table maps the address's page to; no page's words change, that page is now known, and each level with an empty cell is one fault for that page |
| VirtualMemory.PagedMemory.VMwrite | Hierarchical_Virtual_Memory_System/VirtualMemory.cpp:274-288 | 1 and the one word replaced for an address in range, 0 and nothing changed otherwise; links and swap file change only by the faults for the address's page, and not at all if it is resident |
| VirtualMemory.PagedMemory.VMread | Hierarchical_Virtual_Memory_System/VirtualMemory.cpp:290-304 | 1 and the word of the flat memory for an address in range, 0 and nothing changed otherwise; links and swap file change only by the faults for the address's page, and nothing changes if it is resident |
| AccessRuns.LastWriteWins | Hierarchical_Virtual_Memory_System/VirtualMemory.cpp:274-304 | in every run a read returns the value last written to the address, whatever calls come in between |
| AccessRuns.ReadsAgree | Hierarchical_Virtual_Memory_System/PhysicalMemory.cpp:59-64 | two reads with no write to the address in between agree, even if the word was never written |
| AccessRuns.PagesAreKept | Hierarchical_Virtual_Memory_System/PhysicalMemory.cpp:40-68 | no page once touched is ever lost |
| AccessRuns.WriteRounds | Hierarchical_Virtual_Memory_System/README.MD:101-105 | the documentation's first loop, over twice as many pages as frames, leaves every number in place |
| AccessRuns.ReadRounds | Hierarchical_Virtual_Memory_System/README.MD:107-113 | the second loop reads every number back |
| SchedulerSpec.FreeTid | Uthreads_Library/uthreads.cpp:314-324 | the smallest free id, or the limit if all below are taken |
| SchedulerInvariant.FreeTidFound | Uthreads_Library/uthreads.cpp:314-327 | with fewer threads than the limit an id is always found, so the exit after the loop is unreachable |
| SchedulerInvariant.InitInv | Uthreads_Library/uthreads.cpp:338-342 | the state after initialisation is consistent |
| SchedulerInvariant.StepInv | Uthreads_Library/uthreads.cpp:357-646 | every call and tick keeps consistency: one RUNNING thread, the ready queue exactly the READY threads without duplicates, the sleeping map exactly the sleeping ones with positive counts, the blocked vector only blocked ones, the counter the size of the map, at most one pending thread |
| SchedulerInvariant.ScheduleInv | Uthreads_Library/uthreads.cpp:185-273 | an invocation ends with exactly one running thread and takes an id away only from a running thread that ended |
| SchedulerInvariant.SomeoneReady | Uthreads_Library/uthreads.cpp:265-266 | a forced switch never pops an empty queue |
| SchedulerRuns.StepQuanta | Uthreads_Library/uthreads.cpp:257-269 | a step adds one to the total exactly when it enters the scheduler, and charges it to exactly one thread |
| SchedulerRuns.ConservedFromStart | Uthreads_Library/uthreads.cpp:338-342 | in every run the total is one plus the invocations, and is the sum of the quanta of all threads ever created |
| SchedulerRuns.TotalCountsInvocations | Uthreads_Library/uthreads.cpp:257-269 | between any two moments of a run the total grows by the scheduler invocations in between |
| SchedulerRuns.WaitsLess | Uthreads_Library/uthreads.cpp:149-166 | a step that neither blocks nor ends a ready thread never moves it back, and an invocation moves it forward or runs it |
| SchedulerRuns.BoundedWaiting | Uthreads_Library/uthreads.cpp:265-269 | a thread at place i of the queue runs within i + 1 invocations, whatever happens to the others |
| SchedulerRuns.QueueBound | Uthreads_Library/uthreads.cpp:372-378 | never more than 100 threads, and one less in the ready queue |
| SchedulerRuns.RunsWithinLimit | Uthreads_Library/uthreads.cpp:244-269 | a ready thread that is not blocked or ended runs within 99 invocations |
| SchedulerQueue.ScheduleIsQueue | Uthreads_Library/uthreads.cpp:199-269 | an invocation exactly: behind those who wait come the threads that wake, in order of id, and behind them the running thread if it keeps its turn; the front of these runs, the others wait in this order |
| SchedulerQueue.StepKeepsOrder | Uthreads_Library/uthreads.cpp:149-166 | in every call and tick, threads that stay in the ready queue keep their order, and whoever joins stands behind all who were there |
| SchedulerQueue.StepKeepsBlockedOrder | Uthreads_Library/uthreads.cpp:132-142 | entries that stay in the blocked vector keep their order, and a thread that is blocked is listed last |
| SchedulerSleep.SleepStart | Uthreads_Library/uthreads.cpp:633-645 | sleeping k quanta when the total is Q sets the deadline Q + k + 1 |
| SchedulerSleep.SleepStep | Uthreads_Library/uthreads.cpp:199-225 | no call or tick moves a sleeper's deadline; the step that reaches it wakes the thread |
| SchedulerSleep.SleepDeadline | Uthreads_Library/uthreads.cpp:199-225 | in every run the thread sleeps until the invocation that raises the total to Q + k + 1, and then is ready or running, or BLOCKED if it was blocked as well |
| SchedulerBlocking.StepExact | Uthreads_Library/uthreads.cpp:132-142 | a step keeps the blocked vector exact if and only if it does not enter the scheduler while a blocked thread has a pending id |
| SchedulerBlocking.ExactThroughout | Uthreads_Library/uthreads.cpp:132-142 | the same for whole runs from the start of the library |
| SchedulerBlocking.RunExact | Uthreads_Library/uthreads.cpp:314-321 | if no spawn takes a pending id, the blocked vector is exact all along |
| SchedulerBlocking.LostStays | Uthreads_Library/uthreads.cpp:571-605 | a blocked thread whose entry was lost stays so in every step but its own termination |
| SchedulerBlocking.LostForGood | Uthreads_Library/uthreads.cpp:571-605 | such a thread never runs again |
| SchedulerReclaim.EntryCanBeLost | Uthreads_Library/uthreads.cpp:227-232 | a run of six steps from initialisation after which a blocked thread is not in the blocked vector |
| SchedulerReclaim.SpawnId | Uthreads_Library/uthreads.cpp:372-398 | with fewer than 100 threads spawning takes the smallest free id and the end of the queue; otherwise it returns -1 and changes nothing |
| SchedulerReclaim.ReferencedIsAllocated | Uthreads_Library/uthreads.cpp:92-97 | no structure ever refers to a freed thread object |
| SchedulerReclaim.FreedOnce | Uthreads_Library/uthreads.cpp:169-180 | an object freed by a step is not running and no structure refers to it, so it is freed once; it was pending or named by that call |
| SchedulerReclaim.PendingIsFreedNext | Uthreads_Library/uthreads.cpp:227-242 | a thread that ended itself is freed in exactly the next invocation |
| SchedulerEffects.FailsWhen | Uthreads_Library/uthreads.cpp:357-646 | exactly when each call returns -1, and that it then changes nothing |
| SchedulerEffects.EndedIsGone | Uthreads_Library/uthreads.cpp:415-452 | after a termination the id names no thread |
| SchedulerEffects.OnlyBlockBlocks | Uthreads_Library/uthreads.cpp:471-605 | only blocking a thread makes it blocked and only resuming it unblocks it, asleep or not |
| SchedulerEffects.RepeatsHaveNoEffect | Uthreads_Library/uthreads.cpp:471-605 | blocking a blocked thread and resuming one that is not blocked return 0 and change nothing |
| SchedulerEffects.OnlyNamedThreadsEnd | Uthreads_Library/uthreads.cpp:357-646 | a step ends exactly the threads it names, and the only new thread is the one spawned |
| SchedulerEffects.ChargesTheRunner | Uthreads_Library/uthreads.cpp:257-269 | an invocation adds a quantum to the thread it lets run and to no other; no other step charges anyone, and ids never change |
| SchedulerEffects.SpawnsUpToTheLimit | Uthreads_Library/uthreads.cpp:372-398 | from initialisation 99 spawns in a row return 1, 2, up to 99; any further one returns -1 and changes nothing |
| Uthreads.Scheduler.constructor | Uthreads_Library/uthreads.cpp:338-342 | the machine's initial state |
| Uthreads.Scheduler.DeleteThread | Uthreads_Library/uthreads.cpp:127-183 | the machine's deletion: blocked entry erased by id, sleeping and ready entries by state, object freed |
| Uthreads.Scheduler.DropReady | Uthreads_Library/uthreads.cpp:151-165 | draining and refilling the queue removes the threads with the id, as the machine does; what stays keeps its order (`SchedulerQueue.WithoutKeepsOrder`) |
| SchedulerQueue.WithoutKeepsOrder | Uthreads_Library/uthreads.cpp:151-165 | of any two threads that stay, the one that stood first still does |
| Uthreads.Scheduler.WakeSleepers | Uthreads_Library/uthreads.cpp:199-225 | one quantum off every sleeper in order of id, and those at zero leave the map |
| Uthreads.Scheduler.DeletePendingThreads | Uthreads_Library/uthreads.cpp:227-232 | every pending thread is freed and the map emptied |
| Uthreads.Scheduler.RetireRunning | Uthreads_Library/uthreads.cpp:234-242 | a running thread that ended moves from the thread map to the pending map |
| Uthreads.Scheduler.SwitchThread | Uthreads_Library/uthreads.cpp:244-269 | the machine's switch, on each of its branches |
| Uthreads.Scheduler.ScheduleHandler | Uthreads_Library/uthreads.cpp:185-273 | one scheduler invocation of the machine, ending in a valid state |
| Uthreads.Scheduler.AddThread | Uthreads_Library/uthreads.cpp:307-328 | the thread gets the smallest free id and is entered in the map |
| Uthreads.Scheduler.UthreadSpawn | Uthreads_Library/uthreads.cpp:357-413 | with fewer than 100 threads the machine's spawn step with a new thread object, otherwise -1 and nothing changed |
| Uthreads.Scheduler.UthreadTerminate | Uthreads_Library/uthreads.cpp:415-452 | the machine's terminate step for any id but 0, with its result |
| Uthreads.Scheduler.UthreadBlock | Uthreads_Library/uthreads.cpp:471-543 | the machine's block step, with its result |
| Uthreads.Scheduler.UthreadResume | Uthreads_Library/uthreads.cpp:545-605 | the machine's resume step, with its result |
| Uthreads.Scheduler.UthreadSleep | Uthreads_Library/uthreads.cpp:607-646 | the machine's sleep step, with its result |
| Uthreads.Scheduler.TimerTick | Uthreads_Library/uthreads.cpp:275-305 | a timer signal is one invocation of the scheduler |
| PairVectors.MergeElements | MapReduce_Framework/MapReduceFramework.cpp:138-145 | merging keeps every pair |
| PairVectors.MergeSorted | MapReduce_Framework/MapReduceFramework.cpp:138-145 | merging two sorted vectors gives a sorted one |
| Grouping.MergeKeepsOrder | MapReduce_Framework/MapReduceFramework.cpp:138-145 | the merge is stable: of pairs with equivalent keys those of the first vector go first, and both keep their order |
| PairVectors.MergeAllCorrect | MapReduce_Framework/MapReduceFramework.cpp:147-171 | rounds of pairwise merging turn any nonempty list of sorted vectors into one sorted vector with exactly their pairs |
| Grouping.MergeAllKeepsOrder | MapReduce_Framework/MapReduceFramework.cpp:147-171 | in the merged vector the pairs of each key stand as in the threads' vectors one after the other |
| Grouping.FindGroup | MapReduce_Framework/MapReduceFramework.cpp:199-207 | the first group whose head has an equivalent key, or the number of groups |
| Grouping.GroupPartitions | MapReduce_Framework/MapReduceFramework.cpp:197-215 | grouping any vector, sorted or not, yields nonempty groups of one key class each, each holding all its pairs in order |
| Grouping.GroupSorted | MapReduce_Framework/MapReduceFramework.cpp:197-215 | on a sorted vector the groups come in strictly increasing key order and their concatenation is the vector |
| Grouping.GroupsGather | MapReduce_Framework/MapReduceFramework.cpp:173-217 | each group is its key's pairs of the first vector, then of the second, and so on, each in their order |
| ShuffleStage.PairMergingHelper | MapReduce_Framework/MapReduceFramework.cpp:138-145 | the first vector becomes the merge of both (stable: `Grouping.MergeKeepsOrder`) and nothing else changes |
| ShuffleStage.MergeNeighbours | MapReduce_Framework/MapReduceFramework.cpp:155-164 | one round in place: half as many vectors, neighbours merged, an odd last one kept |
| ShuffleStage.MergeVectors | MapReduce_Framework/MapReduceFramework.cpp:147-171 | the first vector ends up holding the merge of all, stable in thread order (`Grouping.MergeAllKeepsOrder`) |
| ShuffleStage.Job.ShuffleStage | MapReduce_Framework/MapReduceFramework.cpp:173-217 | the shuffled vectors are the groups of the merged pairs, and the counter counts every pair |
| ShuffleStage.Job.GroupPairs | MapReduce_Framework/MapReduceFramework.cpp:197-215 | the grouping loop computes the groups |
| ShuffleStage.Job.FindVec | MapReduce_Framework/MapReduceFramework.cpp:199-207 | the linear search finds the first vector with an equivalent key |
| ShuffleStage.Job.AddToGroup | MapReduce_Framework/MapReduceFramework.cpp:204-213 | the pair joins the vector found or starts a new one at the end |
| JobInvariant.EnterTogether | MapReduce_Framework/Barrier.cpp:32-43 | entering the barrier keeps its count right on both uses; the last to arrive releases everyone |
| JobInvariant.TogetherStep | MapReduce_Framework/MapReduceFramework.cpp:83-119 | in every interleaving all threads are between the same two barriers, the count is the number of waiters, and never all wait |
| JobInvariant.MappersStep | MapReduce_Framework/MapReduceFramework.cpp:247-255 | no two threads map the same input, and who has left the map stage leaves no input unclaimed and its vector sorted |
| JobInvariant.PairsStep | MapReduce_Framework/MapReduceFramework.cpp:464-473 | what has been emitted and what is still to be emitted are exactly the pairs of the inputs claimed so far |
| JobInvariant.StageStep | MapReduce_Framework/MapReduceFramework.cpp:97-119 | the phases stay apart and the stage field never goes back |
| JobReduce.ReducesStep | MapReduce_Framework/MapReduceFramework.cpp:126-136 | no two threads reduce the same group, and as multisets the outputs made and still due are exactly those of the groups claimed so far |
| JobOrder.EmitsAppend | MapReduce_Framework/MapReduceFramework.cpp:464-482 | every step appends to the output, and to a thread's vector until that thread sorts it |
| JobOrder.FedStep | MapReduce_Framework/MapReduceFramework.cpp:464-473 | until it is sorted a thread's vector holds the pairs of the inputs the thread claimed, in the order claimed, each input's as emitted |
| JobOrder.WovenStep | MapReduce_Framework/MapReduceFramework.cpp:475-482 | at every moment of the reduce stage the output is an interleaving in which each group's outputs are those its reducer has emitted so far, in order |
| JobOrder.SoloStep | MapReduce_Framework/MapReduceFramework.cpp:126-136 | with one thread the output is the groups' outputs one after the other |
| JobOrder.InOrderStep | MapReduce_Framework/MapReduceFramework.cpp:83-136 | every step of every thread keeps all of this |
| JobRuns.StartedInv | MapReduce_Framework/MapReduceFramework.cpp:301-332 | a job just started, with any number of threads, satisfies the invariant |
| JobRuns.StepInv | MapReduce_Framework/MapReduceFramework.cpp:83-119 | every step of every thread keeps the invariant, and the stage does not go back |
| JobRuns.ShuffleIsAlone | MapReduce_Framework/MapReduceFramework.cpp:96-104 | while thread 0 shuffles, all have mapped and sorted, all pairs are there, and nobody reduces |
| JobRuns.ReduceFollowsShuffle | MapReduce_Framework/MapReduceFramework.cpp:106-115 | whoever reduces finds the groups complete and everyone past the second barrier |
| JobRuns.Progress | MapReduce_Framework/Barrier.cpp:26-48 | in an unfinished job some thread can take a step |
| JobEnds.StepDecreases | MapReduce_Framework/MapReduceFramework.cpp:83-136 | every step decreases a well-founded measure |
| JobEnds.ScheduleEnds | MapReduce_Framework/MapReduceFramework.cpp:83-119 | every schedule ends, with every thread done |
| JobResult.GroupIsGrouping | MapReduce_Framework/MapReduceFramework.cpp:173-217 | sorting, merging and grouping give the one grouping of the pairs, whatever order they were emitted in |
| JobResult.FinishedResult | MapReduce_Framework/MapReduceFramework.cpp:83-136 | in every finished job the groups are those of all inputs mapped in sequence, each gathered in thread order; the output is each group reduced once, interleaved with each group's outputs in order, and with one thread exactly the groups reduced in sequence |
| JobResult.GroupingIsUnique | MapReduce_Framework/MapReduceFramework.cpp:197-215 | two groupings of the same pairs have the same groups in the same order, each up to the order of its pairs |
| JobResult.ScheduleIndependence | MapReduce_Framework/MapReduceFramework.cpp:83-136 | two finished jobs on the same inputs, with any numbers of threads and any interleavings, have the same groups, and the same output if the reducer ignores the order in a group |
| JobResult.JobCompletes | MapReduce_Framework/MapReduceFramework.cpp:83-136 | a job started with any number of threads ends under every schedule, with that result |
| CounterClient.Map | MapReduce_Framework/SampleClient.cpp:34-50 | the counting loops emit the tally of the string |
| CounterClient.TallyCounts | MapReduce_Framework/SampleClient.cpp:34-50 | for every character the pairs emitted for a string add up to its number of occurrences, and every count emitted is positive |
| CounterClient.TallyInOrder | MapReduce_Framework/SampleClient.cpp:41-49 | a string's pairs come in ascending order of the byte value, each with the exact number of occurrences, and no character that occurs is left out |
| CounterClient.Reduce | MapReduce_Framework/SampleClient.cpp:52-65 | one pair with the group's character and the sum of its counts |
| CounterClient.CounterMeetsNeeds | MapReduce_Framework/SampleClient.cpp:13-24 | the comparison is that of signed numbers, a strict weak order, and reducing ignores the order in a group |
| CounterClient.CountsAreExact | MapReduce_Framework/SampleClient.cpp:34-65 | in every finished job the output has, for each character that occurs, exactly one pair, with its exact number of occurrences over all inputs, and no other pair |
| CounterClient.CountsInOrder | MapReduce_Framework/SampleClient.cpp:16-18 | in every finished job the groups stand in ascending order of their characters as signed numbers, and with one thread so does the output |
| CounterClient.CountingJob | MapReduce_Framework/SampleClient.cpp:34-65 | from any start, under every schedule, the counting job ends with that output |

## Left out

- Linux_Multi_Server_Ipc: sockets, shared memory and printing, with no algorithm to prove anything about.
- Fixed-width integers: counters, words and addresses are unbounded; the quantities stay far below the widths used, and the cast to `int` in the cyclic distance is exact for the number of pages in use.
- The contents of a word that was never written: first touch may find anything, and only that it then stays the same is proved.
- VirtualMemory.PagedMemory.VMread: does not say what the out-parameter holds after a read that fails; the code leaves it as it was, and the model has it as a result.
- Lazy allocation of the RAM in the four physical operations: the RAM exists from the start.
- Context switches, stacks, saved environments, address mangling and timers: a switch is a change of the running thread, a timer signal is a step.
- Signal masks: each call, with the invocation it leads to, is one step, so a signal between the inner unblocking of `delete_thread` or `addthread` and the end of the call is not modelled.
- Uthreads.Scheduler.UthreadTerminate: excludes id 0, because that call ends the process and no state follows it.
- Uthreads.Scheduler.UthreadSpawn: does not model the null entry point, which fails in its first branch.
- Argument checks of `uthread_init`, one-line getters and error printing: each is settled by reading one branch.
- Thread objects are freed by leaving the set of allocated objects; the stack memory of a thread is not modelled.
- Spurious wake-ups of condition variables: the barrier waits under `if`, and the protocol assumes a thread waits until the broadcast.
- Mutexes and atomics as objects: a protected block or an atomic increment is one step of the protocol. The map and reduce loops, the emit functions and the barrier are therefore steps of the protocol and not methods.
- The shuffle is one step of the protocol, by thread 0 between the barriers; its code is proved separately in `ShuffleStage`, against the same functions.
- `std::sort`: any sorted permutation, not assumed stable. `std::merge` is a function, with the first vector's pair first on equal keys.
- `getJobState` percentages, joining, `closeJobHandle` and memory allocation.
- A client whose callbacks do not return or whose `operator<` is not a strict weak order; callbacks are functions of their argument.
