# Reflex OS: a verified model

Reflex OS is a small operating system for one RISC-V core: a heap, a cooperative scheduler with
blocking queues, a balanced-ternary virtual machine with its loader and assembler, SHA-256 and HMAC
for the mesh, and a bootloader of its own. This project models the parts of it whose correctness is
an argument rather than a reading, and proves that argument for every input, every reachable state
or every run. `dafny verify dfyconfig.toml` checks everything.

Code that changes things in place is modelled in place: classes with the source's fields, methods
with its branches and loops. Each such method is proved to compute a function of the old state, and
what the source promises is proved about that function.

| files | models | main results |
|---|---|---|
| `HeapBlocks`, `HeapSizes`, `HeapSearch`, `HeapStore`, `HeapAudit`, `Heap` | the allocator of `kernel/reflex_heap.c`, headers and bytes included | the heap invariant over every operation, disjoint live allocations, bytes kept, exact success conditions, the structural audit exact on any headers |
| `Sched`, `SchedRun`, `SchedSleep`, `KQueue`, `QueueWait`, `QueueLost`, `QueueTime` | the scheduler's table and loop, the ring, and the waiting protocol on both | sleeps and timeouts exact over every run, across counter wrap; fairness within sixteen decisions of any run; exactly when no wakeup is lost |
| `Ternary`, `TernaryOps`, `Packing` | the 18-trit arithmetic of `vm/ternary.c` | exact integer arithmetic, packing as a bijection |
| `Mmu`, `Cache`, `Vm`, `VmMeaning`, `VmRefine`, `VmSafety`, `Interpreter` | memory regions, the write-back cache and the interpreter | what every opcode does, a cached run is the run on plain memory, safety of every run of loaded code |
| `Crc`, `Image`, `Loader`, `ShellParse`, `Tasm`, `TasmMeaning`, `Upload` | the way from assembler source through hexadecimal text to a loaded program | what the machine does at each line of source, the identity on programs, exact acceptance, burst errors rejected |
| `Sha256Spec`, `Sha256Bits`, `Sha256Known`, `Crypto` | `platform/reflex_crypto.c` against FIPS 180-4 and RFC 2104 | HMAC-SHA-256 for every key and message, its functions bit by bit |
| `Boot0` | the bootloader's image loader | exactly which images boot, nothing written before everything is checked, every flash byte mapped where it should be |
| `Preproc` | the preprocessor scan of `tools/check_independence.py` | exactly when no compiled line is missed |
| `TaskRuntime` | the stop and retire protocol of `vm/task_runtime.c` | at most one task, and no deletion of a working one |
| `Arith`, `Bytes`, `Errors` | shared helpers | |

How the code is read:

- Integers are unbounded and every 32-bit sum that can wrap is written out (`UAdd`, `USub`, `% 2^32`). `size_t`
  and pointers have 32 bits, so a block header has sixteen bytes.
- A null pointer is 0 or `None`; a failed allocation is a parameter; what the hardware, the radio, the fabric or
  a system call answers is a parameter.
- `REFLEX_VM_REGISTER_COUNT` is 8, as `tools/tasm.py:137` and the three-bit fields of the packed format have it.
  The number of cache sets is any positive number.
- In `QueueWait` a step is what a task does between two switch points; a run is any sequence of such
  steps in which the processor goes to the task the scheduler's own choice allows, tasks may be deleted at any time,
  and slot 0 is the idle task's.

Where the code and what is written about it differ, the model follows the code:

- `kernel/reflex_sched.c:772-776` says that senders and receivers are never parked on one queue together. With two
  blocking tasks on one side and one on the other they are (`QueueLost.OneIsLost`).
- `kernel/reflex_heap.c:70-76` says that a size that passes the check cannot wrap. An aligned request can, one line
  later (`HeapSizes.UnboundedTears`).
- `vm/include/reflex_vm_opcode.h:42` says that TST stores SRC_B at SRC_A; the interpreter and the assembler store
  SRC_A at DST. Line 60 says that TBIAS takes a route index in DST; the interpreter reads it from SRC_A.
- `bootloader_components/main/reflex_boot0.c:431-434` speaks of an 8 KB RTC window; the constants make it 16 KB.

Four behaviours of the code that a caller may not expect, kept as they are:

- A binary that fails to load leaves `running` set, so that a later start is refused (last clause of
  `TaskRuntime.Runtime.Start`).
- A cached store to an address that no region holds succeeds (`Cache.StoreUnmapped`).
- Unloading a program leaves its cache lines behind, and the next one may read them (`Loader.ReloadReadsStale`);
  `Loader.ReloadExactly` says when it does not.
- A sleep or a timeout above 2^31 ms is over at once (`Sched.NeverEarlyExactly`, `QueueWait.LongTimesOutAtOnce`).

## Model

| member | source | states |
|---|---|---|
| `HeapBlocks.BytesConserved` | kernel/reflex_heap.c:20-32 | In any list of blocks that tiles a region, payload in use plus free payload plus one sixteen-byte header per block is the region: no byte is lost or counted twice. |
| `HeapBlocks.AllocKeeps` | kernel/reflex_heap.c:163-206 | Placing an allocation keeps the list sound (tiling, sizes multiples of 8, no two free neighbours), and the free bytes drop by exactly the payload handed out and 16 for each header added. |
| `HeapBlocks.AllocUses` | kernel/reflex_heap.c:163-206 | The set of live allocations gains exactly the new block and loses none. |
| `HeapBlocks.FreeKeeps` | kernel/reflex_heap.c:223-230 | Releasing a block keeps the list sound, whichever of its neighbours are free. |
| `HeapBlocks.FreeCredits` | kernel/reflex_heap.c:223-230 | The free bytes grow by the released payload and 16 for each header that merging removes. |
| `HeapBlocks.FreeUses` | kernel/reflex_heap.c:223-230 | Exactly the released block leaves the set of live allocations. |
| `HeapBlocks.ReleasedIsFreeAt` | kernel/reflex_heap.c:153-161 | The three pointer steps of a release (mark, absorb the successor, be absorbed by the predecessor) replace the whole run of free neighbours by one block that spans it. |
| `HeapBlocks.ResizeKeeps` | kernel/reflex_heap.c:247-309 | Resizing in place, larger or smaller, keeps the list sound. |
| `HeapBlocks.ResizeCredits` | kernel/reflex_heap.c:247-309 | The free bytes change by exactly the difference in payload and headers. |
| `HeapBlocks.ResizeUses` | kernel/reflex_heap.c:247-309 | In the set of live allocations only the resized block is exchanged. |
| `HeapBlocks.GrowIsResize` | kernel/reflex_heap.c:277-299 | Absorbing the free successor and cutting the surplus off again is the resize it is meant to be. |
| `HeapBlocks.TrimIsResize` | kernel/reflex_heap.c:260-275 | Cutting a block down and merging the tail with a free successor is the resize it is meant to be. |
| `HeapBlocks.LiveDisjoint` | kernel/reflex_heap.c:20-32 | Two live allocations never overlap, header and payload, and each lies in the region. |
| `HeapSizes.FindGap` | kernel/reflex_heap.c:176-188 | The rounding loop, run in wrapping 32-bit arithmetic, computes the mathematical distance to the first usable aligned payload, and that distance does not wrap. |
| `HeapSizes.GapUsable` | kernel/reflex_heap.c:176-188 | The gap lands on a multiple of the alignment and is nothing or large enough to be a block of its own. |
| `HeapSizes.GapLeast` | kernel/reflex_heap.c:176-188 | No smaller gap has both properties. |
| `HeapSizes.GapLeastAsked` | kernel/reflex_heap.c:163-188 | For any power of two asked for, small ones included, the gap is the least multiple of eight that reaches a multiple of it and leaves nothing or a block of its own. |
| `HeapSizes.PowersExactly` | kernel/reflex_heap.c:215-216 | The alignments not refused are exactly the powers of two. |
| `HeapSizes.SaneExactly` | kernel/reflex_heap.c:70-76 | A size passes the check if and only if it can be rounded up to eight and headed without passing 2^32. |
| `HeapSizes.WantIsLeast` | kernel/reflex_heap.c:165-166 | What is asked of a block is the least multiple of eight that holds the request and an eight-byte payload. |
| `HeapSizes.ServedFacts` | kernel/reflex_heap.c:163-221 | A granted request of any alignment: the list stays sound, one new block is in use, at least as large and exactly as aligned as asked, and the free bytes drop by its payload and new headers. |
| `HeapSizes.PlainServesIff` | kernel/reflex_heap.c:163-213 | An eight-aligned request succeeds if and only if it is nonzero, sane and some free block holds the rounded size; the statistic largest_free is the exact threshold. |
| `HeapSizes.EightNeverTorn` | kernel/reflex_heap.c:186-197 | With eight-byte alignment every gap is nothing, so the 32-bit sum never wraps. |
| `HeapSizes.BoundedNeverTorn` | kernel/reflex_heap.c:186-197 | A bound a caller can check, alignment + SPLIT_MIN + rounded size at most 2^32, under which no block of any heap makes the sum wrap. |
| `HeapSizes.UnboundedTears` | kernel/reflex_heap.c:74-76 | The sanity check does not exclude the wrap: a concrete request on a fresh 64 KB heap. |
| `HeapSizes.TornBreaks` | kernel/reflex_heap.c:186-197 | What a split that goes ahead after a wrapped test leaves: two free neighbours the second of which is too small, or a block reaching beyond the one it was cut from. |
| `HeapSizes.TornNeverKeeps` | kernel/reflex_heap.c:172-197 | If the sum wraps at a block the search reaches, the search finds no next block there, or leaves free neighbours, or cuts beyond the block. |
| `HeapSearch.SearchIsFirstFit` | kernel/reflex_heap.c:163-206 | Run on a list with no torn block before the first fit, the search loop with its wrapping test is first fit. |
| `HeapSearch.TornSearchBreaks` | kernel/reflex_heap.c:163-206 | When a torn request has been searched for to the end, there is no list (the loop steps to a null block, or cuts beyond one), or a list with two free neighbours. |
| `HeapSearch.SearchKeepsExactly` | kernel/reflex_heap.c:163-206 | The condition is exact: a search for a sane size returns a sound list if and only if the request is not torn. |
| `HeapSizes.AllReleasedIsOneBlock` | kernel/reflex_heap.c:223-237 | Releasing every live allocation, in any order, leaves one free block that covers the region. |
| `HeapSizes.ReleaseAll` | kernel/reflex_heap.c:223-237 | Along any order of releases the list stays sound, and what is left in use is what was not released. |
| `HeapStore.SplitLinked` | kernel/reflex_heap.c:137-151 | The header stores of a split, in the order of the source, leave headers whose prev, next, size and used words spell out exactly the split list. |
| `HeapStore.SplitKept` | kernel/reflex_heap.c:137-151 | Those stores change no byte of any other payload, and none of the part the block keeps. |
| `HeapStore.JoinLinked` | kernel/reflex_heap.c:154-161 | The stores that absorb a successor leave headers that spell out exactly the joined list. |
| `HeapStore.JoinKept` | kernel/reflex_heap.c:154-161 | They change no byte of any payload. |
| `HeapAudit.WalkIsPrefix` | kernel/reflex_heap.c:355-371 | On any headers, every complete chain starts with the blocks walked so far: the walk is the only one there is. |
| `HeapAudit.NoSecondVisit` | kernel/reflex_heap.c:355-358 | If the blocks walked so far passed, none of them can pass the prev check after the last one: a cycle is caught at its first repetition. |
| `HeapAudit.AuditMeansSound` | kernel/reflex_heap.c:344-380 | A chain that passes, and whose block ends do not wrap, spells out a list that tiles the region, of sizes that are multiples of eight, with no free neighbours and exactly s_free free bytes. |
| `HeapAudit.SoundMeansAudit` | kernel/reflex_heap.c:344-380 | Conversely the headers of every such list pass, and none of its blocks wraps. |
| `HeapAudit.AuditExactly` | kernel/reflex_heap.c:344-380 | On any headers: such a list exists if and only if some chain passes and no block the walk meets ends past the address space. |
| `HeapAudit.WrappingPasses` | kernel/reflex_heap.c:355-362 | The second condition is needed: two headers, one of which wraps, that pass although no such list exists. |
| `Heap.Heap.constructor` | kernel/reflex_heap.c:34-40 | Before init the allocator is valid and not ready. |
| `Heap.Heap.Init` | kernel/reflex_heap.c:100-126 | Becomes ready exactly when the base is not null and the size leaves an eight-byte payload to spare; the region is then the aligned part of the bytes given, one free block. |
| `Heap.Heap.Split` | kernel/reflex_heap.c:137-151 | The list has the block replaced by its two parts, or is untouched when the rest is too small; s_free loses one header; nothing kept is overwritten. |
| `Heap.Heap.CoalesceForward` | kernel/reflex_heap.c:154-161 | The block is joined with a free successor, s_free gains one header, and no payload byte changes. |
| `Heap.Heap.Visit` | kernel/reflex_heap.c:172-204 | One turn of the search loop: before the first fit it changes nothing and moves on, never past the fit; at the fit it places the allocation. |
| `Heap.Heap.Search` | kernel/reflex_heap.c:172-205 | The loop places the allocation in the first block that fits, at its gap, or changes nothing when none does. |
| `Heap.Heap.AllocAligned` | kernel/reflex_heap.c:208-221 | Refuses exactly the requests the specification refuses, leaving everything as it was; otherwise the invariant holds, the new block is as Granted says, and every other live allocation keeps its bytes. The low-water mark stays at most every free count ever visible. |
| `Heap.Heap.FreeLocked` | kernel/reflex_heap.c:223-230 | Releases the block by the three steps and leaves the bytes of all other allocations; a block already free is ignored. |
| `Heap.Heap.Free` | kernel/reflex_heap.c:232-237 | Keeps the invariant; exactly the block at the pointer leaves the live set and no other allocation changes; implausible pointers and double frees change nothing. |
| `Heap.Heap.ResizeInPlace` | kernel/reflex_heap.c:257-299 | Resizes in place exactly when the block and a free successor reach far enough, keeping the first min(old, new) bytes. |
| `Heap.Heap.CopyAndRelease` | kernel/reflex_heap.c:301-309 | The new block holds the copied bytes and the rest of the live set is untouched after the old one is gone. |
| `Heap.Heap.Realloc` | kernel/reflex_heap.c:247-309 | All branches of realloc: null, zero, implausible, shrink, grow in place, move. The first min(old, new) bytes survive, other allocations keep their bytes, and a null result leaves everything as it was. |
| `Heap.Heap.IntactExactly` | kernel/reflex_heap.c:344-380 | Of the allocator state: the structure holds if and only if the verdict is true and nothing the walk meets wraps. |
| `Heap.Heap.ValidIsIntact` | kernel/reflex_heap.c:344-380 | Whenever the lock is free the audit can run, and its verdict is true exactly when the heap is ready. |
| `Heap.Heap.RunAudit` | kernel/reflex_heap.c:344-380 | The loop ends on any closed header graph, cyclic or corrupted, and returns true if and only if some chain of headers passes every test. |
| `Heap.Heap.Check` | kernel/reflex_heap.c:344-380 | So reflex_heap_check returns true exactly when the structure holds, if nothing the walk meets wraps; on every heap the operations reach it returns true exactly when the heap is ready. |
| `Heap.Heap.GetStats` | kernel/reflex_heap.c:325-342 | The loop reports the free bytes of the list, its largest free block, and its numbers of blocks. |
| `Sched.TicksGrow` | kernel/reflex_sched.c:536-559 | A longer wait never converts to fewer ticks at any rate, clamp included; at 1000 Hz nothing is lost. |
| `Sched.TickReachedIsOrder` | kernel/reflex_sched.c:569-573 | For moments counted without wrapping and less than 2^31 apart, the test on the wrapped counters is the comparison of the moments. |
| `Sched.TicksFit` | kernel/reflex_sched.c:536-559 | The clamped conversion is the largest 32-bit count of whole ticks that fits in the time asked for, at any rate. |
| `Sched.NeverEarlyExactly` | kernel/reflex_sched.c:569-573 | A wait of d ticks is never over early if and only if d is at most 2^31; a longer one is over before it has begun. |
| `Sched.DelayIsExact` | kernel/reflex_sched.c:522-573 | For a task that asked to sleep for ms (below 2^31), the test of the sweep answers yes if and only if max(1, ms) ticks have passed, across counter wrap; what the sweep then does is `Sched.DecisionMeans`. |
| `Sched.UntimedNeverWoken` | kernel/reflex_sched.c:561-567 | A task without a deadline is left alone by the sweep. |
| `Sched.DecisionMeans` | kernel/reflex_sched.c:281-301 | What a decision makes of each task block, field by field: one whose deadline is reached becomes ready, waits on nothing and has no deadline; a retired one is freed; any other is unchanged. |
| `Sched.WokenMeans` | kernel/reflex_sched.c:779-788 | What a wakeup makes of each block: the lowest task blocked on the queue becomes ready and waits on nothing; all others are unchanged. |
| `Sched.Select` | kernel/reflex_sched.c:258-276 | The scan returns a ready task of highest priority, the first in cyclic order from the start, or -1 exactly when none is ready. |
| `Sched.ChosenIsUnique` | kernel/reflex_sched.c:258-276 | That description fixes the choice. |
| `Sched.Scheduler.Init` | kernel/reflex_sched.c:656-664 | The table is empty but for the idle task, ready in slot 0 with priority 0. |
| `Sched.Scheduler.CreateTask` | kernel/reflex_sched.c:115-149 | The lowest free slot becomes a ready task with nothing left of its last owner; each error exactly when its cause holds, with the table unchanged. |
| `Sched.Scheduler.Reap` | kernel/reflex_sched.c:181-199 | Every retired task in the range is freed with its marks cleared; no other slot changes. |
| `Sched.Scheduler.PickNext` | kernel/reflex_sched.c:281-306 | Collects, forgets a retired current task, wakes what is due and chooses from the result, starting after the current slot; the table it leaves is the one `Sched.DecisionMeans` describes. |
| `Sched.Scheduler.Dispatch` | kernel/reflex_sched.c:735-742 | The chosen task and only it becomes running. |
| `Sched.Scheduler.Yield` | kernel/reflex_sched.c:492-520 | A running task becomes ready; one that set its own state keeps it. |
| `Sched.Scheduler.DelayMs` | kernel/reflex_sched.c:522-530 | Parks the current task until the wrapped deadline, and keeps every invariant of the table. |
| `Sched.Scheduler.DeleteTask` | kernel/reflex_sched.c:201-222 | The task is dead, and collected at once only before the scheduler runs. |
| `Sched.Scheduler.Park` | kernel/reflex_sched.c:835-840 | The stores that park the current task on a queue, with its deadline or for ever, keep every invariant of the table. |
| `Sched.Scheduler.WakeOneWaiter` | kernel/reflex_sched.c:779-788 | Wakes the lowest slot parked on the queue, and nothing else. |
| `SchedRun.RunTurns` | kernel/reflex_sched.c:714-758 | The loop, decision by decision on the table in place, with whatever the chosen tasks do in their turns: what it does is a run. |
| `SchedRun.FromInit` | kernel/reflex_sched.c:656-758 | From reflex_sched_init on, whatever is created and deleted before the start and whatever the turns do, the loop makes a run that starts there. |
| `SchedRun.EveryDecisionFinds` | kernel/reflex_sched.c:646-654 | In every run, as the idle task only yields, no decision comes back empty. |
| `Sched.ScanGetsCloser` | kernel/reflex_sched.c:258-306 | A decision that passes over a top task starts the next scan strictly closer to it. |
| `SchedRun.TopTaskTaken` | kernel/reflex_sched.c:258-306 | In every run, a task ready at top priority at sixteen decisions in a row, between which no running task retires, is given one of them. |
| `SchedSleep.SleepIsExact` | kernel/reflex_sched.c:522-573 | In every run, for a task that has gone to sleep and that nobody deletes: up to the first decision at which the 32-bit test says that its time is over it is blocked in every decision table, and at that one it is ready. |
| `SchedSleep.SleepLasts` | kernel/reflex_sched.c:522-573 | In every run a sleep of up to 2^31 ms lasts max(1, ms) ticks: the task is blocked at every decision before that and ready at the first one after. |
| `SchedRun.RetirementStarves` | kernel/reflex_sched.c:281-286 | Why the side condition: for every n there is a run from the start in which a task is ready at top priority at each of n decisions and never taken, because every one of them begins its scan at slot 0 after a retirement. |
| `Sched.DeletedWaiterKeepsMark` | kernel/reflex_sched.c:201-222 | The one case of a task that is not blocked and still carries a queue mark; it cannot be woken by it, and collection clears it. |
| `KQueue.Queue.TrySend` | kernel/reflex_kqueue.c:55-63 | Appends the item if and only if there is room and an item; otherwise the contents stay. |
| `KQueue.Queue.TryRecv` | kernel/reflex_kqueue.c:65-77 | Takes the oldest item if and only if there is one, also when it is discarded. |
| `KQueue.Queue.Reset` | kernel/reflex_kqueue.c:95-100 | Empties the queue and keeps its storage. |
| `KQueue.Queue.Destroy` | kernel/reflex_kqueue.c:47-53 | Releases the storage. |
| `QueueWait.TryOnce` | kernel/reflex_sched.c:812-851 | One pass of the waiting loop on the real table and ring, in a call begun at tick `asked` with timeout ms, also after the ring lost its storage. If the item can go, it goes and one waiter is woken. If not, it returns Timeout if and only if there is nothing to yield to or the time is up at `now`, both ticks counted without wrapping, with the table unchanged; otherwise the caller is parked until asked + ms or for ever. |
| `QueueWait.BeginCall` | kernel/reflex_sched.c:806-810 | The head of the waiting loop fixes the deadline from the tick and the timeout. |
| `QueueWait.UpIsReached` | kernel/reflex_sched.c:806-833 | The test on the wrapped tick and deadline says that the time is up on unwrapped ticks: ms have passed, for timeouts up to 2^31. |
| `QueueWait.LongTimesOutAtOnce` | kernel/reflex_sched.c:826-833 | A timeout above 2^31 that is not the one for ever is up when the call begins. |
| `QueueWait.StepShaped` | kernel/reflex_sched.c:801-851 | Every step of the protocol (attempt, retry, yield, the decision of the scheduler, tick, deletion of a parked or of a woken task, anything a task does elsewhere) keeps the tables consistent and the items in order. |
| `QueueWait.RunInOrder` | kernel/reflex_sched.c:801-851 | At every moment of every run, items sent are items received followed by the ring, in order. |
| `QueueWait.OneDirectionWaits` | kernel/reflex_sched.c:772-776 | Senders and receivers are not parked together, provided no wakeup has been lost and one task blocks in each direction, or only one direction blocks and no woken task is deleted. |
| `QueueWait.StepCovers` | kernel/reflex_sched.c:801-851 | Under that condition each step keeps: while anyone is parked, no more of what it waits for is there than woken tasks are on their way to take. |
| `QueueWait.TameRunsLoseNothing` | kernel/reflex_sched.c:801-851 | So no wakeup is lost in any run. |
| `QueueLost.OneIsLost` | kernel/reflex_sched.c:772-776 | With two blocking tasks on one side and one on the other there is a run, given step by step, with the idle task in slot 0 and every processor grant the one the scheduler chooses, that loses a wakeup; the reasoning in that comment fails. |
| `QueueLost.KillLoses` | kernel/reflex_sched.c:201-222 | With two blocking tasks on one side and none on the other, deleting the one that was woken before it runs loses the wakeup: such a run, in which nothing is lost before the deletion and the other task is parked for good after it. |
| `QueueLost.CoveredExactly` | kernel/reflex_sched.c:772-851 | The exact condition, over all runs and all slots: no wakeup is ever lost if and only if at most one task blocks in each direction, or only one direction blocks and no woken task is deleted. |
| `QueueTime.AttemptIsAnswered` | kernel/reflex_sched.c:812-851 | In every run, each attempt of a call, the first and those after a wakeup: it succeeds if it can, and otherwise returns Timeout if and only if its time is up and parks if not. |
| `QueueTime.TimeoutIsExact` | kernel/reflex_sched.c:801-851 | In every run, for timeouts up to 2^31: an attempt that cannot succeed parks before ms ticks have passed since the call began, and returns Timeout at or after that. |
| `QueueTime.DecisionWakes` | kernel/reflex_sched.c:288-301 | In every run, a parked caller leaves the queue at a decision of the scheduler exactly when its time is up, and is then ready or running. |
| `Ternary.ValueUnique` | vm/ternary.c:271-326 | Two trit strings of one length with one value are equal. |
| `Ternary.EncodeInverse` | vm/ternary.c:271-326 | Encoding then valuing gives the number back if and only if it is at most (3^18-1)/2 in size. |
| `Ternary.ValueInverse` | vm/ternary.c:271-326 | Valuing then encoding gives the trits back, for every word. |
| `Ternary.HighestTritDecides` | vm/ternary.c:185-197 | The highest trit in which two words differ decides their order as numbers. |
| `TernaryOps.FromInt32` | vm/ternary.c:271-308 | Succeeds if and only if the value is in range, and then writes the trits whose value it is; on failure the output is untouched. |
| `TernaryOps.ToInt32` | vm/ternary.c:310-326 | Accepts exactly valid words and returns their value, which fits an int32. |
| `TernaryOps.PartBounded` | vm/ternary.c:310-326 | No intermediate sum or place weight leaves the int32 range. |
| `TernaryOps.Add` | vm/ternary.c:200-221 | Refuses invalid words; otherwise succeeds if and only if the integer sum is in range and then is that sum; the output may be an input, and is untouched on failure. |
| `TernaryOps.Subtract` | vm/ternary.c:223-240 | The same for the difference. |
| `TernaryOps.Compare` | vm/ternary.c:175-198 | The sign of the difference of the two numbers. |
| `TernaryOps.Select` | vm/ternary.c:242-269 | The word the selector trit names, with everything validated before the output changes. |
| `Packing.Pack` | vm/ternary.c:81-117 | Succeeds exactly on valid trits that fit, each error as the first the loop meets, and then every two-bit field holds the code of its trit and spare bits are clear. |
| `Packing.Unpack` | vm/ternary.c:119-148 | Rejects exactly inputs that hold a code 3 among the trits read, or too few of them. |
| `Packing.UnpackPack` | vm/ternary.c:81-148 | Unpacking what was packed gives the trits back. |
| `Packing.PackUnpack` | vm/ternary.c:81-148 | Bytes are the packing of what is read from them exactly when they hold no code 3 and their spare bits are clear. |
| `Packing.PackedUnique` | vm/ternary.c:81-117 | A trit string has one packed form. |
| `Packing.CodesAreOrdered` | vm/ternary.c:15-46 | The codes 0, 1 and 2 are those of the trits -1, 0 and 1, both ways; 3 is that of nothing else. |
| `Crc.ComputeCrc` | vm/loader.c:199-216 | The bit loop computes the CRC of section 8 of RFC 1952, table form and complements included. |
| `Crc.PolynomialIs` | vm/loader.c:199-216 | The constant of the loop is the reflected polynomial of section 8 of RFC 1952, term by term. |
| `Crc.CheckValue` | vm/loader.c:199-216 | The CRC of the nine digits 123456789 is CBF43926. |
| `Bytes.LowByteFirst` | vm/loader.c:218-260 | Fields are read with the low byte first. |
| `Crc.TableByteIsTurns` | vm/loader.c:206-212 | One table look-up of the standard is eight turns of the loop. |
| `Crc.TurnsLinear` | vm/loader.c:206-212 | Any number of turns is linear over exclusive or. |
| `Crc.BurstDetected` | vm/loader.c:199-216 | Two different messages of one length that differ only within four consecutive bytes have different CRCs. |
| `Mmu.Mmu.AddRegion` | vm/mmu.c:15-43 | Each error exactly when its cause holds, in the order of the checks; regions stay disjoint and below 2^32. |
| `Mmu.Mmu.Translate` | vm/mmu.c:45-59 | Finds the one region that contains the address, or reports that there is none. |
| `Mmu.Mmu.GetRaw` | vm/interpreter.c:15-21 | The word at the address, or NotFound exactly when no region holds it. |
| `Mmu.Mmu.SetRaw` | vm/interpreter.c:23-29 | Writes that word and no other. |
| `Mmu.SetGet` | vm/mmu.c:45-59 | A write is read back at its address and changes no other. |
| `Mmu.Translates` | vm/mmu.c:15-59 | With disjoint regions, search order does not matter: any region that contains the address is the one found. |
| `Cache.EmptyCache` | vm/cache.c:20-30 | After initialisation the cache stands for the memory behind it. |
| `Cache.LoadRefines` | vm/cache.c:32-61 | A load returns what plain memory would, whatever is evicted on the way, and the cache still stands for the same memory. |
| `Cache.StoreRefines` | vm/cache.c:63-84 | A store to a mapped address does what plain memory would. |
| `Cache.StoreUnmapped` | vm/cache.c:63-84 | A store to an unmapped address is accepted, and leaves a dirty line that can never be written back. |
| `Cache.FlushRefines` | vm/cache.c:86-102 | A flush changes nothing a program can see, and the address is not dirty afterwards. |
| `Cache.InvalidateRefines` | vm/cache.c:110-124 | Dropping a line is harmless when it is not dirty with that address. |
| `Cache.FlushInvalidateRefines` | vm/cache.c:136-140 | Flush and invalidate together never lose a store. |
| `Cache.HostWriteRefines` | vm/cache.c:161-171 | A host write is seen by the program even if it had the address dirty. |
| `Cache.FlushAllRefines` | vm/cache.c:142-159 | After a full flush memory is what the cache stood for. |
| `Cache.Cache.LoadWord` | vm/cache.c:32-61 | The method on lines and regions in place has exactly the effect the refinement is proved of. |
| `Cache.Cache.StoreWord` | vm/cache.c:63-84 | Likewise for a store. |
| `Cache.Cache.FlushLine` | vm/cache.c:86-102 | Likewise for a flush. |
| `Cache.Cache.FlushAllLines` | vm/cache.c:142-159 | Likewise for the loop over all sets, which stops at the first failure. |
| `Cache.Cache.HostWriteWord` | vm/cache.c:161-171 | Likewise for a host write. |
| `VmRefine.StepRefines` | vm/interpreter.c:187-371 | One instruction on the cached machine does what it does on plain memory, unless it stores to an unmapped address or reads a name past a dirty line. |
| `VmRefine.StoreParts` | vm/interpreter.c:293-302 | Such a store faults on plain memory and succeeds with the cache. |
| `VmRefine.StepAgreesExactly` | vm/interpreter.c:187-371 | For instructions that look nothing up by name the two machines agree on a step if and only if it is no such store. |
| `VmRefine.DirtyNameParts` | vm/interpreter.c:31-46 | The condition on names is needed: with a name whose first letter is dirty in the cache the two machines sense different cells. |
| `VmRefine.CachedRunIsPlainRun` | vm/interpreter.c:400-417 | From an empty cache, any run followed by a full flush ends with the result, registers, pointer, status, fault, step count, outside calls and memory of the run on plain memory. |
| `VmSafety.StepSafe` | vm/interpreter.c:187-371 | A step of safe code keeps valid trits everywhere, raises no opcode, register or jump fault, no immediate fault but for a send to a bad node, and leaves the pointer in range or just past the end. |
| `VmSafety.RunSafe` | vm/interpreter.c:400-417 | So does any run, however long; out of range is reported only just past the last instruction, and an immediate fault if and only if the run comes to a send to a bad node. |
| `Interpreter.GetString` | vm/interpreter.c:31-46 | Reads straight from the regions, not through the cache, and gives the same C string as the characters there up to the first zero byte, at most fifteen. |
| `Interpreter.Interpreter.Reset` | vm/interpreter.c:156-166 | Zero registers, ready, no fault, pointer and count zero; the program stays. |
| `Interpreter.Interpreter.StepOnce` | vm/interpreter.c:187-371 | The dispatch on registers, regions and cache lines in place computes exactly the step of the specification, which the lemmas of `VmMeaning` say opcode by opcode. |
| `Interpreter.Interpreter.RunBounded` | vm/interpreter.c:400-417 | The bounded loop computes exactly the run of the specification, time budget included, which `VmMeaning.RunIsTrace` says is a trace of steps. |
| `VmMeaning.StopsMeans` | vm/interpreter.c:60-67 | An empty program, a pointer outside it, a halted or a faulted machine: the error of each, and nothing changes. |
| `VmMeaning.BadRegisterMeans` | vm/interpreter.c:89-154 | A register number that the opcode checks and that is above 7 faults before the pointer moves; nothing else does. |
| `VmMeaning.NopMeans` | vm/interpreter.c:206 | Only the pointer and the counter move on. |
| `VmMeaning.LoadImmediateMeans` | vm/interpreter.c:207-210 | DST holds the immediate as a number, or an immediate fault exactly when it is beyond (3^18-1)/2; the other registers and memory stay. |
| `VmMeaning.MoveMeans` | vm/interpreter.c:211-213 | DST is SRC_A, and nothing else changes. |
| `VmMeaning.SumMeans` | vm/interpreter.c:214-221 | TADD and TSUB: DST holds the sum or difference of the two numbers, or an overflow fault exactly when it is out of range or an operand is no word; the other registers stay. |
| `VmMeaning.CompareMeans` | vm/interpreter.c:222-227 | The lowest trit of DST is -1, 0 or 1 exactly as the first number is below, equal to or above the second, and the others are zero. |
| `VmMeaning.SelectMeans` | vm/interpreter.c:228-236 | DST is the register that the lowest trit of SRC_A selects of three, with every candidate validated. |
| `VmMeaning.JumpMeans` | vm/interpreter.c:237 | The pointer is at the target, or a fault exactly when there is no such instruction. |
| `VmMeaning.BranchMeans` | vm/interpreter.c:238-246 | TBRNEG, TBRZERO and TBRPOS go to the target exactly when the lowest trit is -1, 0 and 1, and one further otherwise. |
| `VmMeaning.BranchAfterCompare` | vm/interpreter.c:222-246 | After TCMP d,a,b a branch on d is taken exactly when the number in a is below, equal to or above that in b. |
| `VmMeaning.SendMeans` | vm/interpreter.c:247-262 | The message goes to the node whose number DST holds, with the low byte of the immediate and SRC_A as payload, and is recorded once; each refusal exactly at its cause. |
| `VmMeaning.ReceiveMeans` | vm/interpreter.c:263-273 | DST is the payload, zero when there is no message, unchanged when the receive fails, and the program goes on in all three cases. |
| `VmMeaning.SyscallMeans` | vm/interpreter.c:274-278 | The handler gets selector, SRC_A and SRC_B, and its answer is DST; no handler or an error is a fault. |
| `VmMeaning.HaltMeans` | vm/interpreter.c:279 | The machine is halted one further, and no later step changes it. |
| `VmMeaning.LoadMeans` | vm/interpreter.c:280-289 | With or without a cache, whatever is evicted: DST is the word at the address in SRC_A, or a memory fault exactly when no region holds it. |
| `VmMeaning.StoreMeans` | vm/interpreter.c:290-298 | With or without a cache: the program sees SRC_A at the address in DST and every other word as before; on plain memory an unmapped address is a fault. |
| `VmMeaning.FlushMeans` | vm/interpreter.c:299-312 | The program sees the same memory; the line at the address is clean after TFLUSH and otherwise as it was, and gone after TINV. |
| `VmMeaning.RouteMeans` | vm/interpreter.c:313-338 | DST tells 1 and there is one route more exactly when both operands point to a cell and fewer than four routes exist; -1 and none otherwise. |
| `VmMeaning.BiasMeans` | vm/interpreter.c:339-349 | DST tells 1 exactly when SRC_A numbers an existing route, and -1 otherwise. |
| `VmMeaning.SenseMeans` | vm/interpreter.c:350-366 | The lowest trit of DST is the state of the cell pointed to, or zero when there is none; the others are zero. |
| `VmMeaning.PointsIsFound` | vm/interpreter.c:31-46 | The cell an operand leads to, in every memory: by name, the one named by the low bytes of the words there up to the first zero byte, read until a word that is the number 0 or fifteen words, and none if one of these is missing; by coordinate, the one at its nine low trits. |
| `VmMeaning.UnknownMeans` | vm/interpreter.c:367 | An opcode that does not exist is a fault. |
| `VmMeaning.RunIsTrace` | vm/interpreter.c:400-417 | Every run is a sequence of such steps from the machine given, and ends at the first late clock, halt, error or end of the budget, with the result of that. |
| `Image.EncodedIsDecoded` | vm/loader.c:266-282 | Every instruction with three-bit registers and a 17-bit signed immediate survives packing and decoding. |
| `Image.DecodedIsEncoded` | vm/loader.c:266-282 | Every 32-bit word is the packing of what is decoded from it. |
| `Image.OpcodesInOrder` | vm/include/reflex_vm_opcode.h:37-62 | The codes 0 to 21 are those of the twenty-two opcodes in the order of the enumeration. |
| `Loader.ValidateImage` | vm/loader.c:106-168 | Returns the error of the first check that fails, in the order of the source. |
| `Loader.FirstErrorExactly` | vm/loader.c:53-104 | No error is found if and only if every instruction is valid on its own. |
| `Loader.AcceptedImageSafe` | vm/loader.c:53-168 | An accepted image is safe code if and only if the fields no check covers happen to be in range. |
| `Loader.SafeIsAccepted` | vm/loader.c:53-104 | Conversely the checks are no stricter than that: safe code passes them if and only if the selectors of its TSYS are 0 to 3. |
| `Loader.TbiasIsNotValidated` | vm/loader.c:98-100 | An accepted image whose TBIAS names a register that does not exist. |
| `Loader.AcceptedIsSafe` | vm/loader.c:218-340 | In a packed image those fields have three bits or seventeen, so every accepted one is safe code with a valid entry and valid words. |
| `Loader.AcceptedRunsSafely` | vm/loader.c:218-340 | Any run of an accepted packed image, with or without a cache and whatever lines earlier programs left in it, stays safe, can leave the program only just past its end, and raises an immediate fault if and only if it comes to a send to a bad node. |
| `Loader.HeldIsJustLoaded` | vm/loader.c:170-340 | What a successful load leaves in the machine is what that theorem starts from. |
| `Loader.BurstIsRejected` | vm/loader.c:256-260 | Of two buffers with one header whose payloads differ only within four consecutive bytes, at most one is accepted. |
| `Loader.Unload` | vm/interpreter.c:168-185 | No program, memory or routes are left, and all registers are zero. |
| `Loader.LoadImage` | vm/loader.c:170-197 | Installs exactly the valid images; a refused one leaves the machine as it was. |
| `Loader.LoadBinary` | vm/loader.c:218-340 | Loads exactly what the format says, each error as its cause; on failure after the header nothing of the old or the new program is left. |
| `Loader.ReloadExactly` | vm/interpreter.c:168-185 | Unloading leaves the cache alone; the new program sees the memory it was loaded with if and only if every line still in use sits in its set and holds what that memory has at its tag. |
| `Loader.ReloadReadsStale` | vm/interpreter.c:168-185 | Load, run, unload, load, run, on the machine in place: the second program reads the word of the first. |
| `ShellParse.ParseHex` | shell/shell_parse.c:43-63 | Accepts exactly even, nonempty hexadecimal text that fits, writes its bytes, and writes nothing otherwise. |
| `ShellParse.HexIsRead` | shell/shell_parse.c:36-63 | Parsing undoes writing, for any bytes. |
| `ShellParse.NibbleIsPlace` | shell/shell_parse.c:36-41 | The digits 0 to 15, in either case, are in order. |
| `ShellParse.PairCounts` | shell/shell_parse.c:58-60 | A byte is sixteen times its first digit and its second. |
| `ShellParse.TypedKeeps` | shell/shell.c:2731-2736 | A line is stored whole if and only if it has at most 1023 characters, and is marked overflowed otherwise. |
| `Tasm.ParseTernary` | tools/tasm.py:41-52 | The value of the trits as written. |
| `Tasm.LiteralIsWord` | tools/tasm.py:41-52 | A literal of at most eighteen trits, as a word18, shows exactly the trits written. |
| `Tasm.FirstPass` | tools/tasm.py:85-119 | Refuses exactly unnamed or duplicate labels and bad .entry lines; otherwise collects the labels, lines of code and entry. |
| `Tasm.LabelIsPosition` | tools/tasm.py:102-111 | A label names the instruction that follows it, by the number of instructions before it. |
| `Tasm.LineIsPlaced` | tools/tasm.py:112-124 | Instruction n of the program is what the line of code with n lines of code before it means. |
| `Tasm.EntryIsPlaced` | tools/tasm.py:115-119 | The entry is the position of the label that .entry names. |
| `Tasm.NoEntryIsZero` | tools/tasm.py:115 | Without .entry it is zero. |
| `Tasm.PackLine` | tools/tasm.py:122-246 | Packs exactly the instruction a line means, and refuses exactly the lines that mean none: wrong operands, registers or immediates. |
| `Tasm.Assemble` | tools/tasm.py:72-262 | Produces an image if and only if the source is well named, every line means something and it has fewer than 2^16 instructions; the image is that of its program. |
| `Tasm.PayloadWord` | tools/tasm.py:249-251 | Four payload bytes at 4i are the word of instruction i. |
| `Tasm.HeaderFields` | tools/tasm.py:255-258 | The header fields are read back where they were written. |
| `TasmMeaning.LineNamesRegisters` | tools/tasm.py:133-139 | The operands of a line that means something name registers 0 to 7. |
| `TasmMeaning.LdiLine` | tools/tasm.py:149-153 | TLDI rd, n: the machine at that line puts the number n, or the position of a label, into rd. |
| `TasmMeaning.MovLine` | tools/tasm.py:154-158 | TMOV rd, ra: rd is ra. |
| `TasmMeaning.SumLine` | tools/tasm.py:159-164 | TADD and TSUB rd, ra, rb: rd holds ra + rb and ra - rb. |
| `TasmMeaning.CmpLine` | tools/tasm.py:159-164 | TCMP rd, ra, rb: rd compares ra with rb. |
| `TasmMeaning.SelLine` | tools/tasm.py:165-173 | TSEL rd, rs, r0, r-, r+: rd is the fourth, third or fifth operand as the trit in rs is -1, 0 or 1. |
| `TasmMeaning.JmpLine` | tools/tasm.py:174-177 | TJMP label: the pointer is at the label. |
| `TasmMeaning.BranchLine` | tools/tasm.py:178-182 | The branches test the register of their first operand and go to the label in the second. |
| `TasmMeaning.LdLine` | tools/tasm.py:154-158 | TLD rd, ra: rd is the word at the address in ra. |
| `TasmMeaning.StLine` | tools/tasm.py:154-158 | TST rd, ra: ra is stored at the address in rd. |
| `TasmMeaning.FlushLine` | tools/tasm.py:193-196 | TFLUSH and TINV ra: the line of the address in ra. |
| `TasmMeaning.SendLine` | tools/tasm.py:183-188 | TSEND rd, ra, n: ra goes to the node in rd with operation n. |
| `TasmMeaning.RecvLine` | tools/tasm.py:189-192 | TRECV rd: rd is what arrives. |
| `TasmMeaning.SysLine` | tools/tasm.py:197-203 | TSYS rd, ra, rb, n: call n with ra and rb, the answer in rd. |
| `TasmMeaning.SenseLine` | tools/tasm.py:215-220 | TSENSE rd, ra, n: rd is the state of the cell that ra points to. |
| `TasmMeaning.RouteLine` | tools/tasm.py:204-209 | TROUTE rd, ra, n: the cell that ra points to is joined to the one that r0 points to. |
| `TasmMeaning.BiasLine` | tools/tasm.py:210-214 | TBIAS rd, ra: rd tells whether ra numbers a route. |
| `Upload.LoadsExactly` | vm/loader.c:106-168 | Of what the assembler emits, the loader refuses exactly programs with an entry or branch target out of range or a system call other than 0 to 3. |
| `Upload.ImageIsParsed` | vm/loader.c:218-340 | Assembling then loading is the identity on programs: entry, opcodes, registers and immediates. |
| `Upload.BadSendIsAccepted` | vm/interpreter.c:247-262 | An assembled image that sends to a node beyond 255 is accepted, and every run of two steps or more ends in an immediate fault. |
| `Upload.LineArrives` | tools/tasm.py:304-307 | The upload command reaches the shell buffer whole if and only if the length check lets it through. |
| `Upload.SourceIsLoaded` | tools/tasm.py:72-262 | From source lines through image, hexadecimal text and shell parser to the loader: the program that arrives is the one the source means. |
| `Upload.LoadHex` | shell/shell.c:2299-2311 | The command loads exactly what parses as text and as an image, and text that does not parse touches nothing. |
| `Sha256Spec.ConstantsAreCubeRoots` | platform/reflex_crypto.c:22-39 | All sixty-four round constants are the first 32 bits of the fractional parts of the cube roots of the first primes (section 4.2.2 of FIPS 180-4). |
| `Sha256Spec.InitialAreSquareRoots` | platform/reflex_crypto.c:78-85 | The initial values are those of the square roots (section 5.3.3). |
| `Sha256Bits.ChChooses` | platform/reflex_crypto.c:42 | Bit i of CH is that of the second word where the first has a one, and that of the third where it has a zero. |
| `Sha256Bits.MajCounts` | platform/reflex_crypto.c:43 | Bit i of MAJ is a one exactly where at least two of the three words have one. |
| `Sha256Bits.BigSigma0Mixes` | platform/reflex_crypto.c:44 | Bit i of EP0 is the exclusive or of bits i + 2, i + 13 and i + 22. |
| `Sha256Bits.BigSigma1Mixes` | platform/reflex_crypto.c:45 | Bit i of EP1 is that of bits i + 6, i + 11 and i + 25. |
| `Sha256Bits.Sigma0Mixes` | platform/reflex_crypto.c:46 | Bit i of SIG0 is that of bits i + 7 and i + 18 and of the word shifted by three. |
| `Sha256Bits.Sigma1Mixes` | platform/reflex_crypto.c:47 | Bit i of SIG1 is that of bits i + 17 and i + 19 and of the word shifted by ten. |
| `Sha256Bits.PlusCounts` | platform/reflex_crypto.c:64-76 | The sums are counted by ones and wrap. |
| `Sha256Known.DigestOfAbc` | platform/reflex_crypto.c:56-117 | The specification gives the digest of the standard for the message abc: all sixty-four schedule words and rounds, the first of which leaves a = 5d6aebcd and e = fa2a4622. |
| `Crypto.ChooseIsCh` | platform/reflex_crypto.c:42 | CH as the source writes it is the Ch of the standard. |
| `Crypto.MajorityIsMaj` | platform/reflex_crypto.c:43 | MAJ as the source writes it is the Maj of the standard. |
| `Crypto.Expand` | platform/reflex_crypto.c:56-63 | The two loops compute the message schedule of section 6.2.2. |
| `Crypto.RunRounds` | platform/reflex_crypto.c:64-72 | The rolling a..h loop computes the 64 rounds of section 6.2.2, whose functions `Sha256Bits` states bit by bit and `Sha256Known.DigestOfAbc` ties to known values. |
| `Crypto.Sha256Context.Transform` | platform/reflex_crypto.c:56-76 | The state becomes the hash value after one more block. |
| `Crypto.Sha256Context.Update` | platform/reflex_crypto.c:87-96 | The context depends only on the bytes fed, not on how calls split them. |
| `Crypto.Padded` | platform/reflex_crypto.c:98-111 | Both cases of the padding tail, one block or two, are the padding of section 5.1.1. |
| `Crypto.Sha256Context.Final` | platform/reflex_crypto.c:98-117 | For every message below 2^64 bits the digest is SHA-256 of FIPS 180-4. |
| `Crypto.HmacSha256` | platform/reflex_crypto.c:121-158 | For every key and message HMAC of section 2 of RFC 2104, keys longer than a block hashed first. |
| `Boot0.FitsMeans` | bootloader_components/main/reflex_boot0.c:306-326 | The range tests hold if and only if the whole range lies in the window of its first byte; no address wraps. |
| `Boot0.BodyIsPadded` | bootloader_components/main/reflex_boot0.c:450-454 | The body is rounded up past at least one byte for the checksum, to a multiple of sixteen and no further. |
| `Boot0.WalkChecks` | bootloader_components/main/reflex_boot0.c:416-448 | Every segment of an accepted table has passed its bounds check, and no offset wraps. |
| `Boot0.WalkExactly` | bootloader_components/main/reflex_boot0.c:416-448 | The first pass accepts a table of segments if and only if the flash spells it out: headers that can be read, one behind the other, each with its length, and ranges that start in a RAM window staying in it. |
| `Boot0.WindowsOnly` | bootloader_components/main/reflex_boot0.c:466-478 | Whatever is loaded, no address outside the SRAM and RTC windows changes. |
| `Boot0.SegmentArrives` | bootloader_components/main/reflex_boot0.c:466-478 | A byte of a segment that no later segment overwrites is the byte in flash. |
| `Boot0.SegmentIsMapped` | bootloader_components/main/reflex_boot0.c:480-497 | For flash segments whose two addresses agree modulo 64 KB and whose pages fit nine bits, on distinct entries, every byte vaddr+i translates to paddr+i. |
| `Boot0.LoadedMeans` | bootloader_components/main/reflex_boot0.c:466-497 | Together: no byte outside the two windows has changed, every byte of a RAM segment that no later one overwrites is there, and every byte of a mappable flash segment is found. |
| `Boot0.Board.HashBody` | bootloader_components/main/reflex_boot0.c:360-373 | The chunk loop hashes the whole body, or fails exactly when a chunk cannot be read. |
| `Boot0.Board.VerifySha256` | bootloader_components/main/reflex_boot0.c:338-383 | True if and only if everything can be read, the engine works and the digest matches. |
| `Boot0.Board.Measure` | bootloader_components/main/reflex_boot0.c:416-448 | The first pass accepts exactly the tables the specification accepts. |
| `Boot0.Board.LoadRam` | bootloader_components/main/reflex_boot0.c:466-478 | The second pass leaves RAM as loading the segments in order does, and fails exactly at an unreadable one. |
| `Boot0.Board.MapSegment` | bootloader_components/main/reflex_boot0.c:485-496 | The loop maps exactly the pages the segment touches. |
| `Boot0.Board.MapFlash` | bootloader_components/main/reflex_boot0.c:480-497 | The table is that of all flash segments over an empty one. |
| `Boot0.Board.Inspect` | bootloader_components/main/reflex_boot0.c:391-462 | At any 32-bit offset, and exactly: the table is accepted if and only if the header is one, the segments pass, the announced digest can be read and matches and the engine works. |
| `Boot0.Board.LoadImage` | bootloader_components/main/reflex_boot0.c:391-502 | Returns the entry word of the header if and only if the image is Bootable, a condition on the flash contents and the engine alone, and 0 otherwise; a bootable image is loaded and mapped completely, as LoadedMeans describes it, and no other touches the page table. RAM changes only after every header is checked and, when appended, the digest matched. |
| `Boot0.BootableExactly` | bootloader_components/main/reflex_boot0.c:391-502 | An image is bootable if and only if the flash spells out a sound one: magic E9, at most sixteen segments from byte 24 on, those for RAM readable, and behind a body rounded up to sixteen, if one is announced, a digest that can be checked and matches. |
| `Boot0.CountsUp` | bootloader_components/main/reflex_boot0.c:124-134 | A boot counts one failure more, or stops at three and clears the count. |
| `Boot0.StopsWithinFour` | bootloader_components/main/reflex_boot0.c:517-523 | Whatever the register held, a board whose application never stays up stops within four boots, and from zero at the fourth. |
| `Preproc.ActiveLines` | tools/check_independence.py:474-507 | Yields, in order, exactly the lines the stack of frames keeps. |
| `Preproc.NothingIsMissed` | tools/check_independence.py:450-507 | For every build that agrees with the known symbols, every line a real nested evaluation compiles is yielded. |
| `Preproc.KnownIsExact` | tools/check_independence.py:450-507 | When every condition is known the two agree on every line. |
| `Preproc.ConservativeExactly` | tools/check_independence.py:450-507 | The exact condition: the scan misses no compiled line of any source if and only if the build agrees with the known symbols. |
| `Preproc.DefinedAsZero` | tools/check_independence.py:450-471 | A symbol defined as 0 does not agree: a line the tool misses. |
| `TaskRuntime.Runtime.Retire` | vm/task_runtime.c:62-82 | A task that was asked to stop parks under its handle; one that was not clears the handle and is gone. |
| `TaskRuntime.Runtime.TakeTurn` | vm/task_runtime.c:42-83 | At every switch point at most one task is live, known by the handle, and it parks only after it was asked to. |
| `TaskRuntime.Runtime.Start` | vm/task_runtime.c:94-178 | The error of the first failing step; on success exactly one more live task, which the handle names. |
| `TaskRuntime.Runtime.Stop` | vm/task_runtime.c:194-265 | Returns OK if and only if within two hundred polls the task takes the turns it needs to park, and then no task is live; it deletes only a parked task, never a null handle or one that is stepping; on a timeout the task is left alone. |
| `TaskRuntime.ParksExactly` | vm/task_runtime.c:42-83 | A task gets to its parking place exactly when it is there, is at the top of its loop with a turn to come, halts in a turn, or sleeps in one that is not the last. |
| `TaskRuntime.RunOps` | vm/task_runtime.c:94-265 | Over any run of starts, stops and time without a timed-out stop, the handle is set if and only if exactly one task is live. |
| `TaskRuntime.SecondTask` | vm/task_runtime.c:94-134 | After a timeout a start makes a second live task, which is why timeouts are excluded. |

## Left out

Weaker than the source, or under a condition:

- Heap.Heap.AllocAligned: requires that the request is not torn (`HeapSizes.Torn`); for torn ones the search provably does not return a sound list (`HeapSearch.SearchKeepsExactly`), and what the allocator writes then is not modelled in place.
- Heap.Heap.AllocLocked: the same condition.
- Heap.Heap.Free: for a plausible pointer it requires that the pointer is the payload of some block; the source reads whatever lies below any plausible pointer.
- Heap.Heap.Realloc: requires that a plausible pointer is live; on a block already freed the source would resize a free block.
- Heap.Heap.RunAudit: requires that every header the walk can reach is there to be read (`HeapAudit.Closed`), which `Heap.Heap.ValidIsIntact` gives for every reachable heap; a next word that points outside stored headers is not modelled. The same holds for Heap.Heap.Check.
- Mmu.Mmu.AddRegion: the words of a region belong to it alone; two regions over one buffer are not modelled.
- Cache.Cache.LoadWord: hit, miss and eviction counters are not modelled, here and in the other cache methods.
- VmRefine.StepRefines: TROUTE and TSENSE by name read memory behind the cache, so the names must not be dirty in it; `VmRefine.DirtyNameParts` shows why.
- VmRefine.CachedRunIsPlainRun: for runs whose plain form stores only to mapped addresses and looks nothing up by name; `VmRefine.StepAgreesExactly` says that the first condition is needed.
- VmSafety.RunSafe: assumes that the outside answers with valid trits.
- Interpreter.Interpreter.RunBounded: the clock is one answer per step, whether the budget is used up.
- Crypto.Sha256Context.Final: for messages of 2^64 bits and more the standard defines nothing.
- Crypto.HmacSha256: lengths below 2^32, the range of `size_t`.
- KQueue.Queue.TrySend: an item is one value rather than `item_size` bytes.
- Boot0.SegmentIsMapped: for segments within the 32 MB that nine-bit page numbers reach.
- Boot0.Board.HashBody: the ROM's SHA engine is taken to compute SHA-256.
- SchedRun.TopTaskTaken: no running task retires between the sixteen decisions; `SchedRun.RetirementStarves` shows why.
- SchedRun.RunTurns: the running task's calls are those that change the table; the idle task makes none, and nobody deletes it.
- SchedSleep.SleepLasts: a tick that arrives between the end of a task's turn and the decision that follows is counted to the turn after that decision.
- VmMeaning.StoreMeans: a cached store to an unmapped address is only said to go on; `Cache.StoreUnmapped` says what it leaves in the cache.
- VmMeaning.BiasMeans: the orientation stored in the route is not modelled, only whether there is such a route. The same holds for VmMeaning.RouteMeans and the cells a route joins.
- QueueLost.CoveredExactly: one queue, and at most fifteen tasks that block on it.
- TaskRuntime.Runtime.Stop: at cooperative switch points; the check and the use of the handle are not atomic under a preemptive kernel.
- Upload.ImageIsParsed: the loader's two allocations succeed.
- Tasm.Assemble: a program of 2^16 instructions or more, for which the packing of the header fails, is refused.

Not modelled:

- Register programming, boot order, interrupt entry, watchdogs and clocks: facts about hardware.
- `setjmp` and `longjmp`, and stack switching: a task's context is opaque, and a step ends where it yields.
- The fabric behind TROUTE, TBIAS and TSENSE, the radio and the bodies of system calls: parameters that answer.
- `reflex_heap_block_size`, `reflex_heap_owns` and the single-field getters; task names and `find_by_name`: read once and clear.
- The tokens of `tools/tasm.py` and of the preprocessor scan: both start from parsed lines. The serial port and the shell's echo and editing keys.
- `shell/shell_policy.c`, `shell/shell_outcome.c`, the shell's handlers, services, drivers, logging and storage: plumbing that would add easy members.
- The tick's timing registers and the lock: the model's steps are what the lock makes atomic.
- Collision resistance of SHA-256, and anything that depends on real time.
