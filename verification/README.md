# A verified model of the OSjeff kernel's in-place and concurrent code

OSjeff is a single-core kernel in Rust. This project models, in Dafny, the parts of it where memory is
rewritten in place or several threads and interrupt handlers share state, and proves what those parts are
for:

- **The heap** (`HeapMath`, `FreeList`, `HeapLinks`, `HeapBlocks`, `Carving`, `LinkedListAllocator`). Heap
  memory is a map from addresses to 8-byte words; free nodes are two words in it, linked, resized and unlinked
  word by word as the code does. The central fact is that the coalesced list is a canonical form: it is
  determined by the set of live blocks, whatever the history.
- **Locks** (`YieldMutex`, `SpinLock`). Every access to a lock word, to the owner word or to the interrupt flag
  is one step; threads interleave, are preempted and die between steps. Theorems are about every run.
- **The scheduler** (`Schedule`, `Scheduler`, `SchedulerRuns`, `SchedulerFairness`, `SchedulerFaults`,
  `SchedulerProcesses`, `SchedulerCode`). Thread records, the processor state switched with them, and the life of
  user page-table roots, as a step system with slot reuse; the code on mutable fields is proved to take exactly
  those steps, and what the steps are for (own page tables, contexts, sleep, death, turns) is proved of every run.
- **The framebuffer** (`Gfx`, `Pixels`, `PixelBytes`, `RowWriters`, `Canvas`, `CanvasBaseline`). Packed, four-pixel
  and table-driven loops over a byte array, proved to paint exactly their region, each byte once, with the bytes
  the color has in the buffer's format, and to agree with the per-pixel form and with the older baseline.
- **Rings and handshakes** (`InputRing`, `SampleRing`, `Wakeup`, `Ata`). The interrupt input ring, the entropy
  sample ring with stalling producers, the worker wake-up protocol over `sched::block` with the worker preempted
  between any two of its accesses, and the disk controller's backoff.

Runs are inductive values (`Start`, then `Then(previous, event)`), so a lemma about a run is a statement about
every reachable state. Where a theorem needs a condition on the run (guards dropped in order, no slot reused
while a lock names it as owner, interrupts masked around a block, callers one at a time) the condition is a
named predicate, and a lemma shows what happens without it. Memory accesses are sequentially consistent, which is what one core gives.

## Where the code and its documentation disagree

The model follows the code.

- `sched.rs` says a demoted slot gets at most one tick in `DEMOTED_GAP + 1` while others can run. A slot
  picked at tick `T` is held only up to `T + 5`, so the distance is `DEMOTED_GAP`; and holding is ignored when
  the only other ready slot is the one being left, so against a single competitor a demoted slot gets every
  second tick (`SchedulerFairness.EverySecondTick`; `HeldSlotRunsAgain` is a run from boot in which a held slot
  is chosen). `HeldChosenIff` is the exact rule for a choice made by the round; a hand-off hint does not look at
  holding at all. The choice made when a thread faults (`sched/death.rs`) ignores holding and charges nothing
  (`SchedulerFaults.FaultTakesNearest`), so a demoted slot can get two turns at the same tick with another slot
  ready and unheld, whether the fault gives the second turn (`FaultRunsHeldSlot`) or the first
  (`FaultTurnNotCharged`).
- `sched.rs` says the current thread is left in place when nothing is runnable. The code halts the machine
  (`SchedulerRuns.HaltsIffNobodyReady`, and `MachineCanHalt` for a run from boot that ends so); it never comes to
  that while the compositor is not blocked (`CompositorKeepsRunning`). The compositor's loop does not block, and
  `netstack/mod.rs` spins instead of blocking in slot 0; `rng::wait_ready` blocks in any slot, but no call of it
  from slot 0 was found.
- `sync.rs` says the lock never deadlocks the machine and that a dead owner comes back as an error. That
  holds exactly when the owner had published itself and its slot still holds it: a thread that dies between winning
  the lock word and storing `owner` (or after clearing it) leaves later callers waiting for good
  (`YieldMutex.UnpublishedDeathNeverAnswered`; `OwnerCanDie` reaches both deaths), and when the slot of a published
  owner is given away, a later caller is told `OwnerDead` exactly when that slot is dead again as it looks
  (`LateCallAnswered`), and the slot's new thread is told `Reentrant` (`DirtyReuseMisleads`).
- `sync.rs` says `OwnerDead` means the holder died with the lock held. A caller judges the owner it loaded a step
  before: if that thread drops the lock and dies in between, the caller is told `OwnerDead` although the lock is
  free (`YieldMutex.StaleOwnerDead`). `OwnerDeadMeans` is the exact rule: the slot it loaded is dead, and then the
  lock is poisoned or that slot is no longer the one named.
- `sched/blocking.rs` says a wake that races with the announcement of a block is not lost, because the caller's
  test is repeated after it. The test is repeated by the blocked thread itself, with interrupts on and its wake-up
  tick already stored: a tick that takes it off the processor there, or between the test and the store of 0, with
  the request already made, leaves it asleep with the work posted and every request returned
  (`Wakeup.WakeupsAreLost`). `LostExactly` is the exact condition. Masking interrupts from the announcement to the
  test, and on to the store of 0 when the test finds work, is enough (`NoLostWakeup`); the first half alone is
  not.
- `rng.rs` says `LOST` counts the samples overwritten before they could be folded. With a producer stalled between
  taking its index and storing, it can be off by that sample (`SampleRing.StalledStoreMiscounts`), and never by
  more than the number of stalled samples (`LostIsOverwritten`).

## Model

| member | source | states |
|---|---|---|
| HeapMath.FitRegionSplitExact | kitsune_core/src/system/heap.rs:66-95 | the fit succeeds exactly when some aligned placement leaves gaps that are empty or a whole node, returns the lowest one, and accounts for every byte; checked additions never hide a placement |
| HeapMath.CandidateLeast | kitsune_core/src/system/heap.rs:77-81 | the candidate start is the lowest aligned start with an acceptable front gap, also at the top of the 64-bit range |
| HeapMath.AdjustSizeBounds | kitsune_core/src/system/heap.rs:109-118 | an adjusted size holds the request and a node, is a multiple of 8 and wastes less than 8 bytes |
| HeapMath.PowersOfTwo | kitsune_core/src/system/heap.rs:66-81 | the alignments the fit accepts are exactly the powers of two |
| FreeList.CanonicalUnique | kernel/src/allocator.rs:137-141 | two sorted, coalesced lists covering the same bytes are the same list |
| FreeList.InsertCanonical | kernel/src/allocator.rs:146-179 | returning a disjoint region keeps the list sorted, gap-separated, aligned and node-sized, also when it closes a gap on both sides |
| FreeList.InsertCovers | kernel/src/allocator.rs:146-179 | after returning a region exactly its bytes have become free |
| FreeList.InsertTotal | kernel/src/allocator.rs:146-179 | the free total grows by exactly the region's size |
| FreeList.WalkLinkMerge | kernel/src/allocator.rs:158-177 | linking after the node where the walk stops, merging forward and then backward, is the sorted coalescing insertion |
| HeapLinks.ChainLinkAfter | kernel/src/allocator.rs:170-172 | the three word writes of linking turn the chain in memory into the list with the region linked in |
| HeapLinks.ChainMerge | kernel/src/allocator.rs:185-198 | the word writes of merging turn the chain into the list with the two nodes joined |
| HeapLinks.ChainRemove | kernel/src/allocator.rs:210-212 | the word writes of unlinking turn the chain into the list without that node |
| HeapBlocks.FreeListDeterminedByLive | kernel/src/allocator.rs:137-179 | the free list is a function of the live blocks: equal live blocks, equal lists, whatever the order of operations |
| HeapBlocks.AllFreed | kernel/src/allocator.rs:137-141 | with nothing live the list is the one initial region |
| HeapBlocks.AfterAlloc | kernel/src/allocator.rs:227-254 | taking a block out of free bytes keeps every live block at a multiple of the alignment it asked for and of a node's, inside the arena and disjoint from the others, and every byte either free or owned |
| Carving.AdjustAlignBoth | kitsune_core/src/system/heap.rs:109-118 | the adjusted alignment asks for exactly the caller's alignment and a node's |
| HeapBlocks.AfterDealloc | kernel/src/allocator.rs:256-263 | giving a block back keeps the same accounting |
| Carving.FirstFitLowest | kernel/src/allocator.rs:201-225 | first fit in address order is the lowest place in the whole heap where the request can go, and fails only when there is none |
| Carving.CarveFacts | kernel/src/allocator.rs:231-251 | unlinking a region and returning front and tail leaves a coalesced list of exactly the bytes not taken |
| LinkedListAllocator.Allocator.constructor | kernel/src/allocator.rs:119-123 | a new allocator is a sentinel, an empty list and nothing live |
| LinkedListAllocator.Allocator.Init | kernel/src/allocator.rs:131-135 | the list is the one region handed over |
| LinkedListAllocator.Allocator.AddFreeRegion | kernel/src/allocator.rs:146-179 | memory afterwards holds the coalescing insertion, and only the sentinel and free bytes were written |
| LinkedListAllocator.Allocator.MergeWithNext | kernel/src/allocator.rs:185-198 | memory afterwards holds the list with the node merged if it touched its successor, else unchanged; other words untouched |
| LinkedListAllocator.Allocator.FindRegion | kernel/src/allocator.rs:201-225 | finds and unlinks the first region that fits with its chosen start, or leaves everything as it was |
| LinkedListAllocator.Allocator.Alloc | kernel/src/allocator.rs:227-254 | null exactly when the request fits nowhere; else the lowest address that is a multiple of the alignment asked for and of a node's, free for the adjusted size and leaving no unusable gap; contents of live blocks kept |
| LinkedListAllocator.Allocator.Dealloc | kernel/src/allocator.rs:256-263 | one live block less, all invariants kept, the contents of the other live blocks untouched |
| LinkedListAllocator.Allocator.ClientWrite | kernel/src/allocator.rs:337-340 | the owner of a live block may write any aligned word of it without disturbing the allocator |
| LinkedListAllocator.Allocator.FreeBytes | kernel/src/allocator.rs:266-274 | free bytes are the initial size minus the adjusted sizes of the live blocks |
| LinkedListAllocator.Allocator.AllocDealloc | kernel/src/allocator.rs:227-263 | freeing right after allocating restores the identical list |
| LinkedListAllocator.Allocator.DeallocAll | kernel/src/allocator.rs:256-263 | freeing all live blocks in any order gives back the single initial region |
| YieldMutex.RunInv | kernel/src/sync.rs:98-128 | at every point of every interleaving in which no slot is reused while the lock names it, the lock words agree with where every thread is and `owner` is empty or names the thread that has the guard |
| YieldMutex.MutualExclusion | kernel/src/sync.rs:98-128 | in every run, whatever slots are reused, at most one thread is between winning the compare-exchange and clearing `locked`, `locked` is set meanwhile, and `owner` names a thread that has the guard |
| YieldMutex.ReentrantIffHolder | kernel/src/sync.rs:110-113 | a call ends in `Reentrant` exactly when the lock names its slot; unless a named slot was reused, exactly when the caller itself has the guard |
| YieldMutex.HolderNeverWaits | kernel/src/sync.rs:98-128 | a holder that calls `lock` again neither waits nor wins |
| YieldMutex.HolderIsTold | kernel/src/sync.rs:98-113 | a holder that calls `lock` again is told `Reentrant` at its third access and keeps the guard, whatever others do |
| YieldMutex.LockedExactly | kernel/src/sync.rs:98-155 | in every run `locked` is set exactly while somebody is between winning and clearing it, or, with nobody there, from the reuse of a dead holder's slot on |
| YieldMutex.WinsIffFree | kernel/src/sync.rs:102-109 | a compare-exchange wins exactly when nobody holds the lock and no holder's slot was reused; the winner's next access gives it the guard and the ownership |
| YieldMutex.DropFrees | kernel/src/sync.rs:150-155 | dropping the guard clears `owner`, and its last access leaves `locked` clear, `owner` empty and nobody holding |
| YieldMutex.AnswersComeFrom | kernel/src/sync.rs:98-128 | each answer of a call can only come from its own access, under its own condition |
| YieldMutex.TimeoutExactly | kernel/src/sync.rs:117-125 | a wait ends in `Timeout` exactly when interrupts are off and this call has already waited so `IRQ_OFF_SPINS` times; otherwise it tries again |
| YieldMutex.DeadStaysPut | kernel/src/sched/death.rs:53-63 | a dead thread stays where it died, in every continuation, until its slot is reused |
| YieldMutex.DeathPoisons | kernel/src/sync.rs:57-59 | a thread that dies between winning the compare-exchange and clearing `locked` leaves the lock set with no living holder, and `owner` naming it exactly if it had published itself |
| YieldMutex.PoisonedForGood | kernel/src/sync.rs:57-59 | a poisoned lock stays so in every continuation, whatever slots are reused: the words never change and no living thread has it again |
| YieldMutex.CleanOrPoisoned | kernel/src/sched/user.rs:18-22 | a run in which a named slot was reused has the lock poisoned for good with an owner published |
| YieldMutex.PoisonedAnswers | kernel/src/sync.rs:101-125 | any call of a living thread that ends on a poisoned lock, also one already under way at the death, ends in `OwnerDead`, or in `Timeout` with interrupts off, or in `Reentrant` in a reused named slot |
| YieldMutex.OwnerDeadMeans | kernel/src/sync.rs:110-116 | a call is told `OwnerDead` exactly when the slot it loaded is dead as it judges; then the lock is poisoned or names another |
| YieldMutex.StaleOwnerDead | kernel/src/sync.rs:110-116 | a run in which a call is told `OwnerDead` although the lock is free |
| YieldMutex.LateCallAnswered | kernel/src/sync.rs:101-125 | a call begun later in another slot is told `OwnerDead` exactly when the slot the lock names is dead as it looks, and waits otherwise, whatever slots are reused |
| YieldMutex.LateAttemptsSeeOwnerDead | kernel/src/sync.rs:101-116 | after the death of a published holder, while its slot is not reused, every call begun later in another slot ends in `OwnerDead` at its third access: each access brings it one nearer and it never waits |
| YieldMutex.UnpublishedDeathNeverAnswered | kernel/src/sync.rs:102-116 | if the lock is poisoned with no owner published, no access made with interrupts on ever ends a later call, whatever slots are reused; with interrupts off only `Timeout` does |
| YieldMutex.ReusedHolder | kernel/src/sched/user.rs:18-22 | reusing the slot of an unpublished dead holder leaves the lock set for good with nobody in it |
| YieldMutex.DirtyReuseMisleads | kernel/src/sched/user.rs:18-22 | giving away a slot the lock still names as owner always lets its new thread be told `Reentrant` although it holds nothing |
| YieldMutex.OwnerCanDie | kernel/src/sync.rs:57-59 | runs that reach a dead holder, one that had published itself and one that had not |
| SpinLock.RunInv | kernel/src/allocator.rs:39-56 | flag, guards and lock words stay consistent in every run with nested guards |
| SpinLock.HeldMeansMaskedAndRunning | kernel/src/allocator.rs:24-29 | a held lock means interrupts off and the running thread as holder; no other thread, dead ones included, holds any |
| SpinLock.SpinsIffSelfHeld | kernel/src/allocator.rs:44-50 | the spin loop finds the lock taken exactly when the caller already holds it |
| SpinLock.SelfDeadlock | kernel/src/allocator.rs:39-56 | in that case nothing the running system does changes the state any more |
| SpinLock.GuardTaken | kernel/src/allocator.rs:39-56 | taking a guard makes the lock or section the innermost, remembers the flag it found, turns interrupts off and changes nothing else |
| SpinLock.BootEnables | kernel/src/interrupts.rs:122 | the boot thread runs with interrupts on outside its guards from then on |
| SpinLock.KilledHoldsNothing | kernel/src/sched/user.rs:79-85 | a thread killed while switched out never runs again and holds no lock, in any continuation |
| SpinLock.OutermostRestores | kernel/src/allocator.rs:79-86 | dropping the outermost guard brings back the flag outside the guards; dropping an inner one leaves interrupts off |
| SpinLock.OutOfOrderDrop | kernel/src/allocator.rs:79-86 | dropping a guard out of order turns interrupts on under a held lock exactly when it is the outermost guard of a thread that runs with interrupts on |
| SpinLock.UnnestedRun | kernel/src/allocator.rs:79-86 | a run that does so |
| Schedule.NearestReady | kitsune_core/src/system/schedule.rs:17-22 | the choice is the ready slot nearest after the current one; there is none only when nobody is ready |
| Schedule.PicksEligible | kitsune_core/src/system/schedule.rs:27-37 | while a slot other than the current one is ready and not held, the nearest such slot is chosen |
| Schedule.PicksHeld | kitsune_core/src/system/schedule.rs:27-37 | otherwise holding is ignored |
| Schedule.HeldPick | kitsune_core/src/system/schedule.rs:27-37 | somebody is chosen whenever anybody is ready; a held slot only when no other slot but the current one is eligible |
| Scheduler.Pick | kernel/src/sched.rs:308-324 | by boost, hint or round-robin, the slot chosen is alive and not blocked, and there is none exactly when no slot can run |
| Scheduler.PickAny | kernel/src/sched/death.rs:68-73 | the same for the choice after a fault |
| Scheduler.StepKeepsInv | kernel/src/sched.rs:99-138 | every event keeps slots, ids and page-table roots consistent |
| SchedulerRuns.FreedRootNeverLive | kernel/src/sched.rs:124-138 | a freed page-table root is never the live one, and no living thread names it |
| SchedulerRuns.ReapedRootCanBeLive | kernel/src/userproc.rs:531-545 | without `release_cr3` it would be: a reaped root can still be loaded, borrowed by the compositor |
| SchedulerRuns.ResumesExactly | kernel/src/sched.rs:328-361 | a thread resumes with exactly the stack pointer and FPU image it was switched out with, whatever others did |
| SchedulerRuns.SavedWhileAway | kernel/src/sched.rs:332-347 | its saved context does not change while it is away |
| SchedulerRuns.DeadNeverRuns | kernel/src/sched.rs:147-148 | a thread that is dead and not running never runs again, in any continuation |
| SchedulerRuns.ExchangesUndisturbed | kernel/src/sched.rs:258-265 | two threads that hand the processor to each other exchange it any number of times with nobody in between, whoever else is ready, held or demoted |
| SchedulerRuns.DeadIsLeft | kernel/src/sched.rs:290-302 | a thread dead while running is left at the next reschedule |
| SchedulerRuns.HaltsIffNobodyReady | kernel/src/sched.rs:318-324 | a reschedule halts the machine exactly when no slot can run |
| SchedulerRuns.MachineCanHalt | kernel/src/sched.rs:318-324 | a run from boot that ends with the machine halted |
| SchedulerRuns.CompositorKeepsRunning | kernel/src/sched.rs:294-302 | in every run slot 0 is alive, and no event, a fault included, halts the machine while slot 0 is not blocked |
| SchedulerFairness.TurnWithinOneRound | kernel/src/sched.rs:308-320 | among n slots a slot ready and not held at every round-robin choice is passed over at most n - 2 times in a row |
| SchedulerFairness.HeldChosenIff | kernel/src/sched.rs:170-176 | a choice made by the round takes a held slot exactly when it is the nearest ready one and a fault chooses or every other ready slot, the one being left aside, is held |
| SchedulerFairness.TurnIsCharged | kernel/src/sched.rs:325-327 | a demoted slot that gets a turn is held for `DEMOTED_GAP` ticks, unless a fault gave it the turn |
| SchedulerFairness.DemotedGap | kernel/src/sched.rs:157-168 | two turns of a demoted slot fewer than `DEMOTED_GAP` ticks apart, the second by the round, mean that a fault gave one of them or no other slot, the one being left aside, was ready and unheld |
| SchedulerFaults.FaultTakesNearest | kernel/src/sched/death.rs:66-75 | a fault runs the nearest ready slot, held or not, and moves nobody's next turn |
| SchedulerFaults.FaultRunsHeldSlot | kernel/src/sched/death.rs:66-75 | a run from boot in which a fault runs a held slot at the tick of its last turn, another slot ready and unheld |
| SchedulerFaults.FaultTurnNotCharged | kernel/src/sched/death.rs:66-75 | a run from boot in which a turn given by a fault is followed by another at the same tick, another slot ready and unheld |
| SchedulerFairness.SingleCompetitorAlternates | kernel/src/sched.rs:157-168 | while only two threads can run, of any number of slots, a tick gives the processor to the other, demoted and held or not |
| SchedulerFairness.EverySecondTick | kernel/src/sched.rs:157-168 | over any number of ticks during which only two threads can run each gets every second one |
| SchedulerFairness.HeldSlotRunsAgain | kernel/src/sched.rs:157-168 | a run from boot in which a demoted, held slot is chosen two ticks after its last turn while the compositor is ready |
| SchedulerProcesses.RunsOnOwnTables | kernel/src/sched.rs:98-123 | at every point of every run a process runs on its own page tables with its own ring-0 stack set |
| SchedulerProcesses.SwitchLoadsTables | kernel/src/sched.rs:98-138 | a switch to a process loads its tables, one to a kernel thread leaves the loaded ones, and nothing else changes them but leaving a root about to be freed |
| SchedulerProcesses.SpawnTakesLowest | kernel/src/sched/user.rs:15-70 | a process takes the lowest free slot or a new one, a kernel thread a new one, fresh but for the next turn left behind; no other slot changes |
| SchedulerProcesses.FirstRun | kernel/src/sched/user.rs:23-57 | a thread first runs with the stack pointer, FPU image, page tables and ring-0 stack it was spawned with, whatever others did meanwhile |
| SchedulerProcesses.ContextRoundTrip | kernel/src/sched.rs:328-361 | any registers a thread had computed are back when the processor is handed over and back |
| SchedulerProcesses.DiesExactly | kernel/src/sched.rs:287-302 | a thread dies exactly by a kill, its own fault, or a clobbered canary found at a choice, the compositor's excepted |
| SchedulerProcesses.KilledNeverRuns | kernel/src/sched/user.rs:79-85 | a killed thread does not run after the next choice, in any continuation |
| SchedulerProcesses.ReadyExactly | kernel/src/sched.rs:266-271 | a living thread told to sleep until a tick can run exactly from that tick on, until told otherwise |
| SchedulerProcesses.SleepsUntil | kernel/src/sched/user.rs:72-77 | before that tick no event brings it to the processor |
| SchedulerProcesses.DemotedExactly | kernel/src/sched.rs:157-168 | a thread is demoted exactly when the last word about its slot was to demote it |
| SchedulerProcesses.HeldExactly | kernel/src/sched.rs:170-176 | a demoted slot is held exactly until `DEMOTED_GAP` ticks after its last charged turn |
| SchedulerProcesses.ReapFrees | kernel/src/sched/user.rs:87-108 | a dead process that is not running can be reaped: slot free, page tables freed and not loaded |
| SchedulerCode.Kernel.Reschedule | kernel/src/sched.rs:272-362 | the code takes exactly the reschedule step of the model |
| SchedulerCode.Kernel.Activate | kernel/src/sched.rs:106-123 | a kernel thread keeps the loaded root, a user thread gets its own, the ring-0 stack follows only when there is one |
| SchedulerCode.Kernel.KillRunning | kernel/src/sched/death.rs:53-89 | the code takes exactly the fault step of the model |
| SchedulerCode.Kernel.ReleaseRoot | kernel/src/sched.rs:126-138 | afterwards the root is not the live one |
| Gfx.Isqrt | kitsune_core/src/ui/gfx.rs:41-52 | Newton's iteration ends with the exact floor square root, for every n |
| Gfx.RootUnique | bench/old/fb_old.rs:6-18 | the floor square root is the only number between whose square and the next one n lies |
| Gfx.InsetByEdge | kitsune_core/src/ui/gfx.rs:57-70 | the inset depends only on the distance to the nearer edge: mirror-symmetric, at most the clamped radius |
| Gfx.InsetShrinksInwards | kitsune_core/src/ui/gfx.rs:57-70 | away from the edge the inset never grows |
| Gfx.InsetIsCircle | kitsune_core/src/ui/gfx.rs:57-70 | the pixels past the inset are exactly those inside the corner circle |
| Gfx.InsetsCutShape | kitsune_core/src/ui/gfx.rs:57-70 | the insets cut exactly the rounded rectangle: rows and columns outside the corner squares whole, inside them the circle |
| Gfx.ComputeInset | kitsune_core/src/ui/gfx.rs:57-70 | the code computes that inset |
| Gfx.MixFits | kitsune_core/src/ui/gfx.rs:75-78 | no intermediate of the blend leaves 16 bits and the result is a byte |
| Gfx.MixExact | kitsune_core/src/ui/gfx.rs:72-78 | the blend is the mix of the two bytes at a/256 rounded down: the old byte at 0, the new one at 256, between them in between |
| Gfx.LumaExact | kitsune_core/src/ui/gfx.rs:106-108 | the gray of a color is its weighted brightness rounded down, and gray colors keep their level |
| Gfx.BlendLut | kitsune_core/src/ui/gfx.rs:91-102 | every table entry is the scalar blend of its index |
| Gfx.SplitSpanAroundHole | kitsune_core/src/ui/gfx.rs:115-126 | the two parts hold every pixel of the span outside the hole, none twice |
| Pixels.SpanIndex | kernel/src/fb.rs:239-240 | a byte lies in the computed range exactly when its pixel is in that span of that row |
| Pixels.PaintedUnique | kernel/src/fb.rs:429-439 | two ways of painting the same region from the same buffer give the same bytes |
| Pixels.FillAgreesWithPut | kernel/src/fb.rs:113-125 | filling and putting agree in every byte but the padding byte the packed path zeroes |
| PixelBytes.PaintShows | kernel/src/fb.rs:134-152 | a pixel put or filled holds the color's bytes in the order of the format, or its gray |
| PixelBytes.BlendMixes | kernel/src/fb.rs:392-501 | a blended pixel holds in each channel the mix of what it held with the color, and the color itself at 256 |
| PixelBytes.RoundedIsShape | kernel/src/fb.rs:392-501 | the rows painted make up exactly the rounded rectangle inside the clip and outside the hole |
| RowWriters.SpanPacked | kernel/src/fb.rs:235-254 | word stores, or byte stores on an unaligned row, paint exactly the run |
| RowWriters.SpanQuads | kernel/src/fb.rs:274-288 | 12-byte steps and the rest one by one paint exactly the run |
| RowWriters.SpanSolid | kernel/src/fb.rs:289-297 | the generic loop paints exactly the run |
| RowWriters.SpanBlend | kernel/src/fb.rs:460-487 | by table or by formula, every pixel of the run is blended exactly once |
| Canvas.Canvas.SetClip | kernel/src/fb.rs:56-67 | the clip is exactly the rectangle intersected with the canvas |
| Canvas.Canvas.Put | kernel/src/fb.rs:127-158 | if the clip lets the pixel through it shows the color, its bytes in the format's order, and no other pixel changes; else nothing does |
| Canvas.Canvas.PutEach | kernel/src/fb.rs:263-270 | putting every pixel of a rectangle paints the clipped rectangle |
| Canvas.Canvas.FillRect | kernel/src/fb.rs:220-298 | paints exactly the clipped rectangle, whatever the path, and every pixel of it shows the color |
| Canvas.FillEqualsPutting | kernel/src/fb.rs:220-298 | from the same buffer, `fill_rect` and `put` on every pixel leave the same colour bytes, and no byte outside rectangle and clip changes |
| Canvas.Canvas.FillRoundRectAlpha | kernel/src/fb.rs:392-501 | each pixel of the rounded rectangle inside the clip and outside the hole is mixed with the color exactly once and shows it at full alpha; nothing else changes; formats without three color bytes are left alone |
| Canvas.Canvas.FillRoundRect | kernel/src/fb.rs:518-536 | every pixel of the clipped rounded rectangle shows the color, each painted once, nothing else changes |
| CanvasBaseline.BaselineCanvas.FillRoundRectAlpha | bench/old/fb_old.rs:236-303 | the same for the baseline on the whole canvas |
| CanvasBaseline.SameAsBaseline | bench/old/fb_old.rs:236-303 | with the clip on the whole canvas the current fill and the baseline leave equal buffers |
| InputRing.RunInv | kernel/src/interrupts.rs:129-184 | the ring invariant at every point of every interleaving |
| InputRing.FirstInFirstOut | kernel/src/interrupts.rs:151-184 | the bytes popped are a prefix of the bytes accepted; `input_pending` is right about the rest |
| InputRing.DropsIffFull | kernel/src/interrupts.rs:151-156 | a byte is dropped exactly when `RING_CAP - 1` are unread |
| InputRing.NeverSameSlot | kernel/src/interrupts.rs:137-142 | reader and writer never meet in a slot, and what is read was published |
| InputRing.FindsIffUnread | kernel/src/interrupts.rs:174-178 | a pop finds the ring empty exactly when no byte is unread as it looks |
| InputRing.PopReturnsOldest | kernel/src/interrupts.rs:174-184 | a pop begun with a byte unread returns the oldest one at its third step, whatever the producer does meanwhile |
| InputRing.AcceptedAreKept | kernel/src/interrupts.rs:149-160 | the bytes accepted are the values pushed, in order, without those that found the ring full; every push is accepted or counted as dropped |
| SampleRing.PackRoundTrip | kernel/src/rng.rs:45-69 | a stored word is never the empty word and gives back its source and 55-bit time |
| SampleRing.StoreKeepsBooks | kernel/src/rng.rs:57-69 | a store, however late, keeps every sample in exactly one of in flight, in its slot, folded once, overwritten |
| SampleRing.ReadKeepsBooks | kernel/src/rng.rs:143-150 | so does reading a slot, which folds exactly the sample in it |
| SampleRing.LostIsOverwritten | kernel/src/rng.rs:54-55 | in every run `LOST` plus the part of a burst not yet skipped differs from the number of overwritten samples by at most the number of stalled samples, so without stalls it is exact |
| SampleRing.StalledStoreMiscounts | kernel/src/rng.rs:65-69 | a run with one stalled store after which `LOST` is 1 and nothing was overwritten |
| SampleRing.Ring.SampleNow | kernel/src/rng.rs:65-69 | a sample taken and stored in one go is in its slot and adds no stall |
| SampleRing.Ring.Take | kernel/src/rng.rs:65-67 | hands out the next index, in flight, as a stalled one |
| SampleRing.Ring.Store | kernel/src/rng.rs:68-69 | puts the sample in its slot, marking what it overwrites |
| SampleRing.Ring.Fold | kernel/src/rng.rs:135-152 | skips and counts what is over a ring behind, reads at most `max`, folds in order, overwrites nothing; `LOST` is then within the number of stalls of the number of overwritten samples |
| SampleRing.Ring.Drain | kernel/src/rng.rs:198-199 | the drain loop ends with nothing pending |
| Wakeup.RunInv | kernel/src/sched/blocking.rs:54-66 | the handshake invariant at every point of every run, preempted anywhere; in particular the `hlt` at the end of the loop is never reached |
| Wakeup.LostExactly | kernel/src/sched/blocking.rs:49-66 | with work posted and every request returned, the worker is off the processor and blocked exactly when it was taken off after announcing its block and before withdrawing it, the flag already set, and has not been woken since |
| Wakeup.WakeupsAreLost | kernel/src/sched/blocking.rs:57-66 | two runs in which that happens, before the idle test and after it |
| Wakeup.LostStays | kernel/src/sched.rs:266-271 | until the deadline or another request such a worker makes no step |
| Wakeup.NoLostWakeup | kernel/src/logd.rs:38-58 | no wakeup is lost in a run that masks interrupts there |
| Wakeup.AllReturnedMeansLook | kernel/src/audio.rs:80-86 | once every request has returned, each step of the worker brings it one nearer to looking at posted work, at most six, and unless it was caught so it always can step |
| Wakeup.RunsAtDeadline | kernel/src/sched/blocking.rs:54-66 | a blocked worker can run exactly when it was woken or the deadline its last round asked for has come |
| Wakeup.RoundsAnswerRequests | kernel/src/logd.rs:47-58 | a round acts exactly on requests made since the round before took the flag |
| Wakeup.PendingExactly | kernel/src/logd.rs:36-52 | work is pending exactly from when it is posted to the next look, and the clock counts the ticks |
| Ata.RunInv | kernel/src/ata.rs:233-278 | counters and history agree after every sequence of calls |
| Ata.RetriesAreSpaced | kernel/src/ata.rs:262-278 | a call reaches the hardware exactly when it has something to do, gets the ports, and, after `MAX_FAILS` failures in a row, starts the retry interval after the last one; a call with nothing to do leaves the counters alone |
| Ata.SuccessClears | kernel/src/ata.rs:233-236 | one success clears the failure state |
| Ata.TwoLooksTwoAttempts | kernel/src/ata.rs:375-389 | two callers that both look before either settles both reach the hardware: one caller at a time is needed |
| Ata.TransferInside | kitsune_core/src/hw/ata.rs:192-202 | a transfer passes exactly when it is whole sectors inside the disk and inside 28-bit addressing |
| Ata.EarlyExactly | kernel/src/ata.rs:375-378 | parts of sectors are refused as bad length, whole sectors outside the disk or 28-bit range as out of range, an empty transfer inside is done at once, and only the rest goes on |
| Ata.Driver.Transfer | kernel/src/ata.rs:375-421 | a refused or empty transfer is answered before the controller is looked at and leaves the counters alone; otherwise the call succeeds exactly on a successful attempt |

## Left out

- The size-class layer of the heap (`allocator/slab.rs`, `Heap`): requests reach the linked list directly.
- Bit masks `x & !(align - 1)` are rounding down to a multiple; power-of-two alignments are recognised by halving.
- Word memory: node words are at `addr` and `addr + 8`; the order of the two fields inside a node is the model's choice.
- Wrap-around of 64-bit counters (`HEAD`, `tail`, `LOST`, ticks) and overflow of pixel arithmetic such as `x0 + w` or `r * r` for radii of 2^32 and more.
- Spurious failures of the weak compare-exchange: such a try is as if it had not been made.
- Weak memory orderings: accesses are sequentially consistent.
- The stack canary and guard page are one bit per thread that its own execution may clear.
- Time-slice statistics (`TICKS`, `IDLE`), trace counters and log output.
- A demotion set for a slot that has no thread yet; spawning starts with none.
- Deadlines of the picture boost: whether a picture is due is an input of each reschedule.
- Port input and output, soft reset and the transfer loops of the disk driver: an attempt is its start, its end and its outcome.
- `Canvas::put_row`, `draw_rgba`, `blend_coverage`, glyphs, shadows and the baseline's opaque fills.
- Entropy estimation and the generator behind the sample ring.
- File systems, network, browser, window system, user processes and everything else outside the files cited above.
