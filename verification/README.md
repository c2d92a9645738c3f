# A verified model of the x64BareBones kernel

x64BareBones is a small teaching kernel. This project models the parts of it that carry invariants and proves
properties of the model with Dafny 4.11. `dafny verify dfyconfig.toml` checks everything.

## What is modelled

* **Memory managers** (`AllocatorSpec`, `BuddyTree`, `BuddyManager`, `BitWords`, `BitmapManager`). The buddy manager is
  a class over a byte tree with the recursive search, the upward pass with its early exit and the merge loop; the
  bitmap manager is a class over packed 32-bit words with headers in front of the blocks. Both are proved against one
  allocator specification. The central fact of the buddy manager is that its tree is a function of the live blocks.
* **Scheduler, processes, semaphores.** `KernelSpec` and `SemSpec` give the kernel as one value (process slots, ready
  lists, quantum, deferred reclamation, semaphore table, heap) and every kernel entry as a function on it.
  `KernelInvariant` and `KernelRuns` prove what every entry keeps, `KernelFairness` bounded waiting, `KernelReclaim`
  what becomes of stacks, argument blocks and pids, `KernelSemaphores` the history of each semaphore in a run,
  `KernelArrival` who goes first through it, by pid, `KernelTurns` quantum, priority and what gives the processor to
  whom, `KernelLives` what a kill, an exit and an unblock leave behind, `KernelLimits` which calls break the invariant,
  `KernelHeap` the kernel over a memory manager, `KernelWaitPid` the `waitpid` protocol. The code itself,
  with doubly linked lists, arrays of blocked pids shifted in place and pointers to process slots, is modelled by the
  classes of `Scheduler`, `Semaphores`, `Processes` (and `ReadyBooks`, `WaitNames` beside them);
  `Processes.Processes.Perform` shows that each of its entries is the corresponding step of the kernel value.
* **Pipes.** `Pipes` has the ring buffers, end counters and wake-ups in place; `PipeSpec` the pipe as a queue;
  `PipeRuns` the runs of calls over the table of pipes, each call the step a method of `Pipes` takes;
  `PipeProtocol` who sleeps and who is woken between one reader and one writer.
* **Client programs.** `MutexClient` is `test_sync`, `MVarClient` is `mvar`: any number of interleaved processes over
  the semaphores of `SemSpec`.
* **Command lookup.** `CommandLookup` has the comparison loops and the two binary searches of the shell.

`Counting` holds two facts about the sizes of sets.

## What the model takes for granted

* A kernel entry is one atomic step between its explicit block points. A process that blocks itself keeps the
  processor until the next timer interrupt; blocking, giving up the quantum and that switch are one step.
* In runs, calls are proper (`KernelRuns.Proper`): the idle process (slot 0, created first) is never killed, blocked or
  made to wait, `SYS_UNBLOCK` is not applied to a process that waits on a semaphore, a process that has been killed and
  goes on until the next timer interrupt starts no wait that blocks (it may exit again, which posts its wait semaphore
  again), and user code frees only its own blocks. `KernelLimits.StepKeepsIff` shows that each of these is needed.
* The allocator answers with null or with memory it has not handed out. `KernelHeap.JointRun` derives this from what the
  managers promise. `named` says whether there was room for the name of the wait semaphore.
* pids are below 2^31 wherever semaphores hold them, as the code keeps them in `int`s (`Semaphores.AsIntExact`); numerals
  and names are right for every 64-bit pid. Heaps are below 2^63 bytes for the buddy manager (beyond the tree) and below
  2^35 for the bitmap manager. Clients write only inside their own blocks.
* For `KernelWaitPid`: one waiter is followed, nobody else uses the wait semaphore, the waiter is not killed, and the
  child announces its end fewer than 65535 times, so that the 16-bit value cannot wrap. Several waiters are the subject
  of `KernelSemaphores.WaitersServed`. For pid 0 `wait_child` returns at once.

## What the proofs found

* `floor_pow2` doubles past 2^63 to 0 and never ends for arguments of 2^63 and more: `BuddyManager.FloorPow2Ends`.
* The bitmap manager rounds sizes above 2^64-16 up to 0 and hands out a block with no room: its promise holds exactly
  up to that size, and above it only when no block is clear (`BitmapManager.Bitmap.MmAlloc`).
* A zero-byte block at the very end of the bitmap arena is live but can never be freed: the range check takes its
  pointer for a foreign one (`BitmapManager.Bitmap.AcceptsLive`; three calls that get there: `BitmapManager.StrandBlock`).
* Bitmap `mm_free` trusts the word it finds in front of a pointer. For a pointer that is not live it may clear bits of
  other blocks; `BitmapManager.Bitmap.MmFree` says exactly when, `BitmapManager.FreeForgedHeader` shows such calls.
* After a failed re-initialisation with live blocks the buddy `mm_state` no longer adds up
  (`BuddyManager.Buddy.MmState`; the calls: `BuddyManager.StaleUsage`).
* A pipe call that writes more than 4096 bytes can jam reader and writer for ever: `PipeProtocol.NeverBothAsleep`.
* `test_sync` ends at 0 in every interleaving exactly when it uses its semaphore, if all its workers are created:
  `MutexClient.CommandEndsAtZeroIff`. It accepts up to 32 pairs, for which the process table has no room beside the
  idle process, the shell and itself; the decrementers come first, so that with workers that stay it ends at -3n even
  with the semaphore.
* When there is no memory for the name of the wait semaphore, the end of a process is not announced and a waiter stays
  BLOCKED: `KernelWaitPid.EndWakesWaiter`.
* `SYS_UNBLOCK` on a process that waits on a semaphore takes it out of `sem_wait` without a unit while its pid stays
  queued: `KernelLimits.UnblockKeepsIff`.
* A process that is killed from the keyboard while it runs, and calls `sem_wait` before the next timer switch, is queued
  after `sem_remove_pid` has looked for it; its pid later swallows a post: `KernelLimits.WaitKeepsIff`,
  `KernelLimits.SwallowedPost`.
* A free of a block the caller does not own, such as the stack of a process, breaks the books of the heap:
  `KernelLimits.FreeKeepsIff`.
* Waiting a second time for a process that has gone never returns: `KernelWaitPid.WaitForGoneNeverEnds`. Waiting for a
  pid that has not been issued yet ends when that process does: `KernelWaitPid.WaitForLaterChild`.
* When a child was created without room for its wait semaphore, the first close of the waiter destroys the semaphore,
  and the second one hits the slot whoever has it then: `KernelWaitPid.WaitChild`.
* Of several waiters on one child only one is let through by its end: `KernelSemaphores.WaitersServed`.
* A read that sleeps does not look at its own end again when it is woken: `PipeSpec.EndOfFile`. It keeps the slot, not
  the pipe: `PipeRuns.WokenReadTakesNewPipe`, `PipeRuns.TakenFromPresentPipe`.
* Branches of the code that no reachable state enters (the loop over dead list heads in `schedule`, giving up in the
  bitmap `mm_init` because the bitmap fills the heap, the last comparison of the command lookup) are written as
  `assert false`.

## Model

| member | source | states |
|---|---|---|
| AllocatorSpec.RunHolds | README.md:262-272 | after any run of requests and releases the live blocks start exactly at the pointers the client still holds: no leak, nothing invented; every call of the buddy manager is such a step, and of the bitmap manager every request of at most 2^64-16 bytes and every free of a live pointer but a stranded one or of a pointer its guards refuse |
| AllocatorSpec.NoDoubleHandout | README.md:262-272 | a live pointer is never handed out again, and stays live, until it is released |
| AllocatorSpec.TotalFits | x64BareBones/Kernel/memory/bitmap_mm.c:200-211 | disjoint blocks of an arena never add up to more than the arena |
| BuddyTree.NestedOrDisjoint | x64BareBones/Kernel/memory/buddy_mm.c:46-50 | two blocks of the tree are nested when one node is above the other and disjoint otherwise, never partly overlapping |
| BuddyTree.CanonicalForm | x64BareBones/Kernel/memory/buddy_mm.c:60-119 | in a well-formed tree the state of every node is a function of the set of live nodes alone: FREE under a live node, USED on it, else FREE, FULL or SPLIT by what lies below |
| BuddyTree.ReachIffUntouched | x64BareBones/Kernel/memory/buddy_mm.c:91-119 | the search can reach a node exactly when no live block lies on, above or below it |
| BuddyTree.LiveDisjoint | x64BareBones/Kernel/memory/buddy_mm.c:91-119 | distinct live nodes stand for disjoint blocks |
| BuddyTree.FullBlocks | x64BareBones/Kernel/memory/buddy_mm.c:91-119 | below a FULL node nothing is free, so the search may skip it |
| BuddyTree.Claimed | x64BareBones/Kernel/memory/buddy_mm.c:91-119 | marking the path to a reachable node and using it adds exactly that node to the live ones and leaves only its parent to be recomputed |
| BuddyTree.Released | x64BareBones/Kernel/memory/buddy_mm.c:193-230 | freeing a live node removes exactly that node and leaves only its parent to be recomputed |
| BuddyTree.Recomputed | x64BareBones/Kernel/memory/buddy_mm.c:60-80 | recomputing a node from its children moves the one disagreement up; if nothing changed the whole tree agrees, which justifies the early exit |
| BuddyManager.Buddy.constructor | x64BareBones/Kernel/memory/buddy_mm.c:16-25 | the manager starts uninitialised, with nothing to hand out |
| BuddyManager.Log2 | x64BareBones/Kernel/memory/buddy_mm.c:32-36 | depth of a node |
| BuddyManager.FloorPow2 | x64BareBones/Kernel/memory/buddy_mm.c:39-43 | for arguments below 2^63 the greatest power of two not above the argument, and 1 for 0 |
| BuddyManager.FloorPow2Ends | x64BareBones/Kernel/memory/buddy_mm.c:39-43 | in 64-bit arithmetic the loop comes to an end exactly for arguments below 2^63 |
| BuddyManager.TreeFits | x64BareBones/Kernel/memory/buddy_mm.c:125-157 | the reserved tree takes at least 8 bytes and at most an eighth of the heap |
| BuddyManager.ArenaHeight | x64BareBones/Kernel/memory/buddy_mm.c:125-157 | arena and tree fit each other: the arena is 16 times a power of two, every node index is below the tree size, and 16 * arena > 7 * heap |
| BuddyManager.Buddy.MmInit | x64BareBones/Kernel/memory/buddy_mm.c:125-157 | succeeds exactly for a non-null heap of at least 64 bytes; tree and arena are disjoint, inside the heap, nothing is live, every node index is below the tree size, and 16 * arena > 7 * heap; a refused initialisation leaves the used count as it was |
| BuddyManager.Buddy.ArenaSize | x64BareBones/Kernel/memory/buddy_mm.c:128-150 | the arena is the power of two the halving loop arrives at; tree and arena fit the heap |
| BuddyManager.Buddy.UpdateParent | x64BareBones/Kernel/memory/buddy_mm.c:60-80 | repairs the whole tree from one disagreeing node upward, early exit included, without touching the live nodes |
| BuddyManager.Buddy.AllocRecursive | x64BareBones/Kernel/memory/buddy_mm.c:91-119 | finds the leftmost reachable node of the wanted depth or none, marks just the path to it, and rolls back otherwise; below a FREE node it never fails |
| BuddyManager.Buddy.FindBlock | x64BareBones/Kernel/memory/buddy_mm.c:163-187 | the lowest wholly free aligned block of the rounded size, or a proof that there is none |
| BuddyManager.Buddy.RoundSize | x64BareBones/Kernel/memory/buddy_mm.c:166-175 | the request rounded up to 16 times a power of two, unless it exceeds the arena |
| BuddyManager.Buddy.MmAlloc | x64BareBones/Kernel/memory/buddy_mm.c:163-187 | null exactly for size 0, an uninitialised manager or no wholly free aligned block of the rounded size; else the lowest such block, which becomes live; nothing changes on refusal |
| BuddyManager.RoundUp | x64BareBones/Kernel/memory/buddy_mm.c:166-172 | a block is at least the request, and 16 or less than twice the request |
| BuddyManager.LiveBlocksSeparated | x64BareBones/Kernel/memory/buddy_mm.c:163-187 | live blocks are inside the arena, on 16-byte multiples, and pairwise disjoint |
| BuddyManager.AddressIsMultiple | x64BareBones/Kernel/memory/buddy_mm.c:163-187 | every block is aligned to its own size relative to the arena base |
| BuddyManager.SlotsAreNodes | x64BareBones/Kernel/memory/buddy_mm.c:91-119 | the leftmost reachable node is the lowest free slot among all addresses, aligned or not a node |
| BuddyManager.OnlyCandidate | x64BareBones/Kernel/memory/buddy_mm.c:200-211 | per level at most one node starts at an offset, and it is the one the code computes |
| BuddyManager.Buddy.NodeStartingAt | x64BareBones/Kernel/memory/buddy_mm.c:200-211 | the node of a level that starts at the offset, if any |
| BuddyManager.Buddy.FindUsed | x64BareBones/Kernel/memory/buddy_mm.c:200-211 | the live node that starts at the offset; none is missed and only one can exist |
| BuddyManager.Buddy.Merge | x64BareBones/Kernel/memory/buddy_mm.c:219-226 | merging free buddies keeps the live nodes and moves the disagreement up |
| BuddyManager.Buddy.ReleaseNode | x64BareBones/Kernel/memory/buddy_mm.c:213-230 | exactly the block of that node is gone and its size returned |
| BuddyManager.Buddy.MmFree | x64BareBones/Kernel/memory/buddy_mm.c:193-230 | a pointer that starts a live block releases that block and no other; for every other pointer (null, foreign, misaligned, interior, already freed) no byte changes |
| BuddyManager.SameBlocksSameTree | x64BareBones/Kernel/memory/buddy_mm.c:60-119 | equal sets of live blocks mean equal trees, byte for byte |
| BuddyManager.Buddy.AllocThenFree | x64BareBones/Kernel/memory/buddy_mm.c:163-230 | freeing what was just allocated restores every byte of the tree and the used count |
| BuddyManager.Buddy.FreeAll | x64BareBones/Kernel/memory/buddy_mm.c:193-230 | freeing all live pointers, in any order and with repetitions, gives the tree of a fresh start |
| BuddyManager.Buddy.FreeAllThenTakeArena | x64BareBones/Kernel/memory/buddy_mm.c:163-230 | after that a request for the whole arena succeeds: full coalescing |
| BuddyManager.Buddy.MmState | x64BareBones/Kernel/memory/buddy_mm.c:236-240 | used is the sum of the live blocks; total = used + free, except exactly for a manager whose re-initialisation failed while blocks were live |
| BuddyManager.StaleUsage | x64BareBones/Kernel/memory/buddy_mm.c:125-240 | initialise, allocate, initialise again without a heap: total 0, used 16, and the three figures do not add up |
| BitWords.OneBit | x64BareBones/Kernel/memory/bitmap_mm.c:30-40 | setting or clearing one bit of a word changes that bit and no other |
| BitWords.SetRefines | x64BareBones/Kernel/memory/bitmap_mm.c:30-32 | setting a bit in the packed words sets one entry of the boolean sequence |
| BitWords.ClearRefines | x64BareBones/Kernel/memory/bitmap_mm.c:34-36 | clearing a bit in the packed words clears one entry of the boolean sequence |
| BitmapManager.Bitmap.constructor | x64BareBones/Kernel/memory/bitmap_mm.c:20-28 | the manager starts uninitialised |
| BitmapManager.Bitmap.BitmapSet | x64BareBones/Kernel/memory/bitmap_mm.c:30-32 | the packed words as a boolean sequence with one entry set |
| BitmapManager.Bitmap.BitmapClear | x64BareBones/Kernel/memory/bitmap_mm.c:34-36 | the packed words as a boolean sequence with one entry cleared |
| BitmapManager.Bitmap.BitmapTest | x64BareBones/Kernel/memory/bitmap_mm.c:38-40 | the entry of the boolean sequence |
| BitmapManager.Bitmap.FirstFit | x64BareBones/Kernel/memory/bitmap_mm.c:50-70 | the least start of a run of clear bits of the wanted length, exactly when one exists; -1 for length 0 |
| BitmapManager.Layout | x64BareBones/Kernel/memory/bitmap_mm.c:76-113 | the bitmap fits below the blocks and has a bit for every block |
| BitmapManager.Bitmap.MmInit | x64BareBones/Kernel/memory/bitmap_mm.c:76-113 | usable exactly for a non-null heap of at least 48 bytes; bitmap and blocks are disjoint and fill the heap up to less than one block; nothing is live and the words are new, so the caller can go on to allocate |
| BitmapManager.UserBlocksValue | x64BareBones/Kernel/memory/bitmap_mm.c:119-130 | the 64-bit rounding covers the request exactly for sizes up to 2^64-16 and wraps to 0 above |
| BitmapManager.Bitmap.MmAlloc | x64BareBones/Kernel/memory/bitmap_mm.c:119-146 | first fit of header plus rounded request; exactly those bits are set and that run becomes live; keeps the allocator's promise exactly when the size is at most 2^64-16 or no block is clear |
| BitmapManager.SetBitsCount | x64BareBones/Kernel/memory/bitmap_mm.c:200-211 | set bits are exactly the union of the live runs: 16 bytes of footprint each |
| BitmapManager.Bitmap.AcceptsLive | x64BareBones/Kernel/memory/bitmap_mm.c:152-187 | the guards of free accept a live pointer exactly when it is not a zero-byte block at the very end of the arena, and an accepted pointer is live exactly when a live run starts at its header |
| BitmapManager.Bitmap.MmFree | x64BareBones/Kernel/memory/bitmap_mm.c:152-194 | clears exactly the run of a live pointer, and freeing it again at once does nothing; a pointer the guards refuse changes nothing; the books survive exactly when an accepted pointer was live |
| BitmapManager.Bitmap.Guards | x64BareBones/Kernel/memory/bitmap_mm.c:152-187 | a pointer is refused exactly when it is null, outside the blocks, misaligned, the first block, led by a header that overruns the arena, or led by a free block |
| BitmapManager.Bitmap.GiveBack | x64BareBones/Kernel/memory/bitmap_mm.c:175-194 | an accepted free keeps the invariant exactly when a live run starts there, and then removes exactly that run |
| BitmapManager.Bitmap.ClientWrite | x64BareBones/Kernel/memory/bitmap_mm.c:119-146 | a client that writes inside its own blocks changes that word and keeps the invariant |
| BitmapManager.Bitmap.MmState | x64BareBones/Kernel/memory/bitmap_mm.c:200-211 | used is the sum of the live footprints and 16 times the set bits; total = used + free |
| BitmapManager.StrandBlock | x64BareBones/Kernel/memory/bitmap_mm.c:76-173 | on a heap of 48 bytes two requests of 2^64-1 bytes are granted, and the second pointer is live but never accepted by free |
| BitmapManager.FreeForgedHeader | x64BareBones/Kernel/memory/bitmap_mm.c:76-194 | a client writes 0 into the first of its own blocks; the pointer to the second was never handed out, is accepted by free, and the invariant is gone |
| SemSpec.FindName | x64BareBones/Kernel/sem/sem.c:49-56 | the first active semaphore of that name |
| SemSpec.FindFree | x64BareBones/Kernel/sem/sem.c:59-70 | the first inactive slot |
| SemSpec.StoredIs | x64BareBones/Kernel/sem/sem.c:24-28 | a name is kept up to 31 characters |
| SemSpec.OpenIs | x64BareBones/Kernel/sem/sem.c:44-74 | an open of a living name counts one user more, modulo 2^16, and leaves value and queue alone; else the first inactive slot gets the value asked for, one user and no waiter; else nothing changes |
| SemSpec.CloseIs | x64BareBones/Kernel/sem/sem.c:77-101 | a close counts one user less; it destroys exactly when at most one was left, and then wakes exactly those who wait, in order; no other semaphore changes |
| SemSpec.NoSuchId | x64BareBones/Kernel/sem/sem.c:77-170 | an id out of range or inactive changes nothing and wakes nobody |
| SemSpec.StepKeepsOrder | x64BareBones/Kernel/sem/sem.c:104-201 | one wait, post or removal keeps ticket order, the holders of the tickets and the count of units |
| SemSpec.StepKeepsHolders | x64BareBones/Kernel/sem/sem.c:104-201 | whatever happens, each place of the queue holds the pid that took the ticket at that place of the ticket queue |
| SemSpec.SemaphoreRun | x64BareBones/Kernel/sem/sem.c:104-201 | for every sequence of events: waiters imply value 0, the queue holds at every place the process that took the ticket there, tickets are let through in the order taken even when kills remove waiters, and initial value + posts = value + grants (modulo 2^16, exactly while the counter cannot wrap) |
| SemSpec.FreshIsInOrder | x64BareBones/Kernel/sem/sem.c:59-70 | the semaphore that an open has just made satisfies what SemaphoreRun starts from |
| KernelSemaphores.StepIsHistory | x64BareBones/Kernel/syscall/syscall.c:440-552 | what one kernel entry, the announcement of an end and the removal of a killed waiter included, does to the value and the queue of a semaphore is what its events do |
| KernelSemaphores.RunIsHistory | x64BareBones/Kernel/sem/sem.c:44-201 | in every run of the kernel, as long as a semaphore lives, its value and queue are those of a history of waits, posts and removals in which the queue holds the pids that took the tickets, tickets go in order and units are conserved; by pid: KernelArrival.FirstComeFirstServed |
| KernelSemaphores.QueueIsExcess | x64BareBones/Kernel/sem/sem.c:104-201 | in every run, as long as a semaphore lives and its counter cannot wrap: the processes queued are as many as the waits exceed the initial value, the posts and the waiters killed; everybody is served exactly when they do not |
| KernelSemaphores.WaitersServed | x64BareBones/Kernel/process/process.c:333-352 | any number of waiters for one child, in every run while its semaphore lives: each announced end lets one through and no more; all are served exactly when the waits do not exceed the announcements and the waiters killed |
| KernelArrival.WaiterIsLast | x64BareBones/Kernel/sem/sem.c:118-122 | a wait in vain turns the queue into the old queue followed by the caller's pid |
| KernelArrival.StepKeepsArrivals | x64BareBones/Kernel/sem/sem.c:104-201 | one kernel entry of any kind: if `a` stands before `b`, or `b` comes while `a` waits, then as long as `a` still waits and `b` is not killed, `b` waits behind it |
| KernelArrival.FirstComeFirstServed | x64BareBones/Kernel/sem/sem.c:104-201 | in every run, by pid: if `b` begins to wait while `a` waits on the same semaphore, then as long as `a` waits, `b` stays queued behind it and BLOCKED, whatever is posted, opened, closed or ended; only its own death takes it out |
| KernelSpec.Find | x64BareBones/Kernel/process/process.c:225-232 | the first slot with that pid |
| KernelSpec.FreeSlotFrom | x64BareBones/Kernel/process/process.c:56-63 | the first unused slot |
| KernelInvariant.NextIsReady | x64BareBones/Kernel/scheduler/scheduler.c:68-75 | with the idle process READY the pick is a READY process, head of the most urgent non-empty list, so the loop over dead heads never runs |
| KernelInvariant.TickKeeps | x64BareBones/Kernel/scheduler/scheduler.c:95-136 | the timer keeps the whole invariant and leaves a RUNNING process |
| KernelInvariant.PostKeeps | x64BareBones/Kernel/sem/sem.c:146-170 | a post keeps the whole invariant and only turns BLOCKED processes READY |
| KernelInvariant.CloseKeeps | x64BareBones/Kernel/sem/sem.c:77-101 | a close keeps the whole invariant and only turns BLOCKED processes READY |
| KernelInvariant.OpenKeeps | x64BareBones/Kernel/sem/sem.c:44-74 | an open keeps the whole invariant |
| KernelInvariant.AnnounceKeeps | x64BareBones/Kernel/process/process.c:194-204 | announcing an end keeps the whole invariant and only wakes |
| KernelInvariant.RemoveKeepsTable | x64BareBones/Kernel/sem/sem.c:183-201 | afterwards the pid waits nowhere, and nobody else has moved |
| KernelRuns.SemWaitKeeps | x64BareBones/Kernel/sem/sem.c:104-143 | a wait, with the switch when it stops the caller, keeps the whole invariant, if it does not block or the caller is RUNNING and not the idle process |
| KernelRuns.KillKeeps | x64BareBones/Kernel/process/process.c:188-223 | a kill keeps the whole invariant |
| KernelRuns.ExitKeeps | x64BareBones/Kernel/process/process.c:296-312 | an exit keeps the whole invariant |
| KernelRuns.NiceKeeps | x64BareBones/Kernel/process/process.c:270-294 | a change of priority keeps the whole invariant |
| KernelRuns.BlockKeeps | x64BareBones/Kernel/syscall/syscall.c:473-490 | blocking keeps the whole invariant |
| KernelRuns.CreateKeeps | x64BareBones/Kernel/process/process.c:70-186 | a creation keeps the whole invariant |
| KernelRuns.StepKeeps | x64BareBones/Kernel/syscall/syscall.c:440-552 | every kernel entry keeps the whole invariant |
| KernelRuns.RunKeeps | x64BareBones/Kernel/syscall/syscall.c:440-552 | so every state of every run satisfies it |
| KernelRuns.BootIsGood | x64BareBones/Kernel/process/process.c:42-54 | it holds from the creation of the idle process on |
| KernelRuns.ReadyIffQueued | x64BareBones/Kernel/scheduler/scheduler.c:21-66 | in every reachable state a process is READY exactly when it stands in a list, once, and that is the list of its own priority; only the current process is RUNNING |
| KernelRuns.HeapAccounted | x64BareBones/Kernel/process/process.c:76-101 | in every reachable state the allocator holds exactly the live stacks, the live argument blocks and the user's blocks; their number is one for each slot with a pid, one for each slot with arguments, and the user's |
| KernelRuns.PostLetsFirstGo | x64BareBones/Kernel/sem/sem.c:146-170 | a post makes the longest waiter READY, and it waits nowhere any more |
| KernelRuns.LastCloseFreesWaiters | x64BareBones/Kernel/sem/sem.c:77-101 | the last close makes everybody who waits READY: nobody is stranded on a destroyed semaphore |
| KernelRuns.WaiterAlwaysFits | x64BareBones/Kernel/sem/sem.c:119-122 | the 64-entry queue of a semaphore never refuses a waiter |
| KernelLimits.StepKeepsIff | x64BareBones/Kernel/syscall/syscall.c:440-552 | with fresh answers from the allocator every kernel entry keeps the whole invariant exactly when the call is proper: the idle process is not killed, ended, blocked or made to wait, no semaphore waiter is unblocked by hand, no killed process starts a wait that blocks, no block of another owner is freed |
| KernelLimits.WaitKeepsIff | x64BareBones/Kernel/sem/sem.c:104-143 | a wait keeps the whole invariant exactly when it does not block or the caller is RUNNING and not the idle process |
| KernelLimits.KilledWaits | x64BareBones/Kernel/sem/sem.c:118-140 | a killed process that runs on and waits in vain leaves its pid in the queue, which always has room |
| KernelLimits.SwallowedPost | x64BareBones/Kernel/sem/sem.c:146-165 | a post whose first waiter is not BLOCKED wakes nobody and leaves no unit |
| KernelLimits.UnblockKeepsIff | x64BareBones/Kernel/syscall/syscall.c:492-496 | unblocking a process keeps the whole invariant exactly when the process waits on no semaphore |
| KernelLimits.FreeKeepsIff | x64BareBones/Kernel/syscall/syscall.c:408-416 | a free by user code keeps the whole invariant exactly when it gives back a block of the user, or nothing |
| KernelHeap.StepFollows | x64BareBones/Kernel/process/process.c:70-223 | one kernel entry over a memory manager that keeps its promise: its answers are fresh, and afterwards the heap of the kernel is what the manager holds as live; stacks, argument blocks and name buffers included |
| KernelHeap.JointRun | x64BareBones/Kernel/process/process.c:70-223 | so a run of proper calls over such a manager is a run of the kernel model, with nothing assumed of the answers, and the manager's live blocks are at every moment the stacks, the argument blocks and the user's blocks |
| KernelFairness.SwitchTakesHead | x64BareBones/Kernel/scheduler/scheduler.c:118-133 | a switch takes the head of the most urgent level |
| KernelFairness.TickBringsNearer | x64BareBones/Kernel/scheduler/scheduler.c:95-136 | a timer tick makes the process run or lowers its rank |
| KernelFairness.StepBringsNearer | x64BareBones/Kernel/scheduler/scheduler.c:95-149 | no call raises the rank of a waiting process, whatever arrives, wakes, leaves or is reniced; every pass through the timer switch, also that of a process that blocks itself, lowers it or lets the process run |
| KernelFairness.BoundedWaiting | README.md:278-286 | a READY process at place p of its list, undisturbed and with nothing more urgent READY or RUNNING, runs before the timer switch has run 6(p+1) times, by interrupts, yields, waits or blocks, whatever else is called |
| KernelTurns.InterruptSwitches | x64BareBones/Kernel/scheduler/scheduler.c:118-133 | an interrupt that finds nobody RUNNING, or quantum 0, gives the processor to the head of the most urgent non-empty list, for quantum 5; the displaced process queues up last on its level if it was RUNNING, else keeps its state |
| KernelTurns.KeepsProcessor | x64BareBones/Kernel/scheduler/scheduler.c:101-104 | a RUNNING process with quantum q is current, RUNNING and otherwise unchanged after each of the next q interrupts; the lists do not change |
| KernelTurns.QuantumEnds | x64BareBones/Kernel/scheduler/scheduler.c:101-133 | interrupt q+1 is a switch |
| KernelTurns.SixthSwitches | x64BareBones/Kernel/scheduler/scheduler.c:101-133 | from a switch on the chosen process runs through exactly 5 timer interrupts; the sixth one switches |
| KernelTurns.YieldSwitches | x64BareBones/Kernel/scheduler/scheduler.c:151-153 | a yield switches at once, whatever is left of the quantum |
| KernelTurns.YieldLetsOthers | x64BareBones/Kernel/scheduler/scheduler.c:151-153 | if anybody at least as urgent is READY, a process that yields is READY afterwards and another one runs |
| KernelTurns.WaitSwitches | x64BareBones/Kernel/sem/sem.c:118-140 | a wait in vain leaves the caller BLOCKED and the foremost READY process running with quantum 5 |
| KernelTurns.BlockOther | x64BareBones/Kernel/syscall/syscall.c:473-490 | blocking a READY process makes it BLOCKED and takes it out of its list; nothing else changes |
| KernelTurns.BlockSelf | x64BareBones/Kernel/syscall/syscall.c:473-490 | blocking the RUNNING process, by pid or by 0, leaves it BLOCKED and the foremost READY process running |
| KernelTurns.BlockNobody | x64BareBones/Kernel/syscall/syscall.c:473-490 | blocking a process that is neither READY nor RUNNING, or not there, changes nothing |
| KernelTurns.CreateIs | x64BareBones/Kernel/process/process.c:70-186 | the first unused slot gets the next pid, the priority asked for if it is 0 to 4 and else 2, state READY, stack and arguments, and stands last in the list of that priority; without a slot or a stack nothing changes |
| KernelTurns.NiceIs | x64BareBones/Kernel/process/process.c:270-294 | a living process, whatever its state, has the priority asked for afterwards, and nothing else of it or of anybody has changed; READY on another level it has left that list and stands last in the new one |
| KernelTurns.NiceRefusedIs | x64BareBones/Kernel/process/process.c:270-294 | a refused change of priority changes nothing |
| KernelTurns.PriorityStays | x64BareBones/Kernel/process/process.c:270-294 | no call but a change of its own priority changes the priority of a process |
| KernelTurns.PriorityLasts | x64BareBones/Kernel/process/process.c:270-294 | in every run a process given a priority has it until it is given another one, and whenever it is READY, also if it was BLOCKED or RUNNING when it was reniced, it stands in the list of that priority, once, and in no other |
| KernelLives.KillOther | x64BareBones/Kernel/process/process.c:188-223 | a killed process that is not current is gone at once: slot unused, exactly its stack and argument block out of the heap, in no list and no queue; the others at most wake |
| KernelLives.KillSelf | x64BareBones/Kernel/process/process.c:188-223 | the current process, killed, is KILLED with pid and blocks kept, in no queue, and still current; the others at most wake |
| KernelLives.KillRefusedIs | x64BareBones/Kernel/process/process.c:188-192 | killing the shell, a dead process or a pid nobody carries changes nothing |
| KernelLives.ExitIs | x64BareBones/Kernel/process/process.c:296-312 | the process that exits is KILLED with pid and blocks kept, in no queue, and current until the next switch; the others at most wake |
| KernelLives.UnblockIs | x64BareBones/Kernel/scheduler/scheduler.c:144-149 | a BLOCKED process that is unblocked is READY, last in the list of its priority; nothing else changes |
| KernelLives.UnblockRefusedIs | x64BareBones/Kernel/scheduler/scheduler.c:144-149 | unblocking anybody else changes nothing |
| KernelReclaim.StepOwners | x64BareBones/Kernel/process/process.c:188-223 | one call leaves pid, stack and argument block of a slot alone, or frees both blocks of a process that is not the running one, or gives an unused slot a new pid |
| KernelReclaim.GoneStaysGone | x64BareBones/Kernel/process/process.c:76-84 | a pid that has gone never comes back |
| KernelReclaim.FreedOnce | x64BareBones/Kernel/scheduler/scheduler.c:77-116 | over every run stack and argument block of a process stay allocated until one call, which finds it off the processor, frees both; the slot is not reused before, the pid never |
| KernelReclaim.DyingIsReclaimed | x64BareBones/Kernel/scheduler/scheduler.c:95-116 | a process killed while it runs is reclaimed by the second timer switch at the latest, whatever brings the switches about |
| WaitNames.ParseDecimal | x64BareBones/Kernel/process/process.c:17-25 | reading a decimal numeral back gives the number |
| WaitNames.WaitNamesDiffer | x64BareBones/Kernel/process/process.c:27-40 | different pids have different wait names |
| WaitNames.WaitNameFits | x64BareBones/Kernel/process/process.c:27-40 | the wait name of any 64-bit pid fits the name field of a semaphore, so it is stored whole |
| WaitNames.Uint64ToDecStr | x64BareBones/Kernel/process/process.c:17-25 | the two loops leave the decimal digits, most significant first, and a closing zero |
| WaitNames.BuildWaitSemName | x64BareBones/Kernel/process/process.c:27-40 | null exactly for pid 0 or without memory, else the zero-terminated wait name, `wait_` and digits that read back as the pid, in a block of its exact size |
| KernelWaitPid.SemsAfter | x64BareBones/Kernel/syscall/syscall.c:440-552 | what every kernel entry does to the semaphore table |
| KernelWaitPid.AnnounceOwn | x64BareBones/Kernel/process/process.c:194-204 | open, post and close by the ending process amount to one post on its wait semaphore |
| KernelWaitPid.AnnounceOther | x64BareBones/Kernel/process/process.c:194-204 | the end of any other process leaves the wait semaphore alone |
| KernelWaitPid.AnnounceGone | x64BareBones/Kernel/process/process.c:296-312 | an end announced after the waiter has gone leaves no semaphore behind |
| KernelWaitPid.EndedStep | x64BareBones/Kernel/process/process.c:188-223 | a process has ended exactly from the kill or the exit on that ends it |
| KernelWaitPid.CreateStartsLedger | x64BareBones/Kernel/process/process.c:178-183 | creation leaves the wait semaphore with value 0, one user (the creation's reference) and no waiter, and the child has not ended |
| KernelWaitPid.LedgerStep | x64BareBones/Kernel/process/process.c:333-352 | every step keeps the ledger of users, value, queue and announcements, for a child that runs, has gone, or is yet to be created |
| KernelWaitPid.WaitChild | x64BareBones/Kernel/process/process.c:340-352 | for a child that runs, has gone or is yet to be created, and either order of end and wait: the waiter passes only after the child has ended; it is let through, and a wait to come does not block, exactly when an end has been announced since the semaphore exists; its first close destroys the semaphore exactly when the creation's reference is missing; on return the semaphore is gone |
| KernelWaitPid.EndIsAnnounced | x64BareBones/Kernel/process/process.c:194-204 | for a child that runs with its semaphore: as long as there is memory for the name, an end has been announced exactly when the child has ended |
| KernelWaitPid.WaitForGoneNeverEnds | x64BareBones/Kernel/process/process.c:340-352 | waiting for a process that has gone and whose semaphore is gone: in every run, of any length, the wait never returns, and the waiter stays BLOCKED in the queue |
| KernelWaitPid.WaitForLaterChild | x64BareBones/Kernel/process/process.c:340-352 | waiting for a pid not issued yet ends well once that process is created and ends: the waiter is let through and its two closes destroy the semaphore |
| KernelWaitPid.EndWakesWaiter | x64BareBones/Kernel/process/process.c:194-204 | the very call that ends the child makes a queued waiter READY exactly when there is memory for the name of the semaphore; otherwise it stays BLOCKED |
| ReadyBooks.AppendLinks | x64BareBones/Kernel/scheduler/scheduler.c:33-44 | appending changes the neighbours of the old last and of the newcomer only |
| ReadyBooks.UnlinkLinks | x64BareBones/Kernel/scheduler/scheduler.c:47-66 | removing changes only what the two neighbours and the head see |
| ReadyBooks.LevelOfReady | x64BareBones/Kernel/scheduler/scheduler.c:21-66 | a slot is linked into the list of its priority exactly when it is READY |
| Scheduler.Scheduler.constructor | x64BareBones/Kernel/scheduler/scheduler.c:12-19 | empty lists, nobody current, 64 unused slots |
| Scheduler.Scheduler.AddToReadyQueue | x64BareBones/Kernel/scheduler/scheduler.c:21-45 | the linked lists stay well-formed chains; the process is READY at the end of the list of its priority, or untouched if KILLED |
| Scheduler.Scheduler.Tail | x64BareBones/Kernel/scheduler/scheduler.c:40-43 | the walk along `next` ends at the last of the list |
| Scheduler.Scheduler.RemoveFromReadyQueue | x64BareBones/Kernel/scheduler/scheduler.c:47-66 | the linked lists stay well-formed chains, without the process |
| Scheduler.Scheduler.Bypass | x64BareBones/Kernel/scheduler/scheduler.c:47-66 | which pointers are rewritten, and that no other is |
| Scheduler.Scheduler.PickNextProcess | x64BareBones/Kernel/scheduler/scheduler.c:68-75 | head of the most urgent non-empty list |
| Scheduler.Scheduler.FreePcbResources | x64BareBones/Kernel/scheduler/scheduler.c:77-89 | both blocks freed, pid cleared |
| Scheduler.Scheduler.Schedule | x64BareBones/Kernel/scheduler/scheduler.c:95-136 | on the pointers exactly the timer step of the kernel value; its skip loop is never entered; it switches exactly when nobody is RUNNING or the quantum is 0, leaves one less of the quantum otherwise and 5 after a switch |
| Scheduler.Scheduler.BlockCurrentProcess | x64BareBones/Kernel/scheduler/scheduler.c:138-142 | a RUNNING current process is BLOCKED, nothing else changes |
| Scheduler.Scheduler.UnblockProcess | x64BareBones/Kernel/scheduler/scheduler.c:144-149 | a BLOCKED process of that pid is READY and queued, nothing else changes |
| Scheduler.Scheduler.YieldProcess | x64BareBones/Kernel/scheduler/scheduler.c:151-153 | the quantum is 0 |
| Scheduler.Scheduler.ParkCurrent | x64BareBones/Kernel/sem/sem.c:124-140 | block, yield and the next timer switch as one step; a process that is not RUNNING does not become BLOCKED |
| Scheduler.Scheduler.GetProcessByPid | x64BareBones/Kernel/process/process.c:225-232 | the first slot with that pid, or null |
| Semaphores.SemNameEq | x64BareBones/Kernel/sem/sem.c:18-22 | equality of names |
| Semaphores.SemNameCopy | x64BareBones/Kernel/sem/sem.c:24-28 | at most 31 characters are kept |
| Semaphores.AsIntExact | x64BareBones/Kernel/sem/sem.c:118-119 | the `int` that a queue holds is the pid exactly for pids below 2^31 |
| Semaphores.Semaphore.RemoveAt | x64BareBones/Kernel/sem/sem.c:189-196 | the shift loop removes one entry and keeps the order |
| Semaphores.Semaphore.DropPid | x64BareBones/Kernel/sem/sem.c:189-197 | the nested loops remove every occurrence of the pid and keep the order |
| Semaphores.Semaphore.TakeOrQueue | x64BareBones/Kernel/sem/sem.c:110-122 | with a positive value one unit goes, else the pid is appended behind the queue as it was, if there is room for it |
| Semaphores.Semaphore.ReleaseOrCount | x64BareBones/Kernel/sem/sem.c:152-167 | the first waiter leaves the queue and is named, the rest in order; with an empty queue the value grows by one, modulo 2^16 |
| Semaphores.Semaphores.constructor | x64BareBones/Kernel/sem/sem.c:31-41 | 32 inactive semaphores |
| Semaphores.Semaphores.SemOpen | x64BareBones/Kernel/sem/sem.c:44-74 | the arrays stand for the table after an open, and the answer is its index or -1 |
| Semaphores.Semaphores.SemClose | x64BareBones/Kernel/sem/sem.c:77-101 | the arrays and lists stand for the kernel value after a close, waiters woken on the last one |
| Semaphores.Semaphores.SemPost | x64BareBones/Kernel/sem/sem.c:146-170 | the arrays and lists stand for the kernel value after a post |
| Semaphores.Semaphores.SemWait | x64BareBones/Kernel/sem/sem.c:104-143 | the arrays and lists stand for the kernel value after a wait (KernelArrival.WaiterIsLast: the caller queues last), the switch included; a killed process queues up and goes on |
| Semaphores.Semaphores.SemGetValue | x64BareBones/Kernel/sem/sem.c:173-178 | the value, or -1 |
| Semaphores.Semaphores.SemRemovePid | x64BareBones/Kernel/sem/sem.c:183-201 | every queue of the table without the pid |
| Processes.Processes.constructor | x64BareBones/Kernel/process/process.c:42-54 | the state the boot code sets up |
| Processes.Processes.GetFreePcb | x64BareBones/Kernel/process/process.c:56-63 | the first unused slot, or null |
| Processes.Processes.CreateProcess | x64BareBones/Kernel/process/process.c:70-186 | on the pointers and arrays exactly the creation step of the kernel value; -1 without a slot or a stack, else the new pid |
| Processes.Processes.KillProcess | x64BareBones/Kernel/process/process.c:188-223 | on the pointers and arrays exactly the kill step of the kernel value |
| Processes.Processes.ExitCurrentProcess | x64BareBones/Kernel/process/process.c:296-312 | on the pointers and arrays exactly the exit step of the kernel value |
| Processes.Processes.SetProcessPriority | x64BareBones/Kernel/process/process.c:270-294 | on the pointers exactly the step that changes a priority; -1 exactly for a bad priority or no living process of that pid, else 0, and then the process has the priority asked for |
| Processes.Processes.SyscallBlock | x64BareBones/Kernel/syscall/syscall.c:473-490 | on the pointers exactly the blocking step |
| Processes.Processes.SyscallUnblock | x64BareBones/Kernel/syscall/syscall.c:492-496 | on the pointers exactly the unblocking step |
| Processes.Processes.Perform | x64BareBones/Kernel/syscall/syscall.c:440-552 | every kernel entry on linked lists and arrays is the step of the kernel value and keeps its invariant |
| PipeSpec.OpenedIs | x64BareBones/Kernel/pipes/pipe.c:45-73 | an open answers the first active pipe of the name, else the first free slot, else -1; that slot gains one of both ends or becomes a fresh pipe, no other slot changes |
| PipeSpec.ClosedIs | x64BareBones/Kernel/pipes/pipe.c:76-100 | side 1 lowers the writers' counter, any other side the readers', if positive, and the other one stays, and so do the bytes; the pipe is given up exactly when both are then 0; everybody asleep on it is told exactly when the closed end's counter is then 0 |
| PipeSpec.ReadIs | x64BareBones/Kernel/pipes/pipe.c:127-175 | which answer a read gives: all it asks for or all there is, asleep exactly on an empty pipe with writers, 0 exactly on an empty one without, refused only before its loop |
| PipeSpec.WriteIs | x64BareBones/Kernel/pipes/pipe.c:179-221 | which answer a write gives: it stops only when all is in, the timer cuts in, no reader is left or 4096 bytes are buffered, and which of these it reports |
| PipeSpec.PipeFifo | x64BareBones/Kernel/pipes/pipe.c:28-221 | over every interleaving of reads, writes, closes and opens: bytes read, then bytes buffered, are the bytes written, and each writer's bytes come out in its order |
| PipeSpec.EndOfFile | x64BareBones/Kernel/pipes/pipe.c:127-159 | a read of at least one byte answers 0 exactly when its end is open, no writer is left and everything sent has been read; a woken read ignores its own end, and the two differ exactly when that end has been closed |
| PipeRuns.CallIsLife | x64BareBones/Kernel/pipes/pipe.c:28-221 | a call that does not begin a new pipe in a slot is a piece of the life of the pipe there, with the same bytes in and out |
| PipeRuns.RunIsFifo | x64BareBones/Kernel/pipes/pipe.c:28-221 | in every run of creates, opens, closes, reads and writes over the table, from any moment at which a slot is unused on and as long as it holds the same pipe: bytes read, then bytes buffered, are the bytes written; each writer's bytes come out in its order |
| PipeRuns.WokenReadTakesNewPipe | x64BareBones/Kernel/pipes/pipe.c:133-166 | a reader asleep while both ends are closed and the slot is used again takes the bytes of the new pipe |
| PipeRuns.TakenFromPresentPipe | x64BareBones/Kernel/pipes/pipe.c:127-175 | at any moment of any run a read, first or woken, finds the bytes given to the present pipe of its slot and not yet taken; that is the pipe a sleeping read began on exactly when no call in between began a new one in the slot |
| PipeRuns.ReadersDrain | x64BareBones/Kernel/pipes/pipe.c:76-175 | in every run in which a pipe is only read and its side 1 closed, by any calls on other pipes besides: the reads take what was buffered, in order, to the last byte, and answer 0 exactly when all is taken and the writers' end has been closed as many times as it was open |
| PipeRuns.WritersRefused | x64BareBones/Kernel/pipes/pipe.c:84-97 | once the last reader has closed, every write that wants to put in a byte is refused and puts in none, and sleeping writers are told |
| PipeProtocol.ReaderPassAgrees | x64BareBones/Kernel/pipes/pipe.c:133-166 | the reader of the protocol does what one pass of the read loop, first or resumed, does to the queue |
| PipeProtocol.WriterPassAgrees | x64BareBones/Kernel/pipes/pipe.c:187-213 | the writer of the protocol does what one byte of the write loop does to the queue |
| PipeProtocol.MoveKeepsAwake | x64BareBones/Kernel/pipes/pipe.c:105-221 | a reader asleep on a filled buffer implies a writer short of its notify, a writer stuck on a non-full one a reader short of its notify; every move keeps this |
| PipeProtocol.NeverBothAsleep | x64BareBones/Kernel/pipes/pipe.c:127-221 | with one reader and one writer the two ends can never sleep on each other exactly when no call writes more than 4096 bytes |
| PipeProtocol.JamBlocks | x64BareBones/Kernel/pipes/pipe.c:179-221 | the run that jams both ends when a call writes more |
| Pipes.RingPut | x64BareBones/Kernel/pipes/pipe.c:205-209 | a byte at the write position is the last of the queue; write position = (read position + count) mod 4096 |
| Pipes.RingTake | x64BareBones/Kernel/pipes/pipe.c:158-163 | the byte at the read position is the first of the queue |
| Pipes.Pipe.Put | x64BareBones/Kernel/pipes/pipe.c:205-209 | the ring holds one byte more, at the end |
| Pipes.Pipe.Take | x64BareBones/Kernel/pipes/pipe.c:157-164 | the oldest bytes are copied out in order, as many as asked for and there, and leave the queue |
| Pipes.Pipe.CopyOut | x64BareBones/Kernel/pipes/pipe.c:163-166 | the copy loop: the bytes come out in order and the read position ends behind them |
| Pipes.NotifyWakes | x64BareBones/Kernel/pipes/pipe.c:105-116 | exactly the processes asleep on the pipe become READY and stop waiting for it |
| Pipes.ReportAt | x64BareBones/Kernel/process/process.c:249-268 | every report tells pid, priority and state of one living slot, and the later reports are those of the later slots |
| Pipes.ReportOf | x64BareBones/Kernel/process/process.c:249-268 | every living slot is reported |
| Pipes.Pipes.constructor | x64BareBones/Kernel/pipes/pipe.c:14-25 | 16 free pipes, nobody waiting |
| Pipes.Pipes.PipeCreate | x64BareBones/Kernel/pipes/pipe.c:28-42 | the first free pipe is active, empty, with one open end each; -1 when there is none |
| Pipes.Pipes.PipeOpen | x64BareBones/Kernel/pipes/pipe.c:45-73 | one more of both ends on the pipe of that name, else a new pipe |
| Pipes.Pipes.PipeClose | x64BareBones/Kernel/pipes/pipe.c:76-100 | the table after a close of that end (PipeSpec.ClosedIs): its counter goes down, waiters are told when it is 0, the pipe is given up when both are 0; -1 for a pipe that is not there |
| Pipes.Pipes.PipeNotify | x64BareBones/Kernel/pipes/pipe.c:105-116 | the loops over the process list tell everybody who waits |
| Pipes.Pipes.GetProcessList | x64BareBones/Kernel/process/process.c:249-268 | the reports of the live slots in slot order, cut at the given count; the rest of the buffer is untouched |
| Pipes.Pipes.PipeRead | x64BareBones/Kernel/pipes/pipe.c:127-175 | the whole call up to a block point, from its beginning or woken: refused, 0, end of file, the oldest bytes and everybody asleep on the pipe told (unless the timer cuts in before), or asleep on it |
| Pipes.Pipes.ReadNow | x64BareBones/Kernel/pipes/pipe.c:133-175 | the loop and what follows it: the oldest bytes in the buffer of the caller and not one more, everybody told, or asleep, or 0 |
| Pipes.Pipes.PipeWrite | x64BareBones/Kernel/pipes/pipe.c:179-221 | the whole call up to a block point or an interrupt, from its beginning or resumed: refused, 0, as many bytes as fit stored in order, interrupted before a byte or before the telling, told when all are in, or asleep on the pipe; how many are in |
| Pipes.Pipes.WriteBytes | x64BareBones/Kernel/pipes/pipe.c:187-215 | the loop stores the next bytes in order until all are in, the timer interrupts, the readers are gone or the buffer is full |
| MutexClient.StepKeepsExclusive | x64BareBones/Userland/shell/commands/test_sync.c:33-57 | at most one worker is between its wait and its post, over every step |
| MutexClient.StepKeepsCount | x64BareBones/Userland/shell/commands/test_sync.c:25-57 | the counter holds exactly the rounds written, also across the yield between read and write |
| MutexClient.FinalValue | x64BareBones/Userland/shell/commands/test_sync.c:25-99 | for every number of rounds and of workers of either kind and every interleaving, no two workers are ever inside, and the final value is n times the difference of the kinds |
| MutexClient.NoDeadlock | x64BareBones/Userland/shell/commands/test_sync.c:33-57 | as long as a worker has not finished, some worker can move |
| MutexClient.LostUpdate | x64BareBones/Userland/shell/commands/test_sync.c:25-57 | without the semaphore, for all n > 0 and any two or more workers, an interleaving that finishes every worker and loses one update |
| MutexClient.MostLost | x64BareBones/Userland/shell/commands/test_sync.c:25-57 | without the semaphore some interleaving loses all but the rounds of one worker: it ends at n or -n |
| MutexClient.InTurn | x64BareBones/Userland/shell/commands/test_sync.c:33-57 | with or without the semaphore all workers can finish, with nothing lost |
| MutexClient.NothingLostIff | x64BareBones/Userland/shell/commands/test_sync.c:25-99 | every interleaving of the workers that were created ends at n times their difference exactly when the semaphore is used or there is at most one worker |
| MutexClient.ZeroIff | x64BareBones/Userland/shell/commands/test_sync.c:59-113 | the final value is 0 in every interleaving exactly when, besides, the workers that were created cancel out |
| MutexClient.CommandEndsAtZeroIff | x64BareBones/Userland/shell/commands/test_sync.c:59-113 | for all arguments the command accepts and any room for processes: if all pairs find room it ends at 0 in every interleaving exactly when the semaphore is used; else exactly when, besides, the workers that found room cancel out |
| MVarClient.StepKeeps | x64BareBones/Userland/shell/commands/mvar_cmds.c:28-66 | one token circulates among `empty`, `full` and the clients, the mutex is never contended, and what was read is what was written but for a value in the cell |
| MVarClient.HandOff | x64BareBones/Userland/shell/commands/mvar_cmds.c:28-66 | for any writers and readers and every interleaving, the values read are a prefix of the values written and at most one shorter |
| MVarClient.AlwaysMoves | x64BareBones/Userland/shell/commands/mvar_cmds.c:83-86 | from fresh semaphores, with a writer and a reader, some client can always move |
| CommandLookup.CmpIsPrefix | x64BareBones/Userland/shell/lib/commandRead.c:98-112 | the comparison answers 0 exactly for names that start with the token |
| CommandLookup.LowerIs | x64BareBones/Userland/shell/lib/commandRead.c:22-24 | codes 65 to 90 go up by 32, every other character stays |
| CommandLookup.CompareIgnoresCase | x64BareBones/Userland/shell/lib/commandRead.c:22-24 | two characters compare equal exactly when they are the same or an upper-case letter and the lower-case letter 32 above it |
| CommandLookup.CmpMonotone | x64BareBones/Userland/shell/lib/commandRead.c:98-112 | the comparison is monotone along the case-insensitive order |
| CommandLookup.CiCmpPrefix | x64BareBones/Userland/shell/lib/commandRead.c:98-112 | the loop computes that comparison |
| CommandLookup.CiStrncmp | x64BareBones/Userland/shell/lib/commandRead.c:141-152 | 0 exactly when the letters agree up to the given length or up to the zero that ends both texts before it |
| CommandLookup.LbPrefix | x64BareBones/Userland/shell/lib/commandRead.c:115-125 | everything before compares below the token, nothing from there on does |
| CommandLookup.UbPrefix | x64BareBones/Userland/shell/lib/commandRead.c:128-138 | nothing before compares above the token, everything from there on does |
| CommandLookup.FindCmdIdx | x64BareBones/Userland/shell/lib/commandRead.c:159-177 | for any sorted table: the name that equals the token if no other name starts with it, else -1; by CommandLookup.AnswerIgnoresCase the same for every mixture of upper and lower case |
| CommandLookup.AnswerIgnoresCase | x64BareBones/Userland/shell/lib/commandRead.c:159-177 | tokens that differ only between upper-case letters and the lower-case letters 32 above them get the same answer, on every table |
| CommandLookup.FindBoth | x64BareBones/Userland/shell/lib/commandRead.c:159-177 | so does the search itself, on any sorted table |
| CommandLookup.FindAgreesWithScan | x64BareBones/Userland/shell/lib/commandRead.c:159-177 | on a prefix-free table the answer of a linear scan, case ignored |
| CommandLookup.CommandsArePrefixFree | x64BareBones/Userland/shell/lib/commands.c:47-82 | the command table is sorted and no command is a prefix of another |
| CommandLookup.CommandInAnyCase | x64BareBones/Userland/shell/lib/commands.c:47-82 | every command of the shell is found by its name in any mixture of upper and lower case |

## Left out

- KernelWaitPid.WaitChild: follows one waiter, which is not killed; for several see `KernelSemaphores.WaitersServed`.
- BitmapManager.Bitmap.MmAlloc: excludes sizes above 2^64-16 on a heap of 32 to 47 bytes, where the code would look at a bitmap that was never set up.
- KernelRuns.StepKeeps: takes the answers of the allocator as parameters; `KernelHeap` puts a manager under it, by its promise `AllocatorSpec.Step` and not by its code.
- KernelFairness.BoundedWaiting: says nothing for a process with more urgent ones around; the code has no aging, so there is nothing to say.
- Processes.Processes.CreateProcess: does not build the stack frame, the process name, the copy of the argument strings, the parent pid, the foreground flag, the file descriptors and the `waiting_pipe` field, which `Pipes` keeps.
- Processes.Processes.ExitCurrentProcess: leaves out that `syscall_exit` also zeroes the quantum; the scheduler does not look at the quantum of a process that is not RUNNING.
- Scheduler.Scheduler.Schedule: returns whether it switches instead of a stack pointer, and saves no stack pointer.
- Scheduler.Scheduler.AddToReadyQueue: is for a process that stands in no list. Adding one twice would cut the list behind it and close it into a cycle; `KernelRuns.ReadyIffQueued` shows that no call does.
- Scheduler.Scheduler.RemoveFromReadyQueue: is for a process that, if it stands in a list, stands in that of its priority, which `KernelRuns.ReadyIffQueued` shows of every reachable state.
- Semaphores.Semaphores.SemWait: is for pids below 2^31, and for the idle process only if it does not block.
- Pipes.Pipes.GetProcessList: reports pid, priority and state; the name, the register values and the foreground flag are not part of this model.
- PipeProtocol.NeverBothAsleep: is about one reader and one writer per pipe, neither killed with its end open.
- MutexClient.FinalValue: assumes that no worker is killed; the coin of `slowInc` is left open, as a yield changes nothing but the interleaving.
- MVarClient.HandOff: leaves out the random delays and the printing, and starts from fresh semaphores.
- Blocking of pipe ends is not part of `KernelRuns`: a process asleep on a pipe is a BLOCKED process that only `pipe_notify` unblocks.
- Names of semaphores and pipes longer than 31 characters are cut on copy, as in the code; nothing is promised for lookups of such names.
- Spinlocks, `sti`/`hlt`, context switching, register frames, interrupt controllers: hardware; entries are atomic steps here.
- `kill_foreground_process`, file descriptors: would add only easy members.
- The tokenizer and dispatcher of the shell, video, audio, clock, keyboard, games, benchmarks: I/O, or only easy members.
- The BMFS disk tool, the boot loader, the module packer and loader: host and boot code.
- Random test drivers: test noise.
