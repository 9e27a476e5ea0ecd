# Verified models of the course kernel, its C library and the maze game

A Dafny model of the hard parts of two code bases: the OS/161 teaching kernel and its C library
(`ece344/os161`), and the maze of the Mazewar game (`ece419/lab2/mazewar`). Nothing here runs the
original programs; each part states what the code does and proves what it is meant to guarantee, for
all inputs and all interleavings.

- **User-level malloc** (`Blocks.dfy`, `Malloc.dfy`). `Blocks` says what malloc and free do to the
  sequence of blocks that tiles the heap, and what every run of them keeps. `Malloc` is the
  boundary-tag code on memory, with 29-bit size fields, over `sys_sbrk` with its 32-bit arithmetic,
  and is proved to carry out `Blocks` without touching a live byte.
- **Kernel subpage allocator** (`PagePool.dfy`, `UseBits.dfy`, `KHeap.dfy`). `PagePool` is the abstract pool
  of pages with free lists, `UseBits` the bitmap of page references. `KHeap` is the code: a page reference table, two intrusive lists over the same
  pages, free lists chained through the blocks themselves, and the use bitmap.
- **Maze** (`MazeGrid.dfy`, `MazeBuild.dfy`, `MazeGame.dfy`). The randomized carve makes a spanning tree
  of the grid; the game steps keep cells, client map, projectile map and fired set in step.
- **Threads and synchronization** (`ThreadModel.dfy`, `ThreadSafety.dfy`, `ThreadRuns.dfy`,
  `Threads.dfy`). The first three are a step machine, one step per section with interrupts off, with its
  invariants and whole-run theorems. Only the theorems about condition variable queues ask that waiters
  and signallers hold the lock; all others are about every run. `Threads` holds the imperative code, each method proved to be a step.
- **Shared facts** about options, sequences and sets (`Collections.dfy`).
- **Ring queue** (`RingQueue.dfy`), the run queue's storage, refines a sequence.
- **Protocols** as step machines with a program counter per thread: the disk driver (`Disk.dfy`), cats and
  mice (`CatMouse.dfy`), the intersection (`Stoplight.dfy`), console output (`Console.dfy`).
- **Generators** (`Random.dfy`, `Pseudorand.dfy`).
- **Formatting and parsing** (`Numerals.dfy`, `Printf.dfy`, `Formats.dfy`, `Atoi.dfy`). `Formats` gives the
  output of each conversion as a law of the whole format machine. Sections 7.19.6.12 and 7.20.1.2 of
  ISO C99 are what `vsnprintf` and `atoi` implement.

Random choices are nondeterministic. Values that come from outside (the page that `alloc_kpages(1)`
hands out, whether `kmalloc` succeeds, the disk's status, the result of `uiomove`) are parameters.

Places where the code does not do what its comments say, or what one would expect, each with the exact
condition under which it does:

- The rounding in `sys_sbrk` does not align (`Malloc.SbrkTopMisaligns`).
- `free` rejects a zero-size block at the very top of the heap, and no other live pointer
  (`Blocks.EmptyAtTop`, `Blocks.LiveBelowTop`; `Malloc.FreeOfMallocZero` is the smallest case).
- `setstate` on the active state array is documented as harmless, but goes back to the position saved
  last (`Random.Generator.SetStateActive`; `Random.DefaultDisturbed` is a case at the start of a program).
- `%-0Nd` pads with zeros on the right, so the text no longer denotes the number (`Atoi.RoundTripIff`).
- `cv_signal` without the lock can swallow the wakeup of a thread that is on its way to sleep
  (`ThreadRuns.SignalWithoutLock`; `ThreadRuns.LostWakeup` is a run).
- The projectile tick may move a projectile already destroyed in the same tick (`MazeGame.MoveKeepsIff` says
  when that does no harm; `MazeGame.StaleShot` is a run in which it does).
- `addClient` with coordinates overwrites what is in the cell (`MazeGame.PlaceIff`).

`dafny verify dfyconfig.toml` checks the whole project.

## Model

| member | source | states |
|---|---|---|
| `Blocks.LiveRange` | ece344/os161/lib/libc/malloc.c:45-61 | every live payload lies above a header, inside [heapbase, heaptop), on an 8-byte boundary |
| `Blocks.LiveDisjoint` | ece344/os161/lib/libc/malloc.c:307-403 | no two live payloads share a byte |
| `Blocks.LiveBlock` | ece344/os161/lib/libc/malloc.c:483-490 | a live pointer names exactly one used block, so the header checks of free succeed on it |
| `Blocks.FirstFit` | ece344/os161/lib/libc/malloc.c:336-377 | the block chosen is free, large enough, and the first such; the index is past the end when there is none |
| `Blocks.MallocKeeps` | ece344/os161/lib/libc/malloc.c:329-403 | whether it carves a free block or extends the heap, malloc adds exactly one live payload, new and large enough, and keeps the tiling |
| `Blocks.MallocCoalesced` | ece344/os161/lib/libc/malloc.c:329-403 | malloc never leaves two free blocks side by side |
| `Blocks.FreeKeeps` | ece344/os161/lib/libc/malloc.c:457-514 | free takes away exactly one live payload, keeps the tiling, and leaves no two free neighbours: merging above and then below is enough |
| `Blocks.FreeUndoesAlloc` | ece344/os161/lib/libc/malloc.c:267-302 | splitting a free block, taking it and freeing it again restores the heap block for block |
| `Blocks.RunCoalesced` | ece344/os161/lib/libc/malloc.c:308-514 | over every run of mallocs (with or without room to grow) and frees, no two free blocks are adjacent |
| `Blocks.AllFreedIsOneBlock` | ece344/os161/lib/libc/malloc.c:457-514 | after any run that leaves nothing live, the heap is a single free block |
| `Malloc.AddrSpace.Sbrk` | ece344/os161/kern/userprog/sbrk.c:25-50 | the error cases, the returned old top and the new top of sys_sbrk, in 32-bit wrap-around arithmetic; for aligned positions success is exactly staying between the heap bottom and the stack |
| `Malloc.SbrkTopAligned` | ece344/os161/kern/userprog/sbrk.c:39-46 | on multiples of 4 the "rounding" of sys_sbrk does nothing, so the top is where malloc expects it |
| `Malloc.SbrkTopMisaligns` | ece344/os161/kern/userprog/sbrk.c:42-46 | the rounding does not align: the new top is a multiple of 4 exactly when the position was even, and is unmoved exactly when it was a multiple of 4 |
| `Malloc.RoundUnitsCovers` | ece344/os161/lib/libc/malloc.c:330-330 | the rounding covers the request, by less than a unit, exactly when it does not wrap around 32 bits |
| `Malloc.RequestIsPositiveInt` | ece344/os161/lib/libc/malloc.c:329-389 | the exact set of request sizes for which sbrk is handed a positive int |
| `Malloc.SplitStep` | ece344/os161/lib/libc/malloc.c:265-302 | the header writes of a split describe the two new blocks, keep the whole heap tagged, and touch no live byte |
| `Malloc.MergeStep` | ece344/os161/lib/libc/malloc.c:425-451 | the header writes of a merge describe the merged block, keep the whole heap tagged, and touch no live byte |
| `Malloc.Heap.Init` | ece344/os161/lib/libc/malloc.c:123-180 | sets up an empty aligned heap; "heap base moved during init" is unreachable; with an aligned bottom it succeeds exactly when the bottom is not null |
| `Malloc.Heap.Split` | ece344/os161/lib/libc/malloc.c:267-302 | memory afterwards is exactly the split of the block, or unchanged when the rest is too small for a header and a unit; "split screwed up" is unreachable |
| `Malloc.Heap.More` | ece344/os161/lib/libc/malloc.c:238-255 | extends the heap by exactly size bytes or changes nothing; "heap top moved" is unreachable |
| `Malloc.Heap.Search` | ece344/os161/lib/libc/malloc.c:336-380 | the scan stops at the first free block that fits, knowing the size of the block below; all three "heap corrupt" exits are unreachable |
| `Malloc.Heap.Allocate` | ece344/os161/lib/libc/malloc.c:329-403 | fails exactly when no free block fits and sbrk has no room; extends the heap only when no free block fits; leaves everything unchanged on failure |
| `Malloc.Heap.Malloc` | ece344/os161/lib/libc/malloc.c:307-403 | a success adds one new aligned payload of at least size bytes and changes no live byte; NULL leaves the blocks as they were; only the first call can exit |
| `Malloc.Heap.Wipe` | ece344/os161/lib/libc/malloc.c:413-422 | exactly the units of the payload are overwritten |
| `Malloc.Heap.TryMerge` | ece344/os161/lib/libc/malloc.c:425-451 | memory afterwards is exactly the merge of two free blocks, or unchanged when either is in use |
| `Malloc.Heap.Free` | ece344/os161/lib/libc/malloc.c:457-514 | NULL does nothing; out-of-range pointers exit; a live pointer gives up exactly its payload, neighbours are merged, no other live byte changes; "corrupt header" and "already free" are unreachable |
| `Blocks.EmptyAtTop` | ece344/os161/lib/libc/malloc.c:473-476 | the heap top is a live pointer exactly when the last block is a used one of size zero |
| `Blocks.LiveBelowTop` | ece344/os161/lib/libc/malloc.c:473-476 | every other live pointer is in the range that free accepts |
| `Malloc.FreeOfMallocZero` | ece344/os161/lib/libc/malloc.c:457-476 | freeing what malloc(0) returned on a fresh heap ends the process |
| `Malloc.Heap.Store` | ece344/os161/lib/libc/malloc.c:45-61 | whatever the program stores into its own payloads, the tags stay right |
| `PagePool.LiveApart` | ece344/os161/kern/lib/kheap.c:66-108 | no two allocated blocks, of whatever pages and sizes, share a byte |
| `PagePool.FullListHasAll` | ece344/os161/kern/lib/kheap.c:528-534 | a repetition-free in-page aligned free list as long as nblocks holds every block of the page (counting argument) |
| `PagePool.PopLive` | ece344/os161/kern/lib/kheap.c:378-400 | taking the head of a free list makes exactly that block live |
| `PagePool.FreeInLive` | ece344/os161/kern/lib/kheap.c:511-534 | freeing a block makes exactly that block not live, whether or not its page is released |
| `PagePool.PageGoesWithLastBlock` | ece344/os161/kern/lib/kheap.c:528-534 | a page is released exactly when the block freed was its last live one |
| `PagePool.AddedPageLive` | ece344/os161/kern/lib/kheap.c:431-459 | a fresh page contributes exactly one live block, the one returned |
| `KHeap.BlockType` | ece344/os161/kern/lib/kheap.c:332-348 | the smallest size class that holds the request |
| `KHeap.TightSize` | ece344/os161/kern/lib/kheap.c:332-348 | the class is one of 16 to 2048 bytes, holds the request, and is less than twice as large unless the smallest will do |
| `KHeap.Unlink` | ece344/os161/kern/lib/kheap.c:315-329 | walking an intrusive list to an element and bypassing it leaves the list of the others, in order |
| `KHeap.Subpages.AllocPageRef` | ece344/os161/kern/lib/kheap.c:112-133 | returns an unused reference and sets its bit alone, or fails exactly when all bits are set |
| `KHeap.Subpages.FreePageRef` | ece344/os161/kern/lib/kheap.c:137-148 | the reference is no longer in use and every other one is as before, found by word and bit |
| `UseBits.OneBit` | ece344/os161/kern/lib/kheap.c:122-148 | writing the bit of one reference, in its word, changes whether that one is in use and no other |
| `UseBits.WordFull` | ece344/os161/kern/lib/kheap.c:117-129 | a word is full exactly when all 32 of its references are in use, so the assert after the inner loop is unreachable |
| `UseBits.FreeUndoesAlloc` | ece344/os161/kern/lib/kheap.c:112-148 | freeing a reference just allocated restores the bitmap word for word |
| `KHeap.Subpages.FindPage` | ece344/os161/kern/lib/kheap.c:372-378 | the first page in the list of the class with a free block, or none exactly when there is none |
| `KHeap.Subpages.ChainPage` | ece344/os161/kern/lib/kheap.c:440-450 | the blocks of a new page are chained from the last to the first, within the page |
| `KHeap.Subpages.EnterPage` | ece344/os161/kern/lib/kheap.c:431-456 | a new page appears, all free, in the reference table, the list of its class and the list of all pages |
| `KHeap.Subpages.SubpageKmalloc` | ece344/os161/kern/lib/kheap.c:352-460 | keeps the checksubpage invariant; a success is one new live block of the smallest class that fits; a new page is used only when no page of the class has room; NULL exactly when there is no room and no page or page reference, and then nothing changes |
| `KHeap.Subpages.FillDeadbeef` | ece344/os161/kern/lib/kheap.c:8-16 | every word of the block is overwritten and nothing outside it |
| `KHeap.Subpages.RemoveLists` | ece344/os161/kern/lib/kheap.c:307-330 | each list is what it was without that one element, and both still describe the remaining pages |
| `KHeap.Subpages.FindOwner` | ece344/os161/kern/lib/kheap.c:481-498 | the page that holds the address, or none exactly when no page does |
| `KHeap.Subpages.PushBlock` | ece344/os161/kern/lib/kheap.c:507-526 | every word of the freed block but the link is wiped, nothing outside it changes, and it becomes the head of its page's free list |
| `KHeap.Subpages.SubpageKfree` | ece344/os161/kern/lib/kheap.c:464-540 | frees exactly live blocks; -1 exactly for addresses on none of the pages; panics for misplaced ones; memory outside the block is untouched; the invariant is kept |
| `KHeap.Subpages.Store` | ece344/os161/kern/lib/kheap.c:167-205 | whatever is stored into a live block, the free lists and page table stay right |
| `MazeGrid.DirectionLaws` | ece419/lab2/mazewar/Direction.java:115-170 | inverting and turning undo each other; moving back along a direction returns; different directions lead to different cells |
| `MazeGrid.TurnsRotate` | ece419/lab2/mazewar/Direction.java:110-165 | with north up and east to the right, a left turn rotates the step counter-clockwise, a right turn clockwise, and inverting reverses it |
| `MazeGrid.TreeConnected` | ece419/lab2/mazewar/MazeImpl.java:845-856 | the cells reached by carving are connected to each other |
| `MazeGrid.TreeAcyclic` | ece419/lab2/mazewar/MazeImpl.java:845-856 | the passages carved contain no cycle |
| `MazeGrid.CarvedTree` | ece419/lab2/mazewar/MazeImpl.java:788-796 | breaking both sides of the wall to an unreached cell extends the tree by that cell, with one more passage |
| `MazeBuild.TreeOfAllIsSpanning` | ece419/lab2/mazewar/MazeImpl.java:845-856 | a carved tree over the whole grid is a spanning tree: connected, acyclic, maxX*maxY-1 passages, walls shared, border closed |
| `MazeBuild.CornerReaches` | ece419/lab2/mazewar/MazeImpl.java:845-856 | a set with the corner and all neighbours of its cells is the whole grid |
| `MazeBuild.Builder.PickNeighbor` | ece419/lab2/mazewar/MazeImpl.java:805-839 | some unvisited neighbour in bounds, or null exactly when there is none |
| `MazeBuild.Builder.BreakThrough` | ece419/lab2/mazewar/MazeImpl.java:788-796 | both walls go and the tree grows by one cell |
| `MazeBuild.Builder.BuildMaze` | ece419/lab2/mazewar/MazeImpl.java:845-856 | terminates for every sequence of random choices; afterwards every cell reached by the call is visited and has no unvisited neighbour |
| `MazeBuild.Builder.constructor` | ece419/lab2/mazewar/MazeImpl.java:53-80 | for every grid size and every sequence of random choices, the finished maze is a spanning tree and every cell is visited |
| `MazeGame.BuiltIsPlayable` | ece419/lab2/mazewar/MazeImpl.java:430-444 | in every built maze of at least two cells every cell has an open passage, so the random-direction loops can end |
| `MazeGame.FlightEnds` | ece419/lab2/mazewar/MazeImpl.java:372-424 | in every reachable state a projectile in play has moved fewer than max(maxX, maxY) times, and one with no moves left faces a wall; the count is kept by every step of the game |
| `MazeGame.MoveKeepsIff` | ece419/lab2/mazewar/MazeImpl.java:340-424 | moveProjectile on any projectile in the map, flying or already destroyed in the tick, in each of its four branches: once the dead are swept out, cells and maps agree if and only if it was flying, or its old cell is empty and stays so and the way ahead is not free |
| `MazeGame.Erase` | ece419/lab2/mazewar/MazeImpl.java:383-389 | emptying a cell is right exactly when it was empty |
| `MazeGame.PlaceIff` | ece419/lab2/mazewar/MazeImpl.java:430-444 | putting a client into a cell keeps cells and maps in step if and only if the cell is empty and the client new, or it is the client's own cell |
| `MazeGame.StaleShot` | ece419/lab2/mazewar/MazeImpl.java:340-368 | a run of the game, from an empty maze, in which two projectiles crash, the second is moved all the same, and after the sweep a cell holds a projectile that is not in play |
| `MazeGame.Game.OpenLeadsInside` | ece419/lab2/mazewar/MazeImpl.java:514-546 | an open passage leads to a cell of the maze, so the bounds asserts never fire |
| `MazeGame.Game.AddClient` | ece419/lab2/mazewar/MazeImpl.java:430-444 | the client is placed in the cell, whatever is there, facing an open passage; cells and maps stay in step exactly when the cell was empty and the client new, or it was the client's own cell |
| `MazeGame.Game.RemoveClient` | ece419/lab2/mazewar/MazeImpl.java:231-243 | the client leaves the map and its cell; nothing else changes |
| `MazeGame.Game.RotateClient` | ece419/lab2/mazewar/MazeImpl.java:483-505 | only the direction changes |
| `MazeGame.Game.MoveClient` | ece419/lab2/mazewar/MazeImpl.java:514-546 | moves exactly when the passage is open and the cell ahead is empty; otherwise nothing changes |
| `MazeGame.Game.KillClient` | ece419/lab2/mazewar/MazeImpl.java:451-477 | the target, and nobody else, reappears in a cell that was empty or its own, facing an open passage |
| `MazeGame.Game.ClientFire` | ece419/lab2/mazewar/MazeImpl.java:245-290 | fires exactly when allowed; an adjacent client is killed, otherwise one new projectile is in play and its owner may not fire again |
| `MazeGame.Game.MoveProjectile` | ece419/lab2/mazewar/MazeImpl.java:372-424 | for any projectile in the map: dies at a wall, kills a client, destroys another projectile with itself, or moves one cell on and is counted as having moved once more; cells and maps stay in step exactly when the move is orderly |
| `MazeGame.Game.Sweep` | ece419/lab2/mazewar/MazeImpl.java:351-359 | destroyed projectiles leave the map and exactly their owners may fire again; this neither mends nor breaks the cells |
| `ThreadModel.StepPlacement` | ece344/os161/kern/thread/thread.c:348-437 | every atomic step, cv_broadcast and unlocked waits and signals included, keeps each live thread in exactly one place and zombies out of all of them |
| `ThreadSafety.StepWaits` | ece344/os161/kern/thread/synch.c:63-294 | every atomic step, whoever holds which lock, keeps: nobody sleeps on a free lock or a semaphore with a count |
| `ThreadSafety.StepCvs` | ece344/os161/kern/thread/synch.c:246-277 | every step that keeps to the lock discipline keeps each CV queue equal to those asleep on it in arrival order, plus the one lock holder still inside cv_wait |
| `ThreadRuns.RunInv` | ece344/os161/kern/thread/thread.c:236-585 | every run, in every interleaving and with condition variables used in any way, keeps placement and waiting right |
| `ThreadRuns.RunCvs` | ece344/os161/kern/thread/synch.c:246-277 | every run in which waiters and signallers hold the lock and cv_broadcast is not used also keeps the CV queues right |
| `ThreadRuns.QueueIsSleepers` | ece344/os161/kern/thread/synch.c:246-277 | from boot, in such a run, a CV queue is the list of those asleep on it in arrival order, but for one lock holder still inside cv_wait |
| `ThreadRuns.BootedPlacement` | ece344/os161/kern/thread/thread.c:105-121 | from boot, each live thread is in exactly one of curthread, runqueue and sleepers; a zombie is in none and is never dispatched; numthreads is their total |
| `ThreadRuns.LiveCount` | ece344/os161/kern/thread/thread.c:236-437 | numthreads equals running plus ready plus sleeping threads |
| `ThreadRuns.SemaphoreCount` | ece344/os161/kern/thread/synch.c:63-96 | over every run a count is the initial count plus Vs minus completed Ps, and never negative |
| `ThreadRuns.NoIdleWaiting` | ece344/os161/kern/thread/synch.c:63-180 | in no run is a thread asleep on a free lock or on a semaphore with nonzero count |
| `ThreadRuns.OnlyOwnerGivesUp` | ece344/os161/kern/thread/synch.c:165-184 | a lock becomes free exactly by its owner's release, in lock_release or cv_wait, and never passes straight to another |
| `ThreadRuns.TakenWhenFree` | ece344/os161/kern/thread/synch.c:141-162 | a lock is taken only when free, by the running thread |
| `ThreadRuns.AcquireOwns` | ece344/os161/kern/thread/synch.c:140-162 | whoever comes back from lock_acquire, at once or after any wait, or from cv_wait, is running and owns the lock |
| `ThreadRuns.OwnsUntilRelease` | ece344/os161/kern/thread/synch.c:164-184 | over every run without its own release or cv_wait on that lock, an owner stays the owner |
| `ThreadRuns.HeldThroughout` | ece344/os161/kern/thread/synch.c:140-257 | in every run from boot a thread owns the lock from the step that completes its lock_acquire or cv_wait until its own release |
| `ThreadRuns.PTakes` | ece344/os161/kern/thread/synch.c:63-84 | whoever comes back from P, at once or after waiting, is running and has taken one unit that was there |
| `ThreadRuns.BroadcastWakesAll` | ece344/os161/kern/thread/synch.c:285-294 | cv_broadcast makes everyone asleep on the CV ready in order of arrival, nobody else, and leaves the queue as it was |
| `ThreadRuns.SignalWakesLongest` | ece344/os161/kern/thread/synch.c:264-277 | cv_signal by the lock holder wakes exactly the longest waiter, and does nothing when nobody waits |
| `ThreadRuns.SignalWithoutLock` | ece344/os161/kern/thread/synch.c:264-277 | the first signal without the lock wakes exactly the longest waiter if and only if some thread is asleep on the CV; otherwise it wakes nobody and uses up the entry of the thread on its way to sleep |
| `ThreadRuns.AsleepUnqueued` | ece344/os161/kern/thread/synch.c:245-277 | a thread whose entry is gone goes to sleep all the same, and signals pass it by |
| `ThreadRuns.LostWakeup` | ece344/os161/kern/thread/synch.c:245-277 | a run from boot in which one signal without the lock leaves a waiter asleep and off the queue, and a later signal with the lock does not wake it |
| `ThreadRuns.RoundRobin` | ece344/os161/kern/thread/scheduler.c:89-119 | a ready thread with i others ahead is at the head after exactly i dispatches, whatever else happens |
| `ThreadRuns.SwitchBuries` | ece344/os161/kern/thread/thread.c:407-437 | a switch back to a thread that ran before destroys all zombies; a thread that starts leaves them for later |
| `Threads.ThreadSystem.constructor` | ece344/os161/kern/thread/thread.c:175-215 | the booted system satisfies every invariant |
| `Threads.ThreadSystem.Wakeup` | ece344/os161/kern/thread/thread.c:522-545 | the in-place removal loop wakes exactly those asleep on the address, in order, and keeps the others in order |
| `Threads.ThreadSystem.WakeupHead` | ece344/os161/kern/thread/thread.c:552-585 | wakes the head of the queue if it is asleep on the CV, and nobody else |
| `Threads.ThreadSystem.Exorcise` | ece344/os161/kern/thread/thread.c:107-121 | destroys all zombies, none of which is running |
| `Threads.ThreadSystem.ThreadSleep` | ece344/os161/kern/thread/thread.c:507-516 | puts the running thread to sleep on the address |
| `Threads.ThreadSystem.SemP` | ece344/os161/kern/thread/synch.c:63-84 | one turn of P is the machine's P step and keeps the invariant |
| `Threads.ThreadSystem.SemV` | ece344/os161/kern/thread/synch.c:86-96 | V is the machine's V step and keeps the invariant |
| `Threads.ThreadSystem.LockAcquire` | ece344/os161/kern/thread/synch.c:140-162 | lock_acquire is the machine's acquire step and keeps the invariant |
| `Threads.ThreadSystem.LockRelease` | ece344/os161/kern/thread/synch.c:164-184 | lock_release is the machine's release step and keeps the invariant |
| `Threads.ThreadSystem.CvWaitQueue` | ece344/os161/kern/thread/synch.c:245-248 | the enqueueing part of cv_wait, with any lock held or not, is a machine step and keeps the invariant |
| `Threads.ThreadSystem.CvWaitSleep` | ece344/os161/kern/thread/synch.c:250-257 | the release-and-sleep part of cv_wait is one machine step and keeps the invariant |
| `Threads.ThreadSystem.Signal` | ece344/os161/kern/thread/synch.c:264-277 | cv_signal is the machine's signal step and keeps the invariant |
| `Threads.ThreadSystem.Broadcast` | ece344/os161/kern/thread/synch.c:285-294 | cv_broadcast is the machine's broadcast step: everyone asleep on the CV becomes ready, the queue is left behind |
| `Threads.ThreadSystem.ThreadFork` | ece344/os161/kern/thread/thread.c:237-340 | a fork adds one ready thread and keeps the invariant |
| `Threads.ThreadSystem.ThreadYield` | ece344/os161/kern/thread/thread.c:484-495 | yielding puts the running thread at the tail of the run queue |
| `Threads.ThreadSystem.ThreadExit` | ece344/os161/kern/thread/thread.c:440-480 | exit makes the running thread a zombie and counts it out |
| `Threads.ThreadSystem.SwitchTo` | ece344/os161/kern/thread/thread.c:348-437 | the second half of mi_switch is the machine's dispatch step: the head of the run queue runs, the zombies go, and it goes on with the P, lock_acquire or cv_wait it was in |
| `RingQueue.RingSize` | ece344/os161/kern/lib/queue.c:85-105 | how many elements a ring holds, and that the full test is exactly size-1 elements |
| `RingQueue.RingWrite` | ece344/os161/kern/lib/queue.c:91-108 | writing at the write index and moving it on appends one element |
| `RingQueue.RingRead` | ece344/os161/kern/lib/queue.c:111-121 | moving the read index on drops the first element |
| `RingQueue.Queue.Empty` | ece344/os161/kern/lib/queue.c:85-88 | true exactly for the empty sequence |
| `RingQueue.Queue.Doubled` | ece344/os161/kern/lib/queue.c:31-36 | the size is doubled until it is enough and not once more |
| `RingQueue.Queue.CopyFrom` | ece344/os161/kern/lib/queue.c:43-48 | the copy loop appends the old ring's elements in order |
| `RingQueue.Queue.Grow` | ece344/os161/kern/lib/queue.c:19-51 | growing keeps the contents, or changes nothing when memory is short; it is never re-entered from the q_addtail calls it makes |
| `RingQueue.Queue.AddTail` | ece344/os161/kern/lib/queue.c:91-108 | appends to the FIFO sequence through any number of grows; fails, changing nothing, exactly when full and short of memory |
| `RingQueue.Queue.RemHead` | ece344/os161/kern/lib/queue.c:111-121 | removes and returns the first element |
| `RingQueue.Queue.Preallocate` | ece344/os161/kern/lib/queue.c:71-82 | makes room without changing the contents |
| `Disk.StepThreads` | ece344/os161/kern/dev/lamebus/lhd.c:172-247 | every step of a thread, the disk or the interrupt handler keeps mutual exclusion and what each thread knows about its own command |
| `Disk.StepDisk` | ece344/os161/kern/dev/lamebus/lhd.c:86-104 | every step keeps the disk equal to the replay of the completed commands, and every successful read equal to the replay before it |
| `Disk.RunInv` | ece344/os161/kern/dev/lamebus/lhd.c:74-247 | every interleaving keeps the whole invariant |
| `Disk.OneAtATime` | ece344/os161/kern/dev/lamebus/lhd.c:172-247 | in every interleaving at most one thread is between P and V of lh_clear and at most one command is outstanding, with its issuer waiting |
| `Disk.SuccessMeansTransferred` | ece344/os161/kern/dev/lamebus/lhd.c:172-247 | when the call lhd_io(op, offset, resid) returns 0, entry j of its commands was of that op, on the sector with 512*sector == offset + 512*j, successful, issued by that thread after the call and in order, with the caller's data for a write |
| `Disk.ReadsLastWrite` | ece344/os161/kern/dev/lamebus/lhd.c:172-247 | what a successful read delivers in place j is the data of the last write completed before its own command to the sector with 512*sector == offset + 512*j, or the first contents of the disk if there was none |
| `Disk.ReplayIsLastWrite` | ece344/os161/kern/dev/lamebus/lhd.c:172-247 | what a replay says of a sector is its last completed write |
| `Disk.CallDecided` | ece344/os161/kern/dev/lamebus/lhd.c:172-200 | a call returns EINVAL without a command exactly when offset or resid is no multiple of 512 or offset + resid is past the end of the disk, returns 0 at once exactly when it is acceptable and empty, and otherwise waits for its first sector |
| `Disk.CalledWith` | ece344/os161/kern/dev/lamebus/lhd.c:172-200 | over every run the request of a thread is its last call, in the caller's own numbers, made when the log was as long as recorded; a call turned down has had no command and delivered nothing |
| `Disk.FailureIsReported` | ece344/os161/kern/dev/lamebus/lhd.c:52-247 | in every run, when a command of the call failed and the call has returned, it returned the error of that command: 1 for an invalid sector, 5 for a media error |
| `Disk.ErrorHasCause` | ece344/os161/kern/dev/lamebus/lhd.c:172-247 | an accepted call that returns an error returns one that a uiomove of the call gave, or that of a failed command of the call; without such a fault it returns success |
| `CatMouse.StepInv` | ece344/os161/kern/asst1/catlock.c:137-261 | every step of any cat or mouse keeps bowls, locks and flags in agreement |
| `CatMouse.RunInv` | ece344/os161/kern/asst1/catlock.c:137-261 | every interleaving of any number of animals keeps that agreement |
| `CatMouse.EatInPeace` | ece344/os161/kern/asst1/catlock.c:137-261 | two animals that eat at the same time are of the same kind and at different bowls |
| `CatMouse.FinishedIsFed` | ece344/os161/kern/asst1/catlock.c:137-261 | an animal that has finished has eaten all its meals and holds no lock |
| `Stoplight.RoutesOk` | ece344/os161/kern/asst1/stoplight.c:154-620 | every line of all twelve routes is consistent with the locks held and the places occupied at that line; that the places are the right ones is `Stoplight.RouteDriven` |
| `Stoplight.StepInv` | ece344/os161/kern/asst1/stoplight.c:154-704 | every step of any car keeps locks, flags and occupancy in agreement |
| `Stoplight.RunInv` | ece344/os161/kern/asst1/stoplight.c:624-704 | every interleaving of every mix of routes keeps that agreement |
| `Stoplight.OccupantHolds` | ece344/os161/kern/asst1/stoplight.c:154-620 | a car that occupies a quadrant or an approach holds its lock |
| `Stoplight.NoCollision` | ece344/os161/kern/asst1/stoplight.c:154-704 | no place ever holds two cars |
| `Stoplight.ReportsDiffer` | ece344/os161/kern/asst1/stoplight.c:119-145 | two cars never report the same quadrant at the same time |
| `Stoplight.FinishedHoldsNothing` | ece344/os161/kern/asst1/stoplight.c:624-704 | a car that has finished holds no quadrant and no approach lock |
| `Stoplight.RouteDriven` | ece344/os161/kern/asst1/stoplight.c:152-620 | in every interleaving, a car that has finished has printed exactly the messages of its direction and turn, in order, naming the quadrants of the literal table of the source (N straight NW SW, N left NW SW SE, N right NW, and so on) and its exit, and has occupied exactly those quadrants and its own approach |
| `Stoplight.RouteIsPath` | ece344/os161/kern/asst1/stoplight.c:152-620 | the quadrants locked by each of the twelve routes are those of the table, and the exit is the one named |
| `Stoplight.PathLeadsThrough` | ece344/os161/kern/asst1/stoplight.c:152-620 | the table is a way through the intersection: it starts beside the approach, goes from quadrant to adjacent quadrant, and ends beside the exit |
| `Console.NoPanic` | ece344/os161/kern/dev/lamebus/lser.c:56-80 | "Not clear to write" is unreachable while the count invariant holds |
| `Console.StepCount` | ece344/os161/kern/dev/generic/console.c:88-168 | every step keeps semaphore count + writers between P and send + busy flag at one |
| `Console.StepInv` | ece344/os161/kern/dev/lamebus/lser.c:18-127 | every step also keeps the busy flag, the device and the order of output in agreement |
| `Console.RunSafe` | ece344/os161/kern/dev/lamebus/lser.c:18-127 | no interleaving of interrupt-driven output, polled output and interrupts panics or breaks the invariant |
| `Console.PolledReturns` | ece344/os161/kern/dev/lamebus/lser.c:84-127 | the spin of polled output ends from every reachable state; characters come out once each in the order handed over, at most one behind |
| `Console.SentIsHandedOver` | ece344/os161/kern/dev/generic/console.c:101-168 | over every run the characters handed to the device are those that the callers passed in, in the order of their turns |
| `Console.OutputIsAsked` | ece344/os161/kern/dev/lamebus/lser.c:55-127 | from the start, what the device has put out, with the one it is working on, is exactly what the callers asked for: nothing lost, repeated, altered or out of order |
| `Pseudorand.Schrage` | ece344/os161/kern/dev/generic/pseudorand.c:21-39 | Schrage's decomposition: every intermediate fits 32 bits and the result is the product up to one modulus |
| `Pseudorand.InverseUndoes` | ece344/os161/kern/dev/generic/pseudorand.c:21-39 | multiplying by 1407677000 undoes a step |
| `Pseudorand.StaysSeed` | ece344/os161/kern/dev/generic/pseudorand.c:21-39 | seeds in 1..2^31-2 lead to seeds in 1..2^31-2 |
| `Pseudorand.OneToOne` | ece344/os161/kern/dev/generic/pseudorand.c:21-39 | different seeds lead to different seeds |
| `Pseudorand.Onto` | ece344/os161/kern/dev/generic/pseudorand.c:21-39 | every seed is the successor of one |
| `Pseudorand.Generator.Random` | ece344/os161/kern/dev/generic/pseudorand.c:21-39 | the new seed is exactly 16807*seed mod 2^31-1 and the value returned is one less |
| `Random.ShiftsAreRecurrence` | ece344/os161/lib/libc/random.c:415-442 | n calls produce exactly x[k] = x[k-deg] + x[k-sep] mod 2^32 |
| `Random.Generator.Draws` | ece344/os161/lib/libc/random.c:415-442 | n calls from any additive state return exactly the recurrence's next n values without their lowest bits |
| `Random.OutputsAt` | ece344/os161/lib/libc/random.c:429-441 | value number i of them is x[deg+i] shifted right by one, in 31 bits |
| `Random.StepIsShift` | ece344/os161/lib/libc/random.c:415-442 | adding the rear word into the front word and advancing both pointers is one shift of the window, and the pointers stay sep apart |
| `Random.NotBothWrap` | ece344/os161/lib/libc/random.c:431-439 | the pointers never both wrap in one call, so the else in the code loses nothing |
| `Random.TurnsBack` | ece344/os161/lib/libc/random.c:232-247 | whole laps bring a pointer back to its start |
| `Random.Generator.Additive` | ece344/os161/lib/libc/random.c:415-442 | one call is one shift; the output is the new word without its lowest bit, in 31 bits |
| `Random.Generator.MovePointers` | ece344/os161/lib/libc/random.c:431-439 | both pointers advance cyclically though only one wrap is tested |
| `Random.Generator.Next31` | ece344/os161/lib/libc/random.c:415-442 | both branches of random_unlocked, the congruential one of type 0 and the additive one |
| `Random.Generator.FillTable` | ece344/os161/lib/libc/random.c:239-241 | the table is filled with the congruential sequence from the seed |
| `Random.Generator.Srandom` | ece344/os161/lib/libc/random.c:232-247 | the stream afterwards is that of the seeded table after ten laps, and the pointers are back at their start |
| `Random.Generator.InitState` | ece344/os161/lib/libc/random.c:281-332 | chooses the type by the array size, seeds it, saves the old table so that it can be resumed; fails exactly below 8 bytes; what follows is `Random.Generator.InitAndDraw` |
| `Random.Generator.InitAndDraw` | ece344/os161/lib/libc/random.c:122-332 | initstate with n bytes and m calls of random, in plain numbers: NULL below 8; the congruential stream below 32; from there x[k] = x[k-7]+x[k-3], x[k-15]+x[k-1], x[k-31]+x[k-3], x[k-63]+x[k-1] mod 2^32 for the next thresholds 64, 128, 256, over a table filled with y[i] = 1103515245*y[i-1]+12345 from the seed, with ten laps thrown away |
| `Random.SeededStreams` | ece344/os161/lib/libc/random.c:232-247 | m outputs after seeding are words 11*deg on of one stream that starts with the seeded words from the front pointer and obeys the recurrence: the ten discarded laps and the calls are the same sequence |
| `Random.Generator.DrawsLinear` | ece344/os161/lib/libc/random.c:415-427 | m calls of type 0 are the congruential sequence of the one word in 31 bits |
| `Random.Generator.SetState` | ece344/os161/lib/libc/random.c:353-394 | a header with no valid type is refused and the stream goes on; otherwise the new table, the active one included, resumes where its header says, and the table left is saved with its position |
| `Random.Generator.SwitchAndBack` | ece344/os161/lib/libc/random.c:353-394 | switching to another table, drawing any number of values, and switching back resumes the identical stream |
| `Random.Generator.SetStateActive` | ece344/os161/lib/libc/random.c:344-394 | on the active table setstate goes on from the saved position; it stays in place exactly when that is the current one, and then the stream is unchanged |
| `Random.Generator.DrawThenSetState` | ece344/os161/lib/libc/random.c:344-394 | one call of random and setstate on the same table put the newest value in the place of the oldest |
| `Random.RewoundIff` | ece344/os161/lib/libc/random.c:344-394 | the stream is then the right one exactly when all other values equal the newest |
| `Random.DefaultDisturbed` | ece344/os161/lib/libc/random.c:170-215 | with the initial table it is not |
| `Numerals.DigitsValue` | ece344/os161/lib/libc/__printf.c:404-424 | the digits printed are worth the number, in every base |
| `Numerals.NoLeadingZero` | ece344/os161/lib/libc/__printf.c:404-424 | only zero is printed with a leading zero, so the digits are the usual notation |
| `Printf.BufferSuffices` | ece344/os161/lib/libc/__printf.c:54-54 | no 32-bit number in base 8, 10 or 16 needs more digits than the buffer has room for |
| `Printf.Convert` | ece344/os161/lib/libc/__printf.c:383-432 | the right-to-left loop yields exactly the notation of the number and never underruns its buffer |
| `Printf.Snp.Send` | ece344/os161/lib/libc/snprintf.c:46-64 | characters are stored while there is room; the buffer is exactly the prefix sent over what it held |
| `Printf.Printer.Fill` | ece344/os161/lib/libc/__printf.c:315-322 | prints exactly spc fill characters |
| `Printf.Printer.PrintStuff` | ece344/os161/lib/libc/__printf.c:332-369 | padding left, between prefix and text, or right, as the flags say |
| `Printf.Printer.PrintNum` | ece344/os161/lib/libc/__printf.c:215-456 | fetches, converts and prints one integer; base, sign and prefix of each conversion are stated by the laws of `Formats` |
| `Printf.Printer.Feed` | ece344/os161/lib/libc/__printf.c:463-528 | one format character: state, text sent and arguments left are those of the step function |
| `Printf.Printer.Run` | ece344/os161/lib/libc/__printf.c:548-550 | the text sent for a whole format is exactly the output function's |
| `Printf.Vprintf` | ece344/os161/lib/libc/__printf.c:536-553 | the count returned is the length of the full output |
| `Printf.Vsnprintf` | ece344/os161/lib/libc/snprintf.c:70-112 | stores exactly the first len-1 characters of the full output and a NUL, touches nothing else (nothing at all for len 0), and returns the full length |
| `Formats.Hexadecimal` | ece344/os161/lib/libc/__printf.c:213-456 | %x under any modifiers: the 32 bits in base 16, lower case, no leading zero, with 0x exactly under #, in its field; one argument used |
| `Formats.Pointer` | ece344/os161/lib/libc/__printf.c:213-456 | %p: the same, always with 0x |
| `Formats.Octal` | ece344/os161/lib/libc/__printf.c:213-456 | %o: base 8, with 0 in front exactly under # |
| `Formats.Unsigned` | ece344/os161/lib/libc/__printf.c:213-456 | %u: base 10, without sign or prefix |
| `Formats.SignedDecimal` | ece344/os161/lib/libc/__printf.c:213-456 | %d: base 10, the magnitude of the 32 bits as a signed number, with - exactly for negative ones |
| `Formats.Strings` | ece344/os161/lib/libc/__printf.c:500-509 | %s: the argument itself, or (null), padded on the side the flags name; one argument used |
| `Formats.Characters` | ece344/os161/lib/libc/__printf.c:510-527 | %c: the low byte as a character, nothing for a zero byte, in its field; one argument used |
| `Formats.Literal` | ece344/os161/lib/libc/__printf.c:510-527 | %% and characters that are no conversion: the character in its field; no argument used |
| `Formats.Ordinary` | ece344/os161/lib/libc/__printf.c:468-475 | a character outside a field is printed as it is |
| `Formats.Unfinished` | ece344/os161/lib/libc/__printf.c:463-553 | a format that ends inside a field prints nothing for it |
| `Atoi.SkipSpace` | ece344/os161/lib/libc/atoi.c:28-30 | leading blanks and tabs are skipped and nothing else |
| `Atoi.ReadDigits` | ece344/os161/lib/libc/atoi.c:42-63 | the leading digits' value, modulo 2^32 |
| `Atoi.SignsRead` | ece344/os161/lib/libc/atoi.c:27-63 | blanks, then + or - or neither, then digits, then anything else: + changes nothing, - negates, and the rest is left alone |
| `Atoi.Atoi` | ece344/os161/lib/libc/atoi.c:21-72 | wrapping at every digit comes to wrapping the written integer once to 32 bits, for every string |
| `Atoi.ReadNumberText` | ece344/os161/lib/libc/__printf.c:332-456 | atoi's reading of any %d field is the number, times a power of ten exactly when zeros are padded on the right |
| `Atoi.RoundTripIff` | ece344/os161/lib/libc/__printf.c:332-456 | atoi(%d of n) is n if and only if the field does not pad zeros on the right, or needs no padding, or n is 0 |
| `Atoi.FieldRead` | ece344/os161/lib/libc/__printf.c:151-206 | width, alignment, fill and alternate flag can be read off any run of modifier characters, whatever their order |
| `Atoi.FormatThenParse` | ece344/os161/lib/libc/__printf.c:463-528 | for every string of modifier characters and every 32-bit n: parsing the output of %...d gives n back exactly unless - and a leading 0 widen a nonzero number |
| `Atoi.ZerosOnRightExample` | ece344/os161/lib/libc/__printf.c:365-368 | 1 under %-02d does not read back as 1 |

## Left out

- Malloc.Heap.Malloc: requests above 0x7ffffff0 bytes are excluded, because sbrk would be handed a negative change; `Malloc.RequestIsPositiveInt` gives the exact sizes.
- Malloc.Heap.Allocate: the same requests are excluded.
- Malloc.Heap.Free: double frees and pointers into the middle of a payload are excluded; the code does not detect all of them.
- malloc memory is modelled in cells of eight bytes, the unit of the heap, and the unused `mh_pad` bit and the printed messages are not modelled.
- KHeap.Subpages.SubpageKfree: double frees are excluded; the source says it does not check for them.
- KHeap.Subpages.SubpageKmalloc: sizes above the largest class, which `kmalloc` sends to whole pages, are excluded; whole-page allocation and the statistics dump are not modelled.
- kheap page references are parallel sequences, one per field, and a word of the bitmap is a row of 32 bits, so a mask is the index of its bit.
- The maze walls are a map from cells to standing walls; listeners, sockets, serialization and the display are not modelled, and the tick loop only as its two halves, one move at a time and the sweep.
- Maze building and play are two classes, joined by `MazeGame.BuiltIsPlayable`.
- Threads: preallocation is taken to succeed; `thread_join`, process ids, panic and shutdown are not modelled, nor is the interrupt level that `cv_signal` fails to restore on an empty queue.
- Threads.ThreadSystem.SwitchTo: dispatching is a step of its own, so the machine allows more interleavings than the kernel has.
- `kern/lib/array.c` is a sequence here; its growth policy would only add easy members.
- RingQueue.Queue.Grow: the doubled size is unbounded; the source asserts that it does not overflow.
- Disk: a failed command may leave anything on the sector; device registers other than those of the protocol are not modelled.
- CatMouse and Stoplight: safety only. Progress is not claimed, and the lock order of the intersection is cyclic. Condition variable waits may wake at any time. The first message of a car, printed before it takes its approach lock, is not modelled.
- Console: the delay buffer used before the console is attached, and the input side, are not modelled.
- Random.Generator.SetState: a header with a valid type but a position outside the table is excluded; the source would set its pointers outside the table. `long` has 32 bits.
- Printf.Vsnprintf: the field width and the character count are unbounded, where the source has an int; `l` and `q` change nothing because int and long both have 32 bits; missing arguments read as zero or null.
- printf's output callback is always that of `vsnprintf`.
- Paging and swap, fork/wait/exit, the file system layers, ELF loading, bus configuration, menus, utilities and test programs are not modelled.
