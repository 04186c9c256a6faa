# Pintos kernel: a Dafny model

This project models the parts of the Pintos kernel where a protocol, an allocator,
an index or bounded arithmetic has to agree with something simple, and proves that it
does.  `dafny verify dfyconfig.toml` checks all of it.

**Threads and synchronization.**  `Machine` is the thread system as a step machine.  A
step is one region the kernel executes with interrupts off, or one access to shared
state made while they are on, and a thread's program counter says which step inside a
primitive comes next, so every interleaving the kernel allows is a run of the machine.
`Placement` keeps every thread on the one list its state says (the `elem` field of
`struct thread` is shared by all lists).  `Monitors` is the same protocol seen only
through locks, condition variables and waiters; `Simulation` shows that each step of
the machine is a move of that smaller machine or leaves it alone; `Reachable` puts both
together for every run.  `Wakeups`, `Alarms`, `Fairness` and `Idling` add the
semaphore, alarm-clock, round-robin and idle-thread invariants, and `Theorems` states
the results for all runs from the state that `thread_init` leaves.

`Queues` and `KernelCode` are the imperative code under the machine: the ready list, the
sleep list, the destruction list and the wait lists are linked lists that share one
`elem` per thread.  Each method is proved to do what the machine's function says and to
leave every list linked and no two lists with a node in common.  What it needs for that,
that a thread is on no list when it is put on one, is what the one-list invariant gives;
`Queues.Lists.PushTwice` says what a second list does to the first.

**Lists.**  `KernelList` is the intrusive doubly linked list with its two sentinels and
real pointer surgery; `Runs` is the theory of its natural merge sort.

**Memory.**  `Bitmaps` packs booleans into words, `Palloc` hands out page runs from two
pools, `Malloc` cuts pages into blocks, `Mmu` is the four-level page table: the kernel's
and those of the processes, which share what is below slot 1 of the top level.

**File system.**  `Sectors` is sector-wise transfer through a bounce buffer and
`Directory` the table of 20-byte entries.  `Ownership` says who owns which sectors and
what the counts of open inodes mean.  `Files` runs format, create, open, reopen, write,
remove, close and the deny-write calls on one disk with its free map, its root directory
and its list of open inodes, and keeps all of that together: the extents of live inodes
are disjoint and marked, the root directory's bytes are the names, and no operation on
one file changes a byte of another.

**Libraries.**  `HashTable`, `Arithmetic`, `Stdlib` (heapsort, binary search) and
`Stdio` (parsing a conversion, integer formatting, `atoi`, `vsnprintf`).  `Bits` and `Wrappers` are shared.

## What the proofs assume

- Every timer tick and every alarm is below the value that `thread_wakeup` reads through
  the tail of an empty sleep list (threads/thread.c:126); by the layout of
  `struct thread` that is a kernel address.  `Alarms.RunsOffExactly` says what happens
  otherwise.
- `thread_yield`, called or forced by the timer, finds the page allocator's lock free
  when there is a dead thread to free (threads/thread.c:592-598 calls
  `palloc_free_page`, which takes it).  `Theorems.YieldKeepsExactly` shows that this is
  exactly what the one-list invariant needs, and `BusyPool.BusyYieldHappens` is an
  execution that reaches the other case.  `thread_exit` needs no such hypothesis
  (`Theorems.ExitKeeps`).  A thread that holds the lock itself while a dead thread waits
  to be freed must neither yield nor exit: an assertion (threads/synch.c:189) stops the
  kernel, and the machine has no next state there.
- A condition variable is used with one lock, callers hold it, and no thread acquires a
  lock it holds: the source's own assertions and documentation.
- The disk is an array of 512-byte sectors with atomic reads and writes, of fewer than
  2^32 sectors; the sectors of inodes are kept decoded.  In `Files` the reads and writes
  of directory entries get their bounce buffer and every other allocation may fail;
  `Directory.Lookup` and `Directory.Add` say what happens when those fail too.

## Where code and documentation differ

The model follows the code.

- threads/malloc.c says that blocks come in sizes up to 2 kB; the largest descriptor
  that `malloc_init` makes is 1 kB.
- `malloc` computes the page count of a big request in 64 bits without a test for
  overflow: `Malloc.PagesForExactly` gives the requests that get too few pages, and
  `Malloc.NoPagesOverlap` what a request that gets none is given.
- `bitmap_scan_and_flip` is documented to return 0 when CNT is zero; it returns START
  (`Bitmaps.Bitmap.ScanAndFlip`).
- `list_splice` may be told to put a block before one of its own elements.  It keeps every
  element if and only if the target is outside the block; otherwise the list is cut off
  from its tail or loses the block (`KernelList.List.Splice`).
- `pml4_destroy` is documented to free all pages the table references; it frees the
  table pages only.  It also takes every address at or above 2^39 for the kernel's, while
  `is_user_vaddr` takes addresses below 0x8004000000 for the user's.  `pml4_set_page`
  leaves the other tables as they are if and only if the page is below 2^39 or had that
  entry already (`Mmu.OwnTableExactly`); `Mmu.MappedInBoth` maps 0x8000000000 for one
  process and has it mapped for another.
- `dir_add` takes a short read for the end of the directory, and its comment says that
  there is no other cause.  A bounce buffer that cannot be allocated is one: then it may
  overwrite an entry, and add a name that is there already.  `Directory.Add` says exactly
  when the names stay different, and `Directory.AddedTwice` is a call after which they
  are not.
- Clearing a dirty or accessed bit masks with a 32-bit word: `Mmu.FlaggingKeeps` says
  when the translation survives.
- A failed `filesys_create` does not always leave the free map as it was.  It changes it
  if and only if the root directory opened, sectors for the header and the data were
  found and taken, the file is not empty, and the directory refuses the name: it has no
  bytes or more than 14, is in use, or there are 16 names already.  Then the data sectors
  stay marked and nobody owns them: `Files.FileSystem.CreateFile`, and
  `Files.LoseSector` is a run that does it.
- A precision above 63 is not honoured (`Stdio.Render`), and a negative width next to the
  0 flag, with no - flag and no precision, pads on both sides (`Stdio.FieldWidth`,
  `Stdio.BothSides`).
- `vsnprintf` keeps the size of the buffer in an int: `Stdio.StoredExactly` says when the
  prefix that fits is stored.
- Half of `inode_write_at`'s choice between reading the sector first and zeroing the
  bounce buffer is never taken: a piece that starts a sector and is not a whole sector
  always leaves bytes after it (`Sectors.WriteChunk`).

## Model

| member | source | states |
|---|---|---|
| `Theorems.RunsKeepOneList` | threads/thread.c:283-309 | In every reachable state exactly one thread runs, no thread is on two lists or twice on one, a thread is on none only if it runs, is the idle thread, was just created, or is the dead initial thread, and the list a thread is on is the one its status names: ready, blocked (a wait list or the sleep list) or dying |
| `Theorems.YieldKeepsExactly` | threads/thread.c:361-372 | A yield that does not stop the kernel keeps the one-list invariant if and only if do_schedule need not wait for the page allocator's lock |
| `Theorems.ExitKeeps` | threads/thread.c:344-356 | Exiting keeps the one-list invariant in every case; a thread that waits for the page allocator's lock inside thread_exit is on that lock's list and no other |
| `BusyPool.BusyYieldHappens` | threads/thread.c:592-602 | An execution from thread_init in which one thread takes the page allocator's lock and is preempted, a second exits and a third yields: the third is then on the ready list and on the lock's wait list |
| `Theorems.RunsKeepMutualExclusion` | threads/synch.c:186-227 | Over every interleaving at most one thread is between its down and its up on a lock, and the lock's semaphore is 0 while one is and 1 while none is |
| `Theorems.RunsKeepSemaphores` | threads/synch.c:61-117 | Over every run value + completed downs = initial + ups, and while threads wait the value is at most the number of threads woken and still to retest it (no lost wakeup, with barging and try_down) |
| `Theorems.RunsKeepSignals` | threads/synch.c:276-323 | Waiters are signalled in the order they came and at most once, and every cond_wait that returned was signalled, with one up and one down of its own semaphore |
| `Theorems.WaitReturnsHolding` | threads/synch.c:276-289 | A cond_wait returns to the thread that called it, which holds the lock |
| `Theorems.ReturnsOnlyAt` | threads/synch.c:284-289 | The write of the lock's holder is the only step that ends a cond_wait |
| `Theorems.RunsKeepAlarms` | threads/thread.c:89-140 | In every reachable state the sleepers are in alarm order, latest first among equals, nobody has been woken early, and the next tick makes ready exactly those whose alarm it reaches |
| `Theorems.RunsAreFair` | threads/thread.c:202-218 | From every reachable state the thread at index k of the ready list is picked after exactly k others, within 4 (k + 1) ticks |
| `Idling.RunsIdleLast` | threads/thread.c:483-488 | Over every run the idle thread is picked only when no thread is ready |
| `Reachable.StepGood` | threads/thread.c:592-640 | Every allowed step, of any primitive or interrupt, keeps the list-placement and the monitor invariants together |
| `Reachable.RunGood` | threads/thread.c:156-181 | So does every run |
| `Monitors.MutualExclusion` | threads/synch.c:186-227 | In the lock protocol alone, two threads inside the same lock are the same thread |
| `Wakeups.StepLost` | threads/synch.c:61-117 | Every step keeps the bound of a semaphore's value by the threads woken for it |
| `Alarms.WakeDueExactly` | threads/thread.c:115-131 | thread_wakeup makes ready exactly the due sleepers in alarm order and stops before it runs off the list |
| `Alarms.CountWakes` | devices/timer.c:136-141 | A tick wakes exactly the sleepers with alarm at most the new tick count and leaves the cached wake-up tick in the future |
| `Alarms.RunsOffExactly` | threads/thread.c:120-127 | The loop ends with the cached tick due if and only if everybody is due and the tick has reached the value read through the tail |
| `Alarms.DueExactly` | threads/thread.c:89-93 | In a list ordered by the comparator the due sleepers are a prefix |
| `Alarms.DozeAlarms` | threads/thread.c:99-111 | thread_sleep keeps the alarm order and the cached earliest tick |
| `Alarms.StepAlarms` | threads/thread.c:115-140 | Every step keeps the alarm invariant |
| `Fairness.StepFair` | threads/thread.c:605-616 | Every step leaves the ready list a queue: it loses only its front, to the thread that runs next, and grows only at its back |
| `Fairness.StepSlice` | threads/thread.c:202-218 | A running thread has always used fewer than 4 ticks of its slice |
| `Fairness.QueueOrder` | threads/thread.c:483-488 | Over a run a ready thread moves up by one for each pick until it is picked |
| `Fairness.BoundedWaiting` | threads/interrupt.c:332-375 | A ready thread at index k runs before 4 (k + 1) ticks are over |
| `KernelCode.Kernel.constructor` | threads/thread.c:156-181 | thread_init links the lists and establishes the initial state of the machine |
| `KernelCode.Kernel.RunnerFree` | threads/thread.c:361-372 | The one-list invariant has the running thread on no list, so that its elem may be linked |
| `KernelCode.Kernel.PlacedApart` | threads/thread.c:299-309 | and no thread on two lists, so that whoever is taken off one may be linked into another |
| `KernelCode.Kernel.Push` | lib/kernel/list.c:202-204 | Linking the elem of a thread on no list at the back of one: every list stays linked both ways, no two share a node, and this list gains the thread |
| `KernelCode.Kernel.Pop` | lib/kernel/list.c:251-255 | Unlinking the front: every list stays linked, and the thread is then on none |
| `KernelCode.Kernel.SwitchThread` | threads/thread.c:483-488 | next_thread_to_run takes the front of the ready list, or the idle thread if there is none, and leaves every list linked |
| `KernelCode.Kernel.SemaUp` | threads/synch.c:106-117 | The elem of the front waiter goes from the wait list to the ready list; every list stays linked and no two share a node |
| `KernelCode.Kernel.BlockOn` | threads/synch.c:61-74 | The body of sema_down's loop links the running thread into the wait list and blocks it: lists linked, one-list invariant kept |
| `KernelCode.Kernel.FreeVictims` | threads/thread.c:592-602 | do_schedule's loop takes every doomed thread off its list and frees its page, which may wake waiters of the page allocator; lists stay linked |
| `KernelCode.Kernel.ThreadYield` | threads/thread.c:361-372 | Equals the machine's yield, lists linked and one-list invariant kept, unless it must wait for the page allocator's lock; then the idle thread goes on the lock's list, and any other thread's elem is linked into two lists and no chain of links leads from the ready list's head to its tail |
| `KernelCode.Kernel.ThreadExit` | threads/thread.c:344-356 | Equals the machine's exit, with or without a wait for the page allocator's lock; lists linked, one-list invariant kept |
| `KernelCode.Kernel.Reap` | threads/thread.c:592-602 | So does the rest of thread_exit after such a wait |
| `KernelCode.Kernel.ThreadSleep` | threads/thread.c:99-111 | The elem goes where list_insert_ordered's scan stops, which is where the machine says; lists linked, one-list invariant kept |
| `KernelCode.Kernel.ThreadWakeup` | threads/thread.c:115-131 | The loop equals the machine's wakeup, never runs off an empty list, and keeps lists linked and the one-list invariant |
| `KernelCode.Kernel.TimerInterrupt` | threads/interrupt.c:332-375 | A timer interrupt with the yield on return equals the machine's tick, lists linked and one-list invariant kept, unless the yield must wait for the page allocator's lock; then as for the yield |
| `KernelCode.Kernel.Conceive` | threads/thread.c:243-256 | A new thread's elem is on no list and every list stays linked |
| `KernelCode.Kernel.Hatch` | threads/thread.c:270-271 | thread_create's unblock links it into the ready list |
| `Queues.Lists.Insert` | lib/kernel/list.c:157-165 | With the elem of a thread on no list before a node of one list, every list is linked both ways and no two share a node |
| `Queues.Lists.InsertOrdered` | lib/kernel/list.c:419-431 | The same before the first thread that the new one comes before, and no earlier |
| `Queues.Lists.PopFront` | lib/kernel/list.c:251-255 | The front leaves its list; every list stays linked |
| `Queues.Lists.Adopt` | threads/thread.c:464-476 | A new elem is none of the lists' nodes |
| `Queues.Lists.Forget` | threads/thread.c:592-602 | The elem of a thread on no list can go |
| `Queues.Lists.PushTwice` | lib/kernel/list.c:202-204 | Linking the elem of a thread that is on another list leaves that list without any chain of links from its head to its tail |
| `Queues.WiredInsert` | lib/kernel/list.c:157-165 | A thread on no list has its elem in no list's chain, so the chains stay disjoint when one gains it |
| `KernelList.List.constructor` | lib/kernel/list.c:58-64 | An empty well-linked list |
| `KernelList.List.Insert` | lib/kernel/list.c:157-165 | The chain with the element before the given one, links intact both ways |
| `KernelList.List.PushFront` | lib/kernel/list.c:195-197 | Adds at the front |
| `KernelList.List.PushBack` | lib/kernel/list.c:202-204 | Adds at the back |
| `KernelList.List.Remove` | lib/kernel/list.c:241-246 | The chain without the element; returns its successor |
| `KernelList.List.PopFront` | lib/kernel/list.c:251-255 | Removes and returns the front |
| `KernelList.List.Splice` | lib/kernel/list.c:171-190 | For every target: some chain of links from head to tail has all the elements if and only if the target is outside the block, and then the list is the rearranged chain; before the block's first element none leads to the tail; further in, the list is linked without the block, which is left in two rings that no chain from the head reaches |
| `KernelList.List.SpliceFrom` | lib/kernel/list.c:171-190 | Moves a block from one list to another; both stay linked |
| `KernelList.RelinkedOutside` | lib/kernel/list.c:181-189 | The six assignments leave the rearranged chain linked both ways |
| `KernelList.SplicedPermutes` | lib/kernel/list.c:171-190 | A block move keeps the elements |
| `KernelList.List.FindEndOfRun` | lib/kernel/list.c:339-350 | The end of the maximal nondecreasing run |
| `KernelList.List.InplaceMerge` | lib/kernel/list.c:358-375 | Two adjacent runs become their merge in place |
| `KernelList.List.MergePass` | lib/kernel/list.c:381-413 | One pass merges the runs pairwise and returns the number of runs it put out |
| `KernelList.List.Sort` | lib/kernel/list.c:381-413 | For every list and strict weak order: terminates with a sorted, stable permutation and intact links |
| `KernelList.List.InsertOrdered` | lib/kernel/list.c:419-431 | Inserts before the first element the new one is less than |
| `KernelList.List.Reverse` | lib/kernel/list.c:310-319 | The contents back to front, links intact |
| `KernelList.ReversedTwice` | lib/kernel/list.c:310-319 | Reversing twice changes nothing |
| `KernelList.InsertionSorted` | lib/kernel/list.c:419-431 | Ordered insertion keeps a list sorted and puts the element behind its equals |
| `Runs.MergeSorted` | lib/kernel/list.c:358-375 | Merging sorted runs gives a sorted run |
| `Runs.MergeClass` | lib/kernel/list.c:358-375 | Merging keeps equivalent elements in order, the first run's ahead |
| `Runs.PassCountHalves` | lib/kernel/list.c:381-413 | A pass halves the number of runs, rounding up |
| `Runs.PassStable` | lib/kernel/list.c:381-413 | A pass is a stable rearrangement |
| `Runs.LastPassSorts` | lib/kernel/list.c:381-413 | A pass that puts out at most one run leaves the list sorted |
| `Runs.StableSortUnique` | lib/kernel/list.c:377-413 | A sorted stable rearrangement is unique, so the sort's contract fixes its result |
| `Bitmaps.Bitmap.constructor` | lib/kernel/bitmap.c:73-85 | All bits clear |
| `Bitmaps.Bitmap.Mark` | lib/kernel/bitmap.c:143-151 | Or with the mask sets one bit and no other |
| `Bitmaps.Bitmap.Reset` | lib/kernel/bitmap.c:155-163 | And with the complement clears one bit and no other |
| `Bitmaps.Bitmap.Flip` | lib/kernel/bitmap.c:169-177 | Exclusive or toggles one bit and no other |
| `Bitmaps.Bitmap.Test` | lib/kernel/bitmap.c:181-185 | The bit |
| `Bitmaps.Bitmap.SetMultiple` | lib/kernel/bitmap.c:199-208 | A range set, the rest unchanged |
| `Bitmaps.Bitmap.Contains` | lib/kernel/bitmap.c:230-241 | Whether some bit of the range has the value |
| `Bitmaps.Bitmap.Scan` | lib/kernel/bitmap.c:271-283 | The least index of a run of CNT, or none if and only if there is none |
| `Bitmaps.Bitmap.ScanAndFlip` | lib/kernel/bitmap.c:293-298 | The least run, flipped; nothing changed if there is none; the start if the run is empty |
| `Bitmaps.Bitmap.WriteFile` | lib/kernel/bitmap.c:325-328 | The file holds the image of the words if and only if there is memory for a bounce buffer or the map fills its sectors; only the file's extent changes |
| `Bitmaps.Bitmap.ReadFile` | lib/kernel/bitmap.c:312-320 | Reading the image of any packed bits restores every bit |
| `Bitmaps.Masked` | lib/kernel/bitmap.c:34-44 | What the three mask operations do to each bit of a word |
| `Bitmaps.ImageWord` | lib/kernel/bitmap.c:312-328 | Words survive the trip through bytes |
| `Bitmaps.LastMasked` | lib/kernel/bitmap.c:61-64 | Masking the last word changes no bit that is used |
| `Palloc.Pages.Get` | threads/palloc.c:262-284 | Pages from the right pool, disjoint from every outstanding allocation; none if and only if the pool has no such run; a request for no pages gets the pool's first page and marks nothing |
| `Palloc.Pages.Free` | threads/palloc.c:300-324 | Exactly that allocation goes; the others stay |
| `Palloc.GetKeeps` | threads/palloc.c:262-284 | Marking a free run overlaps no allocation of either pool |
| `Palloc.FreeKeeps` | threads/palloc.c:300-324 | Freeing one allocation leaves all others marked |
| `Palloc.PoolOf` | threads/palloc.c:354-359 | page_from_pool finds the pool an allocation came from |
| `Malloc.MakeDescs` | threads/malloc.c:69-80 | Seven descriptors of 16 to 1024 bytes whose blocks fit in a page |
| `Malloc.BlockInPage` | threads/malloc.c:244-268 | block_to_arena undoes arena_to_block, and a block lies inside its page behind the header |
| `Malloc.BlocksApart` | threads/malloc.c:261-268 | Different blocks of an arena do not overlap |
| `Malloc.TakeFree` | threads/malloc.c:138-144 | Handing out the front of a free list keeps every arena's count equal to its free blocks |
| `Malloc.GiveBack` | threads/malloc.c:202-240 | Putting a block back keeps the heap invariant but for an arena with all blocks free |
| `Malloc.NewArena` | threads/malloc.c:117-136 | A new arena puts all its blocks on the free list and disturbs no other |
| `Malloc.DropArena` | threads/malloc.c:222-231 | Taking a wholly free arena apart disturbs no other |
| `Malloc.NewBig` | threads/malloc.c:99-113 | A big block of whole pages disturbs nothing |
| `Malloc.DropBig` | threads/malloc.c:234-238 | Freeing it leaves no block in its pages |
| `Malloc.KnownInside` | threads/malloc.c:244-268 | Every block, handed out or free, lies inside its arena |
| `Malloc.KnownApart` | threads/malloc.c:261-268 | No two blocks, handed out or free, overlap |
| `Malloc.PagesForExactly` | threads/malloc.c:102-103 | A big request gets enough pages if and only if size + 24 + 4095 < 2^64, and none at all in an exact window above that |
| `Malloc.PagesForTooFew` | threads/malloc.c:102-103 | A request of 2^64 - 8 bytes gets one page |
| `Malloc.BigKeepsExactly` | threads/malloc.c:99-113 | A big request keeps the heap invariant if and only if it gets at least one page |
| `Malloc.NoPagesOverlap` | threads/malloc.c:99-113 | A request that gets no page is given bytes that run over every block handed out in that page |
| `Malloc.Heap.constructor` | threads/malloc.c:69-80 | An empty heap in order |
| `Malloc.Heap.FindDesc` | threads/malloc.c:94-98 | The smallest descriptor that satisfies the request; none if and only if it is above 1024 bytes |
| `Malloc.Heap.MallocBig` | threads/malloc.c:99-113 | A fresh big block and a heap in order, or nothing changed; out of order if and only if the request got no page |
| `Malloc.Heap.AddArena` | threads/malloc.c:117-136 | A new arena with all its blocks listed |
| `Malloc.Heap.TakeBlock` | threads/malloc.c:138-144 | A block nobody has is handed out |
| `Malloc.Heap.Malloc` | threads/malloc.c:85-144 | A block not handed out before, of at least the requested size if and only if the size does not overflow, and a heap in order if and only if the request is small or got a page; failure changes nothing |
| `Malloc.Heap.ReleaseArena` | threads/malloc.c:222-231 | The arena's blocks leave the free list and its page goes back |
| `Malloc.Heap.FreeBig` | threads/malloc.c:234-238 | The pages go back and nobody has a block in them |
| `Malloc.Heap.FreeSmall` | threads/malloc.c:208-233 | The arena's page goes back if and only if no other block of it is handed out |
| `Malloc.Heap.Free` | threads/malloc.c:202-240 | Exactly that block comes back, and pages go back exactly when all blocks of their arena are free |
| `Malloc.RemoveBlocks` | threads/malloc.c:226-229 | Exactly the arena's blocks leave the free list |
| `Malloc.PushBlocks` | threads/malloc.c:132-135 | All blocks of the arena, in order |
| `Mmu.SamePage` | include/threads/pte.h:20-29 | Two addresses have the same four indices if and only if bits 12 to 47 agree |
| `Mmu.LeafEntry` | threads/mmu.c:191-221 | Writing a leaf entry changes that entry and no other of any table |
| `Mmu.LeafKeeps` | threads/mmu.c:191-221 | and keeps every table page in its place |
| `Mmu.GrowEntry` | threads/mmu.c:11-85 | Adding a table page changes no entry of any table |
| `Mmu.GrowKeeps` | threads/mmu.c:11-85 | and gives the page the one place it stands for |
| `Mmu.WalkOwner` | threads/mmu.c:62-85 | The walk from any table finds what is below the one top-level entry that owns the address, and nothing where none does |
| `Mmu.Shared` | threads/mmu.c:92-97 | Any two tables have the same entry for an address outside slot 0 |
| `Mmu.OwnTableExactly` | threads/mmu.c:191-202 | Mapping a user page leaves every other table as it is if and only if the page is below 2^39 or had that entry already |
| `Mmu.MappedInBoth` | threads/mmu.c:191-202 | Two new tables without user pages: one call maps 0x8000000000 in both |
| `Mmu.DirectKept` | threads/init.c:145-157 | What the user's operations do leaves the kernel's map of physical memory as it is in every table |
| `Mmu.FlaggingKeeps` | threads/mmu.c:236-273 | Setting or clearing dirty or accessed keeps the address if and only if it sets or the entry is below 4 GiB; the bit reads back |
| `Mmu.MappedIs` | threads/mmu.c:191-202 | The entry written is present and translates to the page |
| `Mmu.PageTables.PgdirWalk` | threads/mmu.c:11-27 | The page table for the address, made if asked; no entry of any table changes |
| `Mmu.PageTables.PdpeWalk` | threads/mmu.c:30-53 | The same one level up |
| `Mmu.PageTables.Pml4eWalk` | threads/mmu.c:62-85 | The same from the root, for every address; none if and only if it is missing and not to be made |
| `Mmu.PageTables.GetPage` | threads/mmu.c:172-180 | The translation, and nothing changed |
| `Mmu.PageTables.SetPage` | threads/mmu.c:191-202 | That page is mapped, in that table alone if it is below 2^39 and in every table if not; every other page of every table keeps its entry; false if and only if there is no table |
| `Mmu.PageTables.ClearPage` | threads/mmu.c:209-221 | Exactly that page is unmapped, in that table or in all |
| `Mmu.PageTables.SetFlag` | threads/mmu.c:236-273 | Exactly that entry changes, in that table or in all |
| `Mmu.PageTables.TestFlag` | threads/mmu.c:228-257 | The flag of the page's entry |
| `Mmu.PageTables.PagingInit` | threads/init.c:139-160 | Every page of physical memory is at its kernel address, read-only where the text is, and no user address is mapped |
| `Mmu.PageTables.Create` | threads/mmu.c:92-97 | A copy of the kernel's table: its entries for every address, none below 2^39; the others unchanged |
| `Mmu.PageTables.PgdirDestroy` | threads/mmu.c:127-134 | Every page at or below the directory, once |
| `Mmu.PageTables.PdpeDestroy` | threads/mmu.c:137-144 | Every page at or below the pointer table, once |
| `Mmu.PageTables.Destroy` | threads/mmu.c:148-158 | The root and every table page of slot 0 are freed exactly once; the other tables, the kernel's included, keep every entry |
| `Mmu.DropTable` | threads/mmu.c:148-158 | What is left without a table's pages is in order |
| `Sectors.ReadAt` | filesys/inode.c:183-226 | Returns the slice [offset, offset + n) with n = max(0, min(size, length - offset)), or without memory, from a sector boundary, its whole sectors, and of a request below a sector nothing; the rest of the buffer is as it was |
| `Sectors.WriteAt` | filesys/inode.c:234-288 | Changes exactly that slice of the file and no other byte of the disk; nothing while writes are denied |
| `Sectors.WriteChunk` | filesys/inode.c:258-278 | One piece of one sector, read-modify-write unless whole; the branch that zeroes the bounce buffer is never taken |
| `Sectors.ZeroFill` | filesys/inode.c:85-91 | A new file reads as zeros, other sectors unchanged |
| `Sectors.WrittenElsewhere` | filesys/inode.c:234-288 | A write to one file leaves every sector outside its extent alone |
| `Sectors.WrittenRead` | filesys/inode.c:183-288 | Reading back what was written gives it |
| `Sectors.WrittenSlice` | filesys/inode.c:183-288 | Around it the file reads as before |
| `Sectors.InExtent` | filesys/inode.c:44-50 | byte_to_sector stays inside the extent |
| `Directory.FilledReads` | filesys/directory.c:127-163 | The bytes of an entry read back as its sector and name |
| `Directory.PutEntry` | filesys/directory.c:127-163 | Writing an entry over a slot keeps the names different if and only if no other slot has the name; then the map loses the slot's name, if it had one, and gains this |
| `Directory.RemoveEntry` | filesys/directory.c:169-199 | Erasing a slot removes one name from the map |
| `Directory.Lookup` | filesys/directory.c:80-98 | A slot with the name if and only if it is listed and it and the slots before it can be read |
| `Directory.Add` | filesys/directory.c:127-163 | Succeeds if and only if the name has 1 to 14 bytes, lookup does not see it, the entry can be written and the scan stops at a slot; the names stay different if and only if no slot but that one had the name; with memory for every read and write it is the promised addition to the map; only the directory's extent changes |
| `Directory.AddedTwice` | filesys/directory.c:139-151 | One read without memory, and a name is there twice |
| `Directory.Erase` | filesys/directory.c:187-190 | Erasing the entry that lookup found removes exactly that name from the map, or nothing without memory; only the directory's extent changes |
| `Directory.RoomExactly` | filesys/directory.c:143-153 | A directory has a free slot if and only if it has fewer names than slots |
| `Directory.ReadDir` | filesys/directory.c:205-216 | The next entry in use; none at the end or where an entry cannot be read |
| `Directory.ReadDirNames` | filesys/directory.c:205-216 | With memory, the names in slot order, one a call |
| `Directory.ListsOnce` | filesys/directory.c:205-216 | No name is listed twice |
| `Directory.ListsAll` | filesys/directory.c:205-216 | A name is listed if and only if it is in the directory |
| `Files.FileSystem.constructor` | filesys/free-map.c:13-19 | free_map_init marks the sectors of the two fixed inodes and no others |
| `Files.FileSystem.Format` | filesys/filesys.c:91-98 | Succeeds if and only if memory allows and the disk has 3 sectors more than the free map's file; then the free map and the root directory are disjoint and marked, nothing else is, the directory is empty, and the map was read back from its file as it was |
| `Files.FileSystem.Allocate` | filesys/free-map.c:26-37 | The first run of free sectors, marked, with the map written back; none, and nothing changed, if and only if there is no such run or it cannot be written back |
| `Files.FileSystem.Release` | filesys/free-map.c:41-45 | Exactly those sectors are unmarked; only the free map's file is written |
| `Files.FileSystem.ReadMap` | filesys/free-map.c:49-55 | Reading the free map from its file gives the map that was written |
| `Files.FileSystem.Find` | filesys/inode.c:108-115 | The scan of open_inodes finds the element for a sector if and only if there is one |
| `Files.FileSystem.OpenInode` | filesys/inode.c:103-138 | The element for the sector is counted once more; only if there is none, and memory, a new one goes to the front; open_inodes keeps one element per sector and the right counts |
| `Files.FileSystem.OpenListSays` | filesys/inode.c:52-54 | Over every run no two elements of open_inodes are for one sector, open_cnt is the number of files on the inode (and free_map_file), deny_write_cnt the number of those that deny writing, and every file's inode is there |
| `Files.FileSystem.CloseInode` | filesys/inode.c:150-169 | Sectors are released if and only if this is the last close of a removed inode, and the data of every other live inode stay |
| `Files.FileSystem.OpenRoot` | filesys/directory.c:47-50 | The root directory opens if and only if it is open or memory allows, and a directory can be allocated; otherwise nothing has changed |
| `Files.FileSystem.FileOpen` | filesys/file.c:17-29 | A new file on the inode, or the inode closed again |
| `Files.FileSystem.OpenFile` | filesys/filesys.c:65-74 | A file if and only if the root opens, the name exists and memory suffices; ownership kept, no data changed |
| `Files.FileSystem.ReopenFile` | filesys/file.c:34-36 | A second file on the same inode |
| `Files.FileSystem.DenyWrite` | filesys/file.c:106-112 | Counted once per file, within the source's assertion |
| `Files.FileSystem.AllowWrite` | filesys/file.c:118-124 | Undoes exactly this file's denial, within the source's assertions |
| `Files.FileSystem.CloseFile` | filesys/file.c:40-46 | The file goes, its denial with it; the sectors are free again if and only if the file has lost its name and no other file is open on it |
| `Files.FileSystem.WriteFile` | filesys/file.c:98-101 | Nothing is written while a file on the inode denies it; otherwise exactly the slice changes, and no byte of any other live inode, of the directory or of the free map |
| `Files.FileSystem.RemoveFile` | filesys/filesys.c:81-87 | Succeeds if and only if the root opens, the name exists and its inode can be opened; then the name goes from the directory, and the sectors are free again at once if and only if no file is open on it |
| `Files.FileSystem.AddName` | filesys/directory.c:127-163 | The root directory takes a name if and only if it has 1 to 14 bytes, is new, and there are fewer than 16; the new file's data, the other files' and the free map's are untouched |
| `Files.FileSystem.TakeInode` | filesys/inode.c:68-97 | The first free sector for the header, the first free run after that for the data, zeroed and owned by nobody; or nothing changed, if and only if one is missing, cannot be written back, or memory fails |
| `Files.FileSystem.CreateFile` | filesys/filesys.c:45-57 | Succeeds if and only if the root opens, header and data sectors can be taken and the directory takes the name; then the name maps to fresh disjoint sectors that read as zeros. A failed call changes the free map if and only if all but the last hold and the file is not empty; those sectors nobody owns. No other file's data change |
| `Files.LoseSector` | filesys/filesys.c:45-57 | Formatting a disk of six sectors and creating a file whose name is too long leaves sector 5 marked and owned by nobody |
| `Ownership.Claim` | filesys/inode.c:68-97 | A new inode in unowned sectors keeps all extents disjoint |
| `Ownership.Unclaim` | filesys/inode.c:150-169 | Releasing one inode's sectors leaves every other's marked |
| `Ownership.LastClose` | filesys/inode.c:150-169 | The last close of a removed inode keeps the ownership rules, and the inode is no longer live |
| `Ownership.FailedCreate` | filesys/filesys.c:51-54 | Giving back only the header keeps the rules and leaves the data sectors without an owner |
| `Ownership.OpenKeeps` | filesys/inode.c:103-138 | Opening keeps every count right |
| `Ownership.CloseKeeps` | filesys/inode.c:150-169 | Closing keeps every count right, and no file loses its inode |
| `Ownership.DenyKeeps` | filesys/inode.c:293-307 | Denying and allowing keep every count right, and the source's assertions hold |
| `HashTable.BucketCount` | lib/kernel/hash.c:337-341 | The largest power of two not above half the elements, at least four |
| `HashTable.Init` | lib/kernel/hash.c:25-39 | An empty table if and only if its buckets can be allocated |
| `HashTable.Hash.Locate` | lib/kernel/hash.c:281-298 | The bucket of the hash and an equal element in it, if the table has one |
| `HashTable.Hash.Find` | lib/kernel/hash.c:123-125 | An equal element if and only if there is one |
| `HashTable.Hash.Insert` | lib/kernel/hash.c:92-102 | Adds if and only if no equal element is there, else returns it; rehash loses nothing |
| `HashTable.Hash.Replace` | lib/kernel/hash.c:107-118 | Exchanges the equal element, if any |
| `HashTable.Hash.Delete` | lib/kernel/hash.c:135-142 | Removes the equal element, if any, and leaves none |
| `HashTable.Hash.Rehash` | lib/kernel/hash.c:322-379 | Contents unchanged whether or not memory is available, and the bucket count in range when it is |
| `HashTable.Hash.MoveAll` | lib/kernel/hash.c:362-376 | Every element moves to the bucket its hash selects |
| `HashTable.Iterator.Next` | lib/kernel/hash.c:203-216 | The next element in bucket order, none exactly at the end |
| `HashTable.VisitAll` | lib/kernel/hash.c:185-216 | Iteration visits every element once |
| `HashTable.OnlyInBucket` | lib/kernel/hash.c:281-284 | An equal element can be in no other bucket |
| `Arithmetic.Nlz` | lib/arithmetic.c:41-67 | The shift that brings a nonzero word's top bit to bit 31 |
| `Arithmetic.Udiv64` | lib/arithmetic.c:72-116 | floor(n / d) for every n and nonzero d, with every divl quotient below 2^32 |
| `Arithmetic.ShortQuotient` | lib/arithmetic.c:73-103 | The schoolbook branch for divisors below 2^32 |
| `Arithmetic.LongQuotient` | lib/arithmetic.c:104-115 | The normalize, estimate and correct branch |
| `Arithmetic.Estimate` | lib/arithmetic.c:110-112 | The shifted estimate is the quotient or one more |
| `Arithmetic.Correction` | lib/arithmetic.c:113 | One comparison corrects it |
| `Arithmetic.Umod64` | lib/arithmetic.c:121-123 | The remainder if and only if it is below 2^32, else its low half |
| `Arithmetic.Sdiv64` | lib/arithmetic.c:128-133 | Truncates toward zero, except that INT64_MIN / -1 wraps |
| `Arithmetic.Smod64` | lib/arithmetic.c:138-140 | The remainder if and only if it fits in 32 bits |
| `Arithmetic.TruncatesOnce` | lib/arithmetic.c:128-133 | Truncated division has one result |
| `Stdlib.Heapify` | lib/stdlib.c:97-123 | The element floats down: a heap with one hole becomes a heap, same elements, the rest untouched |
| `Stdlib.TopIsMax` | lib/stdlib.c:132-152 | The root of a heap is its greatest element |
| `Stdlib.BuildHeap` | lib/stdlib.c:142-144 | Any array becomes a heap of the same elements |
| `Stdlib.Extract` | lib/stdlib.c:146-151 | The greatest element joins the sorted end |
| `Stdlib.Sort` | lib/stdlib.c:132-152 | A sorted permutation for every array and total preorder |
| `Stdlib.BinarySearch` | lib/stdlib.c:185-207 | A match if and only if there is one |
| `Stdio.Accumulate` | lib/stdio.c:469-477 | The digits of any 64-bit value in any base take at most 29 places of the buffer, separators exactly after every group |
| `Stdio.Render` | lib/stdio.c:469-488 | The 64-character buffer is never overrun; precision and the # flag add exactly the zeros they ask for, and a precision is met if and only if it is at most 63 |
| `Stdio.FormatInteger` | lib/stdio.c:437-510 | Blanks, sign, prefix, zeros, digits, blanks as the conversion asks |
| `Stdio.ParseConversion` | lib/stdio.c:320-386 | The flags, width and precision of a conversion, with what they exclude, from text and arguments |
| `Stdio.BothExactly` | lib/stdio.c:351-386 | The - and 0 flags are both left standing if and only if 0 is given, - is not, the width is negative and there is no precision |
| `Stdio.NineDigits` | lib/stdio.c:357-368 | A width of at most nine digits is not negative |
| `Stdio.FieldWidth` | lib/stdio.c:490-510 | For every conversion text and arguments, the field is as wide as asked and no wider than needed if and only if it is not the case that 0 is given, - is not, the width is negative, there is no precision and the text is narrower; nor that the width is the least int and the text empty |
| `Stdio.BothSides` | lib/stdio.c:490-510 | %0*d of 7 with width -3 prints two zeros, 7 and two blanks |
| `Stdio.Atoi` | lib/stdlib.c:10-41 | The number after blanks and sign, accumulated negatively in 32 bits |
| `Stdio.NegatedDigits` | lib/stdlib.c:30-38 | Reading the digits of any value up to 2^31 never leaves the range of an int |
| `Stdio.ReadBack` | lib/stdio.c:437-510 | Reading a decimal conversion without grouping gives back its argument for every int, INT_MIN included, every width, precision and other flag |
| `Stdio.PrintThenRead` | lib/stdio.c:206-207 | atoi undoes the d conversion |
| `Stdio.Vsnprintf` | lib/stdio.c:25-49 | The prefix that an int's worth of the size leaves room for, a null character, nothing else written, and the full length returned |
| `Stdio.StoredExactly` | lib/stdio.c:28-30 | That is the prefix that fits if and only if the size is at most 2^31 or the text no longer than that room |
| `Stdio.StoresNothing` | lib/stdio.c:28-30 | A buffer of 2^31 + 1 characters keeps nothing |

## Left out

- KernelCode.Kernel.ThreadWakeup: for ticks below the value read through the tail of the list, as above.
- KernelCode.Kernel.BlockOn: one round of sema_down's loop; the loop itself spans a context switch and is the machine's `Down` step.
- KernelCode.Kernel.constructor: with the wait lists of the kernel's own two locks; further semaphores would be further lists of the same kind.
- Malloc.Heap.Malloc: descriptor locks and the contents of blocks are not modelled.
- Mmu.PageTables.SetPage: table pages come from a PAL_ASSERT allocation, which does not fail; the translation cache is not modelled.
- Mmu.PageTables.Pml4eWalk: makes table pages below slots 0 and 1 only, where user addresses and physical memory's kernel addresses are.
- Mmu.PageTables.PagingInit: physical memory ends at or below 0x7FFC000000, so that its kernel addresses are in slot 1.
- Mmu.PageTables.Create: after paging_init has mapped a page, as the kernel calls it.
- Palloc.Pages.Get: the pool locks and the filling of pages are not modelled.
- Arithmetic.Divl: the DIVL instruction is a specified primitive.
- Files.FileSystem.Format: mounting a disk that was formatted before is not modelled.
- Stdio.ParseConversion: up to the argument's type; a `*` without an argument, which C leaves undefined, reads 0.
- Stdio.Vsnprintf: the text of the conversions is a parameter, of fewer than 2^31 characters.
- Counters (ticks, sizes, lengths, semaphore values) are unbounded integers except where a width is named.
- list_unique, list_max, list_min, hash_apply, hash_clear, calloc, realloc, file positions, format_string, the argument types of parse_conversion: they would add easy members.
- Priority scheduling and MLFQS: the source has only stubs.
- Context switch, boot, memory map parsing, device drivers, console, timer calibration: assembly, port I/O or real time.
- Interrupt vectors other than the timer's and the semaphore operations a handler may use.
