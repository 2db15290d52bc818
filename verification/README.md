# A verified model of the kernel's core

The repository is a small single-hart RISC-V kernel with cooperative kernel threads: interrupts run between any two steps of a
thread, but another thread runs only when the current one suspends itself. This project models its core in Dafny and proves what
holds of it over all inputs and all runs. `dafny verify dfyconfig.toml` checks everything.

| part | files | what is proved |
|---|---|---|
| threads, conditions, joins, sleep locks | Scheduler, SchedulerInvariant, SchedulerTheorems, Locks, ThreadManager, ThreadLists, KernelThreads | a state machine over threads and interrupts, an invariant of all its runs, and that the imperative operations, on the table of threads and on thread objects linked into lists, take exactly its steps |
| page tables, spaces, frames | Sv39, Walk, Mapping, MapFit, Clone, CloneFit, CloneTheorems, Reclaim, Freeing, Spaces, Memory, Processes, Runs, Stale | the table walk refines a flat map; cloning copies exactly the user pages; cloning and reclaiming conserve frames; over every run of faults, writes, clones and reclaims of any number of spaces each space is sound and isolated and every page of these events is accounted for, as long as pages that become tables hold nothing that looks like a table; exactly what that asks of a page, when it is so, and what happens when it is not |
| heap | Heap | blocks are apart over every run of allocations |
| disk, file system, image builder | Bytes, Vioblk, KfsImage, Kfs, KfsSession, MkfsImage, MkfsTheorems, Mkfs | each layer refines a flat byte sequence, what mkfs packs is what the kernel reads; over any sequence of calls of one thread, up to the first that does not return, the files behave as independent byte sequences; exactly which sequences are answered to the end |
| serial port | Uart, UartDriver | no waiter is stranded and no byte is lost, for every interleaving of the interrupt handler with single loads and stores of a thread |
| terminal | Terminal, TerminalDriver | the buffered scans equal the documented one-character machines |
| alarms | Timer | alarms are kept sorted, woken exactly when due, and scheduled in time |

Common holds the few definitions that several parts share.

In each part a function or a state machine on values says what an operation does, lemmas prove what the source promises about it,
and, where the code works in place, methods with the code's own loops and branches are proved against it.

## Where the code does not do what one would expect

- Nobody clears a page. A page that becomes a page table keeps what it held when it was free, so `walk_pt` is right exactly if the
  pages it takes hold no valid entry (`Walk.WalkExactly`). Mapping a page, a turn of the loop of a clone, and all its turns go well
  exactly if the pages they take fit, which means that all entries are blank but those written over: the entry for a new table need
  only be not valid, the entry of a copy may be anything, and that of a mapped page may have the flags it gets
  (`MapFit.MapExactly`, `CloneFit.TurnExactly`, `CloneTheorems.CloneExactly`). From clean free pages on that is so as long as no space is reclaimed
  (`Stale.CleanUntilExit`). Reclaiming leaves level-0 tables fit for use, and level-1 tables and written frames not
  (`Stale.CleanAfterExit`). In the run "main forks, the child exits, main forks" the second clone takes the dead child's level-1 table
  for its root, finds entry 3 of it valid, and goes on to a page that is free (`Stale.ForkExitFork`; `Stale.ForkAfterExit` for every
  state). The events of runs are those of src/kern/memory.c; the stack page that `suspend_self` frees after an exit is not modelled.
- A thread that exits with a lock takes it along: when it is recycled the lock still records its id, no thread holds it, and no thread
  ever acquires it again (`Locks.HolderRecycled`, `Locks.NeverAcquiredAgain`). Without such a recycling a lock records an id exactly
  if a thread holds it (`Locks.RecordedExactlyIfHeld`).
- `memory_set_page_flags` on an address that is not mapped makes it a valid mapping, of no page of RAM (`Mapping.SetFlagsAnywhere`).
- `fs_open` keeps its lock when it fails, for a name that is not found and for a full table of open files. The lock is not recursive,
  so the next call of a system with one thread never returns: after an open of a missing file not even a file that is there can be
  opened (`KfsSession.MissingFileSticks`). A sequence of calls is answered to the end exactly if all opens before the last call name
  what is found and there are slots for them (`KfsSession.AnsweredExactly`). No slot is ever given back: `fs_close` leaves the entry's
  `io_intf`, by which `fs_open` tells a free slot.
- `fs_open` with an empty name finds the first unused directory entry and opens the first file; on a full directory it fails
  (`KfsSession.OpenEmptyName`).
- A file image reads back correctly for all contents of the given lengths exactly if no earlier file has a length that is a multiple
  of 4096 (or the file is empty): mkfs numbers one block more for such a file than it writes (`MkfsTheorems.RoundTripExactly`).
- `ioterm_write` returns one less than it consumed after swallowing a leading `\n`, so `iowrite` over a terminal sends the last byte
  again exactly if the text is at least two characters long (`TerminalDriver.RepeatsExactlyAfterSwallow`): after `\r` the text `\nab`
  is sent as `ab` and `b` (`TerminalDriver.RepeatsLastByte`).
- Before the first timer interrupt an alarm is late exactly if it is due before the first tick (`Timer.ScheduledInTime`).
- `kmalloc` returns a block that is large enough exactly if the size rounded up to 16 does not wrap (`Heap.KmallocSafe`); the
  largest request gets a block of no bytes (`Heap.HugeRequest`).
- A page fault at `USER_END_VMA` itself maps a page that `memory_space_clone` does not copy; a clone is complete exactly if the parent
  maps nothing from there on (`CloneTheorems.CompleteExactly`, `Mapping.FaultAtEnd`).
- Reclaiming a clone gives back every page except the clone's root table (`CloneTheorems.CloneReclaimConserves`), as the comment on
  `memory_space_reclaim` says. Over all runs pages are lost in two ways only: the root of a space that exits, and the frame of a page
  that is mapped again by a fault (`Runs.EveryRun`).
- `suspend_self` would misplace a thread that an interrupt has already made ready, if it were at the head of the ready list; that
  never happens, because the idle thread or another one is always ahead of it (`SchedulerInvariant.SuspendKeeps`).

## What the model takes for granted

- Threads: a new thread structure is zero-filled; at fork the trap frame belongs to the running thread and the
  thread table has a free slot; a thread releases only a lock it holds.
- Memory: an entry on the way of a walk is a table or empty; user pages are not global and have A and D set, which holds of every page
  the kernel maps; the free list is not empty when a space is reclaimed; memory outside RAM reads as zero, and bits 8, 9 and 54 to 63
  of an entry are 0. A page for a table comes from the page allocator, which is so from the first `kmalloc` of at least a byte on
  (`Heap.OpenBlockStaysSmall`). That pages which become tables are clean is a condition of the theorems on runs; that all free pages
  are clean at boot is the initial condition under which it holds until a space exits.
- Files and disk: one thread, sectors of 512 bytes, an image below 2^31 bytes, positions not past the end, position plus
  length below 2^64, at most 1022 blocks in a file, file names of 1 to 31 bytes without a zero byte. The interface object of an open
  file is identified with its slot. Memory does not run out: every open, read and write takes a page from `kmalloc`
  (src/kern/kfs.c:78, 290, 395) and every sector written another 512 bytes (src/kern/vioblk.c:438), and `kfree` gives nothing back,
  so that a sequence of calls that is long enough ends in a panic.
- Terminal: a raw read returns at least one byte or an error; a raw write may be cut short at any point and fail from there on.
- The clock, the bytes and interrupts of devices and the uninitialised part of an inode are parameters.

## Model

| member | source | states |
|---|---|---|
| SchedulerInvariant.InitInv | src/kern/thread.c:491-511 | main running and idle ready satisfy the invariant |
| SchedulerInvariant.SuspendKeeps | src/kern/thread.c:551-601 | suspend_self finds a READY head of the ready list and keeps lists, states, family tree and locks consistent |
| SchedulerInvariant.EnqueueKeeps | src/kern/thread.c:438-456 | the second half of condition_wait keeps the invariant, with interrupts allowed before it |
| SchedulerInvariant.MarkKeeps | src/kern/thread.c:438-456 | the first half of condition_wait keeps it for every kind of wait |
| SchedulerInvariant.DeviceBroadcastKeeps | src/kern/thread.c:458-486 | a broadcast, also by an interrupt handler at any point, fails no assertion and keeps the invariant |
| SchedulerInvariant.SpawnKeeps | src/kern/thread.c:194-240 | thread_spawn keeps it, and panics exactly when the table is full |
| SchedulerInvariant.NewQueueKeeps | src/kern/thread.c:433-436 | a new condition variable, that nobody waits for, keeps it |
| SchedulerInvariant.ForkKeeps | src/kern/thread.c:286-334 | the table and list part of thread_fork_to_user keeps it, if the table has a free slot |
| SchedulerInvariant.ExitKeeps | src/kern/thread.c:242-255 | thread_exit signals a live parent and keeps it |
| SchedulerInvariant.RecycleKeeps | src/kern/thread.c:533-549 | recycling an exited child keeps it: grandchildren get a live, older parent |
| SchedulerInvariant.JoinKeeps | src/kern/thread.c:389-413 | thread_join keeps it, for every argument |
| SchedulerInvariant.JoinAnyKeeps | src/kern/thread.c:345-385 | thread_join_any keeps it, or panics for a caller without children |
| SchedulerInvariant.JoinAnyWokenKeeps | src/kern/thread.c:372-384 | after its wait thread_join_any finds an exited child |
| SchedulerInvariant.ScanComplete | src/kern/thread.c:354-382 | the scan of the table finds an exited child exactly if there is one among all threads |
| SchedulerInvariant.AcquireKeeps | src/kern/lock.h:51-74 | one turn of lock_acquire keeps the invariant |
| SchedulerInvariant.ReleaseKeeps | src/kern/lock.h:76-87 | lock_release passes its assertion, wakes all waiters and keeps it |
| SchedulerInvariant.HolderUnique | src/kern/lock.h:51-87 | two threads that hold a lock are the same thread |
| SchedulerTheorems.StepSafe | src/kern/thread.c:194-601 | every step from a state that satisfies the invariant keeps it, or is a halt of main, a full table or a childless join |
| SchedulerTheorems.NoAssertFails | src/kern/thread.c:458-601 | in every run no assertion fails and the spurious child_exit panic is not reached |
| SchedulerTheorems.AlwaysApplicable | src/kern/thread.c:551-601 | in every reachable state the current thread can take a step, or it is idle with nothing ready |
| SchedulerTheorems.StatesMatchLists | src/kern/thread.c:438-486 | exactly the current thread is RUNNING; READY and WAITING threads are once in their list and in no other; EXITED threads are in none; idle is ready or running |
| SchedulerTheorems.StepReady | src/kern/thread.c:551-601 | a step removes only the head of the ready list, and only by dispatching it |
| SchedulerTheorems.StrictFifo | src/kern/thread.c:551-667 | the thread at index k of the ready list is dispatched by the (k+1)-th dispatch, whatever happens in between |
| SchedulerTheorems.JoinsNeverMissExit | src/kern/thread.c:345-413 | a thread parked in a join has no exited child to collect, and one woken in thread_join_any has one in the table |
| SchedulerTheorems.ParentsFormTree | src/kern/thread.c:533-549 | slot i holds the thread with id i, every parent has a slot, and parents form a tree rooted at main |
| SchedulerTheorems.LockExcludes | src/kern/lock.h:51-87 | at most one thread holds a lock, and the lock records its id |
| SchedulerTheorems.WaitersImplyHeld | src/kern/lock.h:51-87 | a lock that threads wait for records a thread id |
| SchedulerTheorems.HeldUntilReleased | src/kern/lock.h:51-87 | only its holder's release takes a lock from a thread |
| Locks.RecordedExactlyIfHeld | src/kern/lock.h:51-87 | in every run in which no holder of the lock is recycled, the lock records a thread id if and only if a thread holds it |
| Locks.RecycleOrphans | src/kern/thread.c:533-549 | recycling the holder of a lock leaves a lock that records an id and that no thread holds |
| Locks.NeverAcquiredAgain | src/kern/lock.h:51-87 | such a lock stays so in every run: no thread acquires it |
| Locks.HolderRecycled | src/kern/thread.c:242-255 | a run from boot that loses a lock: spawn, acquire, exit, join |
| Scheduler.FreeSlot | src/kern/thread.c:205-211 | the slot found is the lowest free one |
| Scheduler.FindExited | src/kern/thread.c:354-360 | the slot found is the lowest that holds an exited child |
| ThreadManager.Manager.constructor | src/kern/thread.c:491-511 | the initial state of the machine |
| ThreadManager.Manager.BroadcastCondition | src/kern/thread.c:458-486 | the loop over waiters takes the broadcast step |
| ThreadManager.Manager.SpawnThread | src/kern/thread.c:194-240 | the search of the table and the insertion take the spawn step |
| ThreadManager.Manager.ForkToUser | src/kern/thread.c:286-334 | takes the fork step |
| ThreadManager.Manager.RecycleThread | src/kern/thread.c:533-549 | the loop over table slots reaches every child of the thread, and the thread leaves the table |
| ThreadManager.Manager.ScanExited | src/kern/thread.c:354-360 | the loop finds what the scan of the machine finds |
| ThreadManager.Manager.JoinThread | src/kern/thread.c:389-413 | takes the join step; an id that names no child is refused |
| ThreadManager.Manager.JoinAnyAfterWaking | src/kern/thread.c:372-384 | takes the step after the wait |
| ThreadManager.Manager.ExitThread | src/kern/thread.c:242-255 | takes the exit step, or halts for main |
| ThreadLists.ThreadList.Insert | src/kern/thread.c:612-627 | the linked list ends with the thread, other links intact |
| ThreadLists.ThreadList.Remove | src/kern/thread.c:629-648 | the first thread is unlinked, or null for an empty list |
| ThreadLists.ThreadList.Append | src/kern/thread.c:650-667 | one list gets the other's threads in order, and the other is empty |
| ThreadLists.WakeToReady | src/kern/thread.c:458-486 | on linked threads: all waiters READY at the end of the ready list in order, with no condition |
| ThreadLists.Dispatch | src/kern/thread.c:551-580 | on linked threads: the head runs, a running caller goes to the end, no other thread changes |
| KernelThreads.InitThreads | src/kern/thread.c:491-511 | the thread objects and the ready list after thread_init stand for the initial state of the machine |
| KernelThreads.Kernel.InitCondition | src/kern/thread.c:433-436 | a condition variable that is set up has an empty linked list of its own, and nothing else of the state changes |
| KernelThreads.Kernel.SpawnReady | src/kern/thread.c:194-240 | in every state that satisfies the invariant thread_spawn can work on table and lists: waiters are apart from the ready list, and the new thread is new |
| KernelThreads.Kernel.SpawnThread | src/kern/thread.c:194-240 | the search of the table, the new thread object, its parent and its place at the end of the linked ready list are the spawn step; without a free slot, the panic of the machine |
| KernelThreads.SpawnAndWait | src/kern/thread.c:194-456 | the operations in a row, from thread_init on: main spawns a thread, sets up a condition variable and waits for it, and the heap then stands for a state that the machine reaches |
| KernelThreads.Kernel.LinkedOnce | src/kern/thread.c:603-667 | in every state that satisfies the invariant a thread object is linked on at most one list, of all conditions and the ready list |
| KernelThreads.Kernel.SwitchReady | src/kern/thread.c:551-580 | in such a state suspend_self can work on the lists: READY threads only, a head that is not the caller, waiters apart |
| KernelThreads.Kernel.WakeReady | src/kern/thread.c:458-486 | in such a state both assertions of condition_broadcast hold of every thread it visits, and the lists it joins are apart |
| KernelThreads.Kernel.WaitReady | src/kern/thread.c:438-456 | in such a state the running thread can be inserted: it is on no list |
| KernelThreads.Kernel.LeaveReady | src/kern/thread.c:242-255 | in such a state the thread that exits is on no list |
| KernelThreads.Kernel.SuspendSelf | src/kern/thread.c:551-580 | taking the head off the linked ready list and putting the caller at its end is the suspend step of the machine, and leaves every other list linked as it was |
| KernelThreads.Kernel.Broadcast | src/kern/thread.c:458-486 | walking the linked wait list and appending it to the ready list is the broadcast step, and leaves every other list linked as it was |
| KernelThreads.Kernel.MarkSelf | src/kern/thread.c:443-449 | marking the running thread, and clearing its link, is the first half of a wait |
| KernelThreads.Kernel.EnqueueSelf | src/kern/thread.c:451-453 | inserting it at the end of the linked wait list is the second half, after which suspend_self can run |
| KernelThreads.Kernel.ConditionWait | src/kern/thread.c:438-456 | mark, insert and suspend on the linked lists are the three steps of the machine |
| KernelThreads.Kernel.ExitThread | src/kern/thread.c:242-255 | marking the thread EXITED and waking its parent's waiters on the linked lists is the exit step |
| KernelThreads.Kernel.AcquireLock | src/kern/lock.h:51-74 | a turn of lock_acquire records the caller's id, or is a whole condition_wait on the lock's list |
| KernelThreads.Kernel.ReleaseLock | src/kern/lock.h:76-87 | the lock records nobody and all threads of its linked list are ready, as one release step |
| Sv39.IndicesNamePage | src/kern/memory.c:63-65 | two addresses share all three indices exactly if they are in one page |
| Sv39.MtagRoundTrip | src/kern/memory.h:197-199 | the root recovered from a tag is the one encoded, also by the shift that reclaim uses |
| Sv39.AddLevel1Entries | src/kern/memory.c:126-130 | a new level-1 table changes one entry of the space and no other |
| Sv39.AddLevel0Entries | src/kern/memory.c:137-142 | the same for a new level-0 table |
| Sv39.SetLeafEntries | src/kern/memory.c:403-411 | writing one leaf changes one entry of the space |
| Sv39.ChangedOk | src/kern/memory.c:124-155 | a space stays a tree without shared pages when one entry changes to a page it did not hold |
| Sv39.Undisturbed | src/kern/memory.c:572-610 | a space does not change when no page of its own changes |
| Walk.WalkCreateRefines | src/kern/memory.c:124-155 | if the pages it takes are blank, walk_pt with create changes no leaf of the space, keeps its tables a tree and leads to a table for the address |
| Walk.WalkPanics | src/kern/memory.c:124-155 | it fails exactly if there are too few free pages for the tables it adds |
| Walk.WalkExactly | src/kern/memory.c:124-155 | with enough free pages, the walk adds just the tables it needs and changes no other entry of the space if and only if the pages it takes hold no valid entry |
| Walk.LinkIsBlank | src/kern/memory.c:385-390 | the link of a free page, read as a page table entry, is not valid and names no page of RAM |
| Mapping.WalkReads | src/kern/memory.c:132-155 | walk_pt without create, following page numbers of valid and other entries alike, reads the entry of the flat map |
| Mapping.MapPageRefines | src/kern/memory.c:403-411 | mapping a page panics exactly for want of pages; else the address maps to the first free page with the flags added, no other leaf changes, the space is sound |
| Mapping.SetFlagsRefines | src/kern/memory.c:446-451 | setting the flags of a mapped page takes no page, keeps its frame, all other entries and the soundness of the space |
| Mapping.SetFlagsAnywhere | src/kern/memory.c:446-451 | on any address: panics exactly for want of pages for tables; else the address has just the flags and no other leaf changes; an address that was not mapped is mapped to no page of RAM |
| Mapping.FaultAtEnd | src/kern/memory.c:551-559 | the address of an accepted fault is in a page that cloning copies exactly if it is not the end of the range |
| MapFit.MapOver | src/kern/memory.c:403-411 | mapping a page gives the same result as with the entries that it writes over blanked |
| MapFit.MapExactly | src/kern/memory.c:403-411 | with enough free pages, mapping a page takes just the pages it needs, maps the first with the flags asked for, changes no other leaf and no other table and leaves a sound space, if and only if the pages it takes for tables are blank but for the entry it sets, which in the level-1 table is not valid and in the level-0 table has no other flags |
| Clone.ClonePageKeeps | src/kern/memory.c:587-605 | one turn of the clone loop that takes blank pages for tables keeps parent, frames, child, free list and page count in order, or there were too few pages |
| Clone.CopyKeeps | src/kern/memory.c:592-604 | copying one page disturbs neither the parent nor earlier copies and loses no page |
| Clone.WalkKeeps | src/kern/memory.c:588-588 | the walk in the child takes only free pages and disturbs no one |
| CloneFit.TurnKeeps | src/kern/memory.c:587-605 | so does one that takes pages that are blank but for what it writes over |
| CloneFit.TurnExactly | src/kern/memory.c:587-605 | with enough free pages, a turn of the clone loop keeps the loop's invariant if and only if the pages it takes for tables are so |
| CloneTheorems.StartExactly | src/kern/memory.c:573-584 | the loop's invariant holds at its start if and only if the page for the root is blank outside the global part |
| CloneTheorems.CloneExactly | src/kern/memory.c:572-605 | with enough free pages, the invariant holds before and after every turn of the loop if and only if that page is so and the pages for tables, found by their places in the free list before the call, are so |
| CloneTheorems.CloneStarts | src/kern/memory.c:573-584 | the new root, if its page is blank there, has the kernel's global part and nothing else |
| CloneTheorems.CloneSucceeds | src/kern/memory.c:572-610 | if the pages for root and tables fit, cloning succeeds exactly if there are 130 free pages and one for every page to copy, and takes just so many |
| CloneTheorems.CloneMaps | src/kern/memory.c:572-610 | for every address: below the user range the child maps what the parent maps, in it a copy with equal contents and the flags widened by R and W, above it nothing |
| CloneTheorems.ParentUnchanged | src/kern/memory.c:599-602 | the parent's entries and the contents of its pages are as before |
| CloneTheorems.ChildPrivate | src/kern/memory.c:595-595 | a page of the child's user half is held by no other entry of the child, by none of the parent, and is not free |
| CloneTheorems.CompleteExactly | src/kern/memory.c:587-593 | the child maps exactly the parent's user pages if and only if the parent maps none from the end of the range on |
| CloneTheorems.FreesWhatCloneTook | src/kern/memory.c:301-355 | reclaiming a clone frees exactly the pages cloning took, but for its root |
| CloneTheorems.CloneReclaimConserves | src/kern/memory.c:301-355 | free pages after clone and reclaim, with the clone's root, are the free pages before, as multisets |
| Reclaim.FreedExactly | src/kern/memory.c:301-355 | a page is freed exactly if a non-global entry of the space holds it |
| Reclaim.FreedOnce | src/kern/memory.c:301-355 | no page is freed twice |
| Freeing.TablesStay | src/kern/memory.c:307-352 | a level-1 table has not been freed while its entries are read |
| Freeing.Enters0 | src/kern/memory.c:316-342 | nor has a level-0 table, and the frames it frees have not been freed and are no tables of the space |
| Freeing.LinkedView | src/kern/memory.c:385-390 | a freed page holds what it held but for its first word, which is the link |
| Spaces.InitTables | src/kern/memory.c:191-233 | the loops of memory_init build the kernel's three tables |
| Spaces.BootInv | src/kern/memory.c:191-283 | after boot the main space is sound, clonable and reclaimable |
| Spaces.FaultKeeps | src/kern/memory.c:551-559 | a page fault leaves the space so |
| Spaces.ChildReady | src/kern/memory.c:572-610 | a clone is so too |
| Processes.FaultStep | src/kern/memory.c:551-559 | with any number of spaces: a fault in one that takes pages for tables that fit keeps all sound and pairwise apart, and changes no entry of another |
| Processes.ForkStep | src/kern/memory.c:572-610 | the same for a clone: the new space is apart from all others |
| Processes.ExitStep | src/kern/memory.c:301-355 | the same for a reclaim, whatever the pages hold: the pages given back belong to no live space |
| Processes.OneOwner | src/kern/memory.c:301-610 | a page that is private to one space is private to no other, not free and not lost |
| Runs.PanicsExactly | src/kern/memory.c:301-610 | a step that takes pages for tables that fit panics exactly for an address out of range or for want of the pages it needs, and follows no entry to a page that is no table |
| Runs.EveryRun | src/kern/memory.c:301-610 | after every run of faults, writes, clones and reclaims from boot on whose steps take pages for tables that fit: all spaces sound, clonable, reclaimable and apart, and every page that was free at boot is free, lost, or private to just one live space |
| Runs.FitsExactly | src/kern/memory.c:403-605 | in every sound state of any number of spaces with enough free pages, a fault or clone does to its space what it should if and only if the pages it takes for tables fit |
| Runs.Isolation | src/kern/memory.c:301-610 | what one space does, also writing to its pages, changes neither the map of another nor the contents of its pages |
| Stale.CleanUntilExit | src/kern/memory.c:265-283 | if all free pages are blank, every step of every run without a reclaim takes pages that fit |
| Stale.CleanAfterExit | src/kern/memory.c:301-355 | a page that reclaim frees can become a table if and only if it was a level-0 table or held nothing beyond its first word |
| Stale.StaleRootWild | src/kern/memory.c:572-588 | a clone whose root page has a valid entry 3 that points to no table goes on to that page |
| Stale.ForkAfterExit | src/kern/memory.c:301-588 | in every sound state: after a clone and its reclaim the free list is not fit for a clone, and a clone of any space goes on to a page that is no table |
| Stale.ForkExitFork | src/kern/memory.c:301-588 | the run from boot in which it happens: clone of the main space, reclaim of the clone, clone of the main space |
| Memory.Manager.AllocPage | src/kern/memory.c:365-374 | the first free page, or a panic when there is none |
| Memory.Manager.FreePage | src/kern/memory.c:385-390 | the page is first in the list and no table any more; it holds what it held but for the link |
| Memory.Manager.WalkPt | src/kern/memory.c:124-155 | the walk of the model; a new table holds what its page held |
| Memory.Manager.AllocAndMapPage | src/kern/memory.c:403-411 | the mapping of the model |
| Memory.Manager.AllocAndMapRange | src/kern/memory.c:426-436 | panics exactly if the free list is shorter than a frame for every page and a table for every one missing; else just so many pages are taken, every page of the range is mapped with the flags to a page that was free, all other leaves are as before, the space is sound |
| Memory.Manager.SetPageFlags | src/kern/memory.c:446-451 | the flag setting of the model |
| Memory.Manager.HandlePageFault | src/kern/memory.c:551-559 | an accepted fault maps the first free page for user reads and writes; exactly when it panics |
| Memory.Manager.CloneTurn | src/kern/memory.c:587-605 | the loop body with its temporary change of the parent's flags has the effect of one page of the model |
| Memory.Manager.CopyLeaf | src/kern/memory.c:594-603 | widening the parent's flags, copying, reading the child's flags and restoring the parent's leaves only the child's entry changed |
| Memory.Manager.CloneSpace | src/kern/memory.c:572-610 | the whole loop yields a clone, and panics exactly for want of pages |
| Memory.Manager.ReclaimSpace | src/kern/memory.c:301-355 | the three nested loops put the freed pages in front of the free list in order, each with what it held and its link, level-0 tables cleared, touching no table after it was freed |
| Memory.Manager.CloneThenReclaim | src/kern/memory.c:301-355 | clone then reclaim restores the free pages but for the clone's root, and leaves the parent as it was |
| Heap.InitInv | src/kern/memory.c:244-283 | heap block and free pages after boot are apart |
| Heap.KmallocKeeps | src/kern/ezheap.c:47-82 | an allocation keeps blocks, open block and free pages apart |
| Heap.FreeKeeps | src/kern/memory.c:385-390 | so does freeing a page |
| Heap.RunKeeps | src/kern/ezheap.c:47-82 | so does every run |
| Heap.KmallocSafe | src/kern/ezheap.c:47-82 | in every run a new block is aligned, apart from all live blocks and free pages, large enough exactly if the size does not wrap, and page aligned for a page |
| Heap.PageFromFreeList | src/kern/ezheap.c:55-82 | a request for a page is the page allocator's when the open block is smaller |
| Heap.OpenBlockStaysSmall | src/kern/ezheap.c:47-82 | in every run with a request of at least a byte, a request for a page is the page allocator's from then on |
| Heap.HugeRequest | src/kern/ezheap.c:47-64 | the request 2^64 - 1 is answered with a block of no bytes |
| Heap.Allocator.constructor | src/kern/ezheap.c:39-45 | the heap after boot |
| Heap.Allocator.MemoryAllocPage | src/kern/memory.c:365-374 | takes the step of the model |
| Heap.Allocator.KernelMalloc | src/kern/ezheap.c:47-82 | takes the step of the model, and panics exactly when it does |
| Vioblk.BlockDevice.Read | src/kern/vioblk.c:332-389 | the bytes of the disk from the position on, clamped to its size, whatever sectors they span |
| Vioblk.BlockDevice.Write | src/kern/vioblk.c:397-468 | exactly those bytes of the disk are replaced, the rest of the first and last sector is kept |
| Vioblk.BlockDevice.SetPos | src/kern/vioblk.c:540-545 | the position is the one given |
| Vioblk.BlockDevice.ReadFull | src/kern/io.c:33-49 | repeats reads up to the count or the end |
| Vioblk.BlockDevice.WriteFull | src/kern/io.c:51-67 | repeats writes until all is written or the disk ends, and returns how much was |
| KfsImage.FileSlice | src/kern/kfs.c:374-463 | bytes within a block of a file are bytes of the disk at the block's address |
| KfsImage.StoredBytes | src/kern/kfs.c:327-348 | a store within a block replaces just those bytes of the file |
| KfsImage.OthersUntouched | src/kern/kfs.c:327-348 | and changes no file that shares no block with it |
| KfsImage.UpdatedFurther | src/kern/kfs.c:327-348 | consecutive stores add up |
| Kfs.PlanTurn | src/kern/kfs.c:300-347 | leading part, whole blocks and remainder cover the transfer without crossing a block |
| Kfs.FileSystem.constructor | src/kern/kfs.c:27-39 | mounting reads the boot block, opens no file and leaves the lock free |
| Kfs.FileSystem.FindEntry | src/kern/kfs.c:64-69 | the first directory entry with the name |
| Kfs.FileSystem.Open | src/kern/kfs.c:59-112 | returns exactly if the lock is free, and then keeps it exactly if it fails; the first entry with the name in the first free slot at position 0; both failures |
| Kfs.FileSystem.SetPosition | src/kern/kfs.c:212-251 | returns exactly if the lock is free; the position of one file changes |
| Kfs.FileSystem.Read | src/kern/kfs.c:374-463 | returns exactly if the lock is free; the file's bytes from its position on, clamped to its length; the position moves by the count |
| Kfs.FileSystem.Write | src/kern/kfs.c:270-355 | returns exactly if the lock is free; the file's bytes at its position are replaced, clamped to its length; inodes, lengths and files that share no block are unchanged |
| Kfs.FileSystem.ReadInPortions | src/kern/kfs.c:374-463 | any sequence of read sizes gives the same bytes as one read |
| Kfs.FileSystem.WriteThenRead | src/kern/kfs.c:270-463 | seeking back and reading returns what was written |
| KfsSession.WriteHolds | src/kern/kfs.c:270-355 | on an image whose files share no block a write changes the bytes of one file and keeps that |
| KfsSession.Do | src/kern/kfs.c:59-463 | an open, seek, read or write of the mounted file system returns exactly if the lock is free, and then has the reply and the effect of the model in which files are byte sequences of their own; otherwise nothing changes |
| KfsSession.Play | src/kern/kfs.c:59-463 | so has any sequence of calls of one thread, up to the first that does not return; all return if and only if the opens before the last call go well |
| KfsSession.AfterTakes | src/kern/kfs.c:59-112 | a call leaves the lock taken exactly if it is an open of a name that is not found or without a free slot; an open that goes well takes one slot, and no call gives one back |
| KfsSession.AnsweredExactly | src/kern/kfs.c:59-463 | for every state and sequence: all calls are answered if and only if the lock is free at the start, every open before the last call names what the directory has, and these opens are no more than the free slots |
| KfsSession.MissingSticks | src/kern/kfs.c:59-72 | after an open of a name that is not found no call is answered |
| KfsSession.MissingFileSticks | src/kern/kfs.c:59-72 | on a built image: a file that would be opened is not, if a missing name was tried before |
| KfsSession.OpenEmptyName | src/kern/kfs.c:64-69 | on a built image the empty name opens the first file, unless all directory entries are used |
| KfsSession.BuiltHolds | src/util/mkfs.c:87-158 | an image that mkfs builds, without earlier files of full blocks, holds its files by name, with the empty name for the first if an entry is unused, and they share no block |
| KfsSession.PlayOnBuilt | src/kern/kfs.c:27-463 | on such an image, mounted afresh, the replies to any sequence of calls are those of the model with the files that were put in, and all are answered if and only if the opens before the last call go well |
| MkfsImage.NumberingMatches | src/util/mkfs.c:112-158 | block numbers and blocks written agree for a prefix of files exactly if none has full blocks only |
| MkfsTheorems.BuildLayout | src/util/mkfs.c:112-158 | where inodes, block numbers and blocks are in the image |
| MkfsTheorems.RoundTrip | src/util/mkfs.c:87-158 | a file with no earlier file of full blocks is read back byte for byte |
| MkfsTheorems.RoundTripExactly | src/util/mkfs.c:119-157 | for given names and lengths it is read back for all contents if and only if no earlier length is a multiple of 4096, or it is empty |
| MkfsTheorems.MarkedMisread | src/util/mkfs.c:119-157 | contents that are misread in every other case |
| MkfsTheorems.FilesSeparate | src/util/mkfs.c:123-127 | files of an image share no block |
| MkfsTheorems.LookupFinds | src/util/mkfs.c:87-106 | opening by name finds the file's own inode |
| MkfsTheorems.LookupFails | src/util/mkfs.c:87-106 | a name that no file has is not found |
| MkfsTheorems.LookupEmpty | src/util/mkfs.c:87-106 | the empty name is that of the first unused entry, which says inode 0; it is not found if all are used |
| Mkfs.AddEntries | src/util/mkfs.c:87-106 | the loop over files fills the directory |
| Mkfs.AddInodes | src/util/mkfs.c:112-133 | the loops with the running block number fill the inodes |
| Mkfs.AddAllData | src/util/mkfs.c:150-158 | the loops append the blocks, a short last read leaving the rest of the buffer as it was |
| Mkfs.MakeImage | src/util/mkfs.c:87-158 | the whole image |
| Mkfs.BuildMountRead | src/kern/kfs.c:27-463 | building, attaching, mounting, opening and reading in any portions returns the file's bytes |
| Uart.StoreKeeps | src/kern/uart.c:302-309 | writing the cell before moving the tail changes nothing visible |
| Uart.MoveTailAppends | src/kern/uart.c:302-309 | moving the tail appends it, also where the 16-bit index wraps |
| Uart.MoveHeadRemoves | src/kern/uart.c:311-320 | moving the head removes the byte that was read |
| Uart.StepKeeps | src/kern/uart.c:185-280 | every load, store, wait and interrupt keeps the invariant, also between the load and store of the interrupt enable register |
| Uart.NoWaiterStranded | src/kern/uart.c:185-280 | in every run a waiting reader faces an empty ring with receive interrupts on, a waiting writer a full one with transmit interrupts on |
| Uart.StreamsIntact | src/kern/uart.c:185-320 | in every run bytes taken out and bytes in the ring are the bytes put in, in order, at most 64 in the ring |
| Uart.InterruptWakes | src/kern/uart.c:256-280 | the next interrupt wakes the waiters and gives them what they wait for |
| UartDriver.RingBuf.Put | src/kern/uart.c:302-309 | appends a byte, on an array with wrapping indices |
| UartDriver.RingBuf.Get | src/kern/uart.c:311-320 | removes the first byte |
| UartDriver.RingBuf.IsEmpty | src/kern/uart.c:294-296 | exactly if there are no bytes |
| UartDriver.RingBuf.IsFull | src/kern/uart.c:298-300 | exactly if there are 64 |
| UartDriver.Device.Receive | src/kern/uart.c:263-270 | the receive half of the handler takes the step of the model |
| UartDriver.Device.Send | src/kern/uart.c:272-279 | the transmit half too |
| UartDriver.Device.CopyOut | src/kern/uart.c:218-221 | the copy loop of uart_read moves the first bytes, and stops only at the count or an empty ring |
| UartDriver.Device.CopyIn | src/kern/uart.c:247-250 | the copy loop of uart_write appends a prefix, all of it or until the ring is full |
| Terminal.OutFoldConcat | src/kern/io.c:193-201 | the output machine carries only its one bit from part to part |
| Terminal.ChunkingInvisible | src/kern/io.c:193-201 | splitting the text over any number of calls gives the same raw output |
| Terminal.ReadsInvisible | src/kern/io.c:184-191 | what any number of reads return in all depends only on the raw bytes they take |
| Terminal.OutMachineMeetsRule | src/kern/io.c:193-201 | the machine writes every line end once as \r\n |
| Terminal.InMachineMeetsRule | src/kern/io.c:184-191 | the input machine reads every line end once as \n |
| Terminal.ReadBackWritten | src/kern/io.c:184-201 | reading what was written equals reading the original text |
| Terminal.WrittenTextIsStable | src/kern/io.c:193-201 | written text is written again unchanged |
| TerminalDriver.RawOutput.WriteAll | src/kern/io.c:51-67 | iowrite over a device that may fail: what is sent and what is returned |
| TerminalDriver.OutTerm.Write | src/kern/io.c:393-502 | the raw output is the fold of the machine, or its prefix when the device fails; state, count and error |
| TerminalDriver.OutTerm.WriteAll | src/kern/io.c:51-67 | iowrite over the terminal sends the fold and the byte it repeats, or the first bytes of that when the device fails; the count or error it returns |
| TerminalDriver.RepeatsExactlyAfterSwallow | src/kern/io.c:456-459 | a byte is repeated if and only if a leading \n was swallowed and the text has two characters or more |
| TerminalDriver.RepeatsLastByte | src/kern/io.c:456-459 | for example the text \nab after \r |
| TerminalDriver.InTerm.Compact | src/kern/io.c:357-383 | the compaction in place equals the input machine |
| TerminalDriver.InTerm.Read | src/kern/io.c:329-391 | at most two raw reads; the buffer is the fold of the bytes consumed and not empty; errors |
| TerminalDriver.InTerm.ReadFull | src/kern/io.c:33-49 | ioread_full over the terminal: all reads together return the fold of the raw bytes they take, up to the count or an error |
| TerminalDriver.QuietOnlyOnce | src/kern/io.c:385-388 | only a lone \n after a \r yields nothing |
| Timer.InsertSorted | src/kern/timer.c:84-121 | insertion keeps the list sorted and adds just the alarm |
| Timer.RunKeeps | src/kern/timer.c:63-175 | list and comparator stay consistent in every run |
| Timer.TickWakesExactlyDue | src/kern/timer.c:143-175 | the handler wakes exactly the alarms that are due, in order |
| Timer.ScheduledInTime | src/kern/timer.c:63-175 | an alarm is scheduled in time if and only if the handler has run or the alarm is not due before the first tick |
| Timer.FirstTickCanBeLate | src/kern/timer.c:33-50 | an alarm that is late |
| Timer.TimerManager.AlarmSleep | src/kern/timer.c:63-132 | saturating wake time, search and insertion take the step of the model |
| Timer.TimerManager.HandleInterrupt | src/kern/timer.c:143-175 | the wake loop and the comparator take the step of the model |

## Left out

- Register and assembly code: context switch, trap entry, fork's stack copy (src/kern/thrasm.s, src/kern/trapasm.s). A switch is a change of the current thread.
- Kernel stack pages freed after a switch (src/kern/thread.c:594-598): the address is not that of a page; it is not part of frame conservation.
- Pages outside the events of a run: a fork also takes pages for a thread structure and a stack from the same list (src/kern/thread.c:293-296), exec frees and maps user pages (src/kern/process.c:94-132), and a stack is freed after a switch. "Every page is accounted for" is about faults, clones and reclaims.
- memory_unmap_and_free_user and memory_set_range_flags: the loops of reclaim and of range mapping again, with other flags.
- memory_validate_vptr_len, memory_validate_vstr: a check of one entry and a stub.
- Concurrent use of files and of the disk, and fs_close, which takes no lock and frees no slot.
- System calls, processes, ELF loading, exceptions, interrupt dispatch, device registers, console, string functions and user programs: they would add easy members.
- mkfs argument handling: path prefixes, missing files and names of 32 bytes or more.
- TerminalDriver.InTerm.Read: a request for 0 bytes and a raw device that answers 0 are excluded, because the loop of the source then does not end.
- TerminalDriver.InTerm.ReadFull: excludes the same raw device.
- Kfs.FileSystem.SetPosition: a position past the end is excluded; the source stores it, and a later read or write would compute a negative count.
- Memory.Manager.ReclaimSpace: an empty free list is excluded; the source then starts the list with a page whose link it does not clear.
- ThreadManager.Manager.SpawnThread: names, stacks and saved registers of threads are not modelled, and so it is with ForkToUser.
- Kfs.FileSystem.Read: a position and length whose sum reaches 2^64 are excluded; the comparison with the file's length wraps in the source.
- Kfs.FileSystem.Write: the same sums are excluded.
- Kfs.FileSystem.ReadInPortions: the same sums are excluded.
- Kfs.FileSystem.WriteThenRead: the same sums are excluded.
- KfsSession.Do: the same sums, seeks past the end, and names whose directory entry says an inode that the image does not have are excluded, as the empty name on an image without files.
- KfsSession.Play: the same is excluded of every call up to the first that does not return.
- KfsSession.PlayOnBuilt: the same.
- SchedulerInvariant.ForkKeeps: a full thread table is excluded; the source then leaves the child without a slot and with an id that it does not set.
- ThreadManager.Manager.ForkToUser: a full thread table is excluded in the same way.
- Mapping.SetFlagsRefines: is about a mapped page; SetFlagsAnywhere is about all, and does not say that the space stays sound, which it need not.
- Memory.Manager.WalkPt: if it adds a level-1 table, the entry for the next table must not be valid there; the source would follow that entry to a page that is no table.
- Memory.Manager.SetPageFlags: asks the same.
- Memory.Manager.AllocAndMapPage: asks that the pages taken for tables fit, which is exactly what mapping a page right needs (MapFit.MapExactly).
- Memory.Manager.AllocAndMapRange: asks the same for every page of the range.
- Memory.Manager.HandlePageFault: asks the same.
- Memory.Manager.CloneSpace: asks that the pages for the root and the tables fit, which is exactly what every turn of the loop needs (CloneTheorems.CloneExactly).
- CloneTheorems.CloneExactly: is about every turn. An entry in a new table that is not right after its turn, but is written over by a later one, does no harm in the end; that is not stated.
- Spaces.FaultKeeps: asks that the pages taken for tables fit.
- Processes.FaultStep: asks the same.
- Processes.ForkStep: asks the same of the pages for the root and the tables of the clone.
- Runs.PanicsExactly: asks the same of its step, which is exactly what the step needs (Runs.FitsExactly); without it a step may be neither a panic nor right (Stale.ForkAfterExit).
- Runs.EveryRun: asks the same of every step of the run, and its events are those named above.
- Runs.Isolation: asks the same of its step.
