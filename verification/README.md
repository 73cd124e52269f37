# A verified model of the Pintos kernel core

This project models the parts of a Pintos kernel whose correctness is not evident from reading
one function, and proves what they are for. `dafny verify dfyconfig.toml` checks everything.

| part | files | main results |
|---|---|---|
| Priority scheduler, semaphores, locks, donation, timer sleep | `Threads`, `Synch`, `Donation`, `Invariant`, `KernelSteps`, `StepsKeep`, `SchedulerRuns`, `Fairness`, `Deadlock`, `Records`, `StaleRecord`, `Kernel` | strict priority, first in first out among equals, no lost wake-up, conservation of semaphore values, mutual exclusion, donations given back, sleep as asked for and no circle of threads waiting for each other's locks over every interleaving; the donation loop ends if and only if every holder on the chain is below the caller |
| File system: device, inodes, free map, directory, handles | `Blocks`, `InodeData`, `Directory`, `FileSystem`, `FileInvariant`, `FileOps`, `FileRuns`, `FileMount`, `FileStale`, `FileTheorems`, `Files` | over every run, down to the bytes on the device: extents disjoint and marked, counters exact, sectors freed exactly when a file is neither named nor open, files isolated from each other, names refine a map, remounting restores everything; the exact conditions on the state and the memory under which filesys_create(), filesys_open() and filesys_remove() succeed, and under which a memory shortage breaks reclaiming, the names or the free map on the device |
| Allocators | `Bitmap`, `Palloc`, `Malloc`, `MallocHeap` | page groups and heap blocks in use never overlap; free counts exact; exact conditions for success; unused arenas leave no block behind and no page is lost |
| 64-bit division | `Arithmetic` | `udiv64` is floor division for all inputs; exact conditions for the other three routines |
| Hash table, heap sort, ustar headers, argument stack | `HashTable`, `Sort`, `Ustar`, `SetupStack` | refinement of a set, sorted permutation, round trips |

`Lists` holds the sequence view of the kernel's intrusive lists.

## How the model is built

A concurrent part is a state machine: a value that holds the whole state, a function per
operation, an invariant, a proof that every operation keeps it, and theorems over runs. Beside it
stands a class (`Kernel.Kernel`, `Files.Files`, `Directory.Dir`, `InodeData.Device`,
`MallocHeap.MallocHeap`, `Palloc.PageAllocator`, `Bitmap.Bitmap`, `HashTable.HashTable`) whose
fields are updated in place with the loops of the source; each of its methods is proved to do
exactly what the function of that operation says, so the theorems hold of it.

Scheduling. Kernel operations run with interrupts off, so a step is a stretch between two calls
of schedule(); a thread inside sema_down_internal() continues there when it is chosen again. A
lock has the identity of its semaphore. thread_create() is two steps, since the new thread exists
before it is made ready. An external interrupt is the step `TimerTick`.

File system. Sectors are 512 bytes, and inodes, directory entries and the free map are the bytes
that the kernel writes. Every allocation that can fail is a parameter of the operation. The
operations are total functions; in states outside the invariant they do nothing, and no run
reaches such a state. `Live` is the set of inodes that are reserved, named in the root directory,
or still open.

## What the code does not do

- The donation loop of lock_acquire() does not advance past a holder whose priority is not below
  the caller's, equal priority included, and then spins with interrupts off
  (`Donation.DonationTerminatesIff`, `Donation.EqualPriorityContentionSpins`). A run of three
  operations gets there (`SchedulerRuns.SpinReachable`). Runs admit lock_acquire() exactly when
  the walk ends.
- A lock should record the largest priority of its waiters, which lock_release() relies on. The
  acquire of another lock can break that: `Records.RecordedIff` says exactly when, and
  `StaleRecord.RecordSpoiled` is a run of eleven operations after which a lock without waiters
  records a priority.
- A failed filesys_create() gives back the inode's sector but keeps the data sectors marked:
  exactly when it had made an inode for a file that is not empty
  (`FileTheorems.FailedCreateLeaksIff`), for instance with an empty name
  (`FileTheorems.CreateLeaks`).
- When memory is short a directory search ends early; filesys_create() can then overwrite a live
  entry (`FileTheorems.NameLost`) or add a name twice (`FileTheorems.NameTwice`). The names stay
  a map if and only if it does neither (`FileTheorems.NamesSoundIff`), and every file is kept track
  of if and only if it does not overwrite an entry (`FileRuns.ReclaimsIff`); both conditions are on
  the state before the call and the memory it gets. Memory for both searches is enough
  (`FileTheorems.EnoughForSearches`).
- A write of the free map without a bounce buffer moves the whole sectors at its head only. A failed
  create, a close or a remove can so leave the map on the device behind the one in memory, under
  exactly the condition of `FileStale.PersistedIff` (`FileTheorems.CreateGoesStale` is an example),
  and that is the map that the next start reads. Complete writes are enough
  (`FileTheorems.EnoughForMap`).
- The invariant of the file system, and with it the safety of the files, needs none of these
  conditions.
- umod64() and smod64() return 32 bits, and sdiv64() wraps for INT64_MIN / -1; the conditions
  under which they are right are proved to be exact.
- setup_stack() counts runs of spaces, so it counts argc right if and only if the command line is
  not empty and neither begins nor ends with a space (`SetupStack.ArgcExactIff`).
- bitmap_scan_and_flip() returns its start index for a group of zero bits (`Bitmap.EmptyGroup`),
  where its comment says 0.
- next_thread_to_run() and sema_up_internal() look for a priority above -1 and find nobody when all
  priorities are negative (`Kernel.Kernel.ScanForMax`), which thread_set_priority() does not
  prevent.

## Model

| member | source | states |
|---|---|---|
| `Threads.FirstMax` | proj1/src/threads/thread.c:530-555 | the index of the first thread of the largest priority in a list |
| `Invariant.ScheduleRestoresInv` | proj1/src/threads/thread.c:573-643 | whatever state schedule() is called in, it restores the whole invariant: the highest priority runs and no due sleeper stays asleep |
| `StepsKeep.StepKeepsInv` | proj1/src/threads/synch.c:60-302 | the scheduler invariant is inductive over all operations |
| `StepsKeep.DownRestoresInv` | proj1/src/threads/synch.c:60-85 | one pass of the loop of sema_down_internal() keeps the invariant, whether it takes a unit or waits |
| `StepsKeep.UpRestoresInv` | proj1/src/threads/synch.c:120-149 | sema_up_internal() keeps the invariant |
| `StepsKeep.DonationKeeps` | proj1/src/threads/synch.c:224-247 | the donation walk of lock_acquire() keeps the invariant |
| `StepsKeep.DropLockReleases` | proj1/src/threads/synch.c:274-302 | dropping a lock leaves the state in which only that lock's semaphore awaits its up |
| `SchedulerRuns.InvAlways` | proj1/src/threads/thread.c:611-643 | the invariant holds in every state of every run |
| `SchedulerRuns.StrictPriorityAlways` | proj1/src/threads/thread.c:530-555 | between operations no ready thread has a higher priority than the running one, and idle runs only when nothing is ready |
| `SchedulerRuns.LinkedAtMostOnce` | proj1/src/threads/thread.h:77-98 | a thread's one list element is in at most one place of all lists together |
| `SchedulerRuns.StatusesAgree` | proj1/src/threads/thread.c:221-251 | exactly the current thread is RUNNING and it is on no list; a non-idle thread is READY exactly when it is on the ready list |
| `SchedulerRuns.StatusAssertionsHold` | proj1/src/threads/thread.c:239-277 | the ASSERTs on thread status hold in every reachable state; a thread that thread_create() has set up is BLOCKED and on no list |
| `SchedulerRuns.NoLostWakeupAlways` | proj1/src/threads/synch.c:60-149 | a semaphore with waiters never has more units than woken threads that have yet to test it again |
| `SchedulerRuns.ValueConserved` | proj1/src/threads/synch.c:60-149 | a semaphore's value is its initial value plus ups minus completed downs, with barging |
| `SchedulerRuns.LockExclusionAlways` | proj1/src/threads/synch.c:206-302 | value plus holder is one, and exactly the holder lists the lock |
| `SchedulerRuns.PriorityRestoredAlways` | proj1/src/threads/synch.c:274-302 | no thread is below its base priority, and one without locks is at it |
| `SchedulerRuns.AcquireDonates` | proj1/src/threads/synch.c:224-247 | after lock_acquire() exactly the holders on the chain have the caller's priority, and no priority went down |
| `SchedulerRuns.ReleaseRestores` | proj1/src/threads/synch.c:274-302 | lock_release() leaves the maximum of the base priority and the waiter priorities of the locks still held |
| `Records.StepRecords` | proj1/src/threads/synch.c:69-149 | what each operation does to the priority that a lock records: one that changes the waiters records their largest, -1 for none; another lock's acquire may donate through it; nothing else touches it |
| `Records.RecordedIff` | proj1/src/threads/synch.c:224-247 | a right record stays right in a step if and only if the step is not, by the state before it, an acquire of another lock whose walk spoils it |
| `Records.RecordedAlways` | proj1/src/threads/synch.c:304-314 | in every run without such an acquire a lock records the largest priority of its waiters, and -1 when it has none |
| `Records.RecordedThroughout` | proj1/src/threads/synch.c:304-314 | it does so in all states of a run if and only if no step spoils it |
| `Records.ReleaseGivesBack` | proj1/src/threads/synch.c:274-302 | lock_release() leaves its caller at the largest of its base priority and the priorities of those who wait for its other locks, if these are recorded right |
| `StaleRecord.RecordSpoiled` | proj1/src/threads/synch.c:224-247 | a run of ten operations, and an acquire that leaves another lock without waiters recording its caller's priority |
| `SchedulerRuns.SleepNeverShort` | proj1/src/devices/timer.c:89-97 | a sleeper does not run before the tick stored with it |
| `SchedulerRuns.SleepStarts` | proj1/src/threads/thread.c:327-341 | a thread that asks to sleep until a tick is asleep with exactly that tick, or not at all if it has come |
| `SchedulerRuns.SleepsAsAsked` | proj1/src/devices/timer.c:89-97 | a thread that asked to sleep until a tick does not run again before that tick |
| `SchedulerRuns.SleepBoundedLateness` | proj1/src/threads/thread.c:128-146 | a sleeper is made ready no later than TIME_SLICE - 1 ticks after its wake-up tick |
| `SchedulerRuns.SleepsNoLonger` | proj1/src/threads/thread.c:611-643 | nor does it sleep for TIME_SLICE ticks longer than it asked for |
| `SchedulerRuns.SetPrioritySets` | proj1/src/threads/thread.c:361-373 | thread_set_priority() sets the base; a donation stays unless the new base is higher, any other caller runs at the new base, and no other thread changes |
| `SchedulerRuns.NewThreadHas` | proj1/src/threads/thread.c:488-510 | a new thread has the priority asked for, holds no lock and waits for none; no other thread changes |
| `SchedulerRuns.StartKeepsPriority` | proj1/src/threads/thread.c:209-213 | starting a thread changes no priority |
| `Fairness.StepQueue` | proj1/src/threads/thread.c:309-323 | every operation appends to the ready list and then keeps the running thread or takes the first of the largest priority |
| `Fairness.OvertakenOnce` | proj1/src/threads/thread.c:530-555 | while a thread waits to run, one that has run meanwhile is chosen again before it only with a higher priority |
| `Fairness.YieldPassesOn` | proj1/src/threads/thread.c:309-323 | thread_yield() passes the CPU on when a thread of the same priority is ready |
| `Deadlock.StepKeepsNoCircle` | proj1/src/threads/synch.c:206-302 | no operation closes a circle of threads that wait for each other's locks; an acquire that would close one does not return |
| `Deadlock.NoCircleAlways` | proj1/src/threads/synch.c:206-302 | in no reachable state do threads wait for each other's locks in a circle |
| `Deadlock.AcquireReturnsIff` | proj1/src/threads/synch.c:233-242 | in every reachable state following holder and waiting_lock ends, and the donation loop ends if and only if every holder met is below the caller |
| `Donation.DonationTerminatesIff` | proj1/src/threads/synch.c:233-242 | the loop ends if and only if the chain of holders ends and all are below the caller; then exactly they are raised |
| `Donation.EqualPriorityContentionSpins` | proj1/src/threads/synch.c:235-241 | a holder that is not below the caller keeps the loop running for ever |
| `SchedulerRuns.SpinReachable` | proj1/src/threads/synch.c:233-242 | a run of three operations from the start reaches a lock_acquire() that never returns |
| `Donation.WalkMarksLocks` | proj1/src/threads/synch.c:235-241 | every lock walked over records the donated priority as its largest waiter, and no other lock changes |
| `Kernel.CoreSchedulable` | proj1/src/threads/thread.c:611-643 | every reachable state has what the methods of the kernel need beside the conditions on their callers |
| `Kernel.Kernel.Perform` | proj1/src/threads/synch.c:60-302 | in every reachable state the method of any legal operation may be called, and it makes the step that the run theorems speak of |
| `Kernel.Kernel.ThreadInit` | proj1/src/threads/thread.c:488-510 | the new thread is BLOCKED, has both priorities and holds nothing |
| `Kernel.Kernel.ThreadUnblock` | proj1/src/threads/thread.c:239-251 | the thread is READY and last on the ready list |
| `Kernel.Kernel.ScanForMax` | proj1/src/threads/thread.c:530-555 | the scan finds the first thread of the largest priority, and none if and only if all priorities are negative |
| `Kernel.Kernel.NextThreadToRun` | proj1/src/threads/thread.c:530-555 | removes and returns the thread that the model picks |
| `Kernel.Kernel.WakeDueThreads` | proj1/src/threads/thread.c:611-643 | the loop that removes while iterating moves exactly the due sleepers to the ready list, in order |
| `Kernel.Kernel.Reschedule` | proj1/src/threads/thread.c:573-643 | schedule() and its tail as one transition |
| `Kernel.Kernel.ThreadYield` | proj1/src/threads/thread.c:309-323 | thread_yield() as a transition |
| `Kernel.Kernel.ThreadSleepUntil` | proj1/src/threads/thread.c:327-341 | the caller sleeps until the given tick |
| `Kernel.Kernel.TimerSleep` | proj1/src/devices/timer.c:89-97 | sleeps until now plus n, or now for negative n |
| `Kernel.Kernel.ThreadLeave` | proj1/src/threads/thread.c:288-305 | the caller gives up the CPU with a new status |
| `Kernel.Kernel.ThreadSetPriority` | proj1/src/threads/thread.c:361-373 | both priorities change as the donation rules say, and the caller yields; any priority from PRI_MIN on |
| `Kernel.Kernel.ThreadStart` | proj1/src/threads/thread.c:209-213 | the end of thread_create(): the new thread becomes ready and the creator yields |
| `Kernel.Kernel.TimerInterrupt` | proj1/src/threads/thread.c:128-146 | a tick, with a yield at the end of a time slice |
| `Kernel.Kernel.UpdateLockMaxPriority` | proj1/src/threads/synch.c:304-314 | the largest priority of the waiters, -1 for none |
| `Kernel.Kernel.EnqueueOnWaiters` | proj1/src/threads/synch.c:69-81 | the caller joins the waiters and the lock's largest waiter is recomputed |
| `Kernel.Kernel.TakeUnit` | proj1/src/threads/synch.c:60-85 | a completed down |
| `Kernel.Kernel.DownTest` | proj1/src/threads/synch.c:60-85 | one test of the value: take a unit or wait |
| `Kernel.Kernel.SemaTryDown` | proj1/src/threads/synch.c:95-114 | takes a unit exactly when there is one |
| `Kernel.Kernel.WakeBest` | proj1/src/threads/synch.c:120-149 | the first waiter of the largest priority is made ready |
| `Kernel.Kernel.WakeBestWaiter` | proj1/src/threads/synch.c:120-149 | wake-up and increment as one transition |
| `Kernel.Kernel.SemaUp` | proj1/src/threads/synch.c:120-149 | the transition of sema_up_internal(), with its yield |
| `Kernel.Kernel.DonatePriority` | proj1/src/threads/synch.c:233-242 | the donation loop reaches the state of the model's walk |
| `Kernel.Kernel.LockAcquire` | proj1/src/threads/synch.c:224-247 | the transition of lock_acquire() |
| `Kernel.Kernel.ResumeDown` | proj1/src/threads/synch.c:69-85 | what a woken thread does when it is chosen again |
| `Kernel.Kernel.DropHeldLock` | proj1/src/threads/synch.c:274-302 | the loops of lock_release() restore the priority and drop the lock |
| `Kernel.Kernel.LockRelease` | proj1/src/threads/synch.c:274-302 | the transition of lock_release() |
| `Blocks.InodeRoundTrip` | proj1/src/filesys/inode.c:12-21 | an on-disk inode decodes to what was encoded |
| `Blocks.ByteToSector` | proj1/src/filesys/inode.c:46-54 | a sector of the extent for a position in the file, and -1 exactly for all others |
| `Blocks.WriteBytesContents` | proj1/src/filesys/inode.c:257-318 | a write to the extent splices the flat contents |
| `InodeData.Device.ReadAt` | proj1/src/filesys/inode.c:200-250 | transfers exactly the bytes in range, stopping only where a bounce buffer is missing, and returns that slice of the file |
| `InodeData.Device.WriteAt` | proj1/src/filesys/inode.c:257-318 | writes exactly those bytes, none when writes are denied |
| `InodeData.WriteIsSplice` | proj1/src/filesys/inode.c:257-318 | a write changes exactly the moved bytes of this file and no byte of a disjoint extent |
| `InodeData.ReadBackWrite` | proj1/src/filesys/inode.c:200-318 | reading back what was written returns it |
| `InodeData.MovedStops` | proj1/src/filesys/inode.c:218-237 | without a bounce buffer a transfer stops before the first partial sector |
| `Directory.EntryRoundTrip` | proj1/src/filesys/directory.c:17-22 | an entry decodes to the name and sector it was made of, whatever the unused bytes hold |
| `Directory.ValidNameFits` | proj1/src/filesys/directory.c:151-153 | the valid names are those that fit into an entry with their NUL |
| `Directory.EntriesAfterSplice` | proj1/src/filesys/directory.c:171-175 | rewriting the bytes of one entry changes that entry alone |
| `Directory.LookupAgrees` | proj1/src/filesys/directory.c:91-112 | lookup() finds a name exactly when the map has it, with its sector |
| `Directory.AddInserts` | proj1/src/filesys/directory.c:141-179 | dir_add() inserts exactly when the name is valid, new and a slot is free, and otherwise changes nothing |
| `Directory.AddSoundIff` | proj1/src/filesys/directory.c:159-175 | under memory shortage it is sound if and only if it did not write after missing the name or stopping at a used slot |
| `Directory.ShortOfMemoryLosesEntry` | proj1/src/filesys/directory.c:159-175 | a concrete directory in which dir_add() loses an entry |
| `Directory.EraseDeletes` | proj1/src/filesys/directory.c:184-216 | dir_remove() deletes exactly the name, once the inode could be opened |
| `Directory.EraseChanges` | proj1/src/filesys/directory.c:199-211 | changes the directory if and only if the search comes upon the name and there is memory, and then that entry alone |
| `Directory.ListingIsDomain` | proj1/src/filesys/directory.c:221-236 | repeated dir_readdir() lists every name once |
| `Directory.AddToDiskEntries` | proj1/src/filesys/directory.c:141-179 | on the device dir_add() is the operation on entries and touches no other sector |
| `Directory.EraseOnDiskEntries` | proj1/src/filesys/directory.c:204-207 | on the device the erasure is the operation on entries and touches no other sector |
| `Directory.Dir.ReadEntry` | proj1/src/filesys/directory.c:101-102 | the read that all loops perform is all or nothing |
| `Directory.Dir.Lookup` | proj1/src/filesys/directory.c:91-112 | the first matching entry in use |
| `Directory.Dir.FindSlot` | proj1/src/filesys/directory.c:166-169 | the first free slot, or the end |
| `Directory.Dir.AddName` | proj1/src/filesys/directory.c:141-179 | leaves the device that the model says |
| `Directory.Dir.EraseEntry` | proj1/src/filesys/directory.c:204-207 | leaves the device that the model says |
| `Directory.Dir.ReadDir` | proj1/src/filesys/directory.c:221-236 | returns the next name in use and moves behind it; a read without a bounce buffer ends the listing |
| `FileInvariant.AllocateKeeps` | proj1/src/filesys/free-map.c:27-41 | hands out sectors no live inode owns, marks exactly them, and undoes everything when the map cannot be written |
| `FileInvariant.ReleaseKeeps` | proj1/src/filesys/free-map.c:44-50 | clears exactly the group and spares every live file |
| `FileInvariant.WriteMapKeeps` | proj1/src/lib/kernel/bitmap.c:355-360 | writing the free map touches no other file; a complete write leaves it on disk |
| `FileInvariant.ExtentWrite` | proj1/src/filesys/inode.c:257-318 | a write into a live file keeps the invariant and every other live file |
| `FileOps.OpenInodeKeeps` | proj1/src/filesys/inode.c:111-142 | inode_open() of a live sector returns its one in-memory inode, with one reference more |
| `FileOps.CloseInodeKeeps` | proj1/src/filesys/inode.c:163-186 | the last close of a removed inode frees exactly its sectors, all marked before, so the ASSERT of free_map_release() holds; any other close frees nothing |
| `FileOps.CreateInodeKeeps` | proj1/src/filesys/inode.c:72-106 | the new inode has a zeroed extent of its own, disjoint from all live ones |
| `FileOps.AddNameKeeps` | proj1/src/filesys/directory.c:141-179 | the new inode becomes live exactly when its entry is written |
| `FileOps.EraseKeeps` | proj1/src/filesys/directory.c:199-211 | an erased but open inode stays live and has no name |
| `FileRuns.CreateKeeps` | proj1/src/filesys/filesys.c:45-59 | the exact condition for success; success makes a new zeroed file under the name, failure leaves the live files as they were; nothing else changes |
| `FileRuns.CreateSucceedsIff` | proj1/src/filesys/filesys.c:45-59 | succeeds if and only if the root opens, an inode and its sectors can be had, and the two searches, as far as they get, find the name new and a slot |
| `FileRuns.CreateTakes` | proj1/src/filesys/free-map.c:27-41 | a success marks exactly the first free sector and the first sufficient group after that |
| `FileRuns.CreateReleasesMarked` | proj1/src/filesys/filesys.c:54-55 | the sector that a failing create gives back is marked, so the ASSERT of free_map_release() holds there too |
| `FileRuns.OpenKeeps` | proj1/src/filesys/filesys.c:66-77 | the exact condition for success, which yields a handle on the named inode; nothing else changes |
| `FileRuns.RemoveNameKeeps` | proj1/src/filesys/directory.c:184-216 | dir_remove() with all its failures: the exact condition for success, which erases the name and marks the inode; failure changes no name and no file |
| `FileRuns.RemoveKeeps` | proj1/src/filesys/filesys.c:83-91 | the exact condition for success, which erases the name and frees the file at once if and only if nobody has it open |
| `FileRuns.CloseFileKeeps` | proj1/src/filesys/file.c:45-54 | gives back the denial and the reference |
| `FileRuns.ReopenFileKeeps` | proj1/src/filesys/file.c:38-42 | one more handle on the same in-memory inode |
| `FileRuns.DenyKeeps` | proj1/src/filesys/file.c:118-141 | exactly the file's flag changes, and exactly its inode's counter by one |
| `FileRuns.WriteCountIs` | proj1/src/filesys/inode.c:257-318 | file_write() moves nothing if some open file denies writes, else all bytes that lie in the file or, without a bounce buffer, the whole sectors of them |
| `FileRuns.WriteKeeps` | proj1/src/filesys/file.c:94-100 | splices the bytes that WriteCountIs counts into the file at the position, advances it, and changes no other file |
| `FileRuns.SeekKeeps` | proj1/src/filesys/file.c:153-159 | the position of that file alone becomes the one given |
| `FileRuns.StepKeeps` | proj1/src/filesys/filesys.c:45-91 | every operation keeps the invariant and all untouched files; it reclaims unless it overwrites an entry, and persists when its map writes are complete |
| `FileRuns.ReclaimsIff` | proj1/src/filesys/directory.c:159-175 | a step keeps every file named, open or freed if and only if it is not, by the state before it, a create over the entry of another file |
| `FileMount.UnpackPacked` | proj1/src/lib/kernel/bitmap.c:340-360 | bitmap_read() inverts bitmap_write() |
| `FileMount.BootSatisfiesInv` | proj1/src/filesys/filesys.c:94-103 | a freshly formatted and mounted device satisfies the invariant |
| `FileMount.FormatIff` | proj1/src/filesys/filesys.c:94-103 | formatting succeeds if and only if there is room for the inodes, the free map and the directory, and memory for each step |
| `FileMount.BootSucceedsIff` | proj1/src/filesys/filesys.c:17-31 | formatting and mounting succeed if and only if the device has room and every allocation of the start-up succeeds |
| `FileMount.MountRestores` | proj1/src/filesys/free-map.c:53-61 | mounting succeeds if and only if there is memory, and brings back the free map, the names and the files |
| `FileMount.StartRestores` | proj1/src/filesys/filesys.c:17-31 | a start without formatting succeeds if and only if there is memory, and brings back everything on an up-to-date device |
| `FileStale.CloseInodeIff` | proj1/src/filesys/inode.c:163-186 | inode_close() leaves the free map on the device up to date, or stale, under an exact condition on its sectors and the two writes |
| `FileStale.CreateInIff` | proj1/src/filesys/filesys.c:50-55 | a failing create leaves it stale exactly when the mark of its sector got out and the give-back did not |
| `FileStale.PersistedIff` | proj1/src/filesys/free-map.c:27-50 | a step from an up-to-date device leaves it up to date if and only if none of these conditions, all on the state before the step, holds |
| `FileTheorems.FileInvAlways` | proj1/src/filesys/filesys.c:17-91 | the invariant holds in every state of every run |
| `FileTheorems.PersistedAlways` | proj1/src/filesys/free-map.c:27-50 | the free map on the device is up to date in every run until a step that leaves it stale |
| `FileTheorems.PersistedThroughout` | proj1/src/filesys/free-map.c:27-50 | it is up to date in all states of a run if and only if no step leaves it stale |
| `FileTheorems.EnoughForMap` | proj1/src/lib/kernel/bitmap.c:355-360 | complete writes of the map rule stale steps out |
| `FileTheorems.CountersExact` | proj1/src/filesys/inode.c:322-338 | one in-memory inode per sector; open_cnt and deny_write_cnt count exactly the handles, so their ASSERTs hold |
| `FileTheorems.ExtentsDisjoint` | proj1/src/filesys/inode.c:72-106 | sectors of live inodes are disjoint and marked in every run |
| `FileTheorems.ReleasedExactly` | proj1/src/filesys/inode.c:163-195 | a marked sector is freed by a step if and only if its inode stops being live in that step, in every run without a create over another entry |
| `FileTheorems.LiveMeaning` | proj1/src/filesys/inode.c:163-195 | live is exactly reserved, named, or removed and still open, in every run without a create over another entry |
| `FileTheorems.FilesIsolated` | proj1/src/filesys/inode.c:257-318 | a file that is not written to keeps its bytes across any run |
| `FileTheorems.RebootRestores` | proj1/src/filesys/free-map.c:53-68 | at any point of a run without a stale step the device can be mounted again without loss, if and only if there is memory to read the map |
| `FileTheorems.UniqueNamesAlways` | proj1/src/filesys/filesys.c:45-91 | names stay unique in every run without a wrong create, as decided by the state before it; create inserts into and remove deletes from the map of names, all else leaves it alone |
| `FileTheorems.NamesSoundIff` | proj1/src/filesys/directory.c:159-175 | a step keeps names unique and changes their map as it should if and only if it is not, by the state before it, a create that succeeds with an existing name or over another entry |
| `FileTheorems.EnoughForSearches` | proj1/src/filesys/directory.c:159-175 | with memory for both searches no create goes wrong |
| `FileTheorems.NameLost` | proj1/src/filesys/directory.c:159-175 | a run of two creates on a fresh device in which the second takes the first name away |
| `FileTheorems.NameTwice` | proj1/src/filesys/directory.c:155-175 | a run of two creates on a fresh device that leaves a name twice |
| `FileTheorems.FailedCreateLeaksIff` | proj1/src/filesys/filesys.c:45-59 | a failed filesys_create(), for whatever reason, leaves the free map unchanged if and only if no inode was made or the file was to be empty |
| `FileTheorems.InvalidNameLeaks` | proj1/src/filesys/directory.c:151-153 | an invalid name makes every create leak that gets as far as its inode |
| `FileTheorems.CreateLeaks` | proj1/src/filesys/filesys.c:45-59 | on a fresh device of six sectors a one-byte file without a name costs a sector |
| `FileTheorems.CreateGoesStale` | proj1/src/filesys/filesys.c:50-55 | a failing create on a fresh device of six sectors leaves the free map in memory as it was and the one on the device different |
| `Files.Files.constructor` | proj1/src/filesys/free-map.c:12-20 | empty tables, and sectors 0 and 1 marked |
| `Files.Files.DoFormat` | proj1/src/filesys/filesys.c:94-103 | the transition of do_format(), with the failures that panic |
| `Files.Files.FreeMapOpen` | proj1/src/filesys/free-map.c:53-61 | the transition of free_map_open(), with the failures that panic |
| `Files.Files.LoadBits` | proj1/src/lib/kernel/bitmap.c:340-351 | the bitmap holds the bits of the bytes read |
| `Files.Files.FilesysInit` | proj1/src/filesys/filesys.c:17-31 | mounts, after formatting if asked to; formatting establishes the invariant of the runs |
| `Files.Files.WriteFreeMap` | proj1/src/lib/kernel/bitmap.c:355-360 | the transition, and whether it was complete |
| `Files.Files.FreeMapAllocate` | proj1/src/filesys/free-map.c:27-41 | the transition of free_map_allocate() |
| `Files.Files.FreeMapRelease` | proj1/src/filesys/free-map.c:44-50 | the transition of free_map_release() |
| `Files.Files.InodeCreate` | proj1/src/filesys/inode.c:72-106 | the transition of inode_create(), with the zeroing loop |
| `Files.Files.InodeOpen` | proj1/src/filesys/inode.c:111-142 | the transition of inode_open(), with the search loop |
| `Files.Files.InodeReopen` | proj1/src/filesys/inode.c:145-151 | one reference more; a null inode is passed through |
| `Files.Files.InodeClose` | proj1/src/filesys/inode.c:163-186 | the transition of inode_close(); nothing for a null inode |
| `Files.Files.InodeRemove` | proj1/src/filesys/inode.c:190-195 | the inode is marked for deletion |
| `Files.Files.FileOpen` | proj1/src/filesys/file.c:17-34 | the transition of file_open(); null for a null inode |
| `Files.Files.FileReopen` | proj1/src/filesys/file.c:38-42 | the transition of file_reopen() |
| `Files.Files.FileDenyWrite` | proj1/src/filesys/file.c:118-127 | the transition of file_deny_write() |
| `Files.Files.FileAllowWrite` | proj1/src/filesys/file.c:132-141 | the transition of file_allow_write() |
| `Files.Files.FileClose` | proj1/src/filesys/file.c:45-54 | the transition of file_close(); nothing for a null file |
| `Files.Files.FileWrite` | proj1/src/filesys/file.c:94-100 | the transition of file_write() and its byte count |
| `Files.Files.FileRead` | proj1/src/filesys/file.c:68-74 | the buffer receives the file's bytes at the position, which advances |
| `Files.Files.DirOpenRoot` | proj1/src/filesys/directory.c:34-58 | the transition of dir_open_root() |
| `Files.Files.DirAdd` | proj1/src/filesys/directory.c:141-179 | the transition of dir_add() on the root |
| `Files.Files.DirFind` | proj1/src/filesys/directory.c:91-112 | the entry found in the root |
| `Files.Files.DirLookup` | proj1/src/filesys/directory.c:118-133 | the transition of dir_lookup(), keeping the invariant |
| `Files.Files.DirRemove` | proj1/src/filesys/directory.c:184-216 | the transition of dir_remove() |
| `Files.Files.CreateInDir` | proj1/src/filesys/filesys.c:50-55 | allocation, inode and entry, undone as the source does |
| `Files.Files.FilesysCreate` | proj1/src/filesys/filesys.c:45-59 | the transition of filesys_create(), keeping the invariant |
| `Files.Files.FilesysOpen` | proj1/src/filesys/filesys.c:66-77 | the transition of filesys_open(), keeping the invariant |
| `Files.Files.FilesysRemove` | proj1/src/filesys/filesys.c:83-91 | the transition of filesys_remove(), keeping the invariant |
| `Bitmap.FirstGroup` | proj1/src/lib/kernel/bitmap.c:295-310 | the least group of equal bits at or after the start, or none |
| `Bitmap.EmptyGroup` | proj1/src/lib/kernel/bitmap.c:295-326 | a group of no bits is found at the start index |
| `Bitmap.WordUpdate` | proj1/src/lib/kernel/bitmap.c:156-179 | setting one bit of a word changes no other |
| `Bitmap.ElemCntHolds` | proj1/src/lib/kernel/bitmap.c:49-54 | the words of a bitmap are just enough for its bits |
| `Bitmap.Bitmap.Test` | proj1/src/lib/kernel/bitmap.c:197-203 | the bit of the abstract sequence |
| `Bitmap.Bitmap.Set` | proj1/src/lib/kernel/bitmap.c:144-179 | exactly that bit changes |
| `Bitmap.Bitmap.SetMultiple` | proj1/src/lib/kernel/bitmap.c:217-228 | exactly that range changes |
| `Bitmap.Bitmap.ContainsValue` | proj1/src/lib/kernel/bitmap.c:250-263 | whether some bit of the range has the value |
| `Bitmap.Bitmap.Scan` | proj1/src/lib/kernel/bitmap.c:295-310 | the least sufficient group, or none if and only if there is none |
| `Bitmap.Bitmap.ScanAndFlip` | proj1/src/lib/kernel/bitmap.c:319-326 | the least group, and exactly its bits flipped |
| `Palloc.InitSatisfiesInv` | proj1/src/threads/palloc.c:45-62 | the two pools are disjoint and lie inside the free memory |
| `Palloc.InitSplits` | proj1/src/threads/palloc.c:36-62 | the user pool gets the end of the free pages, half of them up to the limit; each pool gives up just the pages of its bitmap; all others are free; a panic exactly when a bitmap does not fit |
| `Palloc.GetKeepsInv` | proj1/src/threads/palloc.c:70-101 | succeeds exactly when enough free pages lie in a row, takes the first such, and the new group overlaps no live group |
| `Palloc.FreeKeepsInv` | proj1/src/threads/palloc.c:117-142 | the group's pool is found, all its pages were marked, and exactly they are freed |
| `Palloc.GetFreeRestores` | proj1/src/threads/palloc.c:70-142 | taking a group and freeing it restores both maps |
| `Palloc.LiveGroupsNeverOverlap` | proj1/src/threads/palloc.c:70-142 | in every run live groups are disjoint and a page is marked exactly when one covers it |
| `Palloc.PageAllocator.GetMultiple` | proj1/src/threads/palloc.c:70-101 | the transition over the packed bitmaps |
| `Palloc.PageAllocator.FreeMultiple` | proj1/src/threads/palloc.c:117-142 | the transition over the packed bitmaps; nothing for a null pointer or no pages |
| `Malloc.BlockToArena` | proj1/src/threads/malloc.c:267-294 | block_to_arena() inverts arena_to_block() and its alignment ASSERT holds |
| `Malloc.BlockSizesDouble` | proj1/src/threads/malloc.c:71-85 | the block sizes are 16 and its doubles below half a page |
| `Malloc.BlocksPerArenaValue` | proj1/src/threads/malloc.c:71-85 | the blocks per arena are what malloc_init() computes |
| `Malloc.LiveBlocksDisjoint` | proj1/src/threads/malloc.c:89-154 | two live blocks that share a byte are one |
| `Malloc.AllocKeepsInv` | proj1/src/threads/malloc.c:89-154 | malloc() returns a block that was not live, is big enough, and leaves all others alone |
| `Malloc.SmallSucceedsIff` | proj1/src/threads/malloc.c:89-154 | a request up to 1024 bytes succeeds if and only if a block of the smallest sufficient size is free or a kernel page is, and gets a block of that size |
| `Malloc.BigSucceedsIff` | proj1/src/threads/malloc.c:106-123 | a larger request succeeds if and only if enough kernel pages for it and the arena header are free in a row |
| `Malloc.NothingAllocated` | proj1/src/threads/malloc.c:89-98 | a request of no bytes returns null and changes nothing |
| `Malloc.DeallocKeepsInv` | proj1/src/threads/malloc.c:218-264 | free() ends exactly its block; a returned arena leaves no block on a free list |
| `Malloc.UnusedArena` | proj1/src/threads/malloc.c:241-253 | an arena whose count is full has all blocks on the free list and none in use |
| `Malloc.HeapInvAlways` | proj1/src/threads/malloc.c:89-264 | the heap invariant holds in every run of malloc(), free() and other page traffic |
| `Malloc.BlocksInUseNeverOverlap` | proj1/src/threads/malloc.c:89-264 | in every run two blocks in use share no byte |
| `Malloc.AllocKeepsOthers` | proj1/src/threads/malloc.c:89-154 | malloc() takes pages for its arenas alone |
| `Malloc.DeallocKeepsOthers` | proj1/src/threads/malloc.c:218-264 | free() gives back pages of its arenas alone |
| `Malloc.NothingLost` | proj1/src/threads/malloc.c:218-264 | in every run, when no block is in use, no page is either but those of other clients |
| `MallocHeap.UnlinkedAll` | proj1/src/threads/malloc.c:246-250 | unlinking an arena's blocks one by one removes exactly the blocks of its page |
| `MallocHeap.MallocHeap.FindDesc` | proj1/src/threads/malloc.c:102-104 | the smallest descriptor that is big enough |
| `MallocHeap.MallocHeap.NewArena` | proj1/src/threads/malloc.c:125-146 | the loop links every block of the new arena |
| `MallocHeap.MallocHeap.Malloc` | proj1/src/threads/malloc.c:89-154 | the transition of malloc(), keeping the invariant |
| `MallocHeap.MallocHeap.Free` | proj1/src/threads/malloc.c:218-264 | the transition of free(), keeping the invariant; nothing for a null pointer |
| `MallocHeap.MallocHeap.ReturnArena` | proj1/src/threads/malloc.c:243-253 | the unlinking loop and the return of the page |
| `Arithmetic.Nlz` | proj1/src/lib/arithmetic.c:41-73 | shifting by it normalises the divisor |
| `Arithmetic.CountLeadingZeros` | proj1/src/lib/arithmetic.c:41-73 | the stepwise search counts the leading zeros |
| `Arithmetic.UDiv64` | proj1/src/lib/arithmetic.c:77-127 | the quotient is floor(n/d) for all n and non-zero d, and no divl overflows |
| `Arithmetic.UMod64ExactIff` | proj1/src/lib/arithmetic.c:131-135 | the remainder is right for all n if and only if d is at most 2^32 |
| `Arithmetic.SDiv64TruncatesIff` | proj1/src/lib/arithmetic.c:139-146 | truncates toward zero except for INT64_MIN / -1 |
| `Arithmetic.SMod64Value` | proj1/src/lib/arithmetic.c:150-154 | the C remainder, cut to 32 bits |
| `Arithmetic.SMod64ExactIff` | proj1/src/lib/arithmetic.c:150-154 | the remainder is right for all n if and only if \|d\| is at most 2^31 |
| `HashTable.PowerOf2Meaning` | proj1/src/lib/kernel/hash.c:328-340 | the bit trick recognises exactly the powers of two |
| `HashTable.LargestPower` | proj1/src/lib/kernel/hash.c:368-372 | clearing low bits ends at the largest power of two not above the start |
| `HashTable.IndexIsMod` | proj1/src/lib/kernel/hash.c:305-310 | the masked hash is the hash modulo the bucket count |
| `HashTable.MembersSize` | proj1/src/lib/kernel/hash.c:247-251 | elem_cnt is the size of the set, and no two elements are equal |
| `HashTable.PushAllKeeps` | proj1/src/lib/kernel/hash.c:394-410 | moving distinct elements into new buckets keeps all of them and places each by its hash |
| `HashTable.HashTable.Init` | proj1/src/lib/kernel/hash.c:24-42 | hash_init() fails exactly without memory; otherwise an empty set in four buckets |
| `HashTable.HashTable.Size` | proj1/src/lib/kernel/hash.c:247-251 | the size of the set |
| `HashTable.HashTable.FindElem` | proj1/src/lib/kernel/hash.c:314-326 | an equal element of the whole set is found in the one bucket if there is any |
| `HashTable.HashTable.Find` | proj1/src/lib/kernel/hash.c:131-135 | an equal element, or none if and only if there is none |
| `HashTable.HashTable.Insert` | proj1/src/lib/kernel/hash.c:98-110 | adds the element unless an equal one is there |
| `HashTable.HashTable.Replace` | proj1/src/lib/kernel/hash.c:114-127 | the element takes the place of an equal one |
| `HashTable.HashTable.Delete` | proj1/src/lib/kernel/hash.c:144-154 | removes exactly the equal element |
| `HashTable.HashTable.BestCount` | proj1/src/lib/kernel/hash.c:364-372 | the largest power of two not above half the elements, at least four |
| `HashTable.HashTable.Rehash` | proj1/src/lib/kernel/hash.c:351-413 | the set stays the same with or without memory; with it the bucket count is the best one |
| `HashTable.HashTable.Redistribute` | proj1/src/lib/kernel/hash.c:394-410 | the nested loops push every element once |
| `HashTable.HashTable.VisitAll` | proj1/src/lib/kernel/hash.c:182-235 | the iteration idiom visits every element exactly once |
| `HashTable.Iterator.Next` | proj1/src/lib/kernel/hash.c:218-235 | the next element in order, or the end |
| `Sort.SiftStep` | proj1/src/lib/stdlib.c:96-123 | one swap moves the only violation of the heap property down |
| `Sort.RootIsLargest` | proj1/src/lib/stdlib.c:146-151 | the root of a heap is a largest element |
| `Sort.Heapify` | proj1/src/lib/stdlib.c:96-123 | restores the heap below its index and permutes only the first cnt elements |
| `Sort.BuildHeap` | proj1/src/lib/stdlib.c:142-144 | the first loop builds a heap |
| `Sort.HeapSort` | proj1/src/lib/stdlib.c:131-152 | the result is sorted and a permutation, for every total preorder |
| `Sort.BinarySearch` | proj1/src/lib/stdlib.c:184-207 | finds a match if and only if there is one |
| `Ustar.OctalRoundTrip` | proj1/src/lib/ustar.c:129-162 | parsing a printed octal field returns the value |
| `Ustar.ParseOctalIff` | proj1/src/lib/ustar.c:129-162 | a field is accepted with a value if and only if it is octal digits of that value, within 32 bits, and a space or NUL behind them |
| `Ustar.StripIdempotent` | proj1/src/lib/ustar.c:65-73 | stripping leaves a name without dangerous prefix, and stripping it again changes nothing |
| `Ustar.StripDrops` | proj1/src/lib/ustar.c:65-73 | each of "/", "./" and "../" is dropped from the front |
| `Ustar.StripKeeps` | proj1/src/lib/ustar.c:65-73 | a harmless name stays; an empty one and ".." become "." |
| `Ustar.SumIgnoresField` | proj1/src/lib/ustar.c:36-54 | the checksum does not depend on its own field |
| `Ustar.ChecksumIs` | proj1/src/lib/ustar.c:36-54 | the sum of all bytes with eight spaces for the checksum field |
| `Ustar.UstarRoundTrip` | proj1/src/lib/ustar.c:82-227 | parsing a made header returns the stripped name, the type and the size; a regular file of negative size is rejected as too large |
| `Ustar.HarmlessRoundTrip` | proj1/src/lib/ustar.c:82-227 | a harmless name of up to 99 bytes comes back as it is, with its type and size |
| `Ustar.HeaderLayout` | proj1/src/lib/ustar.c:82-118 | every byte of a made header, as the format lays it out |
| `Ustar.ComplaintIff` | proj1/src/lib/ustar.c:181-227 | the complaint is the first thing wrong with a header, in terms of its bytes |
| `Ustar.ParsesIff` | proj1/src/lib/ustar.c:181-227 | a header is accepted if and only if nothing is wrong with it, and yields its stripped name, type and size; zeros end the archive |
| `Ustar.CorruptionDetected` | proj1/src/lib/ustar.c:181-227 | any single changed byte outside the checksum field is rejected |
| `Ustar.PrintedIsDigits` | proj1/src/lib/stdio.c:469-547 | a value that fits is printed as its digits in full width |
| `Ustar.PrintedMeans` | proj1/src/lib/stdio.c:469-547 | what is printed are digits of the value, at least one and the width, without a superfluous zero |
| `Ustar.FormatOctal` | proj1/src/lib/stdio.c:469-547 | for an unsigned octal conversion with the 0 flag, the buffer filled backwards prints the digits forwards, padded with zeros |
| `Ustar.CopyString` | proj1/src/lib/string.c:325-343 | the string, cut to the field, and a NUL; nothing for a field of no bytes; its length is returned |
| `Ustar.StripName` | proj1/src/lib/ustar.c:65-73 | the stripping loop |
| `Ustar.CalculateChksum` | proj1/src/lib/ustar.c:36-54 | the sum with the checksum field read as spaces |
| `Ustar.ParseOctalField` | proj1/src/lib/ustar.c:129-162 | the value, or a failure for a bad, unterminated or overflowing field |
| `Ustar.UstarMakeHeader` | proj1/src/lib/ustar.c:82-118 | fills the header in place for every int size, or refuses a long name |
| `Ustar.UstarParseHeader` | proj1/src/lib/ustar.c:181-227 | the result with the source's order of complaints |
| `SetupStack.ArgcExactIff` | proj2/src/userprog/process.c:582-594 | argc is the number of tokens if and only if the line is not empty and has no leading or trailing space; it is never less |
| `SetupStack.LeadingSpaceMiscounted` | proj2/src/userprog/process.c:582-594 | a line with a leading space is counted too high |
| `SetupStack.TokensFit` | proj2/src/userprog/process.c:621-636 | the strings fit where the command line was to go |
| `SetupStack.ImageLayout` | proj2/src/userprog/process.c:596-619 | the size of the image: the line, one to four bytes of padding, argc + 1 pointers and three words, aligned |
| `SetupStack.StackDecodes` | proj2/src/userprog/process.c:596-636 | a program reads the tokens back through argv, and null behind them |
| `SetupStack.StackReadsBack` | proj2/src/userprog/process.c:579-642 | a page built for a line reads back, through argc and argv, as the tokens of that line and null behind them |
| `SetupStack.CountArgs` | proj2/src/userprog/process.c:582-596 | the counting loop |
| `SetupStack.StrTok` | proj1/src/lib/string.c:234-275 | for any delimiters, the next token, NUL-terminated in place, and the rest of the tokens behind it |
| `SetupStack.SetupStack` | proj2/src/userprog/process.c:579-642 | a page that reads back as the tokens, or the exact conditions under which there is no token or the image leaves the page |

## Left out

- Device drivers, partitions, context switch, interrupt stubs and page tables: hardware; a switch is a change of the running thread.
- proj2 paging, swapping and system calls: their code does not keep the mapping and lock rules that whole-memory claims need.
- lock_try_acquire(), condition variables, the interrupt queue, calloc() and realloc(): easy members beside those modelled.
- The FIFO semaphores of proj2: the priority version of proj1 subsumes their difficulty.
- Semaphores and locks are fixed at the start of a run, and a semaphore's value does not wrap at 2^32.
- A thread exits without locks, and the priority given to thread_set_priority() is not negative; the source checks neither.
- A general rule that a holder is never below its waiters: the code does not keep it, since a thread that waits again does not donate again.
- File system operations are atomic; the source leaves locking to its callers.
- File sizes within 511 bytes of INT_MAX, where rounding up to sectors overflows.
- Kernel.Kernel.ThreadStart: the page and the stack frames of the new thread; a thread_create() that finds no page returns before it changes any modelled state.
- Mlfqs, statistics and thread names: no influence on the modelled behaviour.
- malloc() requests whose page count overflows 32 bits, and the lock of a descriptor.
- Sort.HeapSort: an element is one value, so the byte loop of do_swap() is one swap.
- Ustar.FormatOctal: the other bases, flags and precisions of format_integer() are not modelled; ustar headers use none of them.
- Files.Files.constructor: a device of fewer than two sectors, in whose bitmap free_map_init() would mark bits that it does not have.
- Files.Files.FreeMapOpen: a device whose free map inode points outside it; how far such a read gets is up to the device driver.
- SetupStack.SetupStack: a write outside the page ends the model; what happens then is up to the page-fault handler, which is not part of it. A line without a token stops at strlen() of the null pointer in the same way.
