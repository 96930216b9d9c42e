# Verified models of the vespertine kernel's memory, locking, cache, scheduling and stream code

A Dafny 4.11 project that models the stateful core of an x86_64 kernel and proves what that core is
for. `dafny verify dfyconfig.toml` checks everything.

| module | what it models |
|---|---|
| `Wrappers`, `Bits`, `Words` | an optional value; powers of two, exclusive or, alignment and trailing zeros, as the frame arithmetic uses them; 64-bit words as numbers |
| `BuddySpec`, `BuddyAllocator`, `BootHandover`, `Magazine` | the physical frame allocator: as functions on free lists; as the code's intrusive links and per-frame flags, proved to compute those functions; the boot bitmap and its hand-over; the per-core magazines and who owns each frame |
| `PageTable`, `VmaSpec`, `VmaList`, `Teardown`, `AddressSpace`, `Requests`, `Processes` | four-level page tables shared by all processes (section 4.5 of the Intel SDM Volume 3A), the list of mapped areas, page faults, batched unmapping, teardown and the frames a process holds; the same as a simple map from pages to rights, which the table code is proved to refine; several processes interleaving over one memory |
| `ThreadSets`, `RwLockProtocol`, `MutexProtocol`, `SemaphoreProtocol` | the blocking locks as transition systems over any finite set of threads, one step per atomic access or wait-queue operation |
| `ReadyQueue`, `SchedulerProtocol` | one core's 32-level ready queue, mailbox and `schedule`; all cores together with remote wake-ups |
| `BlockCache`, `CacheProtocol` | the ext2 write-back cache with second-chance eviction over a device whose transfers may fail half way; overlapping operations, one step per locked section |
| `PoolTree` | the tree of memory quotas under concurrent reservation and rollback |
| `Calendar` | epoch and civil date conversion with 32-bit intermediate arithmetic |
| `SocketStream` | the socket ring buffer and its two ends as a byte stream |

Frames are physical addresses divided by 4096. The kernel is built in release mode, so integer
overflow wraps; where that matters the models reduce modulo the word. Device outcomes, copies to and
from user memory, replies of backing objects, spurious compare-exchange failures and the interleaving
of threads and cores are chosen by the environment: parameters, schedules, or nondeterministic choice.

## Where the code does not do what it is for

Each has the code as it is, a concrete case, and the exact condition under which the property holds.

- Clock sweep: the count of in-flight slots met is never reset, so the sweep can report failure with an
  evictable slot present (`BlockCache.SpuriousFailure`; exact condition `SweepFails` in `BlockCache.Sweep`).
- A cache miss that ends in a device error leaves its slot in flight, and every later operation on that
  block spins for ever (`BlockCache.HeldForEver`). Exactly which block an operation loses, and that it
  loses none without an error or without room, is in `BlockCache.Cache.ReadBlock` and `WriteBlock`; no run,
  overlapping or not, gives the slot back (`BlockCache.Serve`, `CacheProtocol.AbandonedForEver`).
- A cache hit drops the lock and then uses the slot it remembers without looking again, so a write can land
  in another block (`CacheProtocol.StaleHit`; exact condition in `CacheProtocol.HitLandsExactly`, and it
  never happens if no miss takes the slot in between, `CacheProtocol.UnreservedNotRenamed`).
- A flush copies dirty data out, writes it and then clears dirty bits without looking again, so a write that
  hits in between is marked clean without having been written (`CacheProtocol.LostWrite`; exact condition in
  `CacheProtocol.FlushSavesExactly`, and it never happens to a slot into which nobody puts data in between,
  `CacheProtocol.UnwrittenIsSaved`).
- `mmap` on an empty list grants any size; behind an area that ends beyond the arena, or whose end rounds up
  beyond it for 2 MiB pages, an unsigned difference wraps; behind an area that starts below the arena the
  answer can lie below the arena (`VmaSpec.EmptyOverrun`, `VmaSpec.BeyondArena`, `VmaSpec.HugeOverrun`,
  `VmaSpec.BelowArena`; exact condition in `VmaSpec.FirstFitExactly`).
- A fixed mapping whose range wraps around the word is accepted before areas it overlaps, and one that begins
  in an area which reaches the end of the word is accepted inside it (`VmaSpec.WrappedPlacement`,
  `VmaSpec.PlacedInWrapped`; exact conditions in `VmaSpec.PlaceAtExactly`, `VmaSpec.PlaceAtKeepsSorted`).
- A mapping whose size rounds up beyond the end of the word is granted with size zero, and its address is
  invalid (`Requests.GrantOfNothing`; exact condition in `Requests.GrantedIsUsable`).
- A second fault on a page of the process's own, as two threads can raise at once, loses the frame the first
  one mapped (`Requests.LeakingFault`; `Requests.Life` ends with every frame if and only if no fault leaks, and
  counts the frames lost).
- A pool reservation whose sum wraps is granted beyond the quota (`PoolTree.WrappingGrant`; exact
  condition in `PoolTree.StepKeeps`, one that callers can check in `PoolTree.ModestRunExact`).
- A semaphore signalled with its counter at the highest number gets the lowest (`SemaphoreProtocol.CounterWraps`;
  `SemaphoreProtocol.StepKept` holds exactly when that is not the step, and `SemaphoreProtocol.FewSignalsFit`
  gives a condition on the number of signals).
- `epoch_to_datetime` wraps on the lowest 146096 of the day numbers that fit in 32 bits
  (`Calendar.LowestDayIsWrong`; exact condition in `Calendar.RoundTripExactlyInRange`).
- A socket read whose copy to user memory fails has already taken the bytes out of the stream
  (`SocketStream.LostByte`; exact condition in `SocketStream.DeliveredExactly`).

## Model

| member | source | states |
|---|---|---|
| `BuddySpec.AllocKeeps` | kernel/src/memory/pmm.rs:116-186 | an allocation hands out an aligned block that was wholly free, exactly its frames stop being free, and the lists stay disjoint, duplicate-free and coalesced; failure changes nothing |
| `BuddySpec.FreeKeeps` | kernel/src/memory/pmm.rs:196-235 | a free leaves the lists disjoint and with no two free buddies below the top order, and exactly the freed frames become free |
| `BuddySpec.MergeKeeps` | kernel/src/memory/pmm.rs:202-217 | one merge: the buddy leaves its list and the joined block, aligned at the next order, covers the frames of both |
| `BuddySpec.SplitKeeps` | kernel/src/memory/pmm.rs:158-186 | halving a block down to an order keeps the lists well formed and frees exactly the upper halves |
| `BuddySpec.WhollyFreeIsOneBlock` | kernel/src/memory/pmm.rs:196-235 | in coalesced lists every aligned wholly free run lies inside one single free block |
| `BuddySpec.AllocComplete` | kernel/src/memory/pmm.rs:116-140 | alloc_order(k) returns None if and only if no 2^k-aligned run of 2^k frames is wholly free |
| `BuddySpec.LeastOrderIsCut` | kernel/src/memory/pmm.rs:116-186 | the block handed out is the low end of a free block of the least order that is large enough: every order from the request up to it had no free block, its own list loses that block, and the orders between get the upper halves |
| `BuddySpec.FreeUndoesSplit` | kernel/src/memory/pmm.rs:158-235 | freeing climbs exactly through the halves a split left and stops at the order it started from |
| `BuddySpec.AllocFreeRoundTrip` | kernel/src/memory/pmm.rs:116-261 | alloc_order(k) followed by free_order of the result restores every list, element order included |
| `BuddySpec.EveryRunKeeps` | kernel/src/memory/pmm.rs:116-261 | over every run of allocations and matching frees, free and live blocks are aligned, pairwise disjoint, coalesced and partition the managed frames |
| `BuddySpec.FreeIsNotLive` | kernel/src/memory/pmm.rs:116-261 | a managed frame is free if and only if no client holds it |
| `BuddySpec.FailureMeansNoRoom` | kernel/src/memory/pmm.rs:116-140 | allocation fails if and only if every aligned run contains a frame that is unmanaged or held by a client |
| `BuddyAllocator.Allocator.AllocOrder` | kernel/src/memory/pmm.rs:116-156 | the pointer-and-flag code computes the list function Alloc, keeps lists linked both ways and flags equal to list membership, and marks the block held with one reference |
| `BuddyAllocator.Allocator.FreeOrder` | kernel/src/memory/pmm.rs:196-235 | the pointer-and-flag code computes the list function Free; it panics if and only if the frame carries FREE, hence never on a live block; frames of other blocks keep their metadata |
| `BuddyAllocator.Allocator.ClimbStep` | kernel/src/memory/pmm.rs:202-217 | the constant-time flag test (FREE, BUDDY_HEAD, equal order) merges exactly when the buddy is in that order's list |
| `BuddyAllocator.Allocator.MergeBlock` | kernel/src/memory/pmm.rs:237-260 | unlinking from the middle of a doubly linked list removes exactly that node, whatever its neighbours |
| `BuddyAllocator.Allocator.SplitBlock` | kernel/src/memory/pmm.rs:158-186 | each upper half is pushed and flagged; the result is the list function Split |
| `BuddyAllocator.Allocator.ClientWrite` | kernel/src/memory/pmm.rs:22-44 | whatever a client writes into a frame it holds, no free list is disturbed |
| `BootHandover.BitmapPMM.SetFree` | kernel/src/memory/init_pmm.rs:85-90 | exactly that frame becomes free |
| `BootHandover.BitmapPMM.SetUsed` | kernel/src/memory/init_pmm.rs:91-96 | exactly that frame becomes used |
| `BootHandover.BitmapPMM.Alloc` | kernel/src/memory/init_pmm.rs:105-131 | first fit: the lowest sufficient run of free frames, which alone becomes used; None if and only if there is none or the size is zero |
| `BootHandover.CarveOrder` | kernel/src/memory/pmm.rs:86-94 | the largest order allowed by alignment, room and ORDER_MAX |
| `BootHandover.CarveRun` | kernel/src/memory/pmm.rs:84-103 | a run of free frames is handed to the buddy in aligned blocks, each frame once |
| `BootHandover.CarveAll` | kernel/src/memory/pmm.rs:71-105 | the nested loops terminate and the buddy's free set equals the bitmap's |
| `BootHandover.Init` | kernel/src/memory/pmm.rs:49-105 | the frame database takes the lowest sufficient run and every other free frame of the bitmap, and no other, ends up in the buddy |
| `Magazine.Magazine.Alloc` | kernel/src/memory/magazine.rs:16-33 | pops the last frame, or takes 128 distinct frames that were free, keeps 127 and returns one; it panics only when no frame at all is free |
| `Magazine.Magazine.Free` | kernel/src/memory/magazine.rs:35-49 | pushes the frame, first giving back exactly the upper half when full; the allocator's double-free panic cannot fire |
| `Magazine.Machine.Alloc` | kernel/src/memory/mod.rs:85-98 | an allocation on one core leaves every frame with one owner and changes the owner of no frame outside that core's magazine and the free lists |
| `Magazine.Machine.Free` | kernel/src/memory/mod.rs:102-116 | a free on any core moves the frame from its client to that core's magazine and keeps single ownership |
| `Magazine.Machine.Interleave` | kernel/src/memory/mod.rs:85-118 | over every interleaving of the cores' magazine operations and of direct and huge ones each operation gets the answer it is owed: an aligned block that overlaps nothing clients hold, a free done, or no room, and that only if every aligned run meets a frame held, unmanaged or among the few in magazines; clients hold exactly what they got and have not given; each frame has one owner; it stops only at a core's request when no frame at all is free |
| `Magazine.OnePlace` | kernel/src/memory/magazine.rs:16-49 | a managed frame is free, or singly owned, or part of a larger live block, just one of them, and in at most one magazine |
| `RwLockProtocol.StepKept` | kernel/src/core/sync/rwlock.rs:55-191 | every atomic access and every queue operation of any thread keeps the inductive invariant |
| `RwLockProtocol.Exclusion` | kernel/src/core/sync/rwlock.rs:55-191 | in every run of any number of threads the state word is the writer bit exactly when one write guard and no read guard exists, and otherwise counts the read guards |
| `RwLockProtocol.NobodyStranded` | kernel/src/core/sync/rwlock.rs:55-191 | whenever no thread holds a guard, is awake in an acquire loop or is mid-release, both queues are empty and nobody sleeps, barging included |
| `RwLockProtocol.SomeoneCanMove` | kernel/src/core/sync/rwlock.rs:55-191 | while any call is in progress some non-idle thread can take a step: no deadlock |
| `RwLockProtocol.WaitingWriterKeepsOut` | kernel/src/core/sync/rwlock.rs:55-87 | along every run in whose states some writer is counted as waiting, no thread that was not already past the check comes to a read guard |
| `RwLockProtocol.CallsEndInGuards` | kernel/src/core/sync/rwlock.rs:55-191 | whoever steps, a thread in read leaves it only with a read guard and a thread in write only with a write guard |
| `RwLockProtocol.ReaderAlone` | kernel/src/core/sync/rwlock.rs:55-87 | with no writer in or waiting an uninterrupted reader gets its guard, and just the word counts one more |
| `RwLockProtocol.WriterAlone` | kernel/src/core/sync/rwlock.rs:89-126 | with nobody in an uninterrupted writer gets its guard, whoever waits |
| `RwLockProtocol.ReaderSleeps` | kernel/src/core/sync/rwlock.rs:55-87 | with a writer in an uninterrupted reader ends asleep as the last of the readers' queue |
| `RwLockProtocol.WriterSleeps` | kernel/src/core/sync/rwlock.rs:89-126 | with someone in an uninterrupted writer ends counted as waiting and asleep as the last of the writers' queue |
| `RwLockProtocol.ReaderLeavesOthers` | kernel/src/core/sync/rwlock.rs:142-161 | a reader that is not the last to leave wakes nobody |
| `RwLockProtocol.LastReaderWakes` | kernel/src/core/sync/rwlock.rs:142-161 | the last reader to leave frees the lock and wakes the writer that has waited longest, and nobody else |
| `RwLockProtocol.WriterWakesWriter` | kernel/src/core/sync/rwlock.rs:163-191 | a writer that leaves wakes the writer that has waited longest and leaves the readers asleep |
| `RwLockProtocol.WriterWakesReaders` | kernel/src/core/sync/rwlock.rs:163-191 | a writer that leaves with no writer queued wakes every sleeping reader |
| `RwLockProtocol.WokenWriterTakes` | kernel/src/core/sync/rwlock.rs:89-126 | a woken writer stops being counted as waiting and takes a lock that is free |
| `MutexProtocol.StepKept` | kernel/src/core/sync/mutex.rs:47-98 | every step of any thread keeps the invariant |
| `MutexProtocol.MutualExclusion` | kernel/src/core/sync/mutex.rs:47-98 | in every run there is one holder exactly when the flag is set and none otherwise |
| `MutexProtocol.NobodyStranded` | kernel/src/core/sync/mutex.rs:47-98 | with nobody holding, awake or unlocking, the wait queue is empty and nobody sleeps |
| `MutexProtocol.LockEndsInHold` | kernel/src/core/sync/mutex.rs:47-98 | whoever steps, a thread in lock leaves it only as the holder |
| `MutexProtocol.FreeIsTaken` | kernel/src/core/sync/mutex.rs:47-98 | an uninterrupted caller gets a free mutex |
| `MutexProtocol.TakenMeansSleep` | kernel/src/core/sync/mutex.rs:47-98 | with the mutex taken it ends asleep as the last of the queue |
| `MutexProtocol.UnlockWakesFirst` | kernel/src/core/sync/mutex.rs:47-98 | unlocking frees the mutex and wakes exactly the thread that has slept longest, back to trying |
| `SemaphoreProtocol.StepKept` | kernel/src/core/sync/semaphore.rs:33-97 | a step of any thread keeps the invariant if and only if it is not the signal on which the counter wraps |
| `SemaphoreProtocol.FewSignalsFit` | kernel/src/core/sync/semaphore.rs:33-97 | a run of any length never wraps the counter if the initial count and the signals in the run fit a signed word |
| `SemaphoreProtocol.CounterWraps` | kernel/src/core/sync/semaphore.rs:80-97 | one signal on a full counter makes it the lowest number |
| `SemaphoreProtocol.Conservation` | kernel/src/core/sync/semaphore.rs:31-97 | counter plus completed waits equals the initial count plus signals, and a semaphore that starts non-negative stays so |
| `SemaphoreProtocol.UnitsAnswered` | kernel/src/core/sync/semaphore.rs:33-97 | while anyone is queued, the units available never outnumber the signallers yet to pop plus the waiters awake |
| `SemaphoreProtocol.NobodyStranded` | kernel/src/core/sync/semaphore.rs:33-97 | when everyone is idle or asleep, a positive counter means an empty queue |
| `SemaphoreProtocol.WaitEndsWithUnit` | kernel/src/core/sync/semaphore.rs:33-78 | whoever steps, a thread in wait leaves it only by its own step that takes one unit from a positive counter |
| `SemaphoreProtocol.UnitIsTaken` | kernel/src/core/sync/semaphore.rs:33-78 | with a unit there an uninterrupted waiter takes it |
| `SemaphoreProtocol.NoUnitMeansSleep` | kernel/src/core/sync/semaphore.rs:33-78 | without one it ends asleep as the last of the queue |
| `SemaphoreProtocol.SignalWakesFirst` | kernel/src/core/sync/semaphore.rs:80-97 | a signal adds one unit and wakes exactly the waiter that has slept longest, back to trying |
| `BlockCache.Sweep` | kernel/src/drivers/blockdev/ext2/cache.rs:112-153 | the sweep stops within 2N steps, selects the first evictable slot in circular order or the first settled one after a clearing turn, and fails exactly in the cases SweepFails describes |
| `BlockCache.SpuriousFailure` | kernel/src/drivers/blockdev/ext2/cache.rs:112-153 | the count of in-flight slots met is never reset, so the sweep can fail with an evictable slot present |
| `BlockCache.HalfIdleSucceeds` | kernel/src/drivers/blockdev/ext2/cache.rs:112-153 | with fewer than half of the slots in flight it never fails |
| `BlockCache.UnreferencedFirst` | kernel/src/drivers/blockdev/ext2/cache.rs:112-153 | the slot a sweep takes is settled, and unreferenced if any settled slot is; among those of its kind it is the one the hand comes to first, by distance modulo the number of slots |
| `BlockCache.EmptyBeforeEviction` | kernel/src/drivers/blockdev/ext2/cache.rs:111-155 | while a settled slot holds no block, a miss takes the lowest such slot, moves no hand and clears no bit |
| `BlockCache.Cache.Reserve` | kernel/src/drivers/blockdev/ext2/cache.rs:111-155 | a miss takes the first vacant slot, else the slot the sweep settles on, and none exactly when there is no room; it reserves a slot that was not in flight and changes no block's content |
| `BlockCache.Cache.Evict` | kernel/src/drivers/blockdev/ext2/cache.rs:111-180 | reservation and write-back of a miss: which slot is worked on, that exactly it becomes in flight, and that it ends dirty exactly when it was dirty and the device failed |
| `BlockCache.Cache.ReadBlock` | kernel/src/drivers/blockdev/ext2/cache.rs:70-212 | a successful read returns the block's logical content and leaves the block in a settled, referenced slot; no read, failed or not, changes any block's content; a hit never fails and touches no sector, and a miss writes the device only where a dirty entry waited; it spins for ever exactly on a block held up; an error without room holds up nothing more, any other error exactly one more block: the victim's if its write-back failed, else the block read |
| `BlockCache.Cache.WriteBlock` | kernel/src/drivers/blockdev/ext2/cache.rs:214-337 | a successful write changes the content of its own block only and leaves that block's sectors on the device as they were; a hit never fails; any error leaves every block's content unchanged and holds up one more block, the victim's, exactly if there was room |
| `BlockCache.Cache.Flush` | kernel/src/drivers/blockdev/ext2/cache.rs:339-370 | it succeeds if and only if the device takes the transfer of every settled dirty entry; then no settled entry is dirty, nothing else of an entry changes, and the disk equals the content of every block not held up; an error leaves every dirty bit, and what comes before the first failing transfer is on the disk; content and the blocks held up never change |
| `BlockCache.Cache.WriteBack` | kernel/src/drivers/blockdev/ext2/cache.rs:157-180 | evicting a slot, even with a transfer torn half way, changes no block's content; it fails exactly when the slot is dirty and the device refuses or fails the transfer, and then changes no entry |
| `BlockCache.Serve` | kernel/src/drivers/blockdev/ext2/cache.rs:70-370 | over every run of reads, writes and flushes with any failures every request gets exactly the reply that the cache at its turn and the device's outcomes give it, a flush over a working device Ok; the cache is a flat disk: each successful read returns the last successful write to its block or what the device held, and a block once held up is stuck in every later request |
| `BlockCache.HeldForEver` | kernel/src/drivers/blockdev/ext2/cache.rs:186-205 | one slot and one failed fetch: every later read of that block is stuck, however many there are |
| `CacheProtocol.StepKept` | kernel/src/drivers/blockdev/ext2/cache.rs:70-370 | every locked section of every operation, sweep, hit and clearing of dirty bits included, keeps held slots in flight, with one holder each and, in a fetch, under the block fetched |
| `CacheProtocol.NoSharedSlot` | kernel/src/drivers/blockdev/ext2/cache.rs:70-370 | in every interleaving of the locked sections from an empty cache no two operations hold the same slot and every held slot is in flight |
| `CacheProtocol.HeldAcrossRun` | kernel/src/drivers/blockdev/ext2/cache.rs:70-370 | between two sections of an operation, whatever the others do, its slot stays in flight under the same block |
| `CacheProtocol.GiveUpAbandons` | kernel/src/drivers/blockdev/ext2/cache.rs:157-205 | an operation that gives up after a failed transfer leaves its slot in flight with nobody to land it |
| `CacheProtocol.AbandonedForEver` | kernel/src/drivers/blockdev/ext2/cache.rs:157-205 | such a slot stays in flight under its block in every continuation |
| `CacheProtocol.HitLandsExactly` | kernel/src/drivers/blockdev/ext2/cache.rs:70-104 | a hit uses a slot of its own block if and only if the last operation that was given the slot since works on that block |
| `CacheProtocol.UnreservedNotRenamed` | kernel/src/drivers/blockdev/ext2/cache.rs:70-155 | a settled slot that no miss takes is given to no other block |
| `CacheProtocol.StaleHit` | kernel/src/drivers/blockdev/ext2/cache.rs:214-250 | a write to block 0 overtaken by a read of block 1 ends as dirty content of block 1 |
| `CacheProtocol.HitAlone` | kernel/src/drivers/blockdev/ext2/cache.rs:214-250 | an uninterrupted hit marks its block's slot as used and, in a write, leaves it dirty with the data written; nothing else changes |
| `CacheProtocol.ScanWaits` | kernel/src/drivers/blockdev/ext2/cache.rs:70-104 | a look-up that finds its block in flight changes nothing and is done again |
| `CacheProtocol.ReadMissAlone` | kernel/src/drivers/blockdev/ext2/cache.rs:106-212 | an uninterrupted read miss leaves the reserved slot settled, used and clean with the block and what was fetched, and every other slot as the reservation left it |
| `CacheProtocol.WriteMissAlone` | kernel/src/drivers/blockdev/ext2/cache.rs:252-337 | an uninterrupted write miss leaves it settled, used and dirty with the block and the data written |
| `CacheProtocol.FlushClears` | kernel/src/drivers/blockdev/ext2/cache.rs:358-367 | the last section of a flush clears the dirty bit of every settled slot and changes nothing else |
| `CacheProtocol.FlushSavesExactly` | kernel/src/drivers/blockdev/ext2/cache.rs:339-370 | of what a flush marks clean, a slot's block and data are what the flush copied if and only if the slot was dirty and settled when it began and the last block and last data put into it since, if any, are those it had |
| `CacheProtocol.UnwrittenIsSaved` | kernel/src/drivers/blockdev/ext2/cache.rs:339-370 | so a settled slot into which nobody puts data before the bits are cleared loses no dirty bit unsaved |
| `CacheProtocol.LostWrite` | kernel/src/drivers/blockdev/ext2/cache.rs:339-370 | a write that hits between the copy and the clearing ends in a slot marked clean with data the flush never copied |
| `PageTable.AddressOfIndexes` | kernel/src/memory/paging.rs:254-274 | splitting a canonical address into indexes and assembling them, sign extension included, gives the address back |
| `PageTable.SamePage` | kernel/src/memory/paging.rs:267-274 | canonical addresses have equal indexes if and only if they lie in the same page |
| `PageTable.SameRegion` | kernel/src/memory/paging.rs:267-276 | the same for 2 MiB regions and the upper three indexes |
| `PageTable.EntryWord` | kernel/src/memory/paging.rs:58-137 | the word made from an address and flags reads back, by the accessors' masks, as the entry whose frame is the address divided by 4096, within 52 bits, and whose flags are those |
| `Words.FrameValue` | kernel/src/memory/paging.rs:124-131 | masking a word with the address bits of an entry and dividing by 4096 is dividing by 4096 modulo 2^40 |
| `PageTable.WalkPlaces` | kernel/src/memory/paging.rs:36-41 | in a tree of tables every walk meets exactly the tables placed along its indexes |
| `PageTable.Memory.GetOrCreateNext` | kernel/src/memory/paging.rs:43-56 | creating a missing table changes no translation of any root, keeps the tree, and takes one frame from the allocator |
| `PageTable.Memory.MapPage` | kernel/src/memory/paging.rs:173-190 | after success every address of the page leads to the new entry and every other page of every root is reached as before; with a lower-half address no other root changes at all; new tables belong to this root |
| `PageTable.Memory.UnmapPage` | kernel/src/memory/paging.rs:192-215 | exactly the addressed page or region stops being mapped |
| `PageTable.Memory.ChangeFlags` | kernel/src/memory/paging.rs:217-250 | a present entry keeps its frame and takes the new flags, and no other page of any root changes frame or flags; with the present flag every address of every root translates as before, without it exactly the addressed page is unmapped |
| `PageTable.Memory.InitProcess` | kernel/src/memory/paging.rs:303-318 | a new root has an empty lower half and translates the upper half as the active root does; nothing else changes |
| `PageTable.EditedAddresses` | kernel/src/memory/paging.rs:147-171 | an edit, said of translate and addresses: map update or removal at one page, identity everywhere else and in other processes |
| `PageTable.EditedRegionAddresses` | kernel/src/memory/paging.rs:147-171 | the same for a 2 MiB page |
| `PageTable.GrowWalk` | kernel/src/memory/paging.rs:43-56 | hanging an empty table into an absent entry changes no walk's end |
| `PageTable.LeafWrite` | kernel/src/memory/paging.rs:173-250 | writing a last-level entry changes exactly the walks that come to it |
| `VmaSpec.FirstFitExactly` | kernel/src/memory/vmm.rs:121-197 | for areas anywhere that end 2 MiB or more below the word's end: mmap_internal returns the lowest aligned gap of the arena, and fails only when there is none, if and only if the first area fits at all, or there is a place, or else no gap beyond the arena is wide enough and the last end does not round up beyond it; and no room lies behind a first area below the arena |
| `VmaSpec.NormalSearchSound` | kernel/src/memory/vmm.rs:121-197 | for 4 KiB pages and a non-empty list in the arena that condition always holds |
| `VmaSpec.BelowArena` | kernel/src/memory/vmm.rs:143-197 | with one area at 0x1000 the next mapping is put at 0x2000, below the arena |
| `VmaSpec.HugeOverrun` | kernel/src/memory/vmm.rs:166-173 | a 2 MiB request in a full arena is answered with an address above the user half |
| `VmaSpec.EmptyOverrun` | kernel/src/memory/vmm.rs:133-142 | the first mapping of a process is granted whatever its size |
| `VmaSpec.BeyondArena` | kernel/src/memory/vmm.rs:166-173 | behind an area that ends beyond the arena the next mapping is put beyond it too |
| `VmaSpec.GapKeepsSorted` | kernel/src/memory/vmm.rs:121-197 | whatever first fit answers, in the arena or not, inserting there keeps the areas in order and disjoint |
| `VmaSpec.PlaceAtExactly` | kernel/src/memory/vmm.rs:204-235 | over all lists and requests of words, looking at the two neighbours decides whether the whole list is clear if and only if no area at or below the address reaches the end of the word, and the range does not wrap, or no area starts above it, or it begins inside an area |
| `VmaSpec.PlaceAtKeepsSorted` | kernel/src/memory/vmm.rs:204-263 | an accepted fixed placement keeps the areas in order and disjoint if and only if no area at or below the address reaches the end of the word and the range does not wrap or no area starts above it |
| `VmaSpec.WrappedPlacement` | kernel/src/memory/vmm.rs:204-263 | a wrapping range is accepted before an area it covers, and the list is out of order |
| `VmaSpec.PlacedInWrapped` | kernel/src/memory/vmm.rs:204-263 | an area up to the end of the word is accepted, then a page in the midst of it |
| `VmaSpec.EveryRunSorted` | kernel/src/memory/vmm.rs:121-296 | after any run of mapping, fixed mapping and unmapping within the arena the areas are in order, disjoint and within bounds |
| `VmaSpec.EveryRunInOrder` | kernel/src/memory/vmm.rs:121-296 | in any run whose areas end 2 MiB or more below the word's end, in the arena or not, they stay in order and disjoint |
| `VmaList.Areas.Mmap` | kernel/src/memory/vmm.rs:121-197 | the linked list changes exactly by the first fit, stays linked both ways and fails as the search does |
| `VmaList.Areas.MmapAt` | kernel/src/memory/vmm.rs:204-263 | the linked list changes exactly by the fixed placement |
| `VmaList.Areas.Detach` | kernel/src/memory/vmm.rs:265-302 | the first node with that start leaves the list if its size matches; the two errors otherwise, with the list unchanged |
| `VmaList.Areas.Find` | kernel/src/memory/vmm.rs:395-408 | the first area containing the address, or none contains it |
| `AddressSpace.NewSpace` | kernel/src/memory/vmm.rs:106-111 | a new address space owns its root alone; the upper half is the active root's |
| `AddressSpace.VirtMemManager.Mmap` | kernel/src/memory/vmm.rs:116-197 | the answer is the address of the first fit, within the arena, or none; the areas change by it; no page and no frame moves |
| `AddressSpace.VirtMemManager.MmapAt` | kernel/src/memory/vmm.rs:204-263 | the areas change by the fixed placement; no page and no frame moves |
| `AddressSpace.VirtMemManager.Fault` | kernel/src/memory/vmm.rs:395-448 | reports no area, a forbidden write or a failed backing request if and only if there is just that reason, with nothing changed, or maps the faulting page and no other, with just the area's rights and, if backed, to the frame of what its object gives for the distance of the page from the start of the area; panics only with no frame left; frames move only from the allocator to the process, and exactly the frame of a page that was mapped already and its own is lost |
| `AddressSpace.VirtMemManager.Batch` | kernel/src/memory/vmm.rs:310-329 | a batch unmaps a run of pages without skipping one and collects each of their frames once, at most 64 |
| `AddressSpace.VirtMemManager.FreeBatch` | kernel/src/memory/vmm.rs:331-340 | every frame of the batch is given back, none being free already |
| `AddressSpace.VirtMemManager.UnmapRange` | kernel/src/memory/vmm.rs:303-341 | exactly the pages of the area are unmapped and exactly their frames are given back |
| `AddressSpace.VirtMemManager.Munmap` | kernel/src/memory/vmm.rs:265-348 | the area goes, its pages are unmapped, its own frames are free again, other processes see nothing; both errors leave everything as it was |
| `Teardown.FreeTables` | kernel/src/memory/vmm.rs:458-488 | every table of the process is given back once, read only before it is, and nothing else; other roots keep their translations |
| `AddressSpace.VirtMemManager.TearDown` | kernel/src/memory/vmm.rs:450-489 | the loop terminates with an empty list and every data and table frame of the process, root included, is free again |
| `AddressSpace.OtherSpaceKept` | kernel/src/memory/vmm.rs:265-489 | whatever one process does, another's areas, mappings and frames stay what they were |
| `Requests.ServeAll` | kernel/src/memory/vmm.rs:116-448 | any requests of one process: answers, areas and mapped pages with their rights and backings are those of the simple form, cut short only at a fault that needs a page when no frame is left; the frames lost are as many as it counts |
| `Requests.EveryRunInside` | kernel/src/memory/vmm.rs:116-448 | in every run of the simple form each mapped page lies in an area and has just its rights and backing |
| `Requests.UnmappedIsInvalid` | kernel/src/memory/vmm.rs:265-411 | once an area is unmapped its pages are gone and every access to it is an invalid address |
| `Requests.ObjectShows` | kernel/src/memory/vmm.rs:395-448 | a backed area touched page by page, anywhere in each, ends with page i backed by what the object gives for i * 0x1000, with the area's rights |
| `Requests.GrantedIsUsable` | kernel/src/memory/vmm.rs:116-448 | every byte of a granted mapping is usable with just the rights asked for, a fixed one at the address asked for, and other addresses are as before, if and only if rounding the size up does not wrap |
| `Requests.GrantOfNothing` | kernel/src/memory/vmm.rs:116-142 | a request for the whole word but one byte is granted, and an access to its address is invalid |
| `Requests.LeakingFault` | kernel/src/memory/vmm.rs:395-448 | a page touched twice costs a frame |
| `Requests.Life` | kernel/src/memory/vmm.rs:106-489 | from creation through any requests to teardown: every answer is the simple form's, every other root translates as before, and the allocator ends with its frames but for exactly one per leaking fault, so with all of them if and only if none leaks; it is cut short only by an allocator without a frame |
| `Processes.WorldMoves` | kernel/src/memory/vmm.rs:106-489 | whatever one of any number of processes does, all stay as they should be, no two hold a frame in common, and frames free, held and lost are together the same |
| `Processes.Isolation` | kernel/src/memory/vmm.rs:116-448 | however requests interleave, each process gets the answers and the address space it would have alone |
| `Processes.Spawn` | kernel/src/memory/vmm.rs:106-111 | a process created beside the others starts with an empty address space and joins a sound world; it fails only with no frame left |
| `Processes.Turn` | kernel/src/memory/vmm.rs:116-448 | one request of one process beside all the others: its answer and next address space are the simple form's, nobody else's pages or frames move, and it fails only at a page needed with no frame left |
| `Processes.Interleave` | kernel/src/memory/vmm.rs:116-448 | over every interleaving of the requests of all processes: every answer and every address space is the simple form's, no two processes hold a frame in common, and frames free, held and lost are together the same |
| `PoolTree.StepKeeps` | kernel/src/core/object/models/mempool.rs:28-51 | every step keeps each counter equal, modulo the word, to what granted and in-flight calls hold there; it keeps counters exact and quotas respected if and only if the sum does not wrap |
| `PoolTree.EveryRunCounted` | kernel/src/core/object/models/mempool.rs:28-51 | conservation modulo the word over every interleaving, new pools included |
| `PoolTree.EveryRunExact` | kernel/src/core/object/models/mempool.rs:28-51 | over every interleaving without a wrapping sum, allocated is at most limit and exactly the bytes granted below plus reservations in flight |
| `PoolTree.ModestNeverWraps` | kernel/src/core/object/models/mempool.rs:31-36 | no sum wraps if at each limited pool of a call's chain size plus limit stay below the word, and at each unlimited one all that was asked for does |
| `PoolTree.ModestRunExact` | kernel/src/core/object/models/mempool.rs:28-51 | if each request is so when made, limited and unlimited pools alike, then in every interleaving, new pools included, no sum ever wraps, counters are exact and quotas hold |
| `PoolTree.InitialExact` | kernel/src/core/object/models/mempool.rs:20-25 | a single pool with nothing allocated meets the invariants runs start from |
| `PoolTree.WrappingGrant` | kernel/src/core/object/models/mempool.rs:31-36 | a request whose sum wraps is granted although it exceeds the quota |
| `PoolTree.QuietCounters` | kernel/src/core/object/models/mempool.rs:28-51 | with no call in flight a counter is the sum of the granted sizes in that pool and below: a refused call leaves no trace, a granted one is charged to its whole chain |
| `PoolTree.GrantedIffItFits` | kernel/src/core/object/models/mempool.rs:28-51 | a call that nobody disturbs and whose sums do not wrap is granted if and only if used plus size is at most the limit at every limited pool of its chain; granted, it adds its size along the chain and nowhere else, and refused it leaves every counter as it was |
| `PoolTree.WhatFitsIsGranted` | kernel/src/core/object/models/mempool.rs:28-51 | for such a call that fits there is a run of its own steps that ends granted |
| `PoolTree.RefusedOnlyOver` | kernel/src/core/object/models/mempool.rs:28-51 | in every interleaving a call is turned down only at a pool of its chain where the value it had loaded plus its size was above the limit |
| `ReadyQueue.SchedulerState.Push` | kernel/src/core/thread/schedule.rs:228-245 | appends at the thread's priority; bitmap, length and links agree with the queues |
| `ReadyQueue.SchedulerState.Pop` | kernel/src/core/thread/schedule.rs:247-274 | nothing if and only if all levels are empty; else the first thread of a level below which all are empty, and that level loses just its head; bitmap, length and links agree with the queues |
| `ReadyQueue.PopsFirst` | kernel/src/core/thread/schedule.rs:247-274 | the same of the pop as a function on levels |
| `ReadyQueue.FirstInFirstOut` | kernel/src/core/thread/schedule.rs:228-274 | of two threads in one level, whatever else is pushed and popped, the one ahead comes out first |
| `ReadyQueue.PushedBehind` | kernel/src/core/thread/schedule.rs:228-245 | a pushed thread is behind every thread of its level |
| `ReadyQueue.SchedulerState.Mail` | kernel/src/util/queue.rs:5-20 | the intrusive queue appends at the tail |
| `ReadyQueue.SchedulerState.Unmail` | kernel/src/util/queue.rs:22-37 | the intrusive queue takes its head, if any |
| `ReadyQueue.SchedulerState.Schedule` | kernel/src/core/thread/schedule.rs:114-171 | drains the mailbox, then picks and requeues as Pick says; the thread that runs has the least priority number of all that were queued or in the mailbox, and with none the running one goes on or the core idles |
| `ReadyQueue.PickIsUrgent` | kernel/src/core/thread/schedule.rs:114-134 | drain and pick, as functions: the next thread is a most urgent one of levels and mailbox; without any, the running thread or the idle one |
| `ReadyQueue.DrainAppends` | kernel/src/core/thread/schedule.rs:114-125 | a drained level is what it was, followed by its letters in the order they were posted |
| `ReadyQueue.PreemptedWaitsLast` | kernel/src/core/thread/schedule.rs:126-156 | a thread that could have run on becomes ready as the last of its level, and no other thread is requeued |
| `SchedulerProtocol.StepKept` | kernel/src/core/thread/dispatch.rs:96-116 | every step of any core or waker keeps every runnable thread in exactly one place |
| `SchedulerProtocol.EveryRunKept` | kernel/src/core/thread/schedule.rs:114-171 | the same over every run |
| `SchedulerProtocol.OnePlace` | kernel/src/core/thread/schedule.rs:114-171 | a running thread is its home core's current one and in no queue, a ready one is in exactly one of ready queue, mailbox or a waker's hands, a stopped one in none |
| `SchedulerProtocol.RunnableIsServed` | kernel/src/core/thread/schedule.rs:114-171 | a runnable thread that no waker still carries runs next or waits in its level once its core has scheduled |
| `SchedulerProtocol.WakeIsKept` | kernel/src/core/thread/dispatch.rs:96-116 | after a wake, along any steps of any cores that do not stop the thread again, it stays runnable in one place, and the next schedule of its core after the waker lets go runs it or leaves it in its level |
| `SchedulerProtocol.DrainedIsDrain` | kernel/src/core/thread/schedule.rs:114-125 | draining the mailbox step by step is the drain that the linked-list code of `ReadyQueue` computes |
| `SchedulerProtocol.InitialInv` | kernel/src/core/thread/schedule.rs:114-171 | cores that each run their first thread, with empty queues, meet the invariant |
| `SchedulerProtocol.OneCoreStarts` | kernel/src/core/thread/schedule.rs:114-171 | a machine of one core with its first and its idle thread is such a start |
| `SchedulerProtocol.IdleOnlyWithoutWork` | kernel/src/core/thread/schedule.rs:126-134 | a core turns idle only if its queue is empty and the thread it ran cannot go on |
| `SchedulerProtocol.MostUrgentRuns` | kernel/src/core/thread/schedule.rs:114-171 | in every state the invariant allows, the thread a core picks comes from its own queue and has a priority number no greater than any other queued there |
| `SchedulerProtocol.WakeLands` | kernel/src/core/thread/dispatch.rs:96-116 | a waker on the home core puts the thread last in its level, any other last in the home core's mailbox; no other queue, mailbox or running thread changes |
| `Calendar.AgreesWithCalendar` | kernel/src/core/time/datetime.rs:68-77 | the era arithmetic equals a proleptic Gregorian count by single years and months (section 3.2.1 of ISO 8601:2004) |
| `Calendar.EpochAgrees` | kernel/src/core/time/datetime.rs:68-80 | datetime_to_epoch is that count in seconds plus the clock time |
| `Calendar.EpochRoundTrip` | kernel/src/core/time/datetime.rs:38-80 | every epoch in range, negative ones included, names a valid date and time that converts back to it |
| `Calendar.DatetimeRoundTrip` | kernel/src/core/time/datetime.rs:38-80 | every valid date and time in range is recovered from its epoch |
| `Calendar.RoundTripExactlyInRange` | kernel/src/core/time/datetime.rs:56-58 | among epochs whose day number fits in 32 bits the round trip holds if and only if the era computation does not wrap |
| `Calendar.LowestDayIsWrong` | kernel/src/core/time/datetime.rs:56-57 | the lowest day number is reported some 11.7 million years late |
| `SocketStream.RingBuffer.PushSlice` | kernel/src/core/object/models/socket.rs:59-66 | as much as there is room for goes to the end of the contents, across the end of the buffer |
| `SocketStream.RingBuffer.PopSlice` | kernel/src/core/object/models/socket.rs:68-75 | the front of the contents moves to the destination |
| `SocketStream.SocketBus.Read` | kernel/src/core/object/models/socket.rs:173-204 | the reply and the number of bytes are exactly those owed for the length, the closed state and what the ring holds; the bytes are the front of the stream; a failed copy drops exactly the bytes it took |
| `SocketStream.SocketBus.Write` | kernel/src/core/object/models/socket.rs:206-241 | the reply is exactly the one owed for the bytes, the room and the closed state; what is reported written is what was accepted, and nothing otherwise |
| `SocketStream.Run` | kernel/src/core/object/models/socket.rs:144-241 | over every run of writes, reads and closes with any failing copies each operation gets the reply it is owed, and the bytes taken out, each delivered or lost, followed by the ring, equal the bytes reported written, in order |
| `SocketStream.ClosedFreezes` | kernel/src/core/object/models/socket.rs:206-241 | nothing is accepted after the close |
| `SocketStream.EndMeansAll` | kernel/src/core/object/models/socket.rs:173-204 | when a reader is told of the end, everything that is ever reported written has been taken out and, without a failed copy, received, in order |
| `SocketStream.DeliveredExactly` | kernel/src/core/object/models/socket.rs:173-204 | readers get the very bytes reported written, in order, if and only if no copy failed on a read that had taken bytes |
| `SocketStream.LostByte` | kernel/src/core/object/models/socket.rs:173-204 | one byte written, one failed copy: the byte is gone and the next read blocks |

## Left out

- Assembly, model-specific registers, APIC, descriptor tables, FPU context, port I/O, PCI, ACPI and the context switch itself: hardware.
- Ticket lock internals, interrupt flags and memory orderings: critical sections are exclusive and atomics sequentially consistent here.
- Asynchronous wake-ups (`block_on`, transfer futures, `wait_for_signals_async`): the waker is stored after the check without a common lock, so no absence of lost wake-ups is claimed; `SocketStream` models what a poll returns, not who is woken.
- Contents under overlapping block-cache operations: for those `CacheProtocol` speaks of slots and the blocks they carry; two overlapping misses may put one block into two slots, and `StaleHit` shows that contents are not kept.
- Completeness of double-free detection: a freed upper half that was merged keeps its old flags, so only the absence of false alarms is claimed.
- TLB shootdown, `mprotect`, thread kill and reaping, stack freeing, load balancing in `spawn_user_thread`.
- ext2 index-to-block resolution, directories and inodes; slab and bump allocators, handle tables, once-cells and priority arithmetic; terminal, shell, logger, keyboard, framebuffer and user-space wrappers: easy next to the above, or user interface.
- BuddyAllocator.Allocator.FreeOrder: asks that the freed block is live at its order or carries the FREE flag, as callers must ensure; frame 0 is unmanaged and the frame count is a multiple of 2^11, which the code takes for granted.
- BootHandover.Init: asks for a free run that can hold the frame database, where the code would panic without one.
- RwLockProtocol.Exclusion: counts acquisitions as threads and asks for fewer than 2^63 of them, the room below the writer bit.
- SemaphoreProtocol.Conservation: asks that no signal of the run wraps the counter, the exact condition by `StepKept`; `UnitsAnswered` and `NobodyStranded` likewise.
- Magazine.Machine.Interleave: cores interleave at whole operations, which is what the allocator's lock and disabled interrupts enforce. A huge request without room, where the kernel panics, is one that changes nothing.
- PageTable.Memory.MapPage: a 4 KiB operation asks that no 2 MiB page covers the address, where the code would take the page for a table; mapping a 2 MiB page over a table of 4 KiB entries translates rightly but leaks that table, so only then is reachability of every table not promised.
- PageTable.Memory.ChangeFlags: the 2 MiB form asks that the entry is no link to a table.
- AddressSpace.VirtMemManager.Mmap: areas of an address space use 4 KiB pages; the first one must fit the arena, as `VmaSpec.FirstFitExactly` shows it has to.
- AddressSpace.VirtMemManager.MmapAt: asks for a page-aligned range below the end of the arena, where later code would panic or subtract below zero.
- VmaSpec.FirstFitExactly: leaves out lists with an area that ends in the last 2 MiB below the end of the word, where rounding its end up may wrap.
- AddressSpace.VirtMemManager.Fault: faults one after another; two at once on one page are the second of them finding the page mapped.
- Requests.ObjectShows: an area starts at offset zero of its object, the only offset any caller passes.
- Requests.Life: a mapping request outside what `Mmap` and `MmapAt` ask for is passed over.
- AddressSpace.VirtMemManager.Batch: the 64-slot array of addresses is a sequence of at most 64 frame numbers.
- ReadyQueue.SchedulerState.Push: a thread is a number and the `next` fields are a map, so that one thread cannot be aliased by two objects; the bitmap is a row of 32 bits.
- SchedulerProtocol.StepKept: wakers wake blocked threads only, each taken off its wait queue once, as the lock models establish.
- PoolTree.StepKeeps: nothing in the source ever gives quota back, so no such step is modelled.
- Calendar.DatetimeRoundTrip: for dates whose day number avoids the wrapping range that `Calendar.RoundTripExactlyInRange` delimits.
