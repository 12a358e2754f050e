# UCHos kernel: a verified model

This project models the hard core of the UCHos kernel (a single-processor x86-64 kernel in C++) in Dafny and proves
properties of the model. It has five parts.

- **Physical memory and address spaces.** The buddy allocator (`BitUtils`, `BuddyBlocks`, `BuddySystem`), the slab allocator
  on top of it (`SlabGeometry`, `Slabs`, `SlabObjects`, `SlabAllocator`), and four-level page tables with copy-on-write
  (`PageTables`, `PageTableEdits`, `PagingEffects`, `CloneCounts`, `PrivateMemory`, `ForeignFrames`, `UserAccess`, `SpaceSteps`, `Paging`,
  `SpaceRuns`; section 4.5 of the Intel SDM, volume 3A). The main results: the free lists are the canonical form of the set
  of free pages; every object is naturally aligned and none overlap; over whole runs each address space reads what it would
  read if fork copied everything, with the exact condition, forks that run out of memory halfway included.
- **Message passing and scheduling.** `IpcModel` is a step machine: one step is one section the kernel runs with interrupts
  off, one doorbell interrupt or one task switch, in any interleaving. `IpcScheduler`, `IpcRuns`, `IpcDelivery`, `IpcCalls`,
  `IpcTracing`, `IpcReplies`, `IpcContents`, `IpcEvents` and `IpcOwnership` prove what runs keep: no lost wakeup, bounded
  waiting, first-in-first-out delivery, messages that carry what was sent, exits and doorbells reported, which replies reach
  the call they answer, and which buffers have exactly one owner. `IpcReuse` has runs in
  which the last two fail.
- **The kernel's own tables.** `IntrusiveList`, `MessageQueue`, `Words` and `TaskObjects` are the linked list, the circular
  message ring, doorbell words as sets of bits, and the task object with its exit records and region table, all updated in
  place. `IpcKernel` puts them together, with the task table and the linked run queue, and refines the step machine step
  by step.
- **FAT32 files.** `FatChains`, `FileCache`, `FatContents`, `FatGrowth` and `FatFiles`: cluster chains with rollback, growth
  and truncation, writes through a cache, and reads that return what was written.
- **The xHCI producer ring.** `XhciRing`: cycle bits, the link TRB and the wrap against an independent consumer (sections
  4.9.2, 4.9.3 and 6.4.4.1 of the xHCI specification).

`Common` holds what several parts share. `dafny verify dfyconfig.toml` checks everything.

## How the model reads

- Memory managers, the page tables, the FAT volume, the caches and the rings are classes whose methods change their fields;
  each is specified by predicates and functions on values, and the lemmas are about those.
- Physical memory lies below 4 GiB and page 0 is never handed out, as the source assumes; `align_up` and `bit_width` are
  32-bit in the model too.
- Failures of devices, of buffers and of mapping a frame are inputs of the operations.
- An address space is *abandoned* when a fork that failed halfway left it behind. A run over address spaces is *careful* when
  no mapping makes a shared page writable and no store goes through a writable leaf of a page that something else maps;
  stores from spaces that are not abandoned never do. `Machine` records the run since boot beside the address spaces.
- A *disciplined* run is one in which requests come from `call` only (one-way messages have correlation 0), a server answers
  requests it received and each at most once (kernel/task/ipc.hpp asks for exactly one answer), and no task makes 2^32
  calls. Everything about wakeups, the queue, deletion and delivery holds for all runs, disciplined or not.
- Call/reply matching and single ownership do not hold for all runs. `WrongReplyAccepted` and `BufferLost` give a run that
  answers one request twice while the caller's id is reused, `UnreceivedRequestAnswered` and `ForgedRequestWrongs` two that
  need no reuse. `StepWrongs` and `BuffersOwnedOnce` give the exact conditions, for every run in which no task makes 2^32
  calls, respectively for every run.
- Messages and requests carry two labels that no sender chooses and no modelled code reads: the incarnation of the caller
  and the number of the call, counted over all tasks. They say which call a reply belongs to.
- The fields `birth`, `calls`, `callId`, `held`, `seen` and `hand` of a task and `births`, `callIds`, `deleted` and
  `payloads` of a state only record history for the statements; no decision of the modelled code depends on them, except
  that a step is enabled only for what a task holds or has received.

## Model

| member | source | states |
|---|---|---|
| `BitUtils.BitWidth` | kernel/bit_utils.cpp:4-11 | the position of the highest set bit: 2^(r-1) <= x < 2^r for x > 0, and 0 for 0 |
| `BitUtils.BitWidthCeilIsCeilLog` | kernel/bit_utils.cpp:13-24 | bit_width_ceil is the ceiling of the base-2 logarithm |
| `BitUtils.PowerOfTwoTest` | kernel/memory/slab.cpp:247-250 | x & (x - 1) is 0 exactly for powers of two |
| `BitUtils.AlignUpExact` | kernel/bit_utils.cpp:26-29 | align_up gives the next multiple of the alignment if and only if that multiple is below 2^32 (its arithmetic is 32-bit) |
| `BitUtils.AlignUpZero` | kernel/bit_utils.cpp:26-29 | with alignment 0 the mask is all ones and every address becomes 0 |
| `BuddyBlocks.BuddyIsOtherHalf` | kernel/memory/buddy_system.cpp:112-114 | flipping bit k of a block of order k names the other half of its parent, and doing it twice comes back |
| `BuddyBlocks.CanonicalForm` | kernel/memory/buddy_system.cpp:43-134 | in a coalesced partition a block is listed at order k if and only if it is a maximal free aligned block |
| `BuddyBlocks.CanonicalUnique` | kernel/memory/buddy_system.cpp:43-134 | the free lists, as sets, are determined by the set of free pages alone |
| `BuddyAllocator.CalculateOrderLeast` | kernel/memory/buddy_system.cpp:14-26 | below 2^32 pages the order is the least one that holds the request, or -1 when none does |
| `BuddyAllocator.CalculateOrderCovers` | kernel/memory/buddy_system.cpp:14-26 | the order covers the request if and only if the count is below 2^32 or its low 32 bits exceed the largest block: the exact condition under which the 32-bit truncation is harmless |
| `BuddyAllocator.BuddySystem.constructor` | kernel/memory/buddy_system.cpp:207-239 | the boot scan lists every free page exactly once, in aligned blocks, fully coalesced |
| `BuddyAllocator.BuddySystem.RegisterMemoryBlocks` | kernel/memory/buddy_system.cpp:136-185 | terminates for every start and length and adds blocks that cover exactly the region, are naturally aligned, disjoint and leave no mergeable buddy pair |
| `BuddyAllocator.BuddySystem.SplitMemoryBlock` | kernel/memory/buddy_system.cpp:28-41 | replaces the first block of an order by its two halves; the partition is kept |
| `BuddyAllocator.BuddySystem.Allocate` | kernel/memory/buddy_system.cpp:43-85 | null if and only if the size has no order or no naturally aligned free run of that order exists; otherwise such a run becomes used and live, nothing else changes, and the invariant (partition, coalesced, live blocks disjoint) is kept; the "page is already used" branch is unreachable |
| `BuddyAllocator.BuddySystem.Release` | kernel/memory/buddy_system.cpp:87-134 | frees exactly the pages of a live block and merges until the lists are coalesced again |
| `BuddyAllocator.AllocateThenRelease` | kernel/memory/buddy_system.cpp:43-134 | free after allocate restores the same free blocks at every order; the allocation fails exactly when there is no aligned free run |
| `BuddyAllocator.NoRunWhenListsEmpty` | kernel/memory/buddy_system.cpp:52-65 | with no listed block of the order or above there is no aligned free run, so a failed allocation is a real one |
| `SlabGeometry.SlabFits` | kernel/memory/slab.cpp:34-45 | objects fill a slab exactly, and a slab is one buddy block |
| `SlabGeometry.SlabRequest` | kernel/memory/slab.cpp:72-79 | the buddy order of a slab request is the order of the slab |
| `SlabGeometry.ObjectAligned` | kernel/memory/slab.cpp:168-186 | every object of a naturally aligned slab is a multiple of its own size |
| `Slabs.TakenCounted` | kernel/memory/slab.cpp:168-186 | taking the first free index keeps the free list equal to the unused indices, once each, with the right count |
| `Slabs.ReturnedCounted` | kernel/memory/slab.cpp:188-213 | returning an index keeps it so |
| `Slabs.MovedOk` | kernel/memory/slab.cpp:152-166 | after a move every slab is in exactly the list of its class and status |
| `SlabObjects.ObjectsApart` | kernel/memory/slab.cpp:168-186 | two different objects never overlap, within one slab or across slabs |
| `SlabObjects.FoundIffLive` | kernel/memory/slab.cpp:339-354 | the lookup by page, offset and index finds an address if and only if it is that of a live object |
| `SlabAllocation.SlabAllocator.MoveList` | kernel/memory/slab.cpp:152-166 | one slab changes its status and its list, the others keep theirs |
| `SlabAllocation.SlabAllocator.Grow` | kernel/memory/slab.cpp:72-104 | a new slab joins the free list and its pages point back to it; fails exactly when the buddy system has no block, and then changes nothing |
| `SlabAllocation.RoomIffListed` | kernel/memory/slab.cpp:106-132 | some slab of the class has a free object if and only if the partial or the free list of the class is not empty |
| `SlabAllocation.SlabAllocator.AllocObject` | kernel/memory/slab.cpp:168-186 | exactly one object becomes live, at the address of a so far unused index |
| `SlabAllocation.SlabAllocator.CacheAlloc` | kernel/memory/slab.cpp:106-132 | a live object more, each slab back in the list of its fill level; null if and only if no slab of the class has room and the buddy system has no block |
| `SlabAllocation.SlabAllocator.Alloc` | kernel/memory/slab.cpp:240-315 | for a positive alignment: null if and only if the request is empty, misaligned or oversized or memory is exhausted (no room in the class and no block); otherwise a new object of the least class that holds the request, already aligned to any power of two, so the aligned-to-raw map is not used and the zeroed bytes are the object's own |
| `SlabAllocation.SlabAllocator.AllocAlignZero` | kernel/memory/slab.cpp:240-315 | alignment 0 passes the checks, the caller always gets null, and the object taken for it is lost; the exact condition under which none is; zeroing goes to address 0 |
| `SlabAllocation.SlabAllocator.FreeAddress` | kernel/memory/slab.cpp:317-363 | a live object goes; a null, foreign, interior or already freed address leaves slabs and lists unchanged |
| `SlabAllocation.SlabAllocator.FreeObject` | kernel/memory/slab.cpp:188-213 | the object goes, a full slab becomes partial, an empty one free |
| `SlabAllocation.SlabAllocator.AllocThenFree` | kernel/memory/slab.cpp:240-363 | free undoes alloc on the set of live objects; the allocation fails exactly when alloc does |
| `SlabAllocation.AlreadyAligned` | kernel/memory/slab.cpp:298-307 | align_up leaves the address of an object alone, for every power-of-two alignment up to its size and memory below 4 GiB |
| `SlabAllocation.OolPagesInside` | kernel/memory/paging.cpp:466-472 | the pages calc_required_pages counts for a page-aligned payload all lie in an object of the class chosen for it, although a page that starts exactly at the end is counted too |
| `SlabAllocation.SlabAllocator.MakeOolBuffer` | kernel/task/ipc.cpp:53-63 | null if and only if the size is 0 or too large or neither a slab of the class has room nor a block is free; otherwise a new page-aligned object of the class, zeroed as a whole, and every page that delivery maps for it belongs to it |
| `PageTables.LeavesAreTranslation` | kernel/memory/paging.hpp:34-73 | the tables translate a user page to an entry if and only if the ghost map of leaves says so |
| `PageTables.WalkFindsPosition` | kernel/memory/paging.cpp:46-60 | the walk by 9-bit indices reaches exactly the table at the position of the page, at every level |
| `PageTables.PositionsUnique` | kernel/memory/paging.cpp:46-60 | no two tables stand at the same position of the same space |
| `PageTables.NextSlotIsNextSpan` | kernel/memory/paging.cpp:161-165 | set_part with the next index and zeros below is the first page of the next slot |
| `PageTables.AsIntExact` | kernel/memory/paging.cpp:120-169 | the number of pages left survives the conversion to int if and only if it is below 2^31; 2^32 - 1 reads as the failure -1 |
| `Paging.AddressSpaces.constructor` | kernel/memory/paging.cpp:187-198 | boot establishes the invariant: tables form trees, leaves agree with them, every frame is a table, a counted data page or free |
| `PageTables.KernelHalf` | kernel/memory/paging.cpp:335-339 | in every state every address space has the same kernel half |
| `Paging.AddressSpaces.NewRoot` | kernel/memory/paging.cpp:335-339 | a new root has that kernel half and no user entry |
| `UserAccess.AccessIsLeaf` | kernel/memory/paging.cpp:102-169 | what user code may do, by the present, user and writable bits at all four levels: read exactly the mapped pages, write exactly those with a writable leaf |
| `UserAccess.MappedAccess` | kernel/memory/paging.cpp:120-185 | mapping gives user code exactly the access asked for, to exactly the pages asked for |
| `UserAccess.CopyAccess` | kernel/memory/paging.cpp:284-333 | the write fault makes exactly its page writable for user code |
| `UserAccess.CloneAccess` | kernel/memory/paging.cpp:250-353 | a clone may be read exactly where its source may; no other space notices |
| `UserAccess.ForkAccess` | kernel/task/task.cpp:110-145 | parent and child may read what the parent could and write nothing before a fault; no other space notices |
| `UserAccess.ForeignAccess` | kernel/memory/paging.cpp:415-432 | a mapped buffer may be read and not written |
| `UserAccess.ExitAccess` | kernel/memory/paging.cpp:234-248 | teardown changes no access in the spaces that remain |
| `Paging.AddressSpaces.GetPte` | kernel/memory/paging.cpp:46-60 | get_pte finds the table of a level exactly when the walk reaches it |
| `Paging.AddressSpaces.SetupLeaf` | kernel/memory/paging.cpp:128-147 | a present page keeps its frame and takes the writability; an absent one gets a fresh zeroed frame with count 1 |
| `Paging.AddressSpaces.SetupPageTable` | kernel/memory/paging.cpp:120-169 | exactly the pages from the start on are present with the requested writability, over any number of table boundaries; every other translation is unchanged; by all four levels of entries user code may read exactly these pages more, write them if and only if asked for, and do with any other page what it could before; the result counts the pages beyond this table |
| `Paging.AddressSpaces.SetupPageTables` | kernel/memory/paging.cpp:171-185 | the same for the active space; new pages read as zero and no other space reads anything different; sharing stays invisible if and only if no page that something else maps is made writable |
| `PrivateMemory.MapUnshared` | kernel/memory/paging.cpp:120-185 | that condition, for any mapping step |
| `Paging.AddressSpaces.CopyTargetPage` | kernel/memory/paging.cpp:300-333 | a write fault gives the space a private writable copy, moves one reference, frees the old page when it was the last; user code may then read and write the page, and no other access changes; it fails exactly when memory is exhausted |
| `Paging.AddressSpaces.ReplaceWithCopy` | kernel/memory/paging.cpp:311-330 | the leaf keeps everything but its frame and is writable; the reference counts equal the numbers of leaves again |
| `Paging.AddressSpaces.CopyPageTables` | kernel/memory/paging.cpp:250-282 | level by level the user half is copied: same frames, one reference more each, leaves with the given writability |
| `Paging.AddressSpaces.ClonePageTable` | kernel/memory/paging.cpp:341-353 | a new space that maps what the source maps, at the cost of exactly one frame per table of the source; fails exactly when there is no frame for the root |
| `CloneCounts.AllCopied` | kernel/memory/paging.cpp:250-282 | after the copy every table of the source has its counterpart at the same position |
| `Paging.AddressSpaces.CleanPageTable` | kernel/memory/paging.cpp:200-232 | empties a subtree; every table under it is freed, every data page exactly when its last reference goes |
| `Paging.AddressSpaces.CleanPageTables` | kernel/memory/paging.cpp:234-248 | the space is gone, all others read as before |
| `Paging.AddressSpaces.CleanOthers` | kernel/memory/paging.cpp:234-248 | when every space but the active one is torn down, exactly the tables and pages of the active space are outside the pool, and its translations are as before |
| `Paging.AddressSpaces.Fork` | kernel/task/task.cpp:110-145 | on success parent and child each read what a full private copy would hold, every other space is unchanged, and if no writable owned page was shared none is. With an empty pool nothing changes. The second clone fails if and only if the first one used up the pool: then the parent reads the same on its clone, the old space is left behind, every other space is unchanged, and if no writable owned page was shared nobody but the old space can write a shared page, and nobody at all if and only if the old space had no writable page of its own. Either way a clone may be read where the old space could be and written nowhere |
| `Paging.AddressSpaces.UserStore` | kernel/memory/paging.cpp:300-369 | from any state, for owned pages and pages of mapped buffers: a store to an owned page is a store to one private copy if and only if the leaf was read-only, nothing else maps the page, or the byte has that value already, which is always so when no writable owned page is shared; a store to a read-only buffer page goes to a copy of its own; user code may write the page afterwards and no other access changes; it fails exactly when a fault finds no memory, and then nothing changes |
| `Paging.AddressSpaces.Switch` | kernel/task/context_switch.asm:62-63 | the processor goes to another space; no table and no page changes |
| `Paging.AddressSpaces.ExecSpace` | kernel/syscall/handler.cpp:446-461 | the old space is torn down, the new one has no user page |
| `PrivateMemory.WritableMeansCountOne` | kernel/memory/paging.cpp:250-353 | "outside some abandoned spaces no writable owned page is shared" is the same as "outside them a writable owned leaf has reference count 1" |
| `PrivateMemory.ForkIsPrivate` | kernel/task/task.cpp:110-145 | two read-only clones and the teardown of the snapshot are a fork in the private-copy model, for any sharing before |
| `PrivateMemory.HalfForkIsPrivate` | kernel/task/task.cpp:120-135 | one read-only clone with the snapshot kept: contents, and exactly when a writable page is shared |
| `PrivateMemory.ExitIsPrivate` | kernel/memory/paging.cpp:234-248 | teardown removes one space from the private-copy model and nothing else |
| `PrivateMemory.StoreIsPrivate` | kernel/memory/paging.cpp:300-333 | a store through an owned leaf is a store to one private copy if and only if no other leaf maps the page or the byte has that value already |
| `PrivateMemory.NothingLeaks` | kernel/memory/page.hpp:144-159 | in every state a frame is outside the pool if and only if it is a table of a live space or a page that a live space maps as its own |
| `PrivateMemory.OneSpaceLeft` | kernel/memory/page.hpp:144-159 | with one space left, exactly its tables and pages are outside the pool |
| `SpaceSteps.StepIsPrivate` | kernel/memory/paging.cpp:120-464 | one kernel step (map, store with or without a fault, fork, fork that fails halfway, exec, new space, switch, exit, buffer mapped or unmapped) on tables, frames and counts does to what every space reads what the step does to private copies, and leaves no shared page writable outside abandoned spaces, if and only if it is careful: outside abandoned spaces it makes no shared page writable, and it changes no byte through a writable leaf of a page that something else maps |
| `SpaceSteps.StoreIsCareful` | kernel/memory/paging.cpp:300-369 | a store from a space that is not abandoned is always careful |
| `SpaceSteps.StepDetermined` | kernel/memory/paging.cpp:120-464 | the private-copy model determines what every space reads after a step |
| `SpaceRuns.RunIsPrivate` | kernel/memory/paging.cpp:120-464 | over any run of such steps: in every state no shared page is writable outside abandoned spaces and the run is a run on private copies, if and only if every step is careful |
| `SpaceRuns.CountOneThroughout` | kernel/memory/paging.cpp:250-353 | in every state of a careful run an owned leaf that is writable has reference count 1, outside abandoned spaces |
| `SpaceRuns.Isolation` | kernel/memory/paging.cpp:120-464 | over any careful run, whatever the other spaces do, a space that is not active in a map, store, fork or exec and not made or torn down reads at the end what it read at the start |
| `SpaceRuns.PrivateRunsAgree` | kernel/memory/paging.cpp:120-464 | the private-copy model is a reference: same operations, same mappings and same start give the same contents throughout |
| `SpaceRuns.MappingsNeedCare` | kernel/memory/paging.cpp:171-185 | when nothing stores from an abandoned space, the run is one on private copies if and only if no mapping makes a shared page writable |
| `SpaceRuns.NothingAbandoned` | kernel/task/task.cpp:110-145 | only a fork that fails halfway leaves a space behind |
| `SpaceRuns.UnsharedThroughout` | kernel/task/task.cpp:110-145 | when no fork fails halfway: no writable owned page is shared in any state and the run is one on private copies, if and only if no mapping makes a shared page writable |
| `SpaceRuns.BackInAbandonedSpace` | kernel/task/task.cpp:131-135 | after a fork that failed halfway, a store from the old space to a page it could write shows in the parent, for every byte that changes |
| `SpaceRuns.HistoryIsPrivate` | kernel/memory/paging.cpp:120-464 | the same for whatever the methods of `Machine` did since boot; nothing about the states is assumed |
| `SpaceRuns.Machine.constructor` | kernel/memory/paging.cpp:187-198 | boot starts the record |
| `SpaceRuns.Machine.Map` | kernel/memory/paging.cpp:171-185 | the call is a step of the run, and the invariant of page tables and counts holds after it |
| `SpaceRuns.Machine.Store` | kernel/memory/paging.cpp:300-369 | the same for a store, owned or to a buffer; with no memory for the fault there is no step |
| `SpaceRuns.Machine.Fork` | kernel/task/task.cpp:110-145 | the same for fork, whole or half; with an empty pool there is no step |
| `SpaceRuns.Machine.Exec` | kernel/syscall/handler.cpp:446-461 | the same for exec |
| `SpaceRuns.Machine.Create` | kernel/task/task.cpp:468-472 | the same for the table of a new task |
| `SpaceRuns.Machine.Switch` | kernel/task/context_switch.asm:62-63 | the same for a switch, to any space |
| `SpaceRuns.Machine.Exit` | kernel/task/task.hpp:135-141 | the same for the end of a task |
| `SpaceRuns.Machine.MapBuffer` | kernel/memory/paging.cpp:415-432 | the same for a mapped buffer |
| `SpaceRuns.Machine.UnmapBuffer` | kernel/memory/paging.cpp:450-464 | the same for its release |
| `PageTableEdits.RemoveLeafKeeps` | kernel/memory/paging.cpp:217-230 | dropping a leaf keeps each count equal to the number of leaves naming the page and frees the page with the last one |
| `Paging.AddressSpaces.MapFrame` | kernel/memory/paging.cpp:415-432 | at the place found, consecutive foreign frames are mapped read-only and unowned; no count, no other translation and no page of any space changes; user code may read and not write them |
| `Paging.AddressSpaces.UnmapFrame` | kernel/memory/paging.cpp:450-464 | exactly the pages up to the first without a level-1 table lose their mapping; it reports failure exactly when there is such a page |
| `Paging.AddressSpaces.UnmapRegions` | kernel/task/task.cpp:197-208 | the child keeps none of the pages of its parent's buffers and all its other pages |
| `Paging.AddressSpaces.CopyForeignPage` | kernel/memory/paging.cpp:300-333 | a write fault on a foreign page gives the space an owned copy with what the frame held; it fails exactly when memory is exhausted |
| `ForeignFrames.ClearEntry` | kernel/memory/paging.cpp:454-459 | clearing an entry unseen, as unmap_frame does, keeps every page accounted for if and only if the entry holds no owned page |
| `ForeignFrames.ReleasedCopyIsLost` | kernel/task/ipc.cpp:188-205 | a buffer that was written to before its release leaves a page with count 1 that nobody maps |
| `IpcScheduler.SendMessageSafe` | kernel/task/ipc.cpp:233-299 | a delivery keeps the invariant: nobody sleeps on a message or reply that is there |
| `IpcScheduler.SendWakes` | kernel/task/ipc.cpp:264-298 | a delivery changes nobody but its destination and wakes it if and only if it is accepted and the destination sleeps waiting for a reply, respectively for any message |
| `IpcScheduler.NotifySafe` | kernel/task/ipc.cpp:375-402 | a doorbell keeps the invariant: nobody sleeps on a doorbell of its mask that is pending |
| `IpcScheduler.NotifyWakes` | kernel/task/ipc.cpp:375-402 | a doorbell changes nobody but its destination and wakes it if and only if it sleeps and does not wait for other doorbells only |
| `IpcScheduler.SwitchSafe` | kernel/task/task.cpp:268-290 | a switch keeps the queue duplicate-free and alive, with every ready task in it |
| `IpcScheduler.ExitSafe` | kernel/task/task.cpp:322-344 | a task exits only when it is not queued |
| `IpcScheduler.StepSafe` | kernel/task/ipc.cpp:233-457 | every section, doorbell and switch keeps the invariant of queue, task states and wakeups |
| `IpcScheduler.BootSafe` | kernel/task/task.cpp:385-401 | the state after initialize satisfies it, with the main task queued while it is current |
| `IpcScheduler.EveryRunIsSafe` | kernel/task/task.cpp:213-290 | so does every reachable state |
| `IpcScheduler.NoLostWakeup` | kernel/task/ipc.cpp:411-457 | in every reachable state a sleeping task is marked with what its code waits for, and one asleep in receive_blocking has an empty ring and no doorbell, one in wait_notification none of its mask, one in call no reply, one in sys_wait no record |
| `IpcScheduler.RecordChildExitSafe` | kernel/task/task.cpp:303-320 | a parent waiting for a child is woken by the record |
| `IpcScheduler.IdleFallbackUnreachable` | kernel/task/task.cpp:213-220 | after boot pick_next_task never finds the queue empty |
| `IpcRuns.WaitingIsBounded` | kernel/task/task.cpp:213-246 | the task at position k of the queue runs at the (k + 1)-th switch, whatever happens in between |
| `IpcRuns.DeletedOnce` | kernel/task/task.cpp:258-290 | in every reachable state a switch deletes exactly the task that exited at an earlier one, which was never deleted before and is alive nowhere; no other step deletes anything |
| `IpcDelivery.SendOutcomes` | kernel/task/ipc.cpp:233-299 | which error send_message returns, exactly when, each without effect; otherwise where the message is |
| `IpcDelivery.FirstInFirstOut` | kernel/task/ipc.cpp:404-433 | over any run, what was queued followed by everything sent is everything received followed by what is queued: no message is lost, repeated or overtaken |
| `IpcDelivery.StepDelivers` | kernel/task/ipc.cpp:283-298 | the same for one step |
| `IpcCalls.StepCalls` | kernel/task/ipc.cpp:301-373 | in a disciplined run every step keeps: a request somebody has is outstanding, its caller is the incarnation that made it and still waits for this server |
| `IpcContents.StepCarries` | kernel/task/ipc.cpp:233-373 | in one step nothing gets on its way to a task, its queue or its reply slot, but what the step itself makes: a one-way message with the sender's contents and claims, a request stamped with its caller, an answer stamped with its server and request, each with the contents and the buffer given |
| `IpcContents.RunCarries` | kernel/task/ipc.cpp:233-373 | over any run every message on its way was so at the start or was made by one step |
| `IpcContents.QueueHoldsWhatWasSent` | kernel/task/ipc.cpp:233-299 | whatever a task has in its queue after boot was sent to it by a step, with these contents, this buffer and this sender |
| `IpcContents.CallsGetWhatWasAnswered` | kernel/task/ipc.cpp:301-373 | in a disciplined run the contents and the buffer in a call's slot are those of the step of the called task that answered this very call |
| `IpcEvents.StepEvents` | kernel/task/ipc.cpp:37-51 | in one step: a task's exit records and the new one are the one it takes and those that stay; its doorbells are those it had without the taken ones (the lowest, or those of the mask) and the new one |
| `IpcEvents.ExitsAreReported` | kernel/task/task.cpp:303-320 | over any run a task's records, followed by id and status of each child's exit that found fewer than eight waiting, are those it took followed by those that wait, in order |
| `IpcEvents.DoorbellsWait` | kernel/task/ipc.cpp:375-402 | over any run a doorbell is pending if and only if it rang, or was pending, and was not taken since |
| `IpcEvents.ForkMakesChild` | kernel/task/task.cpp:165-171 | fork makes a waiting task in the lowest free slot that knows its parent and has nothing waiting for it; no other task changes |
| `IpcCalls.CallsGetTheirOwnReply` | kernel/task/ipc.cpp:335-347 | in a disciplined run the reply a call returns is the answer of the task that was called, to the latest call of this very task |
| `IpcCalls.AnswersAreAccepted` | kernel/task/ipc.cpp:361-373 | a server's answer to a request it received is always accepted and wakes the caller; the slot then holds the answer's contents and buffer under the request's labels |
| `IpcReplies.LaterRepliesRefused` | kernel/task/ipc.cpp:264-281 | in every run without a wrap: once a call has its reply, whoever sent it, any later reply to it is refused and changes nothing while the task that made the call lives |
| `IpcTracing.StepTraced` | kernel/task/ipc.cpp:301-373 | every step of any run without a wrap keeps: a request somebody ever received is that of the latest call of the task in its caller's slot if and only if that task made it and has made no call since, and then that task waits for nobody else |
| `IpcReplies.AcceptedReplyMatches` | kernel/task/ipc.cpp:264-281 | in every run without a wrap, for any request a task ever received and answers, for the first time or again: when the reply is accepted it belongs to the call it is delivered to if and only if the caller's slot is still the incarnation that made the request, and then that task waits for this server |
| `IpcReplies.StepWrongs` | kernel/task/ipc.cpp:264-281 | the exact condition for every step: a task gets a reply that does not answer its latest call if and only if the step delivers it a reply to a request of another incarnation, or one that answers no request |
| `IpcReplies.RepliesMatch` | kernel/task/ipc.cpp:264-347 | a run without such a step leaves every task with replies to its latest call only |
| `IpcReplies.UnaskedReplyTaken` | kernel/syscall/handler.cpp:333-357 | IPC_REPLY without a request is taken for the answer if and only if it states the number of the target's outstanding call and no reply is there yet |
| `IpcReplies.ForgedRequestAnswered` | kernel/syscall/handler.cpp:279-304 | the answer to an IPC_SEND that states a sender and a correlation is taken for the answer to that sender's call under the same condition |
| `IpcReuse.WrongReplyAccepted` | kernel/task/ipc.cpp:264-281 | a reachable run in which matching fails: a request is answered twice and the task id is reused in between |
| `IpcReuse.BufferLost` | kernel/task/ipc.cpp:327-337 | the same run continued: the buffer of the wrong reply ends without an owner |
| `IpcReuse.UnreceivedRequestAnswered` | kernel/syscall/handler.cpp:333-357 | a reachable run in which an unasked reply is taken: the request is still in the ring |
| `IpcReuse.ForgedRequestWrongs` | kernel/syscall/handler.cpp:279-304 | a reachable run in which the answer to a one-way message is taken for the answer to somebody's call |
| `IpcOwnership.SendMessageOwners` | kernel/task/ipc.cpp:233-299 | a delivered message hands its buffer over, a refused one changes nothing |
| `IpcOwnership.DeliverOolOwned` | kernel/task/ipc.cpp:137-186 | delivery puts the buffer in a free slot of the region table, or frees it exactly when it is unaligned, the table is full or it cannot be mapped; either way it has one owner or is gone |
| `IpcOwnership.ReleaseOolOwned` | kernel/task/ipc.cpp:188-205 | releasing a region frees its buffer and its slot; nothing changes if and only if no region has the address |
| `IpcOwnership.ReleaseAllOwned` | kernel/task/ipc.cpp:217-231 | exit frees what the task owns and nothing else |
| `IpcOwnership.StepOwned` | kernel/task/ipc.cpp:65-231 | a step keeps every live buffer with exactly one owner, except that a call started over an unclaimed reply with a buffer loses that buffer |
| `IpcOwnership.RunOwned` | kernel/syscall/handler.cpp:252-370 | over any run every live buffer has exactly one owner except those the run lost, which stay alive without one |
| `IpcOwnership.BuffersOwnedOnce` | kernel/syscall/handler.cpp:252-370 | after boot and any run every live buffer has exactly one owner if and only if no call of the run started over an unclaimed reply with a buffer |
| `IpcOwnership.DisciplinedLosesNothing` | kernel/task/ipc.cpp:301-347 | in a disciplined run no call does |
| `IpcModel.AvailableId` | kernel/task/task.cpp:32-41 | the lowest free slot |
| `IpcModel.RegionIndex` | kernel/task/ipc.cpp:190-194 | the first occupied slot with the address |
| `IpcModel.FreeSlot` | kernel/task/ipc.cpp:153-159 | the first free slot of the region table |
| `Words.ClearsLowest` | kernel/task/ipc.cpp:43-44 | x & (x - 1) clears the lowest set bit, the one __builtin_ctz finds, and no other |
| `Words.OrBits` | kernel/task/ipc.cpp:390 | setting a bit of a word adds it to the set of its bits |
| `Words.AndNotBits` | kernel/task/ipc.cpp:441-442 | x & ~mask is set difference, x & mask is intersection (`Words.AndBits`) |
| `TaskObjects.TaskObject.PopNotification` | kernel/task/ipc.cpp:37-50 | on the 32-bit word: exactly the lowest pending doorbell goes |
| `TaskObjects.TaskObject.TakeNotifications` | kernel/task/ipc.cpp:441-442 | on the word: exactly the doorbells of the mask go, if there is one |
| `TaskObjects.TaskObject.AddExitRecord` | kernel/task/task.cpp:307-315 | on the array: the record follows the others, or is dropped when all eight are there |
| `TaskObjects.TaskObject.TakeExitRecord` | kernel/syscall/handler.cpp:485-490 | the shift loop takes the oldest record off and keeps the order of the others |
| `TaskObjects.TaskObject.FindFreeRegion` | kernel/task/ipc.cpp:153-159 | the scan of the 16-slot table finds the first free slot |
| `TaskObjects.TaskObject.FindRegion` | kernel/task/ipc.cpp:190-194 | the scan finds the first occupied slot with the address |
| `TaskObjects.TaskObject.ClearRegions` | kernel/task/ipc.cpp:207-215 | every slot is free and exactly the buffers of the occupied ones are freed, holes or not |
| `TaskObjects.TaskObject.DrainMessages` | kernel/task/ipc.cpp:221-225 | receiving until nothing comes empties doorbells and ring and frees exactly the buffers queued |
| `TaskObjects.TaskObject.BeginCall` | kernel/task/ipc.cpp:311-331 | the correlation counter wraps at 2^32 and skips 0; the rest is the step machine's start of a call |
| `IpcKernel.Kernel.Initialize` | kernel/task/task.cpp:385-401 | creating and scheduling the tasks one by one, in the task table and the linked list, gives the boot state of the step machine, which is safe |
| `IpcKernel.Kernel.ScheduleTask` | kernel/task/task.cpp:227-246 | on the linked list: the task is ready, and its element is appended if the walk did not find it |
| `IpcKernel.Kernel.PickNextTask` | kernel/task/task.cpp:213-225 | the first element is unlinked and the task it is embedded in runs |
| `IpcKernel.Kernel.SwitchTask` | kernel/task/task.cpp:268-290 | reaping, leaving and picking on the table and the list have the effect of a switch, and the result is safe |
| `IpcKernel.Kernel.CreateTask` | kernel/task/task.cpp:64-79 | the scan for a free slot and a new object, disjoint from all others, create the task the step machine creates |
| `IpcKernel.Kernel.SendMessage` | kernel/task/ipc.cpp:233-299 | delivery into the slot or the circular ring, refusal and wakeup are those of the step machine, error codes included; no other object changes |
| `IpcKernel.Kernel.NotifyTask` | kernel/task/ipc.cpp:375-402 | setting a bit of the word and testing the mask word are the step machine's doorbell |
| `IpcKernel.Kernel.ReceiveBlocking` | kernel/task/ipc.cpp:411-433 | popping the word, then the circular ring, is the step machine's pass of receive_blocking; it returns the lowest doorbell, else the oldest message, else nothing |
| `IpcKernel.Kernel.WaitNotification` | kernel/task/ipc.cpp:435-457 | the same for wait_notification on the two words |
| `IpcKernel.Kernel.SysWait` | kernel/syscall/handler.cpp:473-503 | the same for sys_wait with its shift loop; it returns the oldest record, if any |
| `IpcKernel.Kernel.DeliverOol` | kernel/task/ipc.cpp:137-186 | the first hole of the region table takes the buffer, or the buffer is freed |
| `IpcKernel.Kernel.ReleaseOol` | kernel/task/ipc.cpp:188-205 | the slot becomes a hole and its buffer is freed |
| `IpcKernel.Kernel.RecordChildExit` | kernel/task/task.cpp:303-320 | the record and the wakeup, on the parent's array |
| `IpcKernel.Kernel.ReleaseAll` | kernel/task/ipc.cpp:217-231 | clearing the table, draining the queue and dropping the reply free exactly what the step machine says |
| `IpcKernel.Kernel.ExitTask` | kernel/task/task.cpp:322-344 | exit_task as one step; the result is safe |
| `IpcKernel.Kernel.Do` | kernel/task/ipc.cpp:233-457 | every step of the kernel's data structures is the step of the step machine, keeps them well formed and disjoint, and is safe |
| `IpcKernel.Kernel.Run` | kernel/task/task.cpp:213-344 | every run of the kernel is a run of the step machine, so all results about runs are results about it |
| `IpcKernel.Kernel.NothingMissedHere` | kernel/task/ipc.cpp:411-457 | in the kernel's own words: a sleeping task is marked with the loop it is in, and a task that sleeps in a receive has ring count 0 and word 0, one that waits for doorbells none of its mask word, one that waits for a reply or a child none |
| `IpcKernel.Kernel.ReadyIsQueued` | kernel/task/task.cpp:227-246 | a ready task's element is in the linked list, and no element is there twice |
| `IntrusiveList.Init` | kernel/list.cpp:4-8 | an empty circular list |
| `IntrusiveList.PushBack` | kernel/list.cpp:16-23 | the links lead around the old elements and the new one, in both directions |
| `IntrusiveList.PopFront` | kernel/list.cpp:25-37 | takes the first element off, null for an empty list; the rest is a well-formed list |
| `IntrusiveList.Contains` | kernel/list.cpp:39-51 | membership |
| `IntrusiveList.Size` | kernel/list.cpp:55-65 | the number of elements |
| `IntrusiveList.IsEmpty` | kernel/list.cpp:53 | empty or not |
| `IntrusiveList.ContentsUnique` | kernel/list.cpp:4-65 | the links determine the contents |
| `MessageQueues.MessageQueue.constructor` | kernel/task/message_queue.cpp:15-27 | empty, with or without storage |
| `MessageQueues.MessageQueue.Push` | kernel/task/message_queue.cpp:31-41 | appends, or fails exactly when full or without storage |
| `MessageQueues.MessageQueue.Pop` | kernel/task/message_queue.cpp:43-54 | takes the oldest message, or fails exactly when empty |
| `FatChains.CountFreeClusters` | kernel/fs/fat/utils.cpp:191-202 | the number of free clusters |
| `FatChains.ExtendClusterChain` | kernel/fs/fat/utils.cpp:124-150 | appends the first free clusters in order, as many as there are; reports failure exactly when there were too few |
| `FatChains.AllocateClusterChain` | kernel/fs/fat/utils.cpp:158-184 | all or nothing: succeeds if and only if enough clusters are free, with a chain of the first free ones and every other entry unchanged; failure leaves the table as it was |
| `FatChains.FreeClusterChain` | kernel/fs/fat/utils.cpp:209-221 | frees exactly the clusters of the chain |
| `FatChains.AllocateThenFree` | kernel/fs/fat/utils.cpp:158-221 | free inverts allocate on the whole table; the allocation fails exactly when too few clusters are free |
| `FileCaches.FileCacheTable.FindByPath` | kernel/fs/file_info.cpp:20-30 | finds the cache of a path if there is one and makes it the most recently used |
| `FileCaches.FileCacheTable.Create` | kernel/fs/file_info.cpp:37-64 | a new entry under a new id; a full table gives up exactly its least recently used entry |
| `FileCaches.FileCacheTable.RemoveByPath` | kernel/fs/file_info.cpp:73-83 | removes the entry of a path and no other |
| `FatFiles.Volume.constructor` | kernel/fs/fat/init.cpp:28-63 | a volume mounted from a well-formed table and directory satisfies the invariant: chains acyclic, terminated, disjoint and long enough, no cluster leaked, cache equal to the disk |
| `FatFiles.Volume.EnsureFirstCluster` | kernel/fs/fat/file.cpp:163-173 | an empty file gets one cluster, no contents and no other chain change |
| `FatFiles.Volume.AddClusters` | kernel/fs/fat/file.cpp:188-199 | with enough free clusters the extension cannot fail; contents are unchanged |
| `FatFiles.Volume.GrowFileIfNeeded` | kernel/fs/fat/file.cpp:161-202 | succeeds exactly when enough clusters are free, counting the surplus one an empty file gets; the chain grows by that many, the free clusters shrink by as many, no contents change |
| `FatFiles.Volume.WriteFileCluster` | kernel/fs/fat/file.cpp:215-275 | writes one zero-staged cluster after dropping the cached copy; the exact conditions for each error; other files keep their contents even when the device fails |
| `FatFiles.Volume.TruncateFile` | kernel/fs/fat/file.cpp:284-317 | if the new size needs fewer clusters than the old one, the chain becomes its first so many clusters, the last of them ends it, exactly the others are free in the table and counted so, and no other entry changes; otherwise nothing changes |
| `FatGrowth.CutFrees` | kernel/fs/fat/file.cpp:284-317 | cutting a chain frees exactly the clusters cut off |
| `FatFiles.Volume.SetSize` | kernel/fs/fat/file.cpp:474-481 | a size set smaller cuts the chain to what it needs, any other size leaves it; what the file loses is what becomes free |
| `FatContents.Staged` | kernel/fs/fat/file.cpp:237-258 | the written bytes at their place in a cluster of zeros |
| `FatFiles.Volume.WriteAt` | kernel/fs/fat/file.cpp:450-480 | a write, also one of no bytes, succeeds if and only if clusters, buffer and device allow it and no partial cluster meets existing contents away from the start |
| `FatFiles.Volume.HandleFsWrite` | kernel/fs/fat/file.cpp:437-487 | every request, successful or not, keeps the invariant and all other files; one that fails before the device changes no contents; one that succeeds stores the written cluster, keeps the other clusters and sets the size to offset plus count. The file has exactly the clusters the growth added or the cut left, and what it gained or lost is what is no longer or newly free |
| `FatFiles.StoredAtStart` | kernel/fs/fat/file.cpp:437-487 | at most one cluster written at offset 0 replaces the file |
| `FatFiles.StoredWholeCluster` | kernel/fs/fat/file.cpp:437-487 | a full cluster at a cluster boundary cuts the file there and follows it |
| `FatFiles.Volume.LoadFile` | kernel/fs/fat/file.cpp:45-81 | through the cache or not, the file's contents; fails exactly when it is not cached and one of its clusters cannot be read, leaving no half-filled cache |
| `FatFiles.Volume.HandleFsRead` | kernel/fs/fat/file.cpp:111-132 | the window at the record's offset, which moves past it; empty at the end of the file; a read fails exactly when the file is not cached and one of its clusters is bad |
| `FatFiles.Volume.ReadToEnd` | kernel/fs/fat/file.cpp:403-411 | reading until an empty answer gives the rest of the file |
| `FatFiles.Volume.WriteClusters` | kernel/fs/fat/file.cpp:437-487 | a sequence of full-cluster writes leaves their concatenation, of exactly as many as there are clusters for |
| `FatFiles.Volume.WriteOnceThenRead` | kernel/fs/fat/file.cpp:437-487 | a write of at most one cluster at the start succeeds exactly when it fits and is what another handle then reads to the end; when it fails the handle reads the old contents |
| `FatFiles.Volume.WriteThenRead` | kernel/fs/fat/file.cpp:437-487 | another handle reads back exactly what was written, cached before or not, and no other file changes; how many writes fit is exact |
| `FatContents.ViewClusterWritten` | kernel/fs/fat/file.cpp:263-270 | writing a cluster of one chain changes that file only |
| `FatContents.NoLeakKept` | kernel/fs/fat/file.cpp:161-317 | every used cluster belongs to a file or was reserved before |
| `XhciRing.Ring.constructor` | kernel/hardware/usb/xhci/ring.cpp:15-25 | an empty ring of zeroed TRBs with cycle state 1 |
| `XhciRing.Ring.CopyToLast` | kernel/hardware/usb/xhci/ring.cpp:27-35 | the slot has the words given, but for the cycle bit, which is the ring's |
| `XhciRing.Ring.Push` | kernel/hardware/usb/xhci/ring.cpp:37-69 | refused exactly when all but one data slot are unreported; otherwise the TRB goes word for word to the next place, with the ring's cycle bit, never over an unreported one |
| `XhciRing.Ring.OnConsumed` | kernel/hardware/usb/xhci/ring.cpp:71-84 | frees the slots up to the reported TRB; a pointer outside the ring is ignored |
| `XhciRing.OneMore` | kernel/hardware/usb/xhci/ring.cpp:49-66 | the slots, their cycle bits and the link TRB after one more push, also at the wrap |
| `XhciRing.Seen` | kernel/hardware/usb/xhci/ring.cpp:27-69 | what a consumer that follows cycle bits and the toggling link sees: the next TRB, the link, or nothing |
| `XhciRing.Controller.Look` | kernel/hardware/usb/xhci/ring.cpp:27-69 | it takes exactly the TRB pushed next, word for word, if and only if it is at a data slot and there is one; at the link it goes to the start |
| `XhciRing.RefinesFifo` | kernel/hardware/usb/xhci/ring.cpp:15-84 | over any interleaving and any number of wraps, ring and controller are in the state of a bounded queue after the same events, and what was taken is what was pushed, in order and word for word |

## Left out

- Assembly, device registers, graphics, serial, logging, boot loader and user programs: plumbing without deep invariants.
- TLB flushes, CR3 loads, huge pages and what the kernel half maps: the active table is a variable, and of the kernel half
  the model says only that all address spaces have the same.
- Kernel writes into user memory.
- The search of map_frame_to_vaddr: the place it finds is an input of `MapFrame` and of the delivery step.
- Paging.AddressSpaces.Fork: asks that a clone that gets a frame for its root gets frames for all its tables, because
  copy_page_tables does not check its own allocations.
- Paging.AddressSpaces.ClonePageTable: the same.
- Paging.AddressSpaces.CopyPageTables: the same.
- Paging.AddressSpaces.SetupPageTable: asks for fewer than 2^31 pages; `PageTables.AsIntExact` says what the result loses
  from there on.
- Paging.AddressSpaces.SetupPageTables: the same.
- Paging.AddressSpaces.CopyTargetPage: asks for an owned leaf; `CopyForeignPage` is the fault on a foreign one.
- Paging.AddressSpaces.UserStore: asks for a mapped page (a fault on another ends the program) and does not model what a store
  to a writable page of a buffer does to the buffer.
- SpaceRuns.Isolation: for careful runs. A failed child keeps pointing at the space its fork left behind, so the processor may
  go there again; `BackInAbandonedSpace` says what a store does then.
- SpaceRuns.Machine.Fork: the same as `AddressSpaces.Fork`.
- SpaceRuns.Machine.Map: the same as `SetupPageTables`.
- SpaceRuns.Machine.Store: the same as `UserStore`.
- SpaceRuns.Machine.MapBuffer: the same as `MapFrame`, whose place is an input.
- SpaceRuns.Machine.UnmapBuffer: the same as `UnmapFrame`.
- SpaceRuns.Machine.Create: asks for a free frame; the constructor of a task does not look whether it got one.
- Paging.AddressSpaces.UnmapFrame: asks that the range holds no owned page; `ForeignFrames.ClearEntry` says exactly what goes
  wrong otherwise and `ForeignFrames.ReleasedCopyIsLost` how it comes about.
- Paging.AddressSpaces.UnmapRegions: the same.
- IpcCalls.CallsGetTheirOwnReply: for disciplined runs; `IpcReuse` shows that it is false for others and
  `IpcReplies.StepWrongs` says exactly when a reply does not match.
- IpcContents.CallsGetWhatWasAnswered: for disciplined runs; `RunCarries` says for every run which kind of step made a reply.
- IpcReplies.AcceptedReplyMatches: for runs in which no task makes 2^32 calls; so are the other results of `IpcReplies`.
- SlabAllocation.SlabAllocator.Alloc: asks for a positive alignment; `AllocAlignZero` is the call with alignment 0.
- FatChains.ExtendClusterChain: asks that the last cluster's own entry is not free; the source would find that cluster.
- FatChains.FreeClusterChain: asks for a chain that ends; on a cyclic one the source would not stop.
- FileCaches.FileCacheTable.Create: asks that the path is not cached; its only caller looks first.
- XhciRing.Ring.Push: asks that the TRB is no link TRB; the source does not look, and no caller pushes one.
- XhciRing.Ring.OnConsumed: asks that a TRB reported from inside the ring is one that was pushed and not yet reported; the
  source takes any pointer into the ring.
- BuddyAllocator.BuddySystem.Release: asks for a live block and the size it was allocated with, as callers of free do.
- The file descriptors, stacks, contexts and page tables of tasks in the step machine and in `IpcKernel`; a message ring
  whose storage could not be allocated (it is in `MessageQueue` only).
- The bits of the doorbell word beyond the five doorbells that exist.
- A destination outside the task table in send_message: the source indexes with it unchecked. The steps that name a destination
  exclude it; an answer to a request whose forged caller lies outside the table is modelled as the error for a missing task,
  which the source does not promise.
- Heap debugging, pool allocation and list nodes, and preemption inside the allocators.
- FAT directories, 8.3 names, open and close, the open-file limit and sweep: a directory is a map from names to entries,
  records map handles to a name and an offset.
- The block device beyond clusters: a read is exact or fails, a failed write leaves any bytes in its cluster.
- Handle, cache id, LRU tick and notification counters do not wrap.
- Virtqueues, timers, USB enumeration and networking.
- The event ring of the xHCI driver.
- BuddyAllocator.BuddySystem.RegisterMemoryBlocks: the source's decrement of the order after the last block is a dead store
  and is not modelled.
