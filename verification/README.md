# Verified model of a small RISC-V kernel

This project models the memory management, the scheduling and the boot-time parsers of the kernel and
proves what they keep. `dafny verify dfyconfig.toml` checks all of it. Nothing was executed.

The source changes its state in place, and so does the model: the allocators, the page tables, tasks,
the scheduler, the timers and the interrupt queue are classes whose methods follow the C functions
branch by branch, loops included. Each method is proved against a mathematical value (the set of free
pages, the translation of every page, the queues), and the promises are lemmas about those values. The
parsers only read memory; they are methods over a sequence of bytes indexed by address, so every access
is also proved to stay inside it.

## What is proved

**Page allocator** (`FreeBlocks`, `PageAllocator`, `AllocatorRuns`, `ReservedMemory`). `frame_array` is
right only at block heads; pages inside a block keep stale orders and flags. `FreeBlocks` shows that a set
of free pages has exactly one decomposition into disjoint aligned blocks with no two free buddies below
the top order. The allocator's lists always hold exactly that decomposition, so they depend on which pages
are free and not on the order of calls. `_get_buddy` never looks at a stale page: the buddy's first page
is a head, a reserved page or out of range (`BuddyMetadata`). Allocation fails exactly when no aligned run
is free. The frame array goes to the lowest address that misses every reserved region, also when the
region list is unsorted. After `memory_init` no run makes a page live that a region marked, and calls of
the allocator until it gives nothing make exactly the others live (`HandOutAll`). The page of every byte
that a region has in memory is marked for it exactly if it has none there, or lies wholly in memory and
fills its pages.

**Small allocator** (`DynamicAllocator`). Every pool page is exactly its free and live chunks, live
regions never overlap, and `free` finds the pool of an address through page metadata.

**Page tables** (`Sv39`, `PageTree`, `VirtualMemory`, `Traversal`, `Teardown`, `KernelMap`, `Roots`).
`Sv39.Translate` is the walk of section 4.4 of the RISC-V Privileged Architecture manual, version
20211203. Tables form an unshared tree; mapping a range is an exact update of the translation of every
page of every address space, including what is lost when a walk replaces a larger leaf. Traversal visits
exactly the leaves that meet a range, once each and in order. Teardown returns exactly the tables below a
range of entries. Refining the kernel's gigabyte leaves leaves every byte of memory where it was, readable
and writable by the kernel alone and executable exactly in the image, by the bits that the manual tests. A
new root has the kernel's half, so in every state of every run each address space translates the kernel's
pages as the kernel's own did at the start (`KernelInEverySpace`). `Boot` goes from the first mappings
over the allocators and the refined map to the scheduler with the idle task: what each set-up leaves is
what the next one asks for.

**Tasks** (`TaskMappings`, `AddressSpaces`, `KernelMemory`, `Ownership`, `Tasks`, `TaskCopies`,
`TaskLife`, `TaskFork`, `TaskCreation`, `TaskRuns`, `TaskExec`, `Systems`). All of the above in one state.
`Owned` says that a task owns its structure, list nodes, stack, root, tables and data pages, each once,
and that its pages are the user's. Creation establishes it; starting a program, fork, page faults, `mmap`
and exit keep it. A fork, any run of page faults and `mmap` calls of the child, and its exit leave every
live page, large block and chunk, and every other address space, as they were (`ForkRunExit`).
`task_exec_user` leaves the task the program and nothing else, on the memory that it had or on free memory
(`ExecUser`). A page fault kills the task exactly when the manual would refuse the access under every
mapping (`PageFault`): for a mapping of `mmap` when it was not asked for. What the user then sees are the
bytes of the program (`ProgramBytes`), and a child of a fork sees what its parent saw (`ForkedBytes`).
`Systems` is about many tasks: in every state of every run of creations, program starts, forks, faults,
mappings and exits, in any order, each task owns its memory, no two share a page, block or chunk, all that
is live is some task's or the kernel's, and no step touches the memory of a task but its own
(`RunKeepsApart`, `StepKeeps`).

**Scheduler** (`Scheduler`). A state machine over runs of nine kinds of step. Queues and task states
agree, at most the current task runs, a stopped current task has a reschedule pending, idle is ready or
running, reaping is once and never of the current task. Exactly which step changes the state of a task,
and to what, is `StatesAfter`: a waiter goes on waiting for what it asked for until it is killed or roused
by an event for it, and the kill of a task rouses those that wait for its end. A ready task runs within a
bounded number of switches; a killed one is reaped within a bounded number of turns. The class refines the
steps.

**Scheduler and memory together** (`RunningSystems`, `Commands`). In every run of both, every task that the
scheduler knows has its memory, the current one included. From the moment a task is killed its memory is
untouched, and within a bounded number of turns of the idle loop it is returned, exactly that and exactly
once (`KilledReturned`). `cpu_scheduler_init`, a turn of `cpu_scheduler_idle`, `_syscall_fork` and
`command_exec` are such runs; `Boot` leads to where they start.

**Timers and interrupt tasks** (`SortedQueues`, `TimeoutQueues`, `HandlerTurns`, `HandlerEnds`,
`Timeouts`, `InterruptTasks`, `LinkedList`). Stable sorted queues; one run of the timer handler over a
queue that its callbacks extend, when it ends and what it has called by then; on a clock of any frequency
a new timeout is called exactly when its delay has gone by (`CalledWhenDue`); a ring of slots.
`LinkedList` refines a sequence with the intrusive list, and says what a walk meets when a node is inserted
that is in the list already.

**Parsers** (`Strings`, `Converters`, `Slices`, `Initrd`, `DeviceTree`, `FlatTree`, `FdtParser`). Each
is proved against a printer. The archive is the New ASCII Format of cpio(5), with any field values and
hexadecimal digits of either case. The devicetree is that of sections 5.2 to 5.4 of the Devicetree
Specification v0.4, with any number of NOP tokens anywhere between tokens and nesting up to 31.

## Where the code falls short

Each of these has a lemma with an input and a lemma or contract with the exact condition.

- A reserved region is not wholly protected if its bytes straddle one page more than its size fills
  (`RegionNotCovered`, `RegionCovered`; this includes the frame array when it follows a region that does not
  end at a page boundary), or if it lies only partly in memory (`PartlyInsideHandedOut`). `ProtectedIff` has
  both conditions, `WholePagesProtected` a simple sufficient one. Regions after the hundredth are dropped:
  `MemoryReserve`.
- A size within 4095 of 2^64 aligns to 0: `AlignedSizeWraps`; `AlignedSize` gives the condition and
  `AddMapping` says that the list stays well placed exactly under it.
- A request for an address within 4095 of 2^64 is placed far below that address: `RequestWraps`;
  `RequestReached` gives the condition, and it is part of `RequestPlaced` in the contracts.
- `_syscall_mmap` means to refuse requests without access but tests for zero only: `GuardTooWeak`;
  `MappingProtLeaf` gives the condition. It does not test that the place is in the lower half either:
  `UpperHalfPlaced`. `Mmap` says that the task's memory is in order afterwards exactly if the request is
  refused or good: its size does not wrap, some access is asked for, and its place is in the lower half.
- The 128 slots of interrupt tasks are reused whether or not they are still queued: after 128 additions and
  127 executions the one queued task is overwritten and queued twice (`SlotOverrun`). `AdditionKeepsQueued`
  says that an addition keeps the queued tasks and the queue exactly if the next slot is not queued, or,
  for the contents, is written with what it holds. A node inserted twice breaks its list: what a walk from
  its head meets then, and that it may never end, is in the contracts of `LinkedList.Insert` and
  `LinkedList.InsertBefore`.
- `task_copy` gives a copied file mapping the aligned size for the size of its file. A page that comes after the
  fork can then show the child what lies behind the file, where the parent sees zeros (`PastTheFile`);
  `ForkedFault` says exactly when both see the same.
- `task_exec_user` does not clear the lower half of a new root, as `task_copy` does: what the page held may
  map memory for the new program (`LeftoverSeen`). The new root is that of an empty address space exactly if
  the page held zeros there (`LeftoverIff`), which `ExecUser` asks for.
- `clear_timeout` takes the first entry with the 32-bit identifier, which is another timeout if that was
  set 2^32 timeouts earlier and is still queued (`IdReused`); setting and clearing leads there
  (`WrongOneCleared`). `ClearedWanted` gives the condition; `RecentIds` shows that it holds while all queued
  timeouts are among the last 2^32.
- One run of the timer handler need not end: a callback that sets itself again for a deadline asks, once
  that has passed, for a delay that wraps to it (`RearmedForever`). Among finitely many callbacks the
  handler ends exactly if no cycle of requests for passed times is reached from what has expired
  (`EndsIff`), and `PassedIff` says which requests these are: on a clock that has moved on, those whose
  sum wraps. `EndsIff` is for callbacks whose requests for passed times are the same on every turn of the
  handler; callbacks that clear timeouts are not modelled.
- `fdt_node_addr_by_path` does not go back after a match: `FirstMatchOnly`; `FindExact` says which nodes
  it finds.
- An archive of no files is not seen to be empty: the walk yields the trailer and a lookup finds it
  (`EmptyArchive`, `EmptyLookup`). The walk yields exactly the files if and only if there is one (`Seen`,
  `List`).

## Assumptions

- Memory starts above address 0 and is a multiple of the page size of less than 2^19 pages. Sums of 64-bit
  addresses wrap in the model as in the code; `BelowTop` says that reserved regions end below 2^64, with
  room for the frame array behind those that start below the end of memory, so that the search ends.
  Requests are of at most 2^63 bytes.
- `memory_free_pages` gets the head of a live block (or 0, or an address outside memory).
- The kernel's root table is in the kernel image; direct-mapped physical addresses fit into 56 bits.
- There is memory for the tables, pages and blocks that an operation takes; the code does not handle its
  absence. Mappings that are populated lie below 2^38 and allow some access.
- The bounds of the kernel image and the size of memory are multiples of 2 MiB, and the linker's kernel
  address agrees with the direct map.
- A scheduler call up to and including the context switch is one step. The idle task is never killed and
  never waits; only a running task waits; pids are new. A task forks, faults and maps while it is running,
  and starts a program then or before it is scheduled.
- What a callback of a timeout does is to set timeouts, as a function of its call and of the turn of the
  handler. For `EndsIff`, which of them are for passed times does not depend on the turn.
- Devicetree and archive are well formed and lie in memory below 2^64; a wrong archive magic is handled. An
  archive of no files is not followed by a further header.

## Model

| member | source | states |
|---|---|---|
| Bits.XorFlips | src/kernel/mm/page_allocator.c:218-220 | the exclusive or with the size of an aligned block goes to its buddy: up by the size if the block is the lower half of its parent, down if it is the upper |
| Bits.XorScale | src/kernel/mm/page_allocator.c:219-220 | so the exclusive or of byte offsets is that of page numbers |
| FreeBlocks.BuddiesJoin | src/kernel/mm/page_allocator.c:251-262 | buddies are disjoint, together they are the block of twice the size that starts at the lower one, and each is the other's buddy |
| FreeBlocks.MaximalUnique | src/kernel/mm/page_allocator.c:251-268 | two coalesced free blocks that share a page are the same block |
| FreeBlocks.RemoveMaximal | src/kernel/mm/page_allocator.c:195-197 | taking one listed block away leaves exactly the other listed blocks as the decomposition of the remaining free pages |
| FreeBlocks.AddMaximal | src/kernel/mm/page_allocator.c:264-268 | adding a block whose buddy is not wholly free adds that block alone to the decomposition |
| FreeBlocks.CanonicalPartition | src/kernel/mm/page_allocator.c:235-271 | the canonical blocks partition the free pages into disjoint aligned blocks |
| FreeBlocks.CanonicalCoalesced | src/kernel/mm/page_allocator.c:251-262 | below the top order no two canonical blocks are buddies |
| FreeBlocks.CanonicalUnique | src/kernel/mm/page_allocator.c:218-271 | a set of blocks partitions the free pages and is coalesced if and only if it is the canonical one: the free blocks depend on the free pages alone |
| FreeBlocks.RunExistsIff | src/kernel/mm/page_allocator.c:184-193 | an aligned run of free pages exists exactly when some canonical block is at least that large |
| PageAllocator.BuddyMetadata | src/kernel/mm/page_allocator.c:218-233 | although pages inside blocks keep stale metadata, the flag and order tests at the buddy succeed exactly when the whole buddy is free |
| PageAllocator.RegionCovered | src/kernel/mm/page_allocator.c:69-77 | reserving pages covers every byte of a region exactly when its bytes do not straddle one page more than its size fills |
| PageAllocator.RegionNotCovered | src/kernel/mm/page_allocator.c:69-77 | a region of two bytes over a page boundary is not covered |
| PageAllocator.AllocateFrameArray | src/kernel/mm/page_allocator.c:79-109 | terminates with the lowest address in memory whose range misses every reserved region; with 0 exactly if there is none or the end of memory wraps to 0 |
| PageAllocator.OverlapsBytes | src/kernel/mm/page_allocator.c:88-99 | the overlap test is exact: two ranges that are not empty overlap if and only if they share a byte |
| PageAllocator.InsideBytes | src/kernel/mm/page_allocator.c:155-160 | a region that is not empty is inside if and only if all its bytes are in memory |
| PageAllocator.PageAllocator.MemoryAdd | src/kernel/mm/page_allocator.c:37-46 | the region is appended, unless ten are known |
| PageAllocator.PageAllocator.MemoryReserve | src/kernel/mm/page_allocator.c:48-57 | the region is appended, unless a hundred are known |
| PageAllocator.PageAllocator.ReservePages | src/kernel/mm/page_allocator.c:69-77 | exactly the pages of the region become reserved, and no other metadata changes |
| PageAllocator.PageAllocator.PopulateOrdersLists | src/kernel/mm/page_allocator.c:111-130 | every page that is not reserved becomes free, whatever was coalesced on the way |
| PageAllocator.PageAllocator.MemoryInit | src/kernel/mm/page_allocator.c:132-171 | fails exactly when the frame array fits nowhere or memory ends at 2^64; else the reserved pages are those of the frame array and of the regions wholly in memory, all others are free, and this is the first state of a run |
| PageAllocator.PageAllocator.IndexRoundTrip | src/kernel/mm/page_allocator.c:33-35 | the address of a page leads back to its metadata |
| PageAllocator.PageAllocator.GetBuddy | src/kernel/mm/page_allocator.c:218-233 | the buddy's address if the whole buddy is free, and 0 if not |
| PageAllocator.PageAllocator.Coalesce | src/kernel/mm/page_allocator.c:248-268 | the block's pages become free and the lists are the canonical decomposition again |
| PageAllocator.PageAllocator.FreePages | src/kernel/mm/page_allocator.c:235-271 | exactly the pages of the live block become free; 0 and addresses outside memory change nothing |
| PageAllocator.PageAllocator.FirstFit | src/kernel/mm/page_allocator.c:184-188 | the lists below the chosen order are empty and its own is not |
| PageAllocator.PageAllocator.Split | src/kernel/mm/page_allocator.c:199-208 | splitting frees exactly the pages above the part that is kept |
| PageAllocator.PageAllocator.AllocatePages | src/kernel/mm/page_allocator.c:174-216 | 0 exactly when the smallest sufficient size exceeds the top order or no free aligned run has it; else such a run, from the oldest block of the first nonempty list, becomes live and nothing else changes |
| PageAllocator.PageAllocator.ValidSeparate | src/kernel/mm/page_allocator.c:174-271 | a valid allocator is a starting point of a run: live blocks are disjoint from each other and from the free pages |
| AllocatorRuns.NextConserves | src/kernel/mm/page_allocator.c:174-271 | an allocation or a free loses and duplicates no page |
| AllocatorRuns.RunConserves | src/kernel/mm/page_allocator.c:174-271 | in every state of every run live blocks are disjoint from each other and from the free pages, and together with them they are the pages of the first state |
| AllocatorRuns.SameLiveSameFreeBlocks | src/kernel/mm/page_allocator.c:174-271 | two states of a run with the same live blocks have the same free blocks, in whatever order they were freed |
| ReservedMemory.TakeAllPages | src/kernel/mm/page_allocator.c:174-216 | single pages can be had until none is free; what was live stays live, and no page is lost |
| ReservedMemory.MarkedNeverLive | src/kernel/mm/page_allocator.c:132-216 | in no state of any run after initialization is a page live that a region marked |
| ReservedMemory.HandOutAll | src/kernel/mm/page_allocator.c:174-216 | after initialization, asked for pages until it gives none, the allocator has made live exactly the pages of memory that no region marked |
| ReservedMemory.ProtectedIff | src/kernel/mm/page_allocator.c:149-160 | the page of every byte that a region has in memory is marked for it if and only if it has none, or lies wholly in memory and fills its pages |
| ReservedMemory.WholePagesProtected | src/kernel/mm/page_allocator.c:69-77 | regions of whole pages, each wholly inside or outside memory, are protected |
| ReservedMemory.NeverHandedOut | src/kernel/mm/page_allocator.c:132-216 | in no state of any run does a live block contain a page with a byte of a protected region or of a protected frame array |
| ReservedMemory.PartlyInsideHandedOut | src/kernel/mm/page_allocator.c:149-216 | as a program of calls: a region of whole pages that reaches past the end of memory is skipped, and its page in memory becomes live |
| LinkedList.LinkedList.Insert | src/kernel/ds/linked_list.c:11-25 | the node is appended to the sequence that the links spell; a node that was in the list already leaves links that spell no sequence: a walk ends at it, or stays there for ever if it was the last |
| LinkedList.LinkedList.InsertBefore | src/kernel/ds/linked_list.c:27-42 | the node enters the sequence right before the given one; if it was in the list already, a walk from the head jumps over what was between the two, stays at the node, or goes round for ever, depending on where it was |
| LinkedList.LinkedList.RemoveNode | src/kernel/ds/linked_list.c:44-59 | the node leaves the sequence, the order of the others stays, its own links are null |
| Lists.RemoveAt | src/kernel/ds/linked_list.c:44-59 | removing an element of a list without repetitions removes its position |
| DynamicAllocator.ChunksOfNewPage | src/kernel/mm/dynamic_allocator.c:54-75 | carving a page adds exactly its chunks to the chunks of its pool |
| DynamicAllocator.CarvedGrow | src/kernel/mm/dynamic_allocator.c:54-75 | after a page is carved every chunk of every pool page is live or in one list, once |
| DynamicAllocator.ChunksApart | src/kernel/mm/dynamic_allocator.c:33-81 | different chunks share no byte |
| DynamicAllocator.DynamicAllocator.constructor | src/kernel/mm/dynamic_allocator.c:16-21 | the pools start empty and valid over any valid page allocator |
| DynamicAllocator.DynamicAllocator.GetPoolIndex | src/kernel/mm/dynamic_allocator.c:23-31 | the smallest chunk size that holds the request, or none exactly above 2048 bytes |
| DynamicAllocator.DynamicAllocator.LiveApart | src/kernel/mm/dynamic_allocator.c:33-106 | live regions of either kind never overlap |
| DynamicAllocator.DynamicAllocator.LivePoolIndex | src/kernel/mm/dynamic_allocator.c:88-103 | the page metadata of a live address names the pool it came from, or none for a block of pages |
| DynamicAllocator.DynamicAllocator.Allocate | src/kernel/mm/dynamic_allocator.c:33-81 | fails exactly when no page run or no chunk and no page is left; else a new live region of at least the size, from the right pool |
| DynamicAllocator.DynamicAllocator.Free | src/kernel/mm/dynamic_allocator.c:83-106 | a chunk returns to the list of its pool, a block to the page allocator, and nothing else changes |
| Sv39.PteRoundTrip | src/kernel/vmm/virtual_memory.c:29-34 | an entry gives back the kernel address and the permissions it was made from, and has them at the bits where the manual does |
| Sv39.AddressIndex | src/kernel/vmm/virtual_memory.c:55-69 | the index that the walk takes from an address at a level is that of its page number |
| Sv39.SameLeaf | src/kernel/vmm/virtual_memory.c:46-72 | all pages under a leaf translate through that leaf |
| PageTree.EntryKinds | src/kernel/vmm/virtual_memory.c:36-38 | on the entries of a tree the kernel's leaf test and the manual's tests agree |
| PageTree.TranslateStep | src/kernel/vmm/virtual_memory.c:46-72 | one step of the kernel's walk is one step of the manual's translation |
| PageTree.Elsewhere | src/kernel/vmm/virtual_memory.c:46-72 | writing an entry does not change the translation of pages whose walk misses it |
| PageTree.SetLeafLookup | src/kernel/vmm/virtual_memory.c:69-71 | writing a leaf changes the translation of exactly the pages under it, in every address space |
| PageTree.GrownWellformed | src/kernel/vmm/virtual_memory.c:60-64 | a new zeroed table in the place of a zero or leaf entry keeps the tables an unshared tree |
| PageTree.GrownLookup | src/kernel/vmm/virtual_memory.c:60-64 | and unmaps exactly what the replaced entry mapped |
| PageTree.AllRemappedWrite | src/kernel/vmm/virtual_memory.c:46-72 | after a whole walk exactly the pages of the new leaf and those of a replaced larger leaf translate differently |
| PageTree.AllMappedStep | src/kernel/vmm/virtual_memory.c:74-96 | mapping one leaf more extends an exact map of a range by that leaf |
| PageTree.RootAloneLookup | src/kernel/vmm/virtual_memory_setup.c:17-53 | a lone root of gigabyte leaves translates every page by its entry |
| VirtualMemory.VpnIndex | src/kernel/vmm/virtual_memory.c:55-57 | the indices of an address are those of its 27-bit page number |
| VirtualMemory.VirtualMemory.Pagewalk | src/kernel/vmm/virtual_memory.c:46-72 | the page of the address translates to the new leaf, pages of a replaced larger leaf fault, all others translate as before; the pages taken are exactly the new tables' |
| VirtualMemory.VirtualMemory.MapPages | src/kernel/vmm/virtual_memory.c:74-96 | every page of the range translates to its physical page with the given permissions, every other as before except inside a larger leaf that the range meets |
| VirtualMemory.VirtualMemory.TraverseLeafs | src/kernel/vmm/virtual_memory.c:127-155 | terminates having visited every leaf that meets the range exactly once, in ascending order, and nothing else |
| VirtualMemory.VirtualMemory.FreeTables | src/kernel/vmm/virtual_memory.c:157-173 | clears the entries, returns exactly the pages of all tables below them, each once, and changes no other table |
| Traversal.EntryPages | src/kernel/vmm/virtual_memory.c:127-155 | the pages of an entry are a contiguous range that the next entry continues |
| Traversal.ExactConcat | src/kernel/vmm/virtual_memory.c:127-155 | exact visits of two adjacent ranges make an exact visit of both |
| Traversal.LeafVisit | src/kernel/vmm/virtual_memory.c:147-150 | one visit is exact for an entry that is a leaf and meets the range |
| Teardown.RemovedWellformed | src/kernel/vmm/virtual_memory.c:157-173 | removing a table with nothing below it keeps the rest an unshared tree |
| Teardown.BelowConcat | src/kernel/vmm/virtual_memory.c:157-173 | tables below different entries are different |
| KernelMap.Setup | src/kernel/vmm/virtual_memory_setup.c:17-53 | every page translates by the direct map in the upper half, by the identity mapping or the device in the lower; the kernel and not the user may access all of it, and execute all but the device; the offset for devices is the first gigabyte past memory |
| KernelMap.DropIdentityMapping | src/kernel/vmm/virtual_memory_setup.c:55-61 | the lower half is unmapped and the upper half translates as before |
| KernelMap.RefineMappings | src/kernel/vmm/virtual_memory_setup.c:63-103 | every offset below the size of memory translates to the same physical address as before, now in 2 MiB leaves, under which the kernel and not the user can read and write, and execute exactly in the image; nothing else is mapped; the new tables are below the kernel's root, in pages that were free |
| KernelMap.DirectMapMay | src/kernel/vmm/definitions.h:28-40 | so do the bits of the refined map say, as the manual tests them |
| KernelMap.AtSetupPage | src/kernel/vmm/virtual_memory_setup.c:29-48 | a gigabyte leaf maps each of its pages at its own offset |
| Roots.SameLookup | src/kernel/vmm/virtual_memory.c:46-72 | a translation depends on the tables of its own address space alone |
| Roots.WithRootWellformed | src/kernel/task/task.c:144-152 | a new root with an empty lower half joins the tree with no tables of its own |
| Roots.WithRootLookup | src/kernel/task/task.c:144-152 | it maps nothing in the lower half and changes no other address space |
| Roots.TablesBelow | src/kernel/task/task.c:197-198 | the entries that `task_free` clears lead to exactly the tables of the address space, and not to the kernel's |
| Roots.SharedLookup | src/kernel/task/task.c:149-151 | a root with the kernel's entries in its upper half translates each page there as the kernel's root does |
| Roots.SharedMapped | src/kernel/vmm/virtual_memory.c:46-72 | mapping user pages keeps the kernel's half of every root |
| Roots.LeftoverIff | src/kernel/task/task.c:88-95 | a new root whose lower half is left as the page held it is that of an empty address space if and only if the page held zeros there |
| Roots.LeftoverSeen | src/kernel/task/task.c:88-95 | a page whose first word is 23 lets the new program write to the first gigabyte of physical memory |
| TaskMappings.AlignedSize | src/kernel/vmm/definitions.h:45-47 | the aligned size holds the size exactly if that is at most 2^64 - 4096, and is positive exactly if the size is also positive |
| TaskMappings.AlignedSizeWraps | src/kernel/vmm/definitions.h:45-47 | a size near 2^64 aligns to 0 |
| TaskMappings.RequestedPlace | src/kernel/task/task_mapping.c:45-77 | the search from the aligned address finds the lowest whole page at or above the requested address, unless that wraps |
| TaskMappings.RequestReached | src/kernel/vmm/definitions.h:45-47 | a place is at or above the requested address exactly if that is at most 2^64 - 4096 |
| TaskMappings.RequestWraps | src/kernel/task/task_mapping.c:105-108 | a request for the last address is placed at the default one, below it |
| TaskMappings.MappingProtLeaf | src/kernel/task/task_mapping.c:35-43 | the permissions are those of a leaf exactly when some access is asked for, and writing implies reading |
| TaskMappings.InsertWellPlaced | src/kernel/task/task_mapping.c:79-94 | inserting a mapping that fits, by address, keeps the list sorted, disjoint and clear of the trampoline |
| TaskMappings.ContainsUnique | src/kernel/task/task_mapping.c:232-248 | at most one mapping of a well-placed list contains an address |
| TaskMappings.Task.GetMappingVaddr | src/kernel/task/task_mapping.c:45-77 | the lowest address at or above the request that fits below the kernel, clear of the trampoline and of every mapping; the error value exactly when none does, despite 64-bit sums |
| TaskMappings.Task.InsertMapping | src/kernel/task/task_mapping.c:79-94 | the mapping goes behind all with smaller or equal addresses and before the rest |
| TaskMappings.Task.FindMapping | src/kernel/task/task_mapping.c:232-248 | the early exit is right: none exactly when no mapping contains the address, else the one that does |
| KernelMemory.KernelMemory.AllocateChunk | src/kernel/mm/dynamic_allocator.c:33-81 | in the whole kernel state, a new chunk changes nothing but the small allocator and at most one free page |
| KernelMemory.KernelMemory.FreeUserTables | src/kernel/task/task.c:197-198 | in the whole kernel state, the tables of one address space are gone, their pages are free, and no other table changed |
| KernelMemory.KernelMemory.Traverse | src/kernel/task/task_mapping.c:220-227 | the traversal of a user address space is exact |
| Tasks.FillPage | src/kernel/task/task_mapping.c:250-268 | the bytes of the file that lie in the page, and zeros |
| Tasks.InstallPage | src/kernel/task/task_mapping.c:250-273 | the page is present with its contents and the mapping's permissions on a page that was free; every other page of every address space is as before |
| Tasks.PlaceMapping | src/kernel/task/task_mapping.c:96-129 | fails exactly for contradictory flags or when no whole page fits, and then changes nothing; else the mapping is in order at the lowest whole page at or above the request, and above the default address for no request or one that wraps |
| Tasks.AddMapping | src/kernel/task/task_mapping.c:96-137 | the same, and with MAP_POPULATE every page of the mapping is present with its contents; the list stays well placed exactly for sizes that do not wrap |
| TaskCopies.PlaceOfCopy | src/kernel/task/task_mapping.c:193-210 | the relocation branch is unreachable: each copied mapping fits at the address it has in the source |
| TaskCopies.NoneBetweenVisits | src/kernel/task/task_mapping.c:220-227 | no page between two visits is present |
| TaskCopies.CopyOnePage | src/kernel/task/task_mapping.c:173-186 | a page with the same bytes on a page that was free is present at the same place of the copy |
| TaskCopies.CopyMapping | src/kernel/task/task_mapping.c:193-228 | one mapping more has the same range, protection and backer, and exactly its present pages are copied |
| TaskCopies.CopyMappings | src/kernel/task/task_mapping.c:193-230 | the copy has the same mappings; every page present in the source is present in it with the same protection and bytes on a different page, and no other page but the trampoline |
| TaskLife.FreeMappings | src/kernel/task/task_mapping.c:275-290 | every data page and every mapping node is returned exactly once |
| TaskLife.FreeSignals | src/kernel/task/task_signal.c:70-78 | every signal node is returned exactly once, and nothing else |
| TaskLife.OnlyRestLeft | src/kernel/task/task.c:190-202 | when all that a task owns is gone, what is left is what was not the task's |
| TaskLife.FreeTask | src/kernel/task/task.c:190-202 | what is live afterwards is what was live and not the task's: data pages, tables, nodes, stack, root and structure are returned once each, the trampoline and the kernel's tables are kept, other tasks are as before |
| TaskFork.CopySignals | src/kernel/task/task_signal.c:6-20 | the copy has the same signals, in order, in new nodes |
| TaskFork.PrepareTask | src/kernel/task/task.c:133-164 | the structure, root and stack of a new task are new, the lower half of its address space is empty, and its upper half translates as the kernel's |
| TaskFork.ForkKeepsSpaces | src/kernel/task/task.c:133-188 | every address space keeps its pages and their contents and shares none with the new one |
| TaskFork.CopyTask | src/kernel/task/task.c:133-188 | the child owns a copy of the parent's address space, mappings and signals on memory that was free, and its upper half translates as the kernel's; the parent and all others are as before; all that is live and not the child's was live before |
| TaskCreation.CreateTask | src/kernel/task/task.c:44-68 | a new task owns its structure and its stack, and the rest is everything that was live before |
| TaskCreation.GivenSpace | src/kernel/task/task.c:144-152 | a new root with an empty lower half becomes the task's and leaves the rest as it was |
| Boot.SetUpMemory | src/kernel/mm/setup.c:17-102 | the regions are reserved, the allocators ready, and the kernel's root is in a reserved page |
| Boot.Boot | src/kernel/kmain.c:67-118 | from the device tree's memory and regions to the idle task: fails exactly when the frame array fits nowhere, else the direct map is refined, and scheduler and memory are in a state from which all runs of both are in order |
| TaskRuns.StillOwned | src/kernel/task/task.c:133-202 | installing pages and adding mappings keeps what a task owns in order and adds nothing to the rest |
| TaskRuns.PageFault | src/kernel/interrupts/interrupt_handler.c:169-205 | the task is killed exactly when the manual refuses the user the access under every mapping at the address, which for one made by `mmap` means that it was not asked for, and then nothing changes; else the absent page is present and serves the access, with the mapping's permissions and contents on a page that was free, and all else that the task and others own is as before |
| TaskRuns.AllowsServes | src/kernel/interrupts/interrupt_handler.c:173-191 | the permission tests of the handler are those of the manual, among the permissions of a user's page |
| TaskRuns.AskedRefused | src/kernel/task/task_mapping.c:35-43 | a fetch is refused exactly if it was not asked for, a store if no writing was, a load if neither reading nor writing was |
| TaskRuns.ServedBytes | src/kernel/task/task_mapping.c:250-273 | after a page fault the user sees the bytes of the file where the mapping has any, and zeros elsewhere |
| TaskRuns.ForkedBytes | src/kernel/task/task_mapping.c:173-230 | the child of a fork sees the same bytes at the same addresses as its parent, and nothing where that has nothing |
| TaskRuns.ForkedFault | src/kernel/task/task_mapping.c:194-205 | a page that comes after a fork is the same for parent and child at an address if and only if that is not in a file mapping, or is before the end of the file, or memory has a zero there |
| TaskRuns.PastTheFile | src/kernel/task/task_mapping.c:194-205 | the child sees the 7 behind a file of one byte, where its parent sees 0 |
| TaskRuns.Mmap | src/kernel/interrupts/syscalls.c:176-205 | fails exactly for empty or inaccessible requests, contradictory flags or when nothing fits, and then changes nothing; else the new mapping is in the list at the lowest place and populated if asked; the task owns its memory afterwards exactly if the request was refused, or does not wrap, asks for access and has its place in the lower half |
| TaskRuns.GuardTooWeak | src/kernel/interrupts/syscalls.c:182-186 | a request that passes the guard can have permissions that are no leaf |
| TaskRuns.UpperHalfPlaced | src/kernel/task/task_mapping.c:45-77 | a request for the first page above the lower half is not refused and is placed there, under the first of the kernel's root entries |
| TaskRuns.RunStaysApart | src/kernel/interrupts/interrupt_handler.c:169-205 | in every state of every run of a task it owns its memory, and the rest and all other address spaces are as at the start |
| TaskRuns.StillDisjoint | src/kernel/task/task_mapping.c:250-273 | pages that a task gains are not those of another address space |
| TaskRuns.ForkRunExit | src/kernel/task/task.c:133-202 | after a fork, any run of page faults and mappings of the child, and its end, the live pages, blocks and chunks are exactly those from before the fork, and so is every address space with its contents |
| TaskRuns.ForkAndExit | src/kernel/task/task.c:133-202 | the shortest such run, as a program: forking and freeing the child |
| TaskExec.ClearTask | src/kernel/task/task.c:80-101 | mappings, data pages, signals and tables are returned, or a kernel thread gets a root; the lower half of the address space is empty and the upper half is the kernel's, and what is not the task's is as before, other address spaces included |
| TaskExec.CreateUserMappings | src/kernel/task/task_mapping.c:139-167 | the program, the stack and the signal stack are mapped where they were asked for, the trampoline is the only page present, and the task owns what that took |
| TaskExec.ExecUser | src/kernel/task/task.c:70-131 | without the file nothing changes; else the task has exactly the mappings of the program, no signals and no user page but the trampoline, in the root that it had or in a new one, and the kernel is mapped as everywhere |
| TaskExec.RenewedApart | src/kernel/task/task.c:70-131 | it owns what it has afterwards, what was not the task's is what it was, and so is every address space that shared no data page with its old one |
| TaskExec.ProgramRights | src/kernel/task/task_mapping.c:139-159 | from 0x10000 on the user can fetch and load and not store, on the two stacks load and store and not fetch, and elsewhere nothing |
| TaskExec.ProgramBytes | src/kernel/task/task_mapping.c:250-273 | when a page of the program was faulted in, the user sees the bytes of the file at 0x10000 and on, and zeros behind them |
| Systems.PartIsOwned | src/kernel/task/task.c:190-202 | what a task owns is live, and everything else live is what is left when it ends |
| Systems.BystanderStays | src/kernel/task/task.c:44-202 | a task that a step does not concern owns the same memory afterwards |
| Systems.StepKeeps | src/kernel/task/task.c:44-202 | each of these steps keeps the tasks apart, and every task that it does not concern has the same memory afterwards |
| Systems.RunKeepsApart | src/kernel/task/task.c:44-202 | in every state of every run of creations, program starts, forks, faults, mappings and exits of any tasks in any order, from any state in order, each task owns its memory, no two share a page, block or chunk, and all that is live is some task's or the kernel's, which never changes |
| Systems.KernelInEverySpace | src/kernel/task/task.c:44-202 | in every state of every run every address space translates each page above the lower half as the kernel's own did at the start |
| Systems.AllEnded | src/kernel/task/task.c:44-202 | when no task is left, all that is live is the kernel's |
| Scheduler.InitialInv | src/kernel/task/cpu_scheduler.c:32-44 | the invariant holds after initialization |
| Scheduler.SiftElements | src/kernel/task/cpu_scheduler.c:144-171 | an event divides the waiters, each once, by whether its condition holds; what that means is `FireLeaves` |
| Scheduler.StatesAfter | src/kernel/task/cpu_scheduler.c:61-241 | for every step, exactly when a task leaves the table, is killed, waits, or is ready or running afterwards, and which event and argument it has |
| Scheduler.KillLeaves | src/kernel/task/cpu_scheduler.c:75-104 | the kill of a task wakes a waiter if and only if that waits for the end of a task with this identifier |
| Scheduler.FireLeaves | src/kernel/task/cpu_scheduler.c:144-171 | an event wakes a waiter if and only if that waits for it and is meant: all are, or the one with the identifier, or those with the argument |
| Scheduler.WaitsUntil | src/kernel/task/cpu_scheduler.c:119-136 | throughout a run a task that starts to wait goes on waiting, for that event and argument, until it is killed or roused |
| Scheduler.KillRouses | src/kernel/task/cpu_scheduler.c:79-113 | the kill of the task that it waits for makes a waiter ready, or running at once |
| Scheduler.WaitersInOrder | src/kernel/task/cpu_scheduler.c:119-171 | a new waiter is behind all others, and waiters that go on waiting keep their order |
| Scheduler.SiftInOrder | src/kernel/task/cpu_scheduler.c:144-171 | the woken tasks, and those left waiting, keep their order |
| Scheduler.StepKeeps | src/kernel/task/cpu_scheduler.c:61-241 | every step keeps the invariant: each task in the queue of its state and no other, at most the current task running, a switch pending when it is not, idle ready or running, no task back after it was reaped |
| Scheduler.RunKeeps | src/kernel/task/cpu_scheduler.c:61-241 | the invariant holds in every state of every run |
| Scheduler.BoundedWaiting | src/kernel/task/cpu_scheduler.c:186-216 | a ready task at position k that is not killed runs within k + 1 switches, whatever else happens |
| Scheduler.SwitchesRun | src/kernel/task/cpu_scheduler.c:186-216 | whenever the current task changes a switch is counted, and after each that is counted the current task runs |
| Scheduler.PendingAfter | src/kernel/task/cpu_scheduler.c:186-190 | a reschedule is pending exactly after the quantum timer or a request to switch in an interrupt, until that ends; the current task changes for no other reason |
| Scheduler.TickSwitches | src/kernel/interrupts/interrupt_handler.c:127-132 | in every run, the quantum timer, or a request to switch in an interrupt, leads to a switch to the head of the ready queue when the interrupt ends |
| Scheduler.KilledIsReaped | src/kernel/task/cpu_scheduler.c:218-241 | a killed task at position k is reaped within k + 1 turns of the idle loop |
| Scheduler.ReapKeeps | src/kernel/task/cpu_scheduler.c:218-241 | the reaped task is not the current one |
| Scheduler.CpuScheduler.constructor | src/kernel/task/cpu_scheduler.c:32-44 | starts in the initial state |
| Scheduler.CpuScheduler.AddTask | src/kernel/task/cpu_scheduler.c:61-69 | refines the step that adds a task |
| Scheduler.CpuScheduler.GetTask | src/kernel/task/task_table.c:19-38 | finds a pid exactly if its task is in the table |
| Scheduler.CpuScheduler.FireCond | src/kernel/task/cpu_scheduler.c:144-171 | refines the step about which `FireLeaves` says who is woken: they move to the tail of the ready queue, both groups in order |
| Scheduler.CpuScheduler.Next | src/kernel/task/cpu_scheduler.c:186-216 | refines the step: deferred in an interrupt, else a switch to the head of the ready queue |
| Scheduler.CpuScheduler.KillByPid | src/kernel/task/cpu_scheduler.c:79-113 | refines the step, and tells whether there was a task to kill |
| Scheduler.CpuScheduler.WaitArg | src/kernel/task/cpu_scheduler.c:124-136 | refines the step: the current task waits and another runs, or will when the interrupt ends |
| Scheduler.CpuScheduler.EnterInterrupt | src/kernel/interrupts/interrupt_handler.c:112-116 | a nested interrupt does not start handling again |
| Scheduler.CpuScheduler.LeaveInterrupt | src/kernel/interrupts/interrupt_handler.c:127-132 | refines the step: a pending reschedule happens now |
| Scheduler.CpuScheduler.Reap | src/kernel/task/cpu_scheduler.c:218-241 | the oldest killed task leaves queue and table and is never the current one |
| RunningSystems.MoveKeeps | src/kernel/task/cpu_scheduler.c:32-241 | a change of a task's memory, a step of the scheduler and a turn of the idle loop keep scheduler and memory in order, and every scheduled task in possession of its memory |
| RunningSystems.RunJoined | src/kernel/task/cpu_scheduler.c:32-241 | so does every run of them |
| RunningSystems.ScheduledLive | src/kernel/task/cpu_scheduler.c:186-241 | the memory of the current task, and of every task in a queue, is live and its own |
| RunningSystems.KernelInEveryTask | src/kernel/task/cpu_scheduler.c:186-241 | the same in every run of scheduler and memory together |
| RunningSystems.KilledUntouched | src/kernel/task/cpu_scheduler.c:79-113 | nothing but its reaping changes the memory of a killed task |
| RunningSystems.ReapingReturns | src/kernel/task/cpu_scheduler.c:218-241 | a turn of the idle loop returns exactly the memory of the task that it reaps |
| RunningSystems.KilledReturned | src/kernel/task/cpu_scheduler.c:79-241 | a killed task at position k has its memory returned within k + 1 turns, once in the whole run, and it is the memory that it had when it was killed |
| Commands.SchedulerInit | src/kernel/task/cpu_scheduler.c:32-44 | the idle task is created and scheduled, all else that is live is the kernel's, and runs can start |
| Commands.IdleTurn | src/kernel/task/cpu_scheduler.c:218-241 | a turn of the loop is one move of scheduler and memory: what leaves the killed queue is freed |
| Commands.SyscallFork | src/kernel/interrupts/syscalls.c:77-88 | the copy of the running task is made and scheduled, as a run of two moves |
| Commands.StartProgram | src/kernel/kmain.c:266-273 | a new task starts the program, or is freed again without its file and all that is live is as before |
| Commands.CommandExec | src/kernel/kmain.c:266-280 | a new task is created, started and scheduled and the current one waits for its end, as a run of four moves; without the file it is a creation and an end |
| SortedQueues.StableInsert | src/kernel/interrupts/timeouts.c:111-124 | insertion before the first greater key keeps a queue sorted with ties in the order of insertion |
| SortedQueues.FirstAboveSplits | src/kernel/interrupts/timeouts.c:96-99 | the entries up to a key are exactly a prefix of a sorted queue |
| SortedQueues.InsertedElements | src/kernel/interrupts/timeouts.c:111-124 | insertion adds the new entry and loses none |
| Timeouts.Timeouts.SetNextTimeout | src/kernel/interrupts/timeouts.c:31-38 | the timer is programmed for the head, or postponed when the queue is empty |
| Timeouts.Timeouts.SetTimeout | src/kernel/interrupts/timeouts.c:56-71 | the identifier is the lower 32 bits of the number of timeouts so far, the queue has one entry more, whose target is the time read plus the delay in ticks but for multiples of 2^64, at its place, and the timer is at the head's target |
| Timeouts.TimerEarliest | src/kernel/interrupts/timeouts.c:31-38 | the timer is at the earliest of all targets |
| Timeouts.Timeouts.ClearTimeout | src/kernel/interrupts/timeouts.c:73-91 | refines `Cleared`, about which `ClearedWanted` says what it takes away; the timer is at the head's target |
| TimeoutQueues.ClearedWanted | src/kernel/interrupts/timeouts.c:73-91 | clearing by the identifier of a queued timeout takes away it and nothing else if and only if no timeout with this identifier is before it |
| TimeoutQueues.RecentIds | src/kernel/interrupts/timeouts.c:56-71 | identifiers differ as long as all queued timeouts are among the last 2^32 |
| TimeoutQueues.IdReused | src/kernel/interrupts/timeouts.c:56-91 | of two queued timeouts 2^32 creations apart, the first with their identifier goes when the later one is to be cleared |
| TimeoutQueues.WrongOneCleared | src/kernel/interrupts/timeouts.c:56-91 | after one timeout was set, and 2^32 - 1 others were set and cleared, the next one gets its identifier, and clearing that takes away the first and leaves the new one queued |
| Timeouts.Timeouts.InterruptHandler | src/kernel/interrupts/timeouts.c:93-109 | whenever the handler ends, after any number of turns, it has called the heads that were due, in order, their requests are queued, no head is due, and the timer is at the head's target |
| HandlerTurns.RequestedBehind | src/kernel/interrupts/timeouts.c:96-107 | later timeouts go behind all expired ones |
| HandlerTurns.LaterHandled | src/kernel/interrupts/timeouts.c:93-109 | when callbacks ask for later times, the handler ends and has called exactly the expired timeouts, once and in order, and the rest and the requests are queued in order |
| HandlerTurns.CalledWhenDue | src/kernel/interrupts/timeouts.c:56-109 | on a clock of any frequency, as long as the sum fits, a run of the handler calls a new timeout if and only if its delay has gone by |
| HandlerTurns.PassedIff | src/kernel/interrupts/timeouts.c:60 | on a clock at or after the time read, a request is for a passed time exactly if no time has gone by and none is asked for, or the 64-bit sum wraps to at most that time |
| HandlerEnds.BoundedEnds | src/kernel/interrupts/timeouts.c:96-107 | without one, the handler ends after exactly as many turns as calls are necessary |
| HandlerEnds.CycleGoesOn | src/kernel/interrupts/timeouts.c:96-107 | while a call that reaches a cycle has expired, no number of turns is enough |
| HandlerEnds.EndsIff | src/kernel/interrupts/timeouts.c:93-109 | for any finite set of callbacks and any queue, some number of turns leaves no head due if and only if no expired timeout's call reaches a cycle of requests for passed times |
| HandlerEnds.RearmedForever | src/kernel/interrupts/timeouts.c:56-107 | a callback that sets itself again for a deadline that has passed, at ever later times, keeps the handler going for ever |
| InterruptTasks.NextSlotQueued | src/kernel/interrupts/interrupt_tasks.c:31-37 | the next slot is still queued exactly when it holds an addition a multiple of 128 additions old |
| InterruptTasks.AdditionKeepsQueued | src/kernel/interrupts/interrupt_tasks.c:31-52 | an addition keeps what is queued if and only if the next slot is not queued or is written with what it holds, and keeps the queue free of repetitions if and only if the slot is not queued |
| InterruptTasks.SlotOverrun | src/kernel/interrupts/interrupt_tasks.c:24-53 | after 128 additions and 127 executions, the next addition overwrites the one task that is still queued and queues its slot a second time |
| InterruptTasks.InterruptTasks.Add | src/kernel/interrupts/interrupt_tasks.c:24-53 | the next slot is written, queued or not; if it was not queued, the entry takes its place by priority behind its equals and no queued slot changes |
| InterruptTasks.InterruptTasks.Execute | src/kernel/interrupts/interrupt_tasks.c:55-71 | the head of the queue is taken with its own handler and argument, or there is none |
| Strings.Streqln | src/string.c:13-21 | true exactly when the strings agree as far as the length, a NUL ending a string |
| Strings.Streql | src/string.c:23-25 | true exactly when the whole strings agree |
| Strings.SameString | src/string.c:13-21 | comparing with the NUL included tells a string from its prefixes and extensions |
| Strings.Kstrlen | src/string.c:3-11 | the number of bytes before the first NUL |
| Strings.Strtoken | src/string.c:27-38 | the first place at or after the offset where the token is or the string ends |
| Converters.HexRoundTrip | src/converters.c:42-65 | printed digits of either case are read back as the number |
| Converters.DigitsInOrder | src/converters.c:21-40 | the digits are 0 to 9 and the six letters of either case, in that order |
| Converters.Int32RoundTrip | src/converters.c:21-65 | a printed 32-bit integer is read back as the unsigned number with the same bits |
| Converters.Itox | src/converters.c:21-30 | writes the low digits of the number, also of a negative one, and a NUL, and nothing past it |
| Converters.Xtoi32 | src/converters.c:42-65 | the number whose digits are the leading digits of at most eight bytes |
| Initrd.CheckMagic | src/kernel/initrd/initrd_parser.c:24-26 | true exactly when the six bytes of the magic are there |
| Initrd.GetFilepath | src/kernel/initrd/initrd_parser.c:28-37 | where the name of the file is and its announced size, or 0 without the magic |
| Initrd.GetFiledata | src/kernel/initrd/initrd_parser.c:39-56 | where the data is and its announced size, or zeros without the magic |
| Initrd.GetNextFileAddr | src/kernel/initrd/initrd_parser.c:58-81 | computes `Next`, about which `WalkStep` says what it means |
| Initrd.ArchiveEntry | src/kernel/initrd/initrd_parser.c:7-22 | in a printed archive every file, and the trailer, has its header, name and data at its address |
| Initrd.WalkStep | src/kernel/initrd/initrd_parser.c:28-81 | at file k the parser finds exactly its name and data and steps to file k + 1, or stops after the last |
| Initrd.SeenStep | src/kernel/initrd/initrd_parser.c:28-81 | the same for what the parser sees: the files, or the trailer if there are none |
| Initrd.GetFileAddr | src/kernel/initrd/initrd_parser.c:83-102 | the address of the first file that the parser sees whose whole name is the path, or 0 exactly when there is none |
| Initrd.List | src/kernel/kmain.c:206-230 | the walk yields every file of the archive in order with its exact path and data, and no other; for an archive of no files it yields the trailer |
| Initrd.EmptyArchive | src/kernel/initrd/initrd_parser.c:58-97 | in an archive of no files the parser finds the trailer as a file, and nothing after it |
| Initrd.EmptyLookup | src/kernel/initrd/initrd_parser.c:83-102 | there a lookup gives the start of the archive exactly for the name of the trailer |
| DeviceTree.NodeWithin | src/fdt/fdt_parser.c:87-170 | the tokens of every node are a contiguous part of those of the tree, at the index of its path |
| DeviceTree.AfterNode | src/fdt/fdt_parser.c:87-116 | right after a node come its next sibling or the end of its parent |
| DeviceTree.OpenInside | src/fdt/fdt_parser.c:92-116 | inside a node the depth is positive and at most its height above, and after it as before |
| DeviceTree.OpenAt | src/fdt/fdt_parser.c:147-169 | when a node begins, exactly the nodes on the way to it are open |
| DeviceTree.BeginIsNode | src/fdt/fdt_parser.c:155-162 | every beginning among the tokens is that of a node |
| DeviceTree.FindExact | src/fdt/fdt_parser.c:185-224 | the lookup finds a node if and only if the names on the way match the path and each is the first of its siblings to do so |
| DeviceTree.FirstMatchOnly | src/fdt/fdt_parser.c:198-222 | a node that matches is missed when an earlier sibling of one above it matches too |
| FlatTree.BigEndianRoundTrip | src/converters.c:3-8 | a number printed big-endian is what a load and `be32_to_cpu` give |
| FlatTree.SlotWithin | src/fdt/fdt_parser.c:18-51 | each token, with the NOPs after it, is at its address |
| FdtParser.NextTokenAddr | src/fdt/fdt_parser.c:18-51 | from any token to the next one that is no NOP, over names, values, padding and NOPs |
| FdtParser.RootNode | src/fdt/fdt_parser.c:64-85 | the first token of the tree, behind any NOPs; 0 without a devicetree |
| FdtParser.HeaderHolds | src/fdt/fdt_parser.c:57-74 | the offsets are those at the third and fourth word of a header |
| FdtParser.SiblingNode | src/fdt/fdt_parser.c:87-116 | the address of the next sibling in the tree, or 0 |
| FdtParser.ChildNode | src/fdt/fdt_parser.c:118-138 | the address of the first child in the tree, or 0 |
| FdtParser.ParentNode | src/fdt/fdt_parser.c:140-170 | the address of the true parent; 0 for the root and for every address that is no node's |
| FdtParser.NextPropertyAddr | src/fdt/fdt_parser.c:175-183 | the next property of the node, or 0 after the last |
| FdtParser.NameOfProperty | src/fdt/fdt_parser.c:57-62 | the string that the property names |
| FdtParser.PropertyByName | src/fdt/fdt_parser.c:269-290 | the first property of the node with exactly this name, or 0 |
| FdtParser.NodeAddrByPath | src/fdt/fdt_parser.c:185-224 | the address of the node that the first-match lookup on the tree finds, or 0 |

## Left out

- Registers and devices: `satp`, `sfence.vma`, CSRs, SBI calls, PLIC, UART, video, trap frames and the context switch. Disabled interrupts are atomicity; so the return from `_syscall_mmap` without restoring them is not visible.
- What kernel threads do; `task_copy` of a task without an address space: `CopyTask` is for user tasks.
- TaskExec.ExecUser: the file is given by the place and the size of its data; that the lookup finds it is `Initrd.GetFileAddr`. An empty file is excluded: its mapping is empty, and the searches of a list with an empty mapping are not modelled. The page of a new root must hold zeros in its lower half, see above.
- Signal delivery and registration; `TaskFork.CopySignals` and `TaskLife.FreeSignals` cover the nodes.
- `virtual_memory_map_mmio`, `cpu_scheduler_sleep`, `fdt_node_is_compatible`, `fdt_node_addr_by_compatible`, `fdt_get_node_cells`, `fdt_reg_property`, decimal conversions, string slices, the command line.
- An interrupt between `interrupts_restore` and `switch_to_kernel`, and tasks added between the last look at the interrupt queue and `interrupts_disable`: steps are atomic, and no claim is made that every added task runs before the handler returns.
- VirtualMemory.VirtualMemory.TraverseLeafs: returns the visits, which the callers then process in order; the source calls the visitor during the traversal. The visitors change no table of the traversed address space.
- VirtualMemory.VirtualMemory.MapPages: the number of free pages it asks for is an upper bound of the tables that a range can need.
- KernelMap.RefineMappings: the flush of the translation cache is left out.
- PageAllocator.PageAllocator.AllocatePages: the queues of free blocks are sequences of page numbers; that the intrusive list behaves like a sequence is proved once, in `LinkedList`. The same holds for every other queue, and flags are an enumeration.
- TaskCopies.CopyMappings: equality is claimed for ranges, protections, backers, places of files and present pages; not for the sizes of files, see `ForkedFault` above.
- TaskLife.FreeTask: another task survives if its data pages are disjoint from those of the freed one, which `CopyTask` establishes for the child and everyone else.
- TaskRuns.PageFault: a fault on a page that is present although its mapping allows the access is not modelled.
- Timeouts.Timeouts.SetTimeout: the entry's own allocation is left out.
- Timeouts.Timeouts.InterruptHandler: a callback is given by the requests that it makes; one that clears timeouts is not modelled.
- InterruptTasks.InterruptTasks.Add: for a next slot that is still queued it promises the write of the slot and the new head; the broken links that follow are the subject of `LinkedList.Insert` and `LinkedList.InsertBefore`.
- Tasks.AddMapping: with MAP_POPULATE it asks for a place below 2^38, a size that does not wrap, and permissions of a leaf; page tables written otherwise are not modelled.
- TaskRuns.Mmap: the same with MAP_POPULATE. Without, all requests are covered.
- PageAllocator.AllocateFrameArray: reserved regions that end at or past 2^64 are excluded; so they are for `MemoryInit`, as is a size of memory that is no multiple of the page size, whose last part has no metadata.
- Initrd.GetFileAddr: an archive of no files with a further header behind it is excluded; so it is for `List`.
- Boot.Boot: the boot image's location is given; devices, interrupts and the device tree's own parsing are not part of it.
- RunningSystems.RunJoined: a creation, a copy, the start of a program, a mapping and the end of a task are one step each; interrupts within one are not modelled.
- Commands.CommandExec: the current task is any that runs but the idle one; the output to the UART is left out.
- TaskRuns.RunStaysApart: the runs are of requests that leave the task's memory in order, as `Mmap` describes them.
- Scheduler.BoundedWaiting: counts switches, the completed calls of `cpu_scheduler_next`; the quantum timer is a step that asks for a reschedule.
- FdtParser.NodeAddrByPath: the indices into the path are unbounded, where the source counts in 32 bits.
