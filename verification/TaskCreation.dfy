/** The creation of a task, and the address space that makes it a user task: how the first task comes to own what it
    owns. */
module TaskCreation {
  import opened FreeBlocks
  import opened Roots
  import opened TaskMappings
  import opened AddressSpaces
  import opened Ownership
  import opened KernelMemory
  import opened Tasks
  import opened TaskCopies
  import opened TaskLife
  import opened TaskFork

  /** A structure and a kernel stack, both new, are all that a task without an address space owns. */
  lemma CreatedOwns(k0: Snapshot, k1: Snapshot, k2: Snapshot, t: TaskView)
    requires Consistent(k0) && Consistent(k1) && Consistent(k2)
    requires NewChunk(k0, k1, t.addr) && NewBlock(k1, k2, t.stack, KERNEL_STACK_ORDER)
    requires t == TaskView(t.addr, 0, t.stack, [], [])
    ensures Owned(k2, t) && RestOf(k2, t) == Everything(k0)
  {
    hide Consistent, NewChunk, NewBlock, OutsidePages, Everything, SpaceKept, DataPage;
    ChunkKeeps(k0, k1, t.addr, 0);
    ChunkEverything(k0, k1, t.addr);
    BlockKeeps(k1, k2, t.stack, KERNEL_STACK_ORDER);
    EverythingOutside(k2);
    InEverything(k0);
    AboveZero(k2);
    TablesKeptByBlock(k1, k2, t.stack);
    var p := PageAt(k1, t.stack);
    assert NodesOf(t.mappings) == {} && SignalNodes(t.signals) == {};
    assert PageAt(k2, 0) < 0;
    assert RestOf(k2, t).pages == Everything(k0).pages;
    assert RestOf(k2, t).large == Everything(k0).large by { LargeOf(k0); }
    assert RestOf(k2, t).chunks == Everything(k0).chunks by { LargeOf(k0); }
  }

  lemma CreatedKeeps(k0: Snapshot, k1: Snapshot, k2: Snapshot, addr: nat, stack: nat)
    requires Consistent(k0) && Consistent(k1) && NewChunk(k0, k1, addr) && NewBlock(k1, k2, stack, KERNEL_STACK_ORDER)
    ensures OthersKept(k0, k2, 0) && BlocksStay(k0, k2, 0)
  {
    hide Consistent, NewChunk, NewBlock, OutsidePages, Everything, SpaceKept, Grows, OthersKept, BlocksStay, LiveBlock;
    ChunkKeeps(k0, k1, addr, 0);
    BlockKeeps(k1, k2, stack, KERNEL_STACK_ORDER);
    KeptOthers(k0, k1, 0);
    KeptOthers(k1, k2, 0);
    OthersKeptTwice(k0, k1, k2, 0);
    GrowsTwice(k0, k1, k2);
    GrowsBlocks(k0, k2, 0);
  }

  lemma TablesKeptByBlock(k: Snapshot, k': Snapshot, addr: nat)
    requires SpaceKept(k, k') && addr !in k.space.tables
    ensures addr !in k'.space.tables
  {
  }

  lemma LargeOf(k: Snapshot)
    ensures Everything(k).large == k.heap.large && Everything(k).chunks == k.heap.chunks.Keys
  {
  }

  /** An empty address space on a new root adds to what the task owns, and nothing to the rest. */
  lemma GivenSpace(k: Snapshot, k1: Snapshot, k2: Snapshot, t: TaskView, pgd: nat)
    requires Consistent(k) && Consistent(k1) && Consistent(k2) && Owned(k, t) && t.pgd == 0
    requires NewBlock(k, k1, pgd, 0) && NewRoot(k1, k2, pgd)
    ensures var t' := TaskView(t.addr, pgd, t.stack, t.mappings, t.signals);
      Owned(k2, t') && RestOf(k2, t') == RestOf(k, t)
  {
    hide Consistent, NewBlock, OutsidePages, Everything, SpaceKept, DataPage, OwnsChunks, WellPlaced, Low, UserRoot;
    hide LeafOf, WithRoot, RootEntries;
    var t' := TaskView(t.addr, pgd, t.stack, t.mappings, t.signals);
    BlockKeeps(k, k1, pgd, 0);
    SameTablesSet(k, k1);
    RootKeeps(k1, k2, pgd);
    RootEverything(k1, k2, pgd);
    NothingInside(k2, pgd);
    EverythingOutside(k);
    InEverything(k);
    AboveZero(k);
    assert t.mappings == [];
    assert OwnsChunks(k2, t') by { SameChunks(k, k2, t, t'); }
    assert ChunksOf(t') == ChunksOf(t);
    assert AddressSpace(k2, pgd, []);
    assert PageAt(k, 0) < 0 && PageAt(k2, pgd) == PageAt(k, pgd) && PageAt(k2, t.stack) == PageAt(k, t.stack);
    assert RestOf(k2, t').pages == RestOf(k, t).pages;
    assert RestOf(k2, t').large == RestOf(k, t).large;
    assert RestOf(k2, t').chunks == RestOf(k, t).chunks;
  }

  lemma SameTablesSet(k: Snapshot, k': Snapshot)
    requires SpaceKept(k, k')
    ensures k'.space == k.space && k'.base == k.base && k'.kernelPgd == k.kernelPgd && k'.offset == k.offset
  {
  }

  lemma SameChunks(k: Snapshot, k': Snapshot, t: TaskView, t': TaskView)
    requires OwnsChunks(k, t) && k'.heap.chunks == k.heap.chunks
    requires t'.addr == t.addr && t'.mappings == t.mappings && t'.signals == t.signals
    ensures OwnsChunks(k', t')
  {
  }

  /** `task_create`: a kernel thread, with its structure and its stack. */
  method CreateTask(kernel: KernelMemory, pid: nat) returns (task: Task)
    requires kernel.Valid() && Plenty(kernel.vm.pages.free, 1)
    modifies kernel.heap, kernel.vm.pages`free, kernel.vm.pages`live, kernel.vm.pages.frameArray,
        kernel.vm.pages.ordersLists, kernel.heap.pools
    ensures fresh(task) && task.pid == pid && !task.isUser && task.pgd == 0 && task.mappings == [] && task.signals == []
    ensures kernel.Valid() && Owned(kernel.Now(), View(task))
    ensures RestOf(kernel.Now(), View(task)) == Everything(old(kernel.Now()))
    ensures OthersKept(old(kernel.Now()), kernel.Now(), 0) && BlocksStay(old(kernel.Now()), kernel.Now(), 0)
    ensures |kernel.vm.pages.free| >= |old(kernel.vm.pages.free)| - 5
  {
    hide kernel.Valid, Consistent, NewChunk, NewBlock, Plenty, LiveBlock, SpaceKept, Grows, OutsidePages, Everything;
    hide Range, RunExists, PageAt, Owned, RestOf, OthersKept, BlocksStay;
    ghost var k0 := kernel.Now();
    kernel.ValidConsistent();
    PlentyPages(k0.pages.free, 1);
    var addr := kernel.AllocateChunk(TASK_SIZE);
    task := new Task(addr, pid);
    ghost var k1 := kernel.Now();
    kernel.ValidConsistent();
    ChunkLeaves(k0, k1, addr, 1);
    Orders();
    PlentyPages(k1.pages.free, 0);
    var stack := kernel.AllocateBlock(KERNEL_STACK_SIZE);
    kernel.ValidConsistent();
    task.kernelStackAddr := stack;
    CreatedOwns(k0, k1, kernel.Now(), View(task));
    CreatedKeeps(k0, k1, kernel.Now(), addr, stack);
    CreatedTook(k0, k1, kernel.Now(), addr, stack);
  }

  lemma CreatedTook(k0: Snapshot, k1: Snapshot, k2: Snapshot, addr: nat, stack: nat)
    requires Consistent(k0) && Consistent(k1) && NewChunk(k0, k1, addr) && NewBlock(k1, k2, stack, KERNEL_STACK_ORDER)
    ensures |k2.pages.free| >= |k0.pages.free| - 5
  {
    hide Consistent, NewChunk, NewBlock, OutsidePages, Everything, SpaceKept, Grows, LiveBlock, Range;
    ChunkKeeps(k0, k1, addr, 0);
    BlockKeeps(k1, k2, stack, KERNEL_STACK_ORDER);
    StackPages(PageAt(k1, stack));
  }
}
