/** `task_copy`: a task with a copy of the address space, the mappings and the signals of another. */
module TaskFork {
  import opened Bits
  import opened FreeBlocks
  import PA = PageAllocator
  import opened Sv39
  import opened PageTree
  import opened Roots
  import opened TaskMappings
  import opened AddressSpaces
  import opened Ownership
  import opened KernelMemory
  import opened Tasks
  import opened TaskCopies
  import opened TaskLife

  /** The live pages that are not the small allocator's are those outside an address space that does not exist. */
  lemma EverythingOutside(k: Snapshot)
    requires Consistent(k)
    ensures Everything(k).pages == OutsidePages(k, 0)
  {
    NoTablesYet(k.space.tree, k.space.tables, k.offset, 0);
    NoPlaces(k, 0);
    assert DataPages(k, 0) == {};
    hide Consistent, DataPages, TablesOf;
  }

  lemma ChunkEverything(k: Snapshot, k': Snapshot, addr: nat)
    requires NewChunk(k, k', addr) && Consistent(k) && Consistent(k')
    ensures Everything(k').pages == Everything(k).pages
  {
    hide NewChunk, Consistent, OutsidePages, Everything;
    ChunkKeeps(k, k', addr, 0);
    EverythingOutside(k);
    EverythingOutside(k');
  }

  /** A new large block is a page that was free; nothing else changed. */
  lemma BlockKeeps(k: Snapshot, k': Snapshot, addr: nat, order: nat)
    requires NewBlock(k, k', addr, order) && Consistent(k)
    ensures SpaceKept(k, k') && Grows(k, k') && Everything(k').pages == Everything(k).pages + {PageAt(k, addr)}
    ensures PageAt(k, addr) >= 0 && PageAt(k, addr) !in k.pages.live && PageAt(k, addr) !in k.heap.large
    ensures addr !in k.space.tables
    ensures LiveBlock(k', addr, order) && PageAt(k', addr) == PageAt(k, addr)
    ensures k'.heap.large == k.heap.large + {PageAt(k, addr)} && k'.heap.chunks == k.heap.chunks
    ensures k'.pages.free <= k.pages.free && |k'.pages.free| >= |k.pages.free| - |Range(PageAt(k, addr), order)|
  {
    hide Consistent;
    var p := PageAt(k, addr);
    StartInRange(p, order);
    FreeUnused(k, p);
    PoolsLive(k);
    forall q | DataPage(k, q) ensures DataPage(k', q) {
    }
  }

  lemma StackPages(s: nat)
    ensures |Range(s, 0)| == 1 && |Range(s, KERNEL_STACK_ORDER)| == 4
  {
    assert Pow2(2) == 4;
    assert Range(s, 0) == {s};
    assert Range(s, 2) == {s, s + 1, s + 2, s + 3};
  }

  lemma Orders()
    ensures PA.RequiredOrder(ROOT_SIZE) == 0 && PA.RequiredOrder(KERNEL_STACK_SIZE) == KERNEL_STACK_ORDER
  {
    assert Pow2(0) == 1 && Pow2(1) == 2 && Pow2(2) == 4;
    assert PA.OrderFrom(KERNEL_STACK_SIZE, 2) == 2;
    assert PA.OrderFrom(KERNEL_STACK_SIZE, 1) == 2;
  }

  /** A new root has nothing below it and leaves the other address spaces alone. */
  lemma RootKeeps(k: Snapshot, k': Snapshot, pgd: nat)
    requires NewRoot(k, k', pgd) && Consistent(k) && PageAt(k, pgd) in k.heap.large
    ensures UserRoot(k'.space.tree, pgd) && forall n: nat :: n < USER_PAGES ==> LeafOf(k', pgd, n) == None
    ensures DataPages(k', pgd) == {} && TablePages(k', pgd) == {}
    ensures OthersKept(k, k', pgd)
  {
    hide Consistent, UserRoot, Wellformed, Lookup;
    RootTables(k, k', pgd);
    forall n: nat | n < USER_PAGES ensures LeafOf(k', pgd, n) == None {
      RootLookups(k, k', pgd, pgd, n);
    }
    hide LeafOf;
    forall r, ms | r != pgd && AddressSpace(k, r, ms) ensures AddressSpace(k', r, ms) && SameSpace(k, k', r) {
      RootOther(k, k', pgd, r, ms);
    }
  }

  lemma RootTables(k: Snapshot, k': Snapshot, pgd: nat)
    requires NewRoot(k, k', pgd) && Consistent(k)
    ensures UserRoot(k'.space.tree, pgd) && TablesOf(k'.space.tree, pgd) == {}
    ensures TablePages(k', pgd) == {}
  {
    NoTablesYet(k.space.tree, k.space.tables, k.offset, pgd);
    NoPlaces(k, pgd);
    hide Consistent;
  }

  lemma RootLookups(k: Snapshot, k': Snapshot, pgd: nat, r: nat, n: nat)
    requires NewRoot(k, k', pgd) && Consistent(k) && n < USER_PAGES && (r == pgd || UserRoot(k.space.tree, r))
    ensures LeafOf(k', r, n) == if r == pgd then None else LeafOf(k, r, n)
  {
    hide Wellformed, TablesBacked, HeapBacked, Lookup, InWindow;
    if r != pgd { UserWindow(k.space.tree, r, n); }
    var entries := RootEntries(k.space.tables[k.kernelPgd]);
    assert forall i :: 0 <= i < USER_ENTRIES ==> entries[i] == 0;
    WithRootLookup(k.space.tree, k.space.tables, k.offset, pgd, entries, r, n);
  }

  lemma RootOther(k: Snapshot, k': Snapshot, pgd: nat, r: nat, ms: seq<Mapping>)
    requires NewRoot(k, k', pgd) && Consistent(k) && PageAt(k, pgd) in k.heap.large && r != pgd
    requires AddressSpace(k, r, ms)
    ensures AddressSpace(k', r, ms) && SameSpace(k, k', r)
  {
    hide Consistent, LeafOf, InMapping, PpnOf;
    forall q | DataPage(k, q) ensures DataPage(k', q) {
    }
    hide DataPage;
    SmallLeaves(k, r, ms);
    SamePpn(k, k');
    assert UserRoot(k'.space.tree, r);
    TableKeys(k);
    RootOtherTables(k, k', pgd, r);
    forall m: nat | m < USER_PAGES
      ensures PageFine(k', r, ms, m) && LeafOf(k', r, m) == LeafOf(k, r, m)
      ensures HasData(k', r, m) == HasData(k, r, m) && DataAt(k', r, m) == DataAt(k, r, m)
    {
      assert PageFine(k, r, ms, m);
      RootLookups(k, k', pgd, r, m);
      SameData(k, k', r, m);
    }
    hide DataAt, PageFine, UserRoot, NewRoot;
  }

  lemma RootOtherTables(k: Snapshot, k': Snapshot, pgd: nat, r: nat)
    requires NewRoot(k, k', pgd) && pgd !in k.space.tree.place
    ensures TablesOf(k'.space.tree, r) == TablesOf(k.space.tree, r)
  {
  }

  /** The copies of the first signals. */
  ghost predicate SignalCopies(ss: seq<Signal>, cs: seq<Signal>) {
    |cs| <= |ss| && forall i :: 0 <= i < |cs| ==>
      cs[i].signum == ss[i].signum && cs[i].handler == ss[i].handler && cs[i].isPending == ss[i].isPending
  }

  /** New signals took chunks, and no page but for pools. */
  ghost predicate SignalBalance(k0: Snapshot, k: Snapshot, root: nat, cs: seq<Signal>) {
    && DistinctSignals(cs) && SignalNodes(cs) !! k0.heap.chunks.Keys
    && k.heap.chunks.Keys == k0.heap.chunks.Keys + SignalNodes(cs)
    && k.heap.large == k0.heap.large && SpaceKept(k0, k) && Grows(k0, k)
    && OutsidePages(k, root) == OutsidePages(k0, root)
  }

  lemma SignalBalanceStep(k0: Snapshot, k: Snapshot, k': Snapshot, root: nat, cs: seq<Signal>, c: Signal)
    requires SignalBalance(k0, k, root, cs) && NewChunk(k, k', c.node) && Consistent(k)
    ensures SignalBalance(k0, k', root, cs + [c])
    ensures k'.pages.free <= k.pages.free && |k'.pages.free| >= |k.pages.free| - 1
  {
    hide OutsidePages, NewChunk, Consistent, DataPage;
    ChunkKeeps(k, k', c.node, root);
    GrowsTwice(k0, k, k');
    assert SignalNodes(cs + [c]) == SignalNodes(cs) + {c.node};
  }

  lemma SignalBalanceStart(k: Snapshot, root: nat)
    ensures SignalBalance(k, k, root, [])
  {
    hide OutsidePages, DataPage;
    assert SignalNodes([]) == {};
  }

  /** `task_copy_signals`. */
  method CopySignals(kernel: KernelMemory, dest: Task, source: Task)
    requires kernel.Valid() && dest != source && dest.signals == [] && |kernel.vm.pages.free| >= |source.signals|
    modifies dest`signals, dest`signalSp, kernel.heap, kernel.vm.pages`free, kernel.vm.pages`live,
        kernel.vm.pages.frameArray, kernel.vm.pages.ordersLists, kernel.heap.pools
    ensures kernel.Valid() && |dest.signals| == |source.signals| && SignalCopies(source.signals, dest.signals)
    ensures dest.signalSp == source.signalSp
    ensures SignalBalance(old(kernel.Now()), kernel.Now(), dest.pgd, dest.signals)
  {
    hide kernel.Valid, SignalBalance, NewChunk, Consistent;
    ghost var k0, ss := kernel.Now(), source.signals;
    SignalBalanceStart(k0, dest.pgd);
    while |dest.signals| < |source.signals|
      invariant |dest.signals| <= |source.signals| && source.signals == ss && SignalCopies(ss, dest.signals)
      invariant kernel.Valid() && SignalBalance(k0, kernel.Now(), dest.pgd, dest.signals)
      invariant |kernel.vm.pages.free| >= |ss| - |dest.signals|
      decreases |source.signals| - |dest.signals|
    {
      ghost var k, cs := kernel.Now(), dest.signals;
      kernel.ValidConsistent();
      var signal := source.signals[|dest.signals|];
      var node := kernel.AllocateChunk(SIGNAL_SIZE);
      var signalCopy := Signal(node, signal.signum, signal.handler, signal.isPending);
      dest.signals := dest.signals + [signalCopy];
      SignalBalanceStep(k0, k, kernel.Now(), dest.pgd, cs, signalCopy);
    }
    dest.signalSp := source.signalSp;
  }

  /** Enough memory for a copy of the task, in whatever order it is taken. */
  ghost predicate EnoughFor(k: Snapshot, t: TaskView) {
    Plenty(k.pages.free, 8 + CopyCost(k, t.pgd, t.mappings, 0) + |t.signals|)
  }

  /** The empty task before its mappings are copied: structure, root and kernel stack. */
  ghost predicate Prepared(k0: Snapshot, k: Snapshot, t: TaskView, source: nat) {
    && OthersKept(k0, k, t.pgd)
    && UserRoot(k.space.tree, t.pgd) && (forall n: nat :: n < USER_PAGES ==> LeafOf(k, t.pgd, n) == None)
    && OutsidePages(k, t.pgd) == Everything(k0).pages + {PageAt(k, t.pgd), PageAt(k, t.stack)}
    && t.addr !in k0.heap.chunks && k.heap.chunks.Keys == k0.heap.chunks.Keys + {t.addr}
    && k.heap.large == k0.heap.large + {PageAt(k, t.pgd), PageAt(k, t.stack)}
    && PageAt(k, t.pgd) !in k0.heap.large && PageAt(k, t.stack) !in k0.heap.large
    && PageAt(k, t.pgd) !in Everything(k0).pages && PageAt(k, t.stack) !in Everything(k0).pages
    && LiveBlock(k, t.pgd, 0) && LiveBlock(k, t.stack, KERNEL_STACK_ORDER) && t.stack !in k.space.tables
    && t.stack != t.pgd
    && k.space.tables.Keys == k0.space.tables.Keys + {t.pgd} && t.pgd !in k0.space.tables && t.pgd != 0
    && t.pgd != source
    && k.trampoline == k0.trampoline && k.base == k0.base && k.offset == k0.offset && KernelKept(k0, k)
    && (forall p :: p in k0.pages.live ==> p in k.pages.live && k.pages.live[p] == k0.pages.live[p])
  }

  lemma PreparedBy(k0: Snapshot, k1: Snapshot, k2: Snapshot, k3: Snapshot, k4: Snapshot, t: TaskView, src: nat,
      ms: seq<Mapping>)
    requires Consistent(k0) && Consistent(k1) && Consistent(k2) && Consistent(k3) && AddressSpace(k0, src, ms)
    requires NewChunk(k0, k1, t.addr) && NewBlock(k1, k2, t.pgd, 0) && NewRoot(k2, k3, t.pgd)
    requires NewBlock(k3, k4, t.stack, KERNEL_STACK_ORDER)
    ensures Prepared(k0, k4, t, src)
  {
    hide Consistent, AddressSpace, NewChunk, NewBlock, OutsidePages, Everything, DataPages, TablePages, UserRoot;
    hide LeafOf, DataPage, OthersKept, LiveBlock;
    ChunkKeeps(k0, k1, t.addr, 0);
    ChunkEverything(k0, k1, t.addr);
    BlockKeeps(k1, k2, t.pgd, 0);
    RootKeeps(k2, k3, t.pgd);
    BlockKeeps(k3, k4, t.stack, KERNEL_STACK_ORDER);
    KeptOthers(k0, k1, t.pgd);
    KeptOthers(k1, k2, t.pgd);
    KeptOthers(k3, k4, t.pgd);
    OthersKeptTwice(k0, k1, k2, t.pgd);
    OthersKeptTwice(k0, k2, k3, t.pgd);
    OthersKeptTwice(k0, k3, k4, t.pgd);
    KeptOwned(k3, k4, t.pgd);
    NothingInside(k4, t.pgd);
    RootEverything(k2, k3, t.pgd);
    InEverything(k0);
    PreparedPlaces(k0, k1, k2, k3, k4, t, src, ms);
    RootKernel(k2, k3, t.pgd);
    GrowsKernel(k0, k1);
    GrowsKernel(k1, k2);
    GrowsKernel(k3, k4);
  }

  lemma GrowsKernel(k: Snapshot, k': Snapshot)
    requires Grows(k, k')
    ensures KernelKept(k, k')
  {
    hide LeafOf;
  }

  /** A new root leaves the kernel's mappings as they are. */
  lemma RootKernel(k: Snapshot, k': Snapshot, pgd: nat)
    requires NewRoot(k, k', pgd) && Consistent(k)
    ensures KernelKept(k, k')
  {
    hide Consistent, Lookup, InWindow, WithRoot;
    TableKeys(k);
    WellformedNow(k);
    var entries := RootEntries(k.space.tables[k.kernelPgd]);
    forall n: nat | n < KERNEL_PAGES ensures LeafOf(k', k.kernelPgd, n) == LeafOf(k, k.kernelPgd, n) {
      KernelWindow(k, n);
      SameLookup(k.space.tree, k.space.tables, k'.space.tables, k.offset, k.kernelPgd, n);
    }
  }


  lemma InEverything(k: Snapshot)
    ensures forall p :: p in Everything(k).pages ==> p in k.pages.live
  {
  }

  lemma NothingInside(k: Snapshot, root: nat)
    requires DataPages(k, root) == {} && TablePages(k, root) == {}
    ensures OutsidePages(k, root) == Everything(k).pages
  {
    hide DataPages, TablePages;
  }

  lemma RootEverything(k: Snapshot, k': Snapshot, pgd: nat)
    requires NewRoot(k, k', pgd)
    ensures Everything(k').pages == Everything(k).pages
  {
  }

  /** Where the new blocks lie. */
  lemma PreparedPlaces(k0: Snapshot, k1: Snapshot, k2: Snapshot, k3: Snapshot, k4: Snapshot, t: TaskView, src: nat,
      ms: seq<Mapping>)
    requires Consistent(k0) && Consistent(k1) && Consistent(k3) && AddressSpace(k0, src, ms)
    requires NewChunk(k0, k1, t.addr) && NewBlock(k1, k2, t.pgd, 0) && NewRoot(k2, k3, t.pgd)
    requires NewBlock(k3, k4, t.stack, KERNEL_STACK_ORDER)
    ensures LiveBlock(k4, t.pgd, 0) && LiveBlock(k4, t.stack, KERNEL_STACK_ORDER) && t.stack !in k4.space.tables
    ensures t.stack != t.pgd
    ensures PageAt(k4, t.pgd) == PageAt(k1, t.pgd) && PageAt(k4, t.stack) == PageAt(k3, t.stack)
    ensures PageAt(k1, t.pgd) !in k1.pages.live && PageAt(k3, t.stack) !in k3.pages.live
    ensures PageAt(k1, t.pgd) in k3.pages.live
    ensures k4.space.tables.Keys == k0.space.tables.Keys + {t.pgd} && t.pgd !in k0.space.tables && t.pgd != 0
    ensures t.pgd != src
    ensures k4.trampoline == k0.trampoline && k4.base == k0.base && k4.offset == k0.offset
    ensures forall p :: p in k0.pages.live ==>
      p in k1.pages.live && p in k3.pages.live && p in k4.pages.live && k4.pages.live[p] == k0.pages.live[p]
    ensures k3.heap.large == k2.heap.large
  {
    hide AddressSpace, NewChunk, NewBlock, Consistent, DataPage, OutsidePages, Everything, WithRoot;
    ChunkKeeps(k0, k1, t.addr, 0);
    BlockKeeps(k1, k2, t.pgd, 0);
    BlockKeeps(k3, k4, t.stack, KERNEL_STACK_ORDER);
    RootInTables(k0, src, ms);
    AboveZero(k1);
  }

  lemma AboveZero(k: Snapshot)
    requires Consistent(k)
    ensures k.base > 0
  {
    hide Wellformed, TablesBacked, HeapBacked;
  }

  /** What the allocation of a block leaves of plenty of free pages, and what it says about the block. */
  lemma BlockLeaves(k: Snapshot, k': Snapshot, addr: nat, order: nat, n: nat, m: nat)
    requires NewBlock(k, k', addr, order) && Consistent(k) && Plenty(k.pages.free, n)
    requires (order == 0 && m == 1) || (order == KERNEL_STACK_ORDER && m == 4)
    requires m <= n
    ensures Plenty(k'.pages.free, n - m)
    ensures LiveBlock(k', addr, order) && PageAt(k', addr) in k'.heap.large && addr !in k'.space.tables
  {
    hide Consistent, Plenty, LiveBlock, SpaceKept, Grows, Everything, Range, PageAt;
    BlockKeeps(k, k', addr, order);
    StackPages(PageAt(k, addr));
    PlentyLeft(k.pages.free, k'.pages.free, n, m);
    assert k'.space == k.space;
  }

  lemma ChunkLeaves(k: Snapshot, k': Snapshot, addr: nat, n: nat)
    requires NewChunk(k, k', addr) && Consistent(k) && Plenty(k.pages.free, n) && 1 <= n
    ensures Plenty(k'.pages.free, n - 1)
  {
    hide Consistent, NewChunk, Plenty, SpaceKept, Grows, OutsidePages;
    ChunkKeeps(k, k', addr, 0);
    PlentyLeft(k.pages.free, k'.pages.free, n, 1);
  }

  /** The first part of `task_copy`: the structure, a root with the kernel's half, and a kernel stack. */
  method PrepareTask(kernel: KernelMemory, pid: nat, ghost n: nat, ghost src: nat, ghost ms: seq<Mapping>)
    returns (task: Task)
    requires kernel.Valid() && Plenty(kernel.vm.pages.free, 6 + n) && AddressSpace(kernel.Now(), src, ms)
    modifies kernel.vm`tables, kernel.vm`tree, kernel.heap, kernel.vm.pages`free, kernel.vm.pages`live,
        kernel.vm.pages.frameArray, kernel.vm.pages.ordersLists, kernel.heap.pools
    ensures fresh(task) && task.pid == pid && task.mappings == [] && task.signals == []
    ensures kernel.Valid() && Prepared(old(kernel.Now()), kernel.Now(), View(task), src)
    ensures KernelSeen(kernel.Now(), task.pgd)
    ensures Plenty(kernel.vm.pages.free, n)
  {
    hide kernel.Valid, Consistent, AddressSpace, NewChunk, NewBlock, NewRoot, Prepared, Plenty, LiveBlock, SpaceKept;
    hide Grows, OutsidePages, Everything, Range, RunExists, PageAt, PA.RequiredOrder;
    ghost var k0 := kernel.Now();
    kernel.ValidConsistent();
    PlentyPages(k0.pages.free, 6 + n);
    var addr := kernel.AllocateChunk(TASK_SIZE);
    task := new Task(addr, pid);
    ghost var k1 := kernel.Now();
    kernel.ValidConsistent();
    ChunkLeaves(k0, k1, addr, 6 + n);
    Orders();
    PlentyPages(k1.pages.free, 5 + n);
    OnePageRun(k1.pages.free);
    var pgd := kernel.AllocateBlock(ROOT_SIZE);
    ghost var k2 := kernel.Now();
    kernel.ValidConsistent();
    BlockLeaves(k1, k2, pgd, 0, 5 + n, 1);
    kernel.AddRoot(pgd, Zeros(PAGE_TABLE_ENTRIES_NUM));
    ghost var k3 := kernel.Now();
    kernel.ValidConsistent();
    PlentyPages(k3.pages.free, 4 + n);
    var stack := kernel.AllocateBlock(KERNEL_STACK_SIZE);
    ghost var k4 := kernel.Now();
    BlockLeaves(k3, k4, stack, KERNEL_STACK_ORDER, 4 + n, 4);
    task.pgd, task.kernelStackAddr := pgd, stack;
    PreparedBy(k0, k1, k2, k3, k4, View(task), src, ms);
    PreparedKernel(kernel, k0, View(task), src);
  }

  lemma PreparedKernel(kernel: KernelMemory, k0: Snapshot, t: TaskView, src: nat)
    requires kernel.Valid() && Prepared(k0, kernel.Now(), t, src)
    ensures KernelSeen(kernel.Now(), t.pgd)
  {
    hide kernel.Valid, Consistent, KernelSeen, LeafOf, OutsidePages, Everything, OthersKept;
    kernel.ValidConsistent();
    KernelInSpace(kernel.Now(), t.pgd);
  }

  /** The four states of a fork: before, with the empty task, with its mappings, with its signals. */
  ghost predicate ForkStates(k0: Snapshot, k1: Snapshot, k2: Snapshot, k3: Snapshot, s: TaskView, t: TaskView) {
    && Prepared(k0, k1, t, s.pgd)
    && Forked(k1, k2, s.pgd, t.pgd) && AddressSpace(k2, t.pgd, t.mappings) && CopyBalance(k1, k2, t.pgd, t.mappings)
    && Grows(k1, k2)
    && SignalBalance(k2, k3, t.pgd, t.signals)
  }

  /** The source is as it was, in all four. */
  lemma SourceKept(k0: Snapshot, k1: Snapshot, k2: Snapshot, k3: Snapshot, s: TaskView, t: TaskView)
    requires ForkStates(k0, k1, k2, k3, s, t) && AddressSpace(k0, s.pgd, s.mappings)
    ensures AddressSpace(k3, s.pgd, s.mappings) && AddressSpace(k3, t.pgd, t.mappings)
    ensures OthersKept(k0, k1, t.pgd) && OthersKept(k0, k3, t.pgd) && SameSpace(k0, k1, s.pgd)
    ensures SameSpace(k0, k3, s.pgd)
  {
    hide AddressSpace, Forked, SameSpace, OthersKept, OutsidePages, LeafOf, LiveBlock, DataPage, DistinctNodes;
    hide DistinctSignals;
    KeptOthers(k2, k3, t.pgd);
    OthersKeptTwice(k0, k1, k2, t.pgd);
    OthersKeptTwice(k0, k2, k3, t.pgd);
    OtherKept(k0, k1, t.pgd, s.pgd, s.mappings);
    OtherKept(k0, k3, t.pgd, s.pgd, s.mappings);
    KeptSpace(k2, k3, t.pgd, t.mappings);
  }

  /** The copy made since the task was prepared is a copy of what there was before. */
  lemma ForkedSince(k0: Snapshot, k1: Snapshot, k2: Snapshot, k3: Snapshot, s: TaskView, t: TaskView)
    requires ForkStates(k0, k1, k2, k3, s, t) && AddressSpace(k0, s.pgd, s.mappings) && SameSpace(k0, k1, s.pgd)
    ensures Forked(k0, k3, s.pgd, t.pgd)
  {
    hide AddressSpace, CopyBalance, OthersKept, OutsidePages, Lookup, LiveBlock, DataPage, UserRoot;
    KeptOwned(k2, k3, t.pgd);
    hide LeafOf, DataAt, Everything;
    forall n: nat | n < USER_PAGES && n != TRAMPOLINE_PAGE
      ensures if HasData(k0, s.pgd, n) then CopiedPage(k0, k3, s.pgd, t.pgd, n) else LeafOf(k3, t.pgd, n) == None
    {
      if HasData(k0, s.pgd, n) { SourceContents(k0, k1, s.pgd, s.mappings, n); }
    }
  }

  /** The copies of well-placed mappings are well placed. */
  lemma CopiesPlaced(ms: seq<Mapping>, cs: seq<Mapping>)
    requires WellPlaced(ms) && Low(ms) && MappingCopies(ms, cs)
    ensures WellPlaced(cs) && Low(cs)
  {
    hide LeafProt;
    forall i | 0 <= i < |cs| ensures MappingCopy(ms[i], cs[i]) && Fits([], cs[i].size, cs[i].vaddr) {
      assert Fits([], ms[i].size, ms[i].vaddr);
    }
  }

  lemma ChildChunks(k0: Snapshot, k1: Snapshot, k2: Snapshot, k3: Snapshot, s: TaskView, t: TaskView)
    requires ForkStates(k0, k1, k2, k3, s, t)
    ensures OwnsChunks(k3, t) && k3.heap.chunks.Keys == k0.heap.chunks.Keys + ChunksOf(t)
    ensures ChunksOf(t) !! k0.heap.chunks.Keys
  {
    hide Forked, AddressSpace, OthersKept, OutsidePages, Everything, LeafOf, LiveBlock, SpaceKept, Grows, UserRoot;
    hide NodesOf, SignalNodes, DistinctNodes, DistinctSignals;
  }

  /** A large block that was no table when the task was prepared is none afterwards. */
  lemma StillNoTable(k1: Snapshot, k3: Snapshot, addr: nat, order: nat)
    requires Consistent(k3) && Grows(k1, k3) && k1.space.tables.Keys == k1.space.tree.place.Keys
    requires LiveBlock(k3, addr, order) && PageAt(k3, addr) in k3.heap.large && addr !in k1.space.tables
    ensures addr !in k3.space.tables
  {
    TableKeys(k3);
    hide Wellformed, HeapBacked;
  }

  lemma ForkGrows(k0: Snapshot, k1: Snapshot, k2: Snapshot, k3: Snapshot, s: TaskView, t: TaskView)
    requires ForkStates(k0, k1, k2, k3, s, t)
    ensures Grows(k1, k3) && k3.heap.large == k1.heap.large && k3.base == k1.base && k1.base == k0.base
  {
    hide Forked, AddressSpace, OthersKept, OutsidePages, Everything, LeafOf, LiveBlock, UserRoot, NodesOf, SignalNodes;
    hide DistinctNodes, DistinctSignals, DataPage;
    GrowsTwice(k1, k2, k3);
  }

  lemma ForkBlocksStay(k0: Snapshot, k1: Snapshot, k2: Snapshot, k3: Snapshot, s: TaskView, t: TaskView)
    requires ForkStates(k0, k1, k2, k3, s, t) && Consistent(k1)
    ensures BlocksStay(k0, k3, t.pgd)
  {
    hide Consistent, Forked, AddressSpace, OthersKept, OutsidePages, Everything, LeafOf, UserRoot, CopyBalance;
    hide SignalBalance, DataPage, LiveBlock;
    ForkGrows(k0, k1, k2, k3, s, t);
    GrowsKernel(k1, k3);
    TableKeys(k1);
  }

  lemma ForkedBlocks(k0: Snapshot, k1: Snapshot, k2: Snapshot, k3: Snapshot, s: TaskView, t: TaskView)
    requires ForkStates(k0, k1, k2, k3, s, t) && OwnsBlocks(k0, s) && s.pgd != 0 && Consistent(k0) && Consistent(k1)
    requires Consistent(k3)
    ensures OwnsBlocks(k3, t) && OwnsBlocks(k3, s)
  {
    hide Consistent, Forked, AddressSpace, OthersKept, OutsidePages, Everything, LeafOf, UserRoot, CopyBalance;
    hide SignalBalance, DataPage;
    ForkGrows(k0, k1, k2, k3, s, t);
    TableKeys(k1);
    KernelApart(k0, s.stack, KERNEL_STACK_ORDER);
    StackNotRoot(k0, k1, s, t);
    StillNoTable(k1, k3, s.stack, KERNEL_STACK_ORDER);
    StillNoTable(k1, k3, t.stack, KERNEL_STACK_ORDER);
  }

  lemma KernelApart(k: Snapshot, addr: nat, order: nat)
    requires Consistent(k) && LiveBlock(k, addr, order)
    ensures addr != k.kernelPgd
  {
    hide Wellformed, TablesBacked, HeapBacked;
  }

  lemma StackNotRoot(k0: Snapshot, k1: Snapshot, s: TaskView, t: TaskView)
    requires Prepared(k0, k1, t, s.pgd) && OwnsBlocks(k0, s)
    ensures s.stack !in k1.space.tables && LiveBlock(k1, s.stack, KERNEL_STACK_ORDER)
    ensures PageAt(k1, s.stack) in k1.heap.large
    ensures s.pgd != 0 ==> LiveBlock(k1, s.pgd, 0) && PageAt(k1, s.pgd) in k1.heap.large
  {
    hide OthersKept, OutsidePages, Everything, LeafOf, UserRoot;
  }

  /** Apart from the new task, all is as before the fork. */
  lemma ForkedRest(k0: Snapshot, k1: Snapshot, k2: Snapshot, k3: Snapshot, s: TaskView, t: TaskView)
    requires ForkStates(k0, k1, k2, k3, s, t)
    ensures RestOf(k3, t) == Everything(k0)
  {
    hide Forked, AddressSpace, OthersKept, OutsidePages, LeafOf, LiveBlock, SpaceKept, UserRoot, NodesOf, SignalNodes;
    hide DistinctNodes, DistinctSignals, Grows, PageAt, OwnsChunks;
    ChildChunks(k0, k1, k2, k3, s, t);
    ForkGrows(k0, k1, k2, k3, s, t);
    SamePageAt(k1, k3);
    assert RestOf(k3, t).pages == Everything(k0).pages;
    assert RestOf(k3, t).large == Everything(k0).large;
    assert RestOf(k3, t).chunks == Everything(k0).chunks;
  }

  /** Every address space there was is as it was, and shares no data page with the new one. */
  ghost predicate SpacesKept(k: Snapshot, k': Snapshot, root: nat) {
    forall r, ms :: AddressSpace(k, r, ms) ==>
      r != root && AddressSpace(k', r, ms) && SameSpace(k, k', r) && DataPages(k', r) !! DataPages(k', root)
  }

  lemma ForkKeepsSpaces(k0: Snapshot, k1: Snapshot, k3: Snapshot, t: TaskView, src: nat)
    requires Consistent(k0) && Prepared(k0, k1, t, src) && OthersKept(k0, k3, t.pgd) && Forked(k0, k3, src, t.pgd)
    ensures SpacesKept(k0, k3, t.pgd)
  {
    hide AddressSpace, LeafOf, DataAt, Consistent, UserRoot, OutsidePages, Everything, LiveBlock, SameSpace, CopiedPage;
    forall r, ms | AddressSpace(k0, r, ms)
      ensures r != t.pgd && AddressSpace(k3, r, ms) && SameSpace(k0, k3, r) && DataPages(k3, r) !! DataPages(k3, t.pgd)
    {
      RootInTables(k0, r, ms);
      OldPages(k0, k3, r, ms);
      NewPages(k0, k3, src, t.pgd);
    }
  }

  lemma OldPages(k: Snapshot, k': Snapshot, r: nat, ms: seq<Mapping>)
    requires AddressSpace(k, r, ms) && SameSpace(k, k', r)
    ensures forall q :: q in DataPages(k', r) ==> q in k.pages.live
  {
    hide LeafOf, DataAt, UserRoot, DataPage, PageFine;
    DataPagesLive(k, r, ms);
  }

  lemma NewPages(k: Snapshot, k': Snapshot, src: nat, dst: nat)
    requires Forked(k, k', src, dst)
    ensures forall q :: q in DataPages(k', dst) ==> q !in k.pages.live
  {
    hide LeafOf, DataAt;
  }

  /** `task_copy`: the new task owns a copy of the address space, the mappings and the signals, the source is untouched,
      and apart from the new task the memory is as it was. */
  method CopyTask(kernel: KernelMemory, source: Task, pid: nat) returns (task: Task)
    requires kernel.Valid() && Owned(kernel.Now(), View(source)) && source.pgd != 0
    requires EnoughFor(kernel.Now(), View(source))
    modifies kernel`contents, kernel.vm`tables, kernel.vm`tree, kernel.heap, kernel.vm.pages`free, kernel.vm.pages`live,
        kernel.vm.pages.frameArray, kernel.vm.pages.ordersLists, kernel.heap.pools
    ensures fresh(task) && task.pid == pid && task.isUser == source.isUser && task.signalSp == source.signalSp
    ensures task.pgd != 0
    ensures kernel.Valid() && Owned(kernel.Now(), View(task)) && Owned(kernel.Now(), View(source))
    ensures KernelSeen(kernel.Now(), task.pgd)
    ensures SameSpace(old(kernel.Now()), kernel.Now(), source.pgd)
    ensures |task.mappings| == |source.mappings| && MappingCopies(source.mappings, task.mappings)
    ensures |task.signals| == |source.signals| && SignalCopies(source.signals, task.signals)
    ensures Forked(old(kernel.Now()), kernel.Now(), source.pgd, task.pgd)
    ensures RestOf(kernel.Now(), View(task)) == Everything(old(kernel.Now()))
    ensures SpacesKept(old(kernel.Now()), kernel.Now(), task.pgd)
    ensures BlocksStay(old(kernel.Now()), kernel.Now(), task.pgd)
  {
    hide kernel.Valid, Owned, Prepared, Forked, CopyBalance, SignalBalance, Grows, SameSpace, OwnsBlocks, OwnsChunks;
    hide AddressSpace, WellPlaced, Low, OthersKept, Plenty, MappingCopies, SignalCopies, RestOf, Everything, Consistent;
    hide LeafOf, UserRoot, SpacesKept, CopyCost, BlocksStay, KernelSeen;
    ghost var k0, s := kernel.Now(), View(source);
    kernel.ValidConsistent();
    SourceParts(k0, s);
    ghost var cost := 2 + CopyCost(k0, s.pgd, s.mappings, 0) + |s.signals|;
    task := PrepareTask(kernel, pid, cost, source.pgd, source.mappings);
    ghost var k1 := kernel.Now();
    kernel.ValidConsistent();
    PreparedParts(k0, k1, View(task), s);
    PlentyPages(k1.pages.free, cost);
    SameCost(k0, k1, s.pgd, s.mappings, 0);
    task.isUser := source.isUser;
    CopyMappings(kernel, task, source);
    ghost var k2 := kernel.Now();
    CopySignals(kernel, task, source);
    ghost var k3, t := kernel.Now(), View(task);
    kernel.ValidConsistent();
    PreparedStill(k0, k1, TaskView(t.addr, t.pgd, t.stack, [], []), t, s);
    assert ForkStates(k0, k1, k2, k3, s, t);
    SourceKept(k0, k1, k2, k3, s, t);
    ForkedSince(k0, k1, k2, k3, s, t);
    ForkedOwned(k0, k1, k2, k3, s, t);
    ForkedRest(k0, k1, k2, k3, s, t);
    ForkKeepsSpaces(k0, k1, k3, t, s.pgd);
    ForkBlocksStay(k0, k1, k2, k3, s, t);
    KernelInTask(k3, t);
  }

  /** The kernel is mapped for every task that has an address space. */
  lemma KernelInTask(k: Snapshot, t: TaskView)
    requires Consistent(k) && Owned(k, t) && t.pgd != 0
    ensures KernelSeen(k, t.pgd)
  {
    hide Consistent, WellPlaced, Low, OwnsChunks, OwnsBlocks, PageFine, NotShared, UserRoot, KernelSeen;
    KernelInSpace(k, t.pgd);
  }

  lemma SourceParts(k: Snapshot, s: TaskView)
    requires Owned(k, s) && s.pgd != 0 && EnoughFor(k, s)
    ensures WellPlaced(s.mappings) && Low(s.mappings) && AddressSpace(k, s.pgd, s.mappings) && OwnsBlocks(k, s)
    ensures Plenty(k.pages.free, 6 + (2 + CopyCost(k, s.pgd, s.mappings, 0) + |s.signals|))
  {
    hide CopyCost, WellPlaced, Low, AddressSpace, OwnsBlocks, OwnsChunks, Plenty;
  }

  lemma PreparedParts(k0: Snapshot, k1: Snapshot, t: TaskView, s: TaskView)
    requires Prepared(k0, k1, t, s.pgd) && AddressSpace(k0, s.pgd, s.mappings)
    ensures AddressSpace(k1, s.pgd, s.mappings) && UserRoot(k1.space.tree, t.pgd) && t.pgd != s.pgd && t.pgd != 0
    ensures SameSpace(k0, k1, s.pgd)
    ensures forall n: nat :: n < USER_PAGES ==> LeafOf(k1, t.pgd, n) == None
  {
    hide AddressSpace, LeafOf, UserRoot, OutsidePages, Everything, LiveBlock, SameSpace;
  }

  /** Being prepared says nothing of mappings and signals. */
  lemma PreparedStill(k0: Snapshot, k1: Snapshot, t: TaskView, t': TaskView, s: TaskView)
    requires Prepared(k0, k1, t, s.pgd) && t'.addr == t.addr && t'.pgd == t.pgd && t'.stack == t.stack
    ensures Prepared(k0, k1, t', s.pgd)
  {
    hide LeafOf, UserRoot, OutsidePages, Everything, LiveBlock, OthersKept;
  }

  lemma ForkedOwned(k0: Snapshot, k1: Snapshot, k2: Snapshot, k3: Snapshot, s: TaskView, t: TaskView)
    requires ForkStates(k0, k1, k2, k3, s, t) && Owned(k0, s) && s.pgd != 0 && Consistent(k0) && Consistent(k1)
    requires Consistent(k3)
    requires AddressSpace(k3, s.pgd, s.mappings) && AddressSpace(k3, t.pgd, t.mappings)
    requires MappingCopies(s.mappings, t.mappings)
    ensures Owned(k3, t) && Owned(k3, s)
  {
    hide Forked, SpaceKept, MappingCopies, NodesOf, SignalNodes, DistinctNodes, DistinctSignals, AddressSpace;
    hide CopyBalance, SignalBalance, Grows, OwnsBlocks, WellPlaced, Low, Consistent, LeafOf, UserRoot, OthersKept;
    hide OutsidePages, Everything, LiveBlock;
    ChildChunks(k0, k1, k2, k3, s, t);
    ForkedBlocks(k0, k1, k2, k3, s, t);
    CopiesPlaced(s.mappings, t.mappings);
  }
}
