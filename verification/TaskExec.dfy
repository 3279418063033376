/** `task_exec_user`: a task gives up its mappings, its pages and its signals, and starts a program in the address space
    that it has or in a new one. */
module TaskExec {
  import opened Bits
  import opened FreeBlocks
  import PA = PageAllocator
  import opened Sv39
  import opened PageTree
  import opened Teardown
  import opened Roots
  import opened TaskMappings
  import opened AddressSpaces
  import opened Ownership
  import opened KernelMemory
  import opened Tasks
  import opened TaskCopies
  import opened TaskLife
  import opened TaskFork
  import opened TaskCreation
  import opened TaskRuns

  const PTE_USER_ANON_PROT: nat := PTE_VALID + PTE_READ + PTE_WRITE + PTE_USER + PTE_ACCESSED + PTE_DIRTY
  const USER_STACK_VADDR: nat := 0x30_0000_0000
  const USER_STACK_SIZE: nat := 16384
  const SIGNAL_STACK_VADDR: nat := 0x38_0000_0000
  const SIGNAL_STACK_SIZE: nat := 4096

  // The task gives up what it has.

  /** The mappings, their data pages and the signals of a task are gone. */
  ghost predicate Emptied(k: Snapshot, k': Snapshot, t: TaskView) {
    && Left(k, k', DataPages(k, t.pgd), {}, NodesOf(t.mappings) + SignalNodes(t.signals))
    && k'.space == k.space && SameSetting(k, k') && k.pages.free <= k'.pages.free
  }

  lemma EmptiedBy(k0: Snapshot, k1: Snapshot, k2: Snapshot, t: TaskView)
    requires Consistent(k0) && Owned(k0, t)
    requires FreedUpTo(k0, k1, t.pgd, if t.mappings == [] then 0 else USER_PAGES)
    requires k1.heap.chunks.Keys == k0.heap.chunks.Keys - NodesOf(t.mappings)
    requires OnlyChunks(k1, k2) && k2.heap.chunks.Keys == k1.heap.chunks.Keys - SignalNodes(t.signals)
    ensures Emptied(k0, k2, t)
  {
    hide Left, Owned, Consistent, DataPages, NodesOf, SignalNodes, DataBelow;
    NothingOwned(k0, t);
    if t.mappings == [] {
      NoDataLeft(k0, k1, t.pgd, NodesOf(t.mappings));
    } else {
      DataLeft(k0, k1, t.pgd, NodesOf(t.mappings));
    }
    SignalsGone(k1, k2, SignalNodes(t.signals));
    var none: set<int> := {};
    LeftTwice(k0, k1, k2, DataPages(k0, t.pgd), none, NodesOf(t.mappings), none, none, SignalNodes(t.signals));
    assert DataPages(k0, t.pgd) + none == DataPages(k0, t.pgd) && none + none == none;
  }

  lemma SignalsGone(k: Snapshot, k': Snapshot, chunks: set<nat>)
    requires OnlyChunks(k, k') && k'.heap.chunks.Keys == k.heap.chunks.Keys - chunks
    ensures Left(k, k', {}, {}, chunks)
  {
  }

  /** The task has an address space with nothing in it: the one it had, or a new one. All else is as before. */
  ghost predicate Cleared(k: Snapshot, t: TaskView, k': Snapshot, t': TaskView) {
    && t' == TaskView(t.addr, t'.pgd, t.stack, [], []) && t'.pgd != 0 && (t.pgd != 0 ==> t'.pgd == t.pgd)
    && Owned(k', t') && RestOf(k', t') == RestOf(k, t) && BlocksStay(k, k', t'.pgd)
    && OthersApart(k, k', t.pgd, t'.pgd)
  }

  /** Every address space but `root'` that shares no data page with `root` is as it was. */
  ghost predicate OthersApart(k: Snapshot, k': Snapshot, root: nat, root': nat) {
    forall r, ms :: r != root' && AddressSpace(k, r, ms) && DataPages(k, r) !! DataPages(k, root) ==>
      AddressSpace(k', r, ms) && SameSpace(k, k', r)
  }

  ghost predicate NothingMapped(k: Snapshot, root: nat) {
    forall n: nat :: n < USER_PAGES ==> LeafOf(k, root, n) == None
  }

  // In the address space that it has.

  /** The root and the kernel stack are in neither the data pages nor the tables. */
  lemma StackApart(k: Snapshot, t: TaskView)
    requires Owned(k, t) && Consistent(k) && t.pgd != 0
    ensures PageAt(k, t.stack) !in DataPages(k, t.pgd) && PageAt(k, t.stack) !in TablePages(k, t.pgd)
  {
    hide OwnsChunks, WellPlaced, Low, LeafOf, DataAt, Wellformed;
    DataPagesLive(k, t.pgd, t.mappings);
    hide AddressSpace;
    RootInTables(k, t.pgd, t.mappings);
    forall x | x in TablesOf(k.space.tree, t.pgd) ensures PageAt(k, x) !in k.heap.large {
    }
  }

  lemma TablesOnlyLeft(k: Snapshot, k': Snapshot, root: nat)
    requires TablesGone(k, k', root)
    ensures Left(k, k', TablePages(k, root), {}, {})
  {
    hide TablesOf, SameTables, Without, EmptyBelow;
  }

  lemma ClearedLeft(k0: Snapshot, k1: Snapshot, k2: Snapshot, t: TaskView)
    requires Emptied(k0, k1, t) && TablesGone(k1, k2, t.pgd)
    ensures Left(k0, k2, DataPages(k0, t.pgd) + TablePages(k0, t.pgd), {}, NodesOf(t.mappings) + SignalNodes(t.signals))
  {
    hide Left, TablesGone, DataPages, TablePages, NodesOf, SignalNodes;
    assert k1.base == k0.base by { SameBaseOf(k0, k1); }
    SameTablePages(k0, k1, t.pgd);
    TablesOnlyLeft(k1, k2, t.pgd);
    var chunks := NodesOf(t.mappings) + SignalNodes(t.signals);
    var none: set<int> := {};
    LeftTwice(k0, k1, k2, DataPages(k0, t.pgd), none, chunks, TablePages(k0, t.pgd), none, {});
    assert none + none == none && chunks + {} == chunks;
  }

  lemma SameBaseOf(k: Snapshot, k': Snapshot)
    requires SameSetting(k, k')
    ensures k'.base == k.base && forall a: nat :: PageAt(k', a) == PageAt(k, a)
  {
  }

  lemma SettingCleared(k0: Snapshot, k1: Snapshot, k2: Snapshot, t: TaskView)
    requires Emptied(k0, k1, t) && TablesGone(k1, k2, t.pgd)
    ensures SameSetting(k0, k2)
  {
    hide Left, Without, SameTables, EmptyBelow, TablesOf;
  }

  /** The address space is empty. */
  lemma ClearedSpace(k1: Snapshot, k2: Snapshot, pgd: nat)
    requires TablesGone(k1, k2, pgd) && UserRoot(k2.space.tree, pgd)
    ensures NothingMapped(k2, pgd) && AddressSpace(k2, pgd, [])
    ensures DataPages(k2, pgd) == {} && TablePages(k2, pgd) == {}
  {
    hide Lookup, UserRoot, SameTables;
    forall n: nat | n < USER_PAGES ensures LeafOf(k2, pgd, n) == None {
      EmptyLookup(k2.space.tables, k2.offset, pgd, n);
    }
    hide LeafOf;
    assert TablesOf(k2.space.tree, pgd) == {};
  }

  /** The tables of the others are as before. */
  lemma ClearedTables(k0: Snapshot, k1: Snapshot, k2: Snapshot, t: TaskView)
    requires Consistent(k0) && Emptied(k0, k1, t) && TablesGone(k1, k2, t.pgd)
    ensures SpaceGone(k0, k2, t.pgd)
  {
    hide Consistent, UserRoot, SameTables, Without, TablesOf, Left, EmptyBelow, SameSetting;
    SettingCleared(k0, k1, k2, t);
    var tree, pgd := k0.space.tree, t.pgd;
    PlacesKept(tree, TablesOf(tree, pgd));
    OnlyOneEmptied(tree, pgd);
    forall r: nat | r != pgd && UserRoot(tree, r) ensures UserRoot(k2.space.tree, r) {
      RootPlaceOf(k0, r);
      RootWithoutTables(tree, pgd, r);
    }
  }

  lemma OnlyOneEmptied(tree: Tree, pgd: nat)
    ensures forall r: nat :: r != pgd ==> TablesOf(Without(tree, TablesOf(tree, pgd)), r) == TablesOf(tree, r)
  {
  }

  lemma RootWithoutTables(tree: Tree, pgd: nat, r: nat)
    requires UserRoot(tree, r) && r in tree.place && tree.place[r] == RootPlace(r)
    ensures UserRoot(Without(tree, TablesOf(tree, pgd)), r)
  {
  }

  lemma ClearedOthers(k0: Snapshot, k2: Snapshot, t: TaskView)
    requires Consistent(k0) && Consistent(k2) && SpaceGone(k0, k2, t.pgd) && t.pgd != k0.kernelPgd
    requires Left(k0, k2, DataPages(k0, t.pgd) + TablePages(k0, t.pgd), {},
        NodesOf(t.mappings) + SignalNodes(t.signals))
    ensures OthersSurvive(k0, k2, t.pgd) && BlocksStay(k0, k2, t.pgd)
    ensures forall x :: x in k2.space.tables ==> x in k0.space.tables
  {
    hide Consistent, DataPages, TablePages, NodesOf, SignalNodes, SameTables, OtherTables, OthersSurvive, UserRoot;
    hide KernelKept;
    TablesShrink(k0, k2, t.pgd);
    GoneKernel(k0, k2, t.pgd);
    TableKeys(k0);
    forall q | DataPage(k0, q) && q !in DataPages(k0, t.pgd) ensures DataPage(k2, q) {
      TablesNotData(k0, t.pgd, q);
    }
    AllOthersSurvive(k0, k2, t.pgd);
  }

  lemma ClearedBlocks(k0: Snapshot, k2: Snapshot, t: TaskView, chunks: set<nat>)
    requires Owned(k0, t) && Consistent(k0) && t.pgd != 0 && k2.base == k0.base
    requires Left(k0, k2, DataPages(k0, t.pgd) + TablePages(k0, t.pgd), {}, chunks)
    requires forall x :: x in k2.space.tables ==> x in k0.space.tables
    ensures OwnsBlocks(k2, TaskView(t.addr, t.pgd, t.stack, [], []))
  {
    hide Consistent, WellPlaced, Low, AddressSpace, DataPages, TablePages, OwnsChunks;
    RootApart(k0, t);
    StackApart(k0, t);
  }

  lemma ClearedChunks(k0: Snapshot, k2: Snapshot, t: TaskView, pgd: nat, gone: set<int>)
    requires OwnsChunks(k0, t) && Left(k0, k2, gone, {}, NodesOf(t.mappings) + SignalNodes(t.signals))
    ensures OwnsChunks(k2, TaskView(t.addr, pgd, t.stack, [], []))
    ensures k2.heap.chunks.Keys - ChunksOf(TaskView(t.addr, pgd, t.stack, [], [])) == k0.heap.chunks.Keys - ChunksOf(t)
  {
    hide DistinctNodes, DistinctSignals;
    var t' := TaskView(t.addr, pgd, t.stack, [], []);
    assert NodesOf(t'.mappings) == {} && SignalNodes(t'.signals) == {};
    assert DistinctNodes(t'.mappings) && DistinctSignals(t'.signals) by { NoneDistinct(); }
  }

  lemma NoneDistinct()
    ensures DistinctNodes([]) && DistinctSignals([])
  {
  }

  lemma ClearedRest(k0: Snapshot, k2: Snapshot, t: TaskView, gone: set<int>, chunks: set<nat>)
    requires Left(k0, k2, gone, {}, chunks) && DataPages(k2, t.pgd) == {} && TablePages(k2, t.pgd) == {}
    requires gone == DataPages(k0, t.pgd) + TablePages(k0, t.pgd)
    requires k2.heap.chunks.Keys - ChunksOf(TaskView(t.addr, t.pgd, t.stack, [], [])) ==
      k0.heap.chunks.Keys - ChunksOf(t)
    ensures RestOf(k2, TaskView(t.addr, t.pgd, t.stack, [], [])) == RestOf(k0, t)
  {
    hide DataPages, TablePages, ChunksOf;
    var t' := TaskView(t.addr, t.pgd, t.stack, [], []);
    assert PageAt(k2, t.pgd) == PageAt(k0, t.pgd) && PageAt(k2, t.stack) == PageAt(k0, t.stack);
    hide PageAt;
    assert RestOf(k2, t').pages == RestOf(k0, t).pages;
    assert RestOf(k2, t').large == RestOf(k0, t).large;
  }

  lemma ClearedOwns(k0: Snapshot, k1: Snapshot, k2: Snapshot, t: TaskView)
    requires Consistent(k0) && Consistent(k2) && Owned(k0, t) && t.pgd != 0
    requires Emptied(k0, k1, t) && TablesGone(k1, k2, t.pgd) && UserRoot(k2.space.tree, t.pgd)
    ensures Cleared(k0, t, k2, TaskView(t.addr, t.pgd, t.stack, [], [])) && NothingMapped(k2, t.pgd)
  {
    hide Consistent, Emptied, TablesGone, UserRoot, Left, DataPages, TablePages, AddressSpace, OwnsBlocks, OwnsChunks;
    hide NodesOf, SignalNodes, SpaceGone, OthersSurvive, BlocksStay, RestOf, ChunksOf, NothingMapped, SameSetting;
    var gone, chunks := DataPages(k0, t.pgd) + TablePages(k0, t.pgd), NodesOf(t.mappings) + SignalNodes(t.signals);
    ClearedLeft(k0, k1, k2, t);
    ClearedSpace(k1, k2, t.pgd);
    ClearedTables(k0, k1, k2, t);
    OwnNotKernel(k0, t);
    ClearedOthers(k0, k2, t);
    SettingCleared(k0, k1, k2, t);
    SameBaseOf(k0, k2);
    ClearedBlocks(k0, k2, t, chunks);
    ClearedChunks(k0, k2, t, t.pgd, gone);
    ClearedRest(k0, k2, t, gone, chunks);
    SurvivorsApart(k0, k2, t.pgd);
    NoMappings();
  }

  lemma SurvivorsApart(k: Snapshot, k': Snapshot, root: nat)
    requires OthersSurvive(k, k', root)
    ensures OthersApart(k, k', root, root)
  {
    hide AddressSpace, SameSpace, DataPages;
  }

  lemma NoMappings()
    ensures WellPlaced([]) && Low([])
  {
  }

  // In a new one.

  /** A kernel thread without its signals. */
  lemma EmptiedThread(k0: Snapshot, k1: Snapshot, t: TaskView)
    requires Consistent(k0) && Consistent(k1) && Owned(k0, t) && t.pgd == 0 && Emptied(k0, k1, t)
    ensures var t1 := TaskView(t.addr, 0, t.stack, [], []); Owned(k1, t1) && RestOf(k1, t1) == RestOf(k0, t)
    ensures SpaceKept(k0, k1) && BlocksStay(k0, k1, 0) && k1.pages.live == k0.pages.live
  {
    hide Consistent, DataPages, TablePages, NodesOf, SignalNodes, OwnsChunks, ChunksOf, WellPlaced, Low, AddressSpace;
    NothingOwned(k0, t);
    SameBaseOf(k0, k1);
    var gone := DataPages(k0, 0);
    ClearedChunks(k0, k1, t, 0, gone);
    forall q | DataPage(k0, q) ensures DataPage(k1, q) {
    }
    KeptOwned(k0, k1, 0);
    ClearedRest(k0, k1, t, gone, NodesOf(t.mappings) + SignalNodes(t.signals));
    TableKeys(k0);
    NoMappings();
  }

  lemma GivenBlocks(k0: Snapshot, k1: Snapshot, k2: Snapshot, k3: Snapshot, pgd: nat)
    requires Consistent(k0) && Consistent(k1) && Consistent(k2) && k1.pages.live == k0.pages.live
    requires k1.space == k0.space && k1.kernelPgd == k0.kernelPgd && k1.offset == k0.offset
    requires k1.base == k0.base && NewBlock(k1, k2, pgd, 0) && NewRoot(k2, k3, pgd)
    ensures BlocksStay(k0, k3, pgd)
  {
    hide Consistent, DataPage, Everything, SpaceKept, LiveBlock, RootEntries, LeafOf;
    BlockKeeps(k1, k2, pgd, 0);
    SameTablesSet(k1, k2);
    RootKernel(k2, k3, pgd);
    SameKernel(k0, k1);
    TableKeys(k0);
  }

  lemma SameKernel(k: Snapshot, k': Snapshot)
    requires k'.space == k.space && k'.kernelPgd == k.kernelPgd && k'.offset == k.offset
    ensures KernelKept(k, k')
  {
  }

  lemma GivenCleared(k0: Snapshot, k1: Snapshot, k2: Snapshot, k3: Snapshot, t: TaskView, pgd: nat)
    requires Consistent(k0) && Consistent(k1) && Consistent(k2) && Consistent(k3) && Owned(k0, t) && t.pgd == 0
    requires pgd != 0 && Emptied(k0, k1, t) && NewBlock(k1, k2, pgd, 0) && NewRoot(k2, k3, pgd)
    ensures Cleared(k0, t, k3, TaskView(t.addr, pgd, t.stack, [], [])) && NothingMapped(k3, pgd)
  {
    hide Consistent, Emptied, NewBlock, NewRoot, Owned, RestOf, SpaceKept, BlocksStay, Everything, OthersKept;
    hide NothingMapped, LiveBlock, UserRoot, SameSetting;
    var t1 := TaskView(t.addr, 0, t.stack, [], []);
    EmptiedThread(k0, k1, t);
    GivenSpace(k1, k2, k3, t1, pgd);
    BlockKeeps(k1, k2, pgd, 0);
    RootKeeps(k2, k3, pgd);
    assert NothingMapped(k3, pgd) by { NothingIn(k3, pgd); }
    KeptOthers(k0, k1, pgd);
    KeptOthers(k1, k2, pgd);
    OthersKeptTwice(k0, k1, k2, pgd);
    OthersKeptTwice(k0, k2, k3, pgd);
    KeptApart(k0, k3, 0, pgd);
    SameTablesSet(k0, k1);
    GivenBlocks(k0, k1, k2, k3, pgd);
  }

  lemma NothingIn(k: Snapshot, root: nat)
    requires forall n: nat :: n < USER_PAGES ==> LeafOf(k, root, n) == None
    ensures NothingMapped(k, root)
  {
    hide LeafOf;
  }

  lemma KeptApart(k: Snapshot, k': Snapshot, root: nat, root': nat)
    requires OthersKept(k, k', root')
    ensures OthersApart(k, k', root, root')
  {
    hide AddressSpace, SameSpace, DataPages;
  }

  /** The first part of `task_exec_user`: mappings, signals and tables are freed, or a kernel thread gets a root, whose
      page held `leftover`. */
  method ClearTask(kernel: KernelMemory, task: Task, leftover: seq<nat>)
    requires kernel.Valid() && Owned(kernel.Now(), View(task)) && kernel.vm.pages.free != {}
    requires task.pgd == 0 ==>
      |leftover| == PAGE_TABLE_ENTRIES_NUM && leftover[..USER_ENTRIES] == Zeros(USER_ENTRIES)
    modifies task`mappings, task`signals, task`pgd, kernel.vm`tables, kernel.vm`tree, kernel.heap, kernel.heap.pools,
        kernel.vm.pages`free, kernel.vm.pages`live, kernel.vm.pages`pending, kernel.vm.pages.frameArray,
        kernel.vm.pages.ordersLists
    ensures kernel.Valid() && Cleared(old(kernel.Now()), old(View(task)), kernel.Now(), View(task))
    ensures NothingMapped(kernel.Now(), task.pgd) && |kernel.vm.pages.free| >= |old(kernel.vm.pages.free)| - 1
    ensures KernelSeen(kernel.Now(), task.pgd)
  {
    hide kernel.Valid, Owned, Consistent, KernelSeen, FreedUpTo, OnlyChunks, Cleared, NothingMapped, Emptied;
    hide NewBlock, NewRoot;
    hide TablesGone, UserRoot, AddressSpace, LiveBlock, PA.RequiredOrder, WellPlaced, Low, NodesOf, SignalNodes;
    hide DistinctNodes, DistinctSignals, DataPages, TablePages, RunExists, PageAt, TablesOf;
    ghost var k0, t := kernel.Now(), View(task);
    kernel.ValidConsistent();
    OwnedParts(k0, t);
    NothingOwned(k0, t);
    OwnedSpace(k0, t);
    FreeMappings(kernel, task);
    ghost var k1 := kernel.Now();
    FreeSignals(kernel, task);
    ghost var k2 := kernel.Now();
    EmptiedBy(k0, k1, k2, t);
    kernel.ValidConsistent();
    MoreFree(k0, k2, t);
    task.mappings, task.signals := [], [];
    if task.pgd == 0 {
      Orders();
      OnePageRun(k2.pages.free);
      var pgd := kernel.AllocateBlock(ROOT_SIZE);
      ghost var k3 := kernel.Now();
      kernel.ValidConsistent();
      NewBlockFor(k2, k3, pgd);
      kernel.AddRoot(pgd, leftover);
      kernel.ValidConsistent();
      task.pgd := pgd;
      SameFree(k3, kernel.Now(), pgd);
      GivenCleared(k0, k2, k3, kernel.Now(), t, pgd);
    } else {
      EmptiedRoot(k0, k2, t);
      kernel.FreeUserTables(task.pgd);
      kernel.ValidConsistent();
      ClearedOwns(k0, k2, kernel.Now(), t);
      TablesFreed(k2, kernel.Now(), t.pgd);
    }
    ClearedKernel(k0, t, kernel.Now(), View(task));
  }

  lemma ClearedKernel(k: Snapshot, t: TaskView, k': Snapshot, t': TaskView)
    requires Consistent(k') && Cleared(k, t, k', t')
    ensures KernelSeen(k', t'.pgd)
  {
    hide Consistent, Owned, RestOf, OthersApart, BlocksStay, KernelSeen;
    KernelInTask(k', t');
  }

  lemma OwnedSpace(k: Snapshot, t: TaskView)
    requires Owned(k, t)
    ensures t.pgd != 0 ==> AddressSpace(k, t.pgd, t.mappings)
    ensures t.mappings != [] ==> t.pgd != 0
  {
    hide WellPlaced, Low, AddressSpace, OwnsChunks, OwnsBlocks;
  }

  lemma MoreFree(k: Snapshot, k': Snapshot, t: TaskView)
    requires Emptied(k, k', t) && k.pages.free != {}
    ensures k'.pages.free != {} && |k'.pages.free| >= |k.pages.free|
  {
    hide Left, SameSetting;
    LargerSet(k.pages.free, k'.pages.free);
  }

  lemma LargerSet(a: set<nat>, b: set<nat>)
    requires a <= b
    ensures |a| <= |b|
  {
    assert b == a + (b - a);
  }

  lemma NewBlockFor(k: Snapshot, k': Snapshot, pgd: nat)
    requires Consistent(k) && NewBlock(k, k', pgd, 0)
    ensures LiveBlock(k', pgd, 0) && PageAt(k', pgd) in k'.heap.large && pgd !in k'.space.tables && pgd != 0
    ensures |k'.pages.free| >= |k.pages.free| - 1
  {
    hide Consistent, NewBlock, Everything, LiveBlock, Grows;
    BlockKeeps(k, k', pgd, 0);
    StackPages(PageAt(k, pgd));
    SameTablesSet(k, k');
    AboveZero(k);
    assert PageAt(k, 0) < 0;
  }

  lemma SameFree(k: Snapshot, k': Snapshot, pgd: nat)
    requires NewRoot(k, k', pgd)
    ensures k'.pages == k.pages
  {
  }

  lemma EmptiedRoot(k: Snapshot, k': Snapshot, t: TaskView)
    requires Owned(k, t) && t.pgd != 0 && Emptied(k, k', t)
    ensures UserRoot(k'.space.tree, t.pgd)
  {
    hide WellPlaced, Low, OwnsChunks, OwnsBlocks, UserRoot, PageFine, NotShared, Left, SameSetting;
  }

  lemma TablesFreed(k: Snapshot, k': Snapshot, pgd: nat)
    requires TablesGone(k, k', pgd)
    ensures |k'.pages.free| >= |k.pages.free|
  {
    hide TablesOf, SameTables, Without, EmptyBelow;
    var ps := PagesOfTables(k, TablesOf(k.space.tree, pgd));
    FreeGrew(k.pages.free, k'.pages.free, ps);
  }

  lemma FreeGrew(a: set<nat>, b: set<nat>, ps: set<int>)
    requires b == a + ps
    ensures |b| >= |a|
  {
    LargerSet(a, b);
  }

  // The new program.

  /** There is room for a mapping above all others. */
  ghost predicate RoomAbove(ms: seq<Mapping>, vaddr: nat, size: nat) {
    && vaddr % PTE_MEM_SIZE == 0 && USER_CODE_VADDR <= vaddr && 0 < size <= WORD - PTE_MEM_SIZE
    && vaddr + AlignToPte(size) <= 4096 * USER_PAGES
    && forall i :: 0 <= i < |ms| ==> ms[i].vaddr + ms[i].size <= vaddr
  }

  lemma FitsAbove(ms: seq<Mapping>, vaddr: nat, size: nat)
    requires RoomAbove(ms, vaddr, size)
    ensures Fits(ms, AlignToPte(size), vaddr) && Wanted(AlignToPte(vaddr)) == vaddr
    ensures !NoPage(ms, RequestedFrom(vaddr), AlignToPte(size))
  {
    PageStart(vaddr, 0);
    assert Fits(ms, AlignToPte(size), vaddr);
    hide Fits, AlignToPte;
    assert vaddr % PTE_MEM_SIZE == 0 && RequestedFrom(vaddr) <= vaddr;
  }

  /** A mapping that was asked for above all others is the last in the list, and where it was asked for. */
  lemma MappingLast(k: Snapshot, k': Snapshot, t: TaskView, t': TaskView, vaddr: nat, size: nat, m: Mapping)
    requires Consistent(k) && Consistent(k') && Owned(k, t) && t.pgd != 0 && RoomAbove(t.mappings, vaddr, size)
    requires m.size == AlignToPte(size) && UserProt(m.prot) && NewChunk(k, k', m.node)
    requires LowestFit(t.mappings, Wanted(AlignToPte(vaddr)), AlignToPte(size), m.vaddr)
    requires InsertedMapping(t.mappings, t'.mappings, m) && WellPlaced(t'.mappings)
    requires t' == TaskView(t.addr, t.pgd, t.stack, t'.mappings, t.signals)
    ensures m.vaddr == vaddr && t'.mappings == t.mappings + [m] && Keeps(k, t, k', t')
    ensures |k'.pages.free| >= |k.pages.free| - 1
    ensures NothingMapped(k, t.pgd) ==> NothingMapped(k', t.pgd)
  {
    hide Consistent, Owned, RestOf, AlignToPte, Fits, LeafProt, UserProt, NewChunk, InsertedMapping, WellPlaced, Low;
    hide OthersKept;
    hide AddressSpace, OutsidePages, Grows, Wanted, SpaceKept, LeafOf;
    SpaceParts(k, t);
    FitsAbove(t.mappings, vaddr, size);
    LowestAtWanted(t.mappings, vaddr, AlignToPte(size), m.vaddr);
    InsertedLast(t.mappings, t'.mappings, m);
    InsertedParts(t.mappings, t'.mappings, m);
    InsertedLow(t.mappings, t'.mappings, m);
    ChunkKeeps(k, k', m.node, t.pgd);
    KeptOwned(k, k', t.pgd);
    KeptOthers(k, k', t.pgd);
    KeptSpace(k, k', t.pgd, t.mappings);
    MoreMappings(k', t.pgd, t.mappings, t'.mappings, m);
    StillOwned(k, k', t, t', m.node);
  }

  lemma KeepsTwice(k: Snapshot, t: TaskView, k1: Snapshot, t1: TaskView, k2: Snapshot, t2: TaskView)
    requires Keeps(k, t, k1, t1) && Keeps(k1, t1, k2, t2)
    ensures Keeps(k, t, k2, t2)
  {
    hide Owned, RestOf, OthersKept, Grows;
    OthersKeptTwice(k, k1, k2, t.pgd);
    GrowsTwice(k, k1, k2);
  }

  /** The program, the stack and the signal stack of a user task. */
  ghost predicate UserMappings(ms: seq<Mapping>, fileData: nat, fileSize: nat) {
    && |ms| == 3
    && ms[0] == Mapping(ms[0].node, USER_CODE_VADDR, AlignToPte(fileSize), PTE_USER_CODE_PROT, File, fileData, fileSize)
    && ms[1].vaddr == USER_STACK_VADDR && ms[1].size == USER_STACK_SIZE
    && ms[2].vaddr == SIGNAL_STACK_VADDR && ms[2].size == SIGNAL_STACK_SIZE
    && forall i :: 1 <= i < 3 ==> ms[i].prot == PTE_USER_ANON_PROT && ms[i].backer == Anon
  }

  /** The trampoline is the only page that is present. */
  ghost predicate OnlyTrampoline(k: Snapshot, root: nat) {
    forall n: nat :: n < USER_PAGES ==>
      LeafOf(k, root, n) == if 4096 * n == 0x1000 then Some(Leaf(0, k.trampoline, PTE_USER_CODE_PROT)) else None
  }

  lemma UserProts()
    ensures UserProt(PTE_USER_CODE_PROT) && UserProt(PTE_USER_ANON_PROT) && LeafProt(PTE_USER_CODE_PROT)
    ensures AlignToPte(USER_STACK_SIZE) == USER_STACK_SIZE && AlignToPte(SIGNAL_STACK_SIZE) == SIGNAL_STACK_SIZE
  {
  }

  lemma AlignedProgram(size: nat)
    requires 0 < size < 0x1_0000_0000
    ensures 0 < AlignToPte(size) <= 0x1_0000_0000
  {
  }

  /** Mapping the trampoline leaves the task what it owns. */
  lemma TrampolineKeeps(k: Snapshot, k': Snapshot, t: TaskView)
    requires MappedPage(k, k', t.pgd, TRAMPOLINE_PAGE, Leaf(0, k.trampoline, PTE_USER_CODE_PROT))
    requires Consistent(k) && Consistent(k') && Owned(k, t) && t.pgd != 0 && NothingMapped(k, t.pgd)
    ensures Keeps(k, t, k', t) && OnlyTrampoline(k', t.pgd)
  {
    hide Consistent, Owned, RestOf, MappedPage, OthersKept, OutsidePages, Grows, AddressSpace, LeafOf, WellPlaced, Low;
    SpaceParts(k, t);
    MappedTrampoline(k, k', t.pgd, t.mappings);
    HeapSame(k, k', t.pgd);
    StillOwned(k, k', t, t, 0);
  }

  lemma OwnedRoot(k: Snapshot, t: TaskView)
    requires Owned(k, t) && t.pgd != 0
    ensures UserRoot(k.space.tree, t.pgd)
  {
    hide WellPlaced, Low, OwnsChunks, OwnsBlocks, UserRoot, PageFine, NotShared;
  }

  /** `task_add_mapping` above all others. */
  method AddLast(kernel: KernelMemory, task: Task, vaddr: nat, size: nat, prot: nat, flags: nat, fileData: nat)
    requires kernel.Valid() && Owned(kernel.Now(), View(task)) && task.pgd != 0 && kernel.vm.pages.free != {}
    requires RoomAbove(task.mappings, vaddr, size) && UserProt(prot) && (flags == MAP_FILE || flags == MAP_ANONYMOUS)
    requires NothingMapped(kernel.Now(), task.pgd)
    modifies task`mappings, kernel`contents, kernel.vm`tables, kernel.vm`tree, kernel.heap, kernel.vm.pages`free,
        kernel.vm.pages`live, kernel.vm.pages.frameArray, kernel.vm.pages.ordersLists, kernel.heap.pools
    ensures kernel.Valid() && Keeps(old(kernel.Now()), old(View(task)), kernel.Now(), View(task))
    ensures NothingMapped(kernel.Now(), task.pgd) && |kernel.vm.pages.free| >= |old(kernel.vm.pages.free)| - 1
    ensures |task.mappings| == |old(task.mappings)| + 1 && task.mappings[..|old(task.mappings)|] == old(task.mappings)
    ensures task.mappings[|old(task.mappings)|].vaddr == vaddr
    ensures NewMapping(vaddr, size, prot, flags, fileData, task.mappings[|old(task.mappings)|])
  {
    hide kernel.Valid, Owned, Consistent, Keeps, NothingMapped, AlignToPte, LeafProt, UserProt, Wanted, NewChunk;
    hide InsertedMapping;
    hide WellPlaced, Populated, OthersKept, Grows, OutsidePages, AddressSpace, LowestFit, RequestPlaced, NoPage, Low;
    hide RequestedFrom, Fits, CanPopulate, RoomAbove, NewMapping;
    ghost var k, t := kernel.Now(), View(task);
    kernel.ValidConsistent();
    SpaceParts(k, t);
    FitsAbove(t.mappings, vaddr, size);
    RoomSize(t.mappings, vaddr, size);
    var mapping := AddMapping(kernel, task, vaddr, size, prot, flags, fileData);
    kernel.ValidConsistent();
    NewSize(vaddr, size, prot, flags, fileData, mapping.value);
    MappingLast(k, kernel.Now(), t, View(task), vaddr, size, mapping.value);
  }

  lemma RoomSize(ms: seq<Mapping>, vaddr: nat, size: nat)
    requires RoomAbove(ms, vaddr, size)
    ensures vaddr < WORD && 0 < size <= WORD - PTE_MEM_SIZE
  {
    hide AlignToPte;
  }

  lemma NewSize(vaddr: nat, size: nat, prot: nat, flags: nat, fileData: nat, m: Mapping)
    requires NewMapping(vaddr, size, prot, flags, fileData, m)
    ensures m.size == AlignToPte(size) && m.prot == prot
  {
    hide AlignToPte;
  }

  /** `virtual_memory_map` of the trampoline. */
  method MapTrampoline(kernel: KernelMemory, task: Task)
    requires kernel.Valid() && Owned(kernel.Now(), View(task)) && task.pgd != 0 && |kernel.vm.pages.free| >= 2
    requires NothingMapped(kernel.Now(), task.pgd)
    modifies kernel.vm`tables, kernel.vm`tree, kernel.vm.pages`free, kernel.vm.pages`live, kernel.vm.pages.frameArray,
        kernel.vm.pages.ordersLists
    ensures kernel.Valid() && Keeps(old(kernel.Now()), old(View(task)), kernel.Now(), View(task))
    ensures OnlyTrampoline(kernel.Now(), task.pgd)
  {
    hide kernel.Valid, Owned, Consistent, Keeps, NothingMapped, OnlyTrampoline, LeafProt, UserProt, UserRoot;
    hide MappedPage;
    ghost var k, t := kernel.Now(), View(task);
    kernel.ValidConsistent();
    OwnedRoot(k, t);
    UserProts();
    kernel.TrampolineBound();
    kernel.MapPage(task.pgd, SIGNAL_TRAMPOLINE_VADDR, 4096 * kernel.trampoline, PTE_USER_CODE_PROT);
    kernel.ValidConsistent();
    TrampolineKeeps(k, kernel.Now(), t);
  }

  /** `task_create_user_mappings`, in an empty address space. */
  method CreateUserMappings(kernel: KernelMemory, task: Task, fileData: nat, fileSize: nat)
    requires kernel.Valid() && Owned(kernel.Now(), View(task)) && task.pgd != 0 && task.mappings == []
    requires NothingMapped(kernel.Now(), task.pgd) && 0 < fileSize < 0x1_0000_0000 && |kernel.vm.pages.free| >= 5
    modifies task`mappings, task`signalSp, kernel`contents, kernel.vm`tables, kernel.vm`tree, kernel.heap,
        kernel.vm.pages`free, kernel.vm.pages`live, kernel.vm.pages.frameArray, kernel.vm.pages.ordersLists,
        kernel.heap.pools
    ensures kernel.Valid() && Keeps(old(kernel.Now()), old(View(task)), kernel.Now(), View(task))
    ensures UserMappings(task.mappings, fileData, fileSize) && OnlyTrampoline(kernel.Now(), task.pgd)
    ensures task.signalSp == SIGNAL_STACK_VADDR + SIGNAL_STACK_SIZE
  {
    hide kernel.Valid, Owned, Keeps, NothingMapped, OnlyTrampoline, LeafProt, UserProt, RoomAbove, NewMapping;
    hide UserMappings;
    ghost var k0, t0 := kernel.Now(), View(task);
    UserProts();
    CodeRoom(fileSize);
    AddLast(kernel, task, USER_CODE_VADDR, fileSize, PTE_USER_CODE_PROT, MAP_FILE, fileData);
    ghost var k1, t1 := kernel.Now(), View(task);
    KeptOwnedTask(k0, t0, k1, t1);
    StackRoom(t1.mappings, fileData, fileSize);
    AddLast(kernel, task, USER_STACK_VADDR, USER_STACK_SIZE, PTE_USER_ANON_PROT, MAP_ANONYMOUS, 0);
    ghost var k2, t2 := kernel.Now(), View(task);
    KeptOwnedTask(k1, t1, k2, t2);
    KeepsTwice(k0, t0, k1, t1, k2, t2);
    FirstOf(t1.mappings, t2.mappings);
    SignalRoom(t2.mappings, fileData, fileSize);
    AddLast(kernel, task, SIGNAL_STACK_VADDR, SIGNAL_STACK_SIZE, PTE_USER_ANON_PROT, MAP_ANONYMOUS, 0);
    ghost var k3, t3 := kernel.Now(), View(task);
    KeptOwnedTask(k2, t2, k3, t3);
    KeepsTwice(k0, t0, k2, t2, k3, t3);
    task.signalSp := SIGNAL_STACK_VADDR + SIGNAL_STACK_SIZE;
    MapTrampoline(kernel, task);
    KeepsTwice(k0, t0, k3, t3, kernel.Now(), View(task));
    FirstOf(t2.mappings, t3.mappings);
    AllThree(t3.mappings, fileData, fileSize);
  }

  lemma FirstOf(ms: seq<Mapping>, ms': seq<Mapping>)
    requires |ms| <= |ms'| && ms'[..|ms|] == ms
    ensures forall i :: 0 <= i < |ms| ==> ms'[i] == ms[i]
  {
  }

  /** The mappings that were asked for, and where they were asked for. */
  ghost predicate Code(m: Mapping, fileData: nat, fileSize: nat) {
    m.vaddr == USER_CODE_VADDR && NewMapping(USER_CODE_VADDR, fileSize, PTE_USER_CODE_PROT, MAP_FILE, fileData, m)
  }

  ghost predicate Stack(m: Mapping, vaddr: nat, size: nat) {
    m.vaddr == vaddr && NewMapping(vaddr, size, PTE_USER_ANON_PROT, MAP_ANONYMOUS, 0, m)
  }

  lemma CodeRoom(fileSize: nat)
    requires 0 < fileSize < 0x1_0000_0000
    ensures RoomAbove([], USER_CODE_VADDR, fileSize)
  {
    AlignedProgram(fileSize);
    hide AlignToPte;
  }

  lemma StackRoom(ms: seq<Mapping>, fileData: nat, fileSize: nat)
    requires |ms| == 1 && Code(ms[0], fileData, fileSize) && 0 < fileSize < 0x1_0000_0000
    ensures RoomAbove(ms, USER_STACK_VADDR, USER_STACK_SIZE)
  {
    AlignedProgram(fileSize);
    UserProts();
    hide AlignToPte;
  }

  lemma SignalRoom(ms: seq<Mapping>, fileData: nat, fileSize: nat)
    requires |ms| == 2 && Code(ms[0], fileData, fileSize) && Stack(ms[1], USER_STACK_VADDR, USER_STACK_SIZE)
    requires 0 < fileSize < 0x1_0000_0000
    ensures RoomAbove(ms, SIGNAL_STACK_VADDR, SIGNAL_STACK_SIZE)
  {
    AlignedProgram(fileSize);
    UserProts();
    hide AlignToPte;
  }

  lemma AllThree(ms: seq<Mapping>, fileData: nat, fileSize: nat)
    requires |ms| == 3 && Code(ms[0], fileData, fileSize) && Stack(ms[1], USER_STACK_VADDR, USER_STACK_SIZE)
    requires Stack(ms[2], SIGNAL_STACK_VADDR, SIGNAL_STACK_SIZE)
    ensures UserMappings(ms, fileData, fileSize)
  {
    UserProts();
    hide AlignToPte;
  }

  lemma KeptOwnedTask(k: Snapshot, t: TaskView, k': Snapshot, t': TaskView)
    requires Keeps(k, t, k', t')
    ensures Owned(k', t') && t' == TaskView(t.addr, t.pgd, t.stack, t'.mappings, t.signals)
  {
    hide Owned, RestOf, OthersKept, Grows;
  }

  /** The task has an address space of its own for a new program: cleared, and then filled. */
  ghost predicate Renewed(k: Snapshot, t: TaskView, k': Snapshot, t': TaskView) {
    exists k1, t1 :: Consistent(k1) && Cleared(k, t, k1, t1) && Keeps(k1, t1, k', t')
  }

  /** It owns what it has, the rest is as before, and so is every address space that shared no data page with its
      own. */
  lemma RenewedApart(k: Snapshot, t: TaskView, k': Snapshot, t': TaskView)
    requires Renewed(k, t, k', t')
    ensures Owned(k', t') && RestOf(k', t') == RestOf(k, t) && t'.pgd != 0 && (t.pgd != 0 ==> t'.pgd == t.pgd)
    ensures OthersApart(k, k', t.pgd, t'.pgd)
  {
    hide Owned, RestOf, AddressSpace, DataPages, SameSpace, Grows, BlocksStay, Consistent;
    var k1, t1 :| Consistent(k1) && Cleared(k, t, k1, t1) && Keeps(k1, t1, k', t');
    forall r, ms | r != t'.pgd && AddressSpace(k, r, ms) && DataPages(k, r) !! DataPages(k, t.pgd)
      ensures AddressSpace(k', r, ms) && SameSpace(k, k', r)
    {
      SameSpaceTwice(k, k1, k', r);
    }
  }

  /** What the user may do, by the address of the page: fetch and load in the program, load and store on the stacks. */
  lemma ProgramRights(ms: seq<Mapping>, fileData: nat, fileSize: nat, vaddr: nat, access: Access)
    requires UserMappings(ms, fileData, fileSize) && WellPlaced(ms)
    ensures 0x1_0000 <= vaddr < 0x1_0000 + AlignToPte(fileSize) ==> (Refused(ms, vaddr, access) <==> access == Store)
    ensures 0x30_0000_0000 <= vaddr < 0x30_0000_4000 || 0x38_0000_0000 <= vaddr < 0x38_0000_1000 ==>
      (Refused(ms, vaddr, access) <==> access == Fetch)
    ensures Refused(ms, vaddr, access) || 0x1_0000 <= vaddr < 0x1_0000 + AlignToPte(fileSize) ||
      0x30_0000_0000 <= vaddr < 0x30_0000_4000 || 0x38_0000_0000 <= vaddr < 0x38_0000_1000
  {
    UserServes(access);
    hide WellPlaced, Serves, AlignToPte;
    forall i | 0 <= i < 3 && Contains(ms[i], vaddr)
      ensures Refused(ms, vaddr, access) <==> !Serves(ms[i].prot, access, true)
    {
      assert ms[i] in ms;
      OnlyMapping(ms, ms[i], vaddr);
    }
  }

  lemma UserServes(access: Access)
    ensures Serves(PTE_USER_CODE_PROT, access, true) <==> access != Store
    ensures Serves(PTE_USER_ANON_PROT, access, true) <==> access != Fetch
  {
  }

  /** When a page of the program was faulted in, the user sees the bytes of the file, from 0x10000 on, and then
      zeros. */
  lemma ProgramBytes(k: Snapshot, k': Snapshot, t: TaskView, ramdisk: nat -> nat, access: Access, m: Mapping, p: nat,
      bytes: seq<nat>, fileData: nat, fileSize: nat, i: nat)
    requires UserMappings(t.mappings, fileData, fileSize) && WellPlaced(t.mappings) && Low(t.mappings)
    requires i < AlignToPte(fileSize)
    requires FaultServed(k, k', t, ramdisk, PageStartOf(0x1_0000 + i), access, m, p, bytes)
    ensures ByteAt(k', t.pgd, 0x1_0000 + i) == Some(if i < fileSize then ramdisk(fileData + i) else 0)
  {
    var addr := 0x1_0000 + i;
    AlignedSize0(fileSize);
    assert m == t.mappings[0] by {
      InProgram(t.mappings, fileSize, i);
      assert t.mappings[0] in t.mappings;
      OnlyMapping(t.mappings, t.mappings[0], PageStartOf(addr));
    }
    hide WellPlaced, Low, AlignToPte, Installed;
    ServedBytes(k, k', t, ramdisk, addr, access, m, p, bytes, addr);
  }

  lemma AlignedSize0(size: nat)
    ensures AlignToPte(size) % PTE_MEM_SIZE == 0
  {
  }

  lemma InProgram(ms: seq<Mapping>, fileSize: nat, i: nat)
    requires ms != [] && ms[0].vaddr == 0x1_0000 && ms[0].size == AlignToPte(fileSize) && i < AlignToPte(fileSize)
    ensures Contains(ms[0], PageStartOf(0x1_0000 + i))
  {
    AlignedSize0(fileSize);
    hide AlignToPte;
  }

  /** A file of the initial ramdisk: where its data is, and its size. */
  datatype Program = Program(data: nat, size: nat)

  /** `task_exec_user` with the file that the lookup finds. Without one nothing happens; otherwise the task runs the
      program in an address space that holds nothing but it. */
  method ExecUser(kernel: KernelMemory, task: Task, file: Option<Program>, leftover: seq<nat>) returns (failed: bool)
    requires kernel.Valid() && Owned(kernel.Now(), View(task)) && |kernel.vm.pages.free| >= 6
    requires file.Some? ==> 0 < file.value.size < 0x1_0000_0000
    requires task.pgd == 0 ==>
      |leftover| == PAGE_TABLE_ENTRIES_NUM && leftover[..USER_ENTRIES] == Zeros(USER_ENTRIES)
    modifies task`isUser, task`mappings, task`signals, task`signalSp, task`pgd, kernel`contents, kernel.vm`tables,
        kernel.vm`tree, kernel.heap, kernel.heap.pools, kernel.vm.pages`free, kernel.vm.pages`live,
        kernel.vm.pages`pending, kernel.vm.pages.frameArray, kernel.vm.pages.ordersLists
    ensures kernel.Valid() && (failed <==> file == None)
    ensures failed ==>
      kernel.Now() == old(kernel.Now()) && View(task) == old(View(task)) && task.isUser == old(task.isUser)
        && task.signalSp == old(task.signalSp)
    ensures !failed ==>
      && task.isUser && task.signals == [] && task.signalSp == SIGNAL_STACK_VADDR + SIGNAL_STACK_SIZE
      && UserMappings(task.mappings, file.value.data, file.value.size) && OnlyTrampoline(kernel.Now(), task.pgd)
      && Renewed(old(kernel.Now()), old(View(task)), kernel.Now(), View(task)) && KernelSeen(kernel.Now(), task.pgd)
  {
    hide kernel.Valid, Owned, Consistent, Cleared, Keeps, NothingMapped, OnlyTrampoline, UserMappings, KernelSeen;
    if file == None {
      return true;
    }
    task.isUser := true;
    ghost var k, t := kernel.Now(), View(task);
    SomeFree(kernel.vm.pages.free);
    ClearTask(kernel, task, leftover);
    ghost var k1, t1 := kernel.Now(), View(task);
    kernel.ValidConsistent();
    ClearedTask(k, t, k1, t1);
    CreateUserMappings(kernel, task, file.value.data, file.value.size);
    KeptOwnedTask(k1, t1, kernel.Now(), View(task));
    kernel.ValidConsistent();
    KernelInTask(kernel.Now(), View(task));
    failed := false;
  }

  lemma SomeFree(free: set<nat>)
    requires |free| >= 6
    ensures free != {}
  {
  }

  lemma ClearedTask(k: Snapshot, t: TaskView, k': Snapshot, t': TaskView)
    requires Cleared(k, t, k', t')
    ensures Owned(k', t') && t'.pgd != 0 && t'.mappings == [] && t'.signals == []
  {
    hide Owned, RestOf, OthersApart, BlocksStay;
  }
}
