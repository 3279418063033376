/** `task_copy` and `task_free`: what a task owns, from fork to exit. */
module TaskLife {
  import opened AllocatorRuns
  import opened Sv39
  import opened PageTree
  import opened Traversal
  import opened Teardown
  import opened Roots
  import opened TaskMappings
  import opened AddressSpaces
  import opened Ownership
  import opened KernelMemory
  import opened TaskCopies

  datatype TaskView = TaskView(addr: nat, pgd: nat, stack: nat, mappings: seq<Mapping>, signals: seq<Signal>)

  ghost function View(task: Task): TaskView
    reads task
  {
    TaskView(task.addr, task.pgd, task.kernelStackAddr, task.mappings, task.signals)
  }

  function SignalNodes(ss: seq<Signal>): set<nat> {
    set s | s in ss :: s.node
  }

  ghost predicate DistinctSignals(ss: seq<Signal>) {
    forall i, j :: 0 <= i < j < |ss| ==> ss[i].node != ss[j].node
  }

  /** The small blocks of a task. */
  function ChunksOf(t: TaskView): set<nat> {
    {t.addr} + NodesOf(t.mappings) + SignalNodes(t.signals)
  }

  /** The structure, the mappings and the signals of the task are different live chunks. */
  ghost predicate OwnsChunks(k: Snapshot, t: TaskView) {
    && DistinctNodes(t.mappings) && DistinctSignals(t.signals)
    && NodesOf(t.mappings) !! SignalNodes(t.signals) && t.addr !in NodesOf(t.mappings) + SignalNodes(t.signals)
    && ChunksOf(t) <= k.heap.chunks.Keys
  }

  /** The kernel stack and the root are live large blocks. */
  ghost predicate OwnsBlocks(k: Snapshot, t: TaskView) {
    && LiveBlock(k, t.stack, KERNEL_STACK_ORDER) && PageAt(k, t.stack) in k.heap.large && t.stack !in k.space.tables
    && (t.pgd != 0 ==> LiveBlock(k, t.pgd, 0) && PageAt(k, t.pgd) in k.heap.large && t.pgd != t.stack)
  }

  /** All that a task owns is in order; a kernel thread has no address space. */
  ghost predicate Owned(k: Snapshot, t: TaskView) {
    && WellPlaced(t.mappings) && Low(t.mappings) && OwnsChunks(k, t) && OwnsBlocks(k, t)
    && if t.pgd == 0 then t.mappings == [] else AddressSpace(k, t.pgd, t.mappings)
  }

  /** What of the memory is not the task's: live pages outside the pools, large blocks, and live chunks. */
  datatype Rest = Rest(pages: set<int>, large: set<nat>, chunks: set<nat>)

  ghost function RestOf(k: Snapshot, t: TaskView): Rest {
    Rest(OutsidePages(k, t.pgd) - {PageAt(k, t.pgd), PageAt(k, t.stack)},
      (set p | p in k.heap.large && p != PageAt(k, t.pgd) && p != PageAt(k, t.stack)),
      k.heap.chunks.Keys - ChunksOf(t))
  }

  /** The same, when there is no such task. */
  ghost function Everything(k: Snapshot): Rest {
    Rest((set p | p in k.pages.live && p !in k.heap.pools), k.heap.large, k.heap.chunks.Keys)
  }

  ghost function DataBelow(k: Snapshot, root: nat, limit: nat): set<int> {
    set n | 0 <= n < limit && HasData(k, root, n) :: DataAt(k, root, n)
  }

  /** While an address space is freed: its data pages below `limit` are gone, and some chunks. */
  ghost predicate FreedUpTo(k0: Snapshot, k: Snapshot, root: nat, limit: nat) {
    && k == Update(k0, k0.space, Heap(k0.heap.pools, k0.heap.large, k.heap.chunks), k.pages, k0.contents)
    && (forall p :: p in k.pages.live <==> p in k0.pages.live && p !in DataBelow(k0, root, limit))
    && (forall p :: p in k.pages.live ==> k.pages.live[p] == k0.pages.live[p])
    && k0.pages.free <= k.pages.free
  }

  lemma FreedUpToStart(k: Snapshot, root: nat)
    ensures FreedUpTo(k, k, root, 0)
  {
    hide HasData, DataAt;
  }

  lemma FreedRaise(k0: Snapshot, k: Snapshot, root: nat, limit: nat, limit': nat)
    requires FreedUpTo(k0, k, root, limit) && limit <= limit' && NoData(k0, root, limit, limit')
    ensures FreedUpTo(k0, k, root, limit')
  {
    hide HasData, DataAt;
    assert DataBelow(k0, root, limit') == DataBelow(k0, root, limit);
  }

  /** The data page that is next can be freed, and is then gone. */
  lemma NextData(k0: Snapshot, k: Snapshot, root: nat, ms: seq<Mapping>, limit: nat, n: nat)
    requires FreedUpTo(k0, k, root, limit) && AddressSpace(k0, root, ms) && limit <= n && HasData(k0, root, n)
    ensures DataPage(k, DataAt(k0, root, n))
  {
    hide LeafOf, UserRoot, DataAt;
    DataPagesLive(k0, root, ms);
    forall m: nat | m < limit && HasData(k0, root, m) ensures DataAt(k0, root, m) != DataAt(k0, root, n) {
    }
  }

  lemma FreedStep(k0: Snapshot, k1: Snapshot, k2: Snapshot, root: nat, limit: nat, n: nat)
    requires FreedUpTo(k0, k1, root, limit) && limit <= n && HasData(k0, root, n) && NoData(k0, root, limit, n)
    requires GavePage(k1, k2, DataAt(k0, root, n))
    ensures FreedUpTo(k0, k2, root, n + 1)
  {
    hide LeafOf, DataAt, HasData;
    assert DataBelow(k0, root, n + 1) == DataBelow(k0, root, limit) + {DataAt(k0, root, n)};
  }

  lemma FreedChunk(k0: Snapshot, k1: Snapshot, k2: Snapshot, root: nat, limit: nat, addr: nat)
    requires FreedUpTo(k0, k1, root, limit) && ChunkGone(k1, k2, addr)
    ensures FreedUpTo(k0, k2, root, limit)
  {
    hide DataBelow;
  }

  /** `_free_one_page`. */
  method FreeOnePage(kernel: KernelMemory, v: Visit, ghost p: nat)
    requires kernel.Valid() && DataPage(kernel.Now(), p) && Ppn(v.pte) == PpnOf(kernel.Now(), p)
    modifies kernel.vm.pages`free, kernel.vm.pages`live, kernel.vm.pages`pending, kernel.vm.pages.frameArray,
        kernel.vm.pages.ordersLists
    ensures kernel.Valid() && GavePage(old(kernel.Now()), kernel.Now(), p)
  {
    hide kernel.Valid, Ppn;
    var srcPage := VaddrFromPte(kernel.vm.offset, v.pte);
    kernel.DataAddress(v.pte, p);
    kernel.FreePage(srcPage);
  }

  /** `virtual_memory_traverse_leafs` of one mapping with `_free_one_page` as its visitor. */
  method FreePagesOf(kernel: KernelMemory, pgd: nat, current: Mapping, ghost ms: seq<Mapping>, ghost k0: Snapshot)
    requires kernel.Valid() && AddressSpace(k0, pgd, ms) && WellPlaced(ms) && Low(ms) && current in ms
    requires FreedUpTo(k0, kernel.Now(), pgd, current.vaddr / 4096)
    modifies kernel.vm.pages`free, kernel.vm.pages`live, kernel.vm.pages`pending, kernel.vm.pages.frameArray,
        kernel.vm.pages.ordersLists
    ensures kernel.Valid() && FreedUpTo(k0, kernel.Now(), pgd, (current.vaddr + current.size) / 4096)
    ensures kernel.heap.chunks == old(kernel.heap.chunks)
  {
    hide kernel.Valid, FreedUpTo, LeafOf, DataAt, Exact, VisitsInside, WellPlaced, Low, AddressSpace, UserRoot;
    hide GavePage, NoData, HasData;
    FreeRange(k0, kernel.Now(), pgd, ms, current);
    var visits := kernel.Traverse(pgd, current.vaddr, current.vaddr + current.size);
    AllInside(k0, pgd, ms, current, visits);
    for j := 0 to |visits|
      invariant kernel.Valid() && FreedUpTo(k0, kernel.Now(), pgd, Passed(visits, j, current.vaddr / 4096))
      invariant kernel.heap.chunks == old(kernel.heap.chunks)
    {
      ghost var k1, limit := kernel.Now(), Passed(visits, j, current.vaddr / 4096);
      NextFreed(k0, k1, pgd, ms, current, visits, j);
      FreeOnePage(kernel, visits[j], DataAt(k0, pgd, visits[j].page));
      FreedStep(k0, k1, kernel.Now(), pgd, limit, visits[j].page);
    }
    NoneBetweenVisits(k0, pgd, ms, current, visits, |visits|);
    PassedEnd(visits, current);
    FreedRaise(k0, kernel.Now(), pgd, Passed(visits, |visits|, current.vaddr / 4096),
        (current.vaddr + current.size) / 4096);
  }

  lemma FreeRange(k0: Snapshot, k: Snapshot, pgd: nat, ms: seq<Mapping>, m: Mapping)
    requires AddressSpace(k0, pgd, ms) && Low(ms) && m in ms && FreedUpTo(k0, k, pgd, m.vaddr / 4096)
    ensures UserRoot(k.space.tree, pgd) && m.vaddr + m.size <= 4096 * USER_PAGES
    ensures k.space == k0.space && k.offset == k0.offset
  {
    hide UserRoot, LeafProt, PageFine, NotShared, DataBelow;
  }

  lemma NextFreed(k0: Snapshot, k: Snapshot, pgd: nat, ms: seq<Mapping>, m: Mapping, visits: seq<Visit>, j: nat)
    requires j < |visits| && AddressSpace(k0, pgd, ms) && WellPlaced(ms) && Low(ms) && m in ms
    requires Exact(k0.space.tables, k0.offset, pgd, 0, 0x800_0000, m.vaddr, m.vaddr + m.size, visits)
    requires VisitsInside(visits, m)
    requires FreedUpTo(k0, k, pgd, Passed(visits, j, m.vaddr / 4096))
    ensures HasData(k0, pgd, visits[j].page) && DataPage(k, DataAt(k0, pgd, visits[j].page))
    ensures NoData(k0, pgd, Passed(visits, j, m.vaddr / 4096), visits[j].page)
    ensures Passed(visits, j, m.vaddr / 4096) <= visits[j].page
    ensures Ppn(visits[j].pte) == PpnOf(k, DataAt(k0, pgd, visits[j].page))
  {
    hide AddressSpace, Lookup, EveryLeaf, LeafProt, WellPlaced, Ppn, NoData, DataBelow;
    VisitIsData(k0, pgd, ms, m, visits[j]);
    NoneBetweenVisits(k0, pgd, ms, m, visits, j);
    NextData(k0, k, pgd, ms, Passed(visits, j, m.vaddr / 4096), visits[j].page);
  }

  lemma PassedEnd(visits: seq<Visit>, m: Mapping)
    requires VisitsInside(visits, m)
    ensures Passed(visits, |visits|, m.vaddr / 4096) <= (m.vaddr + m.size) / 4096
  {
  }

  /** `task_free_mappings`. */
  method FreeMappings(kernel: KernelMemory, task: Task)
    requires kernel.Valid() && WellPlaced(task.mappings) && Low(task.mappings)
    requires task.mappings != [] ==> AddressSpace(kernel.Now(), task.pgd, task.mappings)
    requires DistinctNodes(task.mappings) && NodesOf(task.mappings) <= kernel.heap.chunks.Keys
    modifies kernel.heap`large, kernel.heap`chunks, kernel.heap.pools, kernel.vm.pages`free, kernel.vm.pages`live,
        kernel.vm.pages`pending, kernel.vm.pages.frameArray, kernel.vm.pages.ordersLists
    ensures kernel.Valid()
    ensures FreedUpTo(old(kernel.Now()), kernel.Now(), task.pgd, if task.mappings == [] then 0 else USER_PAGES)
    ensures kernel.heap.chunks.Keys == old(kernel.heap.chunks).Keys - NodesOf(task.mappings)
  {
    hide kernel.Valid, FreedUpTo, LeafOf, DataAt, WellPlaced, Low, AddressSpace, UserRoot, NoData, HasData;
    hide DistinctNodes, ChunkGone, NodesOf;
    ghost var k0, ms := kernel.Now(), task.mappings;
    FreedUpToStart(k0, task.pgd);
    FirstNodes(ms, 0);
    var current := 0;
    while current < |task.mappings|
      invariant 0 <= current <= |task.mappings| && task.mappings == ms
      invariant kernel.Valid() && FreedUpTo(k0, kernel.Now(), task.pgd, EndBefore(ms, current))
      invariant kernel.heap.chunks.Keys == old(kernel.heap.chunks).Keys - NodesOf(ms[..current])
    {
      var m := task.mappings[current];
      NoDataBetween(k0, task.pgd, ms, current);
      FreedRaise(k0, kernel.Now(), task.pgd, EndBefore(ms, current), m.vaddr / 4096);
      FreePagesOf(kernel, task.pgd, m, ms, k0);
      FirstNodes(ms, current);
      ghost var k1 := kernel.Now();
      kernel.FreeChunk(m.node);
      FreedChunk(k0, k1, kernel.Now(), task.pgd, EndBefore(ms, current + 1), m.node);
      ChunkLeft(k1, kernel.Now(), m.node);
      current := current + 1;
    }
    if ms != [] {
      NoDataBetween(k0, task.pgd, ms, |ms|);
      LastEnd(ms);
      FreedRaise(k0, kernel.Now(), task.pgd, EndBefore(ms, |ms|), USER_PAGES);
    }
    assert ms[..|ms|] == ms;
  }

  lemma LastEnd(ms: seq<Mapping>)
    requires Low(ms)
    ensures EndBefore(ms, |ms|) <= USER_PAGES
  {
    hide LeafProt;
  }

  lemma ChunkLeft(k: Snapshot, k': Snapshot, addr: nat)
    requires ChunkGone(k, k', addr)
    ensures k'.heap.chunks.Keys == k.heap.chunks.Keys - {addr}
  {
  }

  /** The nodes of the mappings before number `i`, and that one. */
  lemma FirstNodes(ms: seq<Mapping>, i: nat)
    requires DistinctNodes(ms) && i <= |ms|
    ensures NodesOf(ms[..0]) == {}
    ensures i < |ms| ==>
      NodesOf(ms[..i + 1]) == NodesOf(ms[..i]) + {ms[i].node} && ms[i].node !in NodesOf(ms[..i]) &&
        ms[i].node in NodesOf(ms)
  {
    if i < |ms| {
      assert ms[..i + 1] == ms[..i] + [ms[i]];
      assert ms[i] in ms;
    }
  }

  /** `task_free_signals`. */
  method FreeSignals(kernel: KernelMemory, task: Task)
    requires kernel.Valid() && DistinctSignals(task.signals) && SignalNodes(task.signals) <= kernel.heap.chunks.Keys
    modifies kernel.heap`large, kernel.heap`chunks, kernel.heap.pools, kernel.vm.pages`free, kernel.vm.pages`live,
        kernel.vm.pages`pending, kernel.vm.pages.frameArray, kernel.vm.pages.ordersLists
    ensures kernel.Valid() && OnlyChunks(old(kernel.Now()), kernel.Now())
    ensures kernel.heap.chunks.Keys == old(kernel.heap.chunks).Keys - SignalNodes(task.signals)
  {
    hide kernel.Valid, DistinctSignals, SignalNodes, ChunkGone;
    ghost var ss := task.signals;
    FirstSignals(ss, 0);
    var current := 0;
    while current < |task.signals|
      invariant 0 <= current <= |task.signals| && task.signals == ss
      invariant kernel.Valid() && OnlyChunks(old(kernel.Now()), kernel.Now())
      invariant kernel.heap.chunks.Keys == old(kernel.heap.chunks).Keys - SignalNodes(ss[..current])
    {
      FirstSignals(ss, current);
      ghost var k1 := kernel.Now();
      kernel.FreeChunk(task.signals[current].node);
      ChunkLeft(k1, kernel.Now(), ss[current].node);
      OnlyChunksStep(old(kernel.Now()), k1, kernel.Now(), ss[current].node);
      current := current + 1;
    }
    assert ss[..|ss|] == ss;
  }

  /** Nothing but chunks changed. */
  ghost predicate OnlyChunks(k: Snapshot, k': Snapshot) {
    k' == Update(k, k.space, Heap(k.heap.pools, k.heap.large, k'.heap.chunks), k.pages, k.contents)
  }

  lemma OnlyChunksStep(k: Snapshot, k1: Snapshot, k2: Snapshot, addr: nat)
    requires OnlyChunks(k, k1) && ChunkGone(k1, k2, addr)
    ensures OnlyChunks(k, k2)
  {
  }

  lemma FirstSignals(ss: seq<Signal>, i: nat)
    requires DistinctSignals(ss) && i <= |ss|
    ensures SignalNodes(ss[..0]) == {}
    ensures i < |ss| ==>
      SignalNodes(ss[..i + 1]) == SignalNodes(ss[..i]) + {ss[i].node} && ss[i].node !in SignalNodes(ss[..i]) &&
        ss[i].node in SignalNodes(ss)
  {
    if i < |ss| {
      assert ss[..i + 1] == ss[..i] + [ss[i]];
      assert ss[i] in ss;
    }
  }

  /** Exactly these live pages, large blocks and chunks are gone since `k0`. */
  ghost predicate Left(k0: Snapshot, k: Snapshot, gone: set<int>, blocks: set<int>, chunks: set<nat>) {
    && k.base == k0.base && k.heap.pools == k0.heap.pools
    && (forall p :: p in k.pages.live <==> p in k0.pages.live && p !in gone)
    && (forall p :: p in k.pages.live ==> k.pages.live[p] == k0.pages.live[p])
    && (forall p :: p in k.heap.large <==> p in k0.heap.large && p !in blocks)
    && k.heap.chunks.Keys == k0.heap.chunks.Keys - chunks
  }

  lemma LeftTwice(k0: Snapshot, k1: Snapshot, k2: Snapshot, gone: set<int>, blocks: set<int>, chunks: set<nat>,
      gone': set<int>, blocks': set<int>, chunks': set<nat>)
    requires Left(k0, k1, gone, blocks, chunks) && Left(k1, k2, gone', blocks', chunks')
    ensures Left(k0, k2, gone + gone', blocks + blocks', chunks + chunks')
  {
  }

  lemma BlockLeft(k: Snapshot, k': Snapshot, addr: nat)
    requires BlockGone(k, k', addr)
    ensures Left(k, k', {PageAt(k, addr)}, {PageAt(k, addr)}, {}) && k'.space == k.space
  {
  }

  lemma DataLeft(k: Snapshot, k': Snapshot, root: nat, chunks: set<nat>)
    requires FreedUpTo(k, k', root, USER_PAGES) && k'.heap.chunks.Keys == k.heap.chunks.Keys - chunks
    ensures Left(k, k', DataPages(k, root), {}, chunks) && k'.space == k.space
  {
    hide HasData, DataAt;
    assert DataBelow(k, root, USER_PAGES) == DataPages(k, root);
  }

  lemma TablesLeft(k: Snapshot, k1: Snapshot, k2: Snapshot, root: nat)
    requires TablesGone(k, k1, root) && RootGone(k1, k2, root)
    ensures Left(k, k2, TablePages(k, root), {}, {})
  {
    hide TablesOf, SameTables, Without;
  }

  /** Freeing the kernel stack leaves address spaces alone. */
  lemma StackKeeps(k: Snapshot, k': Snapshot, t: TaskView)
    requires Owned(k, t) && BlockGone(k, k', t.stack)
    ensures DataPages(k', t.pgd) == DataPages(k, t.pgd) && TablePages(k', t.pgd) == TablePages(k, t.pgd)
    ensures t.pgd != 0 ==> AddressSpace(k', t.pgd, t.mappings)
    ensures t.mappings != [] ==> t.pgd != 0
  {
    hide AddressSpace, DataPages, TablePages, WellPlaced, Low, OwnsChunks;
    forall q | DataPage(k, q) ensures DataPage(k', q) {
    }
    KeptOwned(k, k', t.pgd);
    if t.pgd != 0 { KeptSpace(k, k', t.pgd, t.mappings); }
  }

  /** Without mappings there are no data pages, and without a root no tables. */
  lemma NothingOwned(k: Snapshot, t: TaskView)
    requires Owned(k, t) && Consistent(k)
    ensures t.mappings == [] ==> DataPages(k, t.pgd) == {}
    ensures t.pgd == 0 ==> TablePages(k, t.pgd) == {}
    ensures k.base > 0
  {
    hide DataPage, UserRoot, OwnsChunks, OwnsBlocks, WellPlaced, Low, NotShared;
    if t.pgd == 0 {
      NoTablesYet(k.space.tree, k.space.tables, k.offset, 0);
      NoPlaces(k, 0);
    } else if t.mappings == [] {
      forall n: nat ensures !HasData(k, t.pgd, n) {
        if n < USER_PAGES { assert PageFine(k, t.pgd, [], n); }
      }
    }
  }

  lemma NoPlaces(k: Snapshot, root: nat)
    requires Consistent(k) && root !in k.space.tables && forall p :: p in k.space.tree.at ==> p.root != root
    ensures TablesOf(k.space.tree, root) == {}
  {
    hide EntriesOk, AllPointedTo, Pointable, TablesBacked, HeapBacked;
  }

  /** The root is a block of its own: not a data page, a table below it, or the kernel stack. */
  lemma RootApart(k: Snapshot, t: TaskView)
    requires Owned(k, t) && Consistent(k) && t.pgd != 0
    ensures PageAt(k, t.pgd) !in DataPages(k, t.pgd) && PageAt(k, t.pgd) !in TablePages(k, t.pgd)
    ensures PageAt(k, t.pgd) != PageAt(k, t.stack)
  {
    hide OwnsChunks, WellPlaced, Low, LeafOf, DataAt, Wellformed;
    DataPagesLive(k, t.pgd, t.mappings);
    hide AddressSpace;
    RootInTables(k, t.pgd, t.mappings);
    forall x | x in TablesOf(k.space.tree, t.pgd) ensures PageAt(k, x) !in k.heap.large {
    }
  }

  lemma RootInTables(k: Snapshot, root: nat, ms: seq<Mapping>)
    requires AddressSpace(k, root, ms) && Consistent(k)
    ensures root in k.space.tables && k.space.tree.place[root] == RootPlace(root) && root != k.kernelPgd
  {
    hide LeafOf, PageFine, NotShared;
    RootPlaced(k.space.tree, k.space.tables, k.offset, root);
    hide Wellformed;
  }

  /** When all of a task is gone, what is left is what was not the task's. */
  lemma OnlyRestLeft(k: Snapshot, k': Snapshot, t: TaskView)
    requires Left(k, k', {PageAt(k, t.stack)} + DataPages(k, t.pgd) + TablePages(k, t.pgd) + {PageAt(k, t.pgd)},
      {PageAt(k, t.stack), PageAt(k, t.pgd)}, NodesOf(t.mappings) + SignalNodes(t.signals) + {t.addr})
    ensures Everything(k') == RestOf(k, t)
  {
    hide DataPages, TablePages, PageAt, NodesOf, SignalNodes;
  }

  /** The last steps of `task_free` for an address space: its tables, then its root. */
  method FreeSpace(kernel: KernelMemory, pgd: nat)
    requires kernel.Valid() && UserRoot(kernel.vm.tree, pgd) && LiveBlock(kernel.Now(), pgd, 0)
    requires PageAt(kernel.Now(), pgd) in kernel.heap.large
    requires PageAt(kernel.Now(), pgd) !in TablePages(kernel.Now(), pgd)
    modifies kernel.vm`tables, kernel.vm`tree, kernel.heap`large, kernel.heap`chunks, kernel.heap.pools,
        kernel.vm.pages`free, kernel.vm.pages`live, kernel.vm.pages`pending, kernel.vm.pages.frameArray,
        kernel.vm.pages.ordersLists
    ensures kernel.Valid()
    ensures Left(old(kernel.Now()), kernel.Now(), TablePages(old(kernel.Now()), pgd) + {PageAt(old(kernel.Now()), pgd)},
        {PageAt(old(kernel.Now()), pgd)}, {})
    ensures SpaceGone(old(kernel.Now()), kernel.Now(), pgd)
  {
    hide kernel.Valid, SpaceGone, Left, TablesGone, RootGone, BlockGone, TablePages, UserRoot, TablesOf, Consistent;
    ghost var k0 := kernel.Now();
    kernel.ValidConsistent();
    kernel.FreeUserTables(pgd);
    ghost var k1 := kernel.Now();
    kernel.ForgetRoot(pgd);
    ghost var k2 := kernel.Now();
    TablesLeft(k0, k1, k2, pgd);
    RootStillLive(k0, k1, k2, pgd);
    kernel.FreeBlock(pgd, 0);
    RootLeft(k0, k2, kernel.Now(), pgd);
    SpaceGoneBy(k0, k1, k2, kernel.Now(), pgd);
  }

  /** An address space is gone, and the tables of the others are as before. */
  ghost predicate SpaceGone(k: Snapshot, k': Snapshot, pgd: nat) {
    && SameSetting(k, k') && KeepsPlaces(k'.space.tree, k.space.tree) && OtherTables(k, k', pgd)
    && forall r :: r != pgd ==>
      SameTables(k'.space.tree, k.space.tables, k'.space.tables, r) &&
        (UserRoot(k.space.tree, r) ==> UserRoot(k'.space.tree, r))
  }

  predicate SameSetting(k: Snapshot, k': Snapshot) {
    k'.base == k.base && k'.offset == k.offset && k'.kernelPgd == k.kernelPgd && k'.trampoline == k.trampoline &&
      k'.contents == k.contents
  }

  lemma SpaceGoneBy(k0: Snapshot, k1: Snapshot, k2: Snapshot, k3: Snapshot, pgd: nat)
    requires TablesGone(k0, k1, pgd) && RootGone(k1, k2, pgd) && BlockGone(k2, k3, pgd) && Consistent(k0)
    requires UserRoot(k0.space.tree, pgd)
    ensures SpaceGone(k0, k3, pgd)
  {
    hide Consistent, Releases, UserRoot, SameTables, Without, TablesOf;
    RootPlaceOf(k0, pgd);
    PlacesKept(k0.space.tree, TablesOf(k0.space.tree, pgd));
    PlacesKept(k1.space.tree, {pgd});
    OtherTablesStay(k0.space.tree, pgd);
    forall r: nat | r != pgd
      ensures SameTables(k3.space.tree, k0.space.tables, k3.space.tables, r)
      ensures UserRoot(k0.space.tree, r) ==> UserRoot(k3.space.tree, r)
    {
      TablesStay(k0, k1, k3, pgd, r);
      if UserRoot(k0.space.tree, r) {
        RootPlaceOf(k0, r);
        RootStays(k0.space.tree, pgd, r);
      }
    }
  }

  lemma OtherTablesStay(tree: Tree, pgd: nat)
    requires pgd in tree.place && tree.place[pgd] == RootPlace(pgd)
    ensures forall r: nat :: r != pgd ==>
      TablesOf(Without(Without(tree, TablesOf(tree, pgd)), {pgd}), r) == TablesOf(tree, r)
  {
  }

  lemma PlacesKept(tree: Tree, gone: set<nat>)
    ensures KeepsPlaces(Without(tree, gone), tree)
  {
  }

  lemma TablesStay(k0: Snapshot, k1: Snapshot, k3: Snapshot, pgd: nat, r: nat)
    requires SameTables(k1.space.tree, k0.space.tables, k1.space.tables, r)
    requires k3.space == Space(Without(k1.space.tree, {pgd}), k1.space.tables - {pgd})
    ensures SameTables(k3.space.tree, k0.space.tables, k3.space.tables, r)
  {
  }

  lemma RootStays(tree: Tree, pgd: nat, r: nat)
    requires UserRoot(tree, r) && r in tree.place && tree.place[r] == RootPlace(r) && r != pgd
    ensures UserRoot(Without(Without(tree, TablesOf(tree, pgd)), {pgd}), r)
  {
  }

  lemma RootPlaceOf(k: Snapshot, r: nat)
    requires Consistent(k) && UserRoot(k.space.tree, r)
    ensures r in k.space.tree.place && k.space.tree.place[r] == RootPlace(r)
  {
    RootPlaced(k.space.tree, k.space.tables, k.offset, r);
    hide Wellformed;
  }

  lemma RootLeft(k0: Snapshot, k2: Snapshot, k3: Snapshot, pgd: nat)
    requires Left(k0, k2, TablePages(k0, pgd), {}, {}) && BlockGone(k2, k3, pgd)
    ensures Left(k0, k3, TablePages(k0, pgd) + {PageAt(k0, pgd)}, {PageAt(k0, pgd)}, {})
  {
    hide TablePages;
  }

  lemma RootStillLive(k0: Snapshot, k1: Snapshot, k2: Snapshot, pgd: nat)
    requires TablesGone(k0, k1, pgd) && RootGone(k1, k2, pgd) && Left(k0, k2, TablePages(k0, pgd), {}, {})
    requires LiveBlock(k0, pgd, 0) && PageAt(k0, pgd) in k0.heap.large && PageAt(k0, pgd) !in TablePages(k0, pgd)
    ensures LiveBlock(k2, pgd, 0) && PageAt(k2, pgd) in k2.heap.large && pgd !in k2.space.tables && k2.base == k0.base
  {
    hide TablesOf, SameTables, Without, TablePages;
  }

  lemma OwnedParts(k: Snapshot, t: TaskView)
    requires Owned(k, t)
    ensures WellPlaced(t.mappings) && Low(t.mappings) && DistinctNodes(t.mappings) && DistinctSignals(t.signals)
    ensures NodesOf(t.mappings) <= k.heap.chunks.Keys && SignalNodes(t.signals) <= k.heap.chunks.Keys
    ensures t.addr in k.heap.chunks
    ensures NodesOf(t.mappings) !! SignalNodes(t.signals) && t.addr !in NodesOf(t.mappings) + SignalNodes(t.signals)
    ensures LiveBlock(k, t.stack, KERNEL_STACK_ORDER) && PageAt(k, t.stack) in k.heap.large
    ensures t.stack !in k.space.tables
  {
    hide WellPlaced, Low, AddressSpace, NodesOf, SignalNodes, DistinctNodes, DistinctSignals, LiveBlock;
  }

  lemma MappingsLeft(k0: Snapshot, k1: Snapshot, k2: Snapshot, t: TaskView)
    requires BlockGone(k0, k1, t.stack) && DataPages(k1, t.pgd) == DataPages(k0, t.pgd)
    requires t.mappings == [] ==> DataPages(k0, t.pgd) == {}
    requires FreedUpTo(k1, k2, t.pgd, if t.mappings == [] then 0 else USER_PAGES)
    requires k2.heap.chunks.Keys == k1.heap.chunks.Keys - NodesOf(t.mappings)
    ensures Left(k0, k2, {PageAt(k0, t.stack)} + DataPages(k0, t.pgd), {PageAt(k0, t.stack)}, NodesOf(t.mappings))
    ensures k2.space == k0.space
    ensures SameSetting(k0, k2)
  {
    hide Left, DataPages, NodesOf;
    BlockLeft(k0, k1, t.stack);
    if t.mappings == [] {
      NoDataLeft(k1, k2, t.pgd, NodesOf(t.mappings));
      LeftTwice(k0, k1, k2, {PageAt(k0, t.stack)}, {PageAt(k0, t.stack)}, {}, {}, {}, NodesOf(t.mappings));
    } else {
      DataLeft(k1, k2, t.pgd, NodesOf(t.mappings));
      LeftTwice(k0, k1, k2, {PageAt(k0, t.stack)}, {PageAt(k0, t.stack)}, {}, DataPages(k1, t.pgd), {},
          NodesOf(t.mappings));
    }
    hide BlockGone, FreedUpTo;
    assert {PageAt(k0, t.stack)} + {} == {PageAt(k0, t.stack)} && {} + NodesOf(t.mappings) == NodesOf(t.mappings);
  }

  lemma NoDataLeft(k: Snapshot, k': Snapshot, root: nat, chunks: set<nat>)
    requires FreedUpTo(k, k', root, 0) && k'.heap.chunks.Keys == k.heap.chunks.Keys - chunks
    ensures Left(k, k', {}, {}, chunks) && k'.space == k.space
  {
    hide HasData, DataAt;
    assert DataBelow(k, root, 0) == {};
  }

  lemma SignalsLeft(k0: Snapshot, k2: Snapshot, k3: Snapshot, t: TaskView)
    requires Left(k0, k2, {PageAt(k0, t.stack)} + DataPages(k0, t.pgd), {PageAt(k0, t.stack)}, NodesOf(t.mappings))
    requires k2.space == k0.space
    requires SameSetting(k0, k2) && OnlyChunks(k2, k3)
    requires k3.heap.chunks.Keys == k2.heap.chunks.Keys - SignalNodes(t.signals)
    ensures Left(k0, k3, {PageAt(k0, t.stack)} + DataPages(k0, t.pgd), {PageAt(k0, t.stack)},
        NodesOf(t.mappings) + SignalNodes(t.signals))
    ensures k3.space == k0.space
    ensures SameSetting(k0, k3)
  {
    hide DataPages, NodesOf, SignalNodes, PageAt;
  }

  lemma SpaceLeft(k0: Snapshot, k3: Snapshot, t: TaskView)
    requires Left(k0, k3, {PageAt(k0, t.stack)} + DataPages(k0, t.pgd), {PageAt(k0, t.stack)},
        NodesOf(t.mappings) + SignalNodes(t.signals))
    requires k3.space == k0.space
    requires PageAt(k0, t.pgd) !in DataPages(k0, t.pgd) && PageAt(k0, t.pgd) !in TablePages(k0, t.pgd)
    requires PageAt(k0, t.pgd) != PageAt(k0, t.stack)
    requires Owned(k0, t) && t.pgd != 0
    ensures UserRoot(k3.space.tree, t.pgd) && LiveBlock(k3, t.pgd, 0) && PageAt(k3, t.pgd) in k3.heap.large
    ensures PageAt(k3, t.pgd) == PageAt(k0, t.pgd) && TablePages(k3, t.pgd) == TablePages(k0, t.pgd)
    ensures PageAt(k3, t.pgd) !in TablePages(k3, t.pgd)
  {
    hide DataPages, TablePages, NodesOf, SignalNodes, WellPlaced, Low, OwnsChunks, UserRoot, PageFine, NotShared;
    SameTablePages(k0, k3, t.pgd);
  }

  lemma SpaceFreed(k0: Snapshot, k3: Snapshot, k4: Snapshot, t: TaskView)
    requires Left(k0, k3, {PageAt(k0, t.stack)} + DataPages(k0, t.pgd), {PageAt(k0, t.stack)},
        NodesOf(t.mappings) + SignalNodes(t.signals))
    requires t.pgd == 0 ==> k4 == k3 && TablePages(k0, t.pgd) == {} && k0.base > 0
    requires t.pgd != 0 ==> Left(k3, k4, TablePages(k0, t.pgd) + {PageAt(k0, t.pgd)}, {PageAt(k0, t.pgd)}, {})
    requires t.addr in k0.heap.chunks && t.addr !in NodesOf(t.mappings) + SignalNodes(t.signals)
    ensures t.addr in k4.heap.chunks
    ensures Left(k0, k4, {PageAt(k0, t.stack)} + DataPages(k0, t.pgd) + TablePages(k0, t.pgd) + {PageAt(k0, t.pgd)},
      {PageAt(k0, t.stack), PageAt(k0, t.pgd)}, NodesOf(t.mappings) + SignalNodes(t.signals))
  {
    hide DataPages, TablePages, NodesOf, SignalNodes;
    if t.pgd == 0 {
      assert PageAt(k0, 0) < 0;
    }
    hide PageAt;
  }

  lemma TaskGone(k0: Snapshot, k4: Snapshot, k5: Snapshot, t: TaskView)
    requires Left(k0, k4, {PageAt(k0, t.stack)} + DataPages(k0, t.pgd) + TablePages(k0, t.pgd) + {PageAt(k0, t.pgd)},
      {PageAt(k0, t.stack), PageAt(k0, t.pgd)}, NodesOf(t.mappings) + SignalNodes(t.signals))
    requires ChunkGone(k4, k5, t.addr)
    ensures Everything(k5) == RestOf(k0, t) && k5.heap.pools == k0.heap.pools && AllGone(k0, k5, t)
  {
    hide DataPages, TablePages, NodesOf, SignalNodes, PageAt;
    assert Left(k0, k5, {PageAt(k0, t.stack)} + DataPages(k0, t.pgd) + TablePages(k0, t.pgd) + {PageAt(k0, t.pgd)},
      {PageAt(k0, t.stack), PageAt(k0, t.pgd)}, NodesOf(t.mappings) + SignalNodes(t.signals) + {t.addr});
    OnlyRestLeft(k0, k5, t);
  }

  /** The address space of a task, if it has one, is gone. */
  lemma TaskSpaceGone(k0: Snapshot, k3: Snapshot, k4: Snapshot, k5: Snapshot, t: TaskView)
    requires Consistent(k0) && k3.space == k0.space && SameSetting(k0, k3) && ChunkGone(k4, k5, t.addr)
    requires if t.pgd == 0 then k4 == k3 else SpaceGone(k3, k4, t.pgd)
    ensures SpaceGone(k0, k5, t.pgd)
  {
    TableKeys(k0);
    hide Consistent, UserRoot;
  }

  /** Address spaces that share no data page with that of the task are as before. */
  ghost predicate OthersSurvive(k: Snapshot, k': Snapshot, root: nat) {
    forall r, ms :: r != root && AddressSpace(k, r, ms) && DataPages(k, r) !! DataPages(k, root) ==>
      AddressSpace(k', r, ms) && SameSpace(k, k', r)
  }

  /** Data pages of other address spaces stay. */
  ghost predicate DataSurvives(k: Snapshot, k': Snapshot, root: nat) {
    forall q :: DataPage(k, q) && q !in DataPages(k, root) ==> DataPage(k', q)
  }

  lemma AllOthersSurvive(k: Snapshot, k': Snapshot, root: nat)
    requires Consistent(k) && Consistent(k') && SpaceGone(k, k', root) && DataSurvives(k, k', root)
    ensures OthersSurvive(k, k', root)
  {
    hide AddressSpace, DataPages, SameSpace, Consistent, SpaceGone, DataSurvives;
    forall r, ms | r != root && AddressSpace(k, r, ms) && DataPages(k, r) !! DataPages(k, root)
      ensures AddressSpace(k', r, ms) && SameSpace(k, k', r)
    {
      OtherSurvives(k, k', root, r, ms);
    }
  }

  /** `task_free`: every page, table, stack, root and small block of the task is given back, and nothing else. */
  method FreeTask(kernel: KernelMemory, task: Task)
    requires kernel.Valid() && Owned(kernel.Now(), View(task))
    modifies kernel.vm`tables, kernel.vm`tree, kernel.heap`large, kernel.heap`chunks, kernel.heap.pools,
        kernel.vm.pages`free, kernel.vm.pages`live, kernel.vm.pages`pending, kernel.vm.pages.frameArray,
        kernel.vm.pages.ordersLists
    ensures kernel.Valid() && Everything(kernel.Now()) == RestOf(old(kernel.Now()), View(task))
    ensures kernel.heap.poolPages == old(kernel.heap.poolPages)
    ensures OthersSurvive(old(kernel.Now()), kernel.Now(), task.pgd) && BlocksStay(old(kernel.Now()), kernel.Now(), 0)
  {
    hide BlocksStay, AllGone, SameSetting, SpaceGone, OthersSurvive, DataSurvives;
    hide kernel.Valid, Owned, Left, FreedUpTo, OnlyChunks, ChunkGone, BlockGone, Consistent, DataPages, TablePages;
    hide Everything, RestOf, UserRoot, AddressSpace, NodesOf, SignalNodes, LiveBlock;
    ghost var k0, t := kernel.Now(), View(task);
    kernel.ValidConsistent();
    OwnedParts(k0, t);
    NothingOwned(k0, t);
    kernel.FreeBlock(task.kernelStackAddr, KERNEL_STACK_ORDER);
    ghost var k1 := kernel.Now();
    BlockLeft(k0, k1, t.stack);
    StackKeeps(k0, k1, t);
    FreeMappings(kernel, task);
    ghost var k2 := kernel.Now();
    MappingsLeft(k0, k1, k2, t);
    FreeSignals(kernel, task);
    ghost var k3 := kernel.Now();
    SignalsLeft(k0, k2, k3, t);
    if task.pgd != 0 {
      RootApart(k0, t);
      SpaceLeft(k0, k3, t);
      FreeSpace(kernel, task.pgd);
    }
    SpaceFreed(k0, k3, kernel.Now(), t);
    ghost var k4 := kernel.Now();
    kernel.FreeChunk(task.addr);
    TaskGone(k0, k4, kernel.Now(), t);
    kernel.ValidConsistent();
    TaskSpaceGone(k0, k3, k4, kernel.Now(), t);
    DataSurvivesTask(k0, kernel.Now(), t);
    AllOthersSurvive(k0, kernel.Now(), t.pgd);
    GoneBlocksStay(k0, kernel.Now(), t);
  }

  /** The end of an address space leaves the kernel's mappings as they are. */
  lemma GoneKernel(k: Snapshot, k': Snapshot, pgd: nat)
    requires Consistent(k) && Consistent(k') && SpaceGone(k, k', pgd) && pgd != k.kernelPgd
    ensures KernelKept(k, k')
  {
    hide Consistent, Lookup, InWindow, SameTables, UserRoot, OtherTables;
    WellformedNow(k');
    SameTablesBack(k'.space.tree, k.space.tables, k'.space.tables, k.kernelPgd);
    forall n: nat | n < KERNEL_PAGES ensures LeafOf(k', k.kernelPgd, n) == LeafOf(k, k.kernelPgd, n) {
      KernelWindow(k', n);
      SameLookup(k'.space.tree, k'.space.tables, k.space.tables, k.offset, k.kernelPgd, n);
    }
  }

  lemma WellformedNow(k: Snapshot)
    requires Consistent(k)
    ensures Wellformed(k.space.tree, k.space.tables, k.offset)
  {
    hide Wellformed;
  }

  lemma OwnNotKernel(k: Snapshot, t: TaskView)
    requires Consistent(k) && Owned(k, t)
    ensures t.pgd != k.kernelPgd
  {
    hide WellPlaced, Low, OwnsChunks, OwnsBlocks, PageFine, NotShared, UserRoot;
    if t.pgd != 0 { NotTheKernel(k, t.pgd); } else { TableKeys(k); }
    hide Wellformed, HeapBacked, RootInKernel, KernelMapped;
  }

  lemma GoneBlocksStay(k: Snapshot, k': Snapshot, t: TaskView)
    requires Consistent(k) && Consistent(k') && Owned(k, t) && AllGone(k, k', t) && SpaceGone(k, k', t.pgd)
    ensures BlocksStay(k, k', 0)
  {
    hide Owned, KernelKept;
    OwnNotKernel(k, t);
    GoneKernel(k, k', t.pgd);
    TableKeys(k);
    hide Consistent, DataPages, TablePages, NodesOf, SignalNodes, SameTables, OtherTables;
  }

  /** Another address space, which shares no data page with that of a task, survives the end of the task. */
  lemma OtherSurvives(k: Snapshot, k': Snapshot, root: nat, r: nat, ms: seq<Mapping>)
    requires Consistent(k) && Consistent(k') && AddressSpace(k, r, ms) && r != root
    requires DataPages(k, r) !! DataPages(k, root)
    requires SpaceGone(k, k', root) && DataSurvives(k, k', root)
    ensures AddressSpace(k', r, ms) && SameSpace(k, k', r)
  {
    hide LeafOf, UserRoot, InMapping, PpnOf, Consistent, DataPage;
    SmallLeaves(k, r, ms);
    SamePpn(k, k');
    DataPagesLive(k, r, ms);
    forall m: nat | m < USER_PAGES
      ensures PageFine(k', r, ms, m) && LeafOf(k', r, m) == LeafOf(k, r, m)
      ensures HasData(k', r, m) == HasData(k, r, m) && DataAt(k', r, m) == DataAt(k, r, m)
    {
      assert PageFine(k, r, ms, m);
      OtherLookup(k, k', root, r, m);
      SameData(k, k', r, m);
      assert HasData(k, r, m) ==> DataAt(k, r, m) in DataPages(k, r);
    }
    hide DataAt, PageFine, UserRoot;
  }

  lemma OtherLookup(k: Snapshot, k': Snapshot, pgd: nat, r: nat, m: nat)
    requires Consistent(k') && SpaceGone(k, k', pgd) && r != pgd && UserRoot(k.space.tree, r) && m < USER_PAGES
    ensures LeafOf(k', r, m) == LeafOf(k, r, m) && UserRoot(k'.space.tree, r)
  {
    hide Lookup, TablesBacked, HeapBacked, Wellformed, UserRoot, InWindow, SameTables;
    UserWindow(k'.space.tree, r, m);
    SameTablesBack(k'.space.tree, k.space.tables, k'.space.tables, r);
    SameLookup(k'.space.tree, k'.space.tables, k.space.tables, k.offset, r, m);
  }

  lemma SameTablesBack(tree: Tree, tables: Tables, tables': Tables, root: nat)
    requires SameTables(tree, tables, tables', root)
    ensures SameTables(tree, tables', tables, root)
  {
  }

  /** The live blocks that went with a task. */
  ghost predicate AllGone(k: Snapshot, k': Snapshot, t: TaskView) {
    Left(k, k', {PageAt(k, t.stack)} + DataPages(k, t.pgd) + TablePages(k, t.pgd) + {PageAt(k, t.pgd)},
      {PageAt(k, t.stack), PageAt(k, t.pgd)}, NodesOf(t.mappings) + SignalNodes(t.signals) + {t.addr})
  }

  lemma DataSurvivesTask(k: Snapshot, k': Snapshot, t: TaskView)
    requires Consistent(k) && Consistent(k') && Owned(k, t) && AllGone(k, k', t) && SpaceGone(k, k', t.pgd)
    ensures DataSurvives(k, k', t.pgd)
  {
    hide Consistent, Owned, AllGone, DataPage, TablePages, DataPages;
    TablesShrink(k, k', t.pgd);
    RootBlock(k, t);
    forall q | DataPage(k, q) && q !in DataPages(k, t.pgd) ensures DataPage(k', q) {
      TablesNotData(k, t.pgd, q);
      DataStays(k, k', t, q);
    }
  }

  lemma DataStays(k: Snapshot, k': Snapshot, t: TaskView, q: int)
    requires AllGone(k, k', t) && DataPage(k, q) && q !in DataPages(k, t.pgd) && q !in TablePages(k, t.pgd)
    requires PageAt(k, t.pgd) in k.heap.large || PageAt(k, t.pgd) < 0
    requires PageAt(k, t.stack) in k.heap.large && forall x :: x in k'.space.tables ==> x in k.space.tables
    ensures DataPage(k', q)
  {
    hide DataPages, TablePages, NodesOf, SignalNodes, PageAt;
  }

  lemma TablesShrink(k: Snapshot, k': Snapshot, pgd: nat)
    requires Consistent(k) && Consistent(k') && KeepsPlaces(k'.space.tree, k.space.tree)
    ensures forall x :: x in k'.space.tables ==> x in k.space.tables
  {
    TableKeys(k);
    TableKeys(k');
    hide Consistent;
  }

  lemma TablesNotData(k: Snapshot, pgd: nat, q: int)
    requires Consistent(k) && DataPage(k, q)
    ensures q !in TablePages(k, pgd)
  {
    TableKeys(k);
    hide Wellformed, HeapBacked;
    if x :| x in TablesOf(k.space.tree, pgd) && PageAt(k, x) == q {
      NotTheKernelRoot(k, x, pgd);
    }
  }

  lemma NotTheKernelRoot(k: Snapshot, x: nat, pgd: nat)
    requires TablesBacked(k) && x in TablesOf(k.space.tree, pgd)
    ensures x != k.kernelPgd && x == AddrOf(k, PageAt(k, x))
  {
  }

  lemma RootBlock(k: Snapshot, t: TaskView)
    requires Owned(k, t) && Consistent(k)
    ensures PageAt(k, t.pgd) in k.heap.large || PageAt(k, t.pgd) < 0
    ensures PageAt(k, t.stack) in k.heap.large
  {
    hide OwnsChunks, WellPlaced, Low, AddressSpace, Wellformed, TablesBacked, HeapBacked, RootInKernel;
  }
}
