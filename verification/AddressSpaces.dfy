/**
 The memory of the kernel at one moment, and what the parts of it that belong to a task look like: the page
 tables of its address space, its data pages, and the blocks of the small allocator that it holds.
 */
module AddressSpaces {
  import opened AllocatorRuns
  import opened Sv39
  import opened PageTree
  import opened Teardown
  import opened Roots

  /** The pages of the lower half, which belong to user programs. */
  const USER_PAGES: nat := 0x400_0000

  const TRAMPOLINE_PAGE: nat := 1

  datatype Space = Space(tree: Tree, tables: Tables)

  /** The pool pages, the first pages of large blocks, and the live chunks. */
  datatype Heap = Heap(pools: map<nat, nat>, large: set<nat>, chunks: map<nat, nat>)

  /** `trampoline` is the physical page of the signal trampoline; `contents` holds the bytes of data pages. */
  datatype Snapshot = Snapshot(base: nat, offset: nat, kernelPgd: nat, trampoline: nat, space: Space, heap: Heap,
      pages: State, contents: map<nat, seq<nat>>)

  /** The index of the page at an address, and its address. */
  function PageAt(k: Snapshot, addr: nat): int {
    (addr - k.base) / 4096
  }

  function AddrOf(k: Snapshot, p: nat): nat {
    k.base + 4096 * p
  }

  /** The physical page number of page `p`. */
  function PpnOf(k: Snapshot, p: int): int {
    (k.base - k.offset) / 4096 + p
  }

  /** `addr` is the address of a live block of the page allocator, of the given order. */
  predicate LiveBlock(k: Snapshot, addr: nat, order: nat) {
    PageAt(k, addr) >= 0 && addr == AddrOf(k, PageAt(k, addr)) && PageAt(k, addr) in k.pages.live &&
      k.pages.live[PageAt(k, addr)] == order
  }

  /** Every table but the kernel's root is in a live page of its own; the roots of user address spaces are blocks of the
      small allocator. */
  ghost predicate TablesBacked(k: Snapshot) {
    && k.kernelPgd in k.space.tree.place && k.space.tree.place[k.kernelPgd] == RootPlace(k.kernelPgd)
    && k.kernelPgd in k.space.tree.window && k.space.tree.window[k.kernelPgd] == PAGE_TABLE_ENTRIES_NUM
    && forall t :: t in k.space.tree.place && t != k.kernelPgd ==>
      && LiveBlock(k, t, 0) && PageAt(k, t) !in k.heap.pools
      && (PageAt(k, t) in k.heap.large <==> k.space.tree.place[t].level == 2)
  }

  ghost predicate HeapBacked(k: Snapshot) {
    && (forall p :: p in k.heap.pools ==> p in k.pages.live && k.pages.live[p] == 0)
    && (forall p :: p in k.heap.large ==> p in k.pages.live && p !in k.heap.pools)
  }

  /** Every root has the kernel's half. */
  ghost predicate KernelMapped(k: Snapshot) {
    SharedHalf(k.space.tree, k.space.tables, k.kernelPgd)
  }

  ghost predicate Consistent(k: Snapshot) {
    && 0 < k.base && k.offset <= k.base && (k.base - k.offset) % 4096 == 0
    && Wellformed(k.space.tree, k.space.tables, k.offset)
    && TablesBacked(k) && HeapBacked(k)
    && k.pages.free !! k.pages.live.Keys
    && 0 !in k.space.tables && RootInKernel(k) && KernelMapped(k)
  }

  /** The kernel's root is in the kernel image, which is neither free nor live. */
  ghost predicate RootInKernel(k: Snapshot) {
    forall p :: p in k.pages.free || p in k.pages.live ==> AddrOf(k, p) != k.kernelPgd
  }

  lemma FreeUnused(k: Snapshot, p: nat)
    requires Consistent(k) && p in k.pages.free
    ensures AddrOf(k, p) !in k.space.tables && p !in k.pages.live && p !in k.heap.pools && p !in k.heap.large
  {
    StoredKeys(k.space.tree, k.space.tables, k.offset);
    hide Wellformed;
    assert PageAt(k, AddrOf(k, p)) == p;
  }

  function Update(k: Snapshot, space: Space, heap: Heap, pages: State, contents: map<nat, seq<nat>>): Snapshot {
    Snapshot(k.base, k.offset, k.kernelPgd, k.trampoline, space, heap, pages, contents)
  }

  /** A page was allocated and filled. */
  ghost predicate GotPage(k: Snapshot, k': Snapshot, addr: nat, bytes: seq<nat>) {
    var p := PageAt(k, addr);
    && p >= 0 && addr == AddrOf(k, p) && p in k.pages.free
    && k' == Update(k, k.space, k.heap, State(k.pages.free - {p}, k.pages.live[p := 0]), k.contents[p := bytes])
  }

  /** A page is a live block that neither the small allocator nor a page table uses. */
  predicate DataPage(k: Snapshot, p: int) {
    && p >= 0 && p in k.pages.live && k.pages.live[p] == 0
    && p !in k.heap.pools && p !in k.heap.large && AddrOf(k, p) !in k.space.tables
  }

  /** A data page was freed. */
  ghost predicate GavePage(k: Snapshot, k': Snapshot, p: int) {
    p >= 0 && k' == Update(k, k.space, k.heap, State(k.pages.free + {p}, k.pages.live - {p}), k.contents)
  }

  lemma GotPageFrom(k: Snapshot, k': Snapshot, addr: nat, p: nat, bytes: seq<nat>)
    requires LiveBlock(k', addr, 0) && PageAt(k', addr) == p
    requires TakenPages(k.pages.live, k.pages.free, k'.pages.live, k'.pages.free, {p})
    requires k' == Update(k, k.space, k.heap, k'.pages, k.contents[p := bytes])
    ensures GotPage(k, k', addr, bytes)
  {
  }

  /** The blocks of the small allocator are still live, with the same orders. */
  ghost predicate HeapKept(heap: Heap, live: map<nat, nat>, live': map<nat, nat>) {
    forall p :: p in heap.pools.Keys + heap.large ==> p in live && p in live' && live'[p] == live[p]
  }

  lemma HeapKeptTaken(k: Snapshot, pages: State, ps: set<nat>)
    requires HeapBacked(k) && TakenPages(k.pages.live, k.pages.free, pages.live, pages.free, ps)
    ensures HeapKept(k.heap, k.pages.live, pages.live)
  {
  }

  lemma HeapKeptReturned(k: Snapshot, pages: State, ps: set<nat>)
    requires HeapBacked(k) && ReturnedPages(k.pages.live, k.pages.free, pages.live, pages.free, ps)
    requires ps !! k.heap.pools.Keys + k.heap.large
    ensures HeapKept(k.heap, k.pages.live, pages.live)
  {
  }

  /** The pages of all tables but the kernel's root are still live. */
  ghost predicate TablesKept(k: Snapshot, live: map<nat, nat>) {
    forall t :: t in k.space.tables && t != k.kernelPgd ==>
      PageAt(k, t) >= 0 && PageAt(k, t) in live && live[PageAt(k, t)] == 0
  }

  lemma TablesKeptReturned(k: Snapshot, pages: State, p: nat)
    requires Consistent(k) && AddrOf(k, p) !in k.space.tables
    requires pages.live == k.pages.live - {p}
    ensures TablesKept(k, pages.live)
  {
    StoredKeys(k.space.tree, k.space.tables, k.offset);
    hide Wellformed;
  }

  lemma TablesKeptAllocated(k: Snapshot, pages: State, p: nat, o: nat)
    requires Consistent(k) && Allocates(k.pages, pages, p, o)
    ensures TablesKept(k, pages.live) && p !in k.pages.live
    ensures forall t :: t in k.space.tables && t != k.kernelPgd ==> PageAt(k, t) != p
  {
    StoredKeys(k.space.tree, k.space.tables, k.offset);
    hide Wellformed;
  }

  lemma TablesKeptNow(k: Snapshot)
    requires Consistent(k)
    ensures TablesKept(k, k.pages.live)
  {
    StoredKeys(k.space.tree, k.space.tables, k.offset);
    hide Wellformed;
  }

  /** A chunk of the small allocator became live, from the list of its pool or from a new page. */
  ghost predicate NewChunk(k: Snapshot, k': Snapshot, addr: nat) {
    exists i :: NewChunkOf(k, k', addr, i)
  }

  ghost predicate NewChunkOf(k: Snapshot, k': Snapshot, addr: nat, i: nat) {
    && addr !in k.heap.chunks
    && (k' == Update(k, k.space, Heap(k.heap.pools, k.heap.large, k.heap.chunks[addr := i]), k.pages, k.contents)
       || exists p :: NewPoolPage(k, k', addr, i, p))
  }

  ghost predicate NewPoolPage(k: Snapshot, k': Snapshot, addr: nat, i: nat, p: nat) {
    && Allocates(k.pages, k'.pages, p, 0)
    && k' == Update(k, k.space, Heap(k.heap.pools[p := i], k.heap.large, k.heap.chunks[addr := i]), k'.pages,
        k.contents)
  }

  ghost predicate ChunkGone(k: Snapshot, k': Snapshot, addr: nat) {
    k' == Update(k, k.space, Heap(k.heap.pools, k.heap.large, k.heap.chunks - {addr}), k.pages, k.contents)
  }

  /** A large block of the small allocator became live. */
  ghost predicate NewBlock(k: Snapshot, k': Snapshot, addr: nat, o: nat) {
    && PageAt(k, addr) >= 0 && addr == AddrOf(k, PageAt(k, addr)) && Allocates(k.pages, k'.pages, PageAt(k, addr), o)
    && k' == Update(k, k.space, Heap(k.heap.pools, k.heap.large + {PageAt(k, addr)}, k.heap.chunks), k'.pages,
        k.contents)
  }

  ghost predicate BlockGone(k: Snapshot, k': Snapshot, addr: nat) {
    && PageAt(k, addr) >= 0 && Releases(k.pages, k'.pages, PageAt(k, addr))
    && k' == Update(k, k.space, Heap(k.heap.pools, k.heap.large - {PageAt(k, addr)}, k.heap.chunks), k'.pages,
        k.contents)
  }

  /** Free pages were taken for `t`, the new tables of one address space. */
  ghost function PagesOfTables(k: Snapshot, ts: set<nat>): set<int> {
    set t | t in ts :: PageAt(k, t)
  }

  /** Page `n` of an address space was mapped. */
  ghost predicate MappedPage(k: Snapshot, k': Snapshot, pgd: nat, n: nat, leaf: Leaf) {
    && k' == Update(k, k'.space, k.heap, k'.pages, k.contents)
    && AllMapped(k.space.tree, k.space.tables, k'.space.tree, k'.space.tables, k.offset, pgd, n, n + 1, leaf)
    && Extends(k.space.tree, k'.space.tree, pgd, 0)
    && OnlyWithin(k.space.tree, k.space.tables, k'.space.tables, pgd)
    && TookTables(k, k')
  }

  ghost predicate TookTables(k: Snapshot, k': Snapshot) {
    && k.space.tables.Keys <= k'.space.tables.Keys
    && PagesOfTables(k, k'.space.tables.Keys - k.space.tables.Keys) <= k.pages.free
    && k'.pages.free == k.pages.free - PagesOfTables(k, k'.space.tables.Keys - k.space.tables.Keys)
    && k'.pages.live.Keys == k.pages.live.Keys + PagesOfTables(k, k'.space.tables.Keys - k.space.tables.Keys)
    && PagesOfTables(k, k'.space.tables.Keys - k.space.tables.Keys) !! k.pages.live.Keys
    && forall p :: p in k.pages.live ==> k'.pages.live[p] == k.pages.live[p]
  }

  /** All tables below the root left, and their pages were freed. */
  ghost predicate TablesGone(k: Snapshot, k': Snapshot, pgd: nat) {
    && k' == Update(k, k'.space, k.heap, k'.pages, k.contents)
    && k'.space.tree == Without(k.space.tree, TablesOf(k.space.tree, pgd)) && EmptyBelow(k'.space.tables, pgd)
    && (forall root :: root != pgd ==> SameTables(k'.space.tree, k.space.tables, k'.space.tables, root))
    && k'.pages.live.Keys == k.pages.live.Keys - PagesOfTables(k, TablesOf(k.space.tree, pgd))
    && (forall p :: p in k'.pages.live ==> p in k.pages.live && k'.pages.live[p] == k.pages.live[p])
    && k'.pages.free == k.pages.free + PagesOfTables(k, TablesOf(k.space.tree, pgd))
  }

  lemma TablesGoneFrom(k: Snapshot, k': Snapshot, pgd: nat, ps: set<nat>)
    requires k' == Update(k, k'.space, k.heap, k'.pages, k.contents)
    requires k'.space.tree == Without(k.space.tree, TablesOf(k.space.tree, pgd))
    requires forall root :: root != pgd ==> SameTables(k'.space.tree, k.space.tables, k'.space.tables, root)
    requires ReturnedPages(k.pages.live, k.pages.free, k'.pages.live, k'.pages.free, ps)
    requires ps == PagesOfTables(k, TablesOf(k.space.tree, pgd)) && EmptyBelow(k'.space.tables, pgd)
    ensures TablesGone(k, k', pgd)
  {
    hide SameTables, Without;
  }

  /** A block became the root of a user address space. */
  ghost predicate NewRoot(k: Snapshot, k': Snapshot, pgd: nat) {
    && k.kernelPgd in k.space.tables && |k.space.tables[k.kernelPgd]| == PAGE_TABLE_ENTRIES_NUM
    && pgd !in k.space.tables
    && k' == Update(k,
        Space(WithRoot(k.space.tree, pgd), k.space.tables[pgd := RootEntries(k.space.tables[k.kernelPgd])]),
        k.heap, k.pages, k.contents)
  }

  ghost predicate RootGone(k: Snapshot, k': Snapshot, pgd: nat) {
    k' == Update(k, Space(Without(k.space.tree, {pgd}), k.space.tables - {pgd}), k.heap, k.pages, k.contents)
  }
}

