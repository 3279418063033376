/**
 What a task owns: the data pages and tables of its address space, its root and kernel stack, and its small
 blocks. How mapping, allocating and freeing change it, in terms of the memory before and after.
 */
module Ownership {
  import opened FreeBlocks
  import opened Sv39
  import opened PageTree
  import opened Roots
  import opened TaskMappings
  import opened AddressSpaces

  const PTE_USER_CODE_PROT: nat := PTE_VALID + PTE_READ + PTE_EXECUTE + PTE_USER + PTE_ACCESSED + PTE_DIRTY
  const KERNEL_STACK_ORDER: nat := 2

  /** All pages that there are: those of the lower half, and as many of the kernel's. */
  const KERNEL_PAGES: nat := 0x800_0000

  function LeafOf(k: Snapshot, root: nat, n: nat): Option<Leaf> {
    Lookup(k.space.tables, k.offset, root, n)
  }

  /** The page that page `n` of an address space is in. */
  function DataAt(k: Snapshot, root: nat, n: nat): int {
    if LeafOf(k, root, n).Some? then LeafOf(k, root, n).value.ppn - PpnOf(k, 0) else -1
  }

  /** Page `n` is one of the data pages that an address space can have. */
  predicate HasData(k: Snapshot, root: nat, n: nat) {
    n < USER_PAGES && n != TRAMPOLINE_PAGE && LeafOf(k, root, n).Some?
  }

  predicate InMapping(ms: seq<Mapping>, n: nat, prot: nat) {
    exists i :: 0 <= i < |ms| && Contains(ms[i], 4096 * n) && ms[i].prot == prot
  }

  /** Page `n` of a user address space, if present, is the trampoline or a filled data page under the permissions of its
      mapping. */
  predicate PageFine(k: Snapshot, root: nat, ms: seq<Mapping>, n: nat) {
    LeafOf(k, root, n).Some? ==>
      var leaf := LeafOf(k, root, n).value;
      && leaf.level == 0
      && if n == TRAMPOLINE_PAGE then leaf == Leaf(0, k.trampoline, PTE_USER_CODE_PROT)
         else DataPage(k, DataAt(k, root, n)) && DataAt(k, root, n) in k.contents && InMapping(ms, n, leaf.prot)
  }

  /** No data page is mapped twice. */
  ghost predicate NotShared(k: Snapshot, root: nat) {
    forall m, n :: HasData(k, root, m) && HasData(k, root, n) && m != n ==> DataAt(k, root, m) != DataAt(k, root, n)
  }

  ghost predicate AddressSpace(k: Snapshot, root: nat, ms: seq<Mapping>) {
    && UserRoot(k.space.tree, root)
    && (forall n :: 0 <= n < USER_PAGES ==> PageFine(k, root, ms, n))
    && NotShared(k, root)
  }

  ghost function DataPages(k: Snapshot, root: nat): set<int> {
    set n | 0 <= n < USER_PAGES && HasData(k, root, n) :: DataAt(k, root, n)
  }

  ghost function TablePages(k: Snapshot, root: nat): set<int> {
    PagesOfTables(k, TablesOf(k.space.tree, root))
  }

  /** The live pages that are neither the small allocator's nor in this address space. */
  ghost function OutsidePages(k: Snapshot, root: nat): set<int> {
    (set p | p in k.pages.live && p !in k.heap.pools && p !in DataPages(k, root) && p !in TablePages(k, root))
  }

  /** Mappings end below the kernel's half, with the permissions of a user's page. */
  ghost predicate Low(ms: seq<Mapping>) {
    forall i :: 0 <= i < |ms| ==> ms[i].vaddr + ms[i].size <= 4096 * USER_PAGES && UserProt(ms[i].prot)
  }

  /** The kernel's root translates every page as before. */
  ghost predicate KernelKept(k: Snapshot, k': Snapshot) {
    && k'.kernelPgd == k.kernelPgd && k'.offset == k.offset
    && forall n: nat :: n < KERNEL_PAGES ==> LeafOf(k', k.kernelPgd, n) == LeafOf(k, k.kernelPgd, n)
  }

  /** Live blocks stay live and keep their contents, no table becomes a root, and the kernel's mappings stay. */
  ghost predicate Grows(k: Snapshot, k': Snapshot) {
    && k'.base == k.base && k'.offset == k.offset && k'.kernelPgd == k.kernelPgd && k'.trampoline == k.trampoline
    && (forall p :: p in k.pages.live ==> p in k'.pages.live && k'.pages.live[p] == k.pages.live[p])
    && (forall p :: p in k.pages.live && p in k.contents ==> p in k'.contents && k'.contents[p] == k.contents[p])
    && (forall t :: t in k'.space.tree.place && k'.space.tree.place[t].level == 2 ==>
      t in k.space.tree.place && k.space.tree.place[t].level == 2)
    && KernelKept(k, k')
  }

  /** Blocks that are live before and after have the same size, no table but `root` became a root, and the kernel's
      mappings stay. */
  ghost predicate BlocksStay(k: Snapshot, k': Snapshot, root: nat) {
    && k'.base == k.base
    && (forall p :: p in k.pages.live && p in k'.pages.live ==> k'.pages.live[p] == k.pages.live[p])
    && (forall t :: t in k'.space.tree.place && k'.space.tree.place[t].level == 2 && t != root ==> t in k.space.tables)
    && KernelKept(k, k')
  }

  lemma GrowsBlocks(k: Snapshot, k': Snapshot, root: nat)
    requires Grows(k, k') && Consistent(k)
    ensures BlocksStay(k, k', root)
  {
    TableKeys(k);
    hide Consistent;
  }

  lemma GrowsTwice(k: Snapshot, k1: Snapshot, k2: Snapshot)
    requires Grows(k, k1) && Grows(k1, k2)
    ensures Grows(k, k2)
  {
  }

  lemma KernelWindow(k: Snapshot, n: nat)
    requires Consistent(k) && n < KERNEL_PAGES
    ensures InWindow(k.space.tree, k.kernelPgd, n)
  {
    hide EntriesOk, AllPointedTo, HeapBacked, RootInKernel, KernelMapped;
    Prefixes(n);
    DivDiv512(n);
  }

  /** The pages above the lower half translate as they do for the kernel. */
  ghost predicate KernelSeen(k: Snapshot, root: nat) {
    forall n: nat :: USER_PAGES <= n < KERNEL_PAGES ==> LeafOf(k, root, n) == LeafOf(k, k.kernelPgd, n)
  }

  /** In every user address space the kernel is mapped. */
  lemma KernelInSpace(k: Snapshot, root: nat)
    requires Consistent(k) && UserRoot(k.space.tree, root)
    ensures KernelSeen(k, root)
  {
    hide Lookup, EntriesOk, AllPointedTo, HeapBacked, RootInKernel, TablesBacked;
    RootPlaced(k.space.tree, k.space.tables, k.offset, root);
    hide Wellformed;
    assert KernelEntries(k.space.tables, k.kernelPgd, root);
    forall n: nat | USER_PAGES <= n < KERNEL_PAGES ensures LeafOf(k, root, n) == LeafOf(k, k.kernelPgd, n) {
      SharedLookup(k.space.tables, k.offset, k.kernelPgd, root, n);
    }
  }

  lemma NotTheKernel(k: Snapshot, root: nat)
    requires Consistent(k) && UserRoot(k.space.tree, root)
    ensures root != k.kernelPgd
  {
    hide Wellformed, HeapBacked, RootInKernel, KernelMapped;
  }

  /** Mapping a page of a user address space leaves the kernel's mappings as they are. */
  lemma MappedKernel(k0: Snapshot, k: Snapshot, k': Snapshot, root: nat, n: nat, leaf: Leaf)
    requires Consistent(k0) && k.space == k0.space && k.kernelPgd == k0.kernelPgd && k.offset == k0.offset
    requires MappedPage(k, k', root, n, leaf) && UserRoot(k.space.tree, root)
    ensures KernelKept(k0, k')
  {
    hide Consistent, Lookup, InWindow, UserRoot, OnlyWithin, Extends, TookTables;
    NotTheKernel(k0, root);
    forall m: nat | m < KERNEL_PAGES ensures LeafOf(k', k.kernelPgd, m) == LeafOf(k, k.kernelPgd, m) {
      KernelWindow(k0, m);
    }
  }

  /** Page `n` of an address space, absent before, is mapped to page `p`, which was free and is filled; nothing else of
      any address space changed. */
  ghost predicate Installed(k: Snapshot, k': Snapshot, root: nat, n: nat, p: nat, bytes: seq<nat>, prot: nat) {
    && k' == Update(k, k'.space, k.heap, k'.pages, k.contents[p := bytes])
    && p !in k.pages.live && DataPage(k', p)
    && (forall q :: DataPage(k, q) ==> DataPage(k', q))
    && Grows(k, k')
    && (forall r :: UserRoot(k.space.tree, r) ==> UserRoot(k'.space.tree, r))
    && KeepsPlaces(k.space.tree, k'.space.tree)
    && LeafOf(k', root, n).Some? && DataAt(k', root, n) == p
    && LeafOf(k', root, n).value.level == 0 && LeafOf(k', root, n).value.prot == prot
    && OthersSame(k, k', root, n) && OtherTables(k, k', root)
  }

  /** No other address space has gained or lost a table. */
  ghost predicate OtherTables(k: Snapshot, k': Snapshot, root: nat) {
    forall r: nat :: r != root ==> TablesOf(k'.space.tree, r) == TablesOf(k.space.tree, r)
  }

  lemma MappedTables(k: Snapshot, k': Snapshot, root: nat, n: nat, leaf: Leaf)
    requires MappedPage(k, k', root, n, leaf)
    ensures OtherTables(k, k', root)
  {
    hide AllMapped;
  }

  predicate SmallLeaf(k: Snapshot, r: nat, m: nat) {
    LeafOf(k, r, m).Some? ==> LeafOf(k, r, m).value.level == 0
  }

  ghost predicate OthersSame(k: Snapshot, k': Snapshot, root: nat, n: nat) {
    forall r: nat, m: nat ::
      UserRoot(k.space.tree, r) && m < USER_PAGES && !(r == root && m == n) && SmallLeaf(k, r, m) ==>
      LeafOf(k', r, m) == LeafOf(k, r, m)
  }

  /** A page that is a data page stays one while the tables grow into free pages. */
  lemma StillData(k: Snapshot, k': Snapshot, q: int)
    requires TookTables(k, k') && DataPage(k, q) && k.base == k'.base && k.heap == k'.heap
    ensures DataPage(k', q)
  {
    forall t | t in k'.space.tables && t !in k.space.tables ensures PageAt(k, t) !in k.pages.live {
      assert PageAt(k, t) in PagesOfTables(k, k'.space.tables.Keys - k.space.tables.Keys);
    }
    assert PageAt(k, AddrOf(k, q)) == q;
  }

  /** What mapping one page leaves of all user address spaces. */
  lemma MappedLookups(k: Snapshot, k': Snapshot, root: nat, n: nat, leaf: Leaf, r: nat, m: nat)
    requires MappedPage(k, k', root, n, leaf) && UserRoot(k.space.tree, r) && m < USER_PAGES && leaf.level == 0
    requires SmallLeaf(k, r, m)
    ensures LeafOf(k', r, m) == if r == root && m == n then Some(leaf) else LeafOf(k, r, m)
    ensures UserRoot(k'.space.tree, r)
  {
    hide Lookup, TookTables;
    UserWindow(k.space.tree, r, m);
    ExtendsRoot(k.space.tree, k'.space.tree, root, r, m);
    hide Extends, InWindow, UserRoot;
    LeafSelf(leaf);
  }

  lemma LeafSelf(leaf: Leaf)
    ensures Leaf(leaf.level, leaf.ppn + 0, leaf.prot) == leaf
  {
  }

  lemma ExtendsRoot(tree: Tree, tree': Tree, root: nat, r: nat, m: nat)
    requires Extends(tree, tree', root, 0) && UserRoot(tree, r) && InWindow(tree', r, m)
    ensures UserRoot(tree', r)
  {
  }

  /** Allocating and filling a page and mapping it. */
  lemma InstalledBy(k: Snapshot, k1: Snapshot, k2: Snapshot, root: nat, n: nat, addr: nat, bytes: seq<nat>, leaf: Leaf)
    requires GotPage(k, k1, addr, bytes) && MappedPage(k1, k2, root, n, leaf)
    requires Consistent(k) && UserRoot(k.space.tree, root) && n < USER_PAGES && SmallLeaf(k, root, n)
    requires leaf.level == 0 && leaf.ppn == PpnOf(k, PageAt(k, addr))
    ensures Installed(k, k2, root, n, PageAt(k, addr), bytes, leaf.prot)
  {
    hide Wellformed, Lookup, AllMapped, Extends, UserRoot;
    var p := PageAt(k, addr);
    NewPageIsData(k, k1, k2, addr, bytes);
    StillDataTwice(k, k1, k2, addr, bytes);
    MappedLookups(k1, k2, root, n, leaf, root, n);
    MappedOthers(k1, k2, root, n, leaf);
    MappedTables(k1, k2, root, n, leaf);
    ExtendsKeeps(k1.space.tree, k2.space.tree, root, 0);
    MappedKernel(k, k1, k2, root, n, leaf);
    hide KernelKept;
    assert Grows(k, k2);
    forall r: nat | UserRoot(k.space.tree, r) ensures UserRoot(k2.space.tree, r) {
      UserWindow(k.space.tree, r, 0);
      RootsKept(k1, k2, root, n, leaf, r);
    }
  }

  lemma RootsKept(k: Snapshot, k': Snapshot, root: nat, n: nat, leaf: Leaf, r: nat)
    requires MappedPage(k, k', root, n, leaf) && UserRoot(k.space.tree, r)
    ensures UserRoot(k'.space.tree, r)
  {
    hide Lookup, TookTables, Mapped;
    UserWindow(k.space.tree, r, 0);
    ExtendsRoot(k.space.tree, k'.space.tree, root, r, 0);
  }

  lemma MappedOthers(k: Snapshot, k': Snapshot, root: nat, n: nat, leaf: Leaf)
    requires MappedPage(k, k', root, n, leaf) && leaf.level == 0
    ensures OthersSame(k, k', root, n)
  {
    hide Lookup, TookTables, AllMapped, Extends, UserRoot, SmallLeaf, MappedPage;
    forall r: nat, m: nat | UserRoot(k.space.tree, r) && m < USER_PAGES && !(r == root && m == n) && SmallLeaf(k, r, m)
      ensures LeafOf(k', r, m) == LeafOf(k, r, m)
    {
      MappedLookups(k, k', root, n, leaf, r, m);
    }
  }

  lemma NewPageIsData(k: Snapshot, k1: Snapshot, k2: Snapshot, addr: nat, bytes: seq<nat>)
    requires GotPage(k, k1, addr, bytes) && Consistent(k) && TookTables(k1, k2) && k2.base == k.base
    requires k2.heap == k.heap
    ensures DataPage(k2, PageAt(k, addr)) && PageAt(k, addr) !in k.pages.live
  {
    hide Consistent;
    FreeUnused(k, PageAt(k, addr));
    assert DataPage(k1, PageAt(k, addr));
    StillData(k1, k2, PageAt(k, addr));
  }

  lemma StillDataTwice(k: Snapshot, k1: Snapshot, k2: Snapshot, addr: nat, bytes: seq<nat>)
    requires GotPage(k, k1, addr, bytes) && TookTables(k1, k2) && k2.base == k.base && k2.heap == k.heap
    requires k.pages.free !! k.pages.live.Keys
    ensures forall q :: DataPage(k, q) ==> DataPage(k2, q)
    ensures forall q :: q in k.pages.live ==> q in k2.pages.live && k2.pages.live[q] == k.pages.live[q]
  {
    forall q | DataPage(k, q) ensures DataPage(k2, q) {
      assert DataPage(k1, q);
      StillData(k1, k2, q);
    }
  }

  /** Installing a page adds that page, and the new tables, to what the address space owns, and changes nothing else. */
  lemma InstalledOutside(k: Snapshot, k1: Snapshot, k2: Snapshot, root: nat, n: nat, addr: nat, bytes: seq<nat>,
      leaf: Leaf)
    requires GotPage(k, k1, addr, bytes) && MappedPage(k1, k2, root, n, leaf) && Consistent(k) && Consistent(k2)
    requires Installed(k, k2, root, n, PageAt(k, addr), bytes, leaf.prot)
    requires UserRoot(k.space.tree, root) && n < USER_PAGES && n != TRAMPOLINE_PAGE && LeafOf(k, root, n) == None
    requires forall m :: 0 <= m < USER_PAGES ==> SmallLeaf(k, root, m)
    ensures OutsidePages(k2, root) == OutsidePages(k, root)
  {
    hide Consistent, Installed, UserRoot, SmallLeaf, DataPages, TablePages, AllMapped, Extends, LeafOf;
    var p := PageAt(k, addr);
    var taken := PagesOfTables(k1, k2.space.tables.Keys - k1.space.tables.Keys);
    FreeUnused(k, p);
    TableKeys(k);
    TableKeys(k2);
    PoolsLive(k);
    SameTablePages(k, k1, root);
    MappedTablePages(k1, k2, root, n, leaf);
    InstalledDataPages(k, k2, root, n, p, bytes, leaf.prot);
    OutsideTaken(k, k2, root, p, taken);
  }

  lemma OutsideTaken(k: Snapshot, k': Snapshot, root: nat, p: nat, taken: set<int>)
    requires DataPages(k', root) == DataPages(k, root) + {p} && TablePages(k', root) == TablePages(k, root) + taken
    requires k'.pages.live.Keys == k.pages.live.Keys + {p} + taken && k'.heap == k.heap
    requires p !in k.pages.live && taken !! k.pages.live.Keys
    requires forall q :: q in k.heap.pools ==> q in k.pages.live
    ensures OutsidePages(k', root) == OutsidePages(k, root)
  {
    hide DataPages, TablePages;
  }

  lemma TableKeys(k: Snapshot)
    requires Consistent(k)
    ensures k.space.tables.Keys == k.space.tree.place.Keys
  {
    hide Wellformed, TablesBacked;
    StoredKeys(k.space.tree, k.space.tables, k.offset);
  }

  lemma PoolsLive(k: Snapshot)
    requires Consistent(k)
    ensures forall q :: q in k.heap.pools ==> q in k.pages.live
  {
    hide Wellformed, TablesBacked;
  }

  lemma SameTablePages(k: Snapshot, k': Snapshot, root: nat)
    requires k'.space == k.space && k'.base == k.base
    ensures TablePages(k', root) == TablePages(k, root)
  {
  }

  lemma MappedTablePages(k: Snapshot, k': Snapshot, root: nat, n: nat, leaf: Leaf)
    requires MappedPage(k, k', root, n, leaf) && k.space.tables.Keys == k.space.tree.place.Keys
    requires k'.space.tables.Keys == k'.space.tree.place.Keys
    ensures TablePages(k', root) == TablePages(k, root) + PagesOfTables(k, k'.space.tables.Keys - k.space.tables.Keys)
  {
    hide AllMapped, PageAt;
    var added := k'.space.tables.Keys - k.space.tables.Keys;
    assert TablesOf(k'.space.tree, root) == TablesOf(k.space.tree, root) + added;
    forall q ensures q in TablePages(k', root) <==> q in TablePages(k, root) || q in PagesOfTables(k, added) {
      SamePageAt(k, k');
    }
  }

  lemma SamePageAt(k: Snapshot, k': Snapshot)
    requires k.base == k'.base
    ensures forall addr: nat :: PageAt(k, addr) == PageAt(k', addr)
  {
  }

  lemma InstalledDataPages(k: Snapshot, k': Snapshot, root: nat, n: nat, p: nat, bytes: seq<nat>, prot: nat)
    requires Installed(k, k', root, n, p, bytes, prot) && UserRoot(k.space.tree, root)
    requires n < USER_PAGES && n != TRAMPOLINE_PAGE && LeafOf(k, root, n) == None
    requires forall m :: 0 <= m < USER_PAGES ==> SmallLeaf(k, root, m)
    ensures DataPages(k', root) == DataPages(k, root) + {p}
  {
    hide Lookup, DataPage, UserRoot, PpnOf;
    SamePpn(k, k');
    assert HasData(k', root, n) && DataAt(k', root, n) == p;
    forall m: nat | m < USER_PAGES && m != n
      ensures HasData(k', root, m) <==> HasData(k, root, m)
      ensures DataAt(k', root, m) == DataAt(k, root, m)
    {
    }
    forall q ensures q in DataPages(k', root) <==> q in DataPages(k, root) || q == p {
    }
  }

  lemma SamePpn(k: Snapshot, k': Snapshot)
    requires k.base == k'.base && k.offset == k'.offset
    ensures PpnOf(k, 0) == PpnOf(k', 0)
  {
  }

  lemma SameData(k: Snapshot, k': Snapshot, root: nat, n: nat)
    requires LeafOf(k', root, n) == LeafOf(k, root, n) && PpnOf(k', 0) == PpnOf(k, 0)
    ensures HasData(k', root, n) == HasData(k, root, n) && DataAt(k', root, n) == DataAt(k, root, n)
  {
    hide Lookup;
  }

  /** The address space that got a page is still in order. */
  lemma InstalledSpace(k: Snapshot, k': Snapshot, root: nat, n: nat, p: nat, bytes: seq<nat>, prot: nat,
      ms: seq<Mapping>)
    requires Installed(k, k', root, n, p, bytes, prot) && AddressSpace(k, root, ms)
    requires n < USER_PAGES && n != TRAMPOLINE_PAGE && LeafOf(k, root, n) == None && InMapping(ms, n, prot)
    ensures AddressSpace(k', root, ms)
  {
    hide LeafOf, DataPage, UserRoot, PpnOf, InMapping;
    SamePpn(k, k');
    DataPagesLive(k, root, ms);
    SmallLeaves(k, root, ms);
    forall m: nat | m < USER_PAGES
      ensures PageFine(k', root, ms, m)
      ensures m != n ==> HasData(k', root, m) == HasData(k, root, m) && DataAt(k', root, m) == DataAt(k, root, m)
    {
      assert PageFine(k, root, ms, m);
      if m != n { SameData(k, k', root, m); }
    }
    hide DataAt, HasData, PageFine;
    assert NotShared(k', root) by { NotSharedWith(k, k', root, n); }
  }

  lemma NotSharedWith(k: Snapshot, k': Snapshot, root: nat, n: nat)
    requires NotShared(k, root) && DataAt(k', root, n) !in k.pages.live
    requires forall m: nat :: HasData(k, root, m) ==> DataAt(k, root, m) in k.pages.live
    requires forall m: nat :: m < USER_PAGES && m != n ==>
      HasData(k', root, m) == HasData(k, root, m) && DataAt(k', root, m) == DataAt(k, root, m)
    ensures NotShared(k', root)
  {
    hide LeafOf, DataAt;
  }

  /** So is every other address space. */
  lemma InstalledOther(k: Snapshot, k': Snapshot, root: nat, n: nat, p: nat, bytes: seq<nat>, prot: nat, r: nat,
      ms: seq<Mapping>)
    requires Installed(k, k', root, n, p, bytes, prot) && AddressSpace(k, r, ms) && r != root
    ensures AddressSpace(k', r, ms)
    ensures forall m: nat :: m < USER_PAGES ==> LeafOf(k', r, m) == LeafOf(k, r, m)
  {
    hide LeafOf, DataPage, UserRoot, PpnOf, InMapping;
    SamePpn(k, k');
    SmallLeaves(k, r, ms);
    forall m: nat | m < USER_PAGES
      ensures PageFine(k', r, ms, m) && LeafOf(k', r, m) == LeafOf(k, r, m)
      ensures HasData(k', r, m) == HasData(k, r, m) && DataAt(k', r, m) == DataAt(k, r, m)
    {
      assert PageFine(k, r, ms, m);
      SameData(k, k', r, m);
    }
    hide DataAt, PageFine;
  }

  lemma DataPagesLive(k: Snapshot, root: nat, ms: seq<Mapping>)
    requires AddressSpace(k, root, ms)
    ensures forall m: nat :: HasData(k, root, m) ==>
      DataAt(k, root, m) in k.pages.live && DataPage(k, DataAt(k, root, m))
  {
    hide Lookup, UserRoot, PpnOf, InMapping;
    forall m: nat | HasData(k, root, m) ensures DataPage(k, DataAt(k, root, m)) {
      assert PageFine(k, root, ms, m);
    }
  }

  lemma SmallLeaves(k: Snapshot, root: nat, ms: seq<Mapping>)
    requires AddressSpace(k, root, ms)
    ensures UserRoot(k.space.tree, root) && forall m :: 0 <= m < USER_PAGES ==> SmallLeaf(k, root, m)
  {
    hide Lookup, UserRoot, DataPage, InMapping;
    forall m | 0 <= m < USER_PAGES ensures SmallLeaf(k, root, m) {
      assert PageFine(k, root, ms, m);
    }
  }

  /** The page tables, and the pages and bytes of data, are as before. */
  ghost predicate SpaceKept(k: Snapshot, k': Snapshot) {
    && k'.base == k.base && k'.offset == k.offset && k'.kernelPgd == k.kernelPgd && k'.trampoline == k.trampoline
    && k'.space == k.space
    && k'.contents == k.contents
    && forall q :: DataPage(k, q) ==> DataPage(k', q)
  }

  lemma KeptSpace(k: Snapshot, k': Snapshot, root: nat, ms: seq<Mapping>)
    requires SpaceKept(k, k') && AddressSpace(k, root, ms)
    ensures AddressSpace(k', root, ms)
  {
    hide Lookup, DataPage, UserRoot, InMapping, PpnOf;
    SamePpn(k, k');
    forall m: nat | m < USER_PAGES
      ensures PageFine(k', root, ms, m)
      ensures HasData(k', root, m) == HasData(k, root, m) && DataAt(k', root, m) == DataAt(k, root, m)
    {
      assert PageFine(k, root, ms, m);
    }
    hide DataAt, PageFine;
  }

  lemma KeptOwned(k: Snapshot, k': Snapshot, root: nat)
    requires SpaceKept(k, k')
    ensures DataPages(k', root) == DataPages(k, root) && TablePages(k', root) == TablePages(k, root)
    ensures forall n: nat :: LeafOf(k', root, n) == LeafOf(k, root, n) && DataAt(k', root, n) == DataAt(k, root, n)
  {
    hide Lookup, DataPage;
    forall n: nat ensures HasData(k', root, n) == HasData(k, root, n) {
    }
  }

  /** A new chunk takes no page but a free one. */
  lemma ChunkKeeps(k: Snapshot, k': Snapshot, addr: nat, root: nat)
    requires NewChunk(k, k', addr) && Consistent(k)
    ensures SpaceKept(k, k') && OutsidePages(k', root) == OutsidePages(k, root)
    ensures k'.heap.large == k.heap.large && addr !in k.heap.chunks
    ensures k'.heap.chunks.Keys == k.heap.chunks.Keys + {addr}
    ensures Grows(k, k')
    ensures k'.pages.free <= k.pages.free && |k'.pages.free| >= |k.pages.free| - 1
  {
    hide Consistent, DataPages, TablePages, Range;
    var i :| NewChunkOf(k, k', addr, i);
    if k'.pages != k.pages {
      var p :| NewPoolPage(k, k', addr, i, p);
      OnePage(p);
      FreeUnused(k, p);
    }
    forall q | DataPage(k, q) ensures DataPage(k', q) {
    }
    KeptOwned(k, k', root);
  }

  /** However `n` more pages are taken, a run for a kernel stack is left. */
  ghost predicate Plenty(free: set<nat>, n: nat) {
    forall taken: set<nat> :: |taken| <= n ==> RunExists(free - taken, KERNEL_STACK_ORDER)
  }

  lemma PlentyLeft(free: set<nat>, left: set<nat>, n: nat, m: nat)
    requires Plenty(free, n) && left <= free && |left| >= |free| - m && m <= n
    ensures Plenty(left, n - m)
  {
    hide RunExists;
    var gone := free - left;
    assert |gone| <= m by { assert free == left + gone; }
    forall taken: set<nat> | |taken| <= n - m ensures RunExists(left - taken, KERNEL_STACK_ORDER) {
      assert left - taken == free - (gone + taken);
      UnionSize(gone, taken);
    }
  }

  lemma UnionSize(a: set<nat>, b: set<nat>)
    ensures |a + b| <= |a| + |b|
  {
    assert a + b == a + (b - a);
    assert |b - a| <= |b| by { assert b == (b - a) + (b * a); }
  }

  lemma PlentyPages(free: set<nat>, n: nat)
    requires Plenty(free, n)
    ensures |free| > n && RunExists(free, KERNEL_STACK_ORDER)
  {
    assert free - {} == free;
    if |free| <= n { NoRunInNothing(free); }
  }

  lemma NoRunInNothing(free: set<nat>)
    ensures !RunExists(free - free, KERNEL_STACK_ORDER)
  {
    forall s: nat ensures !Whole(free - free, s, KERNEL_STACK_ORDER) {
      StartInRange(s, KERNEL_STACK_ORDER);
    }
  }

  /** What holds of the address space `r` before also holds after, and its pages and bytes are the same. */
  ghost predicate SameSpace(k: Snapshot, k': Snapshot, r: nat) {
    && TablesOf(k'.space.tree, r) == TablesOf(k.space.tree, r)
    && (forall n: nat :: n < USER_PAGES ==> LeafOf(k', r, n) == LeafOf(k, r, n) && DataAt(k', r, n) == DataAt(k, r, n))
    && (forall n: nat :: HasData(k, r, n) && DataAt(k, r, n) in k.contents ==>
          DataAt(k, r, n) in k'.contents && k'.contents[DataAt(k, r, n)] == k.contents[DataAt(k, r, n)])
  }

  ghost predicate OthersKept(k: Snapshot, k': Snapshot, root: nat) {
    forall r, ms :: r != root && AddressSpace(k, r, ms) ==> AddressSpace(k', r, ms) && SameSpace(k, k', r)
  }

  lemma OthersKeptTwice(k: Snapshot, k1: Snapshot, k2: Snapshot, root: nat)
    requires OthersKept(k, k1, root) && OthersKept(k1, k2, root)
    ensures OthersKept(k, k2, root)
  {
    hide AddressSpace, LeafOf, DataAt;
    forall r, ms | r != root && AddressSpace(k, r, ms) ensures AddressSpace(k2, r, ms) && SameSpace(k, k2, r) {
      assert AddressSpace(k1, r, ms) && SameSpace(k, k1, r);
    }
  }

  lemma InstalledOthers(k: Snapshot, k': Snapshot, root: nat, n: nat, p: nat, bytes: seq<nat>, prot: nat)
    requires Installed(k, k', root, n, p, bytes, prot)
    ensures OthersKept(k, k', root)
  {
    hide LeafOf, AddressSpace, PpnOf, DataPage;
    forall r, ms | r != root && AddressSpace(k, r, ms) ensures AddressSpace(k', r, ms) && SameSpace(k, k', r) {
      InstalledOther(k, k', root, n, p, bytes, prot, r, ms);
      DataPagesLive(k, r, ms);
      SamePpn(k, k');
    }
  }

  lemma KeptOthers(k: Snapshot, k': Snapshot, root: nat)
    requires SpaceKept(k, k')
    ensures OthersKept(k, k', root)
  {
    hide LeafOf, AddressSpace, DataPage, DataAt;
    forall r, ms | r != root && AddressSpace(k, r, ms) ensures AddressSpace(k', r, ms) && SameSpace(k, k', r) {
      KeptSpace(k, k', r, ms);
      KeptOwned(k, k', r);
    }
  }

  lemma SameSpaceTwice(k: Snapshot, k1: Snapshot, k2: Snapshot, r: nat)
    requires SameSpace(k, k1, r) && SameSpace(k1, k2, r)
    ensures SameSpace(k, k2, r)
  {
    hide LeafOf, DataAt;
  }

  lemma OtherKept(k: Snapshot, k': Snapshot, root: nat, r: nat, ms: seq<Mapping>)
    requires OthersKept(k, k', root) && r != root && AddressSpace(k, r, ms)
    ensures AddressSpace(k', r, ms) && SameSpace(k, k', r)
  {
    hide AddressSpace, SameSpace;
  }

  /** Mapping the trampoline page. */
  lemma MappedTrampoline(k: Snapshot, k': Snapshot, root: nat, ms: seq<Mapping>)
    requires MappedPage(k, k', root, TRAMPOLINE_PAGE, Leaf(0, k.trampoline, PTE_USER_CODE_PROT))
    requires Consistent(k) && Consistent(k') && AddressSpace(k, root, ms)
    ensures AddressSpace(k', root, ms) && OutsidePages(k', root) == OutsidePages(k, root) && OthersKept(k, k', root)
    ensures Grows(k, k')
    ensures LeafOf(k', root, TRAMPOLINE_PAGE) == Some(Leaf(0, k.trampoline, PTE_USER_CODE_PROT))
    ensures forall n: nat :: n < USER_PAGES && n != TRAMPOLINE_PAGE ==>
      LeafOf(k', root, n) == LeafOf(k, root, n) && DataAt(k', root, n) == DataAt(k, root, n)
  {
    hide Consistent, AllMapped, Extends, LeafOf, DataPage, UserRoot, PpnOf, InMapping, TookTables;
    var leaf := Leaf(0, k.trampoline, PTE_USER_CODE_PROT);
    SmallLeaves(k, root, ms);
    SamePpn(k, k');
    AllStillData(k, k');
    MappedGrows(k, k', root, leaf);
    MappedOthers(k, k', root, TRAMPOLINE_PAGE, leaf);
    MappedTables(k, k', root, TRAMPOLINE_PAGE, leaf);
    MappedLookups(k, k', root, TRAMPOLINE_PAGE, leaf, root, TRAMPOLINE_PAGE);
    forall n: nat | n < USER_PAGES && n != TRAMPOLINE_PAGE
      ensures LeafOf(k', root, n) == LeafOf(k, root, n) && DataAt(k', root, n) == DataAt(k, root, n)
      ensures HasData(k', root, n) == HasData(k, root, n)
    {
      MappedLookups(k, k', root, TRAMPOLINE_PAGE, leaf, root, n);
      SameData(k, k', root, n);
    }
    MappedSpace(k, k', root, ms);
    MappedOutside(k, k', root, leaf);
    forall r: nat | UserRoot(k.space.tree, r) ensures UserRoot(k'.space.tree, r) {
      RootsKept(k, k', root, TRAMPOLINE_PAGE, leaf, r);
    }
    MappedOtherSpaces(k, k', root);
  }

  lemma MappedGrows(k: Snapshot, k': Snapshot, root: nat, leaf: Leaf)
    requires MappedPage(k, k', root, TRAMPOLINE_PAGE, leaf) && Consistent(k) && UserRoot(k.space.tree, root)
    ensures Grows(k, k')
  {
    hide AllMapped, Extends, OnlyWithin, Consistent, UserRoot, KernelKept;
    MappedKernel(k, k, k', root, TRAMPOLINE_PAGE, leaf);
    ExtendsKeeps(k.space.tree, k'.space.tree, root, 0);
  }

  lemma AllStillData(k: Snapshot, k': Snapshot)
    requires TookTables(k, k') && k.base == k'.base && k.heap == k'.heap
    ensures forall q :: DataPage(k, q) ==> DataPage(k', q)
  {
    hide DataPage, TookTables;
    forall q | DataPage(k, q) ensures DataPage(k', q) {
      StillData(k, k', q);
    }
  }

  lemma MappedSpace(k: Snapshot, k': Snapshot, root: nat, ms: seq<Mapping>)
    requires AddressSpace(k, root, ms) && UserRoot(k'.space.tree, root) && k'.contents == k.contents
    requires k'.trampoline == k.trampoline
    requires forall q :: DataPage(k, q) ==> DataPage(k', q)
    requires LeafOf(k', root, TRAMPOLINE_PAGE) == Some(Leaf(0, k.trampoline, PTE_USER_CODE_PROT))
    requires forall n: nat :: n < USER_PAGES && n != TRAMPOLINE_PAGE ==>
      LeafOf(k', root, n) == LeafOf(k, root, n) && DataAt(k', root, n) == DataAt(k, root, n) &&
        HasData(k', root, n) == HasData(k, root, n)
    ensures AddressSpace(k', root, ms)
  {
    hide LeafOf, DataPage, UserRoot, InMapping, DataAt;
    forall n: nat | n < USER_PAGES ensures PageFine(k', root, ms, n) {
      assert PageFine(k, root, ms, n);
    }
    hide PageFine;
    forall n: nat | HasData(k', root, n) ensures HasData(k, root, n) && DataAt(k', root, n) == DataAt(k, root, n) {
    }
  }

  lemma MappedOutside(k: Snapshot, k': Snapshot, root: nat, leaf: Leaf)
    requires MappedPage(k, k', root, TRAMPOLINE_PAGE, leaf) && Consistent(k) && Consistent(k')
    requires forall n: nat :: n < USER_PAGES && n != TRAMPOLINE_PAGE ==>
      LeafOf(k', root, n) == LeafOf(k, root, n) && DataAt(k', root, n) == DataAt(k, root, n) &&
        HasData(k', root, n) == HasData(k, root, n)
    ensures OutsidePages(k', root) == OutsidePages(k, root)
  {
    hide Consistent, LeafOf, DataAt, AllMapped, Extends, TablePages;
    TableKeys(k);
    TableKeys(k');
    PoolsLive(k);
    MappedTablePages(k, k', root, TRAMPOLINE_PAGE, leaf);
    SameDataPages(k, k', root);
    var taken := PagesOfTables(k, k'.space.tables.Keys - k.space.tables.Keys);
    hide DataPages;
    forall q ensures q in OutsidePages(k', root) <==> q in OutsidePages(k, root) {
    }
  }

  lemma SameDataPages(k: Snapshot, k': Snapshot, root: nat)
    requires forall n: nat :: n < USER_PAGES && n != TRAMPOLINE_PAGE ==>
      DataAt(k', root, n) == DataAt(k, root, n) && HasData(k', root, n) == HasData(k, root, n)
    ensures DataPages(k', root) == DataPages(k, root)
  {
    hide LeafOf, DataAt;
    forall n: nat ensures HasData(k', root, n) == HasData(k, root, n) {
    }
  }

  lemma MappedOtherSpaces(k: Snapshot, k': Snapshot, root: nat)
    requires OthersSame(k, k', root, TRAMPOLINE_PAGE) && OtherTables(k, k', root) && k'.contents == k.contents
    requires k'.trampoline == k.trampoline && PpnOf(k, 0) == PpnOf(k', 0)
    requires forall q :: DataPage(k, q) ==> DataPage(k', q)
    requires forall r: nat :: UserRoot(k.space.tree, r) ==> UserRoot(k'.space.tree, r)
    ensures OthersKept(k, k', root)
  {
    hide LeafOf, AddressSpace, PpnOf, DataPage;
    forall r, ms | r != root && AddressSpace(k, r, ms) ensures AddressSpace(k', r, ms) && SameSpace(k, k', r) {
      MappedOther(k, k', root, r, ms);
    }
  }

  lemma MappedOther(k: Snapshot, k': Snapshot, root: nat, r: nat, ms: seq<Mapping>)
    requires OthersSame(k, k', root, TRAMPOLINE_PAGE) && OtherTables(k, k', root) && k'.contents == k.contents
    requires k'.trampoline == k.trampoline && PpnOf(k, 0) == PpnOf(k', 0)
    requires forall q :: DataPage(k, q) ==> DataPage(k', q)
    requires UserRoot(k.space.tree, r) ==> UserRoot(k'.space.tree, r)
    requires r != root && AddressSpace(k, r, ms)
    ensures AddressSpace(k', r, ms) && SameSpace(k, k', r)
  {
    hide LeafOf, DataPage, UserRoot, PpnOf, InMapping;
    SmallLeaves(k, r, ms);
    forall m: nat | m < USER_PAGES
      ensures PageFine(k', r, ms, m) && LeafOf(k', r, m) == LeafOf(k, r, m)
      ensures HasData(k', r, m) == HasData(k, r, m) && DataAt(k', r, m) == DataAt(k, r, m)
    {
      assert PageFine(k, r, ms, m);
      SameData(k, k', r, m);
    }
    hide DataAt, PageFine;
  }
}
