/**
 The page allocator, the small allocator and the page tables side by side: each operation of one of them in
 terms of the whole memory.
 */
module KernelMemory {
  import opened Bits
  import opened FreeBlocks
  import opened AllocatorRuns
  import PA = PageAllocator
  import opened DynamicAllocator
  import opened Sv39
  import opened PageTree
  import opened Traversal
  import opened Teardown
  import opened Roots
  import opened VirtualMemory
  import opened AddressSpaces

  class KernelMemory {
    const vm: VirtualMemory
    const heap: DynamicAllocator
    /** The physical page of `_signal_trampoline`. */
    const trampoline: nat
    /** The byte at an address of the initial ramdisk. */
    const ramdisk: nat -> nat
    /** The bytes of every page that was filled, by its index. */
    var contents: map<nat, seq<nat>>

    ghost predicate Valid()
      reads this, vm, vm.pages, vm.pages.frameArray, vm.pages.ordersLists, heap, heap.pools
    {
      && heap.pages == vm.pages && vm.Valid() && heap.Valid() && Apart() && vm.kernelPgd > 0
      && trampoline < 0x1000_0000_0000 && SharedHalf(vm.tree, vm.tables, vm.kernelPgd)
    }

    /** Tables are not in pool pages, and only user roots are large blocks. */
    ghost predicate Apart()
      reads vm, vm.pages`base, heap
    {
      && vm.kernelPgd in vm.tree.window && vm.tree.window[vm.kernelPgd] == PAGE_TABLE_ENTRIES_NUM
      && forall t :: t in vm.tree.place && t != vm.kernelPgd ==>
        && vm.pages.PageIndex(t) !in heap.poolPages
        && (vm.pages.PageIndex(t) in heap.large <==> vm.tree.place[t].level == 2)
    }

    /** After the page allocator, the kernel's address space and the small allocator are set up. */
    constructor (vm: VirtualMemory, heap: DynamicAllocator, trampoline: nat, ramdisk: nat -> nat)
      requires heap.pages == vm.pages && vm.Valid() && heap.Valid() && vm.kernelPgd > 0 && trampoline < 0x1000_0000_0000
      requires heap.poolPages == map[] && heap.large == {}
      requires vm.kernelPgd in vm.tree.window && vm.tree.window[vm.kernelPgd] == PAGE_TABLE_ENTRIES_NUM
      requires forall t :: t in vm.tree.place && t != vm.kernelPgd ==> vm.tree.place[t].level < 2
      ensures Valid() && this.vm == vm && this.heap == heap && this.trampoline == trampoline && contents == map[]
    {
      hide PA.Tiles, PA.Heads, PA.Listed, Carved, SharedHalf, Wellformed, PoolMetadata, TablesBacked, HeapBacked;
      hide RootInKernel;
      this.vm, this.heap, this.trampoline, this.ramdisk, contents := vm, heap, trampoline, ramdisk, map[];
      new;
      RootAlone();
    }

    lemma RootAlone()
      requires vm.Valid() && forall t :: t in vm.tree.place && t != vm.kernelPgd ==> vm.tree.place[t].level < 2
      ensures SharedHalf(vm.tree, vm.tables, vm.kernelPgd)
    {
      hide PA.Tiles, PA.Heads, PA.Listed, vm.Physical;
      PlacedTables();
      vm.KernelTable();
      hide Wellformed;
      SharedAlone(vm.tree, vm.tables, vm.kernelPgd);
    }

    ghost function Now(): Snapshot
      reads this, vm, vm.pages, heap
    {
      Snapshot(vm.pages.base, vm.offset, vm.kernelPgd, trampoline, Space(vm.tree, vm.tables),
        Heap(heap.poolPages, heap.large, heap.chunks), vm.pages.Memory(), contents)
    }

    lemma ValidConsistent()
      requires Valid()
      ensures Consistent(Now())
    {
      hide PA.Tiles, PA.Heads, PA.Listed, Carved, SharedHalf, Wellformed, PoolMetadata, TablesBacked, HeapBacked;
      hide RootInKernel;
      TablesAreBacked();
      HeapIsBacked();
      PlacedAndLive();
      NoTableAtZero();
      KernelRootReserved();
    }

    lemma KernelRootReserved()
      requires Valid()
      ensures RootInKernel(Now())
    {
      hide PA.Heads, PA.Listed, Carved, Wellformed, PoolMetadata, vm.Backed;
      forall p | p in vm.pages.free || p in vm.pages.live ensures AddrOf(Now(), p) != vm.kernelPgd {
        if p in vm.pages.live { vm.pages.LiveIndex(p); }
        vm.pages.IndexRoundTrip(p);
        if p in vm.pages.reserved { vm.pages.ReservedApart(p); }
      }
    }

    lemma NoTableAtZero()
      requires Valid()
      ensures 0 !in vm.tables
    {
      hide PA.Tiles, PA.Heads, PA.Listed, Carved, SharedHalf, Wellformed, PoolMetadata;
      forall t | t in vm.tables && t != vm.kernelPgd ensures t > 0 {
        assert vm.LivePage(t);
      }
    }

    lemma HeapIsBacked()
      requires heap.Valid() && heap.pages == vm.pages
      ensures HeapBacked(Now())
    {
      hide PA.Tiles, PA.Heads, PA.Listed, Carved;
    }

    lemma TablesAreBacked()
      requires Valid()
      ensures TablesBacked(Now())
    {
      hide PA.Tiles, PA.Heads, PA.Listed, Carved, SharedHalf, Wellformed, PoolMetadata;
      PlacedTables();
      forall t | t in vm.tree.place && t != vm.kernelPgd
        ensures LiveBlock(Now(), t, 0) && PageAt(Now(), t) == vm.pages.PageIndex(t)
      {
        assert vm.LivePage(t);
        PageAddress(t);
      }
    }

    /** The page index that the code computes for the address of a live page. */
    lemma PageAddress(addr: nat)
      requires vm.LivePage(addr)
      ensures LiveBlock(Now(), addr, 0) && PageAt(Now(), addr) == vm.pages.PageIndex(addr)
    {
      var p := vm.pages.PageIndex(addr);
      assert addr == vm.pages.base + 4096 * p;
    }

    lemma PlacedTables()
      requires vm.Valid()
      ensures vm.tables.Keys == vm.tree.place.Keys
      ensures vm.kernelPgd in vm.tree.place ==>
        (vm.tree.place[vm.kernelPgd].level == 2 ==> vm.tree.place[vm.kernelPgd] == RootPlace(vm.kernelPgd))
    {
      hide PA.Tiles, PA.Heads, PA.Listed, EntryOk, PointedTo, Pointable;
    }

    lemma PlacedAndLive()
      requires vm.Valid()
      ensures vm.pages.free !! vm.pages.live.Keys
    {
      hide PA.Heads, PA.Listed, Wellformed;
    }

    /** The page tables are untouched and their pages are still live. */
    twostate lemma VmStable()
      requires old(vm.Valid()) && vm.pages.Valid()
      requires vm.tree == old(vm.tree) && vm.tables == old(vm.tables) && vm.offset == old(vm.offset)
      requires vm.pages.base == old(vm.pages.base) && vm.pages.frameArray == old(vm.pages.frameArray)
      requires vm.pages.reserved == old(vm.pages.reserved)
      requires TablesKept(Now(), vm.pages.live)
      ensures vm.Valid()
    {
      hide PA.Tiles, PA.Heads, PA.Listed, Wellformed;
      forall t | t in vm.tables && t != vm.kernelPgd ensures vm.LivePage(t) {
        assert old(vm.LivePage(t));
        assert t == vm.pages.base + 4096 * vm.pages.PageIndex(t);
        assert PageAt(Now(), t) == vm.pages.PageIndex(t);
      }
    }

    /** The small allocator is untouched and its pages are still live, in their pools. */
    twostate lemma HeapStable()
      requires old(heap.Valid()) && heap.pages.Valid()
      requires heap.poolPages == old(heap.poolPages) && heap.large == old(heap.large) && heap.chunks == old(heap.chunks)
      requires heap.pools[..] == old(heap.pools[..]) && heap.pages.base == old(heap.pages.base)
      requires heap.pages.frameArray == old(heap.pages.frameArray)
      requires forall p :: 0 <= p < heap.pages.frameArray.Length ==>
        heap.pages.frameArray[p].poolIndex == old(heap.pages.frameArray[p].poolIndex)
      requires HeapKept(Heap(heap.poolPages, heap.large, heap.chunks), old(heap.pages.live), heap.pages.live)
      ensures heap.Valid()
    {
      hide PA.Tiles, PA.Heads, PA.Listed, Carved;
      PoolMetadataStable(old(heap.pages.frameArray[..]), old(heap.pages.live), heap.pages.frameArray[..],
          heap.pages.live, heap.poolPages, heap.large);
    }

    /** `memory_allocate_pages` of one page, and filling it. */
    method AllocatePage(bytes: seq<nat>) returns (addr: nat)
      requires Valid() && vm.pages.free != {}
      modifies this`contents, vm.pages`free, vm.pages`live, vm.pages.frameArray, vm.pages.ordersLists
      ensures Valid() && GotPage(old(Now()), Now(), addr, bytes)
    {
      hide PA.Tiles, PA.Heads, PA.Listed, Carved, SharedHalf, Wellformed, PoolMetadata, GotPage, LiveBlock, PageAt;
      hide PA.PageAllocator.PageIndex;
      hide TakenPages, HeapKept, vm.Physical, vm.Backed;
      ghost var was := Now();
      HeapIsBacked();
      addr := vm.AllocatePage();
      HeapKeptTaken(was, vm.pages.Memory(), {vm.pages.PageIndex(addr)});
      HeapStable();
      contents := contents[vm.pages.PageIndex(addr) := bytes];
      PageAddress(addr);
      GotPageFrom(was, Now(), addr, vm.pages.PageIndex(addr), bytes);
    }

    lemma LivePageAt(addr: nat, order: nat)
      requires vm.Valid() && LiveBlock(Now(), addr, order)
      ensures vm.pages.PageIndex(addr) == PageAt(Now(), addr) && PageAt(Now(), addr) < vm.pages.frameArray.Length
      ensures addr == vm.pages.AddressOf(PageAt(Now(), addr)) && addr > 0
      ensures order == 0 ==> vm.LivePage(addr)
    {
      hide PA.Tiles, PA.Heads, PA.Listed, Wellformed, vm.Backed;
      vm.pages.LiveIndex(PageAt(Now(), addr));
      vm.pages.IndexRoundTrip(PageAt(Now(), addr));
    }

    /** `memory_free_pages` of a data page. */
    method FreePage(addr: nat)
      requires Valid() && DataPage(Now(), PageAt(Now(), addr)) && addr == AddrOf(Now(), PageAt(Now(), addr))
      modifies vm.pages`free, vm.pages`live, vm.pages`pending, vm.pages.frameArray, vm.pages.ordersLists
      ensures Valid() && GavePage(old(Now()), Now(), PageAt(old(Now()), addr))
    {
      hide PA.Tiles, PA.Heads, PA.Listed, Carved, SharedHalf, Wellformed, PoolMetadata, PA.PageAllocator.PageIndex;
      hide HeapKept, TablesKept, vm.Physical, vm.Backed, Consistent, HeapBacked;
      ghost var was, p := Now(), PageAt(Now(), addr);
      ValidConsistent();
      HeapIsBacked();
      LivePageAt(addr, 0);
      vm.FreePage(addr);
      HeapKeptReturned(was, vm.pages.Memory(), {p});
      TablesKeptReturned(was, vm.pages.Memory(), p);
      assert TablesKept(Now(), vm.pages.live) by { SameTablesKept(was, Now()); }
      VmStable();
      HeapStable();
    }

    lemma SameTablesKept(k: Snapshot, k': Snapshot)
      requires TablesKept(k, k'.pages.live)
      requires k'.space == k.space && k'.base == k.base && k'.kernelPgd == k.kernelPgd
      ensures TablesKept(k', k'.pages.live)
    {
    }

    /** `allocate` of a size for which there is a pool, while a page is free. */
    method AllocateChunk(size: nat) returns (addr: nat)
      requires Valid() && size <= CHUNK_SIZES[POOLS_SIZE - 1] && vm.pages.free != {}
      modifies heap, vm.pages`free, vm.pages`live, vm.pages.frameArray, vm.pages.ordersLists, heap.pools
      ensures Valid() && NewChunk(old(Now()), Now(), addr)
    {
      hide PA.Tiles, PA.Heads, PA.Listed, Carved, SharedHalf, Wellformed, PoolMetadata, PA.PageAllocator.PageIndex;
      hide HeapKept, TablesKept, vm.Physical, vm.Backed, Consistent, HeapBacked, NewChunk;
      ghost var was := Now();
      ValidConsistent();
      PlacedTables();
      OnePageRun(vm.pages.free);
      addr := heap.Allocate(size);
      assert addr != 0 && exists i: nat :: heap.ChunkAllocated(i, addr);
      ChunkIsNew(addr);
      ChunkApart(addr);
      VmStable();
    }

    twostate lemma ChunkIsNew(addr: nat)
      requires old(Consistent(Now())) && (exists i: nat :: heap.ChunkAllocated(i, addr)) && heap.pages == vm.pages
      requires Now() == Update(old(Now()), old(Now()).space, Now().heap, Now().pages, old(contents))
      ensures NewChunk(old(Now()), Now(), addr) && TablesKept(Now(), vm.pages.live)
    {
      hide Consistent, TablesKept, PA.PageAllocator.PageIndex, Allocates;
      ghost var k, k', p := old(Now()), Now(), vm.pages.PageIndex(addr);
      ghost var i: nat :| heap.ChunkAllocated(i, addr);
      if old(heap.pools[i].list) != [] {
        TablesKeptNow(k);
      } else {
        TablesKeptAllocated(k, k'.pages, p, 0);
        assert NewPoolPage(k, k', addr, i, p);
      }
      assert NewChunkOf(k, k', addr, i);
      SameTablesKept(k, k');
    }

    /** New pool pages hold no tables. */
    twostate lemma ChunkApart(addr: nat)
      requires old(Valid()) && exists i: nat :: heap.ChunkAllocated(i, addr)
      requires vm.tree == old(vm.tree) && vm.tables == old(vm.tables) && vm.pages.base == old(vm.pages.base)
      requires vm.tables.Keys == vm.tree.place.Keys
      ensures Apart()
    {
      hide PA.Tiles, PA.Heads, PA.Listed, Carved, SharedHalf, Wellformed, PoolMetadata, PA.PageAllocator.PageIndex;
      forall t | t in vm.tree.place && t != vm.kernelPgd ensures vm.pages.PageIndex(t) in old(vm.pages.live) {
        assert old(vm.LivePage(t));
      }
    }

    /** `free` of a live chunk. */
    method FreeChunk(addr: nat)
      requires Valid() && addr in heap.chunks
      modifies heap`large, heap`chunks, vm.pages`free, vm.pages`live, vm.pages`pending, vm.pages.frameArray,
          vm.pages.ordersLists, heap.pools
      ensures Valid() && ChunkGone(old(Now()), Now(), addr)
    {
      hide PA.Tiles, PA.Heads, PA.Listed, Carved, SharedHalf, Wellformed, PoolMetadata, PA.PageAllocator.PageIndex;
      hide HeapKept, TablesKept, vm.Physical, vm.Backed, Consistent, HeapBacked;
      ghost var was := Now();
      ValidConsistent();
      heap.LivePoolIndex(addr);
      ChunkAddress(addr);
      heap.Free(addr);
      TablesKeptNow(was);
      SameTablesKept(was, Now());
      VmStable();
    }

    lemma ChunkAddress(addr: nat)
      requires heap.Valid() && addr in heap.chunks
      ensures addr > 0
    {
      hide PA.Tiles, PA.Heads, PA.Listed, PoolMetadata;
      CarvedFree(heap.pages.base, heap.pools[..], heap.poolPages, heap.chunks, addr);
    }

    /** `allocate` of a size above the largest chunk, while a run of pages for it is free. */
    method AllocateBlock(size: nat) returns (addr: nat)
      requires Valid() && CHUNK_SIZES[POOLS_SIZE - 1] < size < 0x1_0000_0000
      requires PA.RequiredOrder(size) < PA.MAX_ORDERS && RunExists(vm.pages.free, PA.RequiredOrder(size))
      modifies heap, vm.pages`free, vm.pages`live, vm.pages.frameArray, vm.pages.ordersLists, heap.pools
      ensures Valid() && NewBlock(old(Now()), Now(), addr, PA.RequiredOrder(size))
    {
      hide PA.Tiles, PA.Heads, PA.Listed, Carved, SharedHalf, Wellformed, PoolMetadata, PA.PageAllocator.PageIndex;
      hide PA.RequiredOrder;
      hide HeapKept, TablesKept, vm.Physical, vm.Backed, Consistent, HeapBacked, RunExists, Allocates;
      ghost var was := Now();
      ValidConsistent();
      PlacedTables();
      addr := heap.Allocate(size);
      ghost var o := PA.RequiredOrder(size);
      AddressPage(addr);
      TablesKeptAllocated(was, Now().pages, PageAt(was, addr), o);
      SameTablesKept(was, Now());
      BlockApart(addr);
      VmStable();
    }

    lemma AddressPage(addr: nat)
      requires addr == vm.pages.AddressOf(vm.pages.PageIndex(addr))
      ensures PageAt(Now(), addr) == vm.pages.PageIndex(addr)
    {
    }

    /** A new large block holds no table. */
    twostate lemma BlockApart(addr: nat)
      requires old(Valid()) && heap.poolPages == old(heap.poolPages)
      requires heap.large == old(heap.large) + {vm.pages.PageIndex(addr)}
      requires vm.pages.PageIndex(addr) !in old(vm.pages.live)
      requires vm.tree == old(vm.tree) && vm.tables == old(vm.tables) && vm.pages.base == old(vm.pages.base)
      requires vm.tables.Keys == vm.tree.place.Keys
      ensures Apart()
    {
      hide PA.Tiles, PA.Heads, PA.Listed, Carved, SharedHalf, Wellformed, PoolMetadata, PA.PageAllocator.PageIndex;
      forall t | t in vm.tree.place && t != vm.kernelPgd ensures vm.pages.PageIndex(t) in old(vm.pages.live) {
        assert old(vm.LivePage(t));
      }
    }

    /** `free` of a large block that holds no table. */
    method FreeBlock(addr: nat, ghost order: nat)
      requires Valid() && LiveBlock(Now(), addr, order) && PageAt(Now(), addr) in heap.large && addr !in vm.tables
      modifies heap`large, heap`chunks, vm.pages`free, vm.pages`live, vm.pages`pending, vm.pages.frameArray,
          vm.pages.ordersLists, heap.pools
      ensures Valid() && BlockGone(old(Now()), Now(), addr)
    {
      hide PA.Tiles, PA.Heads, PA.Listed, Carved, SharedHalf, Wellformed, PoolMetadata, PA.PageAllocator.PageIndex;
      hide HeapKept, TablesKept, vm.Physical, vm.Backed, Consistent, HeapBacked;
      ghost var was, p := Now(), PageAt(Now(), addr);
      ValidConsistent();
      PlacedTables();
      LivePageAt(addr, order);
      heap.LivePoolIndex(addr);
      heap.Free(addr);
      TablesKeptReturned(was, Now().pages, p);
      SameTablesKept(was, Now());
      StillApart(p);
      VmStable();
    }

    twostate lemma StillApart(p: nat)
      requires old(Valid()) && heap.poolPages == old(heap.poolPages) && heap.large == old(heap.large) - {p}
      requires vm.pages.AddressOf(p) !in vm.tables && vm.tables.Keys == vm.tree.place.Keys
      requires vm.tree == old(vm.tree) && vm.tables == old(vm.tables) && vm.pages.base == old(vm.pages.base)
      ensures Apart()
    {
      hide PA.Tiles, PA.Heads, PA.Listed, Carved, SharedHalf, Wellformed, PoolMetadata, PA.PageAllocator.PageIndex;
      forall t | t in vm.tree.place && t != vm.kernelPgd ensures vm.pages.PageIndex(t) != p {
        assert old(vm.LivePage(t));
      }
    }

    /** `virtual_memory_map` of one page of a user address space. */
    method MapPage(pgd: nat, vaddr: nat, paddr: nat, prot: nat)
      requires Valid() && UserRoot(vm.tree, pgd) && vaddr % 4096 == 0 && vaddr < 4096 * USER_PAGES && LeafProt(prot)
      requires paddr % 4096 == 0 && paddr + 4096 <= 0x100_0000_0000_0000 && |vm.pages.free| >= 2
      modifies vm`tables, vm`tree, vm.pages`free, vm.pages`live, vm.pages.frameArray, vm.pages.ordersLists
      ensures Valid() && MappedPage(old(Now()), Now(), pgd, vaddr / 4096, Leaf(0, paddr / 4096, prot))
      ensures |vm.pages.free| >= |old(vm.pages.free)| - 2
    {
      hide PA.Tiles, PA.Heads, PA.Listed, Carved, SharedHalf, Wellformed, PoolMetadata, PA.PageAllocator.PageIndex;
      hide TakenPages;
      hide HeapKept, TablesKept, vm.Physical, vm.Backed, Consistent, HeapBacked, Mappable, AllMapped, Extends, vm.Took;
      hide UserRoot, TookTables, Vpn, SpanPages, TablesNeeded, LeafProt, OnlyWithin;
      ghost var was := Now();
      PlacedTables();
      HeapIsBacked();
      vm.KernelTable();
      OnePageMappable(pgd, vaddr, paddr, prot);
      vm.MapPages(pgd, vaddr, paddr, 4096, prot, 0);
      PlacedTables();
      ExtendsKeeps(was.space.tree, vm.tree, pgd, 0);
      TookInPages();
      TookApart();
      UserNotKernel(was.space.tree, pgd);
      SharedMapped(was.space.tree, was.space.tables, vm.tree, vm.tables, vm.kernelPgd, pgd);
      HeapKeptTaken(was, Now().pages, vm.PagesOf(vm.tables.Keys - was.space.tables.Keys));
      HeapStable();
    }

    /** The kernel's root has all entries for its own. */
    lemma UserNotKernel(tree: Tree, pgd: nat)
      requires UserRoot(tree, pgd)
      requires vm.kernelPgd in tree.window && tree.window[vm.kernelPgd] == PAGE_TABLE_ENTRIES_NUM
      ensures pgd != vm.kernelPgd
    {
    }

    lemma OnePageMappable(pgd: nat, vaddr: nat, paddr: nat, prot: nat)
      requires UserRoot(vm.tree, pgd) && vaddr % 4096 == 0 && vaddr < 4096 * USER_PAGES && LeafProt(prot)
      requires paddr % 4096 == 0 && paddr + 4096 <= 0x100_0000_0000_0000
      ensures Mappable(vm.tree, pgd, vaddr, paddr, 4096, prot, 0)
      ensures SpanPages(4096, 0) == 1 && TablesNeeded(SpanPages(4096, 0), 0) == 2 && Vpn(vaddr) == vaddr / 4096
    {
      UserWindow(vm.tree, pgd, vaddr / 4096);
      assert LevelPages(0) == 1;
    }

    /** What mapping took from the page allocator, in terms of the whole memory. */
    twostate lemma TookInPages()
      requires vm.Valid() && vm.pages.base == old(vm.pages.base) && old(vm.kernelPgd in vm.tables)
      requires Now() == Update(old(Now()), Now().space, old(Now()).heap, Now().pages, old(contents))
      requires vm.Took(old(vm.tables), old(vm.pages.live), old(vm.pages.free))
      ensures TookTables(old(Now()), Now())
      ensures TakenPages(old(vm.pages.live), old(vm.pages.free), vm.pages.live, vm.pages.free,
          vm.PagesOf(vm.tables.Keys - old(vm.tables).Keys))
    {
      hide PA.Tiles, PA.Heads, PA.Listed, Wellformed, vm.Physical, PageAt, PA.PageAllocator.PageIndex, vm.LivePage;
      PagesOfNew(vm.tables.Keys - old(vm.tables).Keys);
    }

    lemma PagesOfNew(ts: set<nat>)
      requires vm.Valid() && ts <= vm.tables.Keys - {vm.kernelPgd}
      ensures forall k: Snapshot :: k.base == vm.pages.base ==> PagesOfTables(k, ts) == vm.PagesOf(ts)
    {
      hide PA.Tiles, PA.Heads, PA.Listed, Wellformed, vm.Physical;
      forall t, k: Snapshot | t in ts && k.base == vm.pages.base ensures PageAt(k, t) == vm.pages.PageIndex(t) {
        assert vm.LivePage(t);
        AddressPage(t);
      }
    }

    /** New tables lie in pages that the small allocator does not use. */
    twostate lemma TookApart()
      requires old(Apart()) && old(HeapBacked(Now())) && vm.tables.Keys == vm.tree.place.Keys
      requires old(vm.tables.Keys) == old(vm.tree.place.Keys)
      requires heap.poolPages == old(heap.poolPages) && heap.large == old(heap.large)
      requires vm.pages.base == old(vm.pages.base)
      requires vm.Took(old(vm.tables), old(vm.pages.live), old(vm.pages.free)) && KeepsPlaces(old(vm.tree), vm.tree)
      requires vm.tree.window == old(vm.tree.window)
      requires forall t :: t in vm.tree.place && t !in old(vm.tree.place) ==> vm.tree.place[t].level < 2
      ensures Apart()
    {
      hide PA.PageAllocator.PageIndex;
      forall t | t in vm.tree.place && t !in old(vm.tree.place) ensures vm.pages.PageIndex(t) !in old(vm.pages.live) {
        assert vm.pages.PageIndex(t) in vm.PagesOf(vm.tables.Keys - old(vm.tables).Keys);
      }
    }

    /** `virtual_memory_traverse_leafs` of a range of a user address space. */
    method Traverse(pgd: nat, start: nat, end: nat) returns (visits: seq<Visit>)
      requires Valid() && UserRoot(vm.tree, pgd) && start <= end <= 4096 * USER_PAGES
      ensures Exact(vm.tables, vm.offset, pgd, 0, 0x800_0000, start, end, visits)
    {
      hide PA.Tiles, PA.Heads, PA.Listed, Carved, SharedHalf, Wellformed, PoolMetadata, Exact, vm.Physical;
      hide vm.Backed, Apart;
      UserPagesInWindow(pgd, end);
      visits := vm.TraverseLeafs(pgd, 2, 0, start, end, RootPlace(pgd));
    }

    lemma UserPagesInWindow(pgd: nat, end: nat)
      requires UserRoot(vm.tree, pgd) && end <= 4096 * USER_PAGES
      ensures EntryPage(2, 0) == 0 && EntryPage(2, 512) == 0x800_0000
      ensures BelowEndInWindow(vm.tree, pgd, 0, 0x800_0000, end)
    {
      assert EntryPage(0, 0) == 0 && EntryPage(1, 0) == 0 && EntryPage(0, 512) == 512 && EntryPage(1, 512) == 0x4_0000;
      forall n | 0 <= n < 0x800_0000 && 4096 * n < end ensures InWindow(vm.tree, pgd, n) {
        UserWindow(vm.tree, pgd, n);
      }
    }

    /** `virtual_memory_free_tables` of the user half of a root. */
    method FreeUserTables(pgd: nat)
      requires Valid() && UserRoot(vm.tree, pgd)
      modifies vm`tables, vm`tree, vm.pages`free, vm.pages`live, vm.pages`pending, vm.pages.frameArray,
          vm.pages.ordersLists
      ensures Valid() && TablesGone(old(Now()), Now(), pgd) && UserRoot(vm.tree, pgd) && TablesOf(vm.tree, pgd) == {}
    {
      hide PA.Tiles, PA.Heads, PA.Listed, Carved, SharedHalf, Wellformed, PoolMetadata, PA.PageAllocator.PageIndex;
      hide ReturnedPages;
      hide HeapKept, TablesKept, vm.Physical, vm.Backed, Consistent, HeapBacked, Apart, TablesGone, Freed, Below;
      hide Without, TablesOf;
      ghost var was := Now();
      ValidConsistent();
      PlacedTables();
      HeapIsBacked();
      TablesBelow(vm.tree, vm.tables, vm.offset, pgd);
      ghost var gone := TablesOf(vm.tree, pgd);
      PagesOfThose(gone, pgd);
      RootPlaced(vm.tree, vm.tables, vm.offset, pgd);
      ghost var ps := vm.PagesOf(gone);
      vm.FreeTables(pgd, 0, USER_ENTRIES, RootPlace(pgd));
      PlacedTables();
      FreedTables(was.space.tree, was.space.tables, vm.tree, vm.tables, gone, pgd);
      SharedFreed(was.space.tree, was.space.tables, vm.tree, vm.tables, vm.kernelPgd, gone, pgd);
      TablesGoneFrom(was, Now(), pgd, ps);
      HeapKeptReturned(was, Now().pages, ps);
      HeapStable();
      ApartWithout();
    }

    /** Tables of a user address space lie in live pages that the small allocator does not use. */
    lemma PagesOfThose(ts: set<nat>, pgd: nat)
      requires Valid() && ts == TablesOf(vm.tree, pgd)
      ensures vm.PagesOf(ts) == PagesOfTables(Now(), ts)
      ensures PagesOfTables(Now(), ts) !! heap.poolPages.Keys + heap.large
    {
      hide PA.Tiles, PA.Heads, PA.Listed, Carved, SharedHalf, Wellformed, PoolMetadata;
      PlacedTables();
      forall t | t in ts ensures PageAt(Now(), t) == vm.pages.PageIndex(t) {
        assert vm.LivePage(t);
        AddressPage(t);
      }
      hide PageAt, PA.PageAllocator.PageIndex, vm.LivePage;
    }

    twostate lemma ApartWithout()
      requires old(Apart()) && heap.poolPages == old(heap.poolPages) && heap.large == old(heap.large)
      requires vm.pages.base == old(vm.pages.base)
      requires vm.tree.window == old(vm.tree.window) && KeepsPlaces(vm.tree, old(vm.tree))
      ensures Apart()
    {
      hide PA.PageAllocator.PageIndex;
    }

    /** The block at `pgd` becomes the root of a user address space. */
    method AddRoot(pgd: nat, page: seq<nat>)
      requires Valid() && LiveBlock(Now(), pgd, 0) && PageAt(Now(), pgd) in heap.large && pgd !in vm.tables
      requires |page| == PAGE_TABLE_ENTRIES_NUM && page[..USER_ENTRIES] == Zeros(USER_ENTRIES)
      modifies vm`tables, vm`tree
      ensures Valid() && NewRoot(old(Now()), Now(), pgd)
    {
      hide PA.Tiles, PA.Heads, PA.Listed, Carved, SharedHalf, Wellformed, PoolMetadata, vm.Physical, vm.Backed;
      hide PA.PageAllocator.PageIndex, Pointable;
      PlacedTables();
      HeapIsBacked();
      LivePageAt(pgd, 0);
      vm.TablePointable(pgd);
      vm.KernelTable();
      ghost var was := Now();
      vm.AddRoot(pgd, page);
      SharedWithRoot(was.space.tree, was.space.tables, vm.kernelPgd, pgd, vm.tables[pgd]);
    }

    method ForgetRoot(pgd: nat)
      requires Valid() && UserRoot(vm.tree, pgd) && TablesOf(vm.tree, pgd) == {}
      modifies vm`tables, vm`tree
      ensures Valid() && RootGone(old(Now()), Now(), pgd)
    {
      hide PA.Tiles, PA.Heads, PA.Listed, Carved, SharedHalf, Wellformed, PoolMetadata, vm.Physical, vm.Backed;
      hide PA.PageAllocator.PageIndex;
      RootPlaced(vm.tree, vm.tables, vm.offset, pgd);
      SharedWithoutRoot(vm.tree, vm.tables, vm.kernelPgd, pgd);
      vm.ForgetRoot(pgd);
    }

    /** The physical address of a live page, as an entry of a page table holds it. */
    lemma PhysicalPage(addr: nat)
      requires Valid() && LiveBlock(Now(), addr, 0)
      ensures Va2Pa(vm.offset, addr) % 4096 == 0 && Va2Pa(vm.offset, addr) + 4096 <= 0x100_0000_0000_0000
      ensures Va2Pa(vm.offset, addr) / 4096 == PpnOf(Now(), PageAt(Now(), addr))
    {
      hide PA.Tiles, PA.Heads, PA.Listed, Carved, SharedHalf, Wellformed, PoolMetadata, vm.Backed;
      LivePageAt(addr, 0);
      PhysicalNumber(vm.pages.base, vm.offset, PageAt(Now(), addr));
    }

    lemma PhysicalNumber(base: nat, offset: nat, p: nat)
      requires offset <= base && (base - offset) % 4096 == 0 && base - offset + 4096 * (p + 1) <= 0x100_0000_0000_0000
      ensures Va2Pa(offset, base + 4096 * p) == base - offset + 4096 * p
      ensures (base - offset + 4096 * p) / 4096 == (base - offset) / 4096 + p
    {
    }

    /** The address that an entry for live page `p` gives back. */
    lemma DataAddress(pte: nat, p: nat)
      requires Valid() && p in vm.pages.live && Ppn(pte) == PpnOf(Now(), p)
      ensures VaddrFromPte(vm.offset, pte) == AddrOf(Now(), p) && PageAt(Now(), AddrOf(Now(), p)) == p
      ensures vm.pages.PageIndex(AddrOf(Now(), p)) == p
    {
      hide PA.Tiles, PA.Heads, PA.Listed, Carved, SharedHalf, Wellformed, PoolMetadata, vm.Backed, Ppn;
      vm.pages.LiveIndex(p);
      vm.pages.IndexRoundTrip(p);
      PhysicalBack(vm.pages.base, vm.offset, p);
    }

    lemma PhysicalBack(base: nat, offset: nat, p: nat)
      requires offset <= base && (base - offset) % 4096 == 0 && base + 4096 * p < WORD
      ensures Pa2Va(offset, ((base - offset) / 4096 + p) * 4096) == base + 4096 * p
    {
    }

    lemma TrampolineBound()
      requires Valid()
      ensures 4096 * trampoline + 4096 <= 0x100_0000_0000_0000
    {
      hide PA.Tiles, PA.Heads, PA.Listed, Carved, SharedHalf, Wellformed, PoolMetadata, vm.Valid;
    }
  }
}
