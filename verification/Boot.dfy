/** From the start of the kernel to its first task: the set-up of each component hands the next one what it asks for. */
module Boot {
  import opened Bits
  import opened AllocatorRuns
  import PA = PageAllocator
  import opened ReservedMemory
  import opened DynamicAllocator
  import opened Sv39
  import opened PageTree
  import opened VirtualMemory
  import opened KernelMap
  import opened TaskMappings
  import opened Ownership
  import opened KernelMemory
  import opened TaskLife
  import Sched = Scheduler
  import opened Systems
  import opened RunningSystems
  import opened Commands

  /** What the device tree and the linker say: the memory, the regions to reserve in it by their kernel addresses, the
      kernel's image, the kernel address of its root table, and the device that is mapped first. */
  datatype Machine = Machine(base: nat, size: nat, regions: seq<PA.Region>, imageStart: nat, imageSize: nat,
      kernelPgd: nat, device: nat)

  /** Memory at its place in the direct map. */
  function Mapped(m: Machine): PA.Region {
    PA.Region(KERNEL_VIRTUAL_BASE, m.size)
  }

  /** The kernel's root is in memory, in a region that `memory_init` protects. */
  ghost predicate RootReserved(m: Machine) {
    && m.kernelPgd % 4096 == 0 && InRegion(Mapped(m), m.kernelPgd)
    && exists i :: 0 <= i < |m.regions| && InRegion(m.regions[i], m.kernelPgd) && Protected(Mapped(m), m.regions[i])
  }

  ghost predicate Bootable(m: Machine) {
    && Image(m.base, m.size, m.imageStart, m.imageSize) && m.size < PA.PAGE_SIZE * PA.MAX_PAGES
    && m.device < 0x40_0000_0000
    && |m.regions| <= PA.MAX_RESERVED && PA.BelowTop(Mapped(m), m.regions, PA.FrameArraySize(Mapped(m)))
    && RootReserved(m)
  }

  /** Wherever the frame array is placed, `n` pages can be taken and a run for a kernel stack is left. */
  ghost predicate RoomFor(m: Machine, n: nat) {
    forall a: nat, st: State ::
      PA.FirstState(Mapped(m), [PA.Region(a, PA.FrameArraySize(Mapped(m)))] + m.regions, st) ==> Plenty(st.free, n)
  }

  /** `memory_setup`: 0 regions fit nowhere, or the page allocator is ready and the pools of the small one are empty. */
  method SetUpMemory(m: Machine) returns (pages: PA.PageAllocator, heap: DynamicAllocator?)
    requires Bootable(m)
    ensures heap == null <==> !exists a :: PA.Place(Mapped(m), m.regions, PA.FrameArraySize(Mapped(m)), a)
    ensures fresh(pages)
    ensures heap != null ==>
      && fresh(pages.frameArray) && fresh(pages.ordersLists)
      && fresh(heap) && fresh(heap.pools) && heap.pages == pages && heap.Valid() && heap.poolPages == map[] &&
        heap.large == {} && heap.chunks == map[]
      && pages.base == KERNEL_VIRTUAL_BASE && PA.PAGE_SIZE * pages.frameArray.Length == m.size
      && PA.PageOf(KERNEL_VIRTUAL_BASE, m.kernelPgd) in pages.reserved
      && exists a: nat ::
        PA.FirstState(Mapped(m), [PA.Region(a, PA.FrameArraySize(Mapped(m)))] + m.regions, pages.Memory())
  {
    hide PA.Tiles, PA.Heads, PA.Listed, PA.Marked, Image, PA.Place, PA.FirstState, RootReserved;
    pages := new PA.PageAllocator();
    heap := null;
    pages.MemoryAdd(KERNEL_VIRTUAL_BASE, m.size);
    assert pages.availableMemory == [Mapped(m)];
    for i := 0 to |m.regions|
      invariant pages.availableMemory == [Mapped(m)] && pages.reservedMemory == m.regions[..i]
      invariant pages.ordersLists.Length == PA.MAX_ORDERS && fresh(pages.ordersLists) && fresh(pages.frameArray)
      modifies pages`reservedMemory
    {
      pages.MemoryReserve(m.regions[i].addr, m.regions[i].size);
    }
    assert pages.reservedMemory == m.regions;
    WholePages(m);
    var error := pages.MemoryInit();
    if error {
      return;
    }
    RootMarked(m, PA.Region(pages.frameArrayAddr, PA.FrameArraySize(Mapped(m))));
    heap := new DynamicAllocator(pages);
  }

  lemma WholePages(m: Machine)
    requires Bootable(m)
    ensures m.size % PA.PAGE_SIZE == 0 && KERNEL_VIRTUAL_BASE + m.size < WORD
  {
    PmdPages(m.size);
  }

  lemma RootMarked(m: Machine, frame: PA.Region)
    requires Bootable(m)
    ensures PA.PageOf(KERNEL_VIRTUAL_BASE, m.kernelPgd) < m.size / PA.PAGE_SIZE
    ensures PA.Marked(Mapped(m), [frame] + m.regions, PA.PageOf(KERNEL_VIRTUAL_BASE, m.kernelPgd))
  {
    var i :| 0 <= i < |m.regions| && InRegion(m.regions[i], m.kernelPgd) && Protected(Mapped(m), m.regions[i]);
    assert ([frame] + m.regions)[i + 1] == m.regions[i];
    WholePages(m);
  }

  lemma ImageMemory(m: Machine)
    requires Bootable(m)
    ensures Memory(m.base, m.size) && Image(m.base, m.size, m.imageStart, m.imageSize) && m.device < 0x40_0000_0000
    ensures m.base <= 0x40_0000_0000 && (KERNEL_VIRTUAL_BASE - (KERNEL_VIRTUAL_BASE - m.base)) % 4096 == 0
  {
    hide RootReserved;
    PmdPages(m.base);
  }

  lemma EnoughRoom(m: Machine, n: nat, a: nat, st: State)
    requires RoomFor(m, n) && PA.FirstState(Mapped(m), [PA.Region(a, PA.FrameArraySize(Mapped(m)))] + m.regions, st)
    ensures Plenty(st.free, n)
  {
    hide PA.FirstState, Plenty;
  }

  lemma RootBounds(m: Machine)
    requires Bootable(m)
    ensures m.kernelPgd % 4096 == 0 && KERNEL_VIRTUAL_BASE <= m.kernelPgd < KERNEL_VIRTUAL_BASE + 0x8000_0000
    ensures m.base % 4096 == 0 && m.base <= 0x40_0000_0000
  {
    hide Protected, PA.BelowTop;
    ImageMemory(m);
  }

  lemma RootPage(m: Machine, pages: PA.PageAllocator)
    requires Bootable(m) && pages.base == KERNEL_VIRTUAL_BASE
    ensures 0 < m.kernelPgd < WORD && Pointable(KERNEL_VIRTUAL_BASE - m.base, m.kernelPgd)
    ensures pages.PageIndex(m.kernelPgd) == PA.PageOf(KERNEL_VIRTUAL_BASE, m.kernelPgd)
  {
    hide Bootable;
    RootBounds(m);
    var x := m.kernelPgd - KERNEL_VIRTUAL_BASE;
    assert x % WORD == x && x / 4096 < 0x8_0000;
    assert (m.base + x) % 4096 == 0;
    assert Va2Pa(KERNEL_VIRTUAL_BASE - m.base, m.kernelPgd) == m.base + x;
  }

  lemma SetupEntries(entries: seq<nat>, m: Machine)
    requires Written(entries, m.base, m.size, m.device)
    ensures GigabyteEntries(entries)
  {
    hide LeafPte, AtSetup;
    assert forall i :: 0 <= i < PAGE_TABLE_ENTRIES_NUM ==> EntryMeans(entries[i], m.base, m.size, m.device, i);
  }

  lemma RefinedTree(tree: Tree, root: nat)
    requires Extends(RootAlone(root), tree, root, 1)
    ensures root in tree.window && tree.window[root] == PAGE_TABLE_ENTRIES_NUM
    ensures forall t :: t in tree.place && t != root ==> tree.place[t].level < 2
  {
  }

  /** The small allocator does not notice that pages were taken, as long as it has none itself. */
  lemma HeapStill(heap: DynamicAllocator, pools: seq<Pool>)
    requires heap.pages.Valid() && heap.pools[..] == pools && Carved(heap.pages.base, pools, map[], map[])
    requires heap.poolPages == map[] && heap.large == {} && heap.chunks == map[]
    ensures heap.Valid()
  {
    hide PA.Tiles, PA.Heads, PA.Listed;
  }

  /** The kernel's address space after `memory_setup`: the lower half dropped, the direct map refined. */
  method MapMemory(m: Machine, vm: VirtualMemory)
    requires vm.Valid() && vm.tree == RootAlone(vm.kernelPgd) && Bootable(m)
    requires Plenty(vm.pages.free, m.size / PMD_MEM_SIZE + 1)
    requires forall n: nat :: n < 0x800_0000 ==> vm.Translated(vm.kernelPgd, n) == AtSetup(m.base, m.size, m.device, n)
    modifies vm`tables, vm`tree, vm.pages`free, vm.pages`live, vm.pages.frameArray, vm.pages.ordersLists
    ensures vm.Valid() && vm.pages.Valid() && Plenty(vm.pages.free, 1)
    ensures vm.kernelPgd in vm.tree.window && vm.tree.window[vm.kernelPgd] == PAGE_TABLE_ENTRIES_NUM
    ensures forall t :: t in vm.tree.place && t != vm.kernelPgd ==> vm.tree.place[t].level < 2
    ensures forall n: nat :: n < 0x800_0000 ==>
      vm.Translated(vm.kernelPgd, n) == DirectMap(m.base, m.size, m.imageStart, m.imageSize, n)
  {
    hide Bootable, Plenty, Extends, Image, DirectMap, Lookup, PA.Tiles, PA.Heads, PA.Listed, Wellformed;
    ImageMemory(m);
    DropIdentityMapping(vm);
    ghost var free := vm.pages.free;
    PlentyPages(free, m.size / PMD_MEM_SIZE + 1);
    RefineMappings(vm, m.base, m.size, m.imageStart, KERNEL_VIRTUAL_BASE + (m.imageStart - m.base), m.imageSize);
    PlentyLeft(free, vm.pages.free, m.size / PMD_MEM_SIZE + 1, m.size / PMD_MEM_SIZE);
    RefinedTree(vm.tree, vm.kernelPgd);
  }

  /**
   The order of `kernel_setup` and `kmain`: the first mappings, the allocators, the identity mapping dropped, the
   direct map refined, and the scheduler with the idle task, which owns what it owns. This is where runs start.
   */
  method Boot(m: Machine, trampoline: nat, ramdisk: nat -> nat, pid: nat)
    returns (kernel: KernelMemory?, cpu: Sched.CpuScheduler?, task: Task?, ghost others: set<Item>)
    requires Bootable(m) && RoomFor(m, m.size / PMD_MEM_SIZE + 1) && trampoline < 0x1000_0000_0000
    requires pid != Sched.BOOTSTRAP
    ensures kernel == null <==> !exists a :: PA.Place(Mapped(m), m.regions, PA.FrameArraySize(Mapped(m)), a)
    ensures kernel != null ==>
      && task != null && fresh(task) && task.pid == pid && kernel.Valid()
      && cpu != null && cpu.Now() == Sched.Initial(pid)
      && Joined(Kernel(cpu.Now(), kernel.Now(), map[pid := View(task)]), others)
      && forall n: nat :: n < 0x800_0000 ==>
           kernel.vm.Translated(kernel.vm.kernelPgd, n) == DirectMap(m.base, m.size, m.imageStart, m.imageSize, n)
  {
    hide PA.Tiles, PA.Heads, PA.Listed, Wellformed, Bootable, PA.Place, PA.FirstState, RoomFor, Lookup, AtSetup;
    hide DirectMap, Mapped;
    hide Plenty, Owned, GigabyteEntries, Written, Carved, PoolMetadata, Pointable, PA.PageOf, KernelMemory.Valid;
    hide VirtualMemory.Valid, Joined;
    kernel, cpu, task, others := null, null, null, {};
    var kernelPgd := new nat[PAGE_TABLE_ENTRIES_NUM](_ => 0);
    assert kernelPgd[..] == Zeros(PAGE_TABLE_ENTRIES_NUM);
    ImageMemory(m);
    var mmioOffset := Setup(kernelPgd, m.base, m.size, m.device);
    SetupEntries(kernelPgd[..], m);
    var pages, heap := SetUpMemory(m);
    if heap == null {
      return;
    }
    ghost var a: nat :|
      PA.FirstState(Mapped(m), [PA.Region(a, PA.FrameArraySize(Mapped(m)))] + m.regions, pages.Memory());
    EnoughRoom(m, m.size / PMD_MEM_SIZE + 1, a, pages.Memory());
    RootPage(m, pages);
    var vm := new VirtualMemory(pages, m.kernelPgd, kernelPgd[..], KERNEL_VIRTUAL_BASE - m.base);
    ghost var pools := heap.pools[..];
    MapMemory(m, vm);
    HeapStill(heap, pools);
    kernel := new KernelMemory(vm, heap, trampoline, ramdisk);
    cpu, task, others := SchedulerInit(kernel, pid);
  }
}
