/** Reserved memory over whole runs of the page allocator: which bytes no allocation ever hands out. */
module ReservedMemory {
  import opened AllocatorRuns
  import opened FreeBlocks
  import opened PageAllocator

  predicate InRegion(region: Region, x: nat) {
    region.addr <= x < region.addr + region.size
  }

  /** In no state of any run after `memory_init` does a live block contain a page that a region marked. */
  lemma MarkedNeverLive(memory: Region, regions: seq<Region>, states: seq<State>, i: nat, p: nat)
    requires Run(states) && i < |states| && FirstState(memory, regions, states[0]) && Marked(memory, regions, p)
    ensures p !in LivePages(states[i].live)
  {
    hide Marked;
    RunConserves(states, i);
  }

  /** Asks `memory_allocate_pages` for one page after the other until it gives none. */
  method TakeAllPages(pages: PageAllocator)
    requires pages.Valid()
    modifies pages`free, pages`live, pages.frameArray, pages.ordersLists
    ensures pages.Valid() && pages.free == {} && AllPages(pages.Memory()) == AllPages(old(pages.Memory()))
    ensures forall s :: s in old(pages.live) ==> s in pages.live && pages.live[s] == old(pages.live[s])
  {
    hide Tiles, Heads, Listed, Range, AllPages;
    pages.ValidSeparate();
    while true
      invariant pages.Valid() && Separate(pages.Memory()) && AllPages(pages.Memory()) == AllPages(old(pages.Memory()))
      invariant forall s :: s in old(pages.live) ==> s in pages.live && pages.live[s] == old(pages.live[s])
      decreases pages.free
    {
      ghost var was := pages.Memory();
      OnePageOrder();
      var addr := pages.AllocatePages(PAGE_SIZE);
      if addr == 0 {
        OnePageRun(pages.free);
        return;
      }
      PageTaken(was, pages.Memory(), pages.PageIndex(addr));
    }
  }

  lemma PageTaken(st: State, st': State, p: nat)
    requires Separate(st) && Allocates(st, st', p, 0)
    ensures Separate(st') && AllPages(st') == AllPages(st) && st'.free < st.free
    ensures forall s :: s in st.live ==> s in st'.live && st'.live[s] == st.live[s]
  {
    NextConserves(st, st');
    StartInRange(p, 0);
  }

  /**
   After `memory_init` the allocator hands out exactly the pages that no region marked: asked for pages until it
   gives none, it has made all of these live, and no others.
   */
  method HandOutAll(pages: PageAllocator, memory: Region, ghost regions: seq<Region>)
    requires pages.Valid() && FirstState(memory, regions, pages.Memory())
    modifies pages`free, pages`live, pages.frameArray, pages.ordersLists
    ensures pages.Valid()
    ensures forall p: nat :: p in LivePages(pages.live) <==> p < memory.size / PAGE_SIZE && !Marked(memory, regions, p)
  {
    hide Marked, Tiles, Heads, Listed;
    TakeAllPages(pages);
  }

  /** The region has no byte in memory. */
  predicate Apart(memory: Region, region: Region) {
    region.size == 0 || memory.size == 0 || region.addr + region.size <= memory.addr ||
      memory.addr + memory.size <= region.addr
  }

  /** The page of every byte that the region has in memory is marked because of the region itself. */
  ghost predicate Protected(memory: Region, region: Region) {
    forall x: nat :: InRegion(memory, x) && InRegion(region, x) ==>
      Inside(memory, region) && PageOf(memory.addr, x) in RegionPages(memory.addr, region)
  }

  /** A region is protected if and only if it is apart from memory, or wholly in memory and fills its pages. */
  lemma ProtectedIff(memory: Region, region: Region)
    ensures Protected(memory, region) <==>
      Apart(memory, region) || (Inside(memory, region) && FillsItsPages(memory.addr, region))
  {
    if Apart(memory, region) {
    } else if Inside(memory, region) {
      RegionCovered(memory.addr, region);
      forall x | InRegion(region, x) ensures InRegion(memory, x) {}
    } else {
      var x := if memory.addr <= region.addr then region.addr else memory.addr;
      assert InRegion(memory, x) && InRegion(region, x);
    }
  }

  /** Regions of whole pages, each wholly inside or outside memory, are protected. */
  lemma WholePagesProtected(memory: Region, region: Region)
    requires memory.addr % PAGE_SIZE == 0 && region.addr % PAGE_SIZE == 0 && region.size % PAGE_SIZE == 0
    requires Inside(memory, region) || Apart(memory, region)
    ensures Protected(memory, region)
  {
    ProtectedIff(memory, region);
    if Inside(memory, region) {
      assert (region.addr - memory.addr) % PAGE_SIZE == 0;
    }
  }

  /** In no state of any run does a live block contain a byte of a protected region: of a reserved one, or of the frame
      array. */
  lemma NeverHandedOut(memory: Region, regions: seq<Region>, states: seq<State>, k: nat, i: nat, x: nat)
    requires Run(states) && k < |states| && FirstState(memory, regions, states[0])
    requires i < |regions| && Protected(memory, regions[i]) && InRegion(memory, x) && InRegion(regions[i], x)
    ensures PageOf(memory.addr, x) !in LivePages(states[k].live)
  {
    assert Marked(memory, regions, PageOf(memory.addr, x));
    MarkedNeverLive(memory, regions, states, k, PageOf(memory.addr, x));
  }

  /** A region of whole pages that is only partly in memory is skipped, and its page in memory is handed out. */
  method PartlyInsideHandedOut() returns (pages: PageAllocator)
    ensures pages.Valid() && pages.reservedMemory == [Region(0x4000, 0x2000)] && pages.base == 0x1000
    ensures InRegion(Region(0x1000, 0x4000), 0x4000) && FillsItsPages(0x1000, Region(0x4000, 0x2000))
    ensures PageOf(0x1000, 0x4000) in LivePages(pages.live)
  {
    hide Tiles, Heads, Listed, Marked, Place;
    ghost var memory, region := Region(0x1000, 0x4000), Region(0x4000, 0x2000);
    pages := new PageAllocator();
    pages.MemoryAdd(0x1000, 0x4000);
    pages.MemoryReserve(0x4000, 0x2000);
    FirstPlace(memory, region);
    assert pages.availableMemory == [memory] && pages.reservedMemory == [region];
    var error := pages.MemoryInit();
    assert !error && pages.frameArrayAddr == 0x1000;
    ghost var regions := [Region(0x1000, 12)] + [region];
    PageLeftOut();
    HandOutAll(pages, Region(0x1000, 0x4000), regions);
  }

  lemma FirstPlace(memory: Region, region: Region)
    requires memory == Region(0x1000, 0x4000) && region == Region(0x4000, 0x2000)
    ensures BelowTop(memory, [region], FrameArraySize(memory)) && FrameArraySize(memory) == 12
    ensures forall a :: LowestPlace(memory, [region], 12, a) <==> a == 0x1000
    ensures Place(memory, [region], 12, 0x1000)
  {
    assert Place(memory, [region], 12, 0x1000);
  }

  lemma PageLeftOut()
    ensures !Marked(Region(0x1000, 0x4000), [Region(0x1000, 12)] + [Region(0x4000, 0x2000)], 3)
  {
    assert 3 !in RegionPages(0x1000, Region(0x1000, 12));
  }
}
