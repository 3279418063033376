/**
 The buddy page allocator. Page metadata is right only at the first page of a block: pages inside
 a merged block keep whatever order and flags they had when they last were heads themselves.
 The ghost fields record which pages are free, reserved or still pending during
 initialization and which blocks are live; `Valid` ties the metadata and the lists to them.
 */
module PageAllocator {
  import opened Bits
  import opened FreeBlocks
  import opened AllocatorRuns
  import opened Lists

  const PAGE_SIZE: nat := 4096
  const MAX_ORDERS: nat := 22
  /** Below this many pages `PAGE_SIZE << order` stays inside a signed 32-bit integer. */
  const MAX_PAGES: nat := 0x8_0000

  /** The values the one-byte `flags` field takes: 0 and the three single-bit constants. */
  datatype Flags = Unset | Free | Allocated | Reserved

  datatype Page = Page(order: nat, flags: Flags, poolIndex: nat)

  /** The smallest order from `o` upwards whose blocks hold `size` bytes. */
  function OrderFrom(size: nat, o: nat): (r: nat)
    ensures o <= r && size <= PAGE_SIZE * Pow2(r)
    ensures forall k :: o <= k < r ==> PAGE_SIZE * Pow2(k) < size
    decreases size - PAGE_SIZE * Pow2(o)
  {
    if PAGE_SIZE * Pow2(o) < size then OrderFrom(size, o + 1) else o
  }

  function RequiredOrder(size: nat): nat {
    OrderFrom(size, 0)
  }

  lemma OnePageOrder()
    ensures RequiredOrder(PAGE_SIZE) == 0
  {
    assert Pow2(0) == 1;
  }

  ghost predicate InLive(live: map<nat, nat>, p: nat) {
    exists s :: s in live && p in Range(s, live[s])
  }

  /** Every page below `n` belongs to exactly one of: the free pages, the reserved pages, the pages
      not yet given to the lists, the block in transit, or one live block. */
  ghost predicate Tiles(n: nat, free: set<nat>, live: map<nat, nat>, reserved: set<nat>, pending: set<nat>,
      transit: set<nat>) {
    && (forall p: nat :: p < n <==> p in free || p in reserved || p in pending || p in transit || InLive(live, p))
    && free !! reserved && free !! pending && free !! transit
    && reserved !! pending && reserved !! transit && pending !! transit
    && (forall s :: s in live ==> Range(s, live[s]) !! free + reserved + pending + transit)
    && (forall s, t :: s in live && t in live && s != t ==> Range(s, live[s]) !! Range(t, live[t]))
  }

  /** What the metadata says about block heads. Pages inside a block are not constrained. */
  ghost predicate Heads(frame: seq<Page>, free: set<nat>, live: map<nat, nat>, reserved: set<nat>, pending: set<nat>) {
    && (forall s: nat, o: nat :: Maximal(free, s, o) ==> s < |frame| && frame[s].order == o && frame[s].flags == Free)
    && (forall s :: s in live ==>
      s < |frame| && frame[s].order == live[s] && frame[s].flags == Allocated && Aligned(s, live[s]))
    && (forall p :: p in reserved ==> p < |frame| && frame[p].order == 0 && frame[p].flags == Reserved)
    && (forall p :: p in pending ==> p < |frame| && frame[p].order == 0 && frame[p].flags == Unset)
  }

  /** List `o` holds every canonical block of order `o` exactly once, and nothing else. */
  ghost predicate Listed(lists: seq<seq<nat>>, free: set<nat>) {
    && |lists| == MAX_ORDERS
    && (forall o :: 0 <= o < MAX_ORDERS ==> Distinct(lists[o]))
    && (forall o: nat, s: nat :: o < MAX_ORDERS ==> (s in lists[o] <==> Maximal(free, s, o)))
  }

  lemma InTiles(n: nat, free: set<nat>, live: map<nat, nat>, reserved: set<nat>, pending: set<nat>, transit: set<nat>,
      p: nat)
    requires Tiles(n, free, live, reserved, pending, transit) && InLive(live, p)
    ensures p < n
  {
    hide Range, InLive;
  }

  /** The block in transit becomes a live one. */
  lemma TilesAllocated(n: nat, free: set<nat>, live: map<nat, nat>, reserved: set<nat>, pending: set<nat>, s: nat,
      o: nat)
    requires Tiles(n, free, live, reserved, pending, Range(s, o)) && s !in live
    ensures Tiles(n, free, live[s := o], reserved, pending, {})
  {
    hide Range;
    var more := live[s := o];
    forall p: nat ensures InLive(more, p) <==> InLive(live, p) || p in Range(s, o) {
      if p in Range(s, o) { assert s in more && p in Range(s, more[s]); }
      if t :| t in live && p in Range(t, live[t]) { assert t in more && p in Range(t, more[t]); }
    }
  }

  /** The block of order `live[s]` at page `s`, or the pending page `s`, is in transit. */
  lemma TilesReleased(n: nat, free: set<nat>, live: map<nat, nat>, reserved: set<nat>, pending: set<nat>, s: nat,
      block: set<nat>)
    requires Tiles(n, free, live, reserved, pending, {})
    requires if s in live then block == Range(s, live[s]) && s in block else s in pending && block == {s}
    ensures Tiles(n, free, live - {s}, reserved, pending - {s}, block)
  {
    hide Range;
    var less := live - {s};
    forall p: nat ensures InLive(live, p) <==> InLive(less, p) || (s in live && p in block) {
      if t :| t in live && p in Range(t, live[t]) && t != s { assert t in less && p in Range(t, less[t]); }
      if t :| t in less && p in Range(t, less[t]) { assert t in live && p in Range(t, live[t]); }
      if s in live && p in block { assert p in Range(s, live[s]); }
    }
  }

  /** Pages in transit become free. */
  lemma TilesFreed(n: nat, free: set<nat>, live: map<nat, nat>, reserved: set<nat>, pending: set<nat>,
      transit: set<nat>, block: set<nat>)
    requires Tiles(n, free, live, reserved, pending, transit) && block <= transit
    ensures Tiles(n, free + block, live, reserved, pending, transit - block)
  {
    hide Range, InLive;
  }

  lemma HeadsAllocated(frame: seq<Page>, free: set<nat>, live: map<nat, nat>, reserved: set<nat>, pending: set<nat>,
      s: nat, o: nat)
    requires Heads(frame, free, live, reserved, pending) && Aligned(s, o)
    requires s < |frame| && s !in free && s !in reserved && s !in pending
    ensures Heads(frame[s := frame[s].(order := o, flags := Allocated)], free, live[s := o], reserved, pending)
  {
    hide Aligned;
    forall t: nat, k: nat | Maximal(free, t, k) ensures t != s { MaximalFree(free, t, k); }
  }

  /** A new canonical block, and no other change to the canonical blocks. */
  ghost predicate Joins(free: set<nat>, more: set<nat>, s: nat, o: nat) {
    forall t: nat, k: nat :: Maximal(more, t, k) <==> Maximal(free, t, k) || (t == s && k == o)
  }

  lemma HeadsFreed(frame: seq<Page>, free: set<nat>, more: set<nat>, live: map<nat, nat>, reserved: set<nat>,
      pending: set<nat>, s: nat, o: nat)
    requires Heads(frame, free, live, reserved, pending) && Joins(free, more, s, o)
    requires s < |frame| && s !in free && s !in live && s !in reserved && s !in pending
    ensures Heads(frame[s := frame[s].(order := o, flags := Free)], more, live, reserved, pending)
  {
    hide Aligned;
    forall t: nat, k: nat | Maximal(free, t, k) ensures t != s { MaximalFree(free, t, k); }
  }

  lemma ListedFreed(lists: seq<seq<nat>>, free: set<nat>, more: set<nat>, s: nat, o: nat)
    requires Listed(lists, free) && Joins(free, more, s, o) && o <= TOP_ORDER && s !in free
    ensures Listed(lists[o := lists[o] + [s]], more)
  {
    hide Maximal, Distinct;
    if Maximal(free, s, o) { MaximalFree(free, s, o); }
    AppendDistinct(lists[o], s);
  }

  lemma MaximalFree(free: set<nat>, s: nat, o: nat)
    requires Maximal(free, s, o)
    ensures s in free
  {
    assert s in Range(s, o);
  }

  lemma JoinsFreed(free: set<nat>, s: nat, o: nat)
    requires o <= TOP_ORDER && Aligned(s, o) && Range(s, o) !! free
    requires o == TOP_ORDER || !Whole(free, BuddyOf(s, o), o)
    ensures Joins(free, free + Range(s, o), s, o)
  {
    hide Maximal, Aligned, Range, Canonical;
    var more := free + Range(s, o);
    AddMaximal(free, s, o);
    forall t: nat, k: nat ensures Maximal(more, t, k) <==> Maximal(free, t, k) || (t == s && k == o) {
      CanonicalIff(free, t, k);
      CanonicalIff(more, t, k);
    }
  }

  /** The page that `_get_buddy` looks at is never inside a block: its metadata is that of a head,
      so the flag test succeeds exactly when the buddy is wholly free. */
  lemma BuddyMetadata(frame: seq<Page>, free: set<nat>, live: map<nat, nat>, reserved: set<nat>, pending: set<nat>,
      s: nat, o: nat)
    requires o < TOP_ORDER && Aligned(s, o)
    requires Tiles(|frame|, free, live, reserved, pending, Range(s, o))
    requires Heads(frame, free, live, reserved, pending)
    ensures var b := BuddyOf(s, o);
            b < |frame| && frame[b].flags == Free && frame[b].order == o <==> Whole(free, b, o)
  {
    var b := BuddyOf(s, o);
    BuddiesJoin(s, o);
    if Whole(free, b, o) {
      assert s in Range(s, o);
      assert Maximal(free, b, o);
    }
    if b < |frame| && frame[b].flags == Free && frame[b].order == o {
      if InLive(live, b) {
        var h :| h in live && b in Range(h, live[h]);
        HeadOrSwallows(s, o, h, live[h]);
      }
      assert b in free;
      var m := MaximalExists(free, b, 0);
      assert Maximal(free, m.start, m.order);
      HeadOrSwallows(s, o, m.start, m.order);
    }
  }

  /** An aligned block around the buddy of a block either starts at that buddy and is no larger, or
      contains the block itself. */
  lemma HeadOrSwallows(s: nat, o: nat, h: nat, k: nat)
    requires Aligned(s, o) && Aligned(h, k) && BuddyOf(s, o) in Range(h, k)
    ensures (h == BuddyOf(s, o) && k <= o) || s in Range(h, k)
  {
    var b := BuddyOf(s, o);
    BuddiesJoin(s, o);
    if k <= o {
      DownDown(b, k, o);
      DownUnique(h, k, b);
    } else {
      DownUnique(h, k, b);
      DownDown(b, o + 1, k);
      DownDown(s, o + 1, k);
      DownUnique(h, k, s);
    }
  }

  const MAX_AVAILABLE: nat := 10
  const MAX_RESERVED: nat := 100

  datatype Region = Region(addr: nat, size: nat)

  /** The least number of pages that holds so many bytes. */
  function CeilDiv(size: nat): (r: nat)
    ensures size <= PAGE_SIZE * r < size + PAGE_SIZE
  {
    (size + PAGE_SIZE - 1) / PAGE_SIZE
  }

  /** The pages that `_memory_reserve_pages` marks for a region at or above `base`. */
  ghost function RegionPages(base: nat, region: Region): set<nat>
    requires base <= region.addr
  {
    var first := (region.addr - base) / PAGE_SIZE;
    Interval(first, first + CeilDiv(region.size))
  }

  /** The regions that `memory_init` marks; one that only partly lies in memory is skipped. */
  predicate Inside(memory: Region, region: Region) {
    memory.addr <= region.addr && region.addr + region.size <= memory.addr + memory.size
  }

  /** For a region that is not empty: all its bytes are in memory. */
  lemma InsideBytes(memory: Region, region: Region)
    requires region.size > 0
    ensures Inside(memory, region) <==>
      Interval(region.addr, region.addr + region.size) <= Interval(memory.addr, memory.addr + memory.size)
  {
    var first, last := region.addr, region.addr + region.size - 1;
    assert Within(first, region.addr, region.addr + region.size);
    assert Within(last, region.addr, region.addr + region.size);
    if Interval(region.addr, region.addr + region.size) <= Interval(memory.addr, memory.addr + memory.size) {
      assert first in Interval(memory.addr, memory.addr + memory.size);
      assert last in Interval(memory.addr, memory.addr + memory.size);
    }
  }

  /** `sizeof(struct page)` for every page of memory: an order, flags and a pool, of a byte each. */
  function FrameArraySize(memory: Region): (r: nat)
    ensures r % 3 == 0 && PAGE_SIZE * (r / 3) <= memory.size < PAGE_SIZE * (r / 3) + PAGE_SIZE
  {
    3 * (memory.size / PAGE_SIZE)
  }

  /** Page `p` is marked reserved because of one of `regions`. */
  ghost predicate Marked(memory: Region, regions: seq<Region>, p: nat) {
    exists i :: 0 <= i < |regions| && Inside(memory, regions[i]) && p in RegionPages(memory.addr, regions[i])
  }

  /** The state that `memory_init` leaves: nothing is live, and exactly the pages not marked are free. */
  ghost predicate FirstState(memory: Region, regions: seq<Region>, st: State) {
    && memory.size % PAGE_SIZE == 0 && st.live == map[]
    && forall p: nat :: p in st.free <==> p < memory.size / PAGE_SIZE && !Marked(memory, regions, p)
  }

  lemma MarkedAppend(memory: Region, regions: seq<Region>, region: Region, p: nat)
    ensures Marked(memory, regions + [region], p) <==>
      Marked(memory, regions, p) || (Inside(memory, region) && p in RegionPages(memory.addr, region))
  {
    var all := regions + [region];
    if i :| 0 <= i < |regions| && Inside(memory, regions[i]) && p in RegionPages(memory.addr, regions[i]) {
      assert all[i] == regions[i];
    }
    assert all[|regions|] == region;
  }

  /** The overlap test of `_allocate_frame_array`. */
  predicate Overlaps(addr: nat, size: nat, region: Region) {
    addr < region.addr + region.size && addr + size > region.addr
  }

  /** The test is exact for ranges that are not empty: they overlap exactly if they share a byte. */
  lemma OverlapsBytes(addr: nat, size: nat, region: Region)
    requires size > 0 && region.size > 0
    ensures Overlaps(addr, size, region) <==>
      Interval(addr, addr + size) * Interval(region.addr, region.addr + region.size) != {}
  {
    var x := if addr < region.addr then region.addr else addr;
    if Overlaps(addr, size, region) {
      assert Within(x, addr, addr + size) && Within(x, region.addr, region.addr + region.size);
      assert x in Interval(addr, addr + size) * Interval(region.addr, region.addr + region.size);
    }
  }

  predicate Clear(addr: nat, size: nat, regions: seq<Region>) {
    forall i :: 0 <= i < |regions| ==> !Overlaps(addr, size, regions[i])
  }

  /** `_get_page_index` on an address at or above `base`, without truncation. */
  function PageOf(base: nat, addr: nat): nat
    requires base <= addr
  {
    (addr - base) / PAGE_SIZE
  }

  /** `size` bytes at `addr` lie in memory and miss every region. */
  predicate Place(memory: Region, regions: seq<Region>, size: nat, addr: nat) {
    memory.addr <= addr && addr + size <= memory.addr + memory.size && Clear(addr, size, regions)
  }

  ghost predicate LowestPlace(memory: Region, regions: seq<Region>, size: nat, addr: nat) {
    Place(memory, regions, size, addr) && forall a :: Place(memory, regions, size, a) ==> addr <= a
  }

  /** The bytes of the region do not reach into one page more than its size fills. */
  predicate FillsItsPages(base: nat, region: Region)
    requires base <= region.addr
  {
    region.size == 0 || (region.addr - base) % PAGE_SIZE + region.size <= PAGE_SIZE * CeilDiv(region.size)
  }

  /** Marking whole pages from the first byte on covers a region exactly when it fills its pages. */
  lemma RegionCovered(base: nat, region: Region)
    requires base <= region.addr
    ensures (forall x: nat :: region.addr <= x < region.addr + region.size ==>
      PageOf(base, x) in RegionPages(base, region))
      <==> FillsItsPages(base, region)
  {
    forall x: nat | region.addr <= x < region.addr + region.size
      ensures PageOf(base, x) in RegionPages(base, region)
        <==> (region.addr - base) % PAGE_SIZE + (x - region.addr) < PAGE_SIZE * CeilDiv(region.size)
    {
      assert x - base ==
        (region.addr - base) / PAGE_SIZE * PAGE_SIZE + (region.addr - base) % PAGE_SIZE + (x - region.addr);
    }
    if region.size > 0 {
      assert PageOf(base, region.addr + region.size - 1) >= 0;
    }
  }

  /** A region of two bytes across a page boundary has its second byte left out. */
  lemma RegionNotCovered()
    ensures var region := Region(PAGE_SIZE + 4095, 2);
            PageOf(PAGE_SIZE, region.addr + 1) !in RegionPages(PAGE_SIZE, region)
  {
  }

  /** Neither the regions nor a search that they send on reach the end of the address space. */
  predicate BelowTop(memory: Region, regions: seq<Region>, size: nat) {
    && 0 < memory.addr && memory.addr + memory.size <= WORD && memory.addr + size < WORD
    && forall i :: 0 <= i < |regions| ==>
         && regions[i].addr + regions[i].size < WORD
         && (regions[i].addr < memory.addr + memory.size ==> regions[i].addr + regions[i].size + size < WORD)
  }

  lemma NotClearBefore(addr: nat, size: nat, regions: seq<Region>, i: nat)
    requires i < |regions| && Overlaps(addr, size, regions[i])
    ensures forall a :: addr <= a < regions[i].addr + regions[i].size ==> !Clear(a, size, regions)
  {
    forall a | addr <= a < regions[i].addr + regions[i].size ensures !Clear(a, size, regions) {
      assert Overlaps(a, size, regions[i]);
    }
  }

  lemma NoOverlap(addr: nat, size: nat, regions: seq<Region>)
    requires forall k :: 0 <= k < |regions| ==> !Overlaps(addr, size, regions[k])
    ensures Clear(addr, size, regions)
  {
    hide Overlaps;
  }

  /** The code's overlap test, on sums that wrap, is that of the sums that do not. */
  lemma RegionEnds(memory: Region, regions: seq<Region>, size: nat, addr: nat, i: nat)
    requires BelowTop(memory, regions, size) && i < |regions| && addr + size < WORD
    ensures (regions[i].addr + regions[i].size) % WORD == regions[i].addr + regions[i].size
    ensures addr < regions[i].addr + regions[i].size && (addr + size) % WORD > regions[i].addr <==>
      Overlaps(addr, size, regions[i])
  {
  }

  /** No place before `addr` misses the regions. */
  ghost predicate NoneBefore(memory: Region, regions: seq<Region>, size: nat, addr: nat) {
    forall a :: memory.addr <= a < addr ==> !Clear(a, size, regions)
  }

  lemma NoneAtFirst(memory: Region, regions: seq<Region>, size: nat)
    ensures NoneBefore(memory, regions, size, memory.addr)
  {
  }

  lemma MovesOn(memory: Region, regions: seq<Region>, size: nat, addr: nat, i: nat)
    requires NoneBefore(memory, regions, size, addr) && i < |regions| && Overlaps(addr, size, regions[i])
    ensures NoneBefore(memory, regions, size, regions[i].addr + regions[i].size)
  {
    hide Clear, Overlaps;
    NotClearBefore(addr, size, regions, i);
  }

  lemma NoPlaceLeft(memory: Region, regions: seq<Region>, size: nat, addr: nat)
    requires NoneBefore(memory, regions, size, addr) && addr + size > memory.addr + memory.size
    ensures !exists a :: Place(memory, regions, size, a)
  {
    hide Clear;
  }

  lemma LowestFound(memory: Region, regions: seq<Region>, size: nat, addr: nat)
    requires NoneBefore(memory, regions, size, addr) && Clear(addr, size, regions)
    requires memory.addr <= addr && addr + size <= memory.addr + memory.size
    ensures Place(memory, regions, size, addr) && LowestPlace(memory, regions, size, addr)
  {
    hide Clear;
  }

  /** `_allocate_frame_array`: the lowest address at which `size` bytes fit into memory and miss every
      reserved region; null exactly when there is none or the end of memory wraps to 0. */
  method AllocateFrameArray(memory: Region, regions: seq<Region>, size: nat) returns (addr: nat)
    requires BelowTop(memory, regions, size)
    ensures addr == 0 <==> memory.addr + memory.size == WORD || !exists a :: Place(memory, regions, size, a)
    ensures addr != 0 ==> LowestPlace(memory, regions, size, addr)
  {
    hide Clear, Overlaps, NoneBefore, Place, LowestPlace;
    var memoryEnd := (memory.addr + memory.size) % WORD;
    addr := memory.addr;
    NoneAtFirst(memory, regions, size);
    while true
      invariant memory.addr <= addr && addr + size < WORD && NoneBefore(memory, regions, size, addr)
      decreases memory.addr + memory.size - addr
    {
      var overlapping := false;
      var addrEnd := (addr + size) % WORD;
      var i := 0;
      while i < |regions|
        invariant 0 <= i <= |regions|
        invariant forall k :: 0 <= k < i ==> !Overlaps(addr, size, regions[k])
      {
        RegionEnds(memory, regions, size, addr, i);
        if addr < (regions[i].addr + regions[i].size) % WORD && addrEnd > regions[i].addr {
          overlapping := true;
          break;
        }
        i := i + 1;
      }
      if addrEnd > memory.addr + memory.size { NoPlaceLeft(memory, regions, size, addr); }
      if overlapping {
        MovesOn(memory, regions, size, addr, i);
        addr := (regions[i].addr + regions[i].size) % WORD;
      }
      if addrEnd > memoryEnd {
        return 0;
      }
      if !overlapping {
        NoOverlap(addr, size, regions);
        LowestFound(memory, regions, size, addr);
        return;
      }
    }
  }

  class PageAllocator {
    var availableMemory: seq<Region>
    var reservedMemory: seq<Region>

    /** `memory_base_addr` */
    var base: nat
    /** The address at which `memory_init` placed the frame array. */
    var frameArrayAddr: nat
    var frameArray: array<Page>
    /** The lists of free blocks, by order; a list node is written as the index of the page it lies in. */
    var ordersLists: array<seq<nat>>

    ghost var free: set<nat>
    ghost var live: map<nat, nat>
    ghost var reserved: set<nat>
    ghost var pending: set<nat>

    /** The bounds on base and size under which addresses and page indices do not wrap. */
    ghost predicate Sized()
      reads this
    {
      && 0 < base
      && base + PAGE_SIZE * frameArray.Length <= WORD
      && frameArray.Length < MAX_PAGES
      && ordersLists.Length == MAX_ORDERS
    }

    /** The state while a block is neither live nor in a list. */
    ghost predicate InTransit(transit: set<nat>)
      reads this, frameArray, ordersLists
    {
      && Sized()
      && Tiles(frameArray.Length, free, live, reserved, pending, transit)
      && Heads(frameArray[..], free, live, reserved, pending)
      && Listed(ordersLists[..], free)
    }

    ghost predicate Valid()
      reads this, frameArray, ordersLists
    {
      InTransit({})
    }

    ghost function Memory(): State
      reads this
    {
      State(free, live)
    }

    /** The starting point of a run: live blocks are separate from each other and from the free pages. */
    lemma ValidSeparate()
      requires Valid()
      ensures Separate(Memory())
    {
    }

    function AddressOf(index: nat): nat
      reads this`base
    {
      base + PAGE_SIZE * index
    }

    /** `_get_page_index`: the subtraction is 64 bits wide and the result is cut to 32 bits. */
    function PageIndex(addr: nat): nat
      reads this`base
    {
      ((addr - base) % WORD / PAGE_SIZE) % 0x1_0000_0000
    }

    /** `memory_page_metadata`: the index of the metadata, or the number of pages for a null result. */
    function Metadata(addr: nat): (r: nat)
      reads this
      ensures r <= frameArray.Length
    {
      if PageIndex(addr) >= frameArray.Length then frameArray.Length else PageIndex(addr)
    }

    lemma IndexRoundTrip(index: nat)
      requires Sized() && index < frameArray.Length
      ensures AddressOf(index) < WORD && PageIndex(AddressOf(index)) == index && Metadata(AddressOf(index)) == index
    {
    }

    /** Takes the canonical block of order `o` at page `s` out of its list. */
    method Unlist(s: nat, o: nat, ghost transit: set<nat>)
      requires InTransit(transit) && Maximal(free, s, o)
      modifies this`free, ordersLists
      ensures free == old(free) - Range(s, o)
      ensures InTransit(transit + Range(s, o))
      ensures ordersLists[..] == old(ordersLists[..])[o := Remove(old(ordersLists[o]), s)]
    {
      ghost var lists := ordersLists[..];
      RemoveDistinct(ordersLists[o], s);
      ordersLists[o] := Remove(ordersLists[o], s);
      ghost var was := free;
      free := free - Range(s, o);
      forall t: nat, k: nat ensures Maximal(free, t, k) <==> Maximal(was, t, k) && !(t == s && k == o) {
        RemoveMaximalAt(was, s, o, t, k);
      }
    }

    lemma NotLive(s: nat, transit: set<nat>)
      requires InTransit(transit) && s in pending + transit
      ensures s !in live
    {
      forall t | t in live ensures t in Range(t, live[t]) {
      }
    }

    /** Inserts the block of order `o` at page `s` into its list and marks its first page free. */
    method Enlist(s: nat, o: nat, ghost transit: set<nat>)
      requires InTransit(transit) && o <= TOP_ORDER && Aligned(s, o) && Range(s, o) <= transit
      requires o == TOP_ORDER || !Whole(free, BuddyOf(s, o), o)
      modifies this`free, frameArray, ordersLists
      ensures free == old(free) + Range(s, o)
      ensures InTransit(transit - Range(s, o))
      ensures ordersLists[..] == old(ordersLists[..])[o := old(ordersLists[o]) + [s]]
      ensures s < frameArray.Length
      ensures frameArray[..] == old(frameArray[..])[s := old(frameArray[s]).(order := o, flags := Free)]
    {
      hide Heads, Listed, Range, InLive, Aligned, Whole, BuddyOf, Joins;
      StartInRange(s, o);
      NotLive(s, transit);
      TilesFreed(frameArray.Length, free, live, reserved, pending, transit, Range(s, o));
      JoinsFreed(free, s, o);
      HeadsFreed(frameArray[..], free, free + Range(s, o), live, reserved, pending, s, o);
      ListedFreed(ordersLists[..], free, free + Range(s, o), s, o);
      ordersLists[o] := ordersLists[o] + [s];
      frameArray[s] := frameArray[s].(order := o, flags := Free);
      free := free + Range(s, o);
    }

    /** A block in transit has few enough pages for `PAGE_SIZE << order` to be an `int`. */
    lemma ShiftFits(s: nat, o: nat, transit: set<nat>)
      requires Sized() && Range(s, o) <= transit
      requires forall p :: p in transit ==> p < frameArray.Length
      ensures s + Pow2(o) <= frameArray.Length && PAGE_SIZE * Pow2(o) < 0x8000_0000
    {
      assert s + Pow2(o) - 1 in Range(s, o);
    }

    /** `_get_buddy`: for a block in transit, the address of its buddy if that is free as a whole, else 0. */
    method GetBuddy(blockAddr: nat, order: nat, ghost s: nat) returns (buddyAddr: nat)
      requires order < TOP_ORDER && Aligned(s, order) && InTransit(Range(s, order))
      requires blockAddr == AddressOf(s)
      ensures buddyAddr == if Whole(free, BuddyOf(s, order), order) then AddressOf(BuddyOf(s, order)) else 0
      ensures Whole(free, BuddyOf(s, order), order) ==> buddyAddr != 0 && PageIndex(buddyAddr) == BuddyOf(s, order)
    {
      hide Listed, Heads, Pow2, Xor, Whole, Aligned;
      ShiftFits(s, order, Range(s, order));
      var offset := blockAddr - base;
      XorScale(s, Pow2(order), 12);
      XorFlips(s, order);
      Pow2Values();
      buddyAddr := Xor(offset, PAGE_SIZE * Pow2(order)) + base;
      assert buddyAddr == AddressOf(BuddyOf(s, order));

      var buddyPage := Metadata(buddyAddr);
      MetadataNearby(BuddyOf(s, order), s, order);
      BuddyMetadata(frameArray[..], free, live, reserved, pending, s, order);
      if buddyPage == frameArray.Length {
        return 0;
      }
      if frameArray[buddyPage].flags == Free && frameArray[buddyPage].order == order {
        return buddyAddr;
      }
      return 0;
    }

    /** The 64-bit and 32-bit truncations in the index of a buddy's address lose nothing. */
    lemma MetadataNearby(b: nat, s: nat, o: nat)
      requires Sized() && s + Pow2(o) <= frameArray.Length && b <= s + Pow2(o)
      ensures Metadata(AddressOf(b)) == if b < frameArray.Length then b else frameArray.Length
    {
    }

    /** The free buddy `b` of the block in transit at page `s` joins it. */
    method UnlistBuddy(b: nat, o: nat, ghost s: nat)
      requires o < TOP_ORDER && Aligned(s, o) && InTransit(Range(s, o))
      requires b == BuddyOf(s, o) && Whole(free, b, o)
      modifies this`free, ordersLists
      ensures free + Range(Down(s, o + 1), o + 1) == old(free) + Range(s, o)
      ensures Aligned(Down(s, o + 1), o + 1) && InTransit(Range(Down(s, o + 1), o + 1))
      ensures Down(s, o + 1) == if b < s then b else s
    {
      BuddiesJoin(s, o);
      DownDown(s, o + 1, o + 1);
      assert s in Range(s, o);
      Unlist(b, o, Range(s, o));
    }

    lemma TransitIndex(s: nat, o: nat)
      requires InTransit(Range(s, o))
      ensures PageIndex(AddressOf(s)) == s
    {
      ShiftFits(s, o, Range(s, o));
      IndexRoundTrip(s);
    }

    lemma OrderBound(s: nat, o: nat)
      requires Sized() && s in live && live[s] == o
      requires Tiles(frameArray.Length, free, live, reserved, pending, {})
      ensures o < TOP_ORDER
    {
      hide Pow2, Tiles;
      assert InLive(live, s + Pow2(o) - 1) by { assert s + Pow2(o) - 1 in Range(s, o); }
      InTiles(frameArray.Length, free, live, reserved, pending, {}, s + Pow2(o) - 1);
      Pow2Values();
      if o >= TOP_ORDER { Pow2Monotone(19, o); }
    }

    /** Live blocks start inside the frame array. */
    lemma LiveIndex(s: nat)
      requires Valid() && s in live
      ensures s < frameArray.Length
    {
      assert s in Range(s, live[s]);
      assert InLive(live, s);
    }

    lemma ReservedApart(p: nat)
      requires Valid() && p in reserved
      ensures p !in live && p !in free
    {
      forall s | s in live ensures s in Range(s, live[s]) {
      }
    }

    /** The block of order `o` at page `s` leaves the live blocks or the pending pages. */
    ghost method Release(s: nat, o: nat)
      requires Valid()
      requires (s in live && live[s] == o) || (s in pending && o == 0)
      modifies this`live, this`pending
      ensures live == old(live) - {s} && pending == old(pending) - {s}
      ensures o <= TOP_ORDER && Aligned(s, o) && InTransit(Range(s, o))
    {
      hide Tiles, Listed, Range;
      StartInRange(s, o);
      if s in live { OrderBound(s, o); }
      OnePage(s);
      if s in pending { NotLive(s, {}); }
      TilesReleased(frameArray.Length, free, live, reserved, pending, s, Range(s, o));
      live := live - {s};
      pending := pending - {s};
    }

    /** `memory_free_pages`: a null address and an address without metadata are ignored; otherwise the
        block joins the free pages, and the lists again hold exactly the canonical blocks. */
    method FreePages(blockAddr: nat)
      requires Valid()
      requires blockAddr == 0 || PageIndex(blockAddr) >= frameArray.Length
        || (blockAddr == AddressOf(PageIndex(blockAddr)) && PageIndex(blockAddr) in live.Keys + pending)
      modifies this`free, this`live, this`pending, frameArray, ordersLists
      ensures Valid()
      ensures blockAddr == 0 || PageIndex(blockAddr) >= frameArray.Length ==>
        && free == old(free) && live == old(live) && pending == old(pending)
        && frameArray[..] == old(frameArray[..]) && ordersLists[..] == old(ordersLists[..])
      ensures var s := PageIndex(blockAddr);
        blockAddr != 0 && s < frameArray.Length ==>
        && pending == old(pending) - {s}
        && (s in old(live) ==> Releases(old(Memory()), Memory(), s))
        && (s in old(pending) ==> live == old(live) && free == old(free) + {s})
      ensures forall p :: 0 <= p < frameArray.Length ==> frameArray[p].poolIndex == old(frameArray[p].poolIndex)
    {
      hide Tiles, Heads, Listed, Range;
      if blockAddr == 0 {
        return;
      }
      var page := Metadata(blockAddr);
      if page == frameArray.Length {
        return;
      }
      PutBack(blockAddr, page);
    }

    /** The part of `memory_free_pages` after its guards: `page` is the index of the block's first page. */
    method PutBack(blockAddr: nat, page: nat)
      requires Valid() && page in live.Keys + pending && blockAddr == AddressOf(page)
      modifies this`free, this`live, this`pending, frameArray, ordersLists
      ensures Valid()
      ensures live == old(live) - {page} && pending == old(pending) - {page}
      ensures page in old(pending) ==> live == old(live) && page !in old(live)
      ensures free == old(free) + if page in old(live) then Range(page, old(live)[page]) else {page}
      ensures forall p :: 0 <= p < frameArray.Length ==> frameArray[p].poolIndex == old(frameArray[p].poolIndex)
    {
      var order := frameArray[page].order;
      OnePage(page);
      StartInRange(page, order);
      Release(page, order);
      Coalesce(blockAddr, order, page);
    }

    /** The loop of `memory_free_pages` and what follows it: the block in transit at page `s` absorbs free
        buddies as long as there are any below the top order, and the result enters its list. */
    method Coalesce(blockAddr: nat, blockOrder: nat, ghost s: nat)
      requires blockOrder <= TOP_ORDER && Aligned(s, blockOrder) && InTransit(Range(s, blockOrder))
      requires blockAddr == AddressOf(s)
      modifies this`free, frameArray, ordersLists
      ensures Valid()
      ensures free == old(free) + Range(s, blockOrder)
      ensures forall p :: 0 <= p < frameArray.Length ==> frameArray[p].poolIndex == old(frameArray[p].poolIndex)
    {
      hide Tiles, Heads, Listed, Whole;
      var order, newBlockAddr := blockOrder, blockAddr;
      ghost var block := s;
      while order < MAX_ORDERS - 1
        invariant order <= TOP_ORDER && Aligned(block, order) && InTransit(Range(block, order))
        invariant newBlockAddr == AddressOf(block)
        invariant free + Range(block, order) == old(free) + Range(s, blockOrder)
        invariant frameArray[..] == old(frameArray[..])
        decreases TOP_ORDER - order
      {
        var buddy := GetBuddy(newBlockAddr, order, block);
        if buddy == 0 {
          break;
        }
        UnlistBuddy(PageIndex(buddy), order, block);
        newBlockAddr := if buddy < newBlockAddr then buddy else newBlockAddr;
        order := order + 1;
        block := Down(block, order);
      }
      TransitIndex(block, order);
      Enlist(PageIndex(newBlockAddr), order, Range(block, order));
      assert Range(block, order) - Range(block, order) == {};
    }

    /** The 64-bit `current_size` does not wrap before it reaches a size of at most half the address space. */
    lemma DoublingFits(o: nat)
      requires PAGE_SIZE * Pow2(o) < WORD / 2
      ensures PAGE_SIZE * Pow2(o + 1) <= WORD / 2
    {
      Pow2Values();
      if o < 51 { Pow2Monotone(o + 1, 51); } else { Pow2Monotone(51, o); }
    }

    /** `memory_allocate_pages`: null exactly when no aligned run of free pages of the smallest sufficient
        order exists, or that order exceeds the largest; otherwise the lowest part of the oldest block in
        the first list from that order upwards that is not empty. */
    method AllocatePages(size: nat) returns (addr: nat)
      requires Valid() && size <= WORD / 2
      modifies this`free, this`live, frameArray, ordersLists
      ensures Valid()
      ensures addr == 0 <==> RequiredOrder(size) >= MAX_ORDERS || !RunExists(old(free), RequiredOrder(size))
      ensures addr == 0 ==>
        && free == old(free) && live == old(live)
        && frameArray[..] == old(frameArray[..]) && ordersLists[..] == old(ordersLists[..])
      ensures addr != 0 ==>
        var s, r := PageIndex(addr), RequiredOrder(size);
        && addr == AddressOf(s) && s < frameArray.Length
        && Allocates(old(Memory()), Memory(), s, r)
        && OldestOfFirstFit(old(ordersLists[..]), s, r)
      ensures forall p :: 0 <= p < frameArray.Length ==> frameArray[p].poolIndex == old(frameArray[p].poolIndex)
    {
      hide Tiles, Heads, Listed, Whole, Range;
      var requiredOrder := OrderOfSize(size);
      var order := FirstFit(requiredOrder);
      if requiredOrder < MAX_ORDERS { RunListed(requiredOrder); }
      if order >= MAX_ORDERS {
        return 0;
      }
      var block := ordersLists[order][0];
      assert ordersLists[..][order] == ordersLists[order];
      assert OldestOfFirstFit(ordersLists[..], block, requiredOrder);
      addr := TakeFrom(block, order, requiredOrder);
    }

    /** The first loop of `memory_allocate_pages`, on a 64-bit `current_size`. */
    method OrderOfSize(size: nat) returns (requiredOrder: nat)
      requires size <= WORD / 2
      ensures requiredOrder == RequiredOrder(size)
    {
      var currentSize := PAGE_SIZE;
      requiredOrder := 0;
      while currentSize < size
        invariant currentSize == PAGE_SIZE * Pow2(requiredOrder) <= WORD / 2
        invariant OrderFrom(size, 0) == OrderFrom(size, requiredOrder)
        decreases size - currentSize
      {
        DoublingFits(requiredOrder);
        requiredOrder := requiredOrder + 1;
        currentSize := currentSize * 2 % WORD;
      }
    }

    /** The second loop of `memory_allocate_pages`. */
    method FirstFit(requiredOrder: nat) returns (order: nat)
      requires ordersLists.Length == MAX_ORDERS
      ensures requiredOrder <= order && (order >= MAX_ORDERS || ordersLists[order] != [])
      ensures requiredOrder < MAX_ORDERS ==> order <= MAX_ORDERS && EmptyBetween(ordersLists[..], requiredOrder, order)
    {
      order := requiredOrder;
      while order < MAX_ORDERS && ordersLists[order] == []
        invariant requiredOrder <= order
        invariant requiredOrder < MAX_ORDERS ==>
          order <= MAX_ORDERS && EmptyBetween(ordersLists[..], requiredOrder, order)
      {
        order := order + 1;
      }
    }

    /** Page `s` starts the first block of the first list from order `r` upwards that is not empty. */
    ghost predicate OldestOfFirstFit(lists: seq<seq<nat>>, s: nat, r: nat) {
      exists o :: r <= o < |lists| && lists[o] != [] && lists[o][0] == s && EmptyBetween(lists, r, o)
    }

    ghost predicate EmptyBetween(lists: seq<seq<nat>>, lo: nat, hi: nat) {
      hi <= |lists| && forall k :: lo <= k < hi ==> lists[k] == []
    }

    lemma RunListed(r: nat)
      requires Valid() && r <= TOP_ORDER
      ensures RunExists(free, r) <==> !EmptyBetween(ordersLists[..], r, MAX_ORDERS)
    {
      RunExistsIff(free, r);
      if b :| b in Canonical(free) && b.order >= r {
        CanonicalIff(free, b.start, b.order);
        assert b.start in ordersLists[..][b.order];
      }
      if !EmptyBetween(ordersLists[..], r, MAX_ORDERS) {
        var o :| r <= o < MAX_ORDERS && ordersLists[..][o] != [];
        var s := ordersLists[o][0];
        assert s in ordersLists[..][o];
        CanonicalIff(free, s, o);
        assert Block(s, o) in Canonical(free);
      }
    }

    /** The rest of `memory_allocate_pages`: unlists the block at page `s`, gives its upper halves back to
        the lists down to order `requiredOrder`, and marks what is left allocated. */
    method TakeFrom(s: nat, blockOrder: nat, requiredOrder: nat) returns (addr: nat)
      requires Valid() && requiredOrder <= blockOrder < MAX_ORDERS && s in ordersLists[blockOrder]
      modifies this`free, this`live, frameArray, ordersLists
      ensures Valid()
      ensures addr == AddressOf(s) && addr != 0 && PageIndex(addr) == s && s < frameArray.Length && s !in old(live)
      ensures Whole(old(free), s, requiredOrder)
      ensures free == old(free) - Range(s, requiredOrder) && live == old(live)[s := requiredOrder]
      ensures forall p :: 0 <= p < frameArray.Length ==> frameArray[p].poolIndex == old(frameArray[p].poolIndex)
    {
      assert Maximal(free, s, blockOrder) by { assert s in ordersLists[..][blockOrder]; }
      LowestPart(s, blockOrder, requiredOrder);
      addr := AddressOf(s);
      Unlist(s, blockOrder, {});
      hide Tiles, Heads, Listed;
      assert {} + Range(s, blockOrder) == Range(s, blockOrder);
      Split(s, blockOrder, requiredOrder);
      Allocate(s, requiredOrder);
    }

    /** Returns the upper halves of the block in transit to the lists, until it has order `requiredOrder`. */
    method Split(s: nat, blockOrder: nat, requiredOrder: nat)
      requires requiredOrder <= blockOrder <= TOP_ORDER && Aligned(s, blockOrder) && InTransit(Range(s, blockOrder))
      modifies this`free, frameArray, ordersLists
      ensures Aligned(s, requiredOrder) && InTransit(Range(s, requiredOrder))
      ensures Range(s, requiredOrder) <= Range(s, blockOrder)
      ensures free == old(free) + (Range(s, blockOrder) - Range(s, requiredOrder))
      ensures forall p :: 0 <= p < frameArray.Length ==> frameArray[p].poolIndex == old(frameArray[p].poolIndex)
    {
      hide Tiles, Heads, Listed;
      var order := blockOrder;
      while order > requiredOrder
        invariant requiredOrder <= order <= blockOrder && Aligned(s, order) && InTransit(Range(s, order))
        invariant Range(s, order) <= Range(s, blockOrder)
        invariant free == old(free) + (Range(s, blockOrder) - Range(s, order))
        invariant forall p :: 0 <= p < frameArray.Length ==> frameArray[p].poolIndex == old(frameArray[p].poolIndex)
      {
        order := order - 1;
        EnlistUpperHalf(s, order);
      }
    }

    /** One step of the splitting loop: the upper half of the block in transit enters the list of order `o`. */
    method EnlistUpperHalf(s: nat, o: nat)
      requires o < TOP_ORDER && Aligned(s, o + 1) && InTransit(Range(s, o + 1))
      modifies this`free, frameArray, ordersLists
      ensures Aligned(s, o) && InTransit(Range(s, o))
      ensures Range(s, o) <= Range(s, o + 1)
      ensures free == old(free) + (Range(s, o + 1) - Range(s, o))
      ensures forall p :: 0 <= p < frameArray.Length ==> frameArray[p].poolIndex == old(frameArray[p].poolIndex)
    {
      var buddy := s + Pow2(o);
      AlignedHalves(s, o);
      BuddiesJoin(s, o);
      assert s in Range(s, o);
      Enlist(buddy, o, Range(s, o + 1));
      assert Range(s, o + 1) - Range(buddy, o) == Range(s, o);
    }

    method Allocate(s: nat, o: nat)
      requires Aligned(s, o) && InTransit(Range(s, o))
      modifies this`live, frameArray
      ensures Valid() && s < frameArray.Length && s !in old(live) && live == old(live)[s := o]
      ensures PageIndex(AddressOf(s)) == s
      ensures forall p :: 0 <= p < frameArray.Length ==> frameArray[p].poolIndex == old(frameArray[p].poolIndex)
    {
      hide Heads, Listed, Range, InLive, Aligned;
      TransitIndex(s, o);
      StartInRange(s, o);
      NotLive(s, Range(s, o));
      TilesAllocated(frameArray.Length, free, live, reserved, pending, s, o);
      HeadsAllocated(frameArray[..], free, live, reserved, pending, s, o);
      frameArray[s] := frameArray[s].(order := o, flags := Allocated);
      live := live[s := o];
    }

    constructor ()
      ensures availableMemory == [] && reservedMemory == [] && ordersLists.Length == MAX_ORDERS
      ensures fresh(ordersLists) && fresh(frameArray)
    {
      availableMemory, reservedMemory := [], [];
      base, frameArrayAddr := 0, 0;
      frameArray := new Page[0];
      ordersLists := new seq<nat>[MAX_ORDERS](_ => []);
      free, live, reserved, pending := {}, map[], {}, {};
    }

    /** `memory_add`: a region beyond the tenth is dropped. */
    method MemoryAdd(addr: nat, size: nat)
      modifies this`availableMemory
      ensures availableMemory ==
        if |old(availableMemory)| == 10 then old(availableMemory)
        else old(availableMemory) + [Region(addr, size)]
    {
      if |availableMemory| == MAX_AVAILABLE {
        return;
      }
      availableMemory := availableMemory + [Region(addr, size)];
    }

    /** `memory_reserve`: a region beyond the hundredth is dropped. */
    method MemoryReserve(addr: nat, size: nat)
      modifies this`reservedMemory
      ensures reservedMemory ==
        if |old(reservedMemory)| == 100 then old(reservedMemory)
        else old(reservedMemory) + [Region(addr, size)]
    {
      if |reservedMemory| == MAX_RESERVED {
        return;
      }
      reservedMemory := reservedMemory + [Region(addr, size)];
    }

    /** `_memory_reserve_pages` */
    method ReservePages(region: Region)
      requires base <= region.addr && region.addr + region.size <= base + PAGE_SIZE * frameArray.Length
      modifies frameArray
      ensures forall p :: 0 <= p < frameArray.Length ==>
        frameArray[p] == if p in RegionPages(base, region) then old(frameArray[p]).(order := 0, flags := Reserved)
          else old(frameArray[p])
    {
      var reservedPageNum := CeilDiv(region.size);
      var indexOffset := PageOf(base, region.addr);
      assert indexOffset + reservedPageNum <= frameArray.Length;
      for i := 0 to reservedPageNum
        invariant forall p :: 0 <= p < frameArray.Length ==>
          frameArray[p] == if indexOffset <= p < indexOffset + i then old(frameArray[p]).(order := 0, flags := Reserved)
            else old(frameArray[p])
      {
        frameArray[indexOffset + i] := frameArray[indexOffset + i].(order := 0, flags := Reserved);
      }
    }

    /** `_populate_orders_lists`: every page that is not reserved is freed once, in ascending order. */
    method PopulateOrdersLists()
      requires Sized() && free == {} && live == map[]
      requires Tiles(frameArray.Length, free, live, reserved, pending, {})
      requires Heads(frameArray[..], free, live, reserved, pending)
      modifies this`free, this`live, this`pending, frameArray, ordersLists
      ensures Valid() && free == old(pending) && live == map[] && pending == {}
    {
      for i := 0 to MAX_ORDERS
        invariant forall k :: 0 <= k < i ==> ordersLists[k] == []
        modifies ordersLists
      {
        ordersLists[i] := [];
      }
      assert Listed(ordersLists[..], {}) by {
        forall s: nat, o: nat ensures !Maximal({}, s, o) { StartInRange(s, o); }
      }
      assert Valid();
      for i := 0 to frameArray.Length
        invariant Valid() && live == map[]
        invariant pending == set p | p in old(pending) && i <= p
        invariant free == old(pending) - pending
      {
        PopulatePage(i);
      }
    }

    /** The body of that loop. A page it has not reached yet is never inside a block. */
    method PopulatePage(i: nat)
      requires Valid() && live == map[] && i < frameArray.Length && i !in free
      modifies this`free, this`live, this`pending, frameArray, ordersLists
      ensures Valid() && live == map[]
      ensures pending == old(pending) - {i} && free == old(free) + (old(pending) * {i})
    {
      if frameArray[i].flags == Reserved || frameArray[i].flags == Free {
        assert i !in pending;
        return;
      }
      var pageAddr := AddressOf(i);
      IndexRoundTrip(i);
      FreePages(pageAddr);
    }

    /** `memory_init`: places the frame array, marks it and the reserved regions, and puts every other page
        into the lists, coalesced. The bounds say that sizes fit their 32-bit and 64-bit types. */
    method MemoryInit() returns (error: bool)
      requires ordersLists.Length == MAX_ORDERS && availableMemory != []
      requires var memory := availableMemory[0];
        memory.size % PAGE_SIZE == 0 && memory.size < PAGE_SIZE * MAX_PAGES &&
          BelowTop(memory, reservedMemory, FrameArraySize(memory))
      modifies this, ordersLists
      ensures availableMemory == old(availableMemory) && reservedMemory == old(reservedMemory)
      ensures ordersLists == old(ordersLists)
      ensures error <==>
        || availableMemory[0].addr + availableMemory[0].size == WORD
        || !exists a :: Place(availableMemory[0], reservedMemory, FrameArraySize(availableMemory[0]), a)
      ensures !error ==>
        var memory := availableMemory[0];
        var frameRegion := Region(frameArrayAddr, FrameArraySize(memory));
        && Valid() && fresh(frameArray) && pending == {}
        && base == memory.addr && PAGE_SIZE * frameArray.Length == memory.size
        && LowestPlace(memory, reservedMemory, frameRegion.size, frameArrayAddr)
        && (forall p :: 0 <= p < frameArray.Length ==>
          (p in reserved <==> Marked(memory, [frameRegion] + reservedMemory, p)))
        && FirstState(memory, [frameRegion] + reservedMemory, Memory())
    {
      hide Tiles, Heads, Listed, Marked;
      var memory := availableMemory[0];
      var pageCount := memory.size / PAGE_SIZE;
      var frameArraySize := FrameArraySize(memory);
      var addr := AllocateFrameArray(memory, reservedMemory, frameArraySize);
      if addr == 0 {
        return true;
      }
      base, frameArrayAddr := memory.addr, addr;
      frameArray := new Page[pageCount](_ => Page(0, Unset, 0));
      MarkReserved(memory, Region(addr, frameArraySize));
      TakeStock();
      PopulateOrdersLists();
      return false;
    }

    /** Before the lists are populated every page is reserved or pending. */
    ghost method TakeStock()
      requires forall p :: 0 <= p < frameArray.Length ==>
        frameArray[p].order == 0 && frameArray[p].flags in {Unset, Reserved}
      modifies this`free, this`live, this`reserved, this`pending
      ensures free == {} && live == map[]
      ensures forall p :: 0 <= p < frameArray.Length ==> (p in reserved <==> frameArray[p].flags == Reserved)
      ensures forall p :: 0 <= p < frameArray.Length ==> (p in pending <==> frameArray[p].flags != Reserved)
      ensures Tiles(frameArray.Length, free, live, reserved, pending, {})
      ensures Heads(frameArray[..], free, live, reserved, pending)
    {
      free, live := {}, map[];
      reserved := set p | 0 <= p < frameArray.Length && frameArray[p].flags == Reserved;
      pending := set p | 0 <= p < frameArray.Length && frameArray[p].flags != Reserved;
      forall s: nat, o: nat ensures !Maximal({}, s, o) { StartInRange(s, o); }
    }

    /** Marks the frame array and then the reserved regions inside memory. */
    method MarkReserved(memory: Region, frameRegion: Region)
      requires base == memory.addr && PAGE_SIZE * frameArray.Length == memory.size && Inside(memory, frameRegion)
      requires memory.addr + memory.size < WORD
      requires forall i :: 0 <= i < |reservedMemory| ==> reservedMemory[i].addr + reservedMemory[i].size < WORD
      requires forall p :: 0 <= p < frameArray.Length ==> frameArray[p] == Page(0, Unset, 0)
      modifies frameArray
      ensures forall p :: 0 <= p < frameArray.Length ==>
        frameArray[p] == Page(0, if Marked(memory, [frameRegion] + reservedMemory, p) then Reserved else Unset, 0)
    {
      ReservePages(frameRegion);
      ghost var done := [frameRegion];
      forall p: nat ensures Marked(memory, done, p) <==> p in RegionPages(base, frameRegion) {
        MarkedAppend(memory, [], frameRegion, p);
        assert [] + [frameRegion] == done;
      }
      for i := 0 to |reservedMemory|
        invariant done == [frameRegion] + reservedMemory[..i]
        invariant forall p :: 0 <= p < frameArray.Length ==>
          frameArray[p] == Page(0, if Marked(memory, done, p) then Reserved else Unset, 0)
      {
        forall p: nat ensures Marked(memory, done + [reservedMemory[i]], p) <==>
          Marked(memory, done, p) ||
            (Inside(memory, reservedMemory[i]) && p in RegionPages(memory.addr, reservedMemory[i]))
        {
          MarkedAppend(memory, done, reservedMemory[i], p);
        }
        done := done + [reservedMemory[i]];
        if (reservedMemory[i].addr + reservedMemory[i].size) % WORD > (memory.addr + memory.size) % WORD {
          continue;
        }
        if reservedMemory[i].addr < base {
          continue;
        }
        ReservePages(reservedMemory[i]);
      }
      assert reservedMemory[..|reservedMemory|] == reservedMemory;
    }

    /** The `pool_index` field belongs to the allocator of small blocks. */
    method SetPoolIndex(p: nat, poolIndex: nat)
      requires Valid() && p < frameArray.Length
      modifies frameArray
      ensures Valid()
      ensures frameArray[..] == old(frameArray[..])[p := old(frameArray[p]).(poolIndex := poolIndex)]
    {
      frameArray[p] := frameArray[p].(poolIndex := poolIndex);
    }
  }
}
