/**
 The allocator of small blocks: eight pools of chunks of 16 to 2048 bytes, each carved from whole
 pages, and larger blocks taken straight from the page allocator. An address finds its pool through
 the metadata of the page it lies in.
 */
module DynamicAllocator {
  import opened Bits
  import opened FreeBlocks
  import AllocatorRuns
  import opened Lists
  import opened PageAllocator

  const POOLS_SIZE: nat := 8
  const NO_POOL: nat := 0xFF

  const CHUNK_SIZES: seq<nat> := [16, 32, 64, 128, 256, 512, 1024, 2048]

  datatype Pool = Pool(chunkSize: nat, list: seq<nat>)

  lemma ChunkSizes(i: nat)
    requires i < POOLS_SIZE
    ensures CHUNK_SIZES[i] == Pow2(i + 4) && Pow2(i + 4) < PAGE_SIZE
  {
    assert Pow2(4) == 16 && Pow2(5) == 32 && Pow2(6) == 64 && Pow2(7) == 128;
    assert Pow2(8) == 256 && Pow2(9) == 512 && Pow2(10) == 1024 && Pow2(11) == 2048;
  }

  /** `addr` is where a chunk of pool `i` starts: aligned to the chunk size, in a page of that pool. */
  predicate IsChunk(base: nat, poolPages: map<nat, nat>, addr: nat, i: nat) {
    && base <= addr && Aligned(addr - base, i + 4)
    && PageOf(base, addr) in poolPages && poolPages[PageOf(base, addr)] == i
  }

  /** Pool pages and large blocks are live blocks of the page allocator whose metadata names their pool. */
  ghost predicate PoolMetadata(frame: seq<Page>, live: map<nat, nat>, poolPages: map<nat, nat>, large: set<nat>) {
    && (forall p :: p in poolPages ==>
      p in live && live[p] == 0 && p < |frame| && poolPages[p] < POOLS_SIZE && frame[p].poolIndex == poolPages[p])
    && (forall p :: p in large ==> p in live && p !in poolPages && p < |frame| && frame[p].poolIndex == NO_POOL)
  }

  /** Every chunk of a pool page is either in the list of its pool, once, or live. */
  ghost predicate Carved(base: nat, pools: seq<Pool>, poolPages: map<nat, nat>, chunks: map<nat, nat>) {
    && |pools| == POOLS_SIZE
    && (forall i :: 0 <= i < POOLS_SIZE ==> pools[i].chunkSize == CHUNK_SIZES[i] && Distinct(pools[i].list))
    && (forall a :: a in chunks ==> chunks[a] < POOLS_SIZE && IsChunk(base, poolPages, a, chunks[a]))
    && (forall i: nat, a: nat :: i < POOLS_SIZE && a in pools[i].list ==>
      IsChunk(base, poolPages, a, i) && a !in chunks)
    && (forall i: nat, a: nat :: i < POOLS_SIZE && IsChunk(base, poolPages, a, i) ==> a in pools[i].list || a in chunks)
  }

  /** The page allocator may hand out further blocks, and take back blocks that are not the pools'. */
  lemma PoolMetadataStable(frame: seq<Page>, live: map<nat, nat>, frame': seq<Page>, live': map<nat, nat>,
      poolPages: map<nat, nat>, large: set<nat>)
    requires PoolMetadata(frame, live, poolPages, large)
    requires |frame'| == |frame|
    requires forall p :: p in poolPages.Keys + large ==>
      p in live' && live'[p] == live[p] && (p < |frame| ==> frame'[p].poolIndex == frame[p].poolIndex)
    ensures PoolMetadata(frame', live', poolPages, large)
  {
  }

  lemma PoolPage(frame: seq<Page>, live: map<nat, nat>, poolPages: map<nat, nat>, large: set<nat>, p: nat)
    requires PoolMetadata(frame, live, poolPages, large)
    ensures p in poolPages ==>
      p in live && p !in large && p < |frame| && frame[p].poolIndex == poolPages[p] < POOLS_SIZE
    ensures p in large ==> p in live && p !in poolPages && p < |frame| && frame[p].poolIndex == NO_POOL
  {
  }

  lemma PoolMetadataGrow(frame: seq<Page>, live: map<nat, nat>, poolPages: map<nat, nat>, large: set<nat>, page: nat,
      i: nat)
    requires PoolMetadata(frame, live, poolPages, large) && i < POOLS_SIZE && page < |frame|
    requires page in live && live[page] == 0 && page !in poolPages && page !in large
    ensures PoolMetadata(frame[page := frame[page].(poolIndex := i)], live, poolPages[page := i], large)
  {
  }

  /** A live chunk goes to the end of the list of its pool. */
  lemma CarvedFree(base: nat, pools: seq<Pool>, poolPages: map<nat, nat>, chunks: map<nat, nat>, addr: nat)
    requires Carved(base, pools, poolPages, chunks) && addr in chunks
    ensures |pools| == POOLS_SIZE && chunks[addr] < POOLS_SIZE && IsChunk(base, poolPages, addr, chunks[addr])
    ensures var i := chunks[addr];
            Carved(base, pools[i := pools[i].(list := pools[i].list + [addr])], poolPages, chunks - {addr})
  {
    hide IsChunk, Distinct;
    var i := chunks[addr];
    AppendDistinct(pools[i].list, addr);
    forall j: nat | IsChunk(base, poolPages, addr, j) ensures j == i { OnePool(base, poolPages, addr, i, j); }
  }

  /** The head of the list of pool `i` becomes a live chunk. */
  lemma CarvedTake(base: nat, pools: seq<Pool>, poolPages: map<nat, nat>, chunks: map<nat, nat>, i: nat)
    requires Carved(base, pools, poolPages, chunks) && i < POOLS_SIZE && pools[i].list != []
    ensures var addr := pools[i].list[0];
            && addr !in chunks && IsChunk(base, poolPages, addr, i)
            && Carved(base, pools[i := pools[i].(list := Remove(pools[i].list, addr))], poolPages, chunks[addr := i])
  {
    hide IsChunk, Remove, Distinct;
    var addr := pools[i].list[0];
    assert addr in pools[i].list;
    RemoveDistinct(pools[i].list, addr);
    forall j: nat | IsChunk(base, poolPages, addr, j) ensures j == i { OnePool(base, poolPages, addr, i, j); }
  }

  lemma OnePool(base: nat, poolPages: map<nat, nat>, addr: nat, i: nat, j: nat)
    requires IsChunk(base, poolPages, addr, i) && IsChunk(base, poolPages, addr, j)
    ensures i == j
  {
  }

  lemma ChunksOfNewPage(base: nat, poolPages: map<nat, nat>, i: nat, p: nat, list: seq<nat>, a: nat, j: nat)
    requires ListedUpTo(base, p, i, list, PAGE_SIZE) && p !in poolPages && i < POOLS_SIZE
    ensures IsChunk(base, poolPages[p := i], a, j) <==>
      IsChunk(base, poolPages, a, j) || (j == i && (a == base + PAGE_SIZE * p || a in list))
    ensures a in list || a == base + PAGE_SIZE * p ==> !IsChunk(base, poolPages, a, j)
  {
    hide Aligned, PageOf, Distinct;
    PageAligned(p, i + 4);
    if base <= a { InPage(base, p, a); }
  }

  lemma InPage(base: nat, p: nat, a: nat)
    requires base <= a
    ensures PageOf(base, a) == p <==> base + PAGE_SIZE * p <= a < base + PAGE_SIZE * p + PAGE_SIZE
  {
  }

  /** The start of a page is aligned to every chunk size. */
  lemma PageAligned(p: nat, k: nat)
    requires k <= 12
    ensures Aligned(PAGE_SIZE * p, k)
  {
    hide Pow2, Down;
    Pow2Values();
    AlignedMultiple(p, 12);
    DownDown(PAGE_SIZE * p, k, 12);
  }

  /** `list` holds the addresses of the chunks of pool `i` in page `p` after the first and below `limit`. */
  ghost predicate ListedUpTo(base: nat, p: nat, i: nat, list: seq<nat>, limit: nat) {
    && Distinct(list)
    && forall a: nat :: a in list <==>
      base + PAGE_SIZE * p < a < base + PAGE_SIZE * p + limit && Aligned(a - base, i + 4)
  }

  lemma NoneBetween(s: nat, k: nat)
    requires Aligned(s, k)
    ensures forall x: nat :: s < x < s + Pow2(k) ==> !Aligned(x, k)
  {
    forall x: nat | s < x < s + Pow2(k) ensures !Aligned(x, k) {
      DownUnique(s, k, x);
    }
  }

  /** Both ends of a page are aligned to every chunk size. */
  lemma PageBounds(p: nat, i: nat)
    requires i < POOLS_SIZE
    ensures 0 < CHUNK_SIZES[i] < PAGE_SIZE && CHUNK_SIZES[i] == Pow2(i + 4)
    ensures Aligned(PAGE_SIZE * p, i + 4) && Aligned(PAGE_SIZE * p + CHUNK_SIZES[i], i + 4)
    ensures Aligned(PAGE_SIZE * p + PAGE_SIZE, i + 4)
  {
    hide Pow2, Aligned;
    ChunkSizes(i);
    PageAligned(p, i + 4);
    PageAligned(p + 1, i + 4);
    AlignedNext(PAGE_SIZE * p, i + 4);
  }

  lemma NoChunkYet(base: nat, p: nat, i: nat)
    requires i < POOLS_SIZE
    ensures ListedUpTo(base, p, i, [], CHUNK_SIZES[i])
  {
    PageBounds(p, i);
    NoneBetween(PAGE_SIZE * p, i + 4);
  }

  /** One step of the carving loop. */
  lemma NextChunk(base: nat, p: nat, i: nat, list: seq<nat>, addr: nat)
    requires i < POOLS_SIZE && addr < PAGE_SIZE && Aligned(PAGE_SIZE * p + addr, i + 4)
    requires ListedUpTo(base, p, i, list, addr)
    requires addr > 0
    ensures addr + CHUNK_SIZES[i] <= PAGE_SIZE && Aligned(PAGE_SIZE * p + addr + CHUNK_SIZES[i], i + 4)
    ensures ListedUpTo(base, p, i, list + [base + PAGE_SIZE * p + addr], addr + CHUNK_SIZES[i])
  {
    PageBounds(p, i);
    AlignedNext(PAGE_SIZE * p + addr, i + 4);
    NoneBetween(PAGE_SIZE * p + addr, i + 4);
    AppendDistinct(list, base + PAGE_SIZE * p + addr);
    hide Aligned;
    var list' := list + [base + PAGE_SIZE * p + addr];
    forall a: nat ensures a in list' <==>
      base + PAGE_SIZE * p < a < base + PAGE_SIZE * p + (addr + CHUNK_SIZES[i]) && Aligned(a - base, i + 4)
    {
      if base + PAGE_SIZE * p + addr < a < base + PAGE_SIZE * p + (addr + CHUNK_SIZES[i]) {
        assert !Aligned(a - base, i + 4);
      }
    }
  }

  /** A fresh page `p` joins pool `i`, whose list was empty: its first chunk is live, the others are listed. */
  lemma CarvedGrow(base: nat, pools: seq<Pool>, poolPages: map<nat, nat>, chunks: map<nat, nat>, i: nat, p: nat,
      list: seq<nat>)
    requires Carved(base, pools, poolPages, chunks) && i < POOLS_SIZE && pools[i].list == []
    requires p !in poolPages && ListedUpTo(base, p, i, list, PAGE_SIZE)
    ensures var addr := base + PAGE_SIZE * p;
      && addr !in chunks && IsChunk(base, poolPages[p := i], addr, i)
      && Carved(base, pools[i := pools[i].(list := list)], poolPages[p := i], chunks[addr := i])
  {
    var addr := base + PAGE_SIZE * p;
    forall a: nat, j: nat
      ensures IsChunk(base, poolPages[p := i], a, j) <==>
        IsChunk(base, poolPages, a, j) || (j == i && (a == addr || a in list))
      ensures a in list || a == addr ==> !IsChunk(base, poolPages, a, j)
    {
      ChunksOfNewPage(base, poolPages, i, p, list, a, j);
    }
    GrowByChunks(base, pools, poolPages, chunks, i, poolPages[p := i], addr, list);
  }

  lemma GrowByChunks(base: nat, pools: seq<Pool>, poolPages: map<nat, nat>, chunks: map<nat, nat>, i: nat,
                     poolPages': map<nat, nat>, addr: nat, list: seq<nat>)
    requires Carved(base, pools, poolPages, chunks) && i < POOLS_SIZE && pools[i].list == []
    requires Distinct(list) && addr !in list
    requires forall a: nat, j: nat :: IsChunk(base, poolPages', a, j) <==>
      IsChunk(base, poolPages, a, j) || (j == i && (a == addr || a in list))
    requires forall a: nat, j: nat :: a in list || a == addr ==> !IsChunk(base, poolPages, a, j)
    ensures addr !in chunks && IsChunk(base, poolPages', addr, i)
    ensures Carved(base, pools[i := pools[i].(list := list)], poolPages', chunks[addr := i])
  {
    hide IsChunk, Distinct;
    forall a | a in chunks ensures a !in list && a != addr {
      assert IsChunk(base, poolPages, a, chunks[a]);
    }
    var pools' := pools[i := pools[i].(list := list)];
    forall k: nat, a: nat | k < POOLS_SIZE && a in pools'[k].list
      ensures IsChunk(base, poolPages', a, k) && a !in chunks[addr := i]
    {
      assert k != i ==> a in pools[k].list && IsChunk(base, poolPages, a, k);
    }
  }

  /** The bytes of a chunk, relative to the base of memory. */
  ghost function ChunkBytes(base: nat, addr: nat, i: nat): set<nat>
    requires base <= addr
  {
    Range(addr - base, i + 4)
  }

  /** The bytes of a block of pages, relative to the base of memory. */
  ghost function BlockBytes(p: nat, order: nat): set<nat> {
    Interval(PAGE_SIZE * p, PAGE_SIZE * (p + Pow2(order)))
  }

  /** A chunk lies inside its page. */
  lemma ChunkInPage(base: nat, poolPages: map<nat, nat>, addr: nat, i: nat)
    requires IsChunk(base, poolPages, addr, i) && i < POOLS_SIZE
    ensures ChunkBytes(base, addr, i) <= BlockBytes(PageOf(base, addr), 0)
  {
    var p := PageOf(base, addr);
    Pow2Values();
    AlignedMultiple(p, 12);
    assert addr - base in Range(PAGE_SIZE * p, 12) && addr - base in Range(addr - base, i + 4);
    Nested(addr - base, i + 4, PAGE_SIZE * p, 12);
  }

  /** Chunks, free or live, overlap neither each other nor a block of other pages. */
  lemma ChunksApart(base: nat, poolPages: map<nat, nat>, a: nat, i: nat, b: nat, j: nat)
    requires IsChunk(base, poolPages, a, i) && IsChunk(base, poolPages, b, j) && i < POOLS_SIZE && j < POOLS_SIZE
    requires a != b
    ensures ChunkBytes(base, a, i) !! ChunkBytes(base, b, j)
  {
    ChunkInPage(base, poolPages, a, i);
    ChunkInPage(base, poolPages, b, j);
    if PageOf(base, a) == PageOf(base, b) {
      forall x | x in ChunkBytes(base, a, i) && x in ChunkBytes(base, b, i) ensures false {
        DownUnique(a - base, i + 4, x);
        DownUnique(b - base, i + 4, x);
      }
    }
  }

  lemma PageOfByte(x: nat, p: nat, o: nat)
    requires x in BlockBytes(p, o)
    ensures x / PAGE_SIZE in Range(p, o)
  {
  }

  lemma BlocksApart(p: nat, o: nat, q: nat, k: nat)
    requires Range(p, o) !! Range(q, k)
    ensures BlockBytes(p, o) !! BlockBytes(q, k)
  {
    forall x | x in BlockBytes(p, o) && x in BlockBytes(q, k) ensures false {
      PageOfByte(x, p, o);
      PageOfByte(x, q, k);
    }
  }

  class DynamicAllocator {
    const pages: PageAllocator
    const pools: array<Pool>

    /** The pool of every pool page, the first pages of the large blocks, and the pool of every live chunk. */
    ghost var poolPages: map<nat, nat>
    ghost var large: set<nat>
    ghost var chunks: map<nat, nat>

    ghost predicate Valid()
      reads this, pages, pages.frameArray, pages.ordersLists, pools
    {
      && pages.Valid()
      && pools.Length == POOLS_SIZE
      && PoolMetadata(pages.frameArray[..], pages.live, poolPages, large)
      && Carved(pages.base, pools[..], poolPages, chunks)
    }

    /** `dynamic_allocator_init` */
    constructor (pages: PageAllocator)
      requires pages.Valid()
      ensures Valid() && this.pages == pages && fresh(pools)
      ensures poolPages == map[] && large == {} && chunks == map[]
    {
      this.pages := pages;
      pools := new Pool[POOLS_SIZE](i => Pool(if 0 <= i < POOLS_SIZE then CHUNK_SIZES[i] else 0, []));
      poolPages, large, chunks := map[], {}, map[];
    }

    /** `_get_pool_index`: the first pool whose chunks hold `size` bytes. */
    method GetPoolIndex(size: nat) returns (index: nat)
      requires Valid()
      ensures index == NO_POOL <==> size > CHUNK_SIZES[POOLS_SIZE - 1]
      ensures index != NO_POOL ==>
        index < POOLS_SIZE && size <= CHUNK_SIZES[index] && forall k :: 0 <= k < index ==> CHUNK_SIZES[k] < size
    {
      var i := 0;
      while i < POOLS_SIZE
        invariant 0 <= i <= POOLS_SIZE
        invariant forall k :: 0 <= k < i ==> CHUNK_SIZES[k] < size
      {
        assert pools[..][i].chunkSize == CHUNK_SIZES[i];
        if pools[i].chunkSize >= size {
          return i;
        }
        i := i + 1;
      }
      return NO_POOL;
    }

    /** The address of a live block, large or small. */
    ghost predicate IsLive(addr: nat)
      reads this, pages
    {
      addr in chunks || (addr == pages.AddressOf(pages.PageIndex(addr)) && pages.PageIndex(addr) in large)
    }

    /** The bytes of a live block, relative to the base of memory. */
    ghost function LiveBytes(addr: nat): set<nat>
      requires Valid() && IsLive(addr)
      reads this, pages, pages.frameArray, pages.ordersLists, pools
    {
      if addr in chunks then ChunkBytes(pages.base, addr, chunks[addr])
      else BlockBytes(pages.PageIndex(addr), pages.live[pages.PageIndex(addr)])
    }

    /** No two live blocks share a byte. */
    lemma LiveApart(a: nat, b: nat)
      requires Valid() && IsLive(a) && IsLive(b) && a != b
      ensures LiveBytes(a) !! LiveBytes(b)
    {
      if a in chunks && b in chunks {
        ChunksApart(pages.base, poolPages, a, chunks[a], b, chunks[b]);
      } else if a in chunks {
        ChunkApartFromLarge(a, pages.PageIndex(b));
      } else if b in chunks {
        ChunkApartFromLarge(b, pages.PageIndex(a));
      } else {
        PagesApart(pages.PageIndex(a), pages.PageIndex(b));
      }
    }

    lemma PagesApart(p: nat, q: nat)
      requires Valid() && p in pages.live && q in pages.live && p != q
      ensures BlockBytes(p, pages.live[p]) !! BlockBytes(q, pages.live[q])
    {
      BlocksApart(p, pages.live[p], q, pages.live[q]);
    }

    lemma ChunkApartFromLarge(a: nat, q: nat)
      requires Valid() && a in chunks && q in large
      ensures ChunkBytes(pages.base, a, chunks[a]) !! BlockBytes(q, pages.live[q])
    {
      hide Tiles, Heads, Listed;
      ChunkInPage(pages.base, poolPages, a, chunks[a]);
      PagesApart(PageOf(pages.base, a), q);
    }

    /** `free`: null and addresses without metadata are ignored; a large block goes back to the page
        allocator, a chunk to the end of the list of the pool that its page belongs to. */
    method Free(addr: nat)
      requires Valid()
      requires addr == 0 || pages.PageIndex(addr) >= pages.frameArray.Length || IsLive(addr)
      modifies this`large, this`chunks, pages`free, pages`live, pages`pending, pages.frameArray, pages.ordersLists,
          pools
      ensures Valid() && poolPages == old(poolPages)
      ensures addr == 0 || pages.PageIndex(addr) >= pages.frameArray.Length ==>
        large == old(large) && chunks == old(chunks) && pages.free == old(pages.free) && pages.live == old(pages.live)
      ensures addr != 0 && pages.PageIndex(addr) < pages.frameArray.Length && addr in old(chunks) ==>
        && chunks == old(chunks) - {addr} && large == old(large)
        && pages.free == old(pages.free) && pages.live == old(pages.live)
        && var i := old(chunks[addr]);
           pools[..] == old(pools[..])[i := old(pools[i]).(list := old(pools[i].list) + [addr])]
      ensures addr != 0 && pages.PageIndex(addr) < pages.frameArray.Length && addr !in old(chunks) ==>
        && large == old(large) - {pages.PageIndex(addr)} && chunks == old(chunks) && pools[..] == old(pools[..])
        && AllocatorRuns.Releases(old(pages.Memory()), pages.Memory(), pages.PageIndex(addr))
    {
      hide Tiles, Heads, Listed, Carved;
      if addr == 0 {
        return;
      }
      var page := pages.Metadata(addr);
      if page == pages.frameArray.Length {
        return;
      }
      LivePoolIndex(addr);
      if pages.frameArray[page].poolIndex == NO_POOL {
        FreeLarge(addr, page);
        return;
      }
      FreeChunk(addr, pages.frameArray[page].poolIndex);
    }

    /** The metadata of a live address tells whether it is a chunk, and of which pool. */
    lemma LivePoolIndex(addr: nat)
      requires Valid() && IsLive(addr)
      ensures pages.PageIndex(addr) < pages.frameArray.Length
      ensures addr in chunks <==> pages.PageIndex(addr) !in large
      ensures addr in chunks ==> chunks[addr] < POOLS_SIZE
      ensures pages.frameArray[pages.PageIndex(addr)].poolIndex == if addr in chunks then chunks[addr] else NO_POOL
    {
      hide Tiles, Heads, Listed, Carved, PoolMetadata, Aligned;
      if addr in chunks {
        CarvedFree(pages.base, pools[..], poolPages, chunks, addr);
        PoolPage(pages.frameArray[..], pages.live, poolPages, large, PageOf(pages.base, addr));
        pages.IndexRoundTrip(PageOf(pages.base, addr));
      } else {
        PoolPage(pages.frameArray[..], pages.live, poolPages, large, pages.PageIndex(addr));
      }
    }

    method FreeLarge(addr: nat, page: nat)
      requires Valid() && page in large && addr == pages.AddressOf(page) && addr != 0
      modifies this`large, pages`free, pages`live, pages`pending, pages.frameArray, pages.ordersLists
      ensures Valid() && large == old(large) - {page}
      ensures AllocatorRuns.Releases(old(pages.Memory()), pages.Memory(), page)
    {
      hide Tiles, Heads, Listed, Carved;
      ghost var frame, live := pages.frameArray[..], pages.live;
      pages.IndexRoundTrip(page);
      pages.FreePages(addr);
      large := large - {page};
      PoolMetadataStable(frame, live, pages.frameArray[..], pages.live, poolPages, large);
    }

    method FreeChunk(addr: nat, i: nat)
      requires Valid() && addr in chunks && chunks[addr] == i
      modifies this`chunks, pools
      ensures Valid() && chunks == old(chunks) - {addr} && i < POOLS_SIZE
      ensures pools[..] == old(pools[..])[i := old(pools[i]).(list := old(pools[i].list) + [addr])]
    {
      hide Tiles, Heads, Listed, Carved;
      CarvedFree(pages.base, pools[..], poolPages, chunks, addr);
      pools[i] := pools[i].(list := pools[i].list + [addr]);
      chunks := chunks - {addr};
    }

    /** The index of the pool that serves `size` bytes. */
    ghost predicate PoolFor(size: nat, i: nat) {
      i < POOLS_SIZE && size <= CHUNK_SIZES[i] && forall k :: 0 <= k < i ==> CHUNK_SIZES[k] < size
    }

    /** `allocate`: a size above the largest chunk is a block of pages; any other size is the oldest chunk in
        the list of its pool or, when that is empty, the first chunk of a new page of the pool. */
    method Allocate(size: nat) returns (addr: nat)
      requires Valid() && size < 0x1_0000_0000
      modifies this, pages`free, pages`live, pages.frameArray, pages.ordersLists, pools
      ensures Valid()
      ensures addr == 0 ==>
        && large == old(large) && chunks == old(chunks) && poolPages == old(poolPages)
        && pages.free == old(pages.free) && pages.live == old(pages.live)
      ensures size > CHUNK_SIZES[POOLS_SIZE - 1] ==>
        && (addr == 0 <==> RequiredOrder(size) >= MAX_ORDERS || !RunExists(old(pages.free), RequiredOrder(size)))
        && (addr != 0 ==> LargeAllocated(size, addr))
      ensures size <= CHUNK_SIZES[POOLS_SIZE - 1] ==> exists i: nat ::
        && PoolFor(size, i)
        && (addr == 0 <==> old(pools[..])[i].list == [] && !RunExists(old(pages.free), 0))
        && (addr != 0 ==> ChunkAllocated(i, addr))
    {
      hide Tiles, Heads, Listed, Carved, PoolMetadata;
      var i := GetPoolIndex(size);
      if i == NO_POOL {
        addr := AllocateLarge(size);
        return;
      }
      assert PoolFor(size, i);
      if pools[i].list == [] {
        addr := AllocateNewPage(i);
        return;
      }
      addr := pools[i].list[0];
      CarvedTake(pages.base, pools[..], poolPages, chunks, i);
      pools[i] := pools[i].(list := Remove(pools[i].list, addr));
      chunks := chunks[addr := i];
    }

    method AllocateLarge(size: nat) returns (addr: nat)
      requires Valid() && size <= WORD / 2
      modifies this`large, pages`free, pages`live, pages.frameArray, pages.ordersLists
      ensures Valid()
      ensures addr == 0 ==> large == old(large) && pages.free == old(pages.free) && pages.live == old(pages.live)
      ensures addr == 0 <==> RequiredOrder(size) >= MAX_ORDERS || !RunExists(old(pages.free), RequiredOrder(size))
      ensures addr != 0 ==> LargeAllocated(size, addr)
    {
      hide Tiles, Heads, Listed, Carved;
      ghost var frame, live := pages.frameArray[..], pages.live;
      addr := pages.AllocatePages(size);
      if addr == 0 {
        PoolMetadataStable(frame, live, pages.frameArray[..], pages.live, poolPages, large);
        return;
      }
      var page := pages.Metadata(addr);
      pages.SetPoolIndex(page, NO_POOL);
      PoolMetadataStable(frame, live, pages.frameArray[..], pages.live, poolPages, large);
      large := large + {page};
    }

    lemma PoolChunkSize(i: nat)
      requires Valid() && i < POOLS_SIZE
      ensures pools[i].chunkSize == CHUNK_SIZES[i]
    {
      hide Tiles, Heads, Listed, Distinct, IsChunk;
      assert pools[..][i].chunkSize == CHUNK_SIZES[i];
    }

    /** A block that the page allocator hands out is no pool page and no large block. */
    lemma UsersStay(frame: seq<Page>, live: map<nat, nat>)
      requires PoolMetadata(frame, live, poolPages, large) && |frame| == pages.frameArray.Length
      requires forall p :: p in live ==> p in pages.live && pages.live[p] == live[p]
      requires forall p :: 0 <= p < |frame| ==> pages.frameArray[p].poolIndex == frame[p].poolIndex
      ensures PoolMetadata(pages.frameArray[..], pages.live, poolPages, large)
      ensures forall p :: p !in live ==> p !in poolPages && p !in large
    {
      PoolMetadataStable(frame, live, pages.frameArray[..], pages.live, poolPages, large);
    }

    method AllocateNewPage(i: nat) returns (addr: nat)
      requires Valid() && i < POOLS_SIZE && pools[i].list == []
      modifies this`poolPages, this`chunks, pages`free, pages`live, pages.frameArray, pages.ordersLists, pools
      ensures Valid()
      ensures addr == 0 ==>
        chunks == old(chunks) && poolPages == old(poolPages) && pages.free == old(pages.free) &&
          pages.live == old(pages.live)
      ensures addr == 0 <==> !RunExists(old(pages.free), 0)
      ensures addr != 0 ==> ChunkAllocated(i, addr)
    {
      hide Tiles, Heads, Listed, Carved, PoolMetadata, RequiredOrder, RunExists;
      PoolChunkSize(i);
      OnePageOrder();
      ghost var frame, live := pages.frameArray[..], pages.live;
      addr := pages.AllocatePages(PAGE_SIZE);
      if addr == 0 {
        UsersStay(frame, live);
        return;
      }
      UsersStay(frame, live);
      AddPage(addr, pages.Metadata(addr), i);
    }

    /** Makes a freshly allocated page part of pool `i`. */
    method AddPage(addr: nat, page: nat, i: nat)
      requires Valid() && i < POOLS_SIZE && pools[i] == Pool(CHUNK_SIZES[i], [])
      requires addr == pages.AddressOf(page) && page < pages.frameArray.Length
      requires page in pages.live && pages.live[page] == 0 && page !in poolPages && page !in large
      modifies this`poolPages, this`chunks, pages.frameArray, pools
      ensures Valid() && addr !in old(chunks)
      ensures poolPages == old(poolPages)[page := i] && chunks == old(chunks)[addr := i]
    {
      hide Tiles, Heads, Listed, Carved, PoolMetadata, ListedUpTo, IsChunk;
      PoolMetadataGrow(pages.frameArray[..], pages.live, poolPages, large, page, i);
      pages.SetPoolIndex(page, i);
      ghost var was := pools[..];
      Carve(addr, i, page);
      CarvedGrow(pages.base, was, poolPages, chunks, i, page, pools[i].list);
      poolPages := poolPages[page := i];
      chunks := chunks[addr := i];
    }

    /** The loop of `allocate` that lists every chunk of a new page except the first. */
    method Carve(blockAddr: nat, i: nat, ghost page: nat)
      requires i < POOLS_SIZE && pools.Length == POOLS_SIZE && pools[i] == Pool(CHUNK_SIZES[i], [])
      requires blockAddr == pages.base + PAGE_SIZE * page
      modifies pools
      ensures ListedUpTo(pages.base, page, i, pools[i].list, PAGE_SIZE)
      ensures pools[..] == old(pools[..])[i := old(pools[i]).(list := pools[i].list)]
    {
      PageBounds(page, i);
      NoChunkYet(pages.base, page, i);
      var addr := pools[i].chunkSize;
      while addr < PAGE_SIZE
        invariant pools[..] == old(pools[..])[i := Pool(CHUNK_SIZES[i], pools[i].list)]
        invariant 0 < addr <= PAGE_SIZE && Aligned(PAGE_SIZE * page + addr, i + 4)
        invariant ListedUpTo(pages.base, page, i, pools[i].list, addr)
        decreases PAGE_SIZE - addr
        modifies pools
      {
        var chunkAddr := blockAddr + addr;
        NextChunk(pages.base, page, i, pools[i].list, addr);
        pools[i] := pools[i].(list := pools[i].list + [chunkAddr]);
        addr := addr + pools[i].chunkSize;
      }
    }

    /** A block of pages for `size` bytes became live at `addr`; nothing else changed. */
    twostate predicate LargeAllocated(size: nat, addr: nat)
      reads this, pages
    {
      && addr == pages.AddressOf(pages.PageIndex(addr))
      && AllocatorRuns.Allocates(old(pages.Memory()), pages.Memory(), pages.PageIndex(addr), RequiredOrder(size))
      && large == old(large) + {pages.PageIndex(addr)} && chunks == old(chunks) && poolPages == old(poolPages)
    }

    /** A chunk of pool `i` became live at `addr`: the oldest one in the list, or the first one of a new page. */
    twostate predicate ChunkAllocated(i: nat, addr: nat)
      reads this, pages, pages.frameArray, pools
    {
      && large == old(large) && addr !in old(chunks) && chunks == old(chunks)[addr := i]
      && i < pools.Length
      && if old(pools[i].list) != [] then
           && addr == old(pools[i].list[0]) && poolPages == old(poolPages)
           && pages.free == old(pages.free) && pages.live == old(pages.live)
         else
           var p := pages.PageIndex(addr);
           && addr == pages.AddressOf(p) && poolPages == old(poolPages)[p := i]
           && AllocatorRuns.Allocates(old(pages.Memory()), pages.Memory(), p, 0)
    }
  }
}
