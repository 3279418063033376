/**
 The kernel's operations on page tables: mapping, traversal and teardown. Tables live in pages of the
 page allocator; the ghost tree records where each one is.
 */
module VirtualMemory {
  import opened Bits
  import opened FreeBlocks
  import opened PageAllocator
  import opened Sv39
  import opened PageTree
  import opened Traversal
  import opened Teardown
  import opened Roots

  /** The page number that the hardware takes out of an address. */
  function Vpn(vaddr: nat): nat {
    vaddr / 4096 % 0x800_0000
  }

  lemma VpnIndex(vaddr: nat, level: nat)
    requires level <= 2
    ensures vaddr / (4096 * LevelPages(level)) % 512 == Index(Vpn(vaddr), level)
    ensures Prefix(Vpn(vaddr), 3) == 0
  {
    AddressIndex(vaddr, level);
    Prefixes(vaddr / 4096);
    Prefixes(Vpn(vaddr));
    hide Prefix;
    VpnFields(vaddr / 4096);
  }

  /** The three nine-bit fields of a page number. */
  lemma VpnFields(m: nat)
    ensures var n := m % 0x800_0000;
      && n % 512 == m % 512 && n / 512 % 512 == m / 512 % 512 && n / 512 / 512 % 512 == m / 512 / 512 % 512
      && n / 512 / 512 / 512 == 0
  {
    var q, n := m / 0x800_0000, m % 0x800_0000;
    assert m == 512 * (512 * (512 * q)) + n;
    assert m / 512 == 512 * (512 * q) + n / 512;
    assert m / 512 / 512 == 512 * q + n / 512 / 512;
  }

  lemma PagePointable(offset: nat, first: nat, p: nat)
    requires offset + 4096 * (first + p) < WORD && 4096 * (first + p) < 0x100_0000_0000_0000
    ensures Pointable(offset, offset + 4096 * first + 4096 * p)
  {
    assert Va2Pa(offset, offset + 4096 * first + 4096 * p) == 4096 * (first + p);
  }

  class VirtualMemory {
    const pages: PageAllocator
    const kernelPgd: nat

    /** `virtual_kernel_offset` */
    var offset: nat
    /** The contents of every page that holds a table, by its kernel virtual address. */
    var tables: Tables

    ghost var tree: Tree

    /** The static `kernel_pgd`, as it was filled before the first use of the page allocator, is the only table. */
    constructor (pages: PageAllocator, kernelPgd: nat, entries: seq<nat>, offset: nat)
      requires pages.Valid() && offset <= pages.base && (pages.base - offset) % 4096 == 0
      requires pages.base - offset + 4096 * pages.frameArray.Length <= 0x100_0000_0000_0000
      requires pages.PageIndex(kernelPgd) < pages.frameArray.Length ==> pages.PageIndex(kernelPgd) in pages.reserved
      requires Pointable(offset, kernelPgd) && GigabyteEntries(entries)
      ensures Valid() && this.pages == pages && this.kernelPgd == kernelPgd && this.offset == offset
      ensures tree == RootAlone(kernelPgd) && tables == map[kernelPgd := entries]
    {
      hide Tiles, Heads, Listed, Wellformed, GigabyteEntries;
      this.pages, this.kernelPgd, this.offset := pages, kernelPgd, offset;
      tables := map[kernelPgd := entries];
      tree := RootAlone(kernelPgd);
      RootAloneWellformed(kernelPgd, entries, offset);
    }

    /** Physical memory is page aligned, its page numbers fit an entry, and the kernel's root lies in the kernel
        image. */
    ghost predicate Physical()
      reads this`offset, pages`base, pages`frameArray, pages`reserved
    {
      && offset <= pages.base && (pages.base - offset) % 4096 == 0
      && pages.base - offset + 4096 * pages.frameArray.Length <= 0x100_0000_0000_0000
      && kernelPgd < WORD
      && (pages.PageIndex(kernelPgd) < pages.frameArray.Length ==> pages.PageIndex(kernelPgd) in pages.reserved)
    }

    /** Every table but the kernel's root is a live page of its own. */
    ghost predicate Backed()
      reads this`tables, this`tree, pages
    {
      && kernelPgd in tree.place && tree.place[kernelPgd].level == 2
      && forall t :: t in tables && t != kernelPgd ==> LivePage(t)
    }

    /** `addr` is the address of a live block of one page. */
    ghost predicate LivePage(addr: nat)
      reads pages
    {
      && pages.PageIndex(addr) in pages.live && pages.live[pages.PageIndex(addr)] == 0
      && addr == pages.AddressOf(pages.PageIndex(addr))
    }

    ghost predicate Valid()
      reads this, pages, pages.frameArray, pages.ordersLists
    {
      pages.Valid() && Physical() && Wellformed(tree, tables, offset) && Backed()
    }

    /** What page number `n` translates to under the root `root`. */
    function Translated(root: nat, n: nat): Option<Leaf>
      reads this
    {
      Lookup(tables, offset, root, n)
    }

    /** The pages of a set of tables. */
    ghost function PagesOf(addrs: set<nat>): set<nat>
      reads pages`base
    {
      set t | t in addrs :: pages.PageIndex(t)
    }

    /** Since then the tables grew, each new one in a page taken from the free pages, and no other page was taken. */
    ghost predicate Took(tables0: Tables, live0: map<nat, nat>, free0: set<nat>)
      reads this`tables, pages`live, pages`free, pages`base
    {
      && tables0.Keys <= tables.Keys
      && TakenPages(live0, free0, pages.live, pages.free, PagesOf(tables.Keys - tables0.Keys))
    }

    lemma TookNothing()
      ensures Took(tables, pages.live, pages.free)
    {
      assert tables.Keys - tables.Keys == {};
    }

    lemma TookTwice(tables0: Tables, live0: map<nat, nat>, free0: set<nat>, tables1: Tables, live1: map<nat, nat>,
        free1: set<nat>)
      requires tables0.Keys <= tables1.Keys
      requires TakenPages(live0, free0, live1, free1, PagesOf(tables1.Keys - tables0.Keys))
      requires Took(tables1, live1, free1)
      ensures Took(tables0, live0, free0)
    {
      var new0, new1 := tables1.Keys - tables0.Keys, tables.Keys - tables1.Keys;
      TakenTwice(live0, free0, live1, free1, pages.live, pages.free, PagesOf(new0), PagesOf(new1));
      hide TakenPages;
      assert tables.Keys - tables0.Keys == new0 + new1;
      assert PagesOf(new0 + new1) == PagesOf(new0) + PagesOf(new1);
    }

    /** No page changed its pool. */
    twostate predicate SamePools()
      reads pages, pages.frameArray
    {
      pages.frameArray == old(pages.frameArray)
      && forall p :: 0 <= p < pages.frameArray.Length ==>
        pages.frameArray[p].poolIndex == old(pages.frameArray[p].poolIndex)
    }

    /** `memory_allocate_pages` of one page. */
    method AllocatePage() returns (table: nat)
      requires Valid() && pages.free != {}
      modifies pages`free, pages`live, pages.frameArray, pages.ordersLists
      ensures Valid() && table !in tables && Pointable(offset, table) && LivePage(table)
      ensures TakenPages(old(pages.live), old(pages.free), pages.live, pages.free, {pages.PageIndex(table)})
      ensures SamePools() && |pages.free| == |old(pages.free)| - 1
    {
      hide Tiles, Heads, Listed, Wellformed;
      OnePageRun(pages.free);
      OnePageOrder();
      table := pages.AllocatePages(4096);
      TablePointable(table);
      OnePageTaken(old(pages.free), pages.PageIndex(table));
      pages.LiveIndex(pages.PageIndex(table));
      NotATable(table);
    }

    /** A page that was not live holds no table. */
    twostate lemma NotATable(table: nat)
      requires old(Backed()) && Physical() && pages.base == old(pages.base) && pages.Valid() && tables == old(tables)
      requires pages.PageIndex(table) !in old(pages.live) && pages.PageIndex(table) in pages.live
      ensures table !in tables
    {
      hide Tiles, Heads, Listed;
      pages.LiveIndex(pages.PageIndex(table));
      if pages.PageIndex(kernelPgd) in pages.reserved { pages.ReservedApart(pages.PageIndex(kernelPgd)); }
    }

    lemma OnePageTaken(free: set<nat>, p: nat)
      requires Whole(free, p, 0)
      ensures Range(p, 0) == {p} && |free - Range(p, 0)| == |free| - 1
    {
      OnePage(p);
      assert p in Range(p, 0);
    }

    lemma TablePointable(table: nat)
      requires Physical() && pages.Sized() && table == pages.AddressOf(pages.PageIndex(table))
      requires pages.PageIndex(table) < pages.frameArray.Length
      ensures Pointable(offset, table)
    {
      var p := pages.PageIndex(table);
      hide Pointable;
      PagePointable(offset, (pages.base - offset) / 4096, p);
    }

    /** `pagewalk`: afterwards the pages that the written entry serves translate as asked, the rest of a
        larger leaf that was in the way is gone, and every other page of every root translates as before. */
    method Pagewalk(pgd: nat, vaddr: nat, paddr: nat, prot: nat, leafLevel: nat)
      requires Valid() && InWindow(tree, pgd, Vpn(vaddr)) && leafLevel <= 1
      requires paddr < 0x100_0000_0000_0000 && LeafProt(prot) && paddr / 4096 % LevelPages(leafLevel) == 0
      requires NoTableBelow(tree, pgd, Vpn(vaddr), leafLevel)
      requires |pages.free| >= 2 - leafLevel
      modifies this`tables, this`tree, pages`free, pages`live, pages.frameArray, pages.ordersLists
      ensures Valid() && Extends(old(tree), tree, pgd, leafLevel)
      ensures Took(old(tables), old(pages.live), old(pages.free)) && SamePools()
      ensures |pages.free| >= |old(pages.free)| - (2 - leafLevel)
      ensures AllRemapped(old(tree), old(tables), tree, tables, offset, pgd, Vpn(vaddr),
          Leaf(leafLevel, paddr / 4096, prot))
      ensures OnlyWithin(old(tree), old(tables), tables, pgd)
    {
      hide Tiles, Heads, Listed, Wellformed, Took, TakenPages, AllDescended, AllRemapped, Physical, Backed, Vpn;
      hide LevelPages, Extends, LeafProt, OnlyWithin;
      ghost var n0 := Vpn(vaddr);
      WithinItself(tree, tables, offset, pgd);
      var currentTable, level := pgd, 2;
      AllDescendedStart(tree, tables, offset, pgd, n0);
      WalkStart(tree, tables, offset, pgd, n0);
      ExtendsItself(tree, pgd, 2);
      TookNothing();
      while level > leafLevel
        invariant leafLevel <= level <= 2 && Valid()
        invariant Extends(old(tree), tree, pgd, level)
        invariant OnWalk(pgd, level, n0) in tree.at && currentTable == tree.at[OnWalk(pgd, level, n0)]
        invariant Took(old(tables), old(pages.live), old(pages.free)) && SamePools()
        invariant |pages.free| >= |old(pages.free)| - (2 - level)
        invariant AllDescended(old(tree), old(tables), tree, tables, offset, pgd, n0, level)
        invariant OnlyWithin(old(tree), old(tables), tables, pgd)
      {
        currentTable := DescendFrom(currentTable, vaddr, level, pgd, old(tree), old(tables), old(pages.live),
            old(pages.free));
        level := level - 1;
      }
      NoTableStill(old(tree), tree, pgd, n0, leafLevel);
      DescendedWindow(old(tree), old(tables), tree, tables, offset, pgd, n0, leafLevel);
      ghost var tables2 := tables;
      TookKeys(old(tables), old(pages.live), old(pages.free));
      WriteEntry(currentTable, vaddr, paddr, prot, leafLevel, pgd, old(tree), old(tables));
      TookAs(old(tables), old(pages.live), old(pages.free), tables2);
      WithinTwice(old(tree), old(tables), tree, tables2, tables, pgd, leafLevel);
    }

    /** The body of that loop, since it began. */
    method DescendFrom(currentTable: nat, vaddr: nat, level: nat, ghost pgd: nat, ghost tree0: Tree,
        ghost tables0: Tables, ghost live0: map<nat, nat>, ghost free0: set<nat>) returns (next: nat)
      requires Valid() && InWindow(tree0, pgd, Vpn(vaddr)) && 0 < level <= 2 && pages.free != {}
      requires Extends(tree0, tree, pgd, level) && Took(tables0, live0, free0)
      requires OnlyWithin(tree0, tables0, tables, pgd)
      requires OnWalk(pgd, level, Vpn(vaddr)) in tree.at && currentTable == tree.at[OnWalk(pgd, level, Vpn(vaddr))]
      requires AllDescended(tree0, tables0, tree, tables, offset, pgd, Vpn(vaddr), level)
      modifies this`tables, this`tree, pages`free, pages`live, pages.frameArray, pages.ordersLists
      ensures Valid() && Extends(tree0, tree, pgd, level - 1)
      ensures OnWalk(pgd, level - 1, Vpn(vaddr)) in tree.at && next == tree.at[OnWalk(pgd, level - 1, Vpn(vaddr))]
      ensures Took(tables0, live0, free0) && SamePools() && OnlyWithin(tree0, tables0, tables, pgd)
      ensures |pages.free| >= |old(pages.free)| - 1
      ensures AllDescended(tree0, tables0, tree, tables, offset, pgd, Vpn(vaddr), level - 1)
    {
      hide Tiles, Heads, Listed, Wellformed, Took, TakenPages, AllDescended, Physical, Backed, Vpn, Extends, OnlyWithin;
      hide OnWalk, InWindow;
      ghost var tree1, tables1, live1, free1 := tree, tables, pages.live, pages.free;
      TookKeys(tables0, live0, free0);
      next := Descend(currentTable, vaddr, level, pgd, tree0, tables0);
      TookTwice(tables0, live0, free0, tables1, live1, free1);
      WithinTwice(tree0, tables0, tree1, tables1, tables, pgd, level);
      ExtendsTwice(tree0, tree1, tree, pgd, level, level - 1);
    }

    lemma TookAs(tables0: Tables, live0: map<nat, nat>, free0: set<nat>, tables2: Tables)
      requires tables.Keys == tables2.Keys && tables0.Keys <= tables2.Keys
      requires TakenPages(live0, free0, pages.live, pages.free, PagesOf(tables2.Keys - tables0.Keys))
      ensures Took(tables0, live0, free0)
    {
    }

    lemma TookFree(tables0: Tables, live0: map<nat, nat>, free0: set<nat>)
      requires Took(tables0, live0, free0)
      ensures pages.free <= free0
    {
    }

    lemma TookKeys(tables0: Tables, live0: map<nat, nat>, free0: set<nat>)
      requires Took(tables0, live0, free0)
      ensures tables0.Keys <= tables.Keys
      ensures TakenPages(live0, free0, pages.live, pages.free, PagesOf(tables.Keys - tables0.Keys))
    {
    }

    /** One turn of the loop of `pagewalk`: follows the entry of `currentTable`, after putting an empty table
        there if it was zero or a leaf. */
    method Descend(currentTable: nat, vaddr: nat, level: nat, ghost pgd: nat, ghost tree0: Tree, ghost tables0: Tables)
      returns (next: nat)
      requires Valid() && InWindow(tree0, pgd, Vpn(vaddr)) && 0 < level <= 2
      requires AllDescended(tree0, tables0, tree, tables, offset, pgd, Vpn(vaddr), level)
      requires OnWalk(pgd, level, Vpn(vaddr)) in tree.at && currentTable == tree.at[OnWalk(pgd, level, Vpn(vaddr))]
      requires pages.free != {}
      modifies this`tables, this`tree, pages`free, pages`live, pages.frameArray, pages.ordersLists
      ensures Valid() && Extends(old(tree), tree, pgd, level - 1)
      ensures OnWalk(pgd, level - 1, Vpn(vaddr)) in tree.at && next == tree.at[OnWalk(pgd, level - 1, Vpn(vaddr))]
      ensures Took(old(tables), old(pages.live), old(pages.free)) && SamePools()
      ensures |pages.free| >= |old(pages.free)| - 1
      ensures AllDescended(tree0, tables0, tree, tables, offset, pgd, Vpn(vaddr), level - 1)
      ensures OnlyWithin(old(tree), old(tables), tables, pgd)
    {
      hide Tiles, Heads, Listed, Wellformed, Pointable, AllDescended, Physical, Backed, Extends, LeafPte, EntryLeaf;
      hide Index, Steps, FreeEntry, Took, PagesOf, OnlyWithin;
      ghost var n0 := Vpn(vaddr);
      VpnIndex(vaddr, level);
      DescendedWindow(tree0, tables0, tree, tables, offset, pgd, n0, level);
      WalkEntry(tree, tables, offset, pgd, level, n0);
      hide Vpn, LevelPages, Translate, Prefix, InWindow, IsLeafPte;
      var index := vaddr / (4096 * LevelPages(level)) % 512;
      var entry := tables[currentTable][index];
      if entry == 0 || IsLeafPte(entry) {
        entry := AddTable(currentTable, index, level, pgd, n0, tree0, tables0);
      } else {
        AllDescendedPointer(tree0, tables0, tree, tables, offset, pgd, n0, level);
        ExtendsItself(tree, pgd, level - 1);
        WithinItself(tree, tables, offset, pgd);
        TookNothing();
      }
      next := VaddrFromPte(offset, entry);
    }

    /** Puts an empty table below entry `index`. */
    method AddTable(currentTable: nat, index: nat, ghost level: nat, ghost pgd: nat, ghost n0: nat, ghost tree0: Tree,
        ghost tables0: Tables) returns (entry: nat)
      requires Valid() && InWindow(tree0, pgd, n0) && 0 < level <= 2 && index == Index(n0, level)
      requires AllDescended(tree0, tables0, tree, tables, offset, pgd, n0, level)
      requires OnWalk(pgd, level, n0) in tree.at && currentTable == tree.at[OnWalk(pgd, level, n0)]
      requires FreeEntry(tree, tables, currentTable, index) && tree.place[currentTable] == OnWalk(pgd, level, n0)
      requires pages.free != {}
      modifies this`tables, this`tree, pages`free, pages`live, pages.frameArray, pages.ordersLists
      ensures Valid() && Extends(old(tree), tree, pgd, level - 1)
      ensures OnWalk(pgd, level - 1, n0) in tree.at
      ensures VaddrFromPte(offset, entry) == tree.at[OnWalk(pgd, level - 1, n0)]
      ensures Took(old(tables), old(pages.live), old(pages.free)) && SamePools()
      ensures |pages.free| >= |old(pages.free)| - 1
      ensures AllDescended(tree0, tables0, tree, tables, offset, pgd, n0, level - 1)
      ensures OnlyWithin(old(tree), old(tables), tables, pgd)
    {
      hide Tiles, Heads, Listed, Wellformed, Pointable, AllDescended, LeafPte, Index, Physical, Extends, FreeEntry;
      hide InWindow, OnlyWithin;
      var table := AllocatePage();
      entry := LinkTable(table, currentTable, index, level, pgd, n0, tree0, tables0);
      OneTable(old(tables), table);
    }

    lemma OneTable(tables0: Tables, table: nat)
      requires table !in tables0 && tables.Keys == tables0.Keys + {table}
      ensures PagesOf(tables.Keys - tables0.Keys) == {pages.PageIndex(table)}
    {
      assert tables.Keys - tables0.Keys == {table};
    }

    /** Zeroes the new table and writes the entry that points to it. */
    method LinkTable(table: nat, currentTable: nat, index: nat, ghost level: nat, ghost pgd: nat, ghost n0: nat,
        ghost tree0: Tree, ghost tables0: Tables) returns (entry: nat)
      requires Valid() && InWindow(tree0, pgd, n0) && 0 < level <= 2 && index == Index(n0, level)
      requires AllDescended(tree0, tables0, tree, tables, offset, pgd, n0, level)
      requires OnWalk(pgd, level, n0) in tree.at && currentTable == tree.at[OnWalk(pgd, level, n0)]
      requires FreeEntry(tree, tables, currentTable, index) && tree.place[currentTable] == OnWalk(pgd, level, n0)
      requires table !in tables && Pointable(offset, table) && LivePage(table)
      modifies this`tables, this`tree
      ensures Valid() && Extends(old(tree), tree, pgd, level - 1)
      ensures OnWalk(pgd, level - 1, n0) in tree.at
      ensures VaddrFromPte(offset, entry) == tree.at[OnWalk(pgd, level - 1, n0)]
      ensures tables.Keys == old(tables).Keys + {table}
      ensures AllDescended(tree0, tables0, tree, tables, offset, pgd, n0, level - 1)
      ensures OnlyWithin(old(tree), old(tables), tables, pgd)
    {
      hide Tiles, Heads, Listed, Wellformed, Pointable, AllDescended, LeafPte, Index, Extends, InWindow, Physical;
      hide Backed, LivePage, OnlyWithin;
      GrownWithin(tree, tables, offset, currentTable, index, table);
      AllDescendedGrown(tree0, tables0, tree, tables, offset, pgd, n0, level, table);
      GrownWellformed(tree, tables, offset, currentTable, index, table);
      GrownExtends(tree, tables, offset, currentTable, index, table);
      PteRoundTrip(offset, table, PTE_VALID);
      PrefixUp(n0, level);
      GrownAt(tree, currentTable, index, table, pgd, level, n0);
      GrownKeys(tables, offset, currentTable, index, table);
      entry := MakePte(Va2Pa(offset, table), PTE_VALID);
      var zeroed := tables[table := Zeros(PAGE_TABLE_ENTRIES_NUM)];
      assert SetEntry(zeroed, currentTable, index, entry) == GrownTables(tables, offset, currentTable, index, table);
      hide SetEntry, GrownTables, Grown, MakePte, Va2Pa, VaddrFromPte;
      tables := SetEntry(zeroed, currentTable, index, entry);
      tree := Grown(tree, currentTable, index, table);
      BackedGrown(table);
    }

    /** A new table in a live page of its own. */
    twostate lemma BackedGrown(table: nat)
      requires old(Backed()) && LivePage(table) && tables.Keys == old(tables).Keys + {table}
      requires pages.live == old(pages.live) && pages.base == old(pages.base)
      requires KeepsPlaces(old(tree), tree)
      ensures Backed()
    {
      forall t | t in tables && t != kernelPgd ensures LivePage(t) {
        if t != table { assert old(LivePage(t)); }
      }
    }

    /** The last two lines of `pagewalk`. */
    method WriteEntry(currentTable: nat, vaddr: nat, paddr: nat, prot: nat, leafLevel: nat, ghost pgd: nat,
        ghost tree0: Tree, ghost tables0: Tables)
      requires Valid() && InWindow(tree, pgd, Vpn(vaddr)) && leafLevel <= 1
      requires paddr < 0x100_0000_0000_0000 && LeafProt(prot) && paddr / 4096 % LevelPages(leafLevel) == 0
      requires NoTableBelow(tree, pgd, Vpn(vaddr), leafLevel)
      requires OnWalk(pgd, leafLevel, Vpn(vaddr)) in tree.at
      requires currentTable == tree.at[OnWalk(pgd, leafLevel, Vpn(vaddr))]
      requires AllDescended(tree0, tables0, tree, tables, offset, pgd, Vpn(vaddr), leafLevel)
      modifies this`tables
      ensures Valid() && tables.Keys == old(tables).Keys
      ensures AllRemapped(tree0, tables0, tree, tables, offset, pgd, Vpn(vaddr), Leaf(leafLevel, paddr / 4096, prot))
      ensures OnlyWithin(tree, old(tables), tables, pgd)
    {
      hide Tiles, Heads, Listed, Wellformed, Pointable, OnlyWithin;
      VpnIndex(vaddr, leafLevel);
      WalkEntry(tree, tables, offset, pgd, leafLevel, Vpn(vaddr));
      var index := vaddr / (4096 * LevelPages(leafLevel)) % 512;
      var pte := MakePte(paddr, prot);
      PtePhysical(paddr, prot);
      AllRemappedWrite(tree0, tables0, tree, tables, offset, pgd, Vpn(vaddr), Leaf(leafLevel, paddr / 4096, prot), pte);
      SetLeafWellformed(tree, tables, offset, currentTable, index, pte);
      SetWithin(tree, tables, offset, currentTable, index, pte);
      tables := SetEntry(tables, currentTable, index, pte);
    }

    /** `virtual_memory_map` at leaf level 0, `virtual_memory_map_pmd` at leaf level 1: every page of the range
        translates to the page as far into physical memory; nothing else changes, except that a larger leaf
        that covered a page of the range is gone. */
    method MapPages(pgd: nat, vaddr: nat, paddr: nat, size: nat, prot: nat, leafLevel: nat)
      requires Valid() && Mappable(tree, pgd, vaddr, paddr, size, prot, leafLevel)
      requires |pages.free| >= TablesNeeded(SpanPages(size, leafLevel), leafLevel)
      modifies this`tables, this`tree, pages`free, pages`live, pages.frameArray, pages.ordersLists
      ensures Valid() && Extends(old(tree), tree, pgd, leafLevel)
      ensures Took(old(tables), old(pages.live), old(pages.free)) && SamePools()
      ensures |pages.free| >= |old(pages.free)| - TablesNeeded(SpanPages(size, leafLevel), leafLevel)
      ensures AllMapped(old(tree), old(tables), tree, tables, offset, pgd,
        Vpn(vaddr), Vpn(vaddr) + SpanPages(size, leafLevel), Leaf(leafLevel, paddr / 4096, prot))
      ensures OnlyWithin(old(tree), old(tables), tables, pgd)
    {
      hide Tiles, Heads, Listed, Wellformed, Took, TakenPages, AllMapped, AllRemapped, SpanPages, TablesNeeded;
      hide LevelPages, Vpn, Physical, Backed, Extends, LeafProt, OnlyWithin;
      WithinItself(tree, tables, offset, pgd);
      ghost var first, leaf := Vpn(vaddr), Leaf(leafLevel, paddr / 4096, prot);
      ghost var done := 0;
      var mapped := 0;
      AllMappedStart(tree, tables, offset, pgd, first, leaf);
      SpanStart(vaddr, paddr, size, leafLevel);
      ExtendsItself(tree, pgd, leafLevel);
      TookNothing();
      while mapped < size
        invariant mapped == 4096 * done && InRange(vaddr, paddr, size, leafLevel, done)
        invariant Valid() && Extends(old(tree), tree, pgd, leafLevel)
        invariant Took(old(tables), old(pages.live), old(pages.free)) && SamePools()
        invariant |pages.free| >= |old(pages.free)| - TablesNeeded(done, leafLevel)
        invariant AllMapped(old(tree), old(tables), tree, tables, offset, pgd, first, first + done, leaf)
        invariant OnlyWithin(old(tree), old(tables), tables, pgd)
        decreases size - mapped
      {
        SpanStep(vaddr, paddr, size, leafLevel, done);
        MapLeaf(pgd, vaddr + mapped, paddr + mapped, prot, leafLevel, old(tree), old(tables), old(pages.live),
            old(pages.free), first, leaf);
        mapped := mapped + 4096 * LevelPages(leafLevel);
        done := done + LevelPages(leafLevel);
      }
      SpanEnd(vaddr, paddr, size, leafLevel, done);
    }

    /** The body of that loop, when the pages from `first` up to `vaddr` are mapped. */
    method MapLeaf(pgd: nat, vaddr: nat, paddr: nat, prot: nat, leafLevel: nat,
                   ghost tree0: Tree, ghost tables0: Tables, ghost live0: map<nat, nat>, ghost free0: set<nat>,
                   ghost first: nat, ghost leaf: Leaf)
      requires Valid() && leafLevel <= 1 && LeafProt(prot) && first <= Vpn(vaddr) && InWindow(tree0, pgd, Vpn(vaddr))
      requires paddr < 0x100_0000_0000_0000 && paddr / 4096 % LevelPages(leafLevel) == 0
      requires Vpn(vaddr) % LevelPages(leafLevel) == 0
      requires leaf.level == leafLevel && leaf.prot == prot && paddr / 4096 == leaf.ppn + (Vpn(vaddr) - first)
      requires AllMapped(tree0, tables0, tree, tables, offset, pgd, first, Vpn(vaddr), leaf)
      requires NoTableBelow(tree0, pgd, Vpn(vaddr), leafLevel) && Extends(tree0, tree, pgd, leafLevel)
      requires Took(tables0, live0, free0) && OnlyWithin(tree0, tables0, tables, pgd)
      requires |pages.free| >= 2 - leafLevel
      modifies this`tables, this`tree, pages`free, pages`live, pages.frameArray, pages.ordersLists
      ensures Valid() && Extends(tree0, tree, pgd, leafLevel)
      ensures Took(tables0, live0, free0) && SamePools() && |pages.free| >= |old(pages.free)| - (2 - leafLevel)
      ensures AllMapped(tree0, tables0, tree, tables, offset, pgd, first, Vpn(vaddr) + LevelPages(leafLevel), leaf)
      ensures OnlyWithin(tree0, tables0, tables, pgd)
    {
      hide Tiles, Heads, Listed, Wellformed, Took, TakenPages, AllMapped, AllRemapped, LevelPages, Vpn, LeafProt;
      hide Physical, Backed, Extends, OnlyWithin;
      ghost var tree1, tables1, live1, free1 := tree, tables, pages.live, pages.free;
      AllMappedWindow(tree0, tables0, tree1, tables1, offset, pgd, first, Vpn(vaddr), leaf, Vpn(vaddr));
      TookKeys(tables0, live0, free0);
      NoTableStill(tree0, tree, pgd, Vpn(vaddr), leafLevel);
      Pagewalk(pgd, vaddr, paddr, prot, leafLevel);
      AllMappedStep(tree0, tables0, tree1, tables1, tree, tables, offset, pgd, first, Vpn(vaddr), leaf);
      TookTwice(tables0, live0, free0, tables1, live1, free1);
      ExtendsTwice(tree0, tree1, tree, pgd, leafLevel, leafLevel);
      WithinTwice(tree0, tables0, tree1, tables1, tables, pgd, leafLevel);
    }

    /** `virtual_memory_traverse_leafs`, with the visits returned in place of a visitor called on each: of the
        pages of this table, exactly the first pages of leaves that meet the range, in ascending order. */
    method TraverseLeafs(table: nat, level: nat, tableBaseVaddr: nat, start: nat, end: nat, ghost p: Place)
      returns (visits: seq<Visit>)
      requires Valid() && p in tree.at && tree.at[p] == table && p.level == level
      requires tableBaseVaddr == 4096 * EntryPage(level, p.prefix * 512) && start <= end
      requires BelowEndInWindow(tree, p.root, EntryPage(level, p.prefix * 512), EntryPage(level, p.prefix * 512 + 512),
          end)
      ensures Exact(tables, offset, p.root, EntryPage(level, p.prefix * 512), EntryPage(level, p.prefix * 512 + 512),
          start, end, visits)
      decreases level
    {
      hide Tiles, Heads, Listed, Wellformed, Exact, Translate, BelowEndInWindow, EntryPage, EntryVaddr, LevelPages;
      hide LeafPte;
      ghost var root, first := p.root, p.prefix * 512;
      visits := [];
      TableAt(tree, tables, offset, p);
      ExactNone(tables, offset, root, EntryPage(level, first), start, end);
      var i := 0;
      while i < PAGE_TABLE_ENTRIES_NUM
        invariant 0 <= i <= PAGE_TABLE_ENTRIES_NUM
        invariant Exact(tables, offset, root, EntryPage(level, first), EntryPage(level, first + i), start, end, visits)
      {
        EntrySpan(level, first, i);
        var entryVaddr := EntryVaddr(tableBaseVaddr, level, i);
        var entryEnd := entryVaddr + 4096 * LevelPages(level);
        if entryEnd > start && entryVaddr >= end {
          ExactRest(tables, offset, root, level, first, i, start, end, visits);
          return;
        }
        var found := TraverseEntry(table, level, i, entryVaddr, entryEnd, start, end, p);
        ExactNext(tables, offset, root, level, first, i, start, end, visits, found);
        visits := visits + found;
        i := i + 1;
      }
    }

    /** The rest of the loop body of `virtual_memory_traverse_leafs`. */
    method TraverseEntry(table: nat, level: nat, i: nat, entryVaddr: nat, entryEnd: nat, start: nat, end: nat,
        ghost p: Place) returns (visits: seq<Visit>)
      requires Valid() && p in tree.at && tree.at[p] == table && p.level == level && i < PAGE_TABLE_ENTRIES_NUM
      requires entryVaddr == 4096 * EntryPage(level, p.prefix * 512 + i)
      requires entryEnd == 4096 * EntryPage(level, p.prefix * 512 + i + 1)
      requires entryVaddr < end && start <= end
      requires BelowEndInWindow(tree, p.root, EntryPage(level, p.prefix * 512), EntryPage(level, p.prefix * 512 + 512),
          end)
      ensures Exact(tables, offset, p.root, EntryPage(level, p.prefix * 512 + i),
          EntryPage(level, p.prefix * 512 + i + 1), start, end, visits)
      decreases level, 0
    {
      hide Tiles, Heads, Listed, Wellformed, Exact, Translate, BelowEndInWindow, EntryPage, LevelPages, LeafPte;
      hide IsValid, IsLeafPte, Lookup;
      TableAt(tree, tables, offset, p);
      EntryInWindow(tree, p, i, end);
      EntryAtPlace(tree, tables, offset, p, i);
      if entryEnd <= start {
        EntryWithoutVisit(tree, tables, offset, p, i, start, end);
        return [];
      }
      var pte := tables[table][i];
      if pte == 0 || !IsValid(pte) {
        EntryWithoutVisit(tree, tables, offset, p, i, start, end);
        return [];
      }
      if IsLeafPte(pte) {
        LeafVisit(tree, tables, offset, p, i, start, end);
        return [Visit(entryVaddr / 4096, table, i, pte)];
      }
      ghost var k := p.prefix * 512 + i;
      EntryPages(level - 1, k, 0);
      EntryPages(level - 1, k + 1, 0);
      ChildBelowEnd(tree, p, i, end);
      visits := TraverseLeafs(VaddrFromPte(offset, pte), level - 1, entryVaddr, start, end, ChildPlace(p, i));
    }

    /** `virtual_memory_free_tables`: every table below entries `startIndex` up to `startIndex + n` leaves the
        tree and its page goes back to the page allocator, once; the entries end up zero. */
    method FreeTables(table: nat, startIndex: nat, n: nat, ghost p: Place)
      requires Valid() && p in tree.at && tree.at[p] == table && startIndex + n <= Entries(tree, p)
      requires startIndex + n <= PAGE_TABLE_ENTRIES_NUM
      modifies this`tables, this`tree, pages`free, pages`live, pages`pending, pages.frameArray, pages.ordersLists
      ensures Valid() && p in tree.at && tree.at[p] == table && tree.window == old(tree.window)
      ensures Freed(old(tree), old(tables), tree, tables,
          Below(old(tree), p, p.prefix * 512 + startIndex, p.prefix * 512 + startIndex + n), table, startIndex,
          startIndex + n)
      ensures ReturnedPages(old(pages.live), old(pages.free), pages.live, pages.free,
        PagesOf(Below(old(tree), p, p.prefix * 512 + startIndex, p.prefix * 512 + startIndex + n)))
      ensures SamePools()
      decreases p.level, 1
    {
      hide Tiles, Heads, Listed, Wellformed, Freed, Below, ReturnedPages, Without, Physical;
      ghost var base := p.prefix * 512;
      TableAt(tree, tables, offset, p);
      BelowNothing(tree, p, base + startIndex);
      FreedStart(tree, tables, table, startIndex);
      NothingReturned();
      for i := startIndex to startIndex + n
        invariant Valid() && p in tree.at && tree.at[p] == table && tree.window == old(tree.window)
        invariant Freed(old(tree), old(tables), tree, tables, Below(old(tree), p, base + startIndex, base + i), table,
            startIndex, i)
        invariant ReturnedPages(old(pages.live), old(pages.free), pages.live, pages.free,
            PagesOf(Below(old(tree), p, base + startIndex, base + i)))
        invariant SamePools()
      {
        ghost var tree1, tables1, live1, free1 := tree, tables, pages.live, pages.free;
        ghost var gone, next := Below(old(tree), p, base + startIndex, base + i), Below(old(tree), p, base + i,
            base + i + 1);
        FreedTree(old(tree), old(tables), tree, tables, gone, table, startIndex, i);
        BelowConcat(old(tree), p, base + startIndex, base + i, base + i + 1);
        FreeEntryAt(table, i, p);
        FreedConcat(old(tree), old(tables), tree1, tables1, tree, tables, gone, next, table, startIndex, i, i + 1);
        ReturnedTwice(old(pages.live), old(pages.free), live1, free1, pages.live, pages.free, PagesOf(gone),
            PagesOf(next));
        assert PagesOf(gone + next) == PagesOf(gone) + PagesOf(next);
      }
    }

    lemma NothingReturned()
      ensures ReturnedPages(pages.live, pages.free, pages.live, pages.free, PagesOf({}))
    {
    }

    /** The body of the loop of `virtual_memory_free_tables`. */
    method FreeEntryAt(table: nat, i: nat, ghost p: Place)
      requires Valid() && p in tree.at && tree.at[p] == table && i < Entries(tree, p) && i < PAGE_TABLE_ENTRIES_NUM
      modifies this`tables, this`tree, pages`free, pages`live, pages`pending, pages.frameArray, pages.ordersLists
      ensures Valid() && p in tree.at && tree.at[p] == table && tree.window == old(tree.window)
      ensures Freed(old(tree), old(tables), tree, tables,
          Below(old(tree), p, p.prefix * 512 + i, p.prefix * 512 + i + 1), table, i, i + 1)
      ensures ReturnedPages(old(pages.live), old(pages.free), pages.live, pages.free,
        PagesOf(Below(old(tree), p, p.prefix * 512 + i, p.prefix * 512 + i + 1)))
      ensures SamePools()
      decreases p.level, 0
    {
      hide Tiles, Heads, Listed, Wellformed, Freed, Below, ReturnedPages, Without, LeafPte, IsLeafPte, IsValid;
      hide Physical;
      TableAt(tree, tables, offset, p);
      EntryAtPlace(tree, tables, offset, p, i);
      var pte := tables[table][i];
      if pte == 0 || IsLeafPte(pte) {
        NothingBelow(tree, tables, offset, p, i);
        SetLeafWellformed(tree, tables, offset, table, i, 0);
        FreedZero(tree, tables, table, i);
        NothingReturned();
        tables := SetEntry(tables, table, i, 0);
        return;
      }
      var subTable := VaddrFromPte(offset, pte);
      ghost var c, k := ChildPlace(p, i), p.prefix * 512 + i;
      ghost var below := Below(tree, c, 512 * k, 512 * k + 512);
      TableAt(tree, tables, offset, c);
      BelowChild(tree, tables, offset, p, i);
      FreeTables(subTable, 0, PAGE_TABLE_ENTRIES_NUM, c);
      ghost var tables1, live1, free1 := tables, pages.live, pages.free;
      FreedTree(old(tree), old(tables), tree, tables, below, subTable, 0, PAGE_TABLE_ENTRIES_NUM);
      BelowGone(old(tree), c, 512 * k, 512 * k + 512);
      WithoutAt(old(tree), below, p);
      ChildRemovable(tree, tables, offset, p, i);
      FreedChild(old(tree), old(tables), tree, tables1, below, table, i, subTable);
      FreeTable(table, i, subTable, p);
      ReturnedTwice(old(pages.live), old(pages.free), live1, free1, pages.live, pages.free, PagesOf(below),
          PagesOf({subTable}));
      assert PagesOf(below + {subTable}) == PagesOf(below) + PagesOf({subTable});
    }

    /** `memory_free_pages` of a block of one page. */
    method FreePage(addr: nat)
      requires pages.Valid() && Physical() && LivePage(addr)
      modifies pages`free, pages`live, pages`pending, pages.frameArray, pages.ordersLists
      ensures pages.Valid() && Physical()
      ensures ReturnedPages(old(pages.live), old(pages.free), pages.live, pages.free, {pages.PageIndex(addr)})
      ensures SamePools()
    {
      hide Tiles, Heads, Listed, Range;
      pages.LiveIndex(pages.PageIndex(addr));
      OnePage(pages.PageIndex(addr));
      pages.FreePages(addr);
    }

    /** The last two lines of that loop: the page of an emptied table is freed and the entry cleared. */
    method FreeTable(table: nat, i: nat, subTable: nat, ghost p: Place)
      requires Valid() && p in tree.at && tree.at[p] == table && 0 < p.level <= 2
      requires ChildPlace(p, i) in tree.at && tree.at[ChildPlace(p, i)] == subTable
      requires Removable(tree, tables, table, i, subTable)
      modifies this`tables, this`tree, pages`free, pages`live, pages`pending, pages.frameArray, pages.ordersLists
      ensures Valid() && p in tree.at && tree.at[p] == table && tree.window == old(tree.window)
      ensures tree == Without(old(tree), {subTable}) && tables == RemovedTables(old(tables), table, i, subTable)
      ensures ReturnedPages(old(pages.live), old(pages.free), pages.live, pages.free, PagesOf({subTable}))
      ensures SamePools()
    {
      hide Tiles, Heads, Listed, Wellformed, Without, Range, RemovedTables, Below, Pointable;
      TableAt(tree, tables, offset, p);
      TableAt(tree, tables, offset, ChildPlace(p, i));
      WithoutAt(tree, {subTable}, p);
      RemovedWellformed(tree, tables, offset, table, i, subTable);
      RemovedKeys(tree, tables, table, i, subTable);
      FreePage(subTable);
      tables := RemovedTables(tables, table, i, subTable);
      tree := Without(tree, {subTable});
    }

    /** The loop with which `task_copy` and `task_exec_user` fill a new root: the upper half is copied from the kernel's
        root, the lower half stays what the page held. */
    method AddRoot(pgd: nat, page: seq<nat>)
      requires Valid() && LivePage(pgd) && pgd !in tables && Pointable(offset, pgd)
      requires |page| == PAGE_TABLE_ENTRIES_NUM && page[..USER_ENTRIES] == Zeros(USER_ENTRIES)
      modifies this`tables, this`tree
      ensures Valid() && tree == WithRoot(old(tree), pgd) && |old(tables)[kernelPgd]| == PAGE_TABLE_ENTRIES_NUM
      ensures tables == old(tables)[pgd := RootEntries(old(tables)[kernelPgd])]
    {
      hide Tiles, Heads, Listed, Wellformed, Physical, LivePage, Pointable;
      KernelTable();
      var kernelEntries, entries := tables[kernelPgd], page;
      for i := PAGE_TABLE_ENTRIES_NUM / 2 to PAGE_TABLE_ENTRIES_NUM
        invariant entries == Zeros(USER_ENTRIES) + kernelEntries[USER_ENTRIES..i] + page[i..]
        modifies {}
      {
        entries := entries[i := kernelEntries[i]];
      }
      assert entries == RootEntries(kernelEntries);
      WithRootWellformed(tree, tables, offset, pgd, entries);
      tables := tables[pgd := entries];
      tree := WithRoot(tree, pgd);
    }

    lemma KernelTable()
      requires Wellformed(tree, tables, offset) && Backed()
      ensures kernelPgd in tables && |tables[kernelPgd]| == PAGE_TABLE_ENTRIES_NUM
    {
      hide LivePage, Pointable, EntryOk;
    }

    /** The page of a root without tables below it holds no table any more. */
    method ForgetRoot(pgd: nat)
      requires Valid() && UserRoot(tree, pgd) && TablesOf(tree, pgd) == {} && pgd != kernelPgd
      modifies this`tables, this`tree
      ensures Valid() && tree == Without(old(tree), {pgd}) && tables == old(tables) - {pgd}
    {
      hide Tiles, Heads, Listed, Wellformed, Physical, LivePage;
      WithoutRootWellformed(tree, tables, offset, pgd);
      tables := tables - {pgd};
      tree := Without(tree, {pgd});
    }
  }

  /** The range lies inside the address space and inside the entries that belong to the root, is aligned to
      the size of a leaf, and holds no smaller leaves. */
  ghost predicate Mappable(tree: Tree, pgd: nat, vaddr: nat, paddr: nat, size: nat, prot: nat, leafLevel: nat) {
    && leafLevel <= 1 && LeafProt(prot)
    && vaddr / 4096 % LevelPages(leafLevel) == 0 && paddr / 4096 % LevelPages(leafLevel) == 0
    && Vpn(vaddr) + SpanPages(size, leafLevel) <= 0x800_0000
    && paddr + 4096 * SpanPages(size, leafLevel) <= 0x100_0000_0000_0000
    && forall n :: Vpn(vaddr) <= n < Vpn(vaddr) + SpanPages(size, leafLevel) ==>
      InWindow(tree, pgd, n) && NoTableBelow(tree, pgd, n, leafLevel)
  }

  /** The number of pages that leaves of this level need to hold `size` bytes. */
  function SpanPages(size: nat, leafLevel: nat): nat {
    if leafLevel == 0 then (size + 4095) / 4096 else (size + 0x1f_ffff) / 0x20_0000 * 512
  }

  /** The most tables that mapping this many pages takes. */
  function TablesNeeded(pages: nat, leafLevel: nat): nat {
    if leafLevel == 0 then 2 * pages else pages / 512
  }

  /** The state of the mapping loop after `done` pages. */
  predicate InRange(vaddr: nat, paddr: nat, size: nat, leafLevel: nat, done: nat) {
    && leafLevel <= 1 && done % LevelPages(leafLevel) == 0 && done <= SpanPages(size, leafLevel)
    && vaddr / 4096 % LevelPages(leafLevel) == 0 && paddr / 4096 % LevelPages(leafLevel) == 0
    && Vpn(vaddr) + SpanPages(size, leafLevel) <= 0x800_0000
  }

  lemma LeafSizes()
    ensures LevelPages(0) == 1 && LevelPages(1) == 512
  {
  }

  lemma SpanStart(vaddr: nat, paddr: nat, size: nat, leafLevel: nat)
    requires leafLevel <= 1
    ensures TablesNeeded(0, leafLevel) == 0 && 0 % LevelPages(leafLevel) == 0
  {
  }

  lemma SpanEnd(vaddr: nat, paddr: nat, size: nat, leafLevel: nat, done: nat)
    requires InRange(vaddr, paddr, size, leafLevel, done) && 4096 * done >= size
    ensures done == SpanPages(size, leafLevel)
  {
    hide LevelPages, Vpn;
    LeafSizes();
    if leafLevel == 1 {
      assert done == done / 512 * 512;
    }
  }

  lemma SpanStep(vaddr: nat, paddr: nat, size: nat, leafLevel: nat, done: nat)
    requires InRange(vaddr, paddr, size, leafLevel, done) && 4096 * done < size
    ensures InRange(vaddr, paddr, size, leafLevel, done + LevelPages(leafLevel))
    ensures done < SpanPages(size, leafLevel)
    ensures TablesNeeded(done + LevelPages(leafLevel), leafLevel) == TablesNeeded(done, leafLevel) + (2 - leafLevel)
    ensures TablesNeeded(done + LevelPages(leafLevel), leafLevel) <= TablesNeeded(SpanPages(size, leafLevel), leafLevel)
    ensures Vpn(vaddr + 4096 * done) == Vpn(vaddr) + done && (paddr + 4096 * done) / 4096 == paddr / 4096 + done
    ensures (Vpn(vaddr) + done) % LevelPages(leafLevel) == 0 && (paddr / 4096 + done) % LevelPages(leafLevel) == 0
  {
    hide SpanPages, LevelPages, Vpn, TablesNeeded;
    LeafSizes();
    if leafLevel == 1 {
      Superpages(size, done);
      SumAligned(paddr / 4096, done);
      VpnAligned(vaddr, done);
    } else {
      SmallPages(size, done);
    }
    VpnOffset(vaddr, done);
    PageOffset(paddr, done);
  }

  lemma SmallPages(size: nat, done: nat)
    requires 4096 * done < size
    ensures done + 1 <= SpanPages(size, 0) && TablesNeeded(done + 1, 0) == TablesNeeded(done, 0) + 2
    ensures TablesNeeded(done + 1, 0) <= TablesNeeded(SpanPages(size, 0), 0)
  {
  }

  lemma Superpages(size: nat, done: nat)
    requires done % 512 == 0 && 4096 * done < size
    ensures done + 512 <= SpanPages(size, 1) && TablesNeeded(done + 512, 1) == TablesNeeded(done, 1) + 1
    ensures TablesNeeded(done + 512, 1) <= TablesNeeded(SpanPages(size, 1), 1) && (done + 512) % 512 == 0
  {
    var q, z := done / 512, (size + 0x1f_ffff) / 0x20_0000;
    assert done == 512 * q && q + 1 <= z;
  }

  lemma PageOffset(addr: nat, pages: nat)
    ensures (addr + 4096 * pages) / 4096 == addr / 4096 + pages
  {
  }

  lemma VpnOffset(vaddr: nat, pages: nat)
    requires Vpn(vaddr) + pages < 0x800_0000
    ensures Vpn(vaddr + 4096 * pages) == Vpn(vaddr) + pages
  {
    PageOffset(vaddr, pages);
  }

  lemma SumAligned(m: nat, done: nat)
    requires m % 512 == 0 && done % 512 == 0
    ensures (m + done) % 512 == 0
  {
  }

  lemma VpnAligned(vaddr: nat, done: nat)
    requires vaddr / 4096 % 512 == 0 && done % 512 == 0
    ensures (Vpn(vaddr) + done) % 512 == 0
  {
    var m := vaddr / 4096;
    assert m == 0x800_0000 * (m / 0x800_0000) + Vpn(vaddr);
    assert Vpn(vaddr) == 512 * (m / 512 - 0x4_0000 * (m / 0x800_0000));
    SumAligned(Vpn(vaddr), done);
  }
}
