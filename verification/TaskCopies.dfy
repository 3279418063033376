/** `task_copy_mappings`: the copy of an address space, page by page. */
module TaskCopies {
  import opened Bits
  import opened Sv39
  import opened PageTree
  import opened Traversal
  import opened Roots
  import opened TaskMappings
  import opened AddressSpaces
  import opened Ownership
  import opened KernelMemory
  import opened Tasks

  /** Page `n` of `dst` is a copy of page `n` of `src`: same permissions, same bytes, on a page that was not live
      before. */
  predicate CopiedPage(k0: Snapshot, k: Snapshot, src: nat, dst: nat, n: nat) {
    && HasData(k0, src, n) && HasData(k, dst, n)
    && LeafOf(k, dst, n).value.prot == LeafOf(k0, src, n).value.prot
    && DataAt(k, dst, n) !in k0.pages.live
    && DataAt(k0, src, n) in k0.contents && DataAt(k, dst, n) in k.contents
    && k.contents[DataAt(k, dst, n)] == k0.contents[DataAt(k0, src, n)]
  }

  /** Exactly the data pages of `src` below `limit` are copied. */
  ghost predicate CopiedUpTo(k0: Snapshot, k: Snapshot, src: nat, dst: nat, limit: nat) {
    forall n: nat :: n < USER_PAGES ==>
      if n < limit && HasData(k0, src, n) then CopiedPage(k0, k, src, dst, n) else LeafOf(k, dst, n) == None
  }

  ghost predicate NoData(k: Snapshot, root: nat, lo: nat, hi: nat) {
    forall n: nat :: lo <= n < hi ==> !HasData(k, root, n)
  }

  lemma CopiedRaise(k0: Snapshot, k: Snapshot, src: nat, dst: nat, limit: nat, limit': nat)
    requires CopiedUpTo(k0, k, src, dst, limit) && limit <= limit' && NoData(k0, src, limit, limit')
    ensures CopiedUpTo(k0, k, src, dst, limit')
  {
    hide HasData, LeafOf, CopiedPage;
  }

  lemma CopiedStep(k0: Snapshot, k1: Snapshot, k2: Snapshot, src: nat, dst: nat, limit: nat, n: nat, p: nat,
      bytes: seq<nat>, ms: seq<Mapping>)
    requires CopiedUpTo(k0, k1, src, dst, limit) && AddressSpace(k1, dst, ms)
    requires limit <= n && HasData(k0, src, n) && NoData(k0, src, limit, n)
    requires Installed(k1, k2, dst, n, p, bytes, LeafOf(k0, src, n).value.prot)
    requires DataAt(k0, src, n) in k0.contents && bytes == k0.contents[DataAt(k0, src, n)]
    requires Grows(k0, k1)
    ensures CopiedUpTo(k0, k2, src, dst, n + 1)
  {
    hide LeafOf, DataPage, UserRoot, PpnOf, AddressSpace;
    SmallLeaves(k1, dst, ms);
    DataPagesLive(k1, dst, ms);
    SamePpn(k1, k2);
    forall m: nat | m < USER_PAGES && m != n
      ensures LeafOf(k2, dst, m) == LeafOf(k1, dst, m)
      ensures CopiedPage(k0, k1, src, dst, m) ==> CopiedPage(k0, k2, src, dst, m)
    {
      SameData(k1, k2, dst, m);
    }
    assert CopiedPage(k0, k2, src, dst, n);
    hide Installed, CopiedPage;
  }

  /** What a visit of a user address space looks like. */
  lemma VisitIsData(k: Snapshot, src: nat, ms: seq<Mapping>, m: Mapping, v: Visit)
    requires AddressSpace(k, src, ms) && WellPlaced(ms) && Low(ms) && m in ms
    requires ToVisit(k.space.tables, k.offset, src, v.page, m.vaddr, m.vaddr + m.size)
    requires VisitsLeaf(k.space.tables, k.offset, src, v)
    ensures HasData(k, src, v.page) && m.vaddr / 4096 <= v.page < (m.vaddr + m.size) / 4096
    ensures Contains(m, 4096 * v.page) && LeafOf(k, src, v.page).value.prot == m.prot
    ensures DataAt(k, src, v.page) in k.contents
    ensures Ppn(v.pte) == LeafOf(k, src, v.page).value.ppn
  {
    hide UserRoot, DataPage, Ppn, LeafProt, NotShared, Lookup;
    var i :| 0 <= i < |ms| && ms[i] == m;
    assert Fits([], m.size, m.vaddr);
    InRangePage(ms, m, v.page);
    assert PageFine(k, src, ms, v.page);
    var prot := LeafOf(k, src, v.page).value.prot;
    var j :| 0 <= j < |ms| && Contains(ms[j], 4096 * v.page) && ms[j].prot == prot;
    ContainsUnique(ms, i, j, 4096 * v.page);
  }

  /** A page whose bytes meet a mapping lies inside it. */
  lemma InRangePage(ms: seq<Mapping>, m: Mapping, n: nat)
    requires WellPlaced(ms) && Low(ms) && m in ms && 4096 * n < m.vaddr + m.size
    ensures m.vaddr < 4096 * (n + 1) ==>
      Contains(m, 4096 * n) && n < USER_PAGES && n != TRAMPOLINE_PAGE && m.vaddr / 4096 <= n < (m.vaddr + m.size) / 4096
  {
    hide LeafProt;
    assert Fits([], m.size, m.vaddr);
    assert m.vaddr == 4096 * (m.vaddr / 4096) && m.size == 4096 * (m.size / 4096);
  }

  /** Every data page of the mapping is visited. */
  lemma DataIsVisited(k: Snapshot, src: nat, ms: seq<Mapping>, m: Mapping, visits: seq<Visit>, n: nat)
    requires AddressSpace(k, src, ms) && WellPlaced(ms) && m in ms
    requires EveryLeaf(k.space.tables, k.offset, src, 0, 0x800_0000, m.vaddr, m.vaddr + m.size, visits)
    requires HasData(k, src, n) && m.vaddr / 4096 <= n < (m.vaddr + m.size) / 4096
    ensures Visited(visits, n)
  {
    hide UserRoot, DataPage, LeafProt, NotShared, Lookup, InMapping, Visited;
    assert PageFine(k, src, ms, n);
    assert EntryPage(0, Prefix(n, 0)) == n;
    assert m.vaddr == 4096 * (m.vaddr / 4096) && m.size == 4096 * (m.size / 4096);
    assert LevelPages(0) == 1;
    assert ToVisit(k.space.tables, k.offset, src, n, m.vaddr, m.vaddr + m.size);
  }

  /** The pages up to which the first `j` visits have come. */
  function Passed(visits: seq<Visit>, j: nat, lo: nat): nat
    requires j <= |visits|
  {
    if j == 0 then lo else visits[j - 1].page + 1
  }

  /** Between one visit and the next there is no data page. */
  lemma NoneBetweenVisits(k: Snapshot, src: nat, ms: seq<Mapping>, m: Mapping, visits: seq<Visit>, j: nat)
    requires AddressSpace(k, src, ms) && WellPlaced(ms) && m in ms && j <= |visits|
    requires Exact(k.space.tables, k.offset, src, 0, 0x800_0000, m.vaddr, m.vaddr + m.size, visits)
    requires VisitsInside(visits, m)
    ensures NoData(k, src, Passed(visits, j, m.vaddr / 4096),
        if j == |visits| then (m.vaddr + m.size) / 4096 else visits[j].page)
  {
    hide AddressSpace, OnlyLeaves, HasData, EveryLeaf;
    var hi := if j == |visits| then (m.vaddr + m.size) / 4096 else visits[j].page;
    forall n: nat | Passed(visits, j, m.vaddr / 4096) <= n < hi ensures !HasData(k, src, n) {
      if HasData(k, src, n) {
        DataIsVisited(k, src, ms, m, visits, n);
        NotBetween(visits, j, m.vaddr / 4096, n);
      }
    }
  }

  lemma NotBetween(visits: seq<Visit>, j: nat, lo: nat, n: nat)
    requires Ascending(visits) && j <= |visits| && Visited(visits, n) && Passed(visits, j, lo) <= n
    ensures j < |visits| && visits[j].page <= n
  {
    var t :| 0 <= t < |visits| && visits[t].page == n;
  }

  lemma {:induction false} VisitsApart(visits: seq<Visit>, j: nat, lo: nat)
    requires Ascending(visits) && j <= |visits| && forall t :: 0 <= t < |visits| ==> lo <= visits[t].page
    ensures lo + j <= Passed(visits, j, lo)
  {
    if j > 0 { VisitsApart(visits, j - 1, lo); }
  }

  /** `_copy_one_page`. */
  method CopyOnePage(kernel: KernelMemory, dst: nat, ghost msDst: seq<Mapping>, v: Visit, prot: nat, ghost src: nat,
      ghost msSrc: seq<Mapping>) returns (ghost p: nat, ghost bytes: seq<nat>)
    requires kernel.Valid() && AddressSpace(kernel.Now(), dst, msDst) && AddressSpace(kernel.Now(), src, msSrc)
    requires HasData(kernel.Now(), src, v.page) && Ppn(v.pte) == LeafOf(kernel.Now(), src, v.page).value.ppn
    requires LeafOf(kernel.Now(), dst, v.page) == None && InMapping(msDst, v.page, prot) && LeafProt(prot)
    requires |kernel.vm.pages.free| >= 3
    modifies kernel`contents, kernel.vm`tables, kernel.vm`tree, kernel.vm.pages`free, kernel.vm.pages`live,
        kernel.vm.pages.frameArray, kernel.vm.pages.ordersLists
    ensures kernel.Valid() && AddressSpace(kernel.Now(), dst, msDst)
    ensures Installed(old(kernel.Now()), kernel.Now(), dst, v.page, p, bytes, prot)
    ensures DataAt(old(kernel.Now()), src, v.page) in old(kernel.contents)
    ensures bytes == old(kernel.contents)[DataAt(old(kernel.Now()), src, v.page)]
    ensures OutsidePages(kernel.Now(), dst) == OutsidePages(old(kernel.Now()), dst)
    ensures OthersKept(old(kernel.Now()), kernel.Now(), dst)
    ensures kernel.vm.pages.free <= old(kernel.vm.pages.free)
    ensures |kernel.vm.pages.free| >= |old(kernel.vm.pages.free)| - 3
  {
    hide kernel.Valid, AddressSpace, Installed, OthersKept, OutsidePages, LeafOf, LeafProt, DataAt;
    var srcPage := VaddrFromPte(kernel.vm.offset, v.pte);
    SourcePage(kernel, src, msSrc, v);
    var content := kernel.contents[kernel.vm.pages.PageIndex(srcPage)];
    bytes := content;
    assert 4096 * v.page / 4096 == v.page;
    p := MapNewPage(kernel, dst, msDst, 4096 * v.page, content, prot);
  }

  /** `addr` is the address of data page `p`. */
  predicate DataAddress(k: Snapshot, p: int, addr: nat) {
    DataPage(k, p) && addr == AddrOf(k, p) && PageAt(k, addr) == p && p in k.contents
  }

  /** The address read from an entry is that of the page it maps. */
  lemma SourcePage(kernel: KernelMemory, src: nat, ms: seq<Mapping>, v: Visit)
    requires kernel.Valid() && AddressSpace(kernel.Now(), src, ms)
    requires HasData(kernel.Now(), src, v.page) && Ppn(v.pte) == LeafOf(kernel.Now(), src, v.page).value.ppn
    ensures kernel.vm.pages.PageIndex(VaddrFromPte(kernel.vm.offset, v.pte)) == DataAt(kernel.Now(), src, v.page)
    ensures DataAddress(kernel.Now(), DataAt(kernel.Now(), src, v.page), VaddrFromPte(kernel.vm.offset, v.pte))
  {
    hide kernel.Valid, Lookup, NotShared, Consistent, InMapping;
    ghost var k := kernel.Now();
    assert PageFine(k, src, ms, v.page);
    kernel.DataAddress(v.pte, DataAt(k, src, v.page));
  }

  /** Where the copy stands: the source is as it was at `k0`, and its pages below `limit` are copied. */
  ghost predicate Copying(k0: Snapshot, k: Snapshot, src: nat, msSrc: seq<Mapping>, dst: nat, msDst: seq<Mapping>,
      limit: nat) {
    && AddressSpace(k0, src, msSrc) && AddressSpace(k, src, msSrc) && SameSpace(k0, k, src)
    && AddressSpace(k, dst, msDst) && CopiedUpTo(k0, k, src, dst, limit)
    && Grows(k0, k) && src != dst
  }

  /** The visit is of a data page of the source that is next to be copied. */
  ghost predicate CopyNext(k0: Snapshot, k: Snapshot, src: nat, dst: nat, limit: nat, v: Visit, prot: nat) {
    && HasData(k, src, v.page) && Ppn(v.pte) == LeafOf(k, src, v.page).value.ppn && LeafOf(k, dst, v.page) == None
    && HasData(k0, src, v.page) && LeafOf(k0, src, v.page).value.prot == prot && LeafProt(prot)
    && limit <= v.page && NoData(k0, src, limit, v.page)
  }

  /** Before and after a stretch of copying, the source looks the same. */
  lemma SameNoData(k0: Snapshot, k: Snapshot, src: nat, lo: nat, hi: nat)
    requires SameSpace(k0, k, src) && NoData(k, src, lo, hi)
    ensures NoData(k0, src, lo, hi)
  {
    hide DataAt, LeafOf;
    forall n: nat | lo <= n < hi ensures !HasData(k0, src, n) {
      assert !HasData(k, src, n);
    }
  }

  lemma NextVisit(k0: Snapshot, kt: Snapshot, k: Snapshot, src: nat, msSrc: seq<Mapping>, dst: nat, msDst: seq<Mapping>,
      m: Mapping, visits: seq<Visit>, j: nat)
    requires j < |visits| && WellPlaced(msSrc) && Low(msSrc) && m in msSrc
    requires Copying(k0, kt, src, msSrc, dst, msDst, m.vaddr / 4096)
    requires Copying(k0, k, src, msSrc, dst, msDst, Passed(visits, j, m.vaddr / 4096))
    requires Exact(kt.space.tables, kt.offset, src, 0, 0x800_0000, m.vaddr, m.vaddr + m.size, visits)
    requires VisitsInside(visits, m)
    ensures CopyNext(k0, k, src, dst, Passed(visits, j, m.vaddr / 4096), visits[j], m.prot)
    ensures Contains(m, 4096 * visits[j].page)
  {
    hide AddressSpace, Lookup, DataAt, EveryLeaf, LeafProt, WellPlaced;
    VisitIsData(kt, src, msSrc, m, visits[j]);
    VisitsApart(visits, j, m.vaddr / 4096);
    NoneBetweenVisits(kt, src, msSrc, m, visits, j);
    SameNoData(k0, kt, src, Passed(visits, j, m.vaddr / 4096), visits[j].page);
    MappingPages(msSrc, m);
    hide NoData, CopiedPage;
    assert LeafOf(k, dst, visits[j].page) == None;
  }

  /** The pages of a mapping that are present. */
  ghost function Present(k: Snapshot, root: nat, m: Mapping): set<nat> {
    set n | m.vaddr / 4096 <= n < (m.vaddr + m.size) / 4096 && HasData(k, root, n)
  }

  lemma SamePresent(k: Snapshot, k': Snapshot, root: nat, m: Mapping)
    requires SameSpace(k, k', root)
    ensures Present(k', root, m) == Present(k, root, m)
  {
    hide LeafOf, DataAt;
  }

  /** There are no more visits than pages that were present at the start. */
  lemma VisitsPresent(k0: Snapshot, kt: Snapshot, src: nat, msSrc: seq<Mapping>, dst: nat, msDst: seq<Mapping>,
      limit: nat, m: Mapping, visits: seq<Visit>)
    requires Copying(k0, kt, src, msSrc, dst, msDst, limit) && WellPlaced(msSrc) && Low(msSrc) && m in msSrc
    requires Exact(kt.space.tables, kt.offset, src, 0, 0x800_0000, m.vaddr, m.vaddr + m.size, visits)
    ensures |visits| <= |Present(k0, src, m)|
  {
    hide AddressSpace, LeafOf, EveryLeaf, LeafProt, WellPlaced, ToVisit, VisitsLeaf, CopiedUpTo, SameSpace, HasData;
    hide Ascending;
    SamePresent(k0, kt, src, m);
    forall t | 0 <= t < |visits| ensures visits[t].page in Present(kt, src, m) {
      VisitIsData(kt, src, msSrc, m, visits[t]);
    }
    hide Copying, Exact, Present;
    AscendingSize(visits, Present(kt, src, m));
  }

  lemma {:induction false} AscendingSize(visits: seq<Visit>, pages: set<nat>)
    requires Ascending(visits) && forall t :: 0 <= t < |visits| ==> visits[t].page in pages
    ensures |visits| <= |pages|
  {
    if visits != [] {
      var last := |visits| - 1;
      assert forall t :: 0 <= t < last ==> visits[..last][t].page in pages - {visits[last].page};
      AscendingSize(visits[..last], pages - {visits[last].page});
    }
  }

  ghost predicate VisitsInside(visits: seq<Visit>, m: Mapping) {
    forall t :: 0 <= t < |visits| ==> m.vaddr / 4096 <= visits[t].page < (m.vaddr + m.size) / 4096
  }

  lemma AllInside(kt: Snapshot, src: nat, ms: seq<Mapping>, m: Mapping, visits: seq<Visit>)
    requires AddressSpace(kt, src, ms) && WellPlaced(ms) && Low(ms) && m in ms
    requires Exact(kt.space.tables, kt.offset, src, 0, 0x800_0000, m.vaddr, m.vaddr + m.size, visits)
    ensures VisitsInside(visits, m)
  {
    hide AddressSpace, LeafOf, EveryLeaf, LeafProt, WellPlaced, ToVisit, VisitsLeaf;
    forall t | 0 <= t < |visits| ensures m.vaddr / 4096 <= visits[t].page < (m.vaddr + m.size) / 4096 {
      VisitIsData(kt, src, ms, m, visits[t]);
    }
  }

  /** One more page is copied. */
  lemma CopyingStep(k0: Snapshot, k1: Snapshot, k2: Snapshot, src: nat, msSrc: seq<Mapping>, dst: nat,
      msDst: seq<Mapping>, limit: nat, v: Visit, p: nat, bytes: seq<nat>, prot: nat)
    requires Copying(k0, k1, src, msSrc, dst, msDst, limit) && CopyNext(k0, k1, src, dst, limit, v, prot)
    requires Installed(k1, k2, dst, v.page, p, bytes, prot) && AddressSpace(k2, dst, msDst) && OthersKept(k1, k2, dst)
    requires DataAt(k1, src, v.page) in k1.contents && bytes == k1.contents[DataAt(k1, src, v.page)]
    ensures Copying(k0, k2, src, msSrc, dst, msDst, v.page + 1)
  {
    hide AddressSpace, LeafOf, DataAt, LeafProt, DataPage;
    OtherKept(k1, k2, dst, src, msSrc);
    SameSpaceTwice(k0, k1, k2, src);
    SourceContents(k0, k1, src, msSrc, v.page);
    CopiedStep(k0, k1, k2, src, dst, limit, v.page, p, bytes, msDst);
    GrowsTwice(k0, k1, k2);
  }

  /** The bytes of a source page are those at the start. */
  lemma SourceContents(k0: Snapshot, k: Snapshot, src: nat, ms: seq<Mapping>, n: nat)
    requires AddressSpace(k0, src, ms) && SameSpace(k0, k, src) && HasData(k0, src, n)
    ensures DataAt(k, src, n) == DataAt(k0, src, n) && DataAt(k0, src, n) in k0.contents
    ensures DataAt(k0, src, n) in k.contents
    ensures k.contents[DataAt(k0, src, n)] == k0.contents[DataAt(k0, src, n)]
  {
    hide LeafOf, DataAt, DataPage, UserRoot, NotShared;
    assert PageFine(k0, src, ms, n);
  }

  /** `virtual_memory_traverse_leafs` of one mapping of the source with `_copy_one_page` as its visitor. */
  method CopyPages(kernel: KernelMemory, src: nat, ghost msSrc: seq<Mapping>, dst: nat, ghost msDst: seq<Mapping>,
      current: Mapping, mapping: Mapping, ghost k0: Snapshot)
    requires kernel.Valid() && Copying(k0, kernel.Now(), src, msSrc, dst, msDst, current.vaddr / 4096)
    requires WellPlaced(msSrc) && Low(msSrc) && current in msSrc
    requires mapping in msDst && mapping.vaddr == current.vaddr && mapping.size == current.size
    requires mapping.prot == current.prot
    requires |kernel.vm.pages.free| >= 3 * |Present(k0, src, current)|
    modifies kernel`contents, kernel.vm`tables, kernel.vm`tree, kernel.vm.pages`free, kernel.vm.pages`live,
        kernel.vm.pages.frameArray, kernel.vm.pages.ordersLists
    ensures kernel.Valid() && Copying(k0, kernel.Now(), src, msSrc, dst, msDst, (current.vaddr + current.size) / 4096)
    ensures OutsidePages(kernel.Now(), dst) == OutsidePages(old(kernel.Now()), dst)
    ensures OthersKept(old(kernel.Now()), kernel.Now(), dst)
    ensures kernel.vm.pages.free <= old(kernel.vm.pages.free)
    ensures |kernel.vm.pages.free| >= |old(kernel.vm.pages.free)| - 3 * |Present(k0, src, current)|
  {
    hide kernel.Valid, Copying, CopyNext, Installed, OthersKept, OutsidePages, LeafOf, DataAt, Exact, VisitsInside;
    hide WellPlaced, Low, LeafProt, InMapping, UserRoot, Present;
    ghost var kt := kernel.Now();
    SourceRange(k0, kt, src, msSrc, dst, msDst, current);
    var visits := kernel.Traverse(src, current.vaddr, current.vaddr + current.size);
    AllInside(kt, src, msSrc, current, visits);
    VisitsPresent(k0, kt, src, msSrc, dst, msDst, current.vaddr / 4096, current, visits);
    NothingChanged(kt, dst);
    for j := 0 to |visits|
      invariant kernel.Valid()
      invariant Copying(k0, kernel.Now(), src, msSrc, dst, msDst, Passed(visits, j, current.vaddr / 4096))
      invariant OutsidePages(kernel.Now(), dst) == OutsidePages(kt, dst) && OthersKept(kt, kernel.Now(), dst)
      invariant kernel.vm.pages.free <= old(kernel.vm.pages.free)
      invariant |kernel.vm.pages.free| >= |old(kernel.vm.pages.free)| - 3 * j
    {
      ghost var k1, limit := kernel.Now(), Passed(visits, j, current.vaddr / 4096);
      NextVisit(k0, kt, k1, src, msSrc, dst, msDst, current, visits, j);
      CopyReady(k0, k1, src, msSrc, dst, msDst, limit, visits[j], mapping);
      ghost var p, bytes := CopyOnePage(kernel, dst, msDst, visits[j], mapping.prot, src, msSrc);
      CopyingStep(k0, k1, kernel.Now(), src, msSrc, dst, msDst, limit, visits[j], p, bytes, mapping.prot);
      OthersKeptTwice(kt, k1, kernel.Now(), dst);
    }
    AllCopied(k0, kt, kernel.Now(), src, msSrc, dst, msDst, current, visits);
  }

  lemma SourceRange(k0: Snapshot, k: Snapshot, src: nat, msSrc: seq<Mapping>, dst: nat, msDst: seq<Mapping>, m: Mapping)
    requires Copying(k0, k, src, msSrc, dst, msDst, m.vaddr / 4096) && Low(msSrc) && m in msSrc
    ensures UserRoot(k.space.tree, src) && m.vaddr + m.size <= 4096 * USER_PAGES && AddressSpace(k, src, msSrc)
  {
    hide LeafOf, CopiedUpTo, SameSpace, UserRoot, LeafProt, PageFine, NotShared;
  }

  lemma CopyReady(k0: Snapshot, k: Snapshot, src: nat, msSrc: seq<Mapping>, dst: nat, msDst: seq<Mapping>, limit: nat,
      v: Visit, m: Mapping)
    requires Copying(k0, k, src, msSrc, dst, msDst, limit) && CopyNext(k0, k, src, dst, limit, v, m.prot)
    requires m in msDst && Contains(m, 4096 * v.page)
    ensures AddressSpace(k, dst, msDst) && AddressSpace(k, src, msSrc)
    ensures HasData(k, src, v.page) && Ppn(v.pte) == LeafOf(k, src, v.page).value.ppn
    ensures LeafOf(k, dst, v.page) == None && InMapping(msDst, v.page, m.prot) && LeafProt(m.prot)
  {
    hide AddressSpace, LeafOf, CopiedUpTo, SameSpace, LeafProt, HasData, Ppn;
  }

  lemma AllCopied(k0: Snapshot, kt: Snapshot, k: Snapshot, src: nat, msSrc: seq<Mapping>, dst: nat, msDst: seq<Mapping>,
      m: Mapping, visits: seq<Visit>)
    requires Copying(k0, kt, src, msSrc, dst, msDst, m.vaddr / 4096)
    requires Copying(k0, k, src, msSrc, dst, msDst, Passed(visits, |visits|, m.vaddr / 4096))
    requires WellPlaced(msSrc) && Low(msSrc) && m in msSrc
    requires Exact(kt.space.tables, kt.offset, src, 0, 0x800_0000, m.vaddr, m.vaddr + m.size, visits)
    requires VisitsInside(visits, m)
    ensures Copying(k0, k, src, msSrc, dst, msDst, (m.vaddr + m.size) / 4096)
  {
    hide AddressSpace, LeafOf, DataAt, EveryLeaf, LeafProt, WellPlaced, CopiedUpTo, NoData;
    NoneBetweenVisits(kt, src, msSrc, m, visits, |visits|);
    SameNoData(k0, kt, src, Passed(visits, |visits|, m.vaddr / 4096), (m.vaddr + m.size) / 4096);
    MappingPages(msSrc, m);
    CopiedRaise(k0, k, src, dst, Passed(visits, |visits|, m.vaddr / 4096), (m.vaddr + m.size) / 4096);
  }

  /** The copy of a mapping: same place, permissions and file. Its file size is taken from the aligned size. */
  predicate MappingCopy(m: Mapping, c: Mapping) {
    && c.vaddr == m.vaddr && c.size == m.size && c.prot == m.prot && c.backer == m.backer
    && (m.backer == File ==> c.fileData == m.fileData && c.fileSize == m.size)
  }

  ghost predicate MappingCopies(ms: seq<Mapping>, cs: seq<Mapping>) {
    |cs| <= |ms| && forall i :: 0 <= i < |cs| ==> MappingCopy(ms[i], cs[i])
  }

  lemma CopyFlags(backer: Backer)
    ensures var flags := if backer == File then MAP_FILE else MAP_ANONYMOUS;
      && !HasFlag(flags, MAP_POPULATE) && (HasFlag(flags, MAP_FILE) <==> backer == File)
      && !(HasFlag(flags, MAP_FILE) && HasFlag(flags, MAP_ANONYMOUS))
  {
  }

  /** The place of the next mapping of the source is free in the copy. */
  lemma PlaceOfCopy(ms: seq<Mapping>, cs: seq<Mapping>)
    requires WellPlaced(ms) && MappingCopies(ms, cs) && |cs| < |ms|
    ensures var m := ms[|cs|];
      && AlignToPte(m.vaddr) == m.vaddr && AlignToPte(m.size) == m.size && Wanted(m.vaddr) == m.vaddr && m.vaddr < WORD
      && 0 < m.size <= WORD - PTE_MEM_SIZE
      && Fits(cs, m.size, m.vaddr) && !NoPage(cs, RequestedFrom(m.vaddr), m.size)
    ensures WellPlaced(cs)
  {
    var m := ms[|cs|];
    assert Fits([], m.size, m.vaddr);
    forall i | 0 <= i < |cs| ensures cs[i].vaddr + cs[i].size <= m.vaddr && Fits([], cs[i].size, cs[i].vaddr) {
      assert MappingCopy(ms[i], cs[i]) && Fits([], ms[i].size, ms[i].vaddr);
    }
    assert m.vaddr % PTE_MEM_SIZE == 0 && RequestedFrom(m.vaddr) <= m.vaddr && Fits(cs, m.size, m.vaddr);
  }

  lemma LowestAtWanted(ms: seq<Mapping>, want: nat, size: nat, a: nat)
    requires Fits(ms, size, want) && LowestFit(ms, want, size, a)
    ensures a == want
  {
    hide Fits;
  }

  /** A mapping above all others is inserted at the end. */
  lemma InsertedLast(ms: seq<Mapping>, ms': seq<Mapping>, m: Mapping)
    requires InsertedMapping(ms, ms', m) && WellPlaced(ms') && forall i :: 0 <= i < |ms| ==>
      ms[i].vaddr + ms[i].size <= m.vaddr
    ensures ms' == ms + [m]
  {
    var at :| 0 <= at <= |ms| && ms' == ms[..at] + [m] + ms[at..];
    InsertedElements(ms, at, m);
  }

  lemma InsertedElements(ms: seq<Mapping>, at: nat, m: Mapping)
    requires at <= |ms|
    ensures (ms[..at] + [m] + ms[at..])[at] == m && (at < |ms| ==> (ms[..at] + [m] + ms[at..])[at + 1] == ms[at])
  {
  }

  /** The page where mapping `i` starts to be copied, and where the ones before it end. */
  function EndBefore(ms: seq<Mapping>, i: nat): nat
    requires i <= |ms|
  {
    if i == 0 then 0 else (ms[i - 1].vaddr + ms[i - 1].size) / 4096
  }

  /** Between two mappings there is no data page. */
  lemma NoDataBetween(k: Snapshot, src: nat, ms: seq<Mapping>, i: nat)
    requires AddressSpace(k, src, ms) && WellPlaced(ms) && i <= |ms|
    ensures NoData(k, src, EndBefore(ms, i), if i < |ms| then ms[i].vaddr / 4096 else USER_PAGES)
    ensures i < |ms| ==> EndBefore(ms, i) <= ms[i].vaddr / 4096
  {
    hide LeafOf, DataPage, UserRoot, NotShared, DataAt;
    var hi := if i < |ms| then ms[i].vaddr / 4096 else USER_PAGES;
    forall n: nat | EndBefore(ms, i) <= n < hi ensures !HasData(k, src, n) {
      assert n < USER_PAGES ==> PageFine(k, src, ms, n);
      if HasData(k, src, n) {
        var prot := LeafOf(k, src, n).value.prot;
        var j :| 0 <= j < |ms| && Contains(ms[j], 4096 * n) && ms[j].prot == prot;
        NotInEarlier(ms, i, j, n);
      }
    }
  }

  lemma NotInEarlier(ms: seq<Mapping>, i: nat, j: nat, n: nat)
    requires WellPlaced(ms) && i <= |ms| && j < |ms| && Contains(ms[j], 4096 * n) && EndBefore(ms, i) <= n
    ensures i <= j && i < |ms| && ms[i].vaddr / 4096 <= n
  {
    assert i > 0 ==> ms[i - 1].vaddr + ms[i - 1].size == 4096 * EndBefore(ms, i);
  }

  /** What the copy of the mappings from number `i` on takes from the page allocator at most: for each page that is
      present, the copy and two tables, and for each mapping a page of list nodes. */
  ghost function CopyCost(k: Snapshot, root: nat, ms: seq<Mapping>, i: nat): nat
    requires i <= |ms|
    decreases |ms| - i
  {
    if i == |ms| then 0 else 1 + 3 * |Present(k, root, ms[i])| + CopyCost(k, root, ms, i + 1)
  }

  lemma {:induction false} SameCost(k: Snapshot, k': Snapshot, root: nat, ms: seq<Mapping>, i: nat)
    requires SameSpace(k, k', root) && i <= |ms|
    ensures CopyCost(k', root, ms, i) == CopyCost(k, root, ms, i)
    decreases |ms| - i
  {
    hide SameSpace, Present;
    if i < |ms| {
      SamePresent(k, k', root, ms[i]);
      SameCost(k, k', root, ms, i + 1);
    }
  }

  /** The state between two mappings: those of the copy so far, and the pages of the source they cover. */
  ghost predicate MappingsCopied(k0: Snapshot, k: Snapshot, src: nat, msSrc: seq<Mapping>, dst: nat,
      msDst: seq<Mapping>) {
    && MappingCopies(msSrc, msDst)
    && Copying(k0, k, src, msSrc, dst, msDst, EndBefore(msSrc, |msDst|))
  }

  /** The list node of a new mapping was taken from the small allocator; nothing was copied yet. */
  lemma MappingAdded(k0: Snapshot, k: Snapshot, k1: Snapshot, src: nat, msSrc: seq<Mapping>, dst: nat, ms: seq<Mapping>,
      ms1: seq<Mapping>, m: Mapping)
    requires |ms| < |msSrc| && MappingsCopied(k0, k, src, msSrc, dst, ms) && WellPlaced(msSrc)
    requires NewChunk(k, k1, m.node) && Consistent(k) && ms1 == ms + [m] && InsertedMapping(ms, ms1, m)
    ensures Copying(k0, k1, src, msSrc, dst, ms1, msSrc[|ms|].vaddr / 4096)
  {
    hide AddressSpace, Consistent, LeafOf, DataAt, NewChunk, WellPlaced, NoData;
    ChunkKeeps(k, k1, m.node, dst);
    KeptSpace(k, k1, src, msSrc);
    KeptSpace(k, k1, dst, ms);
    MoreMappings(k1, dst, ms, ms1, m);
    NoDataBetween(k0, src, msSrc, |ms|);
    CopiedRaise(k0, k, src, dst, EndBefore(msSrc, |ms|), msSrc[|ms|].vaddr / 4096);
    CopyKept(k0, k, k1, src, dst, msSrc[|ms|].vaddr / 4096);
    GrowsTwice(k0, k, k1);
  }

  lemma CopyKept(k0: Snapshot, k: Snapshot, k1: Snapshot, src: nat, dst: nat, limit: nat)
    requires SpaceKept(k, k1) && CopiedUpTo(k0, k, src, dst, limit) && SameSpace(k0, k, src)
    ensures CopiedUpTo(k0, k1, src, dst, limit) && SameSpace(k0, k1, src)
  {
    hide Lookup, DataPage;
    KeptOwned(k, k1, src);
    KeptOwned(k, k1, dst);
    hide LeafOf, DataAt;
    forall n: nat | CopiedPage(k0, k, src, dst, n) ensures CopiedPage(k0, k1, src, dst, n) {
    }
  }

  /** The body of the loop of `task_copy_mappings`. */
  method CopyMapping(kernel: KernelMemory, dest: Task, source: Task, current: Mapping, ghost k0: Snapshot)
    returns (ghost added: Mapping)
    requires kernel.Valid() && dest != source && |dest.mappings| < |source.mappings|
    requires current == source.mappings[|dest.mappings|]
    requires WellPlaced(source.mappings) && Low(source.mappings)
    requires MappingsCopied(k0, kernel.Now(), source.pgd, source.mappings, dest.pgd, dest.mappings)
    requires |kernel.vm.pages.free| >= 1 + 3 * |Present(k0, source.pgd, current)|
    modifies dest`mappings, kernel`contents, kernel.vm`tables, kernel.vm`tree, kernel.heap, kernel.vm.pages`free,
        kernel.vm.pages`live, kernel.vm.pages.frameArray, kernel.vm.pages.ordersLists, kernel.heap.pools
    ensures kernel.Valid() && dest.mappings == old(dest.mappings) + [added]
    ensures MappingsCopied(k0, kernel.Now(), source.pgd, source.mappings, dest.pgd, dest.mappings)
    ensures added.node !in old(kernel.heap.chunks)
    ensures kernel.heap.chunks.Keys == old(kernel.heap.chunks).Keys + {added.node}
    ensures kernel.heap.large == old(kernel.heap.large)
    ensures OutsidePages(kernel.Now(), dest.pgd) == OutsidePages(old(kernel.Now()), dest.pgd)
    ensures OthersKept(old(kernel.Now()), kernel.Now(), dest.pgd)
    ensures kernel.vm.pages.free <= old(kernel.vm.pages.free)
    ensures |kernel.vm.pages.free| >= |old(kernel.vm.pages.free)| - 1 - 3 * |Present(k0, source.pgd, current)|
  {
    hide kernel.Valid, Copying, OthersKept, OutsidePages, WellPlaced, Low, LowestFit, Fits, InsertedMapping, NewChunk;
    hide Consistent, AddressSpace, Populated, MappingCopies, MappingsCopied, NewMapping, EndBefore, AlignToPte, HasFlag;
    hide Wanted;
    hide NoPage, RequestPlaced, RequestedFrom, Present;
    ghost var k, ms := kernel.Now(), dest.mappings;
    kernel.ValidConsistent();
    CopiedParts(k0, k, source.pgd, source.mappings, dest.pgd, ms);
    PlaceOfCopy(source.mappings, dest.mappings);
    CopyFlags(current.backer);
    var flags := if current.backer == File then MAP_FILE else MAP_ANONYMOUS;
    var mapping := AddMapping(kernel, dest, current.vaddr, current.size, current.prot, flags, current.fileData);
    LowestAtWanted(ms, current.vaddr, current.size, mapping.value.vaddr);
    if mapping == None || mapping.value.vaddr != current.vaddr {
      assert false;
    }
    ghost var k1 := kernel.Now();
    added := mapping.value;
    CopiesBelow(source.mappings, ms);
    InsertedLast(ms, dest.mappings, added);
    CopiesStep(source.mappings, ms, added, flags);
    MappingAdded(k0, k, k1, source.pgd, source.mappings, dest.pgd, ms, dest.mappings, mapping.value);
    ChunkKeeps(k, k1, mapping.value.node, dest.pgd);
    KeptOthers(k, k1, dest.pgd);
    CopyPages(kernel, source.pgd, source.mappings, dest.pgd, dest.mappings, current, mapping.value, k0);
    OthersKeptTwice(k, k1, kernel.Now(), dest.pgd);
    CopiedNext(k0, kernel.Now(), source.pgd, source.mappings, dest.pgd, ms, added);
  }

  lemma CopiedParts(k0: Snapshot, k: Snapshot, src: nat, msSrc: seq<Mapping>, dst: nat, msDst: seq<Mapping>)
    requires MappingsCopied(k0, k, src, msSrc, dst, msDst)
    ensures MappingCopies(msSrc, msDst)
  {
    hide Copying, MappingCopy;
  }

  lemma CopiedNext(k0: Snapshot, k: Snapshot, src: nat, msSrc: seq<Mapping>, dst: nat, ms: seq<Mapping>, c: Mapping)
    requires MappingCopies(msSrc, ms + [c]) && |ms| < |msSrc|
    requires Copying(k0, k, src, msSrc, dst, ms + [c], (msSrc[|ms|].vaddr + msSrc[|ms|].size) / 4096)
    ensures MappingsCopied(k0, k, src, msSrc, dst, ms + [c])
  {
    hide Copying, MappingCopy;
  }

  lemma CopiesStep(ms: seq<Mapping>, cs: seq<Mapping>, c: Mapping, flags: nat)
    requires MappingCopies(ms, cs) && |cs| < |ms| && c.vaddr == ms[|cs|].vaddr
    requires var m := ms[|cs|];
      NewMapping(m.vaddr, m.size, m.prot, flags, m.fileData, c) && AlignToPte(m.size) == m.size &&
        (HasFlag(flags, MAP_FILE) <==> m.backer == File)
    ensures MappingCopies(ms, cs + [c]) && c in cs + [c] && c.size == ms[|cs|].size && c.prot == ms[|cs|].prot
  {
    hide AlignToPte;
  }

  lemma CopiesBelow(ms: seq<Mapping>, cs: seq<Mapping>)
    requires WellPlaced(ms) && MappingCopies(ms, cs) && |cs| < |ms|
    ensures forall i :: 0 <= i < |cs| ==> cs[i].vaddr + cs[i].size <= ms[|cs|].vaddr
  {
    forall i | 0 <= i < |cs| ensures cs[i].vaddr + cs[i].size <= ms[|cs|].vaddr {
      assert MappingCopy(ms[i], cs[i]);
    }
  }

  function NodesOf(ms: seq<Mapping>): set<nat> {
    set m | m in ms :: m.node
  }

  ghost predicate DistinctNodes(ms: seq<Mapping>) {
    forall i, j :: 0 <= i < j < |ms| ==> ms[i].node != ms[j].node
  }

  /** The address space of `dst` is the copy of that of `src` at `k0`, with the trampoline. */
  ghost predicate Forked(k0: Snapshot, k: Snapshot, src: nat, dst: nat) {
    && (forall n: nat :: n < USER_PAGES && n != TRAMPOLINE_PAGE ==>
          if HasData(k0, src, n) then CopiedPage(k0, k, src, dst, n) else LeafOf(k, dst, n) == None)
    && LeafOf(k, dst, TRAMPOLINE_PAGE) == Some(Leaf(0, k0.trampoline, PTE_USER_CODE_PROT))
  }

  /** What copying the mappings did, besides the pages: new list nodes, and nothing outside the new address space. */
  ghost predicate CopyBalance(k0: Snapshot, k: Snapshot, dst: nat, cs: seq<Mapping>) {
    && DistinctNodes(cs) && NodesOf(cs) !! k0.heap.chunks.Keys
    && k.heap.chunks.Keys == k0.heap.chunks.Keys + NodesOf(cs)
    && k.heap.large == k0.heap.large && OutsidePages(k, dst) == OutsidePages(k0, dst) && OthersKept(k0, k, dst)
  }

  lemma CopyBalanceStep(k0: Snapshot, k: Snapshot, k': Snapshot, dst: nat, cs: seq<Mapping>, c: Mapping)
    requires CopyBalance(k0, k, dst, cs) && c.node !in k.heap.chunks
    requires k'.heap.chunks.Keys == k.heap.chunks.Keys + {c.node}
    requires k'.heap.large == k.heap.large && OutsidePages(k', dst) == OutsidePages(k, dst) && OthersKept(k, k', dst)
    ensures CopyBalance(k0, k', dst, cs + [c])
  {
    hide OutsidePages, OthersKept;
    OthersKeptTwice(k0, k, k', dst);
    assert NodesOf(cs + [c]) == NodesOf(cs) + {c.node};
  }

  lemma CopyBalanceStart(k: Snapshot, dst: nat)
    ensures CopyBalance(k, k, dst, [])
  {
    hide OutsidePages, OthersKept;
    NothingChanged(k, dst);
    assert NodesOf([]) == {};
  }

  /** Nothing is copied into an empty address space yet. */
  lemma CopyStart(k: Snapshot, src: nat, msSrc: seq<Mapping>, dst: nat)
    requires AddressSpace(k, src, msSrc) && src != dst && UserRoot(k.space.tree, dst) && forall n: nat ::
      n < USER_PAGES ==> LeafOf(k, dst, n) == None
    ensures MappingsCopied(k, k, src, msSrc, dst, [])
  {
    hide LeafOf, UserRoot, DataPage;
    assert AddressSpace(k, dst, []);
  }

  /** The end of `task_copy_mappings`. */
  lemma CopyDone(k0: Snapshot, k: Snapshot, k': Snapshot, src: nat, msSrc: seq<Mapping>, dst: nat, cs: seq<Mapping>)
    requires MappingsCopied(k0, k, src, msSrc, dst, cs) && |cs| == |msSrc| && WellPlaced(msSrc)
    requires k0.trampoline == k.trampoline
    requires MappedPage(k, k', dst, TRAMPOLINE_PAGE, Leaf(0, k.trampoline, PTE_USER_CODE_PROT)) && Consistent(k)
    requires Consistent(k')
    requires CopyBalance(k0, k, dst, cs)
    ensures Forked(k0, k', src, dst) && AddressSpace(k', dst, cs) && CopyBalance(k0, k', dst, cs) && Grows(k0, k')
  {
    hide AddressSpace, LeafOf, DataAt, Consistent, MappedPage, SameSpace, WellPlaced, OutsidePages, OthersKept, NoData;
    hide MappingCopies, CopiedPage;
    MappedTrampoline(k, k', dst, cs);
    GrowsTwice(k0, k, k');
    OthersKeptTwice(k0, k, k', dst);
    NoDataBetween(k0, src, msSrc, |msSrc|);
    if EndBefore(msSrc, |msSrc|) <= USER_PAGES {
      CopiedRaise(k0, k, src, dst, EndBefore(msSrc, |msSrc|), USER_PAGES);
    }
    HeapSame(k, k', dst);
    forall n: nat | n < USER_PAGES && n != TRAMPOLINE_PAGE && CopiedPage(k0, k, src, dst, n)
      ensures CopiedPage(k0, k', src, dst, n)
    {
      StillCopied(k0, k, k', src, dst, n);
    }
  }

  lemma HeapSame(k: Snapshot, k': Snapshot, dst: nat)
    requires MappedPage(k, k', dst, TRAMPOLINE_PAGE, Leaf(0, k.trampoline, PTE_USER_CODE_PROT))
    ensures k'.heap == k.heap && k'.contents == k.contents && k'.trampoline == k.trampoline
  {
    hide AllMapped, Extends, TookTables;
  }

  lemma StillCopied(k0: Snapshot, k: Snapshot, k': Snapshot, src: nat, dst: nat, n: nat)
    requires CopiedPage(k0, k, src, dst, n) && LeafOf(k', dst, n) == LeafOf(k, dst, n)
    requires DataAt(k', dst, n) == DataAt(k, dst, n)
    requires k'.contents == k.contents
    ensures CopiedPage(k0, k', src, dst, n)
  {
    hide LeafOf, DataAt;
  }

  /** `task_copy_mappings`, into an address space without pages. */
  method CopyMappings(kernel: KernelMemory, dest: Task, source: Task)
    requires kernel.Valid() && dest != source && dest.mappings == [] && dest.pgd != source.pgd
    requires WellPlaced(source.mappings) && Low(source.mappings)
    requires AddressSpace(kernel.Now(), source.pgd, source.mappings)
    requires UserRoot(kernel.vm.tree, dest.pgd) && forall n: nat :: n < USER_PAGES ==>
      LeafOf(kernel.Now(), dest.pgd, n) == None
    requires |kernel.vm.pages.free| >= CopyCost(kernel.Now(), source.pgd, source.mappings, 0) + 2
    modifies dest`mappings, kernel`contents, kernel.vm`tables, kernel.vm`tree, kernel.heap, kernel.vm.pages`free,
        kernel.vm.pages`live, kernel.vm.pages.frameArray, kernel.vm.pages.ordersLists, kernel.heap.pools
    ensures kernel.Valid() && |dest.mappings| == |source.mappings| && MappingCopies(source.mappings, dest.mappings)
    ensures AddressSpace(kernel.Now(), dest.pgd, dest.mappings)
    ensures Forked(old(kernel.Now()), kernel.Now(), source.pgd, dest.pgd)
    ensures CopyBalance(old(kernel.Now()), kernel.Now(), dest.pgd, dest.mappings)
    ensures Grows(old(kernel.Now()), kernel.Now())
    ensures kernel.vm.pages.free <= old(kernel.vm.pages.free)
    ensures |kernel.vm.pages.free| >= |old(kernel.vm.pages.free)| - CopyCost(old(kernel.Now()), source.pgd,
        source.mappings, 0) - 2
  {
    hide kernel.Valid, Copying, OthersKept, OutsidePages, WellPlaced, Low, Consistent, AddressSpace, MappingCopies;
    hide MappingsCopied, CopyBalance, Forked, MappedPage, LeafOf, Grows, Present;
    ghost var k0 := kernel.Now();
    CopyStart(k0, source.pgd, source.mappings, dest.pgd);
    CopyBalanceStart(k0, dest.pgd);
    var i := 0;
    while i < |source.mappings|
      invariant i == |dest.mappings| <= |source.mappings| && source.mappings == old(source.mappings)
      invariant kernel.Valid() && MappingsCopied(k0, kernel.Now(), source.pgd, source.mappings, dest.pgd, dest.mappings)
      invariant CopyBalance(k0, kernel.Now(), dest.pgd, dest.mappings)
      invariant kernel.vm.pages.free <= old(kernel.vm.pages.free)
      invariant |kernel.vm.pages.free| >= |old(kernel.vm.pages.free)|
        - (CopyCost(k0, source.pgd, source.mappings, 0) - CopyCost(k0, source.pgd, source.mappings, i))
    {
      ghost var k, cs := kernel.Now(), dest.mappings;
      ghost var added := CopyMapping(kernel, dest, source, source.mappings[i], k0);
      CopyBalanceStep(k0, k, kernel.Now(), dest.pgd, cs, added);
      i := i + 1;
    }
    ghost var k := kernel.Now();
    kernel.ValidConsistent();
    CopiedParts(k0, k, source.pgd, source.mappings, dest.pgd, dest.mappings);
    CopyRoot(k0, k, source.pgd, source.mappings, dest.pgd, dest.mappings);
    kernel.TrampolineBound();
    kernel.MapPage(dest.pgd, SIGNAL_TRAMPOLINE_VADDR, 4096 * kernel.trampoline, PTE_USER_CODE_PROT);
    kernel.ValidConsistent();
    CopyDone(k0, k, kernel.Now(), source.pgd, source.mappings, dest.pgd, dest.mappings);
    FreeShrinks(k, kernel.Now(), dest.pgd);
  }

  lemma CopyRoot(k0: Snapshot, k: Snapshot, src: nat, msSrc: seq<Mapping>, dst: nat, cs: seq<Mapping>)
    requires MappingsCopied(k0, k, src, msSrc, dst, cs)
    ensures UserRoot(k.space.tree, dst) && LeafProt(PTE_USER_CODE_PROT)
  {
    hide LeafOf, SameSpace, CopiedUpTo, UserRoot, PageFine, NotShared, MappingCopies;
  }

  lemma FreeShrinks(k: Snapshot, k': Snapshot, dst: nat)
    requires MappedPage(k, k', dst, TRAMPOLINE_PAGE, Leaf(0, k.trampoline, PTE_USER_CODE_PROT))
    ensures k'.pages.free <= k.pages.free
  {
    hide AllMapped, Extends;
  }
}
