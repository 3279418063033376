/** Page installs, mappings, fork and exit: `task_mapping.c` and `task.c` over the whole memory of the kernel. */
module Tasks {
  import opened Bits
  import opened Sv39
  import opened PageTree
  import opened Roots
  import opened TaskMappings
  import opened AddressSpaces
  import opened Ownership
  import opened KernelMemory

  const MAPPING_SIZE: nat := 56
  const TASK_SIZE: nat := 240
  const SIGNAL_SIZE: nat := 40
  const ROOT_SIZE: nat := 4096
  const KERNEL_STACK_SIZE: nat := 16384

  const MAP_FILE: nat := 1
  const MAP_ANONYMOUS: nat := 0x20
  const MAP_POPULATE: nat := 0x8000

  /** The bytes of a new page of a mapping, `offset` bytes from its start: the file's where it has any, zero
      elsewhere. */
  ghost predicate PageOfMapping(ramdisk: nat -> nat, m: Mapping, offset: nat, bytes: seq<nat>) {
    && |bytes| == PTE_MEM_SIZE
    && forall i :: 0 <= i < PTE_MEM_SIZE ==>
         bytes[i] == if m.backer == File && offset + i < m.fileSize then ramdisk(m.fileData + offset + i) else 0
  }

  /** `memzero` of the new page and `memcopy` of the part of the file that lies in it. */
  method FillPage(kernel: KernelMemory, m: Mapping, vaddr: nat) returns (bytes: seq<nat>)
    requires Contains(m, vaddr)
    ensures PageOfMapping(kernel.ramdisk, m, vaddr - m.vaddr, bytes)
  {
    bytes := Zeros(PTE_MEM_SIZE);
    if m.backer == File {
      var offset := vaddr - m.vaddr;
      if offset < m.fileSize {
        var n := if offset + PTE_MEM_SIZE >= m.fileSize then m.fileSize - offset else PTE_MEM_SIZE;
        var src := m.fileData + offset;
        for i := 0 to n
          invariant |bytes| == PTE_MEM_SIZE
          invariant forall j :: 0 <= j < PTE_MEM_SIZE ==> bytes[j] == if j < i then kernel.ramdisk(src + j) else 0
        {
          bytes := bytes[i := kernel.ramdisk(src + i)];
        }
      }
    }
  }

  /** A page inside a well-placed mapping is not the trampoline page and belongs to the lower half if the mapping
      does. */
  lemma PageOfMappingPlace(ms: seq<Mapping>, m: Mapping, vaddr: nat)
    requires WellPlaced(ms) && Low(ms) && m in ms && Contains(m, vaddr) && vaddr % PTE_MEM_SIZE == 0
    ensures vaddr / 4096 != TRAMPOLINE_PAGE && vaddr / 4096 < USER_PAGES && vaddr < 4096 * USER_PAGES
    ensures InMapping(ms, vaddr / 4096, m.prot) && LeafProt(m.prot)
  {
    hide LeafProt;
    var i :| 0 <= i < |ms| && ms[i] == m;
    assert Fits([], m.size, m.vaddr);
    assert 4096 * (vaddr / 4096) == vaddr;
    assert Contains(ms[i], 4096 * (vaddr / 4096));
  }

  /** `task_install_page` of an absent page. */
  method InstallPage(kernel: KernelMemory, task: Task, m: Mapping, vaddr: nat)
    returns (ghost p: nat, ghost bytes: seq<nat>)
    requires kernel.Valid() && AddressSpace(kernel.Now(), task.pgd, task.mappings)
    requires WellPlaced(task.mappings) && Low(task.mappings) && m in task.mappings && Contains(m, vaddr)
    requires vaddr % PTE_MEM_SIZE == 0
    requires LeafOf(kernel.Now(), task.pgd, vaddr / 4096) == None
    requires |kernel.vm.pages.free| >= 3
    modifies kernel`contents, kernel.vm`tables, kernel.vm`tree, kernel.vm.pages`free, kernel.vm.pages`live,
        kernel.vm.pages.frameArray, kernel.vm.pages.ordersLists
    ensures kernel.Valid() && AddressSpace(kernel.Now(), task.pgd, task.mappings)
    ensures PageOfMapping(kernel.ramdisk, m, vaddr - m.vaddr, bytes)
    ensures Installed(old(kernel.Now()), kernel.Now(), task.pgd, vaddr / 4096, p, bytes, m.prot)
    ensures OutsidePages(kernel.Now(), task.pgd) == OutsidePages(old(kernel.Now()), task.pgd)
    ensures OthersKept(old(kernel.Now()), kernel.Now(), task.pgd)
    ensures kernel.vm.pages.free <= old(kernel.vm.pages.free)
    ensures |kernel.vm.pages.free| >= |old(kernel.vm.pages.free)| - 3
  {
    hide kernel.Valid, AddressSpace, Installed, OthersKept, OutsidePages, WellPlaced, Low, LeafOf, PageOfMapping;
    hide LeafProt;
    var content := FillPage(kernel, m, vaddr);
    bytes := content;
    PageOfMappingPlace(task.mappings, m, vaddr);
    p := MapNewPage(kernel, task.pgd, task.mappings, vaddr, content, m.prot);
  }

  /** Allocates and fills a page and maps it, as `task_install_page` and `_copy_one_page` do. */
  method MapNewPage(kernel: KernelMemory, pgd: nat, ghost ms: seq<Mapping>, vaddr: nat, bytes: seq<nat>, prot: nat)
    returns (ghost p: nat)
    requires kernel.Valid() && AddressSpace(kernel.Now(), pgd, ms)
    requires vaddr % PTE_MEM_SIZE == 0 && vaddr < 4096 * USER_PAGES && vaddr / 4096 != TRAMPOLINE_PAGE
    requires LeafOf(kernel.Now(), pgd, vaddr / 4096) == None && InMapping(ms, vaddr / 4096, prot) && LeafProt(prot)
    requires |kernel.vm.pages.free| >= 3
    modifies kernel`contents, kernel.vm`tables, kernel.vm`tree, kernel.vm.pages`free, kernel.vm.pages`live,
        kernel.vm.pages.frameArray, kernel.vm.pages.ordersLists
    ensures kernel.Valid() && AddressSpace(kernel.Now(), pgd, ms)
    ensures Installed(old(kernel.Now()), kernel.Now(), pgd, vaddr / 4096, p, bytes, prot)
    ensures OutsidePages(kernel.Now(), pgd) == OutsidePages(old(kernel.Now()), pgd)
    ensures OthersKept(old(kernel.Now()), kernel.Now(), pgd)
    ensures kernel.vm.pages.free <= old(kernel.vm.pages.free)
    ensures |kernel.vm.pages.free| >= |old(kernel.vm.pages.free)| - 3
  {
    hide kernel.Valid;
    hide Consistent, AddressSpace, Installed, OthersKept, DataPages, TablePages, UserRoot, Lookup, LeafProt;
    ghost var k := kernel.Now();
    kernel.ValidConsistent();
    SmallLeaves(k, pgd, ms);
    var addr := kernel.AllocatePage(bytes);
    ghost var k1 := kernel.Now();
    p := PageAt(k, addr);
    NewPagePhysical(kernel, k, k1, addr, bytes);
    var paddr := Va2Pa(kernel.vm.offset, addr);
    kernel.MapPage(pgd, vaddr, paddr, prot);
    ghost var k2 := kernel.Now();
    kernel.ValidConsistent();
    InstalledBy(k, k1, k2, pgd, vaddr / 4096, addr, bytes, Leaf(0, paddr / 4096, prot));
    InstalledOutside(k, k1, k2, pgd, vaddr / 4096, addr, bytes, Leaf(0, paddr / 4096, prot));
    InstalledSpace(k, k2, pgd, vaddr / 4096, p, bytes, prot, ms);
    InstalledOthers(k, k2, pgd, vaddr / 4096, p, bytes, prot);
  }

  lemma NewPagePhysical(kernel: KernelMemory, k: Snapshot, k1: Snapshot, addr: nat, bytes: seq<nat>)
    requires kernel.Valid() && k1 == kernel.Now() && GotPage(k, k1, addr, bytes)
    ensures Va2Pa(kernel.vm.offset, addr) % 4096 == 0 && Va2Pa(kernel.vm.offset, addr) + 4096 <= 0x100_0000_0000_0000
    ensures Va2Pa(kernel.vm.offset, addr) / 4096 == PpnOf(k, PageAt(k, addr))
  {
    hide kernel.Valid;
    kernel.PhysicalPage(addr);
  }

  /** `task_add_mapping` without its last part: null exactly when the flags contradict each other or nothing fits;
      otherwise the lowest place for the aligned size. The list stays in order exactly when that size is not zero. */
  method PlaceMapping(kernel: KernelMemory, task: Task, vaddr: nat, size: nat, prot: nat, flags: nat, fileData: nat)
    returns (result: Option<Mapping>)
    requires kernel.Valid() && kernel.vm.pages.free != {}
    requires WellPlaced(task.mappings) && vaddr < WORD && size < WORD
    modifies task`mappings, kernel.heap, kernel.vm.pages`free, kernel.vm.pages`live, kernel.vm.pages.frameArray,
        kernel.vm.pages.ordersLists, kernel.heap.pools
    ensures kernel.Valid()
    ensures result == None <==>
      || (HasFlag(flags, MAP_FILE) && HasFlag(flags, MAP_ANONYMOUS))
      || NoPage(old(task.mappings), RequestedFrom(vaddr), AlignToPte(size))
    ensures result == None ==> task.mappings == old(task.mappings) && kernel.Now() == old(kernel.Now())
    ensures result.Some? ==>
      && NewChunk(old(kernel.Now()), kernel.Now(), result.value.node)
      && NewMapping(vaddr, size, prot, flags, fileData, result.value)
      && RequestPlaced(old(task.mappings), vaddr, AlignToPte(size), result.value.vaddr)
      && LowestFit(old(task.mappings), Wanted(AlignToPte(vaddr)), AlignToPte(size), result.value.vaddr)
      && InsertedMapping(old(task.mappings), task.mappings, result.value)
      && (WellPlaced(task.mappings) <==> 0 < size <= WORD - PTE_MEM_SIZE)
  {
    hide kernel.Valid, NewChunk, WellPlaced, LowestFit, Fits, RequestPlaced, NoPage, RequestedFrom;
    if HasFlag(flags, MAP_FILE) && HasFlag(flags, MAP_ANONYMOUS) {
      return None;
    }
    var alignedVaddr := AlignToPte(vaddr);
    var alignedSize := AlignToPte(size);
    AlignedSize(size);
    AlignedSize(vaddr);
    var mappingVaddr := task.GetMappingVaddr(alignedVaddr, alignedSize);
    RequestedNowhere(task.mappings, vaddr, alignedSize);
    if mappingVaddr == NO_VADDR {
      return None;
    }
    RequestedPlace(task.mappings, vaddr, alignedSize, mappingVaddr);
    var node := kernel.AllocateChunk(MAPPING_SIZE);
    var mapping := if HasFlag(flags, MAP_FILE) then Mapping(node, mappingVaddr, alignedSize, prot, File, fileData, size)
      else Mapping(node, mappingVaddr, alignedSize, prot, Anon, 0, 0);
    ghost var at := task.InsertMapping(mapping);
    InsertedInOrder(old(task.mappings), at, mapping, Wanted(alignedVaddr));
    return Some(mapping);
  }

  /** What the new mapping records. */
  predicate NewMapping(vaddr: nat, size: nat, prot: nat, flags: nat, fileData: nat, m: Mapping) {
    && m.size == AlignToPte(size) && m.prot == prot && m.vaddr % PTE_MEM_SIZE == 0
    && m.backer == (if flags % 2 == 1 then File else Anon)
    && (m.backer == File ==> m.fileData == fileData && m.fileSize == size)
  }

  ghost predicate InsertedMapping(ms: seq<Mapping>, ms': seq<Mapping>, m: Mapping) {
    exists at :: 0 <= at <= |ms| && ms' == ms[..at] + [m] + ms[at..]
  }

  lemma InsertedInOrder(ms: seq<Mapping>, at: nat, m: Mapping, want: nat)
    requires WellPlaced(ms) && at <= |ms| && 0 < want && LowestFit(ms, want, m.size, m.vaddr)
    requires forall i :: 0 <= i < at ==> ms[i].vaddr <= m.vaddr
    requires at < |ms| ==> m.vaddr < ms[at].vaddr
    requires m.vaddr % PTE_MEM_SIZE == 0 && m.size % PTE_MEM_SIZE == 0
    ensures InsertedMapping(ms, ms[..at] + [m] + ms[at..], m)
    ensures WellPlaced(ms[..at] + [m] + ms[at..]) <==> m.size > 0
  {
    var ms' := ms[..at] + [m] + ms[at..];
    if m.size > 0 {
      InsertWellPlaced(ms, at, m);
    } else {
      assert ms'[at] == m;
    }
  }

  /** The first `done` pages of mapping `m` are installed, with the right bytes; other pages are as before. */
  ghost predicate Populated(k: Snapshot, k': Snapshot, pgd: nat, m: Mapping, ramdisk: nat -> nat, done: nat) {
    forall n: nat :: n < USER_PAGES ==>
      if m.vaddr <= 4096 * n < m.vaddr + 4096 * done then
        && HasData(k', pgd, n) && LeafOf(k', pgd, n).value.prot == m.prot
        && DataAt(k', pgd, n) in k'.contents
        && PageOfMapping(ramdisk, m, 4096 * n - m.vaddr, k'.contents[DataAt(k', pgd, n)])
      else LeafOf(k', pgd, n) == LeafOf(k, pgd, n)
  }

  /** More mappings do not disturb the pages that are present. */
  lemma MoreMappings(k: Snapshot, pgd: nat, ms: seq<Mapping>, ms': seq<Mapping>, m: Mapping)
    requires AddressSpace(k, pgd, ms) && InsertedMapping(ms, ms', m)
    ensures AddressSpace(k, pgd, ms') && m in ms'
  {
    hide LeafOf, DataAt, DataPage, UserRoot;
    var at :| 0 <= at <= |ms| && ms' == ms[..at] + [m] + ms[at..];
    assert ms'[at] == m;
    forall n: nat | n < USER_PAGES ensures PageFine(k, pgd, ms', n) {
      assert PageFine(k, pgd, ms, n);
      if LeafOf(k, pgd, n).Some? && n != TRAMPOLINE_PAGE {
        var prot := LeafOf(k, pgd, n).value.prot;
        var i :| 0 <= i < |ms| && Contains(ms[i], 4096 * n) && ms[i].prot == prot;
        assert ms'[if i < at then i else i + 1] == ms[i];
        assert InMapping(ms', n, prot);
      }
    }
  }

  lemma InsertedLow(ms: seq<Mapping>, ms': seq<Mapping>, m: Mapping)
    requires Low(ms) && InsertedMapping(ms, ms', m) && m.vaddr + m.size <= 4096 * USER_PAGES && UserProt(m.prot)
    ensures Low(ms')
  {
    hide UserProt;
  }

  /** No page of a place that fits is present. */
  lemma NothingPresent(k: Snapshot, pgd: nat, ms: seq<Mapping>, m: Mapping)
    requires AddressSpace(k, pgd, ms) && Fits(ms, m.size, m.vaddr)
    ensures forall n: nat :: n < USER_PAGES && m.vaddr <= 4096 * n < m.vaddr + m.size ==> LeafOf(k, pgd, n) == None
  {
    hide LeafOf, DataAt, DataPage, UserRoot;
    forall n: nat | n < USER_PAGES && m.vaddr <= 4096 * n < m.vaddr + m.size ensures LeafOf(k, pgd, n) == None {
      assert PageFine(k, pgd, ms, n);
      assert 4096 * n < m.vaddr + m.size;
    }
  }

  /** One more page of the mapping. */
  lemma PopulatedStep(k: Snapshot, k1: Snapshot, k2: Snapshot, pgd: nat, m: Mapping, ramdisk: nat -> nat, done: nat,
      p: nat, bytes: seq<nat>, ms: seq<Mapping>)
    requires Populated(k, k1, pgd, m, ramdisk, done) && AddressSpace(k1, pgd, ms) && m.vaddr % PTE_MEM_SIZE == 0
    requires Installed(k1, k2, pgd, m.vaddr / 4096 + done, p, bytes, m.prot)
    requires PageOfMapping(ramdisk, m, 4096 * done, bytes)
    requires m.vaddr / 4096 + done < USER_PAGES && m.vaddr / 4096 + done != TRAMPOLINE_PAGE
    ensures Populated(k, k2, pgd, m, ramdisk, done + 1)
  {
    hide LeafOf, DataPage, UserRoot, PpnOf, AddressSpace, PageOfMapping;
    SmallLeaves(k1, pgd, ms);
    DataPagesLive(k1, pgd, ms);
    SamePpn(k1, k2);
    forall n: nat | n < USER_PAGES && n != m.vaddr / 4096 + done
      ensures LeafOf(k2, pgd, n) == LeafOf(k1, pgd, n) && DataAt(k2, pgd, n) == DataAt(k1, pgd, n)
      ensures HasData(k1, pgd, n) && DataAt(k1, pgd, n) in k1.contents ==>
        DataAt(k2, pgd, n) in k2.contents && k2.contents[DataAt(k2, pgd, n)] == k1.contents[DataAt(k1, pgd, n)]
    {
    }
    hide DataAt, Installed;
    assert m.vaddr == 4096 * (m.vaddr / 4096);
  }

  /** The loop of `task_add_mapping` for MAP_POPULATE. */
  method Populate(kernel: KernelMemory, task: Task, m: Mapping)
    requires kernel.Valid() && AddressSpace(kernel.Now(), task.pgd, task.mappings)
    requires WellPlaced(task.mappings) && Low(task.mappings) && m in task.mappings
    requires forall n: nat :: n < USER_PAGES && m.vaddr <= 4096 * n < m.vaddr + m.size ==>
      LeafOf(kernel.Now(), task.pgd, n) == None
    requires |kernel.vm.pages.free| >= 3 * (m.size / 4096)
    modifies kernel`contents, kernel.vm`tables, kernel.vm`tree, kernel.vm.pages`free, kernel.vm.pages`live,
        kernel.vm.pages.frameArray, kernel.vm.pages.ordersLists
    ensures kernel.Valid() && AddressSpace(kernel.Now(), task.pgd, task.mappings)
    ensures Populated(old(kernel.Now()), kernel.Now(), task.pgd, m, kernel.ramdisk, m.size / 4096)
    ensures OutsidePages(kernel.Now(), task.pgd) == OutsidePages(old(kernel.Now()), task.pgd)
    ensures OthersKept(old(kernel.Now()), kernel.Now(), task.pgd) && Grows(old(kernel.Now()), kernel.Now())
    ensures kernel.heap.chunks == old(kernel.heap.chunks) && kernel.heap.large == old(kernel.heap.large)
  {
    hide kernel.Valid, AddressSpace, Installed, OthersKept, OutsidePages, Low, LeafOf, PageOfMapping, LeafProt;
    hide Populated, Grows;
    ghost var k, done := kernel.Now(), 0;
    var offset := 0;
    MappingPages(task.mappings, m);
    assert Populated(k, k, task.pgd, m, kernel.ramdisk, 0) by { NothingPopulated(k, task.pgd, m, kernel.ramdisk); }
    NothingChanged(k, task.pgd);
    GrowsNot(k);
    while offset < m.size
      invariant offset == 4096 * done <= m.size
      invariant kernel.Valid() && AddressSpace(kernel.Now(), task.pgd, task.mappings)
      invariant Populated(k, kernel.Now(), task.pgd, m, kernel.ramdisk, done)
      invariant OutsidePages(kernel.Now(), task.pgd) == OutsidePages(k, task.pgd)
      invariant OthersKept(k, kernel.Now(), task.pgd) && Grows(k, kernel.Now())
      invariant kernel.heap.chunks == old(kernel.heap.chunks) && kernel.heap.large == old(kernel.heap.large)
      invariant |kernel.vm.pages.free| >= 3 * (m.size / 4096 - done)
      decreases m.size - offset
    {
      ghost var k1 := kernel.Now();
      NextAbsent(k, k1, task.pgd, m, kernel.ramdisk, done, task.mappings);
      ghost var p, bytes := InstallPage(kernel, task, m, m.vaddr + offset);
      PopulatedStep(k, k1, kernel.Now(), task.pgd, m, kernel.ramdisk, done, p, bytes, task.mappings);
      OthersKeptTwice(k, k1, kernel.Now(), task.pgd);
      InstalledGrows(k1, kernel.Now(), task.pgd, m.vaddr / 4096 + done, p, bytes, m.prot);
      GrowsTwice(k, k1, kernel.Now());
      offset := offset + PTE_MEM_SIZE;
      done := done + 1;
    }
  }

  lemma GrowsNot(k: Snapshot)
    ensures Grows(k, k)
  {
  }

  lemma InstalledGrows(k: Snapshot, k': Snapshot, root: nat, n: nat, p: nat, bytes: seq<nat>, prot: nat)
    requires Installed(k, k', root, n, p, bytes, prot)
    ensures Grows(k, k')
  {
    hide LeafOf, DataPage, OthersSame, UserRoot, Grows;
  }

  lemma MappingPages(ms: seq<Mapping>, m: Mapping)
    requires WellPlaced(ms) && m in ms
    ensures m.vaddr % PTE_MEM_SIZE == 0 && m.size % PTE_MEM_SIZE == 0 && m.size == 4096 * (m.size / 4096)
  {
  }

  lemma NothingPopulated(k: Snapshot, pgd: nat, m: Mapping, ramdisk: nat -> nat)
    ensures Populated(k, k, pgd, m, ramdisk, 0)
  {
  }

  lemma NothingChanged(k: Snapshot, pgd: nat)
    ensures OthersKept(k, k, pgd) && Grows(k, k)
  {
    hide AddressSpace, LeafOf, DataAt;
  }

  /** The next page of the mapping is still absent. */
  lemma NextAbsent(k: Snapshot, k1: Snapshot, pgd: nat, m: Mapping, ramdisk: nat -> nat, done: nat, ms: seq<Mapping>)
    requires Populated(k, k1, pgd, m, ramdisk, done) && 4096 * done < m.size && m.size % PTE_MEM_SIZE == 0
    requires m.vaddr % PTE_MEM_SIZE == 0
    requires WellPlaced(ms) && Low(ms) && m in ms
    requires forall n: nat :: n < USER_PAGES && m.vaddr <= 4096 * n < m.vaddr + m.size ==> LeafOf(k, pgd, n) == None
    ensures (m.vaddr + 4096 * done) / 4096 == m.vaddr / 4096 + done && LeafOf(k1, pgd, m.vaddr / 4096 + done) == None
    ensures m.vaddr / 4096 + done < USER_PAGES && m.vaddr / 4096 + done != TRAMPOLINE_PAGE
    ensures (m.vaddr + 4096 * done) % PTE_MEM_SIZE == 0
    ensures done < m.size / 4096
  {
    hide LeafOf, PageOfMapping, DataAt, LeafProt;
    var n := m.vaddr / 4096 + done;
    assert 4096 * n == m.vaddr + 4096 * done;
    PageOfMappingPlace(ms, m, 4096 * n);
    hide WellPlaced;
  }

  /** Where a mapping of `size` bytes is placed, it ends below the kernel's half. */
  ghost predicate PlacedLow(ms: seq<Mapping>, want: nat, size: nat) {
    forall a: nat :: LowestFit(ms, want, size, a) ==> a + size <= 4096 * USER_PAGES
  }

  /** A nonempty mapping in the lower half, with the permissions of a user's page, and enough free pages for it. */
  ghost predicate CanPopulate(k: Snapshot, pgd: nat, ms: seq<Mapping>, vaddr: nat, size: nat, prot: nat) {
    && AddressSpace(k, pgd, ms) && Low(ms) && UserProt(prot) && 0 < size <= WORD - PTE_MEM_SIZE
    && PlacedLow(ms, Wanted(AlignToPte(vaddr)), AlignToPte(size))
    && |k.pages.free| >= 1 + 3 * (AlignToPte(size) / 4096)
  }

  /** `task_add_mapping`. */
  method AddMapping(kernel: KernelMemory, task: Task, vaddr: nat, size: nat, prot: nat, flags: nat, fileData: nat)
    returns (result: Option<Mapping>)
    requires kernel.Valid() && kernel.vm.pages.free != {}
    requires WellPlaced(task.mappings) && vaddr < WORD && size < WORD
    requires HasFlag(flags, MAP_POPULATE) ==> CanPopulate(kernel.Now(), task.pgd, task.mappings, vaddr, size, prot)
    modifies task`mappings, kernel`contents, kernel.vm`tables, kernel.vm`tree, kernel.heap, kernel.vm.pages`free,
        kernel.vm.pages`live, kernel.vm.pages.frameArray, kernel.vm.pages.ordersLists, kernel.heap.pools
    ensures kernel.Valid()
    ensures result == None <==>
      || (HasFlag(flags, MAP_FILE) && HasFlag(flags, MAP_ANONYMOUS))
      || NoPage(old(task.mappings), RequestedFrom(vaddr), AlignToPte(size))
    ensures result == None ==> task.mappings == old(task.mappings) && kernel.Now() == old(kernel.Now())
    ensures result.Some? ==>
      && NewMapping(vaddr, size, prot, flags, fileData, result.value)
      && RequestPlaced(old(task.mappings), vaddr, AlignToPte(size), result.value.vaddr)
      && LowestFit(old(task.mappings), Wanted(AlignToPte(vaddr)), AlignToPte(size), result.value.vaddr)
      && InsertedMapping(old(task.mappings), task.mappings, result.value)
      && (WellPlaced(task.mappings) <==> 0 < size <= WORD - PTE_MEM_SIZE)
      && result.value.node !in old(kernel.heap.chunks)
      && kernel.heap.chunks.Keys == old(kernel.heap.chunks).Keys + {result.value.node}
      && kernel.heap.large == old(kernel.heap.large)
      && OutsidePages(kernel.Now(), task.pgd) == OutsidePages(old(kernel.Now()), task.pgd)
      && OthersKept(old(kernel.Now()), kernel.Now(), task.pgd) && Grows(old(kernel.Now()), kernel.Now())
    ensures result.Some? && !HasFlag(flags, MAP_POPULATE) ==>
      NewChunk(old(kernel.Now()), kernel.Now(), result.value.node)
    ensures result.Some? && AddressSpace(old(kernel.Now()), task.pgd, old(task.mappings)) ==>
      AddressSpace(kernel.Now(), task.pgd, task.mappings)
    ensures result.Some? ==>
      Populated(old(kernel.Now()), kernel.Now(), task.pgd, result.value, kernel.ramdisk,
          if HasFlag(flags, MAP_POPULATE) then AlignToPte(size) / 4096 else 0)
  {
    hide kernel.Valid, AddressSpace, OthersKept, OutsidePages, Low, LeafOf, LeafProt, Populated, WellPlaced, LowestFit;
    hide Fits, NewChunk, Consistent, SpaceKept, InsertedMapping, PlacedLow, Grows;
    hide RequestPlaced, NoPage, RequestedFrom;
    ghost var k := kernel.Now();
    kernel.ValidConsistent();
    result := PlaceMapping(kernel, task, vaddr, size, prot, flags, fileData);
    if result == None {
      return;
    }
    ghost var k1 := kernel.Now();
    PlacedMapping(k, k1, task.pgd, old(task.mappings), task.mappings, result.value, kernel.ramdisk);
    if HasFlag(flags, MAP_POPULATE) {
      LowAbsent(k, k1, task.pgd, old(task.mappings), task.mappings, Wanted(AlignToPte(vaddr)), result.value);
      Populate(kernel, task, result.value);
      OthersKeptTwice(k, k1, kernel.Now(), task.pgd);
      GrowsTwice(k, k1, kernel.Now());
      PopulatedSince(k, k1, kernel.Now(), task.pgd, result.value, kernel.ramdisk, AlignToPte(size) / 4096);
    }
  }

  lemma PlacedMapping(k: Snapshot, k1: Snapshot, pgd: nat, ms: seq<Mapping>, ms1: seq<Mapping>, m: Mapping,
      ramdisk: nat -> nat)
    requires NewChunk(k, k1, m.node) && Consistent(k) && InsertedMapping(ms, ms1, m)
    ensures m.node !in k.heap.chunks && k1.heap.chunks.Keys == k.heap.chunks.Keys + {m.node}
    ensures k1.heap.large == k.heap.large
    ensures OutsidePages(k1, pgd) == OutsidePages(k, pgd) && OthersKept(k, k1, pgd)
    ensures Populated(k, k1, pgd, m, ramdisk, 0) && Grows(k, k1)
    ensures AddressSpace(k, pgd, ms) ==> AddressSpace(k1, pgd, ms1)
    ensures |k1.pages.free| >= |k.pages.free| - 1
  {
    hide AddressSpace, OutsidePages, Consistent, LeafOf, NewChunk, PageOfMapping, DataAt;
    ChunkKeeps(k, k1, m.node, pgd);
    KeptOthers(k, k1, pgd);
    KeptOwned(k, k1, pgd);
    if AddressSpace(k, pgd, ms) {
      KeptSpace(k, k1, pgd, ms);
      MoreMappings(k1, pgd, ms, ms1, m);
    }
  }

  lemma LowAbsent(k: Snapshot, k1: Snapshot, pgd: nat, ms: seq<Mapping>, ms1: seq<Mapping>, want: nat, m: Mapping)
    requires NewChunk(k, k1, m.node) && Consistent(k) && AddressSpace(k, pgd, ms) && InsertedMapping(ms, ms1, m)
    requires LowestFit(ms, want, m.size, m.vaddr) && Low(ms) && UserProt(m.prot)
    requires PlacedLow(ms, want, m.size)
    ensures Low(ms1) && m in ms1
    ensures forall n: nat :: n < USER_PAGES && m.vaddr <= 4096 * n < m.vaddr + m.size ==> LeafOf(k1, pgd, n) == None
  {
    hide AddressSpace, Consistent, LeafOf, NewChunk, DataAt, LeafProt, Fits;
    ChunkKeeps(k, k1, m.node, pgd);
    KeptOwned(k, k1, pgd);
    NothingPresent(k, pgd, ms, m);
    InsertedLow(ms, ms1, m);
    MoreMappings(k, pgd, ms, ms1, m);
  }

  lemma PopulatedSince(k: Snapshot, k1: Snapshot, k2: Snapshot, pgd: nat, m: Mapping, ramdisk: nat -> nat, done: nat)
    requires Populated(k, k1, pgd, m, ramdisk, 0) && Populated(k1, k2, pgd, m, ramdisk, done)
    ensures Populated(k, k2, pgd, m, ramdisk, done)
  {
    hide LeafOf, PageOfMapping, DataAt;
  }
}
