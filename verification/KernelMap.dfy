/**
 The kernel's own address space: the one-gigabyte mappings made before paging is on, the removal of the
 identity mapping, and the refinement of the direct map into two-megabyte leaves.
 */
module KernelMap {
  import opened Bits
  import PA = PageAllocator
  import opened Sv39
  import opened PageTree
  import opened Teardown
  import opened VirtualMemory

  const PGD_MEM_SIZE: nat := 0x4000_0000
  const PMD_MEM_SIZE: nat := 0x20_0000

  const PTE_IDENTITY_PROT: nat := PTE_VALID + PTE_READ + PTE_WRITE + PTE_EXECUTE + PTE_ACCESSED + PTE_DIRTY
  const PTE_RAM_PROT: nat := PTE_VALID + PTE_READ + PTE_WRITE + PTE_ACCESSED + PTE_DIRTY
  const PTE_MMIO_PROT: nat := PTE_VALID + PTE_READ + PTE_WRITE + PTE_GLOBAL + PTE_ACCESSED + PTE_DIRTY
  const PTE_KERNEL_PROT: nat := PTE_VALID + PTE_READ + PTE_WRITE + PTE_GLOBAL + PTE_EXECUTE + PTE_ACCESSED + PTE_DIRTY

  /** `get_pgd_index` */
  function PgdIndex(addr: nat): (i: nat)
    ensures i < PAGE_TABLE_ENTRIES_NUM
  {
    addr / PGD_MEM_SIZE % PAGE_TABLE_ENTRIES_NUM
  }

  /** The page number of KERNEL_VIRTUAL_BASE: the first of the upper half. */
  const KERNEL_VPN: nat := 0x400_0000

  lemma KernelVpn(offset: nat)
    requires offset < 0x40_0000_0000
    ensures Vpn(KERNEL_VIRTUAL_BASE + offset) == KERNEL_VPN + offset / 4096
    ensures PgdIndex(KERNEL_VIRTUAL_BASE + offset) == 256 + offset / PGD_MEM_SIZE
  {
    assert KERNEL_VIRTUAL_BASE == 4096 * 0xF_FFFF_FC00_0000 == PGD_MEM_SIZE * 0x3_FFFF_FF00;
    assert (KERNEL_VIRTUAL_BASE + offset) / 4096 == 0xF_FFFF_FC00_0000 + offset / 4096;
    assert (KERNEL_VIRTUAL_BASE + offset) / PGD_MEM_SIZE == 0x3_FFFF_FF00 + offset / PGD_MEM_SIZE;
  }

  /** Memory starts at a multiple of a gigabyte and ends below 2^38. */
  predicate Memory(base: nat, size: nat) {
    base % PGD_MEM_SIZE == 0 && base + size <= 0x40_0000_0000
  }

  /** What page `n` translates to after `virtual_memory_setup`: in the upper half the direct map, by whole gigabytes; in
      the lower half the gigabyte of the device, and the identity mapping of memory elsewhere. */
  function AtSetup(base: nat, size: nat, device: nat, n: nat): Option<Leaf> {
    if n >= KERNEL_VPN then
      if (n - KERNEL_VPN) / 0x4_0000 * PGD_MEM_SIZE < size
        then Some(Leaf(2, base / 4096 + (n - KERNEL_VPN), PTE_KERNEL_PROT)) else None
    else if n / 0x4_0000 == device / PGD_MEM_SIZE then Some(Leaf(2, n % 0x4_0000, PTE_MMIO_PROT))
    else if base <= n / 0x4_0000 * PGD_MEM_SIZE < base + size then Some(Leaf(2, n, PTE_IDENTITY_PROT))
    else None
  }

  /** The kernel, and not the user, may do as it likes in memory at either place, and read and write the device. */
  ghost predicate SetupMay(leaf: Option<Leaf>, device: nat, n: nat) {
    leaf.Some? ==>
      && (IsGlobal(leaf.value.prot) <==> n >= KERNEL_VPN || n / 0x4_0000 == device / PGD_MEM_SIZE)
      && forall access ::
        && (Serves(leaf.value.prot, access, false) <==>
            access != Fetch || n >= KERNEL_VPN || n / 0x4_0000 != device / PGD_MEM_SIZE)
        && !Serves(leaf.value.prot, access, true)
  }

  lemma SetupRights(base: nat, size: nat, device: nat, n: nat)
    ensures SetupMay(AtSetup(base, size, device, n), device, n)
  {
  }

  /** Entry `i` when the first `done` bytes of memory are mapped. */
  function FilledEntry(base: nat, done: nat, i: nat): nat {
    if i >= 256 then if (i - 256) * PGD_MEM_SIZE < done then MakePte(base + (i - 256) * PGD_MEM_SIZE, PTE_KERNEL_PROT)
      else 0
    else if base <= i * PGD_MEM_SIZE < base + done then MakePte(i * PGD_MEM_SIZE, PTE_IDENTITY_PROT)
    else 0
  }

  ghost predicate Filled(entries: seq<nat>, base: nat, done: nat) {
    |entries| == PAGE_TABLE_ENTRIES_NUM && forall i :: 0 <= i < PAGE_TABLE_ENTRIES_NUM ==>
      entries[i] == FilledEntry(base, done, i)
  }

  lemma FilledNext(b: nat, d: nat, i: nat)
    requires b + d < 256
    ensures FilledEntry(PGD_MEM_SIZE * b, PGD_MEM_SIZE * d + PGD_MEM_SIZE, i) ==
      if i == b + d then MakePte(PGD_MEM_SIZE * (b + d), PTE_IDENTITY_PROT)
      else if i == 256 + d then MakePte(PGD_MEM_SIZE * (b + d), PTE_KERNEL_PROT)
      else FilledEntry(PGD_MEM_SIZE * b, PGD_MEM_SIZE * d, i)
  {
    hide MakePte;
  }

  lemma FilledStep(entries: seq<nat>, base: nat, done: nat)
    requires Filled(entries, base, done) && done % PGD_MEM_SIZE == 0 && Memory(base, done + 1)
    ensures PgdIndex(base + done) < 256 && PgdIndex(KERNEL_VIRTUAL_BASE + done) >= 256
    ensures Filled(entries[PgdIndex(base + done) := MakePte(base + done, PTE_IDENTITY_PROT)]
        [PgdIndex(KERNEL_VIRTUAL_BASE + done) := MakePte(base + done, PTE_KERNEL_PROT)], base, done + PGD_MEM_SIZE)
  {
    hide MakePte, FilledEntry, Vpn;
    KernelVpn(done);
    var b, d := base / PGD_MEM_SIZE, done / PGD_MEM_SIZE;
    assert base == PGD_MEM_SIZE * b && done == PGD_MEM_SIZE * d && PgdIndex(base + done) == b + d;
    var next := entries[b + d := MakePte(base + done, PTE_IDENTITY_PROT)]
      [256 + d := MakePte(base + done, PTE_KERNEL_PROT)];
    forall i | 0 <= i < PAGE_TABLE_ENTRIES_NUM ensures next[i] == FilledEntry(base, done + PGD_MEM_SIZE, i) {
      FilledNext(b, d, i);
    }
  }

  /** The entries that `virtual_memory_setup` writes mean what `AtSetup` says. */
  lemma FilledMeans(entries: seq<nat>, base: nat, size: nat, done: nat, device: nat)
    requires Filled(entries, base, done) && Memory(base, size) && device < 0x40_0000_0000
    requires done % PGD_MEM_SIZE == 0 && size <= done < size + PGD_MEM_SIZE
    ensures Written(entries[PgdIndex(device) := MakePte(0, PTE_MMIO_PROT)], base, size, device)
  {
    var written := entries[PgdIndex(device) := MakePte(0, PTE_MMIO_PROT)];
    assert PgdIndex(device) == device / PGD_MEM_SIZE;
    forall i | 0 <= i < PAGE_TABLE_ENTRIES_NUM ensures EntryMeans(written[i], base, size, device, i) {
      FilledEntryMeans(base, size, done, device, i);
    }
  }

  /** Entry `i` says about each of its pages what `AtSetup` says. */
  predicate EntryMeans(pte: nat, base: nat, size: nat, device: nat, i: nat) {
    var page := i * 0x4_0000;
    if pte == 0 then AtSetup(base, size, device, page) == None
    else LeafPte(pte, 2) && AtSetup(base, size, device, page) == Some(Leaf(2, Ppn(pte), Flags(pte)))
  }

  ghost predicate Written(entries: seq<nat>, base: nat, size: nat, device: nat) {
    |entries| == PAGE_TABLE_ENTRIES_NUM && forall i :: 0 <= i < PAGE_TABLE_ENTRIES_NUM ==>
      EntryMeans(entries[i], base, size, device, i)
  }

  lemma GigabyteLeaf(paddr: nat, prot: nat)
    requires paddr % PGD_MEM_SIZE == 0 && paddr < 0x100_0000_0000_0000 && LeafProt(prot)
    ensures var pte := MakePte(paddr, prot);
      pte != 0 && LeafPte(pte, 2) && Ppn(pte) == paddr / 4096 && Flags(pte) == prot
  {
    PtePhysical(paddr, prot);
    assert LevelPages(2) == 0x4_0000 by { assert LevelPages(1) == 512; }
    assert paddr / 4096 % 0x4_0000 == 0 by { assert paddr == 4096 * (0x4_0000 * (paddr / PGD_MEM_SIZE)); }
  }

  lemma FilledEntryMeans(base: nat, size: nat, done: nat, device: nat, i: nat)
    requires Memory(base, size) && device < 0x40_0000_0000 && i < PAGE_TABLE_ENTRIES_NUM
    requires done % PGD_MEM_SIZE == 0 && size <= done < size + PGD_MEM_SIZE
    ensures EntryMeans(if i == device / PGD_MEM_SIZE then MakePte(0, PTE_MMIO_PROT) else FilledEntry(base, done, i),
        base, size, device, i)
  {
    hide MakePte, EntryMeans, FilledEntry, Memory;
    if i == device / PGD_MEM_SIZE {
      DeviceEntryMeans(base, size, device, i);
    } else if i >= 256 {
      UpperEntryMeans(base, size, done, device, i);
    } else {
      LowerEntryMeans(base, size, done, device, i);
    }
  }

  lemma DeviceEntryMeans(base: nat, size: nat, device: nat, i: nat)
    requires device < 0x40_0000_0000 && i == device / PGD_MEM_SIZE
    ensures EntryMeans(MakePte(0, PTE_MMIO_PROT), base, size, device, i)
  {
    hide MakePte, LeafPte, Ppn, Flags, LeafProt;
    FirstPageOf(i);
    MmioProt();
    GigabyteLeaf(0, PTE_MMIO_PROT);
  }

  lemma MmioProt()
    ensures LeafProt(PTE_MMIO_PROT) && LeafProt(PTE_KERNEL_PROT) && LeafProt(PTE_IDENTITY_PROT)
  {
  }

  lemma UpperEntryMeans(base: nat, size: nat, done: nat, device: nat, i: nat)
    requires Memory(base, size) && 256 <= i < PAGE_TABLE_ENTRIES_NUM
    requires done % PGD_MEM_SIZE == 0 && size <= done < size + PGD_MEM_SIZE
    ensures EntryMeans(FilledEntry(base, done, i), base, size, device, i)
  {
    hide MakePte, LeafPte, Ppn, Flags, LeafProt;
    FirstPageOf(i);
    MmioProt();
    Gigabytes(size, done, i - 256);
    if (i - 256) * PGD_MEM_SIZE < done {
      GigabyteOf(base, i - 256);
      GigabyteLeaf(base + (i - 256) * PGD_MEM_SIZE, PTE_KERNEL_PROT);
    }
  }

  lemma LowerEntryMeans(base: nat, size: nat, done: nat, device: nat, i: nat)
    requires Memory(base, size) && i < 256 && i != device / PGD_MEM_SIZE
    requires done % PGD_MEM_SIZE == 0 && size <= done < size + PGD_MEM_SIZE
    ensures EntryMeans(FilledEntry(base, done, i), base, size, device, i)
  {
    hide MakePte, LeafPte, Ppn, Flags, LeafProt;
    FirstPageOf(i);
    MmioProt();
    if base <= i * PGD_MEM_SIZE {
      var g := base / PGD_MEM_SIZE;
      assert base == PGD_MEM_SIZE * g && g <= i;
      Gigabytes(size, done, i - g);
    }
    GigabyteOf(0, i);
    if i * PGD_MEM_SIZE < base + done { GigabyteLeaf(i * PGD_MEM_SIZE, PTE_IDENTITY_PROT); }
  }

  /** A gigabyte starts below the size of memory exactly if it starts below that size rounded up. */
  lemma Gigabytes(size: nat, done: nat, j: nat)
    requires done % PGD_MEM_SIZE == 0 && size <= done < size + PGD_MEM_SIZE
    ensures j * PGD_MEM_SIZE < size <==> j * PGD_MEM_SIZE < done
  {
    var d := done / PGD_MEM_SIZE;
    assert done == PGD_MEM_SIZE * d;
  }

  lemma GigabyteOf(base: nat, j: nat)
    requires base % PGD_MEM_SIZE == 0
    ensures (base + j * PGD_MEM_SIZE) % PGD_MEM_SIZE == 0
    ensures (base + j * PGD_MEM_SIZE) / 4096 == base / 4096 + j * 0x4_0000
  {
    var g := base / PGD_MEM_SIZE;
    assert base == PGD_MEM_SIZE * g;
    Quotient(base, 4096, 0x4_0000 * g, 0);
    Quotient(base + j * PGD_MEM_SIZE, 4096, 0x4_0000 * (g + j), 0);
    Quotient(base + j * PGD_MEM_SIZE, PGD_MEM_SIZE, g + j, 0);
  }

  /** The first page of gigabyte `i`. */
  lemma FirstPageOf(i: nat)
    ensures i * 0x4_0000 / 0x4_0000 == i && i * 0x4_0000 % 0x4_0000 == 0 && i * PGD_MEM_SIZE / 4096 == i * 0x4_0000
    ensures i >= 256 ==> i * 0x4_0000 >= KERNEL_VPN && (i * 0x4_0000 - KERNEL_VPN) / 0x4_0000 == i - 256
    ensures i < 256 ==> i * 0x4_0000 < KERNEL_VPN
  {
    Quotient(i * 0x4_0000, 0x4_0000, i, 0);
    Quotient(i * PGD_MEM_SIZE, 4096, i * 0x4_0000, 0);
    if i >= 256 { Quotient(i * 0x4_0000 - KERNEL_VPN, 0x4_0000, i - 256, 0); }
  }

  /** Pages of one gigabyte are translated as the first of them is. */
  lemma AtSetupPage(base: nat, size: nat, device: nat, n: nat)
    requires Memory(base, size)
    ensures var first, leaf := AtSetup(base, size, device, n / 0x4_0000 * 0x4_0000), AtSetup(base, size, device, n);
      if first == None then leaf == None else leaf == Some(Leaf(2, first.value.ppn + n % 0x4_0000, first.value.prot))
  {
    var i, r := n / 0x4_0000, n % 0x4_0000;
    if n >= KERNEL_VPN { assert n - KERNEL_VPN == (i - 256) * 0x4_0000 + r; }
  }

  lemma WrittenLookup(entries: seq<nat>, base: nat, size: nat, device: nat, root: nat, offset: nat, n: nat)
    requires Written(entries, base, size, device) && Memory(base, size) && n < 0x800_0000
    ensures GigabyteEntries(entries) && Lookup(map[root := entries], offset, root, n) == AtSetup(base, size, device, n)
  {
    hide LeafPte, AtSetup, Lookup;
    RootAloneLookup(root, entries, offset, n);
    AtSetupPage(base, size, device, n);
    assert EntryMeans(entries[n / 0x4_0000], base, size, device, n / 0x4_0000);
  }

  /** `virtual_memory_setup` without the device tree: `device` is the address whose gigabyte the platform maps for the
      UART, to physical address 0. */
  method Setup(kernelPgd: array<nat>, memoryBase: nat, memorySize: nat, device: nat) returns (virtualMmioOffset: nat)
    requires kernelPgd[..] == Zeros(PAGE_TABLE_ENTRIES_NUM) && Memory(memoryBase, memorySize) && device < 0x40_0000_0000
    modifies kernelPgd
    ensures Written(kernelPgd[..], memoryBase, memorySize, device)
    ensures forall root: nat, offset: nat, n: nat :: n < 0x800_0000 ==>
      Lookup(map[root := kernelPgd[..]], offset, root, n) == AtSetup(memoryBase, memorySize, device, n)
    ensures forall root: nat, offset: nat, n: nat :: n < 0x800_0000 ==>
      SetupMay(Lookup(map[root := kernelPgd[..]], offset, root, n), device, n)
    ensures virtualMmioOffset % PGD_MEM_SIZE == 0
    ensures KERNEL_VIRTUAL_BASE + memorySize <= virtualMmioOffset < KERNEL_VIRTUAL_BASE + memorySize + PGD_MEM_SIZE
  {
    hide MakePte, Lookup, FilledEntry, Filled, Written, AtSetup, PgdIndex, SetupMay;
    var offset := 0;
    NothingFilled(memoryBase);
    while offset < memorySize
      invariant offset % PGD_MEM_SIZE == 0 && offset < memorySize + PGD_MEM_SIZE
      invariant Filled(kernelPgd[..], memoryBase, offset)
    {
      FilledStep(kernelPgd[..], memoryBase, offset);
      var pgdPaddr, pgdVaddr := memoryBase + offset, KERNEL_VIRTUAL_BASE + offset;
      kernelPgd[PgdIndex(pgdPaddr)] := MakePte(pgdPaddr, PTE_IDENTITY_PROT);
      kernelPgd[PgdIndex(pgdVaddr)] := MakePte(pgdPaddr, PTE_KERNEL_PROT);
      offset := offset + PGD_MEM_SIZE;
    }
    FilledMeans(kernelPgd[..], memoryBase, memorySize, offset, device);
    kernelPgd[PgdIndex(device)] := MakePte(0, PTE_MMIO_PROT);
    virtualMmioOffset := KERNEL_VIRTUAL_BASE + offset;
    forall root: nat, offset: nat, n: nat | n < 0x800_0000
      ensures Lookup(map[root := kernelPgd[..]], offset, root, n) == AtSetup(memoryBase, memorySize, device, n)
      ensures SetupMay(Lookup(map[root := kernelPgd[..]], offset, root, n), device, n)
    {
      WrittenLookup(kernelPgd[..], memoryBase, memorySize, device, root, offset, n);
      SetupRights(memoryBase, memorySize, device, n);
    }
  }

  lemma NothingFilled(base: nat)
    ensures Filled(Zeros(PAGE_TABLE_ENTRIES_NUM), base, 0)
  {
    hide MakePte;
  }

  /** `virtual_memory_drop_identity_mapping`, before the kernel's root has tables below it: the lower half translates
      to nothing and the upper half as before. */
  method DropIdentityMapping(vm: VirtualMemory)
    requires vm.Valid() && vm.tree == RootAlone(vm.kernelPgd)
    modifies vm`tables
    ensures vm.Valid()
    ensures forall n: nat :: n < 0x800_0000 ==>
      vm.Translated(vm.kernelPgd, n) == if n < KERNEL_VPN then None else old(vm.Translated(vm.kernelPgd, n))
  {
    hide PA.Tiles, PA.Heads, PA.Listed, Wellformed, Lookup, LeafPte, AtSetup;
    var root := vm.kernelPgd;
    RootAloneEntries(root, vm.tables, vm.offset);
    ghost var was := vm.tables[root];
    for i := 0 to PAGE_TABLE_ENTRIES_NUM / 2
      invariant vm.Valid() && vm.tables.Keys == {root} && GigabyteEntries(vm.tables[root])
      invariant forall j :: 0 <= j < PAGE_TABLE_ENTRIES_NUM ==> vm.tables[root][j] == if j < i then 0 else was[j]
    {
      SetLeafWellformed(vm.tree, vm.tables, vm.offset, root, i, 0);
      vm.tables := SetEntry(vm.tables, root, i, 0);
    }
    forall n: nat | n < 0x800_0000
      ensures Lookup(vm.tables, vm.offset, root, n) ==
        if n < KERNEL_VPN then None else Lookup(old(vm.tables), vm.offset, root, n)
    {
      assert vm.tables == map[root := vm.tables[root]] && old(vm.tables) == map[root := was];
      RootAloneLookup(root, vm.tables[root], vm.offset, n);
      RootAloneLookup(root, was, vm.offset, n);
    }
  }

  lemma RootAloneEntries(root: nat, tables: Tables, offset: nat)
    requires Wellformed(RootAlone(root), tables, offset)
    ensures tables.Keys == {root} && GigabyteEntries(tables[root])
  {
    hide LeafPte, Pointable;
    forall i | 0 <= i < PAGE_TABLE_ENTRIES_NUM ensures tables[root][i] == 0 || LeafPte(tables[root][i], 2) {
      assert EntryOk(RootAlone(root), offset, Place(root, 2, 0), i, tables[root][i]);
    }
  }

  /** The kernel image lies in memory, at two-megabyte bounds. */
  predicate Image(base: nat, size: nat, kernelPaddr: nat, kernelSize: nat) {
    && Memory(base, size) && size % PMD_MEM_SIZE == 0
    && kernelPaddr % PMD_MEM_SIZE == 0 && kernelSize % PMD_MEM_SIZE == 0
    && base <= kernelPaddr && 0 < kernelSize && kernelPaddr + kernelSize <= base + size
  }

  /** The refined kernel address space: memory in leaves of two megabytes, executable where the kernel image is, and
      nothing else. */
  function DirectMap(base: nat, size: nat, kernelPaddr: nat, kernelSize: nat, n: nat): Option<Leaf> {
    if KERNEL_VPN <= n < KERNEL_VPN + size / 4096 then
      var ppn := base / 4096 + (n - KERNEL_VPN);
      Some(Leaf(1, ppn, if kernelPaddr / 4096 <= ppn < (kernelPaddr + kernelSize) / 4096 then PTE_KERNEL_PROT
        else PTE_RAM_PROT))
    else None
  }

  /** The kernel, and not the user, may read and write the page, and execute it exactly if it is in its image; that
      is mapped alike everywhere. */
  predicate KernelMay(leaf: Leaf, imageStart: nat, imageSize: nat) {
    && Serves(leaf.prot, Load, false) && Serves(leaf.prot, Store, false)
    && (Serves(leaf.prot, Fetch, false) <==> imageStart <= 4096 * leaf.ppn < imageStart + imageSize)
    && (IsGlobal(leaf.prot) <==> Serves(leaf.prot, Fetch, false))
    && forall access :: !Serves(leaf.prot, access, true)
  }

  lemma DirectMapMay(base: nat, size: nat, imageStart: nat, imageSize: nat, n: nat)
    requires Image(base, size, imageStart, imageSize) && KERNEL_VPN <= n < KERNEL_VPN + size / 4096
    ensures DirectMap(base, size, imageStart, imageSize, n).Some?
    ensures KernelMay(DirectMap(base, size, imageStart, imageSize, n).value, imageStart, imageSize)
  {
    RamRights();
    PmdPages(imageStart);
    PmdPages(imageStart + imageSize);
    hide Serves;
  }

  lemma RamRights()
    ensures forall access :: Serves(PTE_KERNEL_PROT, access, false) && !Serves(PTE_KERNEL_PROT, access, true)
    ensures forall access ::
      Serves(PTE_RAM_PROT, access, false) == (access != Fetch) && !Serves(PTE_RAM_PROT, access, true)
    ensures IsGlobal(PTE_KERNEL_PROT) && !IsGlobal(PTE_RAM_PROT)
  {
  }

  /** The direct map by whole gigabytes, after the identity mapping is gone. */
  function CoarseMap(base: nat, size: nat, n: nat): Option<Leaf> {
    if n < KERNEL_VPN then None else AtSetup(base, size, 0, n)
  }

  /** `virtual_memory_refine_mappings`: every page of memory stays where it was, now in two-megabyte leaves, and the
      rest of the last gigabyte is no longer mapped. */
  method RefineMappings(vm: VirtualMemory, memoryBase: nat, memorySize: nat, kernelPaddrStart: nat,
      kernelVaddrStart: nat, kernelSize: nat)
    requires vm.Valid() && vm.tree == RootAlone(vm.kernelPgd)
    requires forall n: nat :: n < 0x800_0000 ==> vm.Translated(vm.kernelPgd, n) == CoarseMap(memoryBase, memorySize, n)
    requires Image(memoryBase, memorySize, kernelPaddrStart, kernelSize)
    requires kernelVaddrStart == KERNEL_VIRTUAL_BASE + (kernelPaddrStart - memoryBase)
    requires |vm.pages.free| >= memorySize / PMD_MEM_SIZE
    modifies vm`tables, vm`tree, vm.pages`free, vm.pages`live, vm.pages.frameArray, vm.pages.ordersLists
    ensures vm.Valid()
    ensures forall n: nat :: n < 0x800_0000 ==>
      vm.Translated(vm.kernelPgd, n) == DirectMap(memoryBase, memorySize, kernelPaddrStart, kernelSize, n)
    ensures forall n: nat :: KERNEL_VPN <= n < KERNEL_VPN + memorySize / 4096 ==>
      vm.Translated(vm.kernelPgd, n).Some? &&
        KernelMay(vm.Translated(vm.kernelPgd, n).value, kernelPaddrStart, kernelSize)
    ensures Extends(old(vm.tree), vm.tree, vm.kernelPgd, 1) && vm.SamePools()
    ensures vm.pages.free <= old(vm.pages.free) && |vm.pages.free| >= |old(vm.pages.free)| - memorySize / PMD_MEM_SIZE
  {
    hide Extends, vm.Valid, Coarse, Lookup, LeafProt, AllMapped, DirectMap, CoarseMap, KernelMay;
    RamProt();
    var kernelPaddrEnd := kernelPaddrStart + kernelSize;
    ghost var root, before, image := vm.kernelPgd, kernelPaddrStart - memoryBase, kernelPaddrEnd - memoryBase;
    ghost var tree0, tables0 := vm.tree, vm.tables;
    CoarseStart(root);
    ExtendsItself(tree0, root, 1);
    ImageBounds(memoryBase, memorySize, kernelPaddrStart, kernelSize);
    MapPmd(vm, kernelVaddrStart, kernelPaddrStart, kernelSize, PTE_KERNEL_PROT, memoryBase, memorySize, before);
    ghost var tree1, tables1 := vm.tree, vm.tables;
    AllMappedStart(tree1, tables1, vm.offset, root, KERNEL_VPN, Leaf(1, memoryBase / 4096, PTE_RAM_PROT));
    if kernelPaddrStart > memoryBase {
      MapPmd(vm, KERNEL_VIRTUAL_BASE, memoryBase, kernelPaddrStart - memoryBase, PTE_RAM_PROT, memoryBase, memorySize,
          0);
    }
    ghost var tree2, tables2 := vm.tree, vm.tables;
    AllMappedStart(tree2, tables2, vm.offset, root, KERNEL_VPN + image / 4096,
        Leaf(1, kernelPaddrEnd / 4096, PTE_RAM_PROT));
    var memoryPaddrEnd := memoryBase + memorySize;
    if kernelPaddrEnd < memoryPaddrEnd {
      var afterOffset := kernelPaddrEnd - memoryBase;
      MapPmd(vm, KERNEL_VIRTUAL_BASE + afterOffset, kernelPaddrEnd, memoryPaddrEnd - kernelPaddrEnd, PTE_RAM_PROT,
          memoryBase, memorySize, afterOffset);
    }
    ExtendsTwice(tree0, tree1, tree2, root, 1, 1);
    ExtendsTwice(tree0, tree2, vm.tree, root, 1, 1);
    Refined(tree0, tables0, tree1, tables1, tree2, tables2, vm.tree, vm.tables, vm.offset, root, memoryBase, memorySize,
        kernelPaddrStart, kernelSize);
    MemoryMay(memoryBase, memorySize, kernelPaddrStart, kernelSize);
  }

  lemma MemoryMay(base: nat, size: nat, imageStart: nat, imageSize: nat)
    requires Image(base, size, imageStart, imageSize)
    ensures KERNEL_VPN + size / 4096 <= 0x800_0000
    ensures forall n: nat :: KERNEL_VPN <= n < KERNEL_VPN + size / 4096 ==>
      var leaf := DirectMap(base, size, imageStart, imageSize, n);
      leaf.Some? && KernelMay(leaf.value, imageStart, imageSize)
  {
    hide DirectMap, KernelMay;
    forall n: nat | KERNEL_VPN <= n < KERNEL_VPN + size / 4096
      ensures var leaf := DirectMap(base, size, imageStart, imageSize, n);
        leaf.Some? && KernelMay(leaf.value, imageStart, imageSize)
    {
      DirectMapMay(base, size, imageStart, imageSize, n);
    }
  }

  lemma RamProt()
    ensures LeafProt(PTE_RAM_PROT) && LeafProt(PTE_KERNEL_PROT)
  {
  }

  lemma ImageBounds(base: nat, size: nat, kernelPaddr: nat, kernelSize: nat)
    requires Image(base, size, kernelPaddr, kernelSize)
    ensures (kernelPaddr - base) % PMD_MEM_SIZE == 0 && (kernelPaddr - base + kernelSize) % PMD_MEM_SIZE == 0
    ensures (size - (kernelPaddr - base + kernelSize)) % PMD_MEM_SIZE == 0
    ensures kernelSize / PMD_MEM_SIZE + (kernelPaddr - base) / PMD_MEM_SIZE +
      (size - (kernelPaddr - base + kernelSize)) / PMD_MEM_SIZE == size / PMD_MEM_SIZE
  {
    var k, b, i, z := base / PMD_MEM_SIZE, kernelPaddr / PMD_MEM_SIZE, kernelSize / PMD_MEM_SIZE, size / PMD_MEM_SIZE;
    assert base == PMD_MEM_SIZE * k by {
      Quotient(base, PGD_MEM_SIZE, base / PGD_MEM_SIZE, 0);
      Quotient(base, PMD_MEM_SIZE, 512 * (base / PGD_MEM_SIZE), 0);
    }
    Quotient(kernelPaddr - base, PMD_MEM_SIZE, b - k, 0);
    Quotient(kernelPaddr - base + kernelSize, PMD_MEM_SIZE, b - k + i, 0);
    Quotient(size - (kernelPaddr - base + kernelSize), PMD_MEM_SIZE, z - (b - k + i), 0);
  }

  /** `virtual_memory_map_pmd` of the part of memory from `from` on at its place in the direct map. */
  method MapPmd(vm: VirtualMemory, vaddr: nat, paddr: nat, size: nat, prot: nat, ghost base: nat, ghost memorySize: nat,
      ghost from: nat)
    requires vm.Valid() && Coarse(vm.tree, vm.kernelPgd)
    requires vaddr == KERNEL_VIRTUAL_BASE + from && paddr == base + from && LeafProt(prot)
    requires Memory(base, memorySize) && from % PMD_MEM_SIZE == 0 && size % PMD_MEM_SIZE == 0
    requires from + size <= memorySize && from < memorySize
    requires |vm.pages.free| >= size / PMD_MEM_SIZE
    modifies vm`tables, vm`tree, vm.pages`free, vm.pages`live, vm.pages.frameArray, vm.pages.ordersLists
    ensures vm.Valid() && Coarse(vm.tree, vm.kernelPgd)
    ensures Extends(old(vm.tree), vm.tree, vm.kernelPgd, 1) && vm.SamePools()
    ensures vm.pages.free <= old(vm.pages.free) && |vm.pages.free| >= |old(vm.pages.free)| - size / PMD_MEM_SIZE
    ensures AllMapped(old(vm.tree), old(vm.tables), vm.tree, vm.tables, vm.offset, vm.kernelPgd,
      KERNEL_VPN + from / 4096, KERNEL_VPN + (from + size) / 4096, Leaf(1, paddr / 4096, prot))
  {
    hide PA.Tiles, PA.Heads, PA.Listed, Wellformed, AllMapped, Mappable, SpanPages, TablesNeeded, Vpn, LeafProt;
    hide Extends, Coarse, TakenPages;
    RangeMappable(vm.tree, vm.kernelPgd, base, memorySize, from, size, prot);
    vm.MapPages(vm.kernelPgd, vaddr, paddr, size, prot, 1);
    vm.TookFree(old(vm.tables), old(vm.pages.live), old(vm.pages.free));
    StillCoarse(old(vm.tree), old(vm.tables), vm.tree, vm.tables, vm.offset, vm.kernelPgd, KERNEL_VPN + from / 4096,
        KERNEL_VPN + (from + size) / 4096, Leaf(1, paddr / 4096, prot));
  }

  /** The state of the kernel's root between two steps of the refinement. */
  ghost predicate Coarse(tree: Tree, root: nat) {
    && (forall n: nat :: n < 0x800_0000 ==> InWindow(tree, root, n))
    && (forall p :: p in tree.at ==> p.level >= 1)
  }

  lemma CoarseStart(root: nat)
    ensures Coarse(RootAlone(root), root)
  {
    forall n: nat | n < 0x800_0000 ensures InWindow(RootAlone(root), root, n) {
      Prefixes(n);
      DivDiv512(n);
    }
  }

  lemma PmdPages(size: nat)
    requires size % PMD_MEM_SIZE == 0
    ensures size == 4096 * (size / 4096) && size / 4096 == 512 * (size / PMD_MEM_SIZE) && size / 4096 % 512 == 0
  {
    var z := size / PMD_MEM_SIZE;
    Quotient(size, PMD_MEM_SIZE, z, 0);
    Quotient(size, 4096, 512 * z, 0);
    Quotient(512 * z, 512, z, 0);
  }

  /** The part of memory from `from` on, `size` bytes long, can be mapped in two-megabyte leaves. */
  lemma RangeMappable(tree: Tree, root: nat, base: nat, memorySize: nat, from: nat, size: nat, prot: nat)
    requires Coarse(tree, root) && Memory(base, memorySize) && LeafProt(prot)
    requires from % PMD_MEM_SIZE == 0 && size % PMD_MEM_SIZE == 0 && from + size <= memorySize && from < memorySize
    ensures Mappable(tree, root, KERNEL_VIRTUAL_BASE + from, base + from, size, prot, 1)
    ensures Vpn(KERNEL_VIRTUAL_BASE + from) == KERNEL_VPN + from / 4096
    ensures SpanPages(size, 1) == size / 4096 && TablesNeeded(SpanPages(size, 1), 1) == size / PMD_MEM_SIZE
    ensures from / 4096 + size / 4096 == (from + size) / 4096
  {
    hide InWindow, Prefix, Index, LeafProt;
    KernelVpn(from);
    assert LevelPages(1) == 512;
    hide LevelPages, Vpn;
    PmdPages(from);
    PmdPages(size);
    PmdPages(base + from);
    KernelPages(from);
    assert SpanPages(size, 1) == size / 4096;
    assert from / 4096 + size / 4096 <= 0x400_0000;
  }

  lemma KernelPages(from: nat)
    requires from % PMD_MEM_SIZE == 0
    ensures (KERNEL_VIRTUAL_BASE + from) / 4096 % 512 == 0
  {
    PmdPages(KERNEL_VIRTUAL_BASE + from);
  }

  lemma StillCoarse(tree0: Tree, tables0: Tables, tree: Tree, tables: Tables, offset: nat, root: nat, lo: nat, hi: nat,
      leaf: Leaf)
    requires Coarse(tree0, root) && AllMapped(tree0, tables0, tree, tables, offset, root, lo, hi, leaf)
    requires Extends(tree0, tree, root, 1)
    ensures Coarse(tree, root)
  {
    hide InWindow, Mapped, Lookup;
  }

  /** What page `n` translates to after the pages from `before` up to `image`, from `lo` up to `before` and from `image`
      up to `hi` were mapped in turn. */
  function ThreeRanges(was: Option<Leaf>, root: nat, lo: nat, before: nat, image: nat, hi: nat, ppn: nat,
      n: nat): Option<Leaf>
    requires lo <= before <= image <= hi
  {
    var was1 := Mapped(was, root, before, image, Leaf(1, ppn + (before - lo), PTE_KERNEL_PROT), root, n);
    var was2 := Mapped(was1, root, lo, before, Leaf(1, ppn, PTE_RAM_PROT), root, n);
    Mapped(was2, root, image, hi, Leaf(1, ppn + (image - lo), PTE_RAM_PROT), root, n)
  }

  lemma ThreeRangesInside(was: Option<Leaf>, root: nat, lo: nat, before: nat, image: nat, hi: nat, ppn: nat, n: nat)
    requires lo <= before <= image <= hi && lo <= n < hi
    ensures ThreeRanges(was, root, lo, before, image, hi, ppn, n)
      == Some(Leaf(1, ppn + (n - lo), if before <= n < image then PTE_KERNEL_PROT else PTE_RAM_PROT))
  {
    hide Covers;
  }

  /** Outside the ranges a gigabyte leaf is gone if one of its pages lies inside one of them. */
  lemma ThreeRangesOutside(was: Option<Leaf>, root: nat, lo: nat, before: nat, image: nat, hi: nat, ppn: nat, n: nat,
      m: nat)
    requires lo <= before <= image <= hi && !(lo <= n < hi)
    requires was.Some? ==> was.value.level == 2 && lo <= m < hi && Prefix(m, 2) == Prefix(n, 2)
    ensures ThreeRanges(was, root, lo, before, image, hi, ppn, n) == None
  {
    hide Prefix;
    if was.Some? {
      if m < before { assert Covers(lo, before, 2, n); }
      else if m < image { assert Covers(before, image, 2, n); }
      else { assert Covers(image, hi, 2, n); }
    }
  }

  /** The first page of the gigabyte of a page that the coarse map translates lies in memory. */
  lemma CoarseStarts(base: nat, size: nat, n: nat)
    requires Memory(base, size) && size % PMD_MEM_SIZE == 0 && n >= KERNEL_VPN && CoarseMap(base, size, n).Some?
    ensures CoarseMap(base, size, n).value.level == 2
    ensures var m := KERNEL_VPN + (n - KERNEL_VPN) / 0x4_0000 * 0x4_0000;
      m < KERNEL_VPN + size / 4096 && Prefix(m, 2) == Prefix(n, 2)
  {
    hide Prefix;
    SamePrefix2(KERNEL_VPN + (n - KERNEL_VPN) / 0x4_0000 * 0x4_0000, n);
    PmdPages(size);
  }

  lemma MemoryBounds(base: nat, size: nat, kernelPaddr: nat, kernelSize: nat)
    requires Image(base, size, kernelPaddr, kernelSize)
    ensures 0 <= (kernelPaddr - base) / 4096 <= (kernelPaddr - base + kernelSize) / 4096 <= size / 4096
    ensures kernelPaddr / 4096 == base / 4096 + (kernelPaddr - base) / 4096
    ensures (kernelPaddr + kernelSize) / 4096 == base / 4096 + (kernelPaddr - base + kernelSize) / 4096
  {
    ImageBounds(base, size, kernelPaddr, kernelSize);
    hide Image;
    PmdPages(base);
    PmdPages(size);
    PmdPages(kernelPaddr - base);
    PmdPages(kernelPaddr - base + kernelSize);
  }

  lemma SamePrefix2(m: nat, n: nat)
    requires m / 0x4_0000 == n / 0x4_0000
    ensures Prefix(m, 2) == Prefix(n, 2)
  {
    Prefixes(m);
    Prefixes(n);
    DivDiv512(m);
    DivDiv512(n);
  }

  lemma Refined(tree0: Tree, tables0: Tables, tree1: Tree, tables1: Tables, tree2: Tree, tables2: Tables, tree3: Tree,
      tables3: Tables,
                offset: nat, root: nat, base: nat, size: nat, kernelPaddr: nat, kernelSize: nat)
    requires Image(base, size, kernelPaddr, kernelSize) && Coarse(tree0, root) && Coarse(tree1, root)
    requires Coarse(tree2, root)
    requires forall n: nat :: n < 0x800_0000 ==> Lookup(tables0, offset, root, n) == CoarseMap(base, size, n)
    requires var before := KERNEL_VPN + (kernelPaddr - base) / 4096;
      var image := KERNEL_VPN + (kernelPaddr - base + kernelSize) / 4096;
      && AllMapped(tree0, tables0, tree1, tables1, offset, root, before, image,
          Leaf(1, kernelPaddr / 4096, PTE_KERNEL_PROT))
      && AllMapped(tree1, tables1, tree2, tables2, offset, root, KERNEL_VPN, before, Leaf(1, base / 4096, PTE_RAM_PROT))
      && AllMapped(tree2, tables2, tree3, tables3, offset, root, image, KERNEL_VPN + size / 4096,
          Leaf(1, (kernelPaddr + kernelSize) / 4096, PTE_RAM_PROT))
    ensures forall n: nat :: n < 0x800_0000 ==>
      Lookup(tables3, offset, root, n) == DirectMap(base, size, kernelPaddr, kernelSize, n)
  {
    hide Lookup, InWindow, Mapped, CoarseMap, DirectMap, Prefix, Image;
    MemoryBounds(base, size, kernelPaddr, kernelSize);
    var before := KERNEL_VPN + (kernelPaddr - base) / 4096;
    var image := KERNEL_VPN + (kernelPaddr - base + kernelSize) / 4096;
    forall n: nat | n < 0x800_0000
      ensures Lookup(tables3, offset, root, n) == DirectMap(base, size, kernelPaddr, kernelSize, n)
    {
      var was := CoarseMap(base, size, n);
      assert Lookup(tables3, offset, root, n) ==
        ThreeRanges(was, root, KERNEL_VPN, before, image, KERNEL_VPN + size / 4096, base / 4096, n);
      RefinedPage(was, root, base, size, kernelPaddr, kernelSize, n);
    }
  }

  lemma RefinedPage(was: Option<Leaf>, root: nat, base: nat, size: nat, kernelPaddr: nat, kernelSize: nat, n: nat)
    requires Image(base, size, kernelPaddr, kernelSize) && was == CoarseMap(base, size, n)
    requires 0 <= (kernelPaddr - base) / 4096 <= (kernelPaddr - base + kernelSize) / 4096 <= size / 4096
    ensures ThreeRanges(was, root, KERNEL_VPN, KERNEL_VPN + (kernelPaddr - base) / 4096,
        KERNEL_VPN + (kernelPaddr - base + kernelSize) / 4096, KERNEL_VPN + size / 4096, base / 4096, n)
      == DirectMap(base, size, kernelPaddr, kernelSize, n)
  {
    hide ThreeRanges, Prefix, CoarseMap;
    MemoryBounds(base, size, kernelPaddr, kernelSize);
    var before, hi := KERNEL_VPN + (kernelPaddr - base) / 4096, KERNEL_VPN + size / 4096;
    var image := KERNEL_VPN + (kernelPaddr - base + kernelSize) / 4096;
    if KERNEL_VPN <= n < hi {
      ThreeRangesInside(was, root, KERNEL_VPN, before, image, hi, base / 4096, n);
    } else {
      var m := if was.Some? && n >= KERNEL_VPN then KERNEL_VPN + (n - KERNEL_VPN) / 0x4_0000 * 0x4_0000 else 0;
      if was.Some? {
        CoarseLow(base, size, n);
        CoarseStarts(base, size, n);
      }
      ThreeRangesOutside(was, root, KERNEL_VPN, before, image, hi, base / 4096, n, m);
    }
  }

  lemma CoarseLow(base: nat, size: nat, n: nat)
    ensures CoarseMap(base, size, n).Some? ==> n >= KERNEL_VPN
  {
  }
}
