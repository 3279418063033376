/**
 What the system calls and the page-fault handler do with the memory of a task, and what that means from the
 fork of a task to its end.
 */
module TaskRuns {
  import opened Bits
  import opened Sv39
  import opened Roots
  import opened VirtualMemory
  import opened TaskMappings
  import opened AddressSpaces
  import opened Ownership
  import opened KernelMemory
  import opened Tasks
  import opened TaskCopies
  import opened TaskLife
  import opened TaskFork

  /** What installing pages and adding a mapping leaves of a task's other property. */
  lemma StillOwned(k: Snapshot, k': Snapshot, t: TaskView, t': TaskView, node: nat)
    requires Consistent(k) && Consistent(k') && Owned(k, t) && t.pgd != 0 && Grows(k, k')
    requires k'.heap.large == k.heap.large
    requires t' == TaskView(t.addr, t.pgd, t.stack, t'.mappings, t.signals)
    requires AddressSpace(k', t.pgd, t'.mappings) && WellPlaced(t'.mappings) && Low(t'.mappings)
    requires OutsidePages(k', t.pgd) == OutsidePages(k, t.pgd)
    requires if t'.mappings == t.mappings then k'.heap.chunks == k.heap.chunks
      else
        && node !in k.heap.chunks && k'.heap.chunks.Keys == k.heap.chunks.Keys + {node}
        && InsertedNode(t.mappings, t'.mappings, node)
    ensures Owned(k', t') && RestOf(k', t') == RestOf(k, t)
  {
    hide Consistent, AddressSpace, WellPlaced, Low, OutsidePages, DistinctNodes, DistinctSignals, NodesOf, SignalNodes;
    hide InsertedNode, LiveBlock;
    StillOwnsBlocks(k, k', t, t');
    if t'.mappings != t.mappings { InsertedNodes(t.mappings, t'.mappings, node); }
    hide OwnsBlocks, Grows;
    assert ChunksOf(t') == ChunksOf(t) || ChunksOf(t') == ChunksOf(t) + {node};
    assert PageAt(k', t.pgd) == PageAt(k, t.pgd) && PageAt(k', t.stack) == PageAt(k, t.stack) by { SameBase(k, k'); }
    hide PageAt;
    assert RestOf(k', t').large == RestOf(k, t).large;
    assert RestOf(k', t').chunks == RestOf(k, t).chunks;
  }

  lemma SameBase(k: Snapshot, k': Snapshot)
    requires Grows(k, k')
    ensures k'.base == k.base && forall a: nat :: PageAt(k', a) == PageAt(k, a)
  {
  }

  lemma StillOwnsBlocks(k: Snapshot, k': Snapshot, t: TaskView, t': TaskView)
    requires Consistent(k) && Consistent(k') && OwnsBlocks(k, t) && t'.stack == t.stack && t'.pgd == t.pgd
    requires Grows(k, k') && k'.heap.large == k.heap.large
    ensures OwnsBlocks(k', t')
  {
    hide Consistent;
    TableKeys(k);
    assert LiveBlock(k', t.stack, KERNEL_STACK_ORDER);
    StillNoTable(k, k', t.stack, KERNEL_STACK_ORDER);
  }

  ghost predicate InsertedNode(ms: seq<Mapping>, ms': seq<Mapping>, node: nat) {
    exists m :: InsertedMapping(ms, ms', m) && m.node == node
  }

  lemma InsertedNodes(ms: seq<Mapping>, ms': seq<Mapping>, node: nat)
    requires InsertedNode(ms, ms', node) && DistinctNodes(ms)
    ensures NodesOf(ms') == NodesOf(ms) + {node} && (node !in NodesOf(ms) ==> DistinctNodes(ms')) && ms' != ms
  {
    var m :| InsertedMapping(ms, ms', m) && m.node == node;
    var at :| 0 <= at <= |ms| && ms' == ms[..at] + [m] + ms[at..];
    InsertedAt(ms, ms', at, m);
    hide InsertedMapping;
    forall x ensures x in NodesOf(ms') <==> x in NodesOf(ms) || x == node {
    }
    if node !in NodesOf(ms) {
      assert forall i :: 0 <= i < |ms| ==> ms[i].node in NodesOf(ms) && ms[i].node != node;
    }
  }

  lemma InsertedAt(ms: seq<Mapping>, ms': seq<Mapping>, at: nat, m: Mapping)
    requires at <= |ms| && ms' == ms[..at] + [m] + ms[at..]
    ensures |ms'| == |ms| + 1 && forall i :: 0 <= i < |ms'| && i != at ==> ms'[i] == ms[if i < at then i else i - 1]
    ensures ms'[at] == m && forall x :: x in ms' <==> x in ms || x == m
  {
    forall x | x in ms ensures x in ms' {
      var i :| 0 <= i < |ms| && ms[i] == x;
      assert ms'[if i < at then i else i + 1] == x;
    }
  }

  /** The test of the handler: the permission that an access needs. */
  predicate Allows(prot: nat, access: Access) {
    match access
    case Fetch => IsExecutable(prot)
    case Load => IsReadable(prot)
    case Store => IsWritable(prot)
  }

  /** What an event leaves of the task's property, of the rest of memory and of the other address spaces. */
  ghost predicate Keeps(k: Snapshot, t: TaskView, k': Snapshot, t': TaskView) {
    && t' == TaskView(t.addr, t.pgd, t.stack, t'.mappings, t.signals)
    && Owned(k', t') && RestOf(k', t') == RestOf(k, t) && OthersKept(k, k', t.pgd) && Grows(k, k')
  }

  /** The address of the page that contains this one. */
  function PageStartOf(addr: nat): nat {
    addr / 4096 * 4096
  }

  /** It is what the manual asks for, among the permissions of a user's page. */
  lemma AllowsServes(prot: nat, access: Access)
    requires UserProt(prot)
    ensures Allows(prot, access) <==> Serves(prot, access, true)
  {
  }

  /** No mapping has permissions under which the user can access the page at `vaddr`. */
  ghost predicate Refused(ms: seq<Mapping>, vaddr: nat, access: Access) {
    forall m :: m in ms && Contains(m, vaddr) ==> !Serves(m.prot, access, true)
  }

  lemma SamePage(addr: nat)
    ensures PageStartOf(addr) / 4096 == addr / 4096 && PageStartOf(addr) % PTE_MEM_SIZE == 0
  {
  }

  /** The one mapping that contains the address decides. */
  lemma RefusedIff(ms: seq<Mapping>, r: Option<Mapping>, vaddr: nat, access: Access)
    requires Low(ms) && (r == None ==> forall m :: m in ms ==> !Contains(m, vaddr))
    requires r.Some? ==>
      r.value in ms && Contains(r.value, vaddr) && forall m :: m in ms && Contains(m, vaddr) ==> m == r.value
    ensures Refused(ms, vaddr, access) <==> r == None || !Allows(r.value.prot, access)
    ensures r.Some? ==> Serves(r.value.prot, access, true) == Allows(r.value.prot, access)
  {
    hide Contains, Allows, Serves, UserProt;
    if r.Some? { AllowsServes(r.value.prot, access); }
  }

  /** What was asked for when the mapping was made. */
  predicate Asked(userProt: nat, access: Access) {
    match access
    case Fetch => userProt / 4 % 2 == 1
    case Load => userProt % 2 == 1 || userProt / 2 % 2 == 1
    case Store => userProt / 2 % 2 == 1
  }

  /** A mapping made by `_syscall_mmap` decides by what it was asked for. */
  lemma AskedRefused(ms: seq<Mapping>, vaddr: nat, access: Access, m: Mapping, userProt: nat)
    requires WellPlaced(ms) && m in ms && Contains(m, vaddr) && m.prot == MappingProt(userProt)
    ensures Refused(ms, vaddr, access) <==> !Asked(userProt, access)
  {
    OnlyMapping(ms, m, vaddr);
    AskedServes(userProt, access);
    hide Serves, Asked, WellPlaced, Contains, MappingProt;
  }

  lemma OnlyMapping(ms: seq<Mapping>, m: Mapping, vaddr: nat)
    requires WellPlaced(ms) && m in ms && Contains(m, vaddr)
    ensures forall x :: x in ms && Contains(x, vaddr) ==> x == m
  {
    forall x | x in ms && Contains(x, vaddr) ensures x == m {
      var i, j :| 0 <= i < |ms| && ms[i] == x && 0 <= j < |ms| && ms[j] == m;
      ContainsUnique(ms, i, j, vaddr);
    }
  }

  lemma AskedServes(userProt: nat, access: Access)
    ensures Serves(MappingProt(userProt), access, true) <==> Asked(userProt, access)
  {
    MappingProtLeaf(userProt);
    MappingValid(userProt);
    AskedSome(userProt, access);
    hide MappingProt, IsReadable, IsWritable, IsExecutable, IsUser, IsAccessed, IsDirty, IsValid;
  }

  lemma MappingValid(userProt: nat)
    ensures var prot := MappingProt(userProt); IsValid(prot) && IsUser(prot) && IsAccessed(prot) && IsDirty(prot)
  {
  }

  lemma AskedSome(userProt: nat, access: Access)
    ensures Asked(userProt, access) ==> userProt % 8 != 0
  {
  }

  lemma AllAsked(ms: seq<Mapping>, vaddr: nat, access: Access)
    requires WellPlaced(ms)
    ensures forall m, userProt: nat :: m in ms && Contains(m, vaddr) && m.prot == MappingProt(userProt) ==>
      (Refused(ms, vaddr, access) <==> !Asked(userProt, access))
  {
    hide WellPlaced, Contains, Refused, Asked, MappingProt;
    forall m, userProt: nat | m in ms && Contains(m, vaddr) && m.prot == MappingProt(userProt)
      ensures Refused(ms, vaddr, access) <==> !Asked(userProt, access)
    {
      AskedRefused(ms, vaddr, access, m, userProt);
    }
  }

  /** A page fault was handled: under the permissions of mapping `m` the user can access its pages, and the page at
      `vaddr` is page `p` with these bytes. */
  ghost predicate FaultServed(k: Snapshot, k': Snapshot, t: TaskView, ramdisk: nat -> nat, vaddr: nat, access: Access,
      m: Mapping, p: nat, bytes: seq<nat>) {
    && m in t.mappings && Contains(m, vaddr) && Serves(m.prot, access, true)
    && PageOfMapping(ramdisk, m, vaddr - m.vaddr, bytes) && Installed(k, k', t.pgd, vaddr / 4096, p, bytes, m.prot)
  }

  /** `_page_fault_handler`: the task is killed exactly when no mapping allows the access, present or not; otherwise the
      page, which is absent, is installed, and the task owns it. */
  method PageFault(kernel: KernelMemory, task: Task, addr: nat, access: Access)
    returns (killed: bool, ghost m: Mapping, ghost p: nat, ghost bytes: seq<nat>)
    requires kernel.Valid() && Owned(kernel.Now(), View(task)) && task.pgd != 0
    requires !Refused(task.mappings, PageStartOf(addr), access) ==>
      LeafOf(kernel.Now(), task.pgd, addr / 4096) == None && |kernel.vm.pages.free| >= 3
    modifies kernel`contents, kernel.vm`tables, kernel.vm`tree, kernel.vm.pages`free, kernel.vm.pages`live,
        kernel.vm.pages.frameArray, kernel.vm.pages.ordersLists
    ensures kernel.Valid() && Keeps(old(kernel.Now()), View(task), kernel.Now(), View(task))
    ensures killed <==> Refused(task.mappings, PageStartOf(addr), access)
    ensures forall mapping, userProt: nat ::
      mapping in task.mappings && Contains(mapping, PageStartOf(addr)) && mapping.prot == MappingProt(userProt) ==>
        (killed <==> !Asked(userProt, access))
    ensures !killed ==>
      LeafOf(kernel.Now(), task.pgd, addr / 4096).Some? &&
        Serves(LeafOf(kernel.Now(), task.pgd, addr / 4096).value.prot, access, true)
    ensures killed ==> kernel.Now() == old(kernel.Now())
    ensures !killed ==>
      FaultServed(old(kernel.Now()), kernel.Now(), View(task), kernel.ramdisk, PageStartOf(addr), access, m, p, bytes)
  {
    hide kernel.Valid, Owned, RestOf, AddressSpace, WellPlaced, Low, Installed, OthersKept, Consistent, Grows;
    hide OutsidePages, Contains, Allows, LeafOf, PageOfMapping, Refused, Serves, Asked, MappingProt;
    ghost var k, t := kernel.Now(), View(task);
    p, bytes := 0, [];
    kernel.ValidConsistent();
    SpaceParts(k, t);
    var vaddr := PageStartOf(addr);
    var mapping := task.FindMapping(vaddr);
    RefusedIff(task.mappings, mapping, vaddr, access);
    AllAsked(task.mappings, vaddr, access);
    m := if mapping == None then Mapping(0, 0, 0, 0, Anon, 0, 0) else mapping.value;
    if mapping == None || !Allows(mapping.value.prot, access) {
      NothingChanged(k, task.pgd);
      killed := true;
      return;
    }
    SamePage(addr);
    killed := false;
    p, bytes := InstallPage(kernel, task, mapping.value, vaddr);
    kernel.ValidConsistent();
    InstalledFacts(k, kernel.Now(), t, vaddr / 4096, p, bytes, mapping.value.prot, task.mappings, mapping.value, vaddr);
    StillOwned(k, kernel.Now(), t, t, 0);
  }

  lemma SpaceParts(k: Snapshot, t: TaskView)
    requires Owned(k, t) && t.pgd != 0
    ensures WellPlaced(t.mappings) && Low(t.mappings) && AddressSpace(k, t.pgd, t.mappings)
  {
    hide WellPlaced, Low, AddressSpace, OwnsChunks, OwnsBlocks;
  }

  lemma InstalledFacts(k: Snapshot, k': Snapshot, t: TaskView, n: nat, p: nat, bytes: seq<nat>, prot: nat,
      ms: seq<Mapping>, m: Mapping, vaddr: nat)
    requires Installed(k, k', t.pgd, n, p, bytes, prot) && WellPlaced(ms) && Low(ms) && m in ms && Contains(m, vaddr)
    requires vaddr % PTE_MEM_SIZE == 0 && n == vaddr / 4096
    ensures Grows(k, k') && HasData(k', t.pgd, n) && k'.heap == k.heap
    ensures LeafOf(k', t.pgd, n).Some? && LeafOf(k', t.pgd, n).value.prot == prot
  {
    hide LeafOf, DataPage, OthersSame, UserRoot, Grows, WellPlaced, Low;
    PageOfMappingPlace(ms, m, vaddr);
  }

  // What the user sees.

  /** The byte at an address of the user, if its page is present. */
  ghost function ByteAt(k: Snapshot, root: nat, addr: nat): Option<nat> {
    var n := addr / 4096;
    if HasData(k, root, n) && DataAt(k, root, n) in k.contents && |k.contents[DataAt(k, root, n)]| == PTE_MEM_SIZE then
      Some(k.contents[DataAt(k, root, n)][addr % PTE_MEM_SIZE])
    else None
  }

  /** After a page fault the user sees the bytes of the file where the mapping has any, and zeros elsewhere. */
  lemma ServedBytes(k: Snapshot, k': Snapshot, t: TaskView, ramdisk: nat -> nat, addr: nat, access: Access, m: Mapping,
      p: nat, bytes: seq<nat>, a: nat)
    requires FaultServed(k, k', t, ramdisk, PageStartOf(addr), access, m, p, bytes) && WellPlaced(t.mappings)
    requires Low(t.mappings) && a / 4096 == addr / 4096
    ensures ByteAt(k', t.pgd, a) ==
      Some(if m.backer == File && a - m.vaddr < m.fileSize then ramdisk(m.fileData + (a - m.vaddr)) else 0)
  {
    var vaddr := PageStartOf(addr);
    SamePage(addr);
    InstalledFacts(k, k', t, vaddr / 4096, p, bytes, m.prot, t.mappings, m, vaddr);
    FilledWith(k, k', t.pgd, vaddr / 4096, p, bytes, m.prot);
    hide Installed, WellPlaced, Low, HasData, DataAt, LeafOf, Serves;
    assert a == vaddr + a % PTE_MEM_SIZE by { InPage(addr, a); }
  }

  lemma InPage(addr: nat, a: nat)
    requires a / 4096 == addr / 4096
    ensures a == PageStartOf(addr) + a % PTE_MEM_SIZE
  {
  }

  lemma FilledWith(k: Snapshot, k': Snapshot, root: nat, n: nat, p: nat, bytes: seq<nat>, prot: nat)
    requires Installed(k, k', root, n, p, bytes, prot)
    ensures DataAt(k', root, n) == p && p in k'.contents && k'.contents[p] == bytes
  {
    hide LeafOf, DataPage, OthersSame, UserRoot, Grows;
  }

  /** The child of a fork sees what its parent sees. */
  lemma ForkedBytes(k0: Snapshot, k: Snapshot, src: nat, dst: nat, a: nat)
    requires Forked(k0, k, src, dst) && a < 4096 * USER_PAGES && a / 4096 != TRAMPOLINE_PAGE
    ensures ByteAt(k, dst, a) == ByteAt(k0, src, a)
  {
    hide LeafOf, DataAt;
    assert a / 4096 < USER_PAGES;
  }

  /**
   A page of a copied mapping that comes after the fork: parent and child see the same byte there if and only if it is
   not in a file, or the file has it, or what memory has behind the file is zero. The copy takes the aligned size for
   the size of its file.
   */
  lemma ForkedFault(k0: Snapshot, k0': Snapshot, parent: TaskView, k1: Snapshot, k1': Snapshot, child: TaskView,
      ramdisk: nat -> nat, addr: nat, access: Access, i: nat, p: nat, bytes: seq<nat>, q: nat, more: seq<nat>, a: nat)
    requires MappingCopies(parent.mappings, child.mappings) && i < |child.mappings| && a / 4096 == addr / 4096
    requires WellPlaced(parent.mappings) && Low(parent.mappings) && WellPlaced(child.mappings) && Low(child.mappings)
    requires FaultServed(k0, k0', parent, ramdisk, PageStartOf(addr), access, parent.mappings[i], p, bytes)
    requires FaultServed(k1, k1', child, ramdisk, PageStartOf(addr), access, child.mappings[i], q, more)
    ensures var m := parent.mappings[i];
      ByteAt(k1', child.pgd, a) == ByteAt(k0', parent.pgd, a) <==>
        m.backer != File || a - m.vaddr < m.fileSize || ramdisk(m.fileData + (a - m.vaddr)) == 0
  {
    hide FaultServed, MappingCopies, WellPlaced, Low, ByteAt, PageStartOf;
    CopyAt(parent.mappings, child.mappings, i);
    var m, c := parent.mappings[i], child.mappings[i];
    ServedBytes(k0, k0', parent, ramdisk, addr, access, m, p, bytes, a);
    ServedBytes(k1, k1', child, ramdisk, addr, access, c, q, more, a);
    ServedInside(k0, k0', parent, ramdisk, addr, access, i, p, bytes, a);
  }

  lemma CopyAt(ms: seq<Mapping>, cs: seq<Mapping>, i: nat)
    requires MappingCopies(ms, cs) && i < |cs|
    ensures i < |ms| && MappingCopy(ms[i], cs[i])
  {
  }

  lemma ServedInside(k: Snapshot, k': Snapshot, t: TaskView, ramdisk: nat -> nat, addr: nat, access: Access, i: nat,
      p: nat, bytes: seq<nat>, a: nat)
    requires i < |t.mappings| && FaultServed(k, k', t, ramdisk, PageStartOf(addr), access, t.mappings[i], p, bytes)
    requires WellPlaced(t.mappings) && a / 4096 == addr / 4096
    ensures Contains(t.mappings[i], a)
  {
    hide Installed, PageOfMapping, Serves, WellPlaced;
    SamePage(addr);
    WithMapping(t.mappings, i, PageStartOf(addr), a);
  }

  /** A mapping has the whole page of each of its addresses. */
  lemma WithMapping(ms: seq<Mapping>, i: nat, vaddr: nat, a: nat)
    requires WellPlaced(ms) && i < |ms| && Contains(ms[i], vaddr) && vaddr % PTE_MEM_SIZE == 0
    requires a / 4096 == vaddr / 4096
    ensures Contains(ms[i], a)
  {
    hide Fits;
    assert ms[i].vaddr % PTE_MEM_SIZE == 0 && ms[i].size % PTE_MEM_SIZE == 0;
  }

  /** So a child sees what lies behind a file of one byte, where its parent sees zeros. */
  lemma PastTheFile(k0: Snapshot, k0': Snapshot, parent: TaskView, k1: Snapshot, k1': Snapshot, child: TaskView,
      ramdisk: nat -> nat, access: Access, p: nat, bytes: seq<nat>, q: nat, more: seq<nat>)
    requires MappingCopies(parent.mappings, child.mappings) && |child.mappings| > 0
    requires WellPlaced(parent.mappings) && Low(parent.mappings) && WellPlaced(child.mappings) && Low(child.mappings)
    requires var m := parent.mappings[0]; m.vaddr == 0x1_0000 && m.backer == File && m.fileSize == 1
    requires ramdisk(parent.mappings[0].fileData + 1) == 7
    requires FaultServed(k0, k0', parent, ramdisk, 0x1_0000, access, parent.mappings[0], p, bytes)
    requires FaultServed(k1, k1', child, ramdisk, 0x1_0000, access, child.mappings[0], q, more)
    ensures ByteAt(k0', parent.pgd, 0x1_0001) == Some(0) && ByteAt(k1', child.pgd, 0x1_0001) == Some(7)
  {
    hide FaultServed, MappingCopies, WellPlaced, Low, ByteAt;
    CopyAt(parent.mappings, child.mappings, 0);
    var m, c := parent.mappings[0], child.mappings[0];
    assert PageStartOf(0x1_0000) == 0x1_0000;
    ServedBytes(k0, k0', parent, ramdisk, 0x1_0000, access, m, p, bytes, 0x1_0001);
    ServedBytes(k1, k1', child, ramdisk, 0x1_0000, access, c, q, more, 0x1_0001);
    ServedInside(k0, k0', parent, ramdisk, 0x1_0000, access, 0, p, bytes, 0x1_0001);
  }

  /** A user sees the same as long as nothing happens to its address space. */
  lemma KeptBytes(k: Snapshot, k': Snapshot, root: nat, ms: seq<Mapping>, a: nat)
    requires AddressSpace(k, root, ms) && SameSpace(k, k', root)
    ensures ByteAt(k', root, a) == ByteAt(k, root, a)
  {
    PresentFilled(k, root, ms, a / 4096);
    hide LeafOf, DataAt, AddressSpace;
  }

  lemma PresentFilled(k: Snapshot, root: nat, ms: seq<Mapping>, n: nat)
    requires AddressSpace(k, root, ms)
    ensures HasData(k, root, n) ==> DataAt(k, root, n) in k.contents
  {
    hide LeafOf, DataAt, UserRoot, DataPage, InMapping, NotShared;
    if n < USER_PAGES { assert PageFine(k, root, ms, n); }
  }

  /** A request whose size does not wrap, that asks for some access, and whose place is in the lower half. */
  ghost predicate GoodRequest(ms: seq<Mapping>, vaddr: nat, size: nat, userProt: nat) {
    && size <= WORD - PTE_MEM_SIZE && userProt % 8 != 0
    && forall a: nat :: LowestPage(ms, RequestedFrom(vaddr), AlignToPte(size), a) ==>
      a + AlignToPte(size) <= 4096 * USER_PAGES
  }

  /** The guard of `_syscall_mmap` lets through requests for no access that the page tables know. */
  lemma GuardTooWeak()
    ensures 8 > 0 && !LeafProt(MappingProt(8))
  {
    MappingProtLeaf(8);
  }

  /** `_syscall_mmap` refuses the request. */
  ghost predicate MapRefused(ms: seq<Mapping>, vaddr: nat, size: nat, userProt: nat, flags: nat) {
    || size == 0 || userProt == 0 || (flags % 2 == 1 && flags / 0x20 % 2 == 1)
    || NoPage(ms, RequestedFrom(vaddr), AlignToPte(size))
  }

  /** A request for the first page above the lower half is not refused: its place is that page, which the walk takes
      for the first of the kernel's entries. */
  lemma UpperHalfPlaced()
    ensures var vaddr := 4096 * USER_PAGES;
      && !MapRefused([], vaddr, 4096, 1, MAP_ANONYMOUS) && RequestPlaced([], vaddr, AlignToPte(4096), vaddr)
      && !GoodRequest([], vaddr, 4096, 1) && Index(Vpn(vaddr), 2) == USER_ENTRIES
  {
    var vaddr := 4096 * USER_PAGES;
    assert AlignToPte(4096) == 4096;
    assert LowestPage([], RequestedFrom(vaddr), 4096, vaddr);
    assert Fits([], 4096, vaddr);
    VpnIndex(vaddr, 2);
    assert LevelPages(1) == 512 && LevelPages(2) == 512 * 512;
  }

  /** The request was served by mapping `m`: it is where the request is to be placed, in the list at its place, and its
      pages are present if they were asked for; no other page of the task changed. */
  ghost predicate MapServed(k: Snapshot, t: TaskView, k': Snapshot, t': TaskView, ramdisk: nat -> nat,
                            vaddr: nat, size: nat, userProt: nat, flags: nat, m: Mapping) {
    && NewMapping(vaddr, size, MappingProt(userProt), flags, 0, m)
    && RequestPlaced(t.mappings, vaddr, AlignToPte(size), m.vaddr)
    && InsertedMapping(t.mappings, t'.mappings, m)
    && Populated(k, k', t.pgd, m, ramdisk, if flags / 0x8000 % 2 == 1 then AlignToPte(size) / 4096 else 0)
    && Grows(k, k')
  }

  /** `_syscall_mmap`: the address of the new mapping, or `(uint64_t)-1`. The task's property is in order afterwards
      exactly if the request was refused or is a good one; nothing in the code sees to that. */
  method Mmap(kernel: KernelMemory, task: Task, vaddr: nat, size: nat, userProt: nat, flags: nat)
    returns (r: nat, ghost m: Mapping)
    requires kernel.Valid() && Owned(kernel.Now(), View(task)) && task.pgd != 0 && kernel.vm.pages.free != {}
    requires vaddr < WORD && size < WORD
    requires size > 0 && userProt > 0 && HasFlag(flags, MAP_POPULATE) ==>
      CanPopulate(kernel.Now(), task.pgd, task.mappings, vaddr, size, MappingProt(userProt))
    modifies task`mappings, kernel`contents, kernel.vm`tables, kernel.vm`tree, kernel.heap, kernel.vm.pages`free,
        kernel.vm.pages`live, kernel.vm.pages.frameArray, kernel.vm.pages.ordersLists, kernel.heap.pools
    ensures kernel.Valid()
    ensures r == NO_VADDR <==> MapRefused(old(task.mappings), vaddr, size, userProt, flags)
    ensures r == NO_VADDR ==> task.mappings == old(task.mappings) && kernel.Now() == old(kernel.Now())
    ensures r != NO_VADDR ==>
      && r == m.vaddr
      && MapServed(old(kernel.Now()), old(View(task)), kernel.Now(), View(task), kernel.ramdisk, vaddr, size, userProt,
          flags, m)
    ensures Owned(kernel.Now(), View(task)) <==>
      MapRefused(old(task.mappings), vaddr, size, userProt, flags) ||
        GoodRequest(old(task.mappings), vaddr, size, userProt)
    ensures Owned(kernel.Now(), View(task)) ==> Keeps(old(kernel.Now()), old(View(task)), kernel.Now(), View(task))
  {
    hide kernel.Valid, Owned, RestOf, AddressSpace, WellPlaced, Low, OthersKept, Consistent, Grows, OutsidePages;
    hide InsertedMapping, Populated, CanPopulate, LeafProt, UserProt, LeafOf, AlignToPte, Wanted, GoodRequest;
    hide NoPage, RequestedFrom, RequestPlaced, NewMapping;
    ghost var k, t := kernel.Now(), View(task);
    m := Mapping(0, 0, 0, 0, Anon, 0, 0);
    r := NO_VADDR;
    kernel.ValidConsistent();
    SpaceParts(k, t);
    NothingChanged(k, task.pgd);
    if size == 0 || userProt == 0 {
      return;
    }
    MappingProtLeaf(userProt);
    var mapping := AddMapping(kernel, task, vaddr, size, MappingProt(userProt), flags, 0);
    if mapping == None {
      return;
    }
    m := mapping.value;
    MappingSize(vaddr, size, MappingProt(userProt), flags, m);
    kernel.ValidConsistent();
    r := mapping.value.vaddr;
    InsertedParts(t.mappings, task.mappings, m);
    RequestGood(t.mappings, vaddr, size, userProt, m);
    if GoodRequest(t.mappings, vaddr, size, userProt) {
      InsertedLow(t.mappings, task.mappings, m);
      StillOwned(k, kernel.Now(), t, View(task), m.node);
    } else {
      NotOwned(kernel.Now(), View(task), m, size);
    }
  }

  /** Where the request was placed decides. */
  lemma RequestGood(ms: seq<Mapping>, vaddr: nat, size: nat, userProt: nat, m: Mapping)
    requires RequestPlaced(ms, vaddr, AlignToPte(size), m.vaddr) && m.size == AlignToPte(size)
    ensures GoodRequest(ms, vaddr, size, userProt) <==>
      size <= WORD - PTE_MEM_SIZE && userProt % 8 != 0 && m.vaddr + m.size <= 4096 * USER_PAGES
  {
    hide AlignToPte, Fits, RequestedFrom;
    assert LowestPage(ms, RequestedFrom(vaddr), AlignToPte(size), m.vaddr);
  }

  /** A task does not own a mapping outside the lower half or one without access. */
  lemma NotOwned(k: Snapshot, t: TaskView, m: Mapping, size: nat)
    requires m in t.mappings && (WellPlaced(t.mappings) ==> size <= WORD - PTE_MEM_SIZE)
    requires size > WORD - PTE_MEM_SIZE || !UserProt(m.prot) || m.vaddr + m.size > 4096 * USER_PAGES
    ensures !Owned(k, t)
  {
    hide WellPlaced, OwnsChunks, OwnsBlocks, AddressSpace, LeafProt, UserProt;
  }

  lemma MappingSize(vaddr: nat, size: nat, prot: nat, flags: nat, m: Mapping)
    requires NewMapping(vaddr, size, prot, flags, 0, m)
    ensures m.size == AlignToPte(size) && m.prot == prot
  {
    hide AlignToPte;
  }

  lemma InsertedParts(ms: seq<Mapping>, ms': seq<Mapping>, m: Mapping)
    requires InsertedMapping(ms, ms', m)
    ensures InsertedNode(ms, ms', m.node) && ms' != ms && m in ms'
  {
    var at :| 0 <= at <= |ms| && ms' == ms[..at] + [m] + ms[at..];
    assert ms'[at] == m;
  }

  /** Every address space is as it was. */
  ghost predicate AllSpacesKept(k: Snapshot, k': Snapshot) {
    forall r, ms :: AddressSpace(k, r, ms) ==> AddressSpace(k', r, ms) && SameSpace(k, k', r)
  }

  // From the fork of a task to its end.

  /** What a task does to its memory between its creation and its end. */
  datatype Event = Fault(addr: nat, access: Access) | Map(vaddr: nat, size: nat, userProt: nat, flags: nat)

  /** The event was handled as `PageFault` and `Mmap` promise. */
  ghost predicate Handled(e: Event, k: Snapshot, t: TaskView, k': Snapshot, t': TaskView, ramdisk: nat -> nat) {
    && Keeps(k, t, k', t')
    && match e
       case Fault(addr, access) =>
         var vaddr := PageStartOf(addr);
         && t' == t
         && if Refused(t.mappings, vaddr, access) then k' == k
            else exists m, p, bytes :: FaultServed(k, k', t, ramdisk, vaddr, access, m, p, bytes)
       case Map(vaddr, size, userProt, flags) =>
         if MapRefused(t.mappings, vaddr, size, userProt, flags) then k' == k && t' == t
         else exists m :: MapServed(k, t, k', t', ramdisk, vaddr, size, userProt, flags, m)
  }

  /** A run of the task: the states of the kernel and of the task before and after each event. */
  ghost predicate TaskRun(events: seq<Event>, ks: seq<Snapshot>, ts: seq<TaskView>, ramdisk: nat -> nat) {
    && |ks| == |ts| == |events| + 1
    && (forall i :: 0 <= i < |ks| ==> Consistent(ks[i]))
    && forall i :: 0 <= i < |events| ==> Handled(events[i], ks[i], ts[i], ks[i + 1], ts[i + 1], ramdisk)
  }

  /** Throughout a run the task owns what it owns, all else is as at the start, and so are all other address spaces. */
  ghost predicate StaysApart(k: Snapshot, t: TaskView, k': Snapshot, t': TaskView) {
    && t'.pgd == t.pgd && t'.stack == t.stack && Owned(k', t') && RestOf(k', t') == RestOf(k, t)
    && forall r, ms :: r != t.pgd && AddressSpace(k, r, ms) && DataPages(k, r) !! DataPages(k, t.pgd) ==>
         AddressSpace(k', r, ms) && SameSpace(k, k', r) && DataPages(k', r) !! DataPages(k', t.pgd)
  }

  lemma {:induction false} RunStaysApart(events: seq<Event>, ks: seq<Snapshot>, ts: seq<TaskView>, ramdisk: nat -> nat,
      i: nat)
    requires TaskRun(events, ks, ts, ramdisk) && i < |ks| && Owned(ks[0], ts[0]) && ts[0].pgd != 0
    ensures StaysApart(ks[0], ts[0], ks[i], ts[i])
  {
    hide Owned, RestOf, Consistent, StaysApart, Handled;
    if i == 0 {
      ApartAtStart(ks[0], ts[0]);
    } else {
      RunStaysApart(events, ks, ts, ramdisk, i - 1);
      assert Handled(events[i - 1], ks[i - 1], ts[i - 1], ks[i - 1 + 1], ts[i - 1 + 1], ramdisk);
      HandledKeeps(events[i - 1], ks[i - 1], ts[i - 1], ks[i], ts[i], ramdisk);
      ApartStep(ks[0], ts[0], ks[i - 1], ts[i - 1], ks[i], ts[i]);
    }
  }

  lemma HandledKeeps(e: Event, k: Snapshot, t: TaskView, k': Snapshot, t': TaskView, ramdisk: nat -> nat)
    requires Handled(e, k, t, k', t', ramdisk)
    ensures Keeps(k, t, k', t')
  {
    hide Keeps;
  }

  lemma ApartAtStart(k: Snapshot, t: TaskView)
    requires Owned(k, t)
    ensures StaysApart(k, t, k, t)
  {
    hide Owned, RestOf, AddressSpace, DataPages;
  }

  lemma ApartStep(k0: Snapshot, t0: TaskView, k: Snapshot, t: TaskView, k': Snapshot, t': TaskView)
    requires StaysApart(k0, t0, k, t) && Keeps(k, t, k', t') && t0.pgd != 0 && Consistent(k) && Consistent(k')
    ensures StaysApart(k0, t0, k', t')
  {
    hide Owned, RestOf, AddressSpace, DataPages, SameSpace, Consistent;
    forall r, ms | r != t0.pgd && AddressSpace(k0, r, ms) && DataPages(k0, r) !! DataPages(k0, t0.pgd)
      ensures AddressSpace(k', r, ms) && SameSpace(k0, k', r) && DataPages(k', r) !! DataPages(k', t0.pgd)
    {
      SameSpaceTwice(k0, k, k', r);
      StillDisjoint(k, t, k', t', r, ms);
    }
  }

  /** A task's new pages are not those of another address space. */
  lemma StillDisjoint(k: Snapshot, t: TaskView, k': Snapshot, t': TaskView, r: nat, ms: seq<Mapping>)
    requires Consistent(k) && Owned(k, t) && t.pgd != 0 && t'.pgd == t.pgd && t'.stack == t.stack
    requires RestOf(k', t') == RestOf(k, t)
    requires r != t.pgd && AddressSpace(k, r, ms) && SameSpace(k, k', r) && DataPages(k, r) !! DataPages(k, t.pgd)
    ensures DataPages(k', r) !! DataPages(k', t.pgd)
  {
    hide Owned, AddressSpace, Consistent, LeafOf;
    forall q | q in DataPages(k', r) ensures q !in DataPages(k', t.pgd) {
      var n: nat :| n < USER_PAGES && HasData(k', r, n) && DataAt(k', r, n) == q;
      assert HasData(k, r, n) && DataAt(k, r, n) == q;
      OtherInRest(k, t, r, ms, n);
      assert q in RestOf(k', t').pages;
    }
  }

  /** A data page of another address space belongs to the rest. */
  lemma OtherInRest(k: Snapshot, t: TaskView, r: nat, ms: seq<Mapping>, n: nat)
    requires Consistent(k) && Owned(k, t) && t.pgd != 0
    requires AddressSpace(k, r, ms) && HasData(k, r, n) && DataPages(k, r) !! DataPages(k, t.pgd)
    ensures DataAt(k, r, n) in RestOf(k, t).pages
  {
    hide AddressSpace, LeafOf, OwnsChunks, WellPlaced, Low, TablePages, Consistent;
    var q := DataAt(k, r, n);
    DataPagesLive(k, r, ms);
    assert q in DataPages(k, r);
    TablesNotData(k, t.pgd, q);
  }

  /**
   Fork, any run of faults and mappings, and the end of the new task: all that is live is what was live before the
   fork, and every other address space has its pages and their contents.
   */
  lemma ForkRunExit(k0: Snapshot, events: seq<Event>, ks: seq<Snapshot>, ts: seq<TaskView>, ramdisk: nat -> nat,
      end: Snapshot)
    requires TaskRun(events, ks, ts, ramdisk) && Owned(ks[0], ts[0]) && ts[0].pgd != 0
    requires RestOf(ks[0], ts[0]) == Everything(k0) && SpacesKept(k0, ks[0], ts[0].pgd)
    requires Everything(end) == RestOf(ks[|events|], ts[|events|]) && OthersSurvive(ks[|events|], end, ts[|events|].pgd)
    ensures Everything(end) == Everything(k0) && AllSpacesKept(k0, end)
  {
    hide TaskRun, Owned, RestOf, Everything, AddressSpace, SameSpace, DataPages, Consistent;
    var n := |events|;
    assert |ks| == |ts| == n + 1 by { RunLengths(events, ks, ts, ramdisk); }
    RunStaysApart(events, ks, ts, ramdisk, n);
    forall r, ms | AddressSpace(k0, r, ms) ensures AddressSpace(end, r, ms) && SameSpace(k0, end, r) {
      SameSpaceTwice(k0, ks[0], ks[n], r);
      SameSpaceTwice(k0, ks[n], end, r);
    }
  }

  lemma RunLengths(events: seq<Event>, ks: seq<Snapshot>, ts: seq<TaskView>, ramdisk: nat -> nat)
    requires TaskRun(events, ks, ts, ramdisk)
    ensures |ks| == |ts| == |events| + 1
  {
  }

  /** The shortest run: fork, and the end of the new task. */
  method ForkAndExit(kernel: KernelMemory, source: Task, pid: nat)
    requires kernel.Valid() && Owned(kernel.Now(), View(source)) && source.pgd != 0
    requires EnoughFor(kernel.Now(), View(source))
    modifies kernel`contents, kernel.vm`tables, kernel.vm`tree, kernel.heap, kernel.vm.pages`free, kernel.vm.pages`live,
        kernel.vm.pages`pending, kernel.vm.pages.frameArray, kernel.vm.pages.ordersLists, kernel.heap.pools
    ensures kernel.Valid() && Everything(kernel.Now()) == Everything(old(kernel.Now()))
    ensures AllSpacesKept(old(kernel.Now()), kernel.Now())
  {
    hide kernel.Valid, Owned, RestOf, Everything, Forked, SameSpace, MappingCopies, SignalCopies, SpacesKept;
    hide OthersSurvive, AllSpacesKept, Consistent;
    ghost var k := kernel.Now();
    var child := CopyTask(kernel, source, pid);
    ghost var k1, t := kernel.Now(), View(child);
    kernel.ValidConsistent();
    FreeTask(kernel, child);
    ForkRunExit(k, [], [k1], [t], kernel.ramdisk, kernel.Now());
  }
}
