/** The mappings of a task: where a new one is placed, how the list is kept, and how it is searched. */
module TaskMappings {
  import opened Bits
  import opened Sv39

  const PTE_MEM_SIZE: nat := 4096
  const SIGNAL_TRAMPOLINE_VADDR: nat := 0x1000
  const USER_CODE_VADDR: nat := 0x1_0000

  /** `(uint64_t)-1` */
  const NO_VADDR: nat := WORD - 1

  const PROT_READ: nat := 1
  const PROT_WRITE: nat := 2
  const PROT_EXEC: nat := 4

  datatype Backer = Anon | File

  /** `node` is the address of the `struct mapping`. */
  datatype Mapping = Mapping(node: nat, vaddr: nat, size: nat, prot: nat, backer: Backer, fileData: nat, fileSize: nat)

  datatype Signal = Signal(node: nat, signum: nat, handler: nat, isPending: bool)

  /** `align_to_pte`: the sum wraps. */
  function AlignToPte(addr: nat): nat {
    (addr + PTE_MEM_SIZE - 1) % WORD / PTE_MEM_SIZE * PTE_MEM_SIZE
  }

  /** The aligned size holds the size asked for, and something at all, exactly for sizes that do not wrap. */
  lemma AlignedSize(size: nat)
    requires size < WORD
    ensures AlignToPte(size) % PTE_MEM_SIZE == 0 && AlignToPte(size) < WORD
    ensures AlignToPte(size) >= size <==> size <= WORD - PTE_MEM_SIZE
    ensures AlignToPte(size) < size + PTE_MEM_SIZE
    ensures AlignToPte(size) > 0 <==> 0 < size <= WORD - PTE_MEM_SIZE
  {
    if size > WORD - PTE_MEM_SIZE {
      assert (size + PTE_MEM_SIZE - 1) % WORD == size + PTE_MEM_SIZE - 1 - WORD;
    }
  }

  /** A size for which the request succeeds with an empty mapping. */
  lemma AlignedSizeWraps()
    ensures AlignToPte(WORD - 4095) == 0
  {
  }

  /** `flags & flag` for a flag of one bit. */
  predicate HasFlag(flags: nat, flag: nat)
    requires flag > 0
  {
    flags / flag % 2 == 1
  }

  /** `get_mapping_prot` */
  function MappingProt(userProt: nat): nat {
    PTE_VALID + PTE_USER + PTE_ACCESSED + PTE_DIRTY
    + (if HasFlag(userProt, PROT_READ) || HasFlag(userProt, PROT_WRITE) then PTE_READ else 0)
    + (if HasFlag(userProt, PROT_WRITE) then PTE_WRITE else 0)
    + (if HasFlag(userProt, PROT_EXEC) then PTE_EXECUTE else 0)
  }

  /** The permissions are those of a leaf exactly when some access is asked for; a page that can be written can be
      read. */
  lemma MappingProtLeaf(userProt: nat)
    ensures LeafProt(MappingProt(userProt)) <==> userProt % 8 != 0
    ensures UserProt(MappingProt(userProt)) <==> userProt % 8 != 0
    ensures IsWritable(MappingProt(userProt)) <==> userProt / 2 % 2 == 1
    ensures IsExecutable(MappingProt(userProt)) <==> userProt / 4 % 2 == 1
    ensures IsReadable(MappingProt(userProt)) <==> userProt % 2 == 1 || userProt / 2 % 2 == 1
    ensures MappingProt(userProt) / 16 % 2 == 1
  {
    LowThreeBits(userProt);
    ProtBits(userProt % 2 == 1 || userProt / 2 % 2 == 1, userProt / 2 % 2 == 1, userProt / 4 % 2 == 1);
    hide LeafProt, IsWritable, IsReadable, IsExecutable;
  }

  lemma LowThreeBits(u: nat)
    ensures u % 8 == u % 2 + 2 * (u / 2 % 2) + 4 * (u / 4 % 2)
  {
    var q, r := u / 2, u / 4;
    assert u == 2 * q + u % 2 && q == 2 * r + q % 2 && r == q / 2;
    var h := u / 8;
    assert h == r / 2 && r == 2 * h + r % 2;
  }

  lemma ProtBits(r: bool, w: bool, x: bool)
    requires w ==> r
    ensures var prot := PTE_VALID + PTE_USER + PTE_ACCESSED + PTE_DIRTY + (if r then PTE_READ else 0) +
      (if w then PTE_WRITE else 0) + (if x then PTE_EXECUTE else 0);
      && (LeafProt(prot) <==> r || w || x) && (UserProt(prot) <==> r || w || x)
      && (IsWritable(prot) <==> w) && (IsExecutable(prot) <==> x)
      && (IsReadable(prot) <==> r)
      && prot / 16 % 2 == 1
  {
  }

  predicate Contains(m: Mapping, vaddr: nat) {
    m.vaddr <= vaddr < m.vaddr + m.size
  }

  /** The `size` bytes at `a` end below the kernel, and miss the trampoline page and every mapping. */
  ghost predicate Fits(ms: seq<Mapping>, size: nat, a: nat) {
    && a + size <= KERNEL_VIRTUAL_BASE
    && (a + size <= SIGNAL_TRAMPOLINE_VADDR || SIGNAL_TRAMPOLINE_VADDR + PTE_MEM_SIZE <= a)
    && forall i :: 0 <= i < |ms| ==> a + size <= ms[i].vaddr || ms[i].vaddr + ms[i].size <= a
  }

  /** The lowest place at or above `want`. */
  ghost predicate LowestFit(ms: seq<Mapping>, want: nat, size: nat, a: nat) {
    want <= a && Fits(ms, size, a) && forall b :: want <= b && Fits(ms, size, b) ==> a <= b
  }

  ghost predicate Pages(ms: seq<Mapping>) {
    forall i :: 0 <= i < |ms| ==>
      ms[i].vaddr % PTE_MEM_SIZE == 0 && ms[i].vaddr > 0 && ms[i].size % PTE_MEM_SIZE == 0 && ms[i].size > 0
  }

  ghost predicate Sorted(ms: seq<Mapping>) {
    forall i, j :: 0 <= i < j < |ms| ==> ms[i].vaddr + ms[i].size <= ms[j].vaddr
  }

  /** Whole pages, sorted, disjoint, below the kernel and clear of the trampoline page. */
  ghost predicate WellPlaced(ms: seq<Mapping>) {
    Pages(ms) && Sorted(ms) && forall i :: 0 <= i < |ms| ==> Fits([], ms[i].size, ms[i].vaddr)
  }

  /** The address that the search starts from. */
  function Wanted(vaddr: nat): nat {
    if vaddr == 0 then USER_CODE_VADDR else vaddr
  }

  /** Where a request is to be looked for: from its address on, or from the default one if there is none or it wraps. */
  function RequestedFrom(vaddr: nat): nat {
    if 0 < vaddr <= WORD - PTE_MEM_SIZE then vaddr else USER_CODE_VADDR
  }

  /** The lowest whole page at or above `from` where `size` bytes fit. */
  ghost predicate LowestPage(ms: seq<Mapping>, from: nat, size: nat, a: nat) {
    && a % PTE_MEM_SIZE == 0 && from <= a && Fits(ms, size, a)
    && forall b :: b % PTE_MEM_SIZE == 0 && from <= b && Fits(ms, size, b) ==> a <= b
  }

  /** `a` is the place for a request at `vaddr`. It is at or above the request exactly if that does not wrap. */
  ghost predicate RequestPlaced(ms: seq<Mapping>, vaddr: nat, size: nat, a: nat) {
    LowestPage(ms, RequestedFrom(vaddr), size, a) && (vaddr > 0 ==> (vaddr <= a <==> vaddr <= WORD - PTE_MEM_SIZE))
  }

  /** No whole page at or above `from` will do. */
  ghost predicate NoPage(ms: seq<Mapping>, from: nat, size: nat) {
    forall a :: a % PTE_MEM_SIZE == 0 && from <= a ==> !Fits(ms, size, a)
  }

  /** Among whole pages, what fits at an address fits at the start of its page. */
  lemma FitsFromPageStart(ms: seq<Mapping>, size: nat, a: nat)
    requires Pages(ms) && size % PTE_MEM_SIZE == 0 && Fits(ms, size, a)
    ensures Fits(ms, size, a / PTE_MEM_SIZE * PTE_MEM_SIZE)
  {
    hide Fits;
    PageStart(SIGNAL_TRAMPOLINE_VADDR + PTE_MEM_SIZE, a);
    forall i | 0 <= i < |ms| && ms[i].vaddr + ms[i].size <= a
      ensures ms[i].vaddr + ms[i].size <= a / PTE_MEM_SIZE * PTE_MEM_SIZE
    {
      PageStart(ms[i].vaddr + ms[i].size, a);
    }
    FitsBelow(ms, size, a, a / PTE_MEM_SIZE * PTE_MEM_SIZE);
  }

  lemma FitsBelow(ms: seq<Mapping>, size: nat, a: nat, b: nat)
    requires Fits(ms, size, a) && b <= a
    requires SIGNAL_TRAMPOLINE_VADDR + PTE_MEM_SIZE <= a ==> SIGNAL_TRAMPOLINE_VADDR + PTE_MEM_SIZE <= b
    requires forall i :: 0 <= i < |ms| && ms[i].vaddr + ms[i].size <= a ==> ms[i].vaddr + ms[i].size <= b
    ensures Fits(ms, size, b)
  {
  }

  lemma PageStart(e: nat, a: nat)
    requires e % PTE_MEM_SIZE == 0
    ensures e <= a <==> e <= a / PTE_MEM_SIZE * PTE_MEM_SIZE
    ensures AlignToPte(e) == e || e >= WORD
  {
  }

  /** The search from the aligned address is the search from the request itself, unless that wraps. */
  lemma SearchedFrom(vaddr: nat, b: nat)
    requires vaddr < WORD && b % PTE_MEM_SIZE == 0
    ensures Wanted(AlignToPte(vaddr)) <= b <==> RequestedFrom(vaddr) <= b
  {
    AlignedSize(vaddr);
  }

  lemma RequestedPlace(ms: seq<Mapping>, vaddr: nat, size: nat, a: nat)
    requires vaddr < WORD && a % PTE_MEM_SIZE == 0 && LowestFit(ms, Wanted(AlignToPte(vaddr)), size, a)
    ensures RequestPlaced(ms, vaddr, size, a)
  {
    hide Fits, Wanted, AlignToPte, RequestedFrom;
    SearchedFrom(vaddr, a);
    forall b | b % PTE_MEM_SIZE == 0 && RequestedFrom(vaddr) <= b && Fits(ms, size, b) ensures a <= b {
      SearchedFrom(vaddr, b);
    }
    if vaddr > 0 { RequestReached(ms, vaddr, size, a); }
  }

  /** A place is at or above the request exactly if the request does not wrap. */
  lemma RequestReached(ms: seq<Mapping>, vaddr: nat, size: nat, a: nat)
    requires 0 < vaddr < WORD && RequestedFrom(vaddr) <= a && Fits(ms, size, a)
    ensures vaddr <= a <==> vaddr <= WORD - PTE_MEM_SIZE
  {
  }

  lemma RequestedNowhere(ms: seq<Mapping>, vaddr: nat, size: nat)
    requires vaddr < WORD && WellPlaced(ms) && size % PTE_MEM_SIZE == 0
    ensures (forall a :: Wanted(AlignToPte(vaddr)) <= a ==> !Fits(ms, size, a)) <==>
      NoPage(ms, RequestedFrom(vaddr), size)
  {
    hide Fits, Wanted, AlignToPte, RequestedFrom;
    forall a: nat | a % PTE_MEM_SIZE == 0 ensures Wanted(AlignToPte(vaddr)) <= a <==> RequestedFrom(vaddr) <= a {
      SearchedFrom(vaddr, a);
    }
    if NoPage(ms, RequestedFrom(vaddr), size) {
      forall a | Wanted(AlignToPte(vaddr)) <= a ensures !Fits(ms, size, a) {
        if Fits(ms, size, a) {
          FitsFromPageStart(ms, size, a);
          WantedPage(vaddr, a);
          assert false;
        }
      }
    }
  }

  lemma WantedPage(vaddr: nat, a: nat)
    requires vaddr < WORD && Wanted(AlignToPte(vaddr)) <= a
    ensures Wanted(AlignToPte(vaddr)) <= a / PTE_MEM_SIZE * PTE_MEM_SIZE
    ensures a / PTE_MEM_SIZE * PTE_MEM_SIZE % PTE_MEM_SIZE == 0
  {
    AlignedSize(vaddr);
    PageStart(Wanted(AlignToPte(vaddr)), a);
  }

  /** A request for a page at the very end of the address space is placed at the default address, far below it. */
  lemma RequestWraps()
    ensures LowestPage([], RequestedFrom(WORD - 1), PTE_MEM_SIZE, USER_CODE_VADDR)
    ensures LowestFit([], Wanted(AlignToPte(WORD - 1)), PTE_MEM_SIZE, USER_CODE_VADDR) && USER_CODE_VADDR < WORD - 1
  {
  }

  /** No place from `want` up to `result` fits. */
  ghost predicate NoneBelow(ms: seq<Mapping>, want: nat, size: nat, result: nat) {
    forall b :: want <= b && Fits(ms, size, b) ==> result <= b
  }

  /** The search may skip a mapping that lies in the way. */
  lemma SkipMapping(ms: seq<Mapping>, want: nat, size: nat, result: nat, i: nat)
    requires i < |ms| && NoneBelow(ms, want, size, result)
    requires ms[i].vaddr < result + size && result < ms[i].vaddr + ms[i].size
    ensures NoneBelow(ms, want, size, ms[i].vaddr + ms[i].size)
  {
  }

  lemma SkipTrampoline(ms: seq<Mapping>, want: nat, size: nat)
    requires SIGNAL_TRAMPOLINE_VADDR < want + size && want < SIGNAL_TRAMPOLINE_VADDR + PTE_MEM_SIZE
    ensures NoneBelow(ms, want, size, SIGNAL_TRAMPOLINE_VADDR + PTE_MEM_SIZE)
  {
  }

  /** A place between two mappings, or after the last. */
  lemma Between(ms: seq<Mapping>, size: nat, a: nat, i: nat)
    requires Sorted(ms) && i <= |ms| && Fits([], size, a)
    requires forall k :: 0 <= k < i ==> ms[k].vaddr + ms[k].size <= a
    requires i < |ms| ==> a + size <= ms[i].vaddr
    ensures Fits(ms, size, a)
  {
  }

  lemma NoneBelowStart(ms: seq<Mapping>, want: nat, size: nat)
    ensures NoneBelow(ms, want, size, want)
  {
  }

  lemma PlaceOf(ms: seq<Mapping>, i: nat)
    requires WellPlaced(ms) && i < |ms|
    ensures ms[i].vaddr % PTE_MEM_SIZE == 0 && ms[i].size % PTE_MEM_SIZE == 0 && Fits([], ms[i].size, ms[i].vaddr)
    ensures ms[i].vaddr + ms[i].size <= KERNEL_VIRTUAL_BASE
    ensures SIGNAL_TRAMPOLINE_VADDR + PTE_MEM_SIZE <= ms[i].vaddr
            || ms[i].vaddr + ms[i].size <= SIGNAL_TRAMPOLINE_VADDR
    ensures forall k :: 0 <= k < i ==> ms[k].vaddr + ms[k].size <= ms[i].vaddr
  {
  }

  /** When the search has passed all places that end below the kernel's addresses, there is none. */
  lemma NothingFits(ms: seq<Mapping>, want: nat, size: nat, result: nat)
    requires NoneBelow(ms, want, size, result)
    ensures result + size > KERNEL_VIRTUAL_BASE ==> forall a :: want <= a ==> !Fits(ms, size, a)
  {
  }

  /** The search stops at the lowest place that fits. */
  lemma FitsHere(ms: seq<Mapping>, want: nat, size: nat, a: nat, i: nat)
    requires WellPlaced(ms) && i <= |ms| && NoneBelow(ms, want, size, a) && want <= a
    requires a + size <= KERNEL_VIRTUAL_BASE
    requires a + size <= SIGNAL_TRAMPOLINE_VADDR || SIGNAL_TRAMPOLINE_VADDR + PTE_MEM_SIZE <= a
    requires forall k :: 0 <= k < i ==> ms[k].vaddr + ms[k].size <= a
    requires i < |ms| ==> a + size <= ms[i].vaddr
    ensures LowestFit(ms, want, size, a)
  {
    Between(ms, size, a, i);
  }

  /** A new mapping at a place that fits keeps the list in order. */
  lemma InsertWellPlaced(ms: seq<Mapping>, k: nat, m: Mapping)
    requires WellPlaced(ms) && k <= |ms| && Fits(ms, m.size, m.vaddr)
    requires m.vaddr % PTE_MEM_SIZE == 0 && m.vaddr > 0 && m.size % PTE_MEM_SIZE == 0 && m.size > 0
    requires forall i :: 0 <= i < k ==> ms[i].vaddr <= m.vaddr
    requires forall i :: k <= i < |ms| ==> m.vaddr < ms[i].vaddr
    ensures WellPlaced(ms[..k] + [m] + ms[k..])
  {
    var ms' := ms[..k] + [m] + ms[k..];
    forall i | 0 <= i < |ms'| ensures ms'[i] == if i < k then ms[i] else if i == k then m else ms[i - 1] {
    }
    forall i | 0 <= i < |ms| ensures ms[i].vaddr + ms[i].size <= m.vaddr || m.vaddr + m.size <= ms[i].vaddr {
    }
  }

  /** At most one mapping contains an address. */
  lemma ContainsUnique(ms: seq<Mapping>, i: nat, j: nat, vaddr: nat)
    requires WellPlaced(ms) && i < |ms| && j < |ms| && Contains(ms[i], vaddr) && Contains(ms[j], vaddr)
    ensures i == j
  {
  }

  /** `struct task`, without its scheduling state and its saved registers. */
  class Task {
    /** The address of the `struct task`. */
    const addr: nat
    var pid: nat
    var isUser: bool
    var kernelStackAddr: nat
    var pgd: nat
    var mappings: seq<Mapping>
    var signals: seq<Signal>
    var signalSp: nat

    constructor (addr: nat, pid: nat)
      ensures this.addr == addr && this.pid == pid && !isUser && kernelStackAddr == 0 && pgd == 0
      ensures mappings == [] && signals == [] && signalSp == 0
    {
      this.addr, this.pid := addr, pid;
      isUser, kernelStackAddr, pgd, mappings, signals, signalSp := false, 0, 0, [], [], 0;
    }

    /** `_get_mapping_vaddr`: `(uint64_t)-1` exactly when the `size` bytes fit nowhere at or above the wanted address,
        otherwise the lowest address where they do. */
    method GetMappingVaddr(vaddr: nat, size: nat) returns (r: nat)
      requires WellPlaced(mappings) && vaddr < WORD && size < WORD && vaddr % PTE_MEM_SIZE == 0
      ensures r == NO_VADDR <==> forall a :: Wanted(vaddr) <= a ==> !Fits(mappings, size, a)
      ensures r != NO_VADDR ==> LowestFit(mappings, Wanted(vaddr), size, r) && r % PTE_MEM_SIZE == 0
    {
      hide WellPlaced, NoneBelow, LowestFit, Fits, Sorted, Pages;
      ghost var want := Wanted(vaddr);
      NoneBelowStart(mappings, want, size);
      var result := if vaddr == 0 then USER_CODE_VADDR else vaddr;
      if result < SIGNAL_TRAMPOLINE_VADDR + PTE_MEM_SIZE && (result + size) % WORD > SIGNAL_TRAMPOLINE_VADDR {
        SkipTrampoline(mappings, want, size);
        result := SIGNAL_TRAMPOLINE_VADDR + PTE_MEM_SIZE;
      }
      var current := 0;
      while current < |mappings|
        invariant 0 <= current <= |mappings| && want <= result < WORD && result % PTE_MEM_SIZE == 0
        invariant NoneBelow(mappings, want, size, result)
        invariant result + size < WORD ==>
          result + size <= SIGNAL_TRAMPOLINE_VADDR || SIGNAL_TRAMPOLINE_VADDR + PTE_MEM_SIZE <= result
        invariant forall k :: 0 <= k < current ==> mappings[k].vaddr + mappings[k].size <= result
      {
        var m := mappings[current];
        PlaceOf(mappings, current);
        if m.vaddr + m.size <= result {
          current := current + 1;
          continue;
        }
        if m.vaddr >= (result + size) % WORD {
          break;
        }
        SkipMapping(mappings, want, size, result, current);
        result := m.vaddr + m.size;
        current := current + 1;
      }
      NothingFits(mappings, want, size, result);
      if size > KERNEL_VIRTUAL_BASE || result > KERNEL_VIRTUAL_BASE - size {
        return NO_VADDR;
      }
      FitsHere(mappings, want, size, result, current);
      return result;
    }

    /** `_insert_mapping`: before the first mapping that starts above the new one, or at the end. */
    method InsertMapping(m: Mapping) returns (ghost k: nat)
      modifies this`mappings
      ensures k <= |old(mappings)| && mappings == old(mappings)[..k] + [m] + old(mappings)[k..]
      ensures forall i :: 0 <= i < k ==> old(mappings)[i].vaddr <= m.vaddr
      ensures k < |old(mappings)| ==> m.vaddr < old(mappings)[k].vaddr
    {
      var current := 0;
      while current < |mappings|
        invariant 0 <= current <= |mappings| && mappings == old(mappings)
        invariant forall i :: 0 <= i < current ==> mappings[i].vaddr <= m.vaddr
      {
        if mappings[current].vaddr > m.vaddr {
          mappings := mappings[..current] + [m] + mappings[current..];
          return current;
        }
        current := current + 1;
      }
      k := |mappings|;
      mappings := mappings + [m];
    }

    /** `task_find_mapping`: although it stops at the first mapping beyond the address, it finds the mapping that
        contains the address whenever there is one. */
    method FindMapping(vaddr: nat) returns (r: Option<Mapping>)
      requires WellPlaced(mappings)
      ensures r == None <==> forall m :: m in mappings ==> !Contains(m, vaddr)
      ensures r.Some? ==>
        r.value in mappings && Contains(r.value, vaddr) && forall m :: m in mappings && Contains(m, vaddr) ==>
          m == r.value
    {
      var current := 0;
      while current < |mappings|
        invariant 0 <= current <= |mappings|
        invariant forall i :: 0 <= i < current ==> !Contains(mappings[i], vaddr)
      {
        var m := mappings[current];
        if vaddr >= m.vaddr && vaddr < m.vaddr + m.size {
          assert m in mappings;
          return Some(m);
        }
        if m.vaddr > vaddr {
          return None;
        }
        current := current + 1;
      }
      return None;
    }
  }
}
