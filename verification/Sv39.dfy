/**
 Page-table entries and the Sv39 address translation (section 4.4 of the RISC-V Privileged
 Architecture manual, version 20211203) on the tables the kernel builds. A table is known by the
 kernel virtual address of its page; the hardware knows it by that address minus the kernel offset.
 */
module Sv39 {
  import opened Bits

  const PAGE_TABLE_ENTRIES_NUM: nat := 512
  const KERNEL_VIRTUAL_BASE: nat := 0xFFFF_FFC0_0000_0000

  const PTE_VALID: nat := 1
  const PTE_READ: nat := 2
  const PTE_WRITE: nat := 4
  const PTE_EXECUTE: nat := 8
  const PTE_USER: nat := 16
  const PTE_GLOBAL: nat := 32
  const PTE_ACCESSED: nat := 64
  const PTE_DIRTY: nat := 128

  /** `level_span` in pages: the number of pages that one entry of a table of this level covers. */
  function LevelPages(level: nat): (r: nat)
    ensures r > 0
  {
    if level == 0 then 1 else 512 * LevelPages(level - 1)
  }

  /** `make_pte`: the shifted page number and the permission byte share no bit, so `|` is a sum. */
  function MakePte(paddr: nat, prot: nat): nat {
    paddr / 4096 * 1024 + prot
  }

  /** Bits 10 to 53 of an entry. */
  function Ppn(pte: nat): nat {
    pte / 1024 % 0x1000_0000_0000
  }

  function Flags(pte: nat): nat {
    pte % 1024
  }

  function Va2Pa(offset: nat, vaddr: nat): nat {
    (vaddr - offset) % WORD
  }

  function Pa2Va(offset: nat, paddr: nat): nat {
    (paddr + offset) % WORD
  }

  function VaddrFromPte(offset: nat, pte: nat): nat {
    Pa2Va(offset, Ppn(pte) * 4096)
  }

  predicate IsValid(pte: nat) {
    pte % 2 == 1
  }

  predicate IsReadable(pte: nat) {
    pte / 2 % 2 == 1
  }

  predicate IsWritable(pte: nat) {
    pte / 4 % 2 == 1
  }

  predicate IsExecutable(pte: nat) {
    pte / 8 % 2 == 1
  }

  predicate IsUser(pte: nat) {
    pte / 16 % 2 == 1
  }

  predicate IsGlobal(pte: nat) {
    pte / 32 % 2 == 1
  }

  predicate IsAccessed(pte: nat) {
    pte / 64 % 2 == 1
  }

  predicate IsDirty(pte: nat) {
    pte / 128 % 2 == 1
  }

  datatype Access = Fetch | Load | Store

  /** Whether a leaf with these bits serves an access without a fault (sections 4.3.1 and 4.3.2 of the manual): pages of
      the user are the user's alone, and the kernel's the kernel's. */
  predicate Serves(prot: nat, access: Access, user: bool) {
    && IsValid(prot) && IsUser(prot) == user && IsAccessed(prot)
    && match access
       case Fetch => IsExecutable(prot)
       case Load => IsReadable(prot)
       case Store => IsReadable(prot) && IsWritable(prot) && IsDirty(prot)
  }

  /** `is_leaf_pte`: the code also takes the reserved write-only combination for a leaf. */
  predicate IsLeafPte(pte: nat) {
    IsReadable(pte) || IsWritable(pte) || IsExecutable(pte)
  }

  /** A permission byte that the manual allows in a leaf. */
  predicate LeafProt(prot: nat) {
    prot < 256 && IsValid(prot) && IsLeafPte(prot) && (IsWritable(prot) ==> IsReadable(prot))
  }

  /** Those of a page of the user that can be used without a fault for its flags. */
  predicate UserProt(prot: nat) {
    LeafProt(prot) && IsUser(prot) && IsAccessed(prot) && IsDirty(prot)
  }

  /** A kernel address whose page an entry can point to. */
  predicate Pointable(offset: nat, vaddr: nat) {
    vaddr < WORD && offset < WORD && Va2Pa(offset, vaddr) % 4096 == 0 && Va2Pa(offset, vaddr) < 0x100_0000_0000_0000
  }

  /** Entries round-trip: the address and the permissions written are the ones read back. They are where the manual has
      them: the page number in bits 10 to 53, the permissions in bits 0 to 7, and nothing in the others. */
  lemma PteRoundTrip(offset: nat, vaddr: nat, prot: nat)
    requires Pointable(offset, vaddr) && prot < 256
    ensures var pte := MakePte(Va2Pa(offset, vaddr), prot);
            && VaddrFromPte(offset, pte) == vaddr && Flags(pte) == prot && pte < 0x40_0000_0000_0000
            && pte / 0x400 * 0x1000 + offset == (if offset <= vaddr then vaddr else vaddr + WORD) && pte % 0x400 == prot
  {
    var pa := Va2Pa(offset, vaddr);
    assert (pa / 4096 * 1024 + prot) / 1024 == pa / 4096;
    assert ((vaddr - offset) % WORD + offset) % WORD == vaddr;
  }

  lemma PteFlags(paddr: nat, prot: nat)
    requires prot < 256
    ensures Flags(MakePte(paddr, prot)) == prot
  {
  }

  lemma PtePhysical(paddr: nat, prot: nat)
    requires paddr < 0x100_0000_0000_0000 && prot < 256
    ensures Ppn(MakePte(paddr, prot)) == paddr / 4096 && Flags(MakePte(paddr, prot)) == prot
  {
    PteFlags(paddr, prot);
    assert (paddr / 4096 * 1024 + prot) / 1024 == paddr / 4096;
  }

  /** The permission bits of an entry are those of its low byte. */
  lemma FlagBits(pte: nat)
    ensures IsValid(Flags(pte)) == IsValid(pte) && IsReadable(Flags(pte)) == IsReadable(pte)
    ensures IsWritable(Flags(pte)) == IsWritable(pte) && IsExecutable(Flags(pte)) == IsExecutable(pte)
  {
    var q, f := pte / 1024, pte % 1024;
    assert pte / 2 == 2 * (256 * q) + f / 2;
    assert pte / 4 == 2 * (128 * q) + f / 4;
    assert pte / 8 == 2 * (64 * q) + f / 8;
    LowBit(256 * q, f / 2);
    LowBit(128 * q, f / 4);
    LowBit(64 * q, f / 8);
  }

  lemma LowBit(half: nat, x: nat)
    ensures (2 * half + x) % 2 == x % 2
  {
  }

  /** The page number `n` without its lowest `level` nine-bit fields. */
  function Prefix(n: nat, level: nat): nat {
    if level == 0 then n else Prefix(n / 512, level - 1)
  }

  function Index(n: nat, level: nat): (i: nat)
    ensures i < PAGE_TABLE_ENTRIES_NUM
  {
    Prefix(n, level) % 512
  }

  lemma {:induction false} PrefixUp(n: nat, level: nat)
    ensures Prefix(n, level + 1) == Prefix(n, level) / 512
    ensures Prefix(n, level) == Prefix(n, level + 1) * 512 + Index(n, level)
  {
    if level > 0 { PrefixUp(n / 512, level - 1); }
  }

  /** Page numbers that agree above `j` fields agree above more. */
  lemma {:induction false} PrefixMonotone(m: nat, n: nat, j: nat, k: nat)
    requires j <= k && Prefix(m, j) == Prefix(n, j)
    ensures Prefix(m, k) == Prefix(n, k)
    decreases k - j
  {
    if j < k {
      PrefixUp(m, j);
      PrefixUp(n, j);
      PrefixMonotone(m, n, j + 1, k);
    }
  }

  lemma DivDiv512(x: nat)
    ensures x / 512 / 512 == x / 0x4_0000
  {
    var q, r := x / 0x4_0000, x % 0x4_0000;
    assert x == 512 * (512 * q) + r;
    assert x / 512 == 512 * q + r / 512;
  }

  lemma DivDivPage(x: nat)
    ensures x / 4096 / 512 == x / 0x20_0000
  {
    var q, r := x / 0x20_0000, x % 0x20_0000;
    assert x == 4096 * (512 * q) + r;
    assert x / 4096 == 512 * q + r / 4096;
  }

  lemma Prefixes(n: nat)
    ensures Prefix(n, 0) == n && Prefix(n, 1) == n / 512 && Prefix(n, 2) == n / 512 / 512
    ensures Prefix(n, 3) == n / 512 / 512 / 512
  {
    assert Prefix(n / 512 / 512 / 512, 0) == n / 512 / 512 / 512;
    assert Prefix(n / 512 / 512, 1) == n / 512 / 512 / 512;
    assert Prefix(n / 512, 2) == n / 512 / 512 / 512;
    assert Prefix(n / 512, 1) == n / 512 / 512;
  }

  /** The index that the code takes out of an address is that of its page number. */
  lemma AddressIndex(vaddr: nat, level: nat)
    requires level <= 2
    ensures vaddr / (4096 * LevelPages(level)) % 512 == Index(vaddr / 4096, level)
  {
    assert LevelPages(0) == 1 && LevelPages(1) == 512 && LevelPages(2) == 0x4_0000;
    Prefixes(vaddr / 4096);
    hide Prefix, LevelPages;
    DivDivPage(vaddr);
    AddressIndexTop(vaddr);
  }

  lemma AddressIndexTop(vaddr: nat)
    ensures vaddr / 0x4000_0000 == vaddr / 4096 / 512 / 512
  {
    DivDivPage(vaddr);
    var q, r := vaddr / 0x4000_0000, vaddr % 0x4000_0000;
    assert vaddr == 0x20_0000 * (512 * q) + r;
    assert vaddr / 0x20_0000 == 512 * q + r / 0x20_0000;
  }

  datatype Option<+T> = None | Some(value: T)

  /** What a page translates to, and the level of the leaf that says so. */
  datatype Leaf = Leaf(level: nat, ppn: nat, prot: nat)

  type Tables = map<nat, seq<nat>>

  /** The leaf that an entry of a table of this level is for page `n`, if the manual takes it for one. */
  function EntryLeaf(pte: nat, level: nat, n: nat): Option<Leaf> {
    if Ppn(pte) % LevelPages(level) != 0 then None // misaligned superpage
    else Some(Leaf(level, Ppn(pte) + n % LevelPages(level), Flags(pte)))
  }

  /** The translation of page number `n`, starting at `table`; a page fault is `None`. */
  function Translate(tables: Tables, offset: nat, table: nat, level: nat, n: nat): Option<Leaf>
    decreases level
  {
    if table !in tables || |tables[table]| != PAGE_TABLE_ENTRIES_NUM then None
    else
      var pte := tables[table][Index(n, level)];
      if !IsValid(pte) || (IsWritable(pte) && !IsReadable(pte)) then None
      else if IsReadable(pte) || IsExecutable(pte) then EntryLeaf(pte, level, n)
      else if level == 0 then None
      else Translate(tables, offset, VaddrFromPte(offset, pte), level - 1, n)
  }

  /** Pages that agree above the level of the leaf that translates one of them share that leaf. */
  lemma {:induction false} SameLeaf(tables: Tables, offset: nat, table: nat, level: nat, m: nat, n: nat)
    requires Translate(tables, offset, table, level, n).Some?
    requires var l := Translate(tables, offset, table, level, n).value.level; Prefix(m, l) == Prefix(n, l)
    ensures Translate(tables, offset, table, level, m).Some?
    ensures Translate(tables, offset, table, level, m).value.level ==
      Translate(tables, offset, table, level, n).value.level
    decreases level
  {
    var l := Translate(tables, offset, table, level, n).value.level;
    TranslateLevel(tables, offset, table, level, n);
    PrefixMonotone(m, n, l, level);
    assert Index(m, level) == Index(n, level);
    var pte := tables[table][Index(n, level)];
    if !(IsReadable(pte) || IsExecutable(pte)) {
      SameLeaf(tables, offset, VaddrFromPte(offset, pte), level - 1, m, n);
    }
  }

  lemma {:induction false} TranslateLevel(tables: Tables, offset: nat, table: nat, level: nat, n: nat)
    ensures Translate(tables, offset, table, level, n).Some? ==>
      Translate(tables, offset, table, level, n).value.level <= level
    decreases level
  {
    if table in tables && |tables[table]| == PAGE_TABLE_ENTRIES_NUM && level > 0 {
      TranslateLevel(tables, offset, VaddrFromPte(offset, tables[table][Index(n, level)]), level - 1, n);
    }
  }
}
