/** Roots of user address spaces: adding one, taking one away, and what that leaves of the others. */
module Roots {
  import opened Sv39
  import opened PageTree
  import opened Teardown

  /** The entries of a user root that are its own; the others are copies of the kernel's. */
  const USER_ENTRIES: nat := 256

  function RootPlace(root: nat): Place {
    Place(root, 2, 0)
  }

  /** `root` is the root of a user address space. */
  predicate UserRoot(tree: Tree, root: nat) {
    && RootPlace(root) in tree.at && tree.at[RootPlace(root)] == root
    && root in tree.window && tree.window[root] == USER_ENTRIES
  }

  /** The tables below a root. */
  ghost function TablesOf(tree: Tree, root: nat): set<nat> {
    set t | t in tree.place && tree.place[t].root == root && tree.place[t].level < 2
  }

  lemma UserWindow(tree: Tree, root: nat, n: nat)
    requires UserRoot(tree, root) && n < 0x400_0000
    ensures InWindow(tree, root, n)
  {
    Prefixes(n);
    DivDiv512(n);
  }

  /** All tables below a user root lie below its own entries. */
  lemma TablesBelow(tree: Tree, tables: Tables, offset: nat, root: nat)
    requires Wellformed(tree, tables, offset) && UserRoot(tree, root)
    ensures TablesOf(tree, root) == Below(tree, RootPlace(root), 0, USER_ENTRIES)
  {
    hide EntriesOk, Stored;
    forall t | t in TablesOf(tree, root) ensures Under(tree.place[t], RootPlace(root), 0, USER_ENTRIES) {
      assert PointedTo(tree, tables, offset, tree.place[t], t);
      var up := ParentPlace(tree.place[t]);
      if tree.place[t].level == 0 {
        assert PointedTo(tree, tables, offset, tree.place[tree.at[up]], tree.at[up]);
        UnderRoot(tree.place[t], up);
      } else {
        assert Prefix(tree.place[t].prefix, 0) == tree.place[t].prefix;
      }
    }
  }

  lemma UnderRoot(p: Place, up: Place)
    requires p.level == 0 && up == ParentPlace(p)
    ensures Prefix(p.prefix, 1) == up.prefix
  {
    Prefixes(p.prefix);
  }

  /** The tables of one address space are the same in both. */
  ghost predicate SameTables(tree: Tree, tables: Tables, tables': Tables, root: nat) {
    forall t :: t in tree.place && tree.place[t].root == root ==> t in tables && t in tables' && tables'[t] == tables[t]
  }

  /** A translation depends on the tables of its own address space alone. */
  lemma {:induction false} SameWalk(tree: Tree, tables: Tables, tables': Tables, offset: nat, root: nat, level: nat,
      n: nat)
    requires Wellformed(tree, tables, offset) && InWindow(tree, root, n) && OnWalk(root, level, n) in tree.at
    requires SameTables(tree, tables, tables', root)
    ensures Translate(tables', offset, tree.at[OnWalk(root, level, n)], level, n)
      == Translate(tables, offset, tree.at[OnWalk(root, level, n)], level, n)
    decreases level
  {
    hide Wellformed, InWindow;
    TranslateStep(tree, tables, offset, root, level, n);
    TableAt(tree, tables, offset, OnWalk(root, level, n));
    var pte := tables[tree.at[OnWalk(root, level, n)]][Index(n, level)];
    if pte != 0 && !LeafPte(pte, level) {
      SameWalk(tree, tables, tables', offset, root, level - 1, n);
    }
  }

  lemma SameLookup(tree: Tree, tables: Tables, tables': Tables, offset: nat, root: nat, n: nat)
    requires Wellformed(tree, tables, offset) && InWindow(tree, root, n) && SameTables(tree, tables, tables', root)
    ensures Lookup(tables', offset, root, n) == Lookup(tables, offset, root, n)
  {
    WalkStart(tree, tables, offset, root, n);
    SameWalk(tree, tables, tables', offset, root, 2, n);
  }

  /** A new user root: its own entries are zero. */
  function WithRoot(tree: Tree, root: nat): Tree {
    Tree(tree.place[root := RootPlace(root)], tree.at[RootPlace(root) := root], tree.window[root := USER_ENTRIES])
  }

  /** What `task_copy` fills a new root with. */
  function RootEntries(kernelEntries: seq<nat>): (r: seq<nat>)
    requires |kernelEntries| == PAGE_TABLE_ENTRIES_NUM
    ensures |r| == PAGE_TABLE_ENTRIES_NUM
  {
    Zeros(USER_ENTRIES) + kernelEntries[USER_ENTRIES..]
  }

  /** Nothing of the tree mentions a root that has no table. */
  lemma NoTablesYet(tree: Tree, tables: Tables, offset: nat, root: nat)
    requires Wellformed(tree, tables, offset) && root !in tables
    ensures forall p :: p in tree.at ==> p.root != root
  {
    hide EntriesOk, Stored, PointedTo;
    assert root !in tree.place by { StoredKeys(tree, tables, offset); }
    forall p | p in tree.at ensures p.root != root {
      RootOf(tree, tables, offset, p);
    }
  }

  lemma {:induction false} RootOf(tree: Tree, tables: Tables, offset: nat, p: Place)
    requires Placed(tree) && AllPointedTo(tree, tables, offset) && p in tree.at
    ensures p.root in tree.place
    decreases 2 - p.level
  {
    if p.level < 2 {
      assert PointedTo(tree, tables, offset, tree.place[tree.at[p]], tree.at[p]);
      RootOf(tree, tables, offset, ParentPlace(p));
    }
  }

  lemma WithRootWellformed(tree: Tree, tables: Tables, offset: nat, root: nat, entries: seq<nat>)
    requires Wellformed(tree, tables, offset) && root !in tables && Pointable(offset, root)
    requires |entries| == PAGE_TABLE_ENTRIES_NUM && forall i :: 0 <= i < USER_ENTRIES ==> entries[i] == 0
    ensures Wellformed(WithRoot(tree, root), tables[root := entries], offset)
    ensures UserRoot(WithRoot(tree, root), root) && TablesOf(WithRoot(tree, root), root) == {}
  {
    NoTablesYet(tree, tables, offset, root);
    var tree', tables' := WithRoot(tree, root), tables[root := entries];
    WithRootPlaced(tree, tables, offset, root);
    WithRootEntriesOk(tree, tables, offset, root, entries);
    hide EntriesOk, Pointable, Entries;
    forall x | x in tree'.place && tree'.place[x].level < 2
      ensures PointedTo(tree', tables', offset, tree'.place[x], x)
    {
      assert PointedTo(tree, tables, offset, tree.place[x], x);
      OldPointedTo(tree, tables, offset, root, entries, tree.place[x], x);
    }
  }

  lemma WithRootPlaced(tree: Tree, tables: Tables, offset: nat, root: nat)
    requires Wellformed(tree, tables, offset) && root !in tables
    requires forall p :: p in tree.at ==> p.root != root
    ensures Placed(WithRoot(tree, root))
  {
    hide EntriesOk, AllPointedTo, Pointable;
  }

  lemma WithRootEntriesOk(tree: Tree, tables: Tables, offset: nat, root: nat, entries: seq<nat>)
    requires Wellformed(tree, tables, offset) && root !in tables && Pointable(offset, root)
    requires |entries| == PAGE_TABLE_ENTRIES_NUM && forall i :: 0 <= i < USER_ENTRIES ==> entries[i] == 0
    requires forall p :: p in tree.at ==> p.root != root
    ensures Stored(WithRoot(tree, root), tables[root := entries], offset)
    ensures EntriesOk(WithRoot(tree, root), tables[root := entries], offset)
  {
    hide Pointable, LeafPte, PointerPte, Placed, AllPointedTo, EntryOk;
    var tree', tables' := WithRoot(tree, root), tables[root := entries];
    forall x, j | x in tree'.place && 0 <= j < Entries(tree', tree'.place[x]) && j < PAGE_TABLE_ENTRIES_NUM
      ensures EntryOk(tree', offset, tree'.place[x], j, tables'[x][j])
    {
      if x == root {
        ZeroEntryOk(tree', offset, tree'.place[x], j);
      } else {
        OldRoot(tree, tables, offset, x);
        assert EntryOk(tree, offset, tree.place[x], j, tables[x][j]);
        OldEntryOk(tree, offset, root, tree.place[x], j, tables[x][j]);
      }
    }
  }

  lemma OldRoot(tree: Tree, tables: Tables, offset: nat, x: nat)
    requires Wellformed(tree, tables, offset) && x in tree.place
    ensures tree.place[x] in tree.at
  {
    hide EntriesOk, Stored, AllPointedTo;
  }

  lemma ZeroEntryOk(tree: Tree, offset: nat, p: Place, j: nat)
    ensures EntryOk(tree, offset, p, j, 0)
  {
  }

  lemma OldEntryOk(tree: Tree, offset: nat, root: nat, p: Place, j: nat, pte: nat)
    requires EntryOk(tree, offset, p, j, pte) && p.root != root
    ensures EntryOk(WithRoot(tree, root), offset, p, j, pte)
  {
    hide LeafPte, PointerPte;
  }

  lemma OldPointedTo(tree: Tree, tables: Tables, offset: nat, root: nat, entries: seq<nat>, p: Place, t: nat)
    requires PointedTo(tree, tables, offset, p, t) && root !in tables
    requires forall q :: q in tree.at ==> q.root != root
    ensures PointedTo(WithRoot(tree, root), tables[root := entries], offset, p, t)
  {
    hide PointerPte;
  }

  /** A root without tables below it leaves the tree. */
  lemma WithoutRootWellformed(tree: Tree, tables: Tables, offset: nat, root: nat)
    requires Wellformed(tree, tables, offset) && UserRoot(tree, root) && TablesOf(tree, root) == {}
    ensures Wellformed(Without(tree, {root}), tables - {root}, offset)
  {
    var tree', tables' := Without(tree, {root}), tables - {root};
    WithoutRootPlaced(tree, tables, offset, root);
    WithoutRootEntriesOk(tree, tables, offset, root);
    hide EntriesOk, Pointable, Placed;
    forall x | x in tree'.place && tree'.place[x].level < 2
      ensures PointedTo(tree', tables', offset, tree'.place[x], x)
    {
      assert PointedTo(tree, tables, offset, tree.place[x], x);
      assert x !in TablesOf(tree, root);
      StillPointedTo(tree, tables, offset, root, tree.place[x], x);
    }
  }

  lemma WithoutRootPlaced(tree: Tree, tables: Tables, offset: nat, root: nat)
    requires Wellformed(tree, tables, offset) && UserRoot(tree, root)
    ensures Placed(Without(tree, {root})) && Stored(Without(tree, {root}), tables - {root}, offset)
    ensures tree.place[root] == RootPlace(root)
  {
    hide EntriesOk, AllPointedTo, Pointable;
  }

  lemma WithoutRootEntriesOk(tree: Tree, tables: Tables, offset: nat, root: nat)
    requires Wellformed(tree, tables, offset) && UserRoot(tree, root) && TablesOf(tree, root) == {}
    requires Stored(Without(tree, {root}), tables - {root}, offset) && Placed(Without(tree, {root}))
    ensures EntriesOk(Without(tree, {root}), tables - {root}, offset)
  {
    hide AllPointedTo, Pointable, LeafPte, PointerPte;
    var tree', tables' := Without(tree, {root}), tables - {root};
    forall x, j | x in tree'.place && 0 <= j < Entries(tree', tree'.place[x]) && j < PAGE_TABLE_ENTRIES_NUM
      ensures EntryOk(tree', offset, tree'.place[x], j, tables'[x][j])
    {
      assert EntryOk(tree, offset, tree.place[x], j, tables[x][j]);
    }
  }

  lemma StillPointedTo(tree: Tree, tables: Tables, offset: nat, root: nat, p: Place, t: nat)
    requires PointedTo(tree, tables, offset, p, t) && p.root != root
    requires forall q :: q in tree.at && tree.at[q] == root ==> q.root == root
    ensures PointedTo(Without(tree, {root}), tables - {root}, offset, p, t)
  {
    hide PointerPte;
  }

  lemma RootPlaced(tree: Tree, tables: Tables, offset: nat, root: nat)
    requires Wellformed(tree, tables, offset) && UserRoot(tree, root)
    ensures root in tree.place && tree.place[root] == RootPlace(root) && root in tables
  {
    hide EntriesOk, AllPointedTo, Pointable;
  }

  /** Freeing the tables of one user root leaves the others' alone. */
  lemma FreedTables(tree: Tree, tables: Tables, tree': Tree, tables': Tables, gone: set<nat>, pgd: nat)
    requires Freed(tree, tables, tree', tables', gone, pgd, 0, USER_ENTRIES) && gone == TablesOf(tree, pgd)
    requires tables'.Keys == tree'.place.Keys && pgd in tree.place && tree.place[pgd] == RootPlace(pgd)
    ensures tree' == Without(tree, gone) && TablesOf(tree', pgd) == {}
    ensures KeepsPlaces(tree', tree)
    ensures forall root :: root != pgd ==> SameTables(tree', tables, tables', root)
    ensures EmptyBelow(tables', pgd)
  {
  }

  /** The lower half of a root is zero. */
  ghost predicate EmptyBelow(tables: Tables, root: nat) {
    && root in tables && |tables[root]| == PAGE_TABLE_ENTRIES_NUM
    && forall i :: 0 <= i < USER_ENTRIES ==> tables[root][i] == 0
  }

  /** Then it maps none of its pages. */
  lemma EmptyLookup(tables: Tables, offset: nat, root: nat, n: nat)
    requires EmptyBelow(tables, root) && n < 0x400_0000
    ensures Lookup(tables, offset, root, n) == None
  {
    RootIndex(n);
  }

  lemma RootIndex(n: nat)
    requires n < 0x400_0000
    ensures Index(n, 2) < USER_ENTRIES
  {
    hide Prefix;
    Prefixes(n);
    DivDiv512(n);
  }

  /** What `task_exec_user` makes of a new root: its lower half stays what the page held. */
  function LeftoverEntries(page: seq<nat>, kernelEntries: seq<nat>): seq<nat>
    requires |page| == |kernelEntries| == PAGE_TABLE_ENTRIES_NUM
  {
    page[..USER_ENTRIES] + kernelEntries[USER_ENTRIES..]
  }

  /** It is the root of an empty address space exactly if the page held only zeros there. */
  lemma LeftoverIff(tree: Tree, tables: Tables, offset: nat, root: nat, page: seq<nat>, kernelEntries: seq<nat>)
    requires Wellformed(tree, tables, offset) && root !in tables && Pointable(offset, root)
    requires |page| == |kernelEntries| == PAGE_TABLE_ENTRIES_NUM
    ensures var tables' := tables[root := LeftoverEntries(page, kernelEntries)];
      (Wellformed(WithRoot(tree, root), tables', offset) &&
        forall n: nat :: n < 0x400_0000 ==> Lookup(tables', offset, root, n) == None) <==>
      page[..USER_ENTRIES] == Zeros(USER_ENTRIES)
  {
    var entries := LeftoverEntries(page, kernelEntries);
    var tables' := tables[root := entries];
    hide Wellformed, Lookup, Pointable, LeftoverEntries;
    LeftoverWords(page, kernelEntries);
    if page[..USER_ENTRIES] == Zeros(USER_ENTRIES) {
      WithRootWellformed(tree, tables, offset, root, entries);
      forall n: nat | n < 0x400_0000 ensures Lookup(tables', offset, root, n) == None {
        WithRootLookup(tree, tables, offset, root, entries, root, n);
      }
    } else if Wellformed(WithRoot(tree, root), tables', offset) {
      var j :| 0 <= j < USER_ENTRIES && page[j] != 0;
      NoTablesYet(tree, tables, offset, root);
      LeftoverLeaf(tree, tables', offset, root, j);
    }
  }

  lemma LeftoverWords(page: seq<nat>, kernelEntries: seq<nat>)
    requires |page| == |kernelEntries| == PAGE_TABLE_ENTRIES_NUM
    ensures |LeftoverEntries(page, kernelEntries)| == PAGE_TABLE_ENTRIES_NUM
    ensures forall i :: 0 <= i < USER_ENTRIES ==> LeftoverEntries(page, kernelEntries)[i] == page[i]
    ensures (forall i :: 0 <= i < USER_ENTRIES ==> page[i] == 0) <==> page[..USER_ENTRIES] == Zeros(USER_ENTRIES)
  {
    if forall i :: 0 <= i < USER_ENTRIES ==> page[i] == 0 {
      assert page[..USER_ENTRIES] == Zeros(USER_ENTRIES);
    } else {
      var i :| 0 <= i < USER_ENTRIES && page[i] != 0;
      assert page[..USER_ENTRIES][i] != Zeros(USER_ENTRIES)[i];
    }
  }

  /** A word that is not zero and fits in the tree is a leaf, as there is no table for it to point to. */
  lemma LeftoverLeaf(tree: Tree, tables: Tables, offset: nat, root: nat, j: nat)
    requires Wellformed(WithRoot(tree, root), tables, offset) && j < USER_ENTRIES
    requires root in tables && |tables[root]| == PAGE_TABLE_ENTRIES_NUM && tables[root][j] != 0
    requires forall p :: p in tree.at ==> p.root != root
    ensures j * 0x4_0000 < 0x400_0000 && Lookup(tables, offset, root, j * 0x4_0000).Some?
  {
    hide Stored, AllPointedTo, Placed, Pointable;
    var pte := tables[root][j];
    assert EntryOk(WithRoot(tree, root), offset, RootPlace(root), j, pte);
    hide EntriesOk;
    assert LeafPte(pte, 2);
    FlagBits(pte);
    GigabyteIndex(j);
  }

  lemma GigabyteIndex(j: nat)
    requires j < USER_ENTRIES
    ensures Index(j * 0x4_0000, 2) == j
  {
    hide Prefix;
    Prefixes(j * 0x4_0000);
  }

  /** A page left over from a program, say, whose first word is 23: the new program can write to the first gigabyte of
      physical memory. */
  lemma LeftoverSeen(tables: Tables, offset: nat, root: nat, page: seq<nat>, kernelEntries: seq<nat>, n: nat)
    requires |page| == |kernelEntries| == PAGE_TABLE_ENTRIES_NUM && n < 0x4_0000
    requires page[0] == PTE_VALID + PTE_READ + PTE_WRITE + PTE_USER
    ensures Lookup(tables[root := LeftoverEntries(page, kernelEntries)], offset, root, n) == Some(Leaf(2, n, page[0]))
  {
    Prefixes(n);
    assert LevelPages(1) == 512 && LevelPages(2) == 0x4_0000;
  }

  // The kernel's half.

  /** The upper half of a root is that of the kernel's. */
  predicate KernelEntries(tables: Tables, kernelPgd: nat, root: nat) {
    && root in tables && kernelPgd in tables && |tables[root]| == |tables[kernelPgd]| == PAGE_TABLE_ENTRIES_NUM
    && forall i :: USER_ENTRIES <= i < PAGE_TABLE_ENTRIES_NUM ==> tables[root][i] == tables[kernelPgd][i]
  }

  ghost predicate SharedHalf(tree: Tree, tables: Tables, kernelPgd: nat) {
    && kernelPgd in tree.place && tree.place[kernelPgd] == RootPlace(kernelPgd)
    && forall r :: r in tree.place && tree.place[r] == RootPlace(r) ==> KernelEntries(tables, kernelPgd, r)
  }

  /** Then every root translates each page of the upper half as the kernel's root does. */
  lemma SharedLookup(tables: Tables, offset: nat, kernelPgd: nat, root: nat, n: nat)
    requires KernelEntries(tables, kernelPgd, root) && 0x400_0000 <= n < 0x800_0000
    ensures Lookup(tables, offset, root, n) == Lookup(tables, offset, kernelPgd, n)
  {
    UpperIndex(n);
  }

  lemma UpperIndex(n: nat)
    requires 0x400_0000 <= n < 0x800_0000
    ensures USER_ENTRIES <= Index(n, 2) < PAGE_TABLE_ENTRIES_NUM
  {
    hide Prefix;
    Prefixes(n);
    DivDiv512(n);
  }

  /** Mapping user pages leaves the kernel's half alone. */
  lemma SharedMapped(tree0: Tree, tables0: Tables, tree: Tree, tables: Tables, kernelPgd: nat, root: nat)
    requires SharedHalf(tree0, tables0, kernelPgd) && OnlyWithin(tree0, tables0, tables, root)
    requires Extends(tree0, tree, root, 0) && UserRoot(tree0, root) && kernelPgd != root
    ensures SharedHalf(tree, tables, kernelPgd)
  {
    hide Entries;
    forall r | r in tree.place && tree.place[r] == RootPlace(r) ensures KernelEntries(tables, kernelPgd, r) {
      assert r in tree0.place && KernelEntries(tables0, kernelPgd, r);
      assert Entries(tree0, RootPlace(root)) == USER_ENTRIES by { RootEntriesOf(tree0, root); }
    }
  }

  lemma RootEntriesOf(tree: Tree, root: nat)
    requires UserRoot(tree, root)
    ensures Entries(tree, RootPlace(root)) == USER_ENTRIES
  {
  }

  /** So does freeing the tables of a user root, */
  lemma SharedFreed(tree0: Tree, tables0: Tables, tree: Tree, tables: Tables, kernelPgd: nat, gone: set<nat>, root: nat)
    requires SharedHalf(tree0, tables0, kernelPgd) && Freed(tree0, tables0, tree, tables, gone, root, 0, USER_ENTRIES)
    requires tables.Keys == tree.place.Keys && gone == TablesOf(tree0, root)
    ensures SharedHalf(tree, tables, kernelPgd)
  {
    assert kernelPgd !in gone;
    forall r | r in tree.place && tree.place[r] == RootPlace(r) ensures KernelEntries(tables, kernelPgd, r) {
      assert KernelEntries(tables0, kernelPgd, r);
    }
  }

  /** and adding a root or taking one away. */
  lemma SharedWithRoot(tree: Tree, tables: Tables, kernelPgd: nat, root: nat, entries: seq<nat>)
    requires SharedHalf(tree, tables, kernelPgd) && root !in tables && |entries| == PAGE_TABLE_ENTRIES_NUM
    requires forall i :: USER_ENTRIES <= i < PAGE_TABLE_ENTRIES_NUM ==> entries[i] == tables[kernelPgd][i]
    ensures SharedHalf(WithRoot(tree, root), tables[root := entries], kernelPgd)
  {
    var tree', tables' := WithRoot(tree, root), tables[root := entries];
    assert KernelEntries(tables, kernelPgd, kernelPgd);
    forall r | r in tree'.place && tree'.place[r] == RootPlace(r) ensures KernelEntries(tables', kernelPgd, r) {
      if r != root { assert KernelEntries(tables, kernelPgd, r); }
    }
  }

  lemma SharedWithoutRoot(tree: Tree, tables: Tables, kernelPgd: nat, root: nat)
    requires SharedHalf(tree, tables, kernelPgd) && root != kernelPgd
    ensures SharedHalf(Without(tree, {root}), tables - {root}, kernelPgd)
  {
    var tree', tables' := Without(tree, {root}), tables - {root};
    forall r | r in tree'.place && tree'.place[r] == RootPlace(r) ensures KernelEntries(tables', kernelPgd, r) {
      assert KernelEntries(tables, kernelPgd, r);
    }
  }

  lemma SharedAlone(tree: Tree, tables: Tables, kernelPgd: nat)
    requires kernelPgd in tree.place && tree.place[kernelPgd] == RootPlace(kernelPgd)
    requires kernelPgd in tables && |tables[kernelPgd]| == PAGE_TABLE_ENTRIES_NUM
    requires forall t :: t in tree.place && t != kernelPgd ==> tree.place[t].level < 2
    ensures SharedHalf(tree, tables, kernelPgd)
  {
  }

  /** A new user root translates none of its own pages, and the other roots translate as before. */
  lemma WithRootLookup(tree: Tree, tables: Tables, offset: nat, root: nat, entries: seq<nat>, other: nat, n: nat)
    requires Wellformed(tree, tables, offset) && root !in tables
    requires |entries| == PAGE_TABLE_ENTRIES_NUM && forall i :: 0 <= i < USER_ENTRIES ==> entries[i] == 0
    requires n < 0x400_0000 && (other == root || InWindow(tree, other, n))
    ensures Lookup(tables[root := entries], offset, other, n) == if other == root then None else Lookup(tables, offset,
        other, n)
  {
    hide Wellformed, InWindow;
    if other == root {
      RootIndex(n);
    } else {
      StoredKeys(tree, tables, offset);
      SameLookup(tree, tables, tables[root := entries], offset, other, n);
    }
  }
}

