/**
 The shape of the page tables of all address spaces: every table has one place, given by its root,
 its level and the page-number prefix it serves, and exactly one entry points to it.
 */
module PageTree {
  import opened Sv39

  datatype Place = Place(root: nat, level: nat, prefix: nat)

  /** Where the tables are, the table at each place, and how many entries of each root belong to the
      tree; the entries of a user root from there on are copies of the kernel's. */
  datatype Tree = Tree(place: map<nat, Place>, at: map<Place, nat>, window: map<nat, nat>)

  function PointerPte(offset: nat, table: nat): nat {
    MakePte(Va2Pa(offset, table), PTE_VALID)
  }

  function ChildPlace(p: Place, i: nat): Place
    requires p.level > 0
  {
    Place(p.root, p.level - 1, p.prefix * 512 + i)
  }

  function ParentPlace(p: Place): Place {
    Place(p.root, p.level + 1, p.prefix / 512)
  }

  /** The number of entries of the table at `p` that belong to the tree. */
  function Entries(tree: Tree, p: Place): nat {
    if p.level == 2 && p.root in tree.window then tree.window[p.root] else PAGE_TABLE_ENTRIES_NUM
  }

  /** A leaf that the manual accepts at this level. */
  predicate LeafPte(pte: nat, level: nat) {
    && LeafProt(Flags(pte))
    && Ppn(pte) % LevelPages(level) == 0
  }

  /** An entry is zero, a leaf, or points to the table at the place below. */
  predicate EntryOk(tree: Tree, offset: nat, p: Place, i: nat, pte: nat) {
    || pte == 0
    || LeafPte(pte, p.level)
    || (p.level > 0 && ChildPlace(p, i) in tree.at && pte == PointerPte(offset, tree.at[ChildPlace(p, i)]))
  }

  /** The table and index of the entry that points to the table at `p`. */
  predicate PointedTo(tree: Tree, tables: Tables, offset: nat, p: Place, table: nat)
  {
    var up := ParentPlace(p);
    && up in tree.at && tree.at[up] in tables && |tables[tree.at[up]]| == PAGE_TABLE_ENTRIES_NUM
    && p.prefix % 512 < Entries(tree, up)
    && tables[tree.at[up]][p.prefix % 512] == PointerPte(offset, table)
  }

  /** Tables and places correspond one to one, and the roots are the tables of level 2. */
  ghost predicate Placed(tree: Tree) {
    && (forall t :: t in tree.place ==> tree.place[t] in tree.at && tree.at[tree.place[t]] == t)
    && (forall p :: p in tree.at ==> tree.at[p] in tree.place && tree.place[tree.at[p]] == p && p.level <= 2)
    && (forall p :: p in tree.at && p.level == 2 ==>
      p == Place(tree.at[p], 2, 0) && p.root in tree.window && tree.window[p.root] <= PAGE_TABLE_ENTRIES_NUM)
  }

  ghost predicate Stored(tree: Tree, tables: Tables, offset: nat) {
    && tables.Keys == tree.place.Keys
    && (forall t :: t in tree.place ==> |tables[t]| == PAGE_TABLE_ENTRIES_NUM && Pointable(offset, t))
  }

  ghost predicate EntriesOk(tree: Tree, tables: Tables, offset: nat)
    requires Stored(tree, tables, offset)
  {
    forall t, i :: t in tree.place && 0 <= i < Entries(tree, tree.place[t]) && i < PAGE_TABLE_ENTRIES_NUM ==>
      EntryOk(tree, offset, tree.place[t], i, tables[t][i])
  }

  ghost predicate AllPointedTo(tree: Tree, tables: Tables, offset: nat) {
    forall t :: t in tree.place && tree.place[t].level < 2 ==> PointedTo(tree, tables, offset, tree.place[t], t)
  }

  ghost predicate Wellformed(tree: Tree, tables: Tables, offset: nat) {
    Placed(tree) && Stored(tree, tables, offset) && EntriesOk(tree, tables, offset) &&
      AllPointedTo(tree, tables, offset)
  }

  /** The place of the table of this level on the walk for page `n`. */
  function OnWalk(root: nat, level: nat, n: nat): Place {
    Place(root, level, Prefix(n, level + 1))
  }

  /** The pages a root's own entries serve. */
  predicate InWindow(tree: Tree, root: nat, n: nat) {
    && Place(root, 2, 0) in tree.at && tree.at[Place(root, 2, 0)] == root
    && Prefix(n, 3) == 0 && root in tree.window && Index(n, 2) < tree.window[root]
  }

  function Lookup(tables: Tables, offset: nat, root: nat, n: nat): Option<Leaf> {
    Translate(tables, offset, root, 2, n)
  }

  /** How the kernel's tests and the manual's tests see the entries that occur in a tree. */
  lemma EntryKinds(tree: Tree, offset: nat, p: Place, i: nat, pte: nat)
    requires EntryOk(tree, offset, p, i, pte)
    requires forall q :: q in tree.at ==> Pointable(offset, tree.at[q])
    ensures pte == 0 ==> !IsValid(pte) && !IsLeafPte(pte)
    ensures LeafPte(pte, p.level) ==>
      pte != 0 && IsValid(pte) && IsLeafPte(pte) && (IsReadable(pte) || IsExecutable(pte)) &&
        (IsWritable(pte) ==> IsReadable(pte))
    ensures pte != 0 && !LeafPte(pte, p.level) ==>
      && IsValid(pte) && !IsLeafPte(pte) && p.level > 0 && ChildPlace(p, i) in tree.at
      && VaddrFromPte(offset, pte) == tree.at[ChildPlace(p, i)]
  {
    hide IsValid, IsReadable, IsWritable, IsExecutable, IsLeafPte, LeafPte, PointerPte, VaddrFromPte, Pointable;
    ZeroKinds();
    if pte == 0 {
    } else if LeafPte(pte, p.level) {
      LeafKinds(pte, p.level);
    } else {
      PointerKinds(offset, tree.at[ChildPlace(p, i)]);
    }
  }

  lemma ZeroKinds()
    ensures !IsValid(0) && !IsLeafPte(0) && IsValid(PTE_VALID) && !IsLeafPte(PTE_VALID)
    ensures forall level :: !LeafPte(0, level)
  {
  }

  lemma LeafKinds(pte: nat, level: nat)
    requires LeafPte(pte, level)
    ensures pte != 0 && IsValid(pte) && IsLeafPte(pte) && (IsReadable(pte) || IsExecutable(pte))
    ensures (IsWritable(pte) ==> IsReadable(pte))
  {
    hide Flags, Ppn, LevelPages, IsReadable, IsWritable, IsExecutable;
    FlagBits(pte);
  }

  lemma PointerKinds(offset: nat, table: nat)
    requires Pointable(offset, table)
    ensures var pte := PointerPte(offset, table); IsValid(pte) && !IsLeafPte(pte) && VaddrFromPte(offset, pte) == table
  {
    hide Flags, MakePte, VaddrFromPte, Pointable, IsValid, IsReadable, IsWritable, IsExecutable, IsLeafPte;
    PteRoundTrip(offset, table, PTE_VALID);
    FlagBits(PointerPte(offset, table));
    SameKinds(PointerPte(offset, table), PTE_VALID);
    ZeroKinds();
  }

  lemma SameKinds(pte: nat, pte': nat)
    requires IsReadable(pte) == IsReadable(pte') && IsWritable(pte) == IsWritable(pte')
    requires IsExecutable(pte) == IsExecutable(pte')
    ensures IsLeafPte(pte) == IsLeafPte(pte')
  {
    hide IsReadable, IsWritable, IsExecutable;
  }

  /** The entry that the walk for `n` looks at in its table of this level. */
  lemma EntryOnWalk(tree: Tree, tables: Tables, offset: nat, root: nat, level: nat, n: nat)
    requires Wellformed(tree, tables, offset) && InWindow(tree, root, n)
    requires OnWalk(root, level, n) in tree.at
    ensures level <= 2 && tree.at[OnWalk(root, level, n)] in tables
    ensures |tables[tree.at[OnWalk(root, level, n)]]| == PAGE_TABLE_ENTRIES_NUM
    ensures EntryOk(tree, offset, OnWalk(root, level, n), Index(n, level),
        tables[tree.at[OnWalk(root, level, n)]][Index(n, level)])
    ensures forall q :: q in tree.at ==> Pointable(offset, tree.at[q])
  {
    hide EntryOk, PointedTo, Pointable, Index;
    var p := OnWalk(root, level, n);
    assert tree.place[tree.at[p]] == p;
    assert Index(n, level) < Entries(tree, p);
  }

  /** Translation from the table at `OnWalk(root, level, n)` looks at one entry of it: nothing, a leaf, or the table
      below. */
  predicate Steps(tree: Tree, tables: Tables, offset: nat, root: nat, level: nat, n: nat) {
    && level <= 2 && OnWalk(root, level, n) in tree.at
    && var t := tree.at[OnWalk(root, level, n)];
    && t in tables && |tables[t]| == PAGE_TABLE_ENTRIES_NUM
    && var pte := tables[t][Index(n, level)];
    && (pte == 0 ==> Translate(tables, offset, t, level, n) == None)
    && (LeafPte(pte, level) ==>
      pte != 0 && IsLeafPte(pte) && Translate(tables, offset, t, level, n) == EntryLeaf(pte, level, n))
    && (pte != 0 && !LeafPte(pte, level) ==>
      && level > 0 && OnWalk(root, level - 1, n) in tree.at && !IsLeafPte(pte)
      && pte == PointerPte(offset, tree.at[OnWalk(root, level - 1, n)])
      && VaddrFromPte(offset, pte) == tree.at[OnWalk(root, level - 1, n)]
      && Translate(tables, offset, t, level, n) ==
        Translate(tables, offset, tree.at[OnWalk(root, level - 1, n)], level - 1, n))
  }

  lemma TranslateStep(tree: Tree, tables: Tables, offset: nat, root: nat, level: nat, n: nat)
    requires Wellformed(tree, tables, offset) && InWindow(tree, root, n)
    requires OnWalk(root, level, n) in tree.at
    ensures level <= 2 && Steps(tree, tables, offset, root, level, n)
  {
    EntryOnWalk(tree, tables, offset, root, level, n);
    var t := tree.at[OnWalk(root, level, n)];
    StepFromEntry(tree, tables, offset, root, level, n, t, tables[t][Index(n, level)]);
  }

  lemma StepFromEntry(tree: Tree, tables: Tables, offset: nat, root: nat, level: nat, n: nat, t: nat, pte: nat)
    requires level <= 2 && OnWalk(root, level, n) in tree.at && t == tree.at[OnWalk(root, level, n)]
    requires t in tables && |tables[t]| == PAGE_TABLE_ENTRIES_NUM && pte == tables[t][Index(n, level)]
    requires EntryOk(tree, offset, OnWalk(root, level, n), Index(n, level), pte)
    requires forall q :: q in tree.at ==> Pointable(offset, tree.at[q])
    ensures Steps(tree, tables, offset, root, level, n)
  {
    PrefixUp(n, level);
    EntryKinds(tree, offset, OnWalk(root, level, n), Index(n, level), pte);
    hide IsValid, IsReadable, IsWritable, IsExecutable, Pointable, Prefix, Index, EntryLeaf, PointerPte, VaddrFromPte;
    hide LeafPte, EntryOk;
    if pte == 0 {
    } else if LeafPte(pte, level) {
    } else {
      assert ChildPlace(OnWalk(root, level, n), Index(n, level)) == OnWalk(root, level - 1, n);
    }
  }

  /** Translation of `n` from its root arrives at every table on its walk. */
  lemma {:induction false} Reach(tree: Tree, tables: Tables, offset: nat, root: nat, level: nat, n: nat)
    requires Wellformed(tree, tables, offset) && InWindow(tree, root, n) && level <= 2
    requires OnWalk(root, level, n) in tree.at
    ensures Lookup(tables, offset, root, n) == Translate(tables, offset, tree.at[OnWalk(root, level, n)], level, n)
    decreases 2 - level
  {
    if level < 2 {
      PrefixUp(n, level + 1);
      ParentOnWalk(tree, tables, offset, root, level, n);
      TranslateStep(tree, tables, offset, root, level + 1, n);
      Reach(tree, tables, offset, root, level + 1, n);
    }
  }

  lemma ParentOnWalk(tree: Tree, tables: Tables, offset: nat, root: nat, level: nat, n: nat)
    requires Wellformed(tree, tables, offset) && InWindow(tree, root, n) && level < 2
    requires OnWalk(root, level, n) in tree.at
    ensures OnWalk(root, level + 1, n) in tree.at
    ensures tree.at[OnWalk(root, level + 1, n)] in tables
    ensures |tables[tree.at[OnWalk(root, level + 1, n)]]| == PAGE_TABLE_ENTRIES_NUM
    ensures var pte := tables[tree.at[OnWalk(root, level + 1, n)]][Index(n, level + 1)];
      pte == PointerPte(offset, tree.at[OnWalk(root, level, n)]) && pte != 0 && !LeafPte(pte, level + 1)
  {
    hide Wellformed, PointerPte, LeafPte, Entries, InWindow;
    PrefixUp(n, level + 1);
    var t := tree.at[OnWalk(root, level, n)];
    TableAt(tree, tables, offset, OnWalk(root, level, n));
    TablePointedTo(tree, tables, offset, t);
    PointerNotLeaf(offset, t, level + 1);
  }

  lemma TablePointedTo(tree: Tree, tables: Tables, offset: nat, t: nat)
    requires Wellformed(tree, tables, offset) && t in tree.place && tree.place[t].level < 2
    ensures PointedTo(tree, tables, offset, tree.place[t], t)
  {
    hide PointedTo, Placed, EntriesOk, Stored;
  }

  lemma PointerNotLeaf(offset: nat, table: nat, level: nat)
    ensures PointerPte(offset, table) != 0 && !LeafPte(PointerPte(offset, table), level)
    ensures Flags(PointerPte(offset, table)) == PTE_VALID
  {
    PteFlags(Va2Pa(offset, table), PTE_VALID);
    hide MakePte, Flags, Ppn, LevelPages, Va2Pa;
    assert !IsLeafPte(PTE_VALID);
    PointerNotZero(offset, table);
  }

  lemma PointerNotZero(offset: nat, table: nat)
    ensures PointerPte(offset, table) != 0
  {
  }

  /** The tables agree on the tables of the tree except in entry `i` of table `t`. */
  ghost predicate AgreeExcept(tree: Tree, tables: Tables, tables': Tables, t: nat, i: nat) {
    forall x :: x in tree.place ==>
      && x in tables && x in tables' && |tables[x]| == |tables'[x]| == PAGE_TABLE_ENTRIES_NUM
      && forall j :: 0 <= j < PAGE_TABLE_ENTRIES_NUM && !(x == t && j == i) ==> tables'[x][j] == tables[x][j]
  }

  /** The walk for `n` looks at entry `i` of the table at place `p`. */
  predicate Visits(p: Place, i: nat, root: nat, n: nat) {
    OnWalk(root, p.level, n) == p && Index(n, p.level) == i
  }

  lemma EntryUnchanged(tree: Tree, tables: Tables, tables': Tables, offset: nat, t: nat, i: nat, root: nat, level: nat,
      n: nat)
    requires Wellformed(tree, tables, offset) && OnWalk(root, level, n) in tree.at
    requires t in tree.place && AgreeExcept(tree, tables, tables', t, i) && !Visits(tree.place[t], i, root, n)
    ensures var x := tree.at[OnWalk(root, level, n)];
      && x in tables && x in tables' && |tables[x]| == |tables'[x]| == PAGE_TABLE_ENTRIES_NUM
      && tables'[x][Index(n, level)] == tables[x][Index(n, level)]
  {
    hide Index, EntryOk, PointedTo;
    var x := tree.at[OnWalk(root, level, n)];
    assert tree.place[x] == OnWalk(root, level, n);
  }

  /** A change of one entry leaves every translation alone that does not look at it. */
  lemma {:induction false} Elsewhere(tree: Tree, tables: Tables, tables': Tables, offset: nat, t: nat, i: nat,
      root: nat, level: nat, n: nat)
    requires Wellformed(tree, tables, offset) && InWindow(tree, root, n) && OnWalk(root, level, n) in tree.at
    requires t in tree.place && AgreeExcept(tree, tables, tables', t, i) && !Visits(tree.place[t], i, root, n)
    ensures Translate(tables', offset, tree.at[OnWalk(root, level, n)], level, n)
      == Translate(tables, offset, tree.at[OnWalk(root, level, n)], level, n)
    decreases level
  {
    hide Wellformed, AgreeExcept, Visits;
    TranslateStep(tree, tables, offset, root, level, n);
    EntryUnchanged(tree, tables, tables', offset, t, i, root, level, n);
    var pte := tables[tree.at[OnWalk(root, level, n)]][Index(n, level)];
    if pte != 0 && !LeafPte(pte, level) {
      Elsewhere(tree, tables, tables', offset, t, i, root, level - 1, n);
    }
    hide OnWalk, Index, LeafPte, LevelPages, IsValid, IsReadable, IsWritable, IsExecutable;
  }

  function WithEntry(entries: seq<nat>, i: nat, pte: nat): seq<nat>
    requires i < |entries|
  {
    entries[i := pte]
  }

  function SetEntry(tables: Tables, t: nat, i: nat, pte: nat): Tables
    requires t in tables && i < |tables[t]|
  {
    tables[t := WithEntry(tables[t], i, pte)]
  }

  /** Entry `i` of `t` belongs to the tree and does not point to a table. */
  predicate FreeEntry(tree: Tree, tables: Tables, t: nat, i: nat) {
    && t in tree.place && t in tables && |tables[t]| == PAGE_TABLE_ENTRIES_NUM
    && i < Entries(tree, tree.place[t]) && i < PAGE_TABLE_ENTRIES_NUM
    && (tables[t][i] == 0 || LeafPte(tables[t][i], tree.place[t].level))
  }

  lemma SetLeafWellformed(tree: Tree, tables: Tables, offset: nat, t: nat, i: nat, pte: nat)
    requires Wellformed(tree, tables, offset) && FreeEntry(tree, tables, t, i)
    requires pte == 0 || LeafPte(pte, tree.place[t].level)
    ensures Wellformed(tree, SetEntry(tables, t, i, pte), offset)
  {
    hide Placed, FreeEntry, SetEntry, EntriesOk, AllPointedTo, LeafPte;
    SetEntryStored(tree, tables, offset, t, i, pte);
    SetLeafEntriesOk(tree, tables, offset, t, i, pte);
    SetLeafPointedTo(tree, tables, offset, t, i, pte);
  }

  lemma SetEntryStored(tree: Tree, tables: Tables, offset: nat, t: nat, i: nat, pte: nat)
    requires Stored(tree, tables, offset) && FreeEntry(tree, tables, t, i)
    ensures Stored(tree, SetEntry(tables, t, i, pte), offset)
  {
    hide Pointable, Entries, LeafPte;
  }

  lemma SetLeafEntriesOk(tree: Tree, tables: Tables, offset: nat, t: nat, i: nat, pte: nat)
    requires Stored(tree, tables, offset) && EntriesOk(tree, tables, offset) && FreeEntry(tree, tables, t, i)
    requires pte == 0 || LeafPte(pte, tree.place[t].level)
    requires Stored(tree, SetEntry(tables, t, i, pte), offset)
    ensures EntriesOk(tree, SetEntry(tables, t, i, pte), offset)
  {
    hide Pointable, PointerPte, LeafPte, Entries;
    var tables' := SetEntry(tables, t, i, pte);
    forall x, j | x in tree.place && 0 <= j < Entries(tree, tree.place[x]) && j < PAGE_TABLE_ENTRIES_NUM
      ensures EntryOk(tree, offset, tree.place[x], j, tables'[x][j])
    {
      assert EntryOk(tree, offset, tree.place[x], j, tables[x][j]);
    }
  }

  lemma SetLeafPointedTo(tree: Tree, tables: Tables, offset: nat, t: nat, i: nat, pte: nat)
    requires Placed(tree) && Stored(tree, tables, offset) && AllPointedTo(tree, tables, offset)
    requires FreeEntry(tree, tables, t, i)
    ensures AllPointedTo(tree, SetEntry(tables, t, i, pte), offset)
  {
    hide Pointable, PointerPte, LeafPte, Entries, Placed, SetEntry;
    var tables' := SetEntry(tables, t, i, pte);
    forall x | x in tree.place && tree.place[x].level < 2
      ensures PointedTo(tree, tables', offset, tree.place[x], x)
    {
      NotThatEntry(tree, tables, offset, t, i, x);
      SetEntryAt(tables, t, i, pte, tree.at[ParentPlace(tree.place[x])], tree.place[x].prefix % 512);
    }
  }

  lemma SetEntryAt(tables: Tables, t: nat, i: nat, pte: nat, u: nat, j: nat)
    requires t in tables && i < |tables[t]| && u in tables && j < |tables[u]| && !(u == t && j == i)
    ensures var tables' := SetEntry(tables, t, i, pte);
      u in tables' && |tables'[u]| == |tables[u]| && tables'[u][j] == tables[u][j]
  {
  }

  /** A zero or leaf entry points to no table. */
  lemma NotThatEntry(tree: Tree, tables: Tables, offset: nat, t: nat, i: nat, x: nat)
    requires FreeEntry(tree, tables, t, i) && x in tree.place && PointedTo(tree, tables, offset, tree.place[x], x)
    ensures t in tables && i < |tables[t]|
    ensures !(tree.at[ParentPlace(tree.place[x])] == t && tree.place[x].prefix % 512 == i)
  {
    hide LeafPte, PointerPte, Entries;
    PointerNotLeaf(offset, x, tree.place[t].level);
  }

  /** Writing a leaf, or zero, changes the translation of the pages the entry serves, and of no other. */
  lemma SetLeafLookup(tree: Tree, tables: Tables, offset: nat, t: nat, i: nat, pte: nat, root: nat, n: nat)
    requires Wellformed(tree, tables, offset) && FreeEntry(tree, tables, t, i)
    requires pte == 0 || LeafPte(pte, tree.place[t].level)
    requires InWindow(tree, root, n)
    ensures Lookup(SetEntry(tables, t, i, pte), offset, root, n) ==
      if !Visits(tree.place[t], i, root, n) then Lookup(tables, offset, root, n)
      else if pte == 0 then None
      else EntryLeaf(pte, tree.place[t].level, n)
  {
    if Visits(tree.place[t], i, root, n) {
      SetLeafVisited(tree, tables, offset, t, i, pte, root, n);
    } else {
      var tables' := SetEntry(tables, t, i, pte);
      assert OnWalk(root, 2, n) == Place(root, 2, 0);
      assert AgreeExcept(tree, tables, tables', t, i);
      Elsewhere(tree, tables, tables', offset, t, i, root, 2, n);
    }
  }

  lemma SetLeafVisited(tree: Tree, tables: Tables, offset: nat, t: nat, i: nat, pte: nat, root: nat, n: nat)
    requires Wellformed(tree, tables, offset) && FreeEntry(tree, tables, t, i)
    requires pte == 0 || LeafPte(pte, tree.place[t].level)
    requires InWindow(tree, root, n) && Visits(tree.place[t], i, root, n)
    ensures Lookup(SetEntry(tables, t, i, pte), offset, root, n) ==
      if pte == 0 then None else EntryLeaf(pte, tree.place[t].level, n)
  {
    var tables' := SetEntry(tables, t, i, pte);
    var level := tree.place[t].level;
    PlacedAt(tree, t);
    SetLeafWellformed(tree, tables, offset, t, i, pte);
    hide Placed, Stored, EntriesOk, AllPointedTo, LeafPte, EntryLeaf, Entries, Lookup, Translate;
    Reach(tree, tables', offset, root, level, n);
    TranslateStep(tree, tables', offset, root, level, n);
  }

  lemma PlacedAt(tree: Tree, t: nat)
    requires Placed(tree) && t in tree.place
    ensures tree.place[t] in tree.at && tree.at[tree.place[t]] == t && tree.place[t].level <= 2
  {
  }

  /** What `memzero` leaves in `n` entries. */
  function Zeros(n: nat): (r: seq<nat>)
    ensures |r| == n && forall i :: 0 <= i < n ==> r[i] == 0
  {
    if n == 0 then [] else Zeros(n - 1) + [0]
  }

  /** The tree with table `c` below entry `i` of table `t`. */
  function Grown(tree: Tree, t: nat, i: nat, c: nat): Tree
    requires t in tree.place && tree.place[t].level > 0
  {
    Tree(tree.place[c := ChildPlace(tree.place[t], i)], tree.at[ChildPlace(tree.place[t], i) := c], tree.window)
  }

  function GrownTables(tables: Tables, offset: nat, t: nat, i: nat, c: nat): Tables
    requires t in tables && i < |tables[t]| && t != c
  {
    SetEntry(tables[c := Zeros(PAGE_TABLE_ENTRIES_NUM)], t, i, PointerPte(offset, c))
  }

  lemma ChildParent(p: Place, i: nat)
    requires p.level > 0 && i < PAGE_TABLE_ENTRIES_NUM
    ensures ParentPlace(ChildPlace(p, i)) == p && ChildPlace(p, i).prefix % 512 == i
  {
  }

  /** A place below an entry that points to no table is vacant. */
  lemma Vacant(tree: Tree, tables: Tables, offset: nat, t: nat, i: nat)
    requires Wellformed(tree, tables, offset) && FreeEntry(tree, tables, t, i) && tree.place[t].level > 0
    ensures ChildPlace(tree.place[t], i) !in tree.at
  {
    var p := ChildPlace(tree.place[t], i);
    ChildParent(tree.place[t], i);
    if p in tree.at {
      assert tree.place[tree.at[p]] == p && p.level < 2;
      assert PointedTo(tree, tables, offset, tree.place[tree.at[p]], tree.at[p]);
      PointerNotLeaf(offset, tree.at[p], tree.place[t].level);
    }
  }

  lemma GrownWellformed(tree: Tree, tables: Tables, offset: nat, t: nat, i: nat, c: nat)
    requires Wellformed(tree, tables, offset) && FreeEntry(tree, tables, t, i) && tree.place[t].level > 0
    requires c !in tables && Pointable(offset, c)
    ensures Wellformed(Grown(tree, t, i, c), GrownTables(tables, offset, t, i, c), offset)
  {
    hide Placed, EntriesOk, AllPointedTo, GrownTables, Grown, Pointable, Entries;
    Vacant(tree, tables, offset, t, i);
    GrownPlaced(tree, t, i, c);
    GrownStored(tree, tables, offset, t, i, c);
    GrownEntriesOk(tree, tables, offset, t, i, c);
    GrownAllPointedTo(tree, tables, offset, t, i, c);
  }

  lemma GrownPlaced(tree: Tree, t: nat, i: nat, c: nat)
    requires Placed(tree) && t in tree.place && tree.place[t].level > 0 && c !in tree.place
    requires ChildPlace(tree.place[t], i) !in tree.at
    ensures Placed(Grown(tree, t, i, c))
  {
  }

  lemma GrownStored(tree: Tree, tables: Tables, offset: nat, t: nat, i: nat, c: nat)
    requires Stored(tree, tables, offset) && FreeEntry(tree, tables, t, i) && tree.place[t].level > 0
    requires c !in tables && Pointable(offset, c)
    ensures Stored(Grown(tree, t, i, c), GrownTables(tables, offset, t, i, c), offset)
  {
    hide Pointable;
  }

  lemma GrownEntriesOk(tree: Tree, tables: Tables, offset: nat, t: nat, i: nat, c: nat)
    requires Stored(tree, tables, offset) && EntriesOk(tree, tables, offset)
    requires FreeEntry(tree, tables, t, i) && tree.place[t].level > 0 && c !in tables
    requires ChildPlace(tree.place[t], i) !in tree.at
    requires Stored(Grown(tree, t, i, c), GrownTables(tables, offset, t, i, c), offset)
    ensures EntriesOk(Grown(tree, t, i, c), GrownTables(tables, offset, t, i, c), offset)
  {
    hide Pointable, PointerPte, LeafPte;
    var tree', tables' := Grown(tree, t, i, c), GrownTables(tables, offset, t, i, c);
    forall x, j | x in tree'.place && 0 <= j < Entries(tree', tree'.place[x]) && j < PAGE_TABLE_ENTRIES_NUM
      ensures EntryOk(tree', offset, tree'.place[x], j, tables'[x][j])
    {
      if x != c {
        assert EntryOk(tree, offset, tree.place[x], j, tables[x][j]);
      }
    }
  }

  lemma GrownAllPointedTo(tree: Tree, tables: Tables, offset: nat, t: nat, i: nat, c: nat)
    requires Placed(tree) && Stored(tree, tables, offset) && AllPointedTo(tree, tables, offset)
    requires FreeEntry(tree, tables, t, i) && tree.place[t].level > 0 && c !in tables
    requires ChildPlace(tree.place[t], i) !in tree.at
    ensures AllPointedTo(Grown(tree, t, i, c), GrownTables(tables, offset, t, i, c), offset)
  {
    hide Pointable, PointerPte, LeafPte, Entries, Placed;
    var tree', tables' := Grown(tree, t, i, c), GrownTables(tables, offset, t, i, c);
    forall x | x in tree'.place && tree'.place[x].level < 2
      ensures PointedTo(tree', tables', offset, tree'.place[x], x)
    {
      if x == c {
        ChildPointedTo(tree, tables, offset, t, i, c);
      } else {
        NotThatEntry(tree, tables, offset, t, i, x);
        StillPointed(tree, tables, offset, t, i, c, x);
      }
    }
  }

  lemma ChildPointedTo(tree: Tree, tables: Tables, offset: nat, t: nat, i: nat, c: nat)
    requires Placed(tree) && FreeEntry(tree, tables, t, i) && tree.place[t].level > 0 && c !in tables
    requires c !in tree.place
    requires ChildPlace(tree.place[t], i) !in tree.at
    ensures PointedTo(Grown(tree, t, i, c), GrownTables(tables, offset, t, i, c), offset, ChildPlace(tree.place[t], i),
        c)
  {
    hide PointerPte, LeafPte;
    ChildParent(tree.place[t], i);
    assert tree.at[tree.place[t]] == t;
  }

  lemma StillPointed(tree: Tree, tables: Tables, offset: nat, t: nat, i: nat, c: nat, x: nat)
    requires t in tree.place && t in tables && i < |tables[t]| && tree.place[t].level > 0 && c !in tables
    requires ChildPlace(tree.place[t], i) !in tree.at
    requires x in tree.place && PointedTo(tree, tables, offset, tree.place[x], x)
    requires !(tree.at[ParentPlace(tree.place[x])] == t && tree.place[x].prefix % 512 == i)
    ensures PointedTo(Grown(tree, t, i, c), GrownTables(tables, offset, t, i, c), offset, tree.place[x], x)
  {
    hide PointerPte;
  }

  /** An empty table below an entry leaves the pages that entry served untranslated, and changes no other
      translation. */
  lemma GrownLookup(tree: Tree, tables: Tables, offset: nat, t: nat, i: nat, c: nat, root: nat, n: nat)
    requires Wellformed(tree, tables, offset) && FreeEntry(tree, tables, t, i) && tree.place[t].level > 0
    requires c !in tables && Pointable(offset, c) && InWindow(tree, root, n)
    ensures InWindow(Grown(tree, t, i, c), root, n)
    ensures Lookup(GrownTables(tables, offset, t, i, c), offset, root, n) ==
      if Visits(tree.place[t], i, root, n) then None else Lookup(tables, offset, root, n)
  {
    hide Wellformed, Pointable, Translate, Entries;
    GrownWindow(tree, tables, offset, t, i, c, root, n);
    if Visits(tree.place[t], i, root, n) {
      GrownVisited(tree, tables, offset, t, i, c, root, n);
    } else {
      GrownAgrees(tree, tables, offset, t, i, c);
      Elsewhere(tree, tables, GrownTables(tables, offset, t, i, c), offset, t, i, root, 2, n);
    }
  }

  lemma GrownWindow(tree: Tree, tables: Tables, offset: nat, t: nat, i: nat, c: nat, root: nat, n: nat)
    requires Wellformed(tree, tables, offset) && FreeEntry(tree, tables, t, i) && tree.place[t].level > 0
    requires InWindow(tree, root, n)
    ensures InWindow(Grown(tree, t, i, c), root, n) && OnWalk(root, 2, n) == Place(root, 2, 0)
  {
    Vacant(tree, tables, offset, t, i);
    hide Wellformed;
  }

  lemma GrownAgrees(tree: Tree, tables: Tables, offset: nat, t: nat, i: nat, c: nat)
    requires Wellformed(tree, tables, offset) && FreeEntry(tree, tables, t, i) && tree.place[t].level > 0
    requires c !in tables
    ensures AgreeExcept(tree, tables, GrownTables(tables, offset, t, i, c), t, i)
  {
    hide EntriesOk, AllPointedTo, Placed, Pointable, PointerPte;
  }

  lemma GrownVisited(tree: Tree, tables: Tables, offset: nat, t: nat, i: nat, c: nat, root: nat, n: nat)
    requires Wellformed(tree, tables, offset) && FreeEntry(tree, tables, t, i) && tree.place[t].level > 0
    requires c !in tables && Pointable(offset, c) && InWindow(tree, root, n)
    requires Visits(tree.place[t], i, root, n)
    ensures Lookup(GrownTables(tables, offset, t, i, c), offset, root, n) == None
  {
    hide Wellformed, Pointable, Translate, PointerPte, LeafPte, Entries, Prefix, InWindow;
    GrownWellformed(tree, tables, offset, t, i, c);
    GrownWindow(tree, tables, offset, t, i, c, root, n);
    var level := tree.place[t].level - 1;
    PrefixUp(n, level + 1);
    PlacedLevel(tree, tables, offset, t);
    assert OnWalk(root, level, n) == ChildPlace(tree.place[t], i);
    EmptyTable(Grown(tree, t, i, c), GrownTables(tables, offset, t, i, c), offset, root, level, n);
  }

  lemma EmptyTable(tree: Tree, tables: Tables, offset: nat, root: nat, level: nat, n: nat)
    requires Wellformed(tree, tables, offset) && InWindow(tree, root, n) && level <= 2
    requires OnWalk(root, level, n) in tree.at
    requires tree.at[OnWalk(root, level, n)] in tables
    requires tables[tree.at[OnWalk(root, level, n)]] == Zeros(PAGE_TABLE_ENTRIES_NUM)
    ensures Lookup(tables, offset, root, n) == None
  {
    Reach(tree, tables, offset, root, level, n);
    TranslateStep(tree, tables, offset, root, level, n);
  }

  /** The walk for `n` and the walk for `n0` look at the same entry of the table for `n0` at this level. */
  lemma VisitsIff(root0: nat, level: nat, n0: nat, root: nat, n: nat)
    ensures Visits(OnWalk(root0, level, n0), Index(n0, level), root, n) <==>
      root == root0 && Prefix(n, level) == Prefix(n0, level)
  {
    PrefixUp(n, level);
    PrefixUp(n0, level);
  }

  /** Page `n` lies under the leaf of a higher level than `level` that translates `n0`. */
  predicate UnderLeafAbove(was0: Option<Leaf>, level: nat, n0: nat, n: nat) {
    was0.Some? && was0.value.level > level && Prefix(n, was0.value.level) == Prefix(n0, was0.value.level)
  }

  /** What page `n` of root `root` translates to while a walk for `n0` of root `root0` has descended to `level`:
      a larger leaf that was in the way is gone. */
  function Descended(was: Option<Leaf>, was0: Option<Leaf>, root0: nat, n0: nat, level: nat, root: nat,
      n: nat): Option<Leaf> {
    if root == root0 && UnderLeafAbove(was0, level, n0, n) then None else was
  }

  /** What page `n` translates to after the walk for `n0` wrote its leaf. */
  function Remapped(was: Option<Leaf>, was0: Option<Leaf>, root0: nat, n0: nat, leaf: Leaf, root: nat,
      n: nat): Option<Leaf> {
    if root == root0 && Prefix(n, leaf.level) == Prefix(n0, leaf.level) then
      Some(Leaf(leaf.level, leaf.ppn + n % LevelPages(leaf.level), leaf.prot))
    else Descended(was, was0, root0, n0, leaf.level, root, n)
  }

  /** The walk passes a pointer: nothing changes. */
  lemma DescendPointer(tree: Tree, tables: Tables, offset: nat, root0: nat, n0: nat, level: nat,
                       was: Option<Leaf>, was0: Option<Leaf>, root: nat, n: nat)
    requires Wellformed(tree, tables, offset) && InWindow(tree, root0, n0) && 0 < level <= 2
    requires OnWalk(root0, level, n0) in tree.at
    requires Steps(tree, tables, offset, root0, level, n0)
    requires var pte := tables[tree.at[OnWalk(root0, level, n0)]][Index(n0, level)]; pte != 0 && !LeafPte(pte, level)
    requires Lookup(tables, offset, root0, n0) == Descended(was0, was0, root0, n0, level, root0, n0)
    ensures Descended(was, was0, root0, n0, level, root, n) == Descended(was, was0, root0, n0, level - 1, root, n)
  {
    Reach(tree, tables, offset, root0, level, n0);
    TranslateLevel(tables, offset, tree.at[OnWalk(root0, level - 1, n0)], level - 1, n0);
  }

  /** The walk replaces nothing, or a leaf, by an empty table. */
  lemma DescendGrown(tree: Tree, tables: Tables, offset: nat, root0: nat, n0: nat, level: nat, c: nat,
                     was: Option<Leaf>, was0: Option<Leaf>, root: nat, n: nat)
    requires Wellformed(tree, tables, offset) && InWindow(tree, root0, n0) && InWindow(tree, root, n)
    requires 0 < level <= 2 && OnWalk(root0, level, n0) in tree.at
    requires FreeEntry(tree, tables, tree.at[OnWalk(root0, level, n0)], Index(n0, level))
    requires tree.place[tree.at[OnWalk(root0, level, n0)]] == OnWalk(root0, level, n0)
    requires c !in tables && Pointable(offset, c)
    requires Lookup(tables, offset, root0, n0) == Descended(was0, was0, root0, n0, level, root0, n0)
    requires Lookup(tables, offset, root, n) == Descended(was, was0, root0, n0, level, root, n)
    ensures Lookup(GrownTables(tables, offset, tree.at[OnWalk(root0, level, n0)], Index(n0, level), c), offset, root, n)
      == Descended(was, was0, root0, n0, level - 1, root, n)
  {
    var t, i := tree.at[OnWalk(root0, level, n0)], Index(n0, level);
    GrownLookup(tree, tables, offset, t, i, c, root, n);
    VisitsIff(root0, level, n0, root, n);
    EntryOnWalk(tree, tables, offset, root0, level, n0);
    TranslateStep(tree, tables, offset, root0, level, n0);
    Reach(tree, tables, offset, root0, level, n0);
    if root == root0 && Prefix(n, level) == Prefix(n0, level) {
      PrefixMonotone(n, n0, level, level + 1);
      assert OnWalk(root, level, n) == OnWalk(root0, level, n0) && Index(n, level) == i;
      TranslateStep(tree, tables, offset, root, level, n);
      Reach(tree, tables, offset, root, level, n);
      if was0.Some? && was0.value.level > level {
        PrefixMonotone(n, n0, level, was0.value.level);
      }
    }
  }

  /** The walk writes its leaf. */
  lemma WriteLeaf(tree: Tree, tables: Tables, offset: nat, root0: nat, n0: nat, leaf: Leaf, pte: nat,
                  was: Option<Leaf>, was0: Option<Leaf>, root: nat, n: nat)
    requires Wellformed(tree, tables, offset) && InWindow(tree, root, n)
    requires OnWalk(root0, leaf.level, n0) in tree.at
    requires FreeEntry(tree, tables, tree.at[OnWalk(root0, leaf.level, n0)], Index(n0, leaf.level))
    requires tree.place[tree.at[OnWalk(root0, leaf.level, n0)]] == OnWalk(root0, leaf.level, n0)
    requires LeafPte(pte, leaf.level) && Ppn(pte) == leaf.ppn && Flags(pte) == leaf.prot
    requires Lookup(tables, offset, root, n) == Descended(was, was0, root0, n0, leaf.level, root, n)
    ensures Lookup(SetEntry(tables, tree.at[OnWalk(root0, leaf.level, n0)], Index(n0, leaf.level), pte), offset, root,
        n)
      == Remapped(was, was0, root0, n0, leaf, root, n)
  {
    hide Wellformed;
    var t, i := tree.at[OnWalk(root0, leaf.level, n0)], Index(n0, leaf.level);
    SetLeafLookup(tree, tables, offset, t, i, pte, root, n);
    VisitsIff(root0, leaf.level, n0, root, n);
    PteNotZero(pte, leaf.level);
  }

  lemma PteNotZero(pte: nat, level: nat)
    requires LeafPte(pte, level)
    ensures pte != 0
  {
    FlagBits(pte);
  }

  /** Every page translates as it did at the start of a walk for `n0`, except what the walk took out of the way so
      far. */
  ghost predicate AllDescended(tree0: Tree, tables0: Tables, tree: Tree, tables: Tables, offset: nat, root0: nat,
      n0: nat, level: nat) {
    forall root, n :: InWindow(tree0, root, n) ==>
      && InWindow(tree, root, n)
      && Lookup(tables, offset, root, n)
        == Descended(Lookup(tables0, offset, root, n), Lookup(tables0, offset, root0, n0), root0, n0, level, root, n)
  }

  /** Every page translates as it has to after a walk for `n0` wrote `leaf`. */
  ghost predicate AllRemapped(tree0: Tree, tables0: Tables, tree: Tree, tables: Tables, offset: nat, root0: nat,
      n0: nat, leaf: Leaf) {
    forall root, n :: InWindow(tree0, root, n) ==>
      && InWindow(tree, root, n)
      && Lookup(tables, offset, root, n)
        == Remapped(Lookup(tables0, offset, root, n), Lookup(tables0, offset, root0, n0), root0, n0, leaf, root, n)
  }

  lemma AllDescendedStart(tree: Tree, tables: Tables, offset: nat, root0: nat, n0: nat)
    ensures AllDescended(tree, tables, tree, tables, offset, root0, n0, 2)
  {
    forall root, n | InWindow(tree, root, n)
      ensures Lookup(tables, offset, root, n) ==
        Descended(Lookup(tables, offset, root, n), Lookup(tables, offset, root0, n0), root0, n0, 2, root, n)
    {
      TranslateLevel(tables, offset, root0, 2, n0);
    }
  }

  lemma DescendedWindow(tree0: Tree, tables0: Tables, tree: Tree, tables: Tables, offset: nat, root0: nat, n0: nat,
      level: nat)
    requires AllDescended(tree0, tables0, tree, tables, offset, root0, n0, level) && InWindow(tree0, root0, n0)
    ensures InWindow(tree, root0, n0)
  {
  }

  lemma AllDescendedPointer(tree0: Tree, tables0: Tables, tree: Tree, tables: Tables, offset: nat, root0: nat, n0: nat,
      level: nat)
    requires AllDescended(tree0, tables0, tree, tables, offset, root0, n0, level)
    requires Wellformed(tree, tables, offset) && InWindow(tree0, root0, n0) && 0 < level <= 2
    requires OnWalk(root0, level, n0) in tree.at
    requires Steps(tree, tables, offset, root0, level, n0)
    requires var pte := tables[tree.at[OnWalk(root0, level, n0)]][Index(n0, level)]; pte != 0 && !LeafPte(pte, level)
    ensures AllDescended(tree0, tables0, tree, tables, offset, root0, n0, level - 1)
  {
    hide Wellformed, Steps;
    forall root, n | InWindow(tree0, root, n)
      ensures Lookup(tables, offset, root, n) ==
        Descended(Lookup(tables0, offset, root, n), Lookup(tables0, offset, root0, n0), root0, n0, level - 1, root, n)
    {
      DescendPointer(tree, tables, offset, root0, n0, level, Lookup(tables0, offset, root, n),
          Lookup(tables0, offset, root0, n0), root, n);
    }
  }

  lemma AllDescendedGrown(tree0: Tree, tables0: Tables, tree: Tree, tables: Tables, offset: nat, root0: nat, n0: nat,
      level: nat, c: nat)
    requires AllDescended(tree0, tables0, tree, tables, offset, root0, n0, level)
    requires Wellformed(tree, tables, offset) && InWindow(tree0, root0, n0) && 0 < level <= 2
    requires OnWalk(root0, level, n0) in tree.at
    requires FreeEntry(tree, tables, tree.at[OnWalk(root0, level, n0)], Index(n0, level))
    requires tree.place[tree.at[OnWalk(root0, level, n0)]] == OnWalk(root0, level, n0)
    requires c !in tables && Pointable(offset, c)
    ensures var t, i := tree.at[OnWalk(root0, level, n0)], Index(n0, level);
      AllDescended(tree0, tables0, Grown(tree, t, i, c), GrownTables(tables, offset, t, i, c), offset, root0, n0,
          level - 1)
  {
    hide Wellformed, Pointable, Translate, Descended, Index, Grown, GrownTables, InWindow, Entries, LeafPte;
    var t, i := tree.at[OnWalk(root0, level, n0)], Index(n0, level);
    forall root, n | InWindow(tree0, root, n)
      ensures InWindow(Grown(tree, t, i, c), root, n)
      ensures Lookup(GrownTables(tables, offset, t, i, c), offset, root, n) ==
        Descended(Lookup(tables0, offset, root, n), Lookup(tables0, offset, root0, n0), root0, n0, level - 1, root, n)
    {
      GrownLookup(tree, tables, offset, t, i, c, root, n);
      DescendGrown(tree, tables, offset, root0, n0, level, c, Lookup(tables0, offset, root, n),
          Lookup(tables0, offset, root0, n0), root, n);
    }
  }

  lemma AllRemappedWrite(tree0: Tree, tables0: Tables, tree: Tree, tables: Tables, offset: nat, root0: nat, n0: nat,
      leaf: Leaf, pte: nat)
    requires AllDescended(tree0, tables0, tree, tables, offset, root0, n0, leaf.level)
    requires Wellformed(tree, tables, offset) && OnWalk(root0, leaf.level, n0) in tree.at
    requires FreeEntry(tree, tables, tree.at[OnWalk(root0, leaf.level, n0)], Index(n0, leaf.level))
    requires tree.place[tree.at[OnWalk(root0, leaf.level, n0)]] == OnWalk(root0, leaf.level, n0)
    requires LeafPte(pte, leaf.level) && Ppn(pte) == leaf.ppn && Flags(pte) == leaf.prot
    ensures AllRemapped(tree0, tables0, tree,
        SetEntry(tables, tree.at[OnWalk(root0, leaf.level, n0)], Index(n0, leaf.level), pte), offset, root0, n0, leaf)
  {
    hide Wellformed, Translate, Descended, Remapped, Index, SetEntry, InWindow, LeafPte, Entries;
    forall root, n | InWindow(tree0, root, n)
      ensures Lookup(SetEntry(tables, tree.at[OnWalk(root0, leaf.level, n0)], Index(n0, leaf.level), pte), offset, root,
          n) ==
        Remapped(Lookup(tables0, offset, root, n), Lookup(tables0, offset, root0, n0), root0, n0, leaf, root, n)
    {
      WriteLeaf(tree, tables, offset, root0, n0, leaf, pte, Lookup(tables0, offset, root, n),
          Lookup(tables0, offset, root0, n0), root, n);
    }
  }

  /** The table on a walk at this level, and whether its entry is free or points to the next table. */
  lemma WalkEntry(tree: Tree, tables: Tables, offset: nat, root: nat, level: nat, n: nat)
    requires Wellformed(tree, tables, offset) && InWindow(tree, root, n) && OnWalk(root, level, n) in tree.at
    ensures var t := tree.at[OnWalk(root, level, n)];
      && t in tree.place && tree.place[t] == OnWalk(root, level, n) && t in tables
      && |tables[t]| == PAGE_TABLE_ENTRIES_NUM
      && level <= 2 && Steps(tree, tables, offset, root, level, n)
      && (tables[t][Index(n, level)] == 0 || IsLeafPte(tables[t][Index(n, level)]) ==>
        FreeEntry(tree, tables, t, Index(n, level)))
      && (!(tables[t][Index(n, level)] == 0 || IsLeafPte(tables[t][Index(n, level)])) ==>
        && tables[t][Index(n, level)] != 0 && !LeafPte(tables[t][Index(n, level)], level)
        && level > 0 && OnWalk(root, level - 1, n) in tree.at
        && VaddrFromPte(offset, tables[t][Index(n, level)]) == tree.at[OnWalk(root, level - 1, n)])
  {
    TranslateStep(tree, tables, offset, root, level, n);
    var t := tree.at[OnWalk(root, level, n)];
    assert tree.place[t] == OnWalk(root, level, n);
    hide Wellformed, LeafPte;
  }

  lemma GrownAt(tree: Tree, t: nat, i: nat, c: nat, root: nat, level: nat, n: nat)
    requires t in tree.place && tree.place[t] == OnWalk(root, level, n) && level > 0 && i == Index(n, level)
    ensures OnWalk(root, level - 1, n) in Grown(tree, t, i, c).at
    ensures Grown(tree, t, i, c).at[OnWalk(root, level - 1, n)] == c
    ensures forall p :: p in Grown(tree, t, i, c).at ==> p in tree.at || p == OnWalk(root, level - 1, n)
    ensures Grown(tree, t, i, c).window == tree.window
  {
    PrefixUp(n, level);
  }

  /** Some page from `lo` up to `hi` lies under the same entry of this level as `n`. */
  predicate Covers(lo: nat, hi: nat, level: nat, n: nat) {
    exists m :: lo <= m < hi && Prefix(m, level) == Prefix(n, level)
  }

  /** What page `n` translates to after the pages of root `root0` from `lo` up to `hi` were mapped to
      consecutive pages from `leaf.ppn`: a larger leaf that covered one of them is gone. */
  function Mapped(was: Option<Leaf>, root0: nat, lo: nat, hi: nat, leaf: Leaf, root: nat, n: nat): Option<Leaf> {
    if root == root0 && lo <= n < hi then Some(Leaf(leaf.level, leaf.ppn + (n - lo), leaf.prot))
    else if root == root0 && was.Some? && was.value.level > leaf.level && Covers(lo, hi, was.value.level, n) then None
    else was
  }

  ghost predicate AllMapped(tree0: Tree, tables0: Tables, tree: Tree, tables: Tables, offset: nat, root0: nat, lo: nat,
      hi: nat, leaf: Leaf) {
    forall root, n :: InWindow(tree0, root, n) ==>
      && InWindow(tree, root, n)
      && Lookup(tables, offset, root, n) == Mapped(Lookup(tables0, offset, root, n), root0, lo, hi, leaf, root, n)
  }

  /** The pages under one leaf of level 0 or 1. */
  lemma LeafSpan(level: nat, m: nat, n: nat)
    requires level <= 1 && m % LevelPages(level) == 0
    ensures Prefix(n, level) == Prefix(m, level) <==> m <= n < m + LevelPages(level)
    ensures m <= n < m + LevelPages(level) ==> n % LevelPages(level) == n - m
  {
    hide Prefix;
    assert LevelPages(0) == 1 && LevelPages(1) == 512;
    Prefixes(n);
    Prefixes(m);
  }

  /** One more leaf of a range. */
  lemma MappedStep(tree0: Tree, tables0: Tables, tree1: Tree, tables1: Tables, tree2: Tree, tables2: Tables,
      offset: nat,
                   root0: nat, lo: nat, mid: nat, leaf: Leaf, n: nat)
    requires AllMapped(tree0, tables0, tree1, tables1, offset, root0, lo, mid, leaf)
    requires lo <= mid
    requires AllRemapped(tree1, tables1, tree2, tables2, offset, root0, mid,
        Leaf(leaf.level, leaf.ppn + (mid - lo), leaf.prot))
    requires leaf.level <= 1 && mid % LevelPages(leaf.level) == 0
    requires InWindow(tree0, root0, mid) && InWindow(tree0, root0, n)
    ensures Lookup(tables2, offset, root0, n) ==
      Mapped(Lookup(tables0, offset, root0, n), root0, lo, mid + LevelPages(leaf.level), leaf, root0, n)
  {
    hide Translate, InWindow;
    LeafSpan(leaf.level, mid, n);
    var was, was0 := Lookup(tables0, offset, root0, n), Lookup(tables0, offset, root0, mid);
    if !(lo <= n < mid + LevelPages(leaf.level)) {
      if was0.Some? && Prefix(n, was0.value.level) == Prefix(mid, was0.value.level) {
        SameLeaf(tables0, offset, root0, 2, n, mid);
      }
      if was.Some? && was.value.level > leaf.level {
        if Prefix(n, was.value.level) == Prefix(mid, was.value.level) {
          SameLeaf(tables0, offset, root0, 2, mid, n);
        }
        CoversStep(lo, mid, leaf.level, was.value.level, n);
      }
    }
  }

  lemma CoversStep(lo: nat, mid: nat, leafLevel: nat, level: nat, n: nat)
    requires leafLevel <= 1 && lo <= mid && mid % LevelPages(leafLevel) == 0 && leafLevel < level
    ensures Covers(lo, mid + LevelPages(leafLevel), level, n) <==>
      Covers(lo, mid, level, n) || Prefix(mid, level) == Prefix(n, level)
  {
    forall m | mid <= m < mid + LevelPages(leafLevel) ensures Prefix(m, level) == Prefix(mid, level) {
      LeafSpan(leafLevel, mid, m);
      PrefixMonotone(m, mid, leafLevel, level);
    }
  }

  lemma AllMappedStep(tree0: Tree, tables0: Tables, tree1: Tree, tables1: Tables, tree2: Tree, tables2: Tables,
      offset: nat,
                      root0: nat, lo: nat, mid: nat, leaf: Leaf)
    requires AllMapped(tree0, tables0, tree1, tables1, offset, root0, lo, mid, leaf)
    requires lo <= mid
    requires AllRemapped(tree1, tables1, tree2, tables2, offset, root0, mid,
        Leaf(leaf.level, leaf.ppn + (mid - lo), leaf.prot))
    requires leaf.level <= 1 && mid % LevelPages(leaf.level) == 0 && InWindow(tree0, root0, mid)
    ensures AllMapped(tree0, tables0, tree2, tables2, offset, root0, lo, mid + LevelPages(leaf.level), leaf)
  {
    forall root, n | InWindow(tree0, root, n)
      ensures InWindow(tree2, root, n)
      ensures Lookup(tables2, offset, root, n) ==
        Mapped(Lookup(tables0, offset, root, n), root0, lo, mid + LevelPages(leaf.level), leaf, root, n)
    {
      if root == root0 {
        MappedStep(tree0, tables0, tree1, tables1, tree2, tables2, offset, root0, lo, mid, leaf, n);
      }
    }
  }

  lemma GrownKeys(tables: Tables, offset: nat, t: nat, i: nat, c: nat)
    requires t in tables && i < |tables[t]| && t != c
    ensures GrownTables(tables, offset, t, i, c).Keys == tables.Keys + {c}
  {
  }

  /** The tree of a single root without tables below it. */
  function RootAlone(root: nat): Tree {
    Tree(map[root := Place(root, 2, 0)], map[Place(root, 2, 0) := root], map[root := PAGE_TABLE_ENTRIES_NUM])
  }

  /** Every entry is zero or a leaf of level 2. */
  ghost predicate GigabyteEntries(entries: seq<nat>) {
    && |entries| == PAGE_TABLE_ENTRIES_NUM
    && forall i :: 0 <= i < PAGE_TABLE_ENTRIES_NUM ==> entries[i] == 0 || LeafPte(entries[i], 2)
  }

  lemma RootAloneWellformed(root: nat, entries: seq<nat>, offset: nat)
    requires Pointable(offset, root) && GigabyteEntries(entries)
    ensures Wellformed(RootAlone(root), map[root := entries], offset)
  {
    hide Pointable, LeafPte;
  }

  /** What a root without tables below it says about page `n`. */
  lemma RootAloneLookup(root: nat, entries: seq<nat>, offset: nat, n: nat)
    requires GigabyteEntries(entries) && n < 0x800_0000
    ensures n / 0x4_0000 < PAGE_TABLE_ENTRIES_NUM && InWindow(RootAlone(root), root, n)
    ensures Lookup(map[root := entries], offset, root, n) ==
      if entries[n / 0x4_0000] == 0 then None
      else Some(Leaf(2, Ppn(entries[n / 0x4_0000]) + n % 0x4_0000, Flags(entries[n / 0x4_0000])))
  {
    Prefixes(n);
    DivDiv512(n);
    assert LevelPages(2) == 0x4_0000 by { assert LevelPages(1) == 512; }
    FlagBits(entries[n / 0x4_0000]);
  }

  lemma AllMappedStart(tree: Tree, tables: Tables, offset: nat, root0: nat, lo: nat, leaf: Leaf)
    ensures AllMapped(tree, tables, tree, tables, offset, root0, lo, lo, leaf)
  {
  }

  lemma AllMappedWindow(tree0: Tree, tables0: Tables, tree: Tree, tables: Tables, offset: nat, root0: nat, lo: nat,
      hi: nat, leaf: Leaf, n: nat)
    requires AllMapped(tree0, tables0, tree, tables, offset, root0, lo, hi, leaf) && InWindow(tree0, root0, n)
    ensures InWindow(tree, root0, n)
  {
  }

  /** The entry that a walk for page number `n` reaches at `level` does not point to a table. */
  predicate NoTableBelow(tree: Tree, root: nat, n: nat, level: nat) {
    level > 0 ==> OnWalk(root, level - 1, n) !in tree.at
  }

  /** What entry `i` of the table at `p` is. */
  predicate EntryKind(tree: Tree, tables: Tables, offset: nat, p: Place, i: nat) {
    && p in tree.at && tree.at[p] in tables && i < |tables[tree.at[p]]|
    && var pte := tables[tree.at[p]][i];
    && (pte == 0 || !IsValid(pte) ==> pte == 0)
    && (pte != 0 && IsLeafPte(pte) ==> LeafPte(pte, p.level))
    && (pte != 0 && !IsLeafPte(pte) ==>
      p.level > 0 && ChildPlace(p, i) in tree.at && VaddrFromPte(offset, pte) == tree.at[ChildPlace(p, i)])
  }

  lemma TableAt(tree: Tree, tables: Tables, offset: nat, p: Place)
    requires Wellformed(tree, tables, offset) && p in tree.at
    ensures tree.at[p] in tree.place && tree.place[tree.at[p]] == p
    ensures tree.at[p] in tables && |tables[tree.at[p]]| == PAGE_TABLE_ENTRIES_NUM && p.level <= 2
    ensures Pointable(offset, tree.at[p])
  {
    hide EntryOk, PointedTo, Pointable;
  }

  lemma EntryAtPlace(tree: Tree, tables: Tables, offset: nat, p: Place, i: nat)
    requires Wellformed(tree, tables, offset) && p in tree.at && i < Entries(tree, p) && i < PAGE_TABLE_ENTRIES_NUM
    ensures EntryKind(tree, tables, offset, p, i)
  {
    EntryAtOk(tree, tables, offset, p, i);
    EntryKinds(tree, offset, p, i, tables[tree.at[p]][i]);
  }

  lemma EntryAtOk(tree: Tree, tables: Tables, offset: nat, p: Place, i: nat)
    requires Wellformed(tree, tables, offset) && p in tree.at && i < Entries(tree, p) && i < PAGE_TABLE_ENTRIES_NUM
    ensures tree.at[p] in tables && |tables[tree.at[p]]| == PAGE_TABLE_ENTRIES_NUM
    ensures EntryOk(tree, offset, p, i, tables[tree.at[p]][i])
    ensures forall q :: q in tree.at ==> Pointable(offset, tree.at[q])
  {
    hide EntryOk, PointedTo, Pointable, Entries;
    assert tree.place[tree.at[p]] == p;
  }

  ghost predicate KeepsPlaces(tree0: Tree, tree: Tree) {
    forall t :: t in tree0.place ==> t in tree.place && tree.place[t] == tree0.place[t]
  }

  /** The tree grew: new tables lie below `root` alone, at `level` or above. */
  ghost predicate Extends(tree0: Tree, tree: Tree, root: nat, level: nat) {
    && tree.window == tree0.window && KeepsPlaces(tree0, tree)
    && (forall t :: t in tree.place && t !in tree0.place ==>
      tree.place[t].root == root && level <= tree.place[t].level < 2)
    && (forall p :: p in tree.at ==> p in tree0.at || (p.root == root && p.level >= level))
  }

  lemma ExtendsKeeps(tree0: Tree, tree: Tree, root: nat, level: nat)
    requires Extends(tree0, tree, root, level)
    ensures KeepsPlaces(tree0, tree) && tree.window == tree0.window
    ensures forall t :: t in tree.place && t !in tree0.place ==> tree.place[t].level < 2
  {
  }

  /** Only entries in the window of one root changed: not those of other roots, and none outside the windows. */
  ghost predicate OnlyWithin(tree0: Tree, tables0: Tables, tables: Tables, root: nat) {
    forall t :: t in tree0.place ==>
      && t in tables0 && t in tables && |tables[t]| == |tables0[t]|
      && (tree0.place[t].root != root ==> tables[t] == tables0[t])
      && forall i :: Entries(tree0, tree0.place[t]) <= i < |tables0[t]| ==> tables[t][i] == tables0[t][i]
  }

  lemma WithinItself(tree: Tree, tables: Tables, offset: nat, root: nat)
    requires Wellformed(tree, tables, offset)
    ensures OnlyWithin(tree, tables, tables, root)
  {
    StoredKeys(tree, tables, offset);
    hide Wellformed;
  }

  lemma WithinTwice(tree0: Tree, tables0: Tables, tree1: Tree, tables1: Tables, tables2: Tables, root: nat, level: nat)
    requires OnlyWithin(tree0, tables0, tables1, root) && OnlyWithin(tree1, tables1, tables2, root)
    requires Extends(tree0, tree1, root, level)
    ensures OnlyWithin(tree0, tables0, tables2, root)
  {
  }

  lemma EntryWithin(tree: Tree, tables0: Tables, tables: Tables, t: nat, i: nat, pte: nat)
    requires t in tree.place && OnlyWithin(tree, tables0, tables, tree.place[t].root)
    requires t in tables && i < |tables[t]| && i < Entries(tree, tree.place[t])
    ensures OnlyWithin(tree, tables0, SetEntry(tables, t, i, pte), tree.place[t].root)
  {
    hide Entries;
  }

  lemma SetWithin(tree: Tree, tables: Tables, offset: nat, t: nat, i: nat, pte: nat)
    requires Wellformed(tree, tables, offset) && FreeEntry(tree, tables, t, i)
    ensures OnlyWithin(tree, tables, SetEntry(tables, t, i, pte), tree.place[t].root)
  {
    hide Wellformed, LeafPte, OnlyWithin, SetEntry;
    WithinItself(tree, tables, offset, tree.place[t].root);
    EntryWithin(tree, tables, tables, t, i, pte);
  }

  lemma GrownWithin(tree: Tree, tables: Tables, offset: nat, t: nat, i: nat, c: nat)
    requires Wellformed(tree, tables, offset) && FreeEntry(tree, tables, t, i) && c !in tables
    ensures OnlyWithin(tree, tables, GrownTables(tables, offset, t, i, c), tree.place[t].root)
  {
    hide Wellformed, LeafPte, PointerPte, OnlyWithin, SetEntry;
    StoredKeys(tree, tables, offset);
    WithinItself(tree, tables, offset, tree.place[t].root);
    var zeroed := tables[c := Zeros(PAGE_TABLE_ENTRIES_NUM)];
    AddedWithin(tree, tables, zeroed, tree.place[t].root, c);
    EntryWithin(tree, tables, zeroed, t, i, PointerPte(offset, c));
  }

  lemma AddedWithin(tree: Tree, tables: Tables, more: Tables, root: nat, c: nat)
    requires OnlyWithin(tree, tables, tables, root) && c !in tree.place && c in more && more == tables[c := more[c]]
    ensures OnlyWithin(tree, tables, more, root)
  {
    hide Entries;
  }

  lemma ExtendsItself(tree: Tree, root: nat, level: nat)
    ensures Extends(tree, tree, root, level)
  {
  }

  lemma ExtendsTwice(tree0: Tree, tree1: Tree, tree2: Tree, root: nat, level1: nat, level2: nat)
    requires Extends(tree0, tree1, root, level1) && Extends(tree1, tree2, root, level2) && level2 <= level1
    ensures Extends(tree0, tree2, root, level2)
  {
  }

  lemma NoTableStill(tree0: Tree, tree: Tree, root: nat, n: nat, level: nat)
    requires Extends(tree0, tree, root, level) && NoTableBelow(tree0, root, n, level)
    ensures NoTableBelow(tree, root, n, level)
  {
  }

  lemma WalkStart(tree: Tree, tables: Tables, offset: nat, root: nat, n: nat)
    requires Wellformed(tree, tables, offset) && InWindow(tree, root, n)
    ensures OnWalk(root, 2, n) in tree.at && tree.at[OnWalk(root, 2, n)] == root && Placed(tree)
  {
  }

  lemma GrownExtends(tree: Tree, tables: Tables, offset: nat, t: nat, i: nat, c: nat)
    requires Wellformed(tree, tables, offset) && t in tree.place && 0 < tree.place[t].level && c !in tables
    ensures Extends(tree, Grown(tree, t, i, c), tree.place[t].root, tree.place[t].level - 1)
    ensures KeepsPlaces(tree, Grown(tree, t, i, c))
  {
    hide EntriesOk, AllPointedTo, Stored, Pointable;
    assert c !in tree.place by { StoredKeys(tree, tables, offset); }
    hide Wellformed;
    var p := ChildPlace(tree.place[t], i);
    assert tree.place[t].level <= 2 by { PlacedLevel(tree, tables, offset, t); }
    assert Grown(tree, t, i, c).at == tree.at[p := c] && Grown(tree, t, i, c).place == tree.place[c := p];
  }

  lemma StoredKeys(tree: Tree, tables: Tables, offset: nat)
    requires Wellformed(tree, tables, offset)
    ensures tables.Keys == tree.place.Keys
  {
    hide Pointable, EntriesOk, AllPointedTo;
  }

  lemma PlacedLevel(tree: Tree, tables: Tables, offset: nat, t: nat)
    requires Wellformed(tree, tables, offset) && t in tree.place
    ensures tree.place[t].level <= 2
  {
    hide EntriesOk, AllPointedTo, Stored;
  }
}
