/** What a traversal of the leaves of an address space has to visit, in terms of translation alone. */
module Traversal {
  import opened Sv39
  import opened PageTree

  /** The first page that entry number `k` of this level serves, counting from page 0. */
  function EntryPage(level: nat, k: nat): nat {
    if level == 0 then k else 512 * EntryPage(level - 1, k)
  }

  lemma {:induction false} EntryPages(level: nat, k: nat, n: nat)
    ensures Prefix(n, level) == k <==> EntryPage(level, k) <= n < EntryPage(level, k + 1)
    ensures EntryPage(level, k + 1) == EntryPage(level, k) + LevelPages(level)
    ensures EntryPage(level, 512 * k) == EntryPage(level + 1, k)
  {
    if level > 0 { EntryPages(level - 1, k, n / 512); }
  }

  lemma {:induction false} EntryPageMonotone(level: nat, j: nat, k: nat)
    requires j <= k
    ensures EntryPage(level, j) <= EntryPage(level, k)
  {
    if level > 0 { EntryPageMonotone(level - 1, j, k); }
  }

  /** One leaf that is visited: its first page, where its entry is, and the entry. */
  datatype Visit = Visit(page: nat, table: nat, index: nat, pte: nat)

  /** Page `n` is the first page of a leaf. */
  predicate IsHead(tables: Tables, offset: nat, root: nat, n: nat) {
    Lookup(tables, offset, root, n).Some? &&
      EntryPage(Lookup(tables, offset, root, n).value.level, Prefix(n, Lookup(tables, offset, root, n).value.level)) ==
        n
  }

  /** The bytes of the leaf whose first page is `n` meet the range from `start` up to `end`. */
  predicate Meets(tables: Tables, offset: nat, root: nat, n: nat, start: nat, end: nat)
    requires IsHead(tables, offset, root, n)
  {
    4096 * n < end && start < 4096 * (n + LevelPages(Lookup(tables, offset, root, n).value.level))
  }

  predicate ToVisit(tables: Tables, offset: nat, root: nat, n: nat, start: nat, end: nat) {
    IsHead(tables, offset, root, n) && Meets(tables, offset, root, n, start, end)
  }

  /** The entry named by the visit is the leaf that translates its page. */
  predicate VisitsLeaf(tables: Tables, offset: nat, root: nat, v: Visit) {
    && v.table in tables && v.index < |tables[v.table]| && tables[v.table][v.index] == v.pte
    && Lookup(tables, offset, root, v.page).Some?
    && var leaf := Lookup(tables, offset, root, v.page).value;
       Ppn(v.pte) == leaf.ppn && Flags(v.pte) == leaf.prot
  }

  ghost predicate Ascending(visits: seq<Visit>) {
    forall i, j :: 0 <= i < j < |visits| ==> visits[i].page < visits[j].page
  }

  ghost predicate Visited(visits: seq<Visit>, n: nat) {
    exists k :: 0 <= k < |visits| && visits[k].page == n
  }

  ghost predicate OnlyLeaves(tables: Tables, offset: nat, root: nat, lo: nat, hi: nat, start: nat, end: nat,
      visits: seq<Visit>) {
    forall k :: 0 <= k < |visits| ==>
      && lo <= visits[k].page < hi
      && ToVisit(tables, offset, root, visits[k].page, start, end) && VisitsLeaf(tables, offset, root, visits[k])
  }

  ghost predicate EveryLeaf(tables: Tables, offset: nat, root: nat, lo: nat, hi: nat, start: nat, end: nat,
      visits: seq<Visit>) {
    forall n :: lo <= n < hi && ToVisit(tables, offset, root, n, start, end) ==> Visited(visits, n)
  }

  /** Of the pages from `lo` up to `hi`, exactly the first pages of leaves that meet the range are visited,
      each once, in ascending order. */
  ghost predicate Exact(tables: Tables, offset: nat, root: nat, lo: nat, hi: nat, start: nat, end: nat,
      visits: seq<Visit>) {
    && Ascending(visits)
    && OnlyLeaves(tables, offset, root, lo, hi, start, end, visits)
    && EveryLeaf(tables, offset, root, lo, hi, start, end, visits)
  }

  lemma ExactConcat(tables: Tables, offset: nat, root: nat, lo: nat, mid: nat, hi: nat, start: nat, end: nat,
      xs: seq<Visit>, ys: seq<Visit>)
    requires Exact(tables, offset, root, lo, mid, start, end, xs)
    requires Exact(tables, offset, root, mid, hi, start, end, ys)
    requires lo <= mid <= hi
    ensures Exact(tables, offset, root, lo, hi, start, end, xs + ys)
  {
    hide ToVisit, VisitsLeaf, Visited;
    assert Ascending(xs + ys);
    assert OnlyLeaves(tables, offset, root, lo, hi, start, end, xs + ys);
    forall n | lo <= n < hi && ToVisit(tables, offset, root, n, start, end) ensures Visited(xs + ys, n) {
      VisitedConcat(xs, ys, n);
    }
  }

  lemma VisitedConcat(xs: seq<Visit>, ys: seq<Visit>, n: nat)
    ensures Visited(xs + ys, n) <==> Visited(xs, n) || Visited(ys, n)
  {
    var zs := xs + ys;
    if k :| 0 <= k < |xs| && xs[k].page == n { assert zs[k].page == n; }
    if k :| 0 <= k < |ys| && ys[k].page == n { assert zs[|xs| + k].page == n; }
  }

  /** A stretch of pages without a leaf to visit. */
  lemma ExactEmpty(tables: Tables, offset: nat, root: nat, lo: nat, hi: nat, start: nat, end: nat)
    requires forall n :: lo <= n < hi ==> !ToVisit(tables, offset, root, n, start, end)
    ensures Exact(tables, offset, root, lo, hi, start, end, [])
  {
  }

  /** A leaf that lies under entry `k` of a level does not reach beyond the pages of that entry. */
  lemma {:induction false} HeadInside(l: nat, level: nat, k: nat, n: nat)
    requires l <= level && Prefix(n, level) == k && EntryPage(l, Prefix(n, l)) == n
    ensures n + LevelPages(l) <= EntryPage(level, k + 1)
    ensures l == level ==> n == EntryPage(level, k)
  {
    if l == 0 {
      EntryPages(level, k, n);
    } else {
      HeadInside(l - 1, level - 1, k, n / 512);
    }
  }

  /** The entry that the walks for all pages of entry `i` at place `p` look at. */
  lemma PagesOfEntry(tree: Tree, tables: Tables, offset: nat, p: Place, i: nat, n: nat)
    requires Wellformed(tree, tables, offset) && p in tree.at && i < PAGE_TABLE_ENTRIES_NUM
    requires EntryPage(p.level, p.prefix * 512 + i) <= n < EntryPage(p.level, p.prefix * 512 + i + 1)
    requires InWindow(tree, p.root, n)
    ensures Prefix(n, p.level) == p.prefix * 512 + i && OnWalk(p.root, p.level, n) == p && Index(n, p.level) == i
    ensures p.level <= 2
    ensures Lookup(tables, offset, p.root, n) == Translate(tables, offset, tree.at[p], p.level, n)
    ensures Steps(tree, tables, offset, p.root, p.level, n)
    ensures Lookup(tables, offset, p.root, n).Some? ==> Lookup(tables, offset, p.root, n).value.level <= p.level
  {
    hide Wellformed, Steps, InWindow, Translate;
    EntryPages(p.level, p.prefix * 512 + i, n);
    PrefixUp(n, p.level);
    hide Prefix, EntryPage;
    TranslateStep(tree, tables, offset, p.root, p.level, n);
    Reach(tree, tables, offset, p.root, p.level, n);
    TranslateLevel(tables, offset, tree.at[p], p.level, n);
  }

  /** An entry that is zero, or whose pages end before the range, has nothing to visit. */
  lemma EntryWithoutVisit(tree: Tree, tables: Tables, offset: nat, p: Place, i: nat, start: nat, end: nat)
    requires Wellformed(tree, tables, offset) && p in tree.at && i < PAGE_TABLE_ENTRIES_NUM
    requires tree.at[p] in tables && |tables[tree.at[p]]| == PAGE_TABLE_ENTRIES_NUM
    requires var lo, hi := EntryPage(p.level, p.prefix * 512 + i), EntryPage(p.level, p.prefix * 512 + i + 1);
      && (forall n :: lo <= n < hi ==> InWindow(tree, p.root, n))
      && (4096 * hi <= start || tables[tree.at[p]][i] == 0)
    ensures Exact(tables, offset, p.root, EntryPage(p.level, p.prefix * 512 + i),
        EntryPage(p.level, p.prefix * 512 + i + 1), start, end, [])
  {
    hide Wellformed, InWindow;
    var lo, hi := EntryPage(p.level, p.prefix * 512 + i), EntryPage(p.level, p.prefix * 512 + i + 1);
    forall n | lo <= n < hi ensures !ToVisit(tables, offset, p.root, n, start, end) {
      PagesOfEntry(tree, tables, offset, p, i, n);
      if IsHead(tables, offset, p.root, n) {
        HeadInside(Lookup(tables, offset, p.root, n).value.level, p.level, p.prefix * 512 + i, n);
      }
    }
    ExactEmpty(tables, offset, p.root, lo, hi, start, end);
  }

  /** From an entry at or beyond the end of the range on there is nothing to visit. */
  lemma NothingBeyond(tables: Tables, offset: nat, root: nat, lo: nat, hi: nat, start: nat, end: nat)
    requires end <= 4096 * lo
    ensures Exact(tables, offset, root, lo, hi, start, end, [])
  {
  }

  /** A leaf that meets the range is the one visit of its entry. */
  lemma LeafVisit(tree: Tree, tables: Tables, offset: nat, p: Place, i: nat, start: nat, end: nat)
    requires Wellformed(tree, tables, offset) && p in tree.at && i < PAGE_TABLE_ENTRIES_NUM
    requires tree.at[p] in tables && |tables[tree.at[p]]| == PAGE_TABLE_ENTRIES_NUM
    requires LeafPte(tables[tree.at[p]][i], p.level)
    requires var lo, hi := EntryPage(p.level, p.prefix * 512 + i), EntryPage(p.level, p.prefix * 512 + i + 1);
      && (forall n :: lo <= n < hi ==> InWindow(tree, p.root, n))
      && start < 4096 * hi && 4096 * lo < end
    ensures Exact(tables, offset, p.root, EntryPage(p.level, p.prefix * 512 + i), EntryPage(p.level,
        p.prefix * 512 + i + 1), start, end,
      [Visit(EntryPage(p.level, p.prefix * 512 + i), tree.at[p], i, tables[tree.at[p]][i])])
  {
    hide Wellformed, InWindow;
    var lo, hi := EntryPage(p.level, p.prefix * 512 + i), EntryPage(p.level, p.prefix * 512 + i + 1);
    var v := Visit(lo, tree.at[p], i, tables[tree.at[p]][i]);
    EntryPages(p.level, p.prefix * 512 + i, lo);
    LeafHead(tree, tables, offset, p, i);
    forall n | lo <= n < hi && ToVisit(tables, offset, p.root, n, start, end) ensures Visited([v], n) {
      PagesOfEntry(tree, tables, offset, p, i, n);
      LeafLevel(tables, offset, tree.at[p], p.level, n);
      HeadInside(p.level, p.level, p.prefix * 512 + i, n);
      assert [v][0].page == n;
    }
  }

  lemma LeafLevel(tables: Tables, offset: nat, t: nat, level: nat, n: nat)
    requires t in tables && |tables[t]| == PAGE_TABLE_ENTRIES_NUM && LeafPte(tables[t][Index(n, level)], level)
    ensures Translate(tables, offset, t, level, n) ==
      Some(Leaf(level, Ppn(tables[t][Index(n, level)]) + n % LevelPages(level), Flags(tables[t][Index(n, level)])))
  {
    FlagBits(tables[t][Index(n, level)]);
  }

  /** A leaf of the level of `p` starts at page `n` and is entry `i` of `t`. */
  predicate LeafStarts(tables: Tables, offset: nat, p: Place, t: nat, i: nat, n: nat) {
    && Lookup(tables, offset, p.root, n).Some? && Lookup(tables, offset, p.root, n).value.level == p.level
    && IsHead(tables, offset, p.root, n)
    && t in tables && i < |tables[t]| && VisitsLeaf(tables, offset, p.root, Visit(n, t, i, tables[t][i]))
  }

  /** The first page of a leaf entry translates to the page the entry names. */
  lemma LeafHead(tree: Tree, tables: Tables, offset: nat, p: Place, i: nat)
    requires Wellformed(tree, tables, offset) && p in tree.at && i < PAGE_TABLE_ENTRIES_NUM
    requires tree.at[p] in tables && |tables[tree.at[p]]| == PAGE_TABLE_ENTRIES_NUM
    requires LeafPte(tables[tree.at[p]][i], p.level)
    requires InWindow(tree, p.root, EntryPage(p.level, p.prefix * 512 + i))
    ensures LeafStarts(tables, offset, p, tree.at[p], i, EntryPage(p.level, p.prefix * 512 + i))
  {
    hide Wellformed, Steps, InWindow, Translate, LeafPte, LevelPages, EntryPage, Ppn, Flags, Prefix, Index;
    var k := p.prefix * 512 + i;
    var n := EntryPage(p.level, k);
    EntryPages(p.level, k, n);
    PagesOfEntry(tree, tables, offset, p, i, n);
    HeadLeaf(tables, offset, tree.at[p], p.level, k);
  }

  lemma HeadLeaf(tables: Tables, offset: nat, t: nat, level: nat, k: nat)
    requires level <= 2 && t in tables && |tables[t]| == PAGE_TABLE_ENTRIES_NUM
    requires LeafPte(tables[t][Index(EntryPage(level, k), level)], level)
    ensures var n := EntryPage(level, k);
      Translate(tables, offset, t, level, n) ==
        Some(Leaf(level, Ppn(tables[t][Index(n, level)]), Flags(tables[t][Index(n, level)])))
  {
    FirstPage(level, k);
    LeafLevel(tables, offset, t, level, EntryPage(level, k));
  }

  lemma FirstPage(level: nat, k: nat)
    requires level <= 2
    ensures EntryPage(level, k) % LevelPages(level) == 0
  {
    assert LevelPages(0) == 1 && LevelPages(1) == 512 && LevelPages(2) == 0x4_0000;
    assert EntryPage(0, k) == k && EntryPage(1, k) == 512 * k && EntryPage(2, k) == 512 * EntryPage(1, k);
  }

  /** Every page of the stretch that lies below `end` belongs to the tree of the root. */
  ghost predicate BelowEndInWindow(tree: Tree, root: nat, lo: nat, hi: nat, end: nat) {
    forall n :: lo <= n < hi && 4096 * n < end ==> InWindow(tree, root, n)
  }

  /** The pages of one entry belong to the tree together. */
  lemma EntryInWindow(tree: Tree, p: Place, i: nat, end: nat)
    requires p.level <= 2 && i < PAGE_TABLE_ENTRIES_NUM && 4096 * EntryPage(p.level, p.prefix * 512 + i) < end
    requires BelowEndInWindow(tree, p.root, EntryPage(p.level, p.prefix * 512),
        EntryPage(p.level, p.prefix * 512 + 512), end)
    ensures forall n :: EntryPage(p.level, p.prefix * 512 + i) <= n < EntryPage(p.level, p.prefix * 512 + i + 1) ==>
      InWindow(tree, p.root, n)
    ensures p.level == 2 ==> p.root in tree.window && p.prefix * 512 + i < tree.window[p.root] && p.prefix == 0
  {
    var k := p.prefix * 512 + i;
    var lo := EntryPage(p.level, k);
    EntryPageMonotone(p.level, p.prefix * 512, k);
    EntryPageMonotone(p.level, k + 1, p.prefix * 512 + 512);
    EntryPages(p.level, k, lo);
    assert InWindow(tree, p.root, lo);
    forall n | lo <= n < EntryPage(p.level, k + 1) ensures InWindow(tree, p.root, n) {
      EntryPages(p.level, k, n);
      PrefixMonotone(n, lo, p.level, 2);
      PrefixMonotone(n, lo, p.level, 3);
    }
    PrefixUp(lo, 2);
  }

  lemma ExactNone(tables: Tables, offset: nat, root: nat, lo: nat, start: nat, end: nat)
    ensures Exact(tables, offset, root, lo, lo, start, end, [])
  {
  }

  /** `table_base_vaddr + i * span` */
  function EntryVaddr(tableBaseVaddr: nat, level: nat, i: nat): nat {
    tableBaseVaddr + i * (4096 * LevelPages(level))
  }

  /** Where entry `i`, counted from entry `first` of its level, starts and ends. */
  lemma EntrySpan(level: nat, first: nat, i: nat)
    requires level <= 2
    ensures EntryVaddr(4096 * EntryPage(level, first), level, i) == 4096 * EntryPage(level, first + i)
    ensures EntryPage(level, first + i + 1) == EntryPage(level, first + i) + LevelPages(level)
  {
    assert LevelPages(0) == 1 && LevelPages(1) == 512 && LevelPages(2) == 0x4_0000;
    assert forall k :: EntryPage(0, k) == k;
    assert forall k :: EntryPage(1, k) == 512 * EntryPage(0, k);
    assert forall k :: EntryPage(2, k) == 512 * EntryPage(1, k);
  }

  /** Visits up to entry `i` and those of entry `i`. */
  lemma ExactNext(tables: Tables, offset: nat, root: nat, level: nat, first: nat, i: nat, start: nat, end: nat,
      xs: seq<Visit>, ys: seq<Visit>)
    requires Exact(tables, offset, root, EntryPage(level, first), EntryPage(level, first + i), start, end, xs)
    requires Exact(tables, offset, root, EntryPage(level, first + i), EntryPage(level, first + i + 1), start, end, ys)
    ensures Exact(tables, offset, root, EntryPage(level, first), EntryPage(level, first + i + 1), start, end, xs + ys)
  {
    hide Exact, EntryPage;
    EntryPageMonotone(level, first, first + i);
    EntryPageMonotone(level, first + i, first + i + 1);
    ExactConcat(tables, offset, root, EntryPage(level, first), EntryPage(level, first + i),
        EntryPage(level, first + i + 1), start, end, xs, ys);
  }

  /** Visits up to an entry at or beyond the end of the range are all visits. */
  lemma ExactRest(tables: Tables, offset: nat, root: nat, level: nat, first: nat, i: nat, start: nat, end: nat,
      xs: seq<Visit>)
    requires Exact(tables, offset, root, EntryPage(level, first), EntryPage(level, first + i), start, end, xs)
    requires i <= PAGE_TABLE_ENTRIES_NUM && end <= 4096 * EntryPage(level, first + i)
    ensures Exact(tables, offset, root, EntryPage(level, first), EntryPage(level, first + PAGE_TABLE_ENTRIES_NUM),
        start, end, xs)
  {
    hide Exact, EntryPage;
    EntryPageMonotone(level, first, first + i);
    EntryPageMonotone(level, first + i, first + PAGE_TABLE_ENTRIES_NUM);
    NothingBeyond(tables, offset, root, EntryPage(level, first + i), EntryPage(level, first + PAGE_TABLE_ENTRIES_NUM),
        start, end);
    ExactConcat(tables, offset, root, EntryPage(level, first), EntryPage(level, first + i),
        EntryPage(level, first + PAGE_TABLE_ENTRIES_NUM), start, end, xs, []);
    assert xs + [] == xs;
  }

  lemma ChildBelowEnd(tree: Tree, p: Place, i: nat, end: nat)
    requires 0 < p.level <= 2 && i < PAGE_TABLE_ENTRIES_NUM
    requires BelowEndInWindow(tree, p.root, EntryPage(p.level, p.prefix * 512),
        EntryPage(p.level, p.prefix * 512 + 512), end)
    ensures var c := ChildPlace(p, i);
      BelowEndInWindow(tree, p.root, EntryPage(c.level, c.prefix * 512), EntryPage(c.level, c.prefix * 512 + 512), end)
  {
    var k := p.prefix * 512 + i;
    EntryPages(p.level - 1, k, 0);
    EntryPages(p.level - 1, k + 1, 0);
    EntryPageMonotone(p.level, p.prefix * 512, k);
    EntryPageMonotone(p.level, k + 1, p.prefix * 512 + 512);
  }
}
