/** Taking tables out of the tree: which tables lie below some entries, and what is left without them. */
module Teardown {
  import opened Sv39
  import opened PageTree

  /** Place `q` lies below one of the entries numbered `lo` up to `hi` of the level of `p`, in the same address
      space. */
  predicate Under(q: Place, p: Place, lo: nat, hi: nat) {
    q.root == p.root && q.level < p.level && lo <= Prefix(q.prefix, p.level - 1 - q.level) < hi
  }

  ghost function Below(tree: Tree, p: Place, lo: nat, hi: nat): set<nat> {
    set x | x in tree.place && Under(tree.place[x], p, lo, hi)
  }

  function Without(tree: Tree, gone: set<nat>): Tree {
    Tree(map x | x in tree.place && x !in gone :: tree.place[x], map q | q in tree.at && tree.at[q] !in gone ::
      tree.at[q], tree.window)
  }

  lemma WithoutTwice(tree: Tree, a: set<nat>, b: set<nat>)
    ensures Without(Without(tree, a), b) == Without(tree, a + b)
  {
  }

  /** What lies below entry number `k`: the table there and everything below that table. */
  lemma UnderStep(q: Place, p: Place, lo: nat, k: nat)
    requires 0 < p.level && lo <= k
    ensures var c := Place(p.root, p.level - 1, k);
      Under(q, p, lo, k + 1) <==> Under(q, p, lo, k) || q == c || Under(q, c, 512 * k, 512 * k + 512)
    ensures !(Under(q, p, lo, k) &&
      (q == Place(p.root, p.level - 1, k) || Under(q, Place(p.root, p.level - 1, k), 512 * k, 512 * k + 512)))
  {
    if q.level < p.level - 1 { PrefixUp(q.prefix, p.level - 2 - q.level); }
  }

  lemma BelowStep(tree: Tree, p: Place, lo: nat, k: nat)
    requires Placed(tree) && 0 < p.level && lo <= k
    ensures var c := Place(p.root, p.level - 1, k);
      Below(tree, p, lo, k + 1) ==
        Below(tree, p, lo, k) + (if c in tree.at then {tree.at[c]} else {}) + Below(tree, c, 512 * k, 512 * k + 512)
    ensures var c := Place(p.root, p.level - 1, k);
      Below(tree, p, lo, k) !! Below(tree, c, 512 * k, 512 * k + 512) &&
        (c in tree.at ==> tree.at[c] !in Below(tree, p, lo, k) + Below(tree, c, 512 * k, 512 * k + 512))
  {
    hide Under;
    forall x | x in tree.place
      ensures x in Below(tree, p, lo, k + 1) <==>
        x in Below(tree, p, lo, k) || tree.place[x] == Place(p.root, p.level - 1, k) ||
          x in Below(tree, Place(p.root, p.level - 1, k), 512 * k, 512 * k + 512)
    {
      UnderStep(tree.place[x], p, lo, k);
    }
    forall x | x in tree.place
      ensures !(x in Below(tree, p, lo, k) &&
        (tree.place[x] == Place(p.root, p.level - 1, k) ||
          x in Below(tree, Place(p.root, p.level - 1, k), 512 * k, 512 * k + 512)))
    {
      UnderStep(tree.place[x], p, lo, k);
    }
    NotUnderItself(Place(p.root, p.level - 1, k), 512 * k, 512 * k + 512);
  }

  lemma NotUnderItself(p: Place, lo: nat, hi: nat)
    ensures !Under(p, p, lo, hi)
  {
  }

  /** A table below entry number `k` hangs below the table that this entry points to. */
  lemma {:induction false} Ancestor(tree: Tree, tables: Tables, offset: nat, q: Place, p: Place, k: nat)
    requires Placed(tree) && AllPointedTo(tree, tables, offset) && q in tree.at && Under(q, p, k, k + 1)
    requires p.level <= 2
    ensures Place(p.root, p.level - 1, k) in tree.at
    decreases p.level - q.level
  {
    if q.level < p.level - 1 {
      assert PointedTo(tree, tables, offset, tree.place[tree.at[q]], tree.at[q]);
      PrefixUp(q.prefix, p.level - 2 - q.level);
      Ancestor(tree, tables, offset, ParentPlace(q), p, k);
    }
  }

  /** Below an entry that points to no table there is nothing. */
  lemma NothingBelow(tree: Tree, tables: Tables, offset: nat, p: Place, i: nat)
    requires Wellformed(tree, tables, offset) && p in tree.at && p.level <= 2
    requires FreeEntry(tree, tables, tree.at[p], i) && tree.place[tree.at[p]] == p
    ensures Below(tree, p, p.prefix * 512 + i, p.prefix * 512 + i + 1) == {}
  {
    hide EntryOk, EntriesOk, Stored, PointedTo;
    forall x | x in tree.place ensures !Under(tree.place[x], p, p.prefix * 512 + i, p.prefix * 512 + i + 1) {
      if Under(tree.place[x], p, p.prefix * 512 + i, p.prefix * 512 + i + 1) {
        Ancestor(tree, tables, offset, tree.place[x], p, p.prefix * 512 + i);
        Vacant(tree, tables, offset, tree.at[p], i);
      }
    }
  }

  function RemovedTables(tables: Tables, t: nat, i: nat, c: nat): Tables
    requires t in tables && i < |tables[t]| && t != c
  {
    SetEntry(tables - {c}, t, i, 0)
  }

  /** `c` is the table below entry `i` of `t`, and nothing is below `c`. */
  ghost predicate Removable(tree: Tree, tables: Tables, t: nat, i: nat, c: nat) {
    && t in tree.place && c in tree.place && t in tables && i < |tables[t]| && i < PAGE_TABLE_ENTRIES_NUM && t != c
    && tree.place[t].level > 0 && tree.place[c] == ChildPlace(tree.place[t], i)
    && Below(tree, tree.place[c], 512 * tree.place[c].prefix, 512 * tree.place[c].prefix + 512) == {}
  }

  lemma RemovedWellformed(tree: Tree, tables: Tables, offset: nat, t: nat, i: nat, c: nat)
    requires Wellformed(tree, tables, offset) && Removable(tree, tables, t, i, c)
    ensures Wellformed(Without(tree, {c}), RemovedTables(tables, t, i, c), offset)
  {
    hide Placed, EntriesOk, AllPointedTo, Stored, RemovedTables, Without, Removable;
    RemovedPlaced(tree, tables, t, i, c);
    RemovedStored(tree, tables, offset, t, i, c);
    RemovedEntriesOk(tree, tables, offset, t, i, c);
    RemovedAllPointedTo(tree, tables, offset, t, i, c);
  }

  lemma RemovedPlaced(tree: Tree, tables: Tables, t: nat, i: nat, c: nat)
    requires Placed(tree) && Removable(tree, tables, t, i, c)
    ensures Placed(Without(tree, {c}))
  {
    hide Below;
  }

  lemma RemovedStored(tree: Tree, tables: Tables, offset: nat, t: nat, i: nat, c: nat)
    requires Stored(tree, tables, offset) && Removable(tree, tables, t, i, c)
    ensures Stored(Without(tree, {c}), RemovedTables(tables, t, i, c), offset)
  {
    hide Below, Pointable;
  }

  lemma RemovedEntriesOk(tree: Tree, tables: Tables, offset: nat, t: nat, i: nat, c: nat)
    requires Placed(tree) && Stored(tree, tables, offset) && EntriesOk(tree, tables, offset)
    requires Removable(tree, tables, t, i, c)
    requires Stored(Without(tree, {c}), RemovedTables(tables, t, i, c), offset)
    ensures EntriesOk(Without(tree, {c}), RemovedTables(tables, t, i, c), offset)
  {
    hide Below, Pointable, PointerPte, LeafPte;
    var tree', tables' := Without(tree, {c}), RemovedTables(tables, t, i, c);
    forall x, j | x in tree'.place && 0 <= j < Entries(tree', tree'.place[x]) && j < PAGE_TABLE_ENTRIES_NUM
      ensures EntryOk(tree', offset, tree'.place[x], j, tables'[x][j])
    {
      assert EntryOk(tree, offset, tree.place[x], j, tables[x][j]);
      if tree.place[x].level > 0 && !(x == t && j == i) { OtherChild(tree, t, i, c, x, j); }
    }
  }

  lemma OtherChild(tree: Tree, t: nat, i: nat, c: nat, x: nat, j: nat)
    requires Placed(tree) && t in tree.place && c in tree.place && x in tree.place
    requires tree.place[t].level > 0 && tree.place[c] == ChildPlace(tree.place[t], i) && i < PAGE_TABLE_ENTRIES_NUM
    requires j < PAGE_TABLE_ENTRIES_NUM
    requires tree.place[x].level > 0 && !(x == t && j == i)
    ensures ChildPlace(tree.place[x], j) != tree.place[c]
  {
    if ChildPlace(tree.place[x], j) == tree.place[c] {
      ChildParent(tree.place[x], j);
      ChildParent(tree.place[t], i);
    }
  }

  lemma RemovedAllPointedTo(tree: Tree, tables: Tables, offset: nat, t: nat, i: nat, c: nat)
    requires Placed(tree) && Stored(tree, tables, offset) && AllPointedTo(tree, tables, offset)
    requires Removable(tree, tables, t, i, c)
    ensures AllPointedTo(Without(tree, {c}), RemovedTables(tables, t, i, c), offset)
  {
    hide PointedTo, Stored, RemovedTables, Below;
    forall x | x in Without(tree, {c}).place && tree.place[x].level < 2
      ensures PointedTo(Without(tree, {c}), RemovedTables(tables, t, i, c), offset, tree.place[x], x)
    {
      assert PointedTo(tree, tables, offset, tree.place[x], x);
      RemovedPointedTo(tree, tables, offset, t, i, c, x);
    }
  }

  lemma RemovedPointedTo(tree: Tree, tables: Tables, offset: nat, t: nat, i: nat, c: nat, x: nat)
    requires Placed(tree) && Stored(tree, tables, offset) && Removable(tree, tables, t, i, c)
    requires x in tree.place && x != c && PointedTo(tree, tables, offset, tree.place[x], x)
    ensures PointedTo(Without(tree, {c}), RemovedTables(tables, t, i, c), offset, tree.place[x], x)
  {
    hide Pointable, PointerPte, Below;
    NotChildOf(tree, c, x);
    ChildParent(tree.place[t], i);
    var up := tree.at[ParentPlace(tree.place[x])];
    assert up != c;
    SameChild(tree.place[x], tree.place[t], i);
  }

  lemma SameChild(q: Place, p: Place, i: nat)
    requires p.level > 0
    ensures ParentPlace(q) == p && q.prefix % 512 == i ==> q == ChildPlace(p, i)
  {
  }

  lemma ChildUnder(q: Place, p: Place)
    requires ParentPlace(q) == p
    ensures Under(q, p, 512 * p.prefix, 512 * p.prefix + 512)
  {
    assert Prefix(q.prefix, 0) == q.prefix;
  }

  lemma NotChildOf(tree: Tree, c: nat, x: nat)
    requires c in tree.place && x in tree.place
    requires Below(tree, tree.place[c], 512 * tree.place[c].prefix, 512 * tree.place[c].prefix + 512) == {}
    ensures ParentPlace(tree.place[x]) != tree.place[c]
  {
    hide Under;
    assert x !in Below(tree, tree.place[c], 512 * tree.place[c].prefix, 512 * tree.place[c].prefix + 512);
    if ParentPlace(tree.place[x]) == tree.place[c] { ChildUnder(tree.place[x], tree.place[c]); }
  }

  /** The tables of `gone` left the tree, entries `lo` up to `hi` of `t` are zero, and nothing else changed. */
  ghost predicate Freed(tree: Tree, tables: Tables, tree': Tree, tables': Tables, gone: set<nat>, t: nat, lo: nat,
      hi: nat) {
    && tree' == Without(tree, gone)
    && t in tables && t in tables' && t !in gone && |tables[t]| == |tables'[t]| == PAGE_TABLE_ENTRIES_NUM
    && hi <= PAGE_TABLE_ENTRIES_NUM
    && (forall j :: 0 <= j < PAGE_TABLE_ENTRIES_NUM ==> tables'[t][j] == if lo <= j < hi then 0 else tables[t][j])
    && (forall x :: x in tables' && x != t ==> x in tables && tables'[x] == tables[x])
  }

  lemma FreedStart(tree: Tree, tables: Tables, t: nat, lo: nat)
    requires t in tables && |tables[t]| == PAGE_TABLE_ENTRIES_NUM && lo <= PAGE_TABLE_ENTRIES_NUM
    ensures Freed(tree, tables, tree, tables, {}, t, lo, lo)
  {
  }

  /** An entry that points to no table is cleared. */
  lemma FreedZero(tree: Tree, tables: Tables, t: nat, i: nat)
    requires t in tables && |tables[t]| == PAGE_TABLE_ENTRIES_NUM && i < PAGE_TABLE_ENTRIES_NUM
    ensures Freed(tree, tables, tree, SetEntry(tables, t, i, 0), {}, t, i, i + 1)
  {
    WithoutNothing(tree);
  }

  lemma WithoutNothing(tree: Tree)
    ensures Without(tree, {}) == tree
  {
  }

  /** An entry is cleared after its table and everything below it left. */
  lemma FreedChild(tree: Tree, tables: Tables, tree': Tree, tables': Tables, below: set<nat>, t: nat, i: nat, c: nat)
    requires Freed(tree, tables, tree', tables', below, c, 0, PAGE_TABLE_ENTRIES_NUM)
    requires t != c && t !in below && t in tables && t in tables' && |tables[t]| == PAGE_TABLE_ENTRIES_NUM
    requires i < PAGE_TABLE_ENTRIES_NUM
    ensures Freed(tree, tables, Without(tree', {c}), RemovedTables(tables', t, i, c), below + {c}, t, i, i + 1)
  {
    hide Without;
    WithoutTwice(tree, below, {c});
  }

  lemma FreedConcat(tree: Tree, tables: Tables, tree1: Tree, tables1: Tables, tree2: Tree, tables2: Tables,
                    gone: set<nat>, gone': set<nat>, t: nat, lo: nat, mid: nat, hi: nat)
    requires Freed(tree, tables, tree1, tables1, gone, t, lo, mid)
    requires Freed(tree1, tables1, tree2, tables2, gone', t, mid, hi)
    requires lo <= mid <= hi
    ensures Freed(tree, tables, tree2, tables2, gone + gone', t, lo, hi)
  {
    hide Without;
    WithoutTwice(tree, gone, gone');
  }

  /** What lies below some entries is not changed by taking out what lies below others. */
  lemma BelowConcat(tree: Tree, p: Place, lo: nat, mid: nat, hi: nat)
    requires lo <= mid <= hi
    ensures Below(tree, p, lo, hi) == Below(tree, p, lo, mid) + Below(tree, p, mid, hi)
    ensures Below(Without(tree, Below(tree, p, lo, mid)), p, mid, hi) == Below(tree, p, mid, hi)
    ensures Below(tree, p, lo, mid) !! Below(tree, p, mid, hi)
  {
  }

  lemma BelowGone(tree: Tree, p: Place, lo: nat, hi: nat)
    ensures Below(Without(tree, Below(tree, p, lo, hi)), p, lo, hi) == {}
  {
  }

  lemma BelowNothing(tree: Tree, p: Place, lo: nat)
    ensures Below(tree, p, lo, lo) == {}
  {
  }

  /** Places outside what is taken out keep their tables. */
  lemma WithoutAt(tree: Tree, gone: set<nat>, p: Place)
    requires p in tree.at && tree.at[p] !in gone
    ensures p in Without(tree, gone).at && Without(tree, gone).at[p] == tree.at[p]
    ensures Without(tree, gone).window == tree.window
  {
  }

  /** The pages `ps`, all live blocks of one page, and no others, went back to the page allocator. */
  ghost predicate ReturnedPages(live: map<nat, nat>, free: set<nat>, live': map<nat, nat>, free': set<nat>,
      ps: set<nat>) {
    && (forall p :: p in ps ==> p in live && live[p] == 0)
    && live' == live - ps && free' == free + ps
  }

  /** The free pages `ps`, and no others, became live blocks of one page. */
  ghost predicate TakenPages(live: map<nat, nat>, free: set<nat>, live': map<nat, nat>, free': set<nat>, ps: set<nat>) {
    && ps <= free && ps !! live.Keys
    && live' == live + (map p | p in ps :: 0) && free' == free - ps
  }

  lemma TakenTwice(live: map<nat, nat>, free: set<nat>, live1: map<nat, nat>, free1: set<nat>, live2: map<nat, nat>,
      free2: set<nat>, ps: set<nat>, qs: set<nat>)
    requires TakenPages(live, free, live1, free1, ps) && TakenPages(live1, free1, live2, free2, qs)
    ensures TakenPages(live, free, live2, free2, ps + qs) && ps !! qs
  {
  }

  lemma ReturnedTwice(live: map<nat, nat>, free: set<nat>, live1: map<nat, nat>, free1: set<nat>, live2: map<nat, nat>,
      free2: set<nat>, ps: set<nat>, qs: set<nat>)
    requires ReturnedPages(live, free, live1, free1, ps) && ReturnedPages(live1, free1, live2, free2, qs)
    ensures ReturnedPages(live, free, live2, free2, ps + qs) && ps !! qs
  {
  }

  lemma FreedTree(tree: Tree, tables: Tables, tree': Tree, tables': Tables, gone: set<nat>, t: nat, lo: nat, hi: nat)
    requires Freed(tree, tables, tree', tables', gone, t, lo, hi)
    ensures tree' == Without(tree, gone)
  {
  }

  /** What lies below an entry that points to a table. */
  lemma BelowChild(tree: Tree, tables: Tables, offset: nat, p: Place, i: nat)
    requires Wellformed(tree, tables, offset) && p in tree.at && 0 < p.level <= 2 && i < PAGE_TABLE_ENTRIES_NUM
    requires ChildPlace(p, i) in tree.at
    ensures var c, k := ChildPlace(p, i), p.prefix * 512 + i;
      && Below(tree, p, k, k + 1) == Below(tree, c, 512 * k, 512 * k + 512) + {tree.at[c]}
      && tree.at[p] !in Below(tree, c, 512 * k, 512 * k + 512) && tree.at[p] != tree.at[c]
      && tree.at[c] !in Below(tree, c, 512 * k, 512 * k + 512)
  {
    hide Stored, EntriesOk, AllPointedTo;
    var k := p.prefix * 512 + i;
    BelowStep(tree, p, k, k);
    BelowNothing(tree, p, k);
  }

  lemma RemovedKeys(tree: Tree, tables: Tables, t: nat, i: nat, c: nat)
    requires t in tables && i < |tables[t]| && t != c
    ensures RemovedTables(tables, t, i, c).Keys == tables.Keys - {c}
    ensures forall x :: x in tree.place && x != c ==>
      x in Without(tree, {c}).place && Without(tree, {c}).place[x] == tree.place[x]
  {
  }

  /** The table below entry `i` can be removed once nothing is below it. */
  lemma ChildRemovable(tree: Tree, tables: Tables, offset: nat, p: Place, i: nat)
    requires Wellformed(tree, tables, offset) && p in tree.at && 0 < p.level <= 2 && i < PAGE_TABLE_ENTRIES_NUM
    requires ChildPlace(p, i) in tree.at
    requires Below(tree, ChildPlace(p, i), 512 * (p.prefix * 512 + i), 512 * (p.prefix * 512 + i) + 512) == {}
    ensures Removable(tree, tables, tree.at[p], i, tree.at[ChildPlace(p, i)])
  {
    hide Wellformed, Below;
    TableAt(tree, tables, offset, p);
    TableAt(tree, tables, offset, ChildPlace(p, i));
  }
}
