/**
 Many tasks at once: creations, starts of programs, forks, page faults, mappings and exits in any order. In every state
 each task owns its memory, no two tasks share any of it, and all that is live is some task's or the kernel's.
 */
module Systems {
  import opened Roots
  import opened TaskMappings
  import opened AddressSpaces
  import opened Ownership
  import opened TaskCopies
  import opened TaskLife
  import opened TaskFork
  import opened TaskRuns
  import opened TaskExec

  // Parts of the memory.

  /** Pages outside the pools, large blocks and chunks. */
  datatype Item = Page(page: int) | Large(page: int) | Chunk(addr: nat)

  ghost function Items(r: Rest): set<Item> {
    (set p | p in r.pages :: Page(p)) + (set p | p in r.large :: Large(p)) + (set c | c in r.chunks :: Chunk(c))
  }

  /** The kernel's part and the others are disjoint, and make up all of `total`. */
  ghost predicate Split(total: set<Item>, parts: map<nat, set<Item>>, kernel: set<Item>) {
    && kernel <= total && (forall p :: p in parts ==> parts[p] <= total && parts[p] !! kernel)
    && (forall p, q :: p in parts && q in parts && p != q ==> parts[p] !! parts[q])
    && forall x :: x in total && x !in kernel ==> exists p :: p in parts && x in parts[p]
  }

  /** One part less. */
  lemma SplitWithout(total: set<Item>, parts: map<nat, set<Item>>, kernel: set<Item>, p: nat)
    requires Split(total, parts, kernel) && p in parts
    ensures Split(total - parts[p], parts - {p}, kernel)
  {
    var rest := parts - {p};
    forall x | x in total - parts[p] && x !in kernel ensures exists q :: q in rest && x in rest[q] {
      var q :| q in parts && x in parts[q];
      assert q in rest && x in rest[q];
    }
  }

  /** One part more. */
  lemma SplitWith(total: set<Item>, parts: map<nat, set<Item>>, kernel: set<Item>, p: nat, part: set<Item>)
    requires Split(total - part, parts, kernel) && part <= total && p !in parts
    ensures Split(total, parts[p := part], kernel)
  {
    var more := parts[p := part];
    forall x | x in total && x !in kernel ensures exists q :: q in more && x in more[q] {
      if x in part {
        assert p in more && x in more[p];
      } else {
        var q :| q in parts && x in parts[q];
        assert q in more && x in more[q];
      }
    }
  }

  // The part of a task.

  ghost function BlocksOf(k: Snapshot, t: TaskView): set<int> {
    {PageAt(k, t.stack)} + if t.pgd == 0 then {} else {PageAt(k, t.pgd)}
  }

  /** The data pages and tables of a task. */
  ghost function SpaceOf(k: Snapshot, t: TaskView): set<int> {
    if t.pgd == 0 then {} else DataPages(k, t.pgd) + TablePages(k, t.pgd)
  }

  /** What is a task's own: its data pages and tables, its stack and root, which are pages and large blocks, and its
      chunks. */
  ghost function PartOf(k: Snapshot, t: TaskView): set<Item> {
    (set p | p in SpaceOf(k, t) + BlocksOf(k, t) :: Page(p)) + (set p | p in BlocksOf(k, t) :: Large(p)) +
      (set c | c in ChunksOf(t) :: Chunk(c))
  }

  ghost function All(k: Snapshot): set<Item> {
    Items(Everything(k))
  }

  /** What a task owns is live, and the rest is what there is besides. */
  lemma PartIsOwned(k: Snapshot, t: TaskView)
    requires Consistent(k) && Owned(k, t)
    ensures PartOf(k, t) <= All(k) && Items(RestOf(k, t)) == All(k) - PartOf(k, t)
  {
    hide WellPlaced, Low, AddressSpace, ChunksOf, DataPages, TablePages, Consistent, LiveBlock, PageAt;
    OutsideIs(k, t);
    BlocksLive(k, t);
    hide SpaceOf, OutsidePages, OwnsBlocks;
    var rest, all := RestOf(k, t), Everything(k);
    assert rest.pages == all.pages - (SpaceOf(k, t) + BlocksOf(k, t));
    assert rest.large == all.large - BlocksOf(k, t);
    assert rest.chunks == all.chunks - ChunksOf(t);
    hide RestOf, Everything, BlocksOf;
    forall x ensures x in Items(rest) <==> x in Items(all) && x !in PartOf(k, t) {
    }
  }

  lemma OutsideIs(k: Snapshot, t: TaskView)
    requires Consistent(k) && Owned(k, t)
    ensures OutsidePages(k, t.pgd) == Everything(k).pages - SpaceOf(k, t) && SpaceOf(k, t) <= Everything(k).pages
    ensures t.pgd == 0 ==> PageAt(k, 0) < 0
  {
    hide WellPlaced, Low, OwnsChunks, OwnsBlocks, DataPages, TablePages, Consistent, AddressSpace, OutsidePages;
    hide Everything;
    if t.pgd == 0 {
      EverythingOutside(k);
      NegativePage(k);
    } else {
      SpaceLive(k, t.pgd, t.mappings);
      OutsideOf(k, t.pgd);
    }
  }

  lemma NegativePage(k: Snapshot)
    requires Consistent(k)
    ensures PageAt(k, 0) < 0
  {
    AboveZero(k);
    hide Consistent;
  }

  lemma OutsideOf(k: Snapshot, root: nat)
    requires forall q :: q in DataPages(k, root) + TablePages(k, root) ==> q in k.pages.live && q !in k.heap.pools
    ensures OutsidePages(k, root) == Everything(k).pages - (DataPages(k, root) + TablePages(k, root))
    ensures DataPages(k, root) + TablePages(k, root) <= Everything(k).pages
  {
    hide DataPages, TablePages;
    var inside := DataPages(k, root) + TablePages(k, root);
    forall q | q in inside ensures q in Everything(k).pages {
      assert q in DataPages(k, root) + TablePages(k, root);
    }
  }

  /** The pages and tables of an address space are live and in no pool. */
  lemma SpaceLive(k: Snapshot, root: nat, ms: seq<Mapping>)
    requires Consistent(k) && AddressSpace(k, root, ms)
    ensures forall q :: q in DataPages(k, root) + TablePages(k, root) ==> q in k.pages.live && q !in k.heap.pools
  {
    hide LeafOf, DataAt, AddressSpace, TablesBacked, HeapBacked, RootInKernel, KernelMapped, PageAt;
    DataPagesLive(k, root, ms);
    RootInTables(k, root, ms);
    forall x | x in TablesOf(k.space.tree, root) ensures PageAt(k, x) in k.pages.live && PageAt(k, x) !in k.heap.pools {
      TableLive(k, x);
    }
  }

  lemma TableLive(k: Snapshot, x: nat)
    requires TablesBacked(k) && x in k.space.tree.place && k.space.tree.place[x].level < 2
    ensures PageAt(k, x) in k.pages.live && PageAt(k, x) !in k.heap.pools
  {
    hide PageAt;
  }

  lemma HeapPart(k: Snapshot)
    requires Consistent(k)
    ensures HeapBacked(k)
  {
    hide HeapBacked, TablesBacked, RootInKernel, KernelMapped;
  }

  lemma BlocksLive(k: Snapshot, t: TaskView)
    requires Consistent(k) && OwnsBlocks(k, t)
    ensures BlocksOf(k, t) <= Everything(k).large && BlocksOf(k, t) <= Everything(k).pages
  {
    hide Consistent, PageAt, LiveBlock, Everything;
    LargeLive(k, PageAt(k, t.stack));
    if t.pgd != 0 { LargeLive(k, PageAt(k, t.pgd)); }
  }

  lemma LargeLive(k: Snapshot, p: int)
    requires Consistent(k) && p in k.heap.large
    ensures p in Everything(k).large && p in Everything(k).pages
  {
    HeapPart(k);
    hide Consistent;
  }

  /** A task that a step does not concern keeps its part, if that stays live and its address space stays as it is. */
  lemma BystanderStays(k: Snapshot, k': Snapshot, root: nat, t: TaskView)
    requires Consistent(k) && Consistent(k') && Owned(k, t) && BlocksStay(k, k', root)
    requires PartOf(k, t) <= All(k') && PageAt(k, t.stack) != PageAt(k, root)
    requires t.pgd != 0 ==> AddressSpace(k', t.pgd, t.mappings) && SameSpace(k, k', t.pgd)
    ensures Owned(k', t) && PartOf(k', t) == PartOf(k, t)
  {
    hide WellPlaced, Low, AddressSpace, NodesOf, SignalNodes, DistinctNodes, DistinctSignals, Consistent, BlocksStay;
    hide PageAt, LiveBlock;
    StaysWhere(k, k', root);
    if t.pgd != 0 { SamePages(k, k', t.pgd); }
    hide SameSpace, DataPages, TablePages;
    InAll(k, k', t);
    hide PartOf;
    BlockStays(k, k', root, t.stack, KERNEL_STACK_ORDER);
    if t.pgd != 0 { LiveStays(k, k', root, t.pgd, 0); }
  }

  lemma StaysWhere(k: Snapshot, k': Snapshot, root: nat)
    requires BlocksStay(k, k', root)
    ensures k'.base == k.base && forall a: nat :: PageAt(k', a) == PageAt(k, a)
  {
  }

  lemma InAll(k: Snapshot, k': Snapshot, t: TaskView)
    requires PartOf(k, t) <= All(k')
    ensures BlocksOf(k, t) <= k'.heap.large && ChunksOf(t) <= k'.heap.chunks.Keys
  {
    hide SpaceOf, BlocksOf, ChunksOf, PageAt;
    forall p | p in BlocksOf(k, t) ensures p in k'.heap.large { assert Large(p) in PartOf(k, t); }
    forall c | c in ChunksOf(t) ensures c in k'.heap.chunks { assert Chunk(c) in PartOf(k, t); }
  }

  lemma SamePages(k: Snapshot, k': Snapshot, r: nat)
    requires SameSpace(k, k', r) && forall a: nat :: PageAt(k', a) == PageAt(k, a)
    ensures DataPages(k', r) == DataPages(k, r) && TablePages(k', r) == TablePages(k, r)
  {
    hide LeafOf, DataAt, TablesOf, PageAt;
    forall n: nat | n < USER_PAGES ensures HasData(k', r, n) == HasData(k, r, n) {
    }
  }

  lemma LiveStays(k: Snapshot, k': Snapshot, root: nat, addr: nat, order: nat)
    requires Consistent(k') && BlocksStay(k, k', root) && LiveBlock(k, addr, order) && PageAt(k, addr) in k'.heap.large
    ensures LiveBlock(k', addr, order) && PageAt(k', addr) in k'.heap.large
  {
    hide TablesBacked, RootInKernel;
    StaysWhere(k, k', root);
    assert PageAt(k, addr) in k'.pages.live;
    hide Consistent;
  }

  lemma BlockStays(k: Snapshot, k': Snapshot, root: nat, addr: nat, order: nat)
    requires Consistent(k') && BlocksStay(k, k', root) && LiveBlock(k, addr, order) && PageAt(k, addr) in k'.heap.large
    requires addr !in k.space.tables && PageAt(k, addr) != PageAt(k, root)
    ensures LiveBlock(k', addr, order) && PageAt(k', addr) in k'.heap.large && addr !in k'.space.tables
  {
    StaysWhere(k, k', root);
    LiveStays(k, k', root, addr, order);
    KernelApart(k', addr, order);
    TableKeys(k');
    hide HeapBacked, RootInKernel, PageAt, LiveBlock;
  }

  // Whole systems.

  ghost function Parts(k: Snapshot, ts: map<nat, TaskView>): map<nat, set<Item>> {
    map p | p in ts :: PartOf(k, ts[p])
  }

  /** Each task owns its memory, no two share any of it, and all that is live is some task's or the kernel's. */
  ghost predicate System(k: Snapshot, ts: map<nat, TaskView>, kernel: set<Item>) {
    && Consistent(k) && (forall p :: p in ts ==> Owned(k, ts[p]))
    && Split(All(k), Parts(k, ts), kernel)
  }

  /** What can happen to the tasks; `p` and `c` are their identifiers. */
  datatype Step = Create(c: nat) | Exec(p: nat) | Fork(p: nat, c: nat) | Do(p: nat, event: Event) | End(p: nat)

  /** `CreateTask` made the task. */
  ghost predicate Created(k: Snapshot, k': Snapshot, t: TaskView) {
    Owned(k', t) && t.pgd == 0 && RestOf(k', t) == Everything(k) && OthersKept(k, k', 0) && BlocksStay(k, k', 0)
  }

  /** `CopyTask` made the task. */
  ghost predicate ForkedTask(k: Snapshot, k': Snapshot, t: TaskView) {
    && Owned(k', t) && t.pgd != 0 && RestOf(k', t) == Everything(k)
    && SpacesKept(k, k', t.pgd) && BlocksStay(k, k', t.pgd)
  }

  /** `FreeTask` ended the task. */
  ghost predicate Ended(k: Snapshot, k': Snapshot, t: TaskView) {
    Everything(k') == RestOf(k, t) && OthersSurvive(k, k', t.pgd) && BlocksStay(k, k', 0)
  }

  ghost predicate Stepped(step: Step, k: Snapshot, ts: map<nat, TaskView>, k': Snapshot, ts': map<nat, TaskView>,
      ramdisk: nat -> nat) {
    && Consistent(k')
    && match step
       case Create(c) => c !in ts && exists t :: ts' == ts[c := t] && Created(k, k', t)
       case Exec(p) => p in ts && exists t :: ts' == ts[p := t] && Renewed(k, ts[p], k', t)
       case Fork(p, c) => p in ts && ts[p].pgd != 0 && c !in ts && exists t ::
         ts' == ts[c := t] && Forked(k, k', ts[p].pgd, t.pgd) && ForkedTask(k, k', t)
       case Do(p, event) => p in ts && ts[p].pgd != 0 && exists t ::
         ts' == ts[p := t] && Handled(event, k, ts[p], k', t, ramdisk)
       case End(p) => p in ts && ts' == ts - {p} && Ended(k, k', ts[p])
  }

  /** The tasks that a step does not concern are as before, so the memory is split as before with their parts. */
  lemma Bystanders(k: Snapshot, k': Snapshot, ts: map<nat, TaskView>, kernel: set<Item>, root: nat, total: set<Item>)
    requires Consistent(k) && Consistent(k') && BlocksStay(k, k', root) && (forall p :: p in ts ==> Owned(k, ts[p]))
    requires Split(total, Parts(k, ts), kernel) && total <= All(k')
    requires forall p :: p in ts ==> PageAt(k, ts[p].stack) != PageAt(k, root)
    requires forall p :: p in ts && ts[p].pgd != 0 ==>
      AddressSpace(k', ts[p].pgd, ts[p].mappings) && SameSpace(k, k', ts[p].pgd)
    ensures (forall p :: p in ts ==> Owned(k', ts[p])) && Parts(k', ts) == Parts(k, ts)
  {
    hide Consistent, BlocksStay, Owned, AddressSpace, SameSpace, PartOf, All, PageAt;
    forall p | p in ts ensures Owned(k', ts[p]) && PartOf(k', ts[p]) == PartOf(k, ts[p]) {
      assert p in Parts(k, ts) && Parts(k, ts)[p] == PartOf(k, ts[p]);
      BystanderStays(k, k', root, ts[p]);
    }
  }

  /** A task more: the total grew by its part. */
  lemma SystemWith(k: Snapshot, ts: map<nat, TaskView>, kernel: set<Item>, c: nat, t: TaskView)
    requires Consistent(k) && Owned(k, t) && c !in ts && (forall p :: p in ts ==> Owned(k, ts[p]))
    requires Split(Items(RestOf(k, t)), Parts(k, ts), kernel)
    ensures System(k, ts[c := t], kernel)
  {
    hide Consistent, Owned, RestOf, PartOf, All, Items, Split;
    PartIsOwned(k, t);
    SplitWith(All(k), Parts(k, ts), kernel, c, PartOf(k, t));
    assert Parts(k, ts[c := t]) == Parts(k, ts)[c := PartOf(k, t)];
  }

  /** A task less: the rest is split among the others. */
  lemma SystemWithout(k: Snapshot, ts: map<nat, TaskView>, kernel: set<Item>, p: nat)
    requires System(k, ts, kernel) && p in ts
    ensures Split(Items(RestOf(k, ts[p])), Parts(k, ts - {p}), kernel)
  {
    hide Consistent, Owned, RestOf, PartOf, All, Items, Split;
    PartIsOwned(k, ts[p]);
    SplitWithout(All(k), Parts(k, ts), kernel, p);
    assert Parts(k, ts - {p}) == Parts(k, ts) - {p};
  }

  lemma RestInside(k: Snapshot, t: TaskView)
    requires Consistent(k) && Owned(k, t)
    ensures Items(RestOf(k, t)) <= All(k)
  {
    hide Consistent, Owned, RestOf, PartOf, All, Items;
    PartIsOwned(k, t);
  }

  lemma DataInPart(k: Snapshot, t: TaskView, q: int)
    requires t.pgd != 0 && q in DataPages(k, t.pgd)
    ensures Page(q) in PartOf(k, t)
  {
    hide DataPages, TablePages;
  }

  lemma DataApart(k: Snapshot, t: TaskView, u: TaskView)
    requires PartOf(k, t) !! PartOf(k, u) && t.pgd != 0 && u.pgd != 0
    ensures DataPages(k, t.pgd) !! DataPages(k, u.pgd)
  {
    hide PartOf, DataPages;
    forall q | q in DataPages(k, t.pgd) ensures q !in DataPages(k, u.pgd) {
      DataInPart(k, t, q);
      if q in DataPages(k, u.pgd) { DataInPart(k, u, q); }
    }
  }

  /** The parts of two tasks: different roots and stacks, and no data page in common. */
  lemma PartsApart(k: Snapshot, t: TaskView, u: TaskView)
    requires PartOf(k, t) !! PartOf(k, u)
    ensures PageAt(k, t.stack) != PageAt(k, u.stack)
    ensures t.pgd != 0 ==> PageAt(k, t.pgd) != PageAt(k, u.stack)
    ensures t.pgd != 0 && u.pgd != 0 ==> t.pgd != u.pgd && DataPages(k, t.pgd) !! DataPages(k, u.pgd)
  {
    hide DataPages, TablePages, PageAt, ChunksOf;
    assert Page(PageAt(k, t.stack)) in PartOf(k, t) && Page(PageAt(k, u.stack)) in PartOf(k, u);
    if t.pgd != 0 { assert Page(PageAt(k, t.pgd)) in PartOf(k, t); }
    if t.pgd != 0 && u.pgd != 0 {
      assert Page(PageAt(k, u.pgd)) in PartOf(k, u);
      DataApart(k, t, u);
    }
  }

  lemma StackSomewhere(k: Snapshot, t: TaskView)
    requires Owned(k, t)
    ensures PageAt(k, t.stack) >= 0
  {
    hide PageAt, WellPlaced, Low, AddressSpace, OwnsChunks;
  }

  lemma StacksSomewhere(k: Snapshot, ts: map<nat, TaskView>)
    requires Consistent(k) && forall p :: p in ts ==> Owned(k, ts[p])
    ensures forall p :: p in ts ==> PageAt(k, ts[p].stack) != PageAt(k, 0)
  {
    hide Consistent, Owned, PageAt;
    NegativePage(k);
    forall p | p in ts ensures PageAt(k, ts[p].stack) >= 0 { StackSomewhere(k, ts[p]); }
  }

  lemma SpacesOf(k: Snapshot, ts: map<nat, TaskView>)
    requires forall p :: p in ts ==> Owned(k, ts[p])
    ensures forall p :: p in ts && ts[p].pgd != 0 ==> AddressSpace(k, ts[p].pgd, ts[p].mappings)
  {
    hide WellPlaced, Low, AddressSpace, OwnsChunks, OwnsBlocks;
  }

  lemma CreateKeeps(k: Snapshot, ts: map<nat, TaskView>, kernel: set<Item>, c: nat, k': Snapshot, t: TaskView)
    requires System(k, ts, kernel) && Consistent(k') && c !in ts && Created(k, k', t)
    ensures System(k', ts[c := t], kernel) && Parts(k', ts) == Parts(k, ts)
  {
    hide Consistent, Owned, RestOf, Everything, Items, Split, Parts, AddressSpace, SameSpace, BlocksStay, PageAt;
    RestInside(k', t);
    StacksSomewhere(k, ts);
    SpacesOf(k, ts);
    Bystanders(k, k', ts, kernel, 0, All(k));
    SystemWith(k', ts, kernel, c, t);
  }

  lemma ForkKeeps(k: Snapshot, ts: map<nat, TaskView>, kernel: set<Item>, c: nat, k': Snapshot, t: TaskView)
    requires System(k, ts, kernel) && Consistent(k') && c !in ts && ForkedTask(k, k', t)
    ensures System(k', ts[c := t], kernel) && Parts(k', ts) == Parts(k, ts)
  {
    hide Consistent, Owned, RestOf, Everything, Items, Split, Parts, AddressSpace, SameSpace, BlocksStay, PageAt;
    hide DataPages;
    RestInside(k', t);
    forall p | p in ts ensures PageAt(k, ts[p].stack) != PageAt(k, t.pgd) { NewRootApart(k, k', t, ts[p]); }
    SpacesOf(k, ts);
    Bystanders(k, k', ts, kernel, t.pgd, All(k));
    SystemWith(k', ts, kernel, c, t);
  }

  /** The root of a new task is in no page that was live. */
  lemma NewRootApart(k: Snapshot, k': Snapshot, t: TaskView, u: TaskView)
    requires Consistent(k) && Consistent(k') && Owned(k, u) && ForkedTask(k, k', t)
    ensures PageAt(k, u.stack) != PageAt(k, t.pgd)
  {
    hide Consistent, Owned, RestOf, Everything, Items, SpaceOf, SpacesKept, PageAt, ChunksOf;
    PartIsOwned(k, u);
    PartIsOwned(k', t);
    StaysWhere(k, k', t.pgd);
    hide BlocksStay;
    assert Page(PageAt(k, u.stack)) in PartOf(k, u) && Page(PageAt(k', t.pgd)) in PartOf(k', t);
  }

  lemma DoKeeps(k: Snapshot, ts: map<nat, TaskView>, kernel: set<Item>, p: nat, k': Snapshot, t: TaskView)
    requires System(k, ts, kernel) && Consistent(k') && p in ts && ts[p].pgd != 0 && Keeps(k, ts[p], k', t)
    ensures System(k', ts[p := t], kernel) && Parts(k', ts - {p}) == Parts(k, ts - {p})
  {
    hide Consistent, Owned, RestOf, All, Items, Split, Parts, AddressSpace, SameSpace, BlocksStay, PageAt, Grows;
    hide DataPages;
    var others := ts - {p};
    SystemWithout(k, ts, kernel, p);
    RestInside(k', t);
    GrowsBlocks(k, k', 0);
    StacksSomewhere(k, others);
    SpacesOf(k, others);
    forall q | q in others && others[q].pgd != 0 ensures others[q].pgd != ts[p].pgd {
      TwoTasks(k, ts, kernel, p, q);
    }
    Bystanders(k, k', others, kernel, 0, Items(RestOf(k', t)));
    SystemWith(k', others, kernel, p, t);
    assert others[p := t] == ts[p := t];
  }

  lemma TwoTasks(k: Snapshot, ts: map<nat, TaskView>, kernel: set<Item>, p: nat, q: nat)
    requires System(k, ts, kernel) && p in ts && q in ts && p != q
    ensures PartOf(k, ts[p]) !! PartOf(k, ts[q])
    ensures ts[p].pgd != 0 && ts[q].pgd != 0 ==>
      ts[p].pgd != ts[q].pgd && DataPages(k, ts[p].pgd) !! DataPages(k, ts[q].pgd)
  {
    hide Consistent, Owned, PartOf, All, DataPages;
    var parts := Parts(k, ts);
    assert p in parts && q in parts && parts[p] == PartOf(k, ts[p]) && parts[q] == PartOf(k, ts[q]);
    PartsApart(k, ts[p], ts[q]);
  }

  /** The root that a task has after its address space was cleared is in no page of another task. */
  lemma RootApartFrom(k: Snapshot, k': Snapshot, t: TaskView, t': TaskView, u: TaskView)
    requires Consistent(k) && Consistent(k') && Owned(k, t) && Owned(k', t') && Owned(k, u) && t'.pgd != 0
    requires PartOf(k, t) !! PartOf(k, u) && RestOf(k', t') == RestOf(k, t) && k'.base == k.base
    ensures PageAt(k, u.stack) != PageAt(k, t'.pgd) && (u.pgd != 0 ==> u.pgd != t'.pgd)
  {
    hide Consistent, Owned, RestOf, Everything, Items, SpaceOf, ChunksOf, All;
    PartIsOwned(k, t);
    PartIsOwned(k, u);
    PartIsOwned(k', t');
    assert PageAt(k', t'.pgd) == PageAt(k, t'.pgd);
    hide PageAt;
    assert Page(PageAt(k', t'.pgd)) in PartOf(k', t') && Page(PageAt(k, u.stack)) in PartOf(k, u);
    if u.pgd != 0 { assert Page(PageAt(k, u.pgd)) in PartOf(k, u); }
  }

  lemma ClearKeeps(k: Snapshot, ts: map<nat, TaskView>, kernel: set<Item>, p: nat, k': Snapshot, t: TaskView)
    requires System(k, ts, kernel) && Consistent(k') && p in ts && Cleared(k, ts[p], k', t)
    ensures System(k', ts[p := t], kernel) && Parts(k', ts - {p}) == Parts(k, ts - {p})
  {
    hide Consistent, Owned, RestOf, All, Items, Split, Parts, AddressSpace, SameSpace, BlocksStay, PageAt, DataPages;
    var others := ts - {p};
    SystemWithout(k, ts, kernel, p);
    RestInside(k', t);
    StaysWhere(k, k', t.pgd);
    SpacesOf(k, others);
    NothingAtZero(k);
    forall q | q in others
      ensures PageAt(k, others[q].stack) != PageAt(k, t.pgd)
      ensures others[q].pgd != 0 ==> others[q].pgd != t.pgd && DataPages(k, others[q].pgd) !! DataPages(k, ts[p].pgd)
    {
      TwoTasks(k, ts, kernel, p, q);
      RootApartFrom(k, k', ts[p], t, ts[q]);
    }
    Bystanders(k, k', others, kernel, t.pgd, Items(RestOf(k', t)));
    SystemWith(k', others, kernel, p, t);
    assert others[p := t] == ts[p := t];
  }

  lemma ExecKeeps(k: Snapshot, ts: map<nat, TaskView>, kernel: set<Item>, p: nat, k': Snapshot, t: TaskView)
    requires System(k, ts, kernel) && Consistent(k') && p in ts && Renewed(k, ts[p], k', t)
    ensures System(k', ts[p := t], kernel) && Parts(k', ts - {p}) == Parts(k, ts - {p})
  {
    hide System, Consistent, Cleared, Keeps, Parts;
    var k1, t1 :| Consistent(k1) && Cleared(k, ts[p], k1, t1) && Keeps(k1, t1, k', t);
    ClearKeeps(k, ts, kernel, p, k1, t1);
    ClearedTask(k, ts[p], k1, t1);
    DoKeeps(k1, ts[p := t1], kernel, p, k', t);
    assert ts[p := t1][p := t] == ts[p := t] && ts[p := t1] - {p} == ts - {p};
  }

  lemma EndKeeps(k: Snapshot, ts: map<nat, TaskView>, kernel: set<Item>, p: nat, k': Snapshot)
    requires System(k, ts, kernel) && Consistent(k') && p in ts && Ended(k, k', ts[p])
    ensures System(k', ts - {p}, kernel) && Parts(k', ts - {p}) == Parts(k, ts - {p})
  {
    hide Consistent, Owned, RestOf, Everything, Items, Split, Parts, AddressSpace, SameSpace, BlocksStay, PageAt;
    hide DataPages;
    var others := ts - {p};
    SystemWithout(k, ts, kernel, p);
    StacksSomewhere(k, others);
    SpacesOf(k, others);
    NothingAtZero(k);
    forall q | q in others && others[q].pgd != 0
      ensures AddressSpace(k', others[q].pgd, others[q].mappings) && SameSpace(k, k', others[q].pgd)
    {
      TwoTasks(k, ts, kernel, p, q);
    }
    Bystanders(k, k', others, kernel, 0, All(k'));
  }

  lemma NothingAtZero(k: Snapshot)
    requires Consistent(k)
    ensures DataPages(k, 0) == {}
  {
    NoTablesYet(k.space.tree, k.space.tables, k.offset, 0);
    NoPlaces(k, 0);
    hide Consistent;
  }

  /** The step is one of this task, or makes it. */
  predicate Concerns(step: Step, q: nat) {
    match step
    case Create(c) => q == c
    case Exec(p) => q == p
    case Fork(_, c) => q == c
    case Do(p, _) => q == p
    case End(p) => q == p
  }

  /** A task that a step does not concern has the same part before and after. */
  ghost predicate OthersUntouched(step: Step, k: Snapshot, ts: map<nat, TaskView>, k': Snapshot,
                                  ts': map<nat, TaskView>) {
    forall q :: q in ts && !Concerns(step, q) ==> q in ts' && ts'[q] == ts[q] && PartOf(k', ts[q]) == PartOf(k, ts[q])
  }

  /** Whatever becomes of task `c`, the others are as before. */
  lemma SameParts(step: Step, k: Snapshot, k': Snapshot, ts: map<nat, TaskView>, ts': map<nat, TaskView>, c: nat)
    requires Parts(k', ts - {c}) == Parts(k, ts - {c}) && ts' - {c} == ts - {c} && Concerns(step, c)
    ensures OthersUntouched(step, k, ts, k', ts')
  {
    hide PartOf;
    var others := ts - {c};
    forall q | q in ts && !Concerns(step, q)
      ensures q in ts' && ts'[q] == ts[q] && PartOf(k', ts[q]) == PartOf(k, ts[q])
    {
      assert q in others && others[q] == ts[q] && q in ts' - {c} && (ts' - {c})[q] == others[q];
      assert Parts(k', others)[q] == Parts(k, others)[q];
    }
  }

  /** Every step keeps the tasks apart, and touches no task's part but its own. */
  lemma StepKeeps(step: Step, k: Snapshot, ts: map<nat, TaskView>, kernel: set<Item>, k': Snapshot,
      ts': map<nat, TaskView>, ramdisk: nat -> nat)
    requires System(k, ts, kernel) && Stepped(step, k, ts, k', ts', ramdisk)
    ensures System(k', ts', kernel) && OthersUntouched(step, k, ts, k', ts')
  {
    hide System, Consistent, Created, ForkedTask, Forked, Ended, Handled, Renewed, Parts, PartOf, OthersUntouched;
    match step
    case Create(c) =>
      var t :| ts' == ts[c := t] && Created(k, k', t);
      CreateKeeps(k, ts, kernel, c, k', t);
      assert ts[c := t] - {c} == ts == ts - {c};
      SameParts(step, k, k', ts, ts', c);
    case Exec(p) =>
      var t :| ts' == ts[p := t] && Renewed(k, ts[p], k', t);
      ExecKeeps(k, ts, kernel, p, k', t);
      assert ts[p := t] - {p} == ts - {p};
      SameParts(step, k, k', ts, ts', p);
    case Fork(p, c) =>
      var t :| ts' == ts[c := t] && Forked(k, k', ts[p].pgd, t.pgd) && ForkedTask(k, k', t);
      ForkKeeps(k, ts, kernel, c, k', t);
      assert ts[c := t] - {c} == ts == ts - {c};
      SameParts(step, k, k', ts, ts', c);
    case Do(p, event) =>
      var t :| ts' == ts[p := t] && Handled(event, k, ts[p], k', t, ramdisk);
      HandledKeeps(event, k, ts[p], k', t, ramdisk);
      DoKeeps(k, ts, kernel, p, k', t);
      assert ts[p := t] - {p} == ts - {p};
      SameParts(step, k, k', ts, ts', p);
    case End(p) =>
      EndKeeps(k, ts, kernel, p, k');
      assert ts' - {p} == ts - {p};
      SameParts(step, k, k', ts, ts', p);
  }

  /** The states of a run of many tasks. */
  ghost predicate SystemRun(steps: seq<Step>, ks: seq<Snapshot>, tss: seq<map<nat, TaskView>>, ramdisk: nat -> nat) {
    && |ks| == |tss| == |steps| + 1
    && forall i :: 0 <= i < |steps| ==> Stepped(steps[i], ks[i], tss[i], ks[i + 1], tss[i + 1], ramdisk)
  }

  /** Before there is any task, all that is live is the kernel's. */
  lemma NoTasks(k: Snapshot)
    requires Consistent(k)
    ensures System(k, map[], All(k))
  {
    hide Consistent, All;
  }

  /**
   In every state of every run from any such state, each task owns its memory, no two share a page, a block or a chunk,
   and all that is live is some task's or the kernel's, whose part never changes.
   */
  lemma {:induction false} RunKeepsApart(steps: seq<Step>, ks: seq<Snapshot>, tss: seq<map<nat, TaskView>>,
      ramdisk: nat -> nat, kernel: set<Item>, i: nat)
    requires SystemRun(steps, ks, tss, ramdisk) && System(ks[0], tss[0], kernel) && i < |ks|
    ensures System(ks[i], tss[i], kernel)
  {
    hide System, Consistent, Stepped, All;
    if i > 0 {
      RunKeepsApart(steps, ks, tss, ramdisk, kernel, i - 1);
      assert Stepped(steps[i - 1], ks[i - 1], tss[i - 1], ks[i - 1 + 1], tss[i - 1 + 1], ramdisk);
      StepKeeps(steps[i - 1], ks[i - 1], tss[i - 1], kernel, ks[i], tss[i], ramdisk);
    }
  }

  /** No step changes what the kernel has mapped. */
  lemma StepKernel(step: Step, k: Snapshot, ts: map<nat, TaskView>, k': Snapshot, ts': map<nat, TaskView>,
      ramdisk: nat -> nat)
    requires Stepped(step, k, ts, k', ts', ramdisk)
    ensures KernelKept(k, k')
  {
    hide Consistent, Owned, RestOf, Everything, OthersKept, OthersSurvive, SpacesKept, OthersApart, LeafOf, Renewed;
    hide Handled, Keeps;
    match step
    case Create(c) =>
    case Exec(p) =>
      var t :| ts' == ts[p := t] && Renewed(k, ts[p], k', t);
      RenewedKernel(k, ts[p], k', t);
    case Fork(p, c) =>
    case Do(p, event) =>
      var t :| ts' == ts[p := t] && Handled(event, k, ts[p], k', t, ramdisk);
      HandledKeeps(event, k, ts[p], k', t, ramdisk);
      KeepsKernel(k, ts[p], k', t);
    case End(p) =>
  }

  lemma KeepsKernel(k: Snapshot, t: TaskView, k': Snapshot, t': TaskView)
    requires Keeps(k, t, k', t')
    ensures KernelKept(k, k')
  {
    hide Owned, RestOf, OthersKept, LeafOf;
  }

  lemma RenewedKernel(k: Snapshot, t: TaskView, k': Snapshot, t': TaskView)
    requires Renewed(k, t, k', t')
    ensures KernelKept(k, k')
  {
    hide Consistent, Owned, RestOf, OthersApart, OthersKept, LeafOf, Keeps;
    var k1, t1 :| Consistent(k1) && Cleared(k, t, k1, t1) && Keeps(k1, t1, k', t');
    KeepsKernel(k1, t1, k', t');
  }

  lemma {:induction false} RunKernel(steps: seq<Step>, ks: seq<Snapshot>, tss: seq<map<nat, TaskView>>,
      ramdisk: nat -> nat, i: nat)
    requires SystemRun(steps, ks, tss, ramdisk) && i < |ks|
    ensures KernelKept(ks[0], ks[i])
  {
    hide Stepped, LeafOf;
    if i > 0 {
      RunKernel(steps, ks, tss, ramdisk, i - 1);
      assert Stepped(steps[i - 1], ks[i - 1], tss[i - 1], ks[i - 1 + 1], tss[i - 1 + 1], ramdisk);
      StepKernel(steps[i - 1], ks[i - 1], tss[i - 1], ks[i], tss[i], ramdisk);
    }
  }

  lemma SystemLengths(steps: seq<Step>, ks: seq<Snapshot>, tss: seq<map<nat, TaskView>>, ramdisk: nat -> nat)
    requires SystemRun(steps, ks, tss, ramdisk)
    ensures |ks| == |tss| == |steps| + 1
  {
    hide Stepped;
  }

  /** In every state of every run, every task's address space translates each page above the lower half as the kernel's
      own did at the start. */
  lemma KernelInEverySpace(steps: seq<Step>, ks: seq<Snapshot>, tss: seq<map<nat, TaskView>>, ramdisk: nat -> nat,
      kernel: set<Item>, i: nat, p: nat, n: nat)
    requires SystemRun(steps, ks, tss, ramdisk) && System(ks[0], tss[0], kernel) && i < |ks|
    requires i < |tss| && p in tss[i] && tss[i][p].pgd != 0 && USER_PAGES <= n < KERNEL_PAGES
    ensures LeafOf(ks[i], tss[i][p].pgd, n) == LeafOf(ks[0], ks[0].kernelPgd, n)
  {
    hide SystemRun, Split, Consistent, Owned, LeafOf;
    assert |ks| == |tss| by { SystemLengths(steps, ks, tss, ramdisk); }
    RunKeepsApart(steps, ks, tss, ramdisk, kernel, i);
    RunKernel(steps, ks, tss, ramdisk, i);
    KernelInTask(ks[i], tss[i][p]);
  }

  /** When no task is left, everything live is the kernel's, as if there had never been any. */
  lemma AllEnded(steps: seq<Step>, ks: seq<Snapshot>, tss: seq<map<nat, TaskView>>, ramdisk: nat -> nat,
      kernel: set<Item>, i: nat)
    requires SystemRun(steps, ks, tss, ramdisk) && System(ks[0], tss[0], kernel) && i < |ks| && tss[i] == map[]
    ensures All(ks[i]) == kernel
  {
    hide SystemRun, Consistent, All;
    RunKeepsApart(steps, ks, tss, ramdisk, kernel, i);
  }
}
