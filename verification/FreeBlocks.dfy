/**
 The canonical description of free memory: from the set of free pages alone, which naturally
 aligned power-of-two blocks the page allocator has to keep in its lists.
 */
module FreeBlocks {
  import opened Bits

  /** `MAX_ORDERS - 1` */
  const TOP_ORDER: nat := 21

  datatype Block = Block(start: nat, order: nat)

  predicate Within(p: nat, lo: nat, hi: nat) {
    lo <= p < hi
  }

  ghost function Interval(lo: nat, hi: nat): set<nat> {
    set p: nat {:trigger Within(p, lo, hi)} | p < hi && Within(p, lo, hi)
  }

  /** The pages of the block of order `o` that starts at page `s`. */
  ghost function Range(s: nat, o: nat): set<nat> {
    Interval(s, s + Pow2(o))
  }

  lemma StartInRange(s: nat, o: nat)
    ensures s in Range(s, o)
  {
  }

  lemma OnePage(s: nat)
    ensures Range(s, 0) == {s}
  {
  }

  ghost function Pages(b: Block): set<nat> {
    Range(b.start, b.order)
  }

  /** An aligned block all of whose pages are free. */
  ghost predicate Whole(free: set<nat>, s: nat, o: nat) {
    Aligned(s, o) && Range(s, o) <= free
  }

  /** A whole free block that is not half of a larger one. */
  ghost predicate Maximal(free: set<nat>, s: nat, o: nat) {
    && o <= TOP_ORDER
    && Whole(free, s, o)
    && (o == TOP_ORDER || !Whole(free, Down(s, o + 1), o + 1))
  }

  ghost function Canonical(free: set<nat>): set<Block> {
    set s, o | s in free && 0 <= o <= TOP_ORDER && Maximal(free, s, o) :: Block(s, o)
  }

  lemma CanonicalIff(free: set<nat>, s: nat, o: nat)
    ensures Block(s, o) in Canonical(free) <==> Maximal(free, s, o)
  {
    if Maximal(free, s, o) { assert s in Range(s, o); }
  }

  /** Aligned blocks are nested or disjoint. */
  lemma Nested(s: nat, o: nat, t: nat, k: nat)
    requires Aligned(s, o) && Aligned(t, k) && o <= k
    ensures Range(s, o) <= Range(t, k) || Range(s, o) !! Range(t, k)
  {
    forall p, q | p in Range(s, o) && p in Range(t, k) && q in Range(s, o)
      ensures q in Range(t, k)
    {
      DownUnique(s, o, p);
      DownUnique(s, o, q);
      DownUnique(t, k, p);
      DownUnique(t, k, q);
      DownDown(p, o, k);
      DownDown(q, o, k);
    }
  }

  /** The aligned block of order `k` around page `p` of an aligned block of order `o <= k`. */
  lemma Enclosing(s: nat, o: nat, k: nat)
    requires Aligned(s, o) && o <= k
    ensures Aligned(Down(s, k), k) && Range(s, o) <= Range(Down(s, k), k)
  {
    DownDown(s, k, k);
    DownBounds(s, k);
    assert s in Range(s, o) && s in Range(Down(s, k), k);
    Nested(s, o, Down(s, k), k);
  }

  /** Of two intersecting aligned blocks, the one of larger order is the enclosing block of the other. */
  lemma IntersectingBlocks(s: nat, o: nat, t: nat, k: nat, p: nat)
    requires Aligned(s, o) && Aligned(t, k) && o <= k
    requires p in Range(s, o) && p in Range(t, k)
    ensures t == Down(s, k) && Range(s, o) <= Range(t, k)
  {
    Nested(s, o, t, k);
    assert s in Range(s, o);
    DownUnique(t, k, s);
  }

  lemma MaximalUnique(free: set<nat>, s: nat, o: nat, t: nat, k: nat, p: nat)
    requires Maximal(free, s, o) && Maximal(free, t, k)
    requires p in Range(s, o) && p in Range(t, k)
    ensures s == t && o == k
  {
    if o < k {
      IntersectingBlocks(s, o, t, k, p);
      InsideMaximal(free, s, o, t, k);
    } else if k < o {
      IntersectingBlocks(t, k, s, o, p);
      InsideMaximal(free, t, k, s, o);
    } else {
      IntersectingBlocks(s, o, t, k, p);
    }
  }

  /** A block strictly inside a whole block has a whole parent. */
  lemma InsideMaximal(free: set<nat>, s: nat, o: nat, t: nat, k: nat)
    requires Aligned(s, o) && o < k && Whole(free, t, k) && t == Down(s, k)
    ensures Whole(free, Down(s, o + 1), o + 1)
  {
    DownDown(s, o + 1, o + 1);
    DownDown(s, o + 1, k);
    Enclosing(Down(s, o + 1), o + 1, k);
  }

  /** Every free page lies in a maximal block, at least as large as any whole block around it. */
  lemma {:induction false} MaximalExists(free: set<nat>, p: nat, o: nat) returns (b: Block)
    requires o <= TOP_ORDER && Whole(free, Down(p, o), o)
    ensures b.order >= o && b.start == Down(p, b.order) && Maximal(free, b.start, b.order)
    ensures p in Pages(b)
    decreases TOP_ORDER - o
  {
    DownDown(p, o, o + 1);
    if o == TOP_ORDER || !Whole(free, Down(Down(p, o), o + 1), o + 1) {
      b := Block(Down(p, o), o);
      DownBounds(p, o);
    } else {
      b := MaximalExists(free, p, o + 1);
    }
  }

  /** Taking the pages of one canonical block away leaves every other canonical block as it is. */
  lemma RemoveMaximalAt(free: set<nat>, s: nat, o: nat, t: nat, k: nat)
    requires Maximal(free, s, o)
    ensures Maximal(free - Range(s, o), t, k) <==> Maximal(free, t, k) && !(t == s && k == o)
  {
    var rest := free - Range(s, o);
    if Maximal(free, t, k) && !(t == s && k == o) {
      forall p | p in Range(t, k) && p in Range(s, o) ensures false {
        MaximalUnique(free, s, o, t, k, p);
      }
      assert Whole(rest, t, k);
    }
    if Maximal(rest, t, k) {
      assert s in Range(s, o) && t in Range(t, k);
      if k < TOP_ORDER && Whole(free, Down(t, k + 1), k + 1) {
        DownDown(t, k + 1, k + 1);
        var p :| p in Range(Down(t, k + 1), k + 1) && p in Range(s, o);
        Enclosing(t, k, k + 1);
        if k + 1 <= o {
          Nested(Down(t, k + 1), k + 1, s, o);
        } else {
          IntersectingBlocks(s, o, Down(t, k + 1), k + 1, p);
          InsideMaximal(free, s, o, Down(t, k + 1), k + 1);
        }
        assert false;
      }
    }
  }

  lemma RemoveMaximal(free: set<nat>, s: nat, o: nat)
    requires Maximal(free, s, o)
    ensures Canonical(free - Range(s, o)) == Canonical(free) - {Block(s, o)}
  {
    forall b: Block
      ensures b in Canonical(free - Range(s, o)) <==> b in Canonical(free) - {Block(s, o)}
    {
      RemoveMaximalAt(free, s, o, b.start, b.order);
      CanonicalIff(free, b.start, b.order);
      CanonicalIff(free - Range(s, o), b.start, b.order);
    }
  }

  /** The other half of the aligned block of twice the size. */
  function BuddyOf(s: nat, o: nat): (b: nat)
    requires Aligned(s, o)
    ensures Aligned(b, o) && b != s && Down(b, o + 1) == Down(s, o + 1)
  {
    AlignedParent(s, o);
    AlignedHalves(Down(s, o + 1), o);
    DownDown(s, o + 1, o + 1);
    DownUnique(Down(s, o + 1), o + 1, Down(s, o + 1) + Pow2(o));
    DownUnique(Down(s, o + 1), o + 1, Down(s, o + 1));
    if Aligned(s, o + 1) then s + Pow2(o) else s - Pow2(o)
  }

  /** A block and its buddy make up their parent. */
  lemma BuddiesJoin(s: nat, o: nat)
    requires Aligned(s, o)
    ensures Range(Down(s, o + 1), o + 1) == Range(s, o) + Range(BuddyOf(s, o), o)
    ensures Range(s, o) !! Range(BuddyOf(s, o), o)
    ensures Down(s, o + 1) == if BuddyOf(s, o) < s then BuddyOf(s, o) else s
    ensures BuddyOf(BuddyOf(s, o), o) == s
  {
    AlignedParent(s, o);
    AlignedHalves(Down(s, o + 1), o);
    DownDown(s, o + 1, o + 1);
  }

  /** Giving back a block whose buddy is not wholly free adds that block and changes no other. */
  lemma AddMaximal(free: set<nat>, s: nat, o: nat)
    requires o <= TOP_ORDER && Aligned(s, o) && Range(s, o) !! free
    requires o == TOP_ORDER || !Whole(free, BuddyOf(s, o), o)
    ensures Maximal(free + Range(s, o), s, o)
    ensures Canonical(free + Range(s, o)) == Canonical(free) + {Block(s, o)}
  {
    var all := free + Range(s, o);
    BuddiesJoin(s, o);
    if o < TOP_ORDER && Whole(all, Down(s, o + 1), o + 1) {
      assert false;
    }
    assert Maximal(all, s, o);
    RemoveMaximal(all, s, o);
    CanonicalIff(all, s, o);
    assert all - Range(s, o) == free;
  }

  /** `blocks` splits the free pages into disjoint aligned blocks of at most the top order. */
  ghost predicate Partition(free: set<nat>, blocks: set<Block>) {
    && (forall b :: b in blocks ==> b.order <= TOP_ORDER && Whole(free, b.start, b.order))
    && (forall b, c :: b in blocks && c in blocks && b != c ==> Pages(b) !! Pages(c))
    && (forall p :: p in free ==> exists b :: b in blocks && p in Pages(b))
  }

  /** The two halves of one aligned block of twice their size. */
  predicate Buddies(b: Block, c: Block) {
    b != c && b.order == c.order && Down(b.start, b.order + 1) == Down(c.start, c.order + 1)
  }

  /** Below the top order, no two of the blocks are buddies. */
  ghost predicate Coalesced(blocks: set<Block>) {
    forall b, c :: b in blocks && c in blocks && b.order < TOP_ORDER ==> !Buddies(b, c)
  }

  /** The canonical blocks partition the free pages. */
  lemma CanonicalPartition(free: set<nat>)
    ensures Partition(free, Canonical(free))
  {
    forall p | p in free
      ensures exists b :: b in Canonical(free) && p in Pages(b)
    {
      var b := MaximalExists(free, p, 0);
      CanonicalIff(free, b.start, b.order);
    }
    forall b, c | b in Canonical(free) && c in Canonical(free) && b != c
      ensures Pages(b) !! Pages(c)
    {
      forall p | p in Pages(b) && p in Pages(c) ensures false {
        MaximalUnique(free, b.start, b.order, c.start, c.order, p);
      }
    }
  }

  lemma SameBlock(free: set<nat>, blocks: set<Block>, b: Block, c: Block, p: nat)
    requires Partition(free, blocks) && b in blocks && c in blocks
    requires p in Pages(b) && p in Pages(c)
    ensures b == c
  {
  }

  lemma NoBuddies(blocks: set<Block>, b: Block, c: Block)
    requires Coalesced(blocks) && b in blocks && c in blocks && b.order < TOP_ORDER
    ensures !Buddies(b, c)
  {
  }

  lemma Covering(free: set<nat>, blocks: set<Block>, s: nat, o: nat, p: nat) returns (b: Block)
    requires Partition(free, blocks)
    requires Whole(free, s, o) && p in Range(s, o)
    ensures b in blocks && p in Pages(b)
    ensures b.order >= o ==> b.start == Down(s, b.order) && Range(s, o) <= Pages(b)
  {
    b :| b in blocks && p in Pages(b);
    if b.order >= o { IntersectingBlocks(s, o, b.start, b.order, p); }
  }

  /** A block of the partition that contains the first or the second half of a whole block and is larger contains it
      all. */
  lemma HalfCovered(free: set<nat>, blocks: set<Block>, s: nat, o: nat, t: nat, b: Block)
    requires Partition(free, blocks) && b in blocks && 0 < o <= b.order && Whole(free, s, o)
    requires t in Range(s, o) && Range(t, o - 1) <= Pages(b)
    ensures Range(s, o) <= Pages(b)
  {
    hide Coalesced, Down;
    assert t in Range(t, o - 1);
    IntersectingBlocks(s, o, b.start, b.order, t);
  }

  lemma ExactBlock(free: set<nat>, blocks: set<Block>, t: nat, b: Block)
    requires Partition(free, blocks) && b in blocks && Aligned(t, b.order) && Range(t, b.order) <= Pages(b)
    ensures b.start == t
  {
    hide Down;
    assert t in Range(t, b.order);
    IntersectingBlocks(t, b.order, b.start, b.order, t);
  }

  /** The halves of a whole block. */
  lemma Halves(free: set<nat>, s: nat, o: nat)
    requires 0 < o && Whole(free, s, o)
    ensures var t := s + Pow2(o - 1);
            && Whole(free, s, o - 1) && Whole(free, t, o - 1) && Aligned(s, o - 1) && Aligned(t, o - 1)
            && s in Range(s, o) && t in Range(s, o)
            && t != s && Down(s, o) == Down(t, o)
  {
    hide Down;
    AlignedHalves(s, o - 1);
    BuddiesJoin(s, o - 1);
  }

  /** In a coalesced partition every whole block lies inside a single block. */
  lemma {:induction false} WholeInOneBlock(free: set<nat>, blocks: set<Block>, s: nat, o: nat) returns (b: Block)
    requires Partition(free, blocks) && Coalesced(blocks)
    requires o <= TOP_ORDER && Whole(free, s, o)
    ensures b in blocks && b.order >= o && Range(s, o) <= Pages(b)
    decreases o
  {
    hide Partition, Coalesced, Down, Range, Pow2, Pages, Whole, Aligned;
    if o == 0 {
      StartInRange(s, 0);
      b := Covering(free, blocks, s, 0, s);
    } else {
      Halves(free, s, o);
      var t := s + Pow2(o - 1);
      b := WholeInOneBlock(free, blocks, s, o - 1);
      var c := WholeInOneBlock(free, blocks, t, o - 1);
      if b.order >= o {
        HalfCovered(free, blocks, s, o, s, b);
      } else if c.order >= o {
        HalfCovered(free, blocks, s, o, t, c);
        b := c;
      } else {
        ExactBlock(free, blocks, s, b);
        ExactBlock(free, blocks, t, c);
        NoBuddies(blocks, b, c);
      }
    }
  }

  lemma CoalescedMaximal(free: set<nat>, blocks: set<Block>, b: Block)
    requires Partition(free, blocks) && Coalesced(blocks) && b in blocks
    ensures Maximal(free, b.start, b.order)
  {
    if b.order < TOP_ORDER && Whole(free, Down(b.start, b.order + 1), b.order + 1) {
      var c := WholeInOneBlock(free, blocks, Down(b.start, b.order + 1), b.order + 1);
      BuddiesJoin(b.start, b.order);
      SameBlock(free, blocks, b, c, b.start);
    }
  }

  lemma MaximalInCoalesced(free: set<nat>, blocks: set<Block>, b: Block)
    requires Partition(free, blocks) && Coalesced(blocks) && Maximal(free, b.start, b.order)
    ensures b in blocks
  {
    var c := Covering(free, blocks, b.start, b.order, b.start);
    CoalescedMaximal(free, blocks, c);
    MaximalUnique(free, b.start, b.order, c.start, c.order, b.start);
  }

  lemma BuddiesNotMaximal(free: set<nat>, b: Block, c: Block)
    requires Buddies(b, c) && b.order < TOP_ORDER && Maximal(free, b.start, b.order)
    ensures !Maximal(free, c.start, c.order)
  {
    if Maximal(free, c.start, c.order) {
      AlignedParent(b.start, b.order);
      AlignedParent(c.start, c.order);
      BuddiesJoin(b.start, b.order);
    }
  }

  lemma CanonicalCoalesced(free: set<nat>)
    ensures Coalesced(Canonical(free))
  {
    forall b, c | b in Canonical(free) && c in Canonical(free) && b.order < TOP_ORDER
      ensures !Buddies(b, c)
    {
      CanonicalIff(free, b.start, b.order);
      CanonicalIff(free, c.start, c.order);
      if Buddies(b, c) { BuddiesNotMaximal(free, b, c); }
    }
  }

  /** The canonical blocks are the only coalesced partition of the free pages. */
  lemma CanonicalUnique(free: set<nat>, blocks: set<Block>)
    ensures Partition(free, blocks) && Coalesced(blocks) <==> blocks == Canonical(free)
  {
    CanonicalPartition(free);
    CanonicalCoalesced(free);
    if Partition(free, blocks) && Coalesced(blocks) {
      forall b: Block ensures b in blocks <==> b in Canonical(free) {
        CanonicalIff(free, b.start, b.order);
        if b in blocks { CoalescedMaximal(free, blocks, b); }
        if b in Canonical(free) { MaximalInCoalesced(free, blocks, b); }
      }
    }
  }

  /** Somewhere in the free pages there is a naturally aligned run of `1 << o` pages. */
  ghost predicate RunExists(free: set<nat>, o: nat) {
    exists s :: Whole(free, s, o)
  }

  lemma OnePageRun(free: set<nat>)
    ensures RunExists(free, 0) <==> free != {}
  {
    if p :| p in free { assert Whole(free, p, 0); }
    forall s: nat | Whole(free, s, 0) ensures s in free { StartInRange(s, 0); }
  }

  /** A whole free run of order `o` exists exactly when some canonical block is at least that large. */
  lemma RunExistsIff(free: set<nat>, o: nat)
    requires o <= TOP_ORDER
    ensures RunExists(free, o) <==> (exists b :: b in Canonical(free) && b.order >= o)
  {
    if s :| Whole(free, s, o) {
      var b := MaximalExists(free, s, o);
      CanonicalIff(free, b.start, b.order);
    }
    if b :| b in Canonical(free) && b.order >= o {
      LowestPart(b.start, b.order, o);
      assert Whole(free, b.start, o);
    }
  }

  /** A block shrinks to its lowest sub-block of any smaller order. */
  lemma LowestPart(s: nat, k: nat, o: nat)
    requires Aligned(s, k) && o <= k
    ensures Aligned(s, o) && Range(s, o) <= Range(s, k)
  {
    DownDown(s, o, k);
    Pow2Monotone(o, k);
  }
}
