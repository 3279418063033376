/**
 The intrusive doubly linked list under every queue of the kernel, proved once against a sequence of
 nodes. The components above it hold the sequence itself.
 */
module LinkedList {
  import opened Lists

  class Node {
    var prev: Node?
    var next: Node?

    constructor ()
      ensures prev == null && next == null
    {
      prev, next := null, null;
    }
  }

  /** Neighbouring nodes point at each other, and the ends at nothing. */
  ghost predicate Linked(nodes: seq<Node>)
    reads nodes
  {
    && (nodes != [] ==> nodes[0].prev == null && nodes[|nodes| - 1].next == null)
    && (forall i, j :: 0 <= i < j < |nodes| && j == i + 1 ==> nodes[i].next == nodes[j] && nodes[j].prev == nodes[i])
  }

  class LinkedList {
    var head: Node?
    var tail: Node?

    /** The nodes from `head` to `tail`. */
    ghost var nodes: seq<Node>

    ghost predicate Valid()
      reads this, nodes
    {
      Spells(nodes)
    }

    /** From `head` to `tail`, the links spell these nodes. */
    ghost predicate Spells(xs: seq<Node>)
      reads this, xs
    {
      && Distinct(xs)
      && head == (if xs == [] then null else xs[0])
      && tail == (if xs == [] then null else xs[|xs| - 1])
      && Linked(xs)
    }

    /** A walk from `head` along `next` meets these nodes, and `last` after them. */
    ghost predicate Walks(xs: seq<Node>, last: Node?)
      reads this, xs
    {
      && xs != [] && head == xs[0] && xs[|xs| - 1].next == last
      && forall i :: 0 <= i < |xs| - 1 ==> xs[i].next == xs[i + 1]
    }

    /** `linked_list_init` */
    constructor ()
      ensures Valid() && nodes == []
    {
      head, tail := null, null;
      nodes := [];
    }

    /**
     `linked_list_insert`: at the tail. Afterwards the links spell a sequence if and only if the node was not
     yet in the list. If it was, a walk ends at it and misses what was behind it, or stays at it for ever if it was the
     last.
     */
    method Insert(node: Node)
      requires Valid()
      modifies this, nodes, node
      ensures node !in old(nodes) ==> Valid() && nodes == old(nodes) + [node]
      ensures node in old(nodes) ==> forall xs :: !Spells(xs)
      ensures forall k :: 0 <= k < |old(nodes)| && old(nodes)[k] == node ==>
        Walks(old(nodes)[..k + 1], if k == |old(nodes)| - 1 then node else null)
    {
      ghost var was := nodes;
      nodes := nodes + [node];
      if head == null {
        head := node;
        tail := node;
        node.next := null;
        node.prev := null;
        return;
      }
      node.prev := tail;
      node.next := null;
      tail.next := node;
      tail := node;
      if node in was {
        ghost var k :| 0 <= k < |was| && was[k] == node;
        forall xs ensures !Spells(xs) { SpellsNothing(xs, was, k); }
      }
    }

    /** The links from `head` on spell the first nodes of both sequences. */
    lemma SameStart(xs: seq<Node>, was: seq<Node>, k: nat, i: nat)
      requires Spells(xs) && i <= k < |was| && head == was[0]
      requires forall j :: 0 <= j < k ==> was[j].next == was[j + 1]
      ensures i < |xs| && xs[i] == was[i]
    {
      if i > 0 {
        SameStart(xs, was, k, i - 1);
        assert xs[i - 1].next == was[i];
      }
    }

    /** A node that was inserted a second time is the tail, and is not where it was. */
    lemma SpellsNothing(xs: seq<Node>, was: seq<Node>, k: nat)
      requires Distinct(was) && k < |was| && head == was[0] && tail == was[k]
      requires was[k].prev == was[|was| - 1] && (k == |was| - 1 ==> was[k].next == was[k])
      requires forall j :: 0 <= j < k ==> was[j].next == was[j + 1]
      ensures !Spells(xs)
    {
      if Spells(xs) {
        SameStart(xs, was, k, k);
        assert k == |xs| - 1;
        if k > 0 { SameStart(xs, was, k, k - 1); }
        assert false;
      }
    }

    /**
     `linked_list_insert_before`: in front of the node at position `k`. If the node is in the list already, a walk jumps
     over what was between it and there, or goes round for ever.
     */
    method InsertBefore(node: Node, beforeNode: Node, ghost k: nat)
      requires Valid() && k < |nodes| && beforeNode == nodes[k]
      modifies this, nodes, node
      ensures node !in old(nodes) ==> Valid() && nodes == old(nodes)[..k] + [node] + old(nodes)[k..]
      ensures forall j :: 0 <= j < |old(nodes)| && old(nodes)[j] == node ==>
        var (xs, last) := Met(old(nodes), j, k); Walks(xs, last)
    {
      ghost var was := nodes;
      nodes := was[..k] + [node] + was[k..];
      assert k > 0 ==> beforeNode.prev == was[k - 1];
      node.next := beforeNode;
      node.prev := beforeNode.prev;
      if beforeNode.prev != null {
        beforeNode.prev.next := node;
      } else {
        head := node;
      }
      beforeNode.prev := node;
      hide Met, Walks, Spells;
      if node in was {
        ghost var j :| 0 <= j < |was| && was[j] == node;
        MetWalks(was, j, k);
      } else {
        InsertedSpells(was, node, k);
      }
    }

    lemma InsertedSpells(was: seq<Node>, node: Node, k: nat)
      requires Distinct(was) && node !in was && k < |was|
      requires head == (if k == 0 then node else was[0]) && tail == was[|was| - 1]
      requires node.next == was[k] && node.prev == if k == 0 then null else was[k - 1]
      requires was[k].prev == node && (k > 0 ==> was[0].prev == null && was[k - 1].next == node)
      requires was[|was| - 1].next == null
      requires forall i :: 0 < i < |was| && i != k ==> was[i].prev == was[i - 1] && was[i - 1].next == was[i]
      ensures Spells(was[..k] + [node] + was[k..])
    {
      var xs := was[..k] + [node] + was[k..];
      assert |xs| == |was| + 1 && xs[k] == node;
      assert forall i :: 0 <= i < k ==> xs[i] == was[i];
      assert forall i :: k < i < |xs| ==> xs[i] == was[i - 1];
      assert Distinct(xs);
      assert k > 0 ==> xs[0] == was[0] && xs[k - 1] == was[k - 1];
      assert xs[0].prev == null && xs[|xs| - 1] == was[|was| - 1];
      forall i | 0 <= i < |xs| - 1 ensures xs[i].next == xs[i + 1] && xs[i + 1].prev == xs[i] {
      }
    }

    /** What a walk meets after node `j` of the list was inserted before node `k`, and what comes after that. */
    static ghost function Met(was: seq<Node>, j: nat, k: nat): (seq<Node>, Node?)
      requires j < |was| && k < |was|
    {
      if j > k then (was[..k] + [was[j]] + was[k..j], was[j])
      else if j < k - 1 then (was[..j + 1] + was[k..], null)
      else (was[..j + 1], was[j])
    }

    lemma MetWalks(was: seq<Node>, j: nat, k: nat)
      requires Distinct(was) && j < |was| && k < |was| && head == (if k == 0 then was[j] else was[0])
      requires was[j].next == if j == k || j == k - 1 then was[j] else was[k]
      requires k > 0 && j != k - 1 ==> was[k - 1].next == was[j]
      requires j < |was| - 1 ==> was[|was| - 1].next == null
      requires forall i :: 0 <= i < |was| - 1 && i != j && i != k - 1 ==> was[i].next == was[i + 1]
      ensures var (xs, last) := Met(was, j, k); Walks(xs, last)
    {
      var (xs, last) := Met(was, j, k);
      MetAt(was, j, k);
      hide Met;
      if j > k {
        forall i | 0 <= i < |xs| - 1 ensures xs[i].next == xs[i + 1] {
          if i > k { assert was[i - 1].next == was[i]; }
        }
        assert was[j - 1].next == was[j];
      } else if j < k - 1 {
        forall i | j < i < |xs| - 1 ensures xs[i].next == xs[i + 1] {
          assert was[i - j - 1 + k].next == was[i - j + k];
        }
        assert was[|was| - 1].next == null;
      }
    }

    static lemma MetAt(was: seq<Node>, j: nat, k: nat)
      requires j < |was| && k < |was|
      ensures var (xs, last) := Met(was, j, k);
        && |xs| == (if j < k - 1 then j + 1 + |was| - k else j + 1) && last == (if j < k - 1 then null else was[j])
        && forall i :: 0 <= i < |xs| ==>
             xs[i] == was[if j > k then if i < k then i else if i == k then j else i - 1
                          else if i <= j then i else i - j - 1 + k]
    {
    }

    /** `linked_list_remove`: the other nodes keep their order, and `node` ends up unlinked. */
    method RemoveNode(node: Node)
      requires Valid() && node in nodes
      modifies this, nodes
      ensures nodes == Remove(old(nodes), node)
      ensures Valid()
      ensures node.next == null && node.prev == null
    {
      ghost var k :| 0 <= k < |nodes| && nodes[k] == node;
      RemoveAt(nodes, k);
      CutDistinct(nodes, k);
      hide Remove, Cut;
      Unlink(node, k, Cut(nodes, k));
    }

    /** The pointer updates: `rest` is the list without the node at position `k`. */
    method Unlink(node: Node, ghost k: nat, ghost rest: seq<Node>)
      requires Valid() && k < |nodes| && node == nodes[k]
      requires Distinct(rest) && |rest| == |nodes| - 1
      requires forall i :: 0 <= i < |rest| ==> rest[i] == nodes[if i < k then i else i + 1]
      modifies this, nodes
      ensures Valid() && nodes == rest
      ensures node.next == null && node.prev == null
    {
      assert k > 0 ==> node.prev == nodes[k - 1];
      assert k < |nodes| - 1 ==> node.next == nodes[k + 1];
      if node.next == null {
        tail := node.prev;
      } else {
        node.next.prev := node.prev;
      }
      if node.prev == null {
        head := node.next;
      } else {
        node.prev.next := node.next;
      }
      node.next := null;
      node.prev := null;
      nodes := rest;
    }
  }
}
