/**
 Devicetrees and the tokens a flattened devicetree is made of: sections 5.4.1 and 5.4.2 of the
 Devicetree Specification v0.4. A node is named by its path: the positions of the children taken
 from the root down.
 */
module DeviceTree {
  import opened Slices
  import opened Strings

  datatype Property = Property(nameoff: nat, value: seq<byte>)

  datatype Node = Node(name: seq<byte>, props: seq<Property>, children: seq<Node>)

  datatype Token = BeginNode(name: seq<byte>) | EndNode | Prop(property: Property) | Nop | End

  type Path = seq<nat>

  predicate HasNode(n: Node, p: Path) {
    p == [] || (p[0] < |n.children| && HasNode(n.children[p[0]], p[1..]))
  }

  function NodeAt(n: Node, p: Path): Node
    requires HasNode(n, p)
  {
    if p == [] then n else NodeAt(n.children[p[0]], p[1..])
  }

  /** The number of levels. */
  function Height(n: Node): (h: nat)
    ensures h >= 1
  {
    1 + HeightAll(n.children)
  }

  function HeightAll(ns: seq<Node>): (h: nat)
    ensures h >= 0
  {
    if ns == [] then 0
    else
      var h, t := Height(ns[0]), HeightAll(ns[1..]);
      if h > t then h else t
  }

  /** The tokens of a node: its name, its properties, its children and its end. */
  function Flatten(n: Node): (ts: seq<Token>)
    ensures |ts| >= 2 + |n.props|
  {
    Front(n) + FlattenAll(n.children) + [EndNode]
  }

  function FlattenAll(ns: seq<Node>): seq<Token> {
    if ns == [] then [] else Flatten(ns[0]) + FlattenAll(ns[1..])
  }

  /** The tokens of a node before its first child. */
  function Front(n: Node): (ts: seq<Token>)
    ensures |ts| == 1 + |n.props|
  {
    [BeginNode(n.name)] + seq(|n.props|, i requires 0 <= i < |n.props| => Prop(n.props[i]))
  }

  /** Where child `c` begins among the tokens of `n`, counting from the token of `n`. */
  function ChildIndex(n: Node, c: nat): (i: nat)
    requires c <= |n.children|
    ensures i > 0
  {
    1 + |n.props| + |FlattenAll(n.children[..c])|
  }

  /** Where the node at `p` begins among the tokens of `n`. */
  function Index(n: Node, p: Path): nat
    requires HasNode(n, p)
    decreases p
  {
    if p == [] then 0 else ChildIndex(n, p[0]) + Index(n.children[p[0]], p[1..])
  }

  lemma {:induction false} FlattenAllAppend(ns: seq<Node>, ms: seq<Node>)
    ensures FlattenAll(ns + ms) == FlattenAll(ns) + FlattenAll(ms)
  {
    if ns == [] {
      assert ns + ms == ms;
    } else {
      assert (ns + ms)[0] == ns[0] && (ns + ms)[1..] == ns[1..] + ms;
      FlattenAllAppend(ns[1..], ms);
    }
  }

  /** The tokens of `n` around its child `c`. */
  lemma {:induction false} AroundChild(n: Node, c: nat)
    requires c < |n.children|
    ensures Flatten(n) == Front(n) + FlattenAll(n.children[..c]) + Flatten(n.children[c])
                          + FlattenAll(n.children[c + 1..]) + [EndNode]
    ensures ChildIndex(n, c + 1) == ChildIndex(n, c) + |Flatten(n.children[c])|
  {
    hide FlattenAll;
    var ns := n.children;
    FlattenAround(ns, c);
    var a, b, d := FlattenAll(ns[..c]), Flatten(ns[c]), FlattenAll(ns[c + 1..]);
    assert Front(n) + (a + b + d) + [EndNode] == Front(n) + a + b + d + [EndNode];
  }

  lemma {:induction false} FlattenAround(ns: seq<Node>, c: nat)
    requires c < |ns|
    ensures FlattenAll(ns) == FlattenAll(ns[..c]) + Flatten(ns[c]) + FlattenAll(ns[c + 1..])
    ensures FlattenAll(ns[..c + 1]) == FlattenAll(ns[..c]) + Flatten(ns[c])
  {
    hide Flatten, FlattenAll;
    assert ns[..c + 1] == ns[..c] + [ns[c]] && ns == ns[..c + 1] + ns[c + 1..];
    FlattenAllAppend(ns[..c], [ns[c]]);
    FlattenAllAppend(ns[..c + 1], ns[c + 1..]);
    FlattenOne(ns[c]);
  }

  lemma {:induction false} FlattenOne(n: Node)
    ensures FlattenAll([n]) == Flatten(n)
  {
    hide Flatten;
    assert [n][1..] == [];
    assert FlattenAll([n]) == Flatten(n) + FlattenAll([]);
  }

  lemma ChildWithin(n: Node, c: nat)
    requires c < |n.children|
    ensures Within(Flatten(n), ChildIndex(n, c), Flatten(n.children[c]))
  {
    hide Flatten, FlattenAll;
    AroundChild(n, c);
    var a, b := Front(n) + FlattenAll(n.children[..c]), Flatten(n.children[c]);
    var d := FlattenAll(n.children[c + 1..]) + [EndNode];
    assert Flatten(n) == a + b + d;
    Middle(a, b, d, Flatten(n));
  }

  /** The tokens of the node at `p` are a part of those of `n`. */
  lemma {:induction false} NodeWithin(n: Node, p: Path)
    requires HasNode(n, p)
    ensures Within(Flatten(n), Index(n, p), Flatten(NodeAt(n, p)))
    decreases p
  {
    hide Flatten, Within;
    if p == [] {
      WithinWhole(Flatten(n));
    } else {
      var c := n.children[p[0]];
      ChildWithin(n, p[0]);
      NodeWithin(c, p[1..]);
      WithinWithin(Flatten(n), ChildIndex(n, p[0]), Flatten(c), Index(c, p[1..]), Flatten(NodeAt(c, p[1..])));
    }
  }

  /** What follows the front of a node: its first child, or its end. */
  lemma AfterFront(n: Node)
    ensures forall i :: 0 < i <= |n.props| ==> Flatten(n)[i] == Prop(n.props[i - 1])
    ensures Flatten(n)[0] == BeginNode(n.name)
    ensures var t := Flatten(n)[1 + |n.props|];
      if n.children == [] then t == EndNode else t.BeginNode? && ChildIndex(n, 0) == 1 + |n.props|
  {
    if n.children != [] {
      assert Flatten(n.children[0])[0] == BeginNode(n.children[0].name);
      assert n.children[..0] == [];
    }
  }

  /** What follows a child: the next child, or the end of the node. */
  lemma AfterChild(n: Node, c: nat)
    requires c < |n.children|
    ensures ChildIndex(n, c + 1) < |Flatten(n)|
    ensures ChildIndex(n, c + 1) == ChildIndex(n, c) + |Flatten(n.children[c])|
    ensures var t := Flatten(n)[ChildIndex(n, c + 1)];
      if c + 1 < |n.children| then t.BeginNode? else t == EndNode
  {
    AroundChild(n, c);
    if c + 1 < |n.children| {
      ChildWithin(n, c + 1);
      assert Flatten(n.children[c + 1])[0] == BeginNode(n.children[c + 1].name);
    } else {
      assert n.children[..c + 1] == n.children;
    }
  }

  // Paths from the root.

  lemma {:induction false} ChildOf(n: Node, q: Path, c: nat)
    requires HasNode(n, q) && c < |NodeAt(n, q).children|
    ensures HasNode(n, q + [c]) && NodeAt(n, q + [c]) == NodeAt(n, q).children[c]
    ensures Index(n, q + [c]) == Index(n, q) + ChildIndex(NodeAt(n, q), c)
    decreases q
  {
    hide ChildIndex;
    if q == [] {
      assert [c][1..] == [];
    } else {
      ChildOf(n.children[q[0]], q[1..], c);
      assert (q + [c])[1..] == q[1..] + [c];
    }
  }

  lemma {:induction false} ParentOf(n: Node, p: Path)
    requires HasNode(n, p) && p != []
    ensures HasNode(n, p[..|p| - 1]) && p[|p| - 1] < |NodeAt(n, p[..|p| - 1]).children|
    decreases p
  {
    if |p| > 1 {
      ParentOf(n.children[p[0]], p[1..]);
      assert p[1..][..|p| - 2] == p[..|p| - 1][1..];
    }
  }

  /** What follows the tokens of a node that is not the root: its next sibling, or the end of its parent. */
  lemma AfterNode(n: Node, q: Path, c: nat)
    requires HasNode(n, q) && c < |NodeAt(n, q).children|
    ensures HasNode(n, q + [c])
    ensures var after := Index(n, q + [c]) + |Flatten(NodeAt(n, q + [c]))|;
      && after < |Flatten(n)|
      && (c + 1 < |NodeAt(n, q).children| ==>
            Flatten(n)[after].BeginNode? && HasNode(n, q + [c + 1]) && after == Index(n, q + [c + 1]))
      && (c + 1 == |NodeAt(n, q).children| ==> Flatten(n)[after] == EndNode)
  {
    hide Flatten, ChildIndex, HasNode, Index, NodeAt;
    var parent := NodeAt(n, q);
    ChildOf(n, q, c);
    NodeWithin(n, q);
    AfterChild(parent, c);
    ElementWithin(Flatten(n), Index(n, q), Flatten(parent), ChildIndex(parent, c + 1));
    if c + 1 < |parent.children| { ChildOf(n, q, c + 1); }
  }

  // The nodes that are open after some of the tokens, by where they begin.

  function Step(open: seq<nat>, i: nat, t: Token): seq<nat> {
    match t
    case BeginNode(_) => open + [i]
    case EndNode => if open == [] then [] else open[..|open| - 1]
    case _ => open
  }

  function Open(open: seq<nat>, base: nat, ts: seq<Token>): seq<nat>
    decreases ts
  {
    if ts == [] then open else Open(Step(open, base, ts[0]), base + 1, ts[1..])
  }

  lemma {:induction false} OpenAppend(open: seq<nat>, base: nat, ts: seq<Token>, us: seq<Token>)
    ensures Open(open, base, ts + us) == Open(Open(open, base, ts), base + |ts|, us)
    decreases ts
  {
    hide Step;
    if ts == [] {
      assert ts + us == us;
    } else {
      assert (ts + us)[0] == ts[0] && (ts + us)[1..] == ts[1..] + us;
      OpenAppend(Step(open, base, ts[0]), base + 1, ts[1..], us);
    }
  }

  lemma {:induction false} OpenNext(open: seq<nat>, base: nat, ts: seq<Token>, k: nat)
    requires k < |ts|
    ensures Open(open, base, ts[..k + 1]) == Step(Open(open, base, ts[..k]), base + k, ts[k])
  {
    hide Step;
    assert ts[..k + 1] == ts[..k] + [ts[k]];
    OpenAppend(open, base, ts[..k], [ts[k]]);
    OpenOne(Open(open, base, ts[..k]), base + k, ts[k]);
  }

  lemma {:induction false} OpenOne(open: seq<nat>, base: nat, t: Token)
    ensures Open(open, base, [t]) == Step(open, base, t)
  {
    assert [t][1..] == [];
  }

  lemma {:induction false} OpenFront(open: seq<nat>, base: nat, n: Node, k: nat)
    requires 0 < k <= |Front(n)|
    ensures Open(open, base, Front(n)[..k]) == open + [base]
    decreases k
  {
    OpenNext(open, base, Front(n), k - 1);
    if k > 1 { OpenFront(open, base, n, k - 1); }
  }

  /** Inside a node it is open, below at most as many others as it has levels; after it, all is as before. */
  lemma {:induction false} OpenInside(open: seq<nat>, base: nat, n: Node, k: nat)
    requires k <= |Flatten(n)|
    ensures var r := Open(open, base, Flatten(n)[..k]);
      && (0 < k < |Flatten(n)| ==> |open| < |r| <= |open| + Height(n))
      && (k == |Flatten(n)| ==> r == open)
    decreases n
  {
    hide Open, FlattenAll, HeightAll;
    var front, all := Front(n), FlattenAll(n.children);
    var ts := front + all + [EndNode];
    if 0 < k <= |front| {
      OpenFront(open, base, n, k);
      assert ts[..k] == front[..k];
    } else if k > 0 {
      var m := if k == |ts| then |all| else k - |front|;
      assert ts[..|front| + m] == front + all[..m];
      OpenAppend(open, base, front, all[..m]);
      OpenFront(open, base, n, |front|);
      assert front[..|front|] == front;
      OpenAllInside(open + [base], base + |front|, n.children, m);
      if k == |ts| { OpenNext(open, base, ts, k - 1); }
    }
  }

  lemma {:induction false} OpenAllInside(open: seq<nat>, base: nat, ns: seq<Node>, k: nat)
    requires k <= |FlattenAll(ns)|
    ensures var r := Open(open, base, FlattenAll(ns)[..k]);
      && |open| <= |r| <= |open| + HeightAll(ns)
      && (k == |FlattenAll(ns)| ==> r == open)
    decreases ns
  {
    hide Flatten, Height;
    if ns != [] {
      var first, rest := Flatten(ns[0]), FlattenAll(ns[1..]);
      var m := if k <= |first| then k else |first|;
      OpenInside(open, base, ns[0], m);
      if k <= |first| {
        assert (first + rest)[..k] == first[..k];
      }
      if k >= |first| {
        assert (first + rest)[..k] == first + rest[..k - |first|] && first[..|first|] == first;
        OpenAppend(open, base, first, rest[..k - |first|]);
        OpenAllInside(open, base + |first|, ns[1..], k - |first|);
      }
    }
  }

  /** Where the nodes on the way to the one at `p` begin, itself the last. */
  function Chain(base: nat, n: Node, p: Path): (r: seq<nat>)
    requires HasNode(n, p)
    ensures |r| == |p| + 1
    decreases p
  {
    [base] + if p == [] then [] else Chain(base + ChildIndex(n, p[0]), n.children[p[0]], p[1..])
  }

  /** One step down a path. */
  lemma {:induction false} PathStep(base: nat, n: Node, p: Path)
    requires HasNode(n, p) && p != []
    ensures p[0] < |n.children| && HasNode(n.children[p[0]], p[1..])
    ensures Index(n, p) == ChildIndex(n, p[0]) + Index(n.children[p[0]], p[1..])
    ensures Chain(base, n, p) == [base] + Chain(base + ChildIndex(n, p[0]), n.children[p[0]], p[1..])
  {
    hide ChildIndex;
  }

  /** When a node begins, exactly the nodes on the way to it are open. */
  lemma {:induction false} OpenAt(open: seq<nat>, base: nat, n: Node, p: Path)
    requires HasNode(n, p)
    ensures Index(n, p) < |Flatten(n)|
    ensures Open(open, base, Flatten(n)[..Index(n, p) + 1]) == open + Chain(base, n, p)
    decreases p
  {
    hide Open, Flatten, ChildIndex, Index, Chain, HasNode;
    if p == [] {
      OpenFront(open, base, n, 1);
      FlattenFirst(n);
      PathEnd(base, n);
    } else {
      PathStep(base, n, p);
      var c := p[0];
      var child := n.children[c];
      var before, i := Front(n) + FlattenAll(n.children[..c]), Index(child, p[1..]);
      OpenAt(open + [base], base + ChildIndex(n, c), child, p[1..]);
      OpenBefore(open, base, n, c);
      OpenAppend(open, base, before, Flatten(child)[..i + 1]);
      ChildPrefix(n, c, i + 1);
      assert |before| == ChildIndex(n, c) by { BeforeChild(n, c); }
      assert (open + [base]) + Chain(base + ChildIndex(n, c), child, p[1..]) == open + Chain(base, n, p);
    }
  }

  lemma PathEnd(base: nat, n: Node)
    ensures HasNode(n, []) && NodeAt(n, []) == n && Index(n, []) == 0 && Chain(base, n, []) == [base]
  {
  }

  lemma BeforeChild(n: Node, c: nat)
    requires c <= |n.children|
    ensures |Front(n) + FlattenAll(n.children[..c])| == ChildIndex(n, c)
  {
  }

  lemma {:induction false} ChildPrefix(n: Node, c: nat, k: nat)
    requires c < |n.children| && k <= |Flatten(n.children[c])|
    ensures ChildIndex(n, c) + k <= |Flatten(n)|
    ensures Flatten(n)[..ChildIndex(n, c) + k] == Front(n) + FlattenAll(n.children[..c]) + Flatten(n.children[c])[..k]
  {
    hide Flatten, FlattenAll;
    AroundChild(n, c);
  }

  lemma FlattenFirst(n: Node)
    ensures Flatten(n)[..1] == Front(n)[..1]
  {
  }

  lemma {:induction false} OpenBefore(open: seq<nat>, base: nat, n: Node, c: nat)
    requires c <= |n.children|
    ensures Open(open, base, Front(n) + FlattenAll(n.children[..c])) == open + [base]
  {
    hide Open, FlattenAll;
    var all := FlattenAll(n.children[..c]);
    OpenAppend(open, base, Front(n), all);
    OpenFront(open, base, n, |Front(n)|);
    OpenAllInside(open + [base], base + |Front(n)|, n.children[..c], |all|);
    assert Front(n)[..|Front(n)|] == Front(n) && all[..|all|] == all;
  }

  /** The chain ends with the node and, before it, its parent. */
  lemma {:induction false} ChainEnds(base: nat, n: Node, p: Path)
    requires HasNode(n, p)
    ensures Chain(base, n, p)[|p|] == base + Index(n, p)
    ensures p != [] ==> HasNode(n, p[..|p| - 1]) && Chain(base, n, p)[|p| - 1] == base + Index(n, p[..|p| - 1])
    decreases p
  {
    hide ChildIndex, Index, Chain, HasNode;
    if p == [] {
      PathEnd(base, n);
    } else {
      ParentOf(n, p);
      PathStep(base, n, p);
      ChainEnds(base + ChildIndex(n, p[0]), n.children[p[0]], p[1..]);
      var q := p[..|p| - 1];
      if |p| == 1 {
        PathEnd(base, n);
        assert q == [];
      } else {
        assert q[1..] == p[1..][..|p| - 2];
        PathStep(base, n, q);
      }
    }
  }

  /** Every beginning is that of a node. */
  lemma {:induction false} BeginIsNode(n: Node, i: nat) returns (p: Path)
    requires i < |Flatten(n)| && Flatten(n)[i].BeginNode?
    ensures HasNode(n, p) && Index(n, p) == i
    decreases n
  {
    p := [];
    if i > 0 {
      AfterFront(n);
      var c, q := BeginInAll(n.children, i - |Front(n)|);
      p := [c] + q;
      assert p[1..] == q;
    }
  }

  lemma {:induction false} BeginInAll(ns: seq<Node>, i: nat) returns (c: nat, q: Path)
    requires i < |FlattenAll(ns)| && FlattenAll(ns)[i].BeginNode?
    ensures c < |ns| && HasNode(ns[c], q) && |FlattenAll(ns[..c])| + Index(ns[c], q) == i
    decreases ns
  {
    hide Flatten, Index;
    var first := Flatten(ns[0]);
    if i < |first| {
      c := 0;
      q := BeginIsNode(ns[0], i);
      assert ns[..0] == [];
    } else {
      c, q := BeginInAll(ns[1..], i - |first|);
      assert ns[..c + 1][0] == ns[0] && ns[..c + 1][1..] == ns[1..][..c];
      c := c + 1;
    }
  }

  // Lookup by the names on a path.

  const SLASH: byte := '/' as int
  const AT_SIGN: byte := '@' as int

  /** A name is that of a component of a path, with or without a unit address. */
  predicate Matches(name: seq<byte>, component: seq<byte>) {
    component <= name && (|name| == |component| || name[|component|] == AT_SIGN)
  }

  function Component(s: seq<byte>): (r: seq<byte>)
    ensures r <= s && SLASH !in r && (|r| < |s| ==> s[|r|] == SLASH)
  {
    if s == [] || s[0] == SLASH then [] else [s[0]] + Component(s[1..])
  }

  /** What follows the first component of `s` and one slash. */
  function Rest(s: seq<byte>): (r: seq<byte>)
    ensures s != [] ==> |r| < |s|
  {
    if |Component(s)| < |s| then s[|Component(s)| + 1..] else []
  }

  datatype Lookup = Missing | Found(path: Path)

  function Below(q: Path, r: Lookup): Lookup {
    if r.Found? then Found(q + r.path) else Missing
  }

  /** The first match for the first component of `s` among `ns` from `c` on, and so on below it; no way back. */
  function Find(ns: seq<Node>, c: nat, s: seq<byte>): Lookup
    requires s != [] && c <= |ns|
    decreases |s|, |ns| - c
  {
    if c == |ns| then Missing
    else if !Matches(ns[c].name, Component(s)) then Find(ns, c + 1, s)
    else if Rest(s) == [] then Found([c])
    else Below([c], Find(ns[c].children, 0, Rest(s)))
  }

  /** The lookup of a path that begins with a slash. */
  function FindPath(root: Node, s: seq<byte>): Lookup {
    if s == [] || s[0] != SLASH || !Matches(root.name, []) then Missing
    else if s[1..] == [] then Found([])
    else Find(root.children, 0, s[1..])
  }

  /** Every node on the way to `p` below `ns` has the name the path `s` gives it. */
  predicate Named(ns: seq<Node>, p: Path, s: seq<byte>)
    decreases p
  {
    && p != [] && p[0] < |ns| && Matches(ns[p[0]].name, Component(s))
    && if Rest(s) == [] then |p| == 1 else Named(ns[p[0]].children, p[1..], Rest(s))
  }

  /** And no sibling before it has that name. */
  predicate FirstNames(ns: seq<Node>, p: Path, s: seq<byte>)
    decreases p
  {
    && p != [] && p[0] < |ns| && (forall j: nat :: j < p[0] ==> !Matches(ns[j].name, Component(s)))
    && (Rest(s) != [] ==> FirstNames(ns[p[0]].children, p[1..], Rest(s)))
  }

  /** The lookup finds a node exactly if the names are right and each is the first of its name. */
  lemma {:induction false} FindExact(ns: seq<Node>, c: nat, s: seq<byte>, p: Path)
    requires s != [] && c <= |ns| && forall j: nat :: j < c ==> !Matches(ns[j].name, Component(s))
    ensures Find(ns, c, s) == Found(p) <==> Named(ns, p, s) && FirstNames(ns, p, s)
    decreases |s|, |ns| - c
  {
    hide Matches, Component, Rest;
    if c < |ns| {
      if !Matches(ns[c].name, Component(s)) {
        FindExact(ns, c + 1, s, p);
      } else if Rest(s) != [] && p != [] {
        var r := Find(ns[c].children, 0, Rest(s));
        FindExact(ns[c].children, 0, Rest(s), p[1..]);
        assert p == [p[0]] + p[1..];
        if r.Found? { assert ([c] + r.path)[1..] == r.path; }
      }
    }
  }

  /** A node can have the names of the path and not be found, if an earlier sibling has the name of one above it. */
  lemma FirstMatchOnly(b: Node, x: Node, y: Node, root: Node)
    requires b == Node(Ascii("b"), [], []) && x == Node(Ascii("a@1"), [], []) && y == Node(Ascii("a@2"), [], [b])
    requires root == Node([], [], [x, y])
    ensures Named(root.children, [1, 0], Ascii("a/b")) && FindPath(root, Ascii("/a/b")) == Missing
  {
    var s := Ascii("a/b");
    assert s == ['a' as int, SLASH, 'b' as int] && Ascii("/a/b") == [SLASH] + s && Ascii("/a/b")[1..] == s;
    assert Component(s) == ['a' as int] && Rest(s) == ['b' as int] == Ascii("b");
    assert Component(Rest(s)) == Rest(s) && Rest(Rest(s)) == [];
    assert x.name == ['a' as int, AT_SIGN, '1' as int] && y.name == ['a' as int, AT_SIGN, '2' as int];
    assert Named(y.children, [0], Rest(s));
    assert [1, 0][1..] == [0];
    assert Find(x.children, 0, Rest(s)) == Missing;
  }

  // The lookup as a search, one candidate at a time.

  /** What is left of the lookup of `s` when `at` is the next candidate and `s[i..]` is the rest of the path. */
  function Remaining(root: Node, s: seq<byte>, at: Path, i: nat): Lookup
    requires HasNode(root, at) && i <= |s| && (at != [] ==> i < |s|)
  {
    if at == [] then FindPath(root, s)
    else
      var q, c := at[..|at| - 1], at[|at| - 1];
      ParentOf(root, at);
      Below(q, Find(NodeAt(root, q).children, c, s[i..]))
  }

  /** The component that the candidate must have: none for the root. */
  function Wanted(s: seq<byte>, at: Path, i: nat): seq<byte>
    requires i <= |s|
  {
    if at == [] then [] else Component(s[i..])
  }

  /** Past the component and one slash. */
  function Past(s: seq<byte>, at: Path, i: nat): (r: nat)
    requires i <= |s|
    ensures i <= r <= |s|
  {
    var j := i + |Wanted(s, at, i)|;
    if j < |s| && s[j] == SLASH then j + 1 else j
  }

  lemma MismatchRoot(root: Node, s: seq<byte>)
    requires !Matches(root.name, [])
    ensures Remaining(root, s, [], 0) == FindPath(root, s) == Missing
  {
  }

  lemma RemainingRoot(root: Node, s: seq<byte>)
    ensures Remaining(root, s, [], 0) == FindPath(root, s)
  {
  }

  lemma NoSlash(root: Node, s: seq<byte>)
    requires s == [] || s[0] != SLASH
    ensures FindPath(root, s) == Missing
  {
  }

  /** The number of children of the node's parent. */
  function Siblings(root: Node, p: Path): (r: nat)
    requires HasNode(root, p) && p != []
    ensures p[|p| - 1] < r
  {
    ParentOf(root, p);
    |NodeAt(root, p[..|p| - 1]).children|
  }

  lemma CandidateChild(root: Node, s: seq<byte>, q: Path, c: nat, i: nat)
    requires HasNode(root, q) && c < |NodeAt(root, q).children| && i < |s|
    ensures HasNode(root, q + [c]) && NodeAt(root, q + [c]) == NodeAt(root, q).children[c]
    ensures Remaining(root, s, q + [c], i) == Below(q, Find(NodeAt(root, q).children, c, s[i..]))
  {
    hide Find, Index;
    ChildOf(root, q, c);
    assert (q + [c])[..|q + [c]| - 1] == q;
  }

  lemma MismatchChild(root: Node, s: seq<byte>, q: Path, c: nat, i: nat)
    requires HasNode(root, q) && c < |NodeAt(root, q).children| && i < |s| && HasNode(root, q + [c])
    requires !Matches(NodeAt(root, q + [c]).name, Component(s[i..]))
    ensures c + 1 == |NodeAt(root, q).children| ==> Remaining(root, s, q + [c], i) == Missing
    ensures c + 1 < |NodeAt(root, q).children| ==>
      HasNode(root, q + [c + 1]) && Remaining(root, s, q + [c], i) == Remaining(root, s, q + [c + 1], i)
  {
    hide Remaining, Component, HasNode, NodeAt;
    CandidateChild(root, s, q, c, i);
    if c + 1 < |NodeAt(root, q).children| { CandidateChild(root, s, q, c + 1, i); }
  }

  lemma MatchRoot(root: Node, s: seq<byte>)
    requires s != [] && s[0] == SLASH && Matches(root.name, [])
    ensures HasNode(root, []) && NodeAt(root, []) == root && Past(s, [], 0) == 1
    ensures |s| == 1 ==> Remaining(root, s, [], 0) == Found([])
    ensures |s| > 1 && root.children == [] ==> Remaining(root, s, [], 0) == Missing
    ensures |s| > 1 && root.children != [] ==>
      HasNode(root, [0]) && Remaining(root, s, [], 0) == Remaining(root, s, [0], 1)
  {
    hide Component, Rest;
    if |s| > 1 && root.children != [] {
      CandidateChild(root, s, [], 0, 1);
      assert [] + [0] == [0];
      BelowRoot(Find(root.children, 0, s[1..]));
    }
  }

  lemma BelowRoot(r: Lookup)
    ensures Below([], r) == r
  {
    if r.Found? { assert [] + r.path == r.path; }
  }

  lemma BelowBelow(q: Path, c: nat, r: Lookup)
    ensures Below(q, Below([c], r)) == Below(q + [c], r)
  {
    if r.Found? { assert q + ([c] + r.path) == q + [c] + r.path; }
  }

  lemma RestPast(s: seq<byte>, at: Path, i: nat)
    requires i < |s| && at != []
    ensures i < Past(s, at, i) && Rest(s[i..]) == s[Past(s, at, i)..]
  {
    hide Component;
    var t := s[i..];
    var n := |Component(t)|;
    if n < |t| { assert t[n + 1..] == s[i + n + 1..] && t[n] == s[i + n]; }
  }

  lemma MatchChild(root: Node, s: seq<byte>, q: Path, c: nat, i: nat)
    requires HasNode(root, q) && c < |NodeAt(root, q).children| && i < |s| && HasNode(root, q + [c])
    requires Matches(NodeAt(root, q + [c]).name, Component(s[i..]))
    ensures var at, j := q + [c], Past(s, q + [c], i);
      && i < j
      && (j == |s| ==> Remaining(root, s, at, i) == Found(at))
      && (j < |s| && NodeAt(root, at).children == [] ==> Remaining(root, s, at, i) == Missing)
      && (j < |s| && NodeAt(root, at).children != [] ==>
            HasNode(root, at + [0]) && Remaining(root, s, at, i) == Remaining(root, s, at + [0], j))
  {
    hide Remaining, Component, HasNode, NodeAt, Past, Rest, Matches;
    var at := q + [c];
    CandidateChild(root, s, q, c, i);
    RestPast(s, at, i);
    var j := Past(s, at, i);
    var n := NodeAt(root, at);
    if j < |s| {
      BelowBelow(q, c, Find(n.children, 0, s[j..]));
      if n.children != [] { CandidateChild(root, s, at, 0, j); }
    }
  }
}
