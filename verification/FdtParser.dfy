/** The devicetree parser of src/fdt/fdt_parser.c, on the bytes of any well-formed devicetree. */
module FdtParser {
  import opened Bits
  import opened Converters
  import opened DeviceTree
  import opened FlatTree
  import opened Slices
  import opened Strings

  const OFF_DT_STRUCT: nat := 8
  const OFF_DT_STRINGS: nat := 12
  const MAX_LEVELS: nat := 31

  /** A tree, where its header, structure and strings are, and the NOPs around its tokens. */
  datatype Blob = Blob(root: Node, fdt: nat, structOffset: nat, stringsOffset: nat, lead: nat, nops: seq<nat>)

  function Tokens(b: Blob): seq<Token> {
    Flatten(b.root) + [End]
  }

  function Start(b: Blob): nat {
    b.fdt + b.structOffset
  }

  function PropertyName(mem: seq<byte>, b: Blob, p: Property): seq<byte> {
    Str(mem, b.fdt + b.stringsOffset + p.nameoff)
  }

  predicate WellFormed(b: Blob) {
    && b.fdt > 0 && Start(b) % 4 == 0 && b.structOffset < U32 && b.stringsOffset < U32
    && ValidTokens(Tokens(b)) && |b.nops| == |Tokens(b)| && Height(b.root) <= MAX_LEVELS
  }

  /** Memory has the devicetree: its header, its tokens and the strings its properties name. */
  predicate Loaded(mem: seq<byte>, b: Blob) {
    && WellFormed(b) && |mem| <= WORD
    && Within(mem, b.fdt + OFF_DT_STRUCT, Be32(b.structOffset))
    && Within(mem, b.fdt + OFF_DT_STRINGS, Be32(b.stringsOffset))
    && Within(mem, Start(b), Nops(b.lead))
    && Within(mem, Start(b) + 4 * b.lead, Stream(Tokens(b), b.nops))
    && forall t <- Tokens(b) :: t.Prop? ==> Terminated(mem, b.fdt + b.stringsOffset + t.property.nameoff)
  }

  /** The first words of a header, those of section 5.2 of the Devicetree Specification v0.4, hold the two offsets. */
  lemma HeaderHolds(mem: seq<byte>, b: Blob, magic: nat, totalSize: nat)
    requires b.structOffset < U32 && b.stringsOffset < U32 && magic < U32 && totalSize < U32
    requires Within(mem, b.fdt, Be32(magic) + Be32(totalSize) + Be32(b.structOffset) + Be32(b.stringsOffset))
    ensures Within(mem, b.fdt + OFF_DT_STRUCT, Be32(b.structOffset))
    ensures Within(mem, b.fdt + OFF_DT_STRINGS, Be32(b.stringsOffset))
  {
    hide Be32, Within;
    var first, structs, strings := Be32(magic) + Be32(totalSize), Be32(b.structOffset), Be32(b.stringsOffset);
    var header := first + structs + strings;
    Middle(first, structs, strings, header);
    Middle(first + structs, strings, [], header);
    WithinWithin(mem, b.fdt, header, 8, structs);
    WithinWithin(mem, b.fdt, header, 12, strings);
  }

  /** The address of token `i`. */
  function Addr(b: Blob, i: nat): (r: nat)
    requires WellFormed(b) && i <= |Tokens(b)|
    ensures r > 0
  {
    TokenAddr(Start(b) + 4 * b.lead, Tokens(b), b.nops, i)
  }

  /** The address of the node at `p`. */
  function NodeAddr(b: Blob, p: Path): (r: nat)
    requires WellFormed(b) && HasNode(b.root, p)
    ensures r > 0
  {
    IndexInside(b.root, p);
    Addr(b, Index(b.root, p))
  }

  // The same operations on the tree.

  function ChildAddr(b: Blob, p: Path): nat
    requires WellFormed(b) && HasNode(b.root, p)
  {
    if NodeAt(b.root, p).children == [] then 0 else (ChildOf(b.root, p, 0); NodeAddr(b, p + [0]))
  }

  function SiblingAddr(b: Blob, p: Path): nat
    requires WellFormed(b) && HasNode(b.root, p)
  {
    if p == [] then 0
    else
      var q, c := p[..|p| - 1], p[|p| - 1];
      ParentOf(b.root, p);
      if c + 1 == |NodeAt(b.root, q).children| then 0 else (ChildOf(b.root, q, c + 1); NodeAddr(b, q + [c + 1]))
  }

  function ParentAddr(b: Blob, p: Path): nat
    requires WellFormed(b) && HasNode(b.root, p)
  {
    if p == [] then 0 else (ParentOf(b.root, p); NodeAddr(b, p[..|p| - 1]))
  }

  lemma IndexInside(n: Node, p: Path)
    requires HasNode(n, p)
    ensures Index(n, p) + |Flatten(NodeAt(n, p))| <= |Flatten(n)|
  {
    hide Flatten, Index;
    NodeWithin(n, p);
  }

  // Tokens in memory.

  /** Memory has this token and its NOPs at `addr`, and something else after them. */
  predicate Steppable(mem: seq<byte>, addr: nat, t: Token, n: nat) {
    && |mem| <= WORD && addr % 4 == 0 && ValidToken(t) && t != End && Within(mem, addr, Slot(t, n))
    && var after := addr + |Slot(t, n)|; after + 4 <= |mem| && Load32(mem, after) != FDT_NOP
  }

  /** The load at `addr` tells what token is there. */
  predicate Shows(mem: seq<byte>, addr: nat, t: Token) {
    && addr + 4 <= |mem|
    && (Load32(mem, addr) == FDT_BEGIN_NODE <==> t.BeginNode?)
    && (Load32(mem, addr) == FDT_END_NODE <==> t == EndNode)
    && (Load32(mem, addr) == FDT_PROP <==> t.Prop?)
    && (Load32(mem, addr) == FDT_NOP <==> t == Nop)
    && (Load32(mem, addr) == FDT_END <==> t == End)
  }

  /** Token `i` is at its address. */
  lemma TokenInMemory(mem: seq<byte>, b: Blob, i: nat)
    requires Loaded(mem, b) && i < |Tokens(b)|
    ensures |mem| <= WORD && Addr(b, i) % 4 == 0 && ValidToken(Tokens(b)[i])
    ensures Within(mem, Addr(b, i), Slot(Tokens(b)[i], b.nops[i])) && Shows(mem, Addr(b, i), Tokens(b)[i])
    ensures Addr(b, i + 1) == Addr(b, i) + |Slot(Tokens(b)[i], b.nops[i])|
  {
    hide Within, Slot, Height, Stream, Tokens, Nops, Be32, TokenAddr, Load32, Bytes, Payload, Terminated, ValidTokens;
    var base := Start(b) + 4 * b.lead;
    ValidAt(Tokens(b), i);
    TokenAddrStep(base, Tokens(b), b.nops, i);
    SlotWithin(mem, base, Tokens(b), b.nops, i);
    TokenAddrAligned(base, Tokens(b), b.nops, i);
    TokenWithin(mem, Addr(b, i), Tokens(b)[i], b.nops[i]);
  }

  /** The step from token `i` to the next. */
  lemma NextToken(mem: seq<byte>, b: Blob, i: nat)
    requires Loaded(mem, b) && i + 1 < |Tokens(b)|
    ensures Steppable(mem, Addr(b, i), Tokens(b)[i], b.nops[i])
    ensures Addr(b, i) + |Slot(Tokens(b)[i], b.nops[i])| == Addr(b, i + 1)
    ensures Shows(mem, Addr(b, i + 1), Tokens(b)[i + 1])
  {
    hide Loaded, Within, Slot, Load32, Flatten, Addr, ValidToken;
    TokenInMemory(mem, b, i);
    TokenInMemory(mem, b, i + 1);
    NodeTokens(b.root, i);
    if i + 1 < |Flatten(b.root)| { NodeTokens(b.root, i + 1); }
  }

  lemma AddrIncreases(b: Blob, i: nat, j: nat)
    requires WellFormed(b) && i < j <= |Tokens(b)|
    ensures Addr(b, i) < Addr(b, j)
  {
    hide Flatten, Slot, Height, ValidTokens, Tokens, Start, Payload, TokenAddr;
    TokenAddrIncreases(Start(b) + 4 * b.lead, Tokens(b), b.nops, i, j);
  }

  /** Neither NOPs nor the end of the tree are among the tokens of a node. */
  lemma {:induction false} NodeTokens(n: Node, i: nat)
    requires i < |Flatten(n)|
    ensures Flatten(n)[i] != Nop && Flatten(n)[i] != End
    decreases n
  {
    hide FlattenAll;
    if |Front(n)| <= i < |Flatten(n)| - 1 { AllTokens(n.children, i - |Front(n)|); }
  }

  lemma {:induction false} AllTokens(ns: seq<Node>, i: nat)
    requires i < |FlattenAll(ns)|
    ensures FlattenAll(ns)[i] != Nop && FlattenAll(ns)[i] != End
    decreases ns
  {
    hide Flatten;
    if i < |Flatten(ns[0])| { NodeTokens(ns[0], i); } else { AllTokens(ns[1..], i - |Flatten(ns[0])|); }
  }

  /** A property token in memory. */
  lemma PropertyInMemory(mem: seq<byte>, addr: nat, t: Token, n: nat)
    requires t.Prop? && ValidToken(t) && addr % 4 == 0 && Within(mem, addr, Slot(t, n))
    ensures addr + 12 <= |mem|
    ensures Be32ToCpu(Load32(mem, addr + 4)) == |t.property.value|
    ensures Be32ToCpu(Load32(mem, addr + 8)) == t.property.nameoff
    ensures AlignUp(addr + 12 + |t.property.value|) == addr + |Bytes(t)|
  {
    hide Within, Slot, Be32, Load32, Be32ToCpu, Padded, AlignUp;
    var len, nameoff, value := Be32(|t.property.value|), Be32(t.property.nameoff), Padded(t.property.value);
    TokenWithin(mem, addr, t, n);
    Middle([], len, nameoff + value, Payload(t));
    Middle(len, nameoff, value, Payload(t));
    WithinWithin(mem, addr + 4, Payload(t), 0, len);
    WithinWithin(mem, addr + 4, Payload(t), 4, nameoff);
    BigEndianRoundTrip(mem, addr + 4, |t.property.value|);
    BigEndianRoundTrip(mem, addr + 8, t.property.nameoff);
    AlignShift(addr + 12, |t.property.value|);
  }

  /** The beginning of a node in memory. */
  lemma NameInMemory(mem: seq<byte>, addr: nat, t: Token, n: nat)
    requires t.BeginNode? && ValidToken(t) && addr % 4 == 0 && Within(mem, addr, Slot(t, n))
    ensures addr + 4 + |t.name| < |mem| && mem[addr + 4 + |t.name|] == 0 && 0 !in t.name
    ensures Within(mem, addr + 4, t.name)
    ensures AlignUp(addr + 4 + |t.name| + 1) == addr + |Bytes(t)|
  {
    hide Within, Slot, Be32, AlignUp, Padded;
    var s := t.name + [0];
    TokenWithin(mem, addr, t, n);
    PaddedFront(s);
    WithinWithin(mem, addr + 4, Payload(t), 0, s);
    WithinSnoc(mem, addr + 4, t.name, 0);
    AlignShift(addr + 4, |s|);
  }

  lemma PaddedFront(s: seq<byte>)
    ensures Within(Padded(s), 0, s)
  {
  }

  lemma NopsFollow(mem: seq<byte>, addr: nat, t: Token, n: nat)
    requires ValidToken(t) && Within(mem, addr, Slot(t, n))
    ensures t == Nop ==> Within(mem, addr, Nops(n + 1))
    ensures t != Nop ==> Within(mem, addr + |Bytes(t)|, Nops(n))
  {
    hide Within, Be32;
    TokenWithin(mem, addr, t, n);
    assert t == Nop ==> Slot(t, n) == Nops(n + 1);
  }

  // The parser.

  /** The first loop of `_fdt_next_token_addr`: to the NUL after a name. */
  method SkipName(mem: seq<byte>, addr: nat, ghost name: seq<byte>) returns (next: nat)
    requires Within(mem, addr, name) && 0 !in name
    requires addr + |name| < |mem| && mem[addr + |name|] == 0
    ensures next == addr + |name|
  {
    hide Within;
    next := addr;
    ghost var k := 0;
    while mem[next] != 0
      invariant k <= |name| && next == addr + k
      decreases |name| - k
    {
      if k < |name| { ElementWithin(mem, addr, name, k); }
      next := next + 1;
      k := k + 1;
    }
    if k < |name| { ElementWithin(mem, addr, name, k); }
  }

  /** The last loop of `_fdt_next_token_addr`: over NOPs. */
  method SkipNops(mem: seq<byte>, addr: nat, ghost n: nat) returns (next: nat)
    requires Within(mem, addr, Nops(n))
    requires addr + 4 * n + 4 <= |mem| && Load32(mem, addr + 4 * n) != FDT_NOP
    ensures next == addr + 4 * n
  {
    hide Within, Nops, Load32;
    next := addr;
    ghost var k := 0;
    while Load32(mem, next) == FDT_NOP
      invariant k <= n && next == addr + 4 * k
      decreases n - k
    {
      next := next + TOKEN_SIZE;
      k := k + 1;
    }
    if k < n { NopWithin(mem, addr, n, k); }
  }

  /**
   `_fdt_next_token_addr`: from a token to the one after it and all NOPs between. At a NOP it skips only
   NOPs.
   */
  method NextTokenAddr(mem: seq<byte>, tokenAddr: nat, ghost t: Token, ghost n: nat) returns (next: nat)
    requires Steppable(mem, tokenAddr, t, n)
    ensures next == tokenAddr + |Slot(t, n)|
  {
    hide Within, Slot, Nops, Load32, Payload, ValidToken, AlignUp, Be32ToCpu, Code, Bytes;
    TokenShown(mem, tokenAddr, t, n);
    NopsFollow(mem, tokenAddr, t, n);
    OtherTokens(t);
    next := tokenAddr;
    if Load32(mem, tokenAddr) == FDT_PROP {
      PropertyInMemory(mem, tokenAddr, t, n);
      next := tokenAddr + TOKEN_SIZE + 4 + 4 + Be32ToCpu(Load32(mem, tokenAddr + TOKEN_SIZE));
      next := AlignUp(next) % WORD;
    } else if Load32(mem, next) == FDT_BEGIN_NODE {
      NameInMemory(mem, tokenAddr, t, n);
      next := SkipName(mem, next + TOKEN_SIZE, t.name);
      next := next + 1;
      next := AlignUp(next) % WORD;
    } else if Load32(mem, next) == FDT_END_NODE {
      next := next + TOKEN_SIZE;
    }
    next := SkipNops(mem, next, if t == Nop then n + 1 else n);
  }

  lemma TokenShown(mem: seq<byte>, addr: nat, t: Token, n: nat)
    requires ValidToken(t) && Within(mem, addr, Slot(t, n))
    ensures Shows(mem, addr, t) && |Slot(t, n)| == |Bytes(t)| + 4 * n
  {
    hide Within, Load32, Payload, Nops, Be32;
    TokenWithin(mem, addr, t, n);
  }

  lemma OtherTokens(t: Token)
    requires ValidToken(t)
    ensures t == EndNode || t == Nop ==> |Bytes(t)| == 4
  {
  }

  /** `fdt_root_node` */
  method RootNode(mem: seq<byte>, fdtAddr: nat, b: Blob) returns (r: nat)
    requires fdtAddr != 0 ==> Loaded(mem, b) && fdtAddr == b.fdt
    ensures r == if fdtAddr == 0 then 0 else NodeAddr(b, [])
  {
    hide Loaded, Load32, Nops, Be32, Within, Steppable;
    r := 0;
    if fdtAddr == 0 { return; }
    StructureStart(mem, b);
    var startAddr := fdtAddr + Be32ToCpu(Load32(mem, fdtAddr + OFF_DT_STRUCT));
    if Load32(mem, startAddr) == FDT_BEGIN_NODE { return startAddr; }
    var tokenAddr := NextTokenAddr(mem, startAddr, Nop, b.lead - 1);
    if Load32(mem, tokenAddr) == FDT_BEGIN_NODE { r := tokenAddr; }
  }

  lemma StructureStart(mem: seq<byte>, b: Blob)
    requires Loaded(mem, b)
    ensures b.fdt + OFF_DT_STRUCT + 4 <= |mem| && Be32ToCpu(Load32(mem, b.fdt + OFF_DT_STRUCT)) == b.structOffset
    ensures NodeAddr(b, []) == Start(b) + 4 * b.lead
    ensures Shows(mem, NodeAddr(b, []), BeginNode(b.root.name))
    ensures b.lead > 0 ==> Shows(mem, Start(b), Nop) && Steppable(mem, Start(b), Nop, b.lead - 1)
  {
    hide Within, Slot, Stream, Nops, Be32, Load32, Be32ToCpu, Height, ValidTokens, Payload;
    BigEndianRoundTrip(mem, b.fdt + OFF_DT_STRUCT, b.structOffset);
    TokenInMemory(mem, b, 0);
    AfterFront(b.root);
    assert Tokens(b)[0] == Flatten(b.root)[0];
    if b.lead > 0 {
      LeadingNops(b.lead);
      NopWithin(mem, Start(b), b.lead, 0);
    }
  }

  lemma LeadingNops(n: nat)
    requires n > 0
    ensures Nops(n) == Slot(Nop, n - 1)
  {
  }

  // Among the tokens of a node.

  lemma LoadedWellFormed(mem: seq<byte>, b: Blob)
    requires Loaded(mem, b)
    ensures WellFormed(b)
  {
  }

  /** Token `k` of the node at `p`. */
  lemma NodeToken(b: Blob, p: Path, k: nat)
    requires HasNode(b.root, p) && k < |Flatten(NodeAt(b.root, p))|
    ensures Index(b.root, p) + k < |Flatten(b.root)| < |Tokens(b)|
    ensures Tokens(b)[Index(b.root, p) + k] == Flatten(NodeAt(b.root, p))[k]
  {
    hide Flatten, Within, Index, HasNode, NodeAt;
    var f := Flatten(NodeAt(b.root, p));
    NodeWithin(b.root, p);
    WithinBounds(Flatten(b.root), Index(b.root, p), f);
    ElementWithin(Flatten(b.root), Index(b.root, p), f, k);
  }

  /** The token after those of the node at `p`: its sibling, the end of its parent, or the end of the tree. */
  lemma TokenAfterNode(b: Blob, p: Path)
    requires WellFormed(b) && HasNode(b.root, p)
    ensures var i := Index(b.root, p) + |Flatten(NodeAt(b.root, p))|;
      && i < |Tokens(b)| && (Tokens(b)[i].BeginNode? || Tokens(b)[i] == EndNode || Tokens(b)[i] == End)
      && SiblingAddr(b, p) == if Tokens(b)[i].BeginNode? then Addr(b, i) else 0
  {
    hide Flatten, WellFormed, Addr, Index, NodeAt, HasNode;
    if p == [] {
      PathEnd(0, b.root);
      assert Tokens(b)[|Flatten(b.root)|] == End;
    } else {
      var q, c := p[..|p| - 1], p[|p| - 1];
      ParentOf(b.root, p);
      assert p == q + [c];
      AfterNode(b.root, q, c);
    }
  }

  /** How many nodes are open, counting the node, after its first `k` tokens. */
  function Depth(n: Node, k: nat): nat
    requires k <= |Flatten(n)|
  {
    |Open([], 0, Flatten(n)[..k])|
  }

  lemma DepthInside(n: Node, k: nat)
    requires 0 < k < |Flatten(n)|
    ensures Depth(n, 1) == 1 && Depth(n, k) >= 1 && Depth(n, |Flatten(n)|) == 0
    ensures Flatten(n)[k] != End && Flatten(n)[k] != Nop
    ensures Flatten(n)[k].BeginNode? ==> Depth(n, k + 1) == Depth(n, k) + 1
    ensures Flatten(n)[k] == EndNode ==> Depth(n, k + 1) == Depth(n, k) - 1
    ensures Flatten(n)[k].Prop? ==> Depth(n, k + 1) == Depth(n, k)
  {
    hide Flatten, Open, Height;
    NodeTokens(n, k);
    OpenInside([], 0, n, k);
    OpenInside([], 0, n, |Flatten(n)|);
    OpenNext([], 0, Flatten(n), k);
    FlattenFirst(n);
    OpenFront([], 0, n, 1);
  }

  /** `fdt_sibling_node` */
  method SiblingNode(mem: seq<byte>, nodeAddr: nat, b: Blob, ghost p: Path) returns (r: nat)
    requires nodeAddr != 0 ==> Loaded(mem, b) && HasNode(b.root, p) && nodeAddr == NodeAddr(b, p)
    ensures r == if nodeAddr == 0 then 0 else SiblingAddr(b, p)
  {
    hide Loaded, Addr, Flatten, Height, ValidTokens, Steppable, Load32, Slot, Within, Depth, Index, HasNode, Tokens;
    hide SiblingAddr, NodeAt;
    if nodeAddr == 0 { return 0; }
    var currentAddr := nodeAddr;
    var depth := 1;
    LoadedWellFormed(mem, b);
    ghost var n, i := NodeAt(b.root, p), Index(b.root, p);
    ghost var k := 0;
    TokenAfterNode(b, p);
    DepthInside(n, 1);
    while true
      invariant k < |Flatten(n)| && i + |Flatten(n)| < |Tokens(b)| && currentAddr == Addr(b, i + k)
      invariant depth == Depth(n, k + 1)
      decreases |Flatten(n)| - k
    {
      NextToken(mem, b, i + k);
      currentAddr := NextTokenAddr(mem, currentAddr, Tokens(b)[i + k], b.nops[i + k]);
      k := k + 1;
      if k < |Flatten(n)| {
        NodeToken(b, p, k);
        DepthInside(n, k);
      }
      if Load32(mem, currentAddr) == FDT_BEGIN_NODE {
        depth := depth + 1;
        if depth == 1 { return currentAddr; }
      } else if Load32(mem, currentAddr) == FDT_END_NODE {
        depth := depth - 1;
        if depth == -1 { return 0; }
      } else if Load32(mem, currentAddr) == FDT_END {
        return 0;
      }
    }
  }

  /** The first tokens of the node at `p`: its properties, then its first child or its end. */
  lemma FirstTokens(b: Blob, p: Path, k: nat)
    requires WellFormed(b) && HasNode(b.root, p) && k <= 1 + |NodeAt(b.root, p).props|
    ensures var n, i := NodeAt(b.root, p), Index(b.root, p) + k;
      && i < |Flatten(b.root)| < |Tokens(b)|
      && (0 < k <= |n.props| ==> Tokens(b)[i] == Prop(n.props[k - 1]))
      && (k == 1 + |n.props| ==> Tokens(b)[i].BeginNode? || Tokens(b)[i] == EndNode)
      && (k == 1 + |n.props| ==> ChildAddr(b, p) == if Tokens(b)[i].BeginNode? then Addr(b, i) else 0)
  {
    hide Flatten, WellFormed, Addr, Tokens, HasNode;
    var n := NodeAt(b.root, p);
    AfterFront(n);
    NodeToken(b, p, k);
    if n.children != [] { ChildOf(b.root, p, 0); }
  }

  /** `fdt_child_node` */
  method ChildNode(mem: seq<byte>, nodeAddr: nat, b: Blob, ghost p: Path) returns (r: nat)
    requires nodeAddr != 0 ==> Loaded(mem, b) && HasNode(b.root, p) && nodeAddr == NodeAddr(b, p)
    ensures r == if nodeAddr == 0 then 0 else ChildAddr(b, p)
  {
    hide Loaded, Addr, Flatten, Height, ValidTokens, Steppable, Load32, Slot, Within, Index, HasNode, Tokens, ChildAddr;
    hide NodeAt;
    if nodeAddr == 0 { return 0; }
    var currentAddr := nodeAddr;
    LoadedWellFormed(mem, b);
    ghost var n, i := NodeAt(b.root, p), Index(b.root, p);
    ghost var k := 0;
    FirstTokens(b, p, 0);
    while true
      invariant k <= |n.props| && i + k <= |Tokens(b)| && currentAddr == Addr(b, i + k)
      decreases |n.props| - k
    {
      FirstTokens(b, p, k + 1);
      NextToken(mem, b, i + k);
      currentAddr := NextTokenAddr(mem, currentAddr, Tokens(b)[i + k], b.nops[i + k]);
      k := k + 1;
      if Load32(mem, currentAddr) == FDT_BEGIN_NODE {
        return currentAddr;
      } else if Load32(mem, currentAddr) == FDT_END_NODE || Load32(mem, currentAddr) == FDT_END {
        return 0;
      }
    }
  }

  // The way back to the parent.

  /** The nodes that are open after the first `k` tokens of the tree, by their first tokens. */
  function OpenNodes(b: Blob, k: nat): seq<nat>
    requires k <= |Flatten(b.root)|
  {
    Open([], 0, Flatten(b.root)[..k])
  }

  lemma OpenRoot(b: Blob)
    ensures |Flatten(b.root)| >= 1 && OpenNodes(b, 1) == [0] && OpenNodes(b, |Flatten(b.root)|) == []
  {
    hide Flatten, Open, Height;
    FlattenFirst(b.root);
    OpenFront([], 0, b.root, 1);
    OpenInside([], 0, b.root, |Flatten(b.root)|);
  }

  /** How token `k` of the tree changes which nodes are open. */
  lemma OpenStep(b: Blob, k: nat)
    requires 0 < k < |Flatten(b.root)| && Height(b.root) <= MAX_LEVELS
    ensures 0 < |OpenNodes(b, k)| <= MAX_LEVELS && |OpenNodes(b, k + 1)| <= MAX_LEVELS
    ensures Flatten(b.root)[k] != End && Flatten(b.root)[k] != Nop
    ensures OpenNodes(b, k + 1) == Step(OpenNodes(b, k), k, Flatten(b.root)[k])
  {
    hide Flatten, Open, Height, Step;
    NodeTokens(b.root, k);
    OpenInside([], 0, b.root, k);
    OpenInside([], 0, b.root, k + 1);
    OpenNext([], 0, Flatten(b.root), k);
  }

  /** No node begins at `addr` among the first `k` tokens. */
  predicate NotBefore(b: Blob, addr: nat, k: nat)
    requires WellFormed(b) && k <= |Flatten(b.root)|
  {
    forall m: nat :: m < k && Flatten(b.root)[m].BeginNode? ==> Addr(b, m) != addr
  }

  /** The answer to a question for the parent of `addr`. */
  ghost predicate IsParent(b: Blob, addr: nat, r: nat)
    requires WellFormed(b)
  {
    && (forall p :: HasNode(b.root, p) && addr == NodeAddr(b, p) ==> r == ParentAddr(b, p))
    && ((forall p :: HasNode(b.root, p) ==> addr != NodeAddr(b, p)) ==> r == 0)
  }

  lemma RootHasNoParent(b: Blob, addr: nat)
    requires WellFormed(b) && (addr == 0 || addr == NodeAddr(b, []))
    ensures IsParent(b, addr, 0)
  {
    hide WellFormed, Addr;
    forall p | HasNode(b.root, p) && addr == NodeAddr(b, p) ensures 0 == ParentAddr(b, p) {
      if p != [] {
        IndexInside(b.root, []);
        IndexInside(b.root, p);
        SameToken(b, Index(b.root, []), Index(b.root, p));
        LaterThanRoot(b.root, p);
      }
    }
  }

  lemma LaterThanRoot(n: Node, p: Path)
    requires HasNode(n, p) && p != []
    ensures Index(n, p) > 0
  {
  }

  lemma SameToken(b: Blob, i: nat, j: nat)
    requires WellFormed(b) && i <= |Tokens(b)| && j <= |Tokens(b)| && Addr(b, i) == Addr(b, j)
    ensures i == j
  {
    hide WellFormed, Addr, Tokens;
    if i < j { AddrIncreases(b, i, j); } else if j < i { AddrIncreases(b, j, i); }
  }

  lemma NotFound(b: Blob, addr: nat)
    requires WellFormed(b) && NotBefore(b, addr, |Flatten(b.root)|)
    ensures IsParent(b, addr, 0)
  {
    hide WellFormed, Addr, Flatten, Index;
    forall p | HasNode(b.root, p) ensures addr != NodeAddr(b, p) {
      IndexInside(b.root, p);
      NodeBegins(b, p);
    }
  }

  lemma NodeBegins(b: Blob, p: Path)
    requires HasNode(b.root, p)
    ensures Index(b.root, p) < |Flatten(b.root)| && Flatten(b.root)[Index(b.root, p)].BeginNode?
  {
    hide Flatten, Index;
    NodeToken(b, p, 0);
    AfterFront(NodeAt(b.root, p));
    assert Tokens(b)[Index(b.root, p)] == Flatten(b.root)[Index(b.root, p)];
  }

  lemma ParentFound(b: Blob, addr: nat, k: nat)
    requires WellFormed(b) && 0 < k < |Flatten(b.root)| && Flatten(b.root)[k].BeginNode? && addr == Addr(b, k)
    ensures OpenNodes(b, k) != [] && Last(OpenNodes(b, k)) <= |Tokens(b)|
    ensures IsParent(b, addr, Addr(b, Last(OpenNodes(b, k))))
  {
    hide WellFormed, Addr, Flatten, Index, Open, Chain, HasNode;
    var q := BeginIsNode(b.root, k);
    ParentToken(b, q, k);
    forall p | HasNode(b.root, p) && addr == NodeAddr(b, p)
      ensures Addr(b, Last(OpenNodes(b, k))) == ParentAddr(b, p)
    {
      IndexInside(b.root, p);
      SameToken(b, Index(b.root, p), k);
      ParentToken(b, p, k);
    }
  }

  function Last(xs: seq<nat>): nat
    requires xs != []
  {
    xs[|xs| - 1]
  }

  /** Just before a node begins, the last open node is its parent. */
  lemma ParentToken(b: Blob, p: Path, k: nat)
    requires HasNode(b.root, p) && Index(b.root, p) == k > 0 && k < |Flatten(b.root)|
    ensures p != [] && HasNode(b.root, p[..|p| - 1])
    ensures OpenNodes(b, k) != [] && Last(OpenNodes(b, k)) == Index(b.root, p[..|p| - 1]) < |Flatten(b.root)|
  {
    hide Flatten, Open, Chain, HasNode, Index;
    PathEnd(0, b.root);
    NodeBegins(b, p);
    OpenAt([], 0, b.root, p);
    ChainEnds(0, b.root, p);
    OpenNext([], 0, Flatten(b.root), k);
    IndexInside(b.root, p[..|p| - 1]);
    var open, chain := OpenNodes(b, k), Chain(0, b.root, p);
    assert open + [k] == [] + chain == chain;
    assert |open| == |p| && open[|p| - 1] == (open + [k])[|p| - 1];
  }

  /** The stack holds the addresses of the open nodes, from its second element on. */
  predicate Stacked(b: Blob, stack: seq<nat>, open: seq<nat>)
    requires WellFormed(b)
  {
    && |open| < |stack|
    && forall m: nat :: m < |open| ==> open[m] <= |Tokens(b)| && stack[m + 1] == Addr(b, open[m])
  }

  /** The stack follows the open nodes over token `k`. */
  lemma StackStep(b: Blob, stack: seq<nat>, k: nat)
    requires WellFormed(b) && 0 < k < |Flatten(b.root)| && |stack| == 32 && Stacked(b, stack, OpenNodes(b, k))
    ensures |OpenNodes(b, k)| <= MAX_LEVELS
    ensures var next, t := OpenNodes(b, k + 1), Flatten(b.root)[k];
      && (t.BeginNode? ==>
        |next| == |OpenNodes(b, k)| + 1 <= MAX_LEVELS && Stacked(b, stack[|next| := Addr(b, k)], next))
      && (t == EndNode ==> |next| == |OpenNodes(b, k)| - 1 && Stacked(b, stack, next))
      && (t.Prop? ==> next == OpenNodes(b, k))
      && t != Nop && t != End
  {
    hide Addr, Flatten, Height, OpenNodes, ValidTokens;
    OpenStep(b, k);
  }

  /** `fdt_parent_node`: the nodes on the way are kept in an array of 32, its first element unused. */
  method ParentNode(mem: seq<byte>, nodeAddr: nat, b: Blob) returns (r: nat)
    requires Loaded(mem, b)
    ensures IsParent(b, nodeAddr, r)
  {
    hide Loaded, Addr, Flatten, Height, ValidTokens, Steppable, Load32, Slot, Within, OpenNodes, NotBefore, IsParent;
    hide Stacked;
    LoadedWellFormed(mem, b);
    var currentAddr := RootNode(mem, b.fdt, b);
    if nodeAddr == 0 || nodeAddr == currentAddr {
      RootHasNoParent(b, nodeAddr);
      return 0;
    }
    var depth := 1;
    var parentStack := new nat[32];
    parentStack[0] := 0;
    parentStack[1] := currentAddr;
    ghost var size, k := |Flatten(b.root)|, 1;
    OpenRoot(b);
    StackBottom(b, parentStack[..]);
    RootOnly(b, nodeAddr);
    while true
      invariant 0 < k <= size && currentAddr == Addr(b, k - 1)
      invariant depth == |OpenNodes(b, k)| && Stacked(b, parentStack[..], OpenNodes(b, k))
      invariant NotBefore(b, nodeAddr, k)
      decreases size - k
    {
      NextToken(mem, b, k - 1);
      currentAddr := NextTokenAddr(mem, currentAddr, Tokens(b)[k - 1], b.nops[k - 1]);
      if k == size {
        NotFound(b, nodeAddr);
      } else {
        StackStep(b, parentStack[..], k);
      }
      if Load32(mem, currentAddr) == FDT_BEGIN_NODE {
        parentStack[depth + 1] := currentAddr;
        depth := depth + 1;
        if currentAddr == nodeAddr {
          ParentFound(b, nodeAddr, k);
          StackTop(b, parentStack[..], k);
          return parentStack[depth - 1];
        }
      } else if Load32(mem, currentAddr) == FDT_END_NODE {
        depth := depth - 1;
      } else if Load32(mem, currentAddr) == FDT_END {
        return 0;
      }
      NotBeforeNext(b, nodeAddr, k);
      k := k + 1;
    }
  }

  lemma StackBottom(b: Blob, stack: seq<nat>)
    requires WellFormed(b) && |stack| == 32 && stack[1] == NodeAddr(b, [])
    ensures Stacked(b, stack, OpenNodes(b, 1))
  {
    hide Addr, Flatten, Height, OpenNodes, ValidTokens;
    OpenRoot(b);
    PathEnd(0, b.root);
  }

  /** Below the node just begun the stack has the last node that was open before it. */
  lemma StackTop(b: Blob, stack: seq<nat>, k: nat)
    requires WellFormed(b) && 0 < k < |Flatten(b.root)| && Flatten(b.root)[k].BeginNode?
    requires 0 < |OpenNodes(b, k)| < |stack| && Last(OpenNodes(b, k)) <= |Tokens(b)|
    requires Stacked(b, stack, OpenNodes(b, k + 1))
    ensures stack[|OpenNodes(b, k)|] == Addr(b, Last(OpenNodes(b, k)))
  {
    hide Addr, Flatten, Height, OpenNodes, ValidTokens;
    OpenStep(b, k);
    var open := OpenNodes(b, k);
    assert OpenNodes(b, k + 1)[|open| - 1] == Last(open);
  }

  lemma RootOnly(b: Blob, addr: nat)
    requires WellFormed(b) && addr != NodeAddr(b, [])
    ensures NotBefore(b, addr, 1)
  {
  }

  lemma NotBeforeNext(b: Blob, addr: nat, k: nat)
    requires WellFormed(b) && k < |Flatten(b.root)| && NotBefore(b, addr, k)
    requires Flatten(b.root)[k].BeginNode? ==> Addr(b, k) != addr
    ensures NotBefore(b, addr, k + 1)
  {
  }

  // Properties.

  /** The first property from `k` on with this name, or the number of properties. */
  function FirstNamed(mem: seq<byte>, b: Blob, props: seq<Property>, k: nat, name: seq<byte>): (r: nat)
    requires k <= |props|
    ensures k <= r <= |props| && (r < |props| ==> PropertyName(mem, b, props[r]) == name)
    ensures forall j :: k <= j < r ==> PropertyName(mem, b, props[j]) != name
    decreases |props| - k
  {
    if k == |props| || PropertyName(mem, b, props[k]) == name then k else FirstNamed(mem, b, props, k + 1, name)
  }

  /** `_fdt_next_property_addr` */
  method NextPropertyAddr(mem: seq<byte>, addr: nat, b: Blob, ghost p: Path, ghost k: nat) returns (r: nat)
    requires Loaded(mem, b) && HasNode(b.root, p) && k <= |NodeAt(b.root, p).props|
    requires Index(b.root, p) + k < |Tokens(b)| && addr == Addr(b, Index(b.root, p) + k)
    ensures Index(b.root, p) + k + 1 < |Tokens(b)|
    ensures r == if k < |NodeAt(b.root, p).props| then Addr(b, Index(b.root, p) + k + 1) else 0
  {
    hide Loaded, Addr, Flatten, Height, ValidTokens, Steppable, Load32, Slot, Within, Index, HasNode, Tokens, NodeAt;
    ghost var i := Index(b.root, p) + k;
    LoadedWellFormed(mem, b);
    FirstTokens(b, p, k + 1);
    NextToken(mem, b, i);
    var propertyAddr := NextTokenAddr(mem, addr, Tokens(b)[i], b.nops[i]);
    r := if Load32(mem, propertyAddr) == FDT_PROP then propertyAddr else 0;
  }

  /** `fdt_property_name`: the property is the structure after the token. */
  method NameOfProperty(mem: seq<byte>, property: nat, b: Blob, ghost i: nat) returns (r: nat)
    requires Loaded(mem, b) && i < |Tokens(b)| && Tokens(b)[i].Prop? && property == Addr(b, i) + TOKEN_SIZE
    ensures Terminated(mem, r) && Str(mem, r) == PropertyName(mem, b, Tokens(b)[i].property)
  {
    hide Within, Slot, Load32, Be32ToCpu, Flatten, Height, Stream, Nops, Be32, Str;
    TokenInMemory(mem, b, i);
    PropertyInMemory(mem, Addr(b, i), Tokens(b)[i], b.nops[i]);
    BigEndianRoundTrip(mem, b.fdt + OFF_DT_STRINGS, b.stringsOffset);
    var stringsOffset := Be32ToCpu(Load32(mem, b.fdt + OFF_DT_STRINGS));
    var nameoff := Be32ToCpu(Load32(mem, property + 4));
    r := b.fdt + stringsOffset + nameoff;
  }

  /** `fdt_property_by_name`: the first property of the node with this whole name, or 0. */
  method PropertyByName(mem: seq<byte>, nodeAddr: nat, name: seq<byte>, b: Blob, ghost p: Path) returns (r: nat)
    requires nodeAddr != 0 ==> Loaded(mem, b) && HasNode(b.root, p) && nodeAddr == NodeAddr(b, p)
    requires Terminated(name, 0) && |Str(name, 0)| < 0xFFFF_FFFF
    ensures nodeAddr == 0 ==> r == 0
    ensures nodeAddr != 0 ==> IsFirstProperty(mem, b, p, Str(name, 0), r)
  {
    hide Loaded, Addr, Flatten, Height, ValidTokens, Index, HasNode, Tokens, NodeAt, Str, PropertyName;
    hide Terminated;
    if nodeAddr == 0 { return 0; }
    LoadedWellFormed(mem, b);
    var currentAddr := nodeAddr;
    ghost var n, i := NodeAt(b.root, p), Index(b.root, p);
    ghost var k := 0;
    FirstTokens(b, p, 0);
    while true
      invariant k <= |n.props| && i + k < |Tokens(b)| && currentAddr == Addr(b, i + k)
      invariant FirstNamed(mem, b, n.props, 0, Str(name, 0)) == FirstNamed(mem, b, n.props, k, Str(name, 0))
      decreases |n.props| - k
    {
      FirstTokens(b, p, k + 1);
      currentAddr := NextPropertyAddr(mem, currentAddr, b, p, k);
      if currentAddr == 0 { return 0; }
      k := k + 1;
      var property := currentAddr + TOKEN_SIZE;
      var currentName := NameOfProperty(mem, property, b, i + k);
      var found := Streql(mem, currentName, name, 0);
      if found { return property; }
    }
  }

  /** The address of the structure of the first property with this name, or 0 when there is none. */
  predicate IsFirstProperty(mem: seq<byte>, b: Blob, p: Path, name: seq<byte>, r: nat)
    requires WellFormed(b) && HasNode(b.root, p)
  {
    var props := NodeAt(b.root, p).props;
    var k := FirstNamed(mem, b, props, 0, name);
    if k == |props| then r == 0
    else Index(b.root, p) + k + 1 < |Tokens(b)| && r == Addr(b, Index(b.root, p) + k + 1) + TOKEN_SIZE
  }

  // Paths.

  /** A candidate without the name is passed over for its next sibling. */
  lemma Mismatch(b: Blob, s: seq<byte>, at: Path, i: nat)
    requires WellFormed(b) && HasNode(b.root, at) && i <= |s| && (if at == [] then i == 0 else i < |s|)
    requires !Matches(NodeAt(b.root, at).name, Wanted(s, at, i))
    ensures SiblingAddr(b, at) == 0 ==> Remaining(b.root, s, at, i) == Missing
    ensures SiblingAddr(b, at) != 0 ==> IsNext(b, s, at, i, NextSibling(at), i) && at != []
                                        && SiblingAddr(b, at) == NodeAddr(b, NextSibling(at))
  {
    hide WellFormed, Addr, Remaining, Find, HasNode, Index, Component, Matches;
    if at == [] {
      MismatchRoot(b.root, s);
    } else {
      hide NodeAt, Wanted;
      MismatchBelow(b, s, at, i);
    }
  }

  lemma MismatchBelow(b: Blob, s: seq<byte>, at: Path, i: nat)
    requires WellFormed(b) && HasNode(b.root, at) && at != [] && i < |s|
    requires !Matches(NodeAt(b.root, at).name, Wanted(s, at, i))
    ensures SiblingAddr(b, at) == 0 ==> Remaining(b.root, s, at, i) == Missing
    ensures SiblingAddr(b, at) != 0 ==> IsNext(b, s, at, i, NextSibling(at), i)
                                        && SiblingAddr(b, at) == NodeAddr(b, NextSibling(at))
  {
    hide WellFormed, Addr, Remaining, Find, HasNode, Index, NodeAt, Component, Matches;
    PathEnd(0, b.root);
    ParentOf(b.root, at);
    var q, c := at[..|at| - 1], at[|at| - 1];
    assert at == q + [c];
    MismatchChild(b.root, s, q, c, i);
    if c + 1 < |NodeAt(b.root, q).children| { ChildOf(b.root, q, c + 1); }
  }

  function NextSibling(at: Path): Path {
    if at == [] then [] else at[..|at| - 1] + [at[|at| - 1] + 1]
  }

  /** The lookup goes on from another candidate. */
  predicate IsNext(b: Blob, s: seq<byte>, at: Path, i: nat, next: Path, j: nat)
    requires HasNode(b.root, at) && i <= |s| && (at != [] ==> i < |s|)
  {
    && HasNode(b.root, next) && j <= |s| && next != [] && j < |s|
    && Remaining(b.root, s, at, i) == Remaining(b.root, s, next, j)
  }

  /** A candidate with the name is the answer at the end of the path, and else its first child is next. */
  lemma Match(b: Blob, s: seq<byte>, at: Path, i: nat)
    requires WellFormed(b) && HasNode(b.root, at) && i <= |s| && (at != [] ==> i < |s|)
    requires s != [] && s[0] == SLASH && (at == [] ==> i == 0)
    requires Matches(NodeAt(b.root, at).name, Wanted(s, at, i))
    ensures i < Past(s, at, i)
    ensures Past(s, at, i) == |s| ==> Remaining(b.root, s, at, i) == Found(at)
    ensures Past(s, at, i) < |s| && ChildAddr(b, at) == 0 ==> Remaining(b.root, s, at, i) == Missing
    ensures Past(s, at, i) < |s| && ChildAddr(b, at) != 0 ==>
      IsNext(b, s, at, i, at + [0], Past(s, at, i)) && ChildAddr(b, at) == NodeAddr(b, at + [0])
  {
    hide WellFormed, Addr, Remaining, Find, HasNode, Index, NodeAt, Component, Past;
    PathEnd(0, b.root);
    if at == [] {
      MatchRoot(b.root, s);
      assert at + [0] == [0];
    } else {
      ParentOf(b.root, at);
      var q, c := at[..|at| - 1], at[|at| - 1];
      assert at == q + [c];
      MatchChild(b.root, s, q, c, i);
    }
    if NodeAt(b.root, at).children != [] { ChildOf(b.root, at, 0); }
  }

  /** The address of the node a lookup finds, or 0. */
  function FoundAddr(b: Blob, r: Lookup): nat
    requires WellFormed(b) && (r.Found? ==> HasNode(b.root, r.path))
  {
    if r.Found? then NodeAddr(b, r.path) else 0
  }

  /** The comparison of a node's name with a part of the path. */
  lemma NameMatches(mem: seq<byte>, at: nat, name: seq<byte>, s: seq<byte>, p: nat, component: seq<byte>)
    requires Within(mem, at, name + [0]) && 0 !in name
    requires p + |component| <= |s| && s[p..p + |component|] == component && 0 !in component
    ensures Readable(mem, at, |component|) && Readable(s, p, |component|)
    ensures Text(mem, at, |component|) == Text(s, p, |component|) ==>
      at + |component| < |mem| &&
      (Matches(name, component) <==> mem[at + |component|] == 0 || mem[at + |component|] == AT_SIGN)
    ensures Matches(name, component) ==> Text(mem, at, |component|) == Text(s, p, |component|)
  {
    hide Within, Text, Matches;
    var q := |component|;
    WithinSnoc(mem, at, name, 0);
    assert Terminated(mem, at);
    TextSplit(s, p, q, q);
    assert Text(s, p, q) == component;
    NameText(mem, at, name, q);
    MatchesAt(name, component);
    if q <= |name| { NameByte(mem, at, name, q); }
  }

  lemma NameText(mem: seq<byte>, at: nat, name: seq<byte>, q: nat)
    requires Within(mem, at, name + [0]) && 0 !in name
    ensures Text(mem, at, q) == if q <= |name| then name[..q] else name
  {
    hide Within, Text;
    var n := |mem| + |name|;
    WithinSnoc(mem, at, name, 0);
    TextTake(mem, at, q, n);
    TextTerminated(mem, at, n, name);
  }

  lemma NameByte(mem: seq<byte>, at: nat, name: seq<byte>, q: nat)
    requires Within(mem, at, name + [0]) && q <= |name|
    ensures at + q < |mem| && mem[at + q] == if q < |name| then name[q] else 0
  {
    ElementWithin(mem, at, name + [0], q);
  }

  lemma MatchesAt(name: seq<byte>, component: seq<byte>)
    ensures Matches(name, component) <==>
      |component| <= |name| && name[..|component|] == component
      && (|component| == |name| || name[|component|] == AT_SIGN)
  {
  }

  /** The name of a node in memory. */
  lemma NodeName(mem: seq<byte>, b: Blob, p: Path)
    requires Loaded(mem, b) && HasNode(b.root, p)
    ensures Within(mem, NodeAddr(b, p) + TOKEN_SIZE, NodeAt(b.root, p).name + [0]) && 0 !in NodeAt(b.root, p).name
  {
    hide Within, Slot, Load32, Be32, Nops, Stream, Height, Index, Flatten;
    var n := NodeAt(b.root, p);
    NodeToken(b, p, 0);
    AfterFront(n);
    TokenInMemory(mem, b, Index(b.root, p));
    NameBytes(mem, NodeAddr(b, p), BeginNode(n.name), b.nops[Index(b.root, p)]);
  }

  lemma NameBytes(mem: seq<byte>, addr: nat, t: Token, n: nat)
    requires t.BeginNode? && ValidToken(t) && Within(mem, addr, Slot(t, n))
    ensures Within(mem, addr + 4, t.name + [0])
  {
    hide Within, Slot, Be32, AlignUp, Padded;
    TokenWithin(mem, addr, t, n);
    PaddedFront(t.name + [0]);
    WithinWithin(mem, addr + 4, Payload(t), 0, t.name + [0]);
  }

  /** The buffer `path` holds the string `s`. */
  predicate HoldsPath(path: seq<byte>, s: seq<byte>) {
    |s| < |path| && path[..|s|] == s && path[|s|] == 0 && 0 !in s
  }

  lemma PathBytes(path: seq<byte>)
    requires Terminated(path, 0)
    ensures HoldsPath(path, Str(path, 0))
  {
    hide Text;
    TextBytes(path, 0, |path|);
  }

  lemma WantedBytes(path: seq<byte>, s: seq<byte>, at: Path, p: nat)
    requires HoldsPath(path, s) && p <= |s|
    ensures var w := Wanted(s, at, p);
      && p + |w| <= |s| && path[p..p + |w|] == w && 0 !in w
      && Past(s, at, p) == p + |w| + if path[p + |w|] == SLASH then 1 else 0
  {
    hide Component;
    var w := Wanted(s, at, p);
    if at != [] {
      assert w == s[p..][..|w|] == s[p..p + |w|] == path[p..p + |w|];
      assert forall x :: x in w ==> x in s;
    }
    assert p + |w| < |s| ==> path[p + |w|] == s[p + |w|];
  }

  lemma SlashToken(path: seq<byte>, k: nat)
    requires k < |path|
    ensures TokenAt(path, k, Ascii("/")) <==> path[k] == SLASH
  {
    assert Ascii("/") == [SLASH];
    assert Text(path, k + 1, 0) == [];
    assert Text(path, k, 1) == if path[k] == 0 then [] else [path[k]];
  }

  /** What `strtoken` counts is the next component. */
  lemma NextComponent(path: seq<byte>, s: seq<byte>, p: nat, q: nat)
    requires HoldsPath(path, s) && p <= |s| && p + q < |path| && 0 !in path[p..p + q]
    requires path[p + q] == 0 || TokenAt(path, p + q, Ascii("/"))
    requires forall k :: p <= k < p + q ==> !TokenAt(path, k, Ascii("/"))
    ensures q == |Component(s[p..])|
  {
    hide TokenAt, Text, Ascii;
    SlashToken(path, p + q);
    forall k | p <= k < p + q ensures path[k] != 0 && path[k] != SLASH {
      SlashToken(path, k);
      assert path[k] == path[p..p + q][k - p];
    }
    var t, r := s[p..], Component(s[p..]);
    assert forall k :: 0 <= k < |t| ==> t[k] == path[p + k];
    assert forall k :: 0 <= k < |r| ==> r[k] == t[k] && r[k] != SLASH;
  }

  /** `fdt_node_addr_by_path`: the lookup of `path`, each component up to the next slash. */
  method NodeAddrByPath(mem: seq<byte>, path: seq<byte>, b: Blob) returns (r: nat)
    requires Loaded(mem, b) && Terminated(path, 0)
    ensures var found := FindPath(b.root, Str(path, 0));
      (found.Found? ==> HasNode(b.root, found.path)) && r == FoundAddr(b, found)
  {
    hide Loaded, WellFormed, Addr, Flatten, Index, HasNode, NodeAt, Str, Remaining, FindPath, Find, Matches, Past;
    hide Component, Within, Text, SiblingAddr, ChildAddr;
    ghost var s := Str(path, 0);
    LoadedWellFormed(mem, b);
    PathBytes(path);
    PathEnd(0, b.root);
    var currentAddr := RootNode(mem, b.fdt, b);
    if currentAddr == 0 || path[0] != SLASH {
      NoSlash(b.root, s);
      return 0;
    }
    var p, q := 0, 0;
    ghost var at: Path := [];
    RemainingRoot(b.root, s);
    while true
      invariant HasNode(b.root, at) && currentAddr == NodeAddr(b, at)
      invariant p <= |s| && (if at == [] then p == 0 else p < |s|) && q == |Wanted(s, at, p)|
      invariant FindPath(b.root, s) == Remaining(b.root, s, at, p)
      decreases |s| - p, if at == [] then 1 else Siblings(b.root, at) - at[|at| - 1]
    {
      var currentNodeName := currentAddr + TOKEN_SIZE;
      ghost var name, wanted := NodeAt(b.root, at).name, Wanted(s, at, p);
      NodeName(mem, b, at);
      WantedBytes(path, s, at, p);
      NameMatches(mem, currentNodeName, name, path, p, wanted);
      var same := Streqln(mem, currentNodeName, path, p, q);
      if same && (mem[currentNodeName + q] == 0 || mem[currentNodeName + q] == AT_SIGN) {
        Match(b, s, at, p);
        p := p + q;
        p := p + if path[p] == SLASH then 1 else 0;
        q := Strtoken(path, p, Ascii("/"), 0);
        NextComponent(path, s, p, q);
        if path[p] == 0 { return currentAddr; }
        currentAddr := ChildNode(mem, currentAddr, b, at);
        at := at + [0];
      } else {
        Mismatch(b, s, at, p);
        currentAddr := SiblingNode(mem, currentAddr, b, at);
        at := NextSibling(at);
      }
      if currentAddr == 0 { return 0; }
    }
  }
}
