/**
 The flattened devicetree in memory: sections 5.2, 5.4.1 and 5.4.2 of the Devicetree Specification
 v0.4. Any number of NOP tokens may be before the first token of the tree and after each.
 */
module FlatTree {
  import opened Bits
  import opened Converters
  import opened DeviceTree
  import opened Slices
  import opened Strings

  const TOKEN_SIZE: nat := 4

  // The tokens as a little-endian load sees them.
  const FDT_BEGIN_NODE: nat := 0x0100_0000
  const FDT_END_NODE: nat := 0x0200_0000
  const FDT_PROP: nat := 0x0300_0000
  const FDT_NOP: nat := 0x0400_0000
  const FDT_END: nat := 0x0900_0000

  function Be32(x: nat): (r: seq<byte>)
    requires x < U32
    ensures |r| == 4 && x == ((r[0] as int * 0x100 + r[1] as int) * 0x100 + r[2] as int) * 0x100 + r[3] as int
  {
    var y, z := x / 0x100, x / 0x1_0000;
    assert z == y / 0x100 && x / 0x100_0000 == z / 0x100;
    [x / 0x100_0000, x / 0x1_0000 % 0x100, x / 0x100 % 0x100, x % 0x100]
  }

  /** The word whose bytes are these, the lowest first. */
  function Word(a: nat, b: nat, c: nat, d: nat): nat {
    a + 0x100 * b + 0x1_0000 * c + 0x100_0000 * d
  }

  /** A 32-bit load. */
  function Load32(mem: seq<byte>, addr: nat): nat
    requires addr + 4 <= |mem|
  {
    Word(mem[addr], mem[addr + 1], mem[addr + 2], mem[addr + 3])
  }

  /** `be32_to_cpu`: the four bytes of `x` reversed. */
  function Be32ToCpu(x: nat): nat {
    Word(x / 0x100_0000 % 0x100, x / 0x1_0000 % 0x100, x / 0x100 % 0x100, x % 0x100)
  }

  /** The four bytes of a load. */
  lemma WordBytes(a: byte, b: byte, c: byte, d: byte)
    ensures Be32ToCpu(Word(a, b, c, d)) == Word(d, c, b, a)
  {
    var x := Word(a, b, c, d);
    Quotient(x, 0x100, Word(b, c, d, 0), a);
    Quotient(x, 0x1_0000, Word(c, d, 0, 0), a + 0x100 * b);
    Quotient(x, 0x100_0000, d, a + 0x100 * b + 0x1_0000 * c);
    Quotient(x / 0x100, 0x100, Word(c, d, 0, 0), b);
    Quotient(x / 0x1_0000, 0x100, d, c);
  }

  lemma Be32Word(x: nat)
    requires x < U32
    ensures var b := Be32(x); Word(b[3], b[2], b[1], b[0]) == x
  {
    hide Be32;
  }

  lemma Loaded32(mem: seq<byte>, addr: nat, b: seq<byte>)
    requires |b| == 4 && Within(mem, addr, b)
    ensures addr + 4 <= |mem| && Load32(mem, addr) == Word(b[0], b[1], b[2], b[3])
  {
    hide Word;
    assert b[0] == mem[addr..addr + 4][0] == mem[addr] && b[1] == mem[addr..addr + 4][1] == mem[addr + 1];
    assert b[2] == mem[addr..addr + 4][2] == mem[addr + 2] && b[3] == mem[addr..addr + 4][3] == mem[addr + 3];
  }

  /** A number printed big-endian is read back by a little-endian load and a swap. */
  lemma BigEndianRoundTrip(mem: seq<byte>, addr: nat, x: nat)
    requires x < U32 && Within(mem, addr, Be32(x))
    ensures addr + 4 <= |mem| && Be32ToCpu(Load32(mem, addr)) == x
  {
    hide Within, Be32, Word, Be32ToCpu;
    var b := Be32(x);
    Loaded32(mem, addr, b);
    WordBytes(b[0], b[1], b[2], b[3]);
    Be32Word(x);
  }

  predicate ValidToken(t: Token) {
    (t.BeginNode? ==> 0 !in t.name) && (t.Prop? ==> t.property.nameoff < U32 && |t.property.value| < U32)
  }

  function Code(t: Token): (r: nat)
    ensures r < 0x100
  {
    match t
    case BeginNode(_) => 1
    case EndNode => 2
    case Prop(_) => 3
    case Nop => 4
    case End => 9
  }

  /** What follows the code of a token. */
  function Payload(t: Token): (r: seq<byte>)
    requires ValidToken(t)
  {
    match t
    case BeginNode(name) => Padded(name + [0])
    case Prop(p) => Be32(|p.value|) + Be32(p.nameoff) + Padded(p.value)
    case _ => []
  }

  lemma PayloadAligned(t: Token)
    requires ValidToken(t)
    ensures |Payload(t)| % 4 == 0
  {
    hide Be32, Padded, AlignUp;
  }

  function Bytes(t: Token): (r: seq<byte>)
    requires ValidToken(t)
    ensures |r| == 4 + |Payload(t)|
  {
    Be32(Code(t)) + Payload(t)
  }

  function Nops(n: nat): (r: seq<byte>)
    ensures |r| == 4 * n
  {
    if n == 0 then [] else Be32(Code(Nop)) + Nops(n - 1)
  }

  /** A token and the NOPs after it. */
  function Slot(t: Token, n: nat): (r: seq<byte>)
    requires ValidToken(t)
    ensures |r| == 4 + |Payload(t)| + 4 * n
  {
    Bytes(t) + Nops(n)
  }

  predicate ValidTokens(ts: seq<Token>) {
    forall t <- ts :: ValidToken(t)
  }

  function Stream(ts: seq<Token>, nops: seq<nat>): seq<byte>
    requires |ts| == |nops| && ValidTokens(ts)
  {
    if ts == [] then [] else Slot(ts[0], nops[0]) + Stream(ts[1..], nops[1..])
  }

  /** The address of token `i` of a stream at `base`. */
  function TokenAddr(base: nat, ts: seq<Token>, nops: seq<nat>, i: nat): (r: nat)
    requires |ts| == |nops| && ValidTokens(ts) && i <= |ts|
    ensures r >= base
  {
    if i == 0 then base else TokenAddr(base, ts, nops, i - 1) + |Slot(ts[i - 1], nops[i - 1])|
  }

  lemma ValidAt(ts: seq<Token>, i: nat)
    requires ValidTokens(ts) && i < |ts|
    ensures ValidToken(ts[i])
  {
  }

  lemma {:induction false} TokenAddrStep(base: nat, ts: seq<Token>, nops: seq<nat>, i: nat)
    requires |ts| == |nops| && ValidTokens(ts) && i < |ts|
    ensures TokenAddr(base, ts, nops, i + 1) == TokenAddr(base, ts, nops, i) + |Slot(ts[i], nops[i])|
  {
    hide Slot;
  }

  lemma FirstAddr(base: nat, ts: seq<Token>, nops: seq<nat>)
    requires |ts| == |nops| && ValidTokens(ts)
    ensures TokenAddr(base, ts, nops, 0) == base
  {
    hide Slot;
  }

  lemma {:induction false} RestWithin(mem: seq<byte>, base: nat, ts: seq<Token>, nops: seq<nat>, i: nat)
    requires |ts| == |nops| && ValidTokens(ts) && i <= |ts|
    requires Within(mem, base, Stream(ts, nops))
    ensures Within(mem, TokenAddr(base, ts, nops, i), Stream(ts[i..], nops[i..]))
  {
    hide Slot, Within, Stream, ValidTokens, TokenAddr;
    if i == 0 {
      FirstAddr(base, ts, nops);
      assert ts[0..] == ts && nops[0..] == nops;
    } else {
      RestWithin(mem, base, ts, nops, i - 1);
      RestStep(mem, base, ts, nops, i);
    }
  }

  lemma RestStep(mem: seq<byte>, base: nat, ts: seq<Token>, nops: seq<nat>, i: nat)
    requires |ts| == |nops| && ValidTokens(ts) && 0 < i <= |ts|
    requires Within(mem, TokenAddr(base, ts, nops, i - 1), Stream(ts[i - 1..], nops[i - 1..]))
    ensures Within(mem, TokenAddr(base, ts, nops, i), Stream(ts[i..], nops[i..]))
  {
    hide Slot, Within, Stream, TokenAddr;
    var rest, more := ts[i - 1..], nops[i - 1..];
    TokenAddrStep(base, ts, nops, i - 1);
    StreamParts(mem, TokenAddr(base, ts, nops, i - 1), rest, more);
    assert rest[0] == ts[i - 1] && more[0] == nops[i - 1];
    assert rest[1..] == ts[i..] && more[1..] == nops[i..];
  }

  lemma {:induction false} StreamParts(mem: seq<byte>, base: nat, ts: seq<Token>, nops: seq<nat>)
    requires 0 < |ts| == |nops| && ValidTokens(ts) && Within(mem, base, Stream(ts, nops))
    ensures Within(mem, base, Slot(ts[0], nops[0]))
    ensures Within(mem, base + |Slot(ts[0], nops[0])|, Stream(ts[1..], nops[1..]))
  {
    hide Slot, Within, Stream;
    var first, rest, all := Slot(ts[0], nops[0]), Stream(ts[1..], nops[1..]), Stream(ts, nops);
    StreamCons(ts, nops);
    Middle([], first, rest, all);
    Middle(first, rest, [], all);
    WithinWithin(mem, base, all, 0, first);
    WithinWithin(mem, base, all, |first|, rest);
  }

  lemma {:induction false} StreamCons(ts: seq<Token>, nops: seq<nat>)
    requires 0 < |ts| == |nops| && ValidTokens(ts)
    ensures Stream(ts, nops) == Slot(ts[0], nops[0]) + Stream(ts[1..], nops[1..])
  {
    hide Slot;
  }

  /** Token `i` and its NOPs are at its address. */
  lemma {:induction false} SlotWithin(mem: seq<byte>, base: nat, ts: seq<Token>, nops: seq<nat>, i: nat)
    requires |ts| == |nops| && ValidTokens(ts) && i < |ts|
    requires Within(mem, base, Stream(ts, nops))
    ensures Within(mem, TokenAddr(base, ts, nops, i), Slot(ts[i], nops[i]))
  {
    hide Slot, Within, TokenAddr;
    RestWithin(mem, base, ts, nops, i);
    StreamParts(mem, TokenAddr(base, ts, nops, i), ts[i..], nops[i..]);
  }

  lemma {:induction false} TokenAddrAligned(base: nat, ts: seq<Token>, nops: seq<nat>, i: nat)
    requires |ts| == |nops| && ValidTokens(ts) && i <= |ts| && base % 4 == 0
    ensures TokenAddr(base, ts, nops, i) % 4 == 0
  {
    hide Slot, Payload, ValidToken;
    if i > 0 {
      TokenAddrAligned(base, ts, nops, i - 1);
      PayloadAligned(ts[i - 1]);
    }
  }

  lemma {:induction false} TokenAddrIncreases(base: nat, ts: seq<Token>, nops: seq<nat>, i: nat, j: nat)
    requires |ts| == |nops| && ValidTokens(ts) && i < j <= |ts|
    ensures TokenAddr(base, ts, nops, i) < TokenAddr(base, ts, nops, j)
  {
    hide Slot, Payload, ValidToken;
    if i + 1 < j { TokenAddrIncreases(base, ts, nops, i, j - 1); }
  }

  /** A token in memory: its code, and its payload after it. */
  lemma TokenWithin(mem: seq<byte>, addr: nat, t: Token, n: nat)
    requires ValidToken(t) && Within(mem, addr, Slot(t, n))
    ensures addr + |Slot(t, n)| <= |mem|
    ensures Load32(mem, addr) == 0x100_0000 * Code(t)
    ensures Within(mem, addr + 4, Payload(t))
    ensures Within(mem, addr + |Bytes(t)|, Nops(n))
  {
    hide Code, Payload, Nops, Within;
    var s := Slot(t, n);
    assert s == [] + Be32(Code(t)) + (Payload(t) + Nops(n));
    Middle([], Be32(Code(t)), Payload(t) + Nops(n), s);
    Middle(Be32(Code(t)), Payload(t), Nops(n), s);
    Middle(Bytes(t), Nops(n), [], s);
    WithinWithin(mem, addr, s, 0, Be32(Code(t)));
    WithinWithin(mem, addr, s, 4, Payload(t));
    WithinWithin(mem, addr, s, |Bytes(t)|, Nops(n));
    WithinBounds(mem, addr, s);
    CodeLoaded(mem, addr, Code(t));
  }

  lemma CodeLoaded(mem: seq<byte>, addr: nat, c: nat)
    requires c < 0x100 && Within(mem, addr, Be32(c))
    ensures addr + 4 <= |mem| && Load32(mem, addr) == 0x100_0000 * c
  {
    hide Within, Be32;
    SmallBe32(c);
    Loaded32(mem, addr, Be32(c));
  }

  lemma SmallBe32(c: nat)
    requires c < 0x100
    ensures Be32(c) == [0, 0, 0, c]
  {
    assert c / 0x100_0000 == 0 && c / 0x1_0000 == 0 && c / 0x100 == 0 && c % 0x100 == c;
  }

  lemma {:induction false} NopWithin(mem: seq<byte>, addr: nat, n: nat, k: nat)
    requires Within(mem, addr, Nops(n)) && k < n
    ensures addr + 4 * n <= |mem| && Load32(mem, addr + 4 * k) == FDT_NOP
    decreases n
  {
    hide Within;
    WithinBounds(mem, addr, Nops(n));
    if k == 0 {
      Middle([], Be32(Code(Nop)), Nops(n - 1), Nops(n));
      WithinWithin(mem, addr, Nops(n), 0, Be32(Code(Nop)));
      CodeLoaded(mem, addr, 4);
    } else {
      Middle(Be32(Code(Nop)), Nops(n - 1), [], Nops(n));
      WithinWithin(mem, addr, Nops(n), 4, Nops(n - 1));
      NopWithin(mem, addr + 4, n - 1, k - 1);
    }
  }
}
