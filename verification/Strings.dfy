/**
 The C strings of src/string.c. Memory is a sequence of bytes indexed by address, so that every
 access is proved to stay inside it.
 */
module Strings {
  import opened Slices

  type byte = b: int | 0 <= b < 256

  /** A string literal, without the NUL the compiler appends. */
  function Ascii(s: string): (r: seq<byte>)
    ensures |r| == |s|
  {
    seq(|s|, i requires 0 <= i < |s| => (s[i] as int) % 256)
  }

  /** The string at `at`: the bytes before the first NUL, but at most `n` of them. */
  function Text(mem: seq<byte>, at: nat, n: nat): (r: seq<byte>)
    ensures |r| <= n
    decreases n
  {
    if n == 0 || at >= |mem| || mem[at] == 0 then []
    else [mem[at]] + Text(mem, at + 1, n - 1)
  }

  /** Reading from `at` up to a NUL or to `n` bytes stays in memory. */
  predicate Readable(mem: seq<byte>, at: nat, n: nat) {
    at + n <= |mem| || Terminated(mem, at)
  }

  /** `k` bytes that are not NUL are a prefix of the string they begin. */
  lemma {:induction false} TextSplit(mem: seq<byte>, at: nat, n: nat, k: nat)
    requires k <= n && at + k <= |mem| && 0 !in mem[at..at + k]
    ensures Text(mem, at, n) == mem[at..at + k] + Text(mem, at + k, n - k)
    decreases k
  {
    if k > 0 {
      assert mem[at..at + k] == [mem[at]] + mem[at + 1..at + k];
      TextSplit(mem, at + 1, n - 1, k - 1);
    }
  }

  /** `t` followed by a NUL is read back as `t`. */
  lemma TextTerminated(mem: seq<byte>, at: nat, n: nat, t: seq<byte>)
    requires at + |t| < |mem| && Within(mem, at, t) && 0 !in t && mem[at + |t|] == 0 && |t| <= n
    ensures Text(mem, at, n) == t
  {
    TextSplit(mem, at, n, |t|);
  }

  /** The whole string at `at`. */
  function Str(mem: seq<byte>, at: nat): seq<byte> {
    Text(mem, at, |mem|)
  }

  lemma {:induction false} TextTake(mem: seq<byte>, at: nat, n: nat, m: nat)
    requires |mem| <= at + m
    ensures Text(mem, at, n) == if n <= |Text(mem, at, m)| then Text(mem, at, m)[..n] else Text(mem, at, m)
    decreases n
  {
    if !(n == 0 || at >= |mem| || mem[at] == 0) {
      TextTake(mem, at + 1, n - 1, m - 1);
    }
  }

  /** Comparing with the NUL included tells whole strings apart. */
  lemma SameString(mem: seq<byte>, at: nat, t: seq<byte>)
    ensures Text(mem, at, |t| + 1) == t <==> Str(mem, at) == t
  {
    TextTake(mem, at, |t| + 1, |mem|);
  }

  /** `streqln`: do the two strings agree, reading at most `len` bytes of each? */
  method Streqln(a: seq<byte>, i: nat, b: seq<byte>, j: nat, len: nat) returns (equal: bool)
    requires Readable(a, i, len) && Readable(b, j, len)
    ensures equal <==> Text(a, i, len) == Text(b, j, len)
  {
    var k := 0;
    while k < len && a[i + k] != 0 && b[j + k] != 0 && a[i + k] == b[j + k]
      invariant k <= len && i + k <= |a| && j + k <= |b|
      invariant k < len ==> i + k < |a| && j + k < |b|
      invariant a[i..i + k] == b[j..j + k] && 0 !in a[i..i + k]
    {
      assert a[i..i + k + 1] == a[i..i + k] + [a[i + k]] && b[j..j + k + 1] == b[j..j + k] + [b[j + k]];
      k := k + 1;
    }
    TextSplit(a, i, len, k);
    TextSplit(b, j, len, k);
    equal := k == len || a[i + k] == b[j + k];
    if !equal {
      assert a[i + k] != 0 ==> Text(a, i + k, len - k)[0] == a[i + k];
      assert b[j + k] != 0 ==> Text(b, j + k, len - k)[0] == b[j + k];
      Differ(a[i..i + k], Text(a, i + k, len - k), Text(b, j + k, len - k));
    }
  }

  /** `streql`: the length is the largest 32-bit number. */
  method Streql(a: seq<byte>, i: nat, b: seq<byte>, j: nat) returns (equal: bool)
    requires Terminated(a, i) && Terminated(b, j) && |Str(b, j)| < 0xFFFF_FFFF
    ensures equal <==> Str(a, i) == Str(b, j)
  {
    equal := Streqln(a, i, b, j, 0xFFFF_FFFF);
    TextTake(a, i, 0xFFFF_FFFF, |a|);
    TextTake(b, j, 0xFFFF_FFFF, |b|);
  }

  /** A NUL ends the string at `at`. */
  predicate Terminated(mem: seq<byte>, at: nat) {
    exists k :: at <= k < |mem| && mem[k] == 0
  }

  /** The bytes of a terminated string, and its NUL. */
  lemma {:induction false} TextBytes(mem: seq<byte>, at: nat, n: nat)
    requires Terminated(mem, at) && |mem| <= at + n
    ensures 0 !in Text(mem, at, n) && at + |Text(mem, at, n)| < |mem| && mem[at + |Text(mem, at, n)|] == 0
    ensures forall i :: 0 <= i < |Text(mem, at, n)| ==> Text(mem, at, n)[i] == mem[at + i]
    decreases n
  {
    if mem[at] != 0 {
      var t := Text(mem, at + 1, n - 1);
      TextBytes(mem, at + 1, n - 1);
      forall i | 0 <= i < 1 + |t| ensures ([mem[at]] + t)[i] == mem[at + i] {
        if i > 0 { assert t[i - 1] == mem[at + 1 + (i - 1)]; }
      }
    }
  }

  lemma Differ(p: seq<byte>, s: seq<byte>, t: seq<byte>)
    requires s != t
    ensures p + s != p + t
  {
    assert (p + s)[|p|..] == s && (p + t)[|p|..] == t;
  }

  /** `kstrlen` */
  method Kstrlen(s: seq<byte>, at: nat) returns (n: nat)
    requires Terminated(s, at)
    ensures at + n < |s| && s[at + n] == 0 && forall k :: at <= k < at + n ==> s[k] != 0
  {
    n := 0;
    while s[at + n] != 0
      invariant at + n < |s| && forall k :: at <= k < at + n ==> s[k] != 0
      decreases |s| - n
    {
      n := n + 1;
    }
  }

  /** The bytes of `token` are in `s` at `i`. */
  predicate TokenAt(s: seq<byte>, i: nat, token: seq<byte>) {
    Text(s, i, |token|) == token
  }

  /**
   `strtoken`: the first position at or after `offset` where the string at `at` has `token`,
   or its end. `token` here is without its NUL.
   */
  method Strtoken(s: seq<byte>, at: nat, token: seq<byte>, offset: nat) returns (i: nat)
    requires Terminated(s, at + offset)
    requires 0 !in token
    ensures offset <= i && at + i < |s| && 0 !in s[at + offset..at + i]
    ensures s[at + i] == 0 || TokenAt(s, at + i, token)
    ensures forall k :: at + offset <= k < at + i ==> !TokenAt(s, k, token)
  {
    var buffer := token + [0];
    assert buffer[|token|] == 0;
    var tokenlen := Kstrlen(buffer, 0);
    assert tokenlen == |token| by { assert forall k :: 0 <= k < |token| ==> buffer[k] == token[k]; }
    i := offset;
    while true
      invariant offset <= i && at + i < |s| && 0 !in s[at + offset..at + i]
      invariant Terminated(s, at + i)
      invariant forall k :: at + offset <= k < at + i ==> !TokenAt(s, k, token)
      decreases |s| - i
    {
      if s[at + i] == 0 { return; }
      var found := Streqln(s, at + i, buffer, 0, tokenlen);
      TextTerminated(buffer, 0, tokenlen, token);
      if found { return; }
      i := i + 1;
    }
  }

  // Both formats pad to four bytes.

  /** `(x + 3) & ~3` */
  function AlignUp(x: nat): (r: nat)
    ensures x <= r < x + 4 && r % 4 == 0
  {
    (x + 3) / 4 * 4
  }

  lemma AlignShift(a: nat, x: nat)
    requires a % 4 == 0
    ensures AlignUp(a + x) == a + AlignUp(x)
  {
  }

  function Padding(n: nat): (r: seq<byte>)
    ensures |r| == n
  {
    seq(n, i => 0)
  }

  /** `s` padded with NULs to a multiple of four bytes. */
  function Padded(s: seq<byte>): (r: seq<byte>)
    ensures |r| == AlignUp(|s|) && r[..|s|] == s
  {
    s + Padding(AlignUp(|s|) - |s|)
  }
}
