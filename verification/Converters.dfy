/** The number codecs of src/converters.c that the two parsers use. */
module Converters {
  import opened Bits
  import opened Strings

  const U32: nat := 0x1_0000_0000

  function DigitOf(v: nat, upper: bool): (c: byte)
    requires v < 16
    ensures IsDigit(c) && DigitValue(c) == v
  {
    if v < 10 then '0' as int + v else (if upper then 'A' else 'a') as int + (v - 10)
  }

  predicate IsDigit(c: byte) {
    '0' as int <= c <= '9' as int || 'a' as int <= c <= 'f' as int || 'A' as int <= c <= 'F' as int
  }

  function DigitValue(c: byte): (v: nat)
    requires IsDigit(c)
    ensures v < 16
  {
    if c <= '9' as int then c - '0' as int
    else if c <= 'F' as int then 10 + (c - 'A' as int)
    else 10 + (c - 'a' as int)
  }

  /** The digits in their order. */
  lemma DigitsInOrder(v: nat)
    requires v < 16
    ensures DigitOf(v, false) == "0123456789abcdef"[v] as int && DigitOf(v, true) == "0123456789ABCDEF"[v] as int
    ensures DigitValue("0123456789abcdef"[v] as int) == v == DigitValue("0123456789ABCDEF"[v] as int)
  {
  }

  /** `x` in `n` hexadecimal digits, the most significant first; `x` modulo 16 to the `n`. */
  function Hex(x: int, n: nat, upper: bool): (r: seq<byte>)
    ensures |r| == n
    decreases n
  {
    if n == 0 then [] else Hex(x / 16, n - 1, upper) + [DigitOf(x % 16, upper)]
  }

  /** The number whose digits are those of `r` followed by the leading digits of `s`. */
  function HexFrom(r: nat, s: seq<byte>): nat
    decreases s
  {
    if s == [] || !IsDigit(s[0]) then r else HexFrom(16 * r + DigitValue(s[0]), s[1..])
  }

  /** What `xtoi32` reads from a buffer: the leading digits of at most eight bytes. */
  function HexAt(mem: seq<byte>, at: nat): nat
    requires at <= |mem|
  {
    HexFrom(0, mem[at..if at + 8 <= |mem| then at + 8 else |mem|])
  }

  function Pow16(n: nat): (r: nat)
    ensures r >= 1
  {
    if n == 0 then 1 else 16 * Pow16(n - 1)
  }

  lemma {:induction false} HexFromAppend(r: nat, s: seq<byte>, c: byte)
    requires IsDigit(c) && forall i :: 0 <= i < |s| ==> IsDigit(s[i])
    ensures HexFrom(r, s + [c]) == 16 * HexFrom(r, s) + DigitValue(c)
    decreases s
  {
    if s == [] {
      assert HexFrom(16 * r + DigitValue(c), [c][1..]) == 16 * r + DigitValue(c);
    } else {
      assert (s + [c])[1..] == s[1..] + [c];
      HexFromAppend(16 * r + DigitValue(s[0]), s[1..], c);
    }
  }

  lemma {:induction false} HexDigits(x: int, n: nat, upper: bool)
    ensures forall i :: 0 <= i < n ==> IsDigit(Hex(x, n, upper)[i])
    decreases n
  {
    if n > 0 { HexDigits(x / 16, n - 1, upper); }
  }

  /** Reading the printed digits gives the number back, whatever their case. */
  lemma {:induction false} HexRoundTrip(x: nat, n: nat, upper: bool)
    requires x < Pow16(n)
    ensures HexFrom(0, Hex(x, n, upper)) == x
  {
    if n > 0 {
      HexRoundTrip(x / 16, n - 1, upper);
      HexDigits(x / 16, n - 1, upper);
      HexFromAppend(0, Hex(x / 16, n - 1, upper), DigitOf(x % 16, upper));
    }
  }

  /** Only the low digits of a number are printed. */
  lemma {:induction false} HexTruncates(x: int, y: int, n: nat, upper: bool)
    ensures Hex(x + y * Pow16(n), n, upper) == Hex(x, n, upper)
    decreases n
  {
    if n > 0 {
      var z := y * Pow16(n - 1);
      assert x + y * Pow16(n) == x + 16 * z;
      assert (x + 16 * z) / 16 == x / 16 + z && (x + 16 * z) % 16 == x % 16;
      HexTruncates(x / 16, y, n - 1, upper);
    }
  }

  /** `i32tox` then `xtoi32`: an `int32_t` comes back as the `uint32_t` with the same bits. */
  lemma Int32RoundTrip(x: int, upper: bool)
    requires -0x8000_0000 <= x < 0x8000_0000
    ensures HexFrom(0, Hex(x, 8, upper)) == if x >= 0 then x else U32 + x
  {
    Pow16Eight();
    if x < 0 {
      HexTruncates(x, 1, 8, upper);
      HexRoundTrip(x + U32, 8, upper);
    } else {
      HexRoundTrip(x, 8, upper);
    }
  }

  lemma Pow16Eight()
    ensures Pow16(8) == U32
  {
    assert Pow16(4) == 0x1_0000;
  }

  lemma {:induction false} Pow16Monotone(m: nat, n: nat)
    requires m <= n
    ensures Pow16(m) <= Pow16(n)
  {
    if m < n { Pow16Monotone(m, n - 1); }
  }

  lemma OrEven(a: nat, b: nat)
    ensures Or(2 * a, b) == b % 2 + 2 * Or(a, b / 2)
    ensures Or(a, 0) == a
  {
  }

  /** Or-ing a digit into four clear bits adds it. */
  lemma OrDigit(r: nat, d: nat)
    requires d < 16
    ensures Or(16 * r, d) == 16 * r + d
  {
    hide Or;
    OrEven(8 * r, d);
    OrEven(4 * r, d / 2);
    OrEven(2 * r, d / 4);
    OrEven(r, d / 8);
    OrEven(r, 0);
  }

  /** `_itox`: `n` digits and a NUL. `&` and `>>` of a negative number keep its two's complement bits. */
  method Itox(value: int, buf: array<byte>, n: nat)
    requires n < buf.Length
    modifies buf
    ensures buf[..n] == Hex(value, n, false) && buf[n] == 0
    ensures buf[n + 1..] == old(buf[n + 1..])
  {
    var x := value;
    for i := 0 to n
      invariant Hex(value, n, false) == Hex(x, n - i, false) + buf[n - i..n]
      invariant buf[n + 1..] == old(buf[n + 1..])
    {
      ghost var done := buf[n - i..n];
      buf[n - 1 - i] := DigitOf(x % 16, false);
      assert buf[n - 1 - i..n] == [DigitOf(x % 16, false)] + done;
      x := x / 16;
    }
    buf[n] := 0;
    assert buf[0..n] == buf[..n];
  }

  lemma HexStep(mem: seq<byte>, i: nat, end: nat, r: nat, n: nat)
    requires i < end <= |mem| && IsDigit(mem[i]) && r < Pow16(n)
    ensures HexFrom(r, mem[i..end]) == HexFrom(16 * r + DigitValue(mem[i]), mem[i + 1..end])
    ensures 16 * r + DigitValue(mem[i]) < Pow16(n + 1)
  {
    assert mem[i..end][1..] == mem[i + 1..end];
  }

  /** `xtoi32`; the byte after the eighth digit is read before the count is looked at. */
  method Xtoi32(mem: seq<byte>, at: nat) returns (result: nat)
    requires at + 8 < |mem| || exists k :: at <= k < |mem| && !IsDigit(mem[k])
    ensures result == HexAt(mem, at) && result < U32
  {
    hide Pow16, Or, DigitValue;
    Pow16Eight();
    Pow16Monotone(0, 8);
    result := 0;
    var i := 0;
    ghost var end := if at + 8 <= |mem| then at + 8 else |mem|;
    assert result < Pow16(0);
    while mem[at + i] != 0 && i < 8
      invariant i <= 8 && at + i < |mem|
      invariant forall k :: at <= k < at + i ==> IsDigit(mem[k])
      invariant HexAt(mem, at) == HexFrom(result, mem[at + i..end])
      invariant result < Pow16(i)
      decreases 8 - i
    {
      var c := mem[at + i];
      if !IsDigit(c) { break; }
      HexStep(mem, at + i, end, result, i);
      OrDigit(result, DigitValue(c));
      Pow16Monotone(i + 1, 8);
      result := Or((16 * result) % U32, DigitValue(c));
      i := i + 1;
    }
    Pow16Monotone(i, 8);
  }
}
