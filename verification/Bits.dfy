/**
 Bitwise operators of the C source on unbounded naturals, and the powers of two that
 `<<` and the page and table sizes are made of.
 */
module Bits {
  /** Addresses and sizes are 64 bits wide. */
  const WORD: nat := 0x1_0000_0000_0000_0000

  /** `1 << k` */
  function Pow2(k: nat): (r: nat)
    ensures r >= 1
  {
    if k == 0 then 1 else 2 * Pow2(k - 1)
  }

  /** `a ^ b` */
  function Xor(a: nat, b: nat): nat {
    if a == 0 then b
    else if b == 0 then a
    else (a % 2 + b % 2) % 2 + 2 * Xor(a / 2, b / 2)
  }

  /** `a | b` */
  function Or(a: nat, b: nat): nat {
    if a == 0 then b
    else if b == 0 then a
    else (if a % 2 == 1 || b % 2 == 1 then 1 else 0) + 2 * Or(a / 2, b / 2)
  }

  /** Division by its defining property. */
  lemma Quotient(x: nat, m: nat, q: nat, r: nat)
    requires x == m * q + r && r < m
    ensures x / m == q && x % m == r
  {
    var d := x / m;
    assert x == m * d + x % m;
    if q < d { NextMultiple(m, q, d); }
    if d < q { NextMultiple(m, d, q); }
  }

  lemma NextMultiple(m: nat, a: nat, b: nat)
    requires a < b
    ensures m * a + m <= m * b
  {
    var d := b - a - 1;
    assert m * b == m * (a + 1 + d) == m * (a + 1) + m * d;
  }

  /** `i` with its low `k` bits cleared. */
  function Down(i: nat, k: nat): nat {
    if k == 0 then i else 2 * Down(i / 2, k - 1)
  }

  /** The low `k` bits of `i` are clear. */
  predicate Aligned(i: nat, k: nat) {
    Down(i, k) == i
  }

  lemma {:induction false} Pow2Monotone(j: nat, k: nat)
    requires j <= k
    ensures Pow2(j) <= Pow2(k)
  {
    if j < k { Pow2Monotone(j, k - 1); }
  }

  lemma Pow2Values()
    ensures Pow2(9) == 0x200 && Pow2(12) == 0x1000 && Pow2(19) == 0x8_0000 && Pow2(21) == 0x20_0000
    ensures Pow2(30) == 0x4000_0000 && Pow2(51) == 0x8_0000_0000_0000
  {
    assert Pow2(5) == 0x20 && Pow2(9) == 0x200 && Pow2(12) == 0x1000 && Pow2(16) == 0x1_0000;
    assert Pow2(19) == 0x8_0000 && Pow2(21) == 0x20_0000 && Pow2(25) == 0x200_0000 && Pow2(30) == 0x4000_0000;
    assert Pow2(35) == 0x8_0000_0000 && Pow2(40) == 0x100_0000_0000 && Pow2(45) == 0x2000_0000_0000;
    assert Pow2(48) == 0x1_0000_0000_0000 && Pow2(51) == 0x8_0000_0000_0000;
  }

  lemma {:induction false} DownBounds(i: nat, k: nat)
    ensures Down(i, k) <= i < Down(i, k) + Pow2(k)
  {
    if k > 0 { DownBounds(i / 2, k - 1); }
  }

  /** Clearing `j` low bits and then `k` more, in either order, clears the larger number of them. */
  lemma {:induction false} DownDown(i: nat, j: nat, k: nat)
    requires j <= k
    ensures Down(Down(i, j), k) == Down(i, k)
    ensures Down(Down(i, k), j) == Down(i, k)
  {
    if j > 0 { DownDown(i / 2, j - 1, k - 1); }
  }

  /** An aligned block contains exactly the numbers that clear down to its start. */
  lemma {:induction false} DownUnique(s: nat, k: nat, p: nat)
    requires Aligned(s, k)
    ensures s <= p < s + Pow2(k) <==> Down(p, k) == s
  {
    if k > 0 {
      assert Aligned(s / 2, k - 1);
      DownUnique(s / 2, k - 1, p / 2);
    }
  }

  lemma {:induction false} AlignedNext(s: nat, k: nat)
    requires Aligned(s, k)
    ensures Aligned(s + Pow2(k), k)
  {
    if k > 0 {
      assert (s + Pow2(k)) / 2 == s / 2 + Pow2(k - 1);
      AlignedNext(s / 2, k - 1);
    }
  }

  /** A multiple of `1 << k` is aligned to `k` bits. */
  lemma {:induction false} AlignedMultiple(n: nat, k: nat)
    ensures Aligned(Pow2(k) * n, k)
  {
    if k > 0 {
      AlignedMultiple(n, k - 1);
      DoubleProduct(Pow2(k - 1), n);
    }
  }

  /** The two halves of an aligned block are aligned blocks of half the size. */
  lemma {:induction false} AlignedHalves(s: nat, k: nat)
    requires Aligned(s, k + 1)
    ensures Aligned(s, k) && Aligned(s + Pow2(k), k) && !Aligned(s + Pow2(k), k + 1)
  {
    if k > 0 {
      assert s % 2 == 0 && Pow2(k) == 2 * Pow2(k - 1);
      assert Aligned(s / 2, k) by { assert Down(s, k + 1) == 2 * Down(s / 2, k); }
      AlignedHalves(s / 2, k - 1);
      assert (s + Pow2(k)) / 2 == s / 2 + Pow2(k - 1);
    }
  }

  /** Every aligned block is the lower or the upper half of the aligned block of twice its size. */
  lemma {:induction false} AlignedParent(s: nat, k: nat)
    requires Aligned(s, k)
    ensures Aligned(Down(s, k + 1), k + 1)
    ensures s == Down(s, k + 1) || s == Down(s, k + 1) + Pow2(k)
  {
    DownDown(s, k + 1, k + 1);
    if k > 0 { AlignedParent(s / 2, k - 1); }
  }

  /** XOR with `1 << k` flips bit `k` alone. */
  lemma {:induction false} XorFlips(i: nat, k: nat)
    requires Aligned(i, k)
    ensures Xor(i, Pow2(k)) == if Aligned(i, k + 1) then i + Pow2(k) else i - Pow2(k)
    ensures !Aligned(i, k + 1) ==> i >= Pow2(k)
  {
    AlignedParent(i, k);
    if k == 0 {
      assert Pow2(0) == 1 && Xor(i / 2, 0) == i / 2;
    } else if i == 0 {
    } else {
      assert Aligned(i / 2, k - 1);
      XorFlips(i / 2, k - 1);
      assert Pow2(k) / 2 == Pow2(k - 1) && Pow2(k) % 2 == 0;
      assert Xor(i, Pow2(k)) == i % 2 + 2 * Xor(i / 2, Pow2(k - 1));
    }
  }

  lemma {:induction false} XorScale(a: nat, b: nat, k: nat)
    ensures Xor(Pow2(k) * a, Pow2(k) * b) == Pow2(k) * Xor(a, b)
  {
    hide Xor;
    if k == 0 {
      assert Pow2(0) * a == a && Pow2(0) * b == b;
    } else {
      XorScale(a, b, k - 1);
      XorScaleTwice(a, b, Pow2(k - 1));
    }
  }

  lemma XorScaleTwice(a: nat, b: nat, p: nat)
    requires Xor(p * a, p * b) == p * Xor(a, b)
    ensures Xor((2 * p) * a, (2 * p) * b) == (2 * p) * Xor(a, b)
  {
    hide Xor;
    XorDouble(p * a, p * b);
    DoubleProduct(p, a);
    DoubleProduct(p, b);
    DoubleProduct(p, Xor(a, b));
  }

  lemma XorDouble(x: nat, y: nat)
    ensures Xor(2 * x, 2 * y) == 2 * Xor(x, y)
  {
  }

  lemma DoubleProduct(p: nat, a: nat)
    ensures (2 * p) * a == 2 * (p * a)
  {
  }
}
