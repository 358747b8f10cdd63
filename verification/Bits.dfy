/** Bitwise operators of C on unsigned 32-bit words, defined bit by bit, and what the
    masks used by the kernel mean arithmetically. */
module Bits {
  const WORD: nat := 0x1_0000_0000

  function Pow2(k: nat): (p: nat)
    ensures p > 0
  {
    if k == 0 then 1 else 2 * Pow2(k - 1)
  }

  /** The C operator `&`. */
  function And(x: nat, y: nat): nat
    decreases x
  {
    if x == 0 then 0 else x % 2 * (y % 2) + 2 * And(x / 2, y / 2)
  }

  /** The C operator `|`. */
  function Or(x: nat, y: nat): nat
    decreases x + y
  {
    if x == 0 && y == 0 then 0
    else (if x % 2 == 1 || y % 2 == 1 then 1 else 0) + 2 * Or(x / 2, y / 2)
  }

  /** The C operator `~` on a 32-bit word. */
  function Not32(x: nat): nat
    requires x < WORD
  {
    WORD - 1 - x
  }

  /** Unsigned 32-bit addition, which wraps. */
  function Add32(x: nat, y: nat): nat {
    (x + y) % WORD
  }

  /** The inline function `align_up` of heap.c. */
  function AlignUp(n: nat, align: nat): nat
    requires 0 < align < WORD
  {
    And(Add32(n, align - 1), Not32(align - 1))
  }

  lemma AndStep(x: nat, b: nat, y: nat, c: nat)
    requires b < 2 && c < 2
    ensures And(2 * x + b, 2 * y + c) == b * c + 2 * And(x, y)
  {
    assert (2 * x + b) / 2 == x && (2 * x + b) % 2 == b;
    assert (2 * y + c) / 2 == y && (2 * y + c) % 2 == c;
  }

  lemma {:induction false} AndZero(x: nat)
    ensures And(x, 0) == 0
  {
    if x > 0 { AndZero(x / 2); }
  }

  /** A mask of `k` low ones keeps the remainder modulo 2^k. */
  lemma {:induction false} AndLowMask(q: nat, r: nat, k: nat)
    requires r < Pow2(k)
    ensures q * Pow2(k) + r >= 0 && And(q * Pow2(k) + r, Pow2(k) - 1) == r
    decreases k
  {
    if k == 0 {
      AndZero(q);
    } else {
      var p := Pow2(k - 1);
      AndLowMask(q, r / 2, k - 1);
      Double(q, p);
      AndStep(q * p + r / 2, r % 2, p - 1, 1);
    }
  }

  lemma Double(q: nat, p: nat)
    ensures q * (2 * p) == 2 * (q * p) && q * p >= 0
  {
  }

  /** A mask of ones from bit `k` up to bit `n` clears the remainder modulo 2^k. */
  lemma {:induction false} AndHighMask(q: nat, r: nat, k: nat, n: nat)
    requires k <= n && r < Pow2(k) && q < Pow2(n - k)
    ensures Pow2(k) <= Pow2(n) && q * Pow2(k) + r >= 0
    ensures And(q * Pow2(k) + r, Pow2(n) - Pow2(k)) == q * Pow2(k)
    decreases k
  {
    if k == 0 {
      AndLowMask(0, q, n);
    } else {
      var p := Pow2(k - 1);
      assert Pow2(n) == 2 * Pow2(n - 1);
      AndHighMask(q, r / 2, k - 1, n - 1);
      Double(q, p);
      AndStep(q * p + r / 2, r % 2, Pow2(n - 1) - p, 0);
    }
  }

  lemma {:induction false} PowSplit(a: nat, b: nat)
    ensures Pow2(a + b) == Pow2(a) * Pow2(b)
  {
    if a > 0 {
      PowSplit(a - 1, b);
      var x, y := Pow2(a - 1), Pow2(b);
      assert 2 * (x * y) == (2 * x) * y;
    }
  }

  /** `x & ~(2^k - 1)` rounds a 32-bit word down to a multiple of 2^k. */
  lemma ClearLow(x: nat, k: nat, p: nat, n: nat)
    requires p == Pow2(k) && Pow2(k + n) == WORD && x < WORD
    ensures p <= WORD && And(x, Not32(p - 1)) == x - x % p
  {
    hide And;
    var q, r := x / p, x % p;
    DivModLaw(x, p);
    PowSplit(k, n);
    QuotientBound(q, r, p, Pow2(n));
    AndHighMask(q, r, k, k + n);
    assert Not32(p - 1) == Pow2(k + n) - p;
  }

  lemma QuotientBound(q: nat, r: nat, p: nat, m: nat)
    requires q * p + r < p * m
    ensures q < m
  {
    MulMono(m, q, p);
  }

  lemma MulMono(a: nat, b: nat, p: nat)
    ensures a <= b ==> p * a <= p * b
  {
    if a <= b {
      assert p * b == p * a + p * (b - a);
    }
  }

  /** `x & (2^k - 1)` is the remainder modulo 2^k. */
  lemma KeepLow(x: nat, k: nat, p: nat)
    requires p == Pow2(k)
    ensures And(x, p - 1) == x % p
  {
    hide And;
    DivModLaw(x, p);
    AndLowMask(x / p, x % p, k);
  }

  lemma DivModLaw(x: nat, p: nat)
    requires p > 0
    ensures x == x / p * p + x % p && 0 <= x % p < p && 0 <= x / p
  {
  }

  lemma Powers()
    ensures Pow2(1) == 2 && Pow2(3) == 8 && Pow2(10) == 1024 && Pow2(12) == 4096
    ensures Pow2(22) == 0x40_0000 && Pow2(32) == WORD
  {
    assert Pow2(4) == 16;
    PowSplit(4, 4);
    PowSplit(8, 2);
    PowSplit(8, 4);
    PowSplit(12, 10);
    PowSplit(22, 10);
  }

  lemma OrStep(x: nat, b: nat, y: nat, c: nat)
    requires b < 2 && c < 2
    ensures Or(2 * x + b, 2 * y + c) == (if b == 1 || c == 1 then 1 else 0) + 2 * Or(x, y)
  {
    assert (2 * x + b) / 2 == x && (2 * x + b) % 2 == b;
    assert (2 * y + c) / 2 == y && (2 * y + c) % 2 == c;
  }

  lemma {:induction false} OrZero(x: nat)
    ensures Or(x, 0) == x
  {
    if x > 0 { OrZero(x / 2); }
  }

  /** What `align_up` computes for a power of two: the least multiple that is at least
      `n`, except for the last `align - 1` words, where the addition wraps and it yields 0. */
  lemma AlignUpMeaning(n: nat, k: nat, align: nat, m: nat)
    requires align == Pow2(k) && Pow2(k + m) == WORD && n < WORD && align < WORD
    ensures AlignUp(n, align) % align == 0
    ensures n <= WORD - align ==> n <= AlignUp(n, align) < n + align
    ensures n > WORD - align ==> AlignUp(n, align) == 0
  {
    hide And, Pow2;
    var x := Add32(n, align - 1);
    PowPositive(k);
    ClearLow(x, k, align, m);
    MultipleBelow(x, align);
    SumWraps(n, align);
    RemainderBelow(x, align);
  }

  lemma PowPositive(k: nat)
    ensures Pow2(k) > 0
  {
  }

  lemma SumWraps(n: nat, align: nat)
    requires n < WORD && 0 < align < WORD
    ensures n <= WORD - align ==> Add32(n, align - 1) == n + (align - 1)
    ensures n > WORD - align ==> Add32(n, align - 1) == n + (align - 1) - WORD < align
  {
  }

  lemma RemainderBelow(x: nat, p: nat)
    requires p > 0
    ensures 0 <= x % p < p
  {
  }

  lemma MultipleBelow(x: nat, p: nat)
    requires p > 0
    ensures (x - x % p) % p == 0
    ensures x < p ==> x % p == x
  {
    var q := x / p;
    assert x == p * q + x % p;
    MultipleMod(q, p);
  }

  lemma MultipleMod(q: nat, p: nat)
    requires p > 0
    ensures p * q % p == 0
  {
    var r, d := p * q % p, p * q / p;
    assert p * q == p * d + r;
    MulMono(q + 1, d, p);
    MulMono(d + 1, q, p);
    assert p * (d + 1) == p * d + p && p * (q + 1) == p * q + p;
  }

  lemma AlignUp8(n: nat)
    requires n < WORD
    ensures AlignUp(n, 8) % 8 == 0
    ensures n <= WORD - 8 ==> n <= AlignUp(n, 8) < n + 8
    ensures n > WORD - 8 ==> AlignUp(n, 8) == 0
  {
    Powers();
    AlignUpMeaning(n, 3, 8, 29);
  }

  lemma AlignUpPage(n: nat)
    requires n <= WORD - 4096
    ensures AlignUp(n, 4096) % 4096 == 0 && n <= AlignUp(n, 4096) < n + 4096
  {
    Powers();
    AlignUpMeaning(n, 12, 4096, 20);
  }
}
