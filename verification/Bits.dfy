/** Unsigned 32-bit words seen as natural numbers, and the bit tricks of the allocator's bin maps. */
module Bits {

  const WORD: nat := 0x1_0000_0000


  function Pow2(n: nat): (r: nat)
    ensures r > 0
  {
    if n == 0 then 1 else 2 * Pow2(n - 1)
  }

  /** Bit i of x. */
  predicate Bit(x: nat, i: nat) {
    if i == 0 then x % 2 == 1 else Bit(x / 2, i - 1)
  }

  /** Bitwise conjunction. */
  function And(x: nat, y: nat): nat {
    if x == 0 || y == 0 then 0
    else 2 * And(x / 2, y / 2) + (if x % 2 == 1 && y % 2 == 1 then 1 else 0)
  }

  /** Bitwise disjunction. */
  function Or(x: nat, y: nat): nat
    decreases x + y
  {
    if x == 0 then y
    else if y == 0 then x
    else 2 * Or(x / 2, y / 2) + (if x % 2 == 1 || y % 2 == 1 then 1 else 0)
  }

  /** Unsigned negation of a word. */
  function Neg(x: nat): nat {
    if x % WORD == 0 then 0 else WORD - x % WORD
  }

  /** Bitwise complement of a word. */
  function Not(x: nat): nat
    requires x < WORD
  {
    WORD - 1 - x
  }

  /** Logical shift right. */
  function Shr(x: nat, s: nat): nat {
    if s == 0 then x else Shr(x / 2, s - 1)
  }

  /** Shift left, before truncation to a word. */
  function Shl(x: nat, s: nat): nat
    decreases s
  {
    if s == 0 then x else Shl(2 * x, s - 1)
  }

  // ----- masks -----

  lemma HalfMod(x: nat, p: nat)
    requires p > 0
    ensures x % (2 * p) == 2 * (x / 2 % p) + x % 2
  {
    var h := x / 2;
    var q, r := h / p, h % p;
    assert h == p * q + r;
    assert x == (2 * p) * q + (2 * r + x % 2);
    DivUnique(x, 2 * p, q, 2 * r + x % 2);
  }

  lemma {:induction false} AndHalves(x: nat, y: nat)
    ensures And(x, y) == 2 * And(x / 2, y / 2) + if x % 2 == 1 && y % 2 == 1 then 1 else 0
  {
  }

  /** Masking with one less than a power of 2 is the remainder. */
  lemma {:induction false} MaskLow(x: nat, k: nat)
    ensures And(x, Pow2(k) - 1) == x % Pow2(k)
    decreases k
  {
    if k > 0 {
      MaskLow(x / 2, k - 1);
      HalfMod(x, Pow2(k - 1));
      assert (Pow2(k) - 1) / 2 == Pow2(k - 1) - 1;
    }
  }

  lemma {:induction false} MaskEven(x: nat, y: nat)
    ensures And(x, 2 * y) == 2 * And(x / 2, y)
  {
    AndHalves(x, 2 * y);
  }

  /** Masking with the complement drops the remainder. */
  lemma {:induction false} MaskHigh(x: nat, n: nat, k: nat)
    requires k <= n && x < Pow2(n)
    ensures Pow2(k) <= Pow2(n) && And(x, Pow2(n) - Pow2(k)) == x - x % Pow2(k)
    decreases k
  {
    if k == 0 {
      MaskLow(x, n);
      assert x % Pow2(0) == 0;
      SmallMod(x, Pow2(n));
    } else {
      MaskHigh(x / 2, n - 1, k - 1);
      MaskEven(x, Pow2(n - 1) - Pow2(k - 1));
      DropHalves(x, Pow2(k - 1));
    }
  }

  lemma SmallMod(x: nat, d: nat)
    requires x < d
    ensures x % d == x
  {
  }

  lemma DropHalves(x: nat, q: nat)
    requires q > 0
    ensures 2 * (x / 2 - x / 2 % q) == x - x % (2 * q)
  {
    HalfMod(x, q);
  }

  // ----- elementary facts -----

  lemma ShlMul(x: nat, s: nat)
    ensures Shl(x, s) == x * Pow2(s)
    decreases s
  {
    if s > 0 {
      ShlMul(2 * x, s - 1);
      assert (2 * x) * Pow2(s - 1) == x * (2 * Pow2(s - 1));
    }
  }

  lemma Pow2Sum(a: nat, b: nat)
    ensures Pow2(a + b) == Pow2(a) * Pow2(b)
  {
    if a > 0 { Pow2Sum(a - 1, b); }
  }

  lemma Pow2Increasing(a: nat, b: nat)
    requires a < b
    ensures Pow2(a) < Pow2(b)
  {
    if a + 1 < b { Pow2Increasing(a, b - 1); }
  }

  lemma {:induction false} Pow2Word()
    ensures Pow2(32) == WORD
    ensures Pow2(31) == 0x8000_0000
    ensures Pow2(16) == 0x10000
    ensures Pow2(8) == 0x100
  {
    assert Pow2(4) == 16;
    Pow2Sum(4, 4);
    Pow2Sum(8, 8);
    Pow2Sum(16, 16);
  }

  lemma BitZero(i: nat)
    ensures !Bit(0, i)
  {
    if i > 0 { BitZero(i - 1); }
  }

  lemma {:induction false} BitAnd(x: nat, y: nat, i: nat)
    ensures Bit(And(x, y), i) == (Bit(x, i) && Bit(y, i))
  {
    if x == 0 || y == 0 {
      BitZero(i);
    } else if i > 0 {
      BitAnd(x / 2, y / 2, i - 1);
      assert And(x, y) / 2 == And(x / 2, y / 2);
    }
  }

  lemma {:induction false} BitOr(x: nat, y: nat, i: nat)
    ensures Bit(Or(x, y), i) == (Bit(x, i) || Bit(y, i))
  {
    if x == 0 || y == 0 {
      BitZero(i);
    } else if i > 0 {
      BitOr(x / 2, y / 2, i - 1);
      assert Or(x, y) / 2 == Or(x / 2, y / 2);
    }
  }

  lemma {:induction false} BitPow2(j: nat, i: nat)
    ensures Bit(Pow2(j), i) == (i == j)
  {
    if j == 0 {
      if i > 0 { BitZero(i - 1); }
    } else if i > 0 {
      BitPow2(j - 1, i - 1);
    }
  }

  lemma {:induction false} BitComplement(n: nat, x: nat, i: nat)
    requires x < Pow2(n)
    ensures Bit(Pow2(n) - 1 - x, i) == (i < n && !Bit(x, i))
  {
    if n == 0 {
      BitZero(i);
    } else if i > 0 {
      BitComplement(n - 1, x / 2, i - 1);
      assert (Pow2(n) - 1 - x) / 2 == Pow2(n - 1) - 1 - x / 2;
    }
  }

  lemma {:induction false} BitMinusPow2(n: nat, j: nat, i: nat)
    requires j < n
    ensures Pow2(j) < Pow2(n)
    ensures Bit(Pow2(n) - Pow2(j), i) == (j <= i < n)
  {
    Pow2Increasing(j, n);
    if j == 0 {
      BitComplement(n, 0, i);
      BitZero(i);
    } else if i > 0 {
      BitMinusPow2(n - 1, j - 1, i - 1);
      assert (Pow2(n) - Pow2(j)) / 2 == Pow2(n - 1) - Pow2(j - 1);
    }
  }

  lemma {:induction false} BitBound(x: nat, n: nat, i: nat)
    requires x < Pow2(n) && n <= i
    ensures !Bit(x, i)
  {
    if n == 0 {
      BitZero(i);
    } else {
      BitBound(x / 2, n - 1, i - 1);
    }
  }

  /** Two numbers with the same bits are the same number. */
  lemma {:induction false} BitExtensional(x: nat, y: nat)
    requires forall i: nat :: Bit(x, i) == Bit(y, i)
    ensures x == y
    decreases x + y
  {
    assert Bit(x, 0) == Bit(y, 0);
    if x > 0 || y > 0 {
      forall i: nat ensures Bit(x / 2, i) == Bit(y / 2, i) {
        assert Bit(x, i + 1) == Bit(y, i + 1);
      }
      BitExtensional(x / 2, y / 2);
    }
  }

  lemma BitShift(x: nat, s: nat, i: nat)
    ensures Bit(Shr(x, s), i) == Bit(x, s + i)
    decreases s
  {
    if s > 0 { BitShift(x / 2, s - 1, i); }
  }

  lemma OnesShift(r: nat, s: nat)
    requires s <= r
    ensures Shr(Pow2(r) - 1, s) == Pow2(r - s) - 1
    decreases s
  {
    if s > 0 { OnesShift(r - 1, s - 1); }
  }

  /** The bit below the leading one says which half of its octave a number lies in. */
  lemma {:induction false} SecondBit(x: nat, n: nat)
    requires Pow2(n + 1) <= x < Pow2(n + 2)
    ensures Bit(x, n) == (x >= Pow2(n + 1) + Pow2(n))
  {
    if n > 0 { SecondBit(x / 2, n - 1); }
  }

  lemma ScaledGap(d: nat, a: nat, b: nat)
    requires a < b
    ensures d * a + d <= d * b
  {
    if a + 1 < b {
      ScaledGap(d, a, b - 1);
      assert d * b == d * (b - 1) + d;
    }
  }

  /** Quotient and remainder are determined by the division equation. */
  lemma DivUnique(x: nat, d: nat, q: nat, r: nat)
    requires d > 0 && x == d * q + r && r < d
    ensures x / d == q && x % d == r
  {
    var q', r' := x / d, x % d;
    assert x == d * q' + r';
    if q < q' {
      ScaledGap(d, q, q');
    } else if q' < q {
      ScaledGap(d, q', q);
    }
  }

  lemma HalveThenDivide(x: nat, b: nat)
    requires b > 0
    ensures x / (2 * b) == (x / 2) / b
  {
    var q := x / 2;
    var r := q / b;
    assert q == b * r + q % b;
    assert 2 * (b * r) == (2 * b) * r;
    DivUnique(x, 2 * b, r, 2 * (q % b) + x % 2);
  }

  lemma ShrDiv(x: nat, s: nat)
    ensures Shr(x, s) == x / Pow2(s)
    decreases s
  {
    if s > 0 {
      ShrDiv(x / 2, s - 1);
      HalveThenDivide(x, Pow2(s - 1));
    }
  }

  // ----- bin maps -----

  /** The words used as bin maps hold 32 bits; Marked(m, i) is the test treemap_is_marked. */
  predicate Marked(m: nat, i: nat) {
    And(m, Pow2(i)) != 0
  }

  lemma {:induction false} AndPow2(x: nat, i: nat)
    ensures And(x, Pow2(i)) == if Bit(x, i) then Pow2(i) else 0
  {
    var y := if Bit(x, i) then Pow2(i) else 0;
    forall k: nat ensures Bit(And(x, Pow2(i)), k) == Bit(y, k) {
      BitAnd(x, Pow2(i), k);
      BitPow2(i, k);
      BitZero(k);
    }
    BitExtensional(And(x, Pow2(i)), y);
  }

  function Mark(m: nat, i: nat): nat {
    Or(m, Pow2(i))
  }

  function Clear(m: nat, i: nat): nat
    requires m < WORD && i < 32
  {
    Pow2Word();
    Pow2Increasing(i, 32);
    And(m, Not(Pow2(i)))
  }

  lemma OrBound(x: nat, y: nat, n: nat)
    requires x < Pow2(n) && y < Pow2(n)
    ensures Or(x, y) < Pow2(n)
  {
    if n > 0 && x > 0 && y > 0 { OrBound(x / 2, y / 2, n - 1); }
  }

  lemma AndBound(x: nat, y: nat)
    ensures And(x, y) <= x
  {
    if x > 0 && y > 0 { AndBound(x / 2, y / 2); }
  }

  /** Marking sets exactly one bit. */
  lemma {:induction false} MarkIsUpdate(m: nat, i: nat, j: nat)
    requires m < WORD && i < 32
    ensures Mark(m, i) < WORD
    ensures Marked(Mark(m, i), j) == (i == j || Marked(m, j))
  {
    Pow2Word();
    Pow2Increasing(i, 32);
    OrBound(m, Pow2(i), 32);
    AndPow2(m, j);
    AndPow2(Mark(m, i), j);
    BitOr(m, Pow2(i), j);
    BitPow2(i, j);
  }

  /** Clearing resets exactly one bit. */
  lemma {:induction false} ClearIsUpdate(m: nat, i: nat, j: nat)
    requires m < WORD && i < 32
    ensures Clear(m, i) < WORD
    ensures Marked(Clear(m, i), j) == (i != j && Marked(m, j))
  {
    Pow2Word();
    Pow2Increasing(i, 32);
    AndBound(m, Not(Pow2(i)));
    AndPow2(m, j);
    AndPow2(Clear(m, i), j);
    BitAnd(m, Not(Pow2(i)), j);
    BitComplement(32, Pow2(i), j);
    BitPow2(i, j);
    if j >= 32 { BitBound(m, 32, j); }
  }

  function LeastBit(x: nat): nat {
    And(x, Neg(x))
  }

  /** The index of the lowest set bit. */
  function Lowest(x: nat): (i: nat)
    requires x > 0
    ensures Bit(x, i)
    ensures forall k: nat :: k < i ==> !Bit(x, k)
  {
    if x % 2 == 1 then 0 else
      assert forall k: nat :: 0 < k < 1 + Lowest(x / 2) ==> Bit(x, k) == Bit(x / 2, k - 1);
      1 + Lowest(x / 2)
  }

  lemma {:induction false} AndComplement(n: nat, x: nat)
    requires x < Pow2(n)
    ensures And(x, Pow2(n) - 1 - x) == 0
  {
    var z := And(x, Pow2(n) - 1 - x);
    forall k: nat ensures Bit(z, k) == Bit(0, k) {
      BitAnd(x, Pow2(n) - 1 - x, k);
      BitComplement(n, x, k);
      BitZero(k);
    }
    BitExtensional(z, 0);
  }

  lemma {:induction false} LeastBitBelow(n: nat, x: nat)
    requires 0 < x < Pow2(n)
    ensures And(x, Pow2(n) - x) == Pow2(Lowest(x))
  {
    var y := Pow2(n) - x;
    if x % 2 == 1 {
      assert y / 2 == Pow2(n - 1) - 1 - x / 2;
      AndComplement(n - 1, x / 2);
    } else {
      LeastBitBelow(n - 1, x / 2);
      assert y / 2 == Pow2(n - 1) - x / 2;
    }
  }

  /** x & -x isolates the lowest set bit. */
  lemma {:induction false} LeastBitIsLowest(x: nat)
    requires 0 < x < WORD
    ensures LeastBit(x) == Pow2(Lowest(x)) && Lowest(x) < 32
  {
    Pow2Word();
    LeastBitBelow(32, x);
    if Lowest(x) >= 32 { BitBound(x, 32, Lowest(x)); }
  }

  /** (x << 1) | -(x << 1) on words. */
  function LeftBits(x: nat): nat {
    Or(2 * x % WORD, Neg(2 * x % WORD))
  }

  lemma {:induction false} Doubled(i: nat)
    requires i < 32
    ensures Pow2(32) == WORD
    ensures 2 * Pow2(i) % WORD == if i == 31 then 0 else Pow2(i + 1)
    ensures i < 31 ==> Pow2(i + 1) < WORD
  {
    Pow2Word();
    if i < 31 { Pow2Increasing(i + 1, 32); }
  }

  lemma {:induction false} LeftBitsBits(i: nat, k: nat)
    requires i < 32 && k < 32
    ensures Bit(LeftBits(Pow2(i)), k) == (i < k)
  {
    Doubled(i);
    if i == 31 {
      BitZero(k);
    } else {
      BitOr(Pow2(i + 1), WORD - Pow2(i + 1), k);
      BitPow2(i + 1, k);
      BitMinusPow2(32, i + 1, k);
    }
  }

  /** left_bits(idx2bit(i)) & m keeps exactly the marked bins above i. */
  lemma {:induction false} LeftBitsAbove(m: nat, i: nat, k: nat)
    requires m < WORD && i < 32
    ensures Marked(And(LeftBits(Pow2(i)), m), k) == (i < k && Marked(m, k))
    ensures And(LeftBits(Pow2(i)), m) < WORD
  {
    var left := LeftBits(Pow2(i));
    AndPow2(And(left, m), k);
    AndPow2(m, k);
    BitAnd(left, m, k);
    AndLower(left, m);
    if k < 32 {
      LeftBitsBits(i, k);
    } else {
      Pow2Word();
      BitBound(m, 32, k);
    }
  }

  lemma AndLower(x: nat, y: nat)
    ensures And(x, y) <= y
  {
    if x > 0 && y > 0 { AndLower(x / 2, y / 2); }
  }

  /** The narrowing steps of the portable compute_bit2idx, for widths 2^t, .., 2, 1:
      test bit 2^t of y, and shift it out if it is set. */
  function Narrow(y: nat, n: nat, t: nat): nat
    requires t <= Pow2(t)
    decreases t, y
  {
    var k := And(Shr(y, Pow2(t) - t), Pow2(t));
    if t == 0 then n + k + Shr(y, k) else
      ShiftFits(t - 1);
      Narrow(Shr(y, k), n + k, t - 1)
  }

  lemma ShiftFits(t: nat)
    ensures t < Pow2(t)
  {
  }

  /** The portable compute_bit2idx: five narrowing steps on x - 1. */
  function Bit2Idx(x: nat): nat {
    ShiftFits(4);
    Narrow((x + WORD - 1) % WORD, 0, 4)
  }

  lemma {:induction false} NarrowOnes(r: nat, n: nat, t: nat)
    requires r <= 2 * Pow2(t)
    ensures t < Pow2(t)
    ensures Narrow(Pow2(r) - 1, n, t) == n + r
    decreases t
  {
    ShiftFits(t);
    var y, s := Pow2(r) - 1, Pow2(t);
    var k := And(Shr(y, s - t), s);
    assert k == if r > s then s else 0 by {
      BitShift(y, s - t, t);
      AndPow2(Shr(y, s - t), t);
      BitComplement(r, 0, s);
      BitZero(s);
    }
    if r > s { OnesShift(r, s); }
    var r' := r - k;
    assert Shr(y, k) == Pow2(r') - 1;
    if t > 0 {
      ShiftFits(t - 1);
      NarrowOnes(r', n + k, t - 1);
    }
  }

  lemma {:induction false} OneLess(j: nat)
    requires j < 32
    ensures (Pow2(j) + WORD - 1) % WORD == Pow2(j) - 1
  {
    Pow2Word();
    Pow2Increasing(j, 32);
  }

  /** On a power of two the narrowing steps compute its exponent. */
  lemma {:induction false} Bit2IdxExact(j: nat)
    requires j < 32
    ensures Bit2Idx(Pow2(j)) == j
  {
    OneLess(j);
    NarrowOnes(j, 0, 4);
  }

  /** compute_bit2idx(least_bit(x)) is the lowest set bin of a non-empty map. */
  lemma {:induction false} FirstMarked(x: nat)
    requires 0 < x < WORD
    ensures var i := Bit2Idx(LeastBit(x)); i < 32 && Marked(x, i) && forall k: nat :: k < i ==> !Marked(x, k)
  {
    LeastBitIsLowest(x);
    Bit2IdxExact(Lowest(x));
    AndPow2(x, Lowest(x));
    forall k: nat | k < Lowest(x) ensures !Marked(x, k) { AndPow2(x, k); }
  }

  lemma NoneMarked(k: nat)
    ensures !Marked(0, k)
  {
  }
}
