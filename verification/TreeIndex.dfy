/** Index macros of the allocator's tree bins (portable branch): which bin a size belongs to,
    the least size of a bin, and the shifted key that drives the walk down a bin's trie. */
module TreeIndex {
  import opened Bits

  const NTREEBINS: nat := 32
  const TREEBIN_SHIFT: nat := 8
  const MIN_LARGE_SIZE: nat := 256

  /** (a - b) on unsigned words. */
  function Minus(a: nat, b: nat): nat {
    (a + WORD - b % WORD) % WORD
  }

  /** The constants of the three normalising steps of compute_tree_index, counted down from 3. */
  function StepBound(t: nat): nat {
    if t == 3 then 0x100 else if t == 2 then 0x1000 else 0x4000
  }

  function StepBit(t: nat): nat {
    if t == 3 then 3 else if t == 2 then 2 else 1
  }

  function StepWidth(t: nat): nat {
    if t == 3 then 8 else if t == 2 then 4 else 2
  }

  /** (y - bound) >> 16 & width, where masking with a one-bit constant is a bit test. */
  function StepShift(y: nat, t: nat): nat {
    if Bit(Minus(y, StepBound(t)), 16 + StepBit(t)) then StepWidth(t) else 0
  }

  /** Each step shifts y up by the width it found; at the end bit 15 of y refines
      the shift count n into the position of the leading one. */
  function Normalise(y: nat, n: nat, t: nat): int
    decreases t, y
  {
    if t == 0 then 14 - n + Shr(y, 15) else
      var k := StepShift(y, t);
      Normalise(Shl(y, k) % WORD, n + k, t - 1)
  }

  /** The position of the leading one of x. */
  function LeadingBit(x: nat): int {
    Normalise(x, 0, 3)
  }

  /** compute_tree_index. */
  function TreeBin(size: nat): nat
    requires size < WORD
  {
    var x := Shr(size, TREEBIN_SHIFT);
    if x == 0 then 0
    else if x > 0xFFFF then NTREEBINS - 1
    else
      LeadingBitExact(x);
      var k := LeadingBit(x);
      2 * k + (if Bit(size, k + (TREEBIN_SHIFT - 1)) then 1 else 0)
  }

  /** minsize_for_tree_index. */
  function MinSize(i: nat): nat {
    Pow2(i / 2 + TREEBIN_SHIFT) + (if i % 2 == 1 then Pow2(i / 2 + TREEBIN_SHIFT - 1) else 0)
  }

  /** leftshift_for_tree_index. */
  function LeftShift(i: nat): nat
    requires i < NTREEBINS
  {
    if i == NTREEBINS - 1 then 0 else 31 - (i / 2 + TREEBIN_SHIFT - 2)
  }

  // ----- the index function agrees with the table of least sizes -----

  /** The subtraction borrows exactly when y is smaller, and a borrow sets the bits above 16. */
  lemma {:induction false} StepTests(y: nat, t: nat)
    requires 0 < t <= 3 && y < 0x10000
    ensures StepShift(y, t) == if y < StepBound(t) then StepWidth(t) else 0
  {
    var d, i := Minus(y, StepBound(t)), 16 + StepBit(t);
    Pow2Word();
    if y < StepBound(t) {
      var c := WORD - 1 - d;
      BitComplement(32, c, i);
      BitBound(c, 16, i);
    } else {
      BitBound(d, 16, i);
    }
  }

  /** The leading one of y is at position p. */
  ghost predicate Leads(y: nat, p: int) {
    p >= 0 && Pow2(p) <= y < Pow2(p + 1)
  }

  /** What is known of y before step t. */
  function Floor(t: nat): nat {
    if t >= 3 then 1 else StepBound(t + 1)
  }

  lemma {:induction false} NormaliseExact(y: nat, n: nat, t: nat)
    requires t <= 3 && Floor(t) <= y < 0x10000
    ensures Leads(y, Normalise(y, n, t) + n)
    decreases t
  {
    if t == 0 {
      LastStep(y, n);
    } else {
      var k, z := StepFacts(y, n, t);
      NormaliseExact(z, n + k, t - 1);
      ShiftBack(y, k, Normalise(z, n + k, t - 1) + n + k);
    }
  }

  lemma {:induction false} StepFacts(y: nat, n: nat, t: nat) returns (k: nat, z: nat)
    requires 0 < t <= 3 && Floor(t) <= y < 0x10000
    ensures z == Shl(y, k) && Floor(t - 1) <= z < 0x10000
    ensures Normalise(y, n, t) == Normalise(z, n + k, t - 1)
  {
    k := StepShift(y, t);
    z := Shl(y, k);
    StepTests(y, t);
    StepScale(y, k);
    SmallMod(z, WORD);
  }

  lemma {:induction false} StepScale(y: nat, k: nat)
    requires k == 0 || k == 2 || k == 4 || k == 8
    ensures Shl(y, k) == (if k == 0 then 1 else if k == 2 then 4 else if k == 4 then 16 else 256) * y
  {
    ShlMul(y, k);
    assert Pow2(0) == 1 && Pow2(2) == 4 && Pow2(4) == 16 && Pow2(8) == 256;
  }

  lemma {:induction false} ShiftBack(y: nat, k: nat, q: int)
    requires 0 < y && Leads(Shl(y, k), q)
    ensures Leads(y, q - k)
    decreases k
  {
    if k > 0 {
      ShiftBack(2 * y, k - 1, q);
    }
  }

  lemma {:induction false} LastStep(y: nat, n: nat)
    requires 0x4000 <= y < 0x10000
    ensures Leads(y, Normalise(y, n, 0) + n)
  {
    Pow2Word();
    assert Pow2(14) == 0x4000 && Pow2(15) == 0x8000;
    ShrDiv(y, 15);
  }

  lemma Pow2NotAbove(a: nat, b: nat)
    requires a <= b
    ensures Pow2(a) <= Pow2(b)
  {
    if a < b { Pow2Increasing(a, b); }
  }

  lemma {:induction false} LeadingBitExact(x: nat)
    requires 0 < x <= 0xFFFF
    ensures Leads(x, LeadingBit(x)) && LeadingBit(x) < 16
  {
    NormaliseExact(x, 0, 3);
    if LeadingBit(x) >= 16 {
      Pow2NotAbove(16, LeadingBit(x));
      Pow2Word();
    }
  }

  lemma MulMonotone(p: nat, q: nat, d: nat)
    requires p <= q
    ensures p * d <= q * d
  {
  }

  lemma MulStrict(p: nat, q: nat, d: nat)
    requires p < q && d > 0
    ensures p * d < q * d
  {
    MulMonotone(p + 1, q, d);
    assert (p + 1) * d == p * d + d;
  }

  /** Every large size lies in the range of the bin that compute_tree_index gives it. */
  lemma {:induction false} TreeBinRange(size: nat)
    requires MIN_LARGE_SIZE <= size < WORD
    ensures TreeBin(size) < NTREEBINS
    ensures MinSize(TreeBin(size)) <= size
    ensures TreeBin(size) < NTREEBINS - 1 ==> size < MinSize(TreeBin(size) + 1)
  {
    var x := Shr(size, 8);
    ShrDiv(size, 8);
    Pow2Word();
    assert x == size / 256;
    if x > 0xFFFF {
      LastBinLow();
    } else {
      LeadingBitExact(x);
      MiddleRange(size, x, LeadingBit(x));
    }
  }

  lemma {:induction false} MiddleRange(size: nat, x: nat, k: nat)
    requires x == size / 256 && Pow2(k) <= x < Pow2(k + 1)
    ensures var i := 2 * k + (if Bit(size, k + 7) then 1 else 0); MinSize(i) <= size < MinSize(i + 1)
  {
    ByteRange(x, size, Pow2(k));
    Times256(k);
    Times256(k + 1);
    SecondBit(size, k + 7);
    HalfIndex(k, if Bit(size, k + 7) then 1 else 0);
  }

  lemma {:induction false} Times256(k: nat)
    ensures Pow2(k + 8) == 256 * Pow2(k)
  {
    Pow2Sum(k, 8);
    assert Pow2(8) == 256 by { Pow2Word(); }
  }

  lemma LastBinLow()
    ensures MinSize(31) == 0xC0_0000
  {
    Pow2Word();
    Pow2Sum(16, 6);
    assert Pow2(6) == 64;
    assert Pow2(23) == 2 * Pow2(22);
  }

  lemma {:induction false} HalfIndex(k: nat, h: nat)
    requires h <= 1
    ensures MinSize(2 * k + h) == if h == 0 then Pow2(k + 8) else Pow2(k + 8) + Pow2(k + 7)
    ensures MinSize(2 * k + h + 1) == if h == 0 then Pow2(k + 8) + Pow2(k + 7) else Pow2(k + 9)
  {
    var i := 2 * k + h;
    assert i / 2 == k && i % 2 == h;
    assert MinSize(i) == Pow2(k + 8) + (if h == 1 then Pow2(k + 7) else 0);
    var j := 2 * k + h + 1;
    assert j / 2 == k + h && j % 2 == 1 - h;
    assert MinSize(j) == Pow2(k + h + 8) + (if h == 0 then Pow2(k + 7) else 0);
  }

  lemma {:induction false} ByteRange(x: nat, size: nat, p: nat)
    requires x == size / 256 && p <= x < 2 * p
    ensures 256 * p <= size < 512 * p
  {
  }

  lemma MinSizeMonotone(i: nat, j: nat)
    requires i < j
    ensures MinSize(i) < MinSize(j)
    decreases j
  {
    if j == i + 1 {
      HalfIndex(i / 2, i % 2);
      assert Pow2(i / 2 + 9) == 2 * Pow2(i / 2 + 8) && Pow2(i / 2 + 8) == 2 * Pow2(i / 2 + 7);
    } else {
      MinSizeMonotone(i, j - 1);
      HalfIndex((j - 1) / 2, (j - 1) % 2);
      assert Pow2((j - 1) / 2 + 9) == 2 * Pow2((j - 1) / 2 + 8);
      assert Pow2((j - 1) / 2 + 8) == 2 * Pow2((j - 1) / 2 + 7);
    }
  }

  /** compute_tree_index is the only index whose size range contains the size. */
  lemma {:induction false} TreeBinUnique(size: nat, i: nat)
    requires InBin(size, i)
    ensures i == TreeBin(size)
  {
    var b := TreeBin(size);
    TreeBinRange(size);
    if i < b {
      if i + 1 < b { MinSizeMonotone(i + 1, b); }
    } else if b < i {
      if b + 1 < i { MinSizeMonotone(b + 1, i); }
    }
  }

  /** Smaller sizes live in smaller bins. */
  lemma {:induction false} TreeBinMonotone(s: nat, t: nat)
    requires MIN_LARGE_SIZE <= s <= t < WORD
    ensures TreeBin(s) <= TreeBin(t)
  {
    TreeBinRange(s);
    TreeBinRange(t);
    if TreeBin(t) < TreeBin(s) {
      if TreeBin(t) + 1 < TreeBin(s) { MinSizeMonotone(TreeBin(t) + 1, TreeBin(s)); }
    }
  }

  // ----- the key that drives a walk -----

  /** Number of size bits a bin resolves. */
  function BinBits(i: nat): nat {
    if i >= NTREEBINS - 1 then 32 else i / 2 + TREEBIN_SHIFT - 1
  }

  /** Least size of the range that a bin's trie splits. */
  function BinLow(i: nat): nat {
    if i >= NTREEBINS - 1 then 0 else MinSize(i)
  }

  /** The sizes of bin i. */
  ghost predicate InBin(size: nat, i: nat) {
    && i < NTREEBINS && MIN_LARGE_SIZE <= size < WORD
    && MinSize(i) <= size && (i < NTREEBINS - 1 ==> size < MinSize(i + 1))
  }

  lemma {:induction false} BinIsRange(size: nat, i: nat)
    requires MIN_LARGE_SIZE <= size < WORD && i == TreeBin(size)
    ensures InBin(size, i) && BinLow(i) <= size < BinLow(i) + Pow2(BinBits(i))
  {
    TreeBinRange(size);
    if i == NTREEBINS - 1 {
      Pow2Word();
    } else {
      HalfIndex(i / 2, i % 2);
      assert Pow2(i / 2 + 9) == 2 * Pow2(i / 2 + 8) && Pow2(i / 2 + 8) == 2 * Pow2(i / 2 + 7);
    }
  }

  /** Key(size, lo, k): what is left of size << leftshift after descending to the range [lo, lo + 2^k). */
  ghost predicate IsKey(key: nat, size: nat, lo: nat, k: nat) {
    && k <= 32
    && lo <= size < lo + Pow2(k)
    && key == (size - lo) * Pow2(32 - k)
  }

  lemma {:induction false} KeyStart(size: nat, i: nat)
    requires InBin(size, i) && BinLow(i) <= size < BinLow(i) + Pow2(BinBits(i))
    ensures IsKey(Shl(size, LeftShift(i)) % WORD, size, BinLow(i), BinBits(i))
  {
    Pow2Word();
    ShlMul(size, LeftShift(i));
    if i < NTREEBINS - 1 {
      var k := BinBits(i);
      assert LeftShift(i) == 32 - k;
      var c := if i % 2 == 1 then 3 else 2;
      assert BinLow(i) == c * Pow2(k) by { assert Pow2(k + 1) == 2 * Pow2(k); }
      Pow2Sum(k, 32 - k);
      KeyBelowWord(size, BinLow(i), k);
      DropMultiple(size, c, Pow2(k), Pow2(32 - k), BinLow(i));
    }
  }

  /** Multiples of the range width vanish when the size is shifted to the top of a word. */
  lemma DropMultiple(size: nat, c: nat, w: nat, m: nat, lo: nat)
    requires lo == c * w && w * m == WORD && lo <= size && (size - lo) * m < WORD
    ensures size * m % WORD == (size - lo) * m
  {
    assert lo * m == c * (w * m);
    Distribute(size, lo, m);
    DivUnique(size * m, WORD, c, (size - lo) * m);
  }

  lemma Distribute(a: nat, b: nat, m: nat)
    requires b <= a
    ensures (a - b) * m == a * m - b * m
  {
  }

  lemma KeyBelowWord(size: nat, lo: nat, k: nat)
    requires k <= 32 && lo <= size < lo + Pow2(k)
    ensures (size - lo) * Pow2(32 - k) < WORD
  {
    Pow2Sum(k, 32 - k);
    Pow2Word();
    MulStrict(size - lo, Pow2(k), Pow2(32 - k));
  }

  /** The top bit of the key selects the half of the range that holds the size,
      and shifting the key left gives the key for that half. */
  lemma {:induction false} KeyStep(key: nat, size: nat, lo: nat, k: nat)
    requires IsKey(key, size, lo, k) && k > 0
    ensures Shr(key, 31) == if size >= lo + Pow2(k - 1) then 1 else 0
    ensures IsKey(2 * key % WORD, size, if size >= lo + Pow2(k - 1) then lo + Pow2(k - 1) else lo, k - 1)
  {
    Pow2Word();
    ShrDiv(key, 31);
    Pow2Sum(k - 1, 32 - k);
    assert (k - 1) + (32 - k) == 31;
    KeyBelowWord(size, lo, k);
    assert Pow2(32 - (k - 1)) == 2 * Pow2(32 - k);
    KeyHalves(key, size - lo, Pow2(k - 1), Pow2(32 - k));
  }

  lemma KeyHalves(key: nat, d: nat, h: nat, m: nat)
    requires m > 0 && h * m == 0x8000_0000 && key == d * m && key < WORD
    ensures key / 0x8000_0000 == if d >= h then 1 else 0
    ensures 2 * key % WORD == (if d >= h then d - h else d) * (2 * m)
  {
    if d >= h {
      MulMonotone(h, d, m);
      Distribute(d, h, m);
    } else {
      MulStrict(d, h, m);
    }
  }
}
