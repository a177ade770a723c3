/** The alignments of internal_memalign. */
module Alignment {
  import opened Bits

  ghost predicate IsPow2(a: nat) {
    exists k: nat :: a == Pow2(k)
  }

  /** a & (a - 1) is zero exactly for powers of 2. */
  lemma {:induction false} PowerTest(a: nat)
    requires a > 0
    ensures And(a, a - 1) == 0 <==> IsPow2(a)
    decreases a
  {
    if a == 1 {
      assert a == Pow2(0);
    } else if a % 2 == 0 {
      PowerTest(a / 2);
      assert (a - 1) / 2 == a / 2 - 1;
      if IsPow2(a / 2) {
        var k: nat :| a / 2 == Pow2(k);
        assert a == Pow2(k + 1);
      }
      if IsPow2(a) {
        var k: nat :| a == Pow2(k);
        assert k > 0 && a / 2 == Pow2(k - 1);
      }
    } else {
      AndSame(a / 2);
      assert (a - 1) / 2 == a / 2;
      OddPow2(a);
    }
  }

  lemma {:induction false} OddPow2(a: nat)
    requires a % 2 == 1 && a > 1
    ensures !IsPow2(a)
  {
    forall k: nat ensures a != Pow2(k) {
      if k > 0 { assert Pow2(k) == 2 * Pow2(k - 1); }
    }
  }

  lemma AndSame(x: nat)
    ensures And(x, x) == x
  {
  }

  /** The n-th value of the loop that doubles a word from 16. */
  function DoubledWord(n: nat): nat {
    if n == 0 then 16 else 2 * DoubledWord(n - 1) % WORD
  }

  lemma {:induction false} DoubledPow2(n: nat)
    ensures DoubledWord(n) == if n < 28 then Pow2(n + 4) else 0
    decreases n
  {
    if n == 0 {
      assert Pow2(4) == 16;
    } else {
      DoubledPow2(n - 1);
      if n <= 28 { Doubled(n + 3); }
    }
  }

  /** The doubling loop ends for exactly the alignments up to 2^31: beyond, the word wraps to 0 for good. */
  lemma {:induction false} DoublingEnds(alignment: nat)
    requires alignment < WORD
    ensures (exists n: nat :: DoubledWord(n) >= alignment) <==> alignment <= WORD / 2
  {
    forall n: nat ensures DoubledWord(n) <= WORD / 2 { DoubledBound(n); }
    var n: nat :| n == 27;
    DoubledBound(n);
    if alignment <= WORD / 2 {
      assert DoubledWord(n) >= alignment;
    }
  }

  lemma {:induction false} DoubledBound(n: nat)
    ensures DoubledWord(n) <= WORD / 2 && (n == 27 ==> DoubledWord(n) == WORD / 2)
  {
    DoubledPow2(n);
    Pow2Word();
    if n < 27 { Pow2Increasing(n + 4, 31); }
  }

  /** The alignment that internal_memalign works with. */
  function AlignmentUsed(alignment: nat): nat {
    var a := if alignment < 16 then 16 else alignment;
    if a > 0 && And(a, a - 1) != 0 then Doubling(16, a) else a
  }

  function Doubling(a: nat, alignment: nat): nat
    decreases if a == 0 || a >= alignment then 0 else alignment - a
  {
    if a == 0 || a >= alignment then a else Doubling(2 * a, alignment)
  }

  /** One doubling of a power of 2 below the alignment. */
  lemma {:induction false} DoubledStep(k: nat, b: nat, a: nat)
    requires 4 <= k <= 31 && b == Pow2(k) && b < a <= WORD / 2
    ensures k < 31 && 2 * b == Pow2(k + 1) < 2 * a && 2 * b % WORD == 2 * b && Doubling(b, a) == Doubling(2 * b, a)
  {
    Pow2Word();
    Pow2Increasing(k + 1, 32);
  }

  /** The rounding of internal_memalign: the least power of 2 that is at least 16 and the alignment asked for. */
  method RoundAlignment(alignment: nat) returns (a: nat)
    requires 0 < alignment <= WORD / 2
    ensures a == AlignmentUsed(alignment) && IsPow2(a) && alignment <= a <= WORD / 2 && a >= 16
    ensures a < 2 * alignment || a == 16
  {
    a := if alignment < 16 then 16 else alignment;
    PowerTest(a);
    if And(a, a - 1) != 0 {
      ghost var asked := a;
      ghost var k: nat := 4;
      assert Pow2(4) == 16;
      Pow2Word();
      var b: nat := 16;
      while b < a
        invariant 4 <= k <= 31 && b == Pow2(k) && (b < 2 * a || b == 16) && Doubling(16, a) == Doubling(b, a)
        decreases a - b
      {
        DoubledStep(k, b, a);
        b := 2 * b % WORD;
        k := k + 1;
      }
      if k < 31 { Pow2Increasing(k, 31); }
      a := b;
    } else {
      assert IsPow2(a);
    }
  }

  /** For a power of 2 the two masks take the remainder and drop it. */
  lemma {:induction false} Masks(x: nat, a: nat)
    requires IsPow2(a) && a <= WORD && x < WORD
    ensures And(x, a - 1) == x % a && And(x, WORD - a) == x - x % a
  {
    var k: nat :| a == Pow2(k);
    Pow2Word();
    if k > 32 { Pow2Increasing(32, k); }
    MaskLow(x, k);
    MaskHigh(x, 32, k);
  }

  function RoundUp(x: nat, a: nat): nat
    requires a > 0
  {
    (x + a - 1) - (x + a - 1) % a
  }

  /** Rounding up to a multiple. */
  lemma {:induction false} RoundUpFacts(x: nat, a: nat)
    requires a > 0
    ensures x <= RoundUp(x, a) < x + a && RoundUp(x, a) % a == 0
  {
    var y := x + a - 1;
    var q, r := y / a, y % a;
    assert y == a * q + r;
    DivUnique(a * q, a, q, 0);
  }
}
