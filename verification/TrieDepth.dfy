/** How deep the trie of a tree bin can be: the exact number of steps to a node, bin by bin. */
module TrieDepth {
  import opened Bits
  import opened Sequences
  import opened TreeIndex
  import opened Trie

  /** The size bits that a bin resolves, less the three that are 0 in every chunk size. */
  function Steps(i: nat): nat
    requires i < NTREEBINS
  {
    BinBits(i) - 3
  }

  ghost predicate Aligned(t: Tree) {
    forall s :: s in Sizes(t) ==> s % 8 == 0
  }

  /** A trie that bin i can hold. */
  ghost predicate BinTree(t: Tree, i: nat) {
    i < NTREEBINS && Shape(t, BinLow(i), BinBits(i)) && Aligned(t) && forall s :: s in Sizes(t) ==> InBin(s, i)
  }

  ghost predicate Reaches(t: Tree, i: nat, path: seq<bool>) {
    BinTree(t, i) && IsPath(t, path) && Sub(t, path).Node?
  }

  // ----- no deeper -----

  lemma {:induction false} Pow2Eight(n: nat)
    requires n >= 3
    ensures Pow2(n) % 8 == 0 && Pow2(3) == 8
    decreases n
  {
    if n > 3 { Pow2Eight(n - 1); }
  }

  /** In a range of eight sizes only one is a chunk size, and it is that of the root. */
  lemma {:induction false} OneSize(t: Tree, lo: nat)
    requires t.Node? && Shape(t, lo, 3) && Aligned(t) && lo % 8 == 0
    ensures t.left.Leaf? && t.right.Leaf?
  {
    Pow2Eight(3);
    ShapeSizes(t, lo, 3);
    forall s | s in Sizes(t) ensures s == lo { OneMultiple(s, lo); }
    OwnSize(t);
    OwnSize(t.left);
    OwnSize(t.right);
  }

  lemma OneMultiple(s: nat, lo: nat)
    requires s % 8 == 0 && lo % 8 == 0 && lo <= s < lo + 8
    ensures s == lo
  {
  }

  lemma OwnSize(t: Tree)
    ensures t.Leaf? || t.size in Sizes(t)
  {
  }

  lemma {:induction false} AlignedChild(t: Tree, d: bool, lo: nat, k: nat) returns (lo': nat)
    requires k > 3 && t.Node? && Shape(t, lo, k) && Aligned(t) && lo % 8 == 0
    ensures var c := if d then t.right else t.left; Shape(c, lo', k - 1) && Aligned(c) && lo' % 8 == 0
  {
    lo' := lo;
    if d {
      Pow2Eight(k - 1);
      SumOfEights(lo, Pow2(k - 1));
      lo' := lo + Pow2(k - 1);
    }
    forall s | s in Sizes(if d then t.right else t.left) ensures s % 8 == 0 { assert s in Sizes(t); }
  }

  lemma SumOfEights(a: nat, b: nat)
    requires a % 8 == 0 && b % 8 == 0
    ensures (a + b) % 8 == 0
  {
  }

  lemma {:induction false} AlignedDepth(t: Tree, lo: nat, k: nat, path: seq<bool>)
    requires k >= 3 && Shape(t, lo, k) && Aligned(t) && lo % 8 == 0 && IsPath(t, path) && Sub(t, path).Node?
    ensures |path| + 3 <= k
    decreases path
  {
    if path != [] {
      if k == 3 {
        OneSize(t, lo);
      } else {
        var lo' := AlignedChild(t, path[0], lo, k);
        AlignedDepth(if path[0] then t.right else t.left, lo', k - 1, path[1..]);
      }
    }
  }

  // ----- and as deep -----

  function OnTop(c: Tree, k: nat, size: nat, d: bool): (t: Tree)
    ensures t.Node?
  {
    if d then Node([k], size, Leaf, c) else Node([k], size, c, Leaf)
  }

  /** A trie without branches on the way to size v, each size being 8 above the next. */
  function Spine(v: nat, lo: nat, k: nat): (t: Tree)
    ensures t.Node?
    decreases k
  {
    if k <= 3 then Node([3], v, Leaf, Leaf)
    else
      var d := v >= lo + Pow2(k - 1);
      OnTop(Spine(v, if d then lo + Pow2(k - 1) else lo, k - 1), k, v + 8 * (k - 3), d)
  }

  function SpinePath(v: nat, lo: nat, k: nat, n: nat): (path: seq<bool>)
    requires n + 3 <= k
    ensures |path| == n
    decreases n
  {
    if n == 0 then []
    else if v >= lo + Pow2(k - 1) then [true] + SpinePath(v, lo + Pow2(k - 1), k - 1, n - 1)
    else [false] + SpinePath(v, lo, k - 1, n - 1)
  }

  /** The sizes of the spine stay in the ranges of their nodes. */
  ghost predicate Fits(v: nat, lo: nat, k: nat)
    decreases k
  {
    && k >= 3 && lo <= v && v + 8 * (k - 3) < lo + Pow2(k)
    && (k > 3 ==> Fits(v, if v >= lo + Pow2(k - 1) then lo + Pow2(k - 1) else lo, k - 1))
  }

  ghost predicate SpineOk(t: Tree, v: nat, lo: nat, k: nat) {
    && k >= 3 && t.Node? && Shape(t, lo, k) && Aligned(t)
    && (forall a :: a in Addrs(t) ==> 3 <= a <= k)
    && (forall s :: s in Sizes(t) ==> v <= s <= v + 8 * (k - 3))
  }

  lemma {:induction false} SpineShape(v: nat, lo: nat, k: nat)
    requires Fits(v, lo, k) && v % 8 == 0
    ensures SpineOk(Spine(v, lo, k), v, lo, k)
    decreases k
  {
    if k > 3 {
      var d := v >= lo + Pow2(k - 1);
      var lo' := if d then lo + Pow2(k - 1) else lo;
      SpineShape(v, lo', k - 1);
      SpineNode(v, lo, k, d, Spine(v, lo', k - 1));
    } else {
      SpineEnd(v, lo);
    }
  }

  lemma {:induction false} SpineEnd(v: nat, lo: nat)
    requires v % 8 == 0 && lo <= v < lo + Pow2(3)
    ensures SpineOk(Node([3], v, Leaf, Leaf), v, lo, 3)
  {
    NoDupOne(3);
  }

  /** One more node on top of a spine. */
  lemma {:induction false} SpineNode(v: nat, lo: nat, k: nat, d: bool, c: Tree)
    requires k > 3 && v % 8 == 0 && lo <= v && v + 8 * (k - 3) < lo + Pow2(k)
    requires SpineOk(c, v, if d then lo + Pow2(k - 1) else lo, k - 1)
    ensures SpineOk(OnTop(c, k, v + 8 * (k - 3), d), v, lo, k)
  {
    var size := v + 8 * (k - 3);
    SpineSets(c, k, size, d);
    TopShape(c, lo, k, size, d);
    TopAligned(c, k, v, d);
  }

  lemma {:induction false} TopShape(c: Tree, lo: nat, k: nat, size: nat, d: bool)
    requires k > 0 && lo <= size < lo + Pow2(k) && size !in Sizes(c) && k !in Addrs(c)
    requires Shape(c, if d then lo + Pow2(k - 1) else lo, k - 1)
    ensures Shape(OnTop(c, k, size, d), lo, k)
  {
    NoDupOne(k);
    var t := OnTop(c, k, size, d);
    assert Shape(t.left, lo, k - 1) && Shape(t.right, lo + Pow2(k - 1), k - 1);
  }

  lemma {:induction false} TopAligned(c: Tree, k: nat, v: nat, d: bool)
    requires k >= 3 && v % 8 == 0 && Aligned(c)
    ensures Aligned(OnTop(c, k, v + 8 * (k - 3), d))
  {
    var size := v + 8 * (k - 3);
    SpineSets(c, k, size, d);
    Eights(v, k - 3);
  }

  lemma {:induction false} SpineSets(c: Tree, k: nat, size: nat, d: bool)
    ensures var t := OnTop(c, k, size, d);
            && (forall a :: a in Addrs(t) <==> a == k || a in Addrs(c))
            && (forall s :: s in Sizes(t) <==> s == size || s in Sizes(c))
  {
    var t := OnTop(c, k, size, d);
    assert Sizes(Leaf) == {} && Addrs(Leaf) == {};
    forall s ensures s in Sizes(t) <==> s == size || s in Sizes(c) { }
    forall a ensures a in Addrs(t) <==> a == k || a in Addrs(c) { }
  }

  lemma Eights(v: nat, n: nat)
    requires v % 8 == 0
    ensures (v + 8 * n) % 8 == 0
  {
  }

  lemma NoDupOne(a: int)
    ensures NoDup([a]) && RingSet([a]) == {a}
  {
  }

  lemma {:induction false} SpineReaches(v: nat, lo: nat, k: nat, n: nat)
    requires n + 3 <= k
    ensures IsPath(Spine(v, lo, k), SpinePath(v, lo, k, n)) && Sub(Spine(v, lo, k), SpinePath(v, lo, k, n)).Node?
    decreases n
  {
    if n > 0 {
      var d := v >= lo + Pow2(k - 1);
      var lo' := if d then lo + Pow2(k - 1) else lo;
      SpineReaches(v, lo', k - 1, n - 1);
      assert SpinePath(v, lo, k, n) == [d] + SpinePath(v, lo', k - 1, n - 1);
      assert SpinePath(v, lo, k, n)[1..] == SpinePath(v, lo', k - 1, n - 1);
    }
  }

  /** The least size of a range leaves room for a spine. */
  lemma {:induction false} FitsLow(lo: nat, k: nat)
    requires k >= 3
    ensures Fits(lo, lo, k) && 8 * (k - 3) < Pow2(k)
    decreases k
  {
    Pow2Eight(3);
    if k > 3 { FitsLow(lo, k - 1); }
  }

  /** In the last bin, the way to the least size turns right twice. */
  lemma {:induction false} FitsLast()
    ensures Fits(0xC0_0000, 0, 32)
  {
    var v: nat := 0xC0_0000;
    Pow2Word();
    assert Pow2(20) == 0x10_0000 by { assert Pow2(18) == 4 * Pow2(16); }
    assert Pow2(22) == 0x40_0000;
    assert Pow2(24) == 0x100_0000;
    assert Pow2(26) == 0x400_0000;
    assert Pow2(28) == 0x1000_0000;
    assert Pow2(30) == 0x4000_0000;
    FitsLow(v, 22);
    assert Fits(v, 0x80_0000, 23);
    assert Fits(v, 0, 24);
    assert Fits(v, 0, 25) && Fits(v, 0, 26);
    assert Fits(v, 0, 27) && Fits(v, 0, 28);
    assert Fits(v, 0, 29) && Fits(v, 0, 30);
    assert Fits(v, 0, 31);
  }

  /** Bins below the last are next to each other. */
  lemma {:induction false} BinEnds(i: nat)
    requires i < NTREEBINS - 1
    ensures MinSize(i + 1) == MinSize(i) + Pow2(BinBits(i)) && MinSize(i) % 8 == 0
  {
    var q, h := i / 2, i % 2;
    assert i == 2 * q + h;
    HalfIndex(q, h);
    Pow2Eight(q + 8);
    Pow2Eight(q + 7);
    Doubles(q + 7);
    Doubles(q + 8);
    SumOfEights(Pow2(q + 8), Pow2(q + 7));
  }

  lemma Doubles(n: nat)
    ensures Pow2(n + 1) == 2 * Pow2(n)
  {
  }

  /** The range of a bin below the last is its sizes. */
  lemma {:induction false} WholeRange(size: nat, i: nat)
    requires i < NTREEBINS - 1 && BinLow(i) <= size < BinLow(i) + Pow2(BinBits(i))
    ensures InBin(size, i) && BinLow(i) % 8 == 0
  {
    BinEnds(i);
    LastBinLow();
    if i + 1 < 31 { MinSizeMonotone(i + 1, 31); }
    if i > 0 { MinSizeMonotone(0, i); }
    HalfIndex(0, 0);
    Pow2Word();
  }

  lemma {:induction false} Deepest(i: nat, n: nat) returns (t: Tree, path: seq<bool>)
    requires i < NTREEBINS && n <= Steps(i)
    ensures Reaches(t, i, path) && |path| == n
  {
    var lo, k := BinLow(i), BinBits(i);
    var v := if i == NTREEBINS - 1 then 0xC0_0000 else lo;
    if i == NTREEBINS - 1 {
      FitsLast();
    } else {
      FitsLow(lo, k);
      WholeRange(lo, i);
    }
    t, path := Spine(v, lo, k), SpinePath(v, lo, k, n);
    SpineShape(v, lo, k);
    SpineReaches(v, lo, k, n);
    forall s | s in Sizes(t) ensures InBin(s, i) {
      if i == NTREEBINS - 1 { LastBinLow(); } else { WholeRange(s, i); }
    }
  }

  /** The longest way to a node of bin i takes exactly so many steps. The bound of 21 that the allocator's
      comment gives holds for every bin but the last, where 30 chunks of 12 MB and little more suffice for 29. */
  lemma {:induction false} StepsExact(i: nat, n: nat)
    requires i < NTREEBINS
    ensures (exists t, path {:trigger Reaches(t, i, path)} :: Reaches(t, i, path) && |path| == n) <==> n <= Steps(i)
    ensures Steps(i) == if i < NTREEBINS - 1 then i / 2 + 4 else 29
    ensures Steps(i) <= 21 <==> i < NTREEBINS - 1
  {
    if n <= Steps(i) {
      var t, path := Deepest(i, n);
    } else if exists t, path {:trigger Reaches(t, i, path)} :: Reaches(t, i, path) && |path| == n {
      var t, path :| Reaches(t, i, path) && |path| == n;
      if i < NTREEBINS - 1 { WholeRange(BinLow(i), i); }
      AlignedDepth(t, BinLow(i), BinBits(i), path);
    }
  }
}
