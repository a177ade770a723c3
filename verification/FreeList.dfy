/** Free lists of heap_4 as values: blocks in address order, with a gap between any two. */
module FreeList {

  datatype Block = Block(at: int, size: nat)

  function Past(b: Block): int {
    b.at + b.size
  }

  /** Block i lies before block j, and does not touch it. */
  ghost predicate GapAt(list: seq<Block>, i: nat, j: nat) {
    i < j < |list| ==> Past(list[i]) < list[j].at
  }

  ghost predicate InPool(list: seq<Block>, lo: int, hi: int, i: nat) {
    i < |list| ==> lo <= list[i].at && list[i].size > 0 && Past(list[i]) <= hi
  }

  /** Address-sorted and maximally coalesced. */
  ghost predicate Canonical(list: seq<Block>, lo: int, hi: int) {
    && (forall i: nat, j: nat {:trigger GapAt(list, i, j)} :: GapAt(list, i, j))
    && (forall i: nat {:trigger InPool(list, lo, hi, i)} :: InPool(list, lo, hi, i))
  }

  ghost predicate Holds(list: seq<Block>, i: nat, x: int) {
    i < |list| && list[i].at <= x < Past(list[i])
  }

  /** x is a free byte. */
  ghost predicate Covers(list: seq<Block>, x: int) {
    exists i: nat :: Holds(list, i, x)
  }

  ghost predicate In(b: Block, x: int) {
    b.at <= x < Past(b)
  }

  function Total(list: seq<Block>): nat {
    if list == [] then 0 else list[0].size + Total(list[1..])
  }

  // ----- the canonical form -----

  lemma {:induction false} TailCanonical(list: seq<Block>, lo: int, hi: int)
    requires Canonical(list, lo, hi) && list != []
    ensures Canonical(list[1..], lo, hi)
    ensures forall x :: Covers(list[1..], x) <==> Covers(list, x) && x > Past(list[0])
  {
    var t := list[1..];
    forall i: nat, j: nat ensures GapAt(t, i, j) { assert GapAt(list, i + 1, j + 1); }
    forall i: nat ensures InPool(t, lo, hi, i) { assert InPool(list, lo, hi, i + 1); }
    forall x ensures Covers(t, x) <==> Covers(list, x) && x > Past(list[0]) {
      if Covers(t, x) {
        var i: nat :| Holds(t, i, x);
        assert Holds(list, i + 1, x) && GapAt(list, 0, i + 1);
      }
      if Covers(list, x) && x > Past(list[0]) {
        var i: nat :| Holds(list, i, x);
        assert Holds(t, i - 1, x);
      }
    }
  }

  /** The bytes of the first block, and the first gap. */
  lemma {:induction false} FirstBlock(list: seq<Block>, lo: int, hi: int)
    requires Canonical(list, lo, hi) && list != []
    ensures forall x :: list[0].at <= x < Past(list[0]) ==> Covers(list, x)
    ensures !Covers(list, Past(list[0])) && list[0].size > 0
    ensures forall x :: x < list[0].at ==> !Covers(list, x)
  {
    assert InPool(list, lo, hi, 0);
    forall x | list[0].at <= x < Past(list[0]) ensures Covers(list, x) { assert Holds(list, 0, x); }
    forall i: nat, x | Holds(list, i, x) ensures x >= list[0].at && x != Past(list[0]) { assert GapAt(list, 0, i); }
  }

  lemma {:induction false} SomeByte(list: seq<Block>, lo: int, hi: int) returns (x: int)
    requires Canonical(list, lo, hi) && list != []
    ensures Covers(list, x)
  {
    FirstBlock(list, lo, hi);
    x := list[0].at;
  }

  /** A canonical free list is determined by the set of free bytes. */
  lemma {:induction false} CanonicalUnique(a: seq<Block>, b: seq<Block>, lo: int, hi: int)
    requires Canonical(a, lo, hi) && Canonical(b, lo, hi)
    requires forall x :: Covers(a, x) <==> Covers(b, x)
    ensures a == b
    decreases |a|
  {
    if a == [] {
      if b != [] { var x := SomeByte(b, lo, hi); }
    } else {
      FirstBlock(a, lo, hi);
      assert Covers(b, a[0].at);
      FirstBlock(b, lo, hi);
      assert a[0].at == b[0].at by {
        assert Covers(a, b[0].at);
      }
      assert a[0] == b[0] by {
        assert !Covers(b, Past(a[0])) && !Covers(a, Past(b[0]));
      }
      TailCanonical(a, lo, hi);
      TailCanonical(b, lo, hi);
      CanonicalUnique(a[1..], b[1..], lo, hi);
      assert a == [a[0]] + a[1..] && b == [b[0]] + b[1..];
    }
  }

  /** With every byte of the pool free, the list is the single initial block. */
  lemma {:induction false} AllFree(list: seq<Block>, lo: int, hi: int)
    requires Canonical(list, lo, hi) && lo < hi
    requires forall x :: lo <= x < hi ==> Covers(list, x)
    ensures list == [Block(lo, hi - lo)]
  {
    var all := [Block(lo, hi - lo)];
    forall i: nat, j: nat ensures GapAt(all, i, j) {}
    forall i: nat ensures InPool(all, lo, hi, i) {}
    forall x ensures Covers(list, x) <==> Covers(all, x) {
      if Covers(list, x) {
        var i: nat :| Holds(list, i, x);
        assert InPool(list, lo, hi, i);
        assert Holds(all, 0, x);
      }
    }
    CanonicalUnique(list, all, lo, hi);
  }

  // ----- insertion -----

  /** The list after block b was put in before block k and merged with the neighbours it touches. */
  function Merged(list: seq<Block>, k: nat, b: Block): seq<Block>
    requires k <= |list|
  {
    var left := k > 0 && Past(list[k - 1]) == b.at;
    var right := k < |list| && Past(b) == list[k].at;
    list[..if left then k - 1 else k]
      + [Block(if left then list[k - 1].at else b.at,
               (if left then list[k - 1].size else 0) + b.size + (if right then list[k].size else 0))]
      + list[if right then k + 1 else k..]
  }

  /** b lies between the blocks before k and those from k on. */
  ghost predicate Fits(list: seq<Block>, k: nat, b: Block) {
    && k <= |list| && b.size > 0
    && (k > 0 ==> Past(list[k - 1]) <= b.at)
    && (k < |list| ==> Past(b) <= list[k].at)
  }

  /** What merging looks like from the blocks of the old list. */
  lemma {:induction false} MergedParts(list: seq<Block>, k: nat, b: Block)
    requires k <= |list|
    ensures var left := k > 0 && Past(list[k - 1]) == b.at;
            var right := k < |list| && Past(b) == list[k].at;
            var m := if left then k - 1 else k;
            var r := Merged(list, k, b);
            && |r| == |list| + 1 - (if left then 1 else 0) - (if right then 1 else 0) && m < |r|
            && r[m].at == (if left then list[k - 1].at else b.at)
            && Past(r[m]) == (if right then Past(list[k]) else Past(b))
            && (forall i {:trigger r[i]} :: 0 <= i < m ==> r[i] == list[i])
            && (forall i {:trigger r[i]} :: m < i < |r| ==> r[i] == list[i - m - 1 + (if right then k + 1 else k)])
  {
  }

  lemma {:induction false} MergedCanonical(list: seq<Block>, k: nat, b: Block, lo: int, hi: int)
    requires Canonical(list, lo, hi) && Fits(list, k, b) && lo <= b.at && Past(b) <= hi
    ensures Canonical(Merged(list, k, b), lo, hi)
  {
    var left := k > 0 && Past(list[k - 1]) == b.at;
    var right := k < |list| && Past(b) == list[k].at;
    var m := if left then k - 1 else k;
    var d := (if right then k + 1 else k) - m - 1;
    var r := Merged(list, k, b);
    MergedParts(list, k, b);
    if k > 0 { assert InPool(list, lo, hi, k - 1); }
    if k < |list| { assert InPool(list, lo, hi, k); }
    forall i: nat ensures InPool(r, lo, hi, i) {
      if i < m { assert InPool(list, lo, hi, i); }
      if m < i { assert InPool(list, lo, hi, i + d); }
    }
    forall i: nat, j: nat ensures GapAt(r, i, j) {
      if i < j < |r| {
        MergedGap(list, k, b, lo, hi, i, j);
      }
    }
  }

  lemma {:induction false} MergedGap(list: seq<Block>, k: nat, b: Block, lo: int, hi: int, i: nat, j: nat)
    requires Canonical(list, lo, hi) && Fits(list, k, b) && i < j < |Merged(list, k, b)|
    ensures GapAt(Merged(list, k, b), i, j)
  {
    var left := k > 0 && Past(list[k - 1]) == b.at;
    var right := k < |list| && Past(b) == list[k].at;
    var m := if left then k - 1 else k;
    var d := (if right then k + 1 else k) - m - 1;
    MergedParts(list, k, b);
    if j < m {
      assert GapAt(list, i, j);
    } else if j == m {
      assert GapAt(list, i, k - 1);
      if !left && i < k - 1 { assert InPool(list, lo, hi, k - 1); }
    } else if i < m {
      assert GapAt(list, i, j + d);
    } else if i == m {
      assert GapAt(list, k, j + d);
      if !right && j + d > k { assert InPool(list, lo, hi, k); }
    } else {
      assert GapAt(list, i + d, j + d);
    }
  }

  /** Insertion frees exactly the bytes of b. */
  lemma {:induction false} MergedCovers(list: seq<Block>, k: nat, b: Block, x: int)
    requires k <= |list|
    ensures Covers(Merged(list, k, b), x) <==> Covers(list, x) || In(b, x)
  {
    if Covers(Merged(list, k, b), x) { CoversBack(list, k, b, x); }
    if Covers(list, x) || In(b, x) { CoversOn(list, k, b, x); }
  }

  lemma {:induction false} CoversBack(list: seq<Block>, k: nat, b: Block, x: int)
    requires k <= |list| && Covers(Merged(list, k, b), x)
    ensures Covers(list, x) || In(b, x)
  {
    var left := k > 0 && Past(list[k - 1]) == b.at;
    var right := k < |list| && Past(b) == list[k].at;
    var m := if left then k - 1 else k;
    MergedParts(list, k, b);
    var i: nat :| Holds(Merged(list, k, b), i, x);
    if i < m {
      assert Holds(list, i, x);
    } else if i > m {
      assert Holds(list, i - m - 1 + (if right then k + 1 else k), x);
    } else {
      assert In(b, x) || (left && Holds(list, k - 1, x)) || (right && Holds(list, k, x));
    }
  }

  lemma {:induction false} CoversOn(list: seq<Block>, k: nat, b: Block, x: int)
    requires k <= |list| && (Covers(list, x) || In(b, x))
    ensures Covers(Merged(list, k, b), x)
  {
    var left := k > 0 && Past(list[k - 1]) == b.at;
    var right := k < |list| && Past(b) == list[k].at;
    var m := if left then k - 1 else k;
    var r := Merged(list, k, b);
    MergedParts(list, k, b);
    if In(b, x) {
      assert Holds(r, m, x);
    } else {
      var i: nat :| Holds(list, i, x);
      if i < m {
        assert r[i] == list[i] && Holds(r, i, x);
      } else if (left && i == k - 1) || (right && i == k) {
        assert Holds(r, m, x);
      } else {
        var j := i + m + 1 - (if right then k + 1 else k);
        assert r[j] == list[i] && Holds(r, j, x);
      }
    }
  }

  lemma {:induction false} TotalAppend(a: seq<Block>, b: seq<Block>)
    ensures Total(a + b) == Total(a) + Total(b)
    decreases |a|
  {
    if a == [] {
      assert a + b == b;
    } else {
      assert (a + b)[1..] == a[1..] + b;
      TotalAppend(a[1..], b);
    }
  }

  lemma {:induction false} TotalAt(list: seq<Block>, k: nat)
    requires k < |list|
    ensures Total(list) == Total(list[..k]) + list[k].size + Total(list[k + 1..])
  {
    assert list == list[..k] + ([list[k]] + list[k + 1..]);
    TotalAppend(list[..k], [list[k]] + list[k + 1..]);
    TotalAppend([list[k]], list[k + 1..]);
    assert Total([list[k]]) == list[k].size;
  }

  lemma {:induction false} MergedTotal(list: seq<Block>, k: nat, b: Block)
    requires k <= |list|
    ensures Total(Merged(list, k, b)) == Total(list) + b.size
  {
    var left := k > 0 && Past(list[k - 1]) == b.at;
    var right := k < |list| && Past(b) == list[k].at;
    var m, n := if left then k - 1 else k, if right then k + 1 else k;
    var r := Merged(list, k, b);
    TotalAt(r, m);
    assert r[..m] == list[..m] && r[m + 1..] == list[n..];
    assert list == list[..m] + (list[m..n] + list[n..]);
    TotalAppend(list[..m], list[m..n] + list[n..]);
    TotalAppend(list[m..n], list[n..]);
    MiddleTotal(list, m, k, n);
  }

  lemma MiddleTotal(list: seq<Block>, m: nat, k: nat, n: nat)
    requires m <= k <= n <= |list| && k <= m + 1 && n <= k + 1
    ensures Total(list[m..n]) == (if m < k then list[k - 1].size else 0) + (if k < n then list[k].size else 0)
  {
    if m == n {
      assert list[m..n] == [];
    } else if m + 1 == n {
      assert list[m..n] == [list[m]];
      TotalOne(list[m]);
    } else {
      assert list[m..n] == [list[m]] + [list[k]];
      TotalOne(list[m]);
      TotalOne(list[k]);
      TotalAppend([list[m]], [list[k]]);
    }
  }

  lemma TotalOne(b: Block)
    ensures Total([b]) == b.size
  {
    assert [b][1..] == [];
  }
}
