/** The tree bins of a malloc_state: the roots, the map of non-empty bins, and the pointer
    algorithms that insert, unlink and search free large chunks in place. */
module TreeBins {
  import opened Bits
  import opened TreeIndex
  import opened Sequences
  import opened Trie
  import opened TreeLinks
  import opened TrieSearch

  /** The address of a bin's root slot, as it appears in the parent field of a root. */
  function BinSlot(i: nat): int {
    -1 - i
  }

  ghost function Held(trees: seq<Tree>): set<int> {
    set i, a | 0 <= i < |trees| && a in Addrs(trees[i]) :: a
  }

  ghost predicate BinOk(m: Memory, t: Tree, i: nat) {
    && Rep(m, t, BinSlot(i), i)
    && Shape(t, BinLow(i), BinBits(i))
    && forall s :: s in Sizes(t) ==> InBin(s, i)
  }

  /** The data structure invariant: each bin links a trie of its own sizes, its bit says whether it
      is empty, and no chunk is in two bins. */
  ghost predicate Consistent(m: Memory, roots: seq<int>, bitmap: nat, trees: seq<Tree>) {
    && |roots| == |trees| == NTREEBINS && bitmap < WORD
    && (forall i {:trigger BinOk(m, trees[i], i)} :: 0 <= i < NTREEBINS ==> BinOk(m, trees[i], i))
    && (forall i :: 0 <= i < NTREEBINS ==> roots[i] == Ptr(trees[i]))
    && (forall i :: 0 <= i < NTREEBINS ==> Marked(bitmap, i) == trees[i].Node?)
    && (forall i, j :: 0 <= i < j < NTREEBINS ==> Addrs(trees[i]) !! Addrs(trees[j]))
  }

  /** The free large chunks and their sizes. */
  ghost function Holdings(m: Memory, trees: seq<Tree>): map<int, nat> {
    map a | a in Held(trees) && a in m :: m[a].size
  }

  lemma {:induction false} HeldFacts(m: Memory, roots: seq<int>, bitmap: nat, trees: seq<Tree>)
    requires Consistent(m, roots, bitmap, trees)
    ensures forall a :: a in Held(trees) ==>
              a in m && a > 0 && InBin(m[a].size, m[a].index) && a in Addrs(trees[m[a].index])
    ensures forall i, a :: 0 <= i < NTREEBINS && a in Addrs(trees[i]) ==> a in Held(trees) && m[a].index == i
    ensures Holdings(m, trees).Keys == Held(trees)
  {
    forall i, a | 0 <= i < NTREEBINS && a in Addrs(trees[i])
      ensures a in Held(trees) && a in m && a > 0 && m[a].index == i
      ensures InBin(m[a].size, i)
    {
      assert BinOk(m, trees[i], i);
      RepFacts(m, trees[i], BinSlot(i), i);
    }
  }

  /** One bin changes, the others are framed. */
  lemma {:induction false} OneBin(m: Memory, roots: seq<int>, bitmap: nat, trees: seq<Tree>,
                                  m': Memory, bitmap': nat, i: nat, t: Tree)
    requires Consistent(m, roots, bitmap, trees) && i < NTREEBINS
    requires BinOk(m', t, i) && bitmap' < WORD
    requires forall j :: 0 <= j < NTREEBINS ==> Marked(bitmap', j) == if j == i then t.Node? else Marked(bitmap, j)
    requires forall a :: a in Addrs(t) ==> a in Addrs(trees[i]) || a !in Held(trees)
    requires forall a :: a in Held(trees) && a !in Addrs(trees[i]) ==> a in m && a in m' && m'[a] == m[a]
    ensures Consistent(m', roots[i := Ptr(t)], bitmap', trees[i := t])
  {
    HeldFacts(m, roots, bitmap, trees);
    var trees' := trees[i := t];
    forall j | 0 <= j < NTREEBINS ensures BinOk(m', trees'[j], j) {
      if j != i {
        assert BinOk(m, trees[j], j);
        Frame(m, m', trees[j], BinSlot(j), j);
      }
    }
    forall j, k | 0 <= j < k < NTREEBINS ensures Addrs(trees'[j]) !! Addrs(trees'[k]) {
      assert Addrs(trees[j]) !! Addrs(trees[k]);
      if j == i || k == i {
        var o := if j == i then k else j;
        forall a | a in Addrs(trees[o]) ensures a !in Addrs(t) {
          assert a in Held(trees);
        }
      }
    }
  }

  /** The holdings after one bin changed. */
  lemma {:induction false} OneBinHoldings(trees: seq<Tree>, i: nat, t: Tree)
    requires i < |trees|
    requires forall j, k :: 0 <= j < k < |trees| ==> Addrs(trees[j]) !! Addrs(trees[k])
    ensures Held(trees[i := t]) == (Held(trees) - Addrs(trees[i])) + Addrs(t)
  {
    var trees' := trees[i := t];
    forall a ensures a in Held(trees') <==> a in (Held(trees) - Addrs(trees[i])) + Addrs(t) {
      if a in Addrs(t) {
        assert a in Addrs(trees'[i]);
      }
      if a in Held(trees) - Addrs(trees[i]) {
        var j :| 0 <= j < |trees| && a in Addrs(trees[j]);
        assert a in Addrs(trees'[j]);
      }
      if a in Held(trees') && a !in Addrs(t) {
        var j :| 0 <= j < |trees'| && a in Addrs(trees'[j]);
        assert j != i && a in Addrs(trees[j]);
      }
    }
  }

  class TreeBins {
    var mem: Memory
    var treebins: seq<int>
    var treemap: nat
    ghost var trees: seq<Tree>

    ghost predicate Valid()
      reads this
    {
      Consistent(mem, treebins, treemap, trees)
    }

    ghost function Contents(): map<int, nat>
      reads this
    {
      Holdings(mem, trees)
    }

    constructor ()
      ensures Valid() && Contents() == map[]
    {
      mem := map[];
      treebins := seq(NTREEBINS, _ => 0);
      treemap := 0;
      trees := seq(NTREEBINS, _ => Leaf);
    }

    /** insert_large_chunk. */
    method InsertLargeChunk(x: int, size: nat)
      requires Valid() && x > 0 && x !in Contents() && MIN_LARGE_SIZE <= size < WORD
      modifies this
      ensures Valid()
      ensures TreeBin(size) < |old(trees)| && trees == Inserted(old(trees), x, size, TreeBin(size))
      ensures Contents() == old(Contents())[x := size]
    {
      var i := TreeBin(size);
      InsertStart(mem, treebins, treemap, trees, x, size, i);
      PutInBin(x, size, i, trees[i]);
      FinishInsert(old(mem), mem, old(treebins), old(treemap), treemap, trees, i, x, size);
      trees := Inserted(trees, x, size, i);
    }

    method PutInBin(x: int, size: nat, i: nat, ghost t: Tree)
      requires i < |treebins| && i < NTREEBINS && treemap < WORD && x > 0 && Marked(treemap, i) == t.Node?
      requires BinOk(mem, t, i) && x !in Addrs(t)
      requires t.Node? ==>
                 At(t, x, size, i, [], BinLow(i), BinBits(i), Shl(size, LeftShift(i)) % WORD, treebins[i])
      requires t.Leaf? ==> Linkage(mem, mem[x := Chunk(size, x, x, 0, 0, BinSlot(i), i)], t, x, size, i)
      modifies this`mem, this`treebins, this`treemap
      ensures Linkage(old(mem), mem, t, x, size, i) && treemap < WORD
      ensures treebins == if t.Leaf? then old(treebins)[i := x] else old(treebins)
      ensures forall j :: 0 <= j < NTREEBINS ==> Marked(treemap, j) == (j == i || Marked(old(treemap), j))
    {
      if !Marked(treemap, i) {
        StartBin(x, size, i);
      } else {
        InsertBelowRoot(x, size, i, t);
      }
    }

    /** x is the first chunk of its bin. */
    method StartBin(x: int, size: nat, i: nat)
      requires i < |treebins| && i < NTREEBINS && treemap < WORD && x > 0
      modifies this`mem, this`treebins, this`treemap
      ensures mem == old(mem)[x := Chunk(size, x, x, 0, 0, BinSlot(i), i)] && treebins == old(treebins)[i := x]
      ensures treemap < WORD
      ensures forall j :: 0 <= j < NTREEBINS ==> Marked(treemap, j) == (j == i || Marked(old(treemap), j))
    {
      treemap := Mark(treemap, i);
      treebins := treebins[i := x];
      mem := mem[x := Chunk(size, x, x, 0, 0, BinSlot(i), i)];
      MarkOne(old(treemap), i);
    }

    /** The walk of insert_large_chunk in a non-empty bin. */
    method InsertBelowRoot(x: int, size: nat, i: nat, ghost t: Tree)
      requires i < |treebins| && i < NTREEBINS && BinOk(mem, t, i) && x > 0 && x !in Addrs(t)
      requires At(t, x, size, i, [], BinLow(i), BinBits(i), Shl(size, LeftShift(i)) % WORD, treebins[i])
      modifies this`mem
      ensures Linkage(old(mem), mem, t, x, size, i)
    {
      var T := treebins[i];
      var K: nat := Shl(size, LeftShift(i)) % WORD;
      ghost var path: seq<bool>, lo: nat, k: nat := [], BinLow(i), BinBits(i);
      while true
        invariant At(t, x, size, i, path, lo, k, K, T)
        invariant mem == old(mem)
        decreases k
      {
        WalkStep(mem, t, x, size, i, path, lo, k, K, T);
        if mem[T].size != size {
          var right := Shr(K, 31) == 1;
          var C := if right then mem[T].child1 else mem[T].child0;
          K := 2 * K % WORD;
          if C != 0 {
            T, path, lo, k := C, path + [right], if right then lo + Pow2(k - 1) else lo, k - 1;
          } else {
            mem := mem[T := SetChild(mem[T], right, x)];
            mem := mem[x := Chunk(size, x, x, 0, 0, T, i)];
            WalkAttach(old(mem), mem, t, x, size, i, path, lo, k, right, T);
            return;
          }
        } else {
          var F := mem[T].fd;
          mem := mem[F := mem[F].(bk := x)];
          mem := mem[T := mem[T].(fd := x)];
          mem := mem[x := Chunk(size, F, T, 0, 0, 0, i)];
          WalkChain(old(mem), mem, t, x, size, i, path, lo, k, F, T);
          return;
        }
      }
    }

    /** unlink_large_chunk. */
    method UnlinkLargeChunk(x: int)
      requires Valid() && x in Contents()
      modifies this
      ensures Valid()
      ensures x in old(mem) && old(mem)[x].index < |old(trees)| && x in Addrs(old(trees)[old(mem)[x].index])
      ensures trees == old(trees)[old(mem)[x].index := Remove(old(trees)[old(mem)[x].index], x)]
      ensures Contents() == old(Contents()) - {x}
    {
      ghost var i, t, path := RemoveStart(mem, treebins, treemap, trees, x);
      var XP := mem[x].parent;
      var R := TakeReplacement(x, t, i, path);
      if XP != 0 {
        Relink(old(mem), x, R, XP, t, i, path);
      } else {
        MemberStays(old(mem), old(treebins), old(treemap), trees, i, path, x);
      }
      FinishRemove(old(mem), mem, old(treebins), old(treemap), treemap, trees, i, x);
      trees := trees[i := Remove(t, x)];
    }

    /** The first block of unlink_large_chunk: take x off its ring, or cut the last leaf below it. */
    method TakeReplacement(x: int, ghost t: Tree, ghost i: nat, ghost path: seq<bool>) returns (R: int)
      requires BinOk(mem, t, i) && Located(mem, t, i, path, x)
      modifies this`mem
      ensures var s := Sub(t, path);
              && (x != s.ring[0] ==> Unlinked(old(mem), mem, t, x, i))
              && (x == s.ring[0] ==> Ready(old(mem), mem, s, RemoveHere(s, x), i, x, R))
    {
      RingFields(mem, t, i, path, x);
      if mem[x].bk != x {
        var F := mem[x].fd;
        R := mem[x].bk;
        // the test that guards against corrupted links always succeeds
        assert mem[F].bk == x && mem[R].fd == x;
        mem := mem[F := mem[F].(bk := R)];
        mem := mem[R := mem[R].(fd := F)];
        if x == Sub(t, path).ring[0] {
          UnhookedHead(old(mem), t, i, path, x);
        } else {
          UnhookedMember(old(mem), t, i, path, x);
        }
      } else {
        R := DetachLastLeaf(x, t, i, path);
        DetachedReady(old(mem), mem, t, i, path, x, R);
      }
    }

    /** The last block of unlink_large_chunk: R takes the place of tree member x. */
    method Relink(ghost m: Memory, x: int, R: int, XP: int, ghost t: Tree, ghost i: nat, ghost path: seq<bool>)
      requires BinOk(m, t, i) && Located(m, t, i, path, x) && x == Sub(t, path).ring[0]
      requires Ready(m, mem, Sub(t, path), RemoveHere(Sub(t, path), x), i, x, R)
      requires XP == Above(t, path, BinSlot(i)) && XP != 0
      requires |treebins| == NTREEBINS && treebins[i] == Ptr(t) && treemap < WORD && Marked(treemap, i)
      modifies this`mem, this`treebins, this`treemap
      ensures Unlinked(m, mem, t, x, i)
      ensures treebins == old(treebins)[i := Ptr(Remove(t, x))] && treemap < WORD
      ensures forall j :: 0 <= j < NTREEBINS ==>
                Marked(treemap, j) == if j == i then Remove(t, x).Node? else Marked(old(treemap), j)
    {
      RootOrNot(m, mem, t, i, path, x);
      if x == treebins[mem[x].index] {
        treebins := treebins[mem[x].index := R];
        if R == 0 {
          treemap := Clear(treemap, mem[x].index);
          ClearOne(old(treemap), i);
        }
      } else if mem[XP].child0 == x {
        mem := mem[XP := mem[XP].(child0 := R)];
      } else {
        mem := mem[XP := mem[XP].(child1 := R)];
      }
      ghost var m2 := mem;
      if R != 0 {
        AdoptSafe(m, old(mem), m2, t, i, path, x, R);
        HandOver(x, R, XP);
      }
      PlaceRep(m, old(mem), m2, mem, t, i, path, x, R);
    }

    /** R takes over the parent and the children of x. */
    method HandOver(x: int, R: int, XP: int)
      requires x in mem && R in mem && R != x
      requires mem[x].child0 != 0 ==> mem[x].child0 in mem
      requires mem[x].child1 != 0 ==> mem[x].child1 in mem
      modifies this`mem
      ensures mem == Adopt(old(mem), x, R, XP)
    {
      mem := mem[R := mem[R].(parent := XP)];
      var C0 := mem[x].child0;
      if C0 != 0 {
        mem := mem[R := mem[R].(child0 := C0)];
        mem := mem[C0 := mem[C0].(parent := R)];
      }
      var C1 := mem[x].child1;
      if C1 != 0 {
        mem := mem[R := mem[R].(child1 := C1)];
        mem := mem[C1 := mem[C1].(parent := R)];
      }
    }

    /** The descent of unlink_large_chunk to the leaf that replaces a tree member without ring. */
    method DetachLastLeaf(x: int, ghost t: Tree, ghost i: nat, ghost path: seq<bool>) returns (R: int)
      requires BinOk(mem, t, i) && IsPath(t, path)
      requires Sub(t, path).Node? && Sub(t, path).ring == [x]
      modifies this`mem
      ensures R == 0 ==> mem == old(mem)
      ensures Detached(old(mem), mem, Sub(t, path), Above(t, path, BinSlot(i)), i, x, R)
    {
      ghost var s, above := Sub(t, path), Above(t, path, BinSlot(i));
      ghost var lo, k := SubShape(t, BinLow(i), BinBits(i), path);
      SubRep(mem, t, BinSlot(i), i, path);
      DescendStep(mem, s, above, i, []);
      var owner, right := x, true;
      R := mem[x].child1;
      if R == 0 {
        right := false;
        R := mem[x].child0;
      }
      if R != 0 {
        ghost var q := [] + [right];
        while true
          invariant q != [] && q[|q| - 1] == right && Descending(s, q)
          invariant R == Ptr(Sub(s, q)) && owner == Above(s, q, above) && mem == old(mem)
          decreases Sub(s, q)
        {
          DescendStep(mem, s, above, i, q);
          if mem[R].child1 == 0 && mem[R].child0 == 0 {
            break;
          }
          right := mem[R].child1 != 0;
          owner, R, q := R, if right then mem[R].child1 else mem[R].child0, q + [right];
        }
        CutLeaf(mem, s, lo, k, above, i, q);
        mem := mem[owner := SetChild(mem[owner], right, 0)];
      }
    }

    /** The search of tmalloc_large: v is the best fit for nb among all tree bins, or null. */
    method FindBestFit(nb: nat) returns (v: int, rsize: nat)
      requires Valid() && MIN_LARGE_SIZE <= nb < WORD
      ensures v == 0 ==> forall a :: a in Contents() ==> Contents()[a] < nb
      ensures v != 0 ==>
                && v in Contents() && Contents()[v] == nb + rsize
                && v in mem && mem[v].parent != 0
                && forall a :: a in Contents() && Contents()[a] >= nb ==> Contents()[v] <= Contents()[a]
    {
      ghost var sub, exhausted, bin;
      var idx := TreeBin(nb);
      var t: int;
      v, rsize, t, sub := WalkPath(nb, idx);
      bin, exhausted := idx, false;
      if t == 0 && v == 0 {
        var leftbits := And(LeftBits(Pow2(idx)), treemap);
        NextBin(mem, treebins, treemap, trees, nb, idx);
        NothingFits(trees[idx], nb, rsize);
        if leftbits != 0 {
          var i := Bit2Idx(LeastBit(leftbits));
          t := treebins[i];
          bin, sub := i, trees[i];
        } else {
          exhausted := true;
        }
      }
      v, rsize := WalkLeft(nb, t, v, rsize, bin, sub, exhausted);
      SearchDone(mem, treebins, treemap, trees, nb, idx, bin, exhausted, v, rsize);
    }

    /** The search of tmalloc_small: the smallest of all large chunks. */
    method FindSmallest(nb: nat) returns (v: int, rsize: nat)
      requires Valid() && treemap != 0 && 0 < nb < MIN_LARGE_SIZE
      ensures v in Contents() && Contents()[v] == nb + rsize && v in mem && mem[v].parent != 0
      ensures forall a :: a in Contents() ==> Contents()[v] <= Contents()[a]
    {
      var i := Bit2Idx(LeastBit(treemap));
      SmallestBin(mem, treebins, treemap, trees, nb, i);
      ghost var root := trees[i];
      var t := treebins[i];
      MemberFacts(mem, root, i, root, nb, WORD - nb);
      StepLeft(root, nb, WORD - nb, root);
      assert root.size in Sizes(root);
      v, rsize := t, Minus(mem[t].size, nb);
      t := if mem[t].child0 != 0 then mem[t].child0 else mem[t].child1;
      v, rsize := WalkLeft(nb, t, v, rsize, i, if root.left.Node? then root.left else root.right, false);
      SmallestDone(mem, treebins, treemap, trees, nb, i, v, rsize);
    }

    /** The first loop of tmalloc_large: down the path of nb's bits. */
    method WalkPath(nb: nat, idx: nat) returns (v: int, rsize: nat, t: int, ghost rest: Tree)
      requires Valid() && MIN_LARGE_SIZE <= nb < WORD && idx == TreeBin(nb)
      ensures InBin(nb, idx) && PathDone(mem, trees[idx], idx, nb, v, rsize, t, rest)
    {
      PathKey(nb, idx);
      SearchStart(mem, treebins, treemap, trees, nb, idx);
      ghost var whole := trees[idx];
      v, rsize := 0, Neg(nb);
      t := treebins[idx];
      rest := Leaf;
      if t != 0 {
        var sizebits: nat := Shl(nb, LeftShift(idx)) % WORD;
        var rst := 0;
        ghost var sub, lo: nat, k: nat := whole, BinLow(idx), BinBits(idx);
        while true
          invariant sub.Node? && t == Ptr(sub) && rst == Ptr(rest) && rsize != 0
          invariant Within(mem, sub, whole, idx) && Within(mem, rest, whole, idx)
          invariant Candidate(mem, whole, nb, v, rsize)
          invariant OnPath(whole, nb, rsize, sub, rest, lo, k) && IsKey(sizebits, nb, lo, k)
          decreases k
        {
          v, rsize := Consider(t, v, rsize, nb, whole, idx, sub, rest, lo, k);
          if rsize == 0 {
            rest := sub;
            assert PathDone(mem, whole, idx, nb, v, rsize, t, rest);
            break;
          }
          t, rst, sizebits, sub, rest, lo, k := BranchAt(t, rst, sizebits, nb, rsize, whole, idx, sub, rest, lo, k);
          if t == 0 {
            t := rst;
            assert PathDone(mem, whole, idx, nb, v, rsize, t, rest);
            break;
          }
        }
      }
    }

    /** The branch taken at a tree member, which sets the right subtree aside if that is the one not taken. */
    method BranchAt(t0: int, rst0: int, sizebits0: nat, nb: nat, ghost rsize: nat, ghost whole: Tree, ghost idx: nat,
                    ghost sub0: Tree, ghost rest0: Tree, ghost lo0: nat, ghost k0: nat)
      returns (t: int, rst: int, sizebits: nat, ghost sub: Tree, ghost rest: Tree, ghost lo: nat, ghost k: nat)
      requires sub0.Node? && rst0 == Ptr(rest0) && t0 in mem
      requires mem[t0].child0 == Ptr(sub0.left) && mem[t0].child1 == Ptr(sub0.right)
      requires Within(mem, sub0.left, whole, idx) && Within(mem, sub0.right, whole, idx)
      requires Within(mem, rest0, whole, idx)
      requires OnPath(whole, nb, rsize, sub0, rest0, lo0, k0) && IsKey(sizebits0, nb, lo0, k0)
      requires Settled(nb, rsize, sub0.size)
      requires forall right :: (Ptr(sub0.right) != 0 && Ptr(sub0.right) != Ptr(Taken(sub0, right)))
                               == (sub0.right.Node? && !right)
      ensures rst == Ptr(rest) && Within(mem, rest, whole, idx) && Within(mem, sub, whole, idx) && t == Ptr(sub)
      ensures t == 0 ==> Pending(whole, nb, rsize, rest)
      ensures t != 0 ==> sub.Node? && OnPath(whole, nb, rsize, sub, rest, lo, k) && IsKey(sizebits, nb, lo, k) && k < k0
    {
      PathBranch(whole, nb, rsize, sub0, rest0, lo0, k0, sizebits0);
      var right := Shr(sizebits0, 31) == 1;
      var rt := mem[t0].child1;
      t, rst := if right then mem[t0].child1 else mem[t0].child0, rst0;
      if rt != 0 && rt != t {
        rst := rt;
      }
      rest, sub := Untaken(sub0, rest0, right), Taken(sub0, right);
      WithinPtr(mem, sub, whole, idx);
      sizebits, lo, k := 2 * sizebits0 % WORD, lo0, k0;
      if t != 0 {
        lo, k := if right then lo0 + Pow2(k0 - 1) else lo0, k0 - 1;
      }
    }

    /** One look at a tree member on the path. */
    method Consider(t: int, v0: int, rsize0: nat, nb: nat, ghost whole: Tree, ghost idx: nat,
                    ghost sub: Tree, ghost rest: Tree, ghost lo: nat, ghost k: nat) returns (v: int, rsize: nat)
      requires sub.Node? && t == Ptr(sub) && idx < NTREEBINS && BinOk(mem, whole, idx)
      requires Within(mem, sub, whole, idx) && Candidate(mem, whole, nb, v0, rsize0) && rsize0 != 0
      requires OnPath(whole, nb, rsize0, sub, rest, lo, k)
      ensures Candidate(mem, whole, nb, v, rsize) && OnPath(whole, nb, rsize, sub, rest, lo, k)
      ensures Settled(nb, rsize, sub.size)
      ensures rsize == 0 ==> Pending(whole, nb, 0, sub)
      ensures t in mem && mem[t].child0 == Ptr(sub.left) && mem[t].child1 == Ptr(sub.right)
      ensures (mem[t].child0 == 0) == sub.left.Leaf? && (mem[t].child1 == 0) == sub.right.Leaf?
      ensures Within(mem, sub.left, whole, idx) && Within(mem, sub.right, whole, idx)
      ensures forall right :: (Ptr(sub.right) != 0 && Ptr(sub.right) != Ptr(Taken(sub, right)))
                              == (sub.right.Node? && !right)
    {
      MemberFacts(mem, whole, idx, sub, nb, rsize0);
      ImproveOnPath(whole, nb, rsize0, sub, rest, lo, k);
      v, rsize := v0, rsize0;
      var trem := Minus(mem[t].size, nb);
      if trem < rsize {
        v, rsize := t, trem;
      }
    }

    /** The second loop of tmalloc_large: the smallest chunk of a subtree lies on its leftmost path. */
    method WalkLeft(nb: nat, t0: int, v0: int, rsize0: nat, ghost bin: nat, ghost sub0: Tree, ghost exhausted: bool)
      returns (v: int, rsize: nat)
      requires Valid() && 0 < nb < WORD && bin < NTREEBINS
      requires Candidate(mem, trees[bin], nb, v0, rsize0)
      requires Pending(trees[bin], nb, rsize0, sub0) && Within(mem, sub0, trees[bin], bin) && t0 == Ptr(sub0)
      requires t0 != 0 || v0 != 0 || exhausted
      ensures Candidate(mem, trees[bin], nb, v, rsize) && Pending(trees[bin], nb, rsize, Leaf)
      ensures v != 0 || exhausted
    {
      ghost var sub := sub0;
      var t := t0;
      v, rsize := v0, rsize0;
      WithinPtr(mem, sub, trees[bin], bin);
      while t != 0
        invariant t == Ptr(sub) && (t == 0) == sub.Leaf?
        invariant Within(mem, sub, trees[bin], bin) && Pending(trees[bin], nb, rsize, sub)
        invariant Candidate(mem, trees[bin], nb, v, rsize)
        invariant t != 0 || v != 0 || exhausted
        decreases sub
      {
        assert BinOk(mem, trees[bin], bin);
        MemberFacts(mem, trees[bin], bin, sub, nb, rsize);
        StepLeft(trees[bin], nb, rsize, sub);
        assert sub.size in Sizes(sub);
        var trem := Minus(mem[t].size, nb);
        if trem < rsize {
          rsize := trem;
          v := t;
        }
        t := if mem[t].child0 != 0 then mem[t].child0 else mem[t].child1;
        sub := if sub.left.Node? then sub.left else sub.right;
      }
    }
  }

  // ----- the steps of unlink_large_chunk -----

  /** x sits on the ring of the node at path in bin i. */
  ghost predicate Located(m: Memory, t: Tree, i: nat, path: seq<bool>, x: int) {
    && i < NTREEBINS && x in Addrs(t) && path == PathTo(t, x)
    && IsPath(t, path) && Sub(t, path).Node? && x in Sub(t, path).ring && |Sub(t, path).ring| > 0
  }

  /** After x was removed: the tree without x is linked, everything outside is untouched,
      and no chunk changed its size. */
  ghost predicate Unlinked(m: Memory, m': Memory, t: Tree, x: int, i: nat)
    requires x in Addrs(t)
  {
    && Rep(m', Remove(t, x), BinSlot(i), i)
    && (forall a :: a in m ==> a in m' && m'[a].size == m[a].size)
    && (forall a :: a in m && a !in Addrs(t) ==> m'[a] == m[a])
  }

  /** The way down to the last leaf passes q. */
  ghost predicate Descending(s: Tree, q: seq<bool>) {
    && s.Node? && IsPath(s, q) && Sub(s, q).Node?
    && LastLeaf(s) == LastLeaf(Sub(s, q))
    && WithoutLastLeaf(s) == Replace(s, q, WithoutLastLeaf(Sub(s, q)))
  }

  lemma {:induction false} DescendStep(m: Memory, s: Tree, above: int, i: nat, q: seq<bool>)
    requires Rep(m, s, above, i) && Descending(s, q)
    ensures var c := Sub(s, q);
            var R := Ptr(c);
            && R in m
            && m[R].child1 == Ptr(c.right) && m[R].child0 == Ptr(c.left)
            && (m[R].child1 == 0) == c.right.Leaf? && (m[R].child0 == 0) == c.left.Leaf?
            && (c.left.Node? || c.right.Node? ==>
                  var d := c.right.Node?;
                  && Descending(s, q + [d]) && Sub(s, q + [d]) == (if d then c.right else c.left)
                  && Above(s, q + [d], above) == R)
  {
    SubRep(m, s, above, i, q);
    var c := Sub(s, q);
    RepFacts(m, c.left, Ptr(c), i);
    RepFacts(m, c.right, Ptr(c), i);
    if c.left.Node? || c.right.Node? {
      LastLeafStep(s, q);
      PathStep(s, q, c.right.Node?, above);
    }
  }

  /** After the leaf was cut off: the rest of the tree at x is linked, and the leaf stands alone. */
  ghost predicate Detached(m: Memory, m': Memory, s: Tree, above: int, i: nat, x: int, R: int)
    requires s.Node?
  {
    && (R == 0) == (s.left.Leaf? && s.right.Leaf?)
    && (forall a :: a in m ==> a in m' && m'[a].size == m[a].size)
    && (forall a :: a in m && a !in Addrs(s) ==> m'[a] == m[a])
    && x in m && m'[x].index == m[x].index
    && (R != 0 ==>
          && Rep(m', WithoutLastLeaf(s), above, i)
          && RingRep(m', LastLeaf(s).ring, LastLeaf(s).size, i)
          && |LastLeaf(s).ring| > 0 && R == LastLeaf(s).ring[0]
          && m'[R].child0 == 0 && m'[R].child1 == 0)
  }

  /** The ring of s' stands alone, and its subtrees still hang below x. */
  ghost predicate Standing(m: Memory, s': Tree, i: nat, x: int) {
    s'.Node? ==>
      && RingRep(m, s'.ring, s'.size, i) && |s'.ring| > 0
      && m[s'.ring[0]].child0 == 0 && m[s'.ring[0]].child1 == 0
      && Rep(m, s'.left, x, i) && Rep(m, s'.right, x, i)
      && x in m && m[x].child0 == Ptr(s'.left) && m[x].child1 == Ptr(s'.right)
  }

  /** The replacement of x stands ready. */
  ghost predicate Ready(m: Memory, m': Memory, s: Tree, s': Tree, i: nat, x: int, R: int) {
    && R == Ptr(s') && (R == 0) == s'.Leaf?
    && (forall a :: a in m ==> a in m' && m'[a].size == m[a].size)
    && (forall a :: a in m && a !in Addrs(s) ==> m'[a] == m[a])
    && x in m && m'[x].index == m[x].index
    && Standing(m', s', i, x)
  }

  lemma {:induction false} RemoveStart(m: Memory, roots: seq<int>, bitmap: nat, trees: seq<Tree>, x: int)
    returns (i: nat, t: Tree, path: seq<bool>)
    requires Consistent(m, roots, bitmap, trees) && x in Holdings(m, trees)
    ensures i < NTREEBINS && t == trees[i] && BinOk(m, t, i) && Located(m, t, i, path, x)
    ensures x in m && m[x].index == i
    ensures m[x].parent == if x == Sub(t, path).ring[0] then Above(t, path, BinSlot(i)) else 0
    ensures Above(t, path, BinSlot(i)) != 0
  {
    i :| 0 <= i < NTREEBINS && x in Addrs(trees[i]);
    t := trees[i];
    path := PathTo(t, x);
    PathToFinds(t, x);
    assert BinOk(m, t, i);
    RepFacts(m, t, BinSlot(i), i);
    SubRep(m, t, BinSlot(i), i, path);
    AboveInside(m, t, BinSlot(i), i, path);
    var s := Sub(t, path);
    var j :| 0 <= j < |s.ring| && s.ring[j] == x;
    if j > 0 {
      var lo, k := SubShape(t, BinLow(i), BinBits(i), path);
      assert s.ring[0] != s.ring[j];
    }
  }

  lemma {:induction false} RingFields(m: Memory, t: Tree, i: nat, path: seq<bool>, x: int)
    requires BinOk(m, t, i) && Located(m, t, i, path, x)
    ensures x in m && m[x].fd in m && m[x].bk in m
    ensures (m[x].bk == x) == (|Sub(t, path).ring| == 1)
    ensures m[m[x].fd].bk == x && m[m[x].bk].fd == x
  {
    var s := Sub(t, path);
    SubRep(m, t, BinSlot(i), i, path);
    var lo, k := SubShape(t, BinLow(i), BinBits(i), path);
    var j :| 0 <= j < |s.ring| && s.ring[j] == x;
    if |s.ring| > 1 {
      UnhookNeighbours(m, s.ring, j);
    } else {
      assert Linked(m, s.ring, 0);
    }
  }

  lemma {:induction false} UnhookedSizes(m: Memory, ring: seq<int>, j: nat, size: nat, index: nat)
    requires |ring| > 1 && j < |ring| && RingRep(m, ring, size, index) && NoDup(ring)
    ensures m[ring[j]].fd in m && m[ring[j]].bk in m
    ensures var m' := Unhook(m, ring[j]);
            && (forall a :: a in m ==> a in m' && m'[a] == m[a].(fd := m'[a].fd, bk := m'[a].bk))
            && (forall a :: a in m && a !in RingSet(ring) ==> m'[a] == m[a])
  {
    UnhookFields(m, ring, j);
  }

  lemma {:induction false} UnhookedNode(m: Memory, s: Tree, lo: nat, k: nat, parent: int, i: nat, x: int)
    requires s.Node? && Rep(m, s, parent, i) && Shape(s, lo, k) && x in s.ring && x != s.ring[0]
    ensures x in m && m[x].fd in m && m[x].bk in m
    ensures Unchained(s.ring, x)[0] == s.ring[0] && Rep(Unhook(m, x), s.(ring := Unchained(s.ring, x)), parent, i)
    ensures forall a :: a in m ==> a in Unhook(m, x) && Unhook(m, x)[a].size == m[a].size
    ensures forall a :: a in m && a !in Addrs(s) ==> Unhook(m, x)[a] == m[a]
  {
    var ring' := Unchained(s.ring, x);
    var j :| 0 < j < |s.ring| && s.ring[j] == x && ring' == s.ring[..j] + s.ring[j + 1..];
    UnhookMiddle(m, s.ring, j, s.size, i);
    UnhookedSizes(m, s.ring, j, s.size, i);
    Frame(m, Unhook(m, x), s.left, s.ring[0], i);
    Frame(m, Unhook(m, x), s.right, s.ring[0], i);
  }

  lemma {:induction false} UnhookedMember(m: Memory, t: Tree, i: nat, path: seq<bool>, x: int)
    requires BinOk(m, t, i) && Located(m, t, i, path, x) && x != Sub(t, path).ring[0]
    ensures x in m && m[x].fd in m && m[x].bk in m
    ensures Unlinked(m, Unhook(m, x), t, x, i)
  {
    var s := Sub(t, path);
    SubRep(m, t, BinSlot(i), i, path);
    var lo, k := SubShape(t, BinLow(i), BinBits(i), path);
    UnhookedNode(m, s, lo, k, Above(t, path, BinSlot(i)), i, x);
    PathToFinds(t, x);
    RepFacts(m, t, BinSlot(i), i);
    SameRootRep(m, Unhook(m, x), t, BinLow(i), BinBits(i), BinSlot(i), i, path, s.(ring := Unchained(s.ring, x)));
  }

  lemma {:induction false} UnhookedHead(m: Memory, t: Tree, i: nat, path: seq<bool>, x: int)
    requires BinOk(m, t, i) && Located(m, t, i, path, x) && x == Sub(t, path).ring[0] && |Sub(t, path).ring| > 1
    ensures x in m && m[x].fd in m && m[x].bk in m
    ensures Ready(m, Unhook(m, x), Sub(t, path), RemoveHere(Sub(t, path), x), i, x, m[x].bk)
  {
    var s := Sub(t, path);
    SubRep(m, t, BinSlot(i), i, path);
    var lo, k := SubShape(t, BinLow(i), BinBits(i), path);
    UnhookNeighbours(m, s.ring, 0);
    UnhookFirst(m, s.ring, s.size, i);
    UnhookedSizes(m, s.ring, 0, s.size, i);
    var m' := Unhook(m, x);
    Frame(m, m', s.left, x, i);
    Frame(m, m', s.right, x, i);
  }

  lemma {:induction false} DetachedReady(m: Memory, m': Memory, t: Tree, i: nat, path: seq<bool>, x: int, R: int)
    requires BinOk(m, t, i) && Located(m, t, i, path, x) && Sub(t, path).ring == [x] && x in m
    requires Detached(m, m', Sub(t, path), Above(t, path, BinSlot(i)), i, x, R)
    ensures Ready(m, m', Sub(t, path), RemoveHere(Sub(t, path), x), i, x, R)
  {
    var s := Sub(t, path);
    if R != 0 {
      var rest := WithoutLastLeaf(s);
      assert rest.ring == [x];
    }
  }

  lemma {:induction false} RootOrNot(m: Memory, m1: Memory, t: Tree, i: nat, path: seq<bool>, x: int)
    requires BinOk(m, t, i) && Located(m, t, i, path, x) && x == Sub(t, path).ring[0]
    requires Ready(m, m1, Sub(t, path), RemoveHere(Sub(t, path), x), i, x, Ptr(RemoveHere(Sub(t, path), x)))
    ensures m1[x].index == i
    ensures (path == []) == (Ptr(t) == x)
    ensures path == [] ==> Remove(t, x) == RemoveHere(Sub(t, path), x)
    ensures path != [] ==> Remove(t, x).Node? && Ptr(Remove(t, x)) == Ptr(t)
    ensures path != [] ==> var a := Above(t, path, BinSlot(i));
              a in m1 && (m1[a].child0 == x) == !path[|path| - 1]
  {
    RepFacts(m, t, BinSlot(i), i);
    PathToFinds(t, x);
    if path != [] {
      AboveOutside(m, t, BinLow(i), BinBits(i), BinSlot(i), i, path);
      ReplacePtr(t, path, RemoveHere(Sub(t, path), x));
    }
  }

  lemma {:induction false} ClearOne(bitmap: nat, i: nat)
    requires bitmap < WORD && i < 32
    ensures Clear(bitmap, i) < WORD
    ensures forall j :: 0 <= j < NTREEBINS ==> Marked(Clear(bitmap, i), j) == (j != i && Marked(bitmap, j))
  {
    ClearIsUpdate(bitmap, i, i);
    forall j | 0 <= j < NTREEBINS ensures Marked(Clear(bitmap, i), j) == (j != i && Marked(bitmap, j)) {
      ClearIsUpdate(bitmap, i, j);
    }
  }

  /** m2 is m1 with the child pointer above x redirected to R. */
  ghost predicate Redirected(m1: Memory, m2: Memory, t: Tree, i: nat, path: seq<bool>, R: int)
    requires IsPath(t, path)
  {
    if path == [] then m2 == m1
    else var a := Above(t, path, BinSlot(i));
         a in m1 && m2 == m1[a := SetChild(m1[a], path[|path| - 1], R)]
  }

  lemma {:induction false} StandingFrame(m: Memory, m': Memory, s': Tree, i: nat, x: int)
    requires Standing(m, s', i, x)
    requires forall a :: a in m && (a in Addrs(s') || a == x) ==> a in m' && m'[a] == m[a]
    ensures Standing(m', s', i, x)
  {
    if s'.Node? {
      Frame(m, m', s'.left, x, i);
      Frame(m, m', s'.right, x, i);
      assert forall j :: 0 <= j < |s'.ring| ==> s'.ring[j] in RingSet(s'.ring);
      RingFrame(m, m', s'.ring, s'.size, i);
    }
  }

  lemma {:induction false} ReplacementShape(t: Tree, i: nat, path: seq<bool>, x: int) returns (lo: nat, k: nat)
    requires Shape(t, BinLow(i), BinBits(i))
    requires IsPath(t, path) && Sub(t, path).Node? && x in Sub(t, path).ring
    ensures var s' := RemoveHere(Sub(t, path), x);
            && Shape(s', lo, k) && k > 0
            && Addrs(s') == Addrs(Sub(t, path)) - {x} && x in Addrs(Sub(t, path))
  {
    var s := Sub(t, path);
    lo, k := SubShape(t, BinLow(i), BinBits(i), path);
    RemoveHereShape(s, x, lo, k);
    assert x in RingSet(s.ring);
    if k == 0 {
      k := 1;
      assert Pow2(1) == 2;
    }
  }

  /** Redirecting the pointer above leaves what stands ready alone. */
  lemma {:induction false} ReadyAfterRedirect(m: Memory, m1: Memory, m2: Memory, t: Tree, i: nat,
                                              path: seq<bool>, x: int, R: int) returns (lo: nat, k: nat)
    requires BinOk(m, t, i) && Located(m, t, i, path, x) && x == Sub(t, path).ring[0]
    requires Ready(m, m1, Sub(t, path), RemoveHere(Sub(t, path), x), i, x, R)
    requires Redirected(m1, m2, t, i, path, R)
    ensures var s' := RemoveHere(Sub(t, path), x);
            && Shape(s', lo, k) && k > 0 && Addrs(s') == Addrs(Sub(t, path)) - {x} && x in Addrs(Sub(t, path))
            && Standing(m2, s', i, x)
  {
    lo, k := ReplacementShape(t, i, path, x);
    if path != [] {
      AboveOutside(m, t, BinLow(i), BinBits(i), BinSlot(i), i, path);
    }
    StandingFrame(m1, m2, RemoveHere(Sub(t, path), x), i, x);
  }

  lemma {:induction false} AdoptSafe(m: Memory, m1: Memory, m2: Memory, t: Tree, i: nat, path: seq<bool>, x: int,
    R: int)
    requires BinOk(m, t, i) && Located(m, t, i, path, x) && x == Sub(t, path).ring[0]
    requires Ready(m, m1, Sub(t, path), RemoveHere(Sub(t, path), x), i, x, R) && R != 0
    requires Redirected(m1, m2, t, i, path, R)
    ensures x in m2 && R in m2 && R != x
    ensures m2[x].child0 != 0 ==> m2[x].child0 in m2
    ensures m2[x].child1 != 0 ==> m2[x].child1 in m2
  {
    var lo, k := ReadyAfterRedirect(m, m1, m2, t, i, path, x, R);
    var s' := RemoveHere(Sub(t, path), x);
    RepFacts(m2, s'.left, x, i);
    RepFacts(m2, s'.right, x, i);
    assert R in RingSet(s'.ring);
  }

  /** Handing x's links over to its replacement. */
  lemma {:induction false} PlaceSub(m2: Memory, m3: Memory, s': Tree, lo: nat, k: nat, i: nat, x: int, above: int)
    requires Shape(s', lo, k) && k > 0 && x !in Addrs(s') && x > 0
    requires Standing(m2, s', i, x) && (s'.Node? ==> x in m2 && Ptr(s') in m2)
    requires m3 == if s'.Leaf? then m2 else Adopt(m2, x, Ptr(s'), above)
    ensures Rep(m3, s', above, i)
    ensures forall a :: a in m2 ==> a in m3 && m3[a].size == m2[a].size
    ensures forall a :: a in m2 && a !in Addrs(s') ==> m3[a] == m2[a]
  {
    if s'.Node? {
      RingDisjoint(s', lo, k);
      AdoptRep(m2, s'.ring, s'.size, s'.left, s'.right, x, above, i, lo, k);
      AdoptSizes(m2, x, Ptr(s'), above);
    }
  }

  lemma AdoptSizes(m: Memory, x: int, r: int, parent: int)
    requires x in m && r in m
    ensures forall a :: a in m ==> a in Adopt(m, x, r, parent) && Adopt(m, x, r, parent)[a].size == m[a].size
  {
  }

  /** With the pointer above redirected and x's links handed over, the tree without x is linked. */
  lemma {:induction false} PlaceRep(m: Memory, m1: Memory, m2: Memory, m3: Memory, t: Tree, i: nat,
                                    path: seq<bool>, x: int, R: int)
    requires BinOk(m, t, i) && Located(m, t, i, path, x) && x == Sub(t, path).ring[0]
    requires Ready(m, m1, Sub(t, path), RemoveHere(Sub(t, path), x), i, x, R)
    requires Redirected(m1, m2, t, i, path, R)
    requires x in m2 && (R != 0 ==> R in m2)
    requires m3 == if R == 0 then m2 else Adopt(m2, x, R, Above(t, path, BinSlot(i)))
    ensures Unlinked(m, m3, t, x, i)
  {
    var s' := RemoveHere(Sub(t, path), x);
    var above := Above(t, path, BinSlot(i));
    var lo, k := ReadyAfterRedirect(m, m1, m2, t, i, path, x, R);
    RepFacts(m, t, BinSlot(i), i);
    SubRep(m, t, BinSlot(i), i, path);
    PlaceSub(m2, m3, s', lo, k, i, x, above);
    if path != [] {
      AboveOutside(m, t, BinLow(i), BinBits(i), BinSlot(i), i, path);
    }
    PlacedBelow(m, m1, m2, m3, t, i, path, x, R, s');
    ReplaceRep(m, m3, t, BinLow(i), BinBits(i), BinSlot(i), i, path, s');
    PathToFinds(t, x);
  }

  lemma {:induction false} PlacedBelow(m: Memory, m1: Memory, m2: Memory, m3: Memory, t: Tree, i: nat,
                                       path: seq<bool>, x: int, R: int, s': Tree)
    requires IsPath(t, path) && R == Ptr(s') && Addrs(s') <= Addrs(Sub(t, path)) <= Addrs(t)
    requires forall a :: a in Addrs(t) ==> a in m
    requires forall a :: a in m ==> a in m1 && m1[a].size == m[a].size
    requires forall a :: a in m && a !in Addrs(Sub(t, path)) ==> m1[a] == m[a]
    requires Redirected(m1, m2, t, i, path, R)
    requires path != [] ==> Above(t, path, BinSlot(i)) in Addrs(t) && Above(t, path, BinSlot(i)) !in Addrs(Sub(t, path))
    requires forall a :: a in m2 ==> a in m3 && m3[a].size == m2[a].size
    requires forall a :: a in m2 && a !in Addrs(s') ==> m3[a] == m2[a]
    ensures Relinked(m, m3, t, path, BinSlot(i), s')
    ensures forall a :: a in m ==> a in m3 && m3[a].size == m[a].size
    ensures forall a :: a in m && a !in Addrs(t) ==> m3[a] == m[a]
  {
  }

  lemma RingDisjoint(t: Tree, lo: nat, k: nat)
    requires t.Node? && Shape(t, lo, k)
    ensures NoDup(t.ring) && Addrs(t) == RingSet(t.ring) + Addrs(t.left) + Addrs(t.right)
    ensures RingSet(t.ring) !! Addrs(t.left) && RingSet(t.ring) !! Addrs(t.right) && Addrs(t.left) !! Addrs(t.right)
  {
  }

  /** Removing a chained chunk keeps the bin's root and its mark. */
  lemma {:induction false} MemberStays(m: Memory, roots: seq<int>, bitmap: nat, trees: seq<Tree>,
                                       i: nat, path: seq<bool>, x: int)
    requires Consistent(m, roots, bitmap, trees) && i < NTREEBINS && Located(m, trees[i], i, path, x)
    requires x != Sub(trees[i], path).ring[0]
    ensures roots == roots[i := Ptr(Remove(trees[i], x))]
    ensures Remove(trees[i], x).Node?
    ensures forall j :: 0 <= j < NTREEBINS ==> Marked(bitmap, j) == if j == i then true else Marked(bitmap, j)
  {
    var t := trees[i];
    PathToFinds(t, x);
    assert BinOk(m, t, i);
    if path != [] { ReplacePtr(t, path, RemoveHere(Sub(t, path), x)); }
  }

  lemma {:induction false} FinishRemove(m: Memory, m': Memory, roots: seq<int>, bitmap: nat, bitmap': nat,
                                        trees: seq<Tree>, i: nat, x: int)
    requires Consistent(m, roots, bitmap, trees) && i < NTREEBINS && x in Addrs(trees[i])
    requires Unlinked(m, m', trees[i], x, i) && bitmap' < WORD
    requires forall j :: 0 <= j < NTREEBINS ==>
               Marked(bitmap', j) == if j == i then Remove(trees[i], x).Node? else Marked(bitmap, j)
    ensures var t' := Remove(trees[i], x);
            && Consistent(m', roots[i := Ptr(t')], bitmap', trees[i := t'])
            && Holdings(m', trees[i := t']) == Holdings(m, trees) - {x}
  {
    var t' := Remove(trees[i], x);
    RemovedBin(m, m', roots, bitmap, trees, i, x);
    assert forall a :: a in Held(trees) ==> a in m && a in m' && m'[a].size == m[a].size by {
      HeldFacts(m, roots, bitmap, trees);
    }
    assert forall a :: a in Held(trees) && a !in Addrs(trees[i]) ==> m'[a] == m[a];
    OneBin(m, roots, bitmap, trees, m', bitmap', i, t');
    RemovedHoldings(m, m', trees, i, t', x);
  }

  lemma {:induction false} RemovedBin(m: Memory, m': Memory, roots: seq<int>, bitmap: nat, trees: seq<Tree>, i: nat,
    x: int)
    requires Consistent(m, roots, bitmap, trees) && i < NTREEBINS && x in Addrs(trees[i])
    requires Unlinked(m, m', trees[i], x, i)
    ensures BinOk(m', Remove(trees[i], x), i) && Addrs(Remove(trees[i], x)) == Addrs(trees[i]) - {x}
  {
    assert BinOk(m, trees[i], i);
    RemoveSets(trees[i], x, BinLow(i), BinBits(i));
    RemoveShape(trees[i], x, BinLow(i), BinBits(i));
  }

  lemma {:induction false} RemovedHoldings(m: Memory, m': Memory, trees: seq<Tree>, i: nat, t': Tree, x: int)
    requires i < |trees| && x in Addrs(trees[i]) && Addrs(t') == Addrs(trees[i]) - {x}
    requires forall j, k :: 0 <= j < k < |trees| ==> Addrs(trees[j]) !! Addrs(trees[k])
    requires forall a :: a in Held(trees) ==> a in m && a in m' && m'[a].size == m[a].size
    ensures Holdings(m', trees[i := t']) == Holdings(m, trees) - {x}
  {
    assert Held(trees[i := t']) == Held(trees) - {x} by {
      OneBinHoldings(trees, i, t');
      assert Addrs(trees[i]) <= Held(trees);
    }
    var h, h' := Holdings(m, trees) - {x}, Holdings(m', trees[i := t']);
    assert h.Keys == h'.Keys;
    forall a | a in h ensures h[a] == h'[a] { }
  }

  // ----- the search of tmalloc_large -----

  /** The best candidate so far. */
  ghost predicate Candidate(m: Memory, whole: Tree, nb: nat, v: int, rsize: nat) {
    && 0 < nb < WORD && rsize <= WORD - nb
    && (v == 0 ==> rsize == WORD - nb)
    && (v != 0 ==> v in Addrs(whole) && v in m && m[v].size == nb + rsize && m[v].parent != 0)
  }

  /** t is a linked subtree of the trie in bin idx. */
  ghost predicate Within(m: Memory, t: Tree, whole: Tree, idx: nat) {
    && Addrs(t) <= Addrs(whole)
    && (t.Node? ==> t.ring != [] && t.ring[0] in m && m[t.ring[0]].parent != 0 && Rep(m, t, m[t.ring[0]].parent, idx))
  }

  /** What the walk down the path ends with: the best candidate on it, and the one subtree still to be searched. */
  ghost predicate PathDone(m: Memory, whole: Tree, idx: nat, nb: nat, v: int, rsize: nat, t: int, rest: Tree) {
    && Candidate(m, whole, nb, v, rsize) && Pending(whole, nb, rsize, rest)
    && Within(m, rest, whole, idx) && t == Ptr(rest)
  }

  lemma {:induction false} WithinPtr(m: Memory, t: Tree, whole: Tree, idx: nat)
    requires Within(m, t, whole, idx)
    ensures (Ptr(t) == 0) == t.Leaf?
  {
    if t.Node? { RepFacts(m, t, m[t.ring[0]].parent, idx); }
  }

  lemma {:induction false} SearchStart(m: Memory, roots: seq<int>, bitmap: nat, trees: seq<Tree>, nb: nat, idx: nat)
    requires Consistent(m, roots, bitmap, trees) && InBin(nb, idx)
    requires BinLow(idx) <= nb < BinLow(idx) + Pow2(BinBits(idx))
    ensures BinOk(m, trees[idx], idx) && Within(m, trees[idx], trees[idx], idx)
    ensures roots[idx] == Ptr(trees[idx]) && (roots[idx] == 0) == trees[idx].Leaf?
    ensures OnPath(trees[idx], nb, WORD - nb, trees[idx], Leaf, BinLow(idx), BinBits(idx))
  {
    assert BinOk(m, trees[idx], idx);
    RepFacts(m, trees[idx], BinSlot(idx), idx);
    StartOnPath(trees[idx], nb, WORD - nb, BinLow(idx), BinBits(idx));
  }

  lemma {:induction false} PathKey(nb: nat, idx: nat)
    requires MIN_LARGE_SIZE <= nb < WORD && idx == TreeBin(nb)
    ensures InBin(nb, idx) && BinLow(idx) <= nb < BinLow(idx) + Pow2(BinBits(idx)) && Neg(nb) == WORD - nb
    ensures IsKey(Shl(nb, LeftShift(idx)) % WORD, nb, BinLow(idx), BinBits(idx))
  {
    BinIsRange(nb, idx);
    KeyStart(nb, idx);
  }

  /** What the loops read at a tree member. */
  lemma {:induction false} MemberFacts(m: Memory, whole: Tree, idx: nat, sub: Tree, nb: nat, rsize: nat)
    requires BinOk(m, whole, idx) && Within(m, sub, whole, idx) && sub.Node? && idx < NTREEBINS
    requires 0 < nb < WORD && rsize <= WORD - nb
    ensures var t := Ptr(sub);
            && t in m && t > 0 && t in Addrs(whole) && m[t].size == sub.size < WORD
            && (Minus(sub.size, nb) < rsize) == (nb <= sub.size < nb + rsize)
            && (sub.size >= nb ==> Minus(sub.size, nb) == sub.size - nb)
            && m[t].child0 == Ptr(sub.left) && m[t].child1 == Ptr(sub.right)
            && (m[t].child0 == 0) == sub.left.Leaf? && (m[t].child1 == 0) == sub.right.Leaf?
    ensures Within(m, sub.left, whole, idx) && Within(m, sub.right, whole, idx)
    ensures Addrs(sub.left) !! Addrs(sub.right) ==>
              forall right :: (Ptr(sub.right) != 0 && Ptr(sub.right) != Ptr(Taken(sub, right)))
                              == (sub.right.Node? && !right)
  {
    var p := m[sub.ring[0]].parent;
    RepFacts(m, sub, p, idx);
    RepFacts(m, whole, BinSlot(idx), idx);
    RepFacts(m, sub.left, Ptr(sub), idx);
    RepFacts(m, sub.right, Ptr(sub), idx);
    assert InBin(m[Ptr(sub)].size, idx);
    RemainderTest(sub.size, nb, rsize);
  }

  lemma {:induction false} PathBranch(whole: Tree, nb: nat, rsize: nat, sub: Tree, rest: Tree, lo: nat, k: nat,
    key: nat)
    requires OnPath(whole, nb, rsize, sub, rest, lo, k) && sub.Node? && Settled(nb, rsize, sub.size)
    requires IsKey(key, nb, lo, k)
    ensures var right := Shr(key, 31) == 1;
            && (Taken(sub, right).Leaf? ==> Pending(whole, nb, rsize, Untaken(sub, rest, right)))
            && (Taken(sub, right).Node? ==>
                  && k > 0
                  && OnPath(whole, nb, rsize, Taken(sub, right), Untaken(sub, rest, right),
                            if right then lo + Pow2(k - 1) else lo, k - 1)
                  && IsKey(2 * key % WORD, nb, if right then lo + Pow2(k - 1) else lo, k - 1))
            && Addrs(sub.left) !! Addrs(sub.right)
  {
    var right := Shr(key, 31) == 1;
    HalvesOf(sub, lo, k);
    if k > 0 {
      KeyStep(key, nb, lo, k);
      BranchDown(whole, nb, rsize, sub, rest, lo, k);
      if Taken(sub, right).Leaf? {
        PathEnds(whole, nb, rsize, Untaken(sub, rest, right), if right then lo + Pow2(k - 1) else lo, k - 1);
      }
    }
  }

  lemma NothingFits(whole: Tree, nb: nat, rsize: nat)
    requires Pending(whole, nb, rsize, Leaf) && nb + rsize == WORD
    ensures forall z :: z in Sizes(whole) && z < WORD ==> z < nb
  {
  }

  /** When nothing is pending in the bin of nb, the next marked bin holds the best fit. */
  lemma {:induction false} NextBin(m: Memory, roots: seq<int>, bitmap: nat, trees: seq<Tree>, nb: nat, idx: nat)
    requires Consistent(m, roots, bitmap, trees) && InBin(nb, idx)
    ensures var leftbits := And(LeftBits(Pow2(idx)), bitmap);
            && (leftbits == 0 ==> forall j :: idx < j < NTREEBINS ==> trees[j].Leaf?)
            && (leftbits != 0 ==>
                  var i := Bit2Idx(LeastBit(leftbits));
                  && idx < i < NTREEBINS && trees[i].Node? && roots[i] == Ptr(trees[i]) != 0
                  && (forall j :: idx < j < i ==> trees[j].Leaf?)
                  && Within(m, trees[i], trees[i], i)
                  && Pending(trees[i], nb, WORD - nb, trees[i]))
  {
    var leftbits := And(LeftBits(Pow2(idx)), bitmap);
    assert leftbits < WORD by { LeftBitsAbove(bitmap, idx, 0); }
    forall j | 0 <= j < NTREEBINS ensures Marked(leftbits, j) == (idx < j && trees[j].Node?) {
      LeftBitsAbove(bitmap, idx, j);
    }
    if leftbits == 0 {
      forall j | idx < j < NTREEBINS ensures trees[j].Leaf? { NoneMarked(j); }
    } else {
      FirstMarked(leftbits);
      FreshSearch(m, trees[Bit2Idx(LeastBit(leftbits))], Bit2Idx(LeastBit(leftbits)), nb, idx);
    }
  }

  /** The first marked bin holds the smallest large chunks. */
  lemma {:induction false} SmallestBin(m: Memory, roots: seq<int>, bitmap: nat, trees: seq<Tree>, nb: nat, i: nat)
    requires Consistent(m, roots, bitmap, trees) && bitmap != 0 && i == Bit2Idx(LeastBit(bitmap))
    requires 0 < nb < MIN_LARGE_SIZE
    ensures i < NTREEBINS && trees[i].Node? && roots[i] == Ptr(trees[i]) && BinOk(m, trees[i], i)
    ensures forall j :: 0 <= j < i ==> trees[j].Leaf?
    ensures Within(m, trees[i], trees[i], i) && Pending(trees[i], nb, WORD - nb, trees[i])
  {
    FirstMarked(bitmap);
    assert BinOk(m, trees[i], i);
    RepFacts(m, trees[i], BinSlot(i), i);
    ShapeOrdered(trees[i], BinLow(i), BinBits(i));
  }

  lemma {:induction false} SmallestDone(m: Memory, roots: seq<int>, bitmap: nat, trees: seq<Tree>, nb: nat,
                                        i: nat, v: int, rsize: nat)
    requires Consistent(m, roots, bitmap, trees) && 0 < nb < MIN_LARGE_SIZE && i < NTREEBINS
    requires forall j :: 0 <= j < i ==> trees[j].Leaf?
    requires Candidate(m, trees[i], nb, v, rsize) && Pending(trees[i], nb, rsize, Leaf) && v != 0
    ensures var c := Holdings(m, trees); v in c && c[v] == nb + rsize && forall a :: a in c ==> c[v] <= c[a]
  {
    HeldFacts(m, roots, bitmap, trees);
    assert v in Held(trees) && InBin(m[v].size, i);
    forall a | a in Held(trees) ensures m[v].size <= m[a].size {
      var j := m[a].index;
      if j > i {
        BinsOrdered(m[v].size, i, m[a].size, j);
      } else {
        assert BinOk(m, trees[i], i) && j == i;
        RepFacts(m, trees[i], BinSlot(i), i);
      }
    }
  }

  lemma {:induction false} BinsOrdered(s: nat, i: nat, t: nat, j: nat)
    requires InBin(s, i) && InBin(t, j) && i < j
    ensures s < t
  {
    if i + 1 < j { MinSizeMonotone(i + 1, j); }
  }

  lemma {:induction false} FreshSearch(m: Memory, t: Tree, i: nat, nb: nat, idx: nat)
    requires BinOk(m, t, i) && InBin(nb, idx) && idx < i && t.Node?
    ensures Pending(t, nb, WORD - nb, t) && Within(m, t, t, i) && Ptr(t) != 0
  {
    RepFacts(m, t, BinSlot(i), i);
    ShapeOrdered(t, BinLow(i), BinBits(i));
    forall z | z in Sizes(t) ensures z >= nb {
      BinsOrdered(nb, idx, z, i);
    }
  }

  /** Nothing pending: the candidate is the best fit of all tree bins. */
  lemma {:induction false} SearchDone(m: Memory, roots: seq<int>, bitmap: nat, trees: seq<Tree>, nb: nat,
                                      idx: nat, bin: nat, exhausted: bool, v: int, rsize: nat)
    requires Consistent(m, roots, bitmap, trees) && InBin(nb, idx) && idx <= bin < NTREEBINS
    requires Candidate(m, trees[bin], nb, v, rsize) && Pending(trees[bin], nb, rsize, Leaf) && (v != 0 || exhausted)
    requires idx < bin ==> !exhausted && forall z :: z in Sizes(trees[idx]) && z < WORD ==> z < nb
    requires forall j :: idx < j < bin ==> trees[j].Leaf?
    requires exhausted ==> forall j :: idx < j < NTREEBINS ==> trees[j].Leaf?
    ensures var c := Holdings(m, trees);
            && (v == 0 ==> forall a :: a in c ==> c[a] < nb)
            && (v != 0 ==> v in c && c[v] == nb + rsize && forall a :: a in c && c[a] >= nb ==> c[v] <= c[a])
  {
    HeldFacts(m, roots, bitmap, trees);
    forall a | a in Held(trees) && m[a].size >= nb
      ensures v != 0 && m[v].size <= m[a].size
    {
      SearchDoneAt(m, roots, bitmap, trees, nb, idx, bin, exhausted, v, rsize, a);
    }
  }

  lemma {:induction false} SearchDoneAt(m: Memory, roots: seq<int>, bitmap: nat, trees: seq<Tree>, nb: nat,
                                        idx: nat, bin: nat, exhausted: bool, v: int, rsize: nat, a: int)
    requires Consistent(m, roots, bitmap, trees) && InBin(nb, idx) && idx <= bin < NTREEBINS
    requires Candidate(m, trees[bin], nb, v, rsize) && Pending(trees[bin], nb, rsize, Leaf) && (v != 0 || exhausted)
    requires idx < bin ==> !exhausted && forall z :: z in Sizes(trees[idx]) && z < WORD ==> z < nb
    requires forall j :: idx < j < bin ==> trees[j].Leaf?
    requires exhausted ==> forall j :: idx < j < NTREEBINS ==> trees[j].Leaf?
    requires a in Held(trees) && a in m && m[a].size >= nb
    ensures v != 0 && v in m && m[v].size <= m[a].size
  {
    var j :| 0 <= j < |trees| && a in Addrs(trees[j]);
    BinSizes(m, roots, bitmap, trees, j, a);
    if j < idx {
      BinsOrdered(m[a].size, j, nb, idx);
    } else if j > bin {
      if v != 0 {
        BinSizes(m, roots, bitmap, trees, bin, v);
        BinsOrdered(m[v].size, bin, m[a].size, j);
      }
    } else if j == bin {
      assert Settled(nb, rsize, m[a].size);
    }
  }

  /** The sizes in a bin are those of its range. */
  lemma {:induction false} BinSizes(m: Memory, roots: seq<int>, bitmap: nat, trees: seq<Tree>, j: nat, a: int)
    requires Consistent(m, roots, bitmap, trees) && j < NTREEBINS && a in Addrs(trees[j])
    ensures a in m && m[a].size in Sizes(trees[j]) && InBin(m[a].size, j)
  {
    assert BinOk(m, trees[j], j);
    RepFacts(m, trees[j], BinSlot(j), j);
  }

  /** The tries after a chunk was inserted into bin i. */
  ghost function Inserted(trees: seq<Tree>, x: int, size: nat, i: nat): seq<Tree>
    requires i < |trees|
  {
    trees[i := Insert(trees[i], x, size, BinLow(i), BinBits(i))]
  }

  lemma {:induction false} MarkOne(bitmap: nat, i: nat)
    requires bitmap < WORD && i < 32
    ensures Mark(bitmap, i) < WORD
    ensures forall j :: 0 <= j < NTREEBINS ==> Marked(Mark(bitmap, i), j) == (j == i || Marked(bitmap, j))
  {
    MarkIsUpdate(bitmap, i, i);
    forall j | 0 <= j < NTREEBINS ensures Marked(Mark(bitmap, i), j) == (j == i || Marked(bitmap, j)) {
      MarkIsUpdate(bitmap, i, j);
    }
  }

  // ----- the walk of insert_large_chunk -----

  /** The walk stands at tree member T, at path, in the range [lo, lo + 2^k), with shifted key K. */
  ghost predicate At(t: Tree, x: int, size: nat, i: nat, path: seq<bool>, lo: nat, k: nat, K: nat, T: int) {
    && IsPath(t, path) && Sub(t, path).Node? && T == Ptr(Sub(t, path))
    && Shape(Sub(t, path), lo, k)
    && IsKey(K, size, lo, k)
    && Insert(t, x, size, BinLow(i), BinBits(i)) == Replace(t, path, Insert(Sub(t, path), x, size, lo, k))
  }

  /** What holds of the memory while it is searched or after x was linked in: the new tree is linked,
      everything outside the tree is untouched, and no chunk changed its size. */
  ghost predicate Linkage(m: Memory, m': Memory, t: Tree, x: int, size: nat, i: nat) {
    && Rep(m', Insert(t, x, size, BinLow(i), BinBits(i)), BinSlot(i), i)
    && (forall a :: a in m && a != x && a !in Addrs(t) ==> a in m' && m'[a] == m[a])
    && (forall a :: a in Addrs(t) ==> a in m && a in m' && m'[a].size == m[a].size)
    && x in m' && m'[x].size == size
  }

  lemma {:induction false} InsertStart(m: Memory, roots: seq<int>, bitmap: nat, trees: seq<Tree>, x: int, size: nat,
    i: nat)
    requires Consistent(m, roots, bitmap, trees) && x !in Holdings(m, trees) && x > 0
    requires MIN_LARGE_SIZE <= size < WORD && i == TreeBin(size)
    ensures InBin(size, i) && BinLow(i) <= size < BinLow(i) + Pow2(BinBits(i))
    ensures BinOk(m, trees[i], i) && x !in Addrs(trees[i]) && x !in Held(trees)
    ensures roots[i] == Ptr(trees[i]) && Marked(bitmap, i) == trees[i].Node?
    ensures trees[i].Node? ==>
              At(trees[i], x, size, i, [], BinLow(i), BinBits(i), Shl(size, LeftShift(i)) % WORD, roots[i])
    ensures trees[i].Leaf? ==>
              Linkage(m, m[x := Chunk(size, x, x, 0, 0, BinSlot(i), i)], trees[i], x, size, i)
  {
    BinIsRange(size, i);
    KeyStart(size, i);
    NotHeld(m, roots, bitmap, trees, x);
    if trees[i].Leaf? { FreshBin(m, x, size, i); }
  }

  lemma {:induction false} NotHeld(m: Memory, roots: seq<int>, bitmap: nat, trees: seq<Tree>, x: int)
    requires Consistent(m, roots, bitmap, trees) && x !in Holdings(m, trees)
    ensures x !in Held(trees)
    ensures forall i :: 0 <= i < NTREEBINS ==> x !in Addrs(trees[i])
  {
    HeldFacts(m, roots, bitmap, trees);
  }

  lemma {:induction false} FreshBin(m: Memory, x: int, size: nat, i: nat)
    requires x > 0
    ensures Linkage(m, m[x := Chunk(size, x, x, 0, 0, BinSlot(i), i)], Leaf, x, size, i)
  {
    var m' := m[x := Chunk(size, x, x, 0, 0, BinSlot(i), i)];
    var n := Node([x], size, Leaf, Leaf);
    assert Linked(m', n.ring, 0);
    assert RingRep(m', n.ring, size, i);
    assert Rep(m', n, BinSlot(i), i);
    assert Insert(Leaf, x, size, BinLow(i), BinBits(i)) == n;
  }

  lemma {:induction false} WalkStep(m: Memory, t: Tree, x: int, size: nat, i: nat, path: seq<bool>,
                                    lo: nat, k: nat, K: nat, T: int)
    requires BinOk(m, t, i) && At(t, x, size, i, path, lo, k, K, T)
    ensures T in m && m[T].size == Sub(t, path).size && m[T].fd in m
    ensures m[T].size != size ==>
              var right := Shr(K, 31) == 1;
              var C := if right then m[T].child1 else m[T].child0;
              && k > 0 && right == (size >= lo + Pow2(k - 1))
              && (C == 0 ==> (if right then Sub(t, path).right else Sub(t, path).left).Leaf?)
              && (C != 0 ==> At(t, x, size, i, path + [right], if right then lo + Pow2(k - 1) else lo, k - 1,
                                2 * K % WORD, C))
  {
    var s := Sub(t, path);
    SubRep(m, t, BinSlot(i), i, path);
    assert Linked(m, s.ring, 0);
    if s.size != size {
      KeyStep(K, size, lo, k);
      var right := size >= lo + Pow2(k - 1);
      var lo' := if right then lo + Pow2(k - 1) else lo;
      var c := if right then s.right else s.left;
      PathStep(t, path, right, BinSlot(i));
      ReplaceStep(t, path, right, Insert(c, x, size, lo', k - 1));
      RepFacts(m, c, T, i);
    }
  }

  lemma {:induction false} WalkAttach(m: Memory, m': Memory, t: Tree, x: int, size: nat, i: nat, path: seq<bool>,
                                      lo: nat, k: nat, right: bool, T: int)
    requires BinOk(m, t, i) && x > 0 && x !in Addrs(t) && IsPath(t, path) && Sub(t, path).Node?
    requires T == Ptr(Sub(t, path)) && T in m && k > 0
    requires Insert(t, x, size, BinLow(i), BinBits(i)) == Replace(t, path, Insert(Sub(t, path), x, size, lo, k))
    requires Sub(t, path).size != size && right == (size >= lo + Pow2(k - 1))
    requires (if right then Sub(t, path).right else Sub(t, path).left).Leaf?
    requires m' == m[T := SetChild(m[T], right, x)][x := Chunk(size, x, x, 0, 0, T, i)]
    ensures Linkage(m, m', t, x, size, i)
  {
    assert T in Addrs(t) by {
      SubRep(m, t, BinSlot(i), i, path);
      RepFacts(m, Sub(t, path), Above(t, path, BinSlot(i)), i);
    }
    assert Rep(m', Insert(t, x, size, BinLow(i), BinBits(i)), BinSlot(i), i) by {
      AttachLeaf(m, m', t, BinLow(i), BinBits(i), BinSlot(i), i, path, right, x, size);
      ReplaceStep(t, path, right, Node([x], size, Leaf, Leaf));
    }
    RepFacts(m, t, BinSlot(i), i);
  }

  lemma {:induction false} WalkChain(m: Memory, m': Memory, t: Tree, x: int, size: nat, i: nat, path: seq<bool>,
                                     lo: nat, k: nat, F: int, T: int)
    requires BinOk(m, t, i) && x > 0 && x !in Addrs(t) && IsPath(t, path) && Sub(t, path).Node?
    requires T == Ptr(Sub(t, path)) && T in m && F == m[T].fd && F in m
    requires Insert(t, x, size, BinLow(i), BinBits(i)) == Replace(t, path, Insert(Sub(t, path), x, size, lo, k))
    requires Sub(t, path).size == size
    requires var m1 := m[F := m[F].(bk := x)];
             m' == m1[T := m1[T].(fd := x)][x := Chunk(size, F, T, 0, 0, 0, i)]
    ensures Linkage(m, m', t, x, size, i)
  {
    assert Rep(m', Insert(t, x, size, BinLow(i), BinBits(i)), BinSlot(i), i) by {
      AttachChain(m, m', t, BinLow(i), BinBits(i), BinSlot(i), i, path, x);
    }
    assert F in Addrs(t) && T in Addrs(t) by { RingInside(m, t, i, path); }
    assert forall a :: a in Addrs(t) ==> a in m by { RepFacts(m, t, BinSlot(i), i); }
    ChainSizes(m, x, size, i, F, T);
  }

  lemma ChainSizes(m: Memory, x: int, size: nat, i: nat, F: int, T: int)
    requires T in m && F in m
    ensures var m1 := m[F := m[F].(bk := x)];
            var m' := m1[T := m1[T].(fd := x)][x := Chunk(size, F, T, 0, 0, 0, i)];
            && x in m' && m'[x].size == size
            && forall a :: a in m && a != x ==>
                 a in m' && m'[a].size == m[a].size && (a != F && a != T ==> m'[a] == m[a])
  {
  }

  lemma {:induction false} RingInside(m: Memory, t: Tree, i: nat, path: seq<bool>)
    requires Rep(m, t, BinSlot(i), i) && IsPath(t, path) && Sub(t, path).Node?
    ensures var T := Ptr(Sub(t, path)); T in m && T in Addrs(t) && m[T].fd in Addrs(t)
  {
    var s := Sub(t, path);
    SubRep(m, t, BinSlot(i), i, path);
    assert Linked(m, s.ring, 0);
    assert forall j :: 0 <= j < |s.ring| ==> s.ring[j] in RingSet(s.ring);
  }

  lemma {:induction false} FinishInsert(m: Memory, m': Memory, roots: seq<int>, bitmap: nat, bitmap': nat,
                                        trees: seq<Tree>, i: nat, x: int, size: nat)
    requires Consistent(m, roots, bitmap, trees)
    requires InBin(size, i) && BinLow(i) <= size < BinLow(i) + Pow2(BinBits(i))
    requires x !in Held(trees) && bitmap' < WORD
    requires forall j :: 0 <= j < NTREEBINS ==> Marked(bitmap', j) == (j == i || Marked(bitmap, j))
    requires Linkage(m, m', trees[i], x, size, i)
    ensures Consistent(m', if trees[i].Leaf? then roots[i := x] else roots, bitmap', Inserted(trees, x, size, i))
    ensures Holdings(m', Inserted(trees, x, size, i)) == Holdings(m, trees)[x := size]
  {
    var t := Insert(trees[i], x, size, BinLow(i), BinBits(i));
    assert BinOk(m, trees[i], i);
    InsertedBin(m, m', trees[i], i, x, size);
    ChangedBin(m, roots, bitmap, trees, m', bitmap', i, x, t);
    InsertedHoldings(m, m', roots, bitmap, trees, i, x, size);
  }

  lemma {:induction false} InsertedHoldings(m: Memory, m': Memory, roots: seq<int>, bitmap: nat, trees: seq<Tree>,
                                            i: nat, x: int, size: nat)
    requires Consistent(m, roots, bitmap, trees) && i < NTREEBINS && x !in Held(trees)
    requires Addrs(Inserted(trees, x, size, i)[i]) == Addrs(trees[i]) + {x}
    requires Linkage(m, m', trees[i], x, size, i)
    ensures Holdings(m', Inserted(trees, x, size, i)) == Holdings(m, trees)[x := size]
  {
    OneBinHoldings(trees, i, Inserted(trees, x, size, i)[i]);
    HeldFacts(m, roots, bitmap, trees);
    AddedHoldings(m, m', trees, Inserted(trees, x, size, i), i, x, size);
  }

  lemma {:induction false} ChangedBin(m: Memory, roots: seq<int>, bitmap: nat, trees: seq<Tree>,
                                      m': Memory, bitmap': nat, i: nat, x: int, t: Tree)
    requires Consistent(m, roots, bitmap, trees) && i < NTREEBINS && x !in Held(trees) && bitmap' < WORD
    requires forall j :: 0 <= j < NTREEBINS ==> Marked(bitmap', j) == (j == i || Marked(bitmap, j))
    requires BinOk(m', t, i) && t.Node? && Addrs(t) == Addrs(trees[i]) + {x}
    requires forall a :: a in m && a != x && a !in Addrs(trees[i]) ==> a in m' && m'[a] == m[a]
    requires Ptr(t) == if trees[i].Leaf? then x else Ptr(trees[i])
    ensures Consistent(m', if trees[i].Leaf? then roots[i := x] else roots, bitmap', trees[i := t])
  {
    HeldFacts(m, roots, bitmap, trees);
    OneBin(m, roots, bitmap, trees, m', bitmap', i, t);
    assert roots[i := roots[i]] == roots;
  }

  lemma {:induction false} AddedHoldings(m: Memory, m': Memory, trees: seq<Tree>, trees': seq<Tree>,
                                         i: nat, x: int, size: nat)
    requires i < |trees| && Held(trees') == (Held(trees) - Addrs(trees[i])) + (Addrs(trees[i]) + {x})
    requires Addrs(trees[i]) <= Held(trees) && x !in Held(trees)
    requires forall a :: a in Held(trees) ==> a in m && a in m' && m'[a].size == m[a].size
    requires x in m' && m'[x].size == size
    ensures Holdings(m', trees') == Holdings(m, trees)[x := size]
  {
    assert Held(trees') == Held(trees) + {x};
  }

  lemma {:induction false} InsertedBin(m: Memory, m': Memory, t: Tree, i: nat, x: int, size: nat)
    requires BinOk(m, t, i) && InBin(size, i) && x !in Addrs(t)
    requires BinLow(i) <= size < BinLow(i) + Pow2(BinBits(i))
    requires Linkage(m, m', t, x, size, i)
    ensures BinOk(m', Insert(t, x, size, BinLow(i), BinBits(i)), i)
    ensures Addrs(Insert(t, x, size, BinLow(i), BinBits(i))) == Addrs(t) + {x}
    ensures Insert(t, x, size, BinLow(i), BinBits(i)).Node?
    ensures Ptr(Insert(t, x, size, BinLow(i), BinBits(i))) == if t.Leaf? then x else Ptr(t)
  {
    InsertSets(t, x, size, BinLow(i), BinBits(i));
    InsertShape(t, x, size, BinLow(i), BinBits(i));
    InsertedRoot(t, x, size, BinLow(i), BinBits(i));
  }

  /** A chunk that is inserted does not become the root, unless it is the first. */
  lemma {:induction false} InsertedRoot(t: Tree, x: int, size: nat, lo: nat, k: nat)
    requires Shape(t, lo, k)
    ensures Insert(t, x, size, lo, k).Node?
    ensures Ptr(Insert(t, x, size, lo, k)) == if t.Leaf? then x else Ptr(t)
  {
  }

  /** An empty map of bins means that no large chunk is held. */
  lemma {:induction false} NoneHeld(m: Memory, roots: seq<int>, bitmap: nat, trees: seq<Tree>)
    requires Consistent(m, roots, bitmap, trees) && bitmap == 0
    ensures Holdings(m, trees) == map[]
  {
    forall i | 0 <= i < NTREEBINS ensures trees[i].Leaf? { NoneMarked(i); }
    assert Held(trees) == {};
    assert Holdings(m, trees).Keys == {};
  }
}
