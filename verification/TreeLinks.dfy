/** What the pointer updates of insert_large_chunk and unlink_large_chunk do to a linked trie. */
module TreeLinks {
  import opened Bits
  import opened Sequences
  import opened Trie

  // ----- insertion -----

  /** Hanging a new leaf below the node at path. */
  lemma {:induction false} AttachLeaf(m: Memory, m': Memory, t: Tree, lo: nat, k: nat, parent: int, index: nat,
                                      path: seq<bool>, d: bool, x: int, size: nat)
    requires Rep(m, t, parent, index) && Shape(t, lo, k) && IsPath(t, path) && Sub(t, path).Node?
    requires (if d then Sub(t, path).right else Sub(t, path).left).Leaf?
    requires x > 0 && x !in Addrs(t)
    requires Ptr(Sub(t, path)) in m
    requires var p := Ptr(Sub(t, path));
             m' == m[p := SetChild(m[p], d, x)][x := Chunk(size, x, x, 0, 0, p, index)]
    ensures IsPath(t, path + [d])
    ensures Rep(m', Replace(t, path + [d], Node([x], size, Leaf, Leaf)), parent, index)
  {
    var leaf, p := Node([x], size, Leaf, Leaf), Ptr(Sub(t, path));
    PathStep(t, path, d, parent);
    assert Rep(m', leaf, p, index) by { assert Linked(m', [x], 0); }
    assert p in Addrs(t) && p in m by {
      SubRep(m, t, parent, index, path);
      RepFacts(m, Sub(t, path), Above(t, path, parent), index);
    }
    assert Relinked(m, m', t, path + [d], parent, leaf) by {
      RepFacts(m, t, parent, index);
      assert (path + [d])[|path + [d]| - 1] == d;
    }
    ReplaceRep(m, m', t, lo, k, parent, index, path + [d], leaf);
  }

  /** Linking x in behind the first of a ring. */
  lemma {:induction false} ChainedLinks(m: Memory, m': Memory, ring: seq<int>, x: int)
    requires |ring| > 0 && Ring(m, ring) && NoDup(ring) && x !in ring
    requires ring[0] in m && m[ring[0]].fd in m
    requires var t := ring[0];
             var f := m[t].fd;
             && x in m' && m'[x].fd == f && m'[x].bk == t
             && (forall a :: a in ring && a in m ==>
                   && a in m'
                   && m'[a].fd == (if a == t then x else m[a].fd)
                   && m'[a].bk == (if a == f then x else m[a].bk))
    ensures Ring(m', Chained(ring, x))
  {
    var r := Chained(ring, x);
    Distinct(ring);
    assert Linked(m, ring, 0);
    forall i | 0 <= i < |r| ensures Linked(m', r, i) {
      assert r[i] == if i == 0 then ring[0] else if i == 1 then x else ring[i - 1];
      if i > 1 { assert Linked(m, ring, i - 1); }
    }
  }

  lemma {:induction false} ChainedRing(m: Memory, m': Memory, ring: seq<int>, x: int, size: nat, index: nat)
    requires |ring| > 0 && RingRep(m, ring, size, index) && NoDup(ring) && x > 0 && x !in ring
    requires var t := ring[0];
             var f := m[t].fd;
             f in m && var m1 := m[f := m[f].(bk := x)];
             m' == m1[t := m1[t].(fd := x)][x := Chunk(size, f, t, 0, 0, 0, index)]
    ensures RingRep(m', Chained(ring, x), size, index)
  {
    var r := Chained(ring, x);
    assert Linked(m, ring, 0);
    ChainedLinks(m, m', ring, x);
    assert forall i :: 0 <= i < |r| ==> r[i] == if i == 0 then ring[0] else if i == 1 then x else ring[i - 1];
  }

  /** The chained node itself, with its subtrees untouched. */
  lemma {:induction false} ChainedNode(m: Memory, m': Memory, s: Tree, lo: nat, k: nat, parent: int, index: nat, x: int)
    requires s.Node? && Rep(m, s, parent, index) && Shape(s, lo, k) && x > 0 && x !in Addrs(s)
    requires var p := s.ring[0];
             var f := m[p].fd;
             f in m && var m1 := m[f := m[f].(bk := x)];
             m' == m1[p := m1[p].(fd := x)][x := Chunk(s.size, f, p, 0, 0, 0, index)]
    ensures Rep(m', s.(ring := Chained(s.ring, x)), parent, index)
    ensures forall a :: a in m && a != x && a !in Addrs(s) ==> a in m' && m'[a] == m[a]
  {
    assert forall i :: 0 <= i < |s.ring| ==> s.ring[i] in RingSet(s.ring);
    assert Linked(m, s.ring, 0);
    ChainedRing(m, m', s.ring, x, s.size, index);
    Frame(m, m', s.left, s.ring[0], index);
    Frame(m, m', s.right, s.ring[0], index);
  }

  /** Linking a further chunk of the same size behind the tree member at path. */
  lemma {:induction false} AttachChain(m: Memory, m': Memory, t: Tree, lo: nat, k: nat, parent: int, index: nat,
                                       path: seq<bool>, x: int)
    requires Rep(m, t, parent, index) && Shape(t, lo, k) && IsPath(t, path) && Sub(t, path).Node?
    requires x > 0 && x !in Addrs(t)
    requires var p := Ptr(Sub(t, path));
             p in m && var f := m[p].fd;
             f in m && var m1 := m[f := m[f].(bk := x)];
             m' == m1[p := m1[p].(fd := x)][x := Chunk(Sub(t, path).size, f, p, 0, 0, 0, index)]
    ensures var s := Sub(t, path);
            Rep(m', Replace(t, path, s.(ring := Chained(s.ring, x))), parent, index)
  {
    var s := Sub(t, path);
    SubRep(m, t, parent, index, path);
    var lo', k' := SubShape(t, lo, k, path);
    ChainedNode(m, m', s, lo', k', Above(t, path, parent), index, x);
    RepFacts(m, t, parent, index);
    SameRootRep(m, m', t, lo, k, parent, index, path, s.(ring := Chained(s.ring, x)));
  }

  /** When the root of the replaced subtree stays, the pointer above it needs no change. */
  lemma {:induction false} SameRootRep(m: Memory, m': Memory, t: Tree, lo: nat, k: nat, parent: int, index: nat,
                                       path: seq<bool>, s: Tree)
    requires Rep(m, t, parent, index) && Shape(t, lo, k) && IsPath(t, path)
    requires Ptr(s) == Ptr(Sub(t, path)) && Rep(m', s, Above(t, path, parent), index)
    requires forall a :: a in Addrs(t) && a !in Addrs(Sub(t, path)) ==> a in m && a in m' && m'[a] == m[a]
    ensures Rep(m', Replace(t, path, s), parent, index)
  {
    if path != [] {
      AboveOutside(m, t, lo, k, parent, index, path);
    }
    ReplaceRep(m, m', t, lo, k, parent, index, path, s);
  }

  /** The node above a position is not part of the subtree there, and points to it. */
  lemma {:induction false} AboveOutside(m: Memory, t: Tree, lo: nat, k: nat, parent: int, index: nat, path: seq<bool>)
    requires Rep(m, t, parent, index) && Shape(t, lo, k) && IsPath(t, path) && path != []
    ensures var a := Above(t, path, parent);
            && a in Addrs(t) && a !in Addrs(Sub(t, path)) && a in m
            && m[a] == SetChild(m[a], path[|path| - 1], Ptr(Sub(t, path)))
            && (Sub(t, path).Node? && path[|path| - 1] ==> m[a].child0 != Ptr(Sub(t, path)))
    decreases path
  {
    var d, rest, root := path[0], path[1..], t.ring[0];
    var c := if d then t.right else t.left;
    assert root in RingSet(t.ring);
    SubRep(m, c, root, index, rest);
    RepFacts(m, t.left, root, index);
    RepFacts(m, t.right, root, index);
    if rest != [] {
      assert rest[|rest| - 1] == path[|path| - 1];
      AboveOutside(m, c, if d then lo + Pow2(k - 1) else lo, k - 1, root, index, rest);
      assert Above(t, path, parent) == Above(c, rest, root) && Sub(t, path) == Sub(c, rest);
    } else {
      assert Above(t, path, parent) == root && Sub(t, path) == c;
    }
  }

  /** Every subtree has the shape of its own range. */
  lemma {:induction false} SubShape(t: Tree, lo: nat, k: nat, path: seq<bool>) returns (lo': nat, k': nat)
    requires Shape(t, lo, k) && IsPath(t, path)
    ensures Shape(Sub(t, path), lo', k')
    decreases path
  {
    lo', k' := lo, k;
    if path != [] && k > 0 {
      if path[0] { lo', k' := SubShape(t.right, lo + Pow2(k - 1), k - 1, path[1..]); }
      else { lo', k' := SubShape(t.left, lo, k - 1, path[1..]); }
    }
  }

  // ----- removal -----

  /** The last block of unlink_large_chunk: r takes over the parent and the children of x. */
  function Adopt(m: Memory, x: int, r: int, parent: int): Memory
    requires x in m && r in m
  {
    var m1 := m[r := m[r].(parent := parent)];
    var c0 := m1[x].child0;
    var m2 := if c0 != 0 && c0 in m1 then
                var n := m1[r := m1[r].(child0 := c0)];
                n[c0 := n[c0].(parent := r)]
              else m1;
    var c1 := m2[x].child1;
    if c1 != 0 && c1 in m2 then
      var n := m2[r := m2[r].(child1 := c1)];
      n[c1 := n[c1].(parent := r)]
    else m2
  }

  lemma {:induction false} Reparent(m: Memory, m': Memory, t: Tree, lo: nat, k: nat, old_: int, new_: int, index: nat)
    requires Rep(m, t, old_, index) && Shape(t, lo, k)
    requires t.Node? ==> t.ring[0] in m'  && m'[t.ring[0]] == m[t.ring[0]].(parent := new_)
    requires forall a :: a in Addrs(t) && a != Ptr(t) ==> a in m && a in m' && m'[a] == m[a]
    ensures Rep(m', t, new_, index)
  {
    if t.Node? {
      Distinct(t.ring);
      assert forall i :: 0 <= i < |t.ring| ==> t.ring[i] in RingSet(t.ring);
      RingFrame(m, m', t.ring, t.size, index);
      Frame(m, m', t.left, t.ring[0], index);
      Frame(m, m', t.right, t.ring[0], index);
    }
  }

  lemma {:induction false} AdoptFields(m: Memory, x: int, r: int, parent: int, c0: int, c1: int)
    requires x in m && r in m && m[x].child0 == c0 && m[x].child1 == c1
    requires m[r].child0 == 0 && m[r].child1 == 0
    requires (c0 != 0 ==> c0 in m) && (c1 != 0 ==> c1 in m)
    requires x != r && x != c0 && x != c1 && r != c0 && r != c1 && (c0 == c1 ==> c0 == 0)
    ensures var m' := Adopt(m, x, r, parent);
            && r in m' && m'[r] == m[r].(parent := parent, child0 := c0, child1 := c1)
            && (c0 != 0 ==> c0 in m' && m'[c0] == m[c0].(parent := r))
            && (c1 != 0 ==> c1 in m' && m'[c1] == m[c1].(parent := r))
            && (forall a :: a in m && a != r && a != c0 && a != c1 ==> a in m' && m'[a] == m[a])
  {
  }

  /** A ring whose first chunk has no children, put in the place of x. */
  lemma {:induction false} AdoptRep(m: Memory, ring: seq<int>, size: nat, left: Tree, right: Tree,
                                    x: int, parent: int, index: nat, lo: nat, k: nat)
    requires |ring| > 0 && RingRep(m, ring, size, index) && NoDup(ring)
    requires m[ring[0]].child0 == 0 && m[ring[0]].child1 == 0
    requires x in m && x > 0 && x !in ring && x !in Addrs(left) && x !in Addrs(right)
    requires m[x].child0 == Ptr(left) && m[x].child1 == Ptr(right)
    requires Rep(m, left, x, index) && Rep(m, right, x, index)
    requires k > 0 && Shape(left, lo, k - 1) && Shape(right, lo + Pow2(k - 1), k - 1)
    requires RingSet(ring) !! Addrs(left) && RingSet(ring) !! Addrs(right) && Addrs(left) !! Addrs(right)
    ensures Rep(Adopt(m, x, ring[0], parent), Node(ring, size, left, right), parent, index)
    ensures forall a :: a in m && a !in ring && a !in Addrs(left) && a !in Addrs(right) ==>
              a in Adopt(m, x, ring[0], parent) && Adopt(m, x, ring[0], parent)[a] == m[a]
  {
    var r := ring[0];
    RepFacts(m, left, x, index);
    RepFacts(m, right, x, index);
    assert r in RingSet(ring);
    AdoptFields(m, x, r, parent, Ptr(left), Ptr(right));
    AdoptParts(m, Adopt(m, x, r, parent), ring, size, left, right, x, index, lo, k);
  }

  lemma {:induction false} AdoptParts(m: Memory, m': Memory, ring: seq<int>, size: nat, left: Tree, right: Tree,
                                      x: int, index: nat, lo: nat, k: nat)
    requires |ring| > 0 && RingRep(m, ring, size, index) && NoDup(ring)
    requires Rep(m, left, x, index) && Rep(m, right, x, index)
    requires k > 0 && Shape(left, lo, k - 1) && Shape(right, lo + Pow2(k - 1), k - 1)
    requires RingSet(ring) !! Addrs(left) && RingSet(ring) !! Addrs(right) && Addrs(left) !! Addrs(right)
    requires ring[0] in m' && SameRingLinks(m[ring[0]], m'[ring[0]])
    requires left.Node? ==> Ptr(left) in m' && m'[Ptr(left)] == m[Ptr(left)].(parent := ring[0])
    requires right.Node? ==> Ptr(right) in m' && m'[Ptr(right)] == m[Ptr(right)].(parent := ring[0])
    requires forall a :: a in m && a != ring[0] && a != Ptr(left) && a != Ptr(right) ==> a in m' && m'[a] == m[a]
    ensures RingRep(m', ring, size, index)
    ensures Rep(m', left, ring[0], index) && Rep(m', right, ring[0], index)
  {
    RepFacts(m, left, x, index);
    RepFacts(m, right, x, index);
    assert ring[0] in RingSet(ring);
    AdoptRing(m, m', ring, size, left, right, index);
    Reparent(m, m', left, lo, k - 1, x, ring[0], index);
    Reparent(m, m', right, lo + Pow2(k - 1), k - 1, x, ring[0], index);
  }

  lemma {:induction false} AdoptRing(m: Memory, m': Memory, ring: seq<int>, size: nat, left: Tree, right: Tree,
                                     index: nat)
    requires |ring| > 0 && RingRep(m, ring, size, index) && NoDup(ring)
    requires left.Node? ==> Ptr(left) in Addrs(left)
    requires right.Node? ==> Ptr(right) in Addrs(right)
    requires RingSet(ring) !! Addrs(left) && RingSet(ring) !! Addrs(right)
    requires ring[0] in m' && SameRingLinks(m[ring[0]], m'[ring[0]])
    requires forall a :: a in m && a != ring[0] && a != Ptr(left) && a != Ptr(right) ==> a in m' && m'[a] == m[a]
    ensures RingRep(m', ring, size, index)
  {
    Distinct(ring);
    forall i | 0 <= i < |ring|
      ensures ring[i] in m && ring[i] in RingSet(ring) && ring[i] > 0
    {
      assert Linked(m, ring, i);
    }
    RingFrame(m, m', ring, size, index);
  }

  /** Taking x off its ring: its neighbours are linked to each other. */
  function Unhook(m: Memory, x: int): Memory
    requires x in m && m[x].fd in m && m[x].bk in m
  {
    var f, r := m[x].fd, m[x].bk;
    var m1 := m[f := m[f].(bk := r)];
    m1[r := m1[r].(fd := f)]
  }

  lemma {:induction false} UnhookNeighbours(m: Memory, ring: seq<int>, j: nat)
    requires |ring| > 1 && j < |ring| && Ring(m, ring) && NoDup(ring)
    ensures var n, x := |ring|, ring[j];
            var f, b := if j + 1 < n then j + 1 else 0, if j > 0 then j - 1 else n - 1;
            && x in m && m[x].fd == ring[f] && m[x].bk == ring[b] && ring[f] != x && ring[b] != x
            && ring[f] in m && ring[b] in m && m[ring[f]].bk == x && m[ring[b]].fd == x
  {
    var n := |ring|;
    Distinct(ring);
    assert Linked(m, ring, j);
    assert Linked(m, ring, if j + 1 < n then j + 1 else 0);
    assert Linked(m, ring, if j > 0 then j - 1 else n - 1);
  }

  lemma {:induction false} UnhookFields(m: Memory, ring: seq<int>, j: nat)
    requires |ring| > 1 && j < |ring| && Ring(m, ring) && NoDup(ring)
    ensures ring[j] in m && m[ring[j]].fd in m && m[ring[j]].bk in m
    ensures var f, b := if j + 1 < |ring| then j + 1 else 0, if j > 0 then j - 1 else |ring| - 1;
            var m' := Unhook(m, ring[j]);
            && (forall i :: 0 <= i < |ring| ==>
                  && ring[i] in m && ring[i] in m'
                  && m'[ring[i]] == m[ring[i]].(fd := if i == b then ring[f] else m[ring[i]].fd,
                                                bk := if i == f then ring[b] else m[ring[i]].bk))
            && (forall a :: a in m && a !in ring ==> a in m' && m'[a] == m[a])
  {
    UnhookNeighbours(m, ring, j);
    Distinct(ring);
    forall i | 0 <= i < |ring| ensures ring[i] in m { assert Linked(m, ring, i); }
  }

  lemma {:induction false} UnhookMiddleAt(m: Memory, ring: seq<int>, j: nat, i: nat)
    requires 0 < j < |ring| && Ring(m, ring) && NoDup(ring) && i < |ring| - 1
    ensures ring[j] in m && m[ring[j]].fd in m && m[ring[j]].bk in m
    ensures Linked(Unhook(m, ring[j]), ring[..j] + ring[j + 1..], i)
  {
    UnhookFields(m, ring, j);
    assert Linked(m, ring, if i < j then i else i + 1);
  }

  /** Unhooking a chunk that is not the first drops it from the ring. */
  lemma {:induction false} UnhookLinks(m: Memory, ring: seq<int>, j: nat)
    requires 0 < j < |ring| && Ring(m, ring) && NoDup(ring)
    ensures ring[j] in m && m[ring[j]].fd in m && m[ring[j]].bk in m
    ensures Ring(Unhook(m, ring[j]), ring[..j] + ring[j + 1..])
  {
    UnhookFields(m, ring, j);
    var r := ring[..j] + ring[j + 1..];
    forall i | 0 <= i < |r| ensures Linked(Unhook(m, ring[j]), r, i) {
      UnhookMiddleAt(m, ring, j, i);
    }
  }

  /** Unhooking a chunk that is not the tree member drops it from the ring. */
  lemma {:induction false} UnhookMiddle(m: Memory, ring: seq<int>, j: nat, size: nat, index: nat)
    requires 0 < j < |ring| && RingRep(m, ring, size, index) && NoDup(ring)
    ensures m[ring[j]].fd in m && m[ring[j]].bk in m
    ensures RingRep(Unhook(m, ring[j]), ring[..j] + ring[j + 1..], size, index)
  {
    UnhookFields(m, ring, j);
    UnhookLinks(m, ring, j);
    var r := ring[..j] + ring[j + 1..];
    var m' := Unhook(m, ring[j]);
    forall i | 0 <= i < |r|
      ensures r[i] > 0 && r[i] in m' && m'[r[i]].size == size && m'[r[i]].index == m[r[i]].index
    {
      assert r[i] == ring[if i < j then i else i + 1];
    }
  }

  lemma {:induction false} UnhookFirstAt(m: Memory, ring: seq<int>, i: nat)
    requires 1 < |ring| && Ring(m, ring) && NoDup(ring) && i < |ring| - 1
    ensures ring[0] in m && m[ring[0]].fd in m && m[ring[0]].bk in m
    ensures Linked(Unhook(m, ring[0]), Rotated(ring), i)
  {
    var r, n := Rotated(ring), |ring|;
    var next, prev := if i + 1 < |r| then i + 1 else 0, if i > 0 then i - 1 else |r| - 1;
    assert r[i] == ring[if i == 0 then n - 1 else i];
    assert r[next] == ring[if next == 0 then n - 1 else next] && r[prev] == ring[if prev == 0 then n - 1 else prev];
    UnhookFields(m, ring, 0);
    assert Linked(m, ring, if i == 0 then n - 1 else i);
  }

  /** Unhooking the tree member puts the last of the ring in front. */
  lemma {:induction false} UnhookFirst(m: Memory, ring: seq<int>, size: nat, index: nat)
    requires 1 < |ring| && RingRep(m, ring, size, index) && NoDup(ring)
    ensures m[ring[0]].fd in m && m[ring[0]].bk in m
    ensures RingRep(Unhook(m, ring[0]), Rotated(ring), size, index)
  {
    UnhookFields(m, ring, 0);
    var r := Rotated(ring);
    forall i | 0 <= i < |r| ensures Linked(Unhook(m, ring[0]), r, i) {
      UnhookFirstAt(m, ring, i);
    }
    assert forall i :: 0 <= i < |r| ==> r[i] == ring[if i == 0 then |ring| - 1 else i];
  }

  /** Cutting the leaf at a non-empty path off in memory. */
  lemma {:induction false} CutLeaf(m: Memory, s: Tree, lo: nat, k: nat, parent: int, index: nat, path: seq<bool>)
    requires Rep(m, s, parent, index) && Shape(s, lo, k) && IsPath(s, path) && path != []
    requires var c := Sub(s, path); c.Node? && c.left.Leaf? && c.right.Leaf?
    ensures Above(s, path, parent) in m
    ensures var c := Sub(s, path);
            var a := Above(s, path, parent);
            var m' := m[a := SetChild(m[a], path[|path| - 1], 0)];
            && a in Addrs(s)
            && Rep(m', Replace(s, path, Leaf), parent, index)
            && RingRep(m', c.ring, c.size, index) && |c.ring| > 0
            && m'[c.ring[0]].child0 == 0 && m'[c.ring[0]].child1 == 0
  {
    var c := Sub(s, path);
    var a := Above(s, path, parent);
    AboveOutside(m, s, lo, k, parent, index, path);
    SubRep(m, s, parent, index, path);
    RepFacts(m, s, parent, index);
    var m' := m[a := SetChild(m[a], path[|path| - 1], 0)];
    ReplaceRep(m, m', s, lo, k, parent, index, path, Leaf);
    assert forall i :: 0 <= i < |c.ring| ==> c.ring[i] in RingSet(c.ring);
    RingFrame(m, m', c.ring, c.size, index);
  }

  /** One step down towards the last leaf. */
  lemma {:induction false} LastLeafStep(s: Tree, path: seq<bool>)
    requires s.Node? && IsPath(s, path) && Sub(s, path).Node?
    requires LastLeaf(s) == LastLeaf(Sub(s, path))
    requires WithoutLastLeaf(s) == Replace(s, path, WithoutLastLeaf(Sub(s, path)))
    requires Sub(s, path).left.Node? || Sub(s, path).right.Node?
    ensures var d := Sub(s, path).right.Node?;
            && IsPath(s, path + [d]) && Sub(s, path + [d]).Node?
            && LastLeaf(s) == LastLeaf(Sub(s, path + [d]))
            && WithoutLastLeaf(s) == Replace(s, path + [d], WithoutLastLeaf(Sub(s, path + [d])))
  {
    var d := Sub(s, path).right.Node?;
    PathStep(s, path, d, 0);
    ReplaceStep(s, path, d, WithoutLastLeaf(Sub(s, path + [d])));
  }
}
