/** The tries of the allocator's tree bins, as values, and what it means for linked chunks in memory to be one.
    A node stands for all free chunks of one size: the chunk linked into the tree comes first,
    the others follow on its fd ring. */
module Trie {
  import opened Bits
  import opened Sequences

  /** The fields a free large chunk keeps inside its own storage. A null pointer is 0. */
  datatype Chunk = Chunk(size: nat, fd: int, bk: int, child0: int, child1: int, parent: int, index: nat)

  type Memory = map<int, Chunk>

  datatype Tree = Leaf | Node(ring: seq<int>, size: nat, left: Tree, right: Tree)

  /** The pointer that stands for a tree. */
  function Ptr(t: Tree): int {
    if t.Leaf? || t.ring == [] then 0 else t.ring[0]
  }

  ghost function RingSet(ring: seq<int>): set<int> {
    set a | a in ring
  }

  /** The chunks held by a tree. */
  ghost function Addrs(t: Tree): set<int> {
    if t.Leaf? then {} else RingSet(t.ring) + Addrs(t.left) + Addrs(t.right)
  }

  ghost function Sizes(t: Tree): set<nat> {
    if t.Leaf? then {} else {t.size} + Sizes(t.left) + Sizes(t.right)
  }

  /** Every subtree holds the sizes of one half of its parent's range, no size has two nodes,
      and no chunk is held twice. */
  ghost predicate Shape(t: Tree, lo: nat, k: nat)
    decreases t
  {
    t.Leaf? ||
    (&& |t.ring| > 0 && NoDup(t.ring)
     && lo <= t.size < lo + Pow2(k)
     && t.size !in Sizes(t.left) && t.size !in Sizes(t.right)
     && RingSet(t.ring) !! Addrs(t.left) && RingSet(t.ring) !! Addrs(t.right)
     && Addrs(t.left) !! Addrs(t.right)
     && (if k == 0 then t.left.Leaf? && t.right.Leaf?
         else Shape(t.left, lo, k - 1) && Shape(t.right, lo + Pow2(k - 1), k - 1)))
  }

  /** The i-th chunk of a ring is linked to both neighbours. */
  ghost predicate Linked(m: Memory, ring: seq<int>, i: nat)
    requires i < |ring|
  {
    && ring[i] in m
    && m[ring[i]].fd == ring[if i + 1 < |ring| then i + 1 else 0]
    && m[ring[i]].bk == ring[if i > 0 then i - 1 else |ring| - 1]
  }

  /** The chunks of a ring are linked both ways in this order. */
  ghost predicate Ring(m: Memory, ring: seq<int>) {
    forall i :: 0 <= i < |ring| ==> Linked(m, ring, i)
  }

  /** A ring of free chunks of one size, of which only the first one is a tree member. */
  ghost predicate RingRep(m: Memory, ring: seq<int>, size: nat, index: nat) {
    && (forall i :: 0 <= i < |ring| ==>
          && ring[i] in m && ring[i] > 0 && m[ring[i]].size == size && m[ring[i]].index == index
          && (i > 0 ==> m[ring[i]].parent == 0 && m[ring[i]].child0 == 0 && m[ring[i]].child1 == 0))
    && Ring(m, ring)
  }

  /** Only the tree links of a chunk may differ. */
  ghost predicate SameRingLinks(c: Chunk, c': Chunk) {
    c' == c.(parent := c'.parent, child0 := c'.child0, child1 := c'.child1)
  }

  lemma RingFrame(m: Memory, m': Memory, ring: seq<int>, size: nat, index: nat)
    requires RingRep(m, ring, size, index)
    requires forall i :: 0 <= i < |ring| ==>
               ring[i] in m' && SameRingLinks(m[ring[i]], m'[ring[i]]) && (i > 0 ==> m'[ring[i]] == m[ring[i]])
    ensures RingRep(m', ring, size, index)
  {
    forall i | 0 <= i < |ring| ensures Linked(m', ring, i) {
      assert Linked(m, ring, i);
    }
  }

  /** Memory m links the tree t under the given parent pointer in bin index. */
  ghost predicate Rep(m: Memory, t: Tree, parent: int, index: nat)
    decreases t
  {
    t.Leaf? ||
    (&& |t.ring| > 0
     && RingRep(m, t.ring, t.size, index)
     && m[t.ring[0]].parent == parent
     && m[t.ring[0]].child0 == Ptr(t.left) && m[t.ring[0]].child1 == Ptr(t.right)
     && Rep(m, t.left, t.ring[0], index) && Rep(m, t.right, t.ring[0], index))
  }

  // ----- positions in a tree: a path of branch directions, true for child[1] -----

  ghost predicate IsPath(t: Tree, path: seq<bool>)
    decreases path
  {
    path == [] || (t.Node? && IsPath(if path[0] then t.right else t.left, path[1..]))
  }

  ghost function Sub(t: Tree, path: seq<bool>): Tree
    requires IsPath(t, path)
    decreases path
  {
    if path == [] then t else Sub(if path[0] then t.right else t.left, path[1..])
  }

  ghost function Replace(t: Tree, path: seq<bool>, s: Tree): Tree
    requires IsPath(t, path)
    decreases path
  {
    if path == [] then s
    else if path[0] then t.(right := Replace(t.right, path[1..], s))
    else t.(left := Replace(t.left, path[1..], s))
  }

  /** The node above the position, or the given parent at the root. */
  ghost function Above(t: Tree, path: seq<bool>, parent: int): int
    requires IsPath(t, path)
    decreases path
  {
    if path == [] then parent
    else Above(if path[0] then t.right else t.left, path[1..], Ptr(t))
  }

  function SetChild(c: Chunk, right: bool, p: int): Chunk {
    if right then c.(child1 := p) else c.(child0 := p)
  }

  // ----- reading a linked tree -----

  lemma {:induction false} RepFacts(m: Memory, t: Tree, parent: int, index: nat)
    requires Rep(m, t, parent, index)
    ensures forall a :: a in Addrs(t) ==> a in m && a > 0 && m[a].index == index && m[a].size in Sizes(t)
    ensures t.Node? ==> Ptr(t) > 0 && Ptr(t) in Addrs(t)
    decreases t
  {
    if t.Node? {
      RepFacts(m, t.left, t.ring[0], index);
      RepFacts(m, t.right, t.ring[0], index);
      assert t.ring[0] in RingSet(t.ring);
      assert m[t.ring[0]].size == t.size;
    }
  }

  lemma {:induction false} ShapeSizes(t: Tree, lo: nat, k: nat)
    requires Shape(t, lo, k)
    ensures forall s :: s in Sizes(t) ==> lo <= s < lo + Pow2(k)
    decreases t
  {
    if t.Node? && k > 0 {
      ShapeSizes(t.left, lo, k - 1);
      ShapeSizes(t.right, lo + Pow2(k - 1), k - 1);
    }
  }

  /** The depth of a walk is bounded by the size bits that the bin resolves. */
  lemma {:induction false} DepthBound(t: Tree, lo: nat, k: nat, path: seq<bool>)
    requires Shape(t, lo, k) && IsPath(t, path) && Sub(t, path).Node?
    ensures |path| <= k
    decreases path
  {
    if path != [] {
      if path[0] { DepthBound(t.right, lo + Pow2(k - 1), k - 1, path[1..]); }
      else { DepthBound(t.left, lo, k - 1, path[1..]); }
    }
  }

  lemma {:induction false} Frame(m: Memory, m': Memory, t: Tree, parent: int, index: nat)
    requires Rep(m, t, parent, index)
    requires forall a :: a in Addrs(t) && a in m ==> a in m' && m'[a] == m[a]
    ensures Rep(m', t, parent, index)
    decreases t
  {
    if t.Node? {
      forall i | 0 <= i < |t.ring| ensures t.ring[i] in RingSet(t.ring) {}
      RingFrame(m, m', t.ring, t.size, index);
      Frame(m, m', t.left, t.ring[0], index);
      Frame(m, m', t.right, t.ring[0], index);
    }
  }

  lemma {:induction false} SubRep(m: Memory, t: Tree, parent: int, index: nat, path: seq<bool>)
    requires Rep(m, t, parent, index) && IsPath(t, path)
    ensures Rep(m, Sub(t, path), Above(t, path, parent), index)
    ensures Addrs(Sub(t, path)) <= Addrs(t)
    decreases path
  {
    if path != [] {
      if path[0] { SubRep(m, t.right, t.ring[0], index, path[1..]); }
      else { SubRep(m, t.left, t.ring[0], index, path[1..]); }
    }
  }

  lemma {:induction false} PathStep(t: Tree, path: seq<bool>, d: bool, parent: int)
    requires IsPath(t, path) && Sub(t, path).Node?
    ensures IsPath(t, path + [d])
    ensures Sub(t, path + [d]) == (if d then Sub(t, path).right else Sub(t, path).left)
    ensures Above(t, path + [d], parent) == Ptr(Sub(t, path))
    decreases path
  {
    if path == [] {
      assert [d][1..] == [];
    } else {
      assert (path + [d])[1..] == path[1..] + [d];
      PathStep(if path[0] then t.right else t.left, path[1..], d, Ptr(t));
    }
  }

  lemma {:induction false} ReplaceStep(t: Tree, path: seq<bool>, d: bool, s: Tree)
    requires IsPath(t, path) && Sub(t, path).Node?
    ensures IsPath(t, path + [d])
    ensures Replace(t, path + [d], s)
         == Replace(t, path, if d then Sub(t, path).(right := s) else Sub(t, path).(left := s))
    decreases path
  {
    PathStep(t, path, d, 0);
    if path == [] {
      assert [d][1..] == [];
    } else {
      assert (path + [d])[1..] == path[1..] + [d];
      ReplaceStep(if path[0] then t.right else t.left, path[1..], d, s);
    }
  }

  /** Replacing one child in memory. */
  lemma {:induction false} ReplaceChildRep(m: Memory, m': Memory, t: Tree, lo: nat, k: nat, parent: int, index: nat,
                                           d: bool, s: Tree)
    requires t.Node? && Rep(m, t, parent, index) && Shape(t, lo, k)
    requires Rep(m', s, t.ring[0], index)
    requires forall a :: a in Addrs(t) && a != t.ring[0] && a !in Addrs(if d then t.right else t.left) ==>
               a in m && a in m' && m'[a] == m[a]
    requires t.ring[0] in m && t.ring[0] in m' && m'[t.ring[0]] == SetChild(m[t.ring[0]], d, Ptr(s))
    ensures Rep(m', if d then t.(right := s) else t.(left := s), parent, index)
  {
    var root := t.ring[0];
    Distinct(t.ring);
    forall i | 0 <= i < |t.ring| ensures t.ring[i] in RingSet(t.ring) {}
    RingFrame(m, m', t.ring, t.size, index);
    Frame(m, m', if d then t.left else t.right, root, index);
  }

  /** Between m and m', only the subtree at path and the child pointer above it may differ,
      and that pointer now points to s. */
  ghost predicate Relinked(m: Memory, m': Memory, t: Tree, path: seq<bool>, parent: int, s: Tree)
    requires IsPath(t, path)
  {
    var above := Above(t, path, parent);
    && (forall a :: a in Addrs(t) && a !in Addrs(Sub(t, path)) && (path == [] || a != above) ==>
          a in m && a in m' && m'[a] == m[a])
    && (path != [] ==> above in m && above in m' && m'[above] == SetChild(m[above], path[|path| - 1], Ptr(s)))
  }

  lemma {:induction false} RelinkedBelow(m: Memory, m': Memory, t: Tree, lo: nat, k: nat, parent: int, index: nat,
                                         path: seq<bool>, s: Tree)
    requires Rep(m, t, parent, index) && Shape(t, lo, k) && IsPath(t, path) && path != []
    requires Relinked(m, m', t, path, parent, s)
    ensures var c := if path[0] then t.right else t.left;
            && Above(t, path, parent) == Above(c, path[1..], t.ring[0])
            && (path[1..] != [] ==> Relinked(m, m', c, path[1..], t.ring[0], s))
            && t.ring[0] in m && t.ring[0] in m'
            && m'[t.ring[0]] == SetChild(m[t.ring[0]], path[0], Ptr(Replace(c, path[1..], s)))
            && (forall a :: a in Addrs(t) && a != t.ring[0] && a !in Addrs(c) ==> a in m && a in m' && m'[a] == m[a])
  {
    var c, rest, root := if path[0] then t.right else t.left, path[1..], t.ring[0];
    assert root in RingSet(t.ring);
    SubRep(m, c, root, index, rest);
    AboveInside(m, c, root, index, rest);
    assert Above(t, path, parent) == Above(c, rest, root);
    if rest != [] {
      assert rest[|rest| - 1] == path[|path| - 1];
      ReplacePtr(c, rest, s);
      assert m'[root] == m[root];
    }
  }

  /** Replacing a subtree in memory. */
  lemma {:induction false} ReplaceRep(m: Memory, m': Memory, t: Tree, lo: nat, k: nat, parent: int, index: nat,
                                      path: seq<bool>, s: Tree)
    requires Rep(m, t, parent, index) && Shape(t, lo, k) && IsPath(t, path)
    requires Rep(m', s, Above(t, path, parent), index)
    requires Relinked(m, m', t, path, parent, s)
    ensures Rep(m', Replace(t, path, s), parent, index)
    decreases path
  {
    if path != [] {
      var d := path[0];
      var c := if d then t.right else t.left;
      RelinkedBelow(m, m', t, lo, k, parent, index, path, s);
      if path[1..] != [] {
        ReplaceRep(m, m', c, if d then lo + Pow2(k - 1) else lo, k - 1, t.ring[0], index, path[1..], s);
      }
      var c' := Replace(c, path[1..], s);
      assert Rep(m', c', t.ring[0], index);
      ReplaceChildRep(m, m', t, lo, k, parent, index, d, c');
    }
  }

  lemma {:induction false} AboveInside(m: Memory, t: Tree, parent: int, index: nat, path: seq<bool>)
    requires Rep(m, t, parent, index) && IsPath(t, path)
    ensures path != [] ==> Above(t, path, parent) in Addrs(t)
    ensures path == [] ==> Above(t, path, parent) == parent
    decreases path
  {
    if path != [] {
      assert t.ring[0] in RingSet(t.ring);
      AboveInside(m, if path[0] then t.right else t.left, t.ring[0], index, path[1..]);
    }
  }

  lemma ReplacePtr(t: Tree, path: seq<bool>, s: Tree)
    requires IsPath(t, path) && path != []
    ensures Ptr(Replace(t, path, s)) == Ptr(t)
  {
  }

  // ----- insertion -----

  /** Where insert_large_chunk puts chunk x: on the ring of its size, or at the first free
      child position that the bits of its size lead to. */
  ghost function Insert(t: Tree, x: int, size: nat, lo: nat, k: nat): Tree
    decreases t
  {
    if t.Leaf? then Node([x], size, Leaf, Leaf)
    else if t.size == size then t.(ring := Chained(t.ring, x))
    else if k == 0 then t
    else if size >= lo + Pow2(k - 1) then t.(right := Insert(t.right, x, size, lo + Pow2(k - 1), k - 1))
    else t.(left := Insert(t.left, x, size, lo, k - 1))
  }

  /** A further chunk of the same size is linked right after the tree member. */
  function Chained(ring: seq<int>, x: int): seq<int> {
    if ring == [] then [x] else [ring[0], x] + ring[1..]
  }

  lemma ChainedSet(ring: seq<int>, x: int)
    ensures RingSet(Chained(ring, x)) == RingSet(ring) + {x}
  {
    if ring != [] {
      assert ring == [ring[0]] + ring[1..];
    }
  }

  lemma ChainedNoDup(ring: seq<int>, x: int)
    requires NoDup(ring) && x !in ring
    ensures NoDup(Chained(ring, x))
  {
    Distinct(ring);
    Distinct(Chained(ring, x));
  }

  /** Replacing one child by a tree that fits the same half and brings in only new chunks. */
  lemma {:induction false} ReplaceChildShape(t: Tree, lo: nat, k: nat, d: bool, c': Tree)
    requires t.Node? && k > 0 && Shape(t, lo, k)
    requires Shape(c', if d then lo + Pow2(k - 1) else lo, k - 1)
    requires forall a :: a in Addrs(c') ==> a in Addrs(if d then t.right else t.left) || a !in Addrs(t)
    requires t.size !in Sizes(c')
    ensures Shape(if d then t.(right := c') else t.(left := c'), lo, k)
  {
    if d {
      forall a | a in Addrs(c') ensures a !in RingSet(t.ring) && a !in Addrs(t.left) {
        if a !in Addrs(t.right) { assert a !in Addrs(t); }
      }
    } else {
      forall a | a in Addrs(c') ensures a !in RingSet(t.ring) && a !in Addrs(t.right) {
        if a !in Addrs(t.left) { assert a !in Addrs(t); }
      }
    }
  }

  lemma {:induction false} InsertSets(t: Tree, x: int, size: nat, lo: nat, k: nat)
    requires Shape(t, lo, k) && lo <= size < lo + Pow2(k)
    ensures Addrs(Insert(t, x, size, lo, k)) == Addrs(t) + {x}
    ensures Sizes(Insert(t, x, size, lo, k)) == Sizes(t) + {size}
    decreases t
  {
    if t.Leaf? {
      assert RingSet([x]) == {x};
    } else if t.size == size {
      ChainedSet(t.ring, x);
    } else if k > 0 {
      if size >= lo + Pow2(k - 1) {
        InsertSets(t.right, x, size, lo + Pow2(k - 1), k - 1);
      } else {
        InsertSets(t.left, x, size, lo, k - 1);
      }
    }
  }

  lemma {:induction false} SingleShape(x: int, size: nat, lo: nat, k: nat)
    requires lo <= size < lo + Pow2(k)
    ensures Shape(Node([x], size, Leaf, Leaf), lo, k)
  {
    assert Addrs(Leaf) == {} && Sizes(Leaf) == {};
    if k > 0 { assert Shape(Leaf, lo, k - 1) && Shape(Leaf, lo + Pow2(k - 1), k - 1); }
  }

  /** Insertion keeps the trie shape; with InsertSets, it adds exactly the new chunk. */
  lemma {:induction false} InsertShape(t: Tree, x: int, size: nat, lo: nat, k: nat)
    requires Shape(t, lo, k) && lo <= size < lo + Pow2(k) && x !in Addrs(t)
    ensures Shape(Insert(t, x, size, lo, k), lo, k)
    decreases t
  {
    if t.Leaf? {
      SingleShape(x, size, lo, k);
    } else if t.size == size {
      ChainedSet(t.ring, x);
      ChainedNoDup(t.ring, x);
    } else if k > 0 {
      var d := size >= lo + Pow2(k - 1);
      var c, lo' := if d then t.right else t.left, if d then lo + Pow2(k - 1) else lo;
      InsertSets(c, x, size, lo', k - 1);
      InsertShape(c, x, size, lo', k - 1);
      ReplaceChildShape(t, lo, k, d, Insert(c, x, size, lo', k - 1));
    }
  }

  // ----- removal -----

  /** The leaf that replaces a removed tree member: child[1] is preferred all the way down. */
  ghost function LastLeaf(t: Tree): (leaf: Tree)
    requires t.Node?
    ensures leaf.Node? && leaf.left.Leaf? && leaf.right.Leaf?
  {
    if t.right.Node? then LastLeaf(t.right) else if t.left.Node? then LastLeaf(t.left) else t
  }

  ghost function WithoutLastLeaf(t: Tree): (rest: Tree)
    requires t.Node?
    ensures t.left.Node? || t.right.Node? ==> rest.Node? && rest.ring == t.ring && rest.size == t.size
  {
    if t.right.Node? then t.(right := WithoutLastLeaf(t.right))
    else if t.left.Node? then t.(left := WithoutLastLeaf(t.left))
    else Leaf
  }

  /** The ring without its first chunk: the last one, linked behind it, moves to the front. */
  function Rotated(ring: seq<int>): seq<int>
    requires |ring| > 1
  {
    [ring[|ring| - 1]] + ring[1..|ring| - 1]
  }

  /** The ring without x; when the tree member leaves, the last of the ring takes its place. */
  ghost function Unchained(ring: seq<int>, x: int): seq<int>
    requires x in ring && |ring| > 1
  {
    if ring[0] == x then Rotated(ring)
    else var i :| 0 < i < |ring| && ring[i] == x; ring[..i] + ring[i + 1..]
  }

  /** unlink_large_chunk at the node that holds x. */
  ghost function RemoveHere(t: Tree, x: int): Tree
    requires t.Node? && x in t.ring
  {
    if |t.ring| > 1 then t.(ring := Unchained(t.ring, x))
    else if t.left.Leaf? && t.right.Leaf? then Leaf
    else var leaf := LastLeaf(t);
         var rest := WithoutLastLeaf(t);
         Node(leaf.ring, leaf.size, rest.left, rest.right)
  }

  ghost function Remove(t: Tree, x: int): Tree
    requires x in Addrs(t)
  {
    if x in t.ring then RemoveHere(t, x)
    else if x in Addrs(t.left) then t.(left := Remove(t.left, x))
    else t.(right := Remove(t.right, x))
  }

  ghost function PathTo(t: Tree, x: int): (path: seq<bool>)
    requires x in Addrs(t)
  {
    if x in t.ring then []
    else if x in Addrs(t.left) then [false] + PathTo(t.left, x)
    else [true] + PathTo(t.right, x)
  }

  lemma {:induction false} PathToFinds(t: Tree, x: int)
    requires x in Addrs(t)
    ensures IsPath(t, PathTo(t, x))
    ensures Sub(t, PathTo(t, x)).Node? && x in Sub(t, PathTo(t, x)).ring
    ensures Remove(t, x) == Replace(t, PathTo(t, x), RemoveHere(Sub(t, PathTo(t, x)), x))
    decreases t
  {
    if x in t.ring {
    } else if x in Addrs(t.left) {
      assert ([false] + PathTo(t.left, x))[1..] == PathTo(t.left, x);
      PathToFinds(t.left, x);
    } else {
      assert ([true] + PathTo(t.right, x))[1..] == PathTo(t.right, x);
      PathToFinds(t.right, x);
    }
  }

  lemma UnchainedFacts(ring: seq<int>, x: int)
    requires x in ring && |ring| > 1 && NoDup(ring)
    ensures |Unchained(ring, x)| == |ring| - 1 && NoDup(Unchained(ring, x))
    ensures RingSet(Unchained(ring, x)) == RingSet(ring) - {x}
  {
    Distinct(ring);
    if ring[0] == x {
      RotatedFacts(ring);
    } else {
      var i :| 0 < i < |ring| && ring[i] == x && Unchained(ring, x) == ring[..i] + ring[i + 1..];
      DroppedFacts(ring, i);
    }
  }

  lemma RotatedFacts(ring: seq<int>)
    requires |ring| > 1 && NoDup(ring)
    ensures NoDup(Rotated(ring)) && RingSet(Rotated(ring)) == RingSet(ring) - {ring[0]}
  {
    Distinct(ring);
    Distinct(Rotated(ring));
    assert ring == [ring[0]] + ring[1..|ring| - 1] + [ring[|ring| - 1]];
  }

  lemma DroppedFacts(ring: seq<int>, i: nat)
    requires i < |ring| && NoDup(ring)
    ensures var r := ring[..i] + ring[i + 1..]; NoDup(r) && RingSet(r) == RingSet(ring) - {ring[i]}
  {
    Distinct(ring);
    Distinct(ring[..i] + ring[i + 1..]);
    assert ring == ring[..i] + [ring[i]] + ring[i + 1..];
  }

  lemma {:induction false} LastLeafIn(t: Tree, lo: nat, k: nat)
    requires t.Node? && Shape(t, lo, k)
    ensures var leaf := LastLeaf(t);
            && |leaf.ring| > 0 && NoDup(leaf.ring) && lo <= leaf.size < lo + Pow2(k)
            && RingSet(leaf.ring) <= Addrs(t) && leaf.size in Sizes(t)
    decreases t
  {
    if t.right.Node? {
      LastLeafIn(t.right, lo + Pow2(k - 1), k - 1);
    } else if t.left.Node? {
      LastLeafIn(t.left, lo, k - 1);
    }
  }

  /** Cutting the last leaf off takes away exactly its chunks and its size. */
  lemma {:induction false} LastLeafSets(t: Tree, lo: nat, k: nat)
    requires t.Node? && Shape(t, lo, k)
    ensures Addrs(WithoutLastLeaf(t)) == Addrs(t) - RingSet(LastLeaf(t).ring)
    ensures Sizes(WithoutLastLeaf(t)) == Sizes(t) - {LastLeaf(t).size}
    decreases t
  {
    if t.right.Node? {
      LastLeafSets(t.right, lo + Pow2(k - 1), k - 1);
      LastLeafIn(t.right, lo + Pow2(k - 1), k - 1);
      ShapeSizes(t.left, lo, k - 1);
    } else if t.left.Node? {
      LastLeafSets(t.left, lo, k - 1);
      LastLeafIn(t.left, lo, k - 1);
    }
  }

  lemma {:induction false} LastLeafShape(t: Tree, lo: nat, k: nat)
    requires t.Node? && Shape(t, lo, k)
    ensures Shape(WithoutLastLeaf(t), lo, k)
    decreases t
  {
    if t.right.Node? {
      LastLeafShape(t.right, lo + Pow2(k - 1), k - 1);
      LastLeafSets(t.right, lo + Pow2(k - 1), k - 1);
      ReplaceChildShape(t, lo, k, true, WithoutLastLeaf(t.right));
    } else if t.left.Node? {
      LastLeafShape(t.left, lo, k - 1);
      LastLeafSets(t.left, lo, k - 1);
      ReplaceChildShape(t, lo, k, false, WithoutLastLeaf(t.left));
    }
  }

  /** The replacing leaf comes from below the node it replaces. */
  lemma {:induction false} LeafBelow(t: Tree, lo: nat, k: nat)
    requires t.Node? && Shape(t, lo, k) && (t.left.Node? || t.right.Node?)
    ensures var c := if t.right.Node? then t.right else t.left;
            LastLeaf(t) == LastLeaf(c) && RingSet(LastLeaf(t).ring) <= Addrs(c) && LastLeaf(t).size in Sizes(c)
  {
    if t.right.Node? {
      LastLeafIn(t.right, lo + Pow2(k - 1), k - 1);
    } else {
      LastLeafIn(t.left, lo, k - 1);
    }
  }

  /** Promoting the last leaf to the root keeps the shape. */
  lemma {:induction false} PromoteShape(t: Tree, lo: nat, k: nat)
    requires t.Node? && Shape(t, lo, k) && (t.left.Node? || t.right.Node?)
    ensures var leaf, rest := LastLeaf(t), WithoutLastLeaf(t);
            var r := Node(leaf.ring, leaf.size, rest.left, rest.right);
            && Shape(r, lo, k)
            && Addrs(r) == Addrs(t) - RingSet(t.ring)
            && Sizes(r) == Sizes(t) - {t.size}
  {
    var leaf, rest := LastLeaf(t), WithoutLastLeaf(t);
    var r := Node(leaf.ring, leaf.size, rest.left, rest.right);
    assert Sizes(r) == {leaf.size} + Sizes(rest.left) + Sizes(rest.right);
    LastLeafIn(t, lo, k);
    LastLeafSets(t, lo, k);
    LastLeafShape(t, lo, k);
    LeafBelow(t, lo, k);
    assert Shape(rest, lo, k);
    assert rest.Node? && rest.size == t.size && leaf.size != t.size;
    assert Sizes(rest) == {t.size} + Sizes(rest.left) + Sizes(rest.right);
    assert Addrs(rest) == RingSet(t.ring) + Addrs(rest.left) + Addrs(rest.right);
    assert t.size !in Sizes(rest.left) + Sizes(rest.right);
    assert Sizes(rest.left) + Sizes(rest.right) == Sizes(rest) - {t.size};
    assert Sizes(r) == {leaf.size} + (Sizes(rest) - {t.size});
    assert Sizes(rest) == Sizes(t) - {leaf.size};
  }

  lemma {:induction false} RemoveHereShape(t: Tree, x: int, lo: nat, k: nat)
    requires t.Node? && x in t.ring && Shape(t, lo, k)
    ensures Shape(RemoveHere(t, x), lo, k)
    ensures Addrs(RemoveHere(t, x)) == Addrs(t) - {x}
    ensures Sizes(RemoveHere(t, x)) <= Sizes(t)
  {
    if |t.ring| > 1 {
      UnchainedFacts(t.ring, x);
    } else {
      assert RingSet(t.ring) == {x};
      if t.left.Node? || t.right.Node? {
        PromoteShape(t, lo, k);
      }
    }
  }

  lemma {:induction false} RemoveSets(t: Tree, x: int, lo: nat, k: nat)
    requires x in Addrs(t) && Shape(t, lo, k)
    ensures Addrs(Remove(t, x)) == Addrs(t) - {x}
    ensures Sizes(Remove(t, x)) <= Sizes(t)
    decreases t
  {
    if x in t.ring {
      RemoveHereShape(t, x, lo, k);
    } else if x in Addrs(t.left) {
      RemoveSets(t.left, x, lo, k - 1);
    } else {
      RemoveSets(t.right, x, lo + Pow2(k - 1), k - 1);
    }
  }

  /** Removal keeps the trie shape; with RemoveSets, it takes away exactly the chunk. */
  lemma {:induction false} RemoveShape(t: Tree, x: int, lo: nat, k: nat)
    requires x in Addrs(t) && Shape(t, lo, k)
    ensures Shape(Remove(t, x), lo, k)
    decreases t
  {
    if x in t.ring {
      RemoveHereShape(t, x, lo, k);
    } else {
      var d := x !in Addrs(t.left);
      var c, lo' := if d then t.right else t.left, if d then lo + Pow2(k - 1) else lo;
      RemoveSets(c, x, lo', k - 1);
      RemoveShape(c, x, lo', k - 1);
      ReplaceChildShape(t, lo, k, d, Remove(c, x));
    }
  }

  // ----- first in, first out among chunks of one size -----

  function Reverse(s: seq<int>): seq<int> {
    if s == [] then [] else Reverse(s[1..]) + [s[0]]
  }

  /** The chunks of a ring in the order in which they came. */
  function Arrivals(ring: seq<int>): seq<int> {
    if ring == [] then [] else [ring[0]] + Reverse(ring[1..])
  }

  lemma {:induction false} ReverseAppend(s: seq<int>, x: int)
    ensures Reverse(s + [x]) == [x] + Reverse(s)
  {
    if s == [] {
      assert [x][1..] == [];
    } else {
      ReverseAppend(s[1..], x);
      assert (s + [x])[1..] == s[1..] + [x];
    }
  }

  /** A chained chunk is the youngest; unhooking the tree member, the next to be used, takes the oldest. */
  lemma {:induction false} OldestFirst(ring: seq<int>, x: int)
    ensures Arrivals(Chained(ring, x)) == Arrivals(ring) + [x]
    ensures |ring| > 1 ==> Arrivals(ring) == [ring[0]] + Arrivals(Rotated(ring))
  {
    if ring != [] {
      assert Chained(ring, x)[1..] == [x] + ring[1..];
      assert ([x] + ring[1..])[1..] == ring[1..];
    }
    if |ring| > 1 {
      var last := ring[|ring| - 1];
      ReverseAppend(ring[1..|ring| - 1], last);
      assert ring[1..] == ring[1..|ring| - 1] + [last];
      assert Rotated(ring)[1..] == ring[1..|ring| - 1];
    }
  }
}
