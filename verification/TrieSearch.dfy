/** Why the two loops of tmalloc_large suffice: facts about the sizes in a trie and its subtrees. */
module TrieSearch {
  import opened Bits
  import opened TreeIndex
  import opened Trie

  /** Every left subtree holds smaller sizes than its right sibling. */
  ghost predicate Ordered(t: Tree) {
    t.Leaf? ||
    (&& Ordered(t.left) && Ordered(t.right)
     && forall x, y :: x in Sizes(t.left) && y in Sizes(t.right) ==> x < y)
  }

  lemma {:induction false} ShapeOrdered(t: Tree, lo: nat, k: nat)
    requires Shape(t, lo, k)
    ensures Ordered(t)
    decreases t
  {
    if t.Node? && k > 0 {
      ShapeOrdered(t.left, lo, k - 1);
      ShapeOrdered(t.right, lo + Pow2(k - 1), k - 1);
      ShapeSizes(t.left, lo, k - 1);
      ShapeSizes(t.right, lo + Pow2(k - 1), k - 1);
    }
  }

  /** A size that needs no further look: too small, or no better than remainder rsize. */
  ghost predicate Settled(nb: nat, rsize: nat, z: nat) {
    z < nb || z >= nb + rsize
  }

  ghost predicate NoneAbove(t: Tree, z: nat) {
    forall y :: y in Sizes(t) ==> y <= z
  }

  /** The first loop stands at the subtree sub, whose range [lo, lo + 2^k) holds nb;
      rest is the deepest untaken right subtree. */
  ghost predicate OnPath(whole: Tree, nb: nat, rsize: nat, sub: Tree, rest: Tree, lo: nat, k: nat) {
    && Shape(sub, lo, k) && lo <= nb < lo + Pow2(k)
    && Ordered(rest) && (forall y :: y in Sizes(rest) ==> y >= lo + Pow2(k))
    && (forall z :: z in Sizes(whole) ==>
          || Settled(nb, rsize, z) || z in Sizes(sub)
          || (rest.Node? && z >= lo + Pow2(k) && (z in Sizes(rest) || NoneAbove(rest, z))))
  }

  /** The second loop still has to look at sub, and sub is enough. */
  ghost predicate Pending(whole: Tree, nb: nat, rsize: nat, sub: Tree) {
    && Ordered(sub)
    && (rsize == 0 || forall y :: y in Sizes(sub) ==> y >= nb)
    && (forall z :: z in Sizes(whole) ==>
          Settled(nb, rsize, z) || z in Sizes(sub) || (sub.Node? && NoneAbove(sub, z)))
  }

  /** Unsigned remainders never admit a chunk that is too small. */
  lemma {:induction false} RemainderTest(size: nat, nb: nat, rsize: nat)
    requires size < WORD && 0 < nb < WORD && rsize <= WORD - nb
    ensures (Minus(size, nb) < rsize) == (nb <= size < nb + rsize)
    ensures size >= nb ==> Minus(size, nb) == size - nb
  {
  }

  function Better(nb: nat, rsize: nat, size: nat): nat {
    if nb <= size < nb + rsize then size - nb else rsize
  }

  lemma {:induction false} StartOnPath(whole: Tree, nb: nat, rsize: nat, lo: nat, k: nat)
    requires Shape(whole, lo, k) && lo <= nb < lo + Pow2(k)
    ensures OnPath(whole, nb, rsize, whole, Leaf, lo, k)
  {
  }

  /** A smaller remainder settles more. */
  lemma {:induction false} ImproveOnPath(whole: Tree, nb: nat, rsize: nat, sub: Tree, rest: Tree, lo: nat, k: nat)
    requires OnPath(whole, nb, rsize, sub, rest, lo, k) && sub.Node?
    ensures OnPath(whole, nb, Better(nb, rsize, sub.size), sub, rest, lo, k)
    ensures sub.size == nb ==> Pending(whole, nb, 0, sub)
  {
    ShapeOrdered(sub, lo, k);
  }

  lemma {:induction false} HalvesOf(sub: Tree, lo: nat, k: nat)
    requires sub.Node? && Shape(sub, lo, k)
    ensures k == 0 ==> sub.left.Leaf? && sub.right.Leaf?
    ensures k > 0 ==>
              && Shape(sub.left, lo, k - 1) && Shape(sub.right, lo + Pow2(k - 1), k - 1)
              && (forall y :: y in Sizes(sub.left) ==> lo <= y < lo + Pow2(k - 1))
              && (forall y :: y in Sizes(sub.right) ==> lo + Pow2(k - 1) <= y < lo + Pow2(k))
  {
    if k > 0 {
      ShapeSizes(sub.left, lo, k - 1);
      ShapeSizes(sub.right, lo + Pow2(k - 1), k - 1);
    }
  }

  function Taken(sub: Tree, right: bool): Tree
    requires sub.Node?
  {
    if right then sub.right else sub.left
  }

  /** An untaken right subtree becomes the deepest one. */
  function Untaken(sub: Tree, rest: Tree, right: bool): Tree
    requires sub.Node?
  {
    if sub.right.Node? && !right then sub.right else rest
  }

  /** One branch down: the new untaken subtree is better than all that was set aside before. */
  lemma {:induction false} BranchDown(whole: Tree, nb: nat, rsize: nat, sub: Tree, rest: Tree, lo: nat, k: nat)
    requires OnPath(whole, nb, rsize, sub, rest, lo, k) && sub.Node? && k > 0 && Settled(nb, rsize, sub.size)
    ensures var right := nb >= lo + Pow2(k - 1);
            OnPath(whole, nb, rsize, Taken(sub, right), Untaken(sub, rest, right),
                   if right then lo + Pow2(k - 1) else lo, k - 1)
  {
    HalvesOf(sub, lo, k);
    ShapeOrdered(sub, lo, k);
  }

  /** At the end of the path only the untaken subtree is left. */
  lemma {:induction false} PathEnds(whole: Tree, nb: nat, rsize: nat, rest: Tree, lo: nat, k: nat)
    requires OnPath(whole, nb, rsize, Leaf, rest, lo, k)
    ensures Pending(whole, nb, rsize, rest)
  {
  }

  /** One step of the second loop: of two children, the left one holds the smaller sizes. */
  lemma {:induction false} StepLeft(whole: Tree, nb: nat, rsize: nat, sub: Tree)
    requires Pending(whole, nb, rsize, sub) && sub.Node?
    ensures Pending(whole, nb, Better(nb, rsize, sub.size), if sub.left.Node? then sub.left else sub.right)
  {
    var next := if sub.left.Node? then sub.left else sub.right;
    var rsize' := Better(nb, rsize, sub.size);
    assert Sizes(next) <= Sizes(sub);
    forall z | z in Sizes(whole)
      ensures Settled(nb, rsize', z) || z in Sizes(next) || (next.Node? && NoneAbove(next, z))
    {
      assert sub.size in Sizes(sub) && Settled(nb, rsize', sub.size);
      if z in Sizes(sub) {
        assert z == sub.size || z in Sizes(sub.left) || z in Sizes(sub.right);
        if z in Sizes(sub.right) && sub.left.Node? { assert NoneAbove(next, z); }
      } else if !Settled(nb, rsize, z) {
        assert NoneAbove(sub, z) && sub.size <= z;
        assert NoneAbove(next, z);
      }
    }
  }
}
