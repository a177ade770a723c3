/** The small bins of a malloc_state: one circular doubly linked list per size, headed by the bin itself,
    and the map of non-empty bins. The links of an empty bin are stale and never followed. */
module SmallBins {
  import opened Bits
  import opened Sequences
  import opened Trie
  import opened TreeLinks

  const NSMALLBINS: nat := 32

  predicate IsSmall(size: nat) {
    size / 8 < NSMALLBINS
  }

  function SmallIndex(size: nat): nat {
    size / 8
  }

  /** The address of a bin header. */
  function Header(i: nat): int {
    -1 - i
  }

  ghost predicate BinOk(m: Memory, list: seq<int>, i: nat) {
    && (forall k :: 0 <= k < |list| ==> list[k] > 0)
    && NoDup(list)
    && Header(i) in m
    && (list != [] ==> Ring(m, [Header(i)] + list))
  }

  ghost function Held(lists: seq<seq<int>>): set<int> {
    set i, a | 0 <= i < |lists| && a in lists[i] :: a
  }

  ghost predicate Consistent(m: Memory, bitmap: nat, lists: seq<seq<int>>) {
    && |lists| == NSMALLBINS && bitmap < WORD
    && (forall i :: 0 <= i < NSMALLBINS ==> BinOk(m, lists[i], i))
    && (forall i :: 0 <= i < NSMALLBINS ==> Marked(bitmap, i) == (lists[i] != []))
    && (forall i, j, a :: 0 <= i < j < NSMALLBINS && a in lists[i] ==> a !in lists[j])
  }

  /** The free small chunks and their sizes: bin i holds chunks of size 8 * i. */
  ghost predicate Holds(lists: seq<seq<int>>, contents: map<int, nat>) {
    && contents.Keys == Held(lists)
    && forall i, a :: 0 <= i < |lists| && a in lists[i] ==> a in contents && contents[a] == 8 * i
  }

  /** Only bin i changes. */
  lemma {:induction false} OneBin(m: Memory, bitmap: nat, lists: seq<seq<int>>,
                                  m': Memory, bitmap': nat, i: nat, list: seq<int>)
    requires Consistent(m, bitmap, lists) && i < NSMALLBINS
    requires BinOk(m', list, i) && bitmap' < WORD
    requires forall j :: 0 <= j < NSMALLBINS ==> Marked(bitmap', j) == if j == i then list != [] else Marked(bitmap, j)
    requires forall a :: a in list ==> a in lists[i] || a !in Held(lists)
    requires forall a :: a in m && a != Header(i) && a !in list && a !in lists[i] ==> a in m' && m'[a] == m[a]
    ensures Consistent(m', bitmap', lists[i := list])
  {
    var lists' := lists[i := list];
    forall j | 0 <= j < NSMALLBINS ensures BinOk(m', lists'[j], j) {
      if j != i {
        assert BinOk(m, lists[j], j);
        assert Header(j) in m && m'[Header(j)] == m[Header(j)] by {
          assert forall k :: 0 <= k < |lists[i]| ==> lists[i][k] > 0 by { assert BinOk(m, lists[i], i); }
          assert forall k :: 0 <= k < |list| ==> list[k] > 0;
        }
        forall a | a in lists[j] ensures a !in list && a !in lists[i] { assert a in Held(lists); }
        if lists[j] != [] { RingUnchanged(m, m', [Header(j)] + lists[j]); }
      }
    }
    forall j, a | 0 <= j < NSMALLBINS && j != i && a in lists[j] ensures a !in list {
      assert a in Held(lists);
    }
  }

  lemma {:induction false} RingUnchanged(m: Memory, m': Memory, ring: seq<int>)
    requires Ring(m, ring)
    requires forall i :: 0 <= i < |ring| && ring[i] in m ==> ring[i] in m' && m'[ring[i]] == m[ring[i]]
    ensures Ring(m', ring)
  {
    forall i | 0 <= i < |ring| ensures Linked(m', ring, i) { assert Linked(m, ring, i); }
  }

  class SmallBins {
    var mem: Memory
    var smallmap: nat
    ghost var lists: seq<seq<int>>
    ghost var contents: map<int, nat>

    ghost predicate Valid()
      reads this
    {
      Consistent(mem, smallmap, lists) && Holds(lists, contents)
    }

    /** init_bins. */
    constructor ()
      ensures Valid() && contents == map[]
    {
      mem := map i: int | -32 <= i < 0 :: Chunk(0, i, i, 0, 0, 0, 0);
      smallmap := 0;
      lists := seq(NSMALLBINS, _ => []);
      contents := map[];
    }

    /** insert_small_chunk. */
    method InsertSmallChunk(p: int, size: nat)
      requires Valid() && p > 0 && p !in contents && IsSmall(size) && size % 8 == 0
      modifies this
      ensures Valid() && contents == old(contents)[p := size]
      ensures var i := SmallIndex(size);
              i < |old(lists)| && lists == old(lists)[i := [p] + old(lists)[i]]
    {
      var i := SmallIndex(size);
      var B := Header(i);
      var F := B;
      ghost var list := lists[i];
      BinFacts(mem, smallmap, lists, i);
      if !Marked(smallmap, i) {
        smallmap := Mark(smallmap, i);
      } else {
        F := mem[B].fd;
      }
      mem := mem[B := mem[B].(fd := p)];
      mem := mem[F := mem[F].(bk := p)];
      mem := mem[p := Chunk(size, F, B, 0, 0, 0, 0)];
      FinishInsert(old(mem), mem, old(smallmap), smallmap, lists, contents, i, p, F);
      lists := lists[i := [p] + list];
      contents := contents[p := size];
    }

    /** unlink_small_chunk. */
    method UnlinkSmallChunk(p: int, size: nat)
      requires Valid() && p in contents && contents[p] == size
      modifies this
      ensures Valid() && contents == old(contents) - {p}
      ensures var i := SmallIndex(size);
              i < |old(lists)| && p in old(lists)[i]
              && lists == old(lists)[i := RemoveAt(old(lists)[i], Find(old(lists)[i], p))]
    {
      ghost var k := Position(mem, smallmap, lists, contents, p);
      var i := SmallIndex(size);
      var F, B := mem[p].fd, mem[p].bk;
      // the tests that guard against corrupted links always succeed
      assert mem[F].bk == p && mem[B].fd == p;
      if B == F {
        smallmap := Clear(smallmap, i);
        ClearOne(old(smallmap), i);
      } else {
        mem := mem[F := mem[F].(bk := B)];
        mem := mem[B := mem[B].(fd := F)];
      }
      RemovedRing(old(mem), mem, lists[i], i, k);
      FindUnique(lists[i], k);
      ghost var list := lists[i][..k] + lists[i][k + 1..];
      OneBin(old(mem), old(smallmap), lists, mem, smallmap, i, list);
      RemovedHolds(lists, contents, i, k);
      lists := lists[i := list];
      contents := contents - {p};
    }

    /** The first chunk of a non-empty bin. */
    method First(i: nat) returns (p: int)
      requires Valid() && i < NSMALLBINS && Marked(smallmap, i)
      ensures p in contents && contents[p] == 8 * i && p > 0 && i < |lists| && lists[i] != [] && p == lists[i][0]
    {
      BinFacts(mem, smallmap, lists, i);
      p := mem[Header(i)].fd;
      assert p == lists[i][0];
    }
  }

  lemma {:induction false} BinFacts(m: Memory, bitmap: nat, lists: seq<seq<int>>, i: nat)
    requires Consistent(m, bitmap, lists) && i < NSMALLBINS
    ensures BinOk(m, lists[i], i) && Marked(bitmap, i) == (lists[i] != [])
    ensures lists[i] != [] ==> m[Header(i)].fd == lists[i][0] && lists[i][0] in m
  {
    assert BinOk(m, lists[i], i);
    if lists[i] != [] {
      var ring := [Header(i)] + lists[i];
      assert Linked(m, ring, 0) && Linked(m, ring, 1);
    }
  }

  lemma {:induction false} MarkOne(bitmap: nat, i: nat)
    requires bitmap < WORD && i < 32
    ensures Mark(bitmap, i) < WORD
    ensures forall j :: 0 <= j < NSMALLBINS ==> Marked(Mark(bitmap, i), j) == (j == i || Marked(bitmap, j))
  {
    MarkIsUpdate(bitmap, i, i);
    forall j | 0 <= j < NSMALLBINS ensures Marked(Mark(bitmap, i), j) == (j == i || Marked(bitmap, j)) {
      MarkIsUpdate(bitmap, i, j);
    }
  }

  lemma {:induction false} ClearOne(bitmap: nat, i: nat)
    requires bitmap < WORD && i < 32
    ensures Clear(bitmap, i) < WORD
    ensures forall j :: 0 <= j < NSMALLBINS ==> Marked(Clear(bitmap, i), j) == (j != i && Marked(bitmap, j))
  {
    ClearIsUpdate(bitmap, i, i);
    forall j | 0 <= j < NSMALLBINS ensures Marked(Clear(bitmap, i), j) == (j != i && Marked(bitmap, j)) {
      ClearIsUpdate(bitmap, i, j);
    }
  }

  lemma {:induction false} InsertedRing(m: Memory, m': Memory, list: seq<int>, i: nat, p: int, f: int, size: nat)
    requires BinOk(m, list, i) && p > 0 && p !in list && f in m
    requires f == if list == [] then Header(i) else m[Header(i)].fd
    requires var m1 := m[Header(i) := m[Header(i)].(fd := p)];
             var m2 := m1[f := m1[f].(bk := p)];
             m' == m2[p := Chunk(size, f, Header(i), 0, 0, 0, 0)]
    ensures BinOk(m', [p] + list, i)
    ensures forall a :: a in m && a != Header(i) && a != p && a !in list ==> a in m' && m'[a] == m[a]
  {
    var ring := [Header(i)] + list;
    var ring' := [Header(i)] + ([p] + list);
    Distinct(list);
    Distinct([p] + list);
    if list == [] {
      assert ring' == [Header(i), p];
      assert Linked(m', ring', 0) && Linked(m', ring', 1);
    } else {
      Distinct(list);
      Distinct(ring);
      assert NoDup(ring) && p !in ring;
      assert Linked(m, ring, 0);
      assert f == ring[1] && f in list;
      ChainedLinks(m, m', ring, p);
      assert ring' == Chained(ring, p);
    }
  }

  lemma {:induction false} FinishInsert(m: Memory, m': Memory, bitmap: nat, bitmap': nat, lists: seq<seq<int>>,
                                        contents: map<int, nat>, i: nat, p: int, f: int)
    requires Consistent(m, bitmap, lists) && Holds(lists, contents) && p > 0 && p !in contents && i < NSMALLBINS
    requires bitmap' == if Marked(bitmap, i) then bitmap else Mark(bitmap, i)
    requires Header(i) in m && f in m && f == if lists[i] == [] then Header(i) else m[Header(i)].fd
    requires var m1 := m[Header(i) := m[Header(i)].(fd := p)];
             var m2 := m1[f := m1[f].(bk := p)];
             m' == m2[p := Chunk(8 * i, f, Header(i), 0, 0, 0, 0)]
    ensures Consistent(m', bitmap', lists[i := [p] + lists[i]])
    ensures Holds(lists[i := [p] + lists[i]], contents[p := 8 * i])
  {
    assert BinOk(m, lists[i], i);
    MarkOne(bitmap, i);
    InsertedHolds(lists, contents, i, p);
    InsertedRing(m, m', lists[i], i, p, f, 8 * i);
    OneBin(m, bitmap, lists, m', bitmap', i, [p] + lists[i]);
  }

  /** Where a held chunk sits, and that its links are sound. */
  lemma {:induction false} Position(m: Memory, bitmap: nat, lists: seq<seq<int>>, contents: map<int, nat>, p: int)
    returns (k: nat)
    requires Consistent(m, bitmap, lists) && Holds(lists, contents) && p in contents
    ensures var i := SmallIndex(contents[p]);
            && i < NSMALLBINS && BinOk(m, lists[i], i) && k < |lists[i]| && lists[i][k] == p && p > 0
            && p in m && m[p].fd in m && m[p].bk in m && m[m[p].fd].bk == p && m[m[p].bk].fd == p
            && (m[p].bk == m[p].fd) == (|lists[i]| == 1)
  {
    var i :| 0 <= i < NSMALLBINS && p in lists[i];
    assert contents[p] == 8 * i;
    assert BinOk(m, lists[i], i);
    k :| 0 <= k < |lists[i]| && lists[i][k] == p;
    ListLinks(m, lists[i], i, k);
  }

  lemma {:induction false} ListLinks(m: Memory, list: seq<int>, i: nat, k: nat)
    requires BinOk(m, list, i) && k < |list|
    ensures var p := list[k];
            && p in m && m[p].fd in m && m[p].bk in m && m[m[p].fd].bk == p && m[m[p].bk].fd == p
            && (m[p].bk == m[p].fd) == (|list| == 1)
  {
    var ring := [Header(i)] + list;
    Distinct(list);
    Distinct(ring);
    assert NoDup(ring);
    assert ring[k + 1] == list[k];
    UnhookNeighbours(m, ring, k + 1);
  }

  lemma {:induction false} RemovedRing(m: Memory, m': Memory, list: seq<int>, i: nat, k: nat)
    requires BinOk(m, list, i) && k < |list| && list[k] in m && m[list[k]].fd in m && m[list[k]].bk in m
    requires m' == if |list| == 1 then m else Unhook(m, list[k])
    ensures BinOk(m', list[..k] + list[k + 1..], i)
    ensures forall a :: a in m && a != Header(i) && a !in list ==> a in m' && m'[a] == m[a]
  {
    var list' := list[..k] + list[k + 1..];
    DroppedFacts(list, k);
    if |list| > 1 {
      var ring := [Header(i)] + list;
      Distinct(list);
      Distinct(ring);
      assert NoDup(ring);
      assert ring[k + 1] == list[k];
      UnhookLinks(m, ring, k + 1);
      UnhookFields(m, ring, k + 1);
      assert ring[..k + 1] + ring[k + 2..] == [Header(i)] + list';
      assert Header(i) == ring[0];
    }
  }

  lemma {:induction false} InsertedHolds(lists: seq<seq<int>>, contents: map<int, nat>, i: nat, p: int)
    requires Holds(lists, contents) && i < |lists| && p !in contents
    ensures Holds(lists[i := [p] + lists[i]], contents[p := 8 * i])
    ensures forall a :: a in lists[i] ==> a in Held(lists)
    ensures p !in Held(lists)
  {
    var lists' := lists[i := [p] + lists[i]];
    forall a ensures a in Held(lists') <==> a in Held(lists) || a == p {
      if a == p { assert p in lists'[i]; }
      if a in Held(lists) {
        var j :| 0 <= j < |lists| && a in lists[j];
        assert a in lists'[j];
      }
      if a in Held(lists') && a != p {
        var j :| 0 <= j < |lists'| && a in lists'[j];
        assert a in lists[j];
      }
    }
  }

  lemma {:induction false} RemovedHolds(lists: seq<seq<int>>, contents: map<int, nat>, i: nat, k: nat)
    requires Holds(lists, contents) && i < |lists| && k < |lists[i]| && NoDup(lists[i])
    requires forall j, l, a :: 0 <= j < l < |lists| && a in lists[j] ==> a !in lists[l]
    ensures Holds(lists[i := lists[i][..k] + lists[i][k + 1..]], contents - {lists[i][k]})
  {
    var p := lists[i][k];
    var list' := lists[i][..k] + lists[i][k + 1..];
    var lists' := lists[i := list'];
    DroppedFacts(lists[i], k);
    assert forall a :: a in list' <==> a in RingSet(list');
    assert forall a :: a in list' <==> a in lists[i] && a != p;
    forall a ensures a in Held(lists') <==> a in Held(lists) && a != p {
      if a in Held(lists) && a != p {
        var j :| 0 <= j < |lists| && a in lists[j];
        assert a in lists'[j];
      }
      if a in Held(lists') {
        var j :| 0 <= j < |lists'| && a in lists'[j];
        assert a in lists[j];
      }
    }
  }

  // ----- finding a small bin -----

  /** The test for a remainderless fit: bins idx and idx + 1, and the step to the second when the first is empty. */
  lemma {:induction false} RemainderlessTest(bitmap: nat, idx: nat)
    requires bitmap < WORD && idx < NSMALLBINS
    ensures Shr(bitmap, idx) < WORD
    ensures var bits := Shr(bitmap, idx);
            && (And(bits, 3) != 0 <==> Marked(bitmap, idx) || Marked(bitmap, idx + 1))
            && And(Not(bits), 1) == (if Marked(bitmap, idx) then 0 else 1)
  {
    var bits := Shr(bitmap, idx);
    ShrBound(bitmap, idx);
    BitShift(bitmap, idx, 0);
    BitShift(bitmap, idx, 1);
    AndPow2(bitmap, idx);
    AndPow2(bitmap, idx + 1);
    LowBits(bits);
    Pow2Word();
    BitComplement(32, bits, 0);
    LowBits(Not(bits));
  }

  /** A small bin map marks no bin beyond the last. */
  lemma {:induction false} Marks(bitmap: nat)
    requires bitmap < WORD
    ensures forall i :: i >= NSMALLBINS ==> !Marked(bitmap, i)
  {
    Pow2Word();
    forall i | i >= NSMALLBINS ensures !Marked(bitmap, i) {
      AndPow2(bitmap, i);
      BitBound(bitmap, 32, i);
    }
  }

  lemma LowBits(x: nat)
    ensures Bit(x, 0) == (x % 2 == 1) && Bit(x, 1) == (x / 2 % 2 == 1)
    ensures And(x, 1) == x % 2 && (And(x, 3) != 0 <==> Bit(x, 0) || Bit(x, 1))
  {
    assert And(x / 2 / 2, 0) == 0;
    assert And(x / 2, 0) == 0;
  }

  lemma {:induction false} ShrBound(x: nat, s: nat)
    ensures Shr(x, s) <= x
    decreases s
  {
    if s > 0 { ShrBound(x / 2, s - 1); }
  }

  /** The bins above idx that a remaindering fit looks at. */
  lemma {:induction false} NextSmall(bitmap: nat, idx: nat)
    requires bitmap < WORD && idx < NSMALLBINS && !Marked(bitmap, idx) && !Marked(bitmap, idx + 1)
    ensures Shr(bitmap, idx) < WORD
    ensures Shr(bitmap, idx) == 0 ==> forall k :: idx <= k < NSMALLBINS ==> !Marked(bitmap, k)
    ensures Shr(bitmap, idx) != 0 ==>
              var leftbits := And(LeftBits(Pow2(idx)), Shl(Shr(bitmap, idx), idx) % WORD);
              var i := Bit2Idx(LeastBit(leftbits));
              idx + 2 <= i < NSMALLBINS && Marked(bitmap, i) && forall k :: idx <= k < i ==> !Marked(bitmap, k)
  {
    ShrBound(bitmap, idx);
    if Shr(bitmap, idx) == 0 {
      forall k | idx <= k < NSMALLBINS ensures !Marked(bitmap, k) {
        BitShift(bitmap, idx, k - idx);
        BitZero(k - idx);
        AndPow2(bitmap, k);
      }
    } else {
      NextSmallBin(bitmap, idx);
    }
  }

  lemma {:induction false} HighBits(bitmap: nat, idx: nat, k: nat)
    requires bitmap < WORD && idx < 32
    ensures Shl(Shr(bitmap, idx), idx) <= bitmap && Shl(Shr(bitmap, idx), idx) % WORD == Shl(Shr(bitmap, idx), idx)
    ensures Bit(Shl(Shr(bitmap, idx), idx), k) == (idx <= k && Bit(bitmap, k))
  {
    var x := Shl(Shr(bitmap, idx), idx);
    ShrDiv(bitmap, idx);
    ShlMul(Shr(bitmap, idx), idx);
    DivMul(bitmap, Pow2(idx));
    ShlBit(Shr(bitmap, idx), idx, k);
    if idx <= k { BitShift(bitmap, idx, k - idx); }
  }

  lemma DivMul(x: nat, d: nat)
    requires d > 0
    ensures x / d * d <= x
  {
  }

  lemma {:induction false} ShlBit(x: nat, s: nat, k: nat)
    ensures Bit(Shl(x, s), k) == (s <= k && Bit(x, k - s))
    decreases s
  {
    if s > 0 { ShlBit(2 * x, s - 1, k); }
  }

  lemma {:induction false} NextSmallBin(bitmap: nat, idx: nat)
    requires bitmap < WORD && idx < NSMALLBINS && !Marked(bitmap, idx) && !Marked(bitmap, idx + 1)
    requires Shr(bitmap, idx) != 0
    ensures var leftbits := And(LeftBits(Pow2(idx)), Shl(Shr(bitmap, idx), idx) % WORD);
            var i := Bit2Idx(LeastBit(leftbits));
            idx + 2 <= i < NSMALLBINS && Marked(bitmap, i) && forall k :: idx <= k < i ==> !Marked(bitmap, k)
  {
    var high := Shl(Shr(bitmap, idx), idx);
    HighBits(bitmap, idx, idx);
    var leftbits := And(LeftBits(Pow2(idx)), high);
    forall k: nat ensures Marked(leftbits, k) == (idx < k && Marked(bitmap, k)) {
      LeftBitsAbove(high, idx, k);
      HighBits(bitmap, idx, k);
      AndPow2(high, k);
      AndPow2(bitmap, k);
    }
    LeftBitsAbove(high, idx, 0);
    var k := AnyBit(bitmap, idx);
    assert Marked(leftbits, k);
    FirstMarked(leftbits);
    var i := Bit2Idx(LeastBit(leftbits));
    forall j | idx < j < i ensures !Marked(bitmap, j) { assert !Marked(leftbits, j); }
  }

  /** A map that is not empty from idx up marks some bin there. */
  lemma {:induction false} AnyBit(bitmap: nat, idx: nat) returns (k: nat)
    requires Shr(bitmap, idx) > 0
    ensures idx <= k && Marked(bitmap, k)
  {
    var i := Lowest(Shr(bitmap, idx));
    BitShift(bitmap, idx, i);
    AndPow2(bitmap, idx + i);
    k := idx + i;
  }

  /** Where no bin from lo up to hi is marked, no small chunk has a size of those bins. */
  lemma {:induction false} SmallNone(m: Memory, bitmap: nat, lists: seq<seq<int>>, contents: map<int, nat>,
                                     lo: nat, hi: nat)
    requires Consistent(m, bitmap, lists) && Holds(lists, contents)
    requires forall k :: lo <= k < hi && k < NSMALLBINS ==> !Marked(bitmap, k)
    ensures forall a :: a in contents ==> contents[a] < 8 * lo || (8 * hi <= contents[a] && hi < NSMALLBINS)
  {
    forall a | a in contents ensures contents[a] < 8 * lo || (8 * hi <= contents[a] && hi < NSMALLBINS) {
      var i :| 0 <= i < NSMALLBINS && a in lists[i];
      assert Marked(bitmap, i);
    }
  }

  /** Small chunks have small sizes that are multiples of 8. */
  lemma {:induction false} SmallSizes(lists: seq<seq<int>>, contents: map<int, nat>)
    requires Holds(lists, contents) && |lists| == NSMALLBINS
    ensures forall a :: a in contents ==> contents[a] % 8 == 0 && contents[a] < 256
  {
    forall a | a in contents ensures contents[a] % 8 == 0 && contents[a] < 256 {
      var i :| 0 <= i < NSMALLBINS && a in lists[i];
    }
  }
}
