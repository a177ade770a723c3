/** heap_4: a first-fit pool whose free blocks are linked in address order through their own headers. */
module Heap4 {
  import opened FreeList
  import opened Sequences

  const STRUCT_SIZE: nat := 8
  const ALIGNMENT: nat := 8
  const MINIMUM_BLOCK_SIZE: nat := 2 * STRUCT_SIZE
  const ALLOCATED_BIT: nat := 0x8000_0000

  /** The address of xStart, which lies outside the pool. */
  const START: int := -1

  /** A block header in memory. The size word also holds the bit that marks a block as allocated. */
  datatype Link = Link(next: int, size: nat)

  type Memory = map<int, Link>

  /** Node 0 of the free list is xStart, node i + 1 the i-th free block. */
  function NodeAt(list: seq<Block>, i: nat): int
    requires i <= |list|
  {
    if i == 0 then START else list[i - 1].at
  }

  function Target(list: seq<Block>, end: int, i: nat): int
    requires i <= |list|
  {
    if i < |list| then list[i].at else end
  }

  ghost predicate LinkAt(m: Memory, list: seq<Block>, end: int, i: nat) {
    i <= |list| ==>
      && NodeAt(list, i) in m
      && m[NodeAt(list, i)] == Link(Target(list, end, i), if i == 0 then 0 else list[i - 1].size)
  }

  /** Memory links this free list. */
  ghost predicate Linked(m: Memory, list: seq<Block>, end: int) {
    && (forall i: nat {:trigger LinkAt(m, list, end, i)} :: LinkAt(m, list, end, i))
    && end in m && m[end] == Link(0, 0)
  }

  /** The byte x belongs to the allocated block a. */
  ghost predicate Owns(taken: map<int, nat>, a: int, x: int) {
    a in taken && a <= x < a + taken[a]
  }

  ghost predicate InUse(taken: map<int, nat>, x: int) {
    exists a :: Owns(taken, a, x)
  }

  /** Every byte of the pool is free or in use, and not both; nothing else is. */
  ghost predicate SplitAt(list: seq<Block>, taken: map<int, nat>, lo: int, hi: int, x: int) {
    && (Covers(list, x) || InUse(taken, x) <==> lo <= x < hi)
    && !(Covers(list, x) && InUse(taken, x))
  }

  ghost predicate ApartAt(taken: map<int, nat>, a: int, b: int) {
    a in taken && b in taken && a < b ==> a + taken[a] <= b
  }

  ghost predicate HeaderAt(m: Memory, taken: map<int, nat>, lo: int, hi: int, a: int) {
    a in taken ==>
      && a in m && m[a] == Link(0, taken[a] + ALLOCATED_BIT)
      && lo <= a && 0 < taken[a] && a + taken[a] <= hi
  }

  /** Free and allocated blocks tile the pool from lo to hi. */
  ghost predicate Tiled(m: Memory, list: seq<Block>, taken: map<int, nat>, lo: int, hi: int) {
    && 0 < lo < hi <= lo + ALLOCATED_BIT - 1
    && Canonical(list, lo, hi) && Linked(m, list, hi)
    && (forall x {:trigger SplitAt(list, taken, lo, hi, x)} :: SplitAt(list, taken, lo, hi, x))
    && (forall a, b {:trigger ApartAt(taken, a, b)} :: ApartAt(taken, a, b))
    && (forall a {:trigger HeaderAt(m, taken, lo, hi, a)} :: HeaderAt(m, taken, lo, hi, a))
  }

  /** Masks of portBYTE_ALIGNMENT - 1. */
  predicate OnBoundary(x: int) {
    x % ALIGNMENT == 0
  }

  ghost predicate FreeAlignedAt(list: seq<Block>, i: nat) {
    i < |list| ==> OnBoundary(list[i].at) && OnBoundary(list[i].size)
  }

  ghost predicate TakenAlignedAt(taken: map<int, nat>, a: int) {
    a in taken ==> OnBoundary(a) && OnBoundary(taken[a])
  }

  ghost predicate FreeAligned(list: seq<Block>) {
    forall i: nat {:trigger FreeAlignedAt(list, i)} :: FreeAlignedAt(list, i)
  }

  ghost predicate TakenAligned(taken: map<int, nat>) {
    forall a {:trigger TakenAlignedAt(taken, a)} :: TakenAlignedAt(taken, a)
  }

  /** xWantedSize after the header and the padding were added; 0 for requests that are refused at once. */
  function Wanted(bytes: nat): nat {
    if bytes == 0 || bytes >= ALLOCATED_BIT then 0
    else bytes + STRUCT_SIZE + (if bytes % ALIGNMENT != 0 then ALIGNMENT - bytes % ALIGNMENT else 0)
  }

  /** The lowest block that is large enough, or the end of the list. */
  ghost predicate FirstFit(list: seq<Block>, wanted: nat, k: nat) {
    && k <= |list| && (k < |list| ==> list[k].size >= wanted)
    && forall i :: 0 <= i < k ==> list[i].size < wanted
  }

  class Heap {
    var m: Memory
    var end: int
    var freeBytes: nat
    var minimumEver: nat
    const lo: int
    const hi: int
    ghost var list: seq<Block>
    ghost var taken: map<int, nat>

    ghost predicate Valid()
      reads this
    {
      && end == hi && Tiled(m, list, taken, lo, hi)
      && OnBoundary(lo) && OnBoundary(hi) && FreeAligned(list) && TakenAligned(taken)
      && freeBytes == Total(list) && minimumEver <= freeBytes
    }

    /** prvHeapInit. The pool must have room for its end marker and more, and must be smaller than the bit that
        marks allocated blocks. */
    constructor (heap: nat, totalHeapSize: nat)
      requires 0 < heap && totalHeapSize < ALLOCATED_BIT
      requires RoundUp(heap) < heap + totalHeapSize - STRUCT_SIZE - (heap + totalHeapSize) % ALIGNMENT
      ensures Valid() && heap <= lo < heap + ALIGNMENT && hi + STRUCT_SIZE <= heap + totalHeapSize
      ensures heap + totalHeapSize < hi + STRUCT_SIZE + ALIGNMENT
      ensures list == [Block(lo, hi - lo)] && taken == map[] && freeBytes == minimumEver == hi - lo
    {
      var address := heap;
      var total := totalHeapSize;
      if address % ALIGNMENT != 0 {
        address := address + (ALIGNMENT - 1);
        address := address - address % ALIGNMENT;
        total := total - (address - heap);
      }
      var alignedHeap := address;
      address := alignedHeap + total;
      address := address - STRUCT_SIZE;
      address := address - address % ALIGNMENT;
      InitAligned(heap, totalHeapSize, alignedHeap, address);
      this.lo, this.hi := alignedHeap, address;
      m := map[START := Link(alignedHeap, 0), address := Link(0, 0),
               alignedHeap := Link(address, address - alignedHeap)];
      end := address;
      minimumEver := address - alignedHeap;
      freeBytes := address - alignedHeap;
      list := [Block(alignedHeap, address - alignedHeap)];
      taken := map[];
      new;
      TotalOne(Block(lo, hi - lo));
      InitTiled(m, lo, hi);
      forall i: nat ensures FreeAlignedAt(list, i) {}
      forall a ensures TakenAlignedAt(taken, a) {}
    }

    /** prvInsertBlockIntoFreeList. */
    method InsertBlock(b: int, ghost size: nat) returns (ghost k: nat)
      requires end == hi && Linked(m, list, hi) && Canonical(list, lo, hi) && 0 < lo
      requires b in m && m[b].size == size > 0 && lo <= b && b + size <= hi
      requires forall x :: b <= x < b + size ==> !Covers(list, x)
      modifies this`m, this`list
      ensures Fits(old(list), k, Block(b, size)) && list == Merged(old(list), k, Block(b, size))
      ensures Linked(m, list, hi) && Canonical(list, lo, hi)
      ensures forall a :: a in old(m) && a != START && a != b && !Covers(old(list), a) ==> a in m && m[a] == old(m)[a]
    {
      k := 0;
      var it := START;
      assert LinkAt(m, list, hi, 0);
      while m[it].next < b
        invariant k <= |list| && it == NodeAt(list, k) && LinkAt(m, list, hi, k)
        invariant k > 0 ==> list[k - 1].at < b
        decreases |list| - k
      {
        k := k + 1;
        it := m[it].next;
        assert LinkAt(m, list, hi, k);
      }
      ghost var block := Block(b, size);
      BlockFits(list, lo, hi, k, block);
      Place(it, b, k, block);
      MergedCanonical(list, k, block, lo, hi);
      list := Merged(list, k, block);
    }

    /** The second half of prvInsertBlockIntoFreeList: merge with the neighbours and link. */
    method Place(it: int, b: int, ghost k: nat, ghost block: Block)
      requires end == hi && Linked(m, list, hi) && Canonical(list, lo, hi) && 0 < lo
      requires Fits(list, k, block) && block.at == b && lo <= b && Past(block) <= hi
      requires b in m && m[b].size == block.size && it == NodeAt(list, k)
      modifies this`m
      ensures Linked(m, Merged(list, k, block), hi)
      ensures forall a :: a in old(m) && a != START && a != b && !Covers(list, a) ==> a in m && m[a] == old(m)[a]
    {
      PlaceFacts(m, list, lo, hi, k, block);
      var inserted := b;
      var next := m[it].next;
      if it + m[it].size == inserted {
        m := m[it := m[it].(size := m[it].size + m[inserted].size)];
        inserted := it;
      }
      if inserted + m[inserted].size == next {
        if next != end {
          m := m[inserted := m[inserted].(size := m[inserted].size + m[next].size)];
          m := m[inserted := m[inserted].(next := m[next].next)];
        } else {
          m := m[inserted := m[inserted].(next := end)];
        }
      } else {
        m := m[inserted := m[inserted].(next := next)];
      }
      if it != inserted {
        m := m[it := m[it].(next := inserted)];
      }
      Relinked(old(m), m, list, lo, hi, k, block);
    }

    /** The first-fit search of pvPortMalloc. */
    method Search(wanted: nat) returns (previous: int, block: int, ghost k: nat)
      requires Valid() && wanted > 0
      ensures FirstFit(list, wanted, k) && previous == NodeAt(list, k) && block == Target(list, hi, k) > 0
    {
      k := 0;
      previous := START;
      assert LinkAt(m, list, hi, 0);
      block := m[START].next;
      TargetFacts(m, list, lo, hi, k);
      while m[block].size < wanted && m[block].next != 0
        invariant k <= |list| && previous == NodeAt(list, k) && block == Target(list, hi, k) > 0 && block in m
        invariant m[block] == if k < |list| then Link(Target(list, hi, k + 1), list[k].size) else Link(0, 0)
        invariant forall i :: 0 <= i < k ==> list[i].size < wanted
        decreases |list| - k
      {
        previous := block;
        block := m[block].next;
        k := k + 1;
        TargetFacts(m, list, lo, hi, k);
      }
      if k < |list| { TargetFacts(m, list, lo, hi, k + 1); }
    }

    /** pvPortMalloc, up to the fallback to another heap. */
    method Malloc(bytes: nat) returns (r: int, ghost k: nat)
      requires Valid()
      modifies this
      ensures Valid()
      ensures FirstFit(old(list), Wanted(bytes), k)
      ensures r == 0 <==> Wanted(bytes) == 0 || k == |old(list)|
      ensures r == 0 ==> list == old(list) && taken == old(taken) && freeBytes == old(freeBytes)
      ensures minimumEver == if freeBytes < old(minimumEver) then freeBytes else old(minimumEver)
      ensures r != 0 ==>
                var b := old(list)[k];
                var size := Granted(b.size, Wanted(bytes));
                && r == b.at + STRUCT_SIZE && r % ALIGNMENT == 0 && size >= bytes + STRUCT_SIZE
                && (if b.size > size then size < bytes + STRUCT_SIZE + ALIGNMENT && b.size - size > MINIMUM_BLOCK_SIZE
                    else size < bytes + STRUCT_SIZE + ALIGNMENT + MINIMUM_BLOCK_SIZE)
                && b.at !in old(taken) && taken == old(taken)[b.at := size]
                && freeBytes == old(freeBytes) - size
                && forall x :: Covers(list, x) <==> Covers(old(list), x) && !(b.at <= x < b.at + size)
    {
      r, k := 0, 0;
      var wanted := bytes;
      if wanted < ALLOCATED_BIT {
        if wanted > 0 {
          wanted := wanted + STRUCT_SIZE;
          if wanted % ALIGNMENT != 0 {
            wanted := wanted + (ALIGNMENT - wanted % ALIGNMENT);
          }
          WantedFacts(bytes, wanted);
        }
        if 0 < wanted <= freeBytes {
          var previous, block;
          previous, block, k := Search(wanted);
          if block != end {
            r := TakeBlock(previous, block, wanted, k);
          } else {
            EndOnly(list, lo, hi, k);
          }
          return;
        }
      }
      if Wanted(bytes) > 0 {
        NoneFits(list, Wanted(bytes));
        k := |list|;
      }
    }

    /** Take the block found, split it if the rest is large enough, and mark it. */
    method TakeBlock(previous: int, block: int, wanted: nat, ghost k: nat) returns (r: int)
      requires Valid() && wanted > 0 && k < |list| && list[k].size >= wanted && OnBoundary(wanted)
      requires previous == NodeAt(list, k) && block == list[k].at
      modifies this
      ensures Valid() && r == block + STRUCT_SIZE && r % ALIGNMENT == 0
      ensures var b := old(list)[k];
              var size := Granted(b.size, wanted);
              && b.at !in old(taken) && taken == old(taken)[b.at := size]
              && freeBytes == old(freeBytes) - size
              && minimumEver == (if freeBytes < old(minimumEver) then freeBytes else old(minimumEver))
              && forall x :: Covers(list, x) <==> Covers(old(list), x) && !(b.at <= x < b.at + size)
    {
      ghost var m0, list0, b := m, list, list[k];
      assert FreeAlignedAt(list, k);
      UnlinkFacts(m, list, lo, hi, k);
      r := m[previous].next + STRUCT_SIZE;
      m := m[previous := m[previous].(next := m[block].next)];
      list := RemoveAt(list, k);
      SplitBlock(block, wanted, list0, k);
      Mark(block, m0, list0, k, Granted(b.size, wanted));
    }

    /** Account for the block and mark it as allocated. */
    method Mark(block: int, ghost m0: Memory, ghost list0: seq<Block>, ghost k: nat, ghost size: nat)
      requires end == hi && Tiled(m0, list0, taken, lo, hi) && Canonical(list, lo, hi) && Linked(m, list, hi)
      requires OnBoundary(lo) && OnBoundary(hi) && FreeAligned(list) && TakenAligned(taken)
      requires freeBytes == Total(list) + size && k < |list0| && block == list0[k].at && 0 < size <= list0[k].size
      requires OnBoundary(block) && OnBoundary(size)
      requires block in m && m[block].size == size && block != START && block != hi && !Covers(list, block)
      requires forall x :: Covers(list, x) <==> Covers(list0, x) && !(block <= x < block + size)
      requires forall a :: a in m0 && a != START && !Covers(list0, a) ==> a in m && m[a] == m0[a]
      modifies this`m, this`freeBytes, this`minimumEver, this`taken
      ensures Valid() && block !in old(taken) && taken == old(taken)[block := size]
              && freeBytes == old(freeBytes) - size
      ensures minimumEver == if freeBytes < old(minimumEver) then freeBytes else old(minimumEver)
    {
      freeBytes := freeBytes - m[block].size;
      if freeBytes < minimumEver {
        minimumEver := freeBytes;
      }
      ghost var m2 := m;
      m := m[block := Link(0, m[block].size + ALLOCATED_BIT)];
      taken := taken[block := size];
      OtherHeader(m2, m, list, lo, hi);
      assert InPool(list0, lo, hi, k) && Holds(list0, k, block);
      TakenTiled(m0, m, list0, list, old(taken), lo, hi, k, size);
      forall a ensures TakenAlignedAt(taken, a) { assert TakenAlignedAt(old(taken), a); }
    }

    /** Split an unlinked block if the rest is large enough. */
    method SplitBlock(block: int, wanted: nat, ghost list0: seq<Block>, ghost k: nat)
      requires end == hi && 0 < lo < hi && Canonical(list0, lo, hi) && Linked(m, list, hi)
      requires k < |list0| && list == RemoveAt(list0, k) && block == list0[k].at
      requires block in m && m[block].size == list0[k].size && 0 < wanted <= list0[k].size
      requires FreeAligned(list0) && OnBoundary(wanted)
      modifies this`m, this`list
      ensures Linked(m, list, hi) && Canonical(list, lo, hi) && FreeAligned(list)
      ensures block in m && m[block].size == Granted(list0[k].size, wanted)
      ensures Total(list) == Total(list0) - Granted(list0[k].size, wanted)
      ensures forall x :: Covers(list, x) <==>
                Covers(list0, x) && !(block <= x < block + Granted(list0[k].size, wanted))
      ensures !Covers(list, block) && block != START && block != hi
      ensures forall a :: a in old(m) && a != START && !Covers(list0, a) ==> a in m && m[a] == old(m)[a]
    {
      ghost var m1 := m;
      RemovedParts(list0, lo, hi, k);
      RemovedAligned(list0, k);
      if m[block].size - wanted > MINIMUM_BLOCK_SIZE {
        var rest := block + wanted;
        var size := m[block].size - wanted;
        m := m[rest := Link(if rest in m then m[rest].next else 0, size)];
        m := m[block := m[block].(size := wanted)];
        RestFacts(m1, m, list0, lo, hi, k, wanted);
        PutBack(rest, size);
      }
      Apportion(list0, list, lo, hi, k, wanted);
    }

    /** prvInsertBlockIntoFreeList, with what it does to the free bytes. */
    method PutBack(b: int, ghost size: nat)
      requires end == hi && Linked(m, list, hi) && Canonical(list, lo, hi) && 0 < lo && FreeAligned(list)
      requires b in m && m[b].size == size > 0 && lo <= b && b + size <= hi && OnBoundary(b) && OnBoundary(size)
      requires forall x :: b <= x < b + size ==> !Covers(list, x)
      modifies this`m, this`list
      ensures Linked(m, list, hi) && Canonical(list, lo, hi) && FreeAligned(list)
      ensures Total(list) == Total(old(list)) + size
      ensures forall x :: Covers(list, x) <==> Covers(old(list), x) || b <= x < b + size
      ensures forall a :: a in old(m) && a != START && a != b && !Covers(old(list), a) ==> a in m && m[a] == old(m)[a]
    {
      ghost var list0 := list;
      ghost var k := InsertBlock(b, size);
      MergedAligned(list0, k, Block(b, size));
      MergedTotal(list0, k, Block(b, size));
      forall x ensures Covers(list, x) <==> Covers(list0, x) || b <= x < b + size {
        MergedCovers(list0, k, Block(b, size), x);
      }
    }

    /** vPortFree of a block of this pool. */
    method Free(pv: int)
      requires Valid() && (pv == 0 || pv - STRUCT_SIZE in taken)
      modifies this
      ensures Valid()
      ensures minimumEver == old(minimumEver)
      ensures pv == 0 ==> list == old(list) && taken == old(taken) && freeBytes == old(freeBytes)
      ensures pv != 0 ==>
                var a := pv - STRUCT_SIZE;
                var size := old(taken)[a];
                && taken == old(taken) - {a} && freeBytes == old(freeBytes) + size
                && forall x :: Covers(list, x) <==> Covers(old(list), x) || a <= x < a + size
    {
      if pv != 0 {
        var link := pv - STRUCT_SIZE;
        ghost var m0, list0, size := m, list, taken[link];
        assert HeaderAt(m, taken, lo, hi, link);
        if m[link].size >= ALLOCATED_BIT {
          if m[link].next == 0 {
            m := m[link := m[link].(size := m[link].size - ALLOCATED_BIT)];
            freeBytes := freeBytes + m[link].size;
            FreedFacts(m0, m, list, taken, lo, hi, link);
            assert TakenAlignedAt(taken, link);
            PutBack(link, size);
            taken := taken - {link};
            FreedTiled(m0, m, list0, list, old(taken), lo, hi, link);
            forall a ensures TakenAlignedAt(taken, a) { assert TakenAlignedAt(old(taken), a); }
          }
        }
      }
    }
  }

  /** The size of the block that serves a request. */
  function Granted(size: nat, wanted: nat): nat {
    if size > wanted + MINIMUM_BLOCK_SIZE then wanted else size
  }

  /** The next address on a boundary. */
  function RoundUp(x: nat): nat {
    x + (if x % ALIGNMENT != 0 then ALIGNMENT - x % ALIGNMENT else 0)
  }

  lemma InitAligned(heap: nat, total: nat, lo: int, hi: int)
    requires lo == if heap % ALIGNMENT != 0 then heap + (ALIGNMENT - 1) - (heap + (ALIGNMENT - 1)) % ALIGNMENT
                   else heap
    requires hi == heap + total - STRUCT_SIZE - (heap + total - STRUCT_SIZE) % ALIGNMENT
    ensures lo == RoundUp(heap) && OnBoundary(lo) && OnBoundary(hi) && OnBoundary(hi - lo)
    ensures hi == heap + total - STRUCT_SIZE - (heap + total) % ALIGNMENT
  {
  }

  lemma {:induction false} RemovedAligned(list: seq<Block>, k: nat)
    requires FreeAligned(list) && k < |list|
    ensures FreeAligned(RemoveAt(list, k)) && OnBoundary(list[k].at) && OnBoundary(list[k].size)
  {
    assert FreeAlignedAt(list, k);
    forall i: nat ensures FreeAlignedAt(RemoveAt(list, k), i) {
      assert FreeAlignedAt(list, if i < k then i else i + 1);
    }
  }

  lemma SumAligned(a: int, b: int)
    requires OnBoundary(a) && OnBoundary(b)
    ensures OnBoundary(a + b) && OnBoundary(a - b)
  {
  }

  lemma {:induction false} MergedAligned(list: seq<Block>, k: nat, b: Block)
    requires FreeAligned(list) && k <= |list| && OnBoundary(b.at) && OnBoundary(b.size)
    ensures FreeAligned(Merged(list, k, b))
  {
    var left := k > 0 && Past(list[k - 1]) == b.at;
    var right := k < |list| && Past(b) == list[k].at;
    var at := if left then k - 1 else k;
    var r := Merged(list, k, b);
    MergedParts(list, k, b);
    forall i: nat ensures FreeAlignedAt(r, i) {
      if i < at { assert r[i] == list[i] && FreeAlignedAt(list, i); }
      if at < i < |r| {
        var j := i - at - 1 + if right then k + 1 else k;
        assert r[i] == list[j] && FreeAlignedAt(list, j);
      }
      if i == at { MergedBlockAligned(list, k, b); }
    }
  }

  lemma {:induction false} MergedBlockAligned(list: seq<Block>, k: nat, b: Block)
    requires FreeAligned(list) && k <= |list| && OnBoundary(b.at) && OnBoundary(b.size)
    ensures var at := if k > 0 && Past(list[k - 1]) == b.at then k - 1 else k;
            FreeAlignedAt(Merged(list, k, b), at)
  {
    var left := k > 0 && Past(list[k - 1]) == b.at;
    var right := k < |list| && Past(b) == list[k].at;
    MergedParts(list, k, b);
    if left { assert FreeAlignedAt(list, k - 1); }
    if right { assert FreeAlignedAt(list, k); }
    var x, y := if left then list[k - 1].size else 0, if right then list[k].size else 0;
    SumAligned(x, b.size);
    SumAligned(x + b.size, y);
    assert Merged(list, k, b)[if left then k - 1 else k].size == x + b.size + y;
  }

  /** A block header stands here, or the marker at the end of the pool. */
  ghost predicate HeaderHere(list: seq<Block>, taken: map<int, nat>, hi: int, a: int) {
    a in taken || a == hi || exists i: nat :: i < |list| && list[i].at == a
  }

  /** x is a byte that the application may use, of the allocated block c. */
  ghost predicate Payload(taken: map<int, nat>, c: int, x: int) {
    c in taken && c + STRUCT_SIZE <= x < c + taken[c]
  }

  /** Two headers do not overlap. */
  lemma {:induction false} HeadersApart(h: Heap, a: int, b: int)
    requires h.Valid() && HeaderHere(h.list, h.taken, h.hi, a) && HeaderHere(h.list, h.taken, h.hi, b) && a < b
    ensures a + STRUCT_SIZE <= b
  {
    HeaderAligned(h, a);
    HeaderAligned(h, b);
  }

  /** No header overlaps the payload of an allocated block. */
  lemma {:induction false} PayloadApart(h: Heap, a: int, c: int, x: int)
    requires h.Valid() && HeaderHere(h.list, h.taken, h.hi, a) && Payload(h.taken, c, x)
    ensures !(a <= x < a + STRUCT_SIZE)
  {
    if a <= x < a + STRUCT_SIZE {
      HeaderBytes(h, a, x);
      assert SplitAt(h.list, h.taken, h.lo, h.hi, x) && Owns(h.taken, c, x);
      assert ApartAt(h.taken, a, c) && ApartAt(h.taken, c, a);
    }
  }

  lemma {:induction false} HeaderAligned(h: Heap, a: int)
    requires h.Valid() && HeaderHere(h.list, h.taken, h.hi, a)
    ensures OnBoundary(a)
  {
    assert TakenAlignedAt(h.taken, a);
    if i: nat :| i < |h.list| && h.list[i].at == a { assert FreeAlignedAt(h.list, i); }
  }

  /** The bytes of a header belong to its block. */
  lemma {:induction false} HeaderBytes(h: Heap, a: int, x: int)
    requires h.Valid() && HeaderHere(h.list, h.taken, h.hi, a) && a <= x < a + STRUCT_SIZE
    ensures a in h.taken ==> Owns(h.taken, a, x)
    ensures a !in h.taken && a != h.hi ==> Covers(h.list, x)
  {
    if a in h.taken {
      assert TakenAlignedAt(h.taken, a) && HeaderAt(h.m, h.taken, h.lo, h.hi, a);
    } else if a != h.hi {
      var i: nat :| i < |h.list| && h.list[i].at == a;
      assert FreeAlignedAt(h.list, i) && InPool(h.list, h.lo, h.hi, i);
      assert Holds(h.list, i, x);
    }
  }

  lemma {:induction false} InitTiled(m: Memory, lo: int, hi: int)
    requires 0 < lo < hi <= lo + ALLOCATED_BIT - 1
    requires START in m && m[START] == Link(lo, 0) && hi in m && m[hi] == Link(0, 0) && lo in m
             && m[lo] == Link(hi, hi - lo)
    ensures Tiled(m, [Block(lo, hi - lo)], map[], lo, hi)
  {
    var list := [Block(lo, hi - lo)];
    forall i: nat, j: nat ensures GapAt(list, i, j) {}
    forall i: nat ensures InPool(list, lo, hi, i) {}
    forall i: nat ensures LinkAt(m, list, hi, i) {}
    forall x ensures SplitAt(list, map[], lo, hi, x) {
      if lo <= x < hi { assert Holds(list, 0, x); }
    }
    forall a, b ensures ApartAt(map[], a, b) {}
    forall a ensures HeaderAt(m, map[], lo, hi, a) {}
  }

  // ----- insertion into the linked list -----

  lemma {:induction false} NodesDiffer(list: seq<Block>, lo: int, hi: int, i: nat, j: nat)
    requires Canonical(list, lo, hi) && i <= |list| && j <= |list| && 0 < lo < hi
    ensures i != j ==> NodeAt(list, i) != NodeAt(list, j)
    ensures NodeAt(list, i) < hi && NodeAt(list, i) != 0
    ensures i > 0 ==> lo <= NodeAt(list, i) && Covers(list, NodeAt(list, i))
  {
    if i > 0 { assert InPool(list, lo, hi, i - 1) && Holds(list, i - 1, list[i - 1].at); }
    if j > 0 { assert InPool(list, lo, hi, j - 1); }
    if 0 < i < j { assert GapAt(list, i - 1, j - 1); }
    if 0 < j < i { assert GapAt(list, j - 1, i - 1); }
  }

  /** The search stops at the place for a block that is not free yet. */
  lemma {:induction false} BlockFits(list: seq<Block>, lo: int, hi: int, k: nat, b: Block)
    requires Canonical(list, lo, hi) && k <= |list| && b.size > 0 && Past(b) <= hi
    requires k > 0 ==> list[k - 1].at < b.at
    requires b.at <= Target(list, hi, k)
    requires forall x :: b.at <= x < Past(b) ==> !Covers(list, x)
    ensures Fits(list, k, b)
  {
    assert !Covers(list, b.at);
    if k > 0 { assert !Holds(list, k - 1, b.at); }
    if k < |list| {
      assert InPool(list, lo, hi, k) && Holds(list, k, list[k].at);
      assert Covers(list, list[k].at);
    }
  }

  lemma {:induction false} PlaceFacts(m: Memory, list: seq<Block>, lo: int, hi: int, k: nat, b: Block)
    requires Canonical(list, lo, hi) && Linked(m, list, hi) && Fits(list, k, b) && 0 < lo <= b.at && Past(b) <= hi
    ensures var it, n := NodeAt(list, k), Target(list, hi, k);
            && it in m && m[it] == Link(n, if k == 0 then 0 else list[k - 1].size) && n in m
            && m[n].size == (if k < |list| then list[k].size else 0)
            && (k < |list| ==> m[n].next == Target(list, hi, k + 1) && n != hi)
            && it != n && it != b.at && n != b.at
            && (it + m[it].size == b.at <==> k > 0 && Past(list[k - 1]) == b.at)
  {
    assert LinkAt(m, list, hi, k) && LinkAt(m, list, hi, k + 1);
    NodesDiffer(list, lo, hi, k, k);
    if k > 0 { assert InPool(list, lo, hi, k - 1); }
    if k < |list| { assert InPool(list, lo, hi, k); NodesDiffer(list, lo, hi, k, k + 1); }
  }

  /** The header of the merged block, and the link to it. */
  ghost predicate Written(m: Memory, m': Memory, list: seq<Block>, hi: int, k: nat, b: Block)
    requires k <= |list|
  {
    var left := k > 0 && Past(list[k - 1]) == b.at;
    var right := k < |list| && Past(b) == list[k].at;
    var it := NodeAt(list, k);
    var merged := Link(Target(list, hi, if right then k + 1 else k),
                       (if left then list[k - 1].size else 0) + b.size + (if right then list[k].size else 0));
    && (forall a :: a in m && a != it && a != b.at ==> a in m' && m'[a] == m[a])
    && it in m' && (if left then m'[it] == merged else it in m && m'[it] == m[it].(next := b.at))
    && b.at in m' && (!left ==> m'[b.at] == merged)
  }

  lemma {:induction false} Relinked(m: Memory, m': Memory, list: seq<Block>, lo: int, hi: int, k: nat, b: Block)
    requires Canonical(list, lo, hi) && Linked(m, list, hi) && Fits(list, k, b) && 0 < lo <= b.at && Past(b) <= hi
    requires Written(m, m', list, hi, k, b)
    ensures Linked(m', Merged(list, k, b), hi)
    ensures forall a :: a in m && a != START && a != b.at && !Covers(list, a) ==> a in m' && m'[a] == m[a]
  {
    NodesDiffer(list, lo, hi, k, k);
    forall i: nat ensures LinkAt(m', Merged(list, k, b), hi, i) {
      if i <= |Merged(list, k, b)| { RelinkedAt(m, m', list, lo, hi, k, b, i); }
    }
  }

  lemma {:induction false} RelinkedAt(m: Memory, m': Memory, list: seq<Block>, lo: int, hi: int, k: nat, b: Block,
    i: nat)
    requires Canonical(list, lo, hi) && Linked(m, list, hi) && Fits(list, k, b) && 0 < lo <= b.at && Past(b) <= hi
    requires Written(m, m', list, hi, k, b) && i <= |Merged(list, k, b)|
    ensures LinkAt(m', Merged(list, k, b), hi, i)
  {
    var left := k > 0 && Past(list[k - 1]) == b.at;
    var right := k < |list| && Past(b) == list[k].at;
    var n := if left then k - 1 else k;
    MergedParts(list, k, b);
    var o := if i <= n then i else if i == n + 1 then k else i - n - 1 + (if right then k + 1 else k);
    assert LinkAt(m, list, hi, o) && LinkAt(m, list, hi, k);
    NodesDiffer(list, lo, hi, o, k);
    NodesDiffer(list, lo, hi, n, k);
    if o > 0 { NotInserted(list, lo, hi, k, b, o - 1); }
  }

  lemma {:induction false} NotInserted(list: seq<Block>, lo: int, hi: int, k: nat, b: Block, i: nat)
    requires Canonical(list, lo, hi) && Fits(list, k, b) && i < |list|
    ensures list[i].at != b.at
  {
    assert InPool(list, lo, hi, i);
    if i < k - 1 { assert GapAt(list, i, k - 1) && InPool(list, lo, hi, k - 1); }
    if i > k { assert GapAt(list, k, i) && InPool(list, lo, hi, k); }
  }

  // ----- allocation -----

  lemma {:induction false} TargetFacts(m: Memory, list: seq<Block>, lo: int, hi: int, k: nat)
    requires Canonical(list, lo, hi) && Linked(m, list, hi) && k <= |list| && 0 < lo < hi
    ensures Target(list, hi, k) in m && Target(list, hi, k) > 0
    ensures m[Target(list, hi, k)] == if k < |list| then Link(Target(list, hi, k + 1), list[k].size) else Link(0, 0)
    ensures NodeAt(list, k) in m && m[NodeAt(list, k)].next == Target(list, hi, k)
    ensures k < |list| ==> Target(list, hi, k) < hi
  {
    assert LinkAt(m, list, hi, k);
    if k < |list| { assert LinkAt(m, list, hi, k + 1) && InPool(list, lo, hi, k); }
  }

  lemma {:induction false} EndOnly(list: seq<Block>, lo: int, hi: int, k: nat)
    requires Canonical(list, lo, hi) && k <= |list| && Target(list, hi, k) == hi
    ensures k == |list|
  {
    assert InPool(list, lo, hi, k);
  }

  lemma WantedFacts(bytes: nat, wanted: nat)
    requires 0 < bytes < ALLOCATED_BIT
    requires wanted == bytes + STRUCT_SIZE + (if (bytes + STRUCT_SIZE) % ALIGNMENT != 0
                                              then ALIGNMENT - (bytes + STRUCT_SIZE) % ALIGNMENT else 0)
    ensures wanted == Wanted(bytes) && wanted % ALIGNMENT == 0 && wanted >= bytes + STRUCT_SIZE
  {
  }

  /** A request beyond the total of all free bytes fits no block. */
  lemma {:induction false} NoneFits(list: seq<Block>, wanted: nat)
    requires Total(list) < wanted
    ensures FirstFit(list, wanted, |list|)
  {
    forall i | 0 <= i < |list| ensures list[i].size < wanted { TotalAt(list, i); }
  }

  lemma {:induction false} RemovedParts(list: seq<Block>, lo: int, hi: int, k: nat)
    requires Canonical(list, lo, hi) && k < |list|
    ensures Canonical(RemoveAt(list, k), lo, hi)
    ensures Total(RemoveAt(list, k)) == Total(list) - list[k].size
    ensures forall x :: Covers(RemoveAt(list, k), x) <==> Covers(list, x) && !In(list[k], x)
  {
    var r := RemoveAt(list, k);
    forall i: nat, j: nat ensures GapAt(r, i, j) {
      assert GapAt(list, if i < k then i else i + 1, if j < k then j else j + 1);
    }
    forall i: nat ensures InPool(r, lo, hi, i) { assert InPool(list, lo, hi, if i < k then i else i + 1); }
    TotalAt(list, k);
    TotalAppend(list[..k], list[k + 1..]);
    forall x ensures Covers(r, x) <==> Covers(list, x) && !In(list[k], x) {
      if Covers(r, x) {
        var i: nat :| Holds(r, i, x);
        var o := if i < k then i else i + 1;
        assert Holds(list, o, x);
        if i < k { assert GapAt(list, i, k); } else { assert GapAt(list, k, i + 1); }
      }
      if Covers(list, x) && !In(list[k], x) {
        var i: nat :| Holds(list, i, x);
        assert Holds(r, if i < k then i else i - 1, x);
      }
    }
  }

  /** Taking block k out of the linked list. */
  lemma {:induction false} UnlinkFacts(m: Memory, list: seq<Block>, lo: int, hi: int, k: nat)
    requires Canonical(list, lo, hi) && Linked(m, list, hi) && k < |list| && 0 < lo < hi
    ensures var previous, block := NodeAt(list, k), list[k].at;
            && previous in m && block in m && previous != block && m[previous].next == block
            && m[block] == Link(Target(list, hi, k + 1), list[k].size)
            && (previous == START || Covers(list, previous)) && Covers(list, block)
            && Linked(m[previous := m[previous].(next := m[block].next)], RemoveAt(list, k), hi)
    ensures Canonical(RemoveAt(list, k), lo, hi) && Total(RemoveAt(list, k)) == Total(list) - list[k].size
  {
    TargetFacts(m, list, lo, hi, k);
    NodesDiffer(list, lo, hi, k, k + 1);
    NodesDiffer(list, lo, hi, k + 1, k);
    RemovedParts(list, lo, hi, k);
    var previous, r := NodeAt(list, k), RemoveAt(list, k);
    var m' := m[previous := m[previous].(next := Target(list, hi, k + 1))];
    assert LinkAt(m, list, hi, k);
    forall i: nat ensures LinkAt(m', r, hi, i) {
      var o := if i <= k then i else i + 1;
      assert LinkAt(m, list, hi, o);
      if i <= |r| { NodesDiffer(list, lo, hi, o, k); }
    }
  }

  /** A free list does not care about headers that are not its own. */
  lemma {:induction false} OtherHeader(m: Memory, m': Memory, list: seq<Block>, lo: int, hi: int)
    requires Canonical(list, lo, hi) && Linked(m, list, hi) && 0 < lo < hi
    requires forall a :: a in m && (a == START || a == hi || Covers(list, a)) ==> a in m' && m'[a] == m[a]
    ensures Linked(m', list, hi)
  {
    forall i: nat ensures LinkAt(m', list, hi, i) {
      assert LinkAt(m, list, hi, i);
      if i <= |list| { NodesDiffer(list, lo, hi, i, i); }
    }
  }

  /** The rest of a block that is split is not in the free list yet. */
  lemma {:induction false} RestFacts(m1: Memory, m': Memory, list: seq<Block>, lo: int, hi: int, k: nat, wanted: nat)
    requires Canonical(list, lo, hi) && k < |list| && 0 < lo < hi && 0 < wanted < list[k].size
    requires Linked(m1, RemoveAt(list, k), hi)
    requires forall a :: a in m1 && a != list[k].at && a != list[k].at + wanted ==> a in m' && m'[a] == m1[a]
    ensures Linked(m', RemoveAt(list, k), hi) && Canonical(RemoveAt(list, k), lo, hi)
    ensures lo <= list[k].at + wanted && Past(list[k]) <= hi
    ensures forall x :: list[k].at <= x < Past(list[k]) ==> !Covers(RemoveAt(list, k), x)
    ensures forall x :: list[k].at <= x < Past(list[k]) ==> Covers(list, x)
  {
    RemovedParts(list, lo, hi, k);
    assert InPool(list, lo, hi, k);
    forall x | list[k].at <= x < Past(list[k]) ensures Covers(list, x) { assert Holds(list, k, x); }
    OtherHeader(m1, m', RemoveAt(list, k), lo, hi);
  }

  /** The bytes that stay free. */
  lemma {:induction false} Apportion(list: seq<Block>, list': seq<Block>, lo: int, hi: int, k: nat, wanted: nat)
    requires Canonical(list, lo, hi) && k < |list| && 0 < wanted <= list[k].size
    requires var b := list[k];
             forall x :: Covers(list', x) <==>
               Covers(RemoveAt(list, k), x) || (b.size > wanted + MINIMUM_BLOCK_SIZE && b.at + wanted <= x < Past(b))
    ensures var b := list[k];
            forall x :: Covers(list', x) <==> Covers(list, x) && !(b.at <= x < b.at + Granted(b.size, wanted))
    ensures !Covers(list', list[k].at) && lo <= list[k].at < hi
  {
    RemovedParts(list, lo, hi, k);
    assert InPool(list, lo, hi, k);
    var b := list[k];
    forall x ensures Covers(list', x) <==> Covers(list, x) && !(b.at <= x < b.at + Granted(b.size, wanted)) {
      if In(b, x) { assert Holds(list, k, x); }
    }
  }

  lemma {:induction false} TakenTiled(m: Memory, m': Memory, list: seq<Block>, list': seq<Block>, taken: map<int, nat>,
                                      lo: int, hi: int, k: nat, size: nat)
    requires Tiled(m, list, taken, lo, hi) && k < |list| && 0 < size <= list[k].size
    requires Canonical(list', lo, hi) && Linked(m', list', hi)
    requires forall x :: Covers(list', x) <==> Covers(list, x) && !(list[k].at <= x < list[k].at + size)
    requires forall a :: a in m && a != START && !Covers(list, a) ==> a in m' && m'[a] == m[a]
    requires list[k].at in m' && m'[list[k].at] == Link(0, size + ALLOCATED_BIT)
    ensures list[k].at !in taken && Tiled(m', list', taken[list[k].at := size], lo, hi)
  {
    var b := list[k].at;
    var taken' := taken[b := size];
    assert InPool(list, lo, hi, k);
    assert forall x :: b <= x < b + size ==> Covers(list, x) by {
      forall x | b <= x < b + size ensures Covers(list, x) { assert Holds(list, k, x); }
    }
    forall a ensures a in taken ==> a > 0 && Owns(taken, a, a) && !Covers(list, a) && a != b {
      assert HeaderAt(m, taken, lo, hi, a) && SplitAt(list, taken, lo, hi, a);
      if a in taken { assert Owns(taken, a, a); }
    }
    forall x ensures SplitAt(list', taken', lo, hi, x) {
      assert SplitAt(list, taken, lo, hi, x);
      TakenBytes(taken, b, size, x);
    }
    forall a, c ensures ApartAt(taken', a, c) {
      assert ApartAt(taken, a, c);
      if a in taken && c == b && a < b { TakenBefore(list, taken, lo, hi, a, b); }
    }
    forall a ensures HeaderAt(m', taken', lo, hi, a) { assert HeaderAt(m, taken, lo, hi, a); }
  }

  lemma {:induction false} TakenBytes(taken: map<int, nat>, b: int, size: nat, x: int)
    requires b !in taken
    ensures InUse(taken[b := size], x) <==> InUse(taken, x) || b <= x < b + size
  {
    var taken' := taken[b := size];
    if InUse(taken', x) {
      var a :| Owns(taken', a, x);
      if a != b { assert Owns(taken, a, x); }
    }
    if b <= x < b + size { assert Owns(taken', b, x); }
    if InUse(taken, x) {
      var a :| Owns(taken, a, x);
      assert Owns(taken', a, x);
    }
  }

  /** An allocated block before a free byte ends before it. */
  lemma {:induction false} TakenBefore(list: seq<Block>, taken: map<int, nat>, lo: int, hi: int, a: int, b: int)
    requires SplitAt(list, taken, lo, hi, b) && Covers(list, b) && a in taken && a < b
    ensures a + taken[a] <= b
  {
    assert !Owns(taken, a, b);
  }

  // ----- release -----

  lemma {:induction false} FreedFacts(m: Memory, m': Memory, list: seq<Block>, taken: map<int, nat>, lo: int,
    hi: int, a: int)
    requires Tiled(m, list, taken, lo, hi) && a in taken
    requires forall c :: c in m && c != a ==> c in m' && m'[c] == m[c]
    ensures forall x :: a <= x < a + taken[a] ==> !Covers(list, x)
    ensures Linked(m', list, hi) && lo <= a && a + taken[a] <= hi && taken[a] > 0
  {
    assert HeaderAt(m, taken, lo, hi, a);
    forall x | a <= x < a + taken[a] ensures !Covers(list, x) {
      assert SplitAt(list, taken, lo, hi, x) && Owns(taken, a, x);
    }
    OtherHeader(m, m', list, lo, hi);
  }

  lemma {:induction false} FreedTiled(m: Memory, m': Memory, list: seq<Block>, list': seq<Block>, taken: map<int, nat>,
                                      lo: int, hi: int, a: int)
    requires Tiled(m, list, taken, lo, hi) && a in taken
    requires Canonical(list', lo, hi) && Linked(m', list', hi)
    requires forall x :: Covers(list', x) <==> Covers(list, x) || a <= x < a + taken[a]
    requires forall c :: c in m && c != START && c != a && !Covers(list, c) ==> c in m' && m'[c] == m[c]
    ensures Tiled(m', list', taken - {a}, lo, hi)
  {
    var taken' := taken - {a};
    assert HeaderAt(m, taken, lo, hi, a);
    forall x ensures SplitAt(list', taken', lo, hi, x) {
      assert SplitAt(list, taken, lo, hi, x);
      FreedBytes(m, taken, lo, hi, a, x);
    }
    forall c, d ensures ApartAt(taken', c, d) { assert ApartAt(taken, c, d); }
    forall c ensures HeaderAt(m', taken', lo, hi, c) {
      assert HeaderAt(m, taken, lo, hi, c) && SplitAt(list, taken, lo, hi, c);
      if c in taken { assert Owns(taken, c, c); }
    }
  }

  lemma {:induction false} FreedBytes(m: Memory, taken: map<int, nat>, lo: int, hi: int, a: int, x: int)
    requires a in taken && forall c, d {:trigger ApartAt(taken, c, d)} :: ApartAt(taken, c, d)
    ensures InUse(taken - {a}, x) <==> InUse(taken, x) && !(a <= x < a + taken[a])
  {
    var taken' := taken - {a};
    if InUse(taken', x) {
      var c :| Owns(taken', c, x);
      assert Owns(taken, c, x) && ApartAt(taken, a, c) && ApartAt(taken, c, a);
    }
    if InUse(taken, x) && !(a <= x < a + taken[a]) {
      var c :| Owns(taken, c, x);
      assert Owns(taken', c, x);
    }
  }

  // ----- the pool as a whole -----

  /** Freeing the block just allocated restores the free list and the count of free bytes exactly,
      whether or not the block was split. */
  lemma {:induction false} FreeUndoesMalloc(before: seq<Block>, between: seq<Block>, after: seq<Block>,
                                            lo: int, hi: int, k: nat, size: nat)
    requires Canonical(before, lo, hi) && Canonical(after, lo, hi) && k < |before| && size <= before[k].size
    requires forall x :: Covers(between, x) <==> Covers(before, x) && !(before[k].at <= x < before[k].at + size)
    requires forall x :: Covers(after, x) <==> Covers(between, x) || before[k].at <= x < before[k].at + size
    ensures after == before && Total(after) == Total(before)
  {
    forall x ensures Covers(after, x) <==> Covers(before, x) {
      if before[k].at <= x < before[k].at + size { assert Holds(before, k, x); }
    }
    CanonicalUnique(after, before, lo, hi);
  }

  /** Once every block is free again, in whatever order that happened, the pool is the single initial block. */
  lemma {:induction false} AllFreed(m: Memory, list: seq<Block>, lo: int, hi: int)
    requires Tiled(m, list, map[], lo, hi)
    ensures list == [Block(lo, hi - lo)] && Total(list) == hi - lo
  {
    forall x | lo <= x < hi ensures Covers(list, x) {
      assert SplitAt(list, map[], lo, hi, x);
    }
    AllFree(list, lo, hi);
    TotalOne(Block(lo, hi - lo));
  }

  /** Two states with the same allocated blocks have the same free list. */
  lemma {:induction false} FreeListDetermined(m: Memory, m': Memory, list: seq<Block>, list': seq<Block>,
                                              taken: map<int, nat>, lo: int, hi: int)
    requires Tiled(m, list, taken, lo, hi) && Tiled(m', list', taken, lo, hi)
    ensures list == list'
  {
    forall x ensures Covers(list, x) <==> Covers(list', x) {
      assert SplitAt(list, taken, lo, hi, x) && SplitAt(list', taken, lo, hi, x);
    }
    CanonicalUnique(list, list', lo, hi);
  }

  /** The block of the first fit lies below every other block that is large enough. */
  lemma {:induction false} LowestFit(list: seq<Block>, lo: int, hi: int, wanted: nat, k: nat, i: nat)
    requires Canonical(list, lo, hi) && FirstFit(list, wanted, k) && i < |list| && list[i].size >= wanted
    ensures k < |list| && list[k].at <= list[i].at
  {
    assert GapAt(list, k, i);
  }
}
