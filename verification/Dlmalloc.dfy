/** malloc_state and the allocator's operations on it. Chunks, not user pointers, are handled below the
    entry points; a user pointer is 8 bytes above its chunk. */
module Dlmalloc {
  import opened Bits
  import opened Tags
  import opened Segments
  import opened TreeIndex
  import opened Placement
  import A = Arena
  import S = SmallBins
  import T = TreeBins
  import opened Alignment

  const MAX_SIZE_T: nat := WORD - 1
  const HALF_MAX_SIZE_T: nat := MAX_SIZE_T / 2
  const MAX_REQUEST: nat := WORD - 64
  const MAX_SMALL_REQUEST: nat := 244
  const MIN_REQUEST: nat := 11
  const SYS_ALLOC_PADDING: nat := 48

  /** What the system answers when it is asked for more memory. */
  datatype System = Refused | Granted(base: nat, size: nat)

  /** What the allocator decides: the sizes of the free chunks and of the chunks in use, top, dv, the segments and
      the trim threshold. */
  datatype Heap = Heap(free: map<int, nat>, used: map<int, nat>, top: int, topsize: nat, dv: int,
                       segs: seq<Segment>, trim: nat)

  /** pad_request, which adds the header word and rounds up to the alignment. */
  function PadRequest(bytes: nat): (nb: nat)
    requires bytes < MAX_REQUEST
    ensures nb == (bytes + 4 + 7) / 8 * 8
  {
    EightMasks(bytes + 4 + 7);
    And(bytes + 4 + 7, Not(7))
  }

  lemma {:induction false} EightMasks(x: nat)
    requires x < WORD
    ensures And(x, Not(7)) == x / 8 * 8
  {
    assert Pow2(3) == 8;
    Masks(x, 8);
  }

  /** The chunk size that a request asks for. */
  function Request(bytes: nat): nat {
    if bytes < MIN_REQUEST then MIN_CHUNK_SIZE else if bytes >= MAX_REQUEST then MAX_SIZE_T else PadRequest(bytes)
  }

  lemma RequestFacts(bytes: nat)
    requires bytes < WORD
    ensures var nb := Request(bytes);
            && MIN_CHUNK_SIZE <= nb < WORD
            && (bytes < MAX_REQUEST ==> nb % 8 == 0 && bytes + 4 <= nb && (nb < bytes + 12 || nb == MIN_CHUNK_SIZE))
            && (bytes >= MAX_REQUEST ==> nb == MAX_SIZE_T)
            && (bytes <= MAX_SMALL_REQUEST ==> nb < MIN_LARGE_SIZE)
            && (bytes > MAX_SMALL_REQUEST ==> nb >= MIN_LARGE_SIZE)
  {
  }

  /** A page size, which init_mparams tests to be a power of 2. */
  type Granularity = n: nat | 0 < n < WORD / 2 && n % 8 == 0 && And(n, n - 1) == 0 witness 8

  /** granularity_align, on words. */
  function GranularityAlign(g: Granularity, x: nat): (r: nat)
    ensures r == (x + g - 1) % WORD - (x + g - 1) % WORD % g
  {
    PowerTest(g);
    Masks((x + g - 1) % WORD, g);
    And((x + g - 1) % WORD, Not(g - 1))
  }

  /** A region that overlaps no segment. It is large enough for a segment of its own, or continues top. */
  ghost predicate Usable(segs: seq<Segment>, base: nat, size: nat, nb: nat) {
    && 0 < base && base + size <= WORD && (base + size) % 8 == 0 && size > 0
    && (forall i :: 0 <= i < |segs| ==> End(segs[i]) <= base || base + size <= segs[i].base)
    && (size > nb + TOP_FOOT_SIZE || (segs != [] && base == End(segs[0])))
  }

  /** The padding that sys_alloc asks for. */
  ghost predicate Ample(segs: seq<Segment>, topsize: nat, base: nat, size: nat, nb: nat) {
    if segs != [] && base == End(segs[0]) then topsize + size > nb else size >= nb + SYS_ALLOC_PADDING
  }

  /** The system grants what sys_alloc asks for. */
  ghost predicate Granting(granularity: Granularity, segs: seq<Segment>, topsize: nat, more: System, nb: nat) {
    && more.Granted? && GranularityAlign(granularity, nb + SYS_ALLOC_PADDING) > nb
    && Ample(segs, topsize, more.base, more.size, nb)
  }

  class MallocState {
    const arena: A.Arena
    const smallbins: S.SmallBins
    const treebins: T.TreeBins
    var dv: int
    var dvsize: nat
    const granularity: Granularity

    /** Where the free chunks are kept. */
    ghost function Where(): Places
      reads this, smallbins, treebins
    {
      Places(dv, dvsize, smallbins.contents, treebins.Contents())
    }

    ghost function State(): Heap
      reads this, arena
    {
      Heap(arena.free, arena.used, arena.top, arena.topsize, dv, arena.segs, arena.trimCheck)
    }

    /** A binned chunk that is taken before others of its size: the first in its small bin, or a member of its tree,
        behind which those of its size are chained. */
    ghost predicate Foremost(p: int)
      reads smallbins, treebins
    {
      && (p in smallbins.contents ==>
            var i := S.SmallIndex(smallbins.contents[p]);
            i < |smallbins.lists| && smallbins.lists[i] != [] && p == smallbins.lists[i][0])
      && (p in treebins.Contents() ==> p in treebins.mem && treebins.mem[p].parent != 0)
    }

    ghost predicate Valid()
      reads this, arena, smallbins, treebins
    {
      && arena.Valid() && smallbins.Valid() && treebins.Valid()
      && Placed(arena.free, Where())
    }

    constructor (granularity: Granularity)
      ensures Valid() && State() == Heap(map[], map[], 0, 0, 0, [], 0) && this.granularity == granularity
      ensures fresh(arena) && fresh(smallbins) && fresh(treebins)
    {
      arena := new A.Arena();
      smallbins := new S.SmallBins();
      treebins := new T.TreeBins();
      dv, dvsize := 0, 0;
      this.granularity := granularity;
      new;
      forall p ensures PlacedAt(map[], Where(), p) {}
    }

    // ----- bins -----

    /** insert_chunk. */
    method InsertChunk(p: int, size: nat)
      requires smallbins.Valid() && treebins.Valid() && p > 0 && size % 8 == 0 && size < WORD
      requires p !in smallbins.contents && p !in treebins.Contents()
      modifies smallbins, treebins
      ensures smallbins.Valid() && treebins.Valid() && Where() == With(old(Where()), p, size)
    {
      if S.IsSmall(size) {
        smallbins.InsertSmallChunk(p, size);
      } else {
        treebins.InsertLargeChunk(p, size);
      }
    }

    /** unlink_chunk. */
    method UnlinkChunk(p: int, size: nat, ghost free: map<int, nat>)
      requires smallbins.Valid() && treebins.Valid() && Placed(free, Where())
      requires p in free && p != dv && free[p] == size
      modifies smallbins, treebins
      ensures smallbins.Valid() && treebins.Valid() && Placed(free - {p}, Where())
    {
      if S.IsSmall(size) {
        UnlinkSmall(p, size, free);
      } else {
        UnlinkLarge(p, free);
      }
    }

    method UnlinkSmall(p: int, size: nat, ghost free: map<int, nat>)
      requires smallbins.Valid() && Placed(free, Where())
      requires p in free && p != dv && free[p] == size && S.IsSmall(size)
      modifies smallbins
      ensures smallbins.Valid() && Placed(free - {p}, Where())
    {
      ghost var w := Where();
      assert PlacedAt(free, w, p);
      PlaceRemove(free, w, p);
      A.Absent(w.large, p);
      smallbins.UnlinkSmallChunk(p, size);
    }

    method UnlinkLarge(p: int, ghost free: map<int, nat>)
      requires treebins.Valid() && Placed(free, Where())
      requires p in free && p != dv && !S.IsSmall(free[p])
      modifies treebins
      ensures treebins.Valid() && Placed(free - {p}, Where())
    {
      ghost var w := Where();
      assert PlacedAt(free, w, p);
      PlaceRemove(free, w, p);
      A.Absent(w.small, p);
      treebins.UnlinkLargeChunk(p);
    }

    /** replace_dv, which is only reached with a small dv. */
    method ReplaceDv(p: int, size: nat, ghost free: map<int, nat>)
      requires smallbins.Valid() && treebins.Valid() && Placed(free, Where())
      requires S.IsSmall(dvsize) && dvsize % 8 == 0 && dv >= 0 && p !in free && p > 0 && size > 0
      modifies this, smallbins
      ensures smallbins.Valid() && treebins.Valid()
      ensures Placed(free[p := size], Where()) && dv == p && dvsize == size
    {
      PlaceReplaceDv(free, Where(), p, size);
      var dvs := dvsize;
      if dvs != 0 {
        smallbins.InsertSmallChunk(dv, dvs);
      }
      dvsize := size;
      dv := p;
    }

    // ----- free -----

    /** The backward half of consolidation: the run of the chunk and a free chunk before it.
        kept are the free chunks that are still where they belong. */
    method ConsolidateBackward(q: int, qsize: nat)
      returns (p: int, psize: nat, ghost gone: set<int>, ghost kept: map<int, nat>)
      requires Valid() && q in arena.used && arena.used[q] == qsize
      modifies smallbins, treebins
      ensures smallbins.Valid() && treebins.Valid()
      ensures p + psize == q + qsize && Run(arena.View(), p, q + qsize, gone)
      ensures p in arena.head && arena.head[p].pinuse && p > 0
      ensures Freeing(arena.free, arena.used, kept, p, q, gone, dv) && Placed(kept, Where())
      ensures p == FreeBefore(arena.free, q)
    {
      ghost var t := arena.View();
      A.UsedFacts(t, q);
      FreeBeforeUsed(t, q);
      p, psize, gone, kept := q, qsize, {q}, arena.free;
      if !arena.head[q].pinuse {
        var prevsize := arena.foot[q];
        p := q - prevsize;
        psize := qsize + prevsize;
        A.FreeFacts(t, p);
        RunJoin(t, p, q, q + qsize, {p}, {q});
        gone := {p} + {q};
        if p != dv {
          kept := arena.free - {p};
          UnlinkChunk(p, prevsize, arena.free);
        }
      }
    }

    /** The forward half of consolidation, before a chunk that is not in use: top, dv or a binned chunk. */
    method ConsolidateForward(p: int, psize: nat, next: int,
                              ghost q: int, ghost gone: set<int>, ghost kept: map<int, nat>)
      requires arena.Valid() && smallbins.Valid() && treebins.Valid()
      requires q in arena.used && next == q + arena.used[q] == p + psize && Run(arena.View(), p, next, gone)
      requires p in arena.head && arena.head[p].pinuse && p > 0 && p == FreeBefore(arena.free, q)
      requires Freeing(arena.free, arena.used, kept, p, q, gone, dv) && Placed(kept, Where())
      requires next in arena.head && !arena.head[next].cinuse
      modifies this, arena, smallbins, treebins
      ensures Valid() && State() == Disposed(old(State()), q)
    {
      hide Disposed, Tiled;
      NextUnused(arena.View(), q);
      DisposedForward(State(), kept, p, q, next, gone);
      if next == arena.top {
        JoinTop(p, psize, next, q, gone, kept);
      } else {
        var nsize := arena.head[next].size;
        A.FreeFacts(arena.View(), next);
        RunWithNext(arena.View(), kept, p, q, next, nsize, gone, dv);
        if next == dv {
          JoinDv(p, psize, gone + {next}, kept);
        } else {
          JoinBinned(p, psize, next, nsize, gone + {next}, kept);
        }
      }
    }

    /** The chunk behind is top. */
    method JoinTop(p: int, psize: nat, next: int, ghost q: int, ghost gone: set<int>, ghost kept: map<int, nat>)
      requires arena.Valid() && smallbins.Valid() && treebins.Valid()
      requires q in arena.used && next == p + psize == arena.top != 0 && Run(arena.View(), p, next, gone)
      requires p in arena.head && arena.head[p].pinuse && p > 0
      requires Freeing(arena.free, arena.used, kept, p, q, gone, dv) && Placed(kept, Where())
      modifies this`dv, this`dvsize, arena
      ensures Valid() && arena.free == old(arena.free) - (gone + {next})
      ensures arena.used == old(arena.used) - (gone + {next})
      ensures State() == old(State()).(free := arena.free, used := arena.used, top := p,
                                       topsize := old(arena.topsize) + (next - p),
                                       dv := if old(dv) == p then 0 else old(dv))
    {
      hide Tiled;
      ghost var t := arena.View();
      A.TopFacts(t);
      RunBounds(t, p, next, gone);
      RunJoin(t, p, next, next + arena.topsize, gone, {next});
      Freed(t.free, t.used, kept, p, q, next, gone, dv);
      A.Absent(kept, next);
      arena.JoinTop(p, psize, gone + {next});
      LeaveDv(p, kept);
    }

    /** The case of a binned chunk behind. */
    method JoinBinned(p: int, psize: nat, next: int, nsize: nat, ghost gone: set<int>, ghost kept: map<int, nat>)
      requires arena.Valid() && smallbins.Valid() && treebins.Valid()
      requires next == p + psize && Run(arena.View(), p, next + nsize, gone) && next + nsize in arena.chunks
      requires p in arena.head && arena.head[p].pinuse && p > 0
      requires next + nsize in arena.head && arena.head[next + nsize].cinuse && !arena.head[next + nsize].pinuse
      requires (p in kept ==> p == dv) && (p == dv ==> dv in kept) && next in kept && kept[next] == nsize && next != dv
      requires Placed(kept, Where()) && arena.free - gone == kept - {next} - {p}
      modifies this`dvsize, arena, smallbins, treebins
      ensures Valid() && State() == Joined(old(State()), gone, p, psize + nsize)
    {
      hide Tiled;
      ghost var t := arena.View();
      UnlinkChunk(next, nsize, kept);
      RunBounds(t, p, next + nsize, gone);
      AlignedDiff(next + nsize, p);
      arena.SetFree(p, psize + nsize, gone);
      PlaceJoined(p, psize + nsize, kept - {next});
    }

    /** The chunk behind is dv, which grows to the front. */
    method JoinDv(p: int, psize: nat, ghost gone: set<int>, ghost kept: map<int, nat>)
      requires arena.Valid() && smallbins.Valid() && treebins.Valid() && Placed(kept, Where()) && dv != 0
      requires dv == p + psize && Run(arena.View(), p, dv + dvsize, gone) && dv + dvsize in arena.chunks
      requires p in arena.head && arena.head[p].pinuse && p > 0 && psize > 0
      requires dv + dvsize in arena.head && arena.head[dv + dvsize].cinuse && !arena.head[dv + dvsize].pinuse
      requires p !in kept && arena.free - gone == kept - {dv}
      modifies this`dv, this`dvsize, arena
      ensures Valid() && State() == Joined(old(State()), gone, p, psize + old(dvsize)).(dv := p)
    {
      hide Tiled;
      PlaceMoveDv(kept, Where(), p, dvsize + psize);
      dvsize := dvsize + psize;
      dv := p;
      arena.SetFree(p, dvsize, gone);
    }

    /** The joined chunk at p is dv already, or goes to its bin. */
    method PlaceJoined(p: int, size: nat, ghost kept: map<int, nat>)
      requires arena.Valid() && smallbins.Valid() && treebins.Valid() && Placed(kept, Where())
      requires p > 0 && MIN_CHUNK_SIZE <= size < WORD && size % 8 == 0 && arena.free == (kept - {p})[p := size]
      requires (p in kept ==> p == dv) && (p == dv ==> dv in kept)
      modifies this`dvsize, smallbins, treebins
      ensures Valid()
    {
      if p == dv {
        PlaceMoveDv(kept, Where(), p, size);
        dvsize := size;
      } else {
        A.Absent(kept, p);
        PlaceAdd(kept, Where(), p, size);
        InsertChunk(p, size);
      }
    }

    /** dispose_chunk, and the consolidation of dlfree. */
    method DisposeChunk(q: int, qsize: nat)
      requires Valid() && q in arena.used && arena.used[q] == qsize
      modifies this, arena, smallbins, treebins
      ensures Valid() && arena.used == old(arena.used) - {q} && arena.segs == old(arena.segs)
      ensures State() == Disposed(old(State()), q)
    {
      hide Tiled;
      var next := q + qsize;
      ghost var t := arena.View();
      A.UsedFacts(t, q);
      var p, psize;
      ghost var gone, kept;
      p, psize, gone, kept := ConsolidateBackward(q, qsize);
      if p == dv && arena.head[next].cinuse && arena.head[next].pinuse {
        DisposedAlone(State(), kept, p, q, next, gone);
        FreeDv(p, psize, next, q, gone, kept);
      } else if !arena.head[next].cinuse {
        ConsolidateForward(p, psize, next, q, gone, kept);
      } else {
        DisposedAlone(State(), kept, p, q, next, gone);
        FreeBinned(p, psize, next, q, gone, kept);
      }
    }

    /** The freed run goes into a bin. */
    method FreeBinned(p: int, psize: nat, next: int, ghost q: int, ghost gone: set<int>, ghost kept: map<int, nat>)
      requires arena.Valid() && smallbins.Valid() && treebins.Valid()
      requires next == p + psize && Run(arena.View(), p, next, gone) && next in arena.chunks
      requires p in arena.head && arena.head[p].pinuse && next in arena.head && arena.head[next].cinuse && p > 0
      requires Freeing(arena.free, arena.used, kept, p, q, gone, dv) && Placed(kept, Where()) && p != dv
      modifies arena, smallbins, treebins
      ensures Valid() && State() == Joined(old(State()), gone, p, psize)
    {
      hide Tiled;
      ghost var t := arena.View();
      FreedAlone(t.free, t.used, kept, p, q, gone, dv);
      RunBounds(t, p, next, gone);
      AlignedDiff(next, p);
      PlaceAdd(kept, Where(), p, psize);
      arena.SetFreeWithPinuse(p, psize, next, gone);
      InsertChunk(p, psize);
    }

    /** The freed run grows dv, which lies before it. */
    method FreeDv(p: int, psize: nat, next: int, ghost q: int, ghost gone: set<int>, ghost kept: map<int, nat>)
      requires arena.Valid() && smallbins.Valid() && treebins.Valid()
      requires next == p + psize && Run(arena.View(), p, next, gone) && next in arena.chunks
      requires p in arena.head && arena.head[p].pinuse && next in arena.head && arena.head[next].cinuse && p > 0
      requires Freeing(arena.free, arena.used, kept, p, q, gone, dv) && Placed(kept, Where()) && p == dv
      modifies this`dvsize, arena
      ensures Valid() && State() == Joined(old(State()), gone, p, psize)
    {
      ghost var t := arena.View();
      FreedAlone(t.free, t.used, kept, p, q, gone, dv);
      RunBounds(t, p, next, gone);
      PlaceMoveDv(kept, Where(), p, psize);
      dvsize := psize;
      arena.SetFreeWithPinuse(p, psize, next, gone);
    }

    // ----- malloc -----

    /** Take a free chunk that is nowhere in the bins any more: all of it if the rest would be too small,
        else its front; rest is then the free remainder. */
    method Carve(v: int, nb: nat, rsize: nat) returns (rest: bool)
      requires arena.Valid() && v in arena.free && arena.free[v] == nb + rsize && nb >= MIN_CHUNK_SIZE && nb % 8 == 0
      modifies arena`head, arena`foot, arena`chunks, arena`free, arena`used
      ensures arena.Valid() && rest == (rsize >= MIN_CHUNK_SIZE) && v > 0 && v !in old(arena.used)
      ensures rest ==> v + nb > 0 && v + nb !in old(arena.free) && rsize % 8 == 0 && rsize < WORD
      ensures State() == Cut(old(State()), v, nb)
    {
      ghost var t := arena.View();
      A.FreeFacts(t, v);
      AlignedDiff(nb + rsize, nb);
      rest := rsize >= MIN_CHUNK_SIZE;
      if rest {
        A.InsideNothing(t, v, v + nb);
        arena.SplitFree(v, nb, rsize);
      } else {
        A.Absent(arena.used, v);
        arena.SetInuse(v, nb + rsize, {v});
      }
    }

    /** tmalloc_large. */
    method TmallocLarge(nb: nat) returns (v: int)
      requires Valid() && MIN_LARGE_SIZE <= nb < WORD && nb % 8 == 0
      modifies this, arena, smallbins, treebins
      ensures Valid() && dv == old(dv) && dvsize == old(dvsize)
      ensures v == 0 ==> unchanged(arena) && Where() == old(Where())
      ensures v == 0 ==> forall a :: a in old(treebins.Contents()) && old(treebins.Contents())[a] >= nb ==>
                           nb <= dvsize <= old(treebins.Contents())[a]
      ensures v != 0 ==> ServedFrom(old(State()), State(), v, nb) && old(Foremost(v))
      ensures v != 0 ==>
                && v in old(treebins.Contents())
                && (nb <= dvsize ==> old(treebins.Contents())[v] < dvsize)
                && forall a :: a in old(treebins.Contents()) && old(treebins.Contents())[a] >= nb ==>
                     old(treebins.Contents())[v] <= old(treebins.Contents())[a]
    {
      ghost var free := arena.free;
      var t, rsize := treebins.FindBestFit(nb);
      if t != 0 {
        assert PlacedAt(free, Where(), t);
        assert Foremost(t);
        A.FreeFacts(arena.View(), t);
        Remainder(arena.View(), Where(), nb);
      }
      v := 0;
      if t != 0 && rsize < Minus(dvsize, nb) {
        v := t;
        TakeLarge(v, nb, rsize);
      }
    }

    /** A large chunk serves a request; what is left of it goes into a bin. */
    method TakeLarge(v: int, nb: nat, rsize: nat)
      requires Valid() && nb >= MIN_CHUNK_SIZE && nb % 8 == 0
      requires v in arena.free && v != dv && arena.free[v] == nb + rsize >= MIN_LARGE_SIZE
      modifies arena, smallbins, treebins
      ensures Valid() && ServedFrom(old(State()), State(), v, nb)
    {
      hide Tiled;
      ghost var free := arena.free;
      UnlinkLarge(v, free);
      var rest := Carve(v, nb, rsize);
      if rest {
        PlaceAdd(free - {v}, Where(), v + nb, rsize);
        InsertChunk(v + nb, rsize);
      }
    }

    /** tmalloc_small, which is only reached when no small bin holds a chunk that fits. */
    method TmallocSmall(nb: nat) returns (v: int)
      requires Valid() && treebins.treemap != 0 && dvsize < nb && MIN_CHUNK_SIZE <= nb < MIN_LARGE_SIZE && nb % 8 == 0
      requires forall a :: a in smallbins.contents ==> smallbins.contents[a] < nb
      modifies this, arena, smallbins, treebins
      ensures Valid() && ServedFrom(old(State()), State(), v, nb) && old(Foremost(v))
      ensures Least(old(arena.free), old(dv), nb, v) && dv == RestAsDv(old(State()), v, nb)
      ensures v in old(treebins.Contents()) && forall a :: a in old(treebins.Contents()) ==>
                old(treebins.Contents())[v] <= old(treebins.Contents())[a]
    {
      ghost var free := arena.free;
      var rsize;
      v, rsize := treebins.FindSmallest(nb);
      assert PlacedAt(free, Where(), v);
      assert Foremost(v);
      LeastBinned(free, Where(), nb, v);
      UnlinkLarge(v, free);
      ServeKeepingRest(v, nb, rsize);
    }

    /** An unlinked chunk serves a small request; what is left of it becomes dv. */
    method ServeKeepingRest(v: int, nb: nat, rsize: nat)
      requires arena.Valid() && smallbins.Valid() && treebins.Valid() && Placed(arena.free - {v}, Where())
      requires v in arena.free && arena.free[v] == nb + rsize
      requires dvsize < nb && MIN_CHUNK_SIZE <= nb < MIN_LARGE_SIZE && nb % 8 == 0
      modifies this, arena, smallbins
      ensures Valid() && ServedFrom(old(State()), State(), v, nb) && dv == RestAsDv(old(State()), v, nb)
    {
      ghost var free := arena.free;
      DvFacts(arena.View(), free - {v}, Where());
      var rest := Carve(v, nb, rsize);
      if rest {
        ReplaceDv(v + nb, rsize, free - {v});
      }
    }

    /** The remainderless fit: the first chunk of the bin for nb, or of the bin above it. */
    method TakeExact(nb: nat, smallbits: nat) returns (p: int)
      requires Valid() && MIN_CHUNK_SIZE <= nb < MIN_LARGE_SIZE && nb % 8 == 0
      requires smallbits == Shr(smallbins.smallmap, S.SmallIndex(nb)) && And(smallbits, 3) != 0
      modifies arena, smallbins
      ensures Valid() && ServedFrom(old(State()), State(), p, nb) && old(Foremost(p))
      ensures Least(old(arena.free), dv, nb, p) && old(arena.free)[p] <= nb + 8 && old(arena.free)[p] < MIN_LARGE_SIZE
    {
      ghost var free := arena.free;
      var idx;
      idx, p := FindExact(nb, smallbits);
      A.FreeFacts(arena.View(), p);
      UnlinkSmall(p, 8 * idx, free);
      arena.SetInuse(p, 8 * idx, {p});
      A.Absent(old(arena.used), p);
    }

    /** The chunk of the remainderless fit. */
    method FindExact(nb: nat, smallbits: nat) returns (i: nat, p: int)
      requires Valid() && MIN_CHUNK_SIZE <= nb < MIN_LARGE_SIZE && nb % 8 == 0
      requires smallbits == Shr(smallbins.smallmap, S.SmallIndex(nb)) && And(smallbits, 3) != 0
      ensures Least(arena.free, dv, nb, p) && arena.free[p] == 8 * i <= nb + 8 && S.IsSmall(8 * i) && Foremost(p)
    {
      i := S.SmallIndex(nb);
      S.RemainderlessTest(smallbins.smallmap, i);
      S.Marks(smallbins.smallmap);
      i := i + And(Not(smallbits), 1);
      p := smallbins.First(i);
      assert PlacedAt(arena.free, Where(), p);
      NoneFrom(this, nb, i);
      LeastBinned(arena.free, Where(), nb, p);
    }

    /** The first chunk of the next non-empty small bin; it leaves room for a whole chunk. */
    method FindNextSmall(nb: nat, smallbits: nat) returns (i: nat, p: int)
      requires Valid() && MIN_CHUNK_SIZE <= nb < MIN_LARGE_SIZE && nb % 8 == 0
      requires smallbits == Shr(smallbins.smallmap, S.SmallIndex(nb)) && And(smallbits, 3) == 0 && smallbits != 0
      ensures Least(arena.free, dv, nb, p) && arena.free[p] == 8 * i >= nb + MIN_CHUNK_SIZE && S.IsSmall(8 * i)
      ensures Foremost(p)
    {
      var idx := S.SmallIndex(nb);
      S.RemainderlessTest(smallbins.smallmap, idx);
      S.NextSmall(smallbins.smallmap, idx);
      var leftbits := And(LeftBits(Pow2(idx)), Shl(smallbits, idx) % WORD);
      i := Bit2Idx(LeastBit(leftbits));
      p := smallbins.First(i);
      assert PlacedAt(arena.free, Where(), p);
      NoneFrom(this, nb, i);
      LeastBinned(arena.free, Where(), nb, p);
    }

    /** A chunk of the next non-empty small bin serves a request; the rest becomes dv. */
    method TakeSmall(nb: nat, smallbits: nat) returns (p: int)
      requires Valid() && dvsize < nb && MIN_CHUNK_SIZE <= nb < MIN_LARGE_SIZE && nb % 8 == 0
      requires smallbits == Shr(smallbins.smallmap, S.SmallIndex(nb)) && And(smallbits, 3) == 0 && smallbits != 0
      modifies this, arena, smallbins
      ensures Valid() && ServedFrom(old(State()), State(), p, nb) && old(Foremost(p))
      ensures Least(old(arena.free), old(dv), nb, p) && dv == p + nb == RestAsDv(old(State()), p, nb)
    {
      hide Tiled;
      ghost var free := arena.free;
      var i;
      i, p := FindNextSmall(nb, smallbits);
      A.FreeFacts(arena.View(), p);
      UnlinkSmall(p, 8 * i, free);
      var rsize := 8 * i - nb;
      DvFacts(arena.View(), free - {p}, Where());
      A.InsideNothing(arena.View(), p, p + nb);
      arena.SplitFree(p, nb, rsize);
      ReplaceDv(p + nb, rsize, free - {p});
    }

    /** dv serves a request, whole or split. */
    method TakeDv(nb: nat) returns (p: int)
      requires Valid() && nb <= dvsize && nb >= MIN_CHUNK_SIZE && nb % 8 == 0
      modifies this, arena
      ensures Valid() && p == old(dv) && ServedFrom(old(State()), State(), p, nb)
      ensures dv == if old(dvsize) >= nb + MIN_CHUNK_SIZE then p + nb else 0
    {
      hide Tiled;
      A.FreeFacts(arena.View(), dv);
      p := dv;
      if dvsize - nb >= MIN_CHUNK_SIZE {
        SplitDv(nb, dvsize - nb);
      } else {
        ExhaustDv();
      }
    }

    /** The front of dv serves, and the rest stays dv. */
    method SplitDv(nb: nat, rsize: nat)
      requires Valid() && dvsize == nb + rsize && nb >= MIN_CHUNK_SIZE && nb % 8 == 0 && rsize >= MIN_CHUNK_SIZE
      modifies this`dv, this`dvsize, arena
      ensures Valid() && State() == old(State()).(free := (old(arena.free) - {old(dv)})[dv := rsize],
                                                  used := old(arena.used)[old(dv) := nb], dv := old(dv) + nb)
    {
      ghost var t := arena.View();
      var p := dv;
      A.FreeFacts(t, p);
      A.InsideNothing(t, p, p + nb);
      PlaceMoveDv(t.free, Where(), p + nb, rsize);
      dv := p + nb;
      dvsize := rsize;
      arena.SplitFree(p, nb, rsize);
    }

    /** All of dv serves. */
    method ExhaustDv()
      requires Valid() && dvsize != 0
      modifies this`dv, this`dvsize, arena
      ensures Valid() && State() == old(State()).(free := old(arena.free) - {old(dv)}, dv := 0,
                                                  used := old(arena.used)[old(dv) := old(dvsize)])
    {
      var p, dvs := dv, dvsize;
      A.FreeFacts(arena.View(), p);
      PlaceDropDv(arena.free, Where());
      dvsize := 0;
      dv := 0;
      arena.SetInuse(p, dvs, {p});
      A.Absent(old(arena.used), p);
    }

    // ----- memory from the system -----

    /** prepend_alloc on segment i, whose region now starts at tbase. */
    method PrependAlloc(i: nat, tbase: nat, nb: nat) returns (p: int)
      requires Valid() && nb >= MIN_CHUNK_SIZE && nb % 8 == 0
      requires Prependable(arena.View(), i, tbase) && tbase < arena.segs[i].base
      requires AlignUp(tbase) + nb + MIN_CHUNK_SIZE <= AlignUp(arena.segs[i].base)
      modifies this, arena, smallbins, treebins
      ensures Valid() && p == AlignUp(tbase) && p > 0 && p !in old(arena.used) && p !in old(arena.free)
      ensures State() == Prepended(old(State()), i, tbase, nb)
      ensures var first := AlignUp(old(arena.segs)[i].base);
              && dv == (if old(dv) == first then p + nb else old(dv))
              && arena.top == (if old(arena.top) == first then p + nb else old(arena.top))
    {
      ghost var t := arena.View();
      p := AlignUp(tbase);
      var oldfirst := AlignUp(arena.segs[i].base);
      var q := p + nb;
      var qsize := oldfirst - q;
      FirstFacts(t, i, tbase, nb);
      if dv != 0 { A.FreeFacts(t, dv); }
      if oldfirst == arena.top {
        arena.PrependToTop(i, tbase, nb);
      } else if oldfirst == dv {
        PrependToDv(i, tbase, nb, q, qsize);
      } else {
        PrependToBin(i, tbase, nb, oldfirst, q, qsize);
      }
    }

    /** prepend_alloc where the segment's first chunk is dv, which grows to the front. */
    method PrependToDv(i: nat, tbase: nat, nb: nat, q: int, qsize: nat)
      requires Valid() && nb >= MIN_CHUNK_SIZE && nb % 8 == 0 && dv != 0
      requires Prependable(arena.View(), i, tbase) && tbase < arena.segs[i].base
      requires dv == AlignUp(arena.segs[i].base) == q + qsize && q == AlignUp(tbase) + nb && qsize >= MIN_CHUNK_SIZE
      requires q !in arena.free && dv in arena.free
      modifies this`dv, this`dvsize, arena
      ensures Valid() && AlignUp(tbase) > 0 && AlignUp(tbase) !in old(arena.used)
      ensures State() == Prepended(old(State()), i, tbase, nb)
    {
      hide Tiled;
      ghost var t := arena.View();
      A.FreeFacts(t, dv);
      PrependedOver(State(), i, tbase, nb);
      PlaceMoveDv(t.free, Where(), q, qsize + dvsize);
      arena.PrependFree(i, tbase, nb, dv + dvsize, qsize + dvsize, {dv});
      dvsize := dvsize + qsize;
      dv := q;
    }

    /** The last case of prepend_alloc: the remainder, with the chunk behind it if that is free, goes into a bin. */
    method PrependToBin(i: nat, tbase: nat, nb: nat, oldfirst: int, q: int, qsize: nat)
      requires Valid() && nb >= MIN_CHUNK_SIZE && nb % 8 == 0
      requires Prependable(arena.View(), i, tbase) && tbase < arena.segs[i].base
      requires oldfirst == AlignUp(arena.segs[i].base) && q == AlignUp(tbase) + nb
      requires oldfirst == q + qsize && qsize >= MIN_CHUNK_SIZE && oldfirst != dv && oldfirst != arena.top
      requires q !in arena.free && q % 8 == 0
      requires oldfirst in arena.head
               && (if arena.head[oldfirst].cinuse then oldfirst in arena.chunks && oldfirst !in arena.free
                   else oldfirst in arena.free)
      modifies arena, smallbins, treebins
      ensures Valid() && State() == Prepended(old(State()), i, tbase, nb)
      ensures AlignUp(tbase) > 0 && AlignUp(tbase) !in old(arena.used)
    {
      hide Tiled;
      ghost var t, free := arena.View(), arena.free;
      if !arena.head[oldfirst].cinuse {
        A.FreeFacts(t, oldfirst);
        var nsize := arena.head[oldfirst].size;
        PrependedBinned(State(), i, tbase, nb, {oldfirst}, qsize + nsize);
        UnlinkChunk(oldfirst, nsize, free);
        PrependBinned(i, tbase, nb, oldfirst + nsize, q, qsize + nsize, {oldfirst});
      } else {
        PrependedBinned(State(), i, tbase, nb, {}, qsize);
        assert free - {} == free;
        PrependBinned(i, tbase, nb, oldfirst, q, qsize, {});
      }
    }

    /** The front of the region is in use, and the rest of it, up to n, is one free chunk in its bin. */
    method PrependBinned(i: nat, tbase: nat, nb: nat, n: int, q: int, size: nat, ghost gone: set<int>)
      requires arena.Valid() && smallbins.Valid() && treebins.Valid() && Placed(arena.free - gone, Where())
      requires Prependable(arena.View(), i, tbase) && tbase < arena.segs[i].base && gone !! arena.used.Keys
      requires if gone == {} then n == AlignUp(arena.segs[i].base)
               else Run(arena.View(), AlignUp(arena.segs[i].base), n, gone)
      requires nb >= MIN_CHUNK_SIZE && nb % 8 == 0 && q == AlignUp(tbase) + nb && n == q + size
      requires size >= MIN_CHUNK_SIZE
      requires n in arena.chunks && n in arena.head && arena.head[n].cinuse && q !in arena.free && q % 8 == 0 && q > 0
      modifies arena, smallbins, treebins
      ensures Valid() && AlignUp(tbase) > 0 && AlignUp(tbase) !in old(arena.used)
      ensures State() == old(State()).(segs := old(arena.segs)[i := Segment(tbase, End(old(arena.segs)[i]) - tbase)],
                                       used := old(arena.used)[AlignUp(tbase) := nb],
                                       free := (old(arena.free) - gone)[q := size])
    {
      hide Tiled;
      BinnedSize(arena.View(), n, q);
      PlaceAdd(arena.free - gone, Where(), q, size);
      arena.PrependFree(i, tbase, nb, n, size, gone);
      InsertChunk(q, size);
    }

    /** add_segment. */
    method AddSegment(tbase: nat, tsize: nat)
      requires Valid() && arena.top != 0 && Fresh(arena.segs, tbase, tsize)
      modifies arena, smallbins, treebins
      ensures Valid() && State() == SegmentAdded(old(State()), tbase, tsize) && arena.used == old(arena.used)
      ensures arena.top == AlignUp(tbase) && arena.top + arena.topsize + TOP_FOOT_SIZE == tbase + tsize
    {
      ghost var free, t := arena.free, arena.View();
      A.TopFacts(t);
      RunBounds(t, t.top, Next(t, t.top), {t.top});
      OldTop(t, arena.topsize);
      var q, psize := arena.AddSegment(tbase, tsize);
      if q != 0 {
        PlaceAdd(free, Where(), q, psize);
        InsertChunk(q, psize);
      }
    }

    /** The search of sys_alloc for a segment that ends, or else starts, at an address. */
    method FindSegment(addr: nat, atEnd: bool) returns (i: nat)
      ensures i <= |arena.segs|
      ensures i < |arena.segs| ==> addr == if atEnd then End(arena.segs[i]) else arena.segs[i].base
      ensures forall j :: 0 <= j < i ==> addr != if atEnd then End(arena.segs[j]) else arena.segs[j].base
    {
      i := 0;
      while i < |arena.segs| && addr != (if atEnd then End(arena.segs[i]) else arena.segs[i].base)
        invariant i <= |arena.segs|
        invariant forall j :: 0 <= j < i ==> addr != if atEnd then End(arena.segs[j]) else arena.segs[j].base
      {
        i := i + 1;
      }
    }

    /** sys_alloc, given what the system answers to the request for more memory. */
    method SysAlloc(nb: nat, more: System) returns (p: int)
      requires Valid() && MIN_CHUNK_SIZE <= nb < WORD && (nb % 8 == 0 || nb == MAX_SIZE_T)
      requires more.Granted? ==> Usable(arena.segs, more.base, more.size, nb)
      modifies this, arena, smallbins, treebins
      ensures Valid()
      ensures FromSystem(granularity, old(State()), State(), more, p, nb)
      ensures p == 0 ==> arena.used == old(arena.used)
      ensures p != 0 ==> Served(old(arena.used), arena.used, p, nb) && p !in old(arena.free) && arena.used[p] == nb
      ensures Granting(granularity, old(arena.segs), old(arena.topsize), more, nb) ==> p != 0
    {
      hide Tiled;
      p := 0;
      var asize := GranularityAlign(granularity, nb + SYS_ALLOC_PADDING);
      if asize <= nb || more.Refused? {
        return;
      }
      AlignedRequest(granularity, nb);
      hide Enlarged, FromFront, Ample;
      p := Extend(more.base, more.size, nb);
      if p == 0 && nb < arena.topsize {
        ghost var e := State();
        p := arena.SplitTop(nb);
        A.UsedFacts(arena.View(), p);
        assert FromTop(e, State(), p, nb);
      }
    }

    /** What sys_alloc does with the region it got: it extends top, is put in front of a segment, which serves the
        request at once, or becomes a segment of its own. */
    method Extend(tbase: nat, tsize: nat, nb: nat) returns (p: int)
      requires Valid() && MIN_CHUNK_SIZE <= nb < WORD && nb % 8 == 0 && Usable(arena.segs, tbase, tsize, nb)
      modifies this, arena, smallbins, treebins
      ensures Valid()
      ensures if Fronted(old(arena.segs), tbase, tsize) then FromFront(old(State()), State(), tbase, tsize, p, nb)
              else p == 0 && State() == Enlarged(old(State()), tbase, tsize)
      ensures p == 0 ==> arena.used == old(arena.used)
      ensures p != 0 ==> Served(old(arena.used), arena.used, p, nb) && p !in old(arena.free) && arena.used[p] == nb
      ensures p == 0 && Ample(old(arena.segs), old(arena.topsize), tbase, tsize, nb) ==> nb < arena.topsize
    {
      hide Enlarged, SegmentAdded, Prepended, Tiled, Movable, Prependable;
      p := 0;
      UsableFacts(arena.View(), tbase, tsize, nb);
      if arena.top == 0 {
        EnlargedFirst(State(), tbase, tsize);
        arena.AddFirst(tbase, tsize);
      } else {
        var i := FindSegment(tbase, true);
        if i < |arena.segs| && arena.segs[i].base <= arena.top < End(arena.segs[i]) {
          HoldsTop(arena.View(), i);
          EnlargedTop(State(), tbase, tsize);
          arena.Append(tsize);
        } else {
          p := ExtendAside(tbase, tsize, nb);
        }
      }
    }

    /** A region that does not continue top is put in front of a segment, or becomes a segment of its own. */
    method ExtendAside(tbase: nat, tsize: nat, nb: nat) returns (p: int)
      requires Valid() && MIN_CHUNK_SIZE <= nb < WORD && nb % 8 == 0 && Usable(arena.segs, tbase, tsize, nb)
      requires arena.top != 0 && arena.segs != [] && tbase != End(arena.segs[0])
      modifies this, arena, smallbins, treebins
      ensures Valid()
      ensures if Fronted(old(arena.segs), tbase, tsize) then FromFront(old(State()), State(), tbase, tsize, p, nb)
              else p == 0 && State() == Enlarged(old(State()), tbase, tsize)
      ensures p == 0 ==> arena.used == old(arena.used)
                         && arena.topsize == tbase + tsize - TOP_FOOT_SIZE - AlignUp(tbase)
      ensures p != 0 ==> Served(old(arena.used), arena.used, p, nb) && p !in old(arena.free) && arena.used[p] == nb
    {
      hide Enlarged, SegmentAdded, Prepended, Tiled, Movable, Prependable;
      p := 0;
      UsableFacts(arena.View(), tbase, tsize, nb);
      var j := FindSegment(tbase + tsize, false);
      if j < |arena.segs| {
        FrontUnique(arena.View(), j);
        p := PrependAlloc(j, tbase, nb);
      } else {
        EnlargedByOne(State(), tbase, tsize);
        AddSegment(tbase, tsize);
      }
    }

    // ----- the entry points -----

    /** The first half of dlmalloc: the bins, and the padded size. */
    method MallocFromBins(bytes: nat) returns (nb: nat, p: int)
      requires Valid() && bytes < WORD
      modifies this, arena, smallbins, treebins
      ensures Valid() && nb == Request(bytes)
      ensures MIN_CHUNK_SIZE <= nb < WORD && (nb % 8 == 0 || nb == MAX_SIZE_T)
      ensures p != 0 ==> FromFree(old(State()), State(), p, nb) && Least(old(arena.free), old(dv), nb, p)
      ensures p != 0 ==> old(Foremost(p))
      ensures p == 0 ==> State() == old(State()) && dvsize == old(dvsize)
      ensures p == 0 && dvsize < nb ==> NoneFits(arena.free, nb)
      ensures (p == 0 && nb <= old(dvsize)) <==> DvServes(old(arena.free), old(dv), nb)
    {
      RequestFacts(bytes);
      p := 0;
      if bytes <= MAX_SMALL_REQUEST {
        nb := if bytes < MIN_REQUEST then MIN_CHUNK_SIZE else PadRequest(bytes);
        p := SmallFromBins(nb);
      } else if bytes >= MAX_REQUEST {
        nb := MAX_SIZE_T;
        NothingHuge(arena.View(), Where());
      } else {
        nb := PadRequest(bytes);
        p := LargeFromBins(nb);
      }
    }

    /** The case of a small request: a remainderless fit, else dv is kept for it, else the next small bin, else
        the tree bins. */
    method SmallFromBins(nb: nat) returns (p: int)
      requires Valid() && MIN_CHUNK_SIZE <= nb < MIN_LARGE_SIZE && nb % 8 == 0
      modifies this, arena, smallbins, treebins
      ensures Valid()
      ensures p != 0 ==> FromFree(old(State()), State(), p, nb) && Least(old(arena.free), old(dv), nb, p)
      ensures p != 0 ==> old(Foremost(p))
      ensures p == 0 ==> State() == old(State()) && dvsize == old(dvsize)
      ensures p == 0 && dvsize < nb ==> NoneFits(arena.free, nb)
      ensures (p == 0 && nb <= old(dvsize)) <==> DvServes(old(arena.free), old(dv), nb)
    {
      p := 0;
      var idx := S.SmallIndex(nb);
      var smallbits := Shr(smallbins.smallmap, idx);
      if And(smallbits, 3) != 0 {
        p := TakeExact(nb, smallbits);
      } else if nb > dvsize {
        if smallbits != 0 {
          p := TakeSmall(nb, smallbits);
        } else {
          NoSmall(this, nb);
          if treebins.treemap != 0 {
            p := TmallocSmall(nb);
          } else {
            NothingSmall(this, nb);
          }
        }
      } else {
        KeepsDv(this, nb, smallbits);
      }
    }

    /** The case of a large request. */
    method LargeFromBins(nb: nat) returns (p: int)
      requires Valid() && MIN_LARGE_SIZE <= nb < WORD && nb % 8 == 0
      modifies this, arena, smallbins, treebins
      ensures Valid()
      ensures p != 0 ==> FromFree(old(State()), State(), p, nb) && Least(old(arena.free), old(dv), nb, p)
      ensures p != 0 ==> old(Foremost(p))
      ensures p == 0 ==> State() == old(State()) && dvsize == old(dvsize)
      ensures p == 0 && dvsize < nb ==> NoneFits(arena.free, nb)
      ensures (p == 0 && nb <= old(dvsize)) <==> DvServes(old(arena.free), old(dv), nb)
    {
      ghost var free, w := arena.free, Where();
      p := 0;
      if treebins.treemap != 0 {
        p := TmallocLarge(nb);
      }
      if p == 0 { NothingLarge(this, nb); } else { BestLarge(free, w, nb, p); }
    }

    /** The second half of dlmalloc: dv, top, the system. */
    method MallocOutsideBins(nb: nat, more: System) returns (p: int)
      requires Valid() && MIN_CHUNK_SIZE <= nb < WORD && (nb % 8 == 0 || nb == MAX_SIZE_T)
      requires more.Granted? ==> Usable(arena.segs, more.base, more.size, nb)
      requires nb <= dvsize || NoneFits(arena.free, nb)
      modifies this, arena, smallbins, treebins
      ensures Valid()
      ensures nb <= old(dvsize) ==> p == old(dv) != 0
      ensures old(dvsize) < nb ==> p !in old(arena.free)
      ensures Allocated(granularity, old(State()), State(), more, p, nb)
      ensures p == 0 ==> arena.used == old(arena.used) && old(arena.topsize) <= nb
      ensures p != 0 ==> Served(old(arena.used), arena.used, p, nb) && LeftOver(old(State()), State(), p, nb)
      ensures Granting(granularity, old(arena.segs), old(arena.topsize), more, nb) ==> p != 0
    {
      hide Tiled;
      Remainder(arena.View(), Where(), 0);
      if nb <= dvsize {
        DvFacts(arena.View(), arena.free, Where());
        p := TakeDv(nb);
        FromFreeFacts(granularity, old(State()), State(), more, p, nb);
      } else if nb < arena.topsize {
        A.TopFacts(arena.View());
        p := arena.SplitTop(nb);
      } else {
        p := SysAlloc(nb, more);
      }
    }

    /** dlmalloc, given what the system answers if it has to be asked. */
    method Malloc(bytes: nat, more: System) returns (mem: int)
      requires Valid() && bytes < WORD
      requires more.Granted? ==> Usable(arena.segs, more.base, more.size, Request(bytes))
      modifies this, arena, smallbins, treebins
      ensures Valid()
      ensures mem != 0 ==> mem % 8 == 0 && Served(old(arena.used), arena.used, mem - 8, Request(bytes))
      // a binned chunk is a smallest one that fits; dv serves exactly when no binned chunk is to be preferred;
      // top and the system serve only when no free chunk is large enough
      ensures mem != 0 && mem - 8 in old(arena.free) && mem - 8 != old(dv) ==>
                forall a :: a in old(arena.free) && a != old(dv) && old(arena.free)[a] >= Request(bytes) ==>
                  old(arena.free)[mem - 8] <= old(arena.free)[a]
      ensures (mem != 0 && mem - 8 == old(dv)) <==> DvServes(old(arena.free), old(dv), Request(bytes))
      ensures mem == 0 || mem - 8 !in old(arena.free) ==>
                forall a :: a in old(arena.free) ==> old(arena.free)[a] < Request(bytes)
      ensures mem != 0 && mem - 8 in old(arena.free) && mem - 8 != old(dv) ==> old(Foremost(mem - 8))
      // what is left of the chunk that served is cut off if it makes a whole chunk, and dv for a small request
      ensures mem != 0 ==> var p, nb := mem - 8, Request(bytes);
                arena.used[p] == if p in old(arena.free) && old(arena.free)[p] < nb + MIN_CHUNK_SIZE
                                 then old(arena.free)[p] else nb
      ensures mem != 0 && mem - 8 in old(arena.free) ==> var p, nb := mem - 8, Request(bytes);
                dv == if (p == old(dv) || nb < MIN_LARGE_SIZE) && old(arena.free)[p] >= nb + MIN_CHUNK_SIZE then p + nb
                      else if p == old(dv) then 0 else old(dv)
      ensures Allocated(granularity, old(State()), State(), more, MemToChunk(mem), Request(bytes))
      ensures mem == 0 ==> arena.used == old(arena.used) && old(arena.topsize) <= Request(bytes)
      ensures Granting(granularity, old(arena.segs), old(arena.topsize), more, Request(bytes)) ==> mem != 0
    {
      hide Allocated, DvServes, Granting, Foremost, Tiled, Request, Usable, Least, NoneFits, LeftOver, Placed;
      var p := Allocate(bytes, more);
      mem := 0;
      if p != 0 {
        mem := p + 8;
        assert mem - 8 == p && mem % 8 == 0 by { A.UsedAligned(arena.View(), p); }
      }
      SpelledOut(old(State()), State(), p, mem, Request(bytes));
    }

    /** The same for the chunk. */
    method Allocate(bytes: nat, more: System) returns (p: int)
      requires Valid() && bytes < WORD
      requires more.Granted? ==> Usable(arena.segs, more.base, more.size, Request(bytes))
      modifies this, arena, smallbins, treebins
      ensures Valid()
      ensures p != 0 ==> Served(old(arena.used), arena.used, p, Request(bytes))
      ensures p != 0 && p in old(arena.free) && p != old(dv) ==>
                Least(old(arena.free), old(dv), Request(bytes), p) && old(Foremost(p))
      ensures (p != 0 && p == old(dv)) <==> DvServes(old(arena.free), old(dv), Request(bytes))
      ensures p == 0 || p !in old(arena.free) ==> NoneFits(old(arena.free), Request(bytes))
      ensures Allocated(granularity, old(State()), State(), more, p, Request(bytes))
      ensures p != 0 ==> LeftOver(old(State()), State(), p, Request(bytes))
      ensures p == 0 ==> arena.used == old(arena.used) && old(arena.topsize) <= Request(bytes)
      ensures Granting(granularity, old(arena.segs), old(arena.topsize), more, Request(bytes)) ==> p != 0
    {
      hide Allocated, FromFree, DvServes, Granting, Foremost, Tiled;
      assert Where().dv == dv && Where().dvsize == dvsize;
      var nb;
      nb, p := MallocFromBins(bytes);
      if p == 0 {
        p := MallocOutsideBins(nb, more);
      } else {
        FromFreeFacts(granularity, old(State()), State(), more, p, nb);
      }
    }

    /** dlfree; shrinks says whether the system takes memory back when it is asked to. */
    method Free(mem: int, shrinks: bool)
      requires Valid() && (mem != 0 ==> mem - 8 in arena.used)
      modifies this, arena, smallbins, treebins
      ensures Valid() && arena.used == old(arena.used) - {mem - 8}
      ensures State() == if mem == 0 then old(State()) else Released(old(State()), mem - 8, granularity, shrinks)
      // dv, if there is one, only grows, or joins top
      ensures mem != 0 && arena.top == old(arena.top) ==>
                (dv == 0 <==> old(dv) == 0) && dv <= old(dv) && old(dv) + old(dvsize) <= dv + dvsize
      ensures mem != 0 && arena.top != old(arena.top) ==>
                dv == if old(dv) != 0 && old(dv) + old(dvsize) == mem - 8 then 0 else old(dv)
    {
      hide Tiled;
      if mem != 0 {
        var p := mem - 8;
        A.UsedFacts(arena.View(), p);
        var oldTop := arena.top;
        DvBefore(arena.View(), Where(), p);
        DisposeChunk(p, arena.head[p].size);
        if arena.top != oldTop && arena.topsize > arena.trimCheck {
          var released := SysTrim(0, shrinks);
        }
      } else {
        NotUsed(arena.View(), mem - 8);
        A.Absent(arena.used, mem - 8);
      }
    }

    /** sys_trim. */
    method SysTrim(pad: nat, shrinks: bool) returns (released: nat)
      requires Valid()
      modifies arena
      ensures Valid() && State() == Trimmed(old(State()), pad, granularity, shrinks)
      ensures arena.topsize == old(arena.topsize) - released
      ensures var room := old(arena.topsize) - pad - TOP_FOOT_SIZE;
              released ==
              if pad < MAX_REQUEST && arena.top != 0 && room > 0 && shrinks then TrimExtra(room, granularity) else 0
      ensures released > 0 ==> arena.topsize > pad + TOP_FOOT_SIZE
      ensures arena.trimCheck == if released > 0 then A.DEFAULT_TRIM_THRESHOLD
                                 else if pad < MAX_REQUEST && arena.top != 0 && arena.topsize > old(arena.trimCheck)
                                 then MAX_SIZE_T
                                 else old(arena.trimCheck)
    {
      hide Tiled;
      released := 0;
      if pad < MAX_REQUEST && arena.top != 0 {
        var room := pad + TOP_FOOT_SIZE;
        if arena.topsize > room {
          var extra := TrimExtra(arena.topsize - room, granularity);
          if shrinks {
            released := extra;
          }
          if released != 0 {
            arena.GiveBack(released);
          }
        }
        if released == 0 && arena.topsize > arena.trimCheck {
          arena.trimCheck := MAX_SIZE_T;
          assert arena.View() == old(arena.View());
        }
      }
    }

    /** try_realloc_chunk: in place, or not at all. */
    method TryReallocChunk(p: int, nb: nat) returns (newp: int)
      requires Valid() && p in arena.used && nb >= MIN_CHUNK_SIZE && nb % 8 == 0
      modifies this, arena, smallbins, treebins
      ensures Valid()
      ensures newp == (if Room(old(arena.View()), p, nb) then p else 0)
      ensures newp == 0 ==> unchanged(this) && unchanged(arena) && unchanged(smallbins) && unchanged(treebins)
      ensures newp != 0 ==> Resized(old(arena.used), arena.used, p, nb) && State() == ResizedHeap(old(State()), p, nb)
    {
      hide Tiled;
      ghost var t := arena.View();
      A.UsedFacts(t, p);
      var oldsize := arena.head[p].size;
      var next := p + oldsize;
      newp := 0;
      if oldsize >= nb {
        ShrinkChunk(p, nb, oldsize - nb);
        newp := p;
      } else if next == arena.top {
        A.TopFacts(t);
        if oldsize + arena.topsize > nb {
          RunJoin(t, p, next, next + arena.topsize, {p}, {next});
          InUseRun(t, p, next);
          A.Absent(arena.free - {p}, next);
          arena.GrowIntoTop(p, nb, oldsize + arena.topsize - nb, {p} + {next});
          newp := p;
        }
      } else if next == dv {
        if oldsize + dvsize >= nb {
          GrowIntoDv(p, nb, oldsize);
          newp := p;
        }
      } else if !arena.head[next].cinuse {
        A.FreeFacts(t, next);
        var nextsize := arena.head[next].size;
        if oldsize + nextsize >= nb {
          GrowIntoNext(p, nb, oldsize, nextsize);
          newp := p;
        }
      }
    }

    /** A chunk in use that is already large enough gives a whole chunk at its end back. */
    method ShrinkChunk(p: int, nb: nat, rsize: nat)
      requires Valid() && p in arena.used && arena.used[p] == nb + rsize && nb >= MIN_CHUNK_SIZE && nb % 8 == 0
      modifies this, arena, smallbins, treebins
      ensures Valid() && Resized(old(arena.used), arena.used, p, nb)
      ensures State() == ResizedHeap(old(State()), p, nb)
    {
      hide Disposed, Tiled;
      if rsize >= MIN_CHUNK_SIZE {
        ghost var t := arena.View();
        A.UsedFacts(t, p);
        A.Absent(arena.free, p);
        A.InsideNothing(t, p, p + nb);
        SplitAndDispose(p, nb, rsize, {p});
      }
    }

    /** A chunk that became part of top is dv no longer. */
    method LeaveDv(p: int, ghost kept: map<int, nat>)
      requires arena.Valid() && smallbins.Valid() && treebins.Valid() && Placed(kept, Where())
      requires p > 0 && arena.free == if p == dv then kept - {p} else kept
      modifies this`dv, this`dvsize
      ensures Valid() && dv == if p == old(dv) then 0 else old(dv)
    {
      if p == dv {
        PlaceDropDv(kept, Where());
        dv := 0;
        dvsize := 0;
      }
    }

    /** The case of dv behind a chunk to be enlarged. */
    method GrowIntoDv(p: int, nb: nat, oldsize: nat)
      requires Valid() && p in arena.used && arena.used[p] == oldsize < nb && nb % 8 == 0
      requires dv != 0 && p + oldsize == dv && oldsize + dvsize >= nb
      modifies this, arena
      ensures Valid() && Resized(old(arena.used), arena.used, p, nb)
      ensures State() == ResizedHeap(old(State()), p, nb)
    {
      A.UsedFacts(arena.View(), p);
      A.FreeFacts(arena.View(), dv);
      GrownBehind(State(), p, nb);
      var dsize := oldsize + dvsize - nb;
      if dsize >= MIN_CHUNK_SIZE {
        GrowSplitDv(p, nb, oldsize, dsize);
      } else {
        GrowWholeDv(p, oldsize);
      }
    }

    /** The chunk takes the front of dv, and the rest stays dv. */
    method GrowSplitDv(p: int, nb: nat, oldsize: nat, dsize: nat)
      requires Valid() && p in arena.used && arena.used[p] == oldsize < nb && nb % 8 == 0
      requires dv != 0 && p + oldsize == dv && oldsize + dvsize == nb + dsize && dsize >= MIN_CHUNK_SIZE
      modifies this`dv, this`dvsize, arena
      ensures Valid() && State() == old(State()).(free := (old(arena.free) - {old(dv)})[p + nb := dsize],
                                                  used := old(arena.used)[p := nb], dv := p + nb)
    {
      hide Tiled;
      ghost var t := arena.View();
      A.UsedFacts(t, p);
      A.FreeFacts(t, dv);
      RunJoin(t, p, dv, dv + dvsize, {p}, {dv});
      InUseRun(t, p, dv);
      GrownUsed(t.used, p, dv, nb);
      A.InsideNothing(t, dv, p + nb);
      PlaceMoveDv(t.free, Where(), p + nb, dsize);
      arena.GrowInto(p, nb, dsize, {p} + {dv});
      dvsize := dsize;
      dv := p + nb;
    }

    /** The chunk takes all of dv. */
    method GrowWholeDv(p: int, oldsize: nat)
      requires Valid() && p in arena.used && arena.used[p] == oldsize && dv != 0 && p + oldsize == dv
      modifies this`dv, this`dvsize, arena
      ensures Valid() && State() == old(State()).(free := old(arena.free) - {old(dv)}, dv := 0,
                                                  used := old(arena.used)[p := oldsize + old(dvsize)])
    {
      hide Tiled;
      ghost var t := arena.View();
      A.UsedFacts(t, p);
      A.FreeFacts(t, dv);
      RunJoin(t, p, dv, dv + dvsize, {p}, {dv});
      InUseRun(t, p, dv);
      GrownUsed(t.used, p, dv, oldsize + dvsize);
      PlaceDropDv(t.free, Where());
      arena.SetInuse(p, oldsize + dvsize, {p} + {dv});
      dvsize := 0;
      dv := 0;
    }

    /** The case of a binned chunk behind a chunk to be enlarged. */
    method GrowIntoNext(p: int, nb: nat, oldsize: nat, nextsize: nat)
      requires Valid() && p in arena.used && arena.used[p] == oldsize < nb && nb % 8 == 0
      requires p + oldsize in arena.free && p + oldsize != dv
      requires arena.free[p + oldsize] == nextsize && oldsize + nextsize >= nb
      modifies this, arena, smallbins, treebins
      ensures Valid() && Resized(old(arena.used), arena.used, p, nb)
      ensures State() == ResizedHeap(old(State()), p, nb)
    {
      hide Tiled;
      A.FreeFacts(arena.View(), p + oldsize);
      GrownBehind(State(), p, nb);
      var rsize := oldsize + nextsize - nb;
      if rsize < MIN_CHUNK_SIZE {
        GrowWholeNext(p, oldsize, nextsize);
      } else {
        GrowSplitNext(p, nb, oldsize, nextsize, rsize);
      }
    }

    /** The chunk takes all of the free chunk behind it. */
    method GrowWholeNext(p: int, oldsize: nat, nextsize: nat)
      requires Valid() && p in arena.used && arena.used[p] == oldsize
      requires p + oldsize in arena.free && p + oldsize != dv && arena.free[p + oldsize] == nextsize
      modifies arena, smallbins, treebins
      ensures Valid() && State() == old(State()).(free := old(arena.free) - {p + oldsize},
                                                  used := old(arena.used)[p := oldsize + nextsize])
    {
      hide Tiled;
      ghost var t := arena.View();
      var next := p + oldsize;
      A.UsedFacts(t, p);
      A.FreeFacts(t, next);
      RunJoin(t, p, next, next + nextsize, {p}, {next});
      InUseRun(t, p, next);
      GrownUsed(t.used, p, next, oldsize + nextsize);
      UnlinkChunk(next, nextsize, t.free);
      arena.SetInuse(p, oldsize + nextsize, {p} + {next});
    }

    /** The chunk takes the front of the free chunk behind it, and the rest is a free chunk. */
    method GrowSplitNext(p: int, nb: nat, oldsize: nat, nextsize: nat, rsize: nat)
      requires Valid() && p in arena.used && arena.used[p] == oldsize < nb && nb % 8 == 0
      requires p + oldsize in arena.free && p + oldsize != dv && arena.free[p + oldsize] == nextsize
      requires oldsize + nextsize == nb + rsize && rsize >= MIN_CHUNK_SIZE
      modifies this, arena, smallbins, treebins
      ensures Valid() && State() == old(State()).(free := (old(arena.free) - {p + oldsize})[p + nb := rsize],
                                                  used := old(arena.used)[p := nb])
    {
      hide Tiled;
      ghost var t := arena.View();
      var next := p + oldsize;
      A.UsedFacts(t, p);
      A.FreeFacts(t, next);
      RunJoin(t, p, next, next + nextsize, {p}, {next});
      InUseRun(t, p, next);
      GrownUsed(t.used, p, next, nb);
      A.InsideNothing(t, next, p + nb);
      UnlinkChunk(next, nextsize, t.free);
      SplitAndDispose(p, nb, rsize, {p} + {next});
      TailDisposed(old(State()), {p} + {next}, p, nb, rsize);
    }

    /** The run from p becomes a chunk of nb bytes, and the rest of it is disposed of. */
    method SplitAndDispose(p: int, nb: nat, rsize: nat, ghost gone: set<int>)
      requires arena.Valid() && smallbins.Valid() && treebins.Valid() && Placed(arena.free - gone, Where())
      requires Run(arena.View(), p, p + nb + rsize, gone) && p + nb + rsize in arena.chunks
      requires nb >= MIN_CHUNK_SIZE && rsize >= MIN_CHUNK_SIZE && nb % 8 == 0 && p + nb !in arena.used
      modifies this, arena, smallbins, treebins
      ensures Valid() && arena.used == (old(arena.used) - gone)[p := nb]
      ensures FreeBefore(old(arena.free) - gone, p + nb) == p + nb
      ensures State() == Disposed(CutInUse(old(State()), gone, p, nb, rsize), p + nb)
    {
      hide Disposed, Tiled;
      arena.SplitInuse(p, nb, rsize, gone);
      A.UsedFacts(arena.View(), p);
      FreeBeforeUsed(arena.View(), p + nb);
      CutInUseUsed(old(arena.used) - gone, p, nb, rsize);
      DisposeChunk(p + nb, rsize);
    }

    /** dlrealloc, without the copy of the payload. */
    method Realloc(oldmem: int, bytes: nat, more: System, shrinks: bool) returns (mem: int)
      requires Valid() && bytes < WORD && (oldmem != 0 ==> oldmem - 8 in arena.used)
      requires more.Granted? ==> Usable(arena.segs, more.base, more.size, Request(bytes))
      modifies this, arena, smallbins, treebins
      ensures Valid()
      ensures mem == 0 ==> arena.used == old(arena.used)
      ensures mem != 0 && mem == oldmem ==> Resized(old(arena.used), arena.used, mem - 8, Request(bytes))
      ensures mem != 0 && mem != oldmem ==>
              mem % 8 == 0 && Moved(old(arena.used), arena.used, oldmem - 8, mem - 8, Request(bytes))
      ensures oldmem != 0 && bytes < MAX_REQUEST && Room(old(arena.View()), oldmem - 8, Request(bytes)) ==>
                mem == oldmem && State() == ResizedHeap(old(State()), oldmem - 8, Request(bytes))
      ensures oldmem != 0 && old(dv) != 0 && bytes < MAX_REQUEST ==>
                var size, nb := old(arena.used)[oldmem - 8], Request(bytes);
                oldmem - 8 + size == old(dv) && size < nb <= size + old(dvsize) ==>
                  dv == if size + old(dvsize) >= nb + MIN_CHUNK_SIZE then oldmem - 8 + nb else 0
      ensures bytes < MAX_REQUEST && mem == 0 ==>
                && (oldmem != 0 ==> !Room(old(arena.View()), oldmem - 8, Request(bytes)))
                && old(arena.topsize) <= Request(bytes)
                && forall a :: a in old(arena.free) ==> old(arena.free)[a] < Request(bytes)
      ensures Granting(granularity, old(arena.segs), old(arena.topsize), more, Request(bytes)) ==>
                mem != 0 || bytes >= MAX_REQUEST
      ensures oldmem != 0 && bytes >= MAX_REQUEST ==> mem == 0 && State() == old(State())
      ensures oldmem == 0 || (mem == 0 && bytes < MAX_REQUEST) ==>
                Allocated(granularity, old(State()), State(), more, MemToChunk(mem), Request(bytes))
      ensures oldmem != 0 && mem != 0 && mem != oldmem ==>
                MovedHeap(granularity, old(State()), State(), more, oldmem - 8, mem - 8, Request(bytes), shrinks)
    {
      hide Allocated, DvServes, Granting, Foremost, MovedHeap, ResizedHeap, Room, Tiled, Request, Usable;
      mem := 0;
      if oldmem != 0 { A.UsedAligned(arena.View(), oldmem - 8); }
      if oldmem == 0 {
        NotUsed(arena.View(), oldmem - 8);
        mem := Malloc(bytes, more);
        A.Absent(arena.used, oldmem - 8);
      } else if bytes >= MAX_REQUEST {
        return;
      } else {
        RequestFacts(bytes);
        var p, nb := oldmem - 8, Request(bytes);
        if dv != 0 && dv == p + arena.used[p] && arena.used[p] < nb <= arena.used[p] + dvsize {
          DvBehind(arena.View(), State(), Where(), p, nb);
        }
        var newp := TryReallocChunk(oldmem - 8, Request(bytes));
        if newp != 0 {
          mem := newp + 8;
        } else {
          mem := MoveAway(oldmem, bytes, more, shrinks);
        }
      }
    }

    /** The request is served elsewhere, and the old chunk is freed. */
    method MoveAway(oldmem: int, bytes: nat, more: System, shrinks: bool) returns (mem: int)
      requires Valid() && bytes < MAX_REQUEST && oldmem > 8 && oldmem - 8 in arena.used
      requires more.Granted? ==> Usable(arena.segs, more.base, more.size, Request(bytes))
      modifies this, arena, smallbins, treebins
      ensures Valid()
      ensures mem == 0 ==> arena.used == old(arena.used) && old(arena.topsize) <= Request(bytes)
      ensures mem == 0 ==> Allocated(granularity, old(State()), State(), more, 0, Request(bytes))
                           && NoneFits(old(arena.free), Request(bytes))
      ensures mem != 0 ==> mem != oldmem && mem % 8 == 0
                           && Moved(old(arena.used), arena.used, oldmem - 8, mem - 8, Request(bytes))
      ensures mem != 0 ==>
                MovedHeap(granularity, old(State()), State(), more, oldmem - 8, mem - 8, Request(bytes), shrinks)
      ensures Granting(granularity, old(arena.segs), old(arena.topsize), more, Request(bytes)) ==> mem != 0
    {
      hide Allocated, Released, Tiled;
      mem := Malloc(bytes, more);
      if mem != 0 {
        ghost var used, h := arena.used, State();
        Free(oldmem, shrinks);
        MovedAlong(old(arena.used), used, oldmem - 8, mem - 8, Request(bytes));
      }
    }

    /** internal_memalign. */
    method Memalign(alignment: nat, bytes: nat, more: System) returns (mem: int, ghost align: nat)
      requires Valid() && bytes < WORD && 8 < alignment <= WORD / 2
      requires more.Granted? ==> Usable(arena.segs, more.base, more.size,
                                        Request(MemalignRequest(AlignmentUsed(alignment), bytes)))
      modifies this, arena, smallbins, treebins
      ensures Valid() && IsPow2(align) && alignment <= align == AlignmentUsed(alignment)
      ensures align < 2 * alignment || align == MIN_CHUNK_SIZE
      ensures mem == 0 ==> arena.used == old(arena.used)
      ensures mem != 0 ==> mem % align == 0 && AlignedFor(old(arena.used), arena.used, mem - 8, Request(bytes))
      ensures mem == 0 && bytes < MAX_REQUEST - align ==>
                && old(arena.topsize) <= Request(MemalignRequest(align, bytes))
                && forall a :: a in old(arena.free) ==> old(arena.free)[a] < Request(MemalignRequest(align, bytes))
      ensures var req := Request(MemalignRequest(align, bytes));
              Granting(granularity, old(arena.segs), old(arena.topsize), more, req) ==>
                mem != 0 || bytes >= MAX_REQUEST - align
      ensures bytes >= MAX_REQUEST - align ==> mem == 0 && State() == old(State())
      ensures bytes < MAX_REQUEST - align ==>
                AllocatedAligned(granularity, old(State()), State(), more, MemToChunk(mem), align, bytes)
    {
      hide Tiled;
      var a := RoundAlignment(alignment);
      align := a;
      mem := 0;
      if bytes < MAX_REQUEST - a {
        mem := MemalignTo(a, bytes, more);
      }
    }

    /** The same for a power of 2. */
    method MemalignTo(a: nat, bytes: nat, more: System) returns (mem: int)
      requires Valid() && IsPow2(a) && MIN_CHUNK_SIZE <= a <= WORD / 2 && bytes < MAX_REQUEST - a
      requires more.Granted? ==> Usable(arena.segs, more.base, more.size, Request(MemalignRequest(a, bytes)))
      modifies this, arena, smallbins, treebins
      ensures Valid()
      ensures mem == 0 ==> arena.used == old(arena.used)
      ensures mem != 0 ==> mem % a == 0 && AlignedFor(old(arena.used), arena.used, mem - 8, Request(bytes))
      ensures mem == 0 ==> old(arena.topsize) <= Request(MemalignRequest(a, bytes))
                           && NoneFits(old(arena.free), Request(MemalignRequest(a, bytes)))
      ensures Granting(granularity, old(arena.segs), old(arena.topsize), more, Request(MemalignRequest(a, bytes))) ==>
                mem != 0
      ensures AllocatedAligned(granularity, old(State()), State(), more, MemToChunk(mem), a, bytes)
    {
      hide Allocated, AllocatedAligned, LeaderDropped, SpareTrimmed, Granting, DvServes, Foremost, Tiled;
      hide Request, Usable;
      RequestFacts(bytes);
      var nb := Request(bytes);
      var req := nb + a + MIN_CHUNK_SIZE - 4;
      mem := Malloc(req, more);
      if mem != 0 {
        RequestFacts(req);
        ghost var h, q := State(), mem - 8;
        var p := AlignAndTrim(mem - 8, a, nb, old(arena.used));
        A.UsedAligned(arena.View(), p);
        mem := p + 8;
        AlignedAllocation(granularity, old(State()), h, State(), more, q, p, a, bytes);
      } else {
        AlignedRefusal(granularity, old(State()), State(), more, a, bytes);
      }
    }

    /** The chunk that was allocated is cut to the aligned place and the size asked for. */
    method AlignAndTrim(q: int, a: nat, nb: nat, ghost used: map<int, nat>) returns (p: int)
      requires Valid() && a >= MIN_CHUNK_SIZE && IsPow2(a) && nb >= MIN_CHUNK_SIZE && nb % 8 == 0
      requires q !in used && q in arena.used && arena.used == used[q := arena.used[q]]
      requires arena.used[q] >= nb + a + MIN_CHUNK_SIZE
      modifies this, arena, smallbins, treebins
      ensures Valid() && p in arena.used && AlignedPlace(q, p, a) && AlignedFor(used, arena.used, p, nb)
      ensures p - q <= old(arena.used)[q] && p in LeaderDropped(old(State()), q, p).used
      ensures State() == SpareTrimmed(LeaderDropped(old(State()), q, p), p, nb)
    {
      hide LeaderDropped, SpareTrimmed;
      p := AlignChunk(q, a, nb, used);
      assert p in State().used;
      TrimSpare(p, nb, used);
    }

    /** Give back leading space, so that the chunk's user pointer is aligned. */
    method AlignChunk(p: int, a: nat, nb: nat, ghost used: map<int, nat>) returns (newp: int)
      requires Valid() && a >= MIN_CHUNK_SIZE && IsPow2(a) && nb >= MIN_CHUNK_SIZE
      requires p !in used && p in arena.used && arena.used == used[p := arena.used[p]]
      requires arena.used[p] >= nb + a + MIN_CHUNK_SIZE
      modifies this, arena, smallbins, treebins
      ensures Valid() && (newp + 8) % a == 0
      ensures newp !in used && newp in arena.used && arena.used == used[newp := arena.used[newp]]
      ensures arena.used[newp] >= nb && AlignedPlace(p, newp, a)
      ensures newp - p <= old(arena.used)[p] && State() == LeaderDropped(old(State()), p, newp)
    {
      hide Tiled, LeaderDropped, And, IsPow2;
      A.UsedAligned(arena.View(), p);
      var mem := p + 8;
      newp := p;
      LeaderKept(State(), p);
      A.UsedBelow(arena.View(), p);
      Masks(mem, a);
      if And(mem, a - 1) != 0 {
        Masks(mem + a - 1, a);
        var br := And(mem + a - 1, Not(a - 1)) - 8;
        LeaderFits(p, a, br);
        newp := if br - p >= MIN_CHUNK_SIZE then br else br + a;
        DropLeader(p, newp, used);
      }
    }

    /** The leader is cut off and disposed of. */
    method DropLeader(p: int, newp: int, ghost used: map<int, nat>)
      requires Valid() && p !in used && p in arena.used && arena.used == used[p := arena.used[p]]
      requires p + MIN_CHUNK_SIZE <= newp <= p + arena.used[p] - MIN_CHUNK_SIZE && newp % 8 == 0
      modifies this, arena, smallbins, treebins
      ensures Valid() && newp !in used && used[newp := old(arena.used)[p] - (newp - p)] == arena.used
      ensures State() == LeaderDropped(old(State()), p, newp)
    {
      hide Disposed, Tiled;
      ghost var t := arena.View();
      A.UsedFacts(t, p);
      AlignedDiff(newp, p);
      var leadsize := newp - p;
      var newsize := arena.head[p].size - leadsize;
      A.InsideNothing(t, p, newp);
      arena.SplitLeader(p, leadsize, newsize);
      DisposeChunk(p, leadsize);
      LeaderGone(used, p, newp, t.used[p], leadsize, newsize);
    }

    /** Give back spare room at the end. */
    method TrimSpare(p: int, nb: nat, ghost used: map<int, nat>)
      requires Valid() && nb >= MIN_CHUNK_SIZE && nb % 8 == 0
      requires p !in used && p in arena.used && arena.used == used[p := arena.used[p]] && arena.used[p] >= nb
      modifies this, arena, smallbins, treebins
      ensures Valid()
      ensures p in arena.used && arena.used == used[p := arena.used[p]] && nb <= arena.used[p] <= nb + MIN_CHUNK_SIZE
      ensures State() == SpareTrimmed(old(State()), p, nb)
    {
      hide Disposed, Tiled;
      ghost var t := arena.View();
      A.UsedFacts(t, p);
      var size := arena.head[p].size;
      if size > nb + MIN_CHUNK_SIZE {
        var remainder := p + nb;
        A.InsideNothing(t, p, remainder);
        A.Absent(arena.free, p);
        arena.SplitInuse(p, nb, size - nb, {p});
        DisposeChunk(remainder, size - nb);
        LeaderGone(used, remainder, p, size, size - nb, nb);
      }
    }
  }

  /** The first place from p on that is aligned and, unless it is p itself, leaves a whole chunk before it. */
  ghost predicate AlignedPlace(p: int, newp: int, a: nat)
    requires a > 0
  {
    && (newp + 8) % a == 0
    && if (p + 8) % a == 0 then newp == p else p + MIN_CHUNK_SIZE <= newp < p + MIN_CHUNK_SIZE + a
  }

  /** The leading space of the chunk p up to newp is freed. */
  ghost function LeaderDropped(h: Heap, p: int, newp: int): Heap
    requires p in h.used && newp - p <= h.used[p]
  {
    if newp == p || newp < p then h
    else Disposed(h.(used := h.used[p := newp - p][newp := h.used[p] - (newp - p)]), p)
  }

  lemma LeaderKept(h: Heap, p: int)
    requires p in h.used
    ensures LeaderDropped(h, p, p) == h
  {
  }

  /** Spare room at the end of the chunk p is freed, if it is more than a minimal chunk. */
  ghost function SpareTrimmed(h: Heap, p: int, nb: nat): Heap
    requires p in h.used
  {
    var size := h.used[p];
    if size > nb + MIN_CHUNK_SIZE then Disposed(CutInUse(h, {p}, p, nb, size - nb), p + nb) else h
  }

  /** What internal_memalign does: a chunk q of the padded request is allocated, which is p once its leading and its
      spare space are freed. */
  ghost predicate AllocatedAligned(g: Granularity, h: Heap, h': Heap, more: System, p: int, a: nat, bytes: nat)
    requires a > 0
  {
    var req := Request(MemalignRequest(a, bytes));
    if p == 0 then Allocated(g, h, h', more, 0, req)
    else
      exists m, q {:trigger Allocated(g, h, m, more, q, req)} ::
        && Allocated(g, h, m, more, q, req) && q in m.used && AlignedPlace(q, p, a) && p - q <= m.used[q]
        && var l := LeaderDropped(m, q, p);
           p in l.used && h' == SpareTrimmed(l, p, Request(bytes))
  }

  lemma {:induction false} AlignedRefusal(g: Granularity, h: Heap, h': Heap, more: System, a: nat, bytes: nat)
    requires a > 0 && Allocated(g, h, h', more, 0, Request(MemalignRequest(a, bytes)))
    ensures AllocatedAligned(g, h, h', more, 0, a, bytes)
  {
  }

  lemma {:induction false} AlignedAllocation(g: Granularity, h: Heap, m: Heap, h': Heap, more: System, q: int, p: int,
                                             a: nat, bytes: nat)
    requires a > 0 && p != 0 && Allocated(g, h, m, more, q, Request(MemalignRequest(a, bytes)))
    requires q in m.used && AlignedPlace(q, p, a) && p - q <= m.used[q] && p in LeaderDropped(m, q, p).used
    requires h' == SpareTrimmed(LeaderDropped(m, q, p), p, Request(bytes))
    ensures AllocatedAligned(g, h, h', more, p, a, bytes)
  {
  }

  /** The chunk p, cut to at most a minimal chunk more than nb bytes, is what was added to the chunks in use. */
  ghost predicate AlignedFor(used: map<int, nat>, used': map<int, nat>, p: int, nb: nat) {
    p !in used && p in used' && used' == used[p := used'[p]] && nb <= used'[p] <= nb + MIN_CHUNK_SIZE
  }

  /** The chunk oldp (if it was one) was given back, and newp is the chunk of nb bytes that replaces it. */
  ghost predicate Moved(used: map<int, nat>, used': map<int, nat>, oldp: int, newp: int, nb: nat) {
    && newp !in used && newp in used' && used' == (used - {oldp})[newp := used'[newp]]
    && nb <= used'[newp] < nb + MIN_CHUNK_SIZE
  }

  /** The request is served as by dlmalloc, and then the old chunk is freed. */
  ghost predicate MovedHeap(g: Granularity, h: Heap, h': Heap, more: System, oldp: int, newp: int, nb: nat,
                            shrinks: bool)
  {
    exists m {:trigger Allocated(g, h, m, more, newp, nb)} ::
      Allocated(g, h, m, more, newp, nb) && oldp in m.used && h' == Released(m, oldp, g, shrinks)
  }

  lemma MovedAlong(used: map<int, nat>, used1: map<int, nat>, oldp: int, newp: int, nb: nat)
    requires Served(used, used1, newp, nb) && oldp in used
    ensures Moved(used, used1 - {oldp}, oldp, newp, nb)
  {
  }

  /** A chunk that takes in free space behind it. */
  lemma GrownUsed(used: map<int, nat>, p: int, next: int, size: nat)
    requires p in used && next !in used
    ensures (used - ({p} + {next}))[p := size] == used[p := size]
  {
  }

  /** The chunk p was resized in place to nb bytes, and fewer than a whole chunk more. */
  ghost predicate Resized(used: map<int, nat>, used': map<int, nat>, p: int, nb: nat) {
    p in used && p in used' && used' == used[p := used'[p]] && nb <= used'[p] < nb + MIN_CHUNK_SIZE
  }

  /** A chunk in use can be resized in place: it is large enough, or the free space behind it makes up for the rest. */
  ghost predicate Room(t: Tags, p: int, nb: nat)
    requires p in t.used
  {
    var next := p + t.used[p];
    t.used[p] >= nb
    || (next == t.top && next in t.head && t.used[p] + t.head[next].size > nb)
    || (next in t.free && t.used[p] + t.free[next] >= nb)
  }

  /** The padded request of internal_memalign. */
  function MemalignRequest(a: nat, bytes: nat): nat {
    Request(bytes) + a + MIN_CHUNK_SIZE - 4
  }

  /** The leader is a whole chunk, and not much more than the alignment. */
  lemma {:induction false} LeaderFits(p: int, a: nat, br: int)
    requires p > 0 && p % 8 == 0 && IsPow2(a) && a >= MIN_CHUNK_SIZE && (p + 8) % a != 0 && br == RoundUp(p + 8, a) - 8
    ensures p < br < p + a && br % 8 == 0 && (br + 8) % a == 0 && (br + a) % 8 == 0 && (br + a + 8) % a == 0
    ensures br - p >= MIN_CHUNK_SIZE || br + a - p <= a + 8
  {
    var m := RoundUp(p + 8, a);
    RoundUpFacts(p + 8, a);
    assert m != p + 8;
    var k: nat :| a == Pow2(k);
    EightDivides(k, m, a);
    AlignedDiff(m, 8);
    AlignedDiff(br, p);
    AlignedSum(br, a);
    AddMultiple(m, a);
  }

  lemma AddMultiple(m: nat, a: nat)
    requires a > 0 && m % a == 0
    ensures (m + a) % a == 0
  {
    var q := m / a;
    assert m == a * q;
    assert m + a == a * (q + 1);
    DivUnique(m + a, a, q + 1, 0);
  }

  lemma {:induction false} EightDivides(k: nat, m: nat, a: nat)
    requires a == Pow2(k) && m % a == 0 && a >= MIN_CHUNK_SIZE
    ensures m % 8 == 0 && a % 8 == 0
  {
    assert Pow2(3) == 8;
    if k < 3 { Pow2Increasing(k, 3); }
    Pow2Sum(3, k - 3);
    MultipleOfMultiple(m, a, 8, Pow2(k - 3));
  }

  lemma MultipleOfMultiple(m: nat, a: nat, d: nat, w: nat)
    requires d > 0 && a == d * w && a > 0 && m % a == 0
    ensures m % d == 0 && a % d == 0
  {
    var q := m / a;
    assert m == a * q;
    Associate(d, w, q);
    DivUnique(m, d, w * q, 0);
    DivUnique(a, d, w, 0);
  }

  lemma Associate(a: int, b: int, c: int)
    ensures a * b * c == a * (b * c)
  {
  }

  lemma LeaderGone(used: map<int, nat>, p: int, newp: int, size: nat, lead: nat, newsize: nat)
    requires p !in used && newp != p
    ensures used[p := size][p := lead][newp := newsize] - {p} == used[newp := newsize]
    ensures (used[newp := size] - {newp})[newp := newsize][p := lead] - {p} == used[newp := newsize]
  {
  }

  lemma {:induction false} NotUsed(t: Tags, p: int)
    requires Tiled(t) && p <= 0
    ensures p !in t.used
  {
    assert ListedOk(t, p);
    if p in t.chunks { assert LocalOk(t, p); }
  }

  /** The size maps without a chunk in use and a chunk behind it that is not. */
  lemma {:induction false} InUseRun(t: Tags, p: int, next: int)
    requires Tiled(t) && p in t.used && next != p
    ensures next !in t.used ==> t.used - ({p} + {next}) == t.used - {p}
    ensures t.free - ({p} + {next}) == t.free - {next}
    ensures next !in t.free ==> t.free - ({p} + {next}) == t.free
  {
    A.UsedFacts(t, p);
  }

  /** How much sys_trim asks the system to take back: all but one of the units in the room,
      short of half the address space. */
  function TrimExtra(room: nat, unit: nat): (extra: nat)
    requires room > 0 && 0 < unit < WORD / 2 && unit % 8 == 0
    ensures extra < room && extra % 8 == 0
    ensures (extra % unit == 0 && room - extra <= unit) || extra == HALF_MAX_SIZE_T + 1 - unit
  {
    var units := ((room + (unit as int - 1)) / unit - 1) * unit;
    TrimUnits(room, unit, units);
    if units >= HALF_MAX_SIZE_T then HALF_MAX_SIZE_T + 1 - unit else units
  }

  lemma {:induction false} TrimUnits(room: nat, unit: nat, extra: int)
    requires room > 0 && unit > 0 && unit % 8 == 0 && extra == ((room + (unit as int - 1)) / unit - 1) * unit
    ensures 0 <= extra < room && extra % 8 == 0 && extra % unit == 0 && room - extra <= unit
  {
    var y: nat := room + (unit as int - 1);
    OneLess(y / unit, unit);
    DivisionParts(y, unit);
    DivUnique(extra, unit, y / unit - 1, 0);
    UnitAligned(y / unit - 1, unit);
  }

  lemma OneLess(a: int, b: int)
    ensures (a - 1) * b == a * b - b
  {
  }

  lemma DivisionParts(y: nat, d: nat)
    requires d > 0
    ensures y - d < y / d * d <= y && (y >= d ==> y / d * d >= d)
  {
  }

  lemma UnitAligned(k: int, unit: nat)
    requires unit % 8 == 0
    ensures k * unit % 8 == 0
  {
    var w := unit / 8;
    assert unit == 8 * w;
    assert k * unit == 8 * (k * w);
  }

  /** Where the size classes and dv hold nothing that fits, no free chunk but top can fit. */
  lemma {:induction false} NothingFits(free: map<int, nat>, w: Places, nb: nat)
    requires Placed(free, w) && w.dvsize < nb
    requires forall a :: a in w.small ==> w.small[a] < nb
    requires forall a :: a in w.large ==> w.large[a] < nb
    ensures forall a :: a in free ==> free[a] < nb
  {
    forall a | a in free ensures free[a] < nb { assert PlacedAt(free, w, a); }
  }

  /** Where no bin from that of nb to bin i is marked, a small chunk is too small for nb or one of bin i or above. */
  lemma {:induction false} NoneFrom(m: MallocState, nb: nat, i: nat)
    requires m.Valid() && nb < MIN_LARGE_SIZE && nb % 8 == 0
    requires forall k :: S.SmallIndex(nb) <= k < i && k < S.NSMALLBINS ==> !Marked(m.smallbins.smallmap, k)
    ensures forall a :: a in m.smallbins.contents && m.smallbins.contents[a] >= nb ==>
              8 * i <= m.smallbins.contents[a] && i < S.NSMALLBINS
  {
    var idx := S.SmallIndex(nb);
    assert 8 * idx == nb;
    S.SmallNone(m.smallbins.mem, m.smallbins.smallmap, m.smallbins.lists, m.smallbins.contents, idx, i);
  }

  /** Where no small bin from that of nb up is marked, no small chunk fits. */
  lemma {:induction false} NoSmall(m: MallocState, nb: nat)
    requires m.Valid() && MIN_CHUNK_SIZE <= nb < MIN_LARGE_SIZE && nb % 8 == 0
    requires Shr(m.smallbins.smallmap, S.SmallIndex(nb)) == 0
    ensures forall a :: a in m.smallbins.contents ==> m.smallbins.contents[a] < nb
  {
    var idx := S.SmallIndex(nb);
    S.RemainderlessTest(m.smallbins.smallmap, idx);
    S.NextSmall(m.smallbins.smallmap, idx);
    NoneFrom(m, nb, S.NSMALLBINS);
  }

  /** Where there is no remainderless fit, a dv that is large enough serves. */
  lemma {:induction false} KeepsDv(m: MallocState, nb: nat, smallbits: nat)
    requires m.Valid() && MIN_CHUNK_SIZE <= nb < MIN_LARGE_SIZE && nb % 8 == 0 && nb <= m.dvsize
    requires smallbits == Shr(m.smallbins.smallmap, S.SmallIndex(nb)) && And(smallbits, 3) == 0
    ensures DvServes(m.arena.free, m.dv, nb)
  {
    var idx, free := S.SmallIndex(nb), m.arena.free;
    S.RemainderlessTest(m.smallbins.smallmap, idx);
    NoneFrom(m, nb, idx + 2);
    forall a | a in free && a != m.dv && nb <= free[a] ensures free[a] > nb + 8 || free[a] >= MIN_LARGE_SIZE {
      assert PlacedAt(free, m.Where(), a);
    }
  }

  lemma {:induction false} NothingSmall(m: MallocState, nb: nat)
    requires m.Valid() && m.treebins.treemap == 0
    requires forall a :: a in m.smallbins.contents ==> m.smallbins.contents[a] < nb
    ensures m.dvsize < nb ==> forall a :: a in m.arena.free ==> m.arena.free[a] < nb
  {
    T.NoneHeld(m.treebins.mem, m.treebins.treebins, m.treebins.treemap, m.treebins.trees);
    if m.dvsize < nb { NothingFits(m.arena.free, m.Where(), nb); }
  }

  /** A large chunk that fits, but not worse than dv, fits best of all binned chunks. */
  lemma {:induction false} BestLarge(free: map<int, nat>, w: Places, nb: nat, p: int)
    requires Placed(free, w) && nb >= MIN_LARGE_SIZE && p in w.large && p in free && free[p] >= nb
    requires nb <= w.dvsize ==> w.large[p] < w.dvsize
    requires forall a :: a in w.large && w.large[a] >= nb ==> w.large[p] <= w.large[a]
    ensures Least(free, w.dv, nb, p) && !DvServes(free, w.dv, nb)
  {
    assert PlacedAt(free, w, p);
    LeastBinned(free, w, nb, p);
  }

  lemma {:induction false} NothingLarge(m: MallocState, nb: nat)
    requires m.Valid() && MIN_LARGE_SIZE <= nb
    requires m.treebins.treemap != 0 ==>
               forall a :: a in m.treebins.Contents() && m.treebins.Contents()[a] >= nb ==>
                 nb <= m.dvsize <= m.treebins.Contents()[a]
    ensures m.dvsize < nb ==> forall a :: a in m.arena.free ==> m.arena.free[a] < nb
    ensures nb <= m.dvsize <==> DvServes(m.arena.free, m.dv, nb)
  {
    S.SmallSizes(m.smallbins.lists, m.smallbins.contents);
    if m.treebins.treemap == 0 {
      T.NoneHeld(m.treebins.mem, m.treebins.treebins, m.treebins.treemap, m.treebins.trees);
    }
    if m.dvsize < nb {
      NothingFits(m.arena.free, m.Where(), nb);
    } else {
      forall a | a in m.arena.free && a != m.dv && nb <= m.arena.free[a] ensures m.arena.free[a] >= m.dvsize {
        assert PlacedAt(m.arena.free, m.Where(), a);
      }
    }
  }

  lemma {:induction false} NothingHuge(t: Tags, w: Places)
    requires Tiled(t) && Placed(t.free, w)
    ensures w.dvsize < MAX_SIZE_T && forall a :: a in t.free ==> t.free[a] < MAX_SIZE_T
  {
    forall a | a in t.free ensures t.free[a] < MAX_SIZE_T { A.FreeFacts(t, a); }
  }

  lemma {:induction false} AlignedRequest(g: Granularity, nb: nat)
    requires nb < WORD && GranularityAlign(g, nb + SYS_ALLOC_PADDING) > nb
    ensures nb != MAX_SIZE_T
  {
  }

  lemma {:induction false} UsableFacts(t: Tags, base: nat, size: nat, nb: nat)
    requires Tiled(t) && Usable(t.segs, base, size, nb) && nb >= MIN_CHUNK_SIZE
    ensures size > nb + TOP_FOOT_SIZE ==> Fresh(t.segs, base, size)
    ensures t.segs != [] && base == End(t.segs[0]) ==> Movable(t, size) && t.segs[0].base <= t.top < base
    ensures base <= AlignUp(base) < base + 8 && (t.segs == [] <==> t.top == 0)
    ensures forall j :: 0 <= j < |t.segs| && base + size == t.segs[j].base && size > nb + TOP_FOOT_SIZE ==>
              Prependable(t, j, base) && AlignUp(base) + nb + MIN_CHUNK_SIZE <= AlignUp(t.segs[j].base)
  {
    AlignLeast(base, base);
    forall j | 0 <= j < |t.segs|
      ensures t.segs[j].base < End(t.segs[j]) && End(t.segs[j]) % 8 == 0 && t.segs[j].base <= AlignUp(t.segs[j].base)
    {
      assert SegmentOk(t, t.segs[j]);
      AlignLeast(t.segs[j].base, 0);
    }
    if t.segs != [] && base == End(t.segs[0]) {
      AlignedDiff(base + size, base);
      TopAbove(t);
    }
  }

  lemma {:induction false} TopAbove(t: Tags)
    requires Tiled(t) && t.segs != []
    ensures t.top != 0 && t.top in t.head && t.head[t.top].size > 0 && t.segs[0].base <= t.top < End(t.segs[0])
  {
    assert LocalOk(t, t.top);
  }

  lemma {:induction false} HoldsTop(t: Tags, i: nat)
    requires Tiled(t) && t.top != 0 && i < |t.segs| && t.segs[i].base <= t.top < End(t.segs[i])
    ensures i == 0
  {
    TopAbove(t);
    SameSegment(t.segs, 0, i, t.top);
  }

  /** No two segments start at the same address. */
  lemma {:induction false} FrontUnique(t: Tags, j: nat)
    requires Tiled(t) && j < |t.segs|
    ensures forall i :: 0 <= i < |t.segs| && t.segs[i].base == t.segs[j].base ==> i == j
  {
    forall i | 0 <= i < |t.segs| && t.segs[i].base == t.segs[j].base ensures i == j {
      assert SegmentOk(t, t.segs[i]) && SegmentOk(t, t.segs[j]);
      SameSegment(t.segs, i, j, t.segs[j].base);
    }
  }

  lemma {:induction false} FirstFacts(t: Tags, i: nat, tbase: nat, nb: nat)
    requires Tiled(t) && Prependable(t, i, tbase) && tbase < t.segs[i].base && nb % 8 == 0
    requires AlignUp(tbase) + nb < AlignUp(t.segs[i].base)
    ensures var first := AlignUp(t.segs[i].base);
            && first in t.chunks && first in t.head
            && (if t.head[first].cinuse then first !in t.free else first == t.top || first in t.free)
            && first != 0 && (first == t.top ==> t.top != 0)
    ensures var q := AlignUp(tbase) + nb; q !in t.free && q % 8 == 0 && q > 0
    ensures AlignUp(tbase) !in t.used && AlignUp(tbase) !in t.free
  {
    var first, q := AlignUp(t.segs[i].base), AlignUp(tbase) + nb;
    assert SegmentOk(t, t.segs[i]);
    assert LocalOk(t, first) && ListedOk(t, first) && ListedOk(t, q) && ListedOk(t, AlignUp(tbase));
    AlignLeast(tbase, q);
    AlignedSum(AlignUp(tbase), nb);
    if q in t.chunks { DownAway(t, i, tbase, q); }
    if AlignUp(tbase) in t.chunks { DownAway(t, i, tbase, AlignUp(tbase)); }
  }

  lemma {:induction false} BinnedSize(t: Tags, n: int, q: int)
    requires Tiled(t) && n in t.chunks && q % 8 == 0
    ensures (n - q) % 8 == 0 && n < WORD
  {
    assert LocalOk(t, n);
    AlignedDiff(n, q);
    var i :| 0 <= i < |t.segs| && t.segs[i].base <= n && Next(t, n) < End(t.segs[i]);
    assert SegmentOk(t, t.segs[i]);
  }

  /** The chunk p of nb bytes, and fewer than a whole chunk more, is what was added to the chunks in use. */
  ghost predicate Served(used: map<int, nat>, used': map<int, nat>, p: int, nb: nat) {
    && p > 0 && p !in used && p in used' && used' == used[p := used'[p]]
    && nb <= used'[p] < nb + MIN_CHUNK_SIZE
  }

  lemma {:induction false} DvFacts(t: Tags, free: map<int, nat>, w: Places)
    requires Tiled(t) && Placed(free, w) && forall p :: p in free ==> p in t.free && free[p] == t.free[p]
    ensures w.dvsize % 8 == 0 && w.dv >= 0
  {
    if w.dv != 0 { A.FreeFacts(t, w.dv); }
  }

  /** dvsize - nb, in unsigned arithmetic. */
  lemma {:induction false} Remainder(t: Tags, w: Places, nb: nat)
    requires Tiled(t) && Placed(t.free, w) && nb < WORD
    ensures w.dvsize < WORD
    ensures Minus(w.dvsize, nb) == if nb <= w.dvsize then w.dvsize - nb else w.dvsize + WORD - nb
  {
    if w.dv != 0 { A.FreeFacts(t, w.dv); }
  }

  /** The free chunk p serves nb bytes: what is left of it stays free if that is a whole chunk. */
  ghost function Cut(h: Heap, p: int, nb: nat): (h': Heap)
    requires p in h.free && h.free[p] >= nb
    ensures p in h'.used && h'.used == h.used[p := h'.used[p]] && nb <= h'.used[p] < nb + MIN_CHUNK_SIZE
    ensures h'.segs == h.segs
  {
    var rest: nat := h.free[p] - nb;
    if rest >= MIN_CHUNK_SIZE then h.(free := (h.free - {p})[p + nb := rest], used := h.used[p := nb])
    else h.(free := h.free - {p}, used := h.used[p := h.free[p]])
  }

  /** The free chunk p serves nb bytes; what becomes dv is left open. */
  ghost predicate ServedFrom(h: Heap, h': Heap, p: int, nb: nat) {
    p > 0 && p !in h.used && p in h.free && h.free[p] >= nb && h' == Cut(h, p, nb).(dv := h'.dv)
  }

  /** What is left of the free chunk p becomes dv if it is a whole chunk. */
  ghost function RestAsDv(h: Heap, p: int, nb: nat): int
    requires p in h.free
  {
    if h.free[p] >= nb + MIN_CHUNK_SIZE then p + nb else h.dv
  }

  /** When dv serves: it is large enough, and for a small request no small bin holds a chunk that fits with less than
      a whole chunk to spare, or for a large request no binned chunk that fits is smaller. */
  ghost predicate DvServes(free: map<int, nat>, dv: int, nb: nat) {
    && dv != 0 && dv in free && nb <= free[dv]
    && forall a :: a in free && a != dv && nb <= free[a] ==>
         if nb < MIN_LARGE_SIZE then free[a] > nb + 8 || free[a] >= MIN_LARGE_SIZE else free[a] >= free[dv]
  }

  /** The front of top serves. */
  ghost predicate FromTop(h: Heap, h': Heap, p: int, nb: nat) {
    nb < h.topsize && p == h.top && h' == h.(used := h.used[p := nb], top := p + nb, topsize := h.topsize - nb)
  }

  /** A region that ends where a segment starts, and does not continue top. */
  ghost predicate Fronted(segs: seq<Segment>, base: nat, size: nat) {
    segs != [] && base != End(segs[0]) && exists i :: 0 <= i < |segs| && segs[i].base == base + size
  }

  /** The region is put in front of segment i and serves nb bytes. The rest of it joins the first chunk of the segment
      if that is top or free. */
  ghost function Prepended(h: Heap, i: nat, base: nat, nb: nat): (h': Heap)
    requires i < |h.segs| && base <= h.segs[i].base && AlignUp(base) + nb <= AlignUp(h.segs[i].base)
    ensures h'.used == h.used[AlignUp(base) := nb] && |h'.segs| == |h.segs|
  {
    var p, first := AlignUp(base), AlignUp(h.segs[i].base);
    var q: nat := p + nb;
    var g := h.(segs := h.segs[i := Segment(base, End(h.segs[i]) - base)], used := h.used[p := nb]);
    if first == h.top then g.(top := q, topsize := h.topsize + (first - q))
    else if first in h.free then
      g.(free := (h.free - {first})[q := first - q + h.free[first]], dv := if h.dv == first then q else h.dv)
    else g.(free := h.free[q := first - q])
  }

  lemma {:induction false} PrependedBinned(h: Heap, i: nat, base: nat, nb: nat, gone: set<int>, size: nat)
    requires i < |h.segs| && base <= h.segs[i].base && AlignUp(base) + nb <= AlignUp(h.segs[i].base)
    requires var first := AlignUp(h.segs[i].base);
             && first != h.top && first != h.dv && gone == (if first in h.free then {first} else {})
             && size == first - (AlignUp(base) + nb) + if first in h.free then h.free[first] else 0
    ensures Prepended(h, i, base, nb) ==
            h.(segs := h.segs[i := Segment(base, End(h.segs[i]) - base)], used := h.used[AlignUp(base) := nb],
               free := (h.free - gone)[AlignUp(base) + nb := size])
  {
    hide AlignUp;
    if AlignUp(h.segs[i].base) !in h.free { assert h.free - gone == h.free; }
  }

  lemma {:induction false} PrependedOver(h: Heap, i: nat, base: nat, nb: nat)
    requires i < |h.segs| && base <= h.segs[i].base && AlignUp(base) + nb <= AlignUp(h.segs[i].base)
    requires h.dv == AlignUp(h.segs[i].base) != h.top && h.dv in h.free
    ensures var q := AlignUp(base) + nb;
            Prepended(h, i, base, nb) ==
            h.(segs := h.segs[i := Segment(base, End(h.segs[i]) - base)], used := h.used[AlignUp(base) := nb],
               free := (h.free - {h.dv})[q := h.dv - q + h.free[h.dv]], dv := q)
  {
    hide AlignUp;
  }

  /** The region becomes a segment of its own and holds top; old top becomes a free chunk if it can be one. */
  ghost function SegmentAdded(h: Heap, base: nat, size: nat): Heap
    requires AlignUp(base) + TOP_FOOT_SIZE <= base + size
  {
    h.(free := if h.topsize >= MIN_CHUNK_SIZE then h.free[h.top := h.topsize] else h.free, top := AlignUp(base),
       topsize := base + size - TOP_FOOT_SIZE - AlignUp(base), segs := [Segment(base, size)] + h.segs,
       trim := A.DEFAULT_TRIM_THRESHOLD)
  }

  /** The region continues top, or becomes the first or another segment and holds top. */
  ghost function Enlarged(h: Heap, base: nat, size: nat): (h': Heap)
    ensures h'.used == h.used && h.free.Keys <= h'.free.Keys
  {
    if h.segs != [] && base == End(h.segs[0]) then
      h.(topsize := h.topsize + size, segs := h.segs[0 := Segment(h.segs[0].base, h.segs[0].size + size)],
         trim := A.DEFAULT_TRIM_THRESHOLD)
    else if AlignUp(base) + TOP_FOOT_SIZE <= base + size then SegmentAdded(h, base, size)
    else h
  }

  lemma {:induction false} EnlargedFirst(h: Heap, base: nat, size: nat)
    requires h.segs == [] && h.topsize == 0 && AlignUp(base) + TOP_FOOT_SIZE <= base + size
    ensures Enlarged(h, base, size) == h.(top := AlignUp(base), topsize := base + size - TOP_FOOT_SIZE - AlignUp(base),
                                          segs := [Segment(base, size)], trim := A.DEFAULT_TRIM_THRESHOLD)
  {
    assert [Segment(base, size)] + h.segs == [Segment(base, size)];
  }

  lemma {:induction false} EnlargedTop(h: Heap, base: nat, size: nat)
    requires h.segs != [] && base == End(h.segs[0])
    ensures Enlarged(h, base, size) ==
            h.(topsize := h.topsize + size, segs := h.segs[0 := Segment(h.segs[0].base, h.segs[0].size + size)],
               trim := A.DEFAULT_TRIM_THRESHOLD)
  {
  }

  lemma {:induction false} EnlargedByOne(h: Heap, base: nat, size: nat)
    requires (h.segs == [] || base != End(h.segs[0])) && AlignUp(base) + TOP_FOOT_SIZE <= base + size
    ensures Enlarged(h, base, size) == SegmentAdded(h, base, size)
    ensures var g := SegmentAdded(h, base, size);
            g.topsize + TOP_FOOT_SIZE + AlignUp(base) == base + size && g.used == h.used
  {
  }

  ghost predicate FromFront(h: Heap, h': Heap, base: nat, size: nat, p: int, nb: nat) {
    && p == AlignUp(base) && p > 0 && p !in h.used && p !in h.free
    && forall i :: 0 <= i < |h.segs| && h.segs[i].base == base + size ==>
         p + nb <= AlignUp(h.segs[i].base) && h' == Prepended(h, i, base, nb)
  }

  /** The system serves: a region in front of a segment does so itself, any other one through the enlarged top. */
  ghost predicate FromSystem(g: Granularity, h: Heap, h': Heap, more: System, p: int, nb: nat) {
    if more.Refused? || GranularityAlign(g, nb + SYS_ALLOC_PADDING) <= nb then p == 0 && h' == h
    else if Fronted(h.segs, more.base, more.size) then FromFront(h, h', more.base, more.size, p, nb)
    else
      var e := Enlarged(h, more.base, more.size);
      if nb < e.topsize then p > 0 && p !in h.used && p !in h.free && FromTop(e, h', p, nb) else p == 0 && h' == e
  }

  /** mem2chunk, or 0 for a null pointer. */
  ghost function MemToChunk(mem: int): int {
    if mem == 0 then 0 else mem - 8
  }

  ghost predicate NoneFits(free: map<int, nat>, nb: nat) {
    forall a :: a in free ==> free[a] < nb
  }

  /** A free chunk serves. What is left of dv remains dv, what is left of another chunk becomes dv if the request is
      small, and goes into a bin if it is large. */
  ghost predicate FromFree(h: Heap, h': Heap, p: int, nb: nat) {
    && ServedFrom(h, h', p, nb)
    && h'.dv == if p == h.dv then if h.free[p] >= nb + MIN_CHUNK_SIZE then p + nb else 0
                else if nb < MIN_LARGE_SIZE then RestAsDv(h, p, nb)
                else h.dv
  }

  ghost predicate Covered(segs: seq<Segment>, x: int) {
    exists i :: 0 <= i < |segs| && segs[i].base <= x < End(segs[i])
  }

  /** The allocator's memory grows by exactly the region. */
  lemma {:induction false} EnlargedCovers(h: Heap, base: nat, size: nat, x: int)
    requires (h.segs != [] && base == End(h.segs[0])) || AlignUp(base) + TOP_FOOT_SIZE <= base + size
    ensures Covered(Enlarged(h, base, size).segs, x) <==> Covered(h.segs, x) || base <= x < base + size
  {
    var segs := Enlarged(h, base, size).segs;
    if h.segs != [] && base == End(h.segs[0]) {
      forall i | 0 < i < |segs| ensures segs[i] == h.segs[i] {}
      assert segs[0].base == h.segs[0].base && End(segs[0]) == base + size;
    } else {
      assert segs[0] == Segment(base, size);
      forall i | 0 <= i < |h.segs| ensures segs[i + 1] == h.segs[i] {}
      forall i | 0 < i < |segs| ensures segs[i] == h.segs[i - 1] {}
    }
  }

  lemma {:induction false} PrependedCovers(h: Heap, i: nat, base: nat, size: nat, nb: nat, x: int)
    requires i < |h.segs| && h.segs[i].base == base + size && AlignUp(base) + nb <= AlignUp(h.segs[i].base)
    ensures Covered(Prepended(h, i, base, nb).segs, x) <==> Covered(h.segs, x) || base <= x < base + size
  {
    var segs := Prepended(h, i, base, nb).segs;
    assert segs[i] == Segment(base, End(h.segs[i]) - base);
    forall j | 0 <= j < |segs| && j != i ensures segs[j] == h.segs[j] {}
  }

  /** The size of the chunk that serves, and dv after it. */
  ghost predicate LeftOver(h: Heap, h': Heap, p: int, nb: nat) {
    && p in h'.used
    && h'.used[p] == (if p in h.free && h.free[p] < nb + MIN_CHUNK_SIZE then h.free[p] else nb)
    && (p in h.free ==>
          h'.dv == if (p == h.dv || nb < MIN_LARGE_SIZE) && h.free[p] >= nb + MIN_CHUNK_SIZE then p + nb
                   else if p == h.dv then 0 else h.dv)
  }

  /** What these say of the user pointer. */
  lemma {:induction false} SpelledOut(h: Heap, h': Heap, p: int, mem: int, nb: nat)
    requires p >= 0 && mem == if p == 0 then 0 else p + 8
    requires p != 0 && p in h.free && p != h.dv ==> Least(h.free, h.dv, nb, p)
    requires p == 0 || p !in h.free ==> NoneFits(h.free, nb)
    requires p != 0 ==> LeftOver(h, h', p, nb)
    ensures mem != 0 && mem - 8 in h.free && mem - 8 != h.dv ==>
              forall a :: a in h.free && a != h.dv && h.free[a] >= nb ==> h.free[mem - 8] <= h.free[a]
    ensures mem == 0 || mem - 8 !in h.free ==> forall a :: a in h.free ==> h.free[a] < nb
    ensures mem != 0 ==>
              && mem - 8 in h'.used
              && h'.used[mem - 8] == if mem - 8 in h.free && h.free[mem - 8] < nb + MIN_CHUNK_SIZE
                                     then h.free[mem - 8] else nb
    ensures mem != 0 && mem - 8 in h.free ==>
              h'.dv == if (mem - 8 == h.dv || nb < MIN_LARGE_SIZE) && h.free[mem - 8] >= nb + MIN_CHUNK_SIZE
                       then mem - 8 + nb
                       else if mem - 8 == h.dv then 0 else h.dv
  {
  }

  /** Where dlmalloc takes the chunk p from: a free chunk if any is large enough, else top if that is, else the
      system, which may leave p null. */
  ghost predicate Allocated(g: Granularity, h: Heap, h': Heap, more: System, p: int, nb: nat) {
    if !NoneFits(h.free, nb) then FromFree(h, h', p, nb)
    else if nb < h.topsize then FromTop(h, h', p, nb)
    else FromSystem(g, h, h', more, p, nb)
  }

  lemma {:induction false} FromFreeFacts(g: Granularity, h: Heap, h': Heap, more: System, p: int, nb: nat)
    requires FromFree(h, h', p, nb)
    ensures Allocated(g, h, h', more, p, nb) && Served(h.used, h'.used, p, nb) && !NoneFits(h.free, nb)
    ensures LeftOver(h, h', p, nb)
  {
  }

  /** No binned chunk that is large enough is smaller than p. */
  ghost predicate Least(free: map<int, nat>, dv: int, nb: nat, p: int) {
    && p in free && p != dv && free[p] >= nb
    && forall a :: a in free && a != dv && free[a] >= nb ==> free[p] <= free[a]
  }

  lemma {:induction false} LeastBinned(free: map<int, nat>, w: Places, nb: nat, p: int)
    requires Placed(free, w) && p in free && p != w.dv && free[p] >= nb
    requires nb < MIN_LARGE_SIZE ==> forall a :: a in w.small && w.small[a] >= nb ==> free[p] <= w.small[a]
    requires free[p] >= MIN_LARGE_SIZE ==> forall a :: a in w.large && w.large[a] >= nb ==> free[p] <= w.large[a]
    ensures Least(free, w.dv, nb, p)
  {
    forall a | a in free && a != w.dv && free[a] >= nb ensures free[p] <= free[a] { assert PlacedAt(free, w, a); }
  }

  /** The chunks in gone become two chunks in use. */
  ghost function CutInUse(h: Heap, gone: set<int>, p: int, nb: nat, rsize: nat): (h': Heap)
    ensures p + nb in h'.used && h'.used[p + nb] == rsize
  {
    h.(free := h.free - gone, used := (h.used - gone)[p := nb][p + nb := rsize])
  }

  /** The second of two chunks in use is freed where neither neighbour can take it. */
  lemma {:induction false} TailDisposed(h: Heap, gone: set<int>, p: int, nb: nat, rsize: nat)
    requires FreeBefore(h.free - gone, p + nb) == p + nb && p + nb !in h.used && p + nb !in h.free && nb > 0
    requires p + nb + rsize != h.top && p + nb + rsize !in h.free
    ensures Disposed(CutInUse(h, gone, p, nb, rsize), p + nb) ==
            h.(free := (h.free - gone)[p + nb := rsize], used := (h.used - gone)[p := nb])
  {
    CutInUseUsed(h.used - gone, p, nb, rsize);
    A.Absent(h.free - gone, p + nb);
  }

  lemma CutInUseUsed(used: map<int, nat>, p: int, nb: nat, rsize: nat)
    requires p + nb !in used && nb > 0
    ensures used[p := nb][p + nb := rsize] - {p + nb} == used[p := nb]
  {
  }

  /** The chunk p is resized in place: what is left of it is freed, or it takes in top, dv or a binned chunk behind
      it, of which all that makes a whole chunk stays what it was. */
  ghost function ResizedHeap(h: Heap, p: int, nb: nat): Heap
    requires p in h.used
  {
    var size := h.used[p];
    var n := p + size;
    if size >= nb then
      if size - nb >= MIN_CHUNK_SIZE then Disposed(CutInUse(h, {p}, p, nb, size - nb), p + nb) else h
    else if n == h.top then
      if size + h.topsize > nb then
        h.(used := h.used[p := nb], top := p + nb, topsize := size + h.topsize - nb)
      else h
    else if n in h.free && size + h.free[n] >= nb then
      var rest: nat := size + h.free[n] - nb;
      if rest >= MIN_CHUNK_SIZE then
        h.(used := h.used[p := nb], free := (h.free - {n})[p + nb := rest], dv := if h.dv == n then p + nb else h.dv)
      else
        h.(used := h.used[p := size + h.free[n]], free := h.free - {n}, dv := if h.dv == n then 0 else h.dv)
    else h
  }

  lemma {:induction false} GrownBehind(h: Heap, p: int, nb: nat)
    requires p in h.used && h.used[p] < nb
    requires var n := p + h.used[p]; n != h.top && n in h.free && h.used[p] + h.free[n] >= nb
    ensures var n := p + h.used[p];
            var tot := h.used[p] + h.free[n];
            ResizedHeap(h, p, nb) ==
            if tot - nb >= MIN_CHUNK_SIZE then
              h.(used := h.used[p := nb], free := (h.free - {n})[p + nb := tot - nb],
                 dv := if h.dv == n then p + nb else h.dv)
            else h.(used := h.used[p := tot], free := h.free - {n}, dv := if h.dv == n then 0 else h.dv)
    ensures Resized(h.used, ResizedHeap(h, p, nb).used, p, nb)
  {
  }

  /** The system takes back what sys_trim gives it of top, if it does so at all. */
  ghost function Trimmed(h: Heap, pad: nat, g: Granularity, shrinks: bool): Heap {
    var room := h.topsize - pad - TOP_FOOT_SIZE;
    var released := if pad < MAX_REQUEST && h.top != 0 && room > 0 && shrinks then TrimExtra(room, g) else 0;
    if released > 0 && h.segs != [] && released <= h.segs[0].size then
      h.(topsize := h.topsize - released, segs := h.segs[0 := Segment(h.segs[0].base, h.segs[0].size - released)],
         trim := A.DEFAULT_TRIM_THRESHOLD)
    else if pad < MAX_REQUEST && h.top != 0 && h.topsize > h.trim then h.(trim := MAX_SIZE_T)
    else h
  }

  /** dlfree: the chunk q is freed, and a top that grew over the threshold is trimmed. */
  ghost function Released(h: Heap, q: int, g: Granularity, shrinks: bool): (h': Heap)
    requires q in h.used
    ensures h'.used == h.used - {q}
  {
    var d := Disposed(h, q);
    if d.top != h.top && d.topsize > d.trim then Trimmed(d, 0, g, shrinks) else d
  }

  /** The free chunk that ends where q begins, or else q itself. */
  ghost function FreeBefore(free: map<int, nat>, q: int): (p: int)
    ensures p <= q
  {
    if exists p :: p in free && p + free[p] == q then var p :| p in free && p + free[p] == q; p else q
  }

  lemma {:induction false} FreeBeforeUsed(t: Tags, q: int)
    requires Tiled(t) && q in t.used
    ensures FreeBefore(t.free, q) == if q in t.head && !t.head[q].pinuse && q in t.foot then q - t.foot[q] else q
  {
    A.UsedFacts(t, q);
    var b := FreeBefore(t.free, q);
    if b in t.free && b + t.free[b] == q { A.FreeFacts(t, b); }
    if !t.head[q].pinuse {
      var p := q - t.foot[q];
      A.FreeFacts(t, p);
      A.FreeFacts(t, b);
      assert ApartAt(t, p, b) && ApartAt(t, b, p);
    }
  }

  lemma {:induction false} DvBefore(t: Tags, w: Places, q: int)
    requires Tiled(t) && Placed(t.free, w) && q in t.used
    ensures w.dv != 0 && w.dv + w.dvsize == q <==> w.dv == FreeBefore(t.free, q)
    ensures w.dv != 0 ==> w.dv > 0
  {
    A.UsedFacts(t, q);
    var b := FreeBefore(t.free, q);
    if w.dv != 0 { A.FreeFacts(t, w.dv); }
    if b in t.free && b + t.free[b] == q {
      A.FreeFacts(t, b);
      if w.dv != 0 && w.dv + w.dvsize == q { assert ApartAt(t, w.dv, b) && ApartAt(t, b, w.dv); }
    }
  }

  /** dv behind a chunk to be enlarged makes room if the two are large enough. */
  lemma {:induction false} DvBehind(t: Tags, h: Heap, w: Places, p: int, nb: nat)
    requires Tiled(t) && Placed(t.free, w) && p in t.used && w.dv == p + t.used[p] != 0
    requires h.free == t.free && h.used == t.used && h.top == t.top && h.dv == w.dv
    requires t.used[p] < nb <= t.used[p] + w.dvsize
    ensures Room(t, p, nb)
    ensures ResizedHeap(h, p, nb).dv == if t.used[p] + w.dvsize >= nb + MIN_CHUNK_SIZE then p + nb else 0
  {
    A.FreeFacts(t, w.dv);
    GrownBehind(h, p, nb);
  }

  /** The chunks in gone become one free chunk. */
  ghost function Joined(h: Heap, gone: set<int>, p: int, size: nat): Heap {
    h.(free := (h.free - gone)[p := size], used := h.used - gone)
  }

  /** The chunk in use at q is freed. It joins the free chunk before it and top or the free chunk behind it,
      and dv stays where it is or moves to the front of the joined chunk. */
  ghost function Disposed(h: Heap, q: int): (h': Heap)
    requires q in h.used
    ensures h'.used == h.used - {q} && h'.segs == h.segs && h'.trim == h.trim
  {
    var p, n := FreeBefore(h.free, q), q + h.used[q];
    var g := h.(free := h.free - {p}, used := h.used - {q});
    if n == h.top then g.(top := p, topsize := h.topsize + (n - p), dv := if h.dv == p then 0 else h.dv)
    else if n in h.free then
      g.(free := (g.free - {n})[p := n + h.free[n] - p], dv := if h.dv == n then p else h.dv)
    else g.(free := g.free[p := n - p])
  }

  /** While the chunk in use at q is freed, with the free chunk at p before it if p is not q:
      kept are the free chunks but for p, unless p is dv. */
  ghost predicate Freeing(free: map<int, nat>, used: map<int, nat>, kept: map<int, nat>, p: int, q: int,
                          gone: set<int>, dv: int)
  {
    && q in used && q !in free && gone == {p, q} && (p == q || (p in free && p !in used))
    && kept == (if p == dv then free else free - {p})
    && (p == dv ==> p in free)
  }

  lemma {:induction false} NextUnused(t: Tags, q: int)
    requires Tiled(t) && q in t.used
    ensures var n := q + t.used[q];
            && n > q && n in t.head
            && (!t.head[n].cinuse ==> n !in t.used && n > 0 && (n == t.top) == (n !in t.free))
  {
    A.UsedFacts(t, q);
    var n := q + t.used[q];
    if !t.head[n].cinuse {
      if n == t.top { A.TopFacts(t); } else { A.FreeFacts(t, n); }
    }
  }

  /** The freed run with the free chunk behind it. */
  lemma {:induction false} RunWithNext(t: Tags, kept: map<int, nat>, p: int, q: int, next: int, nsize: nat,
                                       gone: set<int>, dv: int)
    requires Tiled(t) && Freeing(t.free, t.used, kept, p, q, gone, dv) && next != p
    requires Run(t, p, next, gone) && next in t.free && next in t.head && t.head[next].size == nsize
    ensures Run(t, p, next + nsize, gone + {next}) && next + nsize in t.chunks
    ensures next + nsize in t.head && t.head[next + nsize].cinuse && !t.head[next + nsize].pinuse
    ensures (p in kept ==> p == dv) && (p == dv ==> dv in kept) && next in kept && kept[next] == nsize
    ensures t.free - (gone + {next}) == kept - {next} - {p} && (p != dv ==> kept - {next} - {p} == kept - {next})
  {
    A.FreeFacts(t, next);
    Freed(t.free, t.used, kept, p, q, next, gone, dv);
    RunJoin(t, p, next, next + nsize, gone, {next});
  }

  lemma {:induction false} DisposedForward(h: Heap, kept: map<int, nat>, p: int, q: int, next: int, gone: set<int>)
    requires Freeing(h.free, h.used, kept, p, q, gone, h.dv) && p == FreeBefore(h.free, q)
    requires next == q + h.used[q] && next !in h.used && next != p
    ensures next == h.top && next !in h.free ==>
              Disposed(h, q) == h.(free := h.free - (gone + {next}), used := h.used - (gone + {next}), top := p,
                                   topsize := h.topsize + (next - p), dv := if h.dv == p then 0 else h.dv)
    ensures next != h.top && next in h.free ==>
              Disposed(h, q) == Joined(h, gone + {next}, p, next + h.free[next] - p)
                                .(dv := if h.dv == next then p else h.dv)
  {
    Freed(h.free, h.used, kept, p, q, next, gone, h.dv);
  }

  lemma {:induction false} DisposedAlone(h: Heap, kept: map<int, nat>, p: int, q: int, next: int, gone: set<int>)
    requires Freeing(h.free, h.used, kept, p, q, gone, h.dv) && p == FreeBefore(h.free, q)
    requires next == q + h.used[q] && next != h.top && next !in h.free
    ensures Disposed(h, q) == Joined(h, gone, p, next - p)
  {
    FreedAlone(h.free, h.used, kept, p, q, gone, h.dv);
  }

  /** What is left of the size maps when the run with the chunk behind it is freed. */
  lemma {:induction false} Freed(free: map<int, nat>, used: map<int, nat>, kept: map<int, nat>, p: int, q: int,
                                 next: int, gone: set<int>, dv: int)
    requires Freeing(free, used, kept, p, q, gone, dv) && next !in used && next != p
    ensures used - (gone + {next}) == used - {q}
    ensures free - (gone + {next}) == free - {p} - {next} && (next !in free ==> free - {p} - {next} == free - {p})
    ensures free - (gone + {next}) == kept - {next} - {p}
    ensures (p in kept ==> p == dv) && (p == dv ==> p in kept)
            && (next in free ==> next in kept && kept[next] == free[next])
    ensures next !in free ==> next !in kept
    ensures p != dv ==> kept - {next} - {p} == kept - {next}
    ensures next !in free ==> kept - {next} - {p} == kept - {p} && (p != dv ==> kept - {p} == kept)
  {
  }

  lemma {:induction false} FreedAlone(free: map<int, nat>, used: map<int, nat>, kept: map<int, nat>, p: int, q: int,
                                      gone: set<int>, dv: int)
    requires Freeing(free, used, kept, p, q, gone, dv)
    ensures used - gone == used - {q}
    ensures free - gone == kept - {p} == free - {p}
    ensures p == dv ==> p in kept
    ensures p != dv ==> p !in kept && kept - {p} == kept
  {
  }
}
