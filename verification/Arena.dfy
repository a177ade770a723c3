/** The arena: header words in memory, the top chunk and the list of segments, and the macros that
    write header words. Each macro sequence is proved to keep the header invariant. */
module Arena {
  import opened Bits
  import opened Tags
  import opened Segments

  const DEFAULT_TRIM_THRESHOLD: nat := 0x20_0000

  class Arena {
    var head: map<int, Head>
    var foot: map<int, nat>
    var top: int
    var topsize: nat
    var trimCheck: nat
    var segs: seq<Segment>
    ghost var chunks: set<int>
    ghost var ends: set<int>
    ghost var records: set<int>
    ghost var free: map<int, nat>
    ghost var used: map<int, nat>

    ghost function View(): Tags
      reads this
    {
      Tags(head, foot, top, segs, chunks, ends, records, free, used)
    }

    ghost predicate Valid()
      reads this
    {
      Tiled(View()) && TopSize(View(), topsize)
    }

    constructor ()
      ensures Valid() && top == 0 && topsize == 0 && trimCheck == 0
      ensures free == map[] && used == map[] && segs == []
    {
      head, foot, top, topsize, segs, trimCheck := map[], map[], 0, 0, [], 0;
      chunks, ends, records, free, used := {}, {}, {}, map[], map[];
    }

    /** set_inuse_and_pinuse and set_inuse: the run from p becomes one chunk in use. */
    method SetInuse(p: int, s: nat, ghost gone: set<int>)
      requires Valid() && Run(View(), p, p + s, gone) && p + s in chunks
      modifies this`head, this`chunks, this`free, this`used
      ensures Valid()
      ensures free == old(free) - gone && used == (old(used) - gone)[p := s]
    {
      ghost var t := View();
      RunBounds(t, p, p + s, gone);
      head := Inuse(head, p, s);
      chunks, free, used := chunks - gone + {p}, free - gone, (used - gone)[p := s];
      CutOne(t, View(), p, p + s, gone, true, topsize);
    }

    /** set_free_with_pinuse: the run from p, before a chunk in use, becomes one free chunk. */
    method SetFreeWithPinuse(p: int, s: nat, n: int, ghost gone: set<int>)
      requires Valid() && Run(View(), p, n, gone) && n == p + s && n in chunks
      requires p in head && head[p].pinuse && n in head && head[n].cinuse
      modifies this`head, this`foot, this`chunks, this`free, this`used
      ensures Valid()
      ensures free == (old(free) - gone)[p := s] && used == old(used) - gone
    {
      ghost var t := View();
      RunBounds(t, p, n, gone);
      head := FreeWords(head, p, s, n);
      foot := foot[n := s];
      chunks, free, used := chunks - gone + {p}, (free - gone)[p := s], used - gone;
      CutOne(t, View(), p, n, gone, false, topsize);
    }

    /** set_size_and_pinuse_of_free_chunk. */
    method SetSizeAndPinuseOfFreeChunk(p: int, s: nat)
      modifies this`head, this`foot
      ensures head == old(head)[p := Head(s, false, true)] && foot == old(foot)[p + s := s]
    {
      head := head[p := Head(s, false, true)];
      foot := foot[p + s := s];
    }

    /** set_size_and_pinuse_of_free_chunk where the last of the run is already known to be free. */
    method SetFree(p: int, s: nat, ghost gone: set<int>)
      requires Valid() && Run(View(), p, p + s, gone) && p + s in chunks
      requires p in head && head[p].pinuse && p + s in head && head[p + s].cinuse && !head[p + s].pinuse
      modifies this`head, this`foot, this`chunks, this`free, this`used
      ensures Valid()
      ensures free == (old(free) - gone)[p := s] && used == old(used) - gone
    {
      ghost var t := View();
      RunBounds(t, p, p + s, gone);
      SetSizeAndPinuseOfFreeChunk(p, s);
      chunks, free, used := chunks - gone + {p}, (free - gone)[p := s], used - gone;
      CutOne(t, View(), p, p + s, gone, false, topsize);
    }

    /** A free chunk gives its front to a request: set_size_and_pinuse_of_inuse_chunk for the front,
        set_size_and_pinuse_of_free_chunk for the rest. */
    method SplitFree(p: int, nb: nat, rsize: nat)
      requires Valid() && p in free && free[p] == nb + rsize
      requires nb >= MIN_CHUNK_SIZE && rsize >= MIN_CHUNK_SIZE && nb % 8 == 0
      modifies this`head, this`foot, this`chunks, this`free, this`used
      ensures Valid()
      ensures free == (old(free) - {p})[p + nb := rsize] && used == old(used)[p := nb]
    {
      ghost var t := View();
      ghost var t' := SplitFreed(t, p, nb, rsize);
      SplitFreedTiled(t, p, nb, rsize, topsize);
      head := head[p := Head(nb, true, true)];
      SetSizeAndPinuseOfFreeChunk(p + nb, rsize);
      chunks, free, used := chunks - {p} + {p, p + nb}, (free - {p})[p + nb := rsize], used[p := nb];
      assert View() == t';
    }

    /** The two calls of set_inuse that cut a run into two chunks in use. */
    method SplitInuse(p: int, nb: nat, rsize: nat, ghost gone: set<int>)
      requires Valid() && Run(View(), p, p + nb + rsize, gone) && p + nb + rsize in chunks
      requires nb >= MIN_CHUNK_SIZE && rsize >= MIN_CHUNK_SIZE && nb % 8 == 0
      modifies this`head, this`chunks, this`free, this`used
      ensures Valid()
      ensures free == old(free) - gone && used == (old(used) - gone)[p := nb][p + nb := rsize]
    {
      ghost var t := View();
      var r, e := p + nb, p + nb + rsize;
      RunBounds(t, p, e, gone);
      head := Inuse(head, p, nb);
      head := Inuse(head, r, rsize);
      chunks, free, used := chunks - gone + {p, r}, free - gone, (used - gone)[p := nb][r := rsize];
      AlignedSum(p, nb);
      CutTwo(t, View(), p, r, e, gone, true, topsize);
    }

    /** The two calls of set_inuse that cut leading space off, in the order of internal_memalign. */
    method SplitLeader(p: int, lead: nat, newsize: nat)
      requires Valid() && p in used && used[p] == lead + newsize
      requires lead >= MIN_CHUNK_SIZE && newsize >= MIN_CHUNK_SIZE && lead % 8 == 0
      modifies this`head, this`chunks, this`free, this`used
      ensures Valid()
      ensures free == old(free) && used == old(used)[p := lead][p + lead := newsize]
    {
      ghost var t := View();
      UsedFacts(t, p);
      var q, e := p + lead, p + lead + newsize;
      RunBounds(t, p, e, {p});
      head := Inuse(head, q, newsize);
      head := Inuse(head, p, lead);
      chunks, free, used := chunks - {p} + {p, q}, free - {p}, (used - {p})[p := lead][q := newsize];
      Absent(t.free, p);
      Updated(t.used, p, lead);
      AlignedSum(p, lead);
      CutTwo(t, View(), p, q, e, {p}, true, topsize);
    }

    /** A chunk in use grows over a free neighbour, of which the rest stays free: set_inuse for the front,
        set_size_and_pinuse_of_free_chunk and clear_pinuse for the rest. */
    method GrowInto(p: int, nb: nat, dsize: nat, ghost gone: set<int>)
      requires Valid() && Run(View(), p, p + nb + dsize, gone) && p + nb + dsize in chunks
      requires nb >= MIN_CHUNK_SIZE && dsize >= MIN_CHUNK_SIZE && nb % 8 == 0
      requires p + nb + dsize in head && head[p + nb + dsize].cinuse
      modifies this`head, this`foot, this`chunks, this`free, this`used
      ensures Valid()
      ensures free == (old(free) - gone)[p + nb := dsize] && used == (old(used) - gone)[p := nb]
    {
      ghost var t := View();
      var r, n := p + nb, p + nb + dsize;
      GrewInto(t, p, r, n, gone, topsize);
      ghost var t' := GrownInto(t, p, r, n, gone);
      head := Inuse(head, p, nb);
      head := head[r := Head(dsize, false, true)];
      foot := foot[n := dsize];
      head := head[n := head[n].(pinuse := false)];
      chunks, free, used := chunks - gone + {p, r}, (free - gone)[r := dsize], (used - gone)[p := nb];
      assert View() == t';
    }

    /** A chunk in use grows into top. */
    method GrowIntoTop(p: int, nb: nat, newtopsize: nat, ghost gone: set<int>)
      requires Valid() && Run(View(), p, p + nb + newtopsize, gone) && top in gone
      requires nb >= MIN_CHUNK_SIZE && newtopsize > 0 && nb % 8 == 0
      modifies this`head, this`top, this`topsize, this`chunks, this`free, this`used
      ensures Valid() && top == p + nb && topsize == newtopsize
      ensures free == old(free) - gone && used == (old(used) - gone)[p := nb]
    {
      ghost var t := View();
      var newtop := p + nb;
      RunBounds(t, p, newtop + newtopsize, gone);
      head := Inuse(head, p, nb);
      head := head[newtop := Head(newtopsize, false, true)];
      top := newtop;
      topsize := newtopsize;
      chunks, free, used := chunks - gone + {p, newtop}, free - gone, (used - gone)[p := nb];
      AlignedSum(p, nb);
      CutUseThenTop(t, View(), p, newtop, newtop + newtopsize, gone);
    }

    /** Top gives its front to a request. */
    method SplitTop(nb: nat) returns (p: int)
      requires Valid() && top != 0 && nb < topsize && nb >= MIN_CHUNK_SIZE && nb % 8 == 0
      modifies this`head, this`top, this`topsize, this`chunks, this`used
      ensures Valid() && p == old(top) && top == p + nb && topsize == old(topsize) - nb
      ensures p > 0 && p !in old(used)
      ensures free == old(free) && used == old(used)[p := nb]
    {
      ghost var t := View();
      TopFacts(t);
      ghost var e := top + topsize;
      RunBounds(t, top, e, {top});
      topsize := topsize - nb;
      p := top;
      var r := p + nb;
      top := r;
      head := head[r := Head(topsize, false, true)];
      head := head[p := Head(nb, true, true)];
      chunks, used := chunks - {p} + {p, r}, (used - {p})[p := nb];
      AlignedSum(p, nb);
      Absent(t.free, p);
      Absent(t.used, p);
      CutUseThenTop(t, View(), p, r, e, {p});
    }

    /** A freed run before top joins it. */
    method JoinTop(p: int, psize: nat, ghost gone: set<int>)
      requires Valid() && Run(View(), p, p + psize + topsize, gone) && top in gone
      requires p in head && head[p].pinuse
      modifies this`head, this`top, this`topsize, this`chunks, this`free, this`used
      ensures Valid() && top == p && topsize == old(topsize) + psize
      ensures free == old(free) - gone && used == old(used) - gone
    {
      ghost var t := View();
      RunBounds(t, p, p + psize + topsize, gone);
      topsize := topsize + psize;
      top := p;
      head := head[p := Head(topsize, false, true)];
      chunks, free, used := chunks - gone + {p}, free - gone, used - gone;
      CutNewTop(t, View(), p, p + topsize, gone);
    }

    // ----- memory from the system -----

    /** segment_holding; top always lies in the first segment. */
    method SegmentHolding(addr: int) returns (i: nat)
      requires exists j :: 0 <= j < |segs| && segs[j].base <= addr < End(segs[j])
      ensures i < |segs| && segs[i].base <= addr < End(segs[i])
    {
      i := 0;
      while !(segs[i].base <= addr < End(segs[i]))
        invariant i < |segs|
        invariant forall j :: 0 <= j < i ==> !(segs[j].base <= addr < End(segs[j]))
        decreases |segs| - i
      {
        i := i + 1;
      }
    }

    /** init_top. */
    method InitTop(p: nat, psize: nat)
      requires AlignOffset(p + 8) < psize
      modifies this`top, this`topsize, this`head, this`trimCheck
      ensures trimCheck == DEFAULT_TRIM_THRESHOLD
      ensures top == AlignUp(p) && topsize == psize - (AlignUp(p) - p)
      ensures head == old(head)[top := Head(topsize, false, true)][top + topsize := TopFoot()]
    {
      AlignByOffset(p);
      var offset := AlignOffset(p + 8);
      top := p + offset;
      topsize := psize - offset;
      head := head[top := Head(topsize, false, true)];
      head := head[top + topsize := Head(TOP_FOOT_SIZE, false, false)];
      trimCheck := DEFAULT_TRIM_THRESHOLD;
    }

    /** The first region becomes the first segment. */
    method AddFirst(tbase: nat, tsize: nat)
      requires Valid() && top == 0 && Fresh(segs, tbase, tsize)
      modifies this`head, this`top, this`topsize, this`trimCheck, this`segs, this`chunks, this`ends
      ensures Valid() && top == AlignUp(tbase) && trimCheck == DEFAULT_TRIM_THRESHOLD
      ensures segs == [Segment(tbase, tsize)]
      ensures topsize + TOP_FOOT_SIZE + AlignUp(tbase) == tbase + tsize
      ensures free == old(free) && used == old(used)
    {
      ghost var t := View();
      AlignByOffset(tbase);
      FirstTiled(t, tbase, tsize);
      segs := [Segment(tbase, tsize)];
      InitTop(tbase, tsize - TOP_FOOT_SIZE);
      chunks, ends := {top}, {top + topsize};
      assert View() == FirstSegment(t, tbase, tsize);
    }

    /** The region behind top's segment joins top. */
    method Append(tsize: nat)
      requires Valid() && Movable(View(), tsize)
      modifies this`head, this`top, this`topsize, this`trimCheck, this`segs, this`ends
      ensures Valid() && top == old(top) && topsize == old(topsize) + tsize
      ensures free == old(free) && used == old(used) && trimCheck == DEFAULT_TRIM_THRESHOLD
      ensures old(segs) != [] && segs == old(segs)[0 := old(segs)[0].(size := old(segs)[0].size + tsize)]
    {
      ghost var t := View();
      MoveTiled(t, tsize);
      TopAligned(t);
      segs := segs[0 := segs[0].(size := segs[0].size + tsize)];
      InitTop(top, topsize + tsize);
      ends := ends - {t.top + t.head[t.top].size} + {top + topsize};
      assert View() == MoveEnd(t, tsize);
    }

    /** Top gives released bytes at its end back to the system. */
    method GiveBack(released: nat)
      requires Valid() && top != 0 && released < topsize && released % 8 == 0
      modifies this`head, this`top, this`topsize, this`trimCheck, this`segs, this`ends
      ensures Valid() && top == old(top) && topsize == old(topsize) - released
      ensures free == old(free) && used == old(used) && trimCheck == DEFAULT_TRIM_THRESHOLD
      ensures old(segs) != [] && released <= old(segs)[0].size
      ensures segs == old(segs)[0 := old(segs)[0].(size := old(segs)[0].size - released)]
    {
      ghost var t := View();
      TopAligned(t);
      assert SegmentOk(t, t.segs[0]);
      AlignedNeg(released);
      MoveTiled(t, 0 - released);
      segs := segs[0 := segs[0].(size := segs[0].size - released)];
      InitTop(top, topsize - released);
      ends := ends - {t.top + t.head[t.top].size} + {top + topsize};
      assert View() == MoveEnd(t, 0 - released);
    }

    /** The place of the segment record in top's segment, and the end of that segment. */
    method PlaceRecord() returns (csp: int, oldEnd: int)
      requires Valid() && top != 0
      ensures csp == RecordAt(top, topsize) && segs != [] && oldEnd == End(segs[0])
    {
      OldTop(View(), topsize);
      var i := SegmentHolding(top);
      SameSegment(segs, 0, i, top);
      oldEnd := End(segs[i]);
      var rawsp := oldEnd - (RECORD_SIZE + 16 + 7);
      RecordPlace(top, topsize, oldEnd);
      var asp := rawsp + AlignOffset(rawsp + 8);
      csp := if asp < top + MIN_CHUNK_SIZE then top else asp;
    }

    /** The header words of the new top, the segment record and the fenceposts. */
    method FenceOff(tbase: nat, tsize: nat, csp: int, oldEnd: int)
      requires AlignUp(tbase) + TOP_FOOT_SIZE < tbase + tsize && csp + RECORD_SIZE + 8 < oldEnd
      modifies this`head, this`top, this`topsize, this`segs, this`trimCheck
      ensures trimCheck == DEFAULT_TRIM_THRESHOLD
      ensures top == AlignUp(tbase) && top + topsize + TOP_FOOT_SIZE == tbase + tsize
      ensures segs == [Segment(tbase, tsize)] + old(segs)
      ensures Fenced(old(head), head, top, topsize, csp, oldEnd) && csp in head
    {
      AlignByOffset(tbase);
      InitTop(tbase, tsize - TOP_FOOT_SIZE);
      head := head[csp := Head(RECORD_SIZE, true, true)];
      segs := [Segment(tbase, tsize)] + segs;
      var fence := csp + RECORD_SIZE;
      ghost var h := head;
      InsertFenceposts(fence, oldEnd);
      assert Fencepost(fence, oldEnd, fence) && !Fencepost(fence, oldEnd, csp);
      forall q | q in h && !(fence <= q < oldEnd) ensures q in head && head[q] == h[q] {
        assert !Fencepost(fence, oldEnd, q);
      }
    }

    /** What is left of old top becomes an ordinary free chunk. */
    method RetireTop(oldTop: int, csp: int, tbase: nat, tsize: nat, ghost t: Tags, ghost ts: nat)
      returns (q: int, psize: nat)
      requires t.segs != [] && t.top in t.head && t.top > 0
      requires oldTop == t.top && csp == RecordAt(t.top, ts) && AlignUp(tbase) + TOP_FOOT_SIZE < tbase + tsize
      requires View() == t.(head := head, top := AlignUp(tbase), segs := [Segment(tbase, tsize)] + t.segs)
      requires Fenced(t.head, head, AlignUp(tbase), tbase + tsize - TOP_FOOT_SIZE - AlignUp(tbase), csp, End(t.segs[0]))
      requires csp in head
      modifies this`head, this`foot, this`free, this`chunks, this`records, this`ends
      ensures Binned(t, View(), tbase, tsize, ts, old(head))
      ensures (q == 0 ==> ts < MIN_CHUNK_SIZE) && (q != 0 ==> q == oldTop && psize == ts >= MIN_CHUNK_SIZE)
    {
      q, psize := 0, 0;
      if csp != oldTop {
        q, psize := oldTop, csp - oldTop;
        head := FreeWords(head, q, psize, csp);
        foot := foot[q + psize := psize];
        free := free[q := psize];
      }
      chunks, records := chunks + {csp, top}, records + {csp};
      ends := ends - {t.top + ts} + {csp + RECORD_SIZE, tbase + tsize - TOP_FOOT_SIZE};
    }

    /** add_segment, up to binning what is left of old top: that chunk, or a null pointer. */
    method AddSegment(tbase: nat, tsize: nat) returns (q: int, psize: nat)
      requires Valid() && top != 0 && Fresh(segs, tbase, tsize)
      modifies this`head, this`foot, this`top, this`topsize, this`trimCheck, this`segs
      modifies this`chunks, this`ends, this`records, this`free
      ensures Valid() && top == AlignUp(tbase) && top + topsize + TOP_FOOT_SIZE == tbase + tsize
      ensures segs == [Segment(tbase, tsize)] + old(segs) && used == old(used) && trimCheck == DEFAULT_TRIM_THRESHOLD
      ensures q == 0 ==> old(topsize) < MIN_CHUNK_SIZE && free == old(free)
      ensures q != 0 ==> q == old(top) && psize == old(topsize) >= MIN_CHUNK_SIZE && q !in old(free)
                         && free == old(free)[q := psize]
    {
      ghost var t := View();
      ghost var ts := topsize;
      OldTop(t, ts);
      var oldTop := top;
      var csp, oldEnd := PlaceRecord();
      FenceOff(tbase, tsize, csp, oldEnd);
      ghost var h := head;
      q, psize := RetireTop(oldTop, csp, tbase, tsize, t, ts);
      AddedBy(t, View(), tbase, tsize, ts, h);
    }

    /** The loop that writes a fencepost into every word up to the end of a segment, and nothing else. */
    method InsertFenceposts(tnext: int, oldEnd: int)
      requires tnext + 8 < oldEnd
      modifies this`head
      ensures forall q {:trigger Fencepost(tnext, oldEnd, q)} :: Fencepost(tnext, oldEnd, q) ==>
                q in head && head[q] == Head(4, true, true)
      ensures forall q {:trigger Fencepost(tnext, oldEnd, q)} :: !Fencepost(tnext, oldEnd, q) ==>
                (q in head <==> q in old(head)) && (q in head ==> head[q] == old(head)[q])
    {
      var p := tnext;
      while true
        invariant Fencepost(tnext, oldEnd, p)
        invariant forall q {:trigger Fencepost(tnext, oldEnd, q)} :: Fencepost(tnext, oldEnd, q) && q < p ==>
                    q in head && head[q] == Head(4, true, true)
        invariant forall q {:trigger Fencepost(tnext, oldEnd, q)} :: !Fencepost(tnext, oldEnd, q) ==>
                    (q in head <==> q in old(head)) && (q in head ==> head[q] == old(head)[q])
        decreases oldEnd - p
      {
        var nextp := p + 4;
        head := head[p := Head(4, true, true)];
        forall q | Fencepost(tnext, oldEnd, q) && q < nextp ensures q in head && head[q] == Head(4, true, true) {
          assert q == p || q < p by { NoneBetween(q, p, tnext); }
        }
        if nextp + 4 < oldEnd {
          p := nextp;
        } else {
          break;
        }
      }
    }

    /** prepend_alloc where the remainder ends before a chunk in use, after unlinking what it swallows. */
    method PrependFree(i: nat, tbase: nat, nb: nat, n: int, qsize: nat, ghost gone: set<int>)
      requires Valid() && Prependable(View(), i, tbase) && tbase < segs[i].base
      requires if gone == {} then n == AlignUp(segs[i].base) else Run(View(), AlignUp(segs[i].base), n, gone)
      requires nb >= MIN_CHUNK_SIZE && nb % 8 == 0 && qsize >= MIN_CHUNK_SIZE && AlignUp(tbase) + nb + qsize == n
      requires n in chunks && n in head && head[n].cinuse && gone !! used.Keys
      modifies this`head, this`foot, this`segs, this`chunks, this`free, this`used
      ensures Valid()
      ensures segs == old(segs)[i := Segment(tbase, End(old(segs)[i]) - tbase)]
      ensures AlignUp(tbase) > 0 && AlignUp(tbase) !in old(used) && used == old(used)[AlignUp(tbase) := nb]
      ensures free == (old(free) - gone)[AlignUp(tbase) + nb := qsize]
    {
      ghost var t := View();
      ghost var t' := PrependedFree(t, i, tbase, nb, n, gone);
      PrependedFreeTiled(t, i, tbase, nb, n, gone, topsize);
      var p := AlignUp(tbase);
      var q := p + nb;
      segs := segs[i := Segment(tbase, End(segs[i]) - tbase)];
      head := head[p := Head(nb, true, true)];
      head := FreeWords(head, q, qsize, n);
      foot := foot[n := qsize];
      chunks, free, used := chunks - gone + {p, q}, (free - gone)[q := qsize], used[p := nb];
      assert View() == t';
    }

    /** prepend_alloc where the segment's first chunk is top. */
    method PrependToTop(i: nat, tbase: nat, nb: nat)
      requires Valid() && Prependable(View(), i, tbase) && tbase < segs[i].base
      requires top != 0 && top == AlignUp(segs[i].base)
      requires nb >= MIN_CHUNK_SIZE && nb % 8 == 0 && AlignUp(tbase) + nb < top
      modifies this`head, this`top, this`topsize, this`segs, this`chunks, this`used
      ensures Valid() && top == AlignUp(tbase) + nb && topsize == old(topsize) + old(top) - top
      ensures segs == old(segs)[i := Segment(tbase, End(old(segs)[i]) - tbase)]
      ensures AlignUp(tbase) > 0 && AlignUp(tbase) !in old(used) && used == old(used)[AlignUp(tbase) := nb]
      ensures free == old(free)
    {
      ghost var t := View();
      ghost var e := top + topsize;
      var p := AlignUp(tbase);
      var q := p + nb;
      segs := segs[i := Segment(tbase, End(segs[i]) - tbase)];
      head := head[p := Head(nb, true, true)];
      topsize := topsize + (top - q);
      top := q;
      head := head[q := Head(topsize, false, true)];
      chunks, used := chunks - {t.top} + {p, q}, used[p := nb];
      assert View() == PrependedTop(t, i, tbase, nb, e);
      PrependedTopTiled(t, i, tbase, nb, e);
    }
  }

  /** A word behind tnext that ends before the end of the segment. */
  ghost predicate Fencepost(tnext: int, oldEnd: int, q: int) {
    tnext <= q && (q - tnext) % 4 == 0 && q + 4 < oldEnd
  }

  lemma NoneBetween(q: int, p: int, tnext: int)
    requires (q - tnext) % 4 == 0 && (p - tnext) % 4 == 0 && q < p + 4
    ensures q <= p
  {
  }

  lemma AlignedNeg(a: int)
    requires a % 8 == 0
    ensures (0 - a) % 8 == 0
  {
  }

  lemma {:induction false} TopAligned(t: Tags)
    requires Tiled(t) && t.top != 0
    ensures t.top > 0 && t.top % 8 == 0 && AlignUp(t.top) == t.top && AlignOffset(t.top + 8) == 0
    ensures t.top in t.head && t.segs != [] && t.segs[0].base <= t.top
    ensures t.top + t.head[t.top].size + TOP_FOOT_SIZE == End(t.segs[0])
  {
    assert LocalOk(t, t.top);
  }

  /** Where add_segment computes the segment record to be. */
  lemma {:induction false} RecordPlace(top: int, topsize: nat, end: int)
    requires top > 0 && top % 8 == 0 && topsize % 8 == 0 && top + topsize + TOP_FOOT_SIZE == end && topsize > 0
    ensures var rawsp := end - (RECORD_SIZE + 16 + 7);
            && rawsp >= 0 && rawsp + AlignOffset(rawsp + 8) == top + topsize
            && RecordAt(top, topsize) == if top + topsize < top + MIN_CHUNK_SIZE then top else top + topsize
  {
  }

  /** A header word that may never have been written. */
  function StaleHead(head: map<int, Head>, p: int): Head {
    if p in head then head[p] else Head(0, false, false)
  }

  /** set_inuse: the chunk's own pinuse bit stays, the next word's is set. */
  function Inuse(head: map<int, Head>, p: int, s: nat): map<int, Head> {
    var h := head[p := Head(s, true, StaleHead(head, p).pinuse)];
    h[p + s := StaleHead(h, p + s).(pinuse := true)]
  }

  ghost function GrownInto(t: Tags, p: int, r: int, n: int, gone: set<int>): Tags
    requires p < r < n && n in t.head
  {
    var h := Inuse(t.head, p, r - p)[r := Head(n - r, false, true)];
    t.(head := h[n := h[n].(pinuse := false)], foot := t.foot[n := n - r], chunks := t.chunks - gone + {p, r},
       free := (t.free - gone)[r := n - r], used := (t.used - gone)[p := r - p])
  }

  lemma {:induction false} GrewInto(t: Tags, p: int, r: int, n: int, gone: set<int>, topsize: nat)
    requires Tiled(t) && TopSize(t, topsize) && Run(t, p, n, gone) && n in t.chunks && n in t.head && t.head[n].cinuse
    requires p + MIN_CHUNK_SIZE <= r <= n - MIN_CHUNK_SIZE && (r - p) % 8 == 0
    ensures Tiled(GrownInto(t, p, r, n, gone)) && TopSize(GrownInto(t, p, r, n, gone), topsize)
  {
    RunBounds(t, p, n, gone);
    AlignedSum(p, r - p);
    CutTwo(t, GrownInto(t, p, r, n, gone), p, r, n, gone, false, topsize);
  }

  lemma Absent(m: map<int, nat>, p: int)
    requires p !in m
    ensures m - {p} == m
  {
  }

  lemma Updated(m: map<int, nat>, p: int, n: nat)
    ensures (m - {p})[p := n] == m[p := n]
  {
  }

  // ----- what header words say about the neighbours of a chunk -----

  lemma {:induction false} FreeFacts(t: Tags, p: int)
    requires Tiled(t) && p in t.free
    ensures p > 0 && p in t.head && p in t.chunks && !t.head[p].cinuse && t.head[p].pinuse
            && t.head[p].size == t.free[p]
    ensures MIN_CHUNK_SIZE <= t.free[p] < WORD && t.free[p] % 8 == 0 && p % 8 == 0 && p != t.top && p !in t.used
    ensures var n := p + t.free[p];
            && n in t.chunks && n in t.head && n != t.top && n !in t.free && t.head[n].cinuse && !t.head[n].pinuse
            && Run(t, p, n, {p})
  {
    assert ListedOk(t, p) && LocalOk(t, p);
    var n := p + t.free[p];
    RunOne(t, p);
    RunBounds(t, p, n, {p});
    assert LocalOk(t, n) && ListedOk(t, n);
  }

  lemma {:induction false} UsedAligned(t: Tags, p: int)
    requires Tiled(t) && p in t.used
    ensures p > 0 && p % 8 == 0
  {
    assert ListedOk(t, p) && LocalOk(t, p);
  }

  /** A free chunk gives its front to a request. */
  ghost function SplitFreed(t: Tags, p: int, nb: nat, rsize: nat): Tags {
    t.(head := t.head[p := Head(nb, true, true)][p + nb := Head(rsize, false, true)],
       foot := t.foot[p + nb + rsize := rsize], chunks := t.chunks - {p} + {p, p + nb},
       free := (t.free - {p})[p + nb := rsize], used := t.used[p := nb])
  }

  lemma {:induction false} SplitFreedTiled(t: Tags, p: int, nb: nat, rsize: nat, topsize: nat)
    requires Tiled(t) && TopSize(t, topsize) && p in t.free && t.free[p] == nb + rsize
    requires nb >= MIN_CHUNK_SIZE && rsize >= MIN_CHUNK_SIZE && nb % 8 == 0
    ensures Tiled(SplitFreed(t, p, nb, rsize)) && TopSize(SplitFreed(t, p, nb, rsize), topsize)
  {
    FreeFacts(t, p);
    RunBounds(t, p, p + nb + rsize, {p});
    AlignedSum(p, nb);
    Absent(t.used, p);
    CutTwo(t, SplitFreed(t, p, nb, rsize), p, p + nb, p + nb + rsize, {p}, false, topsize);
  }

  lemma {:induction false} UsedBelow(t: Tags, p: int)
    requires Tiled(t) && p in t.used
    ensures p + t.used[p] < WORD
  {
    assert ListedOk(t, p) && LocalOk(t, p);
    RunOne(t, p);
    RunBounds(t, p, p + t.used[p], {p});
  }

  lemma {:induction false} UsedFacts(t: Tags, p: int)
    requires Tiled(t) && p in t.used
    ensures p > 0 && p in t.head && p in t.chunks && p !in t.records && t.head[p].cinuse && t.head[p].size == t.used[p]
    ensures MIN_CHUNK_SIZE <= t.used[p] < WORD && t.used[p] % 8 == 0 && p % 8 == 0 && p != t.top && p !in t.free
    ensures var n := p + t.used[p];
            && n in t.chunks && n in t.head && t.head[n].pinuse && Run(t, p, n, {p})
            && (!t.head[n].cinuse ==> n == t.top || n in t.free)
            && (t.head[n].cinuse ==> n != t.top && n !in t.free)
    ensures t.head[p].pinuse || (p in t.foot && p - t.foot[p] in t.free && t.free[p - t.foot[p]] == t.foot[p])
  {
    assert ListedOk(t, p) && LocalOk(t, p);
    var n := p + t.used[p];
    RunOne(t, p);
    RunBounds(t, p, n, {p});
    assert ListedOk(t, n);
    if !t.head[p].pinuse { assert ListedOk(t, p - t.foot[p]); }
  }

  /** No chunk starts inside another one. */
  lemma {:induction false} InsideNothing(t: Tags, p: int, q: int)
    requires Tiled(t) && p in t.chunks && p in t.head && p < q < Next(t, p)
    ensures q !in t.chunks && q !in t.free && q !in t.used
  {
    assert ApartAt(t, p, q) && ListedOk(t, q);
  }

  lemma {:induction false} TopFacts(t: Tags)
    requires Tiled(t) && t.top != 0
    ensures t.top > 0 && t.top in t.chunks && t.top in t.head && t.top !in t.free && t.top !in t.used
    ensures 0 < t.head[t.top].size < WORD && t.head[t.top].pinuse && Run(t, t.top, Next(t, t.top), {t.top})
  {
    assert LocalOk(t, t.top) && ListedOk(t, t.top);
    RunOne(t, t.top);
    RunBounds(t, t.top, Next(t, t.top), {t.top});
  }
}
