/** How the header words change when the system gives or takes memory. */
module Segments {
  import opened Bits
  import opened Tags

  const RECORD_SIZE: nat := 24

  /** A region that the system may hand out: it overlaps no segment and holds more than a trailer. */
  ghost predicate Fresh(segs: seq<Segment>, base: nat, size: nat) {
    && 0 < base && base + size <= WORD && (base + size) % 8 == 0 && AlignUp(base) + TOP_FOOT_SIZE < base + size
    && forall i :: 0 <= i < |segs| ==> End(segs[i]) <= base || base + size <= segs[i].base
  }

  function TopFoot(): Head {
    Head(TOP_FOOT_SIZE, false, false)
  }

  /** What a chunk's own invariant needs from its surroundings is still there. */
  ghost predicate Undisturbed(t: Tags, t': Tags, q: int)
    requires LocalOk(t, q)
  {
    var n := Next(t, q);
    && q in t'.head && t'.head[q] == t.head[q]
    && (q == t.top <==> q == t'.top) && (q in t.records <==> q in t'.records)
    && n in t'.head && t'.head[n].pinuse == t.head[n].pinuse
    && (n in t.chunks ==> n in t'.chunks) && (n !in t.chunks ==> n in t'.ends && n !in t'.chunks)
    && (n in t.foot ==> n in t'.foot && t'.foot[n] == t.foot[n])
    && (q in t.foot ==> q in t'.foot && t'.foot[q] == t.foot[q])
    && (!t.head[q].pinuse ==>
          var r := q - t.foot[q];
          r in t'.chunks && r in t'.head && t'.head[r] == t.head[r] && r != t'.top)
    && (Within(t.segs, q, n) ==> Within(t'.segs, q, n))
  }

  lemma {:induction false} Keep(t: Tags, t': Tags, q: int)
    requires LocalOk(t, q) && Undisturbed(t, t', q)
    ensures LocalOk(t', q)
  {
  }

  // ----- the first segment -----

  ghost function FirstSegment(t: Tags, base: nat, size: nat): Tags
    requires AlignUp(base) + TOP_FOOT_SIZE < base + size
  {
    var b := AlignUp(base);
    var e := base + size - TOP_FOOT_SIZE;
    t.(head := t.head[b := Head(e - b, false, true)][e := TopFoot()], top := b, segs := [Segment(base, size)],
       chunks := {b}, ends := {e})
  }

  lemma {:induction false} FirstTiled(t: Tags, base: nat, size: nat)
    requires Tiled(t) && t.top == 0 && Fresh(t.segs, base, size)
    ensures Tiled(FirstSegment(t, base, size))
    ensures t.free == map[] && t.used == map[]
  {
    var t' := FirstSegment(t, base, size);
    var b := t'.top;
    var e := base + size - TOP_FOOT_SIZE;
    AlignLeast(base, b);
    AlignedDiff(e, b);
    assert t'.segs[0] == Segment(base, size);
    assert Within(t'.segs, b, e) && Trailing(t'.segs, e);
    assert LocalOk(t', b);
    forall p ensures ListedOk(t', p) { assert ListedOk(t, p); }
    forall p ensures p !in t.free && p !in t.used { assert ListedOk(t, p); }
    assert t.free.Keys == {} && t.used.Keys == {};
    assert SegmentOk(t', t'.segs[0]);
  }

  // ----- top grows or shrinks at its end -----

  /** The end of top's segment moves by delta. */
  ghost function MoveEnd(t: Tags, delta: int): Tags
    requires t.segs != [] && t.top in t.head && t.head[t.top].size + delta > 0
    requires t.segs[0].size + delta >= 0
  {
    var e := Next(t, t.top);
    t.(head := t.head[t.top := Head(t.head[t.top].size + delta, false, true)][e + delta := TopFoot()],
       segs := t.segs[0 := Segment(t.segs[0].base, t.segs[0].size + delta)],
       ends := t.ends - {e} + {e + delta})
  }

  /** The end of the first segment may move by delta. */
  ghost predicate Movable(t: Tags, delta: int) {
    && t.top != 0 && t.segs != [] && t.top in t.head && t.head[t.top].size + delta > 0 && delta % 8 == 0
    && t.segs[0].size + delta >= 0
    && End(t.segs[0]) + delta <= WORD
    && (delta > 0 ==> forall i :: 0 < i < |t.segs| ==>
          End(t.segs[i]) <= t.segs[0].base || End(t.segs[0]) + delta <= t.segs[i].base)
  }

  /** Where other chunks and ends lie with respect to top. */
  lemma {:induction false} BesideTop(t: Tags, n: int)
    requires Tiled(t) && t.top != 0 && (n in t.chunks || n in t.ends)
    ensures t.top in t.head && (n <= t.top || n == Next(t, t.top) || n >= End(t.segs[0]))
    ensures t.top + t.head[t.top].size + TOP_FOOT_SIZE == End(t.segs[0]) && t.segs[0].base <= t.top
  {
    assert ApartAt(t, t.top, n) && BelowTopEnd(t, n);
  }

  lemma {:induction false} Located(t: Tags, n: int) returns (i: nat)
    requires Tiled(t) && (n in t.chunks || n in t.ends)
    ensures i < |t.segs| && t.segs[i].base <= n < End(t.segs[i])
  {
    if n in t.chunks {
      assert LocalOk(t, n);
      i :| 0 <= i < |t.segs| && t.segs[i].base <= n && Next(t, n) < End(t.segs[i]);
    } else {
      i :| 0 <= i < |t.segs| && t.segs[i].base <= n && n < End(t.segs[i]) <= n + TOP_FOOT_SIZE;
    }
  }

  /** Other chunks and ends are clear of where the end moves. */
  lemma {:induction false} MovedAway(t: Tags, delta: int, n: int)
    requires Tiled(t) && Movable(t, delta) && (n in t.chunks || n in t.ends) && n != Next(t, t.top)
    ensures n != Next(t, t.top) + delta && !(Next(t, t.top) + delta < n < End(t.segs[0]) + delta)
    ensures !(End(t.segs[0]) <= n < End(t.segs[0]) + delta)
  {
    BesideTop(t, n);
    var i := Located(t, n);
  }

  lemma {:induction false} NotTopEnd(t: Tags, q: int)
    requires Tiled(t) && t.top != 0 && q in t.chunks && q != t.top
    ensures q in t.head && t.top in t.head && Next(t, q) != Next(t, t.top) && q != Next(t, t.top)
    ensures Next(t, q) in t.chunks || Next(t, q) in t.ends
    ensures Within(t.segs, q, Next(t, q)) && q < Next(t, q)
    ensures q < t.top ==> Next(t, q) <= t.top
  {
    assert LocalOk(t, q) && ApartAt(t, q, t.top) && ApartAt(t, t.top, q);
  }

  lemma {:induction false} MovedWithin(t: Tags, delta: int, q: int)
    requires Tiled(t) && Movable(t, delta) && q in t.chunks && q != t.top
    ensures q in t.head && Within(MoveEnd(t, delta).segs, q, Next(t, q))
  {
    NotTopEnd(t, q);
    BesideTop(t, q);
    var i :| 0 <= i < |t.segs| && t.segs[i].base <= q && Next(t, q) < End(t.segs[i]);
    var segs := MoveEnd(t, delta).segs;
    assert segs[i].base <= q && Next(t, q) < End(segs[i]);
  }

  lemma {:induction false} MovedBefore(t: Tags, delta: int, q: int)
    requires Tiled(t) && Movable(t, delta) && LocalOk(t, q) && !t.head[q].pinuse
    ensures var r := q - t.foot[q];
            r in t.chunks && r != t.top && r in MoveEnd(t, delta).head && MoveEnd(t, delta).head[r] == t.head[r]
  {
    var r := q - t.foot[q];
    NotTopEnd(t, r);
    MovedAway(t, delta, r);
  }

  lemma {:induction false} MovedChunk(t: Tags, delta: int, q: int)
    requires Tiled(t) && Movable(t, delta) && q in t.chunks && q != t.top
    ensures LocalOk(MoveEnd(t, delta), q)
  {
    var t' := MoveEnd(t, delta);
    NotTopEnd(t, q);
    MovedAway(t, delta, q);
    MovedAway(t, delta, Next(t, q));
    MovedWithin(t, delta, q);
    assert LocalOk(t, q);
    if Next(t, q) == t.top { assert LocalOk(t, t.top); }
    if !t.head[q].pinuse { MovedBefore(t, delta, q); }
    Keep(t, t', q);
  }

  lemma {:induction false} MovedTop(t: Tags, delta: int)
    requires Tiled(t) && Movable(t, delta)
    ensures LocalOk(MoveEnd(t, delta), t.top) && TopOk(MoveEnd(t, delta))
  {
    MovedTopLocal(t, delta);
    MovedTopOk(t, delta);
  }

  lemma {:induction false} MovedTopLocal(t: Tags, delta: int)
    requires Tiled(t) && Movable(t, delta)
    ensures LocalOk(MoveEnd(t, delta), t.top)
  {
    var t' := MoveEnd(t, delta);
    assert LocalOk(t, t.top);
    assert t'.segs[0].base <= t.top && Next(t', t.top) < End(t'.segs[0]);
    assert Within(t'.segs, t.top, Next(t', t.top));
  }

  lemma {:induction false} MovedTopOk(t: Tags, delta: int)
    requires Tiled(t) && Movable(t, delta)
    ensures TopOk(MoveEnd(t, delta))
  {
    var t' := MoveEnd(t, delta);
    assert LocalOk(t, t.top);
    forall q ensures BelowTopEnd(t', q) {
      if q in t'.chunks || q in t'.ends {
        if q != Next(t', t.top) { MovedAway(t, delta, q); }
      }
    }
  }

  lemma {:induction false} MovedEnds(t: Tags, delta: int)
    requires Tiled(t) && Movable(t, delta)
    ensures EndsOk(MoveEnd(t, delta))
  {
    var t' := MoveEnd(t, delta);
    var e := Next(t, t.top);
    BesideTop(t, t.top);
    assert LocalOk(t, t.top);
    AlignedSum(e, delta);
    assert t'.segs[0] == Segment(t.segs[0].base, t.segs[0].size + delta);
    forall x | x in t'.ends
      ensures x in t'.head && x !in t'.chunks && x % 8 == 0 && Trailing(t'.segs, x)
      ensures t'.head[x].cinuse || (t'.top in t'.head && x == Next(t', t'.top))
    {
      if x == e + delta {
        if x in t.chunks { MovedAway(t, delta, x); }
        assert t'.segs[0].base <= x && x < End(t'.segs[0]) <= x + TOP_FOOT_SIZE;
      } else {
        MovedAway(t, delta, x);
        BesideTop(t, x);
        var i :| 0 <= i < |t.segs| && t.segs[i].base <= x && x < End(t.segs[i]) <= x + TOP_FOOT_SIZE;
        assert i != 0 ==> t'.segs[i] == t.segs[i];
        assert ApartAt(t, t.top, x);
      }
    }
  }

  lemma {:induction false} MovedSegments(t: Tags, delta: int)
    requires Tiled(t) && Movable(t, delta)
    ensures SegmentsOk(MoveEnd(t, delta))
  {
    var t' := MoveEnd(t, delta);
    BesideTop(t, t.top);
    assert LocalOk(t, t.top);
    forall i | 0 <= i < |t'.segs| ensures SegmentOk(t', t'.segs[i]) {
      assert SegmentOk(t, t.segs[i]);
      var b := AlignUp(t.segs[i].base);
      if i == 0 {
        AlignLeast(t.segs[0].base, t.top);
        AlignedSum(End(t.segs[0]), delta);
      }
      if b != t.top { MovedAway(t, delta, b); NotTopEnd(t, b); }
    }
  }

  /** Appending to top's segment, or trimming it, keeps the header invariant. */
  lemma {:induction false} MoveTiled(t: Tags, delta: int)
    requires Tiled(t) && Movable(t, delta)
    ensures Tiled(MoveEnd(t, delta))
  {
    var t' := MoveEnd(t, delta);
    forall q | q in t'.chunks ensures LocalOk(t', q) {
      if q != t.top { MovedChunk(t, delta, q); } else { MovedTop(t, delta); }
    }
    forall p, q ensures ApartAt(t', p, q) {
      if p in t.chunks && q in t'.ends + t'.chunks { MovedApart(t, delta, p, q); }
    }
    MovedTop(t, delta);
    MovedEnds(t, delta);
    MovedSegments(t, delta);
    forall p ensures ListedOk(t', p) { MovedListed(t, delta, p); }
  }

  lemma {:induction false} MovedListed(t: Tags, delta: int, p: int)
    requires Tiled(t) && Movable(t, delta)
    ensures ListedOk(MoveEnd(t, delta), p)
  {
    assert ListedOk(t, p);
    if p in t.chunks && p != t.top {
      MovedAway(t, delta, p);
      NotTopEnd(t, p);
    }
  }

  lemma {:induction false} MovedApart(t: Tags, delta: int, p: int, q: int)
    requires Tiled(t) && Movable(t, delta) && p in t.chunks && q in MoveEnd(t, delta).chunks + MoveEnd(t, delta).ends
    ensures ApartAt(MoveEnd(t, delta), p, q)
  {
    var t' := MoveEnd(t, delta);
    var e := Next(t, t.top);
    if q == e + delta {
      if p != t.top {
        NotTopEnd(t, p);
        MovedAway(t, delta, p);
        MovedAway(t, delta, Next(t, p));
        BesideTop(t, Next(t, p));
        BesideTop(t, p);
        MovedWithin(t, delta, p);
      }
    } else {
      assert ApartAt(t, p, q);
      if p != t.top { MovedAway(t, delta, p); NotTopEnd(t, p); } else { MovedAway(t, delta, q); BesideTop(t, q); }
    }
  }

  // ----- a segment grows at its base -----

  /** The region before segment i joins it, as one chunk in use. */
  ghost function GrowDown(t: Tags, i: nat, base: nat): Tags
    requires i < |t.segs| && base < t.segs[i].base && AlignUp(base) < AlignUp(t.segs[i].base)
  {
    var b := AlignUp(base);
    var n := AlignUp(t.segs[i].base);
    t.(head := t.head[b := Head(n - b, true, true)], segs := t.segs[i := Segment(base, End(t.segs[i]) - base)],
       chunks := t.chunks + {b}, used := t.used[b := n - b])
  }

  ghost predicate Prependable(t: Tags, i: nat, base: nat) {
    && i < |t.segs| && 0 < base && AlignUp(base) + MIN_CHUNK_SIZE <= AlignUp(t.segs[i].base)
    && forall j :: 0 <= j < |t.segs| && j != i ==> End(t.segs[j]) <= base || t.segs[i].base <= t.segs[j].base
  }

  lemma {:induction false} DownAway(t: Tags, i: nat, base: nat, n: int)
    requires Tiled(t) && Prependable(t, i, base) && (n in t.chunks || n in t.ends)
    ensures !(base <= n < AlignUp(t.segs[i].base))
    ensures n != AlignUp(base)
  {
    var j := Located(t, n);
    AlignLeast(t.segs[i].base, n);
    AlignLeast(base, n);
    assert n % 8 == 0 by { if n in t.chunks { assert LocalOk(t, n); } }
  }

  lemma {:induction false} DownChunk(t: Tags, i: nat, base: nat, q: int)
    requires Tiled(t) && Prependable(t, i, base) && base < t.segs[i].base && q in t.chunks
    ensures LocalOk(GrowDown(t, i, base), q)
  {
    var t' := GrowDown(t, i, base);
    assert LocalOk(t, q);
    DownAway(t, i, base, q);
    DownAway(t, i, base, Next(t, q));
    if !t.head[q].pinuse { DownAway(t, i, base, q - t.foot[q]); }
    var j :| 0 <= j < |t.segs| && t.segs[j].base <= q && Next(t, q) < End(t.segs[j]);
    assert t'.segs[j].base <= q && Next(t, q) < End(t'.segs[j]);
    Keep(t, t', q);
  }

  lemma {:induction false} DownFirst(t: Tags, i: nat, base: nat)
    requires Tiled(t) && Prependable(t, i, base) && base < t.segs[i].base
    ensures LocalOk(GrowDown(t, i, base), AlignUp(base))
    ensures SegmentsOk(GrowDown(t, i, base))
  {
    var t' := GrowDown(t, i, base);
    var b := AlignUp(base);
    var n := AlignUp(t.segs[i].base);
    assert SegmentOk(t, t.segs[i]);
    AlignLeast(base, b);
    AlignLeast(t.segs[i].base, n);
    AlignedDiff(n, b);
    DownAway(t, i, base, n);
    assert t'.segs[i] == Segment(base, End(t.segs[i]) - base);
    assert Within(t'.segs, b, n);
    forall j | 0 <= j < |t'.segs| ensures SegmentOk(t', t'.segs[j]) {
      assert SegmentOk(t, t.segs[j]);
      if j != i { DownAway(t, i, base, AlignUp(t.segs[j].base)); }
    }
  }

  lemma {:induction false} DownEnds(t: Tags, i: nat, base: nat)
    requires Tiled(t) && Prependable(t, i, base) && base < t.segs[i].base
    ensures EndsOk(GrowDown(t, i, base)) && TopOk(GrowDown(t, i, base))
  {
    var t' := GrowDown(t, i, base);
    assert t.top in t.chunks;
    DownAway(t, i, base, t.top);
    forall x | x in t'.ends
      ensures x in t'.head && x !in t'.chunks && x % 8 == 0 && Trailing(t'.segs, x)
      ensures t'.head[x].cinuse || (t'.top in t'.head && x == Next(t', t'.top))
    {
      DownAway(t, i, base, x);
      var j :| 0 <= j < |t.segs| && t.segs[j].base <= x && x < End(t.segs[j]) <= x + TOP_FOOT_SIZE;
      assert t'.segs[j].base <= x && x < End(t'.segs[j]) <= x + TOP_FOOT_SIZE;
    }
    forall q ensures BelowTopEnd(t', q) {
      assert BelowTopEnd(t, q);
      if q == AlignUp(base) { BesideTop(t, t.top); DownTop(t, i, base); }
    }
  }

  lemma {:induction false} DownTop(t: Tags, i: nat, base: nat)
    requires Tiled(t) && Prependable(t, i, base) && base < t.segs[i].base && t.top != 0
    ensures t.top in t.head && !(Next(t, t.top) < AlignUp(base) < End(t.segs[0]))
  {
    AlignLeast(base, t.segs[i].base);
    BesideTop(t, t.top);
    assert SegmentOk(t, t.segs[i]);
    if i == 0 { DownAway(t, i, base, t.top); }
  }

  lemma {:induction false} DownTiled(t: Tags, i: nat, base: nat)
    requires Tiled(t) && Prependable(t, i, base) && base < t.segs[i].base
    ensures var t' := GrowDown(t, i, base);
            && Tiled(t')
            && t'.used == t.used[AlignUp(base) := AlignUp(t.segs[i].base) - AlignUp(base)] && t'.free == t.free
  {
    DownMaps(t, i, base);
    DownAll(t, i, base);
  }

  lemma {:induction false} DownMaps(t: Tags, i: nat, base: nat)
    requires i < |t.segs| && base < t.segs[i].base && AlignUp(base) < AlignUp(t.segs[i].base)
    ensures var t' := GrowDown(t, i, base);
            t'.used == t.used[AlignUp(base) := AlignUp(t.segs[i].base) - AlignUp(base)] && t'.free == t.free
  {
  }

  lemma {:induction false} DownAll(t: Tags, i: nat, base: nat)
    requires Tiled(t) && Prependable(t, i, base) && base < t.segs[i].base
    ensures Tiled(GrowDown(t, i, base))
  {
    var t' := GrowDown(t, i, base);
    var b := AlignUp(base);
    forall q | q in t'.chunks ensures LocalOk(t', q) {
      if q == b { DownFirst(t, i, base); } else { DownChunk(t, i, base, q); }
    }
    forall p, q ensures ApartAt(t', p, q) {
      if p in t'.chunks && q in t'.ends + t'.chunks { DownApart(t, i, base, p, q); }
    }
    DownFirst(t, i, base);
    DownEnds(t, i, base);
    forall p ensures ListedOk(t', p) { DownListed(t, i, base, p); }
  }

  lemma {:induction false} DownListed(t: Tags, i: nat, base: nat, p: int)
    requires Tiled(t) && Prependable(t, i, base) && base < t.segs[i].base
    ensures ListedOk(GrowDown(t, i, base), p)
  {
    assert ListedOk(t, p);
    if p in t.chunks { DownAway(t, i, base, p); }
  }

  lemma {:induction false} DownApart(t: Tags, i: nat, base: nat, p: int, q: int)
    requires Tiled(t) && Prependable(t, i, base) && base < t.segs[i].base
    requires p in GrowDown(t, i, base).chunks && q in GrowDown(t, i, base).chunks + GrowDown(t, i, base).ends
    ensures ApartAt(GrowDown(t, i, base), p, q)
  {
    assert ApartAt(t, p, q);
    if q in t.chunks || q in t.ends { DownAway(t, i, base, q); }
    if p in t.chunks {
      DownAway(t, i, base, p);
      assert LocalOk(t, p);
      DownAway(t, i, base, Next(t, p));
      AlignLeast(base, base);
      var j :| 0 <= j < |t.segs| && t.segs[j].base <= p && Next(t, p) < End(t.segs[j]);
    }
  }

  // ----- a segment of its own for memory that adjoins no other -----

  /** Where add_segment puts the record of the old segment: at the end of old top, or over old top
      when that is too small to be a free chunk. */
  function RecordAt(top: int, topsize: nat): int {
    if topsize < MIN_CHUNK_SIZE then top else top + topsize
  }

  /** What add_segment leaves: old top is cut off by a segment record and fenceposts, and the region,
      all of it top, comes first in the list of segments. */
  ghost predicate Added(t: Tags, t': Tags, base: nat, size: nat, topsize: nat) {
    && t.top != 0 && t.segs != [] && t.top in t.head && t.head[t.top].size == topsize
    && var oe := t.top + topsize;
       var rec := RecordAt(t.top, topsize);
       var fence := rec + RECORD_SIZE;
       var b := AlignUp(base);
       var e := base + size - TOP_FOOT_SIZE;
    && rec in t'.head && t'.head[rec] == Head(RECORD_SIZE, true, topsize < MIN_CHUNK_SIZE)
    && fence in t'.head && t'.head[fence].cinuse && t'.head[fence].pinuse
    && b < e && b in t'.head && t'.head[b] == Head(e - b, false, true)
    && e in t'.head && t'.head[e] == TopFoot()
    && (forall q :: q in t.head && q !in {rec, b, e} && !(fence <= q < End(t.segs[0])) ==>
          q in t'.head && t'.head[q] == t.head[q])
    && t'.foot == (if topsize < MIN_CHUNK_SIZE then t.foot else t.foot[oe := topsize])
    && t'.top == b && t'.segs == [Segment(base, size)] + t.segs
    && t'.chunks == t.chunks + {rec, b} && t'.records == t.records + {rec}
    && t'.ends == t.ends - {oe} + {fence, e}
    && t'.free == (if topsize < MIN_CHUNK_SIZE then t.free else t.free[t.top := topsize]) && t'.used == t.used
  }

  /** Memory after the new top, the record and the fenceposts were written. */
  ghost predicate Fenced(h: map<int, Head>, h': map<int, Head>, top: int, topsize: nat, rec: int, end: int) {
    var fence := rec + RECORD_SIZE;
    var h1 := h[top := Head(topsize, false, true)][top + topsize := TopFoot()][rec := Head(RECORD_SIZE, true, true)];
    && fence in h' && h'[fence] == Head(4, true, true)
    && (forall q :: q in h1 && !(fence <= q < end) ==> q in h' && h'[q] == h1[q])
  }

  /** What add_segment does to the words of memory after that. */
  ghost predicate Binned(t: Tags, t': Tags, base: nat, size: nat, topsize: nat, h: map<int, Head>)
    requires t.segs != []
  {
    var rec := RecordAt(t.top, topsize);
    var e := base + size - TOP_FOOT_SIZE;
    && AlignUp(base) < e
    && Fenced(t.head, h, AlignUp(base), e - AlignUp(base), rec, End(t.segs[0]))
    && (if topsize < MIN_CHUNK_SIZE then
          t'.head == h && t'.foot == t.foot && t'.free == t.free
        else
          && rec in h
          && t'.head == FreeWords(h, t.top, topsize, rec)
          && t'.foot == t.foot[rec := topsize] && t'.free == t.free[t.top := topsize])
    && t'.top == AlignUp(base) && t'.segs == [Segment(base, size)] + t.segs
    && t'.chunks == t.chunks + {rec, AlignUp(base)} && t'.records == t.records + {rec}
    && t'.ends == t.ends - {t.top + topsize} + {rec + RECORD_SIZE, e}
    && t'.used == t.used
  }

  lemma {:induction false} AddedBy(t: Tags, t': Tags, base: nat, size: nat, topsize: nat, h: map<int, Head>)
    requires Tiled(t) && t.top != 0 && t.top in t.head && t.head[t.top].size == topsize && Fresh(t.segs, base, size)
    requires Binned(t, t', base, size, topsize, h)
    ensures Tiled(t') && TopSize(t', base + size - TOP_FOOT_SIZE - AlignUp(base))
  {
    AddedFits(t, base, size, topsize);
    OldTop(t, topsize);
    assert LocalOk(t, t.top);
    assert Added(t, t', base, size, topsize);
    AddedTiled(t, t', base, size, topsize);
  }

  lemma {:induction false} AddedFits(t: Tags, base: nat, size: nat, topsize: nat)
    requires Tiled(t) && t.top != 0 && t.top in t.head && t.head[t.top].size == topsize && Fresh(t.segs, base, size)
    ensures var b, e := AlignUp(base), base + size - TOP_FOOT_SIZE;
            var rec := RecordAt(t.top, topsize);
            && b != rec && b != e && b != t.top && e != t.top && e != rec && rec + RECORD_SIZE != b
            && rec + RECORD_SIZE != e
            && !(rec + RECORD_SIZE <= b < End(t.segs[0])) && !(rec + RECORD_SIZE <= e < End(t.segs[0]))
  {
    OldTop(t, topsize);
    AlignLeast(base, base);
    FreshAway(t, base, size, t.top);
  }

  lemma {:induction false} FreshAway(t: Tags, base: nat, size: nat, n: int)
    requires Tiled(t) && Fresh(t.segs, base, size) && (n in t.chunks || n in t.ends)
    ensures !(base <= n < base + size)
  {
    var i := Located(t, n);
  }

  /** The numbers around old top. */
  lemma {:induction false} OldTop(t: Tags, topsize: nat)
    requires Tiled(t) && t.top != 0 && t.top in t.head && t.head[t.top].size == topsize
    ensures var oe := t.top + topsize;
            && t.top % 8 == 0 && oe % 8 == 0 && oe + TOP_FOOT_SIZE == End(t.segs[0]) && t.segs[0].base <= t.top
            && oe in t.ends && oe !in t.chunks && topsize % 8 == 0 && topsize > 0 && t.top > 0
            && (topsize < MIN_CHUNK_SIZE ==> topsize == 8)
            && !t.head[t.top].cinuse && t.head[t.top].pinuse && t.top !in t.records && t.top !in t.free
            && RecordAt(t.top, topsize) % 8 == 0
            && oe <= RecordAt(t.top, topsize) + RECORD_SIZE - 16
            && RecordAt(t.top, topsize) + RECORD_SIZE < End(t.segs[0])
  {
    assert LocalOk(t, t.top) && ListedOk(t, t.top);
    AlignedSum(t.top, topsize);
  }

  /** Old chunks and ends keep their header words. */
  lemma {:induction false} AddedKeeps(t: Tags, t': Tags, base: nat, size: nat, topsize: nat, n: int)
    requires Tiled(t) && Fresh(t.segs, base, size) && Added(t, t', base, size, topsize)
    requires (n in t.chunks || n in t.ends) && n != t.top + topsize
    ensures n in t.head ==> n in t'.head && (n != RecordAt(t.top, topsize) ==> t'.head[n] == t.head[n])
    ensures n == RecordAt(t.top, topsize) ==> n == t.top
    ensures n !in {AlignUp(base), base + size - TOP_FOOT_SIZE, RecordAt(t.top, topsize) + RECORD_SIZE}
  {
    OldTop(t, topsize);
    BesideTop(t, n);
    FreshAway(t, base, size, n);
    AlignLeast(base, n);
  }

  lemma WithinCons(s: Segment, segs: seq<Segment>, lo: int, hi: int)
    requires Within(segs, lo, hi)
    ensures Within([s] + segs, lo, hi)
  {
    var i :| 0 <= i < |segs| && segs[i].base <= lo && hi < End(segs[i]);
    assert ([s] + segs)[i + 1] == segs[i];
  }

  lemma {:induction false} AddedBefore(t: Tags, t': Tags, base: nat, size: nat, topsize: nat, q: int)
    requires Tiled(t) && Fresh(t.segs, base, size) && Added(t, t', base, size, topsize)
    requires LocalOk(t, q) && !t.head[q].pinuse
    ensures var r := q - t.foot[q]; r in t'.chunks && r in t'.head && t'.head[r] == t.head[r] && r != t'.top
  {
    var r := q - t.foot[q];
    NotTopEnd(t, r);
    AddedKeeps(t, t', base, size, topsize, r);
  }

  lemma {:induction false} AddedChunk(t: Tags, t': Tags, base: nat, size: nat, topsize: nat, q: int)
    requires Tiled(t) && Fresh(t.segs, base, size) && Added(t, t', base, size, topsize) && q in t.chunks && q != t.top
    ensures LocalOk(t', q)
  {
    assert LocalOk(t, q) && LocalOk(t, t.top);
    OldTop(t, topsize);
    NotTopEnd(t, q);
    AddedKeeps(t, t', base, size, topsize, q);
    AddedKeeps(t, t', base, size, topsize, Next(t, q));
    WithinCons(t'.segs[0], t.segs, q, Next(t, q));
    if !t.head[q].pinuse { AddedBefore(t, t', base, size, topsize, q); }
    Keep(t, t', q);
  }

  lemma {:induction false} AddedTop(t: Tags, t': Tags, base: nat, size: nat, topsize: nat)
    requires Tiled(t) && Fresh(t.segs, base, size) && Added(t, t', base, size, topsize)
    ensures LocalOk(t', t'.top)
  {
    var b := AlignUp(base);
    var e := base + size - TOP_FOOT_SIZE;
    AlignLeast(base, b);
    AlignedDiff(base + size, TOP_FOOT_SIZE);
    AlignedDiff(e, b);
    OldTop(t, topsize);
    assert t'.segs[0] == Segment(base, size);
    assert Within(t'.segs, b, e);
    FreshAway(t, base, size, t.top + topsize);
    AddedFresh(t, t', base, size, topsize);
  }

  /** The new addresses are apart. */
  lemma {:induction false} AddedFresh(t: Tags, t': Tags, base: nat, size: nat, topsize: nat)
    requires Tiled(t) && Fresh(t.segs, base, size) && Added(t, t', base, size, topsize)
    ensures var b, e := AlignUp(base), base + size - TOP_FOOT_SIZE;
            var rec := RecordAt(t.top, topsize);
            && base <= b < e && !(base <= rec < base + size) && !(base <= rec + RECORD_SIZE < base + size)
            && b !in t.chunks && b !in t.ends && b !in t.records && e !in t.chunks && e !in t.ends
            && (rec < b <==> rec + RECORD_SIZE < b) && (rec < b <==> t.top < b) && (b < rec <==> e < rec)
            && rec + RECORD_SIZE !in t.chunks && rec + RECORD_SIZE !in t.ends
  {
    var b, e := AlignUp(base), base + size - TOP_FOOT_SIZE;
    OldTop(t, topsize);
    AlignLeast(base, b);
    if b in t.chunks || b in t.ends { FreshAway(t, base, size, b); }
    if e in t.chunks || e in t.ends { FreshAway(t, base, size, e); }
    var f := RecordAt(t.top, topsize) + RECORD_SIZE;
    if f in t.chunks || f in t.ends { BesideTop(t, f); }
  }

  lemma {:induction false} AddedRecord(t: Tags, t': Tags, base: nat, size: nat, topsize: nat)
    requires Tiled(t) && Fresh(t.segs, base, size) && Added(t, t', base, size, topsize)
    ensures LocalOk(t', RecordAt(t.top, topsize)) && LocalOk(t', t.top)
  {
    OldTop(t, topsize);
    AddedFresh(t, t', base, size, topsize);
    var rec := RecordAt(t.top, topsize);
    assert t'.segs[1] == t.segs[0];
    assert Within(t'.segs, rec, rec + RECORD_SIZE) && Within(t'.segs, t.top, t.top + topsize);
    assert LocalOk(t, t.top);
    assert LocalOk(t', rec);
    if rec != t.top {
      AddedKeeps(t, t', base, size, topsize, t.top);
      assert LocalOk(t', t.top);
    }
  }

  lemma {:induction false} AddedEnds(t: Tags, t': Tags, base: nat, size: nat, topsize: nat)
    requires Tiled(t) && Fresh(t.segs, base, size) && Added(t, t', base, size, topsize)
    ensures EndsOk(t')
  {
    OldTop(t, topsize);
    AddedFresh(t, t', base, size, topsize);
    AddedTop(t, t', base, size, topsize);
    var rec := RecordAt(t.top, topsize);
    AlignedSum(rec, RECORD_SIZE);
    AlignedDiff(base + size, TOP_FOOT_SIZE);
    assert t'.segs[0] == Segment(base, size) && t'.segs[1] == t.segs[0];
    forall x | x in t'.ends
      ensures x in t'.head && x !in t'.chunks && x % 8 == 0 && Trailing(t'.segs, x)
      ensures t'.head[x].cinuse || (t'.top in t'.head && x == Next(t', t'.top))
    {
      if x == rec + RECORD_SIZE {
        assert t'.segs[1].base <= x && x < End(t'.segs[1]) <= x + TOP_FOOT_SIZE;
      } else if x == base + size - TOP_FOOT_SIZE {
        assert t'.segs[0].base <= x && x < End(t'.segs[0]) <= x + TOP_FOOT_SIZE;
      } else {
        AddedKeeps(t, t', base, size, topsize, x);
        var i :| 0 <= i < |t.segs| && t.segs[i].base <= x && x < End(t.segs[i]) <= x + TOP_FOOT_SIZE;
        assert t'.segs[i + 1] == t.segs[i];
      }
    }
  }

  lemma {:induction false} AddedSegments(t: Tags, t': Tags, base: nat, size: nat, topsize: nat)
    requires Tiled(t) && Fresh(t.segs, base, size) && Added(t, t', base, size, topsize)
    ensures SegmentsOk(t')
  {
    OldTop(t, topsize);
    AddedFresh(t, t', base, size, topsize);
    forall i | 0 <= i < |t'.segs| ensures SegmentOk(t', t'.segs[i]) {
      if i > 0 {
        assert t'.segs[i] == t.segs[i - 1];
        assert SegmentOk(t, t.segs[i - 1]);
        AddedKeeps(t, t', base, size, topsize, AlignUp(t.segs[i - 1].base));
      }
    }
    assert t'.segs[0] == Segment(base, size);
    forall i, j | 0 <= i < j < |t'.segs|
      ensures End(t'.segs[i]) <= t'.segs[j].base || End(t'.segs[j]) <= t'.segs[i].base
    {
      assert t'.segs[j] == t.segs[j - 1] && (i > 0 ==> t'.segs[i] == t.segs[i - 1]);
    }
  }

  lemma {:induction false} AddedTopOk(t: Tags, t': Tags, base: nat, size: nat, topsize: nat)
    requires Tiled(t) && Fresh(t.segs, base, size) && Added(t, t', base, size, topsize)
    ensures TopOk(t')
  {
    AddedFresh(t, t', base, size, topsize);
    AlignLeast(base, base);
    assert t'.segs[0] == Segment(base, size);
    forall q ensures BelowTopEnd(t', q) {
      if q in t.chunks || q in t.ends { FreshAway(t, base, size, q); }
    }
  }

  lemma {:induction false} AddedApart(t: Tags, t': Tags, base: nat, size: nat, topsize: nat, p: int, q: int)
    requires Tiled(t) && Fresh(t.segs, base, size) && Added(t, t', base, size, topsize)
    requires p in t'.chunks && q in t'.chunks + t'.ends && p < q
    ensures p in t'.head && Next(t', p) <= q
  {
    OldTop(t, topsize);
    AddedFresh(t, t', base, size, topsize);
    var rec := RecordAt(t.top, topsize);
    if q in t.chunks || q in t.ends { FreshAway(t, base, size, q); }
    if p == t'.top {
    } else if p == rec {
      if q in t.chunks || q in t.ends { BesideTop(t, q); }
    } else {
      AddedKeeps(t, t', base, size, topsize, p);
      if p != t.top { NotTopEnd(t, p); BesideTop(t, p); }
      AddedApartOld(t, t', base, size, topsize, p, q);
    }
  }

  lemma {:induction false} AddedApartOld(t: Tags, t': Tags, base: nat, size: nat, topsize: nat, p: int, q: int)
    requires Tiled(t) && Fresh(t.segs, base, size) && Added(t, t', base, size, topsize)
    requires p in t.chunks && q in t'.chunks + t'.ends && p < q && p != RecordAt(t.top, topsize)
    ensures p in t.head && Next(t, p) <= q
  {
    OldTop(t, topsize);
    assert LocalOk(t, p) && ApartAt(t, p, q) && ApartAt(t, p, t.top + topsize);
    BesideTop(t, p);
    var i :| 0 <= i < |t.segs| && t.segs[i].base <= p && Next(t, p) < End(t.segs[i]);
    AddedFresh(t, t', base, size, topsize);
    if q == RecordAt(t.top, topsize) + RECORD_SIZE && p > t.top { BesideTop(t, p); }
  }

  lemma {:induction false} AddedListed(t: Tags, t': Tags, base: nat, size: nat, topsize: nat, p: int)
    requires Tiled(t) && Fresh(t.segs, base, size) && Added(t, t', base, size, topsize)
    ensures ListedOk(t', p)
  {
    assert ListedOk(t, p);
    OldTop(t, topsize);
    AddedFresh(t, t', base, size, topsize);
    if p in t.chunks {
      assert LocalOk(t, p);
      AddedKeeps(t, t', base, size, topsize, p);
    }
  }

  /** add_segment keeps the header invariant. */
  lemma {:induction false} AddedTiled(t: Tags, t': Tags, base: nat, size: nat, topsize: nat)
    requires Tiled(t) && Fresh(t.segs, base, size) && Added(t, t', base, size, topsize)
    ensures Tiled(t')
  {
    forall q | q in t'.chunks ensures LocalOk(t', q) {
      if q == t'.top {
        AddedTop(t, t', base, size, topsize);
      } else if q == t.top || q == RecordAt(t.top, topsize) {
        AddedRecord(t, t', base, size, topsize);
      } else {
        AddedChunk(t, t', base, size, topsize, q);
      }
    }
    forall p, q ensures ApartAt(t', p, q) {
      if p in t'.chunks && q in t'.chunks + t'.ends && p < q { AddedApart(t, t', base, size, topsize, p, q); }
    }
    AddedTopOk(t, t', base, size, topsize);
    AddedEnds(t, t', base, size, topsize);
    AddedSegments(t, t', base, size, topsize);
    forall p ensures ListedOk(t', p) { AddedListed(t, t', base, size, topsize, p); }
  }

  // ----- prepend_alloc -----

  /** The region before segment i gives its front to a request; the rest joins the chunks in gone, up to e,
      as one free chunk. */
  ghost function PrependedFree(t: Tags, i: nat, base: nat, nb: nat, e: int, gone: set<int>): Tags
    requires i < |t.segs| && base < t.segs[i].base && AlignUp(base) + nb < e && e in t.head
  {
    var p := AlignUp(base);
    var q := p + nb;
    var h := t.head[p := Head(nb, true, true)];
    t.(head := FreeWords(h, q, e - q, e),
       foot := t.foot[e := e - q], segs := t.segs[i := Segment(base, End(t.segs[i]) - base)],
       chunks := t.chunks - gone + {p, q}, free := (t.free - gone)[q := e - q], used := t.used[p := nb])
  }

  /** The same when the segment's first chunk is top. */
  ghost function PrependedTop(t: Tags, i: nat, base: nat, nb: nat, e: int): Tags
    requires i < |t.segs| && base < t.segs[i].base && AlignUp(base) + nb < e
  {
    var p := AlignUp(base);
    var q := p + nb;
    t.(head := t.head[p := Head(nb, true, true)][q := Head(e - q, false, true)], top := q,
       segs := t.segs[i := Segment(base, End(t.segs[i]) - base)],
       chunks := t.chunks - {t.top} + {p, q}, used := t.used[p := nb])
  }

  /** The region as one chunk in use, followed by a run. */
  lemma {:induction false} DownRun(t: Tags, i: nat, base: nat, e: int, gone: set<int>)
    requires Tiled(t) && Prependable(t, i, base) && base < t.segs[i].base
    requires if gone == {} then e == AlignUp(t.segs[i].base) else Run(t, AlignUp(t.segs[i].base), e, gone)
    ensures Tiled(GrowDown(t, i, base)) && Run(GrowDown(t, i, base), AlignUp(base), e, {AlignUp(base)} + gone)
    ensures AlignUp(base) !in t.chunks && AlignUp(base) !in t.free && AlignUp(base) !in t.used && AlignUp(base) % 8 == 0
  {
    var t' := GrowDown(t, i, base);
    var p, n := AlignUp(base), AlignUp(t.segs[i].base);
    DownTiled(t, i, base);
    AlignLeast(base, p);
    if p in t.chunks { DownAway(t, i, base, p); }
    assert ListedOk(t, p);
    assert p !in t'.records;
    RunOne(t', p);
    if gone != {} {
      var j :| 0 <= j < |t.segs| && t.segs[j].base <= n && e < End(t.segs[j]);
      assert t'.segs[j].base <= n && e < End(t'.segs[j]);
      assert Run(t', n, e, gone);
      RunJoin(t', p, n, e, {p}, gone);
    } else {
      assert {p} + gone == {p};
    }
  }

  lemma {:induction false} PrependedFreeTwo(t: Tags, i: nat, base: nat, nb: nat, e: int, gone: set<int>)
    requires Tiled(t) && Prependable(t, i, base) && base < t.segs[i].base
    requires Tiled(GrowDown(t, i, base)) && Run(GrowDown(t, i, base), AlignUp(base), e, {AlignUp(base)} + gone)
    requires AlignUp(base) !in t.chunks && AlignUp(base) !in t.free && AlignUp(base) !in t.used
             && AlignUp(base) % 8 == 0
    requires nb >= MIN_CHUNK_SIZE && nb % 8 == 0 && AlignUp(base) + nb + MIN_CHUNK_SIZE <= e
    requires e in t.chunks && e in t.head && t.head[e].cinuse && gone !! t.used.Keys
    ensures Two(GrowDown(t, i, base), PrependedFree(t, i, base, nb, e, gone), AlignUp(base), AlignUp(base) + nb, e,
                {AlignUp(base)} + gone, false)
  {
    var p := AlignUp(base);
    var t1, t' := GrowDown(t, i, base), PrependedFree(t, i, base, nb, e, gone);
    RunBounds(t1, p, e, {p} + gone);
    AlignedSum(p, nb);
    MapsBelow(t.free, t.used, p, t1.used[p], gone, nb);
    assert Rewritten(t1, t', p, e, {p} + gone, {p, p + nb});
  }

  lemma {:induction false} PrependedFreeTiled(t: Tags, i: nat, base: nat, nb: nat, e: int, gone: set<int>, topsize: nat)
    requires Tiled(t) && Prependable(t, i, base) && base < t.segs[i].base && TopSize(t, topsize)
    requires if gone == {} then e == AlignUp(t.segs[i].base) else Run(t, AlignUp(t.segs[i].base), e, gone)
    requires nb >= MIN_CHUNK_SIZE && nb % 8 == 0 && AlignUp(base) + nb + MIN_CHUNK_SIZE <= e
    requires e in t.chunks && e in t.head && t.head[e].cinuse && gone !! t.used.Keys
    ensures Tiled(PrependedFree(t, i, base, nb, e, gone)) && TopSize(PrependedFree(t, i, base, nb, e, gone), topsize)
    ensures AlignUp(base) > 0 && AlignUp(base) !in t.used
  {
    var p := AlignUp(base);
    var t1, t' := GrowDown(t, i, base), PrependedFree(t, i, base, nb, e, gone);
    DownRun(t, i, base, e, gone);
    PrependedFreeTwo(t, i, base, nb, e, gone);
    DownTopSize(t, i, base, topsize);
    CutTwo(t1, t', p, p + nb, e, {p} + gone, false, topsize);
  }

  lemma MapsBelow(free: map<int, nat>, used: map<int, nat>, p: int, size: nat, gone: set<int>, nb: nat)
    requires p !in free && gone !! used.Keys
    ensures free - ({p} + gone) == free - gone
    ensures (used[p := size] - ({p} + gone))[p := nb] == used[p := nb]
  {
  }

  lemma {:induction false} DownTopSize(t: Tags, i: nat, base: nat, topsize: nat)
    requires Tiled(t) && Prependable(t, i, base) && base < t.segs[i].base && TopSize(t, topsize)
    ensures TopSize(GrowDown(t, i, base), topsize)
  {
    if t.top != 0 { DownAway(t, i, base, t.top); }
  }

  lemma {:induction false} PrependedTopTiled(t: Tags, i: nat, base: nat, nb: nat, e: int)
    requires Tiled(t) && Prependable(t, i, base) && base < t.segs[i].base
    requires t.top != 0 && t.top == AlignUp(t.segs[i].base) && t.top in t.head && e == Next(t, t.top)
    requires nb >= MIN_CHUNK_SIZE && nb % 8 == 0 && AlignUp(base) + nb < e
    ensures Tiled(PrependedTop(t, i, base, nb, e))
    ensures AlignUp(base) > 0 && AlignUp(base) !in t.used
  {
    var p := AlignUp(base);
    var t1, t' := GrowDown(t, i, base), PrependedTop(t, i, base, nb, e);
    assert LocalOk(t, t.top) && ListedOk(t, t.top);
    RunOne(t, t.top);
    DownRun(t, i, base, e, {t.top});
    RunBounds(t1, p, e, {p} + {t.top});
    AlignedSum(p, nb);
    MapsBelow(t.free, t.used, p, t1.used[p], {t.top}, nb);
    assert t.free - {t.top} == t.free;
    assert Rewritten(t1, t', p, e, {p} + {t.top}, {p, p + nb});
    CutUseThenTop(t1, t', p, p + nb, e, {p} + {t.top});
  }

  // ----- tiling -----

  /** x lies in chunk p. */
  ghost predicate Holds(t: Tags, p: int, x: int) {
    p in t.chunks && p in t.head && p <= x < Next(t, p)
  }

  /** Walking from chunk to chunk. */
  lemma {:induction false} Walk(t: Tags, i: nat, p: int, x: int) returns (q: int)
    requires Tiled(t) && i < |t.segs| && p in t.chunks && t.segs[i].base <= p <= x < End(t.segs[i]) - TOP_FOOT_SIZE
    ensures Holds(t, q, x)
    decreases x - p
  {
    assert LocalOk(t, p);
    var n := Next(t, p);
    if x < n {
      q := p;
    } else {
      assert n in t.chunks by {
        if n in t.ends { assert false; }
      }
      q := Walk(t, i, n, x);
    }
  }

  /** Chunks tile each segment exactly: every address between a segment's aligned base and its trailer
      lies in one and only one chunk. */
  lemma {:induction false} SegmentTiled(t: Tags, i: nat, x: int)
    requires Tiled(t) && i < |t.segs| && AlignUp(t.segs[i].base) <= x < End(t.segs[i]) - TOP_FOOT_SIZE
    ensures exists p :: Holds(t, p, x)
    ensures forall p, q :: Holds(t, p, x) && Holds(t, q, x) ==> p == q
  {
    assert SegmentOk(t, t.segs[i]);
    AlignLeast(t.segs[i].base, x);
    var p := Walk(t, i, AlignUp(t.segs[i].base), x);
    forall p, q | Holds(t, p, x) && Holds(t, q, x) ensures p == q {
      assert ApartAt(t, p, q) && ApartAt(t, q, p);
    }
  }

  /** No two free chunks are neighbours, and a free chunk's size can be read behind it. */
  lemma {:induction false} FreeIsolated(t: Tags, p: int)
    requires Tiled(t) && p in t.free
    ensures var n := p + t.free[p];
            && n in t.chunks && n in t.head && t.head[n].cinuse && n != t.top && !t.head[n].pinuse
            && n in t.foot && n - t.foot[n] == p
    ensures p in t.head && t.head[p].pinuse
    ensures forall q :: q in t.chunks && q in t.head && Next(t, q) == p ==> t.head[q].cinuse
  {
    assert ListedOk(t, p) && LocalOk(t, p);
    var n := p + t.free[p];
    assert LocalOk(t, n);
    forall q | q in t.chunks && q in t.head && Next(t, q) == p ensures t.head[q].cinuse { assert LocalOk(t, q); }
  }

  /** The payloads of two chunks in use do not overlap; a payload runs from 8 bytes above the chunk
      to 4 bytes into the next one. */
  lemma {:induction false} PayloadsApart(t: Tags, p: int, q: int)
    requires Tiled(t) && p in t.used && q in t.used && p < q
    ensures p + t.used[p] + 4 < q + 8 && p + t.used[p] <= q
  {
    assert ListedOk(t, p) && ListedOk(t, q) && ApartAt(t, p, q);
  }
}
