/** The header words that boundary tags keep between the chunks of a heap, and the segments they tile. */
module Tags {
  import opened Bits

  const MIN_CHUNK_SIZE: nat := 16
  const TOP_FOOT_SIZE: nat := 40

  /** A header word: the chunk's size and whether it and the chunk before it are in use. */
  datatype Head = Head(size: nat, cinuse: bool, pinuse: bool)

  datatype Segment = Segment(base: nat, size: nat)

  /** head and foot are what memory holds at an address, stale words included. Which addresses are chunks,
      ends of segments and segment records is what the allocator knows without writing it down;
      free and used give the sizes of the free chunks other than top and of the chunks in use other than records. */
  datatype Tags = Tags(head: map<int, Head>, foot: map<int, nat>, top: int, segs: seq<Segment>,
                       chunks: set<int>, ends: set<int>, records: set<int>,
                       free: map<int, nat>, used: map<int, nat>)

  function End(s: Segment): nat {
    s.base + s.size
  }

  /** align_offset: how far an address is below the next multiple of 8. */
  function AlignOffset(a: nat): nat {
    if a % 8 == 0 then 0 else 8 - a % 8
  }

  function AlignUp(a: nat): nat {
    (a + 7) / 8 * 8
  }

  lemma AlignByOffset(a: nat)
    ensures a + AlignOffset(a + 8) == AlignUp(a)
  {
  }

  lemma AlignLeast(base: nat, a: int)
    ensures base <= AlignUp(base) < base + 8 && AlignUp(base) % 8 == 0
    ensures base <= a && a % 8 == 0 ==> AlignUp(base) <= a
  {
  }

  /** The header words that set_free_with_pinuse writes. */
  function FreeWords(h: map<int, Head>, p: int, s: nat, n: int): map<int, Head>
    requires n in h
  {
    h[n := h[n].(pinuse := false)][p := Head(s, false, true)]
  }

  ghost predicate Within(segs: seq<Segment>, lo: int, hi: int) {
    exists i :: 0 <= i < |segs| && segs[i].base <= lo && hi < End(segs[i])
  }

  ghost predicate Disjoint(segs: seq<Segment>) {
    forall i, j :: 0 <= i < j < |segs| ==> End(segs[i]) <= segs[j].base || End(segs[j]) <= segs[i].base
  }

  function Next(t: Tags, p: int): int
    requires p in t.head
  {
    p + t.head[p].size
  }

  /** What the header words of a chunk say agrees with its neighbours, and two free chunks are never adjacent. */
  ghost predicate LocalOk(t: Tags, p: int) {
    && p in t.head && p > 0 && p % 8 == 0
    && var h := t.head[p];
       var n := Next(t, p);
    && h.size > 0 && h.size % 8 == 0 && (p != t.top ==> h.size >= MIN_CHUNK_SIZE)
    && n in t.head && t.head[n].pinuse == h.cinuse
    && Within(t.segs, p, n)
    && (if n in t.chunks then true else n in t.ends && (p == t.top || p in t.records))
    && (!h.cinuse ==>
          && h.pinuse && p !in t.records
          && (p == t.top || (n in t.chunks && n in t.foot && t.foot[n] == h.size)))
    && (!h.pinuse ==>
          && p in t.foot
          && var q := p - t.foot[p];
          && q in t.chunks && q in t.head && t.head[q].size == t.foot[p] && !t.head[q].cinuse && q != t.top)
  }

  ghost predicate ApartAt(t: Tags, p: int, q: int) {
    p in t.chunks && p in t.head && (q in t.chunks || q in t.ends) && p < q ==> Next(t, p) <= q
  }

  /** No chunk reaches into another one or over the end of a segment. */
  ghost predicate Apart(t: Tags) {
    forall p, q {:trigger ApartAt(t, p, q)} :: ApartAt(t, p, q)
  }

  ghost predicate TopOk(t: Tags) {
    && (t.segs == [] <==> t.top == 0)
    && (t.top == 0 ==> t.chunks == {} && t.ends == {})
    && (t.top != 0 ==>
          && t.top in t.chunks && t.top in t.head && !t.head[t.top].cinuse
          && Next(t, t.top) in t.ends
          && t.segs[0].base <= t.top && Next(t, t.top) + TOP_FOOT_SIZE == End(t.segs[0])
          && (forall q {:trigger BelowTopEnd(t, q)} :: BelowTopEnd(t, q)))
  }

  /** Nothing lies behind the end of top in its segment. */
  ghost predicate BelowTopEnd(t: Tags, q: int)
    requires t.segs != [] && t.top in t.head
  {
    q in t.chunks || q in t.ends ==> !(Next(t, t.top) < q < End(t.segs[0]))
  }

  /** Only the trailer of a segment lies behind the end of its chunks. */
  ghost predicate Trailing(segs: seq<Segment>, e: int) {
    exists i :: 0 <= i < |segs| && segs[i].base <= e && e < End(segs[i]) <= e + TOP_FOOT_SIZE
  }

  ghost predicate EndsOk(t: Tags) {
    forall e :: e in t.ends ==>
      && e in t.head && e !in t.chunks && e % 8 == 0 && Trailing(t.segs, e)
      && (t.head[e].cinuse || (t.top in t.head && e == Next(t, t.top)))
  }

  ghost predicate SegmentOk(t: Tags, s: Segment) {
    && 0 < s.base && End(s) <= WORD && End(s) % 8 == 0 && AlignUp(s.base) < End(s)
    && AlignUp(s.base) in t.chunks && AlignUp(s.base) in t.head && t.head[AlignUp(s.base)].pinuse
  }

  ghost predicate SegmentsOk(t: Tags) {
    && Disjoint(t.segs)
    && forall i {:trigger SegmentOk(t, t.segs[i])} :: 0 <= i < |t.segs| ==> SegmentOk(t, t.segs[i])
  }

  /** The size maps list the chunk at p where it belongs. */
  ghost predicate ListedOk(t: Tags, p: int) {
    && (p in t.free <==> p in t.chunks && p in t.head && !t.head[p].cinuse && p != t.top)
    && (p in t.used <==> p in t.chunks && p in t.head && t.head[p].cinuse && p !in t.records)
    && (p in t.free ==> t.free[p] == t.head[p].size)
    && (p in t.used ==> t.used[p] == t.head[p].size)
  }

  /** The invariant of the header words. */
  ghost predicate Tiled(t: Tags) {
    && (forall p {:trigger LocalOk(t, p)} :: p in t.chunks ==> LocalOk(t, p))
    && Apart(t)
    && TopOk(t)
    && EndsOk(t)
    && SegmentsOk(t)
    && t.records <= t.chunks
    && (forall p {:trigger ListedOk(t, p)} :: ListedOk(t, p))
  }

  lemma AlignedSum(a: int, b: int)
    requires a % 8 == 0 && b % 8 == 0
    ensures (a + b) % 8 == 0
  {
  }

  lemma AlignedDiff(a: int, b: int)
    requires a % 8 == 0 && b % 8 == 0
    ensures (a - b) % 8 == 0
  {
  }

  // ----- runs of neighbouring chunks -----

  /** The chunks from a up to e are exactly these. */
  ghost predicate Run(t: Tags, a: int, e: int, gone: set<int>) {
    && a < e && a in gone && gone <= t.chunks && gone !! t.records
    && (e in t.chunks || e in t.ends)
    && Within(t.segs, a, e)
    && (forall q :: q in t.chunks ==> (q in gone <==> a <= q < e))
    && (forall q :: q in t.ends ==> !(a < q < e))
  }

  lemma {:induction false} RunOne(t: Tags, p: int)
    requires Tiled(t) && p in t.chunks && p !in t.records
    ensures p in t.head && Run(t, p, Next(t, p), {p})
  {
    assert LocalOk(t, p);
    forall q | q in t.chunks || q in t.ends ensures p < q ==> Next(t, p) <= q { assert ApartAt(t, p, q); }
  }

  /** A run and the chunk behind it. */
  lemma {:induction false} RunJoin(t: Tags, a: int, m: int, e: int, gone: set<int>, more: set<int>)
    requires Tiled(t) && Run(t, a, m, gone) && Run(t, m, e, more)
    ensures Run(t, a, e, gone + more)
  {
    WithinJoin(t.segs, a, m, e);
  }

  lemma {:induction false} WithinJoin(segs: seq<Segment>, a: int, m: int, e: int)
    requires Disjoint(segs) && Within(segs, a, m) && Within(segs, m, e) && a < m < e
    ensures Within(segs, a, e)
  {
  }

  // ----- cutting a run anew -----

  /** Outside the run from a to e, t' keeps the words of t; the run now holds the made chunks. */
  ghost predicate Recutting(t: Tags, t': Tags, a: int, e: int, gone: set<int>, made: set<int>) {
    && Run(t, a, e, gone)
    && a in made && (forall q :: q in made ==> a <= q < e)
    && t'.chunks == t.chunks - gone + made && t'.ends == t.ends && t'.records == t.records && t'.segs == t.segs
    && (forall q :: q in t.head && !(a <= q <= e) ==> q in t'.head && t'.head[q] == t.head[q])
    && (forall q :: q in t.foot && !(a < q <= e) ==> q in t'.foot && t'.foot[q] == t.foot[q])
    && a in t.head && a in t'.head && t'.head[a].pinuse == t.head[a].pinuse
    && e in t.head && e in t'.head && t'.head[e] == t.head[e].(pinuse := t'.head[e].pinuse)
    && (if t.top in gone then t'.top in made else t'.top == t.top)
  }

  /** A size map loses what is gone and keeps the rest, except for what is made. */
  ghost predicate Kept(m: map<int, nat>, m': map<int, nat>, gone: set<int>, made: set<int>) {
    forall p :: p !in made ==> (p in m' <==> p in m && p !in gone) && (p in m' ==> m'[p] == m[p])
  }

  lemma {:induction false} RecutOutside(t: Tags, t': Tags, a: int, e: int, gone: set<int>, made: set<int>, q: int)
    requires Tiled(t) && Recutting(t, t', a, e, gone, made) && q in t.chunks && q !in gone && q != e
    ensures q in t.head && q in t'.head && t'.head[q] == t.head[q] && !(a <= q <= e)
    ensures q < a ==> Next(t, q) <= a
    ensures Next(t, q) in t.head && !(a < Next(t, q) <= e)
  {
    assert LocalOk(t, q) && ApartAt(t, q, a);
  }

  lemma {:induction false} RecutFrame(t: Tags, t': Tags, a: int, e: int, gone: set<int>, made: set<int>, q: int)
    requires Tiled(t) && Recutting(t, t', a, e, gone, made) && q in t.chunks && q !in gone && q != e
    ensures LocalOk(t', q)
  {
    assert LocalOk(t, q);
    RecutOutside(t, t', a, e, gone, made, q);
    if !t.head[q].pinuse { RecutBefore(t, t', a, e, gone, made, q); }
  }

  /** What a chunk made in a run that ends at e must satisfy. */
  ghost predicate MadeOk(t: Tags, e: int, p: int) {
    LocalOk(t, p) && Next(t, p) <= e && ListedOk(t, p)
  }

  lemma {:induction false} RecutLocal(t: Tags, t': Tags, a: int, e: int, gone: set<int>, made: set<int>)
    requires Tiled(t) && Recutting(t, t', a, e, gone, made)
    requires forall p :: p in made ==> MadeOk(t', e, p)
    requires e in t.chunks ==> LocalOk(t', e)
    ensures forall q {:trigger LocalOk(t', q)} :: q in t'.chunks ==> LocalOk(t', q)
    ensures forall p :: p in made ==> p in t'.head && Next(t', p) <= e && ListedOk(t', p)
  {
    forall q | q in t'.chunks ensures LocalOk(t', q) {
      if q in made {
        assert MadeOk(t', e, q);
      } else if q != e {
        RecutFrame(t, t', a, e, gone, made, q);
      }
    }
    forall p | p in made ensures p in t'.head && Next(t', p) <= e && ListedOk(t', p) { assert MadeOk(t', e, p); }
  }

  lemma {:induction false} RecutBefore(t: Tags, t': Tags, a: int, e: int, gone: set<int>, made: set<int>, q: int)
    requires Tiled(t) && Recutting(t, t', a, e, gone, made) && q in t.chunks && q !in gone && q != e
    requires q in t.head && q in t.foot && !t.head[q].pinuse
    ensures q in t'.foot && t'.foot[q] == t.foot[q]
    ensures var r := q - t.foot[q];
            r in t'.chunks && r in t'.head && t'.head[r].size == t.foot[q] && !t'.head[r].cinuse && r != t'.top
  {
    assert LocalOk(t, q);
    RecutOutside(t, t', a, e, gone, made, q);
    var r := q - t.foot[q];
    NotGone(t, a, e, gone, r, q);
    if r != e { RecutOutside(t, t', a, e, gone, made, r); }
  }

  lemma {:induction false} NotGone(t: Tags, a: int, e: int, gone: set<int>, r: int, q: int)
    requires Apart(t) && Run(t, a, e, gone) && r in t.chunks && r in t.head && r < q == Next(t, r) && !(a < q <= e)
    ensures r !in gone
  {
    assert ApartAt(t, r, e);
  }

  lemma {:induction false} RecutApart(t: Tags, t': Tags, a: int, e: int, gone: set<int>, made: set<int>)
    requires Tiled(t) && Recutting(t, t', a, e, gone, made)
    requires forall p :: p in made && p in t'.head ==> Next(t', p) <= e
    requires forall p, q :: p in made && p in t'.head && q in made && p < q ==> Next(t', p) <= q
    requires forall p :: p in made ==> p in t'.head
    ensures Apart(t')
  {
    forall p, q | p in t'.chunks && p in t'.head && (q in t'.chunks || q in t'.ends) && p < q
      ensures Next(t', p) <= q
    {
      if p in made {
        assert q in made || q >= e;
        assert Next(t', p) <= e;
      } else {
        assert p in t.head && t'.head[p].size == t.head[p].size by {
          if p != e { RecutOutside(t, t', a, e, gone, made, p); }
        }
        if q in made { RecutOutside(t, t', a, e, gone, made, p); } else { assert ApartAt(t, p, q); }
      }
    }
    forall p, q ensures ApartAt(t', p, q) {}
  }

  lemma {:induction false} RecutTopEnd(t: Tags, t': Tags, a: int, e: int, gone: set<int>, made: set<int>)
    requires Tiled(t) && Recutting(t, t', a, e, gone, made)
    requires t.top in gone ==> t'.top in t'.head && Next(t', t'.top) == e
    ensures (t.top == 0 <==> t'.top == 0) && (t.top != 0 ==> t.top in t.head && t'.top in t'.head)
    ensures t.top != 0 ==> Next(t', t'.top) == Next(t, t.top) && t'.top >= t.segs[0].base
  {
    if t.top in gone {
      assert LocalOk(t, a) && LocalOk(t, t.top) && ApartAt(t, t.top, e);
      assert Next(t, t.top) == e;
      var j :| 0 <= j < |t.segs| && t.segs[j].base <= a && e < End(t.segs[j]);
      SameSegment(t.segs, 0, j, t.top);
    } else if t.top != 0 {
      if t.top != e { RecutOutside(t, t', a, e, gone, made, t.top); }
    }
  }

  lemma {:induction false} RecutTop(t: Tags, t': Tags, a: int, e: int, gone: set<int>, made: set<int>)
    requires Tiled(t) && Recutting(t, t', a, e, gone, made)
    requires t.top in gone ==> t'.top in t'.head && Next(t', t'.top) == e && !t'.head[t'.top].cinuse
    requires e in t.chunks ==> LocalOk(t', e)
    ensures TopOk(t') && EndsOk(t')
  {
    assert LocalOk(t, a);
    RecutTopEnd(t, t', a, e, gone, made);
    if t'.top != 0 {
      forall q ensures BelowTopEnd(t', q) {
        assert BelowTopEnd(t, q) && BelowTopEnd(t, e);
      }
    }
    forall x | x in t'.ends
      ensures x in t'.head && x !in t'.chunks && x % 8 == 0 && Trailing(t'.segs, x)
      ensures t'.head[x].cinuse || (t'.top in t'.head && x == Next(t', t'.top))
    {
      assert x in t.ends && x in t.head;
      if a <= x <= e { assert x == e; }
    }
  }

  lemma {:induction false} SameSegment(segs: seq<Segment>, i: nat, j: nat, x: int)
    requires Disjoint(segs) && i < |segs| && j < |segs|
    requires segs[i].base <= x < End(segs[i]) && segs[j].base <= x < End(segs[j])
    ensures i == j
  {
  }

  /** A segment's first chunk in a run is the run's first chunk. */
  lemma {:induction false} RunBottom(t: Tags, a: int, e: int, gone: set<int>, i: nat)
    requires Tiled(t) && Run(t, a, e, gone) && i < |t.segs|
    ensures a <= AlignUp(t.segs[i].base) <= e ==> AlignUp(t.segs[i].base) == a
  {
    assert SegmentOk(t, t.segs[i]) && LocalOk(t, a);
    var b := AlignUp(t.segs[i].base);
    AlignLeast(t.segs[i].base, a);
    var j :| 0 <= j < |t.segs| && t.segs[j].base <= a && e < End(t.segs[j]);
    if a <= b <= e {
      SameSegment(t.segs, i, j, b);
    }
  }

  lemma {:induction false} RecutSegments(t: Tags, t': Tags, a: int, e: int, gone: set<int>, made: set<int>)
    requires Tiled(t) && Recutting(t, t', a, e, gone, made)
    ensures SegmentsOk(t')
  {
    forall i | 0 <= i < |t.segs| ensures SegmentOk(t', t.segs[i]) {
      assert SegmentOk(t, t.segs[i]);
      var b := AlignUp(t.segs[i].base);
      if a <= b <= e {
        RunBottom(t, a, e, gone, i);
      } else {
        RecutOutside(t, t', a, e, gone, made, b);
      }
    }
  }

  lemma {:induction false} RecutListed(t: Tags, t': Tags, a: int, e: int, gone: set<int>, made: set<int>)
    requires Tiled(t) && Recutting(t, t', a, e, gone, made)
    requires forall p :: p in made ==> p in t'.head && ListedOk(t', p)
    requires Kept(t.free, t'.free, gone, made) && Kept(t.used, t'.used, gone, made)
    ensures forall p {:trigger ListedOk(t', p)} :: ListedOk(t', p)
  {
    forall p ensures ListedOk(t', p) {
      assert ListedOk(t, p);
      if p in t.chunks && p !in gone {
        assert LocalOk(t, p);
        if p != e { RecutOutside(t, t', a, e, gone, made, p); }
      }
    }
  }

  lemma {:induction false} Recut(t: Tags, t': Tags, a: int, e: int, gone: set<int>, made: set<int>)
    requires Tiled(t) && Recutting(t, t', a, e, gone, made)
    requires forall p :: p in made ==> MadeOk(t', e, p)
    requires e in t.chunks ==> LocalOk(t', e)
    requires forall p, q :: p in made && p in t'.head && q in made && p < q ==> Next(t', p) <= q
    requires t.top in gone ==> t'.top in t'.head && Next(t', t'.top) == e && !t'.head[t'.top].cinuse
    requires Kept(t.free, t'.free, gone, made) && Kept(t.used, t'.used, gone, made)
    ensures Tiled(t')
  {
    RecutLocal(t, t', a, e, gone, made);
    RecutApart(t, t', a, e, gone, made);
    RecutTop(t, t', a, e, gone, made);
    RecutSegments(t, t', a, e, gone, made);
    RecutListed(t, t', a, e, gone, made);
  }

  // ----- the ways in which the allocator cuts a run -----

  /** Only the words at these addresses may have been written. */
  ghost predicate Wrote<T>(m: map<int, T>, m': map<int, T>, at: set<int>) {
    forall q :: q in m && q !in at ==> q in m' && m'[q] == m[q]
  }

  /** The run from a to e becomes the made chunks, by writing the header words of those and of e. */
  ghost predicate Rewritten(t: Tags, t': Tags, a: int, e: int, gone: set<int>, made: set<int>) {
    && Run(t, a, e, gone)
    && t'.chunks == t.chunks - gone + made && t'.ends == t.ends && t'.records == t.records && t'.segs == t.segs
    && Wrote(t.head, t'.head, made + {e}) && Wrote(t.foot, t'.foot, {e})
    && a in t.head && a in t'.head && e in t.head && e in t'.head
    && t'.head[e] == t.head[e].(pinuse := t'.head[e].pinuse)
  }

  /** The run from a to e becomes one chunk. */
  ghost predicate One(t: Tags, t': Tags, a: int, e: int, gone: set<int>, inuse: bool) {
    && Rewritten(t, t', a, e, gone, {a}) && t'.top == t.top && e in t.chunks
    && t'.head[a] == Head(e - a, inuse, t.head[a].pinuse) && t'.head[e].pinuse == inuse
    && (!inuse ==> e in t'.foot && t'.foot[e] == e - a && t.head[a].pinuse && t.head[e].cinuse)
    && t'.free == (if inuse then t.free - gone else (t.free - gone)[a := e - a])
    && t'.used == (if inuse then (t.used - gone)[a := e - a] else t.used - gone)
  }

  /** The run from a to e becomes a chunk in use up to m and another chunk. */
  ghost predicate Two(t: Tags, t': Tags, a: int, m: int, e: int, gone: set<int>, inuse: bool) {
    && Rewritten(t, t', a, e, gone, {a, m}) && t'.top == t.top && e in t.chunks
    && a + MIN_CHUNK_SIZE <= m <= e - MIN_CHUNK_SIZE && m % 8 == 0
    && t'.head[a] == Head(m - a, true, t.head[a].pinuse)
    && m in t'.head && t'.head[m] == Head(e - m, inuse, true) && t'.head[e].pinuse == inuse
    && (!inuse ==> e in t'.foot && t'.foot[e] == e - m && t.head[e].cinuse)
    && t'.free == (if inuse then t.free - gone else (t.free - gone)[m := e - m])
    && t'.used == (if inuse then (t.used - gone)[a := m - a][m := e - m] else (t.used - gone)[a := m - a])
  }

  /** The run from a to e, which holds top, becomes top. */
  ghost predicate NewTop(t: Tags, t': Tags, a: int, e: int, gone: set<int>) {
    && Rewritten(t, t', a, e, gone, {a}) && t.top in gone && t'.top == a && t.head[a].pinuse
    && t'.head[a] == Head(e - a, false, true) && t'.head[e] == t.head[e]
    && t'.free == t.free - gone && t'.used == t.used - gone
  }

  /** The run from a to e, which holds top, becomes a chunk in use up to m and top. */
  ghost predicate UseThenTop(t: Tags, t': Tags, a: int, m: int, e: int, gone: set<int>) {
    && Rewritten(t, t', a, e, gone, {a, m}) && t.top in gone && t'.top == m
    && a + MIN_CHUNK_SIZE <= m < e && m % 8 == 0
    && t'.head[a] == Head(m - a, true, t.head[a].pinuse)
    && m in t'.head && t'.head[m] == Head(e - m, false, true) && t'.head[e] == t.head[e]
    && t'.free == t.free - gone && t'.used == (t.used - gone)[a := m - a]
  }

  ghost predicate TopSize(t: Tags, topsize: nat) {
    if t.top == 0 then topsize == 0 else t.top in t.head && t.head[t.top].size == topsize
  }

  lemma {:induction false} RunBounds(t: Tags, a: int, e: int, gone: set<int>)
    requires Tiled(t) && Run(t, a, e, gone)
    ensures a in t.head && e in t.head && a % 8 == 0 && e % 8 == 0 && a > 0 && e < WORD
    ensures t.top !in gone ==> e - a >= MIN_CHUNK_SIZE
    ensures t.top in gone ==> e in t.ends && Next(t, t.top) == e && !t.head[e].pinuse
    ensures e in t.chunks ==> t.top !in gone
  {
    assert LocalOk(t, a);
    if e in t.chunks { assert LocalOk(t, e); }
    assert ApartAt(t, a, e);
    var i :| 0 <= i < |t.segs| && t.segs[i].base <= a && e < End(t.segs[i]);
    assert SegmentOk(t, t.segs[i]);
    if t.top in gone {
      assert LocalOk(t, t.top) && ApartAt(t, t.top, e);
    }
  }

  lemma {:induction false} WithinPart(segs: seq<Segment>, a: int, e: int, lo: int, hi: int)
    requires Within(segs, a, e) && a <= lo && hi <= e
    ensures Within(segs, lo, hi)
  {
  }

  /** The chunk behind a run. */
  lemma {:induction false} Behind(t: Tags, t': Tags, a: int, e: int, gone: set<int>, made: set<int>, last: int)
    requires Tiled(t) && Recutting(t, t', a, e, gone, made) && e in t.chunks
    requires last in made && last in t'.head && Next(t', last) == e && last != t'.top
    requires t'.head[e].pinuse == t'.head[last].cinuse
    requires !t'.head[last].cinuse ==> t.head[e].cinuse && e in t'.foot && t'.foot[e] == e - last
    ensures LocalOk(t', e)
  {
    assert LocalOk(t, e);
    var n := Next(t, e);
    assert n in t'.head && t'.head[n] == t.head[n];
    assert n in t.foot ==> n in t'.foot && t'.foot[n] == t.foot[n];
    assert n in t.chunks ==> n in t'.chunks;
  }

  /** What the chunk before a run sees of it. */
  ghost predicate BeforeOk(t: Tags, p: int)
    requires p in t.head
  {
    !t.head[p].pinuse ==>
      && p in t.foot
      && var q := p - t.foot[p];
      && q in t.chunks && q in t.head && t.head[q].size == t.foot[p] && !t.head[q].cinuse && q != t.top
  }

  lemma {:induction false} Before(t: Tags, t': Tags, a: int, e: int, gone: set<int>, made: set<int>)
    requires Tiled(t) && Recutting(t, t', a, e, gone, made)
    ensures BeforeOk(t', a)
  {
    assert LocalOk(t, a);
    if !t.head[a].pinuse {
      var q := a - t.foot[a];
      assert Next(t, q) == a;
      assert q !in gone;
    }
  }

  /** A chunk that is cut out of a run. */
  lemma {:induction false} Inside(t: Tags, t': Tags, a: int, e: int, gone: set<int>, made: set<int>, p: int)
    requires Tiled(t) && Recutting(t, t', a, e, gone, made)
    requires p in made && p % 8 == 0 && p in t'.head && BeforeOk(t', p) && a <= p
    requires var h := t'.head[p];
             var n := Next(t', p);
             && 0 < h.size && h.size % 8 == 0 && (p != t'.top ==> h.size >= MIN_CHUNK_SIZE)
             && n in t'.head && t'.head[n].pinuse == h.cinuse && n <= e
             && (n in t'.chunks || (n in t'.ends && p == t'.top))
             && (!h.cinuse ==> h.pinuse && (p == t'.top || (n in t'.chunks && n in t'.foot && t'.foot[n] == h.size)))
    requires made !! t.records
    ensures LocalOk(t', p)
  {
    RunBounds(t, a, e, gone);
    WithinPart(t.segs, a, e, p, Next(t', p));
  }

  lemma {:induction false} RewrittenRecuts(t: Tags, t': Tags, a: int, e: int, gone: set<int>, made: set<int>)
    requires Rewritten(t, t', a, e, gone, made) && a in made && forall q :: q in made ==> a <= q < e
    requires t'.head[a].pinuse == t.head[a].pinuse && (if t.top in gone then t'.top in made else t'.top == t.top)
    ensures Recutting(t, t', a, e, gone, made)
  {
  }

  lemma {:induction false} CutOne(t: Tags, t': Tags, a: int, e: int, gone: set<int>, inuse: bool, topsize: nat)
    requires Tiled(t) && One(t, t', a, e, gone, inuse) && TopSize(t, topsize)
    ensures Tiled(t') && TopSize(t', topsize)
  {
    RunBounds(t, a, e, gone);
    RewrittenRecuts(t, t', a, e, gone, {a});
    AlignedDiff(e, a);
    Before(t, t', a, e, gone, {a});
    Inside(t, t', a, e, gone, {a}, a);
    Behind(t, t', a, e, gone, {a}, a);
    assert MadeOk(t', e, a);
    Recut(t, t', a, e, gone, {a});
    TopKept(t, t', a, e, gone, {a}, topsize);
  }

  lemma {:induction false} CutTwo(t: Tags, t': Tags, a: int, m: int, e: int, gone: set<int>, inuse: bool, topsize: nat)
    requires Tiled(t) && Two(t, t', a, m, e, gone, inuse) && TopSize(t, topsize)
    ensures Tiled(t') && TopSize(t', topsize)
  {
    TwoParts(t, t', a, m, e, gone, inuse);
    RecutTwo(t, t', a, m, e, gone, topsize);
  }

  lemma {:induction false} RecutTwo(t: Tags, t': Tags, a: int, m: int, e: int, gone: set<int>, topsize: nat)
    requires Tiled(t) && Recutting(t, t', a, e, gone, {a, m}) && t.top !in gone && LocalOk(t', e)
    requires MadeOk(t', e, a) && MadeOk(t', e, m) && Next(t', a) == m && a < m && TopSize(t, topsize)
    requires Kept(t.free, t'.free, gone, {a, m}) && Kept(t.used, t'.used, gone, {a, m})
    ensures Tiled(t') && TopSize(t', topsize)
  {
    Recut(t, t', a, e, gone, {a, m});
    TopKept(t, t', a, e, gone, {a, m}, topsize);
  }

  lemma {:induction false} TwoParts(t: Tags, t': Tags, a: int, m: int, e: int, gone: set<int>, inuse: bool)
    requires Tiled(t) && Two(t, t', a, m, e, gone, inuse)
    ensures Recutting(t, t', a, e, gone, {a, m}) && t.top !in gone && LocalOk(t', e)
    ensures MadeOk(t', e, a) && MadeOk(t', e, m)
    ensures Kept(t.free, t'.free, gone, {a, m}) && Kept(t.used, t'.used, gone, {a, m})
  {
    RunBounds(t, a, e, gone);
    RewrittenRecuts(t, t', a, e, gone, {a, m});
    LocalTwo(t, t', a, m, e, gone, inuse);
    ListedTwo(t, t', a, m, gone, e - m, inuse);
  }

  lemma {:induction false} TopKept(t: Tags, t': Tags, a: int, e: int, gone: set<int>, made: set<int>, topsize: nat)
    requires Tiled(t) && Recutting(t, t', a, e, gone, made) && t.top !in gone && TopSize(t, topsize)
    ensures TopSize(t', topsize)
  {
    if t.top != 0 && t.top != e { RecutOutside(t, t', a, e, gone, made, t.top); }
  }

  lemma {:induction false} ListedTwo(t: Tags, t': Tags, a: int, m: int, gone: set<int>, rsize: nat, inuse: bool)
    requires a < m && a in gone && {a, m} <= t'.chunks && {a, m} !! t'.records
    requires a in t'.head && t'.head[a].cinuse && t'.head[a].size == m - a && a != t'.top
    requires m in t'.head && t'.head[m].cinuse == inuse && t'.head[m].size == rsize
    requires t'.free == if inuse || m == t'.top then t.free - gone else (t.free - gone)[m := rsize]
    requires t'.used == if inuse then (t.used - gone)[a := m - a][m := rsize] else (t.used - gone)[a := m - a]
    requires m in gone || (m !in t.free && m !in t.used)
    ensures ListedOk(t', a) && ListedOk(t', m)
    ensures Kept(t.free, t'.free, gone, {a, m}) && Kept(t.used, t'.used, gone, {a, m})
  {
  }

  lemma {:induction false} LocalTwo(t: Tags, t': Tags, a: int, m: int, e: int, gone: set<int>, inuse: bool)
    requires Tiled(t) && Two(t, t', a, m, e, gone, inuse) && Recutting(t, t', a, e, gone, {a, m})
    ensures LocalOk(t', a) && LocalOk(t', m) && LocalOk(t', e)
    ensures t.top !in gone && {a, m} !! t.records
    ensures m in gone || (m !in t.free && m !in t.used)
  {
    RunBounds(t, a, e, gone);
    AlignedDiff(m, a);
    AlignedDiff(e, m);
    Before(t, t', a, e, gone, {a, m});
    Inside(t, t', a, e, gone, {a, m}, a);
    Inside(t, t', a, e, gone, {a, m}, m);
    assert ListedOk(t, m);
    Behind(t, t', a, e, gone, {a, m}, m);
  }

  lemma {:induction false} CutNewTop(t: Tags, t': Tags, a: int, e: int, gone: set<int>)
    requires Tiled(t) && NewTop(t, t', a, e, gone)
    ensures Tiled(t')
  {
    RunBounds(t, a, e, gone);
    RewrittenRecuts(t, t', a, e, gone, {a});
    AlignedDiff(e, a);
    Before(t, t', a, e, gone, {a});
    Inside(t, t', a, e, gone, {a}, a);
    assert MadeOk(t', e, a);
    Recut(t, t', a, e, gone, {a});
  }

  lemma {:induction false} CutUseThenTop(t: Tags, t': Tags, a: int, m: int, e: int, gone: set<int>)
    requires Tiled(t) && UseThenTop(t, t', a, m, e, gone)
    ensures Tiled(t')
  {
    UseThenTopParts(t, t', a, m, e, gone);
    Recut(t, t', a, e, gone, {a, m});
  }

  lemma {:induction false} UseThenTopParts(t: Tags, t': Tags, a: int, m: int, e: int, gone: set<int>)
    requires Tiled(t) && UseThenTop(t, t', a, m, e, gone)
    ensures Recutting(t, t', a, e, gone, {a, m}) && (e in t.chunks ==> LocalOk(t', e))
    ensures MadeOk(t', e, a) && MadeOk(t', e, m)
    ensures Kept(t.free, t'.free, gone, {a, m}) && Kept(t.used, t'.used, gone, {a, m})
  {
    RewrittenRecuts(t, t', a, e, gone, {a, m});
    LocalUseThenTop(t, t', a, m, e, gone);
    ListedTwo(t, t', a, m, gone, e - m, false);
  }

  lemma {:induction false} LocalUseThenTop(t: Tags, t': Tags, a: int, m: int, e: int, gone: set<int>)
    requires Tiled(t) && UseThenTop(t, t', a, m, e, gone) && Recutting(t, t', a, e, gone, {a, m})
    ensures LocalOk(t', a) && LocalOk(t', m)
    ensures e !in t.chunks && {a, m} !! t.records
    ensures m in gone || (m !in t.free && m !in t.used)
  {
    RunBounds(t, a, e, gone);
    AlignedDiff(m, a);
    AlignedDiff(e, m);
    Before(t, t', a, e, gone, {a, m});
    Inside(t, t', a, e, gone, {a, m}, a);
    Inside(t, t', a, e, gone, {a, m}, m);
    assert ListedOk(t, m);
  }
}
