/** Where free chunks are kept: dv, a small bin or a tree bin. */
module Placement {
  import opened TreeIndex

  datatype Places = Places(dv: int, dvsize: nat, small: map<int, nat>, large: map<int, nat>)

  /** The chunk at p is kept in exactly the place that its size asks for, and nowhere if it is not free. */
  ghost predicate PlacedAt(free: map<int, nat>, w: Places, p: int) {
    && (p in w.small <==> p in free && p != w.dv && free[p] < MIN_LARGE_SIZE)
    && (p in w.large <==> p in free && p != w.dv && free[p] >= MIN_LARGE_SIZE)
    && (p in w.small ==> w.small[p] == free[p])
    && (p in w.large ==> w.large[p] == free[p])
  }

  ghost predicate Placed(free: map<int, nat>, w: Places) {
    && 0 !in free && (w.dv == 0 <==> w.dvsize == 0)
    && (w.dv != 0 ==> w.dv in free && free[w.dv] == w.dvsize)
    && (forall p {:trigger PlacedAt(free, w, p)} :: PlacedAt(free, w, p))
  }

  ghost function Without(w: Places, p: int): Places {
    w.(small := w.small - {p}, large := w.large - {p})
  }

  ghost function With(w: Places, p: int, size: nat): Places {
    if size < MIN_LARGE_SIZE then w.(small := w.small[p := size]) else w.(large := w.large[p := size])
  }

  lemma {:induction false} PlaceRemove(free: map<int, nat>, w: Places, p: int)
    requires Placed(free, w) && p != w.dv
    ensures Placed(free - {p}, Without(w, p))
  {
    forall q ensures PlacedAt(free - {p}, Without(w, p), q) { assert PlacedAt(free, w, q); }
  }

  lemma {:induction false} PlaceAdd(free: map<int, nat>, w: Places, p: int, size: nat)
    requires Placed(free, w) && p !in free && p != 0
    ensures Placed(free[p := size], With(w, p, size))
    ensures p !in w.small && p !in w.large
  {
    assert PlacedAt(free, w, p);
    var free', w' := free[p := size], With(w, p, size);
    forall q ensures PlacedAt(free', w', q) { assert PlacedAt(free, w, q); }
  }

  lemma {:induction false} PlaceDropDv(free: map<int, nat>, w: Places)
    requires Placed(free, w) && w.dv != 0
    ensures Placed(free - {w.dv}, w.(dv := 0, dvsize := 0))
  {
    var w' := w.(dv := 0, dvsize := 0);
    forall q ensures PlacedAt(free - {w.dv}, w', q) { assert PlacedAt(free, w, q); }
  }

  lemma {:induction false} PlaceMoveDv(free: map<int, nat>, w: Places, p: int, size: nat)
    requires Placed(free, w) && w.dv != 0 && p != 0 && size > 0 && (p == w.dv || p !in free)
    ensures Placed((free - {w.dv})[p := size], w.(dv := p, dvsize := size))
  {
    var free', w' := (free - {w.dv})[p := size], w.(dv := p, dvsize := size);
    forall q ensures PlacedAt(free', w', q) { assert PlacedAt(free, w, q); }
  }

  /** The old dv goes into a bin and p becomes dv. */
  ghost function Replaced(w: Places, p: int, size: nat): Places {
    (if w.dvsize == 0 then w else With(w, w.dv, w.dvsize)).(dv := p, dvsize := size)
  }

  lemma {:induction false} PlaceReplaceDv(free: map<int, nat>, w: Places, p: int, size: nat)
    requires Placed(free, w) && p != 0 && size > 0 && p !in free
    ensures Placed(free[p := size], Replaced(w, p, size))
    ensures w.dv != 0 ==> w.dv !in w.small && w.dv !in w.large
  {
    var free', w' := free[p := size], Replaced(w, p, size);
    if w.dv != 0 { assert PlacedAt(free, w, w.dv); }
    forall q ensures PlacedAt(free', w', q) { assert PlacedAt(free, w, q); }
  }

  /** Every free chunk is in one and only one place. */
  lemma {:induction false} PlacedOnce(free: map<int, nat>, w: Places, p: int)
    requires Placed(free, w)
    ensures p in free <==> (p == w.dv && w.dv != 0) || p in w.small || p in w.large
    ensures !(p in w.small && p in w.large) && (p == w.dv && w.dv != 0 ==> p !in w.small && p !in w.large)
  {
    assert PlacedAt(free, w, p);
  }
}
