/** The kernel's lists: circular, doubly linked, with a sentinel of the highest value. */
module Lists {
  import opened Config
  import opened Sequences
  import RR = RoundRobin

  class Item {
    var value: nat
    var next: Item?
    var prev: Item?
    var container: List?

    constructor (value: nat)
      ensures this.value == value && container == null
    {
      this.value := value;
      next, prev, container := null, null, null;
    }
  }

  function Succ(i: nat, n: nat): nat
    requires i < n
  {
    if i + 1 < n then i + 1 else 0
  }

  function Pred(i: nat, n: nat): nat
    requires i < n
  {
    if i > 0 then i - 1 else n - 1
  }

  /** The i-th item of a ring points to both neighbours. */
  ghost predicate LinkedAt(ring: seq<Item>, i: nat)
    requires i < |ring|
    reads ring`next, ring`prev
  {
    ring[i].next == ring[Succ(i, |ring|)] && ring[i].prev == ring[Pred(i, |ring|)]
  }

  ghost predicate Linked(ring: seq<Item>)
    reads ring`next, ring`prev
  {
    forall i {:trigger LinkedAt(ring, i)} :: 0 <= i < |ring| ==> LinkedAt(ring, i)
  }

  ghost predicate Ascends(values: seq<nat>, i: nat, j: nat) {
    i < j < |values| ==> values[i] <= values[j]
  }

  ghost predicate Sorted(values: seq<nat>) {
    forall i: nat, j: nat {:trigger Ascends(values, i, j)} :: Ascends(values, i, j)
  }

  /** Where a new value goes in a sorted list: behind all values that are not greater. */
  function Place(values: seq<nat>, v: nat): (k: nat)
    ensures k <= |values|
  {
    if values == [] || values[0] > v then 0 else 1 + Place(values[1..], v)
  }

  lemma {:induction false} PlaceIs(values: seq<nat>, v: nat, k: nat)
    requires k <= |values| && (k < |values| ==> values[k] > v)
    requires forall i :: 0 <= i < k ==> values[i] <= v
    ensures Place(values, v) == k
    decreases k
  {
    if k > 0 { PlaceIs(values[1..], v, k - 1); }
  }

  lemma {:induction false} PlaceSplits(values: seq<nat>, v: nat)
    ensures var k := Place(values, v);
            && (forall i :: 0 <= i < k ==> values[i] <= v) && (k < |values| ==> values[k] > v)
    decreases values
  {
    if values != [] && values[0] <= v {
      PlaceSplits(values[1..], v);
      forall i | 0 <= i < Place(values, v) ensures values[i] <= v {
        if i > 0 { assert values[i] == values[1..][i - 1]; }
      }
    }
  }

  /** Insertion at its place keeps a list sorted, behind all equal values. */
  lemma {:induction false} InsertSorted(values: seq<nat>, v: nat)
    requires Sorted(values)
    ensures Sorted(InsertAt(values, Place(values, v), v))
    ensures forall i :: 0 <= i < |values| && values[i] == v ==> i < Place(values, v)
  {
    PlaceSplits(values, v);
    var k := Place(values, v);
    var r := InsertAt(values, k, v);
    forall i: nat, j: nat ensures Ascends(r, i, j) {
      if i < j < |r| { assert Ascends(values, if i <= k then i else i - 1, if j < k then j else j - 1); }
    }
    forall i | 0 <= i < |values| && values[i] == v ensures i < k { assert Ascends(values, k, i); }
  }

  lemma RemoveSorted(values: seq<nat>, k: nat)
    requires Sorted(values) && k < |values|
    ensures Sorted(RemoveAt(values, k))
    ensures RemoveAt(values, k) != [] ==> values[0] <= RemoveAt(values, k)[0]
  {
    var r := RemoveAt(values, k);
    forall i: nat, j: nat ensures Ascends(r, i, j) {
      assert Ascends(values, if i < k then i else i + 1, if j < k then j else j + 1);
    }
    if r != [] { assert Ascends(values, 0, 1); }
  }

  /** The position of an item in the ring of e and items, which it is in. */
  function Position(e: Item, items: seq<Item>, index: Item): nat {
    if index == e || index !in items then 0 else Find(items, index) + 1
  }

  /** With the results of Insert and Remove, removing an item undoes its insertion, wherever it went. */
  lemma {:induction false} RemoveUndoesInsert(items: seq<Item>, x: Item, k: nat, j: nat)
    requires NoDup(items) && x !in items && k <= |items| && j <= |items| && InsertAt(items, k, x)[j] == x
    ensures RemoveAt(InsertAt(items, k, x), j) == items
  {
    InsertNoDup(items, k, x);
    assert InsertAt(items, k, x)[k] == x;
    FindUnique(InsertAt(items, k, x), k);
    FindUnique(InsertAt(items, k, x), j);
    RemoveInserted(items, k, x);
  }

  class List {
    const end: Item
    var index: Item
    var count: nat
    ghost var items: seq<Item>

    ghost function Ring(): seq<Item>
      reads this
    {
      [end] + items
    }

    ghost function Values(): seq<nat>
      reads this, items
    {
      seq(|items|, i requires 0 <= i < |items| reads this, items => items[i].value)
    }

    ghost predicate Valid()
      reads this, end, items
    {
      && NoDup(Ring())
      && Linked(Ring())
      && (forall y :: y in items ==> y.container == this && y.value <= MAX_DELAY)
      && end.container == null && end.value == MAX_DELAY
      && count == |items|
      && (index == end || index in items)
    }

    /** The position of index in the ring. */
    ghost function At(): (j: nat)
      requires index == end || index in items
      reads this
      ensures j < |Ring()| && Ring()[j] == index
    {
      Position(end, items, index)
    }

    /** The list as the time sharing of ready lists sees it. */
    ghost function View(): RR.Ready<Item>
      requires index == end || index in items
      reads this
    {
      RR.Ready(items, At())
    }

    /** vListInitialise. */
    constructor ()
      ensures Valid() && items == [] && index == end && fresh(end)
    {
      var e := new Item(MAX_DELAY);
      end := e;
      index := e;
      count := 0;
      items := [];
      new;
      end.next := end;
      end.prev := end;
    }

    /** vListInsertEnd: x becomes the last item before index. */
    method InsertEnd(x: Item)
      requires Valid() && x !in Ring() && x.container == null && x.value <= MAX_DELAY
      modifies this`count, this`items, x`next, x`prev, x`container, Ring()`next, Ring()`prev
      ensures Valid() && index == old(index)
      ensures var j := old(At()); items == InsertAt(old(items), if j == 0 then |old(items)| else j - 1, x)
      ensures View() == RR.Next(old(View()), RR.Arrive(x))
      ensures x.container == this
    {
      ghost var j := At();
      ghost var k := Pred(j, |items| + 1);
      ghost var was := items;
      LinkIn(x, j);
      items := InsertAt(items, k, x);
      InsertRing(end, was, k, x);
      assert NoDup(Ring()) by { InsertNoDup([end] + was, k + 1, x); }
      assert Linked(Ring());
      assert forall y :: y in items ==> y.container == this && y.value <= MAX_DELAY by { InsertMembers(was, k, x); }
      ArriveView(end, was, j, x);
      assert Valid();
    }

    /** The writes of vListInsertEnd. */
    method LinkIn(x: Item, ghost j: nat)
      requires Valid() && x !in Ring() && j == At()
      modifies this`count, x`next, x`prev, x`container, Ring()`next, Ring()`prev
      ensures Linked(InsertAt(Ring(), Pred(j, |Ring()|) + 1, x)) && x.container == this && count == old(count) + 1
    {
      LinkBefore(Ring(), j, index, x);
      x.container := this;
      count := count + 1;
    }

    /** vListInsert: behind all items whose values are not greater. */
    method Insert(x: Item)
      requires Valid() && x !in Ring() && x.container == null && x.value <= MAX_DELAY
      modifies this`count, this`items, x`next, x`prev, x`container, Ring()`next, Ring()`prev
      ensures Valid() && index == old(index)
      ensures items == InsertAt(old(items), Place(old(Values()), x.value), x)
      ensures x.container == this
    {
      var it, k := FindPlace(x.value);
      ghost var ring := Ring();
      LinkBehind(ring, k, it, x);
      x.container := this;
      count := count + 1;
      InsertNoDup(ring, k + 1, x);
      InsertRing(end, items, k, x);
      InsertMembers(items, k, x);
      items := InsertAt(items, k, x);
    }

    /** The search of vListInsert; it ends at the sentinel at the latest, whose value is the highest. */
    method FindPlace(v: nat) returns (it: Item, ghost k: nat)
      requires Valid() && v <= MAX_DELAY
      ensures k == Place(Values(), v) && k < |Ring()| && it == Ring()[k] && it.next != null
    {
      ghost var ring := Ring();
      if v == MAX_DELAY {
        assert LinkedAt(ring, 0);
        it, k := end.prev, |items|;
      } else {
        it, k := end, 0;
        assert LinkedAt(ring, 0);
        while it.next.value <= v
          invariant k <= |items| && it == ring[k] && it.next == ring[Succ(k, |ring|)]
          invariant forall i :: 0 <= i < k ==> items[i].value <= v
          decreases |items| - k
        {
          it, k := it.next, k + 1;
          assert LinkedAt(ring, k);
        }
      }
      assert LinkedAt(ring, k);
      PlaceIs(Values(), v, k);
    }

    /** uxListRemove. */
    method Remove(x: Item) returns (left: nat, ghost k: nat)
      requires Valid() && x in items
      modifies this`count, this`items, this`index, x`container, Ring()`next, Ring()`prev
      ensures Valid() && left == count
      ensures k < |old(items)| && old(items)[k] == x && items == RemoveAt(old(items), k)
      ensures index == if old(index) == x then old(x.prev) else old(index)
      ensures View() == RR.Next(old(View()), RR.Leave(x))
      ensures x.container == null
    {
      k := Find(items, x);
      ghost var j := At();
      RemoveFacts(end, items, k);
      LeaveView(end, items, j, x);
      CutOut(x, k, j);
      items := RemoveAt(items, k);
      left := count;
    }

    /** The writes of uxListRemove. */
    method CutOut(x: Item, ghost k: nat, ghost j: nat)
      requires Valid() && k < |items| && items[k] == x && j == At()
      modifies this`count, this`index, x`container, Ring()`next, Ring()`prev
      ensures Linked(RemoveAt(Ring(), k + 1)) && x.container == null && count == old(count) - 1
      ensures index == Ring()[if j == k + 1 then k else j]
      ensures index == if old(index) == x then old(x.prev) else old(index)
    {
      ghost var ring := Ring();
      CutFacts(ring, k + 1, j);
      Unlink(ring, k + 1, x);
      if index == x {
        index := x.prev;
      }
      x.container := null;
      count := count - 1;
    }

    /** listGET_OWNER_OF_NEXT_ENTRY, which steps over the sentinel. */
    method NextEntry() returns (x: Item)
      requires Valid() && items != []
      modifies this`index
      ensures Valid() && x == index && x == RR.Chosen(old(View()))
      ensures View() == RR.Next(old(View()), RR.Pick)
    {
      ghost var j := At();
      assert LinkedAt(Ring(), j) && LinkedAt(Ring(), 0);
      TailNoDup(end, items);
      FindUnique(items, if j < |items| then j else 0);
      index := index.next;
      if index == end {
        index := index.next;
      }
      x := index;
    }
  }

  lemma {:induction false} CutFacts(ring: seq<Item>, k: nat, j: nat)
    requires 0 < k < |ring| && j < |ring| && Linked(ring) && NoDup(ring)
    ensures ring[k].prev == ring[k - 1] && ring[k].next == ring[Succ(k, |ring|)]
    ensures ring[j] == ring[k] <==> j == k
  {
    assert LinkedAt(ring, k) && LinkedAt(ring, k - 1) && Differ(ring, j, k);
  }

  /** Where index is after x came in before it. */
  lemma {:induction false} ArriveView(e: Item, items: seq<Item>, j: nat, x: Item)
    requires NoDup([e] + items) && j <= |items| && x !in [e] + items
    ensures var index := ([e] + items)[j];
            var r := RR.Next(RR.Ready(items, j), RR.Arrive(x));
            && r.items == InsertAt(items, Pred(j, |items| + 1), x)
            && r.at == Position(e, r.items, index)
            && (index == e || index in r.items)
  {
    TailNoDup(e, items);
    var k := Pred(j, |items| + 1);
    InsertNoDup(items, k, x);
    if j > 0 { FindUnique(InsertAt(items, k, x), j); }
  }

  /** Where index is after x went out; if it was at x, it is now at the item before. */
  lemma {:induction false} LeaveView(e: Item, items: seq<Item>, j: nat, x: Item)
    requires NoDup([e] + items) && j <= |items| && x in items
    ensures var k := Find(items, x);
            var index := ([e] + items)[if j == k + 1 then k else j];
            var r := RR.Next(RR.Ready(items, j), RR.Leave(x));
            && r.items == RemoveAt(items, k) && r.at == Position(e, r.items, index)
            && (index == e || index in r.items)
  {
    var k := Find(items, x);
    var i := if j == k + 1 then k else j;
    TailNoDup(e, items);
    if i > 0 { StaysAt(e, items, k, i - 1); }
  }

  /** Where an item is after another went out. */
  lemma {:induction false} StaysAt(e: Item, items: seq<Item>, k: nat, i: nat)
    requires NoDup(items) && e !in items && k < |items| && i < |items| && i != k
    ensures Position(e, RemoveAt(items, k), items[i]) == (if i < k then i else i - 1) + 1
    ensures items[i] in RemoveAt(items, k)
  {
    var at := if i < k then i else i - 1;
    RemoveNoDup(items, k);
    assert RemoveAt(items, k)[at] == items[i];
    FindUnique(RemoveAt(items, k), at);
  }

  /** What the pointer writes that link x in behind the ring's k-th item leave in the i-th. */
  ghost predicate SplicedAt(ring: seq<Item>, k: nat, x: Item, i: nat)
    requires k < |ring| && i < |ring|
    reads ring`next, ring`prev
  {
    && ring[i].next == (if i == k then x else ring[Succ(i, |ring|)])
    && ring[i].prev == (if i == Succ(k, |ring|) then x else ring[Pred(i, |ring|)])
  }

  lemma {:induction false} FinishInsert(ring: seq<Item>, k: nat, x: Item)
    requires k < |ring| && x.next == ring[Succ(k, |ring|)] && x.prev == ring[k]
    requires forall i {:trigger SplicedAt(ring, k, x, i)} :: 0 <= i < |ring| ==> SplicedAt(ring, k, x, i)
    ensures Linked(InsertAt(ring, k + 1, x))
  {
    var r := InsertAt(ring, k + 1, x);
    forall i | 0 <= i < |r| ensures LinkedAt(r, i) {
      if i != k + 1 { assert SplicedAt(ring, k, x, if i <= k then i else i - 1); }
    }
  }

  /** The pointer writes of vListInsert. */
  method LinkBehind(ghost ring: seq<Item>, ghost k: nat, it: Item, x: Item)
    requires k < |ring| && Linked(ring) && NoDup(ring) && x !in ring && it == ring[k]
    modifies x`next, x`prev, ring`next, ring`prev
    ensures Linked(InsertAt(ring, k + 1, x))
  {
    assert LinkedAt(ring, k);
    x.next := it.next;
    x.next.prev := x;
    x.prev := it;
    it.next := x;
    forall i | 0 <= i < |ring| ensures SplicedAt(ring, k, x, i) {
      assert old(LinkedAt(ring, i)) && Differ(ring, i, k) && Differ(ring, i, Succ(k, |ring|));
    }
    FinishInsert(ring, k, x);
  }

  /** The pointer writes of vListInsertEnd. */
  method LinkBefore(ghost ring: seq<Item>, ghost j: nat, it: Item, x: Item)
    requires j < |ring| && Linked(ring) && NoDup(ring) && x !in ring && it == ring[j]
    modifies x`next, x`prev, ring`next, ring`prev
    ensures Linked(InsertAt(ring, Pred(j, |ring|) + 1, x))
  {
    ghost var k := Pred(j, |ring|);
    assert LinkedAt(ring, j) && LinkedAt(ring, k);
    x.next := it;
    x.prev := it.prev;
    it.prev.next := x;
    it.prev := x;
    forall i | 0 <= i < |ring| ensures SplicedAt(ring, k, x, i) {
      assert old(LinkedAt(ring, i)) && Differ(ring, i, k) && Differ(ring, i, j);
    }
    FinishInsert(ring, k, x);
  }

  /** The pointer writes of uxListRemove; x keeps its own pointers. */
  method Unlink(ghost ring: seq<Item>, ghost k: nat, x: Item)
    requires 0 < k < |ring| && Linked(ring) && NoDup(ring) && x == ring[k] && x.next != null && x.prev != null
    modifies ring`next, ring`prev
    ensures Linked(RemoveAt(ring, k)) && x.prev == old(x.prev)
  {
    assert LinkedAt(ring, k) && LinkedAt(ring, k - 1) && LinkedAt(ring, Succ(k, |ring|));
    x.next.prev := x.prev;
    x.prev.next := x.next;
    forall i {:trigger CutAt(ring, k, i)} | 0 <= i < |ring| && i != k ensures CutAt(ring, k, i) {
      assert old(LinkedAt(ring, i)) && Differ(ring, i, Succ(k, |ring|)) && Differ(ring, i, k - 1);
    }
    FinishRemove(ring, k);
  }

  /** What the pointer writes that cut the k-th item out of the ring leave in the i-th. */
  ghost predicate CutAt(ring: seq<Item>, k: nat, i: nat)
    requires k < |ring| && i < |ring|
    reads ring`next, ring`prev
  {
    && ring[i].next == ring[if Succ(i, |ring|) == k then Succ(k, |ring|) else Succ(i, |ring|)]
    && ring[i].prev == ring[if Pred(i, |ring|) == k then Pred(k, |ring|) else Pred(i, |ring|)]
  }

  lemma {:induction false} FinishRemove(ring: seq<Item>, k: nat)
    requires 0 < k < |ring|
    requires forall i {:trigger CutAt(ring, k, i)} :: 0 <= i < |ring| && i != k ==> CutAt(ring, k, i)
    ensures Linked(RemoveAt(ring, k))
  {
    var r := RemoveAt(ring, k);
    forall i | 0 <= i < |r| ensures LinkedAt(r, i) { assert CutAt(ring, k, if i < k then i else i + 1); }
  }
}
