/** Insertion and removal in sequences. */
module Sequences {

  ghost predicate Differ<T>(ring: seq<T>, i: nat, j: nat) {
    i < |ring| && j < |ring| && i != j ==> ring[i] != ring[j]
  }

  ghost predicate NoDup<T>(ring: seq<T>) {
    forall i, j {:trigger Differ(ring, i, j)} :: Differ(ring, i, j)
  }

  lemma Distinct<T>(s: seq<T>)
    ensures NoDup(s) <==> forall i, j :: 0 <= i < j < |s| ==> s[i] != s[j]
  {
    if NoDup(s) {
      forall i, j | 0 <= i < j < |s| ensures s[i] != s[j] { assert Differ(s, i, j); }
    }
  }

  function InsertAt<T>(s: seq<T>, k: nat, x: T): seq<T>
    requires k <= |s|
  {
    s[..k] + [x] + s[k..]
  }

  function RemoveAt<T>(s: seq<T>, k: nat): seq<T>
    requires k < |s|
  {
    s[..k] + s[k + 1..]
  }

  /** The place of an element. */
  function Find<T(==)>(s: seq<T>, x: T): (k: nat)
    requires x in s
    ensures k < |s| && s[k] == x
  {
    if s[0] == x then 0 else 1 + Find(s[1..], x)
  }

  lemma {:induction false} FindUnique<T>(s: seq<T>, k: nat)
    requires NoDup(s) && k < |s|
    ensures Find(s, s[k]) == k
  {
    assert Differ(s, Find(s, s[k]), k);
  }

  /** Removal undoes insertion. */
  lemma RemoveInserted<T>(s: seq<T>, k: nat, x: T)
    requires k <= |s|
    ensures RemoveAt(InsertAt(s, k, x), k) == s
  {
  }

  lemma RemoveMembers<T>(s: seq<T>, k: nat)
    requires k < |s| && NoDup(s)
    ensures forall y :: y in RemoveAt(s, k) <==> y in s && y != s[k]
  {
    assert s == s[..k] + [s[k]] + s[k + 1..];
    forall i | 0 <= i < |RemoveAt(s, k)| ensures RemoveAt(s, k)[i] != s[k] {
      assert Differ(s, if i < k then i else i + 1, k);
    }
  }

  lemma RemoveNoDup<T>(ring: seq<T>, k: nat)
    requires NoDup(ring) && k < |ring|
    ensures NoDup(RemoveAt(ring, k))
  {
    var r := RemoveAt(ring, k);
    forall i: nat, j: nat ensures Differ(r, i, j) {
      assert Differ(ring, if i < k then i else i + 1, if j < k then j else j + 1);
    }
  }

  /** A list without its sentinel. */
  lemma TailNoDup<T>(e: T, items: seq<T>)
    requires NoDup([e] + items)
    ensures NoDup(items) && e !in items
  {
    forall i: nat, j: nat ensures Differ(items, i, j) { assert Differ([e] + items, i + 1, j + 1); }
    forall i | 0 <= i < |items| ensures items[i] != e { assert Differ([e] + items, 0, i + 1); }
  }

  lemma RemoveFacts<T>(e: T, items: seq<T>, k: nat)
    requires NoDup([e] + items) && k < |items|
    ensures RemoveAt([e] + items, k + 1) == [e] + RemoveAt(items, k)
    ensures NoDup([e] + RemoveAt(items, k))
    ensures forall y :: y in RemoveAt(items, k) <==> y in items && y != items[k]
    ensures k > 0 ==> items[k - 1] in items && items[k - 1] != items[k]
    ensures items[k] != e
  {
    RemoveNoDup([e] + items, k + 1);
    TailNoDup(e, items);
    RemoveMembers(items, k);
    if k > 0 { assert Differ(items, k - 1, k); }
  }

  lemma InsertNoDup<T>(s: seq<T>, k: nat, x: T)
    requires NoDup(s) && x !in s && k <= |s|
    ensures NoDup(InsertAt(s, k, x))
  {
    var r := InsertAt(s, k, x);
    forall i: nat, j: nat ensures Differ(r, i, j) {
      assert Differ(s, if i <= k then i else i - 1, if j <= k then j else j - 1);
    }
  }

  lemma InsertMembers<T>(s: seq<T>, k: nat, x: T)
    requires k <= |s|
    ensures forall y :: y in InsertAt(s, k, x) <==> y in s || y == x
  {
    assert s == s[..k] + s[k..];
  }

  lemma InsertRing<T>(e: T, items: seq<T>, k: nat, x: T)
    requires k <= |items|
    ensures InsertAt([e] + items, k + 1, x) == [e] + InsertAt(items, k, x)
  {
  }
}
