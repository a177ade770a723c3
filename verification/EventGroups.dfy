/** Event groups: tasks wait for any or all of some bits, and one pass over the list serves them all. */
module EventGroups {
  import opened Sequences

  /** A word, as the set of the positions of its one bits. */
  type Word = set<nat>

  /** The bits of a word that the kernel keeps for itself, with those it gives a meaning to. */
  const CONTROL: Word := {24, 25, 26, 27, 28, 29, 30, 31}
  const CLEAR_ON_EXIT: nat := 24
  const UNBLOCKED: nat := 25
  const WAIT_FOR_ALL: nat := 26
  const IN_USE: nat := 31

  /** An event group with, for each task that uses it, the value of its event list item: while it waits, the bits
      it waits for and how; once released, the bits that released it. */
  datatype Group = Group(bits: Word, waiting: seq<int>, value: map<int, Word>)

  function Item(value: map<int, Word>, t: int): Word {
    if t in value then value[t] else {}
  }

  function WaitedFor(item: Word): Word {
    item - CONTROL
  }

  /** prvTestWaitCondition. */
  predicate Condition(bits: Word, wanted: Word, all: bool) {
    if all then bits * wanted == wanted else bits * wanted != {}
  }

  /** All of the bits waited for are set, or any of them. */
  lemma ConditionExact(bits: Word, wanted: Word)
    ensures Condition(bits, wanted, true) <==> wanted <= bits
    ensures Condition(bits, wanted, false) <==> exists b :: b in wanted && b in bits
  {
    if bits * wanted == wanted {
      forall b | b in wanted ensures b in bits { assert b in bits * wanted; }
    }
    if b :| b in wanted && b in bits { assert b in bits * wanted; }
    if b :| b in bits * wanted { assert b in wanted && b in bits; }
  }

  predicate Met(bits: Word, item: Word) {
    Condition(bits, WaitedFor(item), WAIT_FOR_ALL in item)
  }

  /** What a waiting task keeps in its item. */
  function Request(wanted: Word, clear: bool, all: bool): Word {
    wanted + (if clear then {CLEAR_ON_EXIT} else {}) + (if all then {WAIT_FOR_ALL} else {}) + {IN_USE}
  }

  /** What it finds there when it is released. */
  function Release(bits: Word): Word {
    bits + {UNBLOCKED} + {IN_USE}
  }

  lemma RequestRead(wanted: Word, clear: bool, all: bool)
    requires wanted !! CONTROL
    ensures var item := Request(wanted, clear, all);
            && WaitedFor(item) == wanted && (CLEAR_ON_EXIT in item <==> clear) && (WAIT_FOR_ALL in item <==> all)
            && UNBLOCKED !in item
  {
    assert forall b :: b in wanted ==> b !in CONTROL;
  }

  lemma ReleaseRead(bits: Word)
    requires bits !! CONTROL
    ensures UNBLOCKED in Release(bits) && Release(bits) - CONTROL == bits
  {
    assert forall b :: b in bits ==> b !in CONTROL;
  }

  /** Clearing bits meets no condition. */
  lemma ClearingMeetsNothing(bits: Word, gone: Word, item: Word)
    requires !Met(bits, item)
    ensures !Met(bits - gone, item)
  {
    var w := WaitedFor(item);
    if (bits - gone) * w == w { assert bits * w == w; }
    if b :| b in (bits - gone) * w { assert b in bits * w; }
  }

  // ----- one pass over the list -----

  /** The tasks whose condition is not met, in order. */
  function Kept(bits: Word, w: seq<int>, value: map<int, Word>): seq<int>
    decreases |w|
  {
    if w == [] then []
    else
      var t := w[|w| - 1];
      Kept(bits, w[..|w| - 1], value) + if Met(bits, Item(value, t)) then [] else [t]
  }

  /** The items after the pass. */
  function Stamped(bits: Word, w: seq<int>, value: map<int, Word>): map<int, Word>
    decreases |w|
  {
    if w == [] then value
    else
      var t := w[|w| - 1];
      var rest := Stamped(bits, w[..|w| - 1], value);
      if Met(bits, Item(value, t)) then rest[t := Release(bits)] else rest
  }

  /** The bits that a task asks to be cleared when it is released. */
  function Asked(bits: Word, item: Word): Word {
    if Met(bits, item) && CLEAR_ON_EXIT in item then WaitedFor(item) else {}
  }

  function ClearMask(bits: Word, w: seq<int>, value: map<int, Word>): Word
    decreases |w|
  {
    if w == [] then {} else ClearMask(bits, w[..|w| - 1], value) + Asked(bits, Item(value, w[|w| - 1]))
  }

  /** xEventGroupSetBits. */
  function BitsSet(g: Group, s: Word): Group {
    var b := g.bits + s;
    Group(b - ClearMask(b, g.waiting, g.value), Kept(b, g.waiting, g.value), Stamped(b, g.waiting, g.value))
  }

  lemma {:induction false} KeptAre(bits: Word, w: seq<int>, value: map<int, Word>)
    requires NoDup(w)
    ensures NoDup(Kept(bits, w, value))
    ensures forall t :: t in Kept(bits, w, value) <==> t in w && !Met(bits, Item(value, t))
    decreases |w|
  {
    if w != [] {
      var v, t := w[..|w| - 1], w[|w| - 1];
      assert v == RemoveAt(w, |w| - 1);
      RemoveNoDup(w, |w| - 1);
      RemoveMembers(w, |w| - 1);
      KeptAre(bits, v, value);
      var k, r := Kept(bits, v, value), Kept(bits, w, value);
      assert t !in k;
      forall i: nat, j: nat ensures Differ(r, i, j) { assert Differ(k, i, j); }
    }
  }

  lemma {:induction false} StampedAre(bits: Word, w: seq<int>, value: map<int, Word>, t: int)
    ensures var r := Stamped(bits, w, value);
            if t in w && Met(bits, Item(value, t)) then t in r && r[t] == Release(bits)
            else (t in r <==> t in value) && (t in r ==> r[t] == value[t])
    decreases |w|
  {
    if w != [] { StampedAre(bits, w[..|w| - 1], value, t); }
  }

  /** A bit is cleared exactly when a task that is released asks for it. */
  lemma {:induction false} ClearMaskIs(bits: Word, w: seq<int>, value: map<int, Word>, b: nat)
    ensures b in ClearMask(bits, w, value) <==> exists t :: t in w && b in Asked(bits, Item(value, t))
    decreases |w|
  {
    if w != [] {
      var v, last := w[..|w| - 1], w[|w| - 1];
      assert w == v + [last];
      ClearMaskIs(bits, v, value, b);
    }
  }

  /** The order of the list does not matter for the bits cleared. */
  lemma {:induction false} OrderIrrelevant(bits: Word, w: seq<int>, v: seq<int>, value: map<int, Word>)
    requires forall t :: t in w <==> t in v
    ensures ClearMask(bits, w, value) == ClearMask(bits, v, value)
  {
    forall b: nat ensures b in ClearMask(bits, w, value) <==> b in ClearMask(bits, v, value) {
      ClearMaskIs(bits, w, value, b);
      ClearMaskIs(bits, v, value, b);
    }
  }

  /** Setting bits releases exactly the tasks whose condition is met by the old bits with the new, and gives all
      of them these same bits; then the bits that they ask for are cleared, and no others. */
  lemma {:induction false} SetReleasesExactly(g: Group, s: Word, t: int)
    requires NoDup(g.waiting) && t in g.waiting && g.bits !! CONTROL && s !! CONTROL
    ensures var r := BitsSet(g, s);
            && (t in r.waiting <==> !Met(g.bits + s, Item(g.value, t)))
            && (t !in r.waiting ==> UNBLOCKED in Item(r.value, t) && Item(r.value, t) - CONTROL == g.bits + s)
            && (t in r.waiting ==> Item(r.value, t) == Item(g.value, t))
    ensures forall b :: b in BitsSet(g, s).bits <==>
              b in g.bits + s && !exists y :: y in g.waiting && b in Asked(g.bits + s, Item(g.value, y))
  {
    var b := g.bits + s;
    KeptAre(b, g.waiting, g.value);
    StampedAre(b, g.waiting, g.value, t);
    ReleaseRead(b);
    forall x: nat ensures x in ClearMask(b, g.waiting, g.value) <==>
                          exists y :: y in g.waiting && x in Asked(b, Item(g.value, y))
    {
      ClearMaskIs(b, g.waiting, g.value, x);
    }
  }

  /** The same for the whole group. */
  lemma {:induction false} ReleasedBySet(g: Group, s: Word)
    requires NoDup(g.waiting) && g.bits !! CONTROL && s !! CONTROL
    ensures var b, r := g.bits + s, BitsSet(g, s);
            && (forall y :: y in r.waiting <==> y in g.waiting && !Met(b, Item(g.value, y)))
            && (forall y :: y in g.waiting && y !in r.waiting ==> y in r.value && r.value[y] == b + {UNBLOCKED, IN_USE})
            && (forall y :: y in r.waiting || y !in g.waiting ==>
                  (y in r.value <==> y in g.value) && (y in r.value ==> r.value[y] == g.value[y]))
            && (forall x :: x in r.bits <==>
                  x in b && !exists y :: y in g.waiting && x in Asked(b, Item(g.value, y)))
  {
    var b, r := g.bits + s, BitsSet(g, s);
    KeptAre(b, g.waiting, g.value);
    forall y ensures if y in g.waiting && Met(b, Item(g.value, y)) then y in r.value && r.value[y] == Release(b)
                     else (y in r.value <==> y in g.value) && (y in r.value ==> r.value[y] == g.value[y])
    {
      StampedAre(b, g.waiting, g.value, y);
    }
    forall x: nat ensures x in ClearMask(b, g.waiting, g.value) <==>
                          exists y :: y in g.waiting && x in Asked(b, Item(g.value, y))
    {
      ClearMaskIs(b, g.waiting, g.value, x);
    }
  }

  /** The tasks that go on waiting keep their order. */
  lemma {:induction false} KeptInOrder(bits: Word, w: seq<int>, value: map<int, Word>, y: int, z: int)
    requires NoDup(w) && y in Kept(bits, w, value) && z in Kept(bits, w, value)
    ensures y in w && z in w
    ensures Find(Kept(bits, w, value), y) < Find(Kept(bits, w, value), z) <==> Find(w, y) < Find(w, z)
    decreases |w|
  {
    KeptAre(bits, w, value);
    var v, t := w[..|w| - 1], w[|w| - 1];
    assert w == v + [t] && v == RemoveAt(w, |w| - 1);
    RemoveNoDup(w, |w| - 1);
    RemoveMembers(w, |w| - 1);
    KeptAre(bits, v, value);
    FoundBefore(v, t, y);
    FoundBefore(v, t, z);
    var k, k' := Kept(bits, v, value), Kept(bits, w, value);
    if Met(bits, Item(value, t)) {
      assert k' == k;
    } else {
      assert k' == k + [t];
      FoundBefore(k, t, y);
      FoundBefore(k, t, z);
    }
    if y in k && z in k { KeptInOrder(bits, v, value, y, z); }
  }

  lemma {:induction false} FoundBefore(s: seq<int>, t: int, y: int)
    requires NoDup(s) && t !in s && y in s + [t]
    ensures Find(s + [t], y) == if y == t then |s| else Find(s, y)
  {
    InsertNoDup(s, |s|, t);
    assert InsertAt(s, |s|, t) == s + [t];
    FindUnique(s + [t], if y == t then |s| else Find(s, y));
  }

  // ----- waiting -----

  /** vTaskPlaceOnUnorderedEventList. */
  function Placed(g: Group, t: int, item: Word): Group {
    g.(waiting := g.waiting + [t], value := g.value[t := item])
  }

  /** xEventGroupWaitBits, up to the point where the task blocks or returns. */
  function Waited(g: Group, t: int, wanted: Word, clear: bool, all: bool, patient: bool): Group {
    if Condition(g.bits, wanted, all) then g.(bits := g.bits - if clear then wanted else {})
    else if patient then Placed(g, t, Request(wanted, clear, all))
    else g
  }

  /** xEventGroupSync, up to the point where the task blocks or returns. */
  function Synced(g: Group, t: int, s: Word, wanted: Word, patient: bool): Group {
    var h := BitsSet(g, s);
    if Condition(g.bits + s, wanted, true) then h.(bits := h.bits - wanted)
    else if patient then Placed(h, t, Request(wanted, true, true))
    else h
  }

  /** The rest of these functions, for a task that did block: one that timed out looks at the bits once more. */
  function Finished(g: Group, t: int, wanted: Word, clear: bool, all: bool): Group {
    var h := g.(value := g.value - {t});
    if UNBLOCKED !in Item(g.value, t) && Condition(g.bits, wanted, all) && clear then h.(bits := h.bits - wanted) else h
  }

  /** A task that waits has not been released, and its condition is not met. */
  ghost predicate WaitsAt(g: Group, t: int) {
    t in g.waiting ==> t in g.value && UNBLOCKED !in g.value[t] && !Met(g.bits, g.value[t])
  }

  ghost predicate Valid(g: Group) {
    && g.bits !! CONTROL && NoDup(g.waiting)
    && (forall t {:trigger WaitsAt(g, t)} :: WaitsAt(g, t))
  }

  lemma {:induction false} SetKeeps(g: Group, s: Word)
    requires Valid(g) && s !! CONTROL
    ensures Valid(BitsSet(g, s))
  {
    var b, r := g.bits + s, BitsSet(g, s);
    KeptAre(b, g.waiting, g.value);
    forall t ensures WaitsAt(r, t) {
      if t in r.waiting {
        assert WaitsAt(g, t);
        StampedAre(b, g.waiting, g.value, t);
        ClearingMeetsNothing(b, ClearMask(b, g.waiting, g.value), g.value[t]);
      }
    }
  }

  lemma {:induction false} ClearKeeps(g: Group, c: Word)
    requires Valid(g)
    ensures Valid(g.(bits := g.bits - c))
  {
    forall t ensures WaitsAt(g.(bits := g.bits - c), t) {
      assert WaitsAt(g, t);
      if t in g.waiting { ClearingMeetsNothing(g.bits, c, g.value[t]); }
    }
  }

  lemma {:induction false} PlaceKeeps(g: Group, t: int, wanted: Word, clear: bool, all: bool)
    requires Valid(g) && t !in g.waiting && wanted !! CONTROL && !Condition(g.bits, wanted, all)
    ensures Valid(Placed(g, t, Request(wanted, clear, all)))
  {
    var r := Placed(g, t, Request(wanted, clear, all));
    RequestRead(wanted, clear, all);
    forall i: nat, j: nat ensures Differ(r.waiting, i, j) { assert Differ(g.waiting, i, j); }
    forall y ensures WaitsAt(r, y) { assert WaitsAt(g, y); }
  }

  lemma {:induction false} WaitKeeps(g: Group, t: int, wanted: Word, clear: bool, all: bool, patient: bool)
    requires Valid(g) && t !in g.waiting && wanted !! CONTROL
    ensures Valid(Waited(g, t, wanted, clear, all, patient))
  {
    if Condition(g.bits, wanted, all) {
      ClearKeeps(g, if clear then wanted else {});
    } else {
      PlaceKeeps(g, t, wanted, clear, all);
    }
  }

  lemma {:induction false} SyncKeeps(g: Group, t: int, s: Word, wanted: Word, patient: bool)
    requires Valid(g) && t !in g.waiting && s !! CONTROL && wanted !! CONTROL
    ensures Valid(Synced(g, t, s, wanted, patient))
  {
    SetKeeps(g, s);
    var h := BitsSet(g, s);
    KeptAre(g.bits + s, g.waiting, g.value);
    if Condition(g.bits + s, wanted, true) {
      ClearKeeps(h, wanted);
    } else {
      assert h.bits * wanted == wanted ==> (g.bits + s) * wanted == wanted;
      PlaceKeeps(h, t, wanted, true, true);
    }
  }

  lemma {:induction false} FinishKeeps(g: Group, t: int, wanted: Word, clear: bool, all: bool)
    requires Valid(g) && t !in g.waiting
    ensures Valid(Finished(g, t, wanted, clear, all))
  {
    var h := g.(value := g.value - {t});
    forall y ensures WaitsAt(h, y) { assert WaitsAt(g, y); }
    ClearKeeps(h, wanted);
  }

  /** The tick that ends the wait of a task. */
  function TimedOut(g: Group, t: int): Group {
    if t in g.waiting then g.(waiting := RemoveAt(g.waiting, Find(g.waiting, t))) else g
  }

  lemma {:induction false} TimeOutKeeps(g: Group, t: int)
    requires Valid(g)
    ensures Valid(TimedOut(g, t)) && forall y :: y in TimedOut(g, t).waiting <==> y in g.waiting && y != t
    ensures TimedOut(g, t) == g.(waiting := TimedOut(g, t).waiting)
  {
    if t in g.waiting {
      RemoveNoDup(g.waiting, Find(g.waiting, t));
      RemoveMembers(g.waiting, Find(g.waiting, t));
      forall y ensures WaitsAt(TimedOut(g, t), y) { assert WaitsAt(g, y); }
    }
  }

  // ----- runs -----

  datatype Event =
    | SetBits(s: Word)
    | ClearBits(s: Word)
    | WaitBits(t: int, wanted: Word, clear: bool, all: bool, patient: bool)
    | Sync(t: int, s: Word, wanted: Word, patient: bool)
    | TimeOut(t: int)
    | Finish(t: int, wanted: Word, clear: bool, all: bool)

  /** Callers may not use the kernel's own bits. */
  predicate Allowed(e: Event) {
    && (e.SetBits? || e.ClearBits? || e.Sync? ==> e.s !! CONTROL)
    && (e.WaitBits? || e.Sync? ==> e.wanted !! CONTROL && e.wanted != {})
  }

  /** One step; a step that is not possible now changes nothing. */
  function Step(g: Group, e: Event): Group {
    match e
    case SetBits(s) => BitsSet(g, s)
    case ClearBits(s) => g.(bits := g.bits - s)
    case WaitBits(t, wanted, clear, all, patient) =>
      if t in g.waiting || t in g.value then g else Waited(g, t, wanted, clear, all, patient)
    case Sync(t, s, wanted, patient) =>
      if t in g.waiting || t in g.value then g else Synced(g, t, s, wanted, patient)
    case TimeOut(t) => TimedOut(g, t)
    case Finish(t, wanted, clear, all) => if t in g.waiting then g else Finished(g, t, wanted, clear, all)
  }

  function Run(g: Group, events: seq<Event>): Group
    decreases |events|
  {
    if events == [] then g else Run(Step(g, events[0]), events[1..])
  }

  lemma {:induction false} StepKeeps(g: Group, e: Event)
    requires Valid(g) && Allowed(e)
    ensures Valid(Step(g, e))
  {
    match e
    case SetBits(s) => SetKeeps(g, s);
    case ClearBits(s) => ClearKeeps(g, s);
    case WaitBits(t, wanted, clear, all, patient) =>
      if t !in g.waiting { WaitKeeps(g, t, wanted, clear, all, patient); }
    case Sync(t, s, wanted, patient) =>
      if t !in g.waiting { SyncKeeps(g, t, s, wanted, patient); }
    case TimeOut(t) => TimeOutKeeps(g, t);
    case Finish(t, wanted, clear, all) =>
      if t !in g.waiting { FinishKeeps(g, t, wanted, clear, all); }
  }

  lemma {:induction false} RunKeeps(g: Group, events: seq<Event>)
    requires Valid(g) && forall i :: 0 <= i < |events| ==> Allowed(events[i])
    ensures Valid(Run(g, events))
    decreases |events|
  {
    if events != [] {
      StepKeeps(g, events[0]);
      RunKeeps(Step(g, events[0]), events[1..]);
    }
  }

  /** Between calls no task is left waiting for a condition that is met. */
  lemma {:induction false} NobodyOverlooked(events: seq<Event>, t: int)
    requires forall i :: 0 <= i < |events| ==> Allowed(events[i])
    ensures var g := Run(Group({}, [], map[]), events);
            t in g.waiting ==> t in g.value && !Met(g.bits, g.value[t])
  {
    forall y ensures WaitsAt(Group({}, [], map[]), y) { }
    RunKeeps(Group({}, [], map[]), events);
    assert WaitsAt(Run(Group({}, [], map[]), events), t);
  }

  // ----- a rendezvous -----

  datatype Party = Party(task: int, brings: Word)

  function Brought(parties: seq<Party>): Word
    decreases |parties|
  {
    if parties == [] then {} else Brought(parties[..|parties| - 1]) + parties[|parties| - 1].brings
  }

  function Tasks(parties: seq<Party>): seq<int> {
    seq(|parties|, i requires 0 <= i < |parties| => parties[i].task)
  }

  /** The parties arrive one after the other, and all wait for the same bits. */
  function Arrived(g: Group, parties: seq<Party>, mask: Word): Group
    decreases |parties|
  {
    if parties == [] then g
    else
      var p := parties[|parties| - 1];
      Synced(Arrived(g, parties[..|parties| - 1], mask), p.task, p.brings, mask, true)
  }

  lemma {:induction false} NoneMet(bits: Word, w: seq<int>, value: map<int, Word>)
    requires forall t :: t in w ==> !Met(bits, Item(value, t))
    ensures Kept(bits, w, value) == w && Stamped(bits, w, value) == value && ClearMask(bits, w, value) == {}
    decreases |w|
  {
    if w != [] {
      assert w == w[..|w| - 1] + [w[|w| - 1]];
      NoneMet(bits, w[..|w| - 1], value);
    }
  }

  lemma {:induction false} AllMet(bits: Word, w: seq<int>, value: map<int, Word>, mask: Word)
    requires mask !! CONTROL && mask * bits == mask
    requires forall t :: t in w ==> Item(value, t) == Request(mask, true, true)
    ensures Kept(bits, w, value) == [] && ClearMask(bits, w, value) == if w == [] then {} else mask
    decreases |w|
  {
    RequestRead(mask, true, true);
    if w != [] { AllMet(bits, w[..|w| - 1], value, mask); }
  }

  /** A party arrives while a bit is missing. */
  lemma {:induction false} ArrivesEarly(h: Group, p: Party, mask: Word)
    requires mask !! CONTROL && !(mask <= h.bits + p.brings) && p.task !in h.waiting
    requires forall t :: t in h.waiting ==> Item(h.value, t) == Request(mask, true, true)
    ensures var r := Synced(h, p.task, p.brings, mask, true);
            && r.bits == h.bits + p.brings && r.waiting == h.waiting + [p.task]
            && (forall t :: t in r.waiting ==> Item(r.value, t) == Request(mask, true, true))
  {
    var b := h.bits + p.brings;
    RequestRead(mask, true, true);
    assert b * mask == mask ==> mask <= b;
    NoneMet(b, h.waiting, h.value);
    assert BitsSet(h, p.brings) == Group(b, h.waiting, h.value);
  }

  lemma {:induction false} LastTask(parties: seq<Party>)
    requires parties != [] && NoDup(Tasks(parties))
    ensures var v, t := parties[..|parties| - 1], parties[|parties| - 1].task;
            NoDup(Tasks(v)) && t !in Tasks(v) && Tasks(parties) == Tasks(v) + [t]
  {
    var n := |parties| - 1;
    assert Tasks(parties[..n]) == RemoveAt(Tasks(parties), n);
    RemoveNoDup(Tasks(parties), n);
    RemoveMembers(Tasks(parties), n);
    assert Tasks(parties)[n] == parties[n].task;
  }

  /** While a bit is missing, every party that has arrived waits, and no bit is lost. */
  lemma {:induction false} Gather(g: Group, parties: seq<Party>, mask: Word)
    requires g.waiting == [] && mask !! CONTROL && !(mask <= g.bits + Brought(parties))
    requires NoDup(Tasks(parties))
    ensures var r := Arrived(g, parties, mask);
            && r.bits == g.bits + Brought(parties) && r.waiting == Tasks(parties)
            && (forall t :: t in r.waiting ==> Item(r.value, t) == Request(mask, true, true))
    decreases |parties|
  {
    if parties != [] {
      var v, p := parties[..|parties| - 1], parties[|parties| - 1];
      LastTask(parties);
      Gather(g, v, mask);
      var h := Arrived(g, v, mask);
      assert h.bits + p.brings == g.bits + Brought(parties);
      ArrivesEarly(h, p, mask);
    }
  }

  /** The party that brings the last bit releases all others, who see the same bits as it does, and the bits of
      the rendezvous are clear again. */
  lemma {:induction false} RendezvousReleasesAll(g: Group, parties: seq<Party>, last: Party, mask: Word)
    requires g.waiting == [] && mask !! CONTROL && NoDup(Tasks(parties))
    requires !(mask <= g.bits + Brought(parties)) && mask <= g.bits + Brought(parties) + last.brings
    ensures var b := g.bits + Brought(parties) + last.brings;
            var r := Synced(Arrived(g, parties, mask), last.task, last.brings, mask, true);
            && r.waiting == [] && r.bits == b - mask
            && forall i :: 0 <= i < |parties| ==> Item(r.value, parties[i].task) == Release(b)
  {
    Gather(g, parties, mask);
    var h := Arrived(g, parties, mask);
    var b := h.bits + last.brings;
    assert mask * b == mask && b * mask == mask;
    AllMet(b, h.waiting, h.value, mask);
    assert BitsSet(h, last.brings).bits - mask == b - mask;
    RequestRead(mask, true, true);
    forall i | 0 <= i < |parties|
      ensures Item(Stamped(b, h.waiting, h.value), parties[i].task) == Release(b)
    {
      assert Tasks(parties)[i] == parties[i].task;
      StampedAre(b, h.waiting, h.value, parties[i].task);
    }
  }

  /** The test of one item on the walk, with what it asks to be cleared. */
  method Matches(bits: Word, item: Word) returns (matchFound: bool, clear: bool, bitsWaitedFor: Word)
    ensures matchFound <==> Met(bits, item)
    ensures clear <==> CLEAR_ON_EXIT in item
    ensures bitsWaitedFor == WaitedFor(item)
  {
    var controlBits := item * CONTROL;
    bitsWaitedFor := item - CONTROL;
    clear := CLEAR_ON_EXIT in controlBits;
    assert bitsWaitedFor * bits == bits * bitsWaitedFor;
    if WAIT_FOR_ALL !in controlBits {
      matchFound := bitsWaitedFor * bits != {};
    } else {
      matchFound := bitsWaitedFor * bits == bitsWaitedFor;
    }
  }

  /** How far the walk has come: n tasks of the list have been looked at. */
  ghost predicate Walked(b: Word, all: seq<int>, was: map<int, Word>, n: nat,
                         waiting: seq<int>, i: nat, value: map<int, Word>, bitsToClear: Word)
  {
    && n <= |all| && i == |Kept(b, all[..n], was)| && waiting == Kept(b, all[..n], was) + all[n..]
    && value == Stamped(b, all[..n], was) && bitsToClear == ClearMask(b, all[..n], was)
  }

  /** The walk has not yet changed the items ahead of it, and its next step handles one more. */
  lemma {:induction false} WalkStep(b: Word, all: seq<int>, was: map<int, Word>, n: nat,
                                    waiting: seq<int>, i: nat, value: map<int, Word>, bitsToClear: Word)
    requires NoDup(all) && Walked(b, all, was, n, waiting, i, value, bitsToClear) && i < |waiting|
    ensures n < |all|
    ensures var item := Item(value, waiting[i]);
            if Met(b, item) then
              Walked(b, all, was, n + 1, RemoveAt(waiting, i), i, value[waiting[i] := Release(b)],
                     bitsToClear + if CLEAR_ON_EXIT in item then WaitedFor(item) else {})
            else Walked(b, all, was, n + 1, waiting, i + 1, value, bitsToClear)
  {
    forall k | 0 <= k < n ensures all[k] != all[n] { assert Differ(all, k, n); }
    StampedAre(b, all[..n], was, all[n]);
    assert all[..n + 1][..n] == all[..n] && all[..n + 1][n] == all[n];
    assert all[n..] == [all[n]] + all[n + 1..];
  }

  /** The event group as the kernel stores it. */
  class EventGroup {
    var bits: Word
    var waiting: seq<int>
    var value: map<int, Word>

    ghost function View(): Group
      reads this
    {
      Group(bits, waiting, value)
    }

    constructor ()
      ensures View() == Group({}, [], map[]) && Valid(View())
    {
      bits, waiting, value := {}, [], map[];
      new;
      forall t ensures WaitsAt(View(), t) { }
    }

    /** xEventGroupSetBits: one walk over the list, whose items leave it on the way. */
    method SetBits(s: Word)
      requires Valid(View()) && s !! CONTROL
      modifies this
      ensures Valid(View()) && View() == BitsSet(old(View()), s)
      ensures forall y :: y in waiting <==> y in old(waiting) && !Met(old(bits) + s, Item(old(value), y))
      ensures forall y :: y in old(waiting) && y !in waiting ==>
                y in value && value[y] == old(bits) + s + {UNBLOCKED, IN_USE}
      ensures forall y :: y in waiting || y !in old(waiting) ==>
                (y in value <==> y in old(value)) && (y in value ==> value[y] == old(value)[y])
      ensures forall b :: b in bits <==>
                b in old(bits) + s && !exists y :: y in old(waiting) && b in Asked(old(bits) + s, Item(old(value), y))
    {
      hide BitsSet;
      SetKeeps(View(), s);
      ReleasedBySet(View(), s);
      WalkList(s);
    }

    /** The walk of xEventGroupSetBits, and the clearing of bits after it. */
    method WalkList(s: Word)
      requires NoDup(waiting)
      modifies this
      ensures View() == BitsSet(old(View()), s)
    {
      ghost var all, was, n := waiting, value, 0;
      var bitsToClear: Word := {};
      bits := bits + s;
      var i := 0;
      while i < |waiting|
        invariant bits == old(bits) + s && Walked(bits, all, was, n, waiting, i, value, bitsToClear)
        decreases |all| - n
      {
        WalkStep(bits, all, was, n, waiting, i, value, bitsToClear);
        var t := waiting[i];
        var matchFound, clear, bitsWaitedFor := Matches(bits, Item(value, t));
        if matchFound {
          bitsToClear := bitsToClear + if clear then bitsWaitedFor else {};
          value := value[t := Release(bits)];
          waiting := RemoveAt(waiting, i);
        } else {
          i := i + 1;
        }
        n := n + 1;
      }
      assert all[..n] == all;
      bits := bits - bitsToClear;
      assert View() == BitsSet(old(View()), s);
    }

    /** What xEventGroupSetBits returns: the bits when the scheduler has resumed, and others may have run. */
    method AfterSetBits() returns (now: Word)
      ensures now == bits
    {
      now := bits;
    }

    /** xEventGroupClearBits. */
    method ClearBits(c: Word) returns (before: Word)
      requires Valid(View()) && c !! CONTROL
      modifies this`bits
      ensures Valid(View()) && bits == old(bits) - c && before == old(bits)
    {
      ClearKeeps(View(), c);
      before := bits;
      bits := bits - c;
    }

    /** xEventGroupWaitBits, the part with the scheduler suspended. */
    method StartWait(t: int, wanted: Word, clear: bool, all: bool, ticks: nat) returns (result: Word, blocked: bool)
      requires Valid(View()) && t !in waiting && wanted !! CONTROL && wanted != {}
      modifies this
      ensures Valid(View()) && View() == Waited(old(View()), t, wanted, clear, all, ticks != 0)
      ensures blocked <==> t in waiting
      ensures blocked <==> !Condition(old(bits), wanted, all) && ticks != 0
      ensures result == if blocked then {} else old(bits)
      ensures bits == if Condition(old(bits), wanted, all) && clear then old(bits) - wanted else old(bits)
      ensures !blocked ==> waiting == old(waiting) && value == old(value)
      ensures blocked ==>
                && waiting == old(waiting) + [t] && value.Keys == old(value).Keys + {t}
                && (forall y :: y in old(value) && y != t ==> value[y] == old(value)[y])
                && value[t] - CONTROL == wanted && (CLEAR_ON_EXIT in value[t] <==> clear)
                && (WAIT_FOR_ALL in value[t] <==> all) && UNBLOCKED !in value[t] && IN_USE in value[t]
    {
      RequestRead(wanted, clear, all);
      WaitKeeps(View(), t, wanted, clear, all, ticks != 0);
      var current := bits;
      result, blocked := current, false;
      if Condition(current, wanted, all) {
        if clear {
          bits := bits - wanted;
        }
      } else if ticks != 0 {
        waiting, value := waiting + [t], value[t := Request(wanted, clear, all)];
        result, blocked := {}, true;
      }
    }

    /** xEventGroupSync, the part with the scheduler suspended. */
    method StartSync(t: int, s: Word, wanted: Word, ticks: nat) returns (result: Word, blocked: bool)
      requires Valid(View()) && t !in waiting && s !! CONTROL && wanted !! CONTROL && wanted != {}
      modifies this
      ensures Valid(View()) && View() == Synced(old(View()), t, s, wanted, ticks != 0)
      ensures blocked <==> !Condition(old(bits) + s, wanted, true) && ticks != 0
      ensures Condition(old(bits) + s, wanted, true) ==> result == old(bits) + s
      ensures !blocked && !Condition(old(bits) + s, wanted, true) ==> result == bits
      ensures blocked ==> result == {}
      ensures var h := BitsSet(old(View()), s);
              && bits == (if Condition(old(bits) + s, wanted, true) then h.bits - wanted else h.bits)
              && waiting == (if blocked then h.waiting + [t] else h.waiting)
              && (if !blocked then value == h.value
                  else && value.Keys == h.value.Keys + {t}
                       && (forall y :: y in h.value && y != t ==> value[y] == h.value[y])
                       && value[t] - CONTROL == wanted && CLEAR_ON_EXIT in value[t] && WAIT_FOR_ALL in value[t]
                       && UNBLOCKED !in value[t] && IN_USE in value[t])
    {
      RequestRead(wanted, true, true);
      SyncKeeps(View(), t, s, wanted, ticks != 0);
      var original := bits;
      SetBits(s);
      blocked := false;
      if (original + s) * wanted == wanted {
        result := original + s;
        bits := bits - wanted;
      } else if ticks != 0 {
        waiting, value := waiting + [t], value[t := Request(wanted, true, true)];
        result, blocked := {}, true;
      } else {
        result := bits;
      }
    }

    /** The end of xEventGroupWaitBits and xEventGroupSync for a task that blocked: what released it, or after a
        timeout what the bits are now. */
    method FinishWait(t: int, wanted: Word, clear: bool, all: bool) returns (result: Word, timedOut: bool)
      requires Valid(View()) && t !in waiting && t in value
      modifies this
      ensures Valid(View()) && View() == Finished(old(View()), t, wanted, clear, all)
      ensures timedOut <==> UNBLOCKED !in old(value)[t]
      ensures bits == if timedOut && Condition(old(bits), wanted, all) && clear then old(bits) - wanted else old(bits)
      ensures waiting == old(waiting) && value == old(value) - {t}
      ensures result == if timedOut then old(bits) else old(value)[t] - CONTROL
    {
      FinishKeeps(View(), t, wanted, clear, all);
      result := value[t];
      timedOut := false;
      value := value - {t};
      if UNBLOCKED !in result {
        result := bits;
        if Condition(result, wanted, all) {
          if clear {
            bits := bits - wanted;
          }
        }
        timedOut := true;
      }
      result := result - CONTROL;
    }
  }
}
