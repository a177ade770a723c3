/** The co-routine scheduler: the delayed lists once more, with a tick count of its own that catches up with the
    kernel's whenever the scheduler is called, and a pending list that interrupts fill at any time. */
module CoRoutines {
  import opened Config
  import opened Lists
  import opened Sequences
  import RR = RoundRobin
  import S = Scheduler

  const MAX_CO_ROUTINE_PRIORITIES: nat := 2

  /** The variables of the scheduler, and with place and epoch what they stand for against an unbounded clock. */
  datatype State = State(ready: seq<RR.Ready<int>>, topReady: nat, delayed: seq<int>, overflow: seq<int>,
                         pendingReady: seq<int>, inEvent: set<int>, priority: map<int, nat>, wake: map<int, nat>,
                         tick: nat, place: map<int, S.Spot>, epoch: nat)

  ghost function Clock(k: State): nat {
    k.epoch * TICKS + k.tick
  }

  ghost predicate ReadyAt(k: State, p: nat, t: int) {
    p < |k.ready| ==>
      (t in k.ready[p].items <==> t in k.place && k.place[t].Ready? && t in k.priority && k.priority[t] == p)
  }

  /** Where a co-routine is; with due true its deadline may be now. */
  ghost predicate PlaceAt(k: State, due: bool, t: int) {
    && (t in k.delayed <==> t in k.place && k.place[t].Timed? && k.place[t].epoch == k.epoch)
    && (t in k.overflow <==> t in k.place && k.place[t].Timed? && k.place[t].epoch == k.epoch + 1)
    && (t in k.place ==> t in k.priority && k.priority[t] < MAX_CO_ROUTINE_PRIORITIES && !k.place[t].Forever?)
    && (t in k.place && k.place[t].Timed? ==>
          var e, w := k.place[t].epoch, k.place[t].wake;
          && (e == k.epoch || e == k.epoch + 1) && w < TICKS && t in k.wake && k.wake[t] == w
          && (e == k.epoch ==> if due then w >= k.tick else w > k.tick))
    && (t in k.pendingReady ==> t in k.place && k.place[t].Timed? && t !in k.inEvent)
    && (t in k.inEvent ==> t in k.place && k.place[t].Timed?)
  }

  ghost predicate ListsOk(k: State) {
    && |k.ready| == MAX_CO_ROUTINE_PRIORITIES && k.topReady < |k.ready|
    && (forall p {:trigger RR.Valid(k.ready[p])} :: 0 <= p < |k.ready| ==> RR.Valid(k.ready[p]))
    && (forall p :: k.topReady < p < |k.ready| ==> k.ready[p].items == [])
    && NoDup(k.delayed) && NoDup(k.overflow) && NoDup(k.pendingReady)
    && Sorted(S.Wakes(k.delayed, k.wake)) && Sorted(S.Wakes(k.overflow, k.wake))
    && k.tick < TICKS
  }

  ghost predicate Inv(k: State, due: bool) {
    && ListsOk(k)
    && (forall p: nat, t {:trigger ReadyAt(k, p, t)} :: ReadyAt(k, p, t))
    && (forall t {:trigger PlaceAt(k, due, t)} :: PlaceAt(k, due, t))
  }

  /** Both items of the co-routine leave their lists, and it joins the ready list of its priority. */
  function MakeReady(k: State, t: int): State
    requires t in k.priority && k.priority[t] < |k.ready| && k.ready[k.priority[t]].at <= |k.ready[k.priority[t]].items|
  {
    var p := k.priority[t];
    k.(delayed := S.Drop(k.delayed, t), overflow := S.Drop(k.overflow, t),
       pendingReady := S.Drop(k.pendingReady, t), inEvent := k.inEvent - {t},
       ready := k.ready[p := RR.Next(k.ready[p], RR.Arrive(t))],
       topReady := if p > k.topReady then p else k.topReady,
       place := k.place[t := S.Ready])
  }

  lemma {:induction false} MakeReadyInv(k: State, due: bool, t: int)
    requires Inv(k, due) && t in k.place && k.place[t].Timed?
    ensures t in k.priority && k.priority[t] < |k.ready| && RR.Valid(k.ready[k.priority[t]])
    ensures Inv(MakeReady(k, t), due)
  {
    assert PlaceAt(k, due, t);
    var p := k.priority[t];
    assert RR.Valid(k.ready[p]);
    var k' := MakeReady(k, t);
    S.ArriveFacts(k.ready[p], t);
    S.DropFacts(k.delayed, t, k.wake);
    S.DropFacts(k.overflow, t, k.wake);
    S.DropFacts(k.pendingReady, t, k.wake);
    forall q | 0 <= q < |k'.ready| ensures RR.Valid(k'.ready[q]) { assert RR.Valid(k.ready[q]); }
    forall q: nat, y ensures ReadyAt(k', q, y) { assert ReadyAt(k, q, y); }
    forall y ensures PlaceAt(k', due, y) { assert PlaceAt(k, due, y); }
  }

  /** vCoRoutineAddToDelayedList for co-routine t. */
  function Block(k: State, t: int, spot: S.Spot, event: bool): State
    requires spot.Timed? && t in k.priority && k.priority[t] < |k.ready|
    requires k.ready[k.priority[t]].at <= |k.ready[k.priority[t]].items|
  {
    var p := k.priority[t];
    var left := k.(ready := k.ready[p := RR.Next(k.ready[p], RR.Leave(t))], place := k.place[t := spot]);
    var k1 := PutAway(left, t, spot);
    k1.(inEvent := k1.inEvent + if event then {t} else {})
  }

  /** A co-routine enters the list of the wrap in which its deadline falls. */
  function PutAway(k: State, t: int, spot: S.Spot): State
    requires spot.Timed?
  {
    var k1 := k.(wake := k.wake[t := spot.wake]);
    if spot.epoch != k.epoch then k1.(overflow := S.Enter(k.overflow, t, k.wake, spot.wake))
    else k1.(delayed := S.Enter(k.delayed, t, k.wake, spot.wake))
  }

  /** The co-routine waits in the list of the wrap in which its deadline falls, d ticks from now. */
  lemma {:induction false} BlockInv(k: State, t: int, d: nat, event: bool)
    requires Inv(k, false) && t in k.place && k.place[t].Ready? && 0 < d < TICKS
    ensures t in k.priority && k.priority[t] < |k.ready| && RR.Valid(k.ready[k.priority[t]])
    ensures var spot := S.Delayed(k.tick, k.epoch, d);
            && S.Deadline(spot) == Clock(k) + d && (spot.epoch == k.epoch <==> k.tick + d < TICKS)
            && Inv(Block(k, t, spot, event), false)
  {
    assert PlaceAt(k, false, t);
    var p, spot := k.priority[t], S.Delayed(k.tick, k.epoch, d);
    assert RR.Valid(k.ready[p]);
    var k' := Block(k, t, spot, event);
    S.LeaveFacts(k.ready[p], t);
    S.EnterFacts(k.delayed, t, k.wake, spot.wake);
    S.EnterFacts(k.overflow, t, k.wake, spot.wake);
    S.OtherWakes(k.delayed, k.wake, t, spot.wake);
    S.OtherWakes(k.overflow, k.wake, t, spot.wake);
    forall q | 0 <= q < |k'.ready| ensures RR.Valid(k'.ready[q]) { assert RR.Valid(k.ready[q]); }
    forall q: nat, y ensures ReadyAt(k', q, y) { assert ReadyAt(k, q, y); }
    forall y ensures PlaceAt(k', false, y) { assert PlaceAt(k, false, y); }
  }

  /** The tick count goes up by one; when it wraps, the delayed lists swap. */
  function Advance(k: State): State
    requires k.tick < TICKS
  {
    var n := S.Plus(k.tick, 1);
    if n != 0 then k.(tick := n)
    else k.(tick := n, delayed := k.overflow, overflow := k.delayed, epoch := k.epoch + 1)
  }

  /** The list that is swapped out is empty. */
  lemma {:induction false} AdvanceInv(k: State)
    requires Inv(k, false)
    ensures S.Plus(k.tick, 1) == 0 ==> k.delayed == []
    ensures Inv(Advance(k), true) && Clock(Advance(k)) == Clock(k) + 1
  {
    var k' := Advance(k);
    if k.delayed != [] { assert PlaceAt(k, false, k.delayed[0]); }
    forall q | 0 <= q < |k'.ready| ensures RR.Valid(k'.ready[q]) { assert RR.Valid(k.ready[q]); }
    forall q: nat, y ensures ReadyAt(k', q, y) { assert ReadyAt(k, q, y); }
    forall y ensures PlaceAt(k', true, y) { assert PlaceAt(k, false, y); }
  }

  lemma {:induction false} NothingDue(k: State)
    requires Inv(k, true) && (k.delayed != [] ==> S.Wakes(k.delayed, k.wake)[0] > k.tick)
    ensures Inv(k, false)
  {
    forall y ensures PlaceAt(k, false, y) {
      assert PlaceAt(k, true, y);
      if y in k.delayed {
        var i := Find(k.delayed, y);
        assert S.Wakes(k.delayed, k.wake)[i] == k.wake[y] && Ascends(S.Wakes(k.delayed, k.wake), 0, i);
      }
    }
  }

  lemma {:induction false} HeadFacts(k: State)
    requires Inv(k, true) && k.delayed != []
    ensures var t := k.delayed[0];
            && t in k.wake && t in k.place && k.place[t].Timed? && t !in k.overflow
            && S.Wakes(k.delayed, k.wake)[0] == k.wake[t]
            && !(t in k.inEvent && t in k.pendingReady) && |S.Drop(k.delayed, t)| < |k.delayed|
            && (k.wake[t] <= k.tick ==> S.Deadline(k.place[t]) == Clock(k))
  {
    assert PlaceAt(k, true, k.delayed[0]);
  }

  /** With nothing overdue left, all whose deadline is now were woken. */
  lemma {:induction false} TickDone(place: map<int, S.Spot>, k: State)
    requires Inv(k, false)
    requires forall y {:trigger S.Waking(place, k.place, Clock(k), y)} :: S.Waking(place, k.place, Clock(k), y)
    ensures forall y {:trigger S.Awoken(place, k.place, Clock(k), y)} :: S.Awoken(place, k.place, Clock(k), y)
    ensures k.place.Keys == place.Keys
  {
    forall y ensures S.Awoken(place, k.place, Clock(k), y) {
      assert PlaceAt(k, false, y) && S.Waking(place, k.place, Clock(k), y);
    }
    forall y ensures y in place.Keys <==> y in k.place.Keys { assert S.Waking(place, k.place, Clock(k), y); }
  }

  /** An interrupt moves a co-routine from its event list to the pending list; its delay goes on. */
  lemma {:induction false} PendReady(k: State, t: int)
    requires Inv(k, false) && t in k.inEvent
    ensures Inv(k.(inEvent := k.inEvent - {t}, pendingReady := k.pendingReady + [t]), false)
  {
    var k' := k.(inEvent := k.inEvent - {t}, pendingReady := k.pendingReady + [t]);
    assert PlaceAt(k, false, t);
    InsertNoDup(k.pendingReady, |k.pendingReady|, t);
    assert InsertAt(k.pendingReady, |k.pendingReady|, t) == k'.pendingReady;
    forall q: nat, y ensures ReadyAt(k', q, y) { assert ReadyAt(k, q, y); }
    forall y ensures PlaceAt(k', false, y) { assert PlaceAt(k, false, y); }
  }

  function New(k: State, t: int, p: nat): State
    requires p < |k.ready| && k.ready[p].at <= |k.ready[p].items|
  {
    k.(priority := k.priority[t := p], ready := k.ready[p := RR.Next(k.ready[p], RR.Arrive(t))],
       topReady := if p > k.topReady then p else k.topReady, place := k.place[t := S.Ready])
  }

  lemma {:induction false} NewInv(k: State, t: int, p: nat)
    requires Inv(k, false) && t !in k.place && p < MAX_CO_ROUTINE_PRIORITIES
    ensures p < |k.ready| && RR.Valid(k.ready[p]) && Inv(New(k, t, p), false)
  {
    assert RR.Valid(k.ready[p]);
    var k' := New(k, t, p);
    assert PlaceAt(k, false, t);
    S.ArriveFacts(k.ready[p], t);
    forall q | 0 <= q < |k'.ready| ensures RR.Valid(k'.ready[q]) { assert RR.Valid(k.ready[q]); }
    forall q: nat, y ensures ReadyAt(k', q, y) { assert ReadyAt(k, q, y) && ReadyAt(k, q, t); }
    forall y ensures PlaceAt(k', false, y) { assert PlaceAt(k, false, y); }
  }

  function Selected(k: State, top: nat): State
    requires top < |k.ready| && k.ready[top].at <= |k.ready[top].items|
  {
    k.(ready := k.ready[top := RR.Next(k.ready[top], RR.Pick)], topReady := top)
  }

  lemma {:induction false} SelectInv(k: State, top: nat)
    requires Inv(k, false) && top < |k.ready|
    requires forall p :: top < p < |k.ready| ==> k.ready[p].items == []
    ensures RR.Valid(k.ready[top]) && Inv(Selected(k, top), false)
  {
    assert RR.Valid(k.ready[top]);
    RR.StepValid(k.ready[top], RR.Pick);
    var k' := Selected(k, top);
    forall q | 0 <= q < |k'.ready| ensures RR.Valid(k'.ready[q]) { assert RR.Valid(k.ready[q]); }
    forall q: nat, y ensures ReadyAt(k', q, y) { assert ReadyAt(k, q, y); }
    forall y ensures PlaceAt(k', false, y) { assert PlaceAt(k, false, y); }
  }

  /** The woken co-routines were at the heads of the delayed lists, joined the ready lists in that order, and left
      the pending list. */
  ghost predicate Woken(k: State, k': State, woken: seq<int>) {
    && k.delayed + k.overflow == woken + k'.delayed + k'.overflow
    && k'.ready == RR.JoinAll(k.ready, k.priority, woken) && k'.priority == k.priority
    && k'.pendingReady == S.DropAll(k.pendingReady, woken)
  }

  lemma {:induction false} WokenOn(k: State, k1: State, k2: State, a: seq<int>, b: seq<int>)
    requires Woken(k, k1, a) && Woken(k1, k2, b)
    ensures Woken(k, k2, a + b)
  {
    RR.JoinAllAppend(k.ready, k.priority, a, b);
    DropAllAppend(k.pendingReady, a, b);
    assert a + (k1.delayed + k1.overflow) == a + k1.delayed + k1.overflow;
    assert a + (b + k2.delayed + k2.overflow) == a + b + k2.delayed + k2.overflow;
  }

  lemma {:induction false} DropAllAppend(list: seq<int>, a: seq<int>, b: seq<int>)
    ensures S.DropAll(list, a + b) == S.DropAll(S.DropAll(list, a), b)
    decreases |b|
  {
    if b == [] {
      assert a + b == a;
    } else {
      assert (a + b)[..|a + b| - 1] == a + b[..|b| - 1];
      DropAllAppend(list, a, b[..|b| - 1]);
    }
  }

  lemma {:induction false} DropAllNone(tasks: seq<int>)
    ensures S.DropAll([], tasks) == []
    decreases |tasks|
  {
    if tasks != [] { DropAllNone(tasks[..|tasks| - 1]); }
  }

  lemma {:induction false} WokenHead(k: State, t: int)
    requires t in k.priority && k.priority[t] < |k.ready| && k.ready[k.priority[t]].at <= |k.ready[k.priority[t]].items|
    requires k.delayed != [] && t == k.delayed[0] && t !in k.overflow
    ensures Woken(k, MakeReady(k, t), [t])
  {
    RR.JoinAllOne(k.ready, k.priority, t);
    assert k.delayed == [t] + k.delayed[1..];
    assert S.Drop(k.delayed, t) == k.delayed[1..];
    assert [t][..0] == [];
  }

  lemma {:induction false} WokenNone(k: State, k': State)
    requires k'.delayed + k'.overflow == k.delayed + k.overflow && k'.ready == k.ready && k'.priority == k.priority
    requires k'.pendingReady == k.pendingReady
    ensures Woken(k, k', [])
  {
    assert [] + k'.delayed == k'.delayed;
  }

  /** Of the co-routines that were in event lists, exactly those that are not ready now are still in them. */
  ghost predicate StillWaiting(was: set<int>, k: State) {
    forall y :: y in k.inEvent <==> y in was && y in k.place && !k.place[y].Ready?
  }

  lemma {:induction false} AllWaiting(k: State, due: bool)
    requires Inv(k, due)
    ensures StillWaiting(k.inEvent, k)
  {
    forall y | y in k.inEvent ensures y in k.place && !k.place[y].Ready? { assert PlaceAt(k, due, y); }
  }

  lemma {:induction false} WaitingReadied(was: set<int>, k: State, t: int)
    requires StillWaiting(was, k) && t in k.place && t in k.priority && k.priority[t] < |k.ready|
    requires k.ready[k.priority[t]].at <= |k.ready[k.priority[t]].items|
    ensures StillWaiting(was, MakeReady(k, t))
  {
  }

  lemma {:induction false} WaitingOn(was: set<int>, k: State, k': State)
    requires StillWaiting(was, k) && StillWaiting(k.inEvent, k')
    requires forall y {:trigger S.Awoken(k.place, k'.place, Clock(k'), y)} :: S.Awoken(k.place, k'.place, Clock(k'), y)
    requires k'.place.Keys == k.place.Keys
    ensures StillWaiting(was, k')
  {
    forall y ensures y in k'.inEvent <==> y in was && y in k'.place && !k'.place[y].Ready? {
      assert S.Awoken(k.place, k'.place, Clock(k'), y) && (y in k.place.Keys <==> y in k'.place.Keys);
    }
  }

  /** The co-routines left the lists of waiting ones and joined the ready lists in that order. */
  ghost predicate MovedAll(k: State, k': State, moved: seq<int>) {
    && k'.ready == RR.JoinAll(k.ready, k.priority, moved) && k'.priority == k.priority && k'.inEvent == k.inEvent
    && k'.delayed == S.DropAll(k.delayed, moved) && k'.overflow == S.DropAll(k.overflow, moved)
  }

  lemma {:induction false} MovedFirst(k: State, t: int)
    requires t in k.priority && k.priority[t] < |k.ready| && k.ready[k.priority[t]].at <= |k.ready[k.priority[t]].items|
    requires t !in k.inEvent
    ensures MovedAll(k, MakeReady(k, t), [t])
  {
    RR.JoinAllOne(k.ready, k.priority, t);
    assert [t][..0] == [];
  }

  lemma {:induction false} MovedOn(k: State, k1: State, k2: State, moved: seq<int>, t: int)
    requires MovedAll(k, k1, moved) && MovedAll(k1, k2, [t])
    ensures MovedAll(k, k2, moved + [t])
  {
    RR.JoinAllAppend(k.ready, k.priority, moved, [t]);
    S.DropAllOn(k.delayed, moved, t);
    S.DropAllOn(k.overflow, moved, t);
  }

  lemma {:induction false} FirstDropped(k: State)
    requires Inv(k, false) && k.pendingReady != []
    ensures var t := k.pendingReady[0];
            S.Drop(k.pendingReady, t) == k.pendingReady[1..] && t !in k.pendingReady[1..]
            && k.pendingReady == [t] + k.pendingReady[1..]
  {
    S.DropFacts(k.pendingReady, k.pendingReady[0], k.wake);
    assert S.Drop(k.pendingReady, k.pendingReady[0]) == k.pendingReady[1..];
  }

  lemma NoneMoved(k: State)
    ensures MovedAll(k, k, [])
  {
  }

  /** The current co-routine t left its ready list and is in the delayed list in which its wake time falls, behind all
      that wake no later. */
  ghost predicate PutBehind(k: State, k': State, t: int, ticks: nat) {
    var w := k.tick + ticks;
    && t in k.priority && k.priority[t] < |k.ready| && k.ready[k.priority[t]].at <= |k.ready[k.priority[t]].items|
    && k'.ready == k.ready[k.priority[t] := RR.Next(k.ready[k.priority[t]], RR.Leave(t))]
    && k'.wake == k.wake[t := if w < TICKS then w else w - TICKS]
    && if w < TICKS then k'.overflow == k.overflow && S.InsertedBehind(k.delayed, k'.delayed, k'.wake, t, w)
       else k'.delayed == k.delayed && S.InsertedBehind(k.overflow, k'.overflow, k'.wake, t, w - TICKS)
  }

  lemma {:induction false} BlockedBehind(k: State, t: int, ticks: nat, event: bool)
    requires Inv(k, false) && t in k.place && k.place[t].Ready? && 0 < ticks < TICKS
    requires t in k.priority && k.priority[t] < |k.ready| && RR.Valid(k.ready[k.priority[t]])
    ensures PutBehind(k, Block(k, t, S.Delayed(k.tick, k.epoch, ticks), event), t, ticks)
  {
    hide S.InsertedBehind, S.Enter;
    EitherBehind(k, t, S.Plus(k.tick, ticks));
  }

  lemma {:induction false} EitherBehind(k: State, t: int, w: nat)
    requires Inv(k, false) && t in k.place && k.place[t].Ready?
    ensures S.InsertedBehind(k.delayed, S.Enter(k.delayed, t, k.wake, w), k.wake[t := w], t, w)
    ensures S.InsertedBehind(k.overflow, S.Enter(k.overflow, t, k.wake, w), k.wake[t := w], t, w)
  {
    hide S.InsertedBehind, S.Enter;
    assert PlaceAt(k, false, t);
    forall i | 0 <= i < |k.delayed| ensures k.delayed[i] in k.wake { assert PlaceAt(k, false, k.delayed[i]); }
    forall i | 0 <= i < |k.overflow| ensures k.overflow[i] in k.wake { assert PlaceAt(k, false, k.overflow[i]); }
    S.EnteredBehind(k.delayed, t, k.wake, w);
    S.EnteredBehind(k.overflow, t, k.wake, w);
  }

  class CoRoutineScheduler {
    var ready: seq<RR.Ready<int>>
    var topReady: nat
    /** pxCurrentCoRoutine, null until a first co-routine is created. */
    var current: int
    var hasCurrent: bool
    var delayed: seq<int>
    var overflow: seq<int>
    var pendingReady: seq<int>
    var inEvent: set<int>
    var priority: map<int, nat>
    var wake: map<int, nat>
    var tick: nat
    var lastTick: nat
    ghost var place: map<int, S.Spot>
    ghost var epoch: nat

    ghost function View(): State
      reads this
    {
      State(ready, topReady, delayed, overflow, pendingReady, inEvent, priority, wake, tick, place, epoch)
    }

    ghost predicate Valid()
      reads this
    {
      Inv(View(), false) && lastTick == tick
    }

    /** prvInitialiseCoRoutineLists. */
    constructor ()
      ensures Valid() && place == map[] && tick == 0 && epoch == 0 && !hasCurrent
    {
      ready := seq(MAX_CO_ROUTINE_PRIORITIES, p => RR.Ready([], 0));
      topReady, current, hasCurrent, tick, lastTick, epoch := 0, 0, false, 0, 0, 0;
      delayed, overflow, pendingReady, inEvent := [], [], [], {};
      priority, wake, place := map[], map[], map[];
      new;
      forall q | 0 <= q < |ready| ensures RR.Valid(ready[q]) { }
      forall q: nat, y ensures ReadyAt(View(), q, y) { }
      forall y ensures PlaceAt(View(), false, y) { }
    }

    /** xCoRoutineCreate; a priority that is too high is lowered. */
    method Create(t: int, uxPriority: nat)
      requires Valid() && t !in place
      modifies this`ready, this`topReady, this`current, this`hasCurrent, this`priority, this`place
      ensures Valid() && place == old(place)[t := S.Ready]
      ensures priority == old(priority)[t := if uxPriority < MAX_CO_ROUTINE_PRIORITIES then uxPriority
                                             else MAX_CO_ROUTINE_PRIORITIES - 1]
      ensures hasCurrent && current == if old(hasCurrent) then old(current) else t
      ensures ready == RR.JoinOne(old(ready), priority, t)
    {
      if !hasCurrent {
        current, hasCurrent := t, true;
      }
      AddNew(t, if uxPriority >= MAX_CO_ROUTINE_PRIORITIES then MAX_CO_ROUTINE_PRIORITIES - 1 else uxPriority);
    }

    method AddNew(t: int, p: nat)
      requires Valid() && t !in place && p < MAX_CO_ROUTINE_PRIORITIES
      modifies this`ready, this`topReady, this`priority, this`place
      ensures Valid() && place == old(place)[t := S.Ready] && priority == old(priority)[t := p]
      ensures ready == RR.JoinOne(old(ready), priority, t)
    {
      ghost var k := View();
      NewInv(k, t, p);
      priority := priority[t := p];
      AddToReadyQueue(t);
      place := place[t := S.Ready];
      assert View() == New(k, t, p);
    }

    /** prvAddCoRoutineToReadyQueue. */
    method AddToReadyQueue(t: int)
      requires t in priority && priority[t] < |ready| && ready[priority[t]].at <= |ready[priority[t]].items|
      modifies this`ready, this`topReady
      ensures ready == old(ready)[priority[t] := RR.Next(old(ready)[priority[t]], RR.Arrive(t))]
      ensures topReady == if priority[t] > old(topReady) then priority[t] else old(topReady)
    {
      if priority[t] > topReady {
        topReady := priority[t];
      }
      ready := ready[priority[t] := RR.Next(ready[priority[t]], RR.Arrive(t))];
    }

    /** vCoRoutineAddToDelayedList; with event set the co-routine also joins an event list. */
    method AddToDelayedList(ticksToDelay: nat, event: bool)
      requires Valid() && current in place && place[current].Ready? && 0 < ticksToDelay < TICKS
      modifies this`ready, this`delayed, this`overflow, this`wake, this`inEvent, this`place
      ensures Valid() && current in place && place == old(place)[current := place[current]]
      ensures place[current].Timed? && S.Deadline(place[current]) == Clock(old(View())) + ticksToDelay
      ensures PutBehind(old(View()), View(), current, ticksToDelay)
      ensures inEvent == if event then old(inEvent) + {current} else old(inEvent)
    {
      ghost var k, spot := View(), S.Delayed(tick, epoch, ticksToDelay);
      BlockInv(k, current, ticksToDelay, event);
      ready := ready[priority[current] := RR.Next(ready[priority[current]], RR.Leave(current))];
      place := place[current := spot];
      InsertDelayed(ticksToDelay);
      if event {
        inEvent := inEvent + {current};
      }
      assert View() == Block(k, current, spot, event);
      BlockedBehind(k, current, ticksToDelay, event);
    }

    /** The current co-routine enters the delayed list of its wake time. */
    method InsertDelayed(ticksToDelay: nat)
      requires ticksToDelay < TICKS && tick < TICKS
      modifies this`delayed, this`overflow, this`wake
      ensures View() == PutAway(old(View()), current, S.Delayed(tick, epoch, ticksToDelay))
    {
      var timeToWake := S.Plus(tick, ticksToDelay);
      if timeToWake < tick {
        overflow := S.Enter(overflow, current, wake, timeToWake);
      } else {
        delayed := S.Enter(delayed, current, wake, timeToWake);
      }
      wake := wake[current := timeToWake];
    }

    /** xCoRoutineRemoveFromEventList, called from an interrupt. */
    method RemoveFromEventList(t: int) returns (schedule: bool)
      requires Valid() && t in inEvent && current in place
      modifies this`inEvent, this`pendingReady
      ensures Valid() && pendingReady == old(pendingReady) + [t] && inEvent == old(inEvent) - {t}
      ensures t in priority && current in priority && (schedule <==> priority[t] >= priority[current])
    {
      PendReady(View(), t);
      assert PlaceAt(View(), false, t) && PlaceAt(View(), false, current);
      inEvent := inEvent - {t};
      pendingReady := pendingReady + [t];
      schedule := priority[t] >= priority[current];
    }

    /** The first pending co-routine, already off the pending list, leaves its delayed list and becomes ready. */
    method ReadyPending(t: int)
      requires t !in inEvent && t in priority && priority[t] < |ready|
      requires ready[priority[t]].at <= |ready[priority[t]].items|
      modifies this`ready, this`topReady, this`delayed, this`overflow, this`place
      ensures View() == MakeReady(old(View()), t).(pendingReady := pendingReady)
    {
      delayed := S.Drop(delayed, t);
      overflow := S.Drop(overflow, t);
      AddToReadyQueue(t);
      place := place[t := S.Ready];
      assert inEvent - {t} == inEvent;
    }

    /** One round of prvCheckPendingReadyList. */
    method MoveFirst(t: int)
      requires Inv(View(), false) && pendingReady != [] && t == pendingReady[0]
      modifies this`ready, this`topReady, this`delayed, this`overflow, this`pendingReady, this`place
      ensures Inv(View(), false) && t in old(place) && place == old(place)[t := S.Ready]
      ensures old(pendingReady) == [t] + pendingReady && t !in pendingReady && MovedAll(old(View()), View(), [t])
    {
      ghost var k := View();
      assert PlaceAt(k, false, t);
      MakeReadyInv(k, false, t);
      MovedFirst(k, t);
      FirstDropped(k);
      pendingReady := S.Drop(pendingReady, t);
      ReadyPending(t);
      assert View() == MakeReady(k, t);
    }

    /** prvCheckPendingReadyList. */
    method CheckPendingReadyList()
      requires Inv(View(), false)
      modifies this`ready, this`topReady, this`delayed, this`overflow, this`pendingReady, this`place
      ensures Inv(View(), false) && pendingReady == []
      ensures forall y {:trigger S.MovedAt(old(place), place, old(pendingReady), [], y)} ::
                S.MovedAt(old(place), place, old(pendingReady), [], y)
      ensures MovedAll(old(View()), View(), old(pendingReady))
    {
      hide MovedAll, ListsOk;
      ghost var was, all, n := place, pendingReady, 0;
      assert all[..0] == [] && all[0..] == all;
      NoneMoved(View());
      while pendingReady != []
        invariant Inv(View(), false)
        invariant 0 <= n <= |all| && pendingReady == all[n..] && MovedAll(old(View()), View(), all[..n])
        invariant forall y {:trigger S.MovedAt(was, place, all, pendingReady, y)} ::
                    S.MovedAt(was, place, all, pendingReady, y)
        decreases |pendingReady|
      {
        ghost var k := View();
        var t := pendingReady[0];
        MoveFirst(t);
        MovedOn(old(View()), k, View(), all[..n], t);
        assert all[..n] + [t] == all[..n + 1];
        S.MovedStep(was, k.place, place, all, k.pendingReady, pendingReady, t);
        n := n + 1;
      }
      assert all[..n] == all;
    }

    /** The co-routine at the head of the delayed list leaves it. It may be in an event list, or by then in the
        pending list, and leaves that as well. */
    method WakeHead(t: int)
      requires delayed != [] && t == delayed[0] && t !in overflow && !(t in inEvent && t in pendingReady)
      requires t in priority && priority[t] < |ready|
      requires ready[priority[t]].at <= |ready[priority[t]].items|
      modifies this`ready, this`topReady, this`delayed, this`pendingReady, this`inEvent, this`place
      ensures View() == MakeReady(old(View()), t)
    {
      delayed := S.Drop(delayed, t);
      if t in inEvent {
        inEvent := inEvent - {t};
      } else if t in pendingReady {
        pendingReady := S.Drop(pendingReady, t);
      }
      assert inEvent == old(inEvent) - {t};
      AddToReadyQueue(t);
      place := place[t := S.Ready];
    }

    /** The inner loop of prvCheckDelayedList. */
    method WakeCoRoutines() returns (ghost woken: seq<int>)
      requires Inv(View(), true)
      modifies this`ready, this`topReady, this`delayed, this`pendingReady, this`inEvent, this`place
      ensures Inv(View(), false) && Woken(old(View()), View(), woken)
      ensures forall y :: y in inEvent <==> y in old(inEvent) && y in place && !place[y].Ready?
      ensures forall y {:trigger S.Waking(old(place), place, Clock(View()), y)} ::
                S.Waking(old(place), place, Clock(View()), y)
    {
      hide Woken, ListsOk;
      ghost var now, was := Clock(View()), place;
      woken := [];
      WokenNone(View(), View());
      AllWaiting(View(), true);
      while delayed != []
        invariant Inv(View(), true) && Woken(old(View()), View(), woken) && StillWaiting(old(inEvent), View())
        invariant forall y {:trigger S.Waking(was, place, now, y)} :: S.Waking(was, place, now, y)
        decreases |delayed|
      {
        ghost var k := View();
        var t := delayed[0];
        HeadFacts(k);
        if tick < wake[t] {
          break;
        }
        MakeReadyInv(k, true, t);
        WokenHead(k, t);
        WokenOn(old(View()), k, MakeReady(k, t), woken, [t]);
        WaitingReadied(old(inEvent), k, t);
        woken := woken + [t];
        WakeHead(t);
        forall y ensures S.Waking(was, place, now, y) { assert S.Waking(was, k.place, now, y); }
      }
      if delayed != [] { HeadFacts(View()); }
      NothingDue(View());
    }

    /** One round of the outer loop of prvCheckDelayedList. */
    method PassTick() returns (ghost woken: seq<int>)
      requires Inv(View(), false)
      modifies this`ready, this`topReady, this`delayed, this`overflow, this`pendingReady, this`inEvent, this`place,
               this`tick, this`epoch
      ensures Inv(View(), false) && Clock(View()) == Clock(old(View())) + 1 && tick == S.Plus(old(tick), 1)
      ensures place.Keys == old(place).Keys
      ensures forall y {:trigger S.Awoken(old(place), place, Clock(View()), y)} ::
                S.Awoken(old(place), place, Clock(View()), y)
      ensures Woken(old(View()), View(), woken)
      ensures forall y :: y in inEvent <==> y in old(inEvent) && y in place && !place[y].Ready?
    {
      AdvanceInv(View());
      ghost var k := Advance(View());
      tick := S.Plus(tick, 1);
      if tick == 0 {
        delayed, overflow := overflow, delayed;
        epoch := epoch + 1;
      }
      assert View() == k;
      WokenNone(old(View()), k);
      woken := WakeCoRoutines();
      WokenOn(old(View()), k, View(), [], woken);
      assert [] + woken == woken;
      TickDone(old(place), View());
    }

    /** prvCheckDelayedList: the tick count catches up with the kernel's, tick by tick, and exactly the
        co-routines whose deadline has come by then are ready. */
    method CheckDelayedList(kernelTickCount: nat) returns (ghost woken: seq<int>)
      requires Valid() && kernelTickCount < TICKS
      modifies this`ready, this`topReady, this`delayed, this`overflow, this`pendingReady, this`inEvent, this`place,
               this`tick, this`lastTick, this`epoch
      ensures Valid() && tick == kernelTickCount
      ensures Clock(View()) == Clock(old(View())) + Passed(old(tick), kernelTickCount)
      ensures forall y {:trigger S.ResumedAt(old(place), place, [], Clock(View()), y)} ::
                S.ResumedAt(old(place), place, [], Clock(View()), y)
      ensures Woken(old(View()), View(), woken)
      ensures forall y :: y in inEvent <==> y in old(inEvent) && y in place && !place[y].Ready?
    {
      hide Woken;
      woken := [];
      WokenNone(View(), View());
      AllWaiting(View(), false);
      var passedTicks := Passed(lastTick, kernelTickCount);
      ghost var was, first := place, Clock(View());
      forall y ensures S.ResumedAt(was, place, [], Clock(View()), y) { assert PlaceAt(View(), false, y); }
      while passedTicks > 0
        invariant Inv(View(), false) && passedTicks >= 0 && passedTicks == Passed(tick, kernelTickCount)
        invariant Woken(old(View()), View(), woken) && StillWaiting(old(inEvent), View())
        invariant Clock(View()) + passedTicks == first + Passed(old(tick), kernelTickCount)
        invariant forall y {:trigger S.ResumedAt(was, place, [], Clock(View()), y)} ::
                    S.ResumedAt(was, place, [], Clock(View()), y)
      {
        ghost var k, earlier := View(), Clock(View());
        ghost var more := PassTick();
        WokenOn(old(View()), k, View(), woken, more);
        WaitingOn(old(inEvent), k, View());
        woken := woken + more;
        S.MadeUp(was, k.place, place, earlier, Clock(View()));
        passedTicks := passedTicks - 1;
      }
      lastTick := tick;
    }

    /** vCoRoutineSchedule, up to the call of the co-routine that it selects; lists are the ready lists from which
        it does. */
    method Schedule(kernelTickCount: nat)
      returns (selected: bool, ghost lists: seq<RR.Ready<int>>, ghost woken: seq<int>)
      requires Valid() && kernelTickCount < TICKS
      modifies this
      ensures Valid() && tick == kernelTickCount && pendingReady == []
      ensures Clock(View()) == Clock(old(View())) + Passed(old(tick), kernelTickCount)
      ensures forall y {:trigger S.ResumedAt(old(place), place, old(pendingReady), Clock(View()), y)} ::
                S.ResumedAt(old(place), place, old(pendingReady), Clock(View()), y)
      ensures selected <==> exists y :: y in place && place[y].Ready?
      ensures selected ==> current in place && place[current].Ready? && current in priority
      ensures selected ==>
                forall y :: y in place && place[y].Ready? && y in priority ==> priority[y] <= priority[current]
      ensures lists == RR.JoinAll(old(ready), old(priority), old(pendingReady) + woken) && priority == old(priority)
      ensures S.DropAll(old(delayed), old(pendingReady)) + S.DropAll(old(overflow), old(pendingReady))
              == woken + delayed + overflow
      ensures forall y :: y in inEvent <==> y in old(inEvent) && y in place && !place[y].Ready?
      ensures selected ==> Turn(lists, ready, topReady, current)
      ensures !selected ==> current == old(current)
    {
      CheckPendingReadyList();
      ghost var between := place;
      woken := CheckDelayedList(kernelTickCount);
      RR.JoinAllAppend(old(ready), priority, old(pendingReady), woken);
      DropAllNone(woken);
      lists := ready;
      forall y ensures S.ResumedAt(old(place), place, old(pendingReady), Clock(View()), y) {
        assert S.MovedAt(old(place), between, old(pendingReady), [], y);
        assert S.ResumedAt(between, place, [], Clock(View()), y);
      }
      selected := Select();
    }

    /** The end of vCoRoutineSchedule: the next co-routine of the highest priority that has any. */
    method Select() returns (selected: bool)
      requires Inv(View(), false)
      modifies this`ready, this`topReady, this`current
      ensures Inv(View(), false)
      ensures selected <==> exists y :: y in place && place[y].Ready?
      ensures selected ==> current in place && place[current].Ready? && current in priority
      ensures selected ==>
                forall y :: y in place && place[y].Ready? && y in priority ==> priority[y] <= priority[current]
      ensures selected ==> Turn(old(ready), ready, topReady, current)
      ensures !selected ==> ready == old(ready) && current == old(current)
    {
      ghost var k := View();
      var top := topReady;
      while ready[top].items == []
        invariant 0 <= top < |ready|
        invariant forall p: nat :: top < p < |ready| ==> ready[p].items == []
        decreases top
      {
        if top == 0 {
          break;
        }
        top := top - 1;
      }
      if ready[top].items == [] {
        LowerTop(k);
        topReady := 0;
        NoneReady(k);
        return false;
      }
      SelectInv(k, top);
      var list := ready[top];
      ready := ready[top := RR.Next(list, RR.Pick)];
      current := RR.Chosen(list);
      topReady := top;
      assert View() == Selected(k, top);
      assert ReadyAt(k, top, current);
      HighestReady(k, top);
      selected := true;
    }
  }

  /** The co-routine whose turn it is in the highest list that is not empty was picked. */
  ghost predicate Turn(ready: seq<RR.Ready<int>>, ready': seq<RR.Ready<int>>, top: nat, current: int) {
    && top < |ready| && ready[top].items != [] && ready[top].at <= |ready[top].items|
    && (forall p :: top < p < |ready| ==> ready[p].items == [])
    && current == RR.Chosen(ready[top]) && ready' == ready[top := RR.Next(ready[top], RR.Pick)]
  }

  /** The ticks between two readings of the tick count. */
  function Passed(last: nat, now: nat): nat
    requires last < TICKS && now < TICKS
  {
    if now >= last then now - last else now + TICKS - last
  }

  lemma {:induction false} LowerTop(k: State)
    requires Inv(k, false) && forall p: nat :: p < |k.ready| ==> k.ready[p].items == []
    ensures Inv(k.(topReady := 0), false)
  {
    var k' := k.(topReady := 0);
    forall q | 0 <= q < |k'.ready| ensures RR.Valid(k'.ready[q]) { assert RR.Valid(k.ready[q]); }
    forall q: nat, y ensures ReadyAt(k', q, y) { assert ReadyAt(k, q, y); }
    forall y ensures PlaceAt(k', false, y) { assert PlaceAt(k, false, y); }
  }

  lemma {:induction false} NoneReady(k: State)
    requires Inv(k, false) && forall p: nat :: p < |k.ready| ==> k.ready[p].items == []
    ensures forall y :: y in k.place ==> !k.place[y].Ready?
  {
    forall y | y in k.place ensures !k.place[y].Ready? {
      assert PlaceAt(k, false, y) && ReadyAt(k, k.priority[y], y);
    }
  }

  lemma {:induction false} HighestReady(k: State, top: nat)
    requires Inv(k, false) && top < |k.ready| && forall p: nat :: top < p < |k.ready| ==> k.ready[p].items == []
    ensures forall y :: y in k.place && k.place[y].Ready? ==> y in k.priority && k.priority[y] <= top
  {
    forall y | y in k.place && k.place[y].Ready? ensures y in k.priority && k.priority[y] <= top {
      assert PlaceAt(k, false, y) && ReadyAt(k, k.priority[y], y);
    }
  }
}
