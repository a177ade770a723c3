/** The kernel's task lists and its notion of time: ready lists by priority, the delayed lists that swap
    roles when the tick count wraps, tasks pending while the scheduler is suspended, and pended ticks. */
module Scheduler {
  import opened Config
  import opened Lists
  import opened Sequences
  import RR = RoundRobin

  /** Where a task's state list item is. A timed task wakes at the wake value of the given epoch,
      an epoch being one full count of the tick counter. */
  datatype Spot = Ready | Timed(epoch: nat, wake: nat) | Forever

  /** The kernel's variables, and with place and epoch what they stand for against a clock that never wraps. */
  datatype State = State(ready: seq<RR.Ready<int>>, topReady: nat, current: int,
                         delayed: seq<int>, overflow: seq<int>, suspendedTasks: seq<int>, pendingReady: seq<int>,
                         inEvent: set<int>, priority: map<int, nat>, wake: map<int, nat>,
                         tick: nat, nextUnblock: nat, idle: int, place: map<int, Spot>, epoch: nat)

  /** The number of ticks processed since the start. */
  ghost function Clock(k: State): nat {
    k.epoch * TICKS + k.tick
  }

  ghost function Deadline(p: Spot): nat
    requires p.Timed?
  {
    p.epoch * TICKS + p.wake
  }

  function Wakes(list: seq<int>, wake: map<int, nat>): seq<nat> {
    seq(|list|, i requires 0 <= i < |list| => if list[i] in wake then wake[list[i]] else 0)
  }

  /** The sum of two tick counts, in 32-bit arithmetic. */
  function Plus(a: nat, b: nat): (c: nat)
    requires a < TICKS && b < TICKS
    ensures c < TICKS
  {
    if a + b < TICKS then a + b else a + b - TICKS
  }

  /** A ready task is in the list of its priority, and in no other. */
  ghost predicate ReadyAt(k: State, p: nat, t: int) {
    p < |k.ready| ==>
      (t in k.ready[p].items <==> t in k.place && k.place[t].Ready? && t in k.priority && k.priority[t] == p)
  }

  /** A task that is not ready is in the one list that its place asks for; with due false, a timed task's
      deadline has not come yet, with due true it may be now. */
  ghost predicate PlaceAt(k: State, due: bool, t: int) {
    && (t in k.delayed <==> t in k.place && k.place[t].Timed? && k.place[t].epoch == k.epoch)
    && (t in k.overflow <==> t in k.place && k.place[t].Timed? && k.place[t].epoch == k.epoch + 1)
    && (t in k.suspendedTasks <==> t in k.place && k.place[t].Forever?)
    && (t in k.place ==> t in k.priority && k.priority[t] < MAX_PRIORITIES)
    && (t in k.place && k.place[t].Timed? ==>
          var e, w := k.place[t].epoch, k.place[t].wake;
          && (e == k.epoch || e == k.epoch + 1) && w < TICKS && t in k.wake && k.wake[t] == w
          && (e == k.epoch ==> if due then w >= k.tick else w > k.tick))
    && (t in k.pendingReady ==> t in k.place && !k.place[t].Ready? && t !in k.inEvent)
    && (t in k.inEvent ==> t in k.place && !k.place[t].Ready?)
  }

  ghost predicate ListsOk(k: State) {
    && |k.ready| == MAX_PRIORITIES && k.topReady < MAX_PRIORITIES
    && (forall p {:trigger RR.Valid(k.ready[p])} :: 0 <= p < |k.ready| ==> RR.Valid(k.ready[p]))
    && (forall p :: k.topReady < p < |k.ready| ==> k.ready[p].items == [])
    && NoDup(k.delayed) && NoDup(k.overflow) && NoDup(k.suspendedTasks) && NoDup(k.pendingReady)
    && Sorted(Wakes(k.delayed, k.wake)) && Sorted(Wakes(k.overflow, k.wake))
    && k.tick < TICKS
    && (k.delayed != [] ==> k.nextUnblock <= Wakes(k.delayed, k.wake)[0])
    && Idle(k) && k.current in k.place
  }

  /** The idle task is always ready. */
  ghost predicate Idle(k: State) {
    k.idle in k.place && k.place[k.idle].Ready? && k.idle in k.priority && k.priority[k.idle] == 0
  }

  /** The invariant between kernel steps, or with due true while a tick is being processed. */
  ghost predicate Inv(k: State, due: bool) {
    && ListsOk(k)
    && (forall p: nat, t {:trigger ReadyAt(k, p, t)} :: ReadyAt(k, p, t))
    && (forall t {:trigger PlaceAt(k, due, t)} :: PlaceAt(k, due, t))
  }

  // ----- list steps -----

  function Drop(list: seq<int>, t: int): seq<int> {
    if t in list then RemoveAt(list, Find(list, t)) else list
  }

  lemma {:induction false} DropFacts(list: seq<int>, t: int, wake: map<int, nat>)
    requires NoDup(list)
    ensures NoDup(Drop(list, t))
    ensures forall y :: y in Drop(list, t) <==> y in list && y != t
    ensures Sorted(Wakes(list, wake)) ==> Sorted(Wakes(Drop(list, t), wake))
    ensures Drop(list, t) != [] && list != [] && Sorted(Wakes(list, wake)) ==>
              Wakes(list, wake)[0] <= Wakes(Drop(list, t), wake)[0]
  {
    if t in list {
      var k := Find(list, t);
      RemoveNoDup(list, k);
      RemoveMembers(list, k);
      assert Wakes(RemoveAt(list, k), wake) == RemoveAt(Wakes(list, wake), k);
      if Sorted(Wakes(list, wake)) { RemoveSorted(Wakes(list, wake), k); }
    }
  }

  /** A task leaves its ready list. */
  lemma {:induction false} LeaveFacts(r: RR.Ready<int>, t: int)
    requires RR.Valid(r)
    ensures RR.Valid(RR.Next(r, RR.Leave(t)))
    ensures forall y :: y in RR.Next(r, RR.Leave(t)).items <==> y in r.items && y != t
  {
    RR.StepValid(r, RR.Leave(t));
    if t in r.items { RemoveMembers(r.items, Find(r.items, t)); }
  }

  lemma {:induction false} ArriveFacts(r: RR.Ready<int>, t: int)
    requires RR.Valid(r)
    ensures RR.Valid(RR.Next(r, RR.Arrive(t)))
    ensures forall y :: y in RR.Next(r, RR.Arrive(t)).items <==> y in r.items || y == t
  {
    RR.StepValid(r, RR.Arrive(t));
    if t !in r.items { InsertMembers(r.items, if r.at == 0 then |r.items| else r.at - 1, t); }
  }

  /** A task enters a delayed list at the place of its wake time. */
  function Enter(list: seq<int>, t: int, wake: map<int, nat>, w: nat): seq<int> {
    InsertAt(list, Place(Wakes(list, wake), w), t)
  }

  lemma {:induction false} EnterFacts(list: seq<int>, t: int, wake: map<int, nat>, w: nat)
    requires NoDup(list) && t !in list && Sorted(Wakes(list, wake))
    ensures var l', wake' := Enter(list, t, wake, w), wake[t := w];
            && NoDup(l') && (forall y :: y in l' <==> y in list || y == t)
            && Sorted(Wakes(l', wake')) && l' != []
            && Wakes(l', wake')[0] == (if list == [] || w < Wakes(list, wake)[0] then w else Wakes(list, wake)[0])
  {
    var values := Wakes(list, wake);
    var n := Place(values, w);
    PlaceSplits(values, w);
    InsertSorted(values, w);
    InsertMembers(list, n, t);
    InsertNoDup(list, n, t);
    assert Wakes(Enter(list, t, wake, w), wake[t := w]) == InsertAt(values, n, w);
  }

  // ----- a task becomes ready -----

  /** prvAddTaskToReadyList, after the task's items were taken out of wherever they are. */
  function MakeReady(k: State, t: int): State
    requires t in k.priority && k.priority[t] < |k.ready| && k.ready[k.priority[t]].at <= |k.ready[k.priority[t]].items|
  {
    var p := k.priority[t];
    k.(delayed := Drop(k.delayed, t), overflow := Drop(k.overflow, t), suspendedTasks := Drop(k.suspendedTasks, t),
       pendingReady := Drop(k.pendingReady, t), inEvent := k.inEvent - {t},
       ready := k.ready[p := RR.Next(k.ready[p], RR.Arrive(t))],
       topReady := if p > k.topReady then p else k.topReady,
       place := k.place[t := Ready])
  }

  lemma {:induction false} MakeReadyLists(k: State, due: bool, t: int)
    requires Inv(k, due) && t in k.place && !k.place[t].Ready?
    ensures t in k.priority && k.priority[t] < |k.ready| && RR.Valid(k.ready[k.priority[t]])
    ensures ListsOk(MakeReady(k, t))
  {
    assert PlaceAt(k, due, t);
    var p := k.priority[t];
    assert RR.Valid(k.ready[p]);
    var k' := MakeReady(k, t);
    ArriveFacts(k.ready[p], t);
    DropFacts(k.delayed, t, k.wake);
    DropFacts(k.overflow, t, k.wake);
    DropFacts(k.suspendedTasks, t, k.wake);
    DropFacts(k.pendingReady, t, k.wake);
    forall q | 0 <= q < |k'.ready| ensures RR.Valid(k'.ready[q]) { assert RR.Valid(k.ready[q]); }
  }

  lemma {:induction false} MakeReadyInv(k: State, due: bool, t: int)
    requires Inv(k, due) && t in k.place && !k.place[t].Ready?
    ensures t in k.priority && k.priority[t] < |k.ready| && RR.Valid(k.ready[k.priority[t]])
    ensures Inv(MakeReady(k, t), due)
  {
    MakeReadyLists(k, due, t);
    var k' := MakeReady(k, t);
    ArriveFacts(k.ready[k.priority[t]], t);
    forall q: nat, y ensures ReadyAt(k', q, y) { assert ReadyAt(k, q, y); }
    forall y ensures PlaceAt(k', due, y) { MakeReadyPlace(k, due, t, y); }
  }

  lemma {:induction false} MakeReadyPlace(k: State, due: bool, t: int, y: int)
    requires Inv(k, due) && t in k.place && !k.place[t].Ready?
    requires t in k.priority && k.priority[t] < |k.ready| && RR.Valid(k.ready[k.priority[t]])
    ensures PlaceAt(MakeReady(k, t), due, y)
  {
    assert PlaceAt(k, due, y) && PlaceAt(k, due, t);
    DropFacts(k.delayed, t, k.wake);
    DropFacts(k.overflow, t, k.wake);
    DropFacts(k.suspendedTasks, t, k.wake);
    DropFacts(k.pendingReady, t, k.wake);
  }

  // ----- a task blocks -----

  /** A task may block until this spot: forever, or until a later tick of this epoch or one of the next. */
  ghost predicate Blockable(k: State, spot: Spot) {
    spot.Forever?
    || (spot.Timed? && spot.wake < TICKS
        && (spot.epoch == k.epoch + 1 || (spot.epoch == k.epoch && spot.wake > k.tick)))
  }

  /** prvAddCurrentTaskToDelayedList for task t. */
  function Block(k: State, t: int, spot: Spot): State
    requires t in k.priority && k.priority[t] < |k.ready| && k.ready[k.priority[t]].at <= |k.ready[k.priority[t]].items|
  {
    var p := k.priority[t];
    PutAway(k.(ready := k.ready[p := RR.Next(k.ready[p], RR.Leave(t))], place := k.place[t := spot]), t, spot)
  }

  /** A task enters the list of its spot. */
  function PutAway(k: State, t: int, spot: Spot): State {
    if !spot.Timed? then k.(suspendedTasks := k.suspendedTasks + [t])
    else if spot.epoch != k.epoch then
      k.(overflow := Enter(k.overflow, t, k.wake, spot.wake), wake := k.wake[t := spot.wake])
    else
      k.(delayed := Enter(k.delayed, t, k.wake, spot.wake), wake := k.wake[t := spot.wake],
         nextUnblock := if spot.wake < k.nextUnblock then spot.wake else k.nextUnblock)
  }

  /** Task t has left its ready list. It is the last of the suspended tasks, or in the delayed list in which its wake
      time falls behind all tasks that wake no later; no other list has changed. */
  ghost predicate PutBehind(k: State, k': State, t: int, ticks: nat, forever: bool)
  {
    var w := k.tick + ticks;
    && t in k.priority && k.priority[t] < |k.ready| && k.ready[k.priority[t]].at <= |k.ready[k.priority[t]].items|
    && k'.ready == k.ready[k.priority[t] := RR.Next(k.ready[k.priority[t]], RR.Leave(t))]
    && k'.suspendedTasks == (if forever then k.suspendedTasks + [t] else k.suspendedTasks)
    && (if forever || w >= TICKS then k'.delayed == k.delayed && k'.nextUnblock == k.nextUnblock
        else InsertedBehind(k.delayed, k'.delayed, k'.wake, t, w)
             && k'.nextUnblock == if w < k.nextUnblock then w else k.nextUnblock)
    && (if forever || w < TICKS then k'.overflow == k.overflow
        else InsertedBehind(k.overflow, k'.overflow, k'.wake, t, w - TICKS))
    && k'.wake == if forever then k.wake else k.wake[t := if w < TICKS then w else w - TICKS]
  }

  /** t stands behind exactly the items that do not wake later than at w. */
  ghost predicate InsertedBehind(list: seq<int>, list': seq<int>, wake: map<int, nat>, t: int, w: nat) {
    exists n {:trigger InsertAt(list, n, t)} ::
      && 0 <= n <= |list| && list' == InsertAt(list, n, t)
      && (forall i :: 0 <= i < n ==> list[i] in wake && wake[list[i]] <= w)
      && (forall i :: n <= i < |list| ==> list[i] in wake && wake[list[i]] > w)
  }

  /** Where a delay of d ticks leads. */
  function Delayed(tick: nat, epoch: nat, d: nat): Spot
    requires tick < TICKS && d < TICKS
  {
    var w := Plus(tick, d);
    Timed(if w < tick then epoch + 1 else epoch, w)
  }

  /** The wake time wraps exactly when it is past the end of the epoch, and the deadline is d ticks from now. */
  lemma {:induction false} WakeTime(k: State, d: nat)
    requires k.tick < TICKS && 0 < d < TICKS
    ensures var s := Delayed(k.tick, k.epoch, d);
            Blockable(k, s) && Deadline(s) == Clock(k) + d && (s.epoch == k.epoch <==> k.tick + d < TICKS)
  {
  }

  lemma {:induction false} BlockLists(k: State, t: int, spot: Spot)
    requires Inv(k, false) && t in k.place && k.place[t].Ready? && t != k.idle && Blockable(k, spot)
    ensures t in k.priority && k.priority[t] < |k.ready| && RR.Valid(k.ready[k.priority[t]])
    ensures ListsOk(Block(k, t, spot))
    ensures t !in k.delayed && t !in k.overflow && t !in k.suspendedTasks
  {
    assert PlaceAt(k, false, t);
    var p := k.priority[t];
    assert RR.Valid(k.ready[p]);
    var k' := Block(k, t, spot);
    LeaveFacts(k.ready[p], t);
    forall q | 0 <= q < |k'.ready| ensures RR.Valid(k'.ready[q]) { assert RR.Valid(k.ready[q]); }
    if spot.Timed? {
      EnterFacts(k.delayed, t, k.wake, spot.wake);
      EnterFacts(k.overflow, t, k.wake, spot.wake);
      OtherWakes(k.delayed, k.wake, t, spot.wake);
      OtherWakes(k.overflow, k.wake, t, spot.wake);
    } else {
      InsertNoDup(k.suspendedTasks, |k.suspendedTasks|, t);
      assert InsertAt(k.suspendedTasks, |k.suspendedTasks|, t) == k.suspendedTasks + [t];
    }
  }

  lemma OtherWakes(list: seq<int>, wake: map<int, nat>, t: int, w: nat)
    requires t !in list
    ensures Wakes(list, wake[t := w]) == Wakes(list, wake)
  {
    assert forall i :: 0 <= i < |list| ==> list[i] in list;
  }

  lemma {:induction false} BlockInv(k: State, t: int, spot: Spot)
    requires Inv(k, false) && t in k.place && k.place[t].Ready? && t != k.idle && Blockable(k, spot)
    ensures t in k.priority && k.priority[t] < |k.ready| && RR.Valid(k.ready[k.priority[t]])
    ensures Inv(Block(k, t, spot), false)
  {
    BlockLists(k, t, spot);
    var p := k.priority[t];
    var k' := Block(k, t, spot);
    LeaveFacts(k.ready[p], t);
    if spot.Timed? {
      EnterFacts(k.delayed, t, k.wake, spot.wake);
      EnterFacts(k.overflow, t, k.wake, spot.wake);
    }
    forall q: nat, y ensures ReadyAt(k', q, y) { assert ReadyAt(k, q, y); }
    forall y ensures PlaceAt(k', false, y) { assert PlaceAt(k, false, y); }
  }

  lemma {:induction false} EnteredBehind(list: seq<int>, t: int, wake: map<int, nat>, w: nat)
    requires Sorted(Wakes(list, wake)) && t !in list && forall i :: 0 <= i < |list| ==> list[i] in wake
    ensures InsertedBehind(list, Enter(list, t, wake, w), wake[t := w], t, w)
  {
    var values := Wakes(list, wake);
    var n := Place(values, w);
    PlaceSplits(values, w);
    assert Enter(list, t, wake, w) == InsertAt(list, n, t);
    forall i | 0 <= i < |list| ensures list[i] in wake && wake[t := w][list[i]] == values[i] { assert list[i] != t; }
    forall i | n <= i < |list| ensures wake[t := w][list[i]] > w {
      if i > n { assert Ascends(values, n, i); }
    }
    forall i | 0 <= i < n ensures wake[t := w][list[i]] <= w { assert values[i] <= w; }
  }

  lemma {:induction false} BlockedBehind(k: State, t: int, ticks: nat, forever: bool)
    requires Inv(k, false) && t in k.place && k.place[t].Ready? && t != k.idle && 0 < ticks < TICKS
    requires t in k.priority && k.priority[t] < |k.ready| && RR.Valid(k.ready[k.priority[t]])
    ensures PutBehind(k, Block(k, t, if forever then Forever else Delayed(k.tick, k.epoch, ticks)), t, ticks, forever)
  {
    hide InsertedBehind, Enter;
    if !forever { EitherBehind(k, t, Plus(k.tick, ticks)); }
  }

  lemma {:induction false} EitherBehind(k: State, t: int, w: nat)
    requires Inv(k, false) && t in k.place && k.place[t].Ready?
    ensures InsertedBehind(k.delayed, Enter(k.delayed, t, k.wake, w), k.wake[t := w], t, w)
    ensures InsertedBehind(k.overflow, Enter(k.overflow, t, k.wake, w), k.wake[t := w], t, w)
  {
    hide InsertedBehind, Enter;
    assert PlaceAt(k, false, t);
    forall i | 0 <= i < |k.delayed| ensures k.delayed[i] in k.wake { assert PlaceAt(k, false, k.delayed[i]); }
    forall i | 0 <= i < |k.overflow| ensures k.overflow[i] in k.wake { assert PlaceAt(k, false, k.overflow[i]); }
    EnteredBehind(k.delayed, t, k.wake, w);
    EnteredBehind(k.overflow, t, k.wake, w);
  }

  lemma {:induction false} BlockFor(k: State, d: nat, forever: bool) returns (spot: Spot)
    requires Inv(k, false) && k.current in k.place && k.place[k.current].Ready? && k.current != k.idle && 0 < d < TICKS
    ensures spot == if forever then Forever else Delayed(k.tick, k.epoch, d)
    ensures !forever ==> Deadline(spot) == Clock(k) + d && (spot.epoch == k.epoch <==> Plus(k.tick, d) >= k.tick)
    ensures var t := k.current; t in k.priority && k.priority[t] < |k.ready| && RR.Valid(k.ready[k.priority[t]])
    ensures Inv(Block(k, k.current, spot), false)
  {
    spot := if forever then Forever else Delayed(k.tick, k.epoch, d);
    WakeTime(k, d);
    BlockInv(k, k.current, spot);
  }

  // ----- a tick -----

  /** prvResetNextTaskUnblockTime. */
  function NextUnblock(list: seq<int>, wake: map<int, nat>): nat {
    if list == [] then MAX_DELAY else Wakes(list, wake)[0]
  }

  /** The tick count goes up by one; when it wraps, the delayed lists swap. */
  function Advance(k: State): State
    requires k.tick < TICKS
  {
    var n := Plus(k.tick, 1);
    if n != 0 then k.(tick := n)
    else k.(tick := n, delayed := k.overflow, overflow := k.delayed, epoch := k.epoch + 1,
            nextUnblock := NextUnblock(k.overflow, k.wake))
  }

  /** A deadline in the current epoch is not beyond its last tick. */
  lemma {:induction false} LastTick(k: State)
    requires Inv(k, false)
    ensures k.delayed != [] ==> k.tick + 1 < TICKS
  {
    if k.delayed != [] { assert PlaceAt(k, false, k.delayed[0]); }
  }

  /** The current list is empty whenever the lists swap, and afterwards nothing is overdue. */
  lemma {:induction false} AdvanceInv(k: State)
    requires Inv(k, false)
    ensures Plus(k.tick, 1) == 0 ==> k.delayed == []
    ensures Inv(Advance(k), true) && Clock(Advance(k)) == Clock(k) + 1
  {
    var k' := Advance(k);
    assert Plus(k.tick, 1) == 0 ==> k.delayed == [] by { LastTick(k); }
    forall q | 0 <= q < |k'.ready| ensures RR.Valid(k'.ready[q]) { assert RR.Valid(k.ready[q]); }
    forall q: nat, y ensures ReadyAt(k', q, y) { assert ReadyAt(k, q, y); }
    forall y ensures PlaceAt(k', true, y) { assert PlaceAt(k, false, y); }
  }

  /** With nothing left to wake now, the invariant between steps holds again. */
  lemma {:induction false} NothingDue(k: State)
    requires Inv(k, true) && (k.delayed != [] ==> Wakes(k.delayed, k.wake)[0] > k.tick)
    ensures Inv(k, false)
  {
    forall y ensures PlaceAt(k, false, y) {
      assert PlaceAt(k, true, y);
      if y in k.delayed {
        var i := Find(k.delayed, y);
        assert Wakes(k.delayed, k.wake)[i] == k.wake[y] && Ascends(Wakes(k.delayed, k.wake), 0, i);
      }
    }
  }

  /** What one tick does to the task y: it is ready if its deadline is now, and otherwise where it was. */
  ghost predicate Awoken(place: map<int, Spot>, place': map<int, Spot>, now: nat, y: int) {
    y in place ==>
      && y in place'
      && place'[y] == if place[y].Timed? && Deadline(place[y]) == now then Ready else place[y]
  }

  /** Some of the tasks whose deadline is now may be ready already. */
  ghost predicate Waking(place: map<int, Spot>, place': map<int, Spot>, now: nat, y: int) {
    && (y in place <==> y in place')
    && (y in place ==> place'[y] == place[y] || (place'[y] == Ready && place[y].Timed? && Deadline(place[y]) == now))
  }

  /** A task at the head of the delayed list that is not later than now has its deadline now. */
  lemma {:induction false} HeadDue(k: State)
    requires Inv(k, true) && k.delayed != [] && k.delayed[0] in k.wake && k.wake[k.delayed[0]] <= k.tick
    ensures var t := k.delayed[0];
            && t in k.place && k.place[t].Timed? && Deadline(k.place[t]) == Clock(k) && !k.place[t].Ready?
            && t !in k.overflow && t !in k.suspendedTasks
            && |Drop(k.delayed, t)| < |k.delayed|
  {
    assert PlaceAt(k, true, k.delayed[0]);
  }

  /** y became ready and may preempt the current task. */
  ghost predicate Preempts(place: map<int, Spot>, place': map<int, Spot>, priority: map<int, nat>, current: int,
                            y: int) {
    && y in place && y in place' && place'[y] != place[y]
    && y in priority && current in priority && priority[y] >= priority[current]
  }

  ghost predicate SomePreempts(place: map<int, Spot>, place': map<int, Spot>, priority: map<int, nat>, current: int) {
    exists y {:trigger Preempts(place, place', priority, current, y)} :: Preempts(place, place', priority, current, y)
  }

  /** Other tasks of the current task's priority are ready. */
  predicate Shares(ready: seq<RR.Ready<int>>, priority: map<int, nat>, current: int) {
    current in priority && priority[current] < |ready| && |ready[priority[current]].items| > 1
  }

  ghost predicate Grown(r: seq<RR.Ready<int>>, r': seq<RR.Ready<int>>) {
    |r'| == |r| && forall p :: 0 <= p < |r| ==> |r[p].items| <= |r'[p].items|
  }

  ghost predicate OnlyReadied(place: map<int, Spot>, place': map<int, Spot>, y: int) {
    (y in place <==> y in place') && (y in place ==> place'[y] == place[y] || place'[y].Ready?)
  }

  /** A preempting task that became ready stays ready. */
  lemma {:induction false} Preempted(was: map<int, Spot>, mid: map<int, Spot>, now: map<int, Spot>,
                                     priority: map<int, nat>, current: int)
    requires forall y {:trigger OnlyReadied(was, mid, y)} :: OnlyReadied(was, mid, y)
    requires forall y {:trigger OnlyReadied(mid, now, y)} :: OnlyReadied(mid, now, y)
    ensures SomePreempts(was, now, priority, current) <==>
            SomePreempts(was, mid, priority, current) || SomePreempts(mid, now, priority, current)
  {
    if y :| Preempts(was, now, priority, current, y) {
      assert OnlyReadied(was, mid, y) && OnlyReadied(mid, now, y);
      assert Preempts(was, mid, priority, current, y) || Preempts(mid, now, priority, current, y);
    }
    if y :| Preempts(was, mid, priority, current, y) {
      assert OnlyReadied(was, mid, y) && OnlyReadied(mid, now, y);
      assert Preempts(was, now, priority, current, y);
    }
    if y :| Preempts(mid, now, priority, current, y) {
      assert OnlyReadied(was, mid, y) && OnlyReadied(mid, now, y);
      assert Preempts(was, now, priority, current, y);
    }
  }

  /** One task that was not ready becomes ready. */
  lemma {:induction false} PreemptedBy(was: map<int, Spot>, mid: map<int, Spot>, t: int,
                                       priority: map<int, nat>, current: int)
    requires t in was && t in mid && mid[t] == was[t] && !was[t].Ready? && t in priority && current in priority
    ensures SomePreempts(was, mid[t := Ready], priority, current) <==>
            SomePreempts(was, mid, priority, current) || priority[t] >= priority[current]
  {
    var now := mid[t := Ready];
    if y :| Preempts(was, mid, priority, current, y) { assert Preempts(was, now, priority, current, y); }
    if y :| Preempts(was, now, priority, current, y) {
      assert y == t || Preempts(was, mid, priority, current, y);
    }
    if priority[t] >= priority[current] { assert Preempts(was, now, priority, current, t); }
  }

  lemma NonePreempts(place: map<int, Spot>, priority: map<int, nat>, current: int)
    ensures !SomePreempts(place, place, priority, current)
  {
  }

  /** The woken tasks were at the heads of the delayed lists, and joined the ready lists in that order. */
  ghost predicate Woken(k: State, k': State, woken: seq<int>) {
    && k.delayed + k.overflow == woken + k'.delayed + k'.overflow
    && k'.ready == RR.JoinAll(k.ready, k.priority, woken) && k'.priority == k.priority
  }

  lemma {:induction false} WokenOn(k: State, k1: State, k2: State, a: seq<int>, b: seq<int>)
    requires Woken(k, k1, a) && Woken(k1, k2, b)
    ensures Woken(k, k2, a + b)
  {
    RR.JoinAllAppend(k.ready, k.priority, a, b);
    assert a + (k1.delayed + k1.overflow) == a + k1.delayed + k1.overflow;
    assert a + (b + k2.delayed + k2.overflow) == a + b + k2.delayed + k2.overflow;
  }

  lemma {:induction false} WokenHead(k: State, t: int)
    requires t in k.priority && k.priority[t] < |k.ready| && k.ready[k.priority[t]].at <= |k.ready[k.priority[t]].items|
    requires k.delayed != [] && t == k.delayed[0] && t !in k.overflow
    ensures Woken(k, MakeReady(k, t), [t])
  {
    RR.JoinAllOne(k.ready, k.priority, t);
    assert k.delayed == [t] + k.delayed[1..];
    assert Drop(k.delayed, t) == k.delayed[1..];
  }

  lemma {:induction false} WokenNone(k: State, k': State)
    requires k'.delayed + k'.overflow == k.delayed + k.overflow && k'.ready == k.ready && k'.priority == k.priority
    ensures Woken(k, k', [])
  {
    assert [] + k'.delayed == k'.delayed;
  }

  lemma WokenSame(k: State, k': State, n: nat, woken: seq<int>)
    requires Woken(k, k', woken)
    ensures Woken(k, k'.(nextUnblock := n), woken)
  {
  }

  /** Of the tasks that were in event lists, exactly those that are not ready now are still in them. */
  ghost predicate StillWaiting(was: set<int>, k: State) {
    forall y :: y in k.inEvent <==> y in was && y in k.place && !k.place[y].Ready?
  }

  lemma {:induction false} AllWaiting(k: State, due: bool)
    requires Inv(k, due)
    ensures StillWaiting(k.inEvent, k)
  {
    forall y | y in k.inEvent ensures y in k.place && !k.place[y].Ready? { assert PlaceAt(k, due, y); }
  }

  lemma {:induction false} WaitingReadied(was: set<int>, k: State, t: int)
    requires StillWaiting(was, k) && t in k.place && t in k.priority && k.priority[t] < |k.ready|
    requires k.ready[k.priority[t]].at <= |k.ready[k.priority[t]].items|
    ensures StillWaiting(was, MakeReady(k, t))
  {
  }

  lemma {:induction false} WaitingOn(was: set<int>, k: State, k': State)
    requires StillWaiting(was, k) && StillWaiting(k.inEvent, k')
    requires forall y {:trigger OnlyReadied(k.place, k'.place, y)} :: OnlyReadied(k.place, k'.place, y)
    ensures StillWaiting(was, k')
  {
    forall y ensures y in k'.inEvent <==> y in was && y in k'.place && !k'.place[y].Ready? {
      assert OnlyReadied(k.place, k'.place, y);
    }
  }

  function DropAll(list: seq<int>, tasks: seq<int>): seq<int>
    decreases |tasks|
  {
    if tasks == [] then list else Drop(DropAll(list, tasks[..|tasks| - 1]), tasks[|tasks| - 1])
  }

  lemma DropAllOn(list: seq<int>, done: seq<int>, t: int)
    ensures DropAll(list, done + [t]) == Drop(DropAll(list, done), t) == DropAll(DropAll(list, done), [t])
  {
    assert (done + [t])[..|done + [t]| - 1] == done;
    assert [t][..0] == [];
  }

  /** The tasks left the lists of waiting tasks and joined the ready lists in that order. */
  ghost predicate MovedAll(k: State, k': State, tasks: seq<int>) {
    && k'.ready == RR.JoinAll(k.ready, k.priority, tasks) && k'.priority == k.priority && k'.inEvent == k.inEvent
    && k'.delayed == DropAll(k.delayed, tasks) && k'.overflow == DropAll(k.overflow, tasks)
    && k'.suspendedTasks == DropAll(k.suspendedTasks, tasks)
  }

  lemma NoneMoved(k: State)
    ensures MovedAll(k, k, [])
  {
  }

  lemma {:induction false} MovedFirst(k: State, t: int)
    requires t in k.priority && k.priority[t] < |k.ready| && k.ready[k.priority[t]].at <= |k.ready[k.priority[t]].items|
    requires t !in k.inEvent
    ensures MovedAll(k, MakeReady(k, t), [t])
  {
    RR.JoinAllOne(k.ready, k.priority, t);
    assert [t][..0] == [];
  }

  lemma {:induction false} MovedOn(k: State, k1: State, k2: State, done: seq<int>, t: int)
    requires MovedAll(k, k1, done) && MovedAll(k1, k2, [t])
    ensures MovedAll(k, k2, done + [t])
  {
    RR.JoinAllAppend(k.ready, k.priority, done, [t]);
    DropAllOn(k.delayed, done, t);
    DropAllOn(k.overflow, done, t);
    DropAllOn(k.suspendedTasks, done, t);
  }

  /** Nothing overdue is left, so all tasks whose deadline is now were woken. */
  lemma {:induction false} TickDone(place: map<int, Spot>, k: State)
    requires Inv(k, false)
    requires forall y {:trigger Waking(place, k.place, Clock(k), y)} :: Waking(place, k.place, Clock(k), y)
    ensures forall y {:trigger Awoken(place, k.place, Clock(k), y)} :: Awoken(place, k.place, Clock(k), y)
    ensures k.place.Keys == place.Keys
  {
    forall y ensures Awoken(place, k.place, Clock(k), y) {
      assert PlaceAt(k, false, y) && Waking(place, k.place, Clock(k), y);
    }
    forall y ensures y in place.Keys <==> y in k.place.Keys { assert Waking(place, k.place, Clock(k), y); }
  }

  lemma {:induction false} JoinEvent(k: State)
    requires Inv(k, false) && k.current in k.place && !k.place[k.current].Ready? && k.current !in k.pendingReady
    ensures Inv(k.(inEvent := k.inEvent + {k.current}), false)
  {
    var k' := k.(inEvent := k.inEvent + {k.current});
    forall q: nat, y ensures ReadyAt(k', q, y) { assert ReadyAt(k, q, y); }
    forall y ensures PlaceAt(k', false, y) { assert PlaceAt(k, false, y); }
  }

  /** A task taken off its event list while the scheduler is suspended waits in the pending list. */
  lemma {:induction false} PendReady(k: State, t: int)
    requires Inv(k, false) && t in k.inEvent
    ensures Inv(k.(inEvent := k.inEvent - {t}, pendingReady := k.pendingReady + [t]), false)
  {
    var k' := k.(inEvent := k.inEvent - {t}, pendingReady := k.pendingReady + [t]);
    assert PlaceAt(k, false, t);
    InsertNoDup(k.pendingReady, |k.pendingReady|, t);
    assert InsertAt(k.pendingReady, |k.pendingReady|, t) == k'.pendingReady;
    forall q: nat, y ensures ReadyAt(k', q, y) { assert ReadyAt(k, q, y); }
    forall y ensures PlaceAt(k', false, y) { assert PlaceAt(k, false, y); }
  }

  lemma {:induction false} InitialInv(k: State, idle: int)
    requires k == State(seq(MAX_PRIORITIES, p => if p == 0 then RR.Ready([idle], 0) else RR.Ready([], 0)), 0, idle,
                        [], [], [], [], {}, map[idle := 0], map[], 0, MAX_DELAY, idle, map[idle := Ready], 0)
    ensures Inv(k, false)
  {
    forall q | 0 <= q < |k.ready| ensures RR.Valid(k.ready[q]) {
      forall i: nat, j: nat ensures Differ(k.ready[q].items, i, j) {}
    }
    var none: seq<int> := [];
    forall i: nat, j: nat ensures Differ(none, i, j) {}
    forall i: nat, j: nat ensures Ascends(Wakes([], k.wake), i, j) {}
    forall q: nat, y ensures ReadyAt(k, q, y) {}
    forall y ensures PlaceAt(k, false, y) {}
  }

  function NewTask(k: State, t: int, p: nat): State
    requires p < |k.ready| && k.ready[p].at <= |k.ready[p].items|
  {
    k.(priority := k.priority[t := p], ready := k.ready[p := RR.Next(k.ready[p], RR.Arrive(t))],
       topReady := if p > k.topReady then p else k.topReady, place := k.place[t := Ready])
  }

  lemma {:induction false} NewTaskInv(k: State, t: int, p: nat)
    requires Inv(k, false) && t !in k.place && p < MAX_PRIORITIES
    ensures p < |k.ready| && RR.Valid(k.ready[p]) && Inv(NewTask(k, t, p), false)
  {
    assert RR.Valid(k.ready[p]);
    var k' := NewTask(k, t, p);
    assert PlaceAt(k, false, t);
    ArriveFacts(k.ready[p], t);
    forall q | 0 <= q < |k'.ready| ensures RR.Valid(k'.ready[q]) { assert RR.Valid(k.ready[q]); }
    forall q: nat, y ensures ReadyAt(k', q, y) { assert ReadyAt(k, q, y) && ReadyAt(k, q, t); }
    forall y ensures PlaceAt(k', false, y) { assert PlaceAt(k, false, y); }
  }

  lemma {:induction false} CurrentFacts(k: State, due: bool)
    requires Inv(k, due)
    ensures k.current in k.place && k.current in k.priority && k.priority[k.current] < |k.ready|
  {
    assert PlaceAt(k, due, k.current);
  }

  lemma {:induction false} SetNextUnblock(k: State, n: nat)
    requires Inv(k, true) && (k.delayed != [] ==> n <= Wakes(k.delayed, k.wake)[0])
    ensures Inv(k.(nextUnblock := n), true)
  {
    var k' := k.(nextUnblock := n);
    forall q: nat, y ensures ReadyAt(k', q, y) { assert ReadyAt(k, q, y); }
    forall y ensures PlaceAt(k', true, y) { assert PlaceAt(k, true, y); }
  }

  class Kernel {
    var ready: seq<RR.Ready<int>>
    var topReady: nat
    var current: int
    var delayed: seq<int>
    var overflow: seq<int>
    var suspendedTasks: seq<int>
    var pendingReady: seq<int>
    var inEvent: set<int>
    var priority: map<int, nat>
    var wake: map<int, nat>
    var tick: nat
    var nextUnblock: nat
    const idle: int
    var schedulerSuspended: nat
    var yieldPending: bool
    var pendedTicks: nat
    ghost var place: map<int, Spot>
    ghost var epoch: nat
    ghost var delivered: nat

    ghost function View(): State
      reads this
    {
      State(ready, topReady, current, delayed, overflow, suspendedTasks, pendingReady, inEvent, priority, wake,
            tick, nextUnblock, idle, place, epoch)
    }

    ghost predicate Valid()
      reads this
    {
      Inv(View(), false) && (schedulerSuspended == 0 ==> pendingReady == [])
    }

    /** Every tick interrupt was processed or is pended. */
    ghost predicate OnTime()
      reads this
    {
      Clock(View()) + pendedTicks == delivered && (schedulerSuspended == 0 ==> pendedTicks == 0)
    }

    /** The state in which vTaskStartScheduler starts, with only the idle task. */
    constructor (idle: int)
      ensures Valid() && OnTime() && place == map[idle := Ready] && delivered == 0 && current == idle == this.idle
    {
      ready := seq(MAX_PRIORITIES, p => if p == 0 then RR.Ready([idle], 0) else RR.Ready([], 0));
      topReady, current, this.idle := 0, idle, idle;
      delayed, overflow, suspendedTasks, pendingReady, inEvent := [], [], [], [], {};
      priority, wake, tick, nextUnblock := map[idle := 0], map[], 0, MAX_DELAY;
      schedulerSuspended, pendedTicks, yieldPending, epoch, delivered := 0, 0, false, 0, 0;
      place := map[idle := Ready];
      new;
      InitialInv(View(), idle);
    }

    /** prvAddNewTaskToReadyList, once the scheduler runs. */
    method AddNewTask(t: int, p: nat) returns (mustYield: bool)
      requires Valid() && t !in place && p < MAX_PRIORITIES
      modifies this`ready, this`topReady, this`priority, this`place
      ensures Valid() && place == old(place)[t := Ready] && priority == old(priority)[t := p]
      ensures ready == RR.JoinOne(old(ready), priority, t)
      ensures current in old(priority) && mustYield == (old(priority)[current] < p)
    {
      ghost var k := View();
      NewTaskInv(k, t, p);
      assert PlaceAt(k, false, current) && current != t;
      priority := priority[t := p];
      AddTaskToReadyList(t);
      place := place[t := Ready];
      assert View() == NewTask(k, t, p);
      mustYield := priority[current] < priority[t];
    }

    /** prvAddCurrentTaskToDelayedList. */
    method AddCurrentToDelayed(ticks: nat, canBlockIndefinitely: bool)
      requires Valid() && 0 < ticks < TICKS && current in place && place[current].Ready? && current != idle
      modifies this`ready, this`delayed, this`overflow, this`suspendedTasks, this`wake, this`nextUnblock, this`place
      ensures Valid()
      ensures place == old(place)[current := place[current]]
      ensures if ticks == MAX_DELAY && canBlockIndefinitely then place[current].Forever?
              else place[current].Timed? && Deadline(place[current]) == Clock(old(View())) + ticks
      ensures PutBehind(old(View()), View(), current, ticks, ticks == MAX_DELAY && canBlockIndefinitely)
    {
      ghost var k := View();
      ghost var spot := BlockFor(k, ticks, ticks == MAX_DELAY && canBlockIndefinitely);
      var p := priority[current];
      ready := ready[p := RR.Next(ready[p], RR.Leave(current))];
      place := place[current := spot];
      InsertDelayed(ticks, canBlockIndefinitely);
      assert View() == Block(k, current, spot);
      BlockedBehind(k, current, ticks, ticks == MAX_DELAY && canBlockIndefinitely);
    }

    /** The current task enters the suspended list, or the delayed list of its wake time. */
    method InsertDelayed(ticks: nat, canBlockIndefinitely: bool)
      requires ticks < TICKS && tick < TICKS
      modifies this`delayed, this`overflow, this`suspendedTasks, this`wake, this`nextUnblock
      ensures View() == PutAway(old(View()), current, if ticks == MAX_DELAY && canBlockIndefinitely then Forever
                                                      else Delayed(tick, epoch, ticks))
    {
      if ticks == MAX_DELAY && canBlockIndefinitely {
        suspendedTasks := suspendedTasks + [current];
      } else {
        var timeToWake := Plus(tick, ticks);
        if timeToWake < tick {
          overflow := Enter(overflow, current, wake, timeToWake);
        } else {
          delayed := Enter(delayed, current, wake, timeToWake);
          if timeToWake < nextUnblock {
            nextUnblock := timeToWake;
          }
        }
        wake := wake[current := timeToWake];
      }
    }

    /** prvAddTaskToReadyList. */
    method AddTaskToReadyList(t: int)
      requires t in priority && priority[t] < |ready| && ready[priority[t]].at <= |ready[priority[t]].items|
      modifies this`ready, this`topReady
      ensures ready == old(ready)[priority[t] := RR.Next(old(ready)[priority[t]], RR.Arrive(t))]
      ensures topReady == if priority[t] > old(topReady) then priority[t] else old(topReady)
    {
      if priority[t] > topReady {
        topReady := priority[t];
      }
      ready := ready[priority[t] := RR.Next(ready[priority[t]], RR.Arrive(t))];
    }

    /** How the functions that lend, withdraw and lower a priority change it: a ready task moves to the ready
        list of its new priority, any other stays where it is. */
    method ChangePriority(t: int, p: nat)
      requires Valid() && t in place && t != idle && p < MAX_PRIORITIES
      modifies this`ready, this`topReady, this`priority
      ensures Valid() && priority == old(priority)[t := p]
      ensures place[t].Ready? ==> t in ready[p].items && topReady >= p
      ensures var o := if t in old(priority) then old(priority)[t] else 0;
              && o < |old(ready)| && old(ready)[o].at <= |old(ready)[o].items|
              && ready == if place[t].Ready?
                          then RR.JoinOne(old(ready)[o := RR.Next(old(ready)[o], RR.Leave(t))], priority, t)
                          else old(ready)
    {
      ghost var k := View();
      RepriorInv(k, t, p);
      ghost var k' := Repriored(k, t, p);
      assert ReadyAt(k', p, t) && ReadyAt(k, k.priority[t], t);
      if t in ready[priority[t]].items {
        ready := ready[priority[t] := RR.Next(ready[priority[t]], RR.Leave(t))];
        priority := priority[t := p];
        AddTaskToReadyList(t);
      } else {
        priority := priority[t := p];
      }
      assert View() == k';
    }

    /** prvResetNextTaskUnblockTime. */
    method ResetNextTaskUnblockTime()
      modifies this`nextUnblock
      ensures nextUnblock == NextUnblock(delayed, wake)
    {
      if delayed == [] {
        nextUnblock := MAX_DELAY;
      } else {
        var t := delayed[0];
        nextUnblock := if t in wake then wake[t] else 0;
      }
    }

    /** Take the task at the head of the delayed list, and off its event list if it is in one. */
    method WakeHead(t: int)
      requires delayed != [] && t == delayed[0] && t !in overflow && t !in suspendedTasks && pendingReady == []
      requires t in priority && priority[t] < |ready| && ready[priority[t]].at <= |ready[priority[t]].items|
      modifies this`ready, this`topReady, this`delayed, this`inEvent, this`place
      ensures View() == MakeReady(old(View()), t)
    {
      delayed := Drop(delayed, t);
      if t in inEvent {
        inEvent := inEvent - {t};
      }
      AddTaskToReadyList(t);
      place := place[t := Ready];
    }

    /** The loop of xTaskIncrementTick: take tasks off the head of the delayed list while their time has come. */
    method WakeTasks() returns (switchRequired: bool, ghost woken: seq<int>)
      requires Inv(View(), true) && pendingReady == []
      modifies this`ready, this`topReady, this`delayed, this`inEvent, this`nextUnblock, this`place
      ensures Inv(View(), false) && Woken(old(View()), View(), woken) && nextUnblock == NextUnblock(delayed, wake)
      ensures forall y :: y in inEvent <==> y in old(inEvent) && y in place && !place[y].Ready?
      ensures forall y {:trigger Waking(old(place), place, Clock(View()), y)} ::
              Waking(old(place), place, Clock(View()), y)
      ensures switchRequired <==> SomePreempts(old(place), place, priority, current)
      ensures Grown(old(ready), ready)
    {
      hide Woken, SomePreempts, ListsOk;
      switchRequired, woken := false, [];
      ghost var now, was := Clock(View()), place;
      NonePreempts(place, priority, current);
      WokenNone(View(), View());
      AllWaiting(View(), true);
      while true
        invariant Inv(View(), true) && pendingReady == []
        invariant Woken(old(View()), View(), woken) && StillWaiting(old(inEvent), View())
        invariant forall y {:trigger Waking(was, place, now, y)} :: Waking(was, place, now, y)
        invariant switchRequired <==> SomePreempts(was, place, priority, current)
        invariant Grown(old(ready), ready)
        decreases |delayed|
      {
        if delayed == [] {
          SetNextUnblock(View(), MAX_DELAY);
          WokenSame(old(View()), View(), MAX_DELAY, woken);
          nextUnblock := MAX_DELAY;
          break;
        }
        var t := delayed[0];
        assert PlaceAt(View(), true, t);
        CurrentFacts(View(), true);
        var itemValue := wake[t];
        if tick < itemValue {
          SetNextUnblock(View(), itemValue);
          WokenSame(old(View()), View(), itemValue, woken);
          nextUnblock := itemValue;
          break;
        }
        HeadDue(View());
        ghost var k := View();
        MakeReadyInv(k, true, t);
        WokenHead(k, t);
        WokenOn(old(View()), k, MakeReady(k, t), woken, [t]);
        WaitingReadied(old(inEvent), k, t);
        woken := woken + [t];
        assert Waking(was, k.place, now, t);
        PreemptedBy(was, k.place, t, priority, current);
        WakeHead(t);
        if priority[t] >= priority[current] {
          switchRequired := true;
        }
        forall y ensures Waking(was, place, now, y) { assert Waking(was, k.place, now, y); }
      }
      NothingDue(View());
    }

    /** xTaskIncrementTick while the scheduler runs: exactly the tasks whose deadline is the new tick become ready. */
    method ProcessTick() returns (switchRequired: bool, ghost woken: seq<int>)
      requires Inv(View(), false) && pendingReady == []
      modifies this`ready, this`topReady, this`delayed, this`overflow, this`inEvent, this`tick, this`nextUnblock,
               this`place, this`epoch
      ensures Inv(View(), false) && Clock(View()) == Clock(old(View())) + 1
      ensures Woken(old(View()), View(), woken) && place.Keys == old(place).Keys
      ensures forall y :: y in inEvent <==> y in old(inEvent) && y in place && !place[y].Ready?
      ensures nextUnblock == NextUnblock(delayed, wake) || (nextUnblock == old(nextUnblock) && tick < nextUnblock)
      ensures forall y {:trigger Awoken(old(place), place, Clock(View()), y)} ::
              Awoken(old(place), place, Clock(View()), y)
      ensures switchRequired <==>
              SomePreempts(old(place), place, priority, current) || Shares(ready, priority, current) || yieldPending
      ensures Grown(old(ready), ready)
    {
      hide Woken, SomePreempts, ListsOk;
      LastTick(View());
      AdvanceTick();
      ghost var k := View();
      WokenNone(old(View()), k);
      switchRequired, woken := WakeDue();
      WokenOn(old(View()), k, View(), [], woken);
      assert [] + woken == woken;
      CurrentFacts(View(), false);
      if |ready[priority[current]].items| > 1 {
        switchRequired := true;
      }
      if yieldPending {
        switchRequired := true;
      }
      TickDone(old(place), View());
    }

    /** The tick count goes up; when it wraps to 0 the delayed lists swap. */
    method AdvanceTick()
      requires Inv(View(), false)
      modifies this`delayed, this`overflow, this`tick, this`nextUnblock, this`epoch
      ensures View() == Advance(old(View())) && Inv(View(), true) && Clock(View()) == Clock(old(View())) + 1
    {
      AdvanceInv(View());
      tick := Plus(tick, 1);
      if tick == 0 {
        delayed, overflow := overflow, delayed;
        epoch := epoch + 1;
        ResetNextTaskUnblockTime();
      }
      assert View() == Advance(old(View()));
    }

    /** Nothing is due before the next unblock time. */
    method WakeDue() returns (switchRequired: bool, ghost woken: seq<int>)
      requires Inv(View(), true) && pendingReady == []
      modifies this`ready, this`topReady, this`delayed, this`inEvent, this`nextUnblock, this`place
      ensures Inv(View(), false) && Grown(old(ready), ready) && Woken(old(View()), View(), woken)
      ensures if tick >= old(nextUnblock) then nextUnblock == NextUnblock(delayed, wake) else View() == old(View())
      ensures forall y :: y in inEvent <==> y in old(inEvent) && y in place && !place[y].Ready?
      ensures forall y {:trigger Waking(old(place), place, Clock(View()), y)} ::
              Waking(old(place), place, Clock(View()), y)
      ensures switchRequired <==> SomePreempts(old(place), place, priority, current)
    {
      switchRequired, woken := false, [];
      if tick >= nextUnblock {
        switchRequired, woken := WakeTasks();
      } else {
        WokenNone(View(), View());
        AllWaiting(View(), true);
        NothingDue(View());
        NonePreempts(place, priority, current);
      }
    }

    /** xTaskIncrementTick, called from the tick interrupt. */
    method Tick() returns (switchRequired: bool, ghost woken: seq<int>)
      requires Valid() && OnTime()
      modifies this`ready, this`topReady, this`delayed, this`overflow, this`inEvent, this`tick, this`nextUnblock,
               this`place, this`epoch, this`pendedTicks, this`delivered
      ensures Valid() && OnTime() && delivered == old(delivered) + 1
      ensures schedulerSuspended != 0 ==> View() == old(View()) && pendedTicks == old(pendedTicks) + 1
      ensures schedulerSuspended == 0 ==> Clock(View()) == delivered && Woken(old(View()), View(), woken)
      ensures schedulerSuspended == 0 ==>
                forall y :: y in inEvent <==> y in old(inEvent) && y in place && !place[y].Ready?
      ensures schedulerSuspended == 0 ==>
                forall y {:trigger Awoken(old(place), place, delivered, y)} :: Awoken(old(place), place, delivered, y)
      ensures switchRequired <==>
                || yieldPending
                || (schedulerSuspended == 0
                    && (SomePreempts(old(place), place, priority, current) || Shares(ready, priority, current)))
    {
      delivered := delivered + 1;
      switchRequired, woken := false, [];
      if schedulerSuspended == 0 {
        switchRequired, woken := ProcessTick();
      } else {
        pendedTicks := pendedTicks + 1;
        switchRequired := yieldPending;
      }
    }

    /** vTaskMissedYield. */
    method MissedYield()
      modifies this`yieldPending
      ensures yieldPending
    {
      yieldPending := true;
    }

    /** vTaskSuspendAll. */
    method SuspendAll()
      requires Valid() && OnTime()
      modifies this`schedulerSuspended
      ensures Valid() && OnTime() && schedulerSuspended == old(schedulerSuspended) + 1
    {
      schedulerSuspended := schedulerSuspended + 1;
    }

    /** vTaskPlaceOnEventList, with the event list itself left to its owner. */
    method PlaceOnEventList(ticks: nat)
      requires Valid() && 0 < ticks < TICKS && current in place && place[current].Ready? && current != idle
      modifies this`ready, this`delayed, this`overflow, this`suspendedTasks, this`wake, this`nextUnblock, this`place,
               this`inEvent
      ensures Valid() && inEvent == old(inEvent) + {current}
      ensures place == old(place)[current := place[current]]
      ensures if ticks == MAX_DELAY then place[current].Forever?
              else place[current].Timed? && Deadline(place[current]) == Clock(old(View())) + ticks
      ensures PutBehind(old(View()), View(), current, ticks, ticks == MAX_DELAY)
    {
      assert PlaceAt(View(), false, current);
      AddCurrentToDelayed(ticks, true);
      JoinEvent(View());
      inEvent := inEvent + {current};
    }

    /** xTaskRemoveFromEventList for the task at the head of an event list. */
    method RemoveFromEventList(t: int) returns (higherPriority: bool)
      requires Valid() && t in inEvent && current in priority && t in priority
      modifies this`ready, this`topReady, this`delayed, this`overflow, this`suspendedTasks, this`pendingReady,
               this`inEvent, this`place, this`yieldPending
      ensures Valid() && inEvent == old(inEvent) - {t} && higherPriority == (priority[t] > priority[current])
      ensures yieldPending == (old(yieldPending) || higherPriority)
      ensures schedulerSuspended == 0 ==>
                && place == old(place)[t := Ready] && ready == RR.JoinOne(old(ready), priority, t)
                && delayed == Drop(old(delayed), t) && overflow == Drop(old(overflow), t)
                && suspendedTasks == Drop(old(suspendedTasks), t) && pendingReady == []
      ensures schedulerSuspended != 0 ==>
                View() == old(View()).(inEvent := inEvent, pendingReady := old(pendingReady) + [t])
    {
      ghost var k := View();
      assert PlaceAt(k, false, t);
      if schedulerSuspended == 0 {
        MakeReadyInv(k, false, t);
        inEvent := inEvent - {t};
        ReadyBlocked(t);
        assert View() == MakeReady(k, t);
      } else {
        PendReady(k, t);
        inEvent := inEvent - {t};
        pendingReady := pendingReady + [t];
        assert View() == k.(inEvent := k.inEvent - {t}, pendingReady := k.pendingReady + [t]);
      }
      higherPriority := priority[t] > priority[current];
      if higherPriority {
        yieldPending := true;
      }
    }

    /** uxListRemove of a task's state list item, whichever delayed or suspended list it is in. */
    method RemoveStateItem(t: int)
      modifies this`delayed, this`overflow, this`suspendedTasks
      ensures delayed == Drop(old(delayed), t) && overflow == Drop(old(overflow), t)
      ensures suspendedTasks == Drop(old(suspendedTasks), t)
    {
      delayed := Drop(delayed, t);
      overflow := Drop(overflow, t);
      suspendedTasks := Drop(suspendedTasks, t);
    }

    /** uxListRemove of the state list item, then prvAddTaskToReadyList. */
    method ReadyBlocked(t: int)
      requires t in priority && priority[t] < |ready| && ready[priority[t]].at <= |ready[priority[t]].items|
      modifies this`ready, this`topReady, this`delayed, this`overflow, this`suspendedTasks, this`place
      ensures View() == MakeReady(old(View()), t).(pendingReady := old(pendingReady), inEvent := old(inEvent))
    {
      RemoveStateItem(t);
      AddTaskToReadyList(t);
      place := place[t := Ready];
    }

    /** The first loop of xTaskResumeAll: the tasks that were readied in the meantime. */
    method MovePending() returns (moved: bool)
      requires Inv(View(), false)
      modifies this`ready, this`topReady, this`delayed, this`overflow, this`suspendedTasks, this`pendingReady,
               this`place, this`yieldPending
      ensures Inv(View(), false) && pendingReady == [] && moved == (old(pendingReady) != [])
      ensures MovedAll(old(View()), View(), old(pendingReady))
      ensures forall y {:trigger MovedAt(old(place), place, old(pendingReady), [], y)} ::
                MovedAt(old(place), place, old(pendingReady), [], y)
      ensures yieldPending <==> old(yieldPending) || SomePreempts(old(place), place, priority, current)
    {
      hide MovedAll, SomePreempts, ListsOk;
      NoneMoved(View());
      moved := false;
      ghost var was, all, n := place, pendingReady, 0;
      assert all[..0] == [] && all[0..] == all;
      NonePreempts(place, priority, current);
      while pendingReady != []
        invariant Inv(View(), false) && moved == (n > 0)
        invariant 0 <= n <= |all| && pendingReady == all[n..] && MovedAll(old(View()), View(), all[..n])
        invariant forall y {:trigger MovedAt(was, place, all, pendingReady, y)} ::
                    MovedAt(was, place, all, pendingReady, y)
        invariant yieldPending <==> old(yieldPending) || SomePreempts(was, place, priority, current)
        decreases |pendingReady|
      {
        ghost var k := View();
        var t := pendingReady[0];
        assert PlaceAt(k, false, t);
        CurrentFacts(k, false);
        assert MovedAt(was, place, all, pendingReady, t);
        PreemptedBy(was, place, t, priority, current);
        MoveFirst(t);
        MovedOn(old(View()), k, View(), all[..n], t);
        assert all[..n] + [t] == all[..n + 1];
        MovedStep(was, k.place, place, all, k.pendingReady, pendingReady, t);
        n := n + 1;
        moved := true;
      }
      assert all[..n] == all;
    }

    /** The first pending task joins its ready list, and may have to preempt the current task. */
    method MoveFirst(t: int)
      requires Inv(View(), false) && pendingReady != [] && t == pendingReady[0]
      modifies this`ready, this`topReady, this`delayed, this`overflow, this`suspendedTasks, this`pendingReady,
               this`place, this`yieldPending
      ensures Inv(View(), false) && place == old(place)[t := Ready] && t in priority && current in priority
      ensures yieldPending <==> old(yieldPending) || priority[t] >= priority[current]
      ensures pendingReady == old(pendingReady)[1..] && t !in pendingReady && MovedAll(old(View()), View(), [t])
    {
      MoveToReady(t);
      assert PlaceAt(View(), false, t) && PlaceAt(View(), false, current);
      if priority[t] >= priority[current] {
        yieldPending := true;
      }
    }

    method MoveToReady(t: int)
      requires Inv(View(), false) && pendingReady != [] && t == pendingReady[0]
      modifies this`ready, this`topReady, this`delayed, this`overflow, this`suspendedTasks, this`pendingReady,
               this`place
      ensures Inv(View(), false) && place == old(place)[t := Ready]
      ensures pendingReady == old(pendingReady)[1..] && t !in pendingReady && MovedAll(old(View()), View(), [t])
    {
      ghost var k := View();
      assert PlaceAt(k, false, t);
      MakeReadyInv(k, false, t);
      DropFacts(pendingReady, t, wake);
      pendingReady := Drop(pendingReady, t);
      ReadyBlocked(t);
      assert k.inEvent - {t} == k.inEvent;
      assert View() == MakeReady(k, t);
      assert Drop(k.pendingReady, t) == k.pendingReady[1..];
      MovedFirst(k, t);
    }

    /** xTaskResumeAll: the pending tasks become ready, and the pended ticks are made up for one by one. The result
        is whether the current task has yielded: if a yield was pending, if a task that became ready may preempt
        it, or if a tick was made up for and tasks of its own priority share the time. */
    method ResumeAll() returns (alreadyYielded: bool, ghost woken: seq<int>)
      requires Valid() && OnTime() && schedulerSuspended > 0
      modifies this`ready, this`topReady, this`delayed, this`overflow, this`suspendedTasks, this`pendingReady,
               this`inEvent, this`tick, this`nextUnblock, this`place, this`epoch, this`pendedTicks,
               this`schedulerSuspended, this`yieldPending
      ensures Valid() && OnTime() && schedulerSuspended == old(schedulerSuspended) - 1 && delivered == old(delivered)
      ensures schedulerSuspended > 0 ==> View() == old(View()) && pendedTicks == old(pendedTicks)
      ensures schedulerSuspended == 0 ==> Clock(View()) == delivered && pendingReady == []
      ensures schedulerSuspended == 0 ==> CaughtUp(old(View()), View(), old(pendingReady), woken)
      ensures schedulerSuspended == 0 ==>
                forall y :: y in inEvent <==> y in old(inEvent) && y in place && !place[y].Ready?
      ensures schedulerSuspended == 0 ==>
                forall y {:trigger ResumedAt(old(place), place, old(pendingReady), delivered, y)} ::
                  ResumedAt(old(place), place, old(pendingReady), delivered, y)
      ensures schedulerSuspended > 0 ==> !alreadyYielded && yieldPending == old(yieldPending)
      ensures schedulerSuspended == 0 ==>
                (alreadyYielded <==>
                 || old(yieldPending) || SomePreempts(old(place), place, priority, current)
                 || (old(pendedTicks) > 0 && Shares(ready, priority, current)))
    {
      alreadyYielded, woken := false, [];
      schedulerSuspended := schedulerSuspended - 1;
      if schedulerSuspended == 0 {
        woken := CatchUp();
        alreadyYielded := yieldPending;
      }
    }

    /** What xTaskResumeAll does when the scheduler runs again. */
    method CatchUp() returns (ghost woken: seq<int>)
      requires Inv(View(), false)
      modifies this`ready, this`topReady, this`delayed, this`overflow, this`suspendedTasks, this`pendingReady,
               this`inEvent, this`tick, this`nextUnblock, this`place, this`epoch, this`pendedTicks, this`yieldPending
      ensures Inv(View(), false) && pendingReady == [] && pendedTicks == 0
      ensures CaughtUp(old(View()), View(), old(pendingReady), woken)
      ensures forall y :: y in inEvent <==> y in old(inEvent) && y in place && !place[y].Ready?
      ensures Clock(View()) == Clock(old(View())) + old(pendedTicks)
      ensures forall y {:trigger ResumedAt(old(place), place, old(pendingReady), Clock(View()), y)} ::
                ResumedAt(old(place), place, old(pendingReady), Clock(View()), y)
      ensures yieldPending <==>
                || old(yieldPending) || SomePreempts(old(place), place, priority, current)
                || (old(pendedTicks) > 0 && Shares(ready, priority, current))
    {
      SettlePending();
      ghost var k := View();
      woken := MakeUpTicks();
      CaughtUpBy(old(View()), k, View(), old(pendingReady), woken);
      ResumedAll(old(place), k.place, View(), old(pendingReady));
    }

    /** The pending tasks become ready; if there were any, the next unblock time is found anew. */
    method SettlePending()
      requires Inv(View(), false)
      modifies this`ready, this`topReady, this`delayed, this`overflow, this`suspendedTasks, this`pendingReady,
               this`place, this`nextUnblock, this`yieldPending
      ensures Inv(View(), false) && pendingReady == [] && MovedAll(old(View()), View(), old(pendingReady))
      ensures nextUnblock == if old(pendingReady) != [] then NextUnblock(delayed, wake) else old(nextUnblock)
      ensures forall y {:trigger MovedAt(old(place), place, old(pendingReady), [], y)} ::
                MovedAt(old(place), place, old(pendingReady), [], y)
      ensures yieldPending <==> old(yieldPending) || SomePreempts(old(place), place, priority, current)
    {
      var moved := MovePending();
      if moved {
        RefreshNextUnblock(View());
        ResetNextTaskUnblockTime();
      }
    }

    /** The loop of xTaskResumeAll over the pended ticks. */
    method MakeUpTicks() returns (ghost woken: seq<int>)
      requires Inv(View(), false) && pendingReady == []
      modifies this`ready, this`topReady, this`delayed, this`overflow, this`inEvent, this`tick, this`nextUnblock,
               this`place, this`epoch, this`pendedTicks, this`yieldPending
      ensures Inv(View(), false) && pendingReady == [] && Clock(View()) == Clock(old(View())) + old(pendedTicks)
      ensures pendedTicks == 0 && Woken(old(View()), View(), woken)
      ensures forall y :: y in inEvent <==> y in old(inEvent) && y in place && !place[y].Ready?
      ensures forall y {:trigger ResumedAt(old(place), place, [], Clock(View()), y)} ::
                ResumedAt(old(place), place, [], Clock(View()), y)
      ensures yieldPending <==>
                || old(yieldPending) || SomePreempts(old(place), place, priority, current)
                || (old(pendedTicks) > 0 && Shares(ready, priority, current))
    {
      hide Woken, SomePreempts, ListsOk;
      NonePreempts(place, priority, current);
      var pendedCounts := pendedTicks;
      ghost var was, first := place, Clock(View());
      woken := [];
      NoneOverdue(View());
      WokenNone(View(), View());
      AllWaiting(View(), false);
      while pendedCounts > 0
        invariant Woken(old(View()), View(), woken) && StillWaiting(old(inEvent), View())
        invariant Inv(View(), false) && pendedCounts >= 0 && Clock(View()) + pendedCounts == first + old(pendedTicks)
        invariant forall y {:trigger ResumedAt(was, place, [], Clock(View()), y)} ::
                  ResumedAt(was, place, [], Clock(View()), y)
        invariant yieldPending <==>
                    || old(yieldPending) || SomePreempts(was, place, priority, current)
                    || (pendedCounts < old(pendedTicks) && Shares(ready, priority, current))
      {
        ghost var k, earlier := View(), Clock(View());
        ghost var more;
        var switchRequired;
        switchRequired, more := ProcessTick();
        WokenOn(old(View()), k, View(), woken, more);
        woken := woken + more;
        MadeUp(was, k.place, place, earlier, Clock(View()));
        WaitingOn(old(inEvent), k, View());
        Preempted(was, k.place, place, priority, current);
        if switchRequired {
          yieldPending := true;
        }
        pendedCounts := pendedCounts - 1;
      }
      pendedTicks := 0;
    }

    /** vTaskSwitchContext, with the generic task selection. */
    method SwitchContext()
      requires Valid()
      modifies this`ready, this`topReady, this`current, this`yieldPending
      ensures Valid() && yieldPending == (schedulerSuspended != 0)
      ensures schedulerSuspended != 0 ==> current == old(current) && ready == old(ready)
      ensures schedulerSuspended == 0 ==>
                && topReady < |old(ready)| && old(ready)[topReady].items != []
                && (forall p :: topReady < p < |old(ready)| ==> old(ready)[p].items == [])
                && old(ready)[topReady].at <= |old(ready)[topReady].items|
                && current == RR.Chosen(old(ready)[topReady])
                && ready == old(ready)[topReady := RR.Next(old(ready)[topReady], RR.Pick)]
    {
      yieldPending := schedulerSuspended != 0;
      if schedulerSuspended == 0 {
        ghost var k := View();
        SomeoneReady(k);
        var top := topReady;
        while ready[top].items == []
          invariant top < |ready| && ready[0].items != []
          invariant forall p: nat :: top < p < |ready| ==> ready[p].items == []
          decreases top
        {
          top := top - 1;
        }
        SelectInv(k, top);
        var list := ready[top];
        ready := ready[top := RR.Next(list, RR.Pick)];
        current := RR.Chosen(list);
        topReady := top;
        assert View() == Selected(k, top);
      }
    }
  }

  lemma {:induction false} MovedStep(was: map<int, Spot>, place: map<int, Spot>, place': map<int, Spot>, all: seq<int>,
                                     left: seq<int>, left': seq<int>, t: int)
    requires left == [t] + left' && t !in left' && t in all && t in place && place' == place[t := Ready]
    requires forall y {:trigger MovedAt(was, place, all, left, y)} :: MovedAt(was, place, all, left, y)
    ensures forall y {:trigger MovedAt(was, place', all, left', y)} :: MovedAt(was, place', all, left', y)
  {
    forall y ensures MovedAt(was, place', all, left', y) { assert MovedAt(was, place, all, left, y); }
  }

  /** What resuming does to a task: ready if it was pending or its deadline has come. */
  ghost function Resumed(s: Spot, pending: bool, now: nat): Spot {
    if pending || (s.Timed? && Deadline(s) <= now) then Ready else s
  }

  ghost predicate ResumedAt(place: map<int, Spot>, place': map<int, Spot>, pending: seq<int>, now: nat, y: int) {
    (y in place <==> y in place') && (y in place ==> place'[y] == Resumed(place[y], y in pending, now))
  }

  /** Tasks of the pending list that are no longer in it are ready. */
  ghost predicate MovedAt(place: map<int, Spot>, place': map<int, Spot>, all: seq<int>, left: seq<int>, y: int) {
    && (y in place <==> y in place')
    && (y in place ==> place'[y] == if y in all && y !in left then Ready else place[y])
  }

  /** The pending tasks joined the ready lists in their order, and after them the woken ones, from the heads of the
      delayed lists that the pending tasks had left. */
  ghost predicate CaughtUp(k: State, k': State, pending: seq<int>, woken: seq<int>) {
    && k'.ready == RR.JoinAll(k.ready, k.priority, pending + woken) && k'.priority == k.priority
    && DropAll(k.delayed, pending) + DropAll(k.overflow, pending) == woken + k'.delayed + k'.overflow
    && k'.suspendedTasks == DropAll(k.suspendedTasks, pending)
  }

  /** One more tick is made up for. */
  lemma {:induction false} MadeUp(was: map<int, Spot>, before: map<int, Spot>, place: map<int, Spot>, earlier: nat,
                                  now: nat)
    requires forall y {:trigger ResumedAt(was, before, [], earlier, y)} :: ResumedAt(was, before, [], earlier, y)
    requires forall y {:trigger Awoken(before, place, now, y)} :: Awoken(before, place, now, y)
    requires place.Keys == before.Keys && now == earlier + 1
    ensures forall y {:trigger ResumedAt(was, place, [], now, y)} :: ResumedAt(was, place, [], now, y)
    ensures forall y {:trigger OnlyReadied(was, before, y)} :: OnlyReadied(was, before, y)
    ensures forall y {:trigger OnlyReadied(before, place, y)} :: OnlyReadied(before, place, y)
  {
    forall y ensures ResumedAt(was, place, [], now, y) {
      assert ResumedAt(was, before, [], earlier, y) && Awoken(before, place, now, y);
      assert y in before.Keys <==> y in place.Keys;
    }
    forall y ensures OnlyReadied(was, before, y) { assert ResumedAt(was, before, [], earlier, y); }
    forall y ensures OnlyReadied(before, place, y) {
      assert Awoken(before, place, now, y) && (y in before.Keys <==> y in place.Keys);
    }
  }

  lemma {:induction false} CaughtUpBy(k: State, k1: State, k2: State, pending: seq<int>, woken: seq<int>)
    requires MovedAll(k, k1, pending) && Woken(k1, k2, woken) && k2.suspendedTasks == k1.suspendedTasks
    ensures CaughtUp(k, k2, pending, woken)
  {
    RR.JoinAllAppend(k.ready, k.priority, pending, woken);
  }

  lemma {:induction false} ResumedAll(place: map<int, Spot>, between: map<int, Spot>, k: State, pending: seq<int>)
    requires forall y {:trigger MovedAt(place, between, pending, [], y)} :: MovedAt(place, between, pending, [], y)
    requires forall y {:trigger ResumedAt(between, k.place, [], Clock(k), y)} ::
             ResumedAt(between, k.place, [], Clock(k), y)
    ensures forall y {:trigger ResumedAt(place, k.place, pending, Clock(k), y)} ::
              ResumedAt(place, k.place, pending, Clock(k), y)
    ensures SomePreempts(place, k.place, k.priority, k.current) <==>
            SomePreempts(place, between, k.priority, k.current) || SomePreempts(between, k.place, k.priority, k.current)
  {
    forall y ensures ResumedAt(place, k.place, pending, Clock(k), y) {
      assert MovedAt(place, between, pending, [], y) && ResumedAt(between, k.place, [], Clock(k), y);
    }
    forall y ensures OnlyReadied(place, between, y) { assert MovedAt(place, between, pending, [], y); }
    forall y ensures OnlyReadied(between, k.place, y) { assert ResumedAt(between, k.place, [], Clock(k), y); }
    Preempted(place, between, k.place, k.priority, k.current);
  }

  lemma {:induction false} RefreshNextUnblock(k: State)
    requires Inv(k, false)
    ensures Inv(k.(nextUnblock := NextUnblock(k.delayed, k.wake)), false)
  {
    var k' := k.(nextUnblock := NextUnblock(k.delayed, k.wake));
    forall q: nat, y ensures ReadyAt(k', q, y) { assert ReadyAt(k, q, y); }
    forall y ensures PlaceAt(k', false, y) { assert PlaceAt(k, false, y); }
  }

  lemma {:induction false} NoneOverdue(k: State)
    requires Inv(k, false)
    ensures forall y {:trigger ResumedAt(k.place, k.place, [], Clock(k), y)} ::
            ResumedAt(k.place, k.place, [], Clock(k), y)
  {
    forall y ensures ResumedAt(k.place, k.place, [], Clock(k), y) { assert PlaceAt(k, false, y); }
  }

  /** The idle task makes the search end. */
  lemma {:induction false} SomeoneReady(k: State)
    requires Inv(k, false)
    ensures k.ready[0].items != []
  {
    assert ReadyAt(k, 0, k.idle);
  }

  /** Task t at priority p, in the ready list of that priority if it is ready. */
  function Repriored(k: State, t: int, p: nat): State
    requires t in k.priority && k.priority[t] < |k.ready| && p < |k.ready|
    requires k.ready[k.priority[t]].at <= |k.ready[k.priority[t]].items|
    requires var left := k.ready[k.priority[t] := RR.Next(k.ready[k.priority[t]], RR.Leave(t))];
             left[p].at <= |left[p].items|
  {
    var left := k.ready[k.priority[t] := RR.Next(k.ready[k.priority[t]], RR.Leave(t))];
    if t !in k.ready[k.priority[t]].items then k.(priority := k.priority[t := p])
    else k.(priority := k.priority[t := p], ready := left[p := RR.Next(left[p], RR.Arrive(t))],
            topReady := if p > k.topReady then p else k.topReady)
  }

  lemma {:induction false} RepriorInv(k: State, t: int, p: nat)
    requires Inv(k, false) && t in k.place && t != k.idle && p < MAX_PRIORITIES
    ensures t in k.priority && k.priority[t] < |k.ready| && RR.Valid(k.ready[k.priority[t]])
    ensures var left := k.ready[k.priority[t] := RR.Next(k.ready[k.priority[t]], RR.Leave(t))]; RR.Valid(left[p])
    ensures Inv(Repriored(k, t, p), false)
  {
    assert PlaceAt(k, false, t);
    var o := k.priority[t];
    assert RR.Valid(k.ready[o]) && RR.Valid(k.ready[p]) && ReadyAt(k, o, t);
    LeaveFacts(k.ready[o], t);
    var left := k.ready[o := RR.Next(k.ready[o], RR.Leave(t))];
    ArriveFacts(left[p], t);
    var k' := Repriored(k, t, p);
    forall q | 0 <= q < |k'.ready| ensures RR.Valid(k'.ready[q]) { assert RR.Valid(k.ready[q]); }
    forall q: nat, y ensures ReadyAt(k', q, y) { assert ReadyAt(k, q, y); }
    forall y ensures PlaceAt(k', false, y) { assert PlaceAt(k, false, y); }
    forall q | k'.topReady < q < |k'.ready| ensures k'.ready[q].items == [] { assert k.ready[q].items == []; }
  }

  function Selected(k: State, top: nat): State
    requires top < |k.ready| && k.ready[top].items != [] && k.ready[top].at <= |k.ready[top].items|
  {
    k.(ready := k.ready[top := RR.Next(k.ready[top], RR.Pick)], current := RR.Chosen(k.ready[top]), topReady := top)
  }

  lemma {:induction false} SelectInv(k: State, top: nat)
    requires Inv(k, false) && top < |k.ready| && k.ready[top].items != []
    requires forall p :: top < p < |k.ready| ==> k.ready[p].items == []
    ensures RR.Valid(k.ready[top]) && Inv(Selected(k, top), false)
  {
    assert RR.Valid(k.ready[top]);
    RR.StepValid(k.ready[top], RR.Pick);
    var k' := Selected(k, top);
    assert ReadyAt(k, top, k'.current);
    forall q | 0 <= q < |k'.ready| ensures RR.Valid(k'.ready[q]) { assert RR.Valid(k.ready[q]); }
    forall q: nat, y ensures ReadyAt(k', q, y) { assert ReadyAt(k, q, y); }
    forall y ensures PlaceAt(k', false, y) { assert PlaceAt(k, false, y); }
  }
}
