/** The blocking protocol of queues and semaphores: critical sections of tasks and interrupts, interleaved,
    around two event lists that an interrupt may not touch while the queue is locked. The items themselves
    are the subject of module QueueRing. */
module QueueProtocol {
  import opened Lists
  import opened Sequences

  const UNLOCKED: int := -1
  const LOCKED_UNMODIFIED: int := 0

  /** A task with the value of its event list item, which is lower for a higher priority. */
  datatype Task = Task(id: int, value: nat)

  /** One event list. The lock counts the events that interrupts could not report, and woken holds the tasks
      that an event has taken off the list and that have not yet retried. */
  datatype Side = Side(waiting: seq<Task>, woken: set<Task>, lock: int)

  /** A queue: rx for the tasks that wait for a message, with cTxLock; tx for those that wait for space,
      with cRxLock. */
  datatype Counts = Counts(length: nat, messages: nat, rx: Side, tx: Side)

  function Space(q: Counts): int {
    q.length - q.messages
  }

  /** No more is on offer than the woken tasks and the unlocking task will see to. */
  ghost predicate Covered(amount: int, side: Side) {
    side.waiting != [] ==> amount <= |side.woken| + if side.lock > 0 then side.lock else 0
  }

  function Values(waiting: seq<Task>): seq<nat> {
    seq(|waiting|, i requires 0 <= i < |waiting| => waiting[i].value)
  }

  // ----- the event lists -----

  /** xTaskRemoveFromEventList, on a list that may be empty. */
  function Wake(side: Side): Side {
    if side.waiting == [] then side
    else side.(waiting := side.waiting[1..], woken := side.woken + {side.waiting[0]})
  }

  /** vTaskPlaceOnEventList: behind all tasks of the same or a higher priority. */
  function Enlist(side: Side, t: Task): Side {
    side.(waiting := InsertAt(side.waiting, Place(Values(side.waiting), t.value), t))
  }

  /** A task that was woken gets round to trying again. */
  function Retry(side: Side, t: Task): Side {
    side.(woken := side.woken - {t})
  }

  /** The tick that ends the wait of a task takes it off its list. */
  function Expire(side: Side, t: Task): Side {
    if t in side.waiting then side.(waiting := RemoveAt(side.waiting, Find(side.waiting, t))) else side
  }

  /** One half of prvUnlockQueue: one task is woken for each event counted, as far as tasks are waiting. */
  function Drain(side: Side): Side
    decreases if side.lock > 0 then side.lock else 0
  {
    if side.lock > LOCKED_UNMODIFIED && side.waiting != [] then Drain(Wake(side).(lock := side.lock - 1))
    else side.(lock := UNLOCKED)
  }

  /** An event in an interrupt: reported at once, or counted in eight bits when the queue is locked. */
  function Notify(side: Side): Side {
    if side.lock == UNLOCKED then Wake(side) else side.(lock := Char(side.lock + 1))
  }

  /** A conversion to int8_t. */
  function Char(i: int): int {
    if i > 127 then i - 256 else i
  }

  predicate Among(side: Side, t: Task) {
    t in side.waiting || t in side.woken
  }

  /** No task has joined. */
  ghost predicate Within(now: Side, before: Side) {
    forall t {:trigger Among(now, t)} :: Among(now, t) ==> Among(before, t)
  }

  ghost predicate SideOk(side: Side) {
    && NoDup(side.waiting) && Sorted(Values(side.waiting))
    && (forall t :: t in side.woken ==> t !in side.waiting)
  }

  lemma {:induction false} WakeFacts(amount: int, side: Side)
    requires SideOk(side)
    ensures SideOk(Wake(side)) && (Covered(amount, side) ==> Covered(amount + 1, Wake(side)))
    ensures side.waiting != [] ==> |Wake(side).woken| == |side.woken| + 1
    ensures Within(Wake(side), side)
    ensures Wake(side).lock == side.lock
  {
    if side.waiting != [] {
      assert side.waiting[1..] == RemoveAt(side.waiting, 0);
      RemoveNoDup(side.waiting, 0);
      RemoveMembers(side.waiting, 0);
      RemoveSorted(Values(side.waiting), 0);
      assert Values(side.waiting[1..]) == RemoveAt(Values(side.waiting), 0);
      assert side.waiting[0] in side.waiting;
    }
  }

  /** The task that an event wakes has the highest priority of those waiting, and of these it came first. */
  lemma {:induction false} WakesHighest(side: Side, t: Task)
    requires SideOk(side) && t in side.waiting
    ensures var first := side.waiting[0];
            && first in Wake(side).woken && first.value <= t.value
            && (t !in side.woken ==> t in Wake(side).woken ==> t == first)
  {
    var i := Find(side.waiting, t);
    if i > 0 { assert Ascends(Values(side.waiting), 0, i); }
  }

  lemma {:induction false} InsertedValues(w: seq<Task>, k: nat, t: Task)
    requires k <= |w|
    ensures Values(InsertAt(w, k, t)) == InsertAt(Values(w), k, t.value)
  {
    var r := InsertAt(w, k, t);
    forall i | 0 <= i < |r| ensures Values(r)[i] == InsertAt(Values(w), k, t.value)[i] {
      assert Values(r)[i] == r[i].value;
    }
  }

  /** A task goes behind those that are not of a lower priority. */
  lemma {:induction false} EnlistFacts(side: Side, t: Task)
    requires SideOk(side) && t !in side.waiting && t !in side.woken
    ensures SideOk(Enlist(side, t))
    ensures forall y :: y in Enlist(side, t).waiting <==> y in side.waiting || y == t
  {
    var k := Place(Values(side.waiting), t.value);
    InsertSorted(Values(side.waiting), t.value);
    InsertMembers(side.waiting, k, t);
    InsertNoDup(side.waiting, k, t);
    InsertedValues(side.waiting, k, t);
  }

  lemma {:induction false} EnlistsBehind(side: Side, t: Task, i: nat)
    requires SideOk(side) && i < |side.waiting|
    ensures var at := if side.waiting[i].value <= t.value then i else i + 1;
            at < |Enlist(side, t).waiting| && Enlist(side, t).waiting[at] == side.waiting[i]
  {
    var values := Values(side.waiting);
    var k := Place(values, t.value);
    PlaceSplits(values, t.value);
    assert values[i] == side.waiting[i].value;
    if k <= i { assert Ascends(values, k, i); }
  }

  lemma {:induction false} ExpireFacts(amount: int, side: Side, t: Task)
    requires SideOk(side)
    ensures SideOk(Expire(side, t)) && (Covered(amount, side) ==> Covered(amount, Expire(side, t)))
    ensures forall y :: y in Expire(side, t).waiting <==> y in side.waiting && y != t
  {
    if t in side.waiting {
      var k := Find(side.waiting, t);
      RemoveNoDup(side.waiting, k);
      RemoveMembers(side.waiting, k);
      RemoveSorted(Values(side.waiting), k);
      assert Values(RemoveAt(side.waiting, k)) == RemoveAt(Values(side.waiting), k);
    }
  }

  lemma {:induction false} RetryFacts(amount: int, side: Side, t: Task)
    requires SideOk(side)
    ensures SideOk(Retry(side, t)) && (Covered(amount, side) ==> Covered(amount - 1, Retry(side, t)))
  {
    assert side.woken <= Retry(side, t).woken + {t};
    if t in side.woken {
      assert |Retry(side, t).woken| == |side.woken| - 1;
    } else {
      assert Retry(side, t).woken == side.woken;
    }
  }

  /** Unlocking wakes the tasks in front, one for each event counted. */
  lemma {:induction false} DrainWakes(side: Side)
    ensures var n := if side.lock <= 0 then 0 else if side.lock < |side.waiting| then side.lock else |side.waiting|;
            && Drain(side).waiting == side.waiting[n..] && Drain(side).lock == UNLOCKED
            && (forall t :: t in Drain(side).woken <==> t in side.woken || t in side.waiting[..n])
    decreases if side.lock > 0 then side.lock else 0
  {
    if side.lock > LOCKED_UNMODIFIED && side.waiting != [] {
      var next := Wake(side).(lock := side.lock - 1);
      DrainWakes(next);
      var n := if side.lock < |side.waiting| then side.lock else |side.waiting|;
      assert side.waiting[..n] == [side.waiting[0]] + next.waiting[..n - 1];
    }
  }

  /** What the lock count promised is kept when the queue is unlocked. */
  lemma {:induction false} DrainFacts(amount: int, side: Side)
    requires SideOk(side) && side.lock >= LOCKED_UNMODIFIED
    ensures SideOk(Drain(side)) && Drain(side).lock == UNLOCKED
    ensures Covered(amount, side) ==> Covered(amount, Drain(side))
    ensures Within(Drain(side), side)
    decreases side.lock
  {
    if side.lock > LOCKED_UNMODIFIED && side.waiting != [] {
      WakeFacts(amount, side);
      var next := Wake(side).(lock := side.lock - 1);
      DrainFacts(amount, next);
      forall t ensures Among(Drain(side), t) ==> Among(side, t) {
        assert Among(Drain(next), t) ==> Among(next, t);
        assert Among(Wake(side), t) ==> Among(side, t);
      }
    }
  }

  // ----- what the critical sections do -----

  /** A message arrives from a task, over the one that is there if overwrite is set. */
  function Sent(q: Counts, overwrite: bool): Counts {
    q.(messages := if overwrite && q.messages > 0 then q.messages else q.messages + 1, rx := Wake(q.rx))
  }

  function SentFromISR(q: Counts, overwrite: bool): Counts {
    q.(messages := if overwrite && q.messages > 0 then q.messages else q.messages + 1, rx := Notify(q.rx))
  }

  function Received(q: Counts): Counts
    requires q.messages > 0
  {
    q.(messages := q.messages - 1, tx := Wake(q.tx))
  }

  function ReceivedFromISR(q: Counts): Counts
    requires q.messages > 0
  {
    q.(messages := q.messages - 1, tx := Notify(q.tx))
  }

  /** The message stays, and is offered to the next task that waits. */
  function Peeked(q: Counts): Counts {
    q.(rx := Wake(q.rx))
  }

  /** One sender is woken, whatever the number of places that become free. */
  function ResetQueue(q: Counts): Counts {
    q.(messages := 0, rx := q.rx.(lock := UNLOCKED), tx := Wake(q.tx.(lock := UNLOCKED)))
  }

  function Lock(side: Side): Side {
    if side.lock == UNLOCKED then side.(lock := LOCKED_UNMODIFIED) else side
  }

  /** The first of the waiting tasks, if there is one, was woken. */
  ghost predicate FirstWoken(waiting: seq<Task>, waiting': seq<Task>, woken: set<Task>, woken': set<Task>) {
    if waiting == [] then waiting' == [] && woken' == woken
    else waiting' == waiting[1..] && woken' == woken + {waiting[0]}
  }

  /** One event more, in eight bits. */
  ghost predicate Counted(lock: int, lock': int) {
    (lock < 127 ==> lock' == lock + 1) && (lock == 127 ==> lock' == -128)
  }

  /** As many waiting tasks were woken, from the front, as events were counted, or all if they are fewer. */
  ghost predicate CountWoken(waiting: seq<Task>, waiting': seq<Task>, woken: set<Task>, woken': set<Task>, lock: int) {
    var n := if lock <= 0 then 0 else if lock < |waiting| then lock else |waiting|;
    waiting' == waiting[n..] && forall t :: t in woken' <==> t in woken || t in waiting[..n]
  }

  /** The queue as the kernel stores it. */
  class Queue {
    const length: nat
    var messagesWaiting: nat
    var tasksWaitingToSend: seq<Task>
    var tasksWaitingToReceive: seq<Task>
    var cRxLock: int
    var cTxLock: int
    ghost var wokenSenders: set<Task>
    ghost var wokenReceivers: set<Task>

    ghost function View(): Counts
      reads this
    {
      Counts(length, messagesWaiting, Side(tasksWaitingToReceive, wokenReceivers, cTxLock),
             Side(tasksWaitingToSend, wokenSenders, cRxLock))
    }

    constructor (length: nat)
      ensures View() == Counts(length, 0, Side([], {}, UNLOCKED), Side([], {}, UNLOCKED))
    {
      this.length := length;
      messagesWaiting := 0;
      tasksWaitingToSend, tasksWaitingToReceive := [], [];
      cRxLock, cTxLock := UNLOCKED, UNLOCKED;
      wokenSenders, wokenReceivers := {}, {};
    }

    method WakeReceiver()
      modifies this`tasksWaitingToReceive, this`wokenReceivers
      ensures FirstWoken(old(tasksWaitingToReceive), tasksWaitingToReceive, old(wokenReceivers), wokenReceivers)
      ensures View() == old(View()).(rx := Wake(old(View()).rx))
    {
      if tasksWaitingToReceive != [] {
        wokenReceivers := wokenReceivers + {tasksWaitingToReceive[0]};
        tasksWaitingToReceive := tasksWaitingToReceive[1..];
      }
    }

    method WakeSender()
      modifies this`tasksWaitingToSend, this`wokenSenders
      ensures FirstWoken(old(tasksWaitingToSend), tasksWaitingToSend, old(wokenSenders), wokenSenders)
      ensures View() == old(View()).(tx := Wake(old(View()).tx))
    {
      if tasksWaitingToSend != [] {
        wokenSenders := wokenSenders + {tasksWaitingToSend[0]};
        tasksWaitingToSend := tasksWaitingToSend[1..];
      }
    }

    /** The critical section at the top of xQueueGenericSend. */
    method TrySend(overwrite: bool) returns (ok: bool)
      modifies this`messagesWaiting, this`tasksWaitingToReceive, this`wokenReceivers
      ensures ok <==> old(messagesWaiting) < length || overwrite
      ensures ok ==>
                && messagesWaiting == (if overwrite && old(messagesWaiting) > 0 then old(messagesWaiting)
                                       else old(messagesWaiting) + 1)
                && FirstWoken(old(tasksWaitingToReceive), tasksWaitingToReceive, old(wokenReceivers), wokenReceivers)
      ensures View() == if ok then Sent(old(View()), overwrite) else old(View())
    {
      ok := messagesWaiting < length || overwrite;
      if ok {
        if !(overwrite && messagesWaiting > 0) {
          messagesWaiting := messagesWaiting + 1;
        }
        WakeReceiver();
      }
    }

    /** xQueueGenericSendFromISR. */
    method SendFromISR(overwrite: bool) returns (ok: bool)
      modifies this`messagesWaiting, this`tasksWaitingToReceive, this`wokenReceivers, this`cTxLock
      ensures ok <==> old(messagesWaiting) < length || overwrite
      ensures ok ==> messagesWaiting == if overwrite && old(messagesWaiting) > 0 then old(messagesWaiting)
                                        else old(messagesWaiting) + 1
      ensures ok && old(cTxLock) == -1 ==>
                && cTxLock == -1
                && FirstWoken(old(tasksWaitingToReceive), tasksWaitingToReceive, old(wokenReceivers), wokenReceivers)
      ensures ok && old(cTxLock) != -1 ==>
                && tasksWaitingToReceive == old(tasksWaitingToReceive) && wokenReceivers == old(wokenReceivers)
                && Counted(old(cTxLock), cTxLock)
      ensures View() == if ok then SentFromISR(old(View()), overwrite) else old(View())
    {
      ok := messagesWaiting < length || overwrite;
      if ok {
        if !(overwrite && messagesWaiting > 0) {
          messagesWaiting := messagesWaiting + 1;
        }
        if cTxLock == UNLOCKED {
          WakeReceiver();
        } else {
          cTxLock := Char(cTxLock + 1);
        }
      }
    }

    /** The critical section at the top of xQueueReceive. */
    method TryReceive() returns (ok: bool)
      modifies this`messagesWaiting, this`tasksWaitingToSend, this`wokenSenders
      ensures ok <==> old(messagesWaiting) > 0
      ensures ok ==>
                && messagesWaiting == old(messagesWaiting) - 1
                && FirstWoken(old(tasksWaitingToSend), tasksWaitingToSend, old(wokenSenders), wokenSenders)
      ensures View() == if old(messagesWaiting) > 0 then Received(old(View())) else old(View())
    {
      ok := messagesWaiting > 0;
      if ok {
        messagesWaiting := messagesWaiting - 1;
        WakeSender();
      }
    }

    /** xQueueReceiveFromISR. */
    method ReceiveFromISR() returns (ok: bool)
      modifies this`messagesWaiting, this`tasksWaitingToSend, this`wokenSenders, this`cRxLock
      ensures ok <==> old(messagesWaiting) > 0
      ensures ok ==> messagesWaiting == old(messagesWaiting) - 1
      ensures ok && old(cRxLock) == -1 ==>
                && cRxLock == -1
                && FirstWoken(old(tasksWaitingToSend), tasksWaitingToSend, old(wokenSenders), wokenSenders)
      ensures ok && old(cRxLock) != -1 ==>
                && tasksWaitingToSend == old(tasksWaitingToSend) && wokenSenders == old(wokenSenders)
                && Counted(old(cRxLock), cRxLock)
      ensures View() == if old(messagesWaiting) > 0 then ReceivedFromISR(old(View())) else old(View())
    {
      ok := messagesWaiting > 0;
      if ok {
        messagesWaiting := messagesWaiting - 1;
        if cRxLock == UNLOCKED {
          WakeSender();
        } else {
          cRxLock := Char(cRxLock + 1);
        }
      }
    }

    /** The critical section at the top of xQueuePeek. */
    method TryPeek() returns (ok: bool)
      modifies this`tasksWaitingToReceive, this`wokenReceivers
      ensures ok <==> old(messagesWaiting) > 0
      ensures ok ==> FirstWoken(old(tasksWaitingToReceive), tasksWaitingToReceive, old(wokenReceivers), wokenReceivers)
      ensures View() == if ok then Peeked(old(View())) else old(View())
    {
      ok := messagesWaiting > 0;
      if ok {
        WakeReceiver();
      }
    }

    /** prvLockQueue. */
    method LockQueue()
      modifies this`cRxLock, this`cTxLock
      ensures cRxLock == if old(cRxLock) == -1 then 0 else old(cRxLock)
      ensures cTxLock == if old(cTxLock) == -1 then 0 else old(cTxLock)
      ensures View() == old(View()).(rx := Lock(old(View()).rx), tx := Lock(old(View()).tx))
    {
      if cRxLock == UNLOCKED {
        cRxLock := LOCKED_UNMODIFIED;
      }
      if cTxLock == UNLOCKED {
        cTxLock := LOCKED_UNMODIFIED;
      }
    }

    /** The first half of prvUnlockQueue. */
    method UnlockTx()
      modifies this`tasksWaitingToReceive, this`wokenReceivers, this`cTxLock
      ensures cTxLock == -1
              && CountWoken(old(tasksWaitingToReceive), tasksWaitingToReceive, old(wokenReceivers), wokenReceivers,
                            old(cTxLock))
      ensures View() == old(View()).(rx := Drain(old(View()).rx))
    {
      DrainWakes(View().rx);
      var lock := cTxLock;
      while lock > LOCKED_UNMODIFIED
        invariant View() == old(View()).(rx := View().rx) && cTxLock == old(cTxLock)
        invariant Drain(View().rx.(lock := lock)) == Drain(old(View()).rx)
      {
        if tasksWaitingToReceive != [] {
          WakeReceiver();
        } else {
          break;
        }
        lock := lock - 1;
      }
      cTxLock := UNLOCKED;
    }

    /** The second half of prvUnlockQueue. */
    method UnlockRx()
      modifies this`tasksWaitingToSend, this`wokenSenders, this`cRxLock
      ensures cRxLock == -1
              && CountWoken(old(tasksWaitingToSend), tasksWaitingToSend, old(wokenSenders), wokenSenders, old(cRxLock))
      ensures View() == old(View()).(tx := Drain(old(View()).tx))
    {
      DrainWakes(View().tx);
      var lock := cRxLock;
      while lock > LOCKED_UNMODIFIED
        invariant View() == old(View()).(tx := View().tx) && cRxLock == old(cRxLock)
        invariant Drain(View().tx.(lock := lock)) == Drain(old(View()).tx)
      {
        if tasksWaitingToSend != [] {
          WakeSender();
          lock := lock - 1;
        } else {
          break;
        }
      }
      cRxLock := UNLOCKED;
    }

    /** xQueueGenericReset on a queue in use. */
    method GenericReset()
      modifies this`messagesWaiting, this`cRxLock, this`cTxLock, this`tasksWaitingToSend, this`wokenSenders
      ensures messagesWaiting == 0 && cRxLock == -1 && cTxLock == -1
      ensures FirstWoken(old(tasksWaitingToSend), tasksWaitingToSend, old(wokenSenders), wokenSenders)
      ensures View() == ResetQueue(old(View()))
    {
      messagesWaiting := 0;
      cRxLock, cTxLock := UNLOCKED, UNLOCKED;
      WakeSender();
    }
  }

  // ----- runs -----

  datatype Kind = Receiving | Peeking | Sending(overwrite: bool)

  /** Why a task leaves the part of its loop in which the scheduler is suspended. */
  datatype Exit = Block | Again | Expired

  /** How far it has got there. MustBlock is the point between the test and the call that acts on it. */
  datatype Stage = Suspended | Locked | InTime | MustBlock | Decided(exit: Exit) | Half(exit: Exit) | Full(exit: Exit)

  /** Which task has the scheduler suspended. */
  datatype Window = Free | Held(task: Task, kind: Kind, stage: Stage)

  /** Where a task is that has called the queue. A task that is Trying and on an event list is blocked. */
  datatype Phase = Trying(kind: Kind) | Refused(kind: Kind) | Rechecking(kind: Kind)

  datatype State = State(q: Counts, phase: map<Task, Phase>, window: Window)

  /** The atomic steps. Those of a task that is not the one inside need the scheduler to be running. */
  datatype Event =
    | Call(t: Task, kind: Kind)
    | Attempt(t: Task, patient: bool)
    | SuspendAll(t: Task)
    | LockBoth
    | CheckForTimeOut(expired: bool)
    | TestQueue
    | PlaceOnEventList
    | UnlockFirst
    | UnlockSecond
    | ResumeAll
    | Recheck(t: Task)
    | TimeOut(t: Task)
    | Reset
    | InterruptSend(overwrite: bool)
    | InterruptReceive

  function Initial(length: nat): State {
    State(Counts(length, 0, Side([], {}, UNLOCKED), Side([], {}, UNLOCKED)), map[], Free)
  }

  predicate Blocked(q: Counts, t: Task) {
    t in q.rx.waiting || t in q.tx.waiting
  }

  /** Whether a call of this kind would have to wait. */
  predicate MustWait(q: Counts, kind: Kind) {
    if kind.Sending? then q.messages == q.length else q.messages == 0
  }

  function Retried(q: Counts, t: Task): Counts {
    q.(rx := Retry(q.rx, t), tx := Retry(q.tx, t))
  }

  /** The critical section at the top of the loops. */
  function Tried(s: State, t: Task, kind: Kind, patient: bool): State {
    var q := Retried(s.q, t);
    var done := s.phase - {t};
    match kind
    case Receiving =>
      if q.messages > 0 then State(Received(q), done, s.window) else Refuse(s.(q := q), t, kind, patient)
    case Peeking =>
      if q.messages > 0 then State(Peeked(q), done, s.window) else Refuse(s.(q := q), t, kind, patient)
    case Sending(overwrite) =>
      if q.messages < q.length || overwrite then State(Sent(q, overwrite), done, s.window)
      else Refuse(s.(q := q), t, kind, patient)
  }

  /** A call without block time returns. */
  function Refuse(s: State, t: Task, kind: Kind, patient: bool): State {
    if patient then s.(phase := s.phase[t := Refused(kind)]) else s.(phase := s.phase - {t})
  }

  /** The steps of the task that has the scheduler suspended. */
  function StepInside(s: State, e: Event): State
    requires s.window.Held?
  {
    var w := s.window;
    match e
    case LockBoth =>
      if w.stage != Suspended then s
      else s.(q := s.q.(rx := Lock(s.q.rx), tx := Lock(s.q.tx)), window := w.(stage := Locked))
    case CheckForTimeOut(expired) =>
      if w.stage != Locked then s else s.(window := w.(stage := if expired then Decided(Expired) else InTime))
    case TestQueue =>
      if w.stage != InTime then s
      else s.(window := w.(stage := if MustWait(s.q, w.kind) then MustBlock else Decided(Again)))
    case PlaceOnEventList =>
      if w.stage != MustBlock then s
      else
        s.(window := w.(stage := Decided(Block)),
           q := if w.kind.Sending? then s.q.(tx := Enlist(s.q.tx, w.task)) else s.q.(rx := Enlist(s.q.rx, w.task)))
    case UnlockFirst =>
      if !w.stage.Decided? then s
      else s.(q := s.q.(rx := Drain(s.q.rx)), window := w.(stage := Half(w.stage.exit)))
    case UnlockSecond =>
      if !w.stage.Half? then s
      else s.(q := s.q.(tx := Drain(s.q.tx)), window := w.(stage := Full(w.stage.exit)))
    case ResumeAll =>
      if !w.stage.Full? then s
      else if w.stage.exit != Expired then State(s.q, s.phase[w.task := Trying(w.kind)], Free)
      else if w.kind.Sending? then s.(window := Free)
      else State(s.q, s.phase[w.task := Rechecking(w.kind)], Free)
    case _ => s
  }

  /** The steps of tasks while the scheduler is running, and of its tick. */
  function StepOutside(s: State, e: Event): State
    requires s.window.Free?
  {
    match e
    case Call(t, kind) =>
      if t in s.phase || (kind == Sending(true) && s.q.length != 1) then s
      else s.(phase := s.phase[t := Trying(kind)])
    case Attempt(t, patient) =>
      if t !in s.phase || !s.phase[t].Trying? || Blocked(s.q, t) then s
      else Tried(s, t, s.phase[t].kind, patient)
    case SuspendAll(t) =>
      if t !in s.phase || !s.phase[t].Refused? then s
      else State(s.q, s.phase - {t}, Held(t, s.phase[t].kind, Suspended))
    case Recheck(t) =>
      if t !in s.phase || !s.phase[t].Rechecking? then s
      else if s.q.messages == 0 then s.(phase := s.phase - {t})
      else s.(phase := s.phase[t := Trying(s.phase[t].kind)])
    case TimeOut(t) => s.(q := s.q.(rx := Expire(s.q.rx, t), tx := Expire(s.q.tx, t)))
    case Reset => s.(q := ResetQueue(s.q))
    case _ => s
  }

  /** One step; a step that is not possible now changes nothing. */
  function Step(s: State, e: Event): State {
    match e
    case InterruptSend(overwrite) =>
      if overwrite && s.q.length != 1 then s
      else if s.q.messages < s.q.length || overwrite then s.(q := SentFromISR(s.q, overwrite)) else s
    case InterruptReceive => if s.q.messages > 0 then s.(q := ReceivedFromISR(s.q)) else s
    case _ => if s.window.Held? then StepInside(s, e) else StepOutside(s, e)
  }

  function Run(s: State, events: seq<Event>): State
    decreases |events|
  {
    if events == [] then s else Run(Step(s, events[0]), events[1..])
  }

  /** A task is inside, and has decided to block. */
  predicate Blocking(w: Window, t: Task, sending: bool) {
    && w.Held? && w.task == t && w.kind.Sending? == sending
    && (w.stage == Decided(Block) || w.stage == Half(Block) || w.stage == Full(Block))
  }

  /** A task that waits, or was woken and has not retried, is going to retry. */
  predicate WillRetry(s: State, t: Task, sending: bool) {
    || (t in s.phase && s.phase[t].Trying? && s.phase[t].kind.Sending? == sending)
    || Blocking(s.window, t, sending)
  }

  ghost predicate TaskAt(s: State, t: Task) {
    && (Among(s.q.rx, t) ==> WillRetry(s, t, false))
    && (Among(s.q.tx, t) ==> WillRetry(s, t, true))
    && (t in s.phase && s.window.Held? ==> s.window.task != t)
    && (t in s.phase && s.phase[t].kind == Sending(true) ==> s.q.length == 1)
    && (s.window.Held? && s.window.kind == Sending(true) ==> s.q.length == 1)
  }

  /** The queue is locked from prvLockQueue to prvUnlockQueue, and the task that found it empty or full
      can rely on the lock count until it is on the list. */
  ghost predicate WindowOk(q: Counts, w: Window) {
    if w.Free? || w.stage == Suspended || w.stage.Full? then q.rx.lock == UNLOCKED && q.tx.lock == UNLOCKED
    else
      && (if w.stage.Half? then q.rx.lock == UNLOCKED else 0 <= q.rx.lock <= 127)
      && 0 <= q.tx.lock <= 127
      && (w.stage == MustBlock ==> if w.kind.Sending? then Space(q) <= q.tx.lock else q.messages <= q.rx.lock)
  }

  ghost predicate Inv(s: State, fair: bool) {
    && s.q.length > 0 && s.q.messages <= s.q.length && SideOk(s.q.rx) && SideOk(s.q.tx)
    && WindowOk(s.q, s.window)
    && (forall t {:trigger TaskAt(s, t)} :: TaskAt(s, t))
    && Covered(s.q.messages, s.q.rx) && (fair ==> Covered(Space(s.q), s.q.tx))
  }

  /** The lock counts have room for another interrupt. */
  predicate Countable(s: State, e: Event) {
    && (e.InterruptSend? ==> s.q.rx.lock < 127)
    && (e.InterruptReceive? ==> s.q.tx.lock < 127)
  }

  predicate Orderly(s: State, events: seq<Event>)
    decreases |events|
  {
    events == [] || (Countable(s, events[0]) && Orderly(Step(s, events[0]), events[1..]))
  }

  lemma {:induction false} InsideKeeps(s: State, e: Event, fair: bool)
    requires Inv(s, fair) && s.window.Held?
    ensures Inv(StepInside(s, e), fair)
  {
    var r, w := StepInside(s, e), s.window;
    assert TaskAt(s, w.task);
    match e {
      case PlaceOnEventList =>
        if w.stage == MustBlock { EnlistFacts(if w.kind.Sending? then s.q.tx else s.q.rx, w.task); }
      case UnlockFirst =>
        if w.stage.Decided? { DrainFacts(s.q.messages, s.q.rx); }
      case UnlockSecond =>
        if w.stage.Half? { DrainFacts(Space(s.q), s.q.tx); }
      case _ =>
    }
    forall t ensures TaskAt(r, t) {
      assert TaskAt(s, t);
      assert Among(r.q.rx, t) ==> Among(s.q.rx, t) || t == w.task;
      assert Among(r.q.tx, t) ==> Among(s.q.tx, t) || t == w.task;
    }
  }

  /** The phase of one task that is no longer on the lists may change. */
  lemma {:induction false} TasksKeep(s: State, r: State, t: Task)
    requires forall y {:trigger TaskAt(s, y)} :: TaskAt(s, y)
    requires Within(r.q.rx, s.q.rx) && Within(r.q.tx, s.q.tx) && !Among(r.q.rx, t) && !Among(r.q.tx, t)
    requires s.window.Free? && r.window.Free? && r.q.length == s.q.length && t in s.phase
    requires r.phase - {t} == s.phase - {t} && (t in r.phase ==> r.phase[t].kind == s.phase[t].kind)
    ensures forall y {:trigger TaskAt(r, y)} :: TaskAt(r, y)
  {
    forall y ensures TaskAt(r, y) {
      assert TaskAt(s, y);
      assert y in r.phase - {t} <==> y in s.phase - {t};
      if y != t && y in s.phase { assert (r.phase - {t})[y] == (s.phase - {t})[y]; }
      assert Among(r.q.rx, y) ==> Among(s.q.rx, y);
      assert Among(r.q.tx, y) ==> Among(s.q.tx, y);
    }
  }

  ghost predicate CountsOk(q: Counts, fair: bool) {
    && q.messages <= q.length && SideOk(q.rx) && SideOk(q.tx) && Covered(q.messages, q.rx)
    && (fair ==> Covered(Space(q), q.tx))
  }

  /** The task that retries takes what it was woken for. */
  lemma {:induction false} RetriedFacts(q: Counts, t: Task)
    requires SideOk(q.rx) && SideOk(q.tx) && !Blocked(q, t)
    ensures var r := Retried(q, t);
            && SideOk(r.rx) && SideOk(r.tx)
            && (Covered(q.messages, q.rx) ==> Covered(r.messages - 1, r.rx))
            && (Covered(Space(q), q.tx) ==> Covered(Space(r) - 1, r.tx))
            && (t !in q.rx.woken ==> r.rx == q.rx) && (t !in q.tx.woken ==> r.tx == q.tx)
            && Within(r.rx, q.rx) && Within(r.tx, q.tx) && !Among(r.rx, t) && !Among(r.tx, t)
  {
    RetryFacts(q.messages, q.rx, t);
    RetryFacts(Space(q), q.tx, t);
    forall y ensures Among(Retry(q.rx, t), y) ==> Among(q.rx, y) { }
    forall y ensures Among(Retry(q.tx, t), y) ==> Among(q.tx, y) { }
  }

  lemma {:induction false} TriedWithin(s: State, t: Task, kind: Kind, patient: bool)
    requires SideOk(s.q.rx) && SideOk(s.q.tx) && !Blocked(s.q, t)
    ensures var q := Tried(s, t, kind, patient).q;
            && q.length == s.q.length && q.rx.lock == s.q.rx.lock && q.tx.lock == s.q.tx.lock
            && Within(q.rx, s.q.rx) && Within(q.tx, s.q.tx) && !Among(q.rx, t) && !Among(q.tx, t)
  {
    var q := Retried(s.q, t);
    RetriedFacts(s.q, t);
    WakeFacts(0, q.rx);
    WakeFacts(0, q.tx);
    var r := Tried(s, t, kind, patient).q;
    forall y ensures Among(r.rx, y) ==> Among(s.q.rx, y) && y != t {
      assert Among(Wake(q.rx), y) ==> Among(q.rx, y);
      assert Among(q.rx, y) ==> Among(s.q.rx, y);
    }
    forall y ensures Among(r.tx, y) ==> Among(s.q.tx, y) && y != t {
      assert Among(Wake(q.tx), y) ==> Among(q.tx, y);
      assert Among(q.tx, y) ==> Among(s.q.tx, y);
    }
  }

  /** What is left for the others when a message or a place is taken, or a message seen. */
  lemma {:induction false} TakenCounts(q: Counts, kind: Kind, fair: bool)
    requires q.messages <= q.length && SideOk(q.rx) && SideOk(q.tx)
    requires Covered(q.messages - if kind.Sending? then 0 else 1, q.rx)
    requires fair ==> Covered(Space(q) - if kind.Sending? then 1 else 0, q.tx)
    requires if kind.Sending? then q.messages < q.length || kind.overwrite else q.messages > 0
    requires kind == Sending(true) ==> q.length == 1
    ensures CountsOk(match kind
                     case Receiving => Received(q)
                     case Peeking => Peeked(q)
                     case Sending(overwrite) => Sent(q, overwrite), fair)
  {
    match kind
    case Receiving => WakeFacts(Space(q), q.tx);
    case Peeking => WakeFacts(q.messages - 1, q.rx);
    case Sending(overwrite) => WakeFacts(q.messages, q.rx);
  }

  lemma {:induction false} TriedCounts(s: State, t: Task, kind: Kind, patient: bool, fair: bool)
    requires CountsOk(s.q, fair) && !Blocked(s.q, t)
    requires t in s.q.rx.woken ==> !kind.Sending?
    requires t in s.q.tx.woken ==> kind.Sending?
    requires kind == Sending(true) ==> s.q.length == 1
    ensures CountsOk(Tried(s, t, kind, patient).q, fair)
  {
    var q := Retried(s.q, t);
    RetriedFacts(s.q, t);
    if MustWait(q, kind) && kind != Sending(true) {
      assert Tried(s, t, kind, patient).q == q;
    } else {
      TakenCounts(q, kind, fair);
    }
  }

  lemma {:induction false} TriedKeeps(s: State, t: Task, kind: Kind, patient: bool, fair: bool)
    requires Inv(s, fair) && s.window.Free? && t in s.phase && s.phase[t] == Trying(kind) && !Blocked(s.q, t)
    ensures Inv(Tried(s, t, kind, patient), fair)
  {
    assert TaskAt(s, t);
    assert Among(s.q.rx, t) ==> WillRetry(s, t, false);
    TriedCounts(s, t, kind, patient, fair);
    TriedWithin(s, t, kind, patient);
    TasksKeep(s, Tried(s, t, kind, patient), t);
  }

  /** A reset frees all places but wakes one sender. */
  predicate ResetFair(q: Counts) {
    |q.tx.waiting| <= 1 || q.length <= |q.tx.woken| + 1
  }

  lemma {:induction false} ListsKeep(s: State, e: Event, fair: bool)
    requires Inv(s, fair) && s.window.Free? && (e.TimeOut? || (e.Reset? && (fair ==> ResetFair(s.q))))
    ensures Inv(StepOutside(s, e), fair)
  {
    var r := StepOutside(s, e);
    if e.TimeOut? {
      ExpireFacts(s.q.messages, s.q.rx, e.t);
      ExpireFacts(Space(s.q), s.q.tx, e.t);
    } else {
      WakeFacts(Space(s.q), s.q.tx);
    }
    forall y ensures TaskAt(r, y) {
      assert TaskAt(s, y);
      assert Among(r.q.rx, y) ==> Among(s.q.rx, y);
      assert Among(r.q.tx, y) ==> Among(s.q.tx, y);
    }
  }

  lemma {:induction false} OutsideKeeps(s: State, e: Event, fair: bool)
    requires Inv(s, fair) && s.window.Free? && (e.Reset? && fair ==> ResetFair(s.q))
    ensures Inv(StepOutside(s, e), fair)
  {
    if e.TimeOut? || e.Reset? {
      ListsKeep(s, e, fair);
    } else if e.Attempt? {
      if e.t in s.phase && s.phase[e.t].Trying? && !Blocked(s.q, e.t) {
        TriedKeeps(s, e.t, s.phase[e.t].kind, e.patient, fair);
      }
    } else {
      var r := StepOutside(s, e);
      assert e.SuspendAll? ==> TaskAt(s, e.t);
      forall y ensures TaskAt(r, y) { assert TaskAt(s, y); }
    }
  }

  lemma {:induction false} NotifyFacts(amount: int, side: Side)
    requires SideOk(side) && -1 <= side.lock < 127
    ensures SideOk(Notify(side)) && (Covered(amount, side) ==> Covered(amount + 1, Notify(side)))
    ensures Within(Notify(side), side)
    ensures Notify(side).lock == if side.lock == UNLOCKED then UNLOCKED else side.lock + 1
  {
    WakeFacts(amount, side);
    forall t ensures Among(Notify(side), t) ==> Among(side, t) { assert Among(Wake(side), t) ==> Among(side, t); }
  }

  lemma {:induction false} InterruptKeeps(s: State, e: Event, fair: bool)
    requires Inv(s, fair) && Countable(s, e) && (e.InterruptSend? || e.InterruptReceive?)
    ensures Inv(Step(s, e), fair)
  {
    var r := Step(s, e);
    if e.InterruptSend? {
      NotifyFacts(s.q.messages, s.q.rx);
    } else {
      NotifyFacts(Space(s.q), s.q.tx);
    }
    forall t ensures TaskAt(r, t) {
      assert TaskAt(s, t);
      assert Among(r.q.rx, t) ==> Among(s.q.rx, t);
      assert Among(r.q.tx, t) ==> Among(s.q.tx, t);
    }
  }

  lemma {:induction false} StepKeeps(s: State, e: Event, fair: bool)
    requires Inv(s, fair) && Countable(s, e) && (e.Reset? && fair ==> ResetFair(s.q))
    ensures Inv(Step(s, e), fair)
  {
    if e.InterruptSend? || e.InterruptReceive? {
      InterruptKeeps(s, e, fair);
    } else if s.window.Held? {
      InsideKeeps(s, e, fair);
    } else {
      OutsideKeeps(s, e, fair);
    }
  }

  lemma {:induction false} RunKeeps(s: State, events: seq<Event>, fair: bool)
    requires Inv(s, fair) && Orderly(s, events) && (fair ==> Reset !in events)
    ensures Inv(Run(s, events), fair)
    decreases |events|
  {
    if events != [] {
      StepKeeps(s, events[0], fair);
      RunKeeps(Step(s, events[0]), events[1..], fair);
    }
  }

  /** No wakeup is lost: after any run, while receivers wait, the messages do not outnumber the woken tasks,
      which are all about to retry, and the events that the unlocking task will report. For senders the same
      holds of the free places, if the queue is never reset. */
  lemma {:induction false} NoLostWakeup(length: nat, events: seq<Event>)
    requires length > 0 && Orderly(Initial(length), events)
    ensures var s := Run(Initial(length), events);
            && Covered(s.q.messages, s.q.rx)
            && (Reset !in events ==> Covered(Space(s.q), s.q.tx))
            && (forall t :: t in s.q.rx.woken ==> t !in s.q.rx.waiting && WillRetry(s, t, false))
            && (forall t :: t in s.q.tx.woken ==> t !in s.q.tx.waiting && WillRetry(s, t, true))
  {
    var s := Run(Initial(length), events);
    forall t ensures TaskAt(Initial(length), t) { }
    RunKeeps(Initial(length), events, Reset !in events);
    forall t | t in s.q.rx.woken ensures t !in s.q.rx.waiting && WillRetry(s, t, false) {
      assert TaskAt(s, t) && Among(s.q.rx, t);
    }
    forall t | t in s.q.tx.woken ensures t !in s.q.tx.waiting && WillRetry(s, t, true) {
      assert TaskAt(s, t) && Among(s.q.tx, t);
    }
  }

  /** When everybody who was woken has retried and the scheduler runs, receivers wait only for an empty queue
      and senders only for a full one; they never wait for each other. */
  lemma {:induction false} QuietMeansEmptyOrFull(length: nat, events: seq<Event>)
    requires length > 0 && Orderly(Initial(length), events) && Reset !in events
    requires var s := Run(Initial(length), events); s.window.Free? && s.q.rx.woken == {} && s.q.tx.woken == {}
    ensures var q := Run(Initial(length), events).q;
            && (q.rx.waiting != [] ==> q.messages == 0)
            && (q.tx.waiting != [] ==> q.messages == length)
            && (q.rx.waiting == [] || q.tx.waiting == [])
  {
    forall t ensures TaskAt(Initial(length), t) { }
    RunKeeps(Initial(length), events, true);
    RunLength(Initial(length), events);
  }

  lemma {:induction false} RunLength(s: State, events: seq<Event>)
    ensures Run(s, events).q.length == s.q.length
    decreases |events|
  {
    if events != [] { RunLength(Step(s, events[0]), events[1..]); }
  }

  // ----- what a step does to the messages, and how a call ends -----

  /** The queue has what a call asks for. */
  predicate Serves(q: Counts, kind: Kind) {
    match kind
    case Sending(overwrite) => q.messages < q.length || overwrite
    case _ => q.messages > 0
  }

  /** Task t has a call on. */
  predicate Calling(s: State, t: Task) {
    t in s.phase || (s.window.Held? && s.window.task == t)
  }

  /** A task that tries again, while the scheduler runs and it is not blocked. */
  predicate Tries(s: State, e: Event) {
    e.Attempt? && s.window.Free? && e.t in s.phase && s.phase[e.t].Trying? && !Blocked(s.q, e.t)
  }

  /** A call ends only when it was served, or when it could not be and the caller does not wait or its time is over. */
  lemma {:induction false} ReturnsExactly(s: State, e: Event, t: Task)
    requires Calling(s, t) && (t in s.phase && s.window.Held? ==> s.window.task != t)
    ensures !Calling(Step(s, e), t) <==>
            || (Tries(s, e) && e.t == t && (Serves(s.q, s.phase[t].kind) || !e.patient))
            || (e.Recheck? && e.t == t && s.window.Free? && t in s.phase && s.phase[t].Rechecking? && s.q.messages == 0)
            || (e.ResumeAll? && s.window.Held? && s.window.task == t && s.window.stage == Full(Expired)
                && s.window.kind.Sending?)
  {
  }

  /** The messages change only where a send or a receive is served, and by one, or where the queue is reset. */
  lemma {:induction false} MessagesExact(s: State, e: Event)
    ensures Step(s, e).q.length == s.q.length
    ensures var before, after := s.q.messages, Step(s, e).q.messages;
            if Tries(s, e) && Serves(s.q, s.phase[e.t].kind) then
              match s.phase[e.t].kind
              case Receiving => after == before - 1
              case Peeking => after == before
              case Sending(overwrite) => after == if overwrite && before > 0 then before else before + 1
            else if e.InterruptSend? && (if e.overwrite then s.q.length == 1 else before < s.q.length) then
              after == if e.overwrite && before > 0 then before else before + 1
            else if e.InterruptReceive? && before > 0 then after == before - 1
            else if e == Reset && s.window.Free? then after == 0
            else after == before
  {
  }

  // ----- where wakeups are lost -----

  /** A reset loses a wakeup exactly when two or more senders wait and the tasks woken before, with the one that
      it wakes, are fewer than the places that it frees. */
  lemma {:induction false} ResetExact(s: State)
    requires Inv(s, true) && s.window.Free?
    ensures Covered(Space(Step(s, Reset).q), Step(s, Reset).q.tx) <==> ResetFair(s.q)
  {
    WakeFacts(Space(s.q), s.q.tx);
  }

  /** A post from an interrupt that finds the lock count at its maximum loses a wakeup, unless nobody waits or as
      many tasks are already on their way. */
  lemma {:induction false} LockCountExact(s: State, overwrite: bool)
    requires Inv(s, true) && s.window.Held? && 0 <= s.q.rx.lock
    requires if overwrite then s.q.length == 1 else s.q.messages < s.q.length
    ensures var q := Step(s, InterruptSend(overwrite)).q;
            Covered(q.messages, q.rx) <==>
            s.q.rx.lock < 127 || s.q.rx.waiting == [] || q.messages <= |s.q.rx.woken|
  {
  }

  lemma {:induction false} RxLockCountExact(s: State)
    requires Inv(s, true) && s.window.Held? && 0 <= s.q.tx.lock && s.q.messages > 0
    ensures var q := Step(s, InterruptReceive).q;
            Covered(Space(q), q.tx) <==>
            s.q.tx.lock < 127 || s.q.tx.waiting == [] || Space(s.q) < |s.q.tx.woken|
  {
  }

  lemma {:induction false} RunAppend(s: State, a: seq<Event>, b: seq<Event>)
    ensures Run(s, a + b) == Run(Run(s, a), b)
    decreases |a|
  {
    if a == [] {
      assert a + b == b;
    } else {
      assert (a + b)[1..] == a[1..] + b;
      RunAppend(Step(s, a[0]), a[1..], b);
    }
  }

  /** A task calls, is refused and goes as far as locking the queue. */
  function Locks(t: Task, kind: Kind): seq<Event> {
    [Call(t, kind), Attempt(t, true), SuspendAll(t), LockBoth]
  }

  function Unlocks(): seq<Event> {
    [UnlockFirst, UnlockSecond, ResumeAll]
  }

  /** The steps of a call that blocks. */
  function Blocks(t: Task, kind: Kind): seq<Event> {
    Locks(t, kind) + [CheckForTimeOut(false), TestQueue, PlaceOnEventList] + Unlocks()
  }

  /** Nobody is inside, the queue is unlocked, and t has no call on. */
  ghost predicate Fresh(s: State, t: Task) {
    s.window.Free? && s.q.rx.lock == s.q.tx.lock == UNLOCKED && t !in s.phase
    && !Among(s.q.rx, t) && !Among(s.q.tx, t)
  }

  function LockedQueue(q: Counts): Counts {
    q.(rx := q.rx.(lock := LOCKED_UNMODIFIED), tx := q.tx.(lock := LOCKED_UNMODIFIED))
  }

  lemma {:induction false} LocksLeadTo(s: State, t: Task, kind: Kind)
    requires Fresh(s, t) && MustWait(s.q, kind) && kind != Sending(true)
    ensures Run(s, Locks(t, kind)) == State(LockedQueue(s.q), s.phase, Held(t, kind, Locked))
  {
    var s1, s2 := Step(s, Call(t, kind)), Step(Step(s, Call(t, kind)), Attempt(t, true));
    assert s.q.rx.woken - {t} == s.q.rx.woken && s.q.tx.woken - {t} == s.q.tx.woken;
    assert s1.phase - {t} == s.phase;
    assert s2 == s.(phase := s1.phase[t := Refused(kind)]);
    var s3 := Step(s2, SuspendAll(t));
    assert s2.phase - {t} == s.phase;
    assert s3 == State(s.q, s.phase, Held(t, kind, Suspended));
    var s4 := Step(s3, LockBoth);
    RunFour(s, Call(t, kind), Attempt(t, true), SuspendAll(t), LockBoth);
  }

  lemma {:induction false} RunFour(s: State, a: Event, b: Event, c: Event, d: Event)
    ensures Run(s, [a, b, c, d]) == Step(Step(Step(Step(s, a), b), c), d)
    ensures Run(s, [a, b, c]) == Step(Step(Step(s, a), b), c)
  {
    var s1, s2, s3 := Step(s, a), Step(Step(s, a), b), Step(Step(Step(s, a), b), c);
    assert [a, b, c, d][1..] == [b, c, d] && [b, c, d][1..] == [c, d] && [c, d][1..] == [d];
    assert [a, b, c][1..] == [b, c] && [b, c][1..] == [c];
    RunOne(s2, c);
    RunOne(s3, d);
    assert Run(s1, [b, c, d]) == Run(s2, [c, d]) == Run(s3, [d]);
    assert Run(s1, [b, c]) == Run(s2, [c]);
  }

  lemma {:induction false} RunOne(s: State, e: Event)
    ensures Run(s, [e]) == Step(s, e)
  {
    assert [e][1..] == [];
  }

  /** A call that has to wait joins the event list. */
  lemma {:induction false} BlocksLeadTo(s: State, t: Task, kind: Kind)
    requires Fresh(s, t) && MustWait(s.q, kind) && kind != Sending(true)
    ensures var q := if kind.Sending? then s.q.(tx := Enlist(s.q.tx, t)) else s.q.(rx := Enlist(s.q.rx, t));
            Run(s, Blocks(t, kind)) == State(q, s.phase[t := Trying(kind)], Free)
  {
    var middle := [CheckForTimeOut(false), TestQueue, PlaceOnEventList];
    LocksLeadTo(s, t, kind);
    var s1 := Run(s, Locks(t, kind));
    RunFour(s1, CheckForTimeOut(false), TestQueue, PlaceOnEventList, LockBoth);
    var s2 := Run(s1, middle);
    RunFour(s2, UnlockFirst, UnlockSecond, ResumeAll, LockBoth);
    RunAppend(s, Locks(t, kind), middle);
    RunAppend(s, Locks(t, kind) + middle, Unlocks());
  }

  /** A call that has to wait and whose time is over returns without a trace. */
  lemma {:induction false} ExpiresLeadTo(s: State, t: Task, kind: Kind)
    requires Fresh(s, t) && MustWait(s.q, kind) && kind != Sending(true)
    ensures var last := if kind.Sending? then [] else [Recheck(t)];
            Run(s, Locks(t, kind) + ([CheckForTimeOut(true)] + Unlocks()) + last) == s
  {
    LocksLeadTo(s, t, kind);
    var s1 := Run(s, Locks(t, kind));
    RunOne(s1, CheckForTimeOut(true));
    var s2 := Step(s1, CheckForTimeOut(true));
    RunFour(s2, UnlockFirst, UnlockSecond, ResumeAll, LockBoth);
    RunAppend(s1, [CheckForTimeOut(true)], Unlocks());
    RunAppend(s, Locks(t, kind), [CheckForTimeOut(true)] + Unlocks());
    var s3 := Run(s2, Unlocks());
    RunAppend(s, Locks(t, kind) + ([CheckForTimeOut(true)] + Unlocks()), if kind.Sending? then [] else [Recheck(t)]);
    if kind.Sending? {
      assert s3 == s;
    } else {
      RunOne(s3, Recheck(t));
      assert s3.phase - {t} == s.phase;
    }
  }

  /** The tick that ends the wait of a task takes it off the list that it is on, and changes nothing else. */
  lemma {:induction false} TimeOutUnblocks(s: State, t: Task, fair: bool)
    requires Inv(s, fair) && s.window.Free?
    ensures var r := Step(s, TimeOut(t));
            && (forall y :: y in r.q.rx.waiting <==> y in s.q.rx.waiting && y != t)
            && (forall y :: y in r.q.tx.waiting <==> y in s.q.tx.waiting && y != t)
            && r == s.(q := s.q.(rx := s.q.rx.(waiting := r.q.rx.waiting), tx := s.q.tx.(waiting := r.q.tx.waiting)))
  {
    ExpireFacts(0, s.q.rx, t);
    ExpireFacts(0, s.q.tx, t);
  }

  function Repeat(e: Event, n: nat): seq<Event> {
    if n == 0 then [] else [e] + Repeat(e, n - 1)
  }

  lemma {:induction false} Fills(s: State, n: nat)
    requires s.q.rx.lock == UNLOCKED && s.q.rx.waiting == [] && s.q.messages + n <= s.q.length
    ensures Run(s, Repeat(InterruptSend(false), n)) == s.(q := s.q.(messages := s.q.messages + n))
    decreases n
  {
    if n > 0 {
      Fills(Step(s, InterruptSend(false)), n - 1);
      assert Repeat(InterruptSend(false), n)[1..] == Repeat(InterruptSend(false), n - 1);
    }
  }

  /** Interrupts that post to a locked queue only count. */
  lemma {:induction false} PostsCount(s: State, n: nat)
    requires s.q.rx.lock >= 0 && s.q.rx.lock + n <= 127 && s.q.messages + n <= s.q.length
    ensures Run(s, Repeat(InterruptSend(false), n))
            == s.(q := s.q.(messages := s.q.messages + n, rx := s.q.rx.(lock := s.q.rx.lock + n)))
    decreases n
  {
    if n > 0 {
      PostsCount(Step(s, InterruptSend(false)), n - 1);
      assert Repeat(InterruptSend(false), n)[1..] == Repeat(InterruptSend(false), n - 1);
    }
  }

  /** Two senders wait for a full queue. */
  function FullRun(length: nat, a: Task, b: Task): seq<Event> {
    Repeat(InterruptSend(false), length) + Blocks(a, Sending(false)) + Blocks(b, Sending(false))
  }

  lemma {:induction false} FullLeadsTo(length: nat, a: Task, b: Task)
    requires length > 0 && a != b && a.value <= b.value
    ensures var s := Run(Initial(length), FullRun(length, a, b));
            && s.window.Free? && s.q.length == s.q.messages == length && s.q.tx == Side([a, b], {}, UNLOCKED)
  {
    var s0, posts := Initial(length), Repeat(InterruptSend(false), length);
    Fills(s0, length);
    var s1 := Run(s0, posts);
    BlocksLeadTo(s1, a, Sending(false));
    var s2 := Run(s1, Blocks(a, Sending(false)));
    assert s2.q.tx.waiting == [a];
    BlocksLeadTo(s2, b, Sending(false));
    assert Values([a]) == [a.value];
    PlaceIs([a.value], b.value, 1);
    assert InsertAt([a], 1, b) == [a, b];
    RunAppend(s0, posts, Blocks(a, Sending(false)));
    RunAppend(s0, posts + Blocks(a, Sending(false)), Blocks(b, Sending(false)));
  }

  /** When two senders wait for a full queue of two or more and it is reset, one is woken; the other is left
      waiting for an empty queue. */
  lemma {:induction false} ResetLosesWakeup(length: nat, a: Task, b: Task)
    requires length > 1 && a != b && a.value <= b.value
    ensures var s := Run(Initial(length), FullRun(length, a, b) + [Reset]);
            && s.q.messages == 0 && s.q.tx.waiting == [b] && s.q.tx.woken == {a} && !Covered(Space(s.q), s.q.tx)
  {
    FullLeadsTo(length, a, b);
    RunAppend(Initial(length), FullRun(length, a, b), [Reset]);
    RunOne(Run(Initial(length), FullRun(length, a, b)), Reset);
  }

  /** A receiver waits; another task locks the queue, and interrupts post to it. */
  function PostRun(a: Task, b: Task, posts: nat): seq<Event> {
    Blocks(a, Receiving) + Locks(b, Receiving) + Repeat(InterruptSend(false), posts)
  }

  lemma {:induction false} PostsLeadTo(length: nat, a: Task, b: Task, posts: nat)
    requires a != b && posts <= 127 && posts <= length
    ensures var s := Run(Initial(length), PostRun(a, b, posts));
            && s.window == Held(b, Receiving, Locked)
            && s.q == Counts(length, posts, Side([a], {}, posts), Side([], {}, LOCKED_UNMODIFIED))
  {
    var s0 := Initial(length);
    BlocksLeadTo(s0, a, Receiving);
    var s1 := Run(s0, Blocks(a, Receiving));
    assert s1.q.rx.waiting == [a];
    LocksLeadTo(s1, b, Receiving);
    var s2 := Run(s1, Locks(b, Receiving));
    PostsCount(s2, posts);
    RunAppend(s0, Blocks(a, Receiving), Locks(b, Receiving));
    RunAppend(s0, Blocks(a, Receiving) + Locks(b, Receiving), Repeat(InterruptSend(false), posts));
  }

  /** The 128th post to a locked queue wraps the count to a negative number. When the queue is unlocked, the
      receiver sleeps on beside 128 messages, and nobody is on the way to it. */
  lemma {:induction false} LockCountLosesWakeup(length: nat, a: Task, b: Task, posts: nat)
    requires a != b && posts == 127 && length >= 128
    ensures var s := Run(Initial(length), PostRun(a, b, posts)
                                          + [InterruptSend(false), CheckForTimeOut(false), TestQueue] + Unlocks());
            && s.q.messages == 128 && s.q.rx == Side([a], {}, UNLOCKED) && s.window.Free?
            && !Covered(s.q.messages, s.q.rx)
  {
    PostsLeadTo(length, a, b, posts);
    var s0, run := Initial(length), PostRun(a, b, posts);
    var s1 := Run(s0, run);
    var last := [InterruptSend(false), CheckForTimeOut(false), TestQueue];
    RunFour(s1, InterruptSend(false), CheckForTimeOut(false), TestQueue, LockBoth);
    var s2 := Run(s1, last);
    RunFour(s2, UnlockFirst, UnlockSecond, ResumeAll, LockBoth);
    RunAppend(s0, run, last);
    RunAppend(s0, run + last, Unlocks());
  }

  /** In the same way 128 receives in interrupts, from a full locked queue, leave a sender waiting beside as many
      free places. */
  function TakeRun(length: nat, a: Task, b: Task, takes: nat): seq<Event> {
    Repeat(InterruptSend(false), length) + Blocks(a, Sending(false)) + Locks(b, Sending(false))
      + Repeat(InterruptReceive, takes)
  }

  lemma {:induction false} TakesCount(s: State, n: nat)
    requires s.q.tx.lock >= 0 && s.q.tx.lock + n <= 127 && n <= s.q.messages
    ensures Run(s, Repeat(InterruptReceive, n))
            == s.(q := s.q.(messages := s.q.messages - n, tx := s.q.tx.(lock := s.q.tx.lock + n)))
    decreases n
  {
    if n > 0 {
      TakesCount(Step(s, InterruptReceive), n - 1);
      assert Repeat(InterruptReceive, n)[1..] == Repeat(InterruptReceive, n - 1);
    }
  }

  lemma {:induction false} TakesLeadTo(length: nat, a: Task, b: Task, takes: nat)
    requires length > 0 && a != b && takes <= 127 && takes <= length
    ensures var s := Run(Initial(length), TakeRun(length, a, b, takes));
            && s.window == Held(b, Sending(false), Locked)
            && s.q == Counts(length, length - takes, Side([], {}, LOCKED_UNMODIFIED), Side([a], {}, takes))
  {
    var s0, posts := Initial(length), Repeat(InterruptSend(false), length);
    Fills(s0, length);
    var s1 := Run(s0, posts);
    BlocksLeadTo(s1, a, Sending(false));
    var s2 := Run(s1, Blocks(a, Sending(false)));
    assert s2.q.tx.waiting == [a];
    LocksLeadTo(s2, b, Sending(false));
    var s3 := Run(s2, Locks(b, Sending(false)));
    TakesCount(s3, takes);
    RunAppend(s0, posts, Blocks(a, Sending(false)));
    RunAppend(s0, posts + Blocks(a, Sending(false)), Locks(b, Sending(false)));
    RunAppend(s0, posts + Blocks(a, Sending(false)) + Locks(b, Sending(false)), Repeat(InterruptReceive, takes));
  }

  lemma {:induction false} RxLockCountLosesWakeup(length: nat, a: Task, b: Task, takes: nat)
    requires a != b && takes == 127 && length >= 128
    ensures var s := Run(Initial(length), TakeRun(length, a, b, takes)
                                          + [InterruptReceive, CheckForTimeOut(false), TestQueue] + Unlocks());
            && Space(s.q) == 128 && s.q.tx == Side([a], {}, UNLOCKED) && s.window.Free?
            && !Covered(Space(s.q), s.q.tx)
  {
    hide TakeRun;
    TakesLeadTo(length, a, b, takes);
    var s0, run := Initial(length), TakeRun(length, a, b, takes);
    var last := [InterruptReceive, CheckForTimeOut(false), TestQueue];
    LastTakeWraps(Run(s0, run), a, b);
    RunAppend(Run(s0, run), last, Unlocks());
    RunAppend(s0, run, last);
    RunAppend(s0, run + last, Unlocks());
  }

  lemma {:induction false} LastTakeWraps(s: State, a: Task, b: Task)
    requires s.window == Held(b, Sending(false), Locked) && s.q.length >= 128
    requires s.q == Counts(s.q.length, s.q.length - 127, Side([], {}, LOCKED_UNMODIFIED), Side([a], {}, 127))
    ensures var r := Run(Run(s, [InterruptReceive, CheckForTimeOut(false), TestQueue]), Unlocks());
            && Space(r.q) == 128 && r.q.tx == Side([a], {}, UNLOCKED) && r.window.Free? && !Covered(Space(r.q), r.q.tx)
  {
    RunFour(s, InterruptReceive, CheckForTimeOut(false), TestQueue, LockBoth);
    var s1 := Step(s, InterruptReceive);
    assert s1.q.tx == Side([a], {}, -128);
    var s2 := Run(s, [InterruptReceive, CheckForTimeOut(false), TestQueue]);
    RunFour(s2, UnlockFirst, UnlockSecond, ResumeAll, LockBoth);
  }
}
