/** Mutexes: who holds them, priority inheritance, and recursive calls. */
module Mutexes {
  import opened Config
  import opened Lists
  import opened Sequences

  const IDLE_PRIORITY: nat := 0
  /** taskEVENT_LIST_ITEM_VALUE_IN_USE: the event list item value stands for something else. */
  const IN_USE: nat := 0x8000_0000

  datatype Option<T> = None | Some(value: T)

  /** A task: its priorities, the number of mutexes it holds, the value of its event list item, and the mutex
      in whose event list that item is. */
  datatype Tcb = Tcb(base: nat, priority: nat, held: nat, eventValue: nat, waitsFor: Option<int>)

  /** A mutex: messages is 1 while it is free, calls is uxRecursiveCallCount. */
  datatype Mutex = Mutex(recursive: bool, holder: Option<int>, messages: nat, waiting: seq<int>, calls: nat)

  datatype State = State(tcbs: map<int, Tcb>, mutexes: map<int, Mutex>)

  /** The mutexes that name a task as their holder. */
  function Held(s: State, t: int): set<int> {
    set m | m in s.mutexes && s.mutexes[m].holder == Some(t)
  }

  function EventValue(s: State, t: int): nat {
    if t in s.tcbs then s.tcbs[t].eventValue else 0
  }

  function Values(s: State, waiting: seq<int>): seq<nat> {
    seq(|waiting|, i requires 0 <= i < |waiting| => EventValue(s, waiting[i]))
  }

  function EventValueOf(priority: nat): nat {
    if priority <= MAX_PRIORITIES then MAX_PRIORITIES - priority else 0
  }

  /** The priority behind an event value. */
  function PriorityOf(value: nat): nat {
    if value <= MAX_PRIORITIES then MAX_PRIORITIES - value else 0
  }

  function Max(a: nat, b: nat): nat {
    if a < b then b else a
  }

  // ----- the operations -----

  /** A change of priority; the event value follows unless it is in use. */
  function WithPriority(tcb: Tcb, p: nat): Tcb {
    if tcb.eventValue < IN_USE then tcb.(priority := p, eventValue := EventValueOf(p)) else tcb.(priority := p)
  }

  /** xTaskPriorityInherit, for a blocking task of priority p. */
  function Inherited(s: State, h: int, p: nat): State
    requires h in s.tcbs
  {
    if s.tcbs[h].priority < p then s.(tcbs := s.tcbs[h := WithPriority(s.tcbs[h], p)]) else s
  }

  /** xTaskPriorityDisinherit: back to the base priority with the last mutex. */
  function Disinherited(tcb: Tcb): Tcb
    requires tcb.held > 0
  {
    var left := tcb.(held := tcb.held - 1);
    if left.priority != left.base && left.held == 0 then
      left.(priority := left.base, eventValue := EventValueOf(left.base))
    else left
  }

  /** vTaskPriorityDisinheritAfterTimeout: only as low as the highest task that still waits. */
  function LoweredAfterTimeout(tcb: Tcb, highest: nat): Tcb {
    var p := Max(tcb.base, highest);
    if tcb.priority != p && tcb.held == 1 then WithPriority(tcb, p) else tcb
  }

  /** prvGetDisinheritPriorityAfterTimeout. */
  function HighestWaiting(s: State, m: int): nat
    requires m in s.mutexes
  {
    if s.mutexes[m].waiting == [] then IDLE_PRIORITY else PriorityOf(EventValue(s, s.mutexes[m].waiting[0]))
  }

  /** A free mutex is taken. */
  function TakenBy(s: State, t: int, m: int): State
    requires t in s.tcbs && m in s.mutexes
  {
    var x := s.mutexes[m];
    State(s.tcbs[t := s.tcbs[t].(held := s.tcbs[t].held + 1)],
          s.mutexes[m := x.(messages := 0, holder := Some(t),
                            calls := if x.recursive then x.calls + 1 else x.calls)])
  }

  /** The task that holds the mutex asks for it again, or gives back what is not its first take. */
  function CalledAgain(s: State, m: int, calls: nat): State
    requires m in s.mutexes
  {
    s.(mutexes := s.mutexes[m := s.mutexes[m].(calls := calls)])
  }

  /** A task finds the mutex held, lends its priority to the holder and joins the event list. */
  function BlockedOn(s: State, t: int, m: int): State
    requires t in s.tcbs && m in s.mutexes
  {
    var h := s.mutexes[m].holder;
    var i := if h.Some? && h.value in s.tcbs then Inherited(s, h.value, s.tcbs[t].priority) else s;
    var w := s.mutexes[m].waiting;
    State(i.tcbs[t := i.tcbs[t].(waitsFor := Some(m))],
          i.mutexes[m := i.mutexes[m].(waiting := InsertAt(w, Place(Values(i, w), EventValue(i, t)), t))])
  }

  function Freed(s: State, t: int, m: int): State
    requires t in s.tcbs && s.tcbs[t].held > 0 && m in s.mutexes
  {
    var x := s.mutexes[m];
    State(s.tcbs[t := Disinherited(s.tcbs[t])],
          s.mutexes[m := x.(messages := 1, holder := None,
                            calls := if x.recursive && x.calls > 0 then x.calls - 1 else x.calls)])
  }

  /** The mutex becomes free, and the first task that waits is woken. */
  function GivenBack(s: State, t: int, m: int): State
    requires t in s.tcbs && s.tcbs[t].held > 0 && m in s.mutexes
  {
    WakeFirst(Freed(s, t, m), m)
  }

  function WakeFirst(s: State, m: int): State
    requires m in s.mutexes
  {
    if s.mutexes[m].waiting == [] then s else Unlisted(s, s.mutexes[m].waiting[0], m)
  }

  /** A task leaves the event list of a mutex. */
  function Unlisted(s: State, t: int, m: int): State
    requires m in s.mutexes
  {
    if t !in s.mutexes[m].waiting || t !in s.tcbs then s
    else
      State(s.tcbs[t := s.tcbs[t].(waitsFor := None)],
            s.mutexes[m := s.mutexes[m].(waiting := RemoveAt(s.mutexes[m].waiting, Find(s.mutexes[m].waiting, t)))])
  }

  // ----- runs -----

  /** The atomic steps. GiveUp is what a task does whose wait has timed out, at any later time; GroupWait and
      GroupReturn stand for the other use of the event list item. */
  datatype Event =
    | Take(t: int, m: int)
    | Block(t: int, m: int)
    | TimeOut(t: int)
    | GiveUp(m: int)
    | Give(t: int, m: int)
    | GroupWait(t: int, bits: nat)
    | GroupReturn(t: int)

  /** One step; a step that is not possible now changes nothing. */
  function Step(s: State, e: Event): State {
    match e
    case Take(t, m) =>
      if t !in s.tcbs || m !in s.mutexes || s.tcbs[t].waitsFor.Some? then s
      else
        var x := s.mutexes[m];
        if x.recursive && x.holder == Some(t) then CalledAgain(s, m, x.calls + 1)
        else if x.messages > 0 then TakenBy(s, t, m)
        else s
    case Block(t, m) =>
      if t !in s.tcbs || m !in s.mutexes || s.tcbs[t].waitsFor.Some? || s.tcbs[t].eventValue >= IN_USE then s
      else if s.mutexes[m].messages > 0 || (s.mutexes[m].recursive && s.mutexes[m].holder == Some(t)) then s
      else BlockedOn(s, t, m)
    case TimeOut(t) =>
      if t !in s.tcbs || s.tcbs[t].waitsFor.None? || s.tcbs[t].waitsFor.value !in s.mutexes then s
      else Unlisted(s, t, s.tcbs[t].waitsFor.value)
    case GiveUp(m) =>
      if m !in s.mutexes || s.mutexes[m].holder.None? || s.mutexes[m].holder.value !in s.tcbs then s
      else
        var h := s.mutexes[m].holder.value;
        s.(tcbs := s.tcbs[h := LoweredAfterTimeout(s.tcbs[h], HighestWaiting(s, m))])
    case Give(t, m) =>
      if t !in s.tcbs || m !in s.mutexes || s.mutexes[m].holder != Some(t) || s.tcbs[t].held == 0 ||
         s.tcbs[t].waitsFor.Some? || s.tcbs[t].eventValue >= IN_USE then s
      else
        var x := s.mutexes[m];
        if x.recursive && x.calls > 1 then CalledAgain(s, m, x.calls - 1)
        else GivenBack(s, t, m)
    case GroupWait(t, bits) =>
      if t !in s.tcbs || s.tcbs[t].waitsFor.Some? then s
      else s.(tcbs := s.tcbs[t := s.tcbs[t].(eventValue := IN_USE + bits)])
    case GroupReturn(t) =>
      if t !in s.tcbs || s.tcbs[t].waitsFor.Some? then s
      else
        var p := s.tcbs[t].priority;
        s.(tcbs := s.tcbs[t := s.tcbs[t].(eventValue := EventValueOf(p))])
  }

  function Run(s: State, events: seq<Event>): State
    decreases |events|
  {
    if events == [] then s else Run(Step(s, events[0]), events[1..])
  }

  ghost predicate TcbAt(s: State, t: int) {
    t in s.tcbs ==>
      var c := s.tcbs[t];
      && c.base <= c.priority < MAX_PRIORITIES && c.held == |Held(s, t)| && (c.held == 0 ==> c.priority == c.base)
      && (c.eventValue < IN_USE ==> c.eventValue == MAX_PRIORITIES - c.priority)
      && (c.waitsFor.Some? ==> c.waitsFor.value in s.mutexes && t in s.mutexes[c.waitsFor.value].waiting
                               && c.eventValue < IN_USE)
  }

  ghost predicate WaitsAt(s: State, m: int, t: int) {
    m in s.mutexes && t in s.mutexes[m].waiting ==> t in s.tcbs && s.tcbs[t].waitsFor == Some(m)
  }

  ghost predicate MutexAt(s: State, m: int) {
    m in s.mutexes ==>
      var x := s.mutexes[m];
      && (if x.holder.None? then x.messages == 1 else x.messages == 0 && x.holder.value in s.tcbs)
      && (x.calls > 0 <==> x.recursive && x.holder.Some?)
      && NoDup(x.waiting)
  }

  ghost predicate Inv(s: State) {
    && (forall t {:trigger TcbAt(s, t)} :: TcbAt(s, t))
    && (forall m {:trigger MutexAt(s, m)} :: MutexAt(s, m))
    && (forall m, t {:trigger WaitsAt(s, m, t)} :: WaitsAt(s, m, t))
  }

  /** Before any call: all mutexes free, all tasks at their base priority. */
  ghost predicate Starts(s: State) {
    && (forall t :: t in s.tcbs ==> var c := s.tcbs[t];
          && c.base == c.priority < MAX_PRIORITIES && c.held == 0
          && c.eventValue == MAX_PRIORITIES - c.base && c.waitsFor.None?)
    && (forall m :: m in s.mutexes ==> var x := s.mutexes[m];
          x.holder.None? && x.messages == 1 && x.waiting == [] && x.calls == 0)
  }

  lemma {:induction false} StartsInv(s: State)
    requires Starts(s)
    ensures Inv(s)
  {
    forall t ensures TcbAt(s, t) {
      forall m | m in s.mutexes ensures s.mutexes[m].holder != Some(t) { assert s.mutexes[m].holder.None?; }
      assert Held(s, t) == {};
    }
    forall m ensures MutexAt(s, m) { }
    forall m, t ensures WaitsAt(s, m, t) { }
  }

  lemma {:induction false} CountWithout(a: set<int>, m: int)
    ensures |a| == |a - {m}| + if m in a then 1 else 0
  {
    if m in a { assert a == (a - {m}) + {m}; } else { assert a - {m} == a; }
  }

  /** The mutexes held by y after mutex m has changed hands. */
  lemma {:induction false} HeldChanges(s: State, r: State, m: int, y: int)
    requires m in s.mutexes && r.mutexes.Keys == s.mutexes.Keys
    requires forall k {:trigger r.mutexes[k]} :: k in s.mutexes && k != m ==> r.mutexes[k].holder == s.mutexes[k].holder
    ensures |Held(r, y)| == |Held(s, y)| - (if s.mutexes[m].holder == Some(y) then 1 else 0)
                            + if r.mutexes[m].holder == Some(y) then 1 else 0
  {
    forall k ensures k in Held(s, y) - {m} <==> k in Held(r, y) - {m} {
      if k in s.mutexes && k != m { assert r.mutexes[k].holder == s.mutexes[k].holder; }
    }
    assert Held(s, y) - {m} == Held(r, y) - {m};
    CountWithout(Held(s, y), m);
    CountWithout(Held(r, y), m);
  }

  lemma {:induction false} TakeKeeps(s: State, t: int, m: int)
    requires Inv(s)
    ensures Inv(Step(s, Take(t, m)))
  {
    var r := Step(s, Take(t, m));
    assert MutexAt(s, m) && TcbAt(s, t);
    if r != s {
      forall y ensures TcbAt(r, y) {
        assert TcbAt(s, y);
        HeldChanges(s, r, m, y);
      }
      forall k ensures MutexAt(r, k) { assert MutexAt(s, k); }
      forall k, y ensures WaitsAt(r, k, y) { assert WaitsAt(s, k, y); }
    }
  }

  /** A change of one task's record that leaves its place in the event lists and its holdings alone. */
  lemma {:induction false} TcbKeeps(s: State, r: State, t: int)
    requires Inv(s) && t in s.tcbs && t in r.tcbs && r.mutexes == s.mutexes
    requires r.tcbs == s.tcbs[t := r.tcbs[t]] && r.tcbs[t].waitsFor == s.tcbs[t].waitsFor
    requires TcbAt(r, t)
    ensures Inv(r)
  {
    forall y ensures TcbAt(r, y) {
      assert TcbAt(s, y);
      assert Held(r, y) == Held(s, y);
    }
    forall k ensures MutexAt(r, k) { assert MutexAt(s, k); }
    forall k, y ensures WaitsAt(r, k, y) { assert WaitsAt(s, k, y); }
  }

  lemma {:induction false} SamePlace(s: State, r: State, t: int)
    requires r.mutexes == s.mutexes
    ensures Held(r, t) == Held(s, t)
  {
  }

  lemma {:induction false} UnlistKeeps(s: State, t: int, m: int)
    requires Inv(s) && m in s.mutexes
    ensures Inv(Unlisted(s, t, m))
  {
    var r, w := Unlisted(s, t, m), s.mutexes[m].waiting;
    assert MutexAt(s, m) && WaitsAt(s, m, t);
    if t in w {
      RemoveMembers(w, Find(w, t));
      RemoveNoDup(w, Find(w, t));
      forall y ensures TcbAt(r, y) {
        assert TcbAt(s, y) && WaitsAt(s, m, y);
        HeldChanges(s, r, m, y);
      }
      forall k ensures MutexAt(r, k) { assert MutexAt(s, k); }
      forall k, y ensures WaitsAt(r, k, y) { assert WaitsAt(s, k, y) && WaitsAt(s, k, t); }
    }
  }

  lemma {:induction false} InheritKeeps(s: State, h: int, p: nat)
    requires Inv(s) && h in s.tcbs && p < MAX_PRIORITIES && s.tcbs[h].held > 0
    ensures Inv(Inherited(s, h, p)) && p <= Inherited(s, h, p).tcbs[h].priority
  {
    var r := Inherited(s, h, p);
    assert TcbAt(s, h);
    SamePlace(s, r, h);
    TcbKeeps(s, r, h);
  }

  lemma {:induction false} EnlistKeeps(s: State, t: int, m: int, k: nat)
    requires Inv(s) && t in s.tcbs && m in s.mutexes && s.tcbs[t].waitsFor.None? && s.tcbs[t].eventValue < IN_USE
    requires k <= |s.mutexes[m].waiting|
    ensures Inv(State(s.tcbs[t := s.tcbs[t].(waitsFor := Some(m))],
                      s.mutexes[m := s.mutexes[m].(waiting := InsertAt(s.mutexes[m].waiting, k, t))]))
  {
    var w := s.mutexes[m].waiting;
    var r := State(s.tcbs[t := s.tcbs[t].(waitsFor := Some(m))],
                   s.mutexes[m := s.mutexes[m].(waiting := InsertAt(w, k, t))]);
    assert MutexAt(s, m) && WaitsAt(s, m, t) && TcbAt(s, t);
    InsertMembers(w, k, t);
    InsertNoDup(w, k, t);
    forall y ensures TcbAt(r, y) {
      assert TcbAt(s, y) && WaitsAt(s, m, y);
      HeldChanges(s, r, m, y);
    }
    forall j ensures MutexAt(r, j) { assert MutexAt(s, j); }
    forall j, y ensures WaitsAt(r, j, y) { assert WaitsAt(s, j, y) && WaitsAt(s, j, t); }
  }

  /** Right after a task has blocked on a mutex, the holder has at least its priority. */
  lemma {:induction false} BlockKeeps(s: State, t: int, m: int)
    requires Inv(s)
    ensures var r := Step(s, Block(t, m));
            && Inv(r)
            && (r != s ==> r.tcbs[t].waitsFor == Some(m) && r.mutexes[m].holder.Some?
                           && r.mutexes[m].holder.value in r.tcbs
                           && r.tcbs[t].priority <= r.tcbs[r.mutexes[m].holder.value].priority)
  {
    var r := Step(s, Block(t, m));
    assert MutexAt(s, m) && TcbAt(s, t);
    if r != s {
      var h := s.mutexes[m].holder.value;
      assert TcbAt(s, h);
      assert m in Held(s, h);
      var i := Inherited(s, h, s.tcbs[t].priority);
      InheritKeeps(s, h, s.tcbs[t].priority);
      EnlistKeeps(i, t, m, Place(Values(i, s.mutexes[m].waiting), EventValue(i, t)));
    }
  }

  lemma {:induction false} GiveUpKeeps(s: State, m: int)
    requires Inv(s)
    ensures Inv(Step(s, GiveUp(m)))
  {
    var r := Step(s, GiveUp(m));
    assert MutexAt(s, m);
    if m in s.mutexes && s.mutexes[m].holder.Some? && s.mutexes[m].holder.value in s.tcbs {
      var h, w := s.mutexes[m].holder.value, s.mutexes[m].waiting;
      assert TcbAt(s, h);
      assert m in Held(s, h);
      if w != [] { assert WaitsAt(s, m, w[0]) && TcbAt(s, w[0]); }
      SamePlace(s, r, h);
      TcbKeeps(s, r, h);
    }
  }

  lemma {:induction false} GiveKeeps(s: State, t: int, m: int)
    requires Inv(s)
    ensures Inv(Step(s, Give(t, m)))
  {
    var r := Step(s, Give(t, m));
    assert MutexAt(s, m) && TcbAt(s, t);
    if r != s {
      var x := s.mutexes[m];
      if x.recursive && x.calls > 1 {
        forall y ensures TcbAt(r, y) {
          assert TcbAt(s, y);
          HeldChanges(s, r, m, y);
        }
        forall k ensures MutexAt(r, k) { assert MutexAt(s, k); }
        forall k, y ensures WaitsAt(r, k, y) { assert WaitsAt(s, k, y); }
      } else {
        FreedKeeps(s, t, m);
      }
    }
  }

  lemma {:induction false} FreedKeeps(s: State, t: int, m: int)
    requires Inv(s) && t in s.tcbs && m in s.mutexes && s.mutexes[m].holder == Some(t) && s.tcbs[t].held > 0
    requires s.tcbs[t].waitsFor.None? && s.tcbs[t].eventValue < IN_USE && s.mutexes[m].calls <= 1
    ensures Inv(Freed(s, t, m)) && Inv(GivenBack(s, t, m))
  {
    var r, x := Freed(s, t, m), s.mutexes[m];
    assert MutexAt(s, m) && TcbAt(s, t);
    forall y ensures TcbAt(r, y) {
      assert TcbAt(s, y);
      HeldChanges(s, r, m, y);
    }
    forall k ensures MutexAt(r, k) { assert MutexAt(s, k); }
    forall k, y ensures WaitsAt(r, k, y) { assert WaitsAt(s, k, y); }
    if x.waiting != [] { UnlistKeeps(r, x.waiting[0], m); }
  }

  lemma {:induction false} StepKeeps(s: State, e: Event)
    requires Inv(s)
    ensures Inv(Step(s, e))
  {
    match e
    case Take(t, m) => TakeKeeps(s, t, m);
    case Block(t, m) => BlockKeeps(s, t, m);
    case TimeOut(t) =>
      if t in s.tcbs && s.tcbs[t].waitsFor.Some? && s.tcbs[t].waitsFor.value in s.mutexes {
        UnlistKeeps(s, t, s.tcbs[t].waitsFor.value);
      }
    case GiveUp(m) => GiveUpKeeps(s, m);
    case Give(t, m) => GiveKeeps(s, t, m);
    case GroupWait(t, bits) =>
      if t in s.tcbs && s.tcbs[t].waitsFor.None? {
        assert TcbAt(s, t);
        SamePlace(s, Step(s, e), t);
        TcbKeeps(s, Step(s, e), t);
      }
    case GroupReturn(t) =>
      if t in s.tcbs && s.tcbs[t].waitsFor.None? {
        assert TcbAt(s, t);
        SamePlace(s, Step(s, e), t);
        TcbKeeps(s, Step(s, e), t);
      }
  }

  lemma {:induction false} RunKeeps(s: State, events: seq<Event>)
    requires Inv(s)
    ensures Inv(Run(s, events))
    decreases |events|
  {
    if events != [] {
      StepKeeps(s, events[0]);
      RunKeeps(Step(s, events[0]), events[1..]);
    }
  }

  // ----- what holds after every run -----

  /** After any run, each task's count is the number of mutexes that name it, its priority is not below its base
      priority, and equal to it when it holds none; a mutex is free exactly when it names nobody. */
  lemma {:induction false} Accounts(s: State, events: seq<Event>, t: int, m: int)
    requires Starts(s)
    ensures var r := Run(s, events);
            && (t in r.tcbs ==>
                  && r.tcbs[t].held == |Held(r, t)| && r.tcbs[t].base <= r.tcbs[t].priority
                  && (Held(r, t) == {} ==> r.tcbs[t].priority == r.tcbs[t].base))
            && (m in r.mutexes ==> (r.mutexes[m].messages == 1 <==> r.mutexes[m].holder.None?)
                                   && (r.mutexes[m].messages == 0 <==> r.mutexes[m].holder.Some?))
  {
    StartsInv(s);
    RunKeeps(s, events);
    assert TcbAt(Run(s, events), t) && MutexAt(Run(s, events), m);
  }

  /** A take or a give has succeeded; without success nothing changes. */
  predicate Succeeds(s: State, e: Event) {
    Step(s, e) != s
  }

  /** The successful takes of a task in a run, less its successful gives. */
  function Outstanding(s: State, events: seq<Event>, t: int, m: int): int
    decreases |events|
  {
    if events == [] then 0
    else
      (if events[0] == Take(t, m) && Succeeds(s, events[0]) then 1 else 0)
      - (if events[0] == Give(t, m) && Succeeds(s, events[0]) then 1 else 0)
      + Outstanding(Step(s, events[0]), events[1..], t, m)
  }

  function Level(s: State, t: int, m: int): nat {
    if m !in s.mutexes || s.mutexes[m].holder != Some(t) then 0
    else if s.mutexes[m].recursive then s.mutexes[m].calls else 1
  }

  lemma {:induction false} StepLevel(s: State, e: Event, t: int, m: int)
    requires Inv(s)
    ensures Level(Step(s, e), t, m) == Level(s, t, m)
                                        + (if e == Take(t, m) && Succeeds(s, e) then 1 else 0)
                                        - (if e == Give(t, m) && Succeeds(s, e) then 1 else 0)
  {
    assert MutexAt(s, m);
  }

  lemma {:induction false} RunLevel(s: State, events: seq<Event>, t: int, m: int)
    requires Inv(s)
    ensures Level(Run(s, events), t, m) == Level(s, t, m) + Outstanding(s, events, t, m)
    decreases |events|
  {
    if events != [] {
      StepKeeps(s, events[0]);
      StepLevel(s, events[0], t, m);
      RunLevel(Step(s, events[0]), events[1..], t, m);
    }
  }

  /** A mutex is held by the one task whose takes outnumber its gives, and is free exactly when there is none:
      a recursive mutex is freed by the give that matches the outermost take. */
  lemma {:induction false} FreedByOutermost(s: State, events: seq<Event>, t: int, m: int)
    requires Starts(s) && m in s.mutexes
    ensures var r := Run(s, events);
            && m in r.mutexes && Outstanding(s, events, t, m) >= 0
            && (r.mutexes[m].holder == Some(t) <==> Outstanding(s, events, t, m) > 0)
            && (r.mutexes[m].recursive && r.mutexes[m].holder == Some(t) ==>
                  r.mutexes[m].calls == Outstanding(s, events, t, m))
  {
    StartsInv(s);
    RunKeeps(s, events);
    RunLevel(s, events, t, m);
    RunKeys(s, events);
    assert MutexAt(Run(s, events), m);
  }

  lemma {:induction false} RunKeys(s: State, events: seq<Event>)
    requires Inv(s)
    ensures Run(s, events).mutexes.Keys == s.mutexes.Keys
    decreases |events|
  {
    if events != [] {
      StepKeeps(s, events[0]);
      assert Step(s, events[0]).mutexes.Keys == s.mutexes.Keys;
      RunKeys(Step(s, events[0]), events[1..]);
    }
  }

  // ----- priority inversion -----

  /** A task that waits for a held mutex does not outrank the holder. */
  ghost predicate ServedAt(s: State, m: int, t: int) {
    m in s.mutexes && t in s.mutexes[m].waiting && t in s.tcbs ==>
      var h := s.mutexes[m].holder;
      h.Some? && h.value in s.tcbs ==> s.tcbs[t].priority <= s.tcbs[h.value].priority
  }

  ghost predicate NoInversion(s: State) {
    forall m, t {:trigger ServedAt(s, m, t)} :: ServedAt(s, m, t)
  }

  /** No task that holds a mutex waits for another. */
  ghost predicate LooseAt(s: State, t: int) {
    t in s.tcbs && s.tcbs[t].waitsFor.Some? ==> s.tcbs[t].held == 0
  }

  ghost predicate SortedAt(s: State, m: int) {
    m in s.mutexes ==> Sorted(Values(s, s.mutexes[m].waiting))
  }

  ghost predicate Calm(s: State) {
    && NoInversion(s) && (forall t {:trigger LooseAt(s, t)} :: LooseAt(s, t))
    && (forall m {:trigger SortedAt(s, m)} :: SortedAt(s, m))
  }

  /** A task takes a free mutex only while it outranks all that wait for it, being the one that runs, and it
      blocks only while it holds no other mutex. */
  ghost predicate Disciplined(s: State, e: Event) {
    match e
    case Take(t, m) =>
      m in s.mutexes && t in s.tcbs && s.mutexes[m].messages > 0 ==>
        forall y :: y in s.mutexes[m].waiting && y in s.tcbs ==> s.tcbs[y].priority <= s.tcbs[t].priority
    case Block(t, m) => t in s.tcbs ==> s.tcbs[t].held == 0
    case _ => true
  }

  ghost predicate AllDisciplined(s: State, events: seq<Event>)
    decreases |events|
  {
    events == [] || (Disciplined(s, events[0]) && AllDisciplined(Step(s, events[0]), events[1..]))
  }

  lemma {:induction false} SameValues(s: State, r: State, w: seq<int>)
    requires forall y :: y in w ==> EventValue(r, y) == EventValue(s, y)
    ensures Values(r, w) == Values(s, w)
  {
    forall i | 0 <= i < |w| ensures Values(r, w)[i] == Values(s, w)[i] { assert w[i] in w; }
  }

  /** A step that changes no waiting task and no list. */
  lemma {:induction false} CalmStays(s: State, r: State)
    requires Inv(s) && Inv(r) && Calm(s) && r.mutexes.Keys == s.mutexes.Keys
    requires forall m :: m in s.mutexes ==> r.mutexes[m].waiting == s.mutexes[m].waiting
    requires forall y :: y in s.tcbs && s.tcbs[y].waitsFor.Some? ==> y in r.tcbs && r.tcbs[y] == s.tcbs[y]
    requires forall y :: y in r.tcbs ==> y in s.tcbs && r.tcbs[y].waitsFor == s.tcbs[y].waitsFor
    requires forall m, t {:trigger ServedAt(r, m, t)} :: ServedAt(r, m, t)
    ensures Calm(r)
  {
    forall t ensures LooseAt(r, t) { assert LooseAt(s, t); }
    forall m ensures SortedAt(r, m) {
      assert SortedAt(s, m);
      if m in s.mutexes {
        forall y | y in s.mutexes[m].waiting ensures EventValue(r, y) == EventValue(s, y) { assert WaitsAt(s, m, y); }
        SameValues(s, r, s.mutexes[m].waiting);
      }
    }
  }

  lemma {:induction false} TakeCalm(s: State, t: int, m: int)
    requires Inv(s) && Calm(s) && Disciplined(s, Take(t, m))
    ensures Calm(Step(s, Take(t, m)))
  {
    var r := Step(s, Take(t, m));
    StepKeeps(s, Take(t, m));
    forall k, y ensures ServedAt(r, k, y) {
      assert ServedAt(s, k, y) && WaitsAt(s, k, y) && MutexAt(s, k);
    }
    CalmStays(s, r);
  }

  lemma {:induction false} GroupCalm(s: State, e: Event)
    requires Inv(s) && Calm(s) && (e.GroupWait? || e.GroupReturn?)
    ensures Calm(Step(s, e))
  {
    var r := Step(s, e);
    StepKeeps(s, e);
    forall k, y ensures ServedAt(r, k, y) { assert ServedAt(s, k, y) && WaitsAt(s, k, y); }
    CalmStays(s, r);
  }

  lemma {:induction false} UnlistCalm(s: State, t: int, m: int)
    requires Inv(s) && Calm(s) && m in s.mutexes
    ensures Calm(Unlisted(s, t, m))
  {
    var r, w := Unlisted(s, t, m), s.mutexes[m].waiting;
    if t in w && t in s.tcbs {
      var k := Find(w, t);
      assert MutexAt(s, m);
      RemoveMembers(w, k);
      forall j, y ensures ServedAt(r, j, y) { assert ServedAt(s, j, y); }
      forall y ensures LooseAt(r, y) { assert LooseAt(s, y); }
      forall j ensures SortedAt(r, j) {
        assert SortedAt(s, j);
        if j in s.mutexes {
          SameValues(s, r, s.mutexes[j].waiting);
          if j == m {
            RemoveSorted(Values(s, w), k);
            assert Values(r, RemoveAt(w, k)) == RemoveAt(Values(r, w), k);
          }
        }
      }
    }
  }

  lemma {:induction false} FreedCalm(s: State, t: int, m: int)
    requires Inv(s) && Calm(s) && t in s.tcbs && m in s.mutexes && s.mutexes[m].holder == Some(t) && s.tcbs[t].held > 0
    requires s.tcbs[t].waitsFor.None? && s.tcbs[t].eventValue < IN_USE && s.mutexes[m].calls <= 1
    ensures Calm(Freed(s, t, m))
  {
    var r := Freed(s, t, m);
    FreedKeeps(s, t, m);
    assert TcbAt(s, t);
    forall k, y ensures ServedAt(r, k, y) {
      assert ServedAt(s, k, y) && WaitsAt(s, k, y);
      if k in s.mutexes && k != m && s.mutexes[k].holder == Some(t) {
        HeldChanges(s, r, m, t);
        assert k in Held(r, t);
      }
    }
    CalmStays(s, r);
  }

  lemma {:induction false} GiveCalm(s: State, t: int, m: int)
    requires Inv(s) && Calm(s)
    ensures Calm(Step(s, Give(t, m)))
  {
    var r := Step(s, Give(t, m));
    if r != s {
      assert MutexAt(s, m);
      if s.mutexes[m].recursive && s.mutexes[m].calls > 1 {
        StepKeeps(s, Give(t, m));
        forall k, y ensures ServedAt(r, k, y) { assert ServedAt(s, k, y); }
        CalmStays(s, r);
      } else {
        FreedCalm(s, t, m);
        FreedKeeps(s, t, m);
        if s.mutexes[m].waiting != [] { UnlistCalm(Freed(s, t, m), s.mutexes[m].waiting[0], m); }
      }
    }
  }

  /** The holder is left with the greater of its base priority and that of the first task in the list. */
  lemma {:induction false} HeadIsHighest(s: State, m: int, t: int)
    requires Inv(s) && m in s.mutexes && SortedAt(s, m) && t in s.mutexes[m].waiting
    ensures t in s.tcbs && s.tcbs[t].priority <= HighestWaiting(s, m)
    ensures exists y :: y in s.mutexes[m].waiting && y in s.tcbs && s.tcbs[y].priority == HighestWaiting(s, m)
  {
    var w := s.mutexes[m].waiting;
    var i := Find(w, t);
    assert WaitsAt(s, m, w[0]) && WaitsAt(s, m, t) && TcbAt(s, w[0]) && TcbAt(s, t);
    assert Values(s, w)[0] == EventValue(s, w[0]) && Values(s, w)[i] == EventValue(s, t);
    if i > 0 { assert Ascends(Values(s, w), 0, i); }
    assert w[0] in w;
  }

  lemma {:induction false} GiveUpCalm(s: State, m: int)
    requires Inv(s) && Calm(s)
    ensures Calm(Step(s, GiveUp(m)))
  {
    var r := Step(s, GiveUp(m));
    StepKeeps(s, GiveUp(m));
    if r != s {
      var h := s.mutexes[m].holder.value;
      assert TcbAt(s, h) && LooseAt(s, h) && SortedAt(s, m);
      assert m in Held(s, h);
      forall k, y ensures ServedAt(r, k, y) {
        assert ServedAt(s, k, y) && WaitsAt(s, k, y);
        if k == m && y in s.mutexes[m].waiting { HeadIsHighest(s, m, y); }
        if k in s.mutexes && k != m && s.mutexes[k].holder == Some(h) { TwoHeld(s, h, k, m); }
      }
      CalmStays(s, r);
    }
  }

  lemma {:induction false} TwoHeld(s: State, t: int, k: int, m: int)
    requires k != m && k in Held(s, t) && m in Held(s, t)
    ensures |Held(s, t)| >= 2
  {
    CountWithout(Held(s, t), k);
    CountWithout(Held(s, t) - {k}, m);
  }

  lemma {:induction false} BlockCalm(s: State, t: int, m: int)
    requires Inv(s) && Calm(s) && Disciplined(s, Block(t, m))
    ensures Calm(Step(s, Block(t, m)))
  {
    var r := Step(s, Block(t, m));
    BlockKeeps(s, t, m);
    if r != s {
      assert MutexAt(s, m) && TcbAt(s, t);
      var h, w := s.mutexes[m].holder.value, s.mutexes[m].waiting;
      var i := Inherited(s, h, s.tcbs[t].priority);
      assert TcbAt(s, h) && LooseAt(s, h);
      assert m in Held(s, h);
      InheritKeeps(s, h, s.tcbs[t].priority);
      forall k, y ensures ServedAt(i, k, y) { assert ServedAt(s, k, y) && WaitsAt(s, k, y); }
      CalmStays(s, i);
      EnlistCalm(i, t, m);
    }
  }

  lemma {:induction false} EnlistCalm(s: State, t: int, m: int)
    requires Inv(s) && Calm(s) && t in s.tcbs && m in s.mutexes && s.tcbs[t].waitsFor.None? && s.tcbs[t].held == 0
    requires s.tcbs[t].eventValue < IN_USE && s.mutexes[m].holder.Some? && s.mutexes[m].holder.value in s.tcbs
    requires s.tcbs[t].priority <= s.tcbs[s.mutexes[m].holder.value].priority
    ensures var w := s.mutexes[m].waiting;
            Calm(State(s.tcbs[t := s.tcbs[t].(waitsFor := Some(m))],
                       s.mutexes[m := s.mutexes[m].(waiting := InsertAt(w, Place(Values(s, w), EventValue(s, t)), t))]))
  {
    var w := s.mutexes[m].waiting;
    var k := Place(Values(s, w), EventValue(s, t));
    var r := State(s.tcbs[t := s.tcbs[t].(waitsFor := Some(m))],
                   s.mutexes[m := s.mutexes[m].(waiting := InsertAt(w, k, t))]);
    InsertMembers(w, k, t);
    forall j, y ensures ServedAt(r, j, y) { assert ServedAt(s, j, y); }
    forall y ensures LooseAt(r, y) { assert LooseAt(s, y); }
    forall j ensures SortedAt(r, j) {
      assert SortedAt(s, j);
      if j in s.mutexes {
        SameValues(s, r, s.mutexes[j].waiting);
        if j == m {
          InsertSorted(Values(s, w), EventValue(s, t));
          assert Values(r, InsertAt(w, k, t)) == InsertAt(Values(r, w), k, EventValue(r, t));
        }
      }
    }
  }

  lemma {:induction false} CalmKeeps(s: State, e: Event)
    requires Inv(s) && Calm(s) && Disciplined(s, e)
    ensures Calm(Step(s, e))
  {
    match e
    case Take(t, m) => TakeCalm(s, t, m);
    case Block(t, m) => BlockCalm(s, t, m);
    case TimeOut(t) =>
      if t in s.tcbs && s.tcbs[t].waitsFor.Some? && s.tcbs[t].waitsFor.value in s.mutexes {
        UnlistCalm(s, t, s.tcbs[t].waitsFor.value);
      }
    case GiveUp(m) => GiveUpCalm(s, m);
    case Give(t, m) => GiveCalm(s, t, m);
    case GroupWait(_, _) => GroupCalm(s, e);
    case GroupReturn(_) => GroupCalm(s, e);
  }

  lemma {:induction false} RunCalm(s: State, events: seq<Event>)
    requires Inv(s) && Calm(s) && AllDisciplined(s, events)
    ensures Calm(Run(s, events))
    decreases |events|
  {
    if events != [] {
      StepKeeps(s, events[0]);
      CalmKeeps(s, events[0]);
      RunCalm(Step(s, events[0]), events[1..]);
    }
  }

  /** A discipline that tasks can follow: with no task blocking while it holds a mutex, no holder is outranked. */
  lemma {:induction false} OneMutexAtATime(s: State, events: seq<Event>)
    requires Starts(s) && AllDisciplined(s, events)
    ensures NoInversion(Run(s, events))
  {
    StartsInv(s);
    forall m, t ensures ServedAt(s, m, t) { }
    forall t ensures LooseAt(s, t) { }
    forall m ensures SortedAt(s, m) {
      if m in s.mutexes { forall i: nat, j: nat ensures Ascends(Values(s, s.mutexes[m].waiting), i, j) { } }
    }
    RunCalm(s, events);
  }

  // ----- exactly when inheritance prevents inversion -----

  /** The holder h of a mutex can inherit the priority of t without outranking a holder that it waits for. */
  predicate MayLend(s: State, t: int, h: int)
    requires t in s.tcbs && h in s.tcbs
  {
    || s.tcbs[t].priority <= s.tcbs[h].priority
    || s.tcbs[h].waitsFor.None? || s.tcbs[h].waitsFor.value !in s.mutexes
    || (var next := s.mutexes[s.tcbs[h].waitsFor.value].holder;
        next.None? || next.value !in s.tcbs || next.value == h || s.tcbs[t].priority <= s.tcbs[next.value].priority)
  }

  /** The holder of m holds more than m, or the first task in the list, which is all that a time-out looks at,
      or the holder's own priority, is as high as any other that waits. */
  predicate MayLower(s: State, h: int, m: int)
    requires h in s.tcbs && m in s.mutexes
  {
    s.tcbs[h].held != 1
    || forall y :: y in s.mutexes[m].waiting && y != h && y in s.tcbs ==>
         s.tcbs[y].priority <= Max(s.tcbs[h].base, HighestWaiting(s, m))
  }

  /** The task that takes m outranks all that wait for it. */
  predicate MayTake(s: State, t: int, m: int)
    requires t in s.tcbs && m in s.mutexes
  {
    forall y :: y in s.mutexes[m].waiting && y in s.tcbs ==> s.tcbs[y].priority <= s.tcbs[t].priority
  }

  predicate IsHeld(s: State, m: int) {
    m in s.mutexes && s.mutexes[m].holder.Some? && s.mutexes[m].holder.value in s.tcbs
  }

  /** The event does not make a task wait for a holder of lower priority. */
  predicate Serves(s: State, e: Event) {
    match e
    case Take(t, m) => t in s.tcbs && m in s.mutexes && s.tcbs[t].waitsFor.None? && s.mutexes[m].messages > 0 ==>
      MayTake(s, t, m)
    case Block(t, m) => Step(s, e) != s && t in s.tcbs && IsHeld(s, m) ==> MayLend(s, t, s.mutexes[m].holder.value)
    case GiveUp(m) => IsHeld(s, m) ==> MayLower(s, s.mutexes[m].holder.value, m)
    case _ => true
  }

  predicate AllServe(s: State, events: seq<Event>)
    decreases |events|
  {
    events == [] || (Serves(s, events[0]) && AllServe(Step(s, events[0]), events[1..]))
  }

  lemma {:induction false} TakeExact(s: State, t: int, m: int)
    requires Inv(s) && NoInversion(s)
    ensures NoInversion(Step(s, Take(t, m))) <==> Serves(s, Take(t, m))
  {
    var r := Step(s, Take(t, m));
    assert MutexAt(s, m) && TcbAt(s, t);
    if Serves(s, Take(t, m)) {
      forall k, y ensures ServedAt(r, k, y) { assert ServedAt(s, k, y) && WaitsAt(s, k, y) && MutexAt(s, k); }
    } else {
      var y :| y in s.mutexes[m].waiting && y in s.tcbs && s.tcbs[y].priority > s.tcbs[t].priority;
      assert !ServedAt(r, m, y);
    }
  }

  /** Inheritance is not passed on. Blocking keeps holders from being outranked exactly when the holder need not
      rise, or does not itself wait for a mutex whose holder the new priority would outrank. */
  lemma {:induction false} BlockExact(s: State, t: int, m: int)
    requires Inv(s) && NoInversion(s) && Step(s, Block(t, m)) != s
    ensures m in s.mutexes && t in s.tcbs && s.mutexes[m].holder.Some? && s.mutexes[m].holder.value in s.tcbs
    ensures NoInversion(Step(s, Block(t, m))) <==> MayLend(s, t, s.mutexes[m].holder.value)
  {
    var r := Step(s, Block(t, m));
    assert MutexAt(s, m) && TcbAt(s, t);
    var h, w := s.mutexes[m].holder.value, s.mutexes[m].waiting;
    InsertMembers(w, Place(Values(Inherited(s, h, s.tcbs[t].priority), w),
                           EventValue(Inherited(s, h, s.tcbs[t].priority), t)), t);
    assert TcbAt(s, h);
    if MayLend(s, t, h) {
      forall k, y ensures ServedAt(r, k, y) { assert ServedAt(s, k, y) && WaitsAt(s, k, y) && MutexAt(s, k); }
    } else {
      assert !ServedAt(r, s.tcbs[h].waitsFor.value, h) by { assert MutexAt(s, s.tcbs[h].waitsFor.value); }
    }
  }

  /** The holder of a single mutex is left with its base priority or that of the first task in the list, and is
      outranked by no other that waits exactly when none of them is higher than both. */
  lemma {:induction false} GiveUpExact(s: State, m: int)
    requires Inv(s) && NoInversion(s) && m in s.mutexes && s.mutexes[m].holder.Some?
    ensures var h := s.mutexes[m].holder.value;
            && h in s.tcbs
            && (NoInversion(Step(s, GiveUp(m))) <==> MayLower(s, h, m))
            && (s.tcbs[h].held == 1 ==>
                  var p, w := Step(s, GiveUp(m)).tcbs[h].priority, s.mutexes[m].waiting;
                  && s.tcbs[h].base <= p <= s.tcbs[h].priority
                  && (w != [] ==> w[0] in s.tcbs && s.tcbs[w[0]].priority <= p)
                  && (p == s.tcbs[h].base || (w != [] && p == s.tcbs[w[0]].priority)))
  {
    var r := Step(s, GiveUp(m));
    var h, w := s.mutexes[m].holder.value, s.mutexes[m].waiting;
    assert MutexAt(s, m) && TcbAt(s, h);
    assert m in Held(s, h);
    if w != [] { assert WaitsAt(s, m, w[0]) && TcbAt(s, w[0]) && ServedAt(s, m, w[0]); }
    if MayLower(s, h, m) {
      forall k, y ensures ServedAt(r, k, y) {
        assert ServedAt(s, k, y) && WaitsAt(s, k, y);
        if k in s.mutexes && k != m && s.mutexes[k].holder == Some(h) { TwoHeld(s, h, k, m); }
      }
    } else {
      var y :| y in w && y != h && y in s.tcbs && s.tcbs[y].priority > Max(s.tcbs[h].base, HighestWaiting(s, m));
      assert !ServedAt(r, m, y);
    }
  }

  lemma {:induction false} GiveServes(s: State, t: int, m: int)
    requires Inv(s) && NoInversion(s)
    ensures NoInversion(Step(s, Give(t, m)))
  {
    var r := Step(s, Give(t, m));
    if r != s {
      assert MutexAt(s, m) && TcbAt(s, t);
      var x := s.mutexes[m];
      if !(x.recursive && x.calls > 1) {
        var f := Freed(s, t, m);
        forall k, y ensures ServedAt(f, k, y) {
          assert ServedAt(s, k, y) && WaitsAt(s, k, y);
          if k in s.mutexes && k != m && s.mutexes[k].holder == Some(t) { TwoHeldBy(s, t, k, m); }
        }
        if x.waiting != [] { UnlistServes(f, x.waiting[0], m); }
      } else {
        forall k, y ensures ServedAt(r, k, y) { assert ServedAt(s, k, y); }
      }
    }
  }

  lemma {:induction false} TwoHeldBy(s: State, t: int, k: int, m: int)
    requires Inv(s) && t in s.tcbs && k != m && k in Held(s, t) && m in Held(s, t)
    ensures s.tcbs[t].held >= 2
  {
    assert TcbAt(s, t);
    TwoHeld(s, t, k, m);
  }

  lemma {:induction false} UnlistServes(s: State, t: int, m: int)
    requires NoInversion(s) && m in s.mutexes
    ensures NoInversion(Unlisted(s, t, m))
  {
    var r, w := Unlisted(s, t, m), s.mutexes[m].waiting;
    forall k, y ensures ServedAt(r, k, y) { assert ServedAt(s, k, y); }
  }

  /** For every event: from a state in which no holder is outranked, it leads to another one exactly if it serves. */
  lemma {:induction false} ServeExact(s: State, e: Event)
    requires Inv(s) && NoInversion(s)
    ensures NoInversion(Step(s, e)) <==> Serves(s, e)
  {
    match e
    case Take(t, m) => TakeExact(s, t, m);
    case Block(t, m) => if Step(s, e) != s { BlockExact(s, t, m); }
    case TimeOut(t) =>
      if t in s.tcbs && s.tcbs[t].waitsFor.Some? && s.tcbs[t].waitsFor.value in s.mutexes {
        UnlistServes(s, t, s.tcbs[t].waitsFor.value);
      }
    case GiveUp(m) =>
      assert MutexAt(s, m);
      if m in s.mutexes && s.mutexes[m].holder.Some? { GiveUpExact(s, m); }
    case Give(t, m) => GiveServes(s, t, m);
    case GroupWait(_, _) => forall k, y ensures ServedAt(Step(s, e), k, y) { assert ServedAt(s, k, y); }
    case GroupReturn(_) => forall k, y ensures ServedAt(Step(s, e), k, y) { assert ServedAt(s, k, y); }
  }

  lemma {:induction false} RunServeExact(s: State, events: seq<Event>)
    requires Inv(s) && NoInversion(s)
    ensures AllServe(s, events) <==>
            forall n {:trigger events[..n]} :: 0 <= n <= |events| ==> NoInversion(Run(s, events[..n]))
    decreases |events|
  {
    if events == [] {
      assert events[..0] == [];
    } else {
      var r, rest := Step(s, events[0]), events[1..];
      ServeExact(s, events[0]);
      StepKeeps(s, events[0]);
      assert Run(s, events[..0]) == s;
      forall n | 0 < n <= |events| ensures Run(s, events[..n]) == Run(r, rest[..n - 1]) {
        assert events[..n][1..] == rest[..n - 1];
      }
      assert Run(r, rest[..0]) == r;
      if NoInversion(r) {
        RunServeExact(r, rest);
        PrefixShift(s, events);
      } else {
        assert !NoInversion(Run(s, events[..1]));
      }
    }
  }

  lemma {:induction false} PrefixShift(s: State, events: seq<Event>)
    requires events != [] && NoInversion(s)
    ensures (forall n {:trigger events[..n]} :: 0 <= n <= |events| ==> NoInversion(Run(s, events[..n])))
      <==> forall n {:trigger events[1..][..n]} :: 0 <= n <= |events| - 1 ==>
             NoInversion(Run(Step(s, events[0]), events[1..][..n]))
  {
    var r, rest := Step(s, events[0]), events[1..];
    assert Run(s, events[..0]) == s;
    forall n | 0 <= n <= |rest| ensures Run(s, events[..n + 1]) == Run(r, rest[..n]) {
      assert events[..n + 1][1..] == rest[..n];
    }
    if forall n {:trigger rest[..n]} :: 0 <= n <= |rest| ==> NoInversion(Run(r, rest[..n])) {
      forall n {:trigger events[..n]} | 0 <= n <= |events| ensures NoInversion(Run(s, events[..n])) {
        if n > 0 { assert Run(s, events[..n - 1 + 1]) == Run(r, rest[..n - 1]); }
      }
    }
    if forall n {:trigger events[..n]} :: 0 <= n <= |events| ==> NoInversion(Run(s, events[..n])) {
      forall n {:trigger rest[..n]} | 0 <= n <= |rest| ensures NoInversion(Run(r, rest[..n])) {
        assert NoInversion(Run(s, events[..n + 1]));
      }
    }
  }

  /** Over any run from the start, no holder is ever outranked by a task that waits for its mutex exactly if every
      event of the run serves, whatever time-outs, partial gives and returns to base priority it contains. */
  lemma {:induction false} HolderNeverOutranked(s: State, events: seq<Event>)
    requires Starts(s)
    ensures AllServe(s, events) <==>
            forall n {:trigger events[..n]} :: 0 <= n <= |events| ==> NoInversion(Run(s, events[..n]))
  {
    StartsInv(s);
    forall m, t ensures ServedAt(s, m, t) { }
    RunServeExact(s, events);
  }

  /** Task a holds m, b holds n and waits for m, and then c waits for n. */
  function ChainRun(a: int, b: int, c: int, m: int, n: int): seq<Event> {
    [Take(a, m), Take(b, n), Block(b, m), Block(c, n)]
  }

  lemma {:induction false} RunFour(s: State, a: Event, b: Event, c: Event, d: Event)
    ensures Run(s, [a, b, c, d]) == Step(Step(Step(Step(s, a), b), c), d)
  {
    var s1, s2, s3 := Step(s, a), Step(Step(s, a), b), Step(Step(Step(s, a), b), c);
    assert [a, b, c, d][1..] == [b, c, d] && [b, c, d][1..] == [c, d] && [c, d][1..] == [d];
    RunOne(s3, d);
    assert Run(s1, [b, c, d]) == Run(s2, [c, d]) == Run(s3, [d]);
  }

  lemma {:induction false} RunOne(s: State, e: Event)
    ensures Run(s, [e]) == Step(s, e)
  {
    assert [e][1..] == [];
  }

  /** From any start with three tasks of rising priority and two mutexes such a chain can be run. The task b rises
      to the priority of c, and a, which it waits for, does not. */
  lemma {:induction false} ChainInverts(s: State, a: int, b: int, c: int, m: int, n: int)
    requires Starts(s) && a in s.tcbs && b in s.tcbs && c in s.tcbs && m in s.mutexes && n in s.mutexes && m != n
    requires s.tcbs[a].base < s.tcbs[b].base < s.tcbs[c].base
    ensures var r := Run(s, ChainRun(a, b, c, m, n));
            && m in r.mutexes && r.mutexes[m].holder == Some(a) && b in r.mutexes[m].waiting
            && a in r.tcbs && b in r.tcbs
            && r.tcbs[a].priority == s.tcbs[b].base < r.tcbs[b].priority == s.tcbs[c].base
            && !NoInversion(r)
  {
    var s1 := Step(s, Take(a, m));
    var s2 := Step(s1, Take(b, n));
    assert s1.mutexes[n] == s.mutexes[n] && s1.tcbs[b] == s.tcbs[b];
    assert s2.mutexes[m].holder == Some(a) && s2.mutexes[n].holder == Some(b);
    var s3 := Step(s2, Block(b, m));
    assert s3.tcbs[a].priority == s.tcbs[b].base && s3.mutexes[m].waiting == [b];
    assert s3.mutexes[n] == s2.mutexes[n] && s3.tcbs[c] == s.tcbs[c];
    var s4 := Step(s3, Block(c, n));
    assert s4.tcbs[b].priority == s.tcbs[c].base && s4.tcbs[a] == s3.tcbs[a] && s4.mutexes[m] == s3.mutexes[m];
    RunFour(s, Take(a, m), Take(b, n), Block(b, m), Block(c, n));
    assert !ServedAt(s4, m, b);
  }

  /** An event list in order never makes a time-out go wrong. */
  lemma {:induction false} OrderServes(s: State, m: int)
    requires Inv(s) && SortedAt(s, m)
    ensures Serves(s, GiveUp(m))
  {
    if m in s.mutexes {
      forall y | y in s.mutexes[m].waiting ensures y in s.tcbs && s.tcbs[y].priority <= HighestWaiting(s, m) {
        HeadIsHighest(s, m, y);
      }
    }
  }

  /** A holder that rises while it waits itself keeps its place in the event list, which stays in order exactly if
      the tasks before it are not of a lower priority than it has now. */
  lemma {:induction false} RiseExact(s: State, t: int, m: int, n: int)
    requires Inv(s) && Step(s, Block(t, m)) != s && n in s.mutexes && n != m && SortedAt(s, n)
    requires t in s.tcbs && m in s.mutexes && s.mutexes[m].holder.Some? && s.mutexes[m].holder.value in s.tcbs
    requires var h := s.tcbs[s.mutexes[m].holder.value]; h.waitsFor == Some(n) && h.priority < s.tcbs[t].priority
    ensures var h, w := s.mutexes[m].holder.value, s.mutexes[n].waiting;
            && h in w
            && (SortedAt(Step(s, Block(t, m)), n) <==>
                  forall i :: 0 <= i < Find(w, h) ==> w[i] in s.tcbs && s.tcbs[w[i]].priority >= s.tcbs[t].priority)
  {
    var h, w, r := s.mutexes[m].holder.value, s.mutexes[n].waiting, Step(s, Block(t, m));
    assert TcbAt(s, h) && TcbAt(s, t) && MutexAt(s, n);
    var j := Find(w, h);
    forall i | 0 <= i < |w|
      ensures w[i] in s.tcbs && s.tcbs[w[i]].priority < MAX_PRIORITIES
      ensures Values(s, w)[i] == MAX_PRIORITIES - s.tcbs[w[i]].priority
      ensures Values(r, w)[i] == if i == j then MAX_PRIORITIES - s.tcbs[t].priority else Values(s, w)[i]
    {
      assert WaitsAt(s, n, w[i]) && TcbAt(s, w[i]);
      if i != j { FindUnique(w, i); }
    }
    if forall i :: 0 <= i < j ==> w[i] in s.tcbs && s.tcbs[w[i]].priority >= s.tcbs[t].priority {
      forall a: nat, b: nat ensures Ascends(Values(r, w), a, b) { assert Ascends(Values(s, w), a, b); }
    }
    if Sorted(Values(r, w)) {
      forall i | 0 <= i < j ensures s.tcbs[w[i]].priority >= s.tcbs[t].priority { assert Ascends(Values(r, w), i, j); }
    }
  }

  datatype Cast = Cast(h: int, b: int, c: int, d: int, e: int, m: int, n: int)

  /** Five tasks of rising priority and two mutexes, before any call. */
  ghost predicate Rising(s: State, k: Cast) {
    && Starts(s) && {k.h, k.b, k.c, k.d, k.e} <= s.tcbs.Keys && {k.m, k.n} <= s.mutexes.Keys && k.m != k.n
    && s.tcbs[k.h].base < s.tcbs[k.b].base < s.tcbs[k.c].base < s.tcbs[k.d].base < s.tcbs[k.e].base
  }

  function WaitsIn(t: int, waiting: seq<int>, m: int): Option<int> {
    if t in waiting then Some(m) else None
  }

  /** In r, h holds m at priority ph, b holds n at priority pb, and so wait for m and wn for n. */
  ghost predicate Scene(s: State, r: State, k: Cast, ph: nat, pb: nat, wm: seq<int>, wn: seq<int>) {
    && Rising(s, k) && {k.h, k.b, k.c, k.d, k.e} <= r.tcbs.Keys && {k.m, k.n} <= r.mutexes.Keys
    && ph < MAX_PRIORITIES && pb < MAX_PRIORITIES
    && var m, n := r.mutexes[k.m], r.mutexes[k.n];
    && m.holder == Some(k.h) && m.messages == 0 && m.waiting == wm && (m.recursive ==> m.calls == 1)
    && n.holder == Some(k.b) && n.messages == 0 && n.waiting == wn
    && r.tcbs[k.h] == Tcb(s.tcbs[k.h].base, ph, 1, EventValueOf(ph), None)
    && r.tcbs[k.b] == Tcb(s.tcbs[k.b].base, pb, 1, EventValueOf(pb), WaitsIn(k.b, wm, k.m))
    && r.tcbs[k.c] == s.tcbs[k.c].(waitsFor := WaitsIn(k.c, wm, k.m))
    && r.tcbs[k.e] == s.tcbs[k.e].(waitsFor := WaitsIn(k.e, wm, k.m))
    && r.tcbs[k.d] == s.tcbs[k.d].(waitsFor := WaitsIn(k.d, wn, k.n))
  }

  lemma {:induction false} TakesBoth(s: State, k: Cast)
    requires Rising(s, k)
    ensures var r := Step(s, Take(k.h, k.m));
            && Serves(s, Take(k.h, k.m)) && Serves(r, Take(k.b, k.n))
            && Scene(s, Step(r, Take(k.b, k.n)), k, s.tcbs[k.h].base, s.tcbs[k.b].base, [], [])
  {
    var r := Step(s, Take(k.h, k.m));
    assert r.mutexes[k.n] == s.mutexes[k.n] && r.tcbs[k.b] == s.tcbs[k.b];
    var q := Step(r, Take(k.b, k.n));
    assert q.mutexes[k.m] == r.mutexes[k.m] && q.tcbs[k.h] == r.tcbs[k.h];
  }

  /** A task that outranks the holder of m and all that wait for it goes to the front. */
  lemma {:induction false} BlocksInFront(s: State, r: State, k: Cast, ph: nat, wm: seq<int>, t: int)
    requires Rising(s, k) && Scene(s, r, k, ph, s.tcbs[k.b].base, wm, [])
    requires t in [k.b, k.c, k.e] && t !in wm && ph < s.tcbs[t].base
    requires forall y :: y in wm ==> y in [k.b, k.c, k.e] && s.tcbs[y].base < s.tcbs[t].base
    ensures Serves(r, Block(t, k.m))
    ensures Scene(s, Step(r, Block(t, k.m)), k, s.tcbs[t].base, s.tcbs[k.b].base, [t] + wm, [])
  {
    var i := Inherited(r, k.h, s.tcbs[t].base);
    assert i.tcbs[t] == r.tcbs[t] && r.tcbs[t].priority == s.tcbs[t].base;
    if wm != [] {
      assert wm[0] in wm;
      assert Values(i, wm)[0] == EventValue(i, wm[0]) > EventValue(i, t);
    }
    assert Place(Values(i, wm), EventValue(i, t)) == 0;
    assert InsertAt(wm, 0, t) == [t] + wm;
  }

  lemma {:induction false} RisesInPlace(s: State, r: State, k: Cast)
    requires Rising(s, k) && Scene(s, r, k, s.tcbs[k.e].base, s.tcbs[k.b].base, [k.e, k.c, k.b], [])
    ensures Serves(r, Block(k.d, k.n))
    ensures Scene(s, Step(r, Block(k.d, k.n)), k, s.tcbs[k.e].base, s.tcbs[k.d].base, [k.e, k.c, k.b], [k.d])
  {
    var i := Inherited(r, k.b, s.tcbs[k.d].base);
    assert i.tcbs[k.d] == r.tcbs[k.d];
    assert Values(i, []) == [] && InsertAt([], 0, k.d) == [k.d];
  }

  /** Task h holds m; b, c and e wait for it; b also holds n, for which d blocks, so that b rises in its place. */
  function QueueRun(k: Cast): seq<Event> {
    [Take(k.h, k.m)] + ([Take(k.b, k.n)] + QueueEnd(k))
  }

  function QueueEnd(k: Cast): seq<Event> {
    [Block(k.b, k.m)] + QueueRest(k)
  }

  function QueueRest(k: Cast): seq<Event> {
    [Block(k.c, k.m), Block(k.e, k.m), Block(k.d, k.n)]
  }

  lemma {:induction false} QueueLeadsTo(s: State, k: Cast)
    requires Rising(s, k)
    ensures AllServe(s, QueueRun(k))
    ensures Scene(s, Run(s, QueueRun(k)), k, s.tcbs[k.e].base, s.tcbs[k.d].base, [k.e, k.c, k.b], [k.d])
  {
    var r := Step(s, Take(k.h, k.m));
    var q := Step(r, Take(k.b, k.n));
    TakesBoth(s, k);
    QueueTail(s, q, k);
    RunFirst(r, Take(k.b, k.n), QueueEnd(k));
    RunFirst(s, Take(k.h, k.m), [Take(k.b, k.n)] + QueueEnd(k));
  }

  lemma {:induction false} QueueTail(s: State, r: State, k: Cast)
    requires Rising(s, k) && Scene(s, r, k, s.tcbs[k.h].base, s.tcbs[k.b].base, [], [])
    ensures AllServe(r, QueueEnd(k))
    ensures Scene(s, Run(r, QueueEnd(k)), k, s.tcbs[k.e].base, s.tcbs[k.d].base, [k.e, k.c, k.b], [k.d])
  {
    BlocksInFront(s, r, k, s.tcbs[k.h].base, [], k.b);
    assert [k.b] + [] == [k.b];
    QueueLast(s, Step(r, Block(k.b, k.m)), k);
    RunFirst(r, Block(k.b, k.m), QueueRest(k));
  }

  lemma {:induction false} QueueLast(s: State, r: State, k: Cast)
    requires Rising(s, k) && Scene(s, r, k, s.tcbs[k.b].base, s.tcbs[k.b].base, [k.b], [])
    ensures AllServe(r, QueueRest(k))
    ensures Scene(s, Run(r, QueueRest(k)), k, s.tcbs[k.e].base, s.tcbs[k.d].base, [k.e, k.c, k.b], [k.d])
  {
    BlocksInFront(s, r, k, s.tcbs[k.b].base, [k.b], k.c);
    assert [k.c] + [k.b] == [k.c, k.b];
    var q := Step(r, Block(k.c, k.m));
    BlocksInFront(s, q, k, s.tcbs[k.c].base, [k.c, k.b], k.e);
    assert [k.e] + [k.c, k.b] == [k.e, k.c, k.b];
    RisesInPlace(s, Step(q, Block(k.e, k.m)), k);
    RunThree(r, Block(k.c, k.m), Block(k.e, k.m), Block(k.d, k.n));
  }

  lemma {:induction false} RunThree(s: State, a: Event, b: Event, c: Event)
    ensures Run(s, [a, b, c]) == Step(Step(Step(s, a), b), c)
    ensures AllServe(s, [a, b, c]) <==> Serves(s, a) && Serves(Step(s, a), b) && Serves(Step(Step(s, a), b), c)
  {
    RunFirst(s, a, [b, c]);
    RunFirst(Step(s, a), b, [c]);
    RunFirst(Step(Step(s, a), b), c, []);
    assert [a] + [b, c] == [a, b, c] && [b] + [c] == [b, c] && [c] + [] == [c];
  }

  lemma {:induction false} RunFirst(s: State, e: Event, rest: seq<Event>)
    ensures Run(s, [e] + rest) == Run(Step(s, e), rest)
    ensures AllServe(s, [e] + rest) <==> Serves(s, e) && AllServe(Step(s, e), rest)
  {
    assert ([e] + rest)[1..] == rest;
  }

  lemma {:induction false} RunAppend(s: State, a: seq<Event>, b: seq<Event>)
    ensures Run(s, a + b) == Run(Run(s, a), b)
    ensures AllServe(s, a + b) <==> AllServe(s, a) && AllServe(Run(s, a), b)
    decreases |a|
  {
    if a == [] {
      assert a + b == b;
    } else {
      assert (a + b)[1..] == a[1..] + b;
      RunAppend(Step(s, a[0]), a[1..], b);
    }
  }

  /** The task at the head times out. */
  lemma {:induction false} HeadLeaves(s: State, r: State, k: Cast)
    requires Rising(s, k) && Scene(s, r, k, s.tcbs[k.e].base, s.tcbs[k.d].base, [k.e, k.c, k.b], [k.d])
    ensures Scene(s, Step(r, TimeOut(k.e)), k, s.tcbs[k.e].base, s.tcbs[k.d].base, [k.c, k.b], [k.d])
  {
    FindFirst([k.e, k.c, k.b]);
    assert RemoveAt([k.e, k.c, k.b], 0) == [k.c, k.b];
  }

  /** And lowers the holder to the priority of the next in the list. */
  lemma {:induction false} HeadLowers(s: State, q: State, k: Cast)
    requires Rising(s, k) && Scene(s, q, k, s.tcbs[k.e].base, s.tcbs[k.d].base, [k.c, k.b], [k.d])
    ensures !Serves(q, GiveUp(k.m))
    ensures Scene(s, Step(q, GiveUp(k.m)), k, s.tcbs[k.c].base, s.tcbs[k.d].base, [k.c, k.b], [k.d])
  {
    assert HighestWaiting(q, k.m) == s.tcbs[k.c].base;
    assert k.b in q.mutexes[k.m].waiting;
  }

  lemma {:induction false} HeadTimesOut(s: State, r: State, k: Cast)
    requires Rising(s, k) && Scene(s, r, k, s.tcbs[k.e].base, s.tcbs[k.d].base, [k.e, k.c, k.b], [k.d])
    ensures var q := Step(r, TimeOut(k.e));
            && Serves(r, TimeOut(k.e)) && !Serves(q, GiveUp(k.m))
            && Scene(s, Step(q, GiveUp(k.m)), k, s.tcbs[k.c].base, s.tcbs[k.d].base, [k.c, k.b], [k.d])
  {
    HeadLeaves(s, r, k);
    HeadLowers(s, Step(r, TimeOut(k.e)), k);
  }

  lemma {:induction false} FindFirst(w: seq<int>)
    requires w != []
    ensures Find(w, w[0]) == 0
  {
  }

  /** From any start with five tasks of rising priority and two mutexes: a run in which no holder is outranked up to
      the moment when a waiter gives up. Then h, which waits for nothing, holds m below b, which waits for it. */
  lemma {:induction false} GiveUpInverts(s: State, k: Cast)
    requires Rising(s, k)
    ensures AllServe(s, QueueRun(k) + [TimeOut(k.e)])
    ensures var r := Run(s, QueueRun(k) + [TimeOut(k.e), GiveUp(k.m)]);
            && {k.h, k.b} <= r.tcbs.Keys && k.m in r.mutexes && r.mutexes[k.m].holder == Some(k.h)
            && k.b in r.mutexes[k.m].waiting && r.tcbs[k.h].waitsFor.None?
            && r.tcbs[k.h].priority == s.tcbs[k.c].base < r.tcbs[k.b].priority == s.tcbs[k.d].base && !NoInversion(r)
  {
    var q := Run(s, QueueRun(k));
    QueueLeadsTo(s, k);
    HeadTimesOut(s, q, k);
    RunAppend(s, QueueRun(k), [TimeOut(k.e)]);
    RunAppend(s, QueueRun(k), [TimeOut(k.e), GiveUp(k.m)]);
    RunFirst(q, TimeOut(k.e), []);
    assert [TimeOut(k.e)] + [] == [TimeOut(k.e)];
    RunFirst(q, TimeOut(k.e), [GiveUp(k.m)]);
    assert [TimeOut(k.e)] + [GiveUp(k.m)] == [TimeOut(k.e), GiveUp(k.m)];
    RunOne(Step(q, TimeOut(k.e)), GiveUp(k.m));
    assert !ServedAt(Run(s, QueueRun(k) + [TimeOut(k.e), GiveUp(k.m)]), k.m, k.b);
  }

  /** And if h then gives m back, it goes to c, the head of the list, over the head of b, which is never woken. */
  lemma {:induction false} TakeInverts(s: State, k: Cast)
    requires Rising(s, k)
    ensures var r := Run(s, QueueRun(k) + [TimeOut(k.e), GiveUp(k.m)] + [Give(k.h, k.m), Take(k.c, k.m)]);
            && {k.b, k.c} <= r.tcbs.Keys && k.m in r.mutexes && r.mutexes[k.m].holder == Some(k.c)
            && r.mutexes[k.m].waiting == [k.b]
            && r.tcbs[k.c].priority == s.tcbs[k.c].base < r.tcbs[k.b].priority == s.tcbs[k.d].base && !NoInversion(r)
  {
    var run := QueueRun(k) + [TimeOut(k.e), GiveUp(k.m)];
    var q, p := Run(s, QueueRun(k)), Run(s, run);
    QueueLeadsTo(s, k);
    HeadTimesOut(s, q, k);
    RunAppend(s, QueueRun(k), [TimeOut(k.e), GiveUp(k.m)]);
    RunFirst(q, TimeOut(k.e), [GiveUp(k.m)]);
    assert [TimeOut(k.e)] + [GiveUp(k.m)] == [TimeOut(k.e), GiveUp(k.m)];
    RunOne(Step(q, TimeOut(k.e)), GiveUp(k.m));
    RunAppend(s, run, [Give(k.h, k.m), Take(k.c, k.m)]);
    RunFirst(p, Give(k.h, k.m), [Take(k.c, k.m)]);
    assert [Give(k.h, k.m)] + [Take(k.c, k.m)] == [Give(k.h, k.m), Take(k.c, k.m)];
    RunOne(Step(p, Give(k.h, k.m)), Take(k.c, k.m));
    PassesOver(s, p, k);
  }

  lemma {:induction false} PassesOver(s: State, p: State, k: Cast)
    requires Rising(s, k) && Scene(s, p, k, s.tcbs[k.c].base, s.tcbs[k.d].base, [k.c, k.b], [k.d])
    ensures var r := Step(Step(p, Give(k.h, k.m)), Take(k.c, k.m));
            && {k.b, k.c} <= r.tcbs.Keys && k.m in r.mutexes && r.mutexes[k.m].holder == Some(k.c)
            && r.mutexes[k.m].waiting == [k.b]
            && r.tcbs[k.c].priority == s.tcbs[k.c].base < r.tcbs[k.b].priority == s.tcbs[k.d].base && !NoInversion(r)
  {
    var f := Freed(p, k.h, k.m);
    assert f.mutexes[k.m].waiting == [k.c, k.b];
    FindFirst([k.c, k.b]);
    assert RemoveAt([k.c, k.b], 0) == [k.b];
    var q := Step(p, Give(k.h, k.m));
    assert q == GivenBack(p, k.h, k.m) && q.mutexes[k.m].waiting == [k.b] && q.mutexes[k.m].messages == 1;
    var r := Step(q, Take(k.c, k.m));
    assert k.b in r.mutexes[k.m].waiting;
    assert !ServedAt(r, k.m, k.b);
  }

  lemma {:induction false} FirstLeaves(s: State, m: int)
    requires m in s.mutexes && s.mutexes[m].waiting != [] && s.mutexes[m].waiting[0] in s.tcbs
    ensures var first := s.mutexes[m].waiting[0];
            WakeFirst(s, m) == State(s.tcbs[first := s.tcbs[first].(waitsFor := None)],
                                     s.mutexes[m := s.mutexes[m].(waiting := s.mutexes[m].waiting[1..])])
  {
    assert RemoveAt(s.mutexes[m].waiting, 0) == s.mutexes[m].waiting[1..];
  }

  /** The kernel's own code, working on the records of tasks and mutexes in place. */
  /** A holder of one mutex comes down to its base priority or that of the highest task that waits. */
  ghost predicate LoweredTo(tcbs: map<int, Tcb>, tcbs': map<int, Tcb>, holder: int, highest: nat) {
    holder in tcbs && tcbs[holder].base <= MAX_PRIORITIES && highest <= MAX_PRIORITIES
    && var c := tcbs[holder];
       var p := if highest > c.base then highest else c.base;
       tcbs' == if c.held != 1 || c.priority == p then tcbs
                else tcbs[holder := c.(priority := p, eventValue := if c.eventValue < IN_USE then MAX_PRIORITIES - p
                                                                    else c.eventValue)]
  }

  /** Task t stands in the list behind all tasks with event values up to its own from the front. */
  ghost predicate ListedBehind(w: seq<int>, w': seq<int>, tcbs: map<int, Tcb>, t: int) {
    exists k {:trigger InsertAt(w, k, t)} ::
      && 0 <= k <= |w| && w' == InsertAt(w, k, t) && t in tcbs
      && (forall i :: 0 <= i < k ==> w[i] in tcbs && tcbs[w[i]].eventValue <= tcbs[t].eventValue)
      && (k < |w| ==> w[k] in tcbs && tcbs[w[k]].eventValue > tcbs[t].eventValue)
  }

  lemma {:induction false} EnlistedBehind(s: State, w: seq<int>, t: int)
    requires t in s.tcbs && forall i :: 0 <= i < |w| ==> w[i] in s.tcbs
    ensures ListedBehind(w, InsertAt(w, Place(Values(s, w), EventValue(s, t)), t), s.tcbs, t)
  {
    var values, v := Values(s, w), EventValue(s, t);
    PlaceSplits(values, v);
    forall i | 0 <= i < |w| ensures values[i] == s.tcbs[w[i]].eventValue { }
  }

  lemma {:induction false} StepBlocks(s: State, t: int, m: int)
    requires Inv(s) && t in s.tcbs && s.tcbs[t].waitsFor.None? && s.tcbs[t].eventValue < IN_USE
    requires m in s.mutexes && s.mutexes[m].messages == 0 && (s.mutexes[m].recursive ==> s.mutexes[m].holder != Some(t))
    ensures Step(s, Block(t, m)) == BlockedOn(s, t, m) && Lends(s, BlockedOn(s, t, m), t, m)
    ensures MutexAt(s, m) && TcbAt(s, t)
    ensures forall i :: 0 <= i < |s.mutexes[m].waiting| ==> s.mutexes[m].waiting[i] in s.tcbs
  {
    assert MutexAt(s, m) && TcbAt(s, t);
    var w := s.mutexes[m].waiting;
    forall i | 0 <= i < |w| ensures w[i] in s.tcbs { assert WaitsAt(s, m, w[i]); }
    LendsTo(s, t, m);
  }

  /** What a task that blocks changes: its place in the event list, and the priority of the holder if that was lower. */
  ghost predicate Lends(s: State, r: State, t: int, m: int) {
    && m in s.mutexes && m in r.mutexes && r.mutexes == s.mutexes[m := s.mutexes[m].(waiting := r.mutexes[m].waiting)]
    && ListedBehind(s.mutexes[m].waiting, r.mutexes[m].waiting, r.tcbs, t)
    && r.tcbs.Keys == s.tcbs.Keys && t in s.tcbs && s.tcbs[t].priority < MAX_PRIORITIES
    && forall y :: y in s.tcbs ==>
         var c, p := s.tcbs[y], s.tcbs[t].priority;
         var lent := s.mutexes[m].holder == Some(y) && c.priority < p;
         r.tcbs[y] == c.(priority := if lent then p else c.priority,
                         eventValue := if lent && c.eventValue < IN_USE then MAX_PRIORITIES - p else c.eventValue,
                         waitsFor := if y == t then Some(m) else c.waitsFor)
  }

  lemma {:induction false} LendsTo(s: State, t: int, m: int)
    requires MutexAt(s, m) && TcbAt(s, t) && t in s.tcbs && m in s.mutexes
    requires forall i :: 0 <= i < |s.mutexes[m].waiting| ==> s.mutexes[m].waiting[i] in s.tcbs
    ensures Lends(s, BlockedOn(s, t, m), t, m)
  {
    hide ListedBehind;
    var h, w := s.mutexes[m].holder, s.mutexes[m].waiting;
    var i := if h.Some? && h.value in s.tcbs then Inherited(s, h.value, s.tcbs[t].priority) else s;
    EnlistedBehind(i, w, t);
    ListedStill(w, BlockedOn(s, t, m).mutexes[m].waiting, i.tcbs, BlockedOn(s, t, m).tcbs, t);
  }

  /** The place in the list depends on the event values only. */
  lemma {:induction false} ListedStill(w: seq<int>, w': seq<int>, tcbs: map<int, Tcb>, tcbs': map<int, Tcb>, t: int)
    requires ListedBehind(w, w', tcbs, t) && t in tcbs
    requires forall y :: y in tcbs ==> y in tcbs' && tcbs'[y].eventValue == tcbs[y].eventValue
    ensures ListedBehind(w, w', tcbs', t)
  {
    var k :| 0 <= k <= |w| && w' == InsertAt(w, k, t)
             && (forall i :: 0 <= i < k ==> w[i] in tcbs && tcbs[w[i]].eventValue <= tcbs[t].eventValue)
             && (k < |w| ==> w[k] in tcbs && tcbs[w[k]].eventValue > tcbs[t].eventValue);
    forall i | 0 <= i < k ensures w[i] in tcbs' && tcbs'[w[i]].eventValue <= tcbs'[t].eventValue {
      var y := w[i];
      assert y in tcbs;
    }
    if k < |w| {
      var y := w[k];
      assert y in tcbs;
    }
    assert t in tcbs && t in tcbs' && w' == InsertAt(w, k, t);
  }

  class Kernel {
    var tcbs: map<int, Tcb>
    var mutexes: map<int, Mutex>

    ghost function View(): State
      reads this
    {
      State(tcbs, mutexes)
    }

    method SetEventValue(t: int)
      requires t in tcbs && tcbs[t].priority <= MAX_PRIORITIES
      modifies this`tcbs
      ensures tcbs == old(tcbs)[t := old(tcbs)[t].(eventValue := MAX_PRIORITIES - old(tcbs)[t].priority)]
    {
      tcbs := tcbs[t := tcbs[t].(eventValue := MAX_PRIORITIES - tcbs[t].priority)];
    }

    /** xTaskPriorityInherit. The result says whether the holder runs at a priority lent to it by a task like this. */
    method PriorityInherit(holder: int, current: int) returns (inherited: bool)
      requires holder in tcbs && current in tcbs && tcbs[current].priority < MAX_PRIORITIES
      modifies this`tcbs
      ensures View() == Inherited(old(View()), holder, old(tcbs)[current].priority)
      ensures var c, p := old(tcbs)[holder], old(tcbs)[current].priority;
              tcbs == old(tcbs)[holder := c.(priority := if c.priority < p then p else c.priority,
                                             eventValue := if c.priority < p && c.eventValue < IN_USE
                                                           then MAX_PRIORITIES - p else c.eventValue)]
      ensures inherited <==> old(tcbs)[holder].priority < old(tcbs)[current].priority
                             || tcbs[holder].base < old(tcbs)[current].priority
    {
      inherited := false;
      var p := tcbs[current].priority;
      if tcbs[holder].priority < p {
        tcbs := tcbs[holder := tcbs[holder].(priority := p)];
        if tcbs[holder].eventValue < IN_USE {
          SetEventValue(holder);
        }
        inherited := true;
      } else if tcbs[holder].base < p {
        inherited := true;
      }
    }

    /** xTaskPriorityDisinherit. The result asks for a context switch. */
    method PriorityDisinherit(holder: int) returns (switch: bool)
      requires holder in tcbs && tcbs[holder].held > 0 && tcbs[holder].base < MAX_PRIORITIES
      modifies this`tcbs
      ensures View() == old(View()).(tcbs := old(tcbs)[holder := Disinherited(old(tcbs)[holder])])
      ensures var c := old(tcbs)[holder];
              tcbs == old(tcbs)[holder := c.(held := c.held - 1, priority := if c.held == 1 then c.base else c.priority,
                                             eventValue := if c.held == 1 && c.priority != c.base
                                                           then MAX_PRIORITIES - c.base else c.eventValue)]
      ensures switch <==> tcbs[holder].priority != old(tcbs)[holder].priority
    {
      switch := false;
      tcbs := tcbs[holder := tcbs[holder].(held := tcbs[holder].held - 1)];
      if tcbs[holder].priority != tcbs[holder].base {
        if tcbs[holder].held == 0 {
          tcbs := tcbs[holder := tcbs[holder].(priority := tcbs[holder].base)];
          SetEventValue(holder);
          switch := true;
        }
      }
    }

    /** vTaskPriorityDisinheritAfterTimeout. */
    method PriorityDisinheritAfterTimeout(holder: int, highestPriorityWaitingTask: nat)
      requires holder in tcbs && tcbs[holder].base < MAX_PRIORITIES && highestPriorityWaitingTask <= MAX_PRIORITIES
      modifies this`tcbs
      ensures View() == old(View()).(tcbs := old(tcbs)[holder :=
                                               LoweredAfterTimeout(old(tcbs)[holder], highestPriorityWaitingTask)])
      ensures LoweredTo(old(tcbs), tcbs, holder, highestPriorityWaitingTask)
    {
      var priorityToUse: nat;
      if tcbs[holder].base < highestPriorityWaitingTask {
        priorityToUse := highestPriorityWaitingTask;
      } else {
        priorityToUse := tcbs[holder].base;
      }
      if tcbs[holder].priority != priorityToUse {
        if tcbs[holder].held == 1 {
          tcbs := tcbs[holder := tcbs[holder].(priority := priorityToUse)];
          if tcbs[holder].eventValue < IN_USE {
            SetEventValue(holder);
          }
        }
      }
      assert tcbs == old(tcbs)[holder := LoweredAfterTimeout(old(tcbs)[holder], highestPriorityWaitingTask)];
    }

    /** The critical section at the top of xQueueSemaphoreTake, for a mutex, or the whole of
        xQueueTakeMutexRecursive as far as it does not block. */
    method TryTake(t: int, m: int) returns (ok: bool)
      requires Inv(View()) && t in tcbs && tcbs[t].waitsFor.None? && m in mutexes
      modifies this
      ensures View() == Step(old(View()), Take(t, m)) && (ok <==> Succeeds(old(View()), Take(t, m)))
      ensures ok <==> old(mutexes)[m].messages > 0 || (old(mutexes)[m].recursive && old(mutexes)[m].holder == Some(t))
      ensures var c, x := old(tcbs)[t], old(mutexes)[m];
              if !ok then tcbs == old(tcbs) && mutexes == old(mutexes)
              else
                && tcbs == old(tcbs)[t := c.(held := if x.holder == Some(t) then c.held else c.held + 1)]
                && mutexes == old(mutexes)[m := x.(messages := 0, holder := Some(t),
                                                   calls := if x.recursive then x.calls + 1 else 0)]
    {
      assert MutexAt(View(), m);
      ok := true;
      if mutexes[m].recursive && mutexes[m].holder == Some(t) {
        mutexes := mutexes[m := mutexes[m].(calls := mutexes[m].calls + 1)];
      } else if mutexes[m].messages > 0 {
        tcbs := tcbs[t := tcbs[t].(held := tcbs[t].held + 1)];
        mutexes := mutexes[m := mutexes[m].(messages := 0, holder := Some(t))];
        if mutexes[m].recursive {
          mutexes := mutexes[m := mutexes[m].(calls := mutexes[m].calls + 1)];
        }
      } else {
        ok := false;
      }
    }

    /** What xQueueSemaphoreTake does with the scheduler suspended, when the mutex is not free. */
    method Wait(t: int, m: int) returns (inheritanceOccurred: bool)
      requires Inv(View()) && t in tcbs && tcbs[t].waitsFor.None? && tcbs[t].eventValue < IN_USE
      requires m in mutexes && mutexes[m].messages == 0 && (mutexes[m].recursive ==> mutexes[m].holder != Some(t))
      modifies this
      ensures View() == Step(old(View()), Block(t, m))
      ensures Inv(View()) && mutexes[m].holder.Some? && mutexes[m].holder.value in tcbs
      ensures tcbs[t].priority <= tcbs[mutexes[m].holder.value].priority
      ensures Lends(old(View()), View(), t, m)
    {
      hide Step, Inv, Lends;
      BlockKeeps(View(), t, m);
      StepBlocks(View(), t, m);
      inheritanceOccurred := PriorityInherit(mutexes[m].holder.value, t);
      var w := mutexes[m].waiting;
      var k := Place(Values(State(tcbs, mutexes), w), tcbs[t].eventValue);
      mutexes := mutexes[m := mutexes[m].(waiting := InsertAt(w, k, t))];
      tcbs := tcbs[t := tcbs[t].(waitsFor := Some(m))];
      assert View() == BlockedOn(old(View()), t, m);
    }

    /** The end of xQueueSemaphoreTake for a task that timed out after it lent its priority. */
    method GiveUpWaiting(m: int)
      requires Inv(View()) && m in mutexes
      modifies this
      ensures View() == Step(old(View()), GiveUp(m)) && Inv(View()) && mutexes == old(mutexes)
      ensures var x := mutexes[m];
              if x.holder.None? then tcbs == old(tcbs)
              else
                && (x.waiting != [] ==> x.waiting[0] in tcbs && old(tcbs)[x.waiting[0]].eventValue <= MAX_PRIORITIES)
                && LoweredTo(old(tcbs), tcbs, x.holder.value,
                             if x.waiting == [] then IDLE_PRIORITY
                             else MAX_PRIORITIES - old(tcbs)[x.waiting[0]].eventValue)
    {
      assert MutexAt(View(), m);
      GiveUpKeeps(View(), m);
      if mutexes[m].holder.Some? {
        var highestWaitingPriority := IDLE_PRIORITY;
        assert TcbAt(View(), mutexes[m].holder.value);
        if mutexes[m].waiting != [] {
          assert WaitsAt(View(), m, mutexes[m].waiting[0]) && TcbAt(View(), mutexes[m].waiting[0]);
          highestWaitingPriority := MAX_PRIORITIES - tcbs[mutexes[m].waiting[0]].eventValue;
        }
        PriorityDisinheritAfterTimeout(mutexes[m].holder.value, highestWaitingPriority);
      }
    }

    /** xQueueGenericSend on a mutex, or xQueueGiveMutexRecursive. */
    method GiveMutex(t: int, m: int) returns (ok: bool)
      requires Inv(View()) && t in tcbs && tcbs[t].waitsFor.None? && tcbs[t].eventValue < IN_USE && m in mutexes
      requires !mutexes[m].recursive && mutexes[m].holder.Some? ==> mutexes[m].holder == Some(t)
      modifies this
      ensures View() == Step(old(View()), Give(t, m)) && (ok <==> Succeeds(old(View()), Give(t, m)))
      ensures ok <==> old(mutexes)[m].holder == Some(t)
      ensures tcbs.Keys == old(tcbs).Keys && old(tcbs)[t].base < MAX_PRIORITIES
      ensures var c, x := old(tcbs)[t], old(mutexes)[m];
              if !ok then tcbs == old(tcbs) && mutexes == old(mutexes)
              else if x.recursive && x.calls > 1 then
                tcbs == old(tcbs) && mutexes == old(mutexes)[m := x.(calls := x.calls - 1)]
              else
                && mutexes == old(mutexes)[m := x.(messages := 1, holder := None, calls := 0,
                                                   waiting := if x.waiting == [] then [] else x.waiting[1..])]
                && forall y :: y in tcbs ==>
                     var d := old(tcbs)[y];
                     tcbs[y] == if y == t then
                                  d.(held := d.held - 1, priority := if d.held == 1 then d.base else d.priority,
                                     eventValue := if d.held == 1 && d.priority != d.base
                                                   then MAX_PRIORITIES - d.base else d.eventValue)
                                else if x.waiting != [] && y == x.waiting[0] then d.(waitsFor := None)
                                else d
    {
      assert MutexAt(View(), m) && TcbAt(View(), t);
      if mutexes[m].holder != Some(t) {
        return false;
      }
      assert m in Held(View(), t);
      ok := true;
      if mutexes[m].recursive {
        mutexes := mutexes[m := mutexes[m].(calls := mutexes[m].calls - 1)];
      }
      if mutexes[m].calls == 0 {
        var switch := PriorityDisinherit(t);
        mutexes := mutexes[m := mutexes[m].(messages := 1, holder := None)];
        assert View() == Freed(old(View()), t, m);
        if mutexes[m].waiting != [] {
          var first := mutexes[m].waiting[0];
          assert WaitsAt(old(View()), m, first);
          mutexes := mutexes[m := mutexes[m].(waiting := mutexes[m].waiting[1..])];
          tcbs := tcbs[first := tcbs[first].(waitsFor := None)];
          FirstLeaves(Freed(old(View()), t, m), m);
        }
      }
    }
  }
}
