/** Time sharing: tasks of one priority take turns by listGET_OWNER_OF_NEXT_ENTRY on their ready list.
    A ready list is seen as its items and the position of its index, 0 for the sentinel, k + 1 for item k. */
module RoundRobin {
  import opened Sequences

  datatype Ready<T> = Ready(items: seq<T>, at: nat)

  datatype Step<T> = Pick | Arrive(task: T) | Leave(task: T)

  ghost predicate Valid<T>(s: Ready<T>) {
    s.at <= |s.items| && NoDup(s.items)
  }

  /** The order of the next selections: from behind the index around to the index itself. */
  function Rotation<T>(s: Ready<T>): seq<T>
    requires s.at <= |s.items|
  {
    s.items[s.at..] + s.items[..s.at]
  }

  /** What the list operations do: NextEntry, InsertEnd and Remove. */
  function Next<T(==)>(s: Ready<T>, step: Step<T>): Ready<T>
    requires s.at <= |s.items|
  {
    match step
    case Pick => if s.items == [] then s else s.(at := if s.at < |s.items| then s.at + 1 else 1)
    case Arrive(t) =>
      if t in s.items then s
      else if s.at == 0 then Ready(InsertAt(s.items, |s.items|, t), 0)
      else Ready(InsertAt(s.items, s.at - 1, t), s.at + 1)
    case Leave(t) =>
      if t !in s.items then s
      else var k := Find(s.items, t);
           Ready(RemoveAt(s.items, k), if k < s.at then s.at - 1 else s.at)
  }

  function Chosen<T>(s: Ready<T>): T
    requires s.items != [] && s.at <= |s.items|
  {
    s.items[if s.at < |s.items| then s.at else 0]
  }

  /** How many tasks are selected before t. */
  function Rank<T(==)>(s: Ready<T>, t: T): nat
    requires s.at <= |s.items| && t in s.items
  {
    var k := Find(s.items, t);
    if k >= s.at then k - s.at else k + |s.items| - s.at
  }

  lemma RankIsPosition<T>(s: Ready<T>, t: T)
    requires Valid(s) && t in s.items
    ensures Rank(s, t) < |s.items| && Rotation(s)[Rank(s, t)] == t
    ensures s.items != [] ==> Chosen(s) == Rotation(s)[0]
  {
  }

  /** A selection takes the head of the rotation to its end. */
  lemma {:induction false} PickRotates<T>(s: Ready<T>)
    requires Valid(s) && s.items != []
    ensures Rotation(Next(s, Pick)) == Rotation(s)[1..] + [Chosen(s)]
  {
  }

  lemma {:induction false} PickRank<T>(s: Ready<T>, t: T)
    requires Valid(s) && t in s.items
    ensures Rank(Next(s, Pick), t) == if t == Chosen(s) then |s.items| - 1 else Rank(s, t) - 1
    ensures t != Chosen(s) ==> Rank(s, t) > 0
  {
    FindUnique(s.items, if s.at < |s.items| then s.at else 0);
  }

  /** t is the task at the index, normally the one that runs. */
  predicate AtIndex<T(==)>(s: Ready<T>, t: T)
    requires s.at <= |s.items|
  {
    s.at > 0 && s.items[s.at - 1] == t
  }

  /** An arrival leaves every rank as it is, except that of the task at the index. */
  lemma {:induction false} ArriveRank<T>(s: Ready<T>, x: T, t: T)
    requires Valid(s) && t in s.items && x !in s.items
    ensures Valid(Next(s, Arrive(x))) && t in Next(s, Arrive(x)).items
    ensures Rank(Next(s, Arrive(x)), t) == Rank(s, t) + if AtIndex(s, t) then 1 else 0
  {
    var k := if s.at == 0 then |s.items| else s.at - 1;
    var items' := InsertAt(s.items, k, x);
    InsertNoDup(s.items, k, x);
    var i := Find(s.items, t);
    var i' := if i < k then i else i + 1;
    assert items'[i'] == t;
    FindUnique(items', i');
    if s.at > 0 { assert Differ(s.items, i, s.at - 1); }
  }

  /** A departure never raises a rank. */
  lemma {:induction false} LeaveRank<T>(s: Ready<T>, x: T, t: T)
    requires Valid(s) && t in s.items && x in s.items && x != t
    ensures Valid(Next(s, Leave(x))) && t in Next(s, Leave(x)).items
    ensures Rank(Next(s, Leave(x)), t) == Rank(s, t) - if Rank(s, x) < Rank(s, t) then 1 else 0
  {
    var k, i := Find(s.items, x), Find(s.items, t);
    RemoveNoDup(s.items, k);
    var i' := if i < k then i else i - 1;
    assert RemoveAt(s.items, k)[i'] == t;
    FindUnique(RemoveAt(s.items, k), i');
  }

  /** A departure undoes an arrival, the place of the index included. */
  lemma {:induction false} LeaveUndoesArrive<T>(s: Ready<T>, x: T)
    requires Valid(s) && x !in s.items
    ensures Next(Next(s, Arrive(x)), Leave(x)) == s
  {
    var k := if s.at == 0 then |s.items| else s.at - 1;
    InsertNoDup(s.items, k, x);
    assert InsertAt(s.items, k, x)[k] == x;
    FindUnique(InsertAt(s.items, k, x), k);
    RemoveInserted(s.items, k, x);
  }

  // ----- runs -----

  ghost function Run<T>(s: Ready<T>, steps: seq<Step<T>>): Ready<T>
    requires s.at <= |s.items|
    ensures Run(s, steps).at <= |Run(s, steps).items|
    decreases |steps|
  {
    if steps == [] then s else Run(Next(s, steps[0]), steps[1..])
  }

  lemma {:induction false} RunAppend<T>(s: Ready<T>, a: seq<Step<T>>, b: seq<Step<T>>)
    requires s.at <= |s.items|
    ensures Run(s, a + b) == Run(Run(s, a), b)
    decreases |a|
  {
    if a == [] {
      assert a + b == b;
    } else {
      assert (a + b)[1..] == a[1..] + b;
      RunAppend(Next(s, a[0]), a[1..], b);
    }
  }

  /** Task t joins the ready list of its priority. */
  function JoinOne<T(==)>(ready: seq<Ready<T>>, priority: map<T, nat>, t: T): (r: seq<Ready<T>>)
    ensures |r| == |ready|
  {
    if t in priority && priority[t] < |ready| && ready[priority[t]].at <= |ready[priority[t]].items| then
      ready[priority[t] := Next(ready[priority[t]], Arrive(t))]
    else ready
  }

  /** The tasks join the ready lists one after the other. */
  function JoinAll<T(==)>(ready: seq<Ready<T>>, priority: map<T, nat>, tasks: seq<T>): (r: seq<Ready<T>>)
    ensures |r| == |ready|
    decreases |tasks|
  {
    if tasks == [] then ready
    else JoinOne(JoinAll(ready, priority, tasks[..|tasks| - 1]), priority, tasks[|tasks| - 1])
  }

  lemma {:induction false} JoinAllAppend<T>(ready: seq<Ready<T>>, priority: map<T, nat>, a: seq<T>, b: seq<T>)
    ensures JoinAll(ready, priority, a + b) == JoinAll(JoinAll(ready, priority, a), priority, b)
    decreases |b|
  {
    if b == [] {
      assert a + b == a;
    } else {
      assert (a + b)[..|a + b| - 1] == a + b[..|b| - 1];
      JoinAllAppend(ready, priority, a, b[..|b| - 1]);
    }
  }

  lemma JoinAllOne<T>(ready: seq<Ready<T>>, priority: map<T, nat>, t: T)
    ensures JoinAll(ready, priority, [t]) == JoinOne(ready, priority, t)
  {
    assert [t][..0] == [];
  }

  /** The arrivals among tasks of priority p, in order. */
  function Arrivals<T(==)>(tasks: seq<T>, priority: map<T, nat>, p: nat): seq<Step<T>>
    decreases |tasks|
  {
    if tasks == [] then []
    else
      var last := tasks[|tasks| - 1];
      Arrivals(tasks[..|tasks| - 1], priority, p)
      + if last in priority && priority[last] == p then [Arrive(last)] else []
  }

  /** What happens to the list of one priority is the run of the arrivals of that priority. */
  lemma {:induction false} JoinAllRuns<T>(ready: seq<Ready<T>>, priority: map<T, nat>, tasks: seq<T>, p: nat)
    requires p < |ready| && ready[p].at <= |ready[p].items|
    ensures JoinAll(ready, priority, tasks)[p] == Run(ready[p], Arrivals(tasks, priority, p))
    decreases |tasks|
  {
    if tasks != [] {
      var t, rest := tasks[|tasks| - 1], tasks[..|tasks| - 1];
      JoinAllRuns(ready, priority, rest, p);
      if t in priority && priority[t] == p {
        RunAppend(ready[p], Arrivals(rest, priority, p), [Arrive(t)]);
        assert [Arrive(t)][1..] == [];
      } else {
        assert Arrivals(tasks, priority, p) == Arrivals(rest, priority, p);
      }
    }
  }

  /** t stays in the list during the run and is never selected. */
  ghost predicate Waits<T>(s: Ready<T>, steps: seq<Step<T>>, t: T)
    requires s.at <= |s.items|
    decreases |steps|
  {
    && t in s.items
    && (steps != [] ==>
          && steps[0] != Leave(t)
          && !(steps[0].Pick? && Chosen(s) == t)
          && Waits(Next(s, steps[0]), steps[1..], t))
  }

  function Picks<T>(steps: seq<Step<T>>): nat {
    if steps == [] then 0 else (if steps[0].Pick? then 1 else 0) + Picks(steps[1..])
  }

  /** How often a task arrives while t is at the index. */
  ghost function Overtakings<T>(s: Ready<T>, steps: seq<Step<T>>, t: T): nat
    requires s.at <= |s.items|
    decreases |steps|
  {
    if steps == [] then 0
    else (if steps[0].Arrive? && steps[0].task !in s.items && AtIndex(s, t) then 1 else 0)
         + Overtakings(Next(s, steps[0]), steps[1..], t)
  }

  lemma {:induction false} StepValid<T>(s: Ready<T>, step: Step<T>)
    requires Valid(s)
    ensures Valid(Next(s, step))
  {
    match step
    case Pick =>
    case Arrive(x) => if x !in s.items { InsertNoDup(s.items, if s.at == 0 then |s.items| else s.at - 1, x); }
    case Leave(x) => if x in s.items { RemoveNoDup(s.items, Find(s.items, x)); }
  }

  /** A ready task is selected after as many other selections as its rank says, and one more for every task
      that arrived while it was at the index. */
  lemma {:induction false} WaitBound<T>(s: Ready<T>, steps: seq<Step<T>>, t: T)
    requires Valid(s) && Waits(s, steps, t)
    ensures Picks(steps) <= Rank(s, t) + Overtakings(s, steps, t)
    decreases |steps|
  {
    if steps != [] {
      StepValid(s, steps[0]);
      WaitBound(Next(s, steps[0]), steps[1..], t);
      match steps[0]
      case Pick => PickRank(s, t);
      case Arrive(x) => if x !in s.items { ArriveRank(s, x, t); }
      case Leave(x) => if x in s.items { LeaveRank(s, x, t); }
    }
  }

  /** Unless tasks arrive while it is at the index, a task waits for fewer selections than the list is long. */
  lemma {:induction false} FairShare<T>(s: Ready<T>, steps: seq<Step<T>>, t: T)
    requires Valid(s) && Waits(s, steps, t) && Overtakings(s, steps, t) == 0
    ensures Picks(steps) < |s.items|
  {
    WaitBound(s, steps, t);
    RankIsPosition(s, t);
  }
}
