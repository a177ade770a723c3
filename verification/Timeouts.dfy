/** Time-outs and periodic delays, which compare wrapped tick counts, against a clock that never wraps. */
module Timeouts {
  import opened Config

  function Tick(clock: nat): nat {
    clock % TICKS
  }

  function Overflows(clock: nat): nat {
    clock / TICKS
  }

  /** The difference of two tick counts, in 32-bit arithmetic. */
  function Minus(a: nat, b: nat): (d: nat)
    requires a < TICKS && b < TICKS
  {
    if a >= b then a - b else a + TICKS - b
  }

  lemma Split(clock: nat)
    ensures clock == Overflows(clock) * TICKS + Tick(clock) && Tick(clock) < TICKS
  {
  }

  /** A TimeOut_t and the ticks still to wait, as a blocking call keeps them. */
  class TimeOut {
    var overflowCount: nat
    var timeOnEntering: nat
    var ticksToWait: nat
    ghost var entered: nat

    ghost predicate Valid()
      reads this
    {
      ticksToWait < TICKS && overflowCount == Overflows(entered) && timeOnEntering == Tick(entered)
    }

    /** vTaskSetTimeOutState. */
    constructor (ticks: nat, numOfOverflows: nat, tickCount: nat, ghost now: nat)
      requires ticks < TICKS && numOfOverflows == Overflows(now) && tickCount == Tick(now)
      ensures Valid() && ticksToWait == ticks && entered == now
    {
      overflowCount, timeOnEntering, ticksToWait, entered := numOfOverflows, tickCount, ticks, now;
    }

    /** xTaskCheckForTimeOut. */
    method Check(numOfOverflows: nat, tickCount: nat, ghost now: nat) returns (timedOut: bool)
      requires Valid() && now >= entered && numOfOverflows == Overflows(now) && tickCount == Tick(now)
      modifies this
      ensures Valid()
      ensures timedOut == TimedOut(old(ticksToWait), old(entered), now)
      ensures old(ticksToWait) == MAX_DELAY || timedOut ==> entered == old(entered)
      ensures old(ticksToWait) != MAX_DELAY && !timedOut ==> entered == now
      ensures !timedOut && old(ticksToWait) != MAX_DELAY && !Missed(old(ticksToWait), old(entered), now) ==>
                ticksToWait == old(ticksToWait) - (now - old(entered)) && ticksToWait > 0
      ensures old(ticksToWait) == MAX_DELAY ==> ticksToWait == MAX_DELAY
      ensures var lap := Minus(Tick(now), Tick(old(entered)));
              && (!timedOut && old(ticksToWait) != MAX_DELAY ==> lap < old(ticksToWait) == ticksToWait + lap)
              && (timedOut ==> ticksToWait == if Overflows(now) != Overflows(old(entered))
                                                 && Tick(now) >= Tick(old(entered)) then old(ticksToWait) else 0)
    {
      Split(now);
      Split(entered);
      var elapsed := Minus(tickCount, timeOnEntering);
      if ticksToWait == MAX_DELAY {
        timedOut := false;
      } else if numOfOverflows != overflowCount && tickCount >= timeOnEntering {
        timedOut := true;
      } else if elapsed < ticksToWait {
        ElapsedTime(entered, now);
        ticksToWait := ticksToWait - elapsed;
        overflowCount, timeOnEntering, entered := numOfOverflows, tickCount, now;
        timedOut := false;
      } else {
        ticksToWait := 0;
        timedOut := true;
      }
    }
  }

  /** What xTaskCheckForTimeOut answers, told by the clock. */
  ghost predicate TimedOut(wait: nat, entered: nat, now: nat) {
    && wait != MAX_DELAY
    && ((Overflows(now) != Overflows(entered) && Tick(now) >= Tick(entered)) || Minus(Tick(now), Tick(entered)) >= wait)
  }

  /** The tick count wrapped more than once and came to lie below the entry time again,
      by so much that the wrapped difference is less than the time to wait. */
  ghost predicate Missed(wait: nat, entered: nat, now: nat) {
    && Overflows(now) > Overflows(entered) + 1 && Tick(now) < Tick(entered)
    && Minus(Tick(now), Tick(entered)) < wait
  }

  /** The wrapped difference is the elapsed time, less full turns of the counter. */
  lemma {:induction false} ElapsedTime(entered: nat, now: nat)
    requires entered <= now
    ensures var d := Minus(Tick(now), Tick(entered));
            var turns := Overflows(now) - Overflows(entered) - (if Tick(now) < Tick(entered) then 1 else 0);
            turns >= 0 && now - entered == turns * TICKS + d && d < TICKS
  {
    Split(now);
    Split(entered);
  }

  /** The answer is right for a finite wait exactly when the time-out is not missed by two wraps. */
  lemma {:induction false} CheckExact(wait: nat, entered: nat, now: nat)
    requires wait < MAX_DELAY && entered <= now
    ensures (TimedOut(wait, entered, now) <==> now - entered >= wait) <==> !Missed(wait, entered, now)
  {
    ElapsedTime(entered, now);
  }

  /** In particular it is right while the counter has wrapped at most once since the entry time. */
  lemma {:induction false} OneWrapExact(wait: nat, entered: nat, now: nat)
    requires wait < MAX_DELAY && entered <= now && Overflows(now) <= Overflows(entered) + 1
    ensures TimedOut(wait, entered, now) <==> now - entered >= wait
  {
    CheckExact(wait, entered, now);
  }

  /** A wait of 2^32 - 2 ticks from tick 5 on, first checked at tick 1 two wraps later, is taken for not over. */
  lemma {:induction false} MissedExample()
    ensures 2 * TICKS + 1 - 5 >= TICKS - 2 && !TimedOut(TICKS - 2, 5, 2 * TICKS + 1)
    ensures Missed(TICKS - 2, 5, 2 * TICKS + 1)
  {
    ElapsedTime(5, 2 * TICKS + 1);
    assert Overflows(2 * TICKS + 1) == 2 && Tick(2 * TICKS + 1) == 1;
  }

  // ----- over the retries of a blocking call -----

  /** The times at which a call checks again, each after at most one wrap. */
  ghost predicate Retries(entered: nat, times: seq<nat>)
    decreases |times|
  {
    times == [] ||
    (entered <= times[0] && Overflows(times[0]) <= Overflows(entered) + 1 && Retries(times[0], times[1..]))
  }

  /** What is left to wait after checks that all said that the time is not over. */
  ghost function Left(wait: nat, entered: nat, times: seq<nat>): int
    decreases |times|
  {
    if times == [] then wait
    else if TimedOut(wait, entered, times[0]) || times[0] < entered || times[0] - entered > wait then -1
    else Left(wait - (times[0] - entered), times[0], times[1..])
  }

  function Last(entered: nat, times: seq<nat>): nat {
    if times == [] then entered else times[|times| - 1]
  }

  /** However often the call retries, the time left and the time elapsed add up to the original budget,
      and a check says that the time is over exactly when the budget is used up. */
  lemma {:induction false} BudgetKept(wait: nat, entered: nat, times: seq<nat>, now: nat)
    requires 0 < wait < MAX_DELAY && Retries(entered, times) && Left(wait, entered, times) >= 0
    requires Last(entered, times) <= now && Overflows(now) <= Overflows(Last(entered, times)) + 1
    ensures entered <= Last(entered, times)
    ensures Left(wait, entered, times) + (Last(entered, times) - entered) == wait
    ensures TimedOut(Left(wait, entered, times), Last(entered, times), now) <==> now - entered >= wait
    decreases |times|
  {
    if times == [] {
      OneWrapExact(wait, entered, now);
    } else {
      OneWrapExact(wait, entered, times[0]);
      assert Last(times[0], times[1..]) == Last(entered, times);
      BudgetKept(wait - (times[0] - entered), times[0], times[1..], now);
    }
  }

  // ----- vTaskDelayUntil -----

  /** The decision of vTaskDelayUntil and the ticks it then blocks for. */
  method DelayUntil(previousWakeTime: nat, increment: nat, tickCount: nat, ghost previous: nat, ghost now: nat)
    returns (timeToWake: nat, shouldDelay: bool, ticks: nat)
    requires 0 < increment < TICKS && previousWakeTime == Tick(previous) && tickCount == Tick(now) && previous <= now
    ensures timeToWake == Tick(previous + increment)
    ensures shouldDelay <==> increment > Minus(Tick(now), Tick(previous))
    ensures ticks == if shouldDelay then Minus(timeToWake, tickCount) else 0
    ensures shouldDelay && now - previous < TICKS ==> previous + increment > now && ticks == previous + increment - now
  {
    ElapsedTime(previous, now);
    Split(previous);
    Split(now);
    timeToWake := (previousWakeTime + increment) % TICKS;
    WakeTick(previous, increment);
    shouldDelay := false;
    if tickCount < previousWakeTime {
      if timeToWake < previousWakeTime && timeToWake > tickCount {
        shouldDelay := true;
      }
    } else {
      if timeToWake < previousWakeTime || timeToWake > tickCount {
        shouldDelay := true;
      }
    }
    ticks := 0;
    if shouldDelay {
      ticks := Minus(timeToWake, tickCount);
    }
  }

  lemma {:induction false} WakeTick(previous: nat, increment: nat)
    requires 0 < increment < TICKS
    ensures var p := Tick(previous);
            && Tick(previous + increment) == (p + increment) % TICKS
            && (p + increment) % TICKS == if p + increment < TICKS then p + increment else p + increment - TICKS
  {
  }

  /** vTaskDelayUntil delays exactly when the next wake time is still to come, if and only if fewer than 2^32
      ticks have passed since the last one or the increment is not more than what is left of the last turn. */
  lemma {:induction false} DelayUntilExact(previous: nat, increment: nat, now: nat)
    requires 0 < increment < TICKS && previous <= now
    ensures var d := Minus(Tick(now), Tick(previous));
            (increment > d <==> previous + increment > now) <==> (now - previous < TICKS || increment <= d)
  {
    ElapsedTime(previous, now);
  }

  /** Called again a full count late, a task waits although its wake time is over. */
  lemma {:induction false} DelayUntilLate(previous: nat, increment: nat, late: nat)
    requires late < increment < TICKS
    ensures var now := previous + TICKS + late;
            increment > Minus(Tick(now), Tick(previous)) && previous + increment <= now
  {
    ElapsedTime(previous, previous + TICKS + late);
  }
}
