/**
 Block-time budgets and periodic delays (lib/freertos/tasks.c): `xTaskCheckForTimeOut` and
 `vTaskDelayUntil` work on 32-bit ticks; here they are measured against an unbounded clock.
 */
module Timeouts {
  import opened Ticks

  /** `TimeOut_t` */
  datatype TimeOut = TimeOut(overflowCount: nat, timeOnEntering: nat) {
    ghost function Since(): nat { overflowCount * WRAP + timeOnEntering }
  }

  datatype Verdict = Expired | Waiting(since: nat, remaining: nat)

  /**
   The one case in which the tick arithmetic cannot see that the time is up: two wraps or more have
   gone by, the tick count is below the one noted, and the rest of the time is below the budget.
   */
  ghost predicate Missed(now: nat, since: nat, ticks: nat)
    requires since <= now
  {
    now / WRAP - since / WRAP >= 2 && now % WRAP < since % WRAP && (now - since) % WRAP < ticks
  }

  /** What a check at `now` answers, on the unbounded clock. */
  ghost function Check(now: nat, since: nat, ticks: nat): Verdict
    requires since <= now
  {
    if ticks == MAX_DELAY then Waiting(since, ticks)
    else if now - since >= ticks && !Missed(now, since, ticks) then Expired
    else Waiting(now, ticks - (now - since) % WRAP)
  }

  lemma ElapsedTicks(now: nat, since: nat)
    requires since <= now
    ensures Minus(now % WRAP, since % WRAP) == (now - since) % WRAP
    ensures now / WRAP == since / WRAP ==> now - since == now % WRAP - since % WRAP
    ensures now / WRAP == since / WRAP + 1 && now % WRAP < since % WRAP ==> now - since < WRAP
    ensures now / WRAP != since / WRAP && now % WRAP >= since % WRAP ==> now - since >= WRAP
  {
    var e, f, n, m := now / WRAP, since / WRAP, now % WRAP, since % WRAP;
    assert now == e * WRAP + n && since == f * WRAP + m;
    assert now - since == (e - f) * WRAP + (n - m);
  }

  lemma Halves(overflows: nat, ticks: nat)
    requires ticks < WRAP
    ensures (overflows * WRAP + ticks) / WRAP == overflows && (overflows * WRAP + ticks) % WRAP == ticks
  {
  }

  /** `xTaskCheckForTimeOut`, with delay abortion not configured. */
  method CheckForTimeOut(overflows: nat, tickCount: nat, timeOut: TimeOut, ticksToWait: nat)
    returns (expired: bool, timeOut': TimeOut, ticksToWait': nat)
    requires tickCount < WRAP && timeOut.timeOnEntering < WRAP && ticksToWait < WRAP
    requires timeOut.Since() <= overflows * WRAP + tickCount
    ensures timeOut'.timeOnEntering < WRAP && ticksToWait' < WRAP
    ensures Check(overflows * WRAP + tickCount, timeOut.Since(), ticksToWait)
            == if expired then Expired else Waiting(timeOut'.Since(), ticksToWait')
    ensures expired ==> timeOut' == timeOut
  {
    ElapsedTicks(overflows * WRAP + tickCount, timeOut.Since());
    Halves(overflows, tickCount);
    Halves(timeOut.overflowCount, timeOut.timeOnEntering);
    timeOut', ticksToWait' := timeOut, ticksToWait;
    var elapsed := Minus(tickCount, timeOut.timeOnEntering);
    if ticksToWait == MAX_DELAY {
      expired := false;
    } else if overflows != timeOut.overflowCount && tickCount >= timeOut.timeOnEntering {
      expired := true;
    } else if elapsed < ticksToWait {
      ticksToWait' := ticksToWait - elapsed;
      timeOut' := TimeOut(overflows, tickCount);
      expired := false;
    } else {
      ticksToWait' := 0;
      expired := true;
    }
  }

  // ---------------------------------------------------------------------------------------------
  // Budgets over any number of retries

  /** The checks of one blocking call, at the given times, until the first that reports a timeout. */
  ghost function Retries(times: seq<nat>, since: nat, ticks: nat): Verdict
    requires Ascending(times) && (times != [] ==> since <= times[0])
    decreases |times|
  {
    if times == [] then Waiting(since, ticks)
    else match Check(times[0], since, ticks)
      case Expired => Expired
      case Waiting(since', ticks') =>
        assert since' <= times[0];
        Retries(times[1..], since', ticks')
  }

  ghost predicate Ascending(times: seq<nat>) {
    forall i, j :: 0 <= i < j < |times| ==> times[i] <= times[j]
  }

  ghost function LastOf(times: seq<nat>, since: nat): nat {
    if times == [] then since else times[|times| - 1]
  }

  /** However the retries fall, no timeout is reported before the budget is used up. */
  lemma {:induction false} NeverEarly(times: seq<nat>, since: nat, ticks: nat)
    requires Ascending(times) && (times != [] ==> since <= times[0]) && ticks < WRAP
    requires Retries(times, since, ticks) == Expired
    ensures ticks != MAX_DELAY && times != [] && LastOf(times, since) - since >= ticks
    decreases |times|
  {
    if times != [] && Check(times[0], since, ticks).Waiting? {
      var w := Check(times[0], since, ticks);
      NeverEarly(times[1..], w.since, w.remaining);
    }
  }

  /** No call that is checked at least once in two wraps of the tick count misses anything. */
  ghost predicate Frequent(times: seq<nat>, since: nat) {
    && (times != [] ==> since <= times[0] && times[0] / WRAP - since / WRAP < 2)
    && (forall i :: 0 <= i < |times| - 1 ==> times[i] <= times[i + 1] && times[i + 1] / WRAP - times[i] / WRAP < 2)
  }

  /**
   With frequent checks the budget is exact: it is used up if and only if the original number of
   ticks has passed, and until then what remains is the original budget less the time elapsed.
   */
  lemma {:induction false} BudgetIsExact(times: seq<nat>, since: nat, ticks: nat)
    requires Ascending(times) && (times != [] ==> since <= times[0]) && ticks < MAX_DELAY
    requires Frequent(times, since)
    ensures var last := LastOf(times, since);
            Retries(times, since, ticks) ==
              if times != [] && last - since >= ticks then Expired else Waiting(last, ticks - (last - since))
    decreases |times|
  {
    if times != [] {
      assert LastOf(times, since) >= times[0];
      CheckIsExact(times[0], since, ticks);
      if Check(times[0], since, ticks).Waiting? {
        BudgetIsExact(times[1..], times[0], ticks - (times[0] - since));
      }
    }
  }

  lemma CheckIsExact(now: nat, since: nat, ticks: nat)
    requires since <= now && ticks < MAX_DELAY && now / WRAP - since / WRAP < 2
    ensures Check(now, since, ticks) == if now - since >= ticks then Expired else Waiting(now, ticks - (now - since))
  {
  }

  /** A single check is exact in every case but the one called Missed. */
  lemma ExactUnlessMissed(now: nat, since: nat, ticks: nat)
    requires since <= now && ticks < MAX_DELAY
    ensures (Check(now, since, ticks) == Expired <==> now - since >= ticks) <==> !Missed(now, since, ticks)
  {
    if Missed(now, since, ticks) {
      ElapsedTicks(now, since);
      assert now - since >= WRAP by {
        assert now == (now / WRAP) * WRAP + now % WRAP && since == (since / WRAP) * WRAP + since % WRAP;
      }
    }
  }

  /**
   The missed case exists: a wait of two ticks begun one tick before a wrap and first checked at the
   wrap after that one is still reported as waiting.
   */
  lemma MissedExists()
    ensures Missed(2 * WRAP, WRAP - 1, 2) && Check(2 * WRAP, WRAP - 1, 2) == Waiting(2 * WRAP, 1)
  {
  }

  /** A budget of `portMAX_DELAY` never expires. */
  lemma {:induction false} ForeverNeverExpires(times: seq<nat>, since: nat)
    requires Ascending(times) && (times != [] ==> since <= times[0])
    ensures Retries(times, since, MAX_DELAY) == Waiting(since, MAX_DELAY)
    decreases |times|
  {
    if times != [] {
      ForeverNeverExpires(times[1..], since);
    }
  }

  // ---------------------------------------------------------------------------------------------
  // Periodic delays

  /** The case analysis of `vTaskDelayUntil`, on 32-bit numbers. */
  predicate Blocks(previousWake: nat, increment: nat, tickCount: nat) {
    var timeToWake := (previousWake + increment) % WRAP;
    if tickCount < previousWake then timeToWake < previousWake && timeToWake > tickCount
    else timeToWake < previousWake || timeToWake > tickCount
  }

  /** In unbounded time it compares the increment with the time gone by, modulo 2^32. */
  lemma BlocksModulo(previous: nat, increment: nat, now: nat)
    requires previous <= now && 0 < increment < WRAP
    ensures Blocks(previous % WRAP, increment, now % WRAP) <==> increment > (now - previous) % WRAP
  {
    ElapsedTicks(now, previous);
  }

  /**
   `vTaskDelayUntil` up to the call that blocks.  `previous` and `now` are the unbounded times that
   `previousWake` and `tickCount` are the low 32 bits of.
   */
  method DelayUntil(previousWake: nat, increment: nat, tickCount: nat, ghost previous: nat, ghost now: nat)
    returns (shouldDelay: bool, newWake: nat, ticks: nat)
    requires 0 < increment < WRAP
    requires previous <= now && previous % WRAP == previousWake && now % WRAP == tickCount
    ensures newWake == (previous + increment) % WRAP
    ensures shouldDelay == Blocks(previousWake, increment, tickCount)
    ensures shouldDelay <==> increment > (now - previous) % WRAP
    ensures shouldDelay ==> ticks == increment - (now - previous) % WRAP
  {
    ElapsedTicks(now, previous);
    BlocksModulo(previous, increment, now);
    var timeToWake := (previousWake + increment) % WRAP;
    shouldDelay := false;
    if tickCount < previousWake {
      if timeToWake < previousWake && timeToWake > tickCount {
        shouldDelay := true;
      }
    } else {
      if timeToWake < previousWake || timeToWake > tickCount {
        shouldDelay := true;
      }
    }
    newWake := timeToWake;
    ticks := 0;
    if shouldDelay {
      ticks := Minus(timeToWake, tickCount);
    }
  }

  /**
   The case analysis on wrapped numbers is right, for a task that is less than one wrap late: it
   blocks if and only if its next period has not begun, and for exactly the rest of the time.  A
   task later than that is handled rightly if and only if it does not block.
   */
  lemma DelayUntilIsRight(previous: nat, increment: nat, now: nat)
    requires previous <= now && 0 < increment < WRAP
    ensures (Blocks(previous % WRAP, increment, now % WRAP) <==> previous + increment > now)
            <==> (now - previous < WRAP || increment <= (now - previous) % WRAP)
    ensures now - previous < WRAP && previous + increment > now ==>
              now + (increment - (now - previous) % WRAP) == previous + increment
  {
    BlocksModulo(previous, increment, now);
  }

  /** A task due at 1 that calls at 2^32 blocks for one more tick, though its period began 2^32 - 1 ticks ago. */
  lemma LateBlockExists()
    ensures Blocks(0 % WRAP, 1, WRAP % WRAP) && 0 + 1 <= WRAP
  {
  }

  lemma SumMod(a: nat, b: nat, sum: nat)
    requires sum == a + b
    ensures (a % WRAP + b) % WRAP == sum % WRAP
  {
  }

  lemma OneMore(increment: nat, k: int)
    ensures (k - 1) * increment + increment == k * increment
  {
  }

  ghost function WakeAfter(start: nat, increment: nat, k: nat): nat {
    if k == 0 then start % WRAP else (WakeAfter(start, increment, k - 1) + increment) % WRAP
  }

  /** After any number of calls the stored wake time is the start plus that many periods: no drift. */
  lemma {:induction false} NoDrift(start: nat, increment: nat, k: nat)
    ensures WakeAfter(start, increment, k) == (start + k * increment) % WRAP
  {
    if k > 0 {
      NoDrift(start, increment, k - 1);
      OneMore(increment, k);
      SumMod(start + (k - 1) * increment, increment, start + k * increment);
    }
  }
}
