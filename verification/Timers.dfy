/**
 Software timers (lib/freertos/timers.c): two lists of expiry times in 32-bit ticks, swapped when the tick count
 wraps, and a command queue through which overdue auto-reload timers are started again.
 */
module Timers {
  import opened Ticks

  datatype Placement = ProcessNow | InCurrent | InOverflow

  /** The decision of `prvInsertTimerInActiveList`, on 32-bit numbers. */
  function Place(next: nat, now: nat, command: nat, period: nat): Placement
    requires next < WRAP && now < WRAP && command < WRAP
  {
    if next <= now then
      if Minus(now, command) >= period then ProcessNow else InOverflow
    else if now < command && next >= command then ProcessNow
    else InCurrent
  }

  /**
   In unbounded time: a command given at `c` and carried out at `n` finds its timer due exactly if `c + p` has been
   reached; otherwise the timer goes on the current list exactly if it expires before the tick count next wraps.
   */
  lemma PlacementIsExact(c: nat, n: nat, p: nat)
    requires c <= n < c + WRAP && 0 < p < WRAP
    ensures var place := Place((c + p) % WRAP, n % WRAP, c % WRAP, p);
            && (place == ProcessNow <==> c + p <= n)
            && (place == InCurrent <==> c + p > n && (c + p) / WRAP == n / WRAP)
            && (place == InOverflow <==> c + p > n && (c + p) / WRAP == n / WRAP + 1)
  {
  }

  /**
   However late the command is carried out, an expired timer is recognised if and only if the command is less than one
   wrap old, or its age modulo 2^32 still covers the period; otherwise it is filed as if it were to come.
   */
  lemma PlacementNeedsTheBound(c: nat, n: nat, p: nat)
    requires c <= n && 0 < p < WRAP
    ensures (Place((c + p) % WRAP, n % WRAP, c % WRAP, p) == ProcessNow <==> c + p <= n)
            <==> (n - c < WRAP || p <= (n - c) % WRAP)
  {
    var m := c + (n - c) % WRAP;
    SameTick(c, n);
    PlacementIsExact(c, m, p);
  }

  /** Such a timer: started at 0 for one tick and looked at 2^32 ticks later, it is filed on the current list. */
  lemma ForgottenTimerExists()
    ensures Place((0 + 1) % WRAP, WRAP % WRAP, 0 % WRAP, 1) == InCurrent && 0 + 1 <= WRAP
  {
  }

  /** One or more full wraps do not show in the tick count. */
  lemma SameTick(c: nat, n: nat)
    requires c <= n
    ensures (c + (n - c) % WRAP) % WRAP == n % WRAP
    ensures n - c >= WRAP ==> n - c != (n - c) % WRAP
  {
  }

  // ---------------------------------------------------------------------------------------------
  // One auto-reload timer over unbounded time

  /** The expiry values `prvSwitchTimerLists` calls the timer back for, before the value would wrap. */
  function Drained(v: nat, p: nat): (calls: seq<nat>)
    requires v < WRAP && p > 0
    ensures |calls| > 0
    decreases WRAP - v
  {
    [v] + if v + p < WRAP then Drained(v + p, p) else []
  }

  /** They are 1 + (2^32 - 1 - v) / p in number, p apart, and the next one would be in the next epoch. */
  lemma {:induction false} DrainedIsExact(v: nat, p: nat)
    requires v < WRAP && p > 0
    ensures |Drained(v, p)| == 1 + (WRAP - 1 - v) / p
    ensures forall i :: 0 <= i < |Drained(v, p)| ==> Drained(v, p)[i] == v + i * p < WRAP
    ensures Drained(v, p)[|Drained(v, p)| - 1] + p >= WRAP
    decreases WRAP - v
  {
    var calls := Drained(v, p);
    if v + p < WRAP {
      DrainedIsExact(v + p, p);
      OneLess(WRAP - 1 - v, p);
      forall i | 0 <= i < |calls| ensures calls[i] == v + i * p < WRAP {
        if i > 0 {
          assert calls[i] == Drained(v + p, p)[i - 1] == v + p + (i - 1) * p;
          Distribute(i - 1, p);
        }
      }
    } else {
      NoneLeft(WRAP - 1 - v, p);
    }
  }

  lemma Distribute(i: int, p: int)
    ensures (i + 1) * p == i * p + p
  {
  }

  lemma OneLess(a: nat, p: nat)
    requires 0 < p <= a
    ensures a / p == 1 + (a - p) / p
  {
    var q := (a - p) / p;
    Distribute(q, p);
    DivisionIsUnique(a, p, q + 1, (a - p) % p);
  }

  lemma DivisionIsUnique(a: int, p: int, q: int, r: int)
    requires a == q * p + r && 0 <= r < p
    ensures a / p == q
  {
    QuotientsAgree(p, q, r, a / p, a % p);
  }

  lemma QuotientsAgree(p: int, q: int, r: int, d: int, e: int)
    requires q * p + r == d * p + e && 0 <= r < p && 0 <= e < p
    ensures q == d
  {
    if d > q {
      Scaled(q + 1, d, p);
      Distribute(q, p);
    } else if d < q {
      Scaled(d + 1, q, p);
      Distribute(d, p);
    }
  }

  lemma Scaled(x: int, y: int, p: int)
    requires x <= y && 0 < p
    ensures x * p <= y * p
  {
  }

  lemma NoneLeft(a: nat, p: nat)
    requires a < p
    ensures a / p == 0
  {
  }

  /** Where the timer is kept: on a list with its expiry value, or in a queued start command. */
  datatype Home = Current(value: nat) | Overflow(value: nat) | Queued(command: nat)

  /** `now` is the unbounded time last sampled; the daemon sees it modulo 2^32.  `log` lists callbacks. */
  datatype AutoTimer = AutoTimer(period: nat, home: Home, now: nat, log: seq<nat>) {
    predicate InRange() {
      0 < period < WRAP && match home
                           case Current(v) => v < WRAP
                           case Overflow(v) => v < WRAP
                           case Queued(c) => c < WRAP
    }
  }

  datatype Step =
    | Sample(later: nat) // prvSampleTimeNow
    | Expire             // prvProcessExpiredTimer
    | Carry              // prvProcessReceivedCommands, one start command

  function Filed(next: nat, now: nat, command: nat, period: nat): (h: Home)
    requires next < WRAP && now < WRAP && command < WRAP
  {
    match Place(next, now, command, period)
    case ProcessNow => Queued(command)
    case InCurrent => Current(next)
    case InOverflow => Overflow(next)
  }

  /**
   Time is sampled at least once in every 2^32 ticks, and neither an expired timer nor a command is left alone that
   long; `started` is the time of the start command.
   */
  predicate CanStep(t: AutoTimer, started: nat, step: Step) {
    t.InRange() && match step
                   case Sample(later) =>
                     t.now <= later < t.now + WRAP
                     && (t.home.Current? ==> later < Due(started, t.period, |t.log|) + WRAP)
                     && (t.home.Queued? ==> later < Due(started, t.period, |t.log|) - t.period + WRAP)
                   case Expire => t.home.Current? && t.home.value <= t.now % WRAP
                   case Carry => t.home.Queued?
  }

  function Stepped(t: AutoTimer, step: Step): AutoTimer
    requires t.InRange()
    requires step.Expire? ==> t.home.Current?
    requires step.Carry? ==> t.home.Queued?
  {
    match step
    case Sample(later) =>
      if later % WRAP < t.now % WRAP then
        match t.home
        case Current(v) =>
          var calls := Drained(v, t.period);
          t.(now := later, log := t.log + calls, home := Queued(calls[|calls| - 1]))
        case Overflow(v) => t.(now := later, home := Current(v))
        case Queued(_) => t.(now := later)
      else t.(now := later)
    case Expire =>
      var v := t.home.value;
      t.(log := t.log + [v], home := Filed((v + t.period) % WRAP, t.now % WRAP, v, t.period))
    case Carry =>
      var c := t.home.command;
      var next := (c + t.period) % WRAP;
      if Place(next, t.now % WRAP, c, t.period) == ProcessNow
      then t.(log := t.log + [next], home := Queued(next))
      else t.(home := Filed(next, t.now % WRAP, c, t.period))
  }

  /** The expiry after `n` callbacks, in unbounded time. */
  function Due(started: nat, p: nat, n: nat): nat {
    started + (n + 1) * p
  }

  /** The 32-bit state stands for the unbounded expiry that is due next. */
  ghost predicate Keeps(t: AutoTimer, started: nat) {
    && t.InRange()
    && (forall k :: 0 <= k < |t.log| ==> t.log[k] == Due(started, t.period, k) % WRAP)
    && Holds(t.home, Due(started, t.period, |t.log|), t.period, t.now)
  }

  ghost predicate Holds(home: Home, due: nat, p: nat, now: nat) {
    due - p <= now && match home
                      case Current(v) => v == due % WRAP && due / WRAP == now / WRAP
                      case Overflow(v) => v == due % WRAP && due / WRAP == now / WRAP + 1
                      case Queued(c) => due - p >= 0 && now < due - p + WRAP && c == (due - p) % WRAP
  }

  lemma NextDue(started: nat, p: nat, n: nat)
    ensures Due(started, p, n + 1) == Due(started, p, n) + p
    ensures started + n * p + p == Due(started, p, n)
  {
    Distribute(n, p);
    Distribute(n + 1, p);
  }

  lemma FiledHolds(c: nat, n: nat, p: nat)
    requires c <= n < c + WRAP && 0 < p < WRAP
    ensures Holds(Filed((c + p) % WRAP, n % WRAP, c % WRAP, p), c + p, p, n)
  {
    PlacementIsExact(c, n, p);
  }

  lemma WrappedSum(c: nat, p: nat)
    ensures (c % WRAP + p) % WRAP == (c + p) % WRAP
  {
  }

  lemma ExpireKeeps(t: AutoTimer, started: nat)
    requires Keeps(t, started) && CanStep(t, started, Expire)
    ensures Keeps(Stepped(t, Expire), started)
  {
    hide Due, Place;
    var due := Due(started, t.period, |t.log|);
    NextDue(started, t.period, |t.log|);
    WrappedSum(due, t.period);
    FiledHolds(due, t.now, t.period);
  }

  /** A queued command is less than a wrap old and carries the expiry before the one due next. */
  lemma Commanded(t: AutoTimer, started: nat)
    requires Keeps(t, started) && t.home.Queued?
    ensures var c := Due(started, t.period, |t.log|) - t.period;
            && 0 <= c <= t.now < c + WRAP && t.home.command == c % WRAP
            && (t.home.command + t.period) % WRAP == (c + t.period) % WRAP
  {
    hide Due;
    NextDue(started, t.period, |t.log|);
    WrappedSum(Due(started, t.period, |t.log|) - t.period, t.period);
  }

  lemma CarryKeeps(t: AutoTimer, started: nat)
    requires Keeps(t, started) && CanStep(t, started, Carry)
    ensures Keeps(Stepped(t, Carry), started)
  {
    hide Place, Due;
    var p, due := t.period, Due(started, t.period, |t.log|);
    Commanded(t, started);
    NextDue(started, p, |t.log|);
    if Place(due % WRAP, t.now % WRAP, t.home.command, p) == ProcessNow {
      PlacementIsExact(due - p, t.now, p);
      assert Stepped(t, Carry) == t.(log := t.log + [due % WRAP], home := Queued(due % WRAP));
    } else {
      FiledHolds(due - p, t.now, p);
    }
  }

  lemma DueLater(started: nat, p: nat, n: nat, i: nat)
    ensures Due(started, p, n + i) == Due(started, p, n) + i * p
  {
    assert (n + 1 + i) * p == (n + 1) * p + i * p;
  }

  lemma NextEpoch(now: nat, later: nat)
    requires now <= later < now + WRAP
    ensures later / WRAP == if later % WRAP < now % WRAP then now / WRAP + 1 else now / WRAP
  {
  }

  lemma DrainedDue(v: nat, p: nat, started: nat, n: nat, i: nat)
    requires v < WRAP && p > 0 && v == Due(started, p, n) % WRAP && i < |Drained(v, p)|
    ensures Drained(v, p)[i] == Due(started, p, n + i) % WRAP
    ensures Due(started, p, n + i) < (Due(started, p, n) / WRAP + 1) * WRAP
  {
    hide Due, Drained;
    DrainedIsExact(v, p);
    DueLater(started, p, n, i);
    Scaled(0, i, p);
    InEpoch(Due(started, p, n), i * p);
  }

  lemma SwitchLog(t: AutoTimer, started: nat)
    requires Keeps(t, started) && t.home.Current?
    ensures var log := t.log + Drained(t.home.value, t.period);
            forall k :: 0 <= k < |log| ==> log[k] == Due(started, t.period, k) % WRAP
  {
    hide Due, Drained;
    var v, p, n := t.home.value, t.period, |t.log|;
    forall i | 0 <= i < |Drained(v, p)| ensures Drained(v, p)[i] == Due(started, p, n + i) % WRAP {
      DrainedDue(v, p, started, n, i);
    }
  }

  /** The restart command that the switch sends carries the last expiry it has served. */
  lemma SwitchHome(t: AutoTimer, started: nat)
    requires Keeps(t, started) && t.home.Current?
    ensures var calls := Drained(t.home.value, t.period); var due := Due(started, t.period, |t.log|);
            var next := Due(started, t.period, |t.log| + |calls|);
            && calls[|calls| - 1] == (next - t.period) % WRAP
            && due <= next - t.period < (t.now / WRAP + 1) * WRAP
  {
    hide Due, Drained;
    var v, p, n := t.home.value, t.period, |t.log|;
    var m := |Drained(v, p)|;
    DrainedDue(v, p, started, n, m - 1);
    DueLater(started, p, n, m - 1);
    NextDue(started, p, n + (m - 1));
    Scaled(0, m - 1, p);
  }

  lemma InEpoch(due: nat, further: nat)
    requires due % WRAP + further < WRAP
    ensures (due + further) % WRAP == due % WRAP + further
    ensures due + further < (due / WRAP + 1) * WRAP
  {
  }

  lemma EpochEnds(now: nat, later: nat)
    requires later / WRAP == now / WRAP + 1
    ensures (now / WRAP + 1) * WRAP <= later
  {
  }

  lemma SampleKeeps(t: AutoTimer, started: nat, later: nat)
    requires Keeps(t, started) && CanStep(t, started, Sample(later))
    ensures Keeps(Stepped(t, Sample(later)), started)
  {
    hide Due, Drained;
    NextEpoch(t.now, later);
    if later % WRAP < t.now % WRAP && t.home.Current? {
      SwitchLog(t, started);
      SwitchHome(t, started);
      EpochEnds(t.now, later);
    }
  }

  // ---------------------------------------------------------------------------------------------

  /** `t` is what a timer started at time `started` has become after these steps. */
  ghost predicate Reached(period: nat, started: nat, steps: seq<Step>, t: AutoTimer)
    decreases |steps|
  {
    if steps == [] then
      0 < period < WRAP && t == AutoTimer(period, Queued(started % WRAP), started, [])
    else
      var before, last := steps[..|steps| - 1], steps[|steps| - 1];
      exists s :: Reached(period, started, before, s) && Follows(s, started, last, t)
  }

  ghost predicate Follows(s: AutoTimer, started: nat, step: Step, t: AutoTimer) {
    CanStep(s, started, step) && t == Stepped(s, step)
  }

  /** No drift: the k-th callback is for the tick `started + (k + 1) * period`, none is skipped, none comes early. */
  lemma {:induction false} NoDrift(period: nat, started: nat, steps: seq<Step>, t: AutoTimer)
    requires Reached(period, started, steps, t)
    ensures t.period == period && Keeps(t, started)
    ensures forall k :: 0 <= k < |t.log| ==> t.log[k] == (started + (k + 1) * period) % WRAP
    ensures started + |t.log| * period <= t.now
    decreases |steps|
  {
    hide Stepped, CanStep;
    if steps == [] {
      FreshKeeps(t, started);
    } else {
      var before, last := steps[..|steps| - 1], steps[|steps| - 1];
      var s :| Reached(period, started, before, s) && Follows(s, started, last, t);
      NoDrift(period, started, before, s);
      StepKeeps(s, started, last);
      SamePeriod(s, started, last);
    }
    NextDue(started, period, |t.log|);
  }

  lemma FreshKeeps(t: AutoTimer, started: nat)
    requires 0 < t.period < WRAP && t == AutoTimer(t.period, Queued(started % WRAP), started, [])
    ensures Keeps(t, started)
  {
    NextDue(started, t.period, 0);
  }

  lemma StepKeeps(s: AutoTimer, started: nat, step: Step)
    requires Keeps(s, started) && CanStep(s, started, step)
    ensures Keeps(Stepped(s, step), started)
  {
    match step
    case Sample(later) => SampleKeeps(s, started, later);
    case Expire => ExpireKeeps(s, started);
    case Carry => CarryKeeps(s, started);
  }

  lemma SamePeriod(s: AutoTimer, started: nat, step: Step)
    requires CanStep(s, started, step)
    ensures Stepped(s, step).period == s.period
  {
  }

  /** Nothing left to process at this time. */
  predicate Served(t: AutoTimer) {
    match t.home
    case Current(v) => v > t.now % WRAP
    case Overflow(_) => true
    case Queued(_) => false
  }

  lemma NotYetDue(t: AutoTimer, started: nat)
    requires Keeps(t, started) && Served(t)
    ensures t.now < Due(started, t.period, |t.log|)
  {
    hide Due;
  }

  lemma FullPeriods(started: nat, p: nat, now: nat, n: nat)
    requires p > 0 && started + n * p <= now < Due(started, p, n)
    ensures started <= now && (now - started) / p == n
  {
    NextDue(started, p, n);
    Scaled(0, n, p);
    DivisionIsUnique(now - started, p, n, now - started - n * p);
  }

  /** Once the daemon has caught up, there has been one callback for every full period since the start. */
  lemma CaughtUp(period: nat, started: nat, steps: seq<Step>, t: AutoTimer)
    requires Reached(period, started, steps, t) && Served(t)
    ensures period > 0 && started <= t.now && |t.log| == (t.now - started) / period
  {
    hide Reached, Served, Holds, Due;
    NoDrift(period, started, steps, t);
    NotYetDue(t, started);
    FullPeriods(started, period, t.now, |t.log|);
  }
}
