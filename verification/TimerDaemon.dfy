/**
 The timer daemon of lib/freertos/timers.c on its lists and its command queue, which is taken to have room.
 Callbacks are recorded with the expiry they are made for; they do not change timers themselves.
 */
module TimerDaemon {
  import opened ListSpec
  import opened ItemTable
  import opened Ticks
  import opened Timers

  type Timer = nat

  datatype Command =
    | Start(timer: Timer, value: nat)         // start, reset, and restart by the daemon itself
    | Stop(timer: Timer)                      // and delete, as far as the lists go
    | ChangePeriod(timer: Timer, period: nat)

  /** A list in order of expiry. */
  ghost predicate Ordered(list: seq<Timer>, expiry: map<Timer, nat>) {
    NoDup(list) && (forall x <- list :: x in expiry && expiry[x] < WRAP) && Sorted(ValuesOf(list, expiry))
  }

  /** `vListInsert` */
  function Inserted(list: seq<Timer>, expiry: map<Timer, nat>, x: Timer): seq<Timer>
    requires x in expiry && forall y <- list :: y in expiry
  {
    InsertAt(list, InsertPos(ValuesOf(list, expiry), expiry[x]), x)
  }

  lemma InsertedOrdered(list: seq<Timer>, before: map<Timer, nat>, expiry: map<Timer, nat>, x: Timer)
    requires Ordered(list, before) && x !in list && x in expiry && expiry[x] < WRAP
    requires forall y <- list :: y in expiry && expiry[y] == before[y]
    ensures Ordered(Inserted(list, expiry, x), expiry)
    ensures forall y :: y in Inserted(list, expiry, x) <==> y in list || y == x
    ensures |Inserted(list, expiry, x)| == |list| + 1
  {
    hide NoDup, Sorted, InsertPos;
    assert ValuesOf(list, expiry) == ValuesOf(list, before);
    InsertKeepsSorted(ValuesOf(list, expiry), expiry[x]);
    var p := InsertPos(ValuesOf(list, expiry), expiry[x]);
    InsertMembers(list, p, x);
    ValuesInserted(list, p, x, expiry);
  }

  lemma TailOrdered(list: seq<Timer>, expiry: map<Timer, nat>)
    requires Ordered(list, expiry) && list != []
    ensures Ordered(list[1..], expiry) && list[0] !in list[1..]
    ensures forall y <- list :: expiry[list[0]] <= expiry[y]
  {
    var values := ValuesOf(list, expiry);
    assert ValuesOf(list[1..], expiry) == values[1..];
    forall y <- list ensures expiry[list[0]] <= expiry[y] {
      var i :| 0 <= i < |list| && list[i] == y;
      assert values[0] <= values[i];
    }
  }

  /** What is left to happen on a list before the tick count wraps: one tick at least for every entry. */
  ghost function TicksLeft(list: seq<Timer>, expiry: map<Timer, nat>): nat
    requires forall x <- list :: x in expiry && expiry[x] < WRAP
  {
    if list == [] then 0 else WRAP - expiry[list[0]] + TicksLeft(list[1..], expiry)
  }

  lemma {:induction false} LeftAppend(a: seq<Timer>, b: seq<Timer>, expiry: map<Timer, nat>)
    requires forall x <- a + b :: x in expiry && expiry[x] < WRAP
    ensures forall x <- a :: x in a + b
    ensures forall x <- b :: x in a + b
    ensures TicksLeft(a + b, expiry) == TicksLeft(a, expiry) + TicksLeft(b, expiry)
  {
    forall x <- a ensures x in a + b {
    }
    forall x <- b ensures x in a + b {
    }
    if a != [] {
      assert a + b == [a[0]] + (a[1..] + b);
      LeftAppend(a[1..], b, expiry);
    } else {
      assert a + b == b;
    }
  }

  lemma {:induction false} LeftSame(a: seq<Timer>, before: map<Timer, nat>, expiry: map<Timer, nat>)
    requires forall x <- a :: x in before && before[x] < WRAP && x in expiry && expiry[x] == before[x]
    ensures TicksLeft(a, expiry) == TicksLeft(a, before)
  {
    if a != [] {
      LeftSame(a[1..], before, expiry);
    }
  }

  lemma LeftInserted(list: seq<Timer>, expiry: map<Timer, nat>, p: nat, x: Timer)
    requires p <= |list| && (forall y <- list :: y in expiry && expiry[y] < WRAP) && x in expiry && expiry[x] < WRAP
    ensures forall y <- InsertAt(list, p, x) :: y in expiry && expiry[y] < WRAP
    ensures TicksLeft(InsertAt(list, p, x), expiry) == TicksLeft(list, expiry) + WRAP - expiry[x]
  {
    hide TicksLeft;
    InsertMembers(list, p, x);
    LeftAppend(list[..p] + [x], list[p..], expiry);
    LeftAppend(list[..p], [x], expiry);
    LeftAppend(list[..p], list[p..], expiry);
    assert list == list[..p] + list[p..];
    LeftOne(x, expiry);
  }

  lemma LeftOne(x: Timer, expiry: map<Timer, nat>)
    requires x in expiry && expiry[x] < WRAP
    ensures TicksLeft([x], expiry) == WRAP - expiry[x]
  {
  }

  /** The expiries one timer has been called back for. */
  ghost function CallsFor(log: seq<(Timer, nat)>, x: Timer): seq<nat> {
    if log == [] then []
    else CallsFor(log[..|log| - 1], x) + if log[|log| - 1].0 == x then [log[|log| - 1].1] else []
  }

  ghost function StartsFor(commands: seq<Command>, x: Timer): seq<nat> {
    if commands == [] then []
    else
      var last := commands[|commands| - 1];
      StartsFor(commands[..|commands| - 1], x) + if last.Start? && last.timer == x then [last.value] else []
  }

  lemma OneMoreCall(log: seq<(Timer, nat)>, y: Timer, v: nat, x: Timer)
    ensures CallsFor(log + [(y, v)], x) == CallsFor(log, x) + if x == y then [v] else []
  {
    assert (log + [(y, v)])[..|log|] == log;
  }

  lemma OneMoreStart(commands: seq<Command>, y: Timer, v: nat, x: Timer)
    ensures StartsFor(commands + [Start(y, v)], x) == StartsFor(commands, x) + if x == y then [v] else []
  {
    assert (commands + [Start(y, v)])[..|commands|] == commands;
  }

  /** The active timers of one list, with what is known of them. */
  datatype Pending = Pending(list: seq<Timer>, expiry: map<Timer, nat>, period: map<Timer, nat>, autoReload: set<Timer>) {
    ghost predicate Valid() {
      Ordered(list, expiry) && expiry.Keys == period.Keys && forall x <- period :: 0 < period[x] < WRAP
    }

    /** All expiries of `x` before the tick count wraps. */
    ghost function Expiries(x: Timer): seq<nat>
      requires Valid()
    {
      if x !in list then []
      else if x in autoReload then Drained(expiry[x], period[x]) else [expiry[x]]
    }

    /** The restart that `x` needs once the tick count has wrapped: from its last expiry before. */
    ghost function Restart(x: Timer): seq<nat>
      requires Valid()
    {
      if x in list && x in autoReload then [Expiries(x)[|Expiries(x)| - 1]] else []
    }

    ghost function Left(): nat
      requires Valid()
    {
      TicksLeft(list, expiry)
    }

    /** Its first timer has expired and is put back. */
    function Again(): Pending
      requires list != [] && list[0] in expiry && list[0] in period
      requires forall y <- list :: y in expiry
    {
      var x := list[0];
      var expiry' := expiry[x := (expiry[x] + period[x]) % WRAP];
      this.(expiry := expiry', list := Inserted(list[1..], expiry', x))
    }
  }

  lemma AgainStep(a: Pending)
    requires a.Valid() && a.list != [] && a.list[0] in a.autoReload && a.expiry[a.list[0]] + a.period[a.list[0]] < WRAP
    ensures a.Again().Valid() && a.Again().Left() < a.Left()
    ensures forall y :: y in a.Again().list <==> y in a.list
    ensures forall y <- a.expiry :: y != a.list[0] ==> a.Again().expiry[y] == a.expiry[y]
  {
    hide Ordered, Inserted, TicksLeft;
    FirstKnown(a);
    TailOrdered(a.list, a.expiry);
    InsertedOrdered(a.list[1..], a.expiry, a.Again().expiry, a.list[0]);
    LessLeft(a.list, a.expiry, a.Again().expiry);
  }

  lemma LessLeft(list: seq<Timer>, expiry: map<Timer, nat>, later: map<Timer, nat>)
    requires list != [] && (forall y <- list :: y in expiry && expiry[y] < WRAP && y in later && later[y] < WRAP)
    requires expiry[list[0]] < later[list[0]]
    requires forall y <- list[1..] :: later[y] == expiry[y]
    ensures forall y <- Inserted(list[1..], later, list[0]) :: y in later && later[y] < WRAP
    ensures TicksLeft(Inserted(list[1..], later, list[0]), later) < TicksLeft(list, expiry)
  {
    hide InsertPos, ValuesOf;
    LeftSame(list[1..], expiry, later);
    LeftInserted(list[1..], later, InsertPos(ValuesOf(list[1..], later), later[list[0]]), list[0]);
  }

  lemma AgainExpiries(a: Pending, y: Timer)
    requires a.Valid() && a.list != [] && a.list[0] in a.autoReload && a.expiry[a.list[0]] + a.period[a.list[0]] < WRAP
    ensures a.Again().Valid()
    ensures a.Expiries(y) == (if y == a.list[0] then [a.expiry[y]] else []) + a.Again().Expiries(y)
    ensures a.Restart(y) == a.Again().Restart(y)
  {
    hide Ordered, Inserted, Drained;
    FirstKnown(a);
    AgainStep(a);
    DrainedStep(a.expiry[a.list[0]], a.period[a.list[0]]);
  }

  lemma DrainedStep(v: nat, p: nat)
    requires v < WRAP && p > 0 && v + p < WRAP
    ensures Drained(v, p) == [v] + Drained(v + p, p)
    ensures (v + p) % WRAP == v + p
  {
  }

  lemma DropStep(a: Pending)
    requires a.Valid() && a.list != []
    ensures var b := a.(list := a.list[1..]); b.Valid() && b.Left() < a.Left()
  {
    hide NoDup, Sorted, ValuesOf;
    TailOrdered(a.list, a.expiry);
  }

  lemma DropExpiries(a: Pending, y: Timer)
    requires a.Valid() && a.list != []
    requires a.list[0] in a.autoReload ==> a.expiry[a.list[0]] + a.period[a.list[0]] >= WRAP
    ensures var b := a.(list := a.list[1..]); var x := a.list[0];
            && b.Valid()
            && a.Expiries(y) == (if y == x then [a.expiry[y]] else []) + b.Expiries(y)
            && a.Restart(y) == (if y == x && x in a.autoReload then [a.expiry[y]] else []) + b.Restart(y)
  {
    hide Ordered;
    TailOrdered(a.list, a.expiry);
    DropStep(a);
    FirstKnown(a);
    assert a.list == [a.list[0]] + a.list[1..];
    assert y in a.list <==> y == a.list[0] || y in a.list[1..];
  }

  class Daemon {
    var currentList: seq<Timer>
    var overflowList: seq<Timer>
    var expiry: map<Timer, nat>
    var period: map<Timer, nat>
    var autoReload: set<Timer>
    var active: set<Timer>
    var commands: seq<Command>
    var lastTime: nat
    ghost var log: seq<(Timer, nat)>

    ghost predicate Valid()
      reads this
    {
      && Active().Valid() && Ordered(overflowList, expiry) && Apart(currentList, overflowList) && lastTime < WRAP
    }

    function Active(): Pending
      reads this
    {
      Pending(currentList, expiry, period, autoReload)
    }

    /** Its `vListInsert` of the timer that was the first of `a` */
    method PutBack(x: Timer, reload: nat, ghost a: Pending)
      requires a.Valid() && a.list != [] && x == a.list[0] && x in a.autoReload
      requires reload == a.expiry[x] + a.period[x] < WRAP
      requires a.(list := a.list[1..]) == Active() && Ordered(overflowList, expiry) && Apart(a.list, overflowList)
      requires lastTime < WRAP
      modifies this`currentList, this`expiry
      ensures Valid() && Active() == a.Again()
      ensures forall x <- overflowList :: x in old(expiry) && expiry[x] == old(expiry[x])
    {
      hide Ordered, Inserted, Apart;
      FirstKnown(a);
      AgainStep(a);
      StillApart(a.list, a.Again().list, overflowList);
      OrderedKnown(overflowList, expiry);
      OrderedSame(overflowList, expiry, expiry[x := reload]);
      expiry := expiry[x := reload];
      currentList := Inserted(currentList, expiry, x);
    }

    /** One turn of the loop in `prvSwitchTimerLists` */
    method ExpireFirst()
      requires Valid() && currentList != []
      modifies this`currentList, this`expiry, this`commands, this`log
      ensures Valid()
      ensures forall x <- overflowList :: x in old(expiry) && expiry[x] == old(expiry[x])
      ensures Turn(old(Active()), Active(), old(log), log, old(commands), commands)
    {
      hide Ordered, Inserted, Apart;
      var x := currentList[0];
      assert x in currentList;
      ghost var a := Active();
      FirstKnown(a);
      OrderedKnown(overflowList, expiry);
      var next := expiry[x];
      currentList := currentList[1..];
      StillApart(a.list, currentList, overflowList);
      log := log + [(x, next)];
      if x in autoReload {
        var reload := (next + period[x]) % WRAP;
        if reload > next {
          PutBack(x, reload, a);
        } else {
          DropStep(a);
          commands := commands + [Start(x, next)];
        }
      } else {
        DropStep(a);
      }
    }

    /**
     `prvSwitchTimerLists`: although it puts timers back into the list it empties, it ends.  Before the swap every
     timer of that list is called back for each of its expiries up to the wrap, and every auto-reload timer is
     started again, once, from the last of them.
     */
    method SwitchTimerLists()
      requires Valid()
      modifies this`currentList, this`overflowList, this`expiry, this`commands, this`log
      ensures Valid() && overflowList == [] && currentList == old(overflowList)
      ensures forall x <- currentList :: x in old(expiry) && expiry[x] == old(expiry[x])
      ensures forall x :: CallsFor(log, x) == CallsFor(old(log), x) + old(Active().Expiries(x))
      ensures forall x :: StartsFor(commands, x) == StartsFor(old(commands), x) + old(Active().Restart(x))
    {
      hide Ordered, Inserted, CallsFor, StartsFor, Turn, Pending.Left, Pending.Restart;
      OrderedKnown(overflowList, expiry);
      while currentList != []
        invariant Valid() && overflowList == old(overflowList) && period == old(period) && autoReload == old(autoReload)
        invariant forall x <- overflowList :: x in expiry && x in old(expiry) && expiry[x] == old(expiry)[x]
        invariant forall x :: CallsFor(log, x) + Active().Expiries(x) == CallsFor(old(log), x) + old(Active().Expiries(x))
        invariant forall x :: StartsFor(commands, x) + Active().Restart(x)
                              == StartsFor(old(commands), x) + old(Active().Restart(x))
        decreases Active().Left()
      {
        ghost var a, log0, commands0 := Active(), log, commands;
        ExpireFirst();
        TurnKeeps(a, Active(), log0, log, commands0, commands);
      }
      NoneRestarts(Active());
      currentList, overflowList := overflowList, currentList;
    }

    /** `prvSampleTimeNow`: a tick count smaller than the last one means that it has wrapped. */
    method SampleTimeNow(tick: nat) returns (switched: bool)
      requires Valid() && tick < WRAP
      modifies this`currentList, this`overflowList, this`expiry, this`commands, this`log, this`lastTime
      ensures Valid() && lastTime == tick && switched == (tick < old(lastTime))
      ensures switched ==> overflowList == [] && currentList == old(overflowList)
      ensures switched ==>
                forall x :: CallsFor(log, x) == CallsFor(old(log), x) + old(Active().Expiries(x))
                            && StartsFor(commands, x) == StartsFor(old(commands), x) + old(Active().Restart(x))
      ensures forall x <- currentList :: x in old(expiry) && expiry[x] == old(expiry[x])
      ensures !switched ==> currentList == old(currentList) && overflowList == old(overflowList)
                            && expiry == old(expiry) && commands == old(commands) && log == old(log)
    {
      hide Ordered, CallsFor, StartsFor, Pending.Restart, Pending.Expiries;
      OrderedKnown(currentList, expiry);
      switched := tick < lastTime;
      if switched {
        SwitchTimerLists();
      }
      lastTime := tick;
    }

    /** Where the timer is, and with what value. */
    ghost predicate At(x: Timer, home: Home)
      reads this
    {
      match home
      case Current(v) => x in currentList && x !in overflowList && x in expiry && expiry[x] == v
      case Overflow(v) => x in overflowList && x !in currentList && x in expiry && expiry[x] == v
      case Queued(c) =>
        x !in currentList && x !in overflowList && commands != [] && commands[|commands| - 1] == Start(x, c)
    }

    /** `prvInsertTimerInActiveList` */
    method Insert(x: Timer, next: nat, now: nat, command: nat) returns (processNow: bool)
      requires Valid() && x in period && x !in currentList && x !in overflowList
      requires next < WRAP && now < WRAP && command < WRAP
      modifies this`currentList, this`overflowList, this`expiry
      ensures Valid() && expiry == old(expiry)[x := next]
      ensures var place := Place(next, now, command, period[x]);
              && processNow == (place == ProcessNow)
              && SameBut(x, old(currentList), currentList) && (x in currentList <==> place == InCurrent)
              && SameBut(x, old(overflowList), overflowList) && (x in overflowList <==> place == InOverflow)
    {
      hide Ordered, Inserted;
      OrderedKnown(currentList, expiry);
      OrderedKnown(overflowList, expiry);
      expiry := expiry[x := next];
      OrderedSame(currentList, old(expiry), expiry);
      OrderedSame(overflowList, old(expiry), expiry);
      processNow := false;
      if next <= now {
        if Minus(now, command) >= period[x] {
          processNow := true;
        } else {
          InsertedOrdered(overflowList, old(expiry), expiry, x);
          overflowList := Inserted(overflowList, expiry, x);
        }
      } else if now < command && next >= command {
        processNow := true;
      } else {
        InsertedOrdered(currentList, old(expiry), expiry, x);
        currentList := Inserted(currentList, expiry, x);
      }
    }

    /** Nothing but `x` has moved. */
    twostate predicate OnlyMoved(x: Timer)
      reads this
    {
      && SameBut(x, old(currentList), currentList) && SameBut(x, old(overflowList), overflowList)
      && SameValues(x, old(expiry), expiry)
    }

    /** `prvProcessExpiredTimer`: an auto-reload timer is filed again from its own expiry, however late it is. */
    method ProcessExpiredTimer(now: nat)
      requires Valid() && currentList != [] && expiry[currentList[0]] <= now < WRAP
      modifies this`currentList, this`overflowList, this`expiry, this`commands, this`active, this`log
      ensures Valid()
      ensures var x := old(currentList[0]); var next := old(expiry[x]);
              && log == old(log) + [(x, next)] && OnlyMoved(x)
              && if x in autoReload
                 then x in period && At(x, Filed((next + period[x]) % WRAP, now, next, period[x])) && active == old(active)
                 else x !in currentList && x !in overflowList && active == old(active) - {x}
    {
      hide Ordered, SameBut, SameValues, Apart, Pending.Valid;
      ghost var current, overflow := currentList, overflowList;
      var x := currentList[0];
      assert x in currentList;
      FirstKnown(Active());
      var next := expiry[x];
      Unlink(x);
      SameMade(x, expiry, (next + period[x]) % WRAP);
      if x in autoReload {
        ghost var current', overflow' := currentList, overflowList;
        var processNow := Insert(x, (next + period[x]) % WRAP, now, next);
        SameTwice(x, current, current', currentList);
        SameTwice(x, overflow, overflow', overflowList);
        if processNow {
          commands := commands + [Start(x, next)];
        }
      } else {
        active := active - {x};
      }
      log := log + [(x, next)];
    }

    /** `uxListRemove` from whichever list it is on */
    method Unlink(x: Timer)
      requires Valid()
      modifies this`currentList, this`overflowList
      ensures Valid() && x !in currentList && x !in overflowList && OnlyMoved(x)
    {
      hide Ordered;
      if x in currentList {
        UnlinkedOrdered(currentList, expiry, x);
        currentList := RemoveAt(currentList, IndexOf(currentList, x));
      }
      if x in overflowList {
        UnlinkedOrdered(overflowList, expiry, x);
        overflowList := RemoveAt(overflowList, IndexOf(overflowList, x));
      }
    }

    /** One start or reset command in `prvProcessReceivedCommands`. */
    method ProcessStart(x: Timer, value: nat, now: nat)
      requires Valid() && x in period && value < WRAP && now < WRAP
      modifies this`currentList, this`overflowList, this`expiry, this`commands, this`active, this`log
      ensures Valid() && OnlyMoved(x) && active == old(active) + {x}
      ensures var next := (value + period[x]) % WRAP; var place := Place(next, now, value, period[x]);
              if place == ProcessNow
              then && log == old(log) + [(x, next)]
                   && if x in autoReload then At(x, Queued(next)) else x !in currentList && x !in overflowList
              else At(x, Filed(next, now, value, period[x])) && log == old(log) && commands == old(commands)
    {
      hide Ordered, SameBut, SameValues, Apart, Pending.Valid;
      ghost var current, overflow := currentList, overflowList;
      Unlink(x);
      active := active + {x};
      var next := (value + period[x]) % WRAP;
      SameMade(x, expiry, next);
      ghost var current', overflow' := currentList, overflowList;
      var processNow := Insert(x, next, now, value);
      SameTwice(x, current, current', currentList);
      SameTwice(x, overflow, overflow', overflowList);
      if processNow {
        log := log + [(x, next)];
        if x in autoReload {
          commands := commands + [Start(x, next)];
        }
      }
    }

    /** One change-period command: the new period runs from now. */
    method ProcessChangePeriod(x: Timer, value: nat, now: nat)
      requires Valid() && x in period && 0 < value < WRAP && now < WRAP
      modifies this`currentList, this`overflowList, this`expiry, this`period, this`active
      ensures Valid() && period == old(period)[x := value] && active == old(active) + {x} && OnlyMoved(x)
      ensures At(x, if now + value < WRAP then Current(now + value) else Overflow(now + value - WRAP))
    {
      hide Ordered, SameBut, SameValues, Apart;
      ghost var current, overflow := currentList, overflowList;
      Unlink(x);
      active := active + {x};
      period := period[x := value];
      SameMade(x, expiry, (now + value) % WRAP);
      ghost var current', overflow' := currentList, overflowList;
      var processNow := Insert(x, (now + value) % WRAP, now, now);
      SameTwice(x, current, current', currentList);
      SameTwice(x, overflow, overflow', overflowList);
    }

    /** One stop command */
    method ProcessStop(x: Timer)
      requires Valid()
      modifies this`currentList, this`overflowList, this`active
      ensures Valid() && x !in currentList && x !in overflowList && OnlyMoved(x) && active == old(active) - {x}
    {
      Unlink(x);
      active := active - {x};
    }
  }

  /** Nobody but `x` has come or gone. */
  ghost predicate SameBut(x: Timer, before: seq<Timer>, after: seq<Timer>) {
    forall y :: y != x ==> (y in before <==> y in after)
  }

  ghost predicate SameValues(x: Timer, before: map<Timer, nat>, after: map<Timer, nat>) {
    forall y <- before :: y != x ==> y in after && after[y] == before[y]
  }

  lemma SameTwice(x: Timer, a: seq<Timer>, b: seq<Timer>, c: seq<Timer>)
    requires SameBut(x, a, b) && SameBut(x, b, c)
    ensures SameBut(x, a, c)
  {
  }

  lemma SameMade(x: Timer, expiry: map<Timer, nat>, v: nat)
    ensures SameValues(x, expiry, expiry[x := v]) && SameValues(x, expiry, expiry)
  {
  }

  lemma UnlinkedOrdered(list: seq<Timer>, expiry: map<Timer, nat>, x: Timer)
    requires Ordered(list, expiry) && x in list
    ensures var list' := RemoveAt(list, IndexOf(list, x));
            Ordered(list', expiry) && forall y :: y in list' <==> y in list && y != x
  {
    hide NoDup, Sorted, RemoveAt, ValuesOf;
    RemoveMembers(list, x);
    ValuesRemoved(list, IndexOf(list, x), expiry);
    RemoveKeepsSorted(ValuesOf(list, expiry), IndexOf(list, x));
  }

  /** What one turn of the loop does. */
  ghost predicate Turn(a: Pending, b: Pending, log: seq<(Timer, nat)>, log': seq<(Timer, nat)>,
                       commands: seq<Command>, commands': seq<Command>)
  {
    && a.Valid() && a.list != []
    && var x := a.list[0];
    && log' == log + [(x, a.expiry[x])]
    && if x in a.autoReload && a.expiry[x] + a.period[x] < WRAP
       then b == a.Again() && commands' == commands
       else b == a.(list := a.list[1..])
            && commands' == if x in a.autoReload then commands + [Start(x, a.expiry[x])] else commands
  }

  lemma TurnKeeps(a: Pending, b: Pending, log: seq<(Timer, nat)>, log': seq<(Timer, nat)>,
                  commands: seq<Command>, commands': seq<Command>)
    requires Turn(a, b, log, log', commands, commands')
    ensures a.Valid() && b.Valid() && b.Left() < a.Left()
    ensures forall y :: CallsFor(log', y) + b.Expiries(y) == CallsFor(log, y) + a.Expiries(y)
    ensures forall y :: StartsFor(commands', y) + b.Restart(y) == StartsFor(commands, y) + a.Restart(y)
  {
    hide Ordered, Inserted, CallsFor, StartsFor, Pending.Left, Pending.Expiries, Pending.Restart, Pending.Again;
    FirstKnown(a);
    var x := a.list[0];
    if x in a.autoReload && a.expiry[x] + a.period[x] < WRAP {
      AgainStep(a);
      forall y
        ensures CallsFor(log', y) + b.Expiries(y) == CallsFor(log, y) + a.Expiries(y)
        ensures StartsFor(commands', y) + b.Restart(y) == StartsFor(commands, y) + a.Restart(y)
      {
        TurnAgain(a, log, commands, y);
      }
    } else {
      DropStep(a);
      forall y
        ensures CallsFor(log', y) + b.Expiries(y) == CallsFor(log, y) + a.Expiries(y)
        ensures StartsFor(commands', y) + b.Restart(y) == StartsFor(commands, y) + a.Restart(y)
      {
        TurnDrop(a, log, commands, y);
      }
    }
  }

  lemma TurnAgain(a: Pending, log: seq<(Timer, nat)>, commands: seq<Command>, y: Timer)
    requires a.Valid() && a.list != [] && a.list[0] in a.autoReload && a.expiry[a.list[0]] + a.period[a.list[0]] < WRAP
    ensures a.Again().Valid()
    ensures CallsFor(log + [(a.list[0], a.expiry[a.list[0]])], y) + a.Again().Expiries(y)
            == CallsFor(log, y) + a.Expiries(y)
    ensures StartsFor(commands, y) + a.Again().Restart(y) == StartsFor(commands, y) + a.Restart(y)
  {
    hide Ordered, Inserted, CallsFor, StartsFor, Pending.Expiries, Pending.Restart, Pending.Again;
    FirstKnown(a);
    var x := a.list[0];
    AgainExpiries(a, y);
    OneMoreCall(log, x, a.expiry[x], y);
    FirstCounts(CallsFor(log, y), if y == x then [a.expiry[x]] else [], a.Again().Expiries(y));
  }

  lemma TurnDrop(a: Pending, log: seq<(Timer, nat)>, commands: seq<Command>, y: Timer)
    requires a.Valid() && a.list != []
    requires a.list[0] in a.autoReload ==> a.expiry[a.list[0]] + a.period[a.list[0]] >= WRAP
    ensures var x, b := a.list[0], a.(list := a.list[1..]);
            && b.Valid()
            && CallsFor(log + [(x, a.expiry[x])], y) + b.Expiries(y) == CallsFor(log, y) + a.Expiries(y)
            && StartsFor(if x in a.autoReload then commands + [Start(x, a.expiry[x])] else commands, y) + b.Restart(y)
               == StartsFor(commands, y) + a.Restart(y)
  {
    hide Ordered, Inserted, CallsFor, StartsFor, Pending.Expiries, Pending.Restart;
    FirstKnown(a);
    var x, b := a.list[0], a.(list := a.list[1..]);
    DropExpiries(a, y);
    OneMoreCall(log, x, a.expiry[x], y);
    OneMoreStart(commands, x, a.expiry[x], y);
    FirstCounts(CallsFor(log, y), if y == x then [a.expiry[x]] else [], b.Expiries(y));
    FirstCounts(StartsFor(commands, y), if y == x && x in a.autoReload then [a.expiry[x]] else [], b.Restart(y));
  }

  lemma FirstCounts(before: seq<nat>, first: seq<nat>, rest: seq<nat>)
    ensures before + first + rest == before + (first + rest)
    ensures before + [] == before
  {
  }

  lemma NoneRestarts(a: Pending)
    requires a.Valid() && a.list == []
    ensures forall x :: a.Restart(x) == [] && a.Expiries(x) == []
  {
  }

  lemma OrderedSame(list: seq<Timer>, before: map<Timer, nat>, after: map<Timer, nat>)
    requires Ordered(list, before) && forall x <- list :: x in after && (x in before ==> after[x] == before[x])
    ensures Ordered(list, after)
  {
    assert ValuesOf(list, before) == ValuesOf(list, after);
  }

  lemma OrderedKnown(list: seq<Timer>, expiry: map<Timer, nat>)
    requires Ordered(list, expiry)
    ensures forall x <- list :: x in expiry && expiry[x] < WRAP
  {
  }

  predicate Apart(a: seq<Timer>, b: seq<Timer>) {
    forall x <- a :: x !in b
  }

  lemma StillApart(a: seq<Timer>, b: seq<Timer>, c: seq<Timer>)
    requires Apart(a, c) && forall x <- b :: x in a
    ensures Apart(b, c) && forall x <- a :: x !in c
  {
  }

  lemma FirstKnown(a: Pending)
    requires a.Valid() && a.list != []
    ensures forall y <- a.list :: y in a.expiry && a.expiry[y] < WRAP && y in a.period && 0 < a.period[y] < WRAP
  {
  }
}
