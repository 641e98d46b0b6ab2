/**
 Event groups (lib/freertos/event_groups.c): tasks wait for some or all of a set of bits; setting bits walks the
 list of waiting tasks, and what they asked to have cleared is cleared afterwards.
 */
module EventGroup {
  import opened ListSpec
  import opened Options
  import SchedulerTasks

  type Task = nat
  type Bits = bv32

  const CLEAR_ON_EXIT: Bits := 0x0100_0000
  const UNBLOCKED_BY_SET: Bits := 0x0200_0000
  const WAIT_FOR_ALL: Bits := 0x0400_0000
  const CONTROL: Bits := 0xff00_0000
  /** `taskEVENT_LIST_ITEM_VALUE_IN_USE` */
  const IN_USE: Bits := 0x8000_0000

  /** `prvTestWaitCondition` */
  function Met(bits: Bits, wanted: Bits, all: bool): bool {
    if all then bits & wanted == wanted else bits & wanted != 0
  }

  // Bit by bit

  /** Exactly one bit is set. */
  predicate OneBit(m: Bits) {
    m != 0 && m & (m - 1) == 0
  }

  /** Bit `m` is set in `bits`. */
  predicate Has(bits: Bits, m: Bits) {
    bits & m != 0
  }

  /** Every bit wanted is there, or some bit wanted is. */
  ghost predicate Fulfilled(bits: Bits, wanted: Bits, all: bool) {
    if all then forall m | OneBit(m) && Has(wanted, m) :: Has(bits, m)
    else exists m | OneBit(m) :: Has(wanted, m) && Has(bits, m)
  }

  /** A bit of `bits`, if there is any */
  function Lowest(bits: Bits): Bits {
    bits & (0 - bits)
  }

  lemma LowestIsBit(bits: Bits)
    requires bits != 0
    ensures OneBit(Lowest(bits)) && bits & Lowest(bits) == Lowest(bits)
  {
  }

  lemma MetMeans(bits: Bits, wanted: Bits, all: bool)
    ensures Met(bits, wanted, all) <==> Fulfilled(bits, wanted, all)
  {
    hide Met, OneBit, Has, Lowest;
    if all {
      if Met(bits, wanted, all) {
        forall m | OneBit(m) && Has(wanted, m) ensures Has(bits, m) {
          Subset(bits, wanted, m);
        }
      } else {
        OneMissing(bits, wanted);
      }
    } else {
      if Met(bits, wanted, all) {
        OneCommon(bits, wanted);
      } else {
        forall m | OneBit(m) && Has(wanted, m) ensures !Has(bits, m) {
          Disjoint(bits, wanted, m);
        }
      }
    }
  }

  lemma Subset(bits: Bits, wanted: Bits, m: Bits)
    requires Met(bits, wanted, true) && Has(wanted, m)
    ensures Has(bits, m)
  {
    assert wanted & m == (bits & m) & wanted;
  }

  lemma OneMissing(bits: Bits, wanted: Bits)
    requires !Met(bits, wanted, true)
    ensures var m := Lowest(wanted & !bits); OneBit(m) && Has(wanted, m) && !Has(bits, m)
  {
    SomeMissing(bits, wanted);
    LowestIsBit(wanted & !bits);
    Missed(bits, wanted, Lowest(wanted & !bits));
  }

  lemma SomeMissing(bits: Bits, wanted: Bits)
    requires !Met(bits, wanted, true)
    ensures wanted & !bits != 0
  {
  }

  lemma Missed(bits: Bits, wanted: Bits, m: Bits)
    requires (wanted & !bits) & m == m && OneBit(m)
    ensures Has(wanted, m) && !Has(bits, m)
  {
  }

  lemma OneCommon(bits: Bits, wanted: Bits)
    requires Met(bits, wanted, false)
    ensures var m := Lowest(bits & wanted); OneBit(m) && Has(wanted, m) && Has(bits, m)
  {
    LowestIsBit(bits & wanted);
    Common(bits, wanted, Lowest(bits & wanted));
  }

  lemma Common(bits: Bits, wanted: Bits, m: Bits)
    requires (bits & wanted) & m == m && OneBit(m)
    ensures Has(wanted, m) && Has(bits, m)
  {
  }

  lemma Disjoint(bits: Bits, wanted: Bits, m: Bits)
    requires !Met(bits, wanted, false) && OneBit(m) && Has(wanted, m)
    ensures !Has(bits, m)
  {
    OneBitWhole(wanted, m);
    assert (bits & wanted) & m == bits & (wanted & m);
  }

  /** Whether the bits are what a task waits for, by the request in its event list item. */
  ghost predicate Answers(bits: Bits, item: Bits) {
    Fulfilled(bits, Wanted(item), item & WAIT_FOR_ALL != 0)
  }

  lemma SatisfiedMeans(bits: Bits, item: Bits)
    ensures Satisfied(bits, item) <==> Answers(bits, item)
  {
    hide Met, Fulfilled, Wanted;
    MetMeans(bits, Wanted(item), item & WAIT_FOR_ALL != 0);
    ControlBits(item);
  }

  lemma ControlBits(item: Bits)
    ensures item & CONTROL & WAIT_FOR_ALL == item & WAIT_FOR_ALL
    ensures item & CONTROL & CLEAR_ON_EXIT == item & CLEAR_ON_EXIT
  {
  }

  lemma OneBitWhole(bits: Bits, m: Bits)
    requires OneBit(m)
    ensures bits & m == if Has(bits, m) then m else 0
  {
  }

  lemma UnionHas(a: Bits, b: Bits, m: Bits)
    ensures Has(Union(a, b), m) <==> Has(a, m) || Has(b, m)
  {
    hide Union;
    UnionAnd(a, b, m);
    UnionIsZero(a & m, b & m);
  }

  lemma UnionAnd(a: Bits, b: Bits, m: Bits)
    ensures Union(a, b) & m == Union(a & m, b & m)
  {
  }

  lemma UnionIsZero(a: Bits, b: Bits)
    ensures Union(a, b) == 0 <==> a == 0 && b == 0
  {
  }

  lemma NoBits(m: Bits)
    ensures !Has(0, m)
  {
  }

  lemma WithoutHas(bits: Bits, mask: Bits, m: Bits)
    requires OneBit(m)
    ensures Has(Without(bits, mask), m) <==> Has(bits, m) && !Has(mask, m)
  {
    OneBitWhole(bits, m);
    OneBitWhole(mask, m);
    assert (bits & !mask) & m == (bits & m) & !(mask & m);
  }

  /** What a waiting task's event list item carries. */
  function Asking(wanted: Bits, clear: bool, all: bool): Bits {
    wanted | (if clear then CLEAR_ON_EXIT else 0) | (if all then WAIT_FOR_ALL else 0) | IN_USE
  }

  function Wanted(item: Bits): Bits {
    item & !CONTROL
  }

  /** The test that `xEventGroupSetBits` makes on an item. */
  function Satisfied(bits: Bits, item: Bits): bool {
    Met(bits, Wanted(item), item & CONTROL & WAIT_FOR_ALL != 0)
  }

  function Clears(item: Bits): Bits {
    if item & CONTROL & CLEAR_ON_EXIT != 0 then Wanted(item) else 0
  }

  /** The event value a task is handed when its bits have been set. */
  function Delivered(bits: Bits): Bits {
    bits | UNBLOCKED_BY_SET | IN_USE
  }

  /** Nothing of a request or of an answer is lost in the one word they travel in. */
  lemma ItemRoundTrip(wanted: Bits, clear: bool, all: bool, bits: Bits)
    requires wanted & CONTROL == 0 && bits & CONTROL == 0
    ensures Wanted(Asking(wanted, clear, all)) == wanted
    ensures Satisfied(bits, Asking(wanted, clear, all)) == Met(bits, wanted, all)
    ensures Clears(Asking(wanted, clear, all)) == if clear then wanted else 0
    ensures Asking(wanted, clear, all) & UNBLOCKED_BY_SET == 0
    ensures Delivered(bits) & UNBLOCKED_BY_SET != 0 && Delivered(bits) & !CONTROL == bits
  {
  }

  /** More bits satisfy no fewer tasks. */
  lemma Monotone(fewer: Bits, more: Bits, item: Bits)
    requires fewer & more == fewer && Satisfied(fewer, item)
    ensures Satisfied(more, item)
  {
    hide Wanted;
    MetByMore(fewer, more, Wanted(item), item & CONTROL & WAIT_FOR_ALL != 0);
  }

  lemma MetByMore(fewer: Bits, more: Bits, wanted: Bits, all: bool)
    requires fewer & more == fewer && Met(fewer, wanted, all)
    ensures Met(more, wanted, all)
  {
    assert (fewer & wanted) == (fewer & wanted) & more;
  }

  lemma FewerBits(bits: Bits, mask: Bits)
    ensures Without(bits, mask) & bits == Without(bits, mask)
  {
  }

  // ---------------------------------------------------------------------------------------------

  /** Those that stay on the list, in order. */
  function Kept(waiting: seq<Task>, value: map<Task, Bits>, bits: Bits): (r: seq<Task>)
    requires forall t <- waiting :: t in value
    ensures |r| <= |waiting|
    ensures forall t :: t in r <==> t in waiting && !Satisfied(bits, value[t])
  {
    if waiting == [] then []
    else
      var front, last := waiting[..|waiting| - 1], waiting[|waiting| - 1];
      Kept(front, value, bits) + if Satisfied(bits, value[last]) then [] else [last]
  }

  /** All that the satisfied ones want cleared. */
  function ClearMask(waiting: seq<Task>, value: map<Task, Bits>, bits: Bits): Bits
    requires forall t <- waiting :: t in value
  {
    if waiting == [] then 0
    else
      var front, last := waiting[..|waiting| - 1], waiting[|waiting| - 1];
      Union(ClearMask(front, value, bits), Share(bits, value[last]))
  }

  function Union(a: Bits, b: Bits): Bits {
    a | b
  }

  /** What one waiting task has cleared now. */
  function Share(bits: Bits, item: Bits): Bits {
    if Satisfied(bits, item) then Clears(item) else 0
  }

  lemma {:induction false} KeptNoDup(waiting: seq<Task>, value: map<Task, Bits>, bits: Bits)
    requires NoDup(waiting) && forall t <- waiting :: t in value
    ensures NoDup(Kept(waiting, value, bits))
  {
    if waiting != [] {
      var front := waiting[..|waiting| - 1];
      KeptNoDup(front, value, bits);
      assert waiting[|waiting| - 1] !in front;
    }
  }

  predicate Within(a: Bits, b: Bits) {
    a & !b == 0
  }

  lemma OrIsLeast(a: Bits, b: Bits, m: Bits)
    ensures Within(Union(a, b), m) <==> Within(a, m) && Within(b, m)
    ensures Within(0, m)
  {
    assert (a | b) & !m == (a & !m) | (b & !m);
  }

  lemma WithinIsOrder(a: Bits, b: Bits)
    ensures Within(a, b) && Within(b, a) ==> a == b
    ensures Within(a, a)
  {
  }

  /** The mask is the union: it lies within exactly those masks that hold each satisfied task's share. */
  lemma {:induction false} ClearMaskIsUnion(waiting: seq<Task>, value: map<Task, Bits>, bits: Bits, m: Bits)
    requires forall t <- waiting :: t in value
    ensures Within(ClearMask(waiting, value, bits), m)
            <==> forall t <- waiting :: Within(Share(bits, value[t]), m)
  {
    hide Within, Share, Union;
    if waiting == [] {
      OrIsLeast(0, 0, m);
    } else {
      var front, last := waiting[..|waiting| - 1], waiting[|waiting| - 1];
      ClearMaskIsUnion(front, value, bits, m);
      OrIsLeast(ClearMask(front, value, bits), Share(bits, value[last]), m);
      assert forall t :: t in waiting <==> t in front || t == last;
    }
  }

  /** What is cleared does not depend on the order of the list. */
  lemma ClearMaskIgnoresOrder(a: seq<Task>, b: seq<Task>, value: map<Task, Bits>, bits: Bits)
    requires (forall t :: t in a <==> t in b) && (forall t <- a :: t in value) && forall t <- b :: t in value
    ensures ClearMask(a, value, bits) == ClearMask(b, value, bits)
  {
    var ma, mb := ClearMask(a, value, bits), ClearMask(b, value, bits);
    WithinIsOrder(ma, mb);
    WithinIsOrder(mb, ma);
    ClearMaskIsUnion(a, value, bits, ma);
    ClearMaskIsUnion(a, value, bits, mb);
    ClearMaskIsUnion(b, value, bits, ma);
    ClearMaskIsUnion(b, value, bits, mb);
  }

  /** Those kept stay in order: the walk may be split anywhere. */
  lemma {:induction false} KeptSplits(front: seq<Task>, back: seq<Task>, value: map<Task, Bits>, bits: Bits)
    requires (forall t <- front :: t in value) && forall t <- back :: t in value
    ensures Kept(front + back, value, bits) == Kept(front, value, bits) + Kept(back, value, bits)
  {
    hide Satisfied, Kept;
    if back == [] {
      assert front + back == front;
      KeptNone(front, value, bits);
    } else {
      var most, last := back[..|back| - 1], back[|back| - 1];
      assert front + back == (front + most) + [last] && back == most + [last];
      KeptSplits(front, most, value, bits);
      OnePassed(value, front + most, last, bits);
      OnePassed(value, most, last, bits);
    }
  }

  lemma KeptNone(front: seq<Task>, value: map<Task, Bits>, bits: Bits)
    requires forall t <- front :: t in value
    ensures Kept(front, value, bits) == Kept(front, value, bits) + Kept([], value, bits)
  {
    hide Satisfied;
  }

  lemma KeptOne(t: Task, value: map<Task, Bits>, bits: Bits)
    requires t in value
    ensures Kept([t], value, bits) == if Answers(bits, value[t]) then [] else [t]
  {
    hide Satisfied, Answers;
    SatisfiedMeans(bits, value[t]);
    assert [t][..0] == [];
  }

  /** `t` is answered and has asked to have bit `m` cleared. */
  ghost predicate AsksToClear(item: Bits, bits: Bits, m: Bits) {
    Answers(bits, item) && item & CLEAR_ON_EXIT != 0 && Has(Wanted(item), m)
  }

  lemma ShareHas(bits: Bits, item: Bits, m: Bits)
    ensures Has(Share(bits, item), m) <==> AsksToClear(item, bits, m)
  {
    hide Satisfied, Answers, Wanted, Has;
    SatisfiedMeans(bits, item);
    ControlBits(item);
    NoBits(m);
  }

  lemma {:induction false} ClearMaskHas(waiting: seq<Task>, value: map<Task, Bits>, bits: Bits, m: Bits)
    requires forall t <- waiting :: t in value
    ensures Has(ClearMask(waiting, value, bits), m) <==> exists t <- waiting :: AsksToClear(value[t], bits, m)
  {
    hide Has, Union, Share, AsksToClear;
    if waiting == [] {
      NoBits(m);
    } else {
      var front, last := waiting[..|waiting| - 1], waiting[|waiting| - 1];
      ClearMaskHas(front, value, bits, m);
      UnionHas(ClearMask(front, value, bits), Share(bits, value[last]), m);
      ShareHas(bits, value[last], m);
      assert forall t :: t in waiting <==> t in front || t == last;
    }
  }

  // ---------------------------------------------------------------------------------------------
  // The event group

  function Without(bits: Bits, mask: Bits): Bits {
    bits & !mask
  }

  predicate Plain(bits: Bits) {
    bits & CONTROL == 0
  }

  lemma WithoutIsFewer(bits: Bits, mask: Bits, item: Bits)
    ensures Satisfied(Without(bits, mask), item) ==> Satisfied(bits, item)
    ensures Plain(bits) ==> Plain(Without(bits, mask))
  {
    hide Satisfied, Without, Plain;
    if Satisfied(Without(bits, mask), item) {
      FewerBits(bits, mask);
      Monotone(Without(bits, mask), bits, item);
    }
    PlainWithout(bits, mask);
  }

  lemma PlainWithout(bits: Bits, mask: Bits)
    ensures Plain(bits) ==> Plain(Without(bits, mask))
  {
    assert (bits & !mask) & CONTROL == (bits & CONTROL) & !mask;
  }

  lemma PlainUnion(a: Bits, b: Bits)
    requires Plain(a) && Plain(b)
    ensures Plain(Union(a, b))
  {
    assert (a | b) & CONTROL == (a & CONTROL) | (b & CONTROL);
  }

  datatype Group = Group(bits: Bits, waiting: seq<Task>, value: map<Task, Bits>) {
    /** No task waits for what is already there. */
    ghost predicate Valid() {
      && NoDup(waiting) && (forall t <- waiting :: t in value) && Plain(bits)
      && forall t <- waiting :: !Satisfied(bits, value[t])
    }

    /** Those woken by the walk over the list get the bits as they are before anything is cleared. */
    function Answered(b: Bits): map<Task, Bits> {
      map t | t in value :: if t in waiting && Satisfied(b, value[t]) then Delivered(b) else value[t]
    }

    /** `xEventGroupSetBits`, all at once */
    function Set(toSet: Bits): Group
      requires forall t <- waiting :: t in value
    {
      var b := Union(bits, toSet);
      Group(Without(b, ClearMask(waiting, value, b)), Kept(waiting, value, b), Answered(b))
    }

    /** `xEventGroupClearBits` */
    function Clear(mask: Bits): Group {
      this.(bits := Without(bits, mask))
    }

    /** `vTaskPlaceOnUnorderedEventList`: at the end of the list, whose cursor never moves */
    function Blocked(t: Task, item: Bits): Group {
      this.(waiting := waiting + [t], value := value[t := item])
    }

    /** The tick ends a wait. */
    function Expired(k: nat): Group
      requires k < |waiting|
    {
      this.(waiting := RemoveAt(waiting, k))
    }

    /** `xEventGroupWaitBits` up to the point where it blocks */
    function Wait(t: Task, wanted: Bits, clear: bool, all: bool, mayBlock: bool): (r: (Group, Option<Bits>)) {
      if Met(bits, wanted, all) then (if clear then Clear(wanted) else this, Some(bits))
      else if !mayBlock then (this, Some(bits))
      else (Blocked(t, Asking(wanted, clear, all)), None)
    }

    /** `xEventGroupSync` up to the point where it blocks */
    function Sync(t: Task, toSet: Bits, wanted: Bits, mayBlock: bool): (r: (Group, Option<Bits>))
      requires forall x <- waiting :: x in value
    {
      if Met(Union(bits, toSet), wanted, true) then (Set(toSet).Clear(wanted), Some(Union(bits, toSet)))
      else if !mayBlock then (Set(toSet), Some(Set(toSet).bits))
      else (Set(toSet).Blocked(t, Asking(wanted, true, true)), None)
    }

    /** What a task does once it runs again: take its answer, or look once more if its time has run out. */
    function Resume(t: Task, wanted: Bits, clear: bool, all: bool, normal: Bits): (r: (Group, Bits))
      requires t in value
    {
      var g := this.(value := value[t := normal]);
      if value[t] & UNBLOCKED_BY_SET != 0 then (g, value[t] & !CONTROL)
      else (if Met(bits, wanted, all) && clear then g.Clear(wanted) else g, bits & !CONTROL)
    }
  }

  // ---------------------------------------------------------------------------------------------
  // What the calls mean, bit by bit

  /** Bit `m` is as it was, and gone if it was waited for and was to be cleared. */
  ghost predicate BitsLeft(before: Bits, after: Bits, wanted: Bits, clear: bool) {
    forall m | OneBit(m) :: Has(after, m) <==> Has(before, m) && !(clear && Has(wanted, m))
  }

  lemma ClearedLeaves(bits: Bits, wanted: Bits)
    ensures BitsLeft(bits, Without(bits, wanted), wanted, true) && BitsLeft(bits, bits, wanted, false)
  {
    hide Has, OneBit, Without;
    forall m | OneBit(m) ensures Has(Without(bits, wanted), m) <==> Has(bits, m) && !Has(wanted, m) {
      WithoutHas(bits, wanted, m);
    }
  }

  /** Setting bits: which of them remain; */
  lemma SetLeavesBits(g: Group, toSet: Bits, m: Bits)
    requires (forall t <- g.waiting :: t in g.value) && OneBit(m)
    ensures var b := Union(g.bits, toSet);
            && (Has(b, m) <==> Has(g.bits, m) || Has(toSet, m))
            && (Has(g.Set(toSet).bits, m) <==>
                  Has(b, m) && !exists t <- g.waiting :: AsksToClear(g.value[t], b, m))
  {
    hide Satisfied, Has, OneBit, Union, Without, ClearMask, Kept, Delivered, AsksToClear;
    var b := Union(g.bits, toSet);
    UnionHas(g.bits, toSet, m);
    WithoutHas(b, ClearMask(g.waiting, g.value, b), m);
    ClearMaskHas(g.waiting, g.value, b, m);
  }

  /** `t` has been handed these bits. */
  predicate Handed(item: Bits, bits: Bits) {
    item & UNBLOCKED_BY_SET != 0 && item & !CONTROL == bits
  }

  /** who is woken, and with what. */
  lemma SetWakes(g: Group, toSet: Bits, t: Task)
    requires g.Valid() && Plain(toSet) && t in g.value
    ensures var r, b := g.Set(toSet), Union(g.bits, toSet); var woken := t in g.waiting && Answers(b, g.value[t]);
            && (t in r.waiting <==> t in g.waiting && !woken)
            && t in r.value && if woken then Handed(r.value[t], b) else r.value[t] == g.value[t]
  {
    hide Satisfied, Answers, Plain, Union, Without, ClearMask, Kept, Delivered, Handed;
    var b := Union(g.bits, toSet);
    PlainUnion(g.bits, toSet);
    DeliveredBits(b);
    SatisfiedMeans(b, g.value[t]);
  }

  lemma DeliveredBits(bits: Bits)
    requires Plain(bits)
    ensures Handed(Delivered(bits), bits)
  {
    ItemRoundTrip(0, false, false, bits);
  }

  /** Waiting: with all, or some, of the bits there it returns them and clears what it was to clear; else it may block. */
  lemma WaitMeans(g: Group, t: Task, wanted: Bits, clear: bool, all: bool, mayBlock: bool)
    requires Plain(g.bits) && Plain(wanted)
    ensures var (r, answer) := g.Wait(t, wanted, clear, all, mayBlock);
            if Fulfilled(g.bits, wanted, all) then
              answer == Some(g.bits) && r == g.(bits := r.bits) && BitsLeft(g.bits, r.bits, wanted, clear)
            else if !mayBlock then answer == Some(g.bits) && r == g
            else
              && answer == None && r.bits == g.bits && r.waiting == g.waiting + [t] && t in r.value
              && (forall x <- g.value :: x != t ==> x in r.value && r.value[x] == g.value[x])
              && Asks(r.value[t], wanted, clear, all)
  {
    hide Met, Fulfilled, BitsLeft, Asking, Asks, Without, Plain;
    MetMeans(g.bits, wanted, all);
    ClearedLeaves(g.bits, wanted);
    AskingAsks(wanted, clear, all);
  }

  /** The request for these bits, not taken for an answer, and for a value in use. */
  predicate Asks(item: Bits, wanted: Bits, clear: bool, all: bool) {
    && Wanted(item) == wanted && (item & CLEAR_ON_EXIT != 0 <==> clear) && (item & WAIT_FOR_ALL != 0 <==> all)
    && item & UNBLOCKED_BY_SET == 0 && item & IN_USE != 0
  }

  lemma AskingAsks(wanted: Bits, clear: bool, all: bool)
    requires Plain(wanted)
    ensures Asks(Asking(wanted, clear, all), wanted, clear, all)
  {
  }

  /** A wait whose time has run out does what one does that may not block. */
  lemma TimedOutLooksAgain(g: Group, t: Task, wanted: Bits, clear: bool, all: bool, normal: Bits)
    requires t in g.value && g.value[t] & UNBLOCKED_BY_SET == 0 && Plain(g.bits)
    ensures var (r, answer) := g.Resume(t, wanted, clear, all, normal);
            g.(value := g.value[t := normal]).Wait(t, wanted, clear, all, false) == (r, Some(answer))
  {
    hide Met, Without;
    assert g.bits & !CONTROL == g.bits;
  }

  /** A party of a rendezvous that may not block sees the bits that are left. */
  lemma SyncPolls(g: Group, t: Task, toSet: Bits, wanted: Bits)
    requires g.Valid() && !Met(Union(g.bits, toSet), wanted, true)
    ensures var (r, answer) := g.Sync(t, toSet, wanted, false); r == g.Set(toSet) && answer == Some(r.bits)
  {
    hide Met, Union, Group.Set;
  }

  lemma InUseIsGreat(item: Bits)
    requires item & IN_USE != 0
    ensures item as nat >= 0x8000_0000
  {
    assert item >= IN_USE;
  }

  /** A change of priority gives a new value to an item below 2^31 */
  lemma ValueKept(v: nat, p: nat)
    requires p < 7
    ensures SchedulerTasks.EventValueFor(v, p) == if v >= 0x8000_0000 then v else 7 - p
  {
  }

  /** and leaves alone what a task has asked for or been handed. */
  lemma RequestsSurvive(wanted: Bits, clear: bool, all: bool, bits: Bits, p: nat)
    requires p < 7
    ensures var v := Asking(wanted, clear, all) as nat; SchedulerTasks.EventValueFor(v, p) == v
    ensures var v := Delivered(bits) as nat; SchedulerTasks.EventValueFor(v, p) == v
  {
    hide Asking, Delivered, SchedulerTasks.EventValueFor;
    AskingInUse(wanted, clear, all, bits);
    InUseIsGreat(Asking(wanted, clear, all));
    InUseIsGreat(Delivered(bits));
    ValueKept(Asking(wanted, clear, all) as nat, p);
    ValueKept(Delivered(bits) as nat, p);
  }

  lemma AskingInUse(wanted: Bits, clear: bool, all: bool, bits: Bits)
    ensures Asking(wanted, clear, all) & IN_USE != 0 && Delivered(bits) & IN_USE != 0
  {
  }

  // ---------------------------------------------------------------------------------------------
  // No satisfied task is left waiting

  lemma SetKeeps(g: Group, toSet: Bits)
    requires g.Valid() && Plain(toSet)
    ensures g.Set(toSet).Valid()
  {
    hide Satisfied, Plain, Without, Union, Share, Delivered, ClearMask;
    var b := Union(g.bits, toSet);
    PlainUnion(g.bits, toSet);
    KeptNoDup(g.waiting, g.value, b);
    var mask := ClearMask(g.waiting, g.value, b);
    WithoutIsFewer(b, mask, 0);
    forall t <- g.Set(toSet).waiting ensures !Satisfied(g.Set(toSet).bits, g.Set(toSet).value[t]) {
      WithoutIsFewer(b, mask, g.value[t]);
    }
  }

  lemma ClearKeeps(g: Group, mask: Bits)
    requires g.Valid()
    ensures g.Clear(mask).Valid()
  {
    hide Satisfied, Plain, Without;
    WithoutIsFewer(g.bits, mask, 0);
    forall t <- g.waiting ensures !Satisfied(g.Clear(mask).bits, g.value[t]) {
      WithoutIsFewer(g.bits, mask, g.value[t]);
    }
  }

  lemma BlockedKeeps(g: Group, t: Task, wanted: Bits, clear: bool, all: bool)
    requires g.Valid() && t !in g.waiting && Plain(wanted) && !Met(g.bits, wanted, all)
    ensures g.Blocked(t, Asking(wanted, clear, all)).Valid()
  {
    hide Satisfied, Met, Asking;
    BlockedIsUnmet(g.bits, wanted, clear, all);
  }

  lemma BlockedIsUnmet(bits: Bits, wanted: Bits, clear: bool, all: bool)
    requires Plain(bits) && Plain(wanted)
    ensures Satisfied(bits, Asking(wanted, clear, all)) == Met(bits, wanted, all)
  {
    hide Satisfied, Met, Asking;
    ItemRoundTrip(wanted, clear, all, bits);
  }

  lemma ExpiredKeeps(g: Group, k: nat)
    requires g.Valid() && k < |g.waiting|
    ensures g.Expired(k).Valid()
  {
    hide Satisfied, Plain;
  }

  lemma WaitKeeps(g: Group, t: Task, wanted: Bits, clear: bool, all: bool, mayBlock: bool)
    requires g.Valid() && t !in g.waiting && Plain(wanted)
    ensures g.Wait(t, wanted, clear, all, mayBlock).0.Valid()
  {
    hide Group.Valid, Met, Asking, Plain, Without;
    if Met(g.bits, wanted, all) {
      ClearKeeps(g, wanted);
    } else {
      BlockedKeeps(g, t, wanted, clear, all);
    }
  }

  lemma SyncKeeps(g: Group, t: Task, toSet: Bits, wanted: Bits, mayBlock: bool)
    requires g.Valid() && t !in g.waiting && Plain(toSet) && Plain(wanted)
    ensures g.Sync(t, toSet, wanted, mayBlock).0.Valid()
  {
    hide Satisfied, Met, Asking, Plain, Without, Union, ClearMask;
    SetKeeps(g, toSet);
    ClearKeeps(g.Set(toSet), wanted);
    if !Met(Union(g.bits, toSet), wanted, true) {
      StillUnmet(Union(g.bits, toSet), ClearMask(g.waiting, g.value, Union(g.bits, toSet)), wanted);
      BlockedKeeps(g.Set(toSet), t, wanted, true, true);
    }
  }

  lemma StillUnmet(bits: Bits, mask: Bits, wanted: Bits)
    requires !Met(bits, wanted, true)
    ensures !Met(Without(bits, mask), wanted, true)
  {
  }

  lemma ResumeKeeps(g: Group, t: Task, wanted: Bits, clear: bool, all: bool, normal: Bits)
    requires g.Valid() && t in g.value && t !in g.waiting
    ensures g.Resume(t, wanted, clear, all, normal).0.Valid()
  {
    hide Satisfied, Met, Plain, Without;
    var g' := g.(value := g.value[t := normal]);
    assert g'.Valid();
    ClearKeeps(g', wanted);
  }

  datatype Action =
    | SetBits(toSet: Bits)
    | ClearBits(mask: Bits)
    | WaitBits(t: Task, wanted: Bits, clear: bool, all: bool, mayBlock: bool)
    | Rendezvous(t: Task, toSet: Bits, wanted: Bits, mayBlock: bool)
    | Expire(k: nat)
    | Finish(t: Task, wanted: Bits, clear: bool, all: bool, normal: Bits)

  /** What the assertions of the functions demand, and that a waiting task does not run. */
  predicate Enabled(g: Group, a: Action) {
    match a
    case SetBits(toSet) => Plain(toSet)
    case ClearBits(mask) => Plain(mask)
    case WaitBits(t, wanted, _, _, _) => t !in g.waiting && Plain(wanted) && wanted != 0
    case Rendezvous(t, toSet, wanted, _) => t !in g.waiting && Plain(toSet) && Plain(wanted) && wanted != 0
    case Expire(k) => k < |g.waiting|
    case Finish(t, _, _, _, _) => t !in g.waiting && t in g.value
  }

  function Apply(g: Group, a: Action): Group
    requires Enabled(g, a) && forall t <- g.waiting :: t in g.value
  {
    match a
    case SetBits(toSet) => g.Set(toSet)
    case ClearBits(mask) => g.Clear(mask)
    case WaitBits(t, wanted, clear, all, mayBlock) => g.Wait(t, wanted, clear, all, mayBlock).0
    case Rendezvous(t, toSet, wanted, mayBlock) => g.Sync(t, toSet, wanted, mayBlock).0
    case Expire(k) => g.Expired(k)
    case Finish(t, wanted, clear, all, normal) => g.Resume(t, wanted, clear, all, normal).0
  }

  lemma StepKeeps(g: Group, a: Action)
    requires g.Valid() && Enabled(g, a)
    ensures Apply(g, a).Valid()
  {
    hide Satisfied, Met, Plain, Without, Group.Set, Group.Clear, Group.Wait, Group.Sync, Group.Expired, Group.Resume;
    match a
    case SetBits(toSet) => SetKeeps(g, toSet);
    case ClearBits(mask) => ClearKeeps(g, mask);
    case WaitBits(t, wanted, clear, all, mayBlock) => WaitKeeps(g, t, wanted, clear, all, mayBlock);
    case Rendezvous(t, toSet, wanted, mayBlock) => SyncKeeps(g, t, toSet, wanted, mayBlock);
    case Expire(k) => ExpiredKeeps(g, k);
    case Finish(t, wanted, clear, all, normal) => ResumeKeeps(g, t, wanted, clear, all, normal);
  }

  ghost predicate StepAt(groups: seq<Group>, actions: seq<Action>, i: nat)
    requires i < |actions| && i + 1 < |groups|
  {
    && (forall t <- groups[i].waiting :: t in groups[i].value)
    && Enabled(groups[i], actions[i]) && groups[i + 1] == Apply(groups[i], actions[i])
  }

  /** The states of a new event group while `actions` happen. */
  ghost predicate Run(groups: seq<Group>, actions: seq<Action>) {
    && |groups| == |actions| + 1
    && groups[0].bits == 0 && groups[0].waiting == []
    && forall i :: 0 <= i < |actions| ==> StepAt(groups, actions, i)
  }

  /** At any point between calls, no waiting task has its condition met by the bits. */
  lemma {:induction false} NoneStranded(groups: seq<Group>, actions: seq<Action>, k: nat)
    requires Run(groups, actions) && k < |groups|
    ensures groups[k].Valid()
    ensures forall t <- groups[k].waiting :: t in groups[k].value && !Answers(groups[k].bits, groups[k].value[t])
  {
    hide Satisfied, Answers, Apply, Enabled;
    if k > 0 {
      NoneStranded(groups, actions, k - 1);
      assert StepAt(groups, actions, k - 1);
      StepKeeps(groups[k - 1], actions[k - 1]);
    }
    forall t <- groups[k].waiting ensures t in groups[k].value && !Answers(groups[k].bits, groups[k].value[t]) {
      SatisfiedMeans(groups[k].bits, groups[k].value[t]);
    }
  }

  // ---------------------------------------------------------------------------------------------
  // Rendezvous

  datatype Party = Party(task: Task, bit: Bits)

  /** The bits that these parties set. */
  function Gathered(parties: seq<Party>): Bits {
    if parties == [] then 0 else Union(Gathered(parties[..|parties| - 1]), parties[|parties| - 1].bit)
  }

  /** The parties call xEventGroupSync one after the other, all ready to block. */
  function SyncAll(g: Group, parties: seq<Party>, wanted: Bits): (r: Group)
    requires forall t <- g.waiting :: t in g.value
    ensures forall t <- r.waiting :: t in r.value
    decreases |parties|
  {
    if parties == [] then g
    else
      var last := parties[|parties| - 1];
      SyncAll(g, parties[..|parties| - 1], wanted).Sync(last.task, last.bit, wanted, true).0
  }

  ghost predicate Distinct(parties: seq<Party>) {
    forall i, j :: 0 <= i < j < |parties| ==> parties[i].task != parties[j].task
  }

  function Tasks(parties: seq<Party>): (r: seq<Task>)
    ensures |r| == |parties| && forall i :: 0 <= i < |r| ==> r[i] == parties[i].task
  {
    seq(|parties|, i requires 0 <= i < |parties| => parties[i].task)
  }

  lemma UnionAssociates(a: Bits, b: Bits, c: Bits)
    ensures Union(Union(a, b), c) == Union(a, Union(b, c))
    ensures Union(a, 0) == a && Without(a, 0) == a
  {
  }

  lemma MetStays(bits: Bits, more: Bits, wanted: Bits)
    requires Met(bits, wanted, true)
    ensures Met(Union(bits, more), wanted, true)
  {
  }

  lemma ClearTwice(bits: Bits, mask: Bits, wanted: Bits)
    requires Within(mask, wanted)
    ensures Without(Without(bits, mask), wanted) == Without(bits, wanted)
  {
  }

  /** Setting bits that satisfy nobody only sets them. */
  lemma {:induction false} NobodyWoken(waiting: seq<Task>, value: map<Task, Bits>, b: Bits)
    requires forall t <- waiting :: t in value && !Satisfied(b, value[t])
    ensures Kept(waiting, value, b) == waiting && ClearMask(waiting, value, b) == 0
  {
    hide Satisfied, Union;
    if waiting != [] {
      var front, last := waiting[..|waiting| - 1], waiting[|waiting| - 1];
      NobodyWoken(front, value, b);
      assert last in waiting;
      UnionAssociates(0, 0, 0);
      assert waiting == front + [last];
    }
  }

  /** Everybody on the list asks for the whole of `wanted`, to be cleared on exit. */
  ghost predicate AllAskFor(g: Group, wanted: Bits) {
    forall t <- g.waiting :: t in g.value && g.value[t] == Asking(wanted, true, true)
  }

  lemma SetUnmet(g: Group, toSet: Bits, wanted: Bits)
    requires AllAskFor(g, wanted) && Plain(g.bits) && Plain(toSet) && Plain(wanted)
    requires !Met(Union(g.bits, toSet), wanted, true)
    ensures g.Set(toSet) == g.(bits := Union(g.bits, toSet))
  {
    hide Satisfied, Met, Asking, Plain, Union, Without, ClearMask, Kept;
    var b := Union(g.bits, toSet);
    PlainUnion(g.bits, toSet);
    BlockedIsUnmet(b, wanted, true, true);
    NobodyWoken(g.waiting, g.value, b);
    UnionAssociates(b, 0, 0);
    assert g.Answered(b) == g.value;
  }

  lemma {:induction false} GatheredHas(parties: seq<Party>, m: Bits)
    ensures Has(Gathered(parties), m) <==> exists p <- parties :: Has(p.bit, m)
  {
    hide Has, Union;
    if parties == [] {
      NoBits(m);
    } else {
      var front, last := parties[..|parties| - 1], parties[|parties| - 1];
      GatheredHas(front, m);
      UnionHas(Gathered(front), last.bit, m);
      assert forall p :: p in parties <==> p in front || p == last;
    }
  }

  /** A bit of the rendezvous is there neither from before nor by one of these parties. */
  ghost predicate Missing(bits: Bits, parties: seq<Party>, wanted: Bits) {
    exists m | OneBit(m) :: Has(wanted, m) && !Has(bits, m) && forall p <- parties :: !Has(p.bit, m)
  }

  lemma MissingMeans(bits: Bits, parties: seq<Party>, wanted: Bits)
    ensures Missing(bits, parties, wanted) <==> !Met(Union(bits, Gathered(parties)), wanted, true)
  {
    hide Has, OneBit, Met, Union, Gathered;
    var b := Union(bits, Gathered(parties));
    MetMeans(b, wanted, true);
    forall m | OneBit(m) ensures Has(b, m) <==> Has(bits, m) || exists p <- parties :: Has(p.bit, m) {
      UnionHas(bits, Gathered(parties), m);
      GatheredHas(parties, m);
    }
  }

  /** As long as bits are missing, the parties pile up on the list, and their bits stay. */
  lemma Gathering(g: Group, parties: seq<Party>, wanted: Bits)
    requires g.waiting == [] && Plain(g.bits) && Plain(wanted) && Distinct(parties)
    requires (forall p <- parties :: Plain(p.bit)) && Missing(g.bits, parties, wanted)
    ensures var r := SyncAll(g, parties, wanted);
            && (forall m | OneBit(m) :: Has(r.bits, m) <==> Has(g.bits, m) || exists p <- parties :: Has(p.bit, m))
            && r.waiting == Tasks(parties)
            && forall p <- parties :: p.task in r.value && Asks(r.value[p.task], wanted, true, true)
  {
    hide Has, OneBit, Met, Union, Plain, Asks, Asking, SyncAll, Missing;
    MissingMeans(g.bits, parties, wanted);
    PartiesGather(g, parties, wanted);
    var r := SyncAll(g, parties, wanted);
    forall m | OneBit(m) ensures Has(r.bits, m) <==> Has(g.bits, m) || exists p <- parties :: Has(p.bit, m) {
      UnionHas(g.bits, Gathered(parties), m);
      GatheredHas(parties, m);
    }
    AskingAsks(wanted, true, true);
    forall p <- parties ensures p.task in r.value && Asks(r.value[p.task], wanted, true, true) {
      var i :| 0 <= i < |parties| && parties[i] == p;
      assert Tasks(parties)[i] == p.task;
    }
  }

  lemma {:induction false} PartiesGather(g: Group, parties: seq<Party>, wanted: Bits)
    requires g.waiting == [] && Plain(g.bits) && Plain(wanted) && Distinct(parties)
    requires forall p <- parties :: Plain(p.bit)
    requires !Met(Union(g.bits, Gathered(parties)), wanted, true)
    ensures var r := SyncAll(g, parties, wanted);
            && r.bits == Union(g.bits, Gathered(parties)) && Plain(r.bits) && AllAskFor(r, wanted)
            && r.waiting == Tasks(parties)
    decreases |parties|
  {
    hide Satisfied, Met, Asking, Plain, Union, Without, Group.Set;
    UnionAssociates(g.bits, 0, 0);
    if parties != [] {
      var front, last := parties[..|parties| - 1], parties[|parties| - 1];
      var so := Union(g.bits, Gathered(front));
      UnionAssociates(g.bits, Gathered(front), last.bit);
      if Met(so, wanted, true) {
        MetStays(so, last.bit, wanted);
      }
      PartiesGather(g, front, wanted);
      var r := SyncAll(g, front, wanted);
      SetUnmet(r, last.bit, wanted);
      PlainUnion(so, last.bit);
      assert last.task !in Tasks(front);
      assert Tasks(parties) == Tasks(front) + [last.task];
    }
  }

  /** Setting bits that satisfy everybody empties the list. */
  lemma SetMet(g: Group, toSet: Bits, wanted: Bits)
    requires AllAskFor(g, wanted) && Plain(g.bits) && Plain(toSet) && Plain(wanted)
    requires Met(Union(g.bits, toSet), wanted, true)
    ensures var r := g.Set(toSet); var b := Union(g.bits, toSet);
            && r.waiting == [] && Without(r.bits, wanted) == Without(b, wanted)
            && forall t <- g.waiting :: t in r.value && r.value[t] == Delivered(b)
  {
    hide Satisfied, Met, Asking, Plain, Union, Without, ClearMask, Kept, Delivered, Within;
    var b := Union(g.bits, toSet);
    PlainUnion(g.bits, toSet);
    BlockedIsUnmet(b, wanted, true, true);
    WithinIsOrder(wanted, wanted);
    ShareIsWanted(b, wanted);
    ClearMaskIsUnion(g.waiting, g.value, b, wanted);
    ClearTwice(b, ClearMask(g.waiting, g.value, b), wanted);
    HasElement(Kept(g.waiting, g.value, b));
  }

  lemma HasElement(s: seq<Task>)
    ensures s != [] ==> exists t :: t in s
  {
    if s != [] {
      assert s[0] in s;
    }
  }

  lemma ShareIsWanted(b: Bits, wanted: Bits)
    requires Plain(b) && Plain(wanted) && Met(b, wanted, true)
    ensures Share(b, Asking(wanted, true, true)) == wanted
  {
    ItemRoundTrip(wanted, true, true, b);
  }

  /** The bits from before and those of these parties */
  ghost predicate AllBits(b: Bits, before: Bits, parties: seq<Party>) {
    forall m | OneBit(m) :: Has(b, m) <==> Has(before, m) || exists p <- parties :: Has(p.bit, m)
  }

  /** When `last` comes to the rendezvous, it and all of the parties get the bits `b`, and the bits wanted are cleared. */
  ghost predicate Releases(g: Group, parties: seq<Party>, last: Party, wanted: Bits, mayBlock: bool, b: Bits)
    requires forall t <- g.waiting :: t in g.value
  {
    var (r, returned) := g.Sync(last.task, last.bit, wanted, mayBlock);
    && returned == Some(b) && r.waiting == [] && BitsLeft(b, r.bits, wanted, true)
    && forall p <- parties :: GetsBits(r, p.task, wanted, b)
  }

  /** Running again, it returns the bits `b`. */
  ghost predicate GetsBits(g: Group, t: Task, wanted: Bits, b: Bits) {
    t in g.value && forall normal :: g.Resume(t, wanted, true, true, normal).1 == b
  }

  /**
   The last of any number of parties to arrive releases all of them with all the bits, gets the same bits itself,
   and leaves none of the rendezvous bits behind.
   */
  lemma LastArrivalReleasesAll(g: Group, parties: seq<Party>, last: Party, wanted: Bits, mayBlock: bool)
    requires g.waiting == [] && Plain(g.bits) && Plain(wanted) && Distinct(parties)
    requires Plain(last.bit) && forall p <- parties :: Plain(p.bit)
    requires Missing(g.bits, parties, wanted) && !Missing(g.bits, parties + [last], wanted)
    ensures exists b :: AllBits(b, g.bits, parties + [last])
                        && Releases(SyncAll(g, parties, wanted), parties, last, wanted, mayBlock, b)
  {
    hide Has, OneBit, Met, Union, Plain, GetsBits, Group.Sync, SyncAll, Missing, Without, BitsLeft;
    MissingMeans(g.bits, parties, wanted);
    MissingMeans(g.bits, parties + [last], wanted);
    LastReleases(g, parties, last, wanted, mayBlock);
    var b := Union(g.bits, Gathered(parties + [last]));
    ClearedLeaves(b, wanted);
    forall m | OneBit(m) ensures Has(b, m) <==> Has(g.bits, m) || exists p <- parties + [last] :: Has(p.bit, m) {
      UnionHas(g.bits, Gathered(parties + [last]), m);
      GatheredHas(parties + [last], m);
    }
    assert AllBits(b, g.bits, parties + [last]);
  }

  lemma LastReleases(g: Group, parties: seq<Party>, last: Party, wanted: Bits, mayBlock: bool)
    requires g.waiting == [] && Plain(g.bits) && Plain(wanted) && Distinct(parties)
    requires Plain(last.bit) && forall p <- parties :: Plain(p.bit)
    requires !Met(Union(g.bits, Gathered(parties)), wanted, true)
    requires Met(Union(g.bits, Gathered(parties + [last])), wanted, true)
    ensures var b := Union(g.bits, Gathered(parties + [last]));
            var (r, returned) := SyncAll(g, parties, wanted).Sync(last.task, last.bit, wanted, mayBlock);
            && returned == Some(b) && r.waiting == [] && r.bits == Without(b, wanted)
            && forall p <- parties :: GetsBits(r, p.task, wanted, b)
  {
    hide Satisfied, Met, Asking, Plain, Union, Without, Delivered, Group.Set, Group.Resume, Gathered;
    PartiesGather(g, parties, wanted);
    var before := SyncAll(g, parties, wanted);
    GatheredOneMore(parties, last);
    UnionAssociates(g.bits, Gathered(parties), last.bit);
    SetMet(before, last.bit, wanted);
    var b := Union(g.bits, Gathered(parties + [last]));
    PlainUnion(before.bits, last.bit);
    var r := before.Sync(last.task, last.bit, wanted, mayBlock).0;
    forall p <- parties ensures GetsBits(r, p.task, wanted, b) {
      var i :| 0 <= i < |parties| && parties[i] == p;
      assert Tasks(parties)[i] == p.task;
      forall normal ensures r.Resume(p.task, wanted, true, true, normal).1 == b {
        AnswerIsRead(r, p.task, wanted, normal, b);
      }
    }
  }

  lemma GatheredOneMore(parties: seq<Party>, last: Party)
    ensures Gathered(parties + [last]) == Union(Gathered(parties), last.bit)
  {
    assert (parties + [last])[..|parties|] == parties;
  }

  lemma AnswerIsRead(r: Group, t: Task, wanted: Bits, normal: Bits, b: Bits)
    requires t in r.value && r.value[t] == Delivered(b) && Plain(b)
    ensures r.Resume(t, wanted, true, true, normal).1 == b
  {
    ItemRoundTrip(0, true, true, b);
  }

  // ---------------------------------------------------------------------------------------------
  // The code

  /** What the walk has done to the event list items once it has passed `seen`. */
  function AnsweredSoFar(value: map<Task, Bits>, seen: seq<Task>, b: Bits): map<Task, Bits> {
    map t | t in value :: if t in seen && Satisfied(b, value[t]) then Delivered(b) else value[t]
  }

  lemma OnePassed(value: map<Task, Bits>, seen: seq<Task>, t: Task, b: Bits)
    requires t in value && forall x <- seen :: x in value
    ensures Kept(seen + [t], value, b) == Kept(seen, value, b) + if Satisfied(b, value[t]) then [] else [t]
    ensures ClearMask(seen + [t], value, b) == Union(ClearMask(seen, value, b), Share(b, value[t]))
  {
    hide Satisfied, Union, Share, Delivered;
    assert (seen + [t])[..|seen|] == seen;
  }

  lemma OneAnswered(value: map<Task, Bits>, seen: seq<Task>, t: Task, b: Bits)
    requires t in value && t !in seen
    ensures AnsweredSoFar(value, seen + [t], b)
            == if Satisfied(b, value[t]) then AnsweredSoFar(value, seen, b)[t := Delivered(b)]
               else AnsweredSoFar(value, seen, b)
    ensures t in AnsweredSoFar(value, seen, b) && AnsweredSoFar(value, seen, b)[t] == value[t]
  {
    hide Satisfied, Delivered;
  }

  class EventGroup {
    var bits: Bits
    var waiting: seq<Task>        // xTasksWaitingForBits
    var value: map<Task, Bits>    // the tasks' event list item values

    function View(): Group
      reads this
    {
      Group(bits, waiting, value)
    }

    /** `xEventGroupSetBits`: walk the list, taking tasks off while walking; what it returns is read at the end. */
    method SetBits(toSet: Bits) returns (now: Bits)
      requires View().Valid() && Plain(toSet)
      modifies this
      ensures View() == old(View()).Set(toSet) && View().Valid() && now == bits
    {
      hide Satisfied, Plain, Union, Without, Share, Delivered, Group.Set, Walking, Group.Valid;
      bits := Union(bits, toSet);
      SetKeeps(old(View()), toSet);
      WalkStarts(old(View()), bits);
      ghost var n := 0;
      var i, toClear: Bits := 0, 0;
      while i < |waiting|
        invariant bits == Union(old(bits), toSet) && i <= |waiting|
        invariant Walking(old(View()), bits, n, i, waiting, value, toClear)
        decreases |waiting| - i
      {
        WalkStep(old(View()), bits, n, i, waiting, value, toClear);
        var t := waiting[i];
        if Satisfied(bits, value[t]) {
          toClear := Union(toClear, Share(bits, value[t]));
          waiting := RemoveAt(waiting, i);
          value := value[t := Delivered(bits)];
        } else {
          i := i + 1;
        }
        n := n + 1;
      }
      WalkEnds(old(View()), toSet, bits, n, i, waiting, value, toClear);
      bits := Without(bits, toClear);
      now := bits;
    }

    /** `xEventGroupClearBits` */
    method ClearBits(mask: Bits) returns (before: Bits)
      requires View().Valid() && Plain(mask)
      modifies this`bits
      ensures before == old(bits) && View() == old(View()).Clear(mask) && View().Valid()
    {
      ClearKeeps(View(), mask);
      before := bits;
      bits := Without(bits, mask);
    }

    /** `xEventGroupWaitBits` up to the point where the task blocks; a result means that it does not. */
    method WaitBits(t: Task, wanted: Bits, clear: bool, all: bool, mayBlock: bool) returns (r: Option<Bits>)
      requires View().Valid() && t !in waiting && Plain(wanted) && wanted != 0
      modifies this
      ensures (View(), r) == old(View()).Wait(t, wanted, clear, all, mayBlock) && View().Valid()
    {
      hide Satisfied, Plain, Met, Asking, Without;
      WaitKeeps(View(), t, wanted, clear, all, mayBlock);
      if Met(bits, wanted, all) {
        r := Some(bits);
        if clear {
          bits := Without(bits, wanted);
        }
      } else if !mayBlock {
        r := Some(bits);
      } else {
        r := None;
        waiting, value := waiting + [t], value[t := Asking(wanted, clear, all)];
      }
    }

    /** `xEventGroupSync` up to the point where the task blocks */
    method Sync(t: Task, toSet: Bits, wanted: Bits, mayBlock: bool) returns (r: Option<Bits>)
      requires View().Valid() && t !in waiting && Plain(toSet) && Plain(wanted) && wanted != 0
      modifies this
      ensures (View(), r) == old(View()).Sync(t, toSet, wanted, mayBlock) && View().Valid()
    {
      hide Satisfied, Plain, Met, Asking, Without, Union, Group.Set;
      SyncKeeps(View(), t, toSet, wanted, mayBlock);
      var original := bits;
      var now := SetBits(toSet);
      if Met(Union(original, toSet), wanted, true) {
        r := Some(Union(original, toSet));
        bits := Without(bits, wanted);
      } else if mayBlock {
        r := None;
        waiting, value := waiting + [t], value[t := Asking(wanted, true, true)];
      } else {
        r := Some(bits);
      }
    }

    /** The end of `xEventGroupWaitBits` and `xEventGroupSync` once the task runs again */
    method Resume(t: Task, wanted: Bits, clear: bool, all: bool, normal: Bits) returns (r: Bits)
      requires View().Valid() && t in value && t !in waiting
      modifies this
      ensures (View(), r) == old(View()).Resume(t, wanted, clear, all, normal) && View().Valid()
    {
      hide Satisfied, Plain, Met, Without;
      ResumeKeeps(View(), t, wanted, clear, all, normal);
      r := value[t];
      value := value[t := normal];
      if r & UNBLOCKED_BY_SET == 0 {
        r := bits;
        if Met(r, wanted, all) && clear {
          bits := Without(bits, wanted);
        }
      }
      r := r & !CONTROL;
    }
  }

  lemma NotSeen(all: seq<Task>, n: nat)
    requires NoDup(all) && n < |all|
    ensures all[n] !in all[..n] && all[..n + 1] == all[..n] + [all[n]]
  {
  }

  /** The list in the middle of the walk: those kept, then those still to be looked at. */
  lemma Walked(kept: seq<Task>, all: seq<Task>, n: nat)
    requires n < |all|
    ensures var list, i := kept + all[n..], |kept|;
            && i < |list| && list[i] == all[n]
            && RemoveAt(list, i) == kept + all[n + 1..]
            && list == (kept + [all[n]]) + all[n + 1..]
  {
    assert all[n..] == [all[n]] + all[n + 1..];
  }

  lemma SetIsWalk(g: Group, toSet: Bits)
    requires forall t <- g.waiting :: t in g.value
    ensures var b := Union(g.bits, toSet);
            g.Set(toSet) == Group(Without(b, ClearMask(g.waiting, g.value, b)), Kept(g.waiting, g.value, b),
                                  AnsweredSoFar(g.value, g.waiting, b))
  {
    hide Satisfied, Union, Without, Delivered;
    var b := Union(g.bits, toSet);
    assert g.Answered(b) == AnsweredSoFar(g.value, g.waiting, b);
  }

  /** In the middle of the walk over the list of `g`, with `n` of its tasks passed and `i` of them kept. */
  ghost predicate Walking(g: Group, b: Bits, n: nat, i: nat, waiting: seq<Task>, value: map<Task, Bits>, toClear: Bits) {
    && g.Valid() && n <= |g.waiting| && i <= |waiting|
    && var seen := g.waiting[..n];
    && i == |Kept(seen, g.value, b)|
    && waiting == Kept(seen, g.value, b) + g.waiting[n..]
    && value == AnsweredSoFar(g.value, seen, b)
    && toClear == ClearMask(seen, g.value, b)
  }

  lemma WalkStarts(g: Group, b: Bits)
    requires g.Valid()
    ensures Walking(g, b, 0, 0, g.waiting, g.value, 0)
  {
    hide Satisfied, Plain, Delivered, ClearMask, Kept, AnsweredSoFar;
    EmptyWalk(g.value, b);
  }

  lemma WalkStep(g: Group, b: Bits, n: nat, i: nat, waiting: seq<Task>, value: map<Task, Bits>, toClear: Bits)
    requires Walking(g, b, n, i, waiting, value, toClear) && i < |waiting|
    ensures waiting[i] in value
    ensures var t := waiting[i];
            if Satisfied(b, value[t])
            then Walking(g, b, n + 1, i, RemoveAt(waiting, i), value[t := Delivered(b)], Union(toClear, Share(b, value[t])))
            else Walking(g, b, n + 1, i + 1, waiting, value, toClear)
  {
    hide Satisfied, Plain, Union, Share, Delivered, ClearMask, Kept, AnsweredSoFar, RemoveAt, NoDup;
    var seen := g.waiting[..n];
    Walked(Kept(seen, g.value, b), g.waiting, n);
    NotSeen(g.waiting, n);
    OnePassed(g.value, seen, g.waiting[n], b);
    OneAnswered(g.value, seen, g.waiting[n], b);
    if !Satisfied(b, g.value[g.waiting[n]]) {
      UnsatisfiedShare(b, g.value[g.waiting[n]], toClear);
    }
  }

  lemma WalkEnds(g: Group, toSet: Bits, b: Bits, n: nat, i: nat, waiting: seq<Task>, value: map<Task, Bits>, toClear: Bits)
    requires Walking(g, b, n, i, waiting, value, toClear) && i == |waiting| && b == Union(g.bits, toSet)
    ensures forall t <- g.waiting :: t in g.value
    ensures g.Set(toSet) == Group(Without(b, toClear), waiting, value)
  {
    hide Satisfied, Plain, Union, Without, Delivered, ClearMask, Kept, AnsweredSoFar, NoDup;
    assert g.waiting[..n] == g.waiting;
    SetIsWalk(g, toSet);
  }

  lemma UnsatisfiedShare(b: Bits, item: Bits, mask: Bits)
    requires !Satisfied(b, item)
    ensures Union(mask, Share(b, item)) == mask
  {
    hide Satisfied;
    UnionAssociates(mask, 0, 0);
  }

  lemma EmptyWalk(value: map<Task, Bits>, b: Bits)
    ensures Kept([], value, b) == [] && ClearMask([], value, b) == 0 && AnsweredSoFar(value, [], b) == value
  {
    hide Satisfied, Delivered;
  }
}
