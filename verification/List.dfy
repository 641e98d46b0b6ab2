/**
 The intrusive circular doubly linked list of lib/freertos/list.c, on pointers.

 `View()` is the list as ListSpec sees it: the items in link order plus the place of `pxIndex`.
 */
module Lists {
  import opened ListSpec
  import opened Ticks

  class ListItem {
    var itemValue: nat
    var next: ListItem?
    var previous: ListItem?
    var container: List?

    /** `vListInitialiseItem` */
    constructor (v: nat)
      ensures itemValue == v && container == null
    {
      itemValue := v;
      next, previous, container := null, null, null;
    }
  }

  /** Step `i` round the circle is linked both ways. */
  ghost predicate Link(circle: seq<ListItem>, i: nat)
    requires i + 1 < |circle|
    reads circle[i], circle[i + 1]
  {
    circle[i].next == circle[i + 1] && circle[i + 1].previous == circle[i]
  }

  /** `circle` is the list written out once round: the marker, the items, the marker again. */
  ghost predicate Linked(circle: seq<ListItem>)
    reads circle
  {
    forall i :: 0 <= i < |circle| - 1 ==> Link(circle, i)
  }

  /** Marker and items are all different objects. */
  ghost predicate Simple(circle: seq<ListItem>) {
    && |circle| >= 2
    && circle[0] == circle[|circle| - 1]
    && (forall i, j :: 1 <= i < j < |circle| ==> circle[i] != circle[j])
  }

  /** Different steps round the circle start, and end, at different items. */
  lemma DistinctSteps(circle: seq<ListItem>, i: nat, p: nat)
    requires Simple(circle) && p + 1 < |circle| && i + 1 < |circle| && i != p
    ensures circle[i] != circle[p] && circle[i + 1] != circle[p + 1]
  {
  }

  /** The items of a circle: what is left without the two marker entries. */
  function Inner<T>(circle: seq<T>): (items: seq<T>)
    requires |circle| >= 2
  {
    circle[1..|circle| - 1]
  }

  lemma InnerInsert<T>(circle: seq<T>, p: nat, x: T)
    requires p + 1 < |circle|
    ensures Inner(InsertAt(circle, p + 1, x)) == InsertAt(Inner(circle), p, x)
    ensures forall y :: y in InsertAt(circle, p + 1, x) <==> y == x || y in circle
  {
    assert circle == circle[..p + 1] + circle[p + 1..];
    InnerMiddle(circle[..p + 1], [x], circle[p + 1..]);
    InnerMiddle(circle[..p + 1], [], circle[p + 1..]);
    assert circle[..p + 1] + [] == circle[..p + 1];
  }

  lemma InnerMiddle<T>(front: seq<T>, middle: seq<T>, back: seq<T>)
    requires |front| > 0 && |back| > 0
    ensures Inner(front + middle + back) == front[1..] + middle + back[..|back| - 1]
  {
  }

  lemma InsertedAt<T>(circle: seq<T>, p: nat, x: T, c: nat)
    requires p + 1 < |circle| && c < |circle| - 1
    ensures var circle' := InsertAt(circle, p + 1, x);
            |circle'| == |circle| + 1 && circle'[if c > p then c + 1 else c] == circle[c]
  {
  }

  lemma InnerRemove(circle: seq<ListItem>, k: nat)
    requires k + 2 < |circle|
    ensures Inner(RemoveAt(circle, k + 1)) == RemoveAt(Inner(circle), k)
    ensures forall y :: y in RemoveAt(circle, k + 1) ==> y in circle
    ensures Simple(circle) ==> circle[k + 1] !in RemoveAt(circle, k + 1)
  {
    var circle' := RemoveAt(circle, k + 1);
    assert forall i :: 0 <= i < |circle'| ==> circle'[i] == circle[if i <= k then i else i + 1];
    var a, b := Inner(circle'), RemoveAt(Inner(circle), k);
    assert |a| == |b| && forall i :: 0 <= i < |a| ==> a[i] == b[i];
    if Simple(circle) {
      forall y <- circle' ensures y in circle && y != circle[k + 1] {
        var i :| 0 <= i < |circle'| && circle'[i] == y;
        assert y == circle[if i <= k then i else i + 1];
      }
    }
  }

  /** Where the cursor's item is once circle[k + 1] is gone. */
  lemma RemovedAt(circle: seq<ListItem>, k: nat, c: nat)
    requires Simple(circle) && k + 2 < |circle| && c < |circle| - 1
    ensures circle[c] == circle[k + 1] <==> c == k + 1
    ensures var circle' := RemoveAt(circle, k + 1); var c' := if c > k then c - 1 else c;
            |circle'| == |circle| - 1 && circle'[c'] == if c == k + 1 then circle[k] else circle[c]
  {
  }

  /** Linking `x` in between circle[p] and circle[p + 1] gives a linked circle again. */
  lemma LinkIn(circle: seq<ListItem>, p: nat, x: ListItem)
    requires Simple(circle) && x !in circle && p + 1 < |circle|
    requires forall i :: 0 <= i < |circle| - 1 && i != p ==> Link(circle, i)
    requires circle[p].next == x && x.previous == circle[p]
    requires circle[p + 1].previous == x && x.next == circle[p + 1]
    ensures var circle' := InsertAt(circle, p + 1, x); Linked(circle') && Simple(circle')
  {
    var circle' := InsertAt(circle, p + 1, x);
    forall i | 0 <= i < |circle'| - 1
      ensures Link(circle', i)
    {
      if i < p {
        assert Link(circle, i);
      } else if i > p + 1 {
        assert Link(circle, i - 1);
      }
    }
  }

  /** Linking circle[k + 1] out gives a linked circle again, without that item. */
  lemma LinkOut(circle: seq<ListItem>, k: nat)
    requires Simple(circle) && k + 2 < |circle|
    requires forall i :: 0 <= i < |circle| - 1 && i != k && i != k + 1 ==> Link(circle, i)
    requires circle[k].next == circle[k + 2] && circle[k + 2].previous == circle[k]
    ensures var circle' := RemoveAt(circle, k + 1);
            Linked(circle') && Simple(circle')
  {
    var circle' := RemoveAt(circle, k + 1);
    assert forall i :: 0 <= i < |circle'| ==> circle'[i] == circle[if i <= k then i else i + 1];
    forall i | 0 <= i < |circle'| - 1
      ensures Link(circle', i)
    {
      if i < k {
        assert Link(circle, i);
      } else if i > k {
        assert Link(circle, i + 1);
      }
    }
  }

  lemma StepBack(circle: seq<ListItem>, k: nat)
    requires Linked(circle) && k + 1 < |circle|
    ensures circle[k + 1].previous == circle[k]
  {
    assert Link(circle, k);
  }

  class List {
    const end: ListItem            // xListEnd
    var index: ListItem            // pxIndex
    var numberOfItems: nat
    /** The list written out once round: the marker, the items, the marker again. */
    ghost var circle: seq<ListItem>
    ghost var cursor: nat

    ghost predicate Shape()
      reads this, circle
    {
      && Simple(circle) && Linked(circle) && circle[0] == end
      && (forall y <- circle :: y != end ==> y.container == this && y.itemValue <= MAX_DELAY)
      && end.itemValue == MAX_DELAY
    }

    ghost predicate Valid()
      reads this, circle
    {
      && Shape()
      && cursor < |circle| - 1 && index == circle[cursor]
      && numberOfItems == |circle| - 2
    }

    ghost function View(): (r: Ring<ListItem>)
      requires Valid()
      reads this, circle
      ensures r.Valid()
    {
      Ring(Inner(circle), cursor)
    }

    ghost function Values(): (v: seq<nat>)
      requires |circle| >= 2
      reads this, circle
      ensures |v| == |circle| - 2
    {
      seq(|circle| - 2, i requires 0 <= i < |circle| - 2 reads this, circle => circle[i + 1].itemValue)
    }

    /** `vListInitialise` */
    constructor ()
      ensures Valid() && View() == Ring([], 0)
      ensures fresh(this) && fresh(circle)
    {
      var marker := new ListItem(MAX_DELAY);
      end := marker;
      index := marker;
      numberOfItems := 0;
      circle, cursor := [marker, marker], 0;
      new;
      end.next, end.previous := end, end;
    }

    /** `vListInsertEnd` */
    method InsertEnd(x: ListItem)
      requires Valid() && x !in circle && x.itemValue <= MAX_DELAY
      modifies circle`next, circle`previous, this`numberOfItems, this`circle, this`cursor
      modifies x`next, x`previous, x`container
      ensures Valid() && View() == ListSpec.InsertEnd(old(View()), x)
    {
      ghost var p := if cursor == 0 then |circle| - 2 else cursor - 1;
      InnerInsert(circle, p, x);
      LinkBefore(index, x, p);
      numberOfItems := numberOfItems + 1;
      cursor := if cursor == 0 then 0 else cursor + 1;
    }

    /** The pointer writes of `vListInsertEnd`. */
    method LinkBefore(at: ListItem, x: ListItem, ghost p: nat)
      requires Shape() && x !in circle && x.itemValue <= MAX_DELAY
      requires p + 1 < |circle| && at == circle[p + 1]
      modifies circle`next, circle`previous, this`circle
      modifies x`next, x`previous, x`container
      ensures Shape() && circle == InsertAt(old(circle), p + 1, x)
    {
      ghost var was := circle;
      assert Link(was, p);
      x.next := at;
      x.previous := at.previous;
      at.previous.next := x;
      at.previous := x;
      x.container := this;
      circle := InsertAt(was, p + 1, x);
      forall i | 0 <= i < |was| - 1 && i != p ensures Link(was, i) {
        DistinctSteps(was, i, p);
        assert old(Link(was, i));
      }
      LinkIn(was, p, x);
      InnerInsert(was, p, x);
    }

    /** `vListInsert`; for MAX_DELAY the search is skipped, as it would not stop at the marker. */
    method Insert(x: ListItem)
      requires Valid() && x !in circle && x.itemValue <= MAX_DELAY
      modifies circle`next, circle`previous, this`numberOfItems, this`circle, this`cursor
      modifies x`next, x`previous, x`container
      ensures Valid()
      ensures View() == InsertSorted(old(View()), InsertPos(old(Values()), x.itemValue), x)
    {
      ghost var p := InsertPos(Values(), x.itemValue);
      var at := FindPredecessor(x.itemValue);
      InsertAfter(at, x, p);
    }

    /** What `vListInsert` does once it has found the place. */
    method InsertAfter(at: ListItem, x: ListItem, ghost p: nat)
      requires Valid() && x !in circle && x.itemValue <= MAX_DELAY
      requires p + 1 < |circle| && at == circle[p]
      modifies circle`next, circle`previous, this`numberOfItems, this`circle, this`cursor
      modifies x`next, x`previous, x`container
      ensures Valid() && View() == InsertSorted(old(View()), p, x)
    {
      hide Simple, Linked;
      InnerInsert(circle, p, x);
      InsertedAt(circle, p, x, cursor);
      LinkAfter(at, x, p);
      numberOfItems := numberOfItems + 1;
      cursor := if cursor > p then cursor + 1 else cursor;
    }

    /** The pointer writes that end `vListInsert`. */
    method LinkAfter(at: ListItem, x: ListItem, ghost p: nat)
      requires Shape() && x !in circle && x.itemValue <= MAX_DELAY
      requires p + 1 < |circle| && at == circle[p]
      modifies circle`next, circle`previous, this`circle
      modifies x`next, x`previous, x`container
      ensures Shape() && circle == InsertAt(old(circle), p + 1, x)
    {
      ghost var was := circle;
      assert Link(was, p);
      x.next := at.next;
      x.next.previous := x;
      x.previous := at;
      at.next := x;
      x.container := this;
      circle := InsertAt(was, p + 1, x);
      forall i | 0 <= i < |was| - 1 && i != p ensures Link(was, i) {
        DistinctSteps(was, i, p);
        assert old(Link(was, i));
      }
      LinkIn(was, p, x);
      InnerInsert(was, p, x);
    }

    /** The pointer writes that begin `uxListRemove`. */
    method Unlink(x: ListItem, ghost k: nat)
      requires Shape() && k + 2 < |circle| && x == circle[k + 1]
      modifies circle`next, circle`previous, this`circle
      ensures Shape() && circle == RemoveAt(old(circle), k + 1)
      ensures x.previous == old(x.previous) && x !in circle
    {
      ghost var was := circle;
      assert Link(was, k) && Link(was, k + 1);
      DistinctSteps(was, k, k + 1);
      x.next.previous := x.previous;
      x.previous.next := x.next;
      circle := RemoveAt(was, k + 1);
      forall i | 0 <= i < |was| - 1 && i != k && i != k + 1 ensures Link(was, i) {
        DistinctSteps(was, i, k);
        DistinctSteps(was, i, k + 1);
        assert old(Link(was, i));
      }
      LinkOut(was, k);
      InnerRemove(was, k);
    }

    /** The search of `vListInsert`: the item after which a value belongs. */
    method FindPredecessor(v: nat) returns (at: ListItem)
      requires Valid() && v <= MAX_DELAY
      ensures at == circle[InsertPos(Values(), v)]
    {
      ghost var values := Values();
      ghost var p: nat;
      if v == MAX_DELAY {
        p := |values|;
        assert Link(circle, p);
        at := end.previous;
      } else {
        at, p := end, 0;
        assert Link(circle, p);
        while at.next.itemValue <= v
          invariant p <= |values| && at == circle[p] && at.next == circle[p + 1]
          invariant forall i :: 0 <= i < p ==> values[i] <= v
          decreases |values| - p
        {
          at, p := at.next, p + 1;
          assert Link(circle, p);
        }
      }
      InsertPosUnique(values, v, p);
    }

    /** `listGET_OWNER_OF_NEXT_ENTRY` */
    method NextEntry() returns (x: ListItem)
      requires Valid() && View().items != []
      modifies this`index, this`cursor
      ensures Valid() && View() == Advance(old(View()))
      ensures x == View().items[View().cursor - 1]
    {
      assert Link(circle, cursor);
      index := index.next;
      if index == end {
        assert Link(circle, 0);
        index := index.next;
      }
      x := index;
      cursor := if cursor < |circle| - 2 then cursor + 1 else 1;
    }
  }

  /** `uxListRemove`; the item finds its list through its container. */
  method ListRemove(x: ListItem) returns (remaining: nat)
    requires x.container != null && x.container.Valid() && x in x.container.View().items
    modifies x.container.circle`next, x.container.circle`previous, x`container
    modifies x.container`index, x.container`numberOfItems, x.container`circle, x.container`cursor
    ensures x.container == null
    ensures var l := old(x.container);
            && l.Valid()
            && remaining == |l.View().items|
            && l.View() == Remove(old(l.View()), IndexOf(old(l.View().items), x))
  {
    hide Simple, Linked, RemoveAt;
    var l := x.container;
    ghost var k := IndexOf(Inner(l.circle), x);
    StepBack(l.circle, k);
    InnerRemove(l.circle, k);
    RemovedAt(l.circle, k, l.cursor);
    l.Unlink(x, k);
    if l.index == x {
      l.index := x.previous;
    }
    x.container := null;
    l.numberOfItems := l.numberOfItems - 1;
    l.cursor := if l.cursor > k then l.cursor - 1 else l.cursor;
    remaining := l.numberOfItems;
  }
}
