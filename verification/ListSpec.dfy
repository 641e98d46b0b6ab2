/**
 Sequence-level meaning of the kernel's intrusive lists (lib/freertos/list.c).

 A list is its items in link order, the end marker left out.  The functions here say what each
 list operation does to that sequence and to the walking cursor `pxIndex`; module Lists proves the
 pointer code against them, and the other modules use them in place of pointers.
 */
module ListSpec {

  ghost predicate NoDup<T>(s: seq<T>) {
    forall i, j :: 0 <= i < j < |s| ==> s[i] != s[j]
  }

  function Elements<T(==)>(s: seq<T>): set<T> {
    set x | x in s
  }

  lemma {:induction false} DistinctCount<T>(s: seq<T>)
    requires NoDup(s)
    ensures |Elements(s)| == |s|
  {
    if s != [] {
      DistinctCount(s[1..]);
      assert Elements(s) == {s[0]} + Elements(s[1..]);
      assert s[0] !in Elements(s[1..]);
    }
  }

  ghost predicate Sorted(values: seq<nat>) {
    forall i, j :: 0 <= i < j < |values| ==> values[i] <= values[j]
  }

  function InsertAt<T>(s: seq<T>, p: nat, x: T): (r: seq<T>)
    requires p <= |s|
  {
    s[..p] + [x] + s[p..]
  }

  /** Where `vListInsert` puts a value: in front of the first strictly greater one. */
  function InsertPos(values: seq<nat>, v: nat): (p: nat)
    ensures p <= |values|
    ensures forall i :: 0 <= i < p ==> values[i] <= v
    ensures p < |values| ==> values[p] > v
  {
    if values == [] || values[0] > v then 0 else 1 + InsertPos(values[1..], v)
  }

  /** The position is the only one its contract allows. */
  lemma {:induction false} InsertPosUnique(values: seq<nat>, v: nat, p: nat)
    requires p <= |values|
    requires forall i :: 0 <= i < p ==> values[i] <= v
    requires p < |values| ==> values[p] > v
    ensures p == InsertPos(values, v)
  {
    if p > 0 {
      InsertPosUnique(values[1..], v, p - 1);
    }
  }

  /** Insertion keeps a sorted list sorted, and it is stable: equal values stay in front. */
  lemma InsertKeepsSorted(values: seq<nat>, v: nat)
    requires Sorted(values)
    ensures Sorted(InsertAt(values, InsertPos(values, v), v))
    ensures forall i :: InsertPos(values, v) <= i < |values| ==> values[i] > v
  {
    hide InsertPos;
    var p := InsertPos(values, v);
    forall i | p <= i < |values| ensures values[i] > v {
      assert values[p] <= values[i];
    }
    var r := InsertAt(values, p, v);
    assert forall i :: 0 <= i < |r| ==> r[i] == if i < p then values[i] else if i == p then v else values[i - 1];
  }

  function IndexOf<T(==)>(s: seq<T>, x: T): (k: nat)
    requires x in s
    ensures k < |s| && s[k] == x
    ensures x !in s[..k]
  {
    if s[0] == x then 0 else 1 + IndexOf(s[1..], x)
  }

  /** Everything but the element at `k`. */
  function RemoveAt<T>(s: seq<T>, k: nat): (r: seq<T>)
    requires k < |s|
  {
    s[..k] + s[k + 1..]
  }

  lemma RemoveKeepsSorted(values: seq<nat>, k: nat)
    requires Sorted(values) && k < |values|
    ensures Sorted(RemoveAt(values, k))
  {
    var r := RemoveAt(values, k);
    assert forall i :: 0 <= i < |r| ==> r[i] == values[if i < k then i else i + 1];
  }

  // ---------------------------------------------------------------------------------------------
  // The cursor.  Position 0 is the end marker, position k + 1 is items[k].

  datatype Ring<T> = Ring(items: seq<T>, cursor: nat) {
    ghost predicate Valid() {
      cursor <= |items|
    }
  }

  /** `vListInsertEnd`: just behind the cursor, counting backwards. */
  function InsertEnd<T>(r: Ring<T>, x: T): (r': Ring<T>)
    requires r.Valid()
    ensures r'.Valid()
  {
    if r.cursor == 0 then Ring(r.items + [x], 0)
    else Ring(InsertAt(r.items, r.cursor - 1, x), r.cursor + 1)
  }

  /** `vListInsert` at the position found for the value. */
  function InsertSorted<T>(r: Ring<T>, p: nat, x: T): (r': Ring<T>)
    requires r.Valid() && p <= |r.items|
    ensures r'.Valid()
  {
    Ring(InsertAt(r.items, p, x), if r.cursor > p then r.cursor + 1 else r.cursor)
  }

  /** `uxListRemove` of items[k]: the cursor steps back if it stood on the removed item. */
  function Remove<T>(r: Ring<T>, k: nat): (r': Ring<T>)
    requires r.Valid() && k < |r.items|
    ensures r'.Valid()
  {
    Ring(RemoveAt(r.items, k), if r.cursor > k then r.cursor - 1 else r.cursor)
  }

  /** `listGET_OWNER_OF_NEXT_ENTRY`: advance, skipping the end marker. */
  function Advance<T>(r: Ring<T>): (r': Ring<T>)
    requires r.Valid() && r.items != []
    ensures r'.Valid() && r'.cursor > 0
  {
    r.(cursor := if r.cursor < |r.items| then r.cursor + 1 else 1)
  }

  /** The items in the order in which the cursor will meet them. */
  function Upcoming<T>(r: Ring<T>): (s: seq<T>)
    requires r.Valid()
    ensures |s| == |r.items|
  {
    r.items[r.cursor..] + r.items[..r.cursor]
  }

  /** Advancing returns the head of the upcoming order and sends it to the back. */
  lemma AdvanceRotates<T>(r: Ring<T>)
    requires r.Valid() && r.items != []
    ensures var u := Upcoming(r); var r' := Advance(r);
            r'.items[r'.cursor - 1] == u[0] && Upcoming(r') == u[1..] + [u[0]]
  {
  }

  /**
   The new item is the last one the cursor meets, except that the item the cursor stands on
   (which has just been returned) still comes after it.
   */
  lemma InsertEndIsLast<T>(r: Ring<T>, x: T)
    requires r.Valid()
    ensures var u := Upcoming(r); var u' := Upcoming(InsertEnd(r, x));
            u' == if r.cursor == 0 then u + [x] else u[..|u| - 1] + [x] + u[|u| - 1..]
  {
    if r.cursor > 0 {
      var u, u' := Upcoming(r), Upcoming(InsertEnd(r, x));
      var c := r.cursor;
      assert u[|u| - 1] == r.items[c - 1];
      assert InsertEnd(r, x).items[c + 1..] == r.items[c..];
    }
  }

  /** How many other items the cursor meets before items[k]. */
  function Ahead<T>(r: Ring<T>, k: nat): (d: nat)
    requires r.Valid() && k < |r.items|
    ensures d < |Upcoming(r)| && Upcoming(r)[d] == r.items[k]
  {
    if k >= r.cursor then k - r.cursor else |r.items| - r.cursor + k
  }

  /** Whichever item is removed, the cursor meets all others in the same order as before. */
  lemma RemoveKeepsTurns<T>(r: Ring<T>, k: nat)
    requires r.Valid() && k < |r.items|
    ensures Upcoming(Remove(r, k)) == RemoveAt(Upcoming(r), Ahead(r, k))
  {
    var front, back := r.items[..r.cursor], r.items[r.cursor..];
    assert r.items == front + back;
    RemoveFromSum(front, back, k);
    RemoveFromSum(back, front, Ahead(r, k));
    if k >= r.cursor {
      assert Remove(r, k).items[..r.cursor] == front && Remove(r, k).items[r.cursor..] == RemoveAt(back, k - r.cursor);
    } else {
      assert Remove(r, k).items[..r.cursor - 1] == RemoveAt(front, k) && Remove(r, k).items[r.cursor - 1..] == back;
    }
  }

  lemma RemoveFromSum<T>(a: seq<T>, b: seq<T>, k: nat)
    requires k < |a + b|
    ensures RemoveAt(a + b, k) == if k < |a| then RemoveAt(a, k) + b else a + RemoveAt(b, k - |a|)
  {
    if k < |a| {
      assert (a + b)[..k] == a[..k] && (a + b)[k + 1..] == a[k + 1..] + b;
    } else {
      assert (a + b)[..k] == a + b[..k - |a|] && (a + b)[k + 1..] == b[k - |a| + 1..];
    }
  }

  /** Above all, when the item under the cursor goes, which has had its turn, the next one in turn stays the same. */
  lemma LeavingKeepsTurns<T>(r: Ring<T>)
    requires r.Valid() && r.cursor > 0
    ensures var u := Upcoming(r); u[|u| - 1] == r.items[r.cursor - 1] && Upcoming(Remove(r, r.cursor - 1)) == u[..|u| - 1]
  {
    var u := Upcoming(r);
    RemoveKeepsTurns(r, r.cursor - 1);
    assert Ahead(r, r.cursor - 1) == |u| - 1;
    assert u[|u| - 1 + 1..] == [];
  }

  /** An item that is removed while the cursor stands on it and then inserted at the end of the same list. */
  function Returned<T>(r: Ring<T>): Ring<T>
    requires r.Valid() && r.cursor > 0
  {
    InsertEnd(Remove(r, r.cursor - 1), r.items[r.cursor - 1])
  }

  /**
   It comes last again exactly if it was the first of the list, or the only one; otherwise the cursor has stepped back
   to the item in front of it, which is now met after it.
   */
  lemma ReturningOvertakes<T>(r: Ring<T>)
    requires r.Valid() && r.cursor > 0
    ensures var u, x := Upcoming(r), r.items[r.cursor - 1]; var others := u[..|u| - 1];
            && u == others + [x]
            && Upcoming(Returned(r))
               == if r.cursor == 1 then u else others[..|others| - 1] + [x] + [others[|others| - 1]]
  {
    hide Upcoming, InsertEnd, RemoveAt;
    LeavingKeepsTurns(r);
    InsertEndIsLast(Remove(r, r.cursor - 1), r.items[r.cursor - 1]);
    var u := Upcoming(r);
    assert u == u[..|u| - 1] + [u[|u| - 1]];
    if r.cursor > 1 {
      var others := u[..|u| - 1];
      assert others[|others| - 1..] == [others[|others| - 1]];
    }
  }

  /** Sorted insertion leaves the cursor on its item, or on the marker. */
  lemma InsertSortedKeepsCursor<T>(r: Ring<T>, p: nat, x: T)
    requires r.Valid() && p <= |r.items|
    ensures var t := InsertSorted(r, p, x);
            if r.cursor == 0 then t.cursor == 0 else t.cursor > 0 && t.items[t.cursor - 1] == r.items[r.cursor - 1]
  {
  }

  datatype Op<T> = Insert(x: T) | Next

  /** A run of insertions at the end and cursor advances; the second result is what was returned. */
  function Walk<T>(r: Ring<T>, ops: seq<Op<T>>): (res: (Ring<T>, seq<T>))
    requires r.Valid() && r.items != []
    decreases |ops|
  {
    if ops == [] then (r, [])
    else match ops[0]
      case Insert(x) => Walk(InsertEnd(r, x), ops[1..])
      case Next =>
        var r' := Advance(r);
        var (last, returned) := Walk(r', ops[1..]);
        (last, [r'.items[r'.cursor - 1]] + returned)
  }

  /** How many items are certain to be met before the one under the cursor comes round again. */
  function Certain<T>(r: Ring<T>): nat
    requires r.Valid()
  {
    if r.cursor == 0 then |r.items| else |r.items| - 1
  }

  /**
   Fair walking: while nothing is removed, every item except the one under the cursor is returned
   after exactly as many advances as it is away now, however many insertions come in between.
   */
  lemma {:induction false} WalkIsFair<T>(r: Ring<T>, ops: seq<Op<T>>, d: nat)
    requires r.Valid() && r.items != []
    requires d < Certain(r)
    ensures var returned := Walk(r, ops).1;
            d < |returned| ==> returned[d] == Upcoming(r)[d]
    decreases |ops|
  {
    if ops != [] {
      match ops[0]
      case Insert(x) =>
        InsertEndIsLast(r, x);
        WalkIsFair(InsertEnd(r, x), ops[1..], d);
      case Next =>
        AdvanceRotates(r);
        if d > 0 {
          WalkIsFair(Advance(r), ops[1..], d - 1);
        }
    }
  }
}
