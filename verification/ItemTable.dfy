/**
 A family of kernel lists together with the container pointer of every list item.

 Each task owns one state list item and one event list item (lib/freertos/tasks.c:254-255); an item
 knows the list it is in, and `uxListRemove` finds the list through the item.  A Table is all the
 lists one kind of item can be in, plus those container pointers.
 */
module ItemTable {
  import opened ListSpec

  datatype Table<K(==), T(==)> = Table(lists: map<K, Ring<T>>, container: map<T, K>) {

    /** Containers and lists agree, so an item is in at most one list, once. */
    ghost predicate Valid() {
      && (forall k <- lists :: lists[k].Valid() && NoDup(lists[k].items))
      && (forall x <- container :: container[x] in lists && x in lists[container[x]].items)
      && (forall k <- lists, x <- lists[k].items :: x in container && container[x] == k)
    }

    function Items(k: K): (s: seq<T>)
      requires k in lists
    {
      lists[k].items
    }

    /** `uxListRemove` */
    function Remove(x: T): (t: Table<K, T>)
      requires Valid() && x in container
      ensures t.Valid() && t.container == container - {x} && t.lists.Keys == lists.Keys
      ensures forall k <- lists :: k != container[x] ==> t.lists[k] == lists[k]
      ensures x in Items(container[x])
      ensures t.lists[container[x]] == ListSpec.Remove(lists[container[x]], IndexOf(Items(container[x]), x))
    {
      var k := container[x];
      var ring := ListSpec.Remove(lists[k], IndexOf(Items(k), x));
      RemoveMembers(Items(k), x);
      TakeOutIsValid(x, ring);
      Table(lists[k := ring], container - {x})
    }

    /** `vListInsertEnd` */
    function Append(k: K, x: T): (t: Table<K, T>)
      requires Valid() && k in lists && x !in container
      ensures t.Valid() && t.container == container[x := k] && t.lists.Keys == lists.Keys
      ensures forall j <- lists :: j != k ==> t.lists[j] == lists[j]
    {
      var ring := InsertEnd(lists[k], x);
      InsertEndMembers(lists[k], x);
      PutInIsValid(k, x, ring);
      Table(lists[k := ring], container[x := k])
    }

    /** `vListInsert` of an item with value `v`, the values of the others being given by `values`. */
    function Insert(k: K, x: T, v: nat, values: map<T, nat>): (t: Table<K, T>)
      requires Valid() && k in lists && x !in container
      requires forall y <- Items(k) :: y in values
      ensures t.Valid() && t.container == container[x := k] && t.lists.Keys == lists.Keys
      ensures forall j <- lists :: j != k ==> t.lists[j] == lists[j]
      ensures t.lists[k] == InsertSorted(lists[k], InsertPos(ValuesOf(Items(k), values), v), x)
    {
      var p := InsertPos(ValuesOf(Items(k), values), v);
      var ring := InsertSorted(lists[k], p, x);
      InsertMembers(Items(k), p, x);
      PutInIsValid(k, x, ring);
      Table(lists[k := ring], container[x := k])
    }

    /** `uxListRemove` followed by `vListInsertEnd`. */
    function Move(k: K, x: T): (t: Table<K, T>)
      requires Valid() && x in container && k in lists
      ensures t.Valid() && t.container == container[x := k] && t.lists.Keys == lists.Keys
      ensures forall j <- lists :: j != k && j != container[x] ==> t.lists[j] == lists[j]
      ensures x in Items(container[x])
      ensures container[x] != k ==>
        && t.lists[container[x]] == ListSpec.Remove(lists[container[x]], IndexOf(Items(container[x]), x))
        && t.lists[k] == InsertEnd(lists[k], x)
    {
      assert (container - {x})[x := k] == container[x := k];
      var t := Remove(x);
      assert container[x] != k ==> t.lists[k] == lists[k];
      t.Append(k, x)
    }

    /** `uxListRemove` followed by `vListInsert` into another list. */
    function MoveSorted(k: K, x: T, v: nat, values: map<T, nat>): (t: Table<K, T>)
      requires Valid() && x in container && k in lists && container[x] != k
      requires forall y <- Items(k) :: y in values
      ensures t.Valid() && t.container == container[x := k] && t.lists.Keys == lists.Keys
      ensures forall j <- lists :: j != k && j != container[x] ==> t.lists[j] == lists[j]
      ensures t.lists[k] == InsertSorted(lists[k], InsertPos(ValuesOf(Items(k), values), v), x)
      ensures x !in Items(k) && x in Items(container[x])
      ensures t.lists[container[x]] == ListSpec.Remove(lists[container[x]], IndexOf(Items(container[x]), x))
    {
      assert (container - {x})[x := k] == container[x := k];
      var t := Remove(x);
      assert t.lists[k] == lists[k];
      t.Insert(k, x, v, values)
    }

    lemma PutInIsValid(k: K, x: T, ring: Ring<T>)
      requires Valid() && k in lists && x !in container
      requires ring.Valid() && NoDup(ring.items)
      requires forall y :: y in ring.items <==> y == x || y in Items(k)
      ensures Table(lists[k := ring], container[x := k]).Valid()
    {
    }

    lemma TakeOutIsValid(x: T, ring: Ring<T>)
      requires Valid() && x in container
      requires ring.Valid() && NoDup(ring.items)
      requires forall y :: y in ring.items <==> y != x && y in Items(container[x])
      ensures Table(lists[container[x] := ring], container - {x}).Valid()
    {
    }
  }

  function ValuesOf<T>(s: seq<T>, values: map<T, nat>): (r: seq<nat>)
    requires forall y <- s :: y in values
    ensures |r| == |s|
  {
    seq(|s|, i requires 0 <= i < |s| => values[s[i]])
  }

  lemma ValuesInserted<T>(s: seq<T>, p: nat, x: T, values: map<T, nat>)
    requires p <= |s| && x in values && forall y <- s :: y in values
    ensures forall y <- InsertAt(s, p, x) :: y in values
    ensures ValuesOf(InsertAt(s, p, x), values) == InsertAt(ValuesOf(s, values), p, values[x])
  {
  }

  lemma ValuesRemoved<T>(s: seq<T>, k: nat, values: map<T, nat>)
    requires k < |s| && forall y <- s :: y in values
    ensures forall y <- RemoveAt(s, k) :: y in values
    ensures ValuesOf(RemoveAt(s, k), values) == RemoveAt(ValuesOf(s, values), k)
  {
  }

  lemma InsertMembers<T>(s: seq<T>, p: nat, x: T)
    requires p <= |s|
    ensures forall y :: y in InsertAt(s, p, x) <==> y == x || y in s
    ensures NoDup(s) && x !in s ==> NoDup(InsertAt(s, p, x))
  {
    assert s == s[..p] + s[p..];
  }

  lemma InsertEndMembers<T>(r: Ring<T>, x: T)
    requires r.Valid()
    ensures forall y :: y in InsertEnd(r, x).items <==> y == x || y in r.items
    ensures NoDup(r.items) && x !in r.items ==> NoDup(InsertEnd(r, x).items)
  {
    if r.cursor > 0 {
      InsertMembers(r.items, r.cursor - 1, x);
    }
  }

  lemma RemoveMembers<T>(s: seq<T>, x: T)
    requires NoDup(s) && x in s
    ensures var r := RemoveAt(s, IndexOf(s, x));
            NoDup(r) && (forall y :: y in r <==> y in s && y != x)
  {
    var k := IndexOf(s, x);
    var r := RemoveAt(s, k);
    assert forall i :: 0 <= i < |r| ==> r[i] == s[if i < k then i else i + 1];
    assert forall i :: 0 <= i < |s| && i != k ==> s[i] == r[if i < k then i else i - 1];
  }
}
