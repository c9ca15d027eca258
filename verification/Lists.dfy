/** Pointer-linked lists and the sorted list built on them, proved against sequences. */
module Lists {

  class ListElement<T> {
    const item: T
    var next: ListElement?<T>

    constructor (itm: T)
      ensures item == itm && next == null
    {
      item := itm;
      next := null;
    }
  }

  /** The items of a chain of elements. */
  function Items<T>(spine: seq<ListElement<T>>): seq<T> {
    seq(|spine|, i requires 0 <= i < |spine| => spine[i].item)
  }

  /** The sequence without its first occurrence of `x`. */
  function Without<T(==)>(s: seq<T>, x: T): seq<T> {
    if s == [] then [] else if s[0] == x then s[1..] else [s[0]] + Without(s[1..], x)
  }

  lemma {:induction false} WithoutAt<T>(s: seq<T>, x: T, k: nat)
    requires k < |s| && s[k] == x && x !in s[..k]
    ensures Without(s, x) == s[..k] + s[k + 1..]
  {
    if k > 0 {
      assert s[0] == s[..k][0];
      assert s[1..][..k - 1] == s[..k][1..];
      WithoutAt(s[1..], x, k - 1);
    }
  }

  /** Where a new item goes: before the first item that is bigger. */
  function Place<T>(s: seq<T>, x: T, compare: (T, T) -> int): (k: nat)
    ensures k <= |s|
    ensures forall i :: 0 <= i < k ==> compare(x, s[i]) >= 0
    ensures k < |s| ==> compare(x, s[k]) < 0
  {
    if s == [] || compare(x, s[0]) < 0 then 0 else 1 + Place(s[1..], x, compare)
  }

  lemma {:induction false} PlaceIs<T>(s: seq<T>, x: T, compare: (T, T) -> int, k: nat)
    requires k <= |s| && forall i :: 0 <= i < k ==> compare(x, s[i]) >= 0
    requires k < |s| ==> compare(x, s[k]) < 0
    ensures Place(s, x, compare) == k
  {
    if k > 0 {
      assert compare(x, s[0]) >= 0;
      PlaceIs(s[1..], x, compare, k - 1);
    }
  }

  function SortedInsert<T>(s: seq<T>, x: T, compare: (T, T) -> int): seq<T> {
    s[..Place(s, x, compare)] + [x] + s[Place(s, x, compare)..]
  }

  ghost predicate Sorted<T>(s: seq<T>, compare: (T, T) -> int) {
    forall i, j :: 0 <= i < j < |s| ==> compare(s[i], s[j]) <= 0
  }

  /** What the comparison function has to be. */
  ghost predicate TotalOrder<T(!new)>(compare: (T, T) -> int) {
    && (forall x, y :: compare(x, y) < 0 <==> compare(y, x) > 0)
    && (forall x, y, z :: compare(x, y) <= 0 && compare(y, z) <= 0 ==> compare(x, z) <= 0)
  }

  lemma BiggerThanBigger<T(!new)>(a: T, b: T, x: T, compare: (T, T) -> int)
    requires TotalOrder(compare) && compare(x, a) < 0 && compare(a, b) <= 0
    ensures compare(b, x) > 0
  {
    assert compare(a, b) <= 0 && compare(b, x) <= 0 ==> compare(a, x) <= 0;
  }

  /** In a sorted list the place lies behind all items that are not bigger. */
  lemma PlaceSplits<T(!new)>(s: seq<T>, x: T, compare: (T, T) -> int)
    requires TotalOrder(compare) && Sorted(s, compare)
    ensures forall i :: 0 <= i < |s| ==> (i < Place(s, x, compare) <==> compare(s[i], x) <= 0)
  {
    var k := Place(s, x, compare);
    forall i | 0 <= i < |s| ensures i < k <==> compare(s[i], x) <= 0 {
      if k < i {
        BiggerThanBigger(s[k], s[i], x, compare);
      }
    }
  }

  /** Insertion adds the item and nothing else, and keeps everybody else's order. */
  lemma InsertAdds<T>(s: seq<T>, x: T, compare: (T, T) -> int)
    ensures multiset(SortedInsert(s, x, compare)) == multiset(s) + multiset{x}
    ensures var k, s' := Place(s, x, compare), SortedInsert(s, x, compare);
      |s'| == |s| + 1 && s'[k] == x && s'[..k] == s[..k] && s'[k + 1..] == s[k..]
  {
    var k := Place(s, x, compare);
    hide Place;
    assert s == s[..k] + s[k..];
  }

  /** Insertion keeps a sorted list sorted and puts the item behind all its equals, so that equal items stay in
      the order in which they came. */
  lemma InsertKeepsSorted<T(!new)>(s: seq<T>, x: T, compare: (T, T) -> int)
    requires TotalOrder(compare) && Sorted(s, compare)
    ensures Sorted(SortedInsert(s, x, compare), compare)
    ensures forall i :: 0 <= i < |s| ==> (i < Place(s, x, compare) <==> compare(s[i], x) <= 0)
  {
    PlaceSplits(s, x, compare);
    var k := Place(s, x, compare);
    assert forall i :: k <= i < |s| ==> compare(x, s[i]) < 0;
    hide TotalOrder;
    SplitSorted(s, x, k, compare);
  }

  lemma SplitSorted<T>(s: seq<T>, x: T, k: nat, compare: (T, T) -> int)
    requires Sorted(s, compare) && k <= |s|
    requires forall i :: 0 <= i < k ==> compare(s[i], x) <= 0
    requires forall i :: k <= i < |s| ==> compare(x, s[i]) < 0
    ensures Sorted(s[..k] + [x] + s[k..], compare)
  {
    var s' := s[..k] + [x] + s[k..];
    assert forall i :: 0 <= i < |s'| ==> s'[i] == if i < k then s[i] else if i == k then x else s[i - 1];
  }

  ghost predicate Distinct<T>(spine: seq<ListElement<T>>) {
    forall i, j :: 0 <= i < j < |spine| ==> spine[i] != spine[j]
  }

  /** Each element points to the next one, and the last to nothing. */
  ghost predicate Linked<T>(spine: seq<ListElement<T>>)
    reads spine
  {
    && (forall i :: 0 <= i < |spine| - 1 ==> spine[i].next == spine[i + 1])
    && (spine != [] ==> spine[|spine| - 1].next == null)
  }

  lemma OnlyLastEnds<T>(spine: seq<ListElement<T>>, k: nat)
    requires Linked(spine) && k < |spine|
    ensures spine[k].next == null <==> k == |spine| - 1
  {
    assert k < |spine| - 1 ==> spine[k].next == spine[k + 1];
  }

  lemma DistinctParts<T>(spine: seq<ListElement<T>>, k: nat)
    requires Distinct(spine) && k < |spine|
    ensures Distinct(spine[1..]) && Distinct(spine[..k] + spine[k + 1..])
  {
    var part := spine[..k] + spine[k + 1..];
    assert forall i :: 0 <= i < |part| ==> part[i] == spine[if i < k then i else i + 1];
  }

  lemma DistinctAdd<T>(spine: seq<ListElement<T>>, e: ListElement<T>, k: nat)
    requires Distinct(spine) && e !in spine && k <= |spine|
    ensures Distinct(spine[..k] + [e] + spine[k..])
    ensures Distinct([e] + spine) && Distinct(spine + [e])
  {
    var more := spine[..k] + [e] + spine[k..];
    assert forall i :: 0 <= i < |more| && i != k ==> more[i] == spine[if i < k then i else i - 1] && more[i] in spine;
    assert more[k] == e;
  }

  /** What a chain spells with one more element at place `k`. */
  lemma ItemsAdd<T>(spine: seq<ListElement<T>>, e: ListElement<T>, k: nat)
    requires k <= |spine|
    ensures Items(spine[..k] + [e] + spine[k..]) == Items(spine)[..k] + [e.item] + Items(spine)[k..]
  {
  }

  class List<T(==)> {
    var first: ListElement?<T>
    var last: ListElement?<T>
    var numInList: int
    ghost var spine: seq<ListElement<T>>

    ghost predicate Valid()
      reads this, spine
    {
      && (first == if spine == [] then null else spine[0])
      && (last == if spine == [] then null else spine[|spine| - 1])
      && Linked(spine) && Distinct(spine) && numInList == |spine|
    }

    ghost function Contents(): seq<T>
      reads this
    {
      Items(spine)
    }

    constructor ()
      ensures Valid() && Contents() == [] && fresh(spine)
    {
      first, last, numInList, spine := null, null, 0, [];
    }

    predicate IsEmpty()
      reads this
    {
      numInList == 0
    }

    method IsInList(item: T) returns (found: bool)
      requires Valid()
      ensures found <==> item in Contents()
    {
      ghost var k := 0;
      var ptr := first;
      while ptr != null
        invariant 0 <= k <= |spine| && ptr == if k < |spine| then spine[k] else null
        invariant forall i :: 0 <= i < k ==> spine[i].item != item
        decreases |spine| - k
      {
        if item == ptr.item {
          assert Contents()[k] == item;
          return true;
        }
        ptr := ptr.next;
        k := k + 1;
      }
      return false;
    }

    method Append(item: T)
      requires Valid() && item !in Contents()
      modifies this, spine
      ensures Valid() && Contents() == old(Contents()) + [item]
      ensures forall e :: e in spine ==> e in old(spine) || fresh(e)
    {
      var element := new ListElement(item);
      DistinctAdd(spine, element, |spine|);
      hide Distinct;
      if IsEmpty() {
        first := element;
      } else {
        last.next := element;
      }
      last := element;
      spine := spine + [element];
      numInList := numInList + 1;
    }

    method Prepend(item: T)
      requires Valid() && item !in Contents()
      modifies this
      ensures Valid() && Contents() == [item] + old(Contents())
      ensures forall e :: e in spine ==> e in old(spine) || fresh(e)
    {
      var element := new ListElement(item);
      DistinctAdd(spine, element, 0);
      hide Distinct;
      if IsEmpty() {
        last := element;
      } else {
        element.next := first;
      }
      first := element;
      spine := [element] + spine;
      assert forall i :: 1 <= i < |spine| ==> spine[i] == old(spine)[i - 1];
      numInList := numInList + 1;
    }

    method RemoveFront() returns (thing: T)
      requires Valid() && !IsEmpty()
      modifies this
      ensures Valid() && old(Contents()) == [thing] + Contents()
      ensures spine == old(spine)[1..]
    {
      var element := first;
      thing := first.item;
      assert first == last <==> |spine| == 1;
      DistinctParts(spine, 0);
      hide Distinct;
      if first == last {
        first := null;
        last := null;
      } else {
        first := element.next;
      }
      spine := spine[1..];
      assert forall i :: 0 <= i < |spine| ==> spine[i] == old(spine)[i + 1];
      numInList := numInList - 1;
    }

    method Remove(item: T)
      requires Valid() && item in Contents()
      modifies this, spine
      ensures Valid() && Contents() == Without(old(Contents()), item)
      ensures forall e :: e in spine ==> e in old(spine)
    {
      if item == first.item {
        var removed := RemoveFront();
        assert old(Contents())[0] == item && old(Contents())[1..] == Contents();
        return;
      }
      var prev := first;
      var ptr := first.next;
      ghost var k := 1;
      while ptr != null
        invariant 1 <= k <= |spine| && ptr == (if k < |spine| then spine[k] else null) && prev == spine[k - 1]
        invariant forall i :: 0 <= i < k ==> spine[i].item != item
        decreases |spine| - k
      {
        if item == ptr.item {
          WithoutAt(Contents(), item, k);
          Unlink(k, prev, ptr);
          assert Contents() == old(Contents())[..k] + old(Contents())[k + 1..];
          return;
        }
        prev := ptr;
        ptr := ptr.next;
        k := k + 1;
      }
    }

    /** Takes the element behind `prev` out of the chain. */
    method Unlink(ghost k: nat, prev: ListElement<T>, ptr: ListElement<T>)
      requires Valid() && 0 < k < |spine| && prev == spine[k - 1] && ptr == spine[k]
      modifies this, prev
      ensures Valid() && spine == old(spine)[..k] + old(spine)[k + 1..]
    {
      DistinctParts(spine, k);
      assert forall i :: 0 <= i < |spine| && i != k - 1 ==> spine[i] != prev;
      hide Distinct, Items;
      prev.next := ptr.next;
      if prev.next == null {
        last := prev;
      }
      spine := spine[..k] + spine[k + 1..];
      assert forall i :: 0 <= i < |spine| ==> spine[i] == old(spine)[if i < k then i else i + 1];
      assert forall i :: 0 <= i < |spine| && i != k - 1 ==> spine[i] != prev;
      assert k < |spine| ==> prev.next == spine[k];
      forall i | 0 <= i < |spine| - 1 ensures spine[i].next == spine[i + 1] {
        ghost var j := if i < k then i else i + 1;
        assert i != k - 1 ==> spine[i].next == old(spine[j].next) == old(spine)[j + 1];
      }
      numInList := numInList - 1;
    }

    /** The sorted list's insertion. */
    method Insert(item: T, compare: (T, T) -> int)
      requires Valid() && item !in Contents()
      modifies this, spine
      ensures Valid() && Contents() == SortedInsert(old(Contents()), item, compare)
      ensures forall e :: e in spine ==> e in old(spine) || fresh(e)
    {
      hide Place, Distinct;
      if IsEmpty() {
        Append(item);
      } else if compare(item, first.item) < 0 {
        PlaceIs(Contents(), item, compare, 0);
        Prepend(item);
      } else {
        var ptr := first;
        ghost var k := 0;
        while ptr.next != null
          invariant 0 <= k < |spine| && ptr == spine[k]
          invariant forall i :: 0 <= i <= k ==> compare(item, spine[i].item) >= 0
          decreases |spine| - k
        {
          if compare(item, ptr.next.item) < 0 {
            PlaceIs(Contents(), item, compare, k + 1);
            LinkAfter(k, ptr, item);
            return;
          }
          ptr := ptr.next;
          k := k + 1;
        }
        OnlyLastEnds(spine, k);
        PlaceIs(Contents(), item, compare, |spine|);
        Append(item);
      }
    }

    method LinkAfter(ghost k: nat, ptr: ListElement<T>, item: T)
      requires Valid() && k < |spine| - 1 && ptr == spine[k]
      modifies this, ptr
      ensures Valid() && Contents() == old(Contents())[..k + 1] + [item] + old(Contents())[k + 1..]
      ensures forall e :: e in spine ==> e in old(spine) || fresh(e)
    {
      var element := new ListElement(item);
      assert element !in spine && forall i :: 0 <= i < |spine| && i != k ==> spine[i] != ptr;
      DistinctAdd(spine, element, k + 1);
      ItemsAdd(spine, element, k + 1);
      hide Distinct, Items;
      element.next := ptr.next;
      ptr.next := element;
      spine := spine[..k + 1] + [element] + spine[k + 1..];
      forall i | 0 <= i < |spine| - 1 ensures spine[i].next == spine[i + 1] {
        if i < k {
          assert spine[i] == old(spine)[i] && spine[i + 1] == old(spine)[i + 1];
        } else if i == k {
          assert spine[i] == ptr && spine[i + 1] == element;
        } else if i == k + 1 {
          assert spine[i] == element && spine[i + 1] == old(spine)[k + 1] == old(ptr.next);
        } else {
          assert spine[i] == old(spine)[i - 1] && spine[i + 1] == old(spine)[i];
        }
      }
      assert spine[|spine| - 1] == old(spine)[|old(spine)| - 1];
      numInList := numInList + 1;
    }
  }

  /** A walk along a list that does not change meanwhile. */
  class ListIterator<T(==)> {
    const list: List<T>
    var current: ListElement?<T>
    ghost var at: nat

    ghost predicate Valid()
      reads this, list, list.spine
    {
      && list.Valid() && at <= |list.spine|
      && current == if at < |list.spine| then list.spine[at] else null
    }

    /** The items not visited yet, the current one first. */
    ghost function Rest(): seq<T>
      requires Valid()
      reads this, list, list.spine
    {
      list.Contents()[at..]
    }

    constructor (list: List<T>)
      requires list.Valid()
      ensures Valid() && this.list == list && at == 0 && Rest() == list.Contents()
    {
      this.list := list;
      current := list.first;
      at := 0;
    }

    predicate IsDone()
      requires Valid()
      reads this, list, list.spine
      ensures IsDone() <==> Rest() == []
    {
      current == null
    }

    function Item(): (item: T)
      requires Valid() && !IsDone()
      reads this, list, list.spine
      ensures item == Rest()[0]
    {
      current.item
    }

    /** Next drops the current item from what is left and nothing else. */
    method Next()
      requires Valid() && !IsDone()
      modifies this
      ensures Valid() && at == old(at) + 1 && Rest() == old(Rest())[1..]
    {
      current := current.next;
      at := at + 1;
    }
  }
}
