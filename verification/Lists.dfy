// Linked lists (lib/list.cc), against sequences.
module Lists {
  import opened Collections

  // ---------------------------------------------------------------------
  // What the operations compute

  // The list without the first occurrence of x.
  function Delete<T(==)>(s: seq<T>, x: T): seq<T> {
    if s == [] then [] else if s[0] == x then s[1..] else [s[0]] + Delete(s[1..], x)
  }

  // x goes in front of the first element that is bigger.
  function InsertSorted<T>(compare: (T, T) -> int, s: seq<T>, x: T): seq<T> {
    if s == [] || compare(x, s[0]) < 0 then [x] + s else [s[0]] + InsertSorted(compare, s[1..], x)
  }

  // On a list without repetitions, Remove takes out the item and keeps all others.
  lemma {:induction false} DeleteWorks<T(!new)>(s: seq<T>, x: T)
    requires NoDup(s)
    ensures NoDup(Delete(s, x))
    ensures forall y :: y in Delete(s, x) <==> y in s && y != x
  {
    if s != [] {
      HeadOff(s);
      DeleteWorks(s[1..], x);
      if s[0] != x {
        var r, d := [s[0]] + Delete(s[1..], x), Delete(s[1..], x);
        assert forall y :: y in r <==> y == s[0] || y in d;
        assert s[0] !in d;
      }
    }
  }

  lemma {:induction false} DeleteAt<T>(s: seq<T>, x: T, i: nat)
    requires i < |s| && s[i] == x && forall j :: 0 <= j < i ==> s[j] != x
    ensures Delete(s, x) == s[..i] + s[i + 1..]
  {
    if i > 0 {
      DeleteAt(s[1..], x, i - 1);
      assert s == [s[0]] + s[1..];
    }
  }

  lemma {:induction false} InsertAt<T>(compare: (T, T) -> int, s: seq<T>, x: T, i: nat)
    requires i <= |s| && (i < |s| ==> compare(x, s[i]) < 0) && forall j :: 0 <= j < i ==> compare(x, s[j]) >= 0
    ensures InsertSorted(compare, s, x) == s[..i] + [x] + s[i..]
  {
    if i > 0 {
      InsertAt(compare, s[1..], x, i - 1);
      assert s == [s[0]] + s[1..];
    }
  }

  // ---------------------------------------------------------------------
  // The linked cells

  class Element<T> {
    const item: T
    var next: Element?<T>

    constructor (item: T)
      ensures this.item == item && next == null
    {
      this.item := item;
      next := null;
    }
  }

  ghost function At<T>(spine: seq<Element<T>>, i: int): Element?<T> {
    if 0 <= i < |spine| then spine[i] else null
  }

  ghost function Items<T>(spine: seq<Element<T>>): (s: seq<T>)
    ensures |s| == |spine|
  {
    seq(|spine|, i requires 0 <= i < |spine| => spine[i].item)
  }

  ghost function With<T>(s: seq<Element<T>>, i: nat, e: Element<T>): (r: seq<Element<T>>)
    requires i <= |s|
    ensures |r| == |s| + 1
  {
    s[..i] + [e] + s[i..]
  }

  ghost function Without<T>(s: seq<Element<T>>, i: nat): (r: seq<Element<T>>)
    requires i < |s|
    ensures |r| == |s| - 1
  {
    s[..i] + s[i + 1..]
  }

  lemma AtWith<T>(s: seq<Element<T>>, i: nat, e: Element<T>, k: nat)
    requires i <= |s|
    ensures At(With(s, i, e), k) == if k < i then At(s, k) else if k == i then e else At(s, k - 1)
  {
  }

  lemma AtWithout<T>(s: seq<Element<T>>, i: nat, k: nat)
    requires i < |s|
    ensures At(Without(s, i), k) == if k < i then At(s, k) else At(s, k + 1)
  {
  }

  lemma LinkedIn<T>(s: seq<Element<T>>, i: nat, e: Element<T>)
    requires NoDup(s) && i <= |s| && e !in s
    ensures NoDup(With(s, i, e)) && Items(With(s, i, e)) == Items(s)[..i] + [e.item] + Items(s)[i..]
    ensures forall x :: x in With(s, i, e) ==> x in s || x == e
  {
  }

  lemma LinkedOut<T>(s: seq<Element<T>>, i: nat)
    requires NoDup(s) && i < |s|
    ensures NoDup(Without(s, i)) && Items(Without(s, i)) == Items(s)[..i] + Items(s)[i + 1..]
    ensures forall x :: x in Without(s, i) ==> x in s
  {
  }

  class List<T(==)> {
    var first: Element?<T>
    var last: Element?<T>
    var numInList: nat
    ghost var spine: seq<Element<T>>

    ghost predicate Valid()
      reads this, spine
    {
      && NoDup(spine)
      && (forall i {:trigger spine[i].next} :: 0 <= i < |spine| ==> spine[i].next == At(spine, i + 1))
      && first == At(spine, 0)
      && last == At(spine, |spine| - 1)
      && numInList == |spine|
    }

    ghost function Contents(): (s: seq<T>)
      reads this
      ensures |s| == |spine|
    {
      Items(spine)
    }

    constructor ()
      ensures Valid() && Contents() == [] && spine == []
    {
      first, last, numInList, spine := null, null, 0, [];
    }

    method Append(item: T)
      requires Valid() && item !in Contents()
      modifies this, spine
      ensures Valid() && Contents() == old(Contents()) + [item]
      ensures forall e :: e in spine ==> e in old(spine) || fresh(e)
    {
      var element := new Element(item);
      if first == null {
        first, last := element, element;
      } else {
        last.next := element;
        last := element;
      }
      numInList := numInList + 1;
      ghost var was := spine;
      LinkedIn(was, |was|, element);
      spine := With(was, |was|, element);
      AtWith(was, |was|, element, 0);
      forall k | 0 <= k < |spine|
        ensures spine[k].next == At(spine, k + 1)
      {
        AtWith(was, |was|, element, k);
        AtWith(was, |was|, element, k + 1);
      }
    }

    method Prepend(item: T)
      requires Valid() && item !in Contents()
      modifies this
      ensures Valid() && Contents() == [item] + old(Contents())
      ensures forall e :: e in spine ==> e in old(spine) || fresh(e)
    {
      var element := new Element(item);
      if first == null {
        first, last := element, element;
      } else {
        element.next := first;
        first := element;
      }
      numInList := numInList + 1;
      ghost var was := spine;
      LinkedIn(was, 0, element);
      spine := With(was, 0, element);
      forall k | 0 <= k < |spine|
        ensures spine[k].next == At(spine, k + 1)
      {
        AtWith(was, 0, element, k);
        AtWith(was, 0, element, k + 1);
      }
      AtWith(was, 0, element, |was|);
    }

    method RemoveFront() returns (thing: T)
      requires Valid() && Contents() != []
      modifies this
      ensures Valid() && thing == old(Contents())[0] && Contents() == old(Contents())[1..]
      ensures forall e :: e in spine ==> e in old(spine)
    {
      thing := first.item;
      if first == last {
        first, last := null, null;
      } else {
        first := first.next;
      }
      numInList := numInList - 1;
      ghost var was := spine;
      LinkedOut(was, 0);
      spine := Without(was, 0);
      AtWithout(was, 0, 0);
      forall k | 0 <= k < |spine|
        ensures spine[k].next == At(spine, k + 1)
      {
        AtWithout(was, 0, k);
        AtWithout(was, 0, k + 1);
      }
    }

    method IsInList(item: T) returns (found: bool)
      requires Valid()
      ensures found <==> item in Contents()
    {
      var ptr := first;
      ghost var i := 0;
      while ptr != null
        invariant 0 <= i <= |spine| && ptr == At(spine, i)
        invariant forall j :: 0 <= j < i ==> Contents()[j] != item
        decreases |spine| - i
      {
        if item == ptr.item {
          assert Contents()[i] == item;
          return true;
        }
        ptr := ptr.next;
        i := i + 1;
      }
      return false;
    }

    method Remove(item: T)
      requires Valid() && item in Contents()
      modifies this, spine
      ensures Valid() && Contents() == Delete(old(Contents()), item)
      ensures forall e :: e in spine ==> e in old(spine)
    {
      ghost var s := Contents();
      if item == first.item {
        var removed := RemoveFront();
        DeleteAt(s, item, 0);
        return;
      }
      var prev, ptr := first, first.next;
      ghost var i := 1;
      while ptr != null && ptr.item != item
        invariant 1 <= i <= |spine| && prev == spine[i - 1] && ptr == At(spine, i)
        invariant forall j :: 0 <= j < i ==> s[j] != item
        decreases |spine| - i
      {
        prev, ptr := ptr, ptr.next;
        i := i + 1;
      }
      assert s[i] == item;
      DeleteAt(s, item, i);
      Unlink(prev, ptr, i);
    }

    method Unlink(prev: Element<T>, ptr: Element<T>, ghost i: nat)
      requires Valid() && 0 < i < |spine| && prev == spine[i - 1] && ptr == spine[i]
      modifies this, prev
      ensures Valid() && spine == Without(old(spine), i)
      ensures Contents() == old(Contents())[..i] + old(Contents())[i + 1..]
    {
      ghost var was := spine;
      prev.next := ptr.next;
      assert prev.next == At(was, i + 1);
      assert forall k {:trigger was[k].next} :: 0 <= k < |was| && k != i - 1 ==> was[k].next == At(was, k + 1);
      if prev.next == null {
        last := prev;
      }
      numInList := numInList - 1;
      LinkedOut(was, i);
      spine := Without(was, i);
      AtWithout(was, i, 0);
      AtWithout(was, i, |spine| - 1);
      forall k | 0 <= k < |spine|
        ensures spine[k].next == At(spine, k + 1)
      {
        AtWithout(was, i, k);
        AtWithout(was, i, k + 1);
      }
    }

    // SortedList::Insert
    method Insert(item: T, compare: (T, T) -> int)
      requires Valid() && item !in Contents()
      modifies this, spine
      ensures Valid() && Contents() == InsertSorted(compare, old(Contents()), item)
      ensures forall e :: e in spine ==> e in old(spine) || fresh(e)
    {
      ghost var s := Contents();
      if first == null {
        Append(item);
      } else if compare(item, first.item) < 0 {
        Prepend(item);
      } else {
        var ptr: Element<T> := first;
        ghost var i := 1;
        while ptr.next != null && compare(item, ptr.next.item) >= 0
          invariant 1 <= i <= |spine| && ptr == spine[i - 1]
          invariant forall j :: 0 <= j < i ==> compare(item, s[j]) >= 0
          decreases |spine| - i
        {
          assert ptr.next == At(spine, i);
          ptr := ptr.next;
          i := i + 1;
        }
        InsertAt(compare, s, item, i);
        LinkAfter(ptr, item, i);
      }
    }

    method LinkAfter(ptr: Element<T>, item: T, ghost i: nat)
      requires Valid() && 0 < i <= |spine| && ptr == spine[i - 1]
      modifies this, ptr
      ensures Valid() && Contents() == old(Contents())[..i] + [item] + old(Contents())[i..]
      ensures forall e :: e in spine ==> e in old(spine) || fresh(e)
    {
      var element := new Element(item);
      element.next := ptr.next;
      Relink(ptr, element, i);
    }

    method Relink(ptr: Element<T>, element: Element<T>, ghost i: nat)
      requires Valid() && 0 < i <= |spine| && ptr == spine[i - 1] && element !in spine && element.next == ptr.next
      modifies this, ptr
      ensures Valid() && spine == With(old(spine), i, element)
      ensures Contents() == old(Contents())[..i] + [element.item] + old(Contents())[i..]
    {
      ghost var was := spine;
      assert element.next == At(was, i);
      if ptr.next == null {
        last := element;
      }
      ptr.next := element;
      assert forall k {:trigger was[k].next} :: 0 <= k < |was| && k != i - 1 ==> was[k].next == At(was, k + 1);
      numInList := numInList + 1;
      LinkedIn(was, i, element);
      spine := With(was, i, element);
      AtWith(was, i, element, 0);
      AtWith(was, i, element, |was|);
      forall k | 0 <= k < |spine|
        ensures spine[k].next == At(spine, k + 1)
      {
        AtWith(was, i, element, k);
        AtWith(was, i, element, k + 1);
      }
    }
  }
}
