/** code/threads/list.cc: the singly linked list with `first` and `last`. */
module Lists {
  import opened Wrappers

  /** What a list holds, front first. */
  datatype Entry<T> = Entry(item: T, key: int)

  /** Where SortedInsert puts a new key: before the first entry with a larger one. */
  function Position<T>(s: seq<Entry<T>>, key: int): (i: nat)
    ensures i <= |s|
    ensures forall j :: 0 <= j < i ==> s[j].key <= key
    ensures i < |s| ==> key < s[i].key
  {
    if s == [] || key < s[0].key then 0 else 1 + Position(s[1..], key)
  }

  function InsertSorted<T>(s: seq<Entry<T>>, e: Entry<T>): (r: seq<Entry<T>>)
    ensures |r| == |s| + 1
  {
    s[..Position(s, e.key)] + [e] + s[Position(s, e.key)..]
  }

  ghost predicate Sorted<T>(s: seq<Entry<T>>) {
    forall i, j :: 0 <= i < j < |s| ==> s[i].key <= s[j].key
  }

  /** Insertion keeps the order and first-come-first-served among equal keys: the new entry
      comes after every entry with the same key and before all larger ones. */
  lemma InsertSortedOrder<T>(s: seq<Entry<T>>, e: Entry<T>)
    requires Sorted(s)
    ensures Sorted(InsertSorted(s, e))
    ensures var r, i := InsertSorted(s, e), Position(s, e.key);
      && i < |r| && r[i] == e && r[..i] == s[..i] && r[i + 1..] == s[i..]
      && (forall j :: 0 <= j < i ==> s[j].key <= e.key) && (forall j :: i <= j < |s| ==> e.key < s[j].key)
  {
    var r, i := InsertSorted(s, e), Position(s, e.key);
    forall j | i <= j < |s| ensures e.key < s[j].key {
      assert s[i].key <= s[j].key;
    }
    forall x, y | 0 <= x < y < |r| ensures r[x].key <= r[y].key {
      assert r[x] == if x < i then s[x] else if x == i then e else s[x - 1];
      assert r[y] == if y < i then s[y] else if y == i then e else s[y - 1];
    }
  }

  /** Insertion loses and invents nothing. */
  lemma InsertSortedEntries<T>(s: seq<Entry<T>>, e: Entry<T>)
    ensures multiset(InsertSorted(s, e)) == multiset(s) + multiset{e}
  {
    var i := Position(s, e.key);
    assert s == s[..i] + s[i..];
  }

  /** The entries of a chain of list elements. */
  ghost function EntriesOf<T>(spine: seq<ListElement<T>>): (s: seq<Entry<T>>)
    ensures |s| == |spine| && forall i :: 0 <= i < |s| ==> s[i] == Entry(spine[i].item, spine[i].key)
  {
    seq(|spine|, i requires 0 <= i < |spine| => Entry(spine[i].item, spine[i].key))
  }

  class ListElement<T> {
    var next: ListElement?<T>
    const item: T
    const key: int

    constructor (item: T, key: int)
      ensures this.item == item && this.key == key && next == null
    {
      this.item := item;
      this.key := key;
      next := null;
    }
  }

  class List<T> {
    var first: ListElement?<T>
    var last: ListElement?<T>
    ghost var spine: seq<ListElement<T>>
    ghost var footprint: set<ListElement<T>>

    /** first, last and next pointers describe the chain `spine`. */
    ghost predicate Valid()
      reads this, footprint
    {
      && (forall i :: 0 <= i < |spine| ==> spine[i] in footprint)
      && (spine == [] <==> first == null) && (spine == [] <==> last == null)
      && (spine != [] ==> first == spine[0] && last == spine[|spine| - 1] && spine[|spine| - 1].next == null)
      && (forall i :: 0 <= i < |spine| - 1 ==> spine[i].next == spine[i + 1])
    }

    /** The chain ends, so it has no cycle. */
    lemma {:induction false} NoCycle(i: nat, j: nat)
      requires Valid() && i < j < |spine|
      ensures spine[i] != spine[j]
      decreases |spine| - j
    {
      assert spine[i].next == spine[i + 1];
      if j < |spine| - 1 {
        assert spine[j].next == spine[j + 1];
        NoCycle(i + 1, j + 1);
      }
    }

    lemma Distinct()
      requires Valid()
      ensures NoDup(spine)
    {
      forall i, j | 0 <= i < j < |spine| ensures spine[i] != spine[j] {
        NoCycle(i, j);
      }
    }

    ghost function Contents(): (s: seq<Entry<T>>)
      reads this
      ensures |s| == |spine|
    {
      EntriesOf(spine)
    }

    constructor ()
      ensures Valid() && Contents() == [] && footprint == {}
    {
      first, last, spine, footprint := null, null, [], {};
    }

    method IsEmpty() returns (b: bool)
      requires Valid()
      ensures b <==> Contents() == []
    {
      b := first == null;
    }

    method Append(item: T)
      requires Valid()
      modifies this, footprint
      ensures Valid() && Contents() == old(Contents()) + [Entry(item, 0)]
      ensures fresh(footprint - old(footprint))
    {
      Distinct();
      var element := new ListElement(item, 0);
      if first == null {
        first, last := element, element;
      } else {
        last.next := element;
        last := element;
      }
      spine, footprint := spine + [element], footprint + {element};
    }

    method Prepend(item: T)
      requires Valid()
      modifies this
      ensures Valid() && Contents() == [Entry(item, 0)] + old(Contents())
      ensures fresh(footprint - old(footprint))
    {
      var element := new ListElement(item, 0);
      if first == null {
        first, last := element, element;
      } else {
        element.next := first;
        first := element;
      }
      spine, footprint := [element] + spine, footprint + {element};
    }

    /** List::SortedRemove; Remove is the same, without the key. */
    method SortedRemove() returns (e: Option<Entry<T>>)
      requires Valid()
      modifies this
      ensures Valid()
      ensures if old(Contents()) == [] then e == None && Contents() == []
              else e == Some(old(Contents())[0]) && Contents() == old(Contents())[1..]
      ensures footprint == old(footprint)
    {
      if first == null {
        return None;
      }
      e := Some(Entry(first.item, first.key));
      Distinct();
      ghost var was := spine;
      spine := was[1..];
      assert EntriesOf(spine) == EntriesOf(was)[1..];
      if first == last {
        assert |was| == 1;
        first, last := null, null;
      } else {
        assert |was| > 1 && was[0].next == was[1] && spine[0] == was[1];
        first := first.next;
      }
    }

    /** List::SortedInsert, walking to the first entry with a larger key. */
    method SortedInsert(item: T, sortKey: int)
      requires Valid()
      modifies this, footprint
      ensures Valid() && Contents() == InsertSorted(old(Contents()), Entry(item, sortKey))
      ensures fresh(footprint - old(footprint))
    {
      var element := new ListElement(item, sortKey);
      ghost var was := spine;
      ghost var i := Insert(element);
      EntriesInserted(was, i, element);
    }

    /** The three places SortedInsert links a new element at. */
    method Insert(element: ListElement<T>) returns (ghost i: nat)
      requires Valid() && element !in spine && element.next == null
      modifies this, footprint, element
      ensures Valid() && i == Position(old(Contents()), element.key)
      ensures spine == old(spine)[..i] + [element] + old(spine)[i..] && footprint == old(footprint) + {element}
    {
      if first == null {
        first, last := element, element;
        spine, footprint, i := [element], footprint + {element}, 0;
      } else if element.key < first.key {
        LinkFirst(element);
        i := 0;
      } else {
        var ptr;
        ptr, i := FindPlace(element.key);
        if ptr.next != null {
          LinkInside(element, i - 1, ptr);
        } else {
          LinkLast(element);
        }
      }
    }

    /** The search loop, when the first entry stays first: ptr is the last entry before the place. */
    method FindPlace(key: int) returns (ptr: ListElement<T>, ghost i: nat)
      requires Valid() && spine != [] && spine[0].key <= key
      ensures i == Position(Contents(), key) && 0 < i <= |spine| && ptr == spine[i - 1]
    {
      ptr, i := first, 1;
      while ptr.next != null && key >= ptr.next.key
        invariant 0 < i <= |spine| && ptr == spine[i - 1]
        invariant forall j :: 0 <= j < i ==> spine[j].key <= key
        decreases |spine| - i
      {
        ptr, i := ptr.next, i + 1;
      }
      PlaceFound(Contents(), key, i);
    }

    method LinkFirst(element: ListElement<T>)
      requires Valid() && spine != [] && element !in spine
      modifies this, element
      ensures Valid() && spine == [element] + old(spine)
      ensures footprint == old(footprint) + {element}
    {
      element.next := first;
      first := element;
      spine, footprint := [element] + spine, footprint + {element};
    }

    /** Put element between ptr, at place i of the chain, and its successor. */
    method LinkInside(element: ListElement<T>, ghost i: nat, ptr: ListElement<T>)
      requires Valid() && i + 1 < |spine| && ptr == spine[i] && element !in spine
      modifies this, ptr, element
      ensures Valid() && spine == old(spine[..i + 1] + [element] + spine[i + 1..])
      ensures footprint == old(footprint) + {element}
    {
      Distinct();
      element.next := ptr.next;
      ptr.next := element;
      spine, footprint := spine[..i + 1] + [element] + spine[i + 1..], footprint + {element};
    }

    method LinkLast(element: ListElement<T>)
      requires Valid() && spine != [] && element !in spine && element.next == null
      modifies this, footprint
      ensures Valid() && spine == old(spine) + [element]
      ensures footprint == old(footprint) + {element}
    {
      Distinct();
      last.next := element;
      last := element;
      spine, footprint := spine + [element], footprint + {element};
    }
  }

  lemma EntriesInserted<T>(spine: seq<ListElement<T>>, i: nat, element: ListElement<T>)
    requires i <= |spine|
    ensures EntriesOf(spine[..i] + [element] + spine[i..])
         == EntriesOf(spine)[..i] + [Entry(element.item, element.key)] + EntriesOf(spine)[i..]
  {
  }

  /** The walk ends at the position of the sorted insertion. */
  lemma {:induction false} PlaceFound<T>(s: seq<Entry<T>>, key: int, i: nat)
    requires i <= |s| && (forall j :: 0 <= j < i ==> s[j].key <= key) && (i < |s| ==> key < s[i].key)
    ensures Position(s, key) == i
  {
    if i > 0 { PlaceFound(s[1..], key, i - 1); }
  }
}
