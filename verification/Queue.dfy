/** Queue (src/headers/maycloud/queue.h:90-243): a linked list in a heap of fixed size, refining a bounded
    sequence; push does so only while the pointer to the last item is right, which two operations do not keep. */
module Queues {
  import opened Layouts
  import opened Chains

  /** The items of a queue have no key. */
  type Node<V> = Item<(), V>
  type Link<V> = Item?<(), V>

  ghost function Values<V>(list: seq<Node<V>>): (values: seq<V>)
    reads list`value
    ensures |values| == |list|
  {
    if list == [] then [] else [list[0].value] + Values(list[1..])
  }

  /** The position of the first occurrence, or the length. */
  function IndexOf<V(==)>(s: seq<V>, v: V): (i: nat)
    ensures i <= |s| && (i < |s| ==> s[i] == v) && v !in s[..i]
  {
    if s == [] || s[0] == v then 0
    else
      assert s == [s[0]] + s[1..];
      IndexOf(s[1..], v) + 1
  }

  lemma {:induction false} ValuesAt<V>(list: seq<Node<V>>, i: nat)
    requires i < |list|
    ensures Values(list)[i] == list[i].value && Values(Without(list, i)) == Without(Values(list), i)
  {
    if i == 0 {
      assert Without(list, 0) == list[1..] && Without(Values(list), 0) == Values(list[1..]);
    } else {
      ValuesAt(list[1..], i - 1);
      assert Without(list, i) == [list[0]] + Without(list[1..], i - 1);
      assert Without(Values(list), i) == [list[0].value] + Without(Values(list[1..]), i - 1);
    }
  }

  lemma {:induction false} ValuesSnoc<V>(list: seq<Node<V>>, x: Node<V>)
    ensures Values(list + [x]) == Values(list) + [x.value]
  {
    if list == [] {
      assert [] + [x] == [x] && [x][1..] == [];
    } else {
      ValuesSnoc(list[1..], x);
      assert (list + [x])[1..] == list[1..] + [x];
    }
  }

  lemma ValuesCons<V>(x: Node<V>, list: seq<Node<V>>)
    ensures Values([x] + list) == [x.value] + Values(list)
  {
    assert ([x] + list)[1..] == list;
  }

  class Queue<V(==)> {
    const capacity: nat
    const blank: V                  // type()
    var count: nat
    var first: Link<V>
    var last: Link<V>
    var free: Link<V>
    ghost var all: set<Node<V>>
    ghost var list: seq<Node<V>>
    ghost var freeList: seq<Node<V>>

    /** The items are queued, free or loose; count counts those that are not free. */
    ghost predicate Core(loose: seq<Node<V>>)
      reads this, all`next
    {
      && |all| == capacity && Owned(all, |list|, [list], freeList, loose)
      && (forall x <- list :: x in all) && (forall x <- freeList :: x in all)
      && Linked(first, list) && Linked(free, freeList)
      && count == |list| + |loose| && (last != null ==> last in all)
    }

    ghost predicate Valid()
      reads this, all`next
    {
      Core([])
    }

    ghost predicate LastIsRight()
      reads this
    {
      last == if list == [] then null else list[|list| - 1]
    }

    ghost function Contents(): seq<V>
      reads this, list`value
    {
      Values(list)
    }

    constructor (capacity: nat, blank: V)
      requires capacity > 0
      ensures Valid() && LastIsRight() && Contents() == [] && this.capacity == capacity && this.blank == blank
      ensures fresh(all)
    {
      this.capacity, this.blank := capacity, blank;
      count, first, last, free := 0, null, null, null;
      list, freeList, all := [], [], {};
      new;
      free, freeList, all := MakeHeap(capacity, (), blank);
      var none: seq<Node<V>> := [];
      assert [] + freeList == freeList;
      UnionEmpty([none]);
    }

    method AllocItem() returns (p: Link<V>)
      requires Valid()
      modifies `free, `freeList, `count
      ensures p == null ==> Valid() && freeList == old(freeList) && count == old(count)
      ensures p != null ==> Core([p]) && p in all && p !in list && p !in freeList && old(freeList) == [p] + freeList
      ensures (p == null <==> |list| == capacity) && |list| <= capacity
    {
      hide Owned;
      Counted();
      p := free;
      if free != null {
        OneIsFree(all, |list|, [list], freeList);
        assert p == freeList[0];
        free := p.next;
        freeList := freeList[1..];
        count := count + 1;
        ghost var q: Node<V> := p;
        OwnedFacts(all, |list|, [list], freeList, [q]);
        assert q in [q] && q !in [list][0];
      }
    }

    lemma Counted()
      requires Valid()
      ensures |list| + |freeList| == capacity
    {
    }

    method ReleaseItem(item: Node<V>)
      requires Core([item])
      modifies item`next, `free, `freeList, `count
      ensures Valid() && freeList == [item] + old(freeList)
    {
      hide Linked, Owned;
      OwnedFacts(all, |list|, [list], freeList, [item]);
      assert item in [item] && item !in [list][0];
      OneIsReleased(all, |list|, [list], freeList, item);
      item.next := free;
      LinkedCons(item, freeList);
      free := item;
      freeList := [item] + freeList;
      count := count - 1;
    }

    /** Appends; broken: the item was not linked behind the last one, because the pointer to it was wrong. If
        it points to the item that is about to be used, the value is lost, and so is the item. */
    method Push(value: V) returns (ghost broken: bool)
      requires Valid()
      modifies this, all
      ensures broken == (0 < old(|list|) < capacity && !old(LastIsRight()))
      ensures !broken ==> Valid() && all == old(all)
      ensures !broken ==> Contents() == if old(|list|) < capacity then old(Contents()) + [value] else old(Contents())
      ensures !broken ==> (LastIsRight() <==> old(LastIsRight()) || old(|list|) < capacity)
      ensures broken && old(freeList != [] && last == freeList[0]) ==>
                last != null && Core([last]) && all == old(all) && Contents() == old(Contents())
    {
      hide Owned, Values;
      var p := AllocItem();
      broken := false;
      if p != null {
        p.value, p.next := value, null;
        ValuesSnoc(list, p);
        broken := Append(p);
      }
    }

    /** last->next = p, or first = p */
    method Append(p: Node<V>) returns (ghost broken: bool)
      requires Core([p]) && p.next == null && p in all && p !in list && p !in freeList
      modifies this, (if first == null || last == null then {} else {last})`next
      ensures broken == (old(list) != [] && !old(LastIsRight())) && all == old(all)
      ensures !broken ==> Valid() && LastIsRight() && list == old(list) + [p]
      ensures broken && old(last) == p ==> last == p && Core([p]) && list == old(list)
    {
      hide Owned;
      broken := first != null && !LastIsRight();
      if first == null {
        AppendedIsOwned(p);
        LinkedCons(p, []);
        assert list + [p] == [p] + [];
        first, last, list := p, p, list + [p];
      } else if last == null {
        return;
      } else {
        ghost var end: Node<V> := last;
        if !broken {
          AppendedIsOwned(p);
          PathSplit(first, list, null, |list| - 1);
          OnlyOnce(|list| - 1, [p]);
        }
        last.next := p;
        if !broken {
          EndGrows(first, list[..|list| - 1], end, p);
          assert list + [p] == list[..|list| - 1] + [end] + [p];
          assert Linked(first, list + [p]) && Linked(free, freeList);
          list := list + [p];
        }
        last := p;
      }
    }

    lemma AppendedIsOwned(p: Node<V>)
      requires Core([p])
      ensures Owned(all, |list| + 1, [list + [p]], freeList, [])
    {
      OneIsAppended(all, |list|, [list], freeList, p, 0);
      assert [list][0 := [list][0] + [p]] == [list + [p]];
    }

    /** The pointer to the last item is not set: it is right afterwards only if there was an item before. */
    method PushFirst(value: V)
      requires Valid()
      modifies this, all
      ensures Valid() && all == old(all)
      ensures Contents() == if old(|list|) < capacity then [value] + old(Contents()) else old(Contents())
      ensures old(list) != [] || capacity == 0 ==> (LastIsRight() <==> old(LastIsRight()))
      ensures old(LastIsRight()) ==> (LastIsRight() <==> old(list) != [] || capacity == 0)
    {
      hide Owned, Values;
      var p := AllocItem();
      if p != null {
        p.value, p.next := value, first;
        ValuesCons(p, list);
        Prepend(p);
      }
    }

    method Prepend(p: Node<V>)
      requires Core([p]) && p.next == first && p in all && p !in list
      modifies `first, `list
      ensures Valid() && list == [p] + old(list)
    {
      hide Owned;
      OneIsUsed(all, |list|, [list], freeList, p, 0);
      assert [list][0 := [p] + [list][0]] == [[p] + list];
      LinkedCons(p, list);
      first := p;
      list := [p] + list;
    }

    method Pop() returns (value: V)
      requires Valid()
      modifies this, all
      ensures Valid() && all == old(all) && (old(LastIsRight()) ==> LastIsRight())
      ensures value == if old(Contents()) == [] then blank else old(Contents())[0]
      ensures Contents() == if old(Contents()) == [] then [] else old(Contents())[1..]
    {
      hide Owned;
      value := blank;
      if first != null {
        OnlyOnce(|list| - 1, []);
        value := first.value;
        var p := first;
        SecondOf(p, list);
        if first == last {
          last := p.next;
        }
        TakeFirst();
        ReleaseItem(p);
      }
    }

    /** first = p->next */
    method TakeFirst()
      requires Valid() && list != []
      modifies `first, `list
      ensures first == old(first.next) && list == old(list)[1..] && Core([old(list)[0]])
    {
      hide Owned;
      OneIsUnlinked(all, |list|, [list], freeList, 0, 0);
      assert Without(list, 0) == list[1..];
      assert [list][0 := Without(list, 0)] == [list[1..]];
      first := first.next;
      list := list[1..];
    }

    method FreeAll()
      requires Valid()
      modifies this, all
      ensures Valid() && all == old(all) && Contents() == [] && (old(LastIsRight()) ==> LastIsRight())
    {
      while first != null
        invariant Valid() && all == old(all) && (old(LastIsRight()) ==> LastIsRight())
        decreases |list|
      {
        ghost var before := |Contents()|;
        var value := Pop();
      }
    }

    /** Removes the first occurrence. If that is the last item and not the first, the pointer to the last item
        is left behind, on the item that will be used next. */
    method SearchAndDel(value: V) returns (found: V)
      requires Valid()
      modifies this, all
      ensures Valid() && all == old(all)
      ensures var s := old(Contents()); var i := IndexOf(s, value);
              && found == (if i < |s| then value else blank)
              && Contents() == (if i < |s| then Without(s, i) else s)
              && (old(LastIsRight()) ==> (LastIsRight() <==> !(0 < i == |s| - 1)))
              && (old(LastIsRight()) && !LastIsRight() ==> freeList != [] && last == freeList[0])
    {
      hide Core, IndexOf, Values, LastIsRight;
      found := blank;
      if first == null {
        NoneIn(value);
        return;
      }
      if value == first.value {
        FirstIn(value);
        found := Pop();
        return;
      }
      var p, j := FindBefore(value);
      ValuesIndex(list, value, j);
      if p.next != null {
        found := p.next.value;
        DeleteNext(p, j);
      }
    }

    lemma NoneIn(value: V)
      requires Valid() && first == null
      ensures Contents() == [] && IndexOf(Contents(), value) == 0
    {
    }

    lemma FirstIn(value: V)
      requires Valid() && first != null && first.value == value
      ensures Contents() != [] && IndexOf(Contents(), value) == 0 && Without(Contents(), 0) == Contents()[1..]
      ensures Contents()[0] == value
    {
    }

    /** What follows when the next item has been found. */
    method DeleteNext(p: Node<V>, ghost j: nat)
      requires Valid() && j + 1 < |list| && p == list[j] && p.next == list[j + 1] && p in all && p.next in all
      modifies this, all
      ensures Valid() && all == old(all) && Contents() == Without(old(Contents()), j + 1)
      ensures old(LastIsRight()) ==> (LastIsRight() <==> j + 1 < old(|list|) - 1)
      ensures old(LastIsRight()) && !LastIsRight() ==> freeList != [] && last == freeList[0]
    {
      hide Core;
      var sp := p.next;
      ValuesAt(list, j + 1);
      OnlyOnce(j + 1, []);
      UnlinkAfter(p, sp, j);
      ReleaseItem(sp);
    }

    /** The loop of searchAndDel: the item before the first occurrence, or the last item. */
    method FindBefore(value: V) returns (p: Node<V>, ghost j: nat)
      requires Valid() && first != null && first.value != value
      ensures j < |list| && p == list[j] && p in all && (forall i :: 0 <= i <= j ==> list[i].value != value)
      ensures p.next == null ==> j == |list| - 1
      ensures p.next != null ==> j + 1 < |list| && p.next in all && p.next == list[j + 1] && list[j + 1].value == value
    {
      p, j := first, 0;
      assert list[0..] == list;
      while p.next != null
        invariant j < |list| && p == list[j] && Linked(p, list[j..])
        invariant forall i :: 0 <= i <= j ==> list[i].value != value
        decreases |list| - j
      {
        assert list[j..][1..] == list[j + 1..];
        assert Linked(p.next, list[j + 1..]);
        if value == p.next.value {
          return;
        }
        p := p.next;
        j := j + 1;
      }
      assert list[j..][1..] == list[j + 1..];
      assert Linked(p.next, list[j + 1..]);
    }

    /** p->next = sp->next */
    method UnlinkAfter(p: Node<V>, sp: Node<V>, ghost j: nat)
      requires Valid() && j + 1 < |list| && p == list[j] && sp == list[j + 1]
      modifies p`next, `list
      ensures list == Without(old(list), j + 1) && Core([sp])
    {
      hide Owned;
      OneIsUnlinked(all, |list|, [list], freeList, 0, j + 1);
      assert [list][0 := Without(list, j + 1)] == [Without(list, j + 1)];
      OnlyOnce(j, []);
      PathSplit(first, list, null, j);
      PathSplit(first, list, null, j + 1);
      p.next := sp.next;
      Relinked(first, list, j);
      list := Without(list, j + 1);
    }

    /** No item of the queue is in it twice, or free. */
    lemma OnlyOnce(i: nat, loose: seq<Node<V>>)
      requires Core(loose) && i < |list|
      ensures list[i] !in list[..i] && list[i] !in list[i + 1..] && list[i] !in freeList
      ensures list[i] !in loose
    {
      OwnedFacts(all, |list|, [list], freeList, loose);
      assert Distinct([list][0]) && Apart([list][0], freeList);
      assert list[i] in [list][0];
    }
  }

  /** The tail is searched for and deleted; the value that is pushed next is lost. */
  method PushAfterTail<V(==)>(q: Queue<V>, tail: V, value: V)
    requires q.Valid() && q.LastIsRight()
    requires var s := q.Contents(); 0 < IndexOf(s, tail) == |s| - 1
    modifies q, q.all
    ensures q.Contents() == old(q.Contents())[..old(|q.list|) - 1] && q.count == |q.list| + 1
  {
    ghost var s := q.Contents();
    var found := q.SearchAndDel(tail);
    assert q.Contents() == s[..|s| - 1];
    q.Counted();
    var broken := q.Push(value);
  }

  lemma EndGrows<V>(first: Link<V>, front: seq<Node<V>>, last: Node<V>, p: Node<V>)
    requires Path(first, front, last) && last.next == p && p.next == null
    ensures Linked(first, front + [last] + [p])
  {
    LinkedCons(p, []);
    assert [p] + [] == [p];
    LinkedCons(last, [p]);
    PathJoin(first, front, last, [last] + [p], null);
    assert front + ([last] + [p]) == front + [last] + [p];
  }

  lemma Relinked<V>(first: Link<V>, list: seq<Node<V>>, j: nat)
    requires j + 1 < |list| && Path(first, list[..j], list[j]) && Path(list[j].next, list[j + 2..], null)
    ensures Linked(first, Without(list, j + 1))
  {
    LinkedCons(list[j], list[j + 2..]);
    PathJoin(first, list[..j], list[j], [list[j]] + list[j + 2..], null);
    assert list[..j] + ([list[j]] + list[j + 2..]) == Without(list, j + 1);
  }

  /** The first occurrence comes right behind the items that differ. */
  lemma {:induction false} ValuesIndex<V>(list: seq<Node<V>>, value: V, j: nat)
    requires j < |list| && forall i :: 0 <= i <= j ==> list[i].value != value
    requires j + 1 < |list| ==> list[j + 1].value == value
    ensures IndexOf(Values(list), value) == j + 1
  {
    if j > 0 {
      ValuesIndex(list[1..], value, j - 1);
    }
  }
}
