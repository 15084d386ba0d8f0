/** Linked lists of items of a heap of fixed size, as sequences, and who owns each item. */
module Chains {
  import opened Layouts

  class Item<K, V> {
    var key: K
    var value: V
    var next: Item?<K, V>

    constructor (key: K, value: V, next: Item?<K, V>)
      ensures this.key == key && this.value == value && this.next == next
    {
      this.key, this.value, this.next := key, value, next;
    }
  }

  /** Following next from p visits the items of s and then arrives at q. */
  ghost predicate Path<K, V>(p: Item?<K, V>, s: seq<Item<K, V>>, q: Item?<K, V>)
    reads s`next
    decreases |s|
  {
    if s == [] then p == q else p == s[0] && Path(s[0].next, s[1..], q)
  }

  ghost predicate Linked<K, V>(p: Item?<K, V>, s: seq<Item<K, V>>)
    reads s`next
  {
    Path(p, s, null)
  }

  lemma {:induction false} PathSplit<K, V>(p: Item?<K, V>, s: seq<Item<K, V>>, q: Item?<K, V>, j: nat)
    requires Path(p, s, q) && j < |s|
    ensures Path(p, s[..j], s[j]) && Path(s[j], s[j..], q) && Path(s[j].next, s[j + 1..], q)
  {
    assert s[j..][1..] == s[j + 1..];
    if j > 0 {
      PathSplit(s[0].next, s[1..], q, j - 1);
      assert s[..j][1..] == s[1..][..j - 1];
      assert s[1..][j - 1..] == s[j..] && s[1..][j..] == s[j + 1..];
    }
  }

  lemma {:induction false} PathJoin<K, V>(p: Item?<K, V>, s: seq<Item<K, V>>, m: Item?<K, V>, t: seq<Item<K, V>>,
                                          q: Item?<K, V>)
    requires Path(p, s, m) && Path(m, t, q)
    ensures Path(p, s + t, q)
    decreases |s|
  {
    if s == [] {
      assert s + t == t;
    } else {
      PathJoin(s[0].next, s[1..], m, t, q);
      assert (s + t)[1..] == s[1..] + t;
    }
  }

  lemma LinkedCons<K, V>(p: Item<K, V>, s: seq<Item<K, V>>)
    requires Linked(p.next, s)
    ensures Linked(p, [p] + s)
  {
    assert ([p] + s)[1..] == s;
  }

  lemma SecondOf<K, V>(p: Item<K, V>, s: seq<Item<K, V>>)
    requires Linked(p, s)
    ensures p.next != null ==> |s| > 1 && p.next == s[1] && p.next in s
  {
    assert Path(s[0].next, s[1..], null);
    assert |s| > 1 ==> s[1] == s[1..][0] && s[1] in s;
  }

  lemma IsLinked<K, V>(p: Item?<K, V>, s: seq<Item<K, V>>)
    ensures Linked(p, s) <==> Path(p, s, null)
  {
  }

  // ----- Who owns an item

  /** Every item of the heap is in one chain, in the free list, or loose; what holds no entry is not in a
      chain. */
  ghost predicate Owned<T>(all: set<T>, entries: nat, chains: seq<seq<T>>, freeList: seq<T>, loose: seq<T>) {
    && Partition(all, loose + freeList, chains)
    && entries + |loose| + |freeList| == |all|
    && (forall h :: 0 <= h < |chains| ==> forall x <- chains[h] :: x in all)
    && (forall x <- freeList :: x in all)
  }

  lemma OneIsFree<T>(all: set<T>, n: nat, chains: seq<seq<T>>, freeList: seq<T>)
    requires Owned(all, n, chains, freeList, []) && freeList != []
    ensures Owned(all, n, chains, freeList[1..], [freeList[0]])
  {
    assert [freeList[0]] + freeList[1..] == freeList == [] + freeList;
  }

  lemma OneIsReleased<T>(all: set<T>, n: nat, chains: seq<seq<T>>, freeList: seq<T>, x: T)
    requires Owned(all, n, chains, freeList, [x])
    ensures Owned(all, n, chains, [x] + freeList, [])
  {
    PartitionFacts(all, [x] + freeList, chains);
    assert ([x] + freeList)[0] == x;
    assert [] + ([x] + freeList) == [x] + freeList;
  }

  lemma OneIsUsed<T>(all: set<T>, n: nat, chains: seq<seq<T>>, freeList: seq<T>, x: T, h: nat)
    requires Owned(all, n, chains, freeList, [x]) && h < |chains|
    ensures Owned(all, n + 1, chains[h := [x] + chains[h]], freeList, [])
  {
    PartitionFacts(all, [x] + freeList, chains);
    assert ([x] + freeList)[0] == x;
    assert [] + freeList == freeList;
    PartitionMove(all, [x] + freeList, chains, h, freeList, [x] + chains[h]);
  }

  lemma OneIsUnlinked<T>(all: set<T>, n: nat, chains: seq<seq<T>>, freeList: seq<T>, h: nat, j: nat)
    requires Owned(all, n, chains, freeList, []) && h < |chains| && j < |chains[h]| && n > 0
    ensures Owned(all, n - 1, chains[h := Without(chains[h], j)], freeList, [chains[h][j]])
  {
    var c, x := chains[h], chains[h][j];
    assert [] + freeList == freeList;
    assert c == c[..j] + [x] + c[j + 1..];
    PartitionMove(all, freeList, chains, h, [x] + freeList, c[..j] + c[j + 1..]);
  }

  /** What ownership says about a loose item and about two chains. */
  lemma OwnedFacts<T>(all: set<T>, n: nat, chains: seq<seq<T>>, freeList: seq<T>, loose: seq<T>)
    requires Owned(all, n, chains, freeList, loose)
    ensures forall x <- loose :: x in all && (|loose| == 1 ==> x !in freeList)
    ensures forall x <- loose :: forall h :: 0 <= h < |chains| ==> x !in chains[h]
    ensures forall h :: 0 <= h < |chains| ==> Distinct(chains[h]) && Apart(chains[h], freeList)
    ensures forall g, h :: 0 <= g < |chains| && 0 <= h < |chains| && g != h ==> Apart(chains[g], chains[h])
  {
    PartitionFacts(all, loose + freeList, chains);
    forall x | x in loose ensures x in loose + freeList {
    }
    if |loose| == 1 {
      assert forall k :: 0 <= k < |freeList| ==> (loose + freeList)[k + 1] == freeList[k];
      assert (loose + freeList)[0] == loose[0];
    }
    forall h | 0 <= h < |chains| ensures Apart(chains[h], freeList) {
      assert forall x :: x in freeList ==> x in loose + freeList;
    }
  }

  lemma OneIsAppended<T>(all: set<T>, n: nat, chains: seq<seq<T>>, freeList: seq<T>, x: T, h: nat)
    requires Owned(all, n, chains, freeList, [x]) && h < |chains|
    ensures Owned(all, n + 1, chains[h := chains[h] + [x]], freeList, [])
  {
    PartitionFacts(all, [x] + freeList, chains);
    assert ([x] + freeList)[0] == x;
    assert [] + freeList == freeList;
    PartitionMove(all, [x] + freeList, chains, h, freeList, chains[h] + [x]);
  }

  /** The heap: count items, each linked to the next. */
  method MakeHeap<K, V>(count: nat, key: K, value: V)
    returns (free: Item?<K, V>, ghost list: seq<Item<K, V>>, ghost all: set<Item<K, V>>)
    ensures |list| == |all| == count && multiset(list) == multiset(all) && Linked(free, list)
    ensures fresh(all) && forall x <- list :: x in all
  {
    free, list, all := null, [], {};
    for i := 0 to count
      invariant |list| == |all| == i && multiset(list) == multiset(all) && Linked(free, list)
      invariant fresh(all) && forall x <- list :: x in all
    {
      ghost var was := list;
      free := new Item(key, value, free);
      list := [free] + list;
      assert list[1..] == was;
      all := all + {free};
    }
  }

  function Without<T>(s: seq<T>, i: nat): seq<T>
    requires i < |s|
  {
    s[..i] + s[i + 1..]
  }
}
