/** HeavyHash (src/headers/maycloud/heavyhash.h): chains in a heap of fixed size, refining a bounded map. */
module HashTables {
  import opened Bytes
  import opened Layouts
  import opened Chains
  import opened Hashers
  import opened Wrappers

  // ----- The bounded map

  /** hashInsert: a new key is dropped when the heap is exhausted. */
  function Inserted<K, V>(m: map<K, V>, capacity: nat, key: K, value: V): map<K, V> {
    if key in m || |m| < capacity then m[key := value] else m
  }

  function Replaced<K, V>(m: map<K, V>, key: K, value: V): map<K, V> {
    if key in m then m[key := value] else m
  }

  datatype Op<K, V> = Insert(key: K, value: V) | Replace(key: K, value: V) | Delete(key: K)

  function Applied<K, V>(m: map<K, V>, capacity: nat, op: Op<K, V>): map<K, V> {
    match op
    case Insert(key, value) => Inserted(m, capacity, key, value)
    case Replace(key, value) => Replaced(m, key, value)
    case Delete(key) => m - {key}
  }

  function Run<K, V>(m: map<K, V>, capacity: nat, ops: seq<Op<K, V>>): map<K, V>
    decreases |ops|
  {
    if ops == [] then m else Run(Applied(m, capacity, ops[0]), capacity, ops[1..])
  }

  /** The same operations on a map without a bound. */
  function Unbounded<K, V>(m: map<K, V>, ops: seq<Op<K, V>>): map<K, V>
    decreases |ops|
  {
    if ops == [] then m
    else Unbounded(if ops[0].Insert? then m[ops[0].key := ops[0].value] else Applied(m, 0, ops[0]), ops[1..])
  }

  ghost function InsertedKeys<K, V>(ops: seq<Op<K, V>>): set<K>
    decreases |ops|
  {
    if ops == [] then {}
    else (if ops[0].Insert? then {ops[0].key} else {}) + InsertedKeys(ops[1..])
  }

  lemma {:induction false} StaysBounded<K, V>(m: map<K, V>, capacity: nat, ops: seq<Op<K, V>>)
    requires |m| <= capacity
    ensures |Run(m, capacity, ops)| <= capacity
    decreases |ops|
  {
    if ops != [] {
      AppliedBounded(m, capacity, ops[0]);
      StaysBounded(Applied(m, capacity, ops[0]), capacity, ops[1..]);
    }
  }

  lemma AppliedBounded<K, V>(m: map<K, V>, capacity: nat, op: Op<K, V>)
    requires |m| <= capacity
    ensures |Applied(m, capacity, op)| <= capacity
  {
    if op.Delete? {
      var n := m - {op.key};
      assert n.Keys <= m.Keys;
      SubsetSize(n.Keys, m.Keys);
    } else if op.key in m {
      assert m[op.key := op.value].Keys == m.Keys;
    }
  }

  lemma {:induction false} SubsetSize<T>(a: set<T>, b: set<T>)
    requires a <= b
    ensures |a| <= |b|
  {
    if a != {} {
      var x :| x in a;
      SubsetSize(a - {x}, b - {x});
    }
  }

  /** When no more different keys are ever inserted than there are items, nothing is dropped: the table is a
      plain map. */
  lemma {:induction false} NothingDropped<K, V>(m: map<K, V>, capacity: nat, ops: seq<Op<K, V>>)
    requires |m.Keys + InsertedKeys(ops)| <= capacity
    ensures Run(m, capacity, ops) == Unbounded(m, ops)
    decreases |ops|
  {
    if ops != [] {
      var op := ops[0];
      if op.Insert? {
        assert m.Keys + {op.key} <= m.Keys + InsertedKeys(ops);
        SubsetSize(m.Keys + {op.key}, m.Keys + InsertedKeys(ops));
        assert op.key !in m ==> |m.Keys + {op.key}| == |m| + 1;
      }
      var n := Applied(m, capacity, op);
      assert n.Keys + InsertedKeys(ops[1..]) <= m.Keys + InsertedKeys(ops);
      SubsetSize(n.Keys + InsertedKeys(ops[1..]), m.Keys + InsertedKeys(ops));
      NothingDropped(n, capacity, ops[1..]);
    }
  }

  // ----- What a key is bound to, from its history

  /** The last operation on the key decides: an insert binds it, a delete unbinds it, and a replace changes
      what is bound. */
  function Bound<K(==), V>(ops: seq<Op<K, V>>, key: K, was: Option<V>): Option<V> {
    if ops == [] then was
    else
      var last, before := ops[|ops| - 1], Bound(ops[..|ops| - 1], key, was);
      if last.key != key then before
      else
        match last
        case Insert(_, value) => Some(value)
        case Replace(_, value) => if before.Some? then Some(value) else None
        case Delete(_) => None
  }

  function Lookup<K, V>(m: map<K, V>, key: K): Option<V> { if key in m then Some(m[key]) else None }

  lemma {:induction false} UnboundedSnoc<K, V>(m: map<K, V>, ops: seq<Op<K, V>>, op: Op<K, V>)
    ensures Unbounded(m, ops + [op]) == Unbounded(Unbounded(m, ops), [op])
    decreases |ops|
  {
    if ops == [] {
      assert ops + [op] == [op];
    } else {
      assert (ops + [op])[1..] == ops[1..] + [op];
      UnboundedSnoc(Unbounded(m, [ops[0]]), ops[1..], op);
      UnboundedOne(m, ops[0]);
    }
  }

  lemma UnboundedOne<K, V>(m: map<K, V>, op: Op<K, V>)
    ensures Unbounded(m, [op]) == if op.Insert? then m[op.key := op.value] else Applied(m, 0, op)
  {
    assert [op][1..] == [];
  }

  lemma {:induction false} UnboundedIsHistory<K, V>(m: map<K, V>, ops: seq<Op<K, V>>, key: K)
    ensures Lookup(Unbounded(m, ops), key) == Bound(ops, key, Lookup(m, key))
  {
    if ops != [] {
      var n := |ops| - 1;
      UnboundedIsHistory(m, ops[..n], key);
      assert ops == ops[..n] + [ops[n]];
      UnboundedSnoc(m, ops[..n], ops[n]);
      UnboundedOne(Unbounded(m, ops[..n]), ops[n]);
    }
  }

  /** With no more different keys than there are items, every key is bound to what its own operations say. */
  lemma RunIsHistory<K, V>(m: map<K, V>, capacity: nat, ops: seq<Op<K, V>>)
    requires |m.Keys + InsertedKeys(ops)| <= capacity
    ensures forall key :: Lookup(Run(m, capacity, ops), key) == Bound(ops, key, Lookup(m, key))
  {
    hide Run, Bound, Unbounded, Lookup, InsertedKeys;
    NothingDropped(m, capacity, ops);
    forall key ensures Lookup(Unbounded(m, ops), key) == Bound(ops, key, Lookup(m, key)) {
      UnboundedIsHistory(m, ops, key);
    }
  }

  // ----- The heap and its chains

  /** The walk along one chain. */
  method FindIn<K(==), V>(start: Item?<K, V>, key: K, ghost chain: seq<Item<K, V>>) returns (p: Item?<K, V>)
    requires Linked(start, chain)
    ensures p == null ==> forall x <- chain :: x.key != key
    ensures p != null ==> p in chain && p.key == key
  {
    p := start;
    ghost var j := 0;
    while p != null
      invariant j <= |chain| && Linked(p, chain[j..])
      invariant forall x <- chain[..j] :: x.key != key
      decreases |chain| - j
    {
      assert p == chain[j];
      if p.key == key {
        return;
      }
      assert chain[j..][1..] == chain[j + 1..] && chain[..j + 1] == chain[..j] + [p];
      p := p.next;
      j := j + 1;
    }
    assert chain[..j] == chain;
  }

  ghost function Members<T>(chains: seq<seq<T>>): set<T> { set h, x | 0 <= h < |chains| && x in chains[h] :: x }

  /** The items of a chain carry the values of the map. */
  ghost predicate Agrees<K, V>(chain: seq<Item<K, V>>, m: map<K, V>)
    reads chain`key, chain`value
  {
    forall j :: 0 <= j < |chain| ==> chain[j].key in m && m[chain[j].key] == chain[j].value
  }

  ghost predicate Has<K, V>(chain: seq<Item<K, V>>, key: K)
    reads chain`key
  {
    exists x <- chain :: x.key == key
  }

  lemma AgreesMore<K, V>(chain: seq<Item<K, V>>, m: map<K, V>, key: K, value: V)
    requires Agrees(chain, m) && key !in m
    ensures Agrees(chain, m[key := value])
  {
  }

  class HashTable<K(==), V(==)> {
    const capacity: nat
    const bytes: K -> seq<byte>     // the memory of a key
    const blank: V                  // itemtype()
    var free: Item?<K, V>
    const table: array<Item?<K, V>>
    ghost var all: set<Item<K, V>>
    ghost var freeList: seq<Item<K, V>>
    ghost var chains: seq<seq<Item<K, V>>>
    ghost var contents: map<K, V>

    /** getHash */
    function Bucket(key: K): (h: nat)
      requires capacity > 0
      ensures h < capacity
    {
      BelowModulus(0, bytes(key), capacity);
      FeedAll(0, bytes(key), capacity)
    }

    /** The keys of one chain belong to its bucket and differ. */
    ghost predicate Placed(h: nat, chain: seq<Item<K, V>>)
      requires capacity > 0
      reads chain`key
    {
      && (forall j :: 0 <= j < |chain| ==> Bucket(chain[j].key) == h)
      && (forall i, j :: 0 <= i < j < |chain| ==> chain[i].key != chain[j].key)
    }

    /** Every chain holds keys of its bucket with their values, and every key is in its bucket. */
    ghost predicate Keyed(chains: seq<seq<Item<K, V>>>, contents: map<K, V>)
      requires capacity > 0
      reads Members(chains)`key, Members(chains)`value
    {
      && |chains| == capacity
      && (forall h :: 0 <= h < capacity ==>
            assert forall x <- chains[h] :: x in Members(chains);
            Placed(h, chains[h]) && Agrees(chains[h], contents))
      && (forall key <- contents ::
            assert forall x <- chains[Bucket(key)] :: x in Members(chains);
            Has(chains[Bucket(key)], key))
    }

    ghost predicate Core(loose: seq<Item<K, V>>)
      reads this, table, all
    {
      && capacity > 0 && table.Length == capacity == |chains| && |all| == capacity
      && Owned(all, |contents|, chains, freeList, loose)
      && Linked(free, freeList)
      && (forall h :: 0 <= h < capacity ==> Linked(table[h], chains[h]))
      && Keyed(chains, contents)
    }

    ghost predicate Valid()
      reads this, table, all
    {
      Core([])
    }

    /** The buckets and the last link start as null pointers. */
    constructor (capacity: nat, bytes: K -> seq<byte>, blankKey: K, blank: V)
      requires capacity > 0
      ensures Valid() && this.capacity == capacity && this.bytes == bytes && this.blank == blank && contents == map[]
      ensures fresh(table) && fresh(all)
    {
      this.capacity, this.bytes, this.blank := capacity, bytes, blank;
      table := new Item?<K, V>[capacity](_ => null);
      free, freeList, all, contents := null, [], {}, map[];
      chains := seq(capacity, _ => []);
      new;
      free, freeList, all := MakeHeap(capacity, blankKey, blank);
      UnionEmpty(chains);
      assert [] + freeList == freeList;
    }

    method GetHash(key: K) returns (h: nat)
      requires capacity > 0
      ensures h == Bucket(key)
    {
      var hasher := new Hasher(capacity);
      hasher.FeedData(bytes(key));
      h := hasher.hash;
    }

    /** find */
    method Find(key: K) returns (p: Item?<K, V>)
      requires Valid()
      ensures p == null <==> key !in contents
      ensures p != null ==> p.key == key && p in all && |chains| == capacity && p in chains[Bucket(key)]
      ensures p != null ==> p.value == contents[key]
    {
      var h := GetHash(key);
      p := FindIn(table[h], key, chains[h]);
      assert Placed(h, chains[h]) && Agrees(chains[h], contents);
      if key in contents {
        assert Has(chains[h], key);
      }
    }

    method HashSearch(key: K) returns (value: V)
      requires Valid()
      ensures value == if key in contents then contents[key] else blank
    {
      var p := Find(key);
      value := if p != null then p.value else blank;
    }

    /** A key is in one item only. */
    lemma OneKeeper(p: Item<K, V>, h: nat, j: nat)
      requires Valid() && |chains| == capacity && p in chains[Bucket(p.key)] && h < capacity && j < |chains[h]|
      requires chains[h][j].key == p.key
      ensures chains[h][j] == p
    {
      assert Placed(h, chains[h]);
    }

    /** p->value = value */
    method SetValue(p: Item<K, V>, value: V)
      requires Valid() && p.key in contents && |chains| == capacity && p in chains[Bucket(p.key)]
      modifies p`value, `contents
      ensures Valid() && contents == old(contents)[p.key := value]
    {
      hide Linked, Owned, Has, Placed;
      forall h, j | 0 <= h < capacity && 0 <= j < |chains[h]| && chains[h][j].key == p.key ensures chains[h][j] == p {
        OneKeeper(p, h, j);
      }
      contents := contents[p.key := value];
      p.value := value;
      forall h | 0 <= h < capacity ensures Agrees(chains[h], contents) {
        assert old(Agrees(chains[h], contents));
      }
    }

    method HashReplace(key: K, value: V)
      requires Valid()
      modifies all, `contents
      ensures Valid() && contents == Replaced(old(contents), key, value)
      ensures contents == if key in old(contents) then old(contents)[key := value] else old(contents)
    {
      hide Core;
      var p := Find(key);
      if p != null {
        SetValue(p, value);
      }
    }

    /** allocItem */
    method AllocItem() returns (p: Item?<K, V>)
      requires Valid()
      modifies `free, `freeList
      ensures p == null ==> Valid() && freeList == [] == old(freeList)
      ensures p != null ==> Core([p]) && old(freeList) == [p] + freeList && p in all
      ensures |contents| <= capacity && (p == null <==> |contents| == capacity)
    {
      hide Placed, Agrees, Has;
      p := free;
      if free != null {
        OneIsFree(all, |contents|, chains, freeList);
        free := p.next;
        freeList := freeList[1..];
      }
    }

    /** addValue, once there is an item */
    method AddTo(p: Item<K, V>, key: K, value: V)
      requires Core([p]) && key !in contents
      modifies p, table, `chains, `contents
      ensures Valid() && contents == old(contents)[key := value]
    {
      hide Placed, Agrees, Has, Linked, Owned, Keyed, Path;
      var h := GetHash(key);
      OwnedFacts(all, |contents|, chains, freeList, [p]);
      assert p in [p];
      OneIsUsed(all, |contents|, chains, freeList, p, h);
      assert p !in Members(chains);
      p.key, p.value, p.next := key, value, table[h];
      LinkedCons(p, chains[h]);
      KeyJoins(h, p);
      table[h] := p;
      chains := chains[h := [p] + chains[h]];
      contents := contents[key := value];
    }

    lemma KeyJoins(h: nat, p: Item<K, V>)
      requires capacity > 0 && Keyed(chains, contents) && h == Bucket(p.key) && p.key !in contents
      ensures Keyed(chains[h := [p] + chains[h]], contents[p.key := p.value])
    {
      hide Placed, Agrees, Has, Members;
      var joined, m := chains[h := [p] + chains[h]], contents[p.key := p.value];
      assert Placed(h, chains[h]) && Agrees(chains[h], contents);
      HeadJoins(h, p, chains[h]);
      forall g | 0 <= g < capacity ensures Placed(g, joined[g]) && Agrees(joined[g], m) {
        assert Placed(g, chains[g]) && Agrees(chains[g], contents);
        AgreesMore(chains[g], contents, p.key, p.value);
      }
      forall k | k in m ensures Has(joined[Bucket(k)], k) {
        if k != p.key {
          assert Has(chains[Bucket(k)], k);
        }
      }
    }

    /** A new key at the head of the chain of its bucket. */
    lemma HeadJoins(h: nat, p: Item<K, V>, chain: seq<Item<K, V>>)
      requires capacity > 0 && h == Bucket(p.key) && Placed(h, chain) && Agrees(chain, contents) && p.key !in contents
      ensures Placed(h, [p] + chain) && Agrees([p] + chain, contents[p.key := p.value])
      ensures Has([p] + chain, p.key) && forall k :: Has(chain, k) ==> Has([p] + chain, k)
    {
      assert p in [p] + chain && forall x <- chain :: x in [p] + chain;
    }

    method HashInsert(key: K, value: V)
      requires Valid()
      modifies this, table, all
      ensures Valid() && contents == Inserted(old(contents), capacity, key, value) && all == old(all)
      ensures contents == if key in old(contents) || |old(contents)| < capacity then old(contents)[key := value]
                          else old(contents)
    {
      hide Core;
      var p := Find(key);
      if p != null {
        SetValue(p, value);
      } else {
        p := AllocItem();
        if p != null {
          AddTo(p, key, value);
        }
      }
    }

    /** releaseItem */
    method ReleaseItem(item: Item<K, V>)
      requires Core([item])
      modifies item`next, `free, `freeList
      ensures Valid()
    {
      hide Placed, Agrees, Has, Linked, Owned;
      OwnedFacts(all, |contents|, chains, freeList, [item]);
      assert item in [item];
      OneIsReleased(all, |contents|, chains, freeList, item);
      item.next := free;
      LinkedCons(item, freeList);
      free := item;
      freeList := [item] + freeList;
    }

    /** Taking the item with a key out of its chain takes the key out of the map. */
    lemma KeyLeaves(h: nat, j: nat)
      requires capacity > 0 && Keyed(chains, contents) && h < capacity && j < |chains[h]|
      ensures Keyed(chains[h := Without(chains[h], j)], contents - {chains[h][j].key})
      ensures chains[h][j].key in contents && |contents - {chains[h][j].key}| == |contents| - 1
    {
      var chain, key := chains[h], chains[h][j].key;
      assert Placed(h, chain) && Agrees(chain, contents);
      assert (contents - {key}).Keys == contents.Keys - {key};
      OthersStay(h, chain, j);
      forall g | 0 <= g < capacity && g != h ensures Agrees(chains[g], contents - {key}) {
        assert Placed(g, chains[g]) && Agrees(chains[g], contents);
      }
    }

    /** What is left of a chain without one of its items. */
    lemma OthersStay(h: nat, chain: seq<Item<K, V>>, j: nat)
      requires capacity > 0 && Placed(h, chain) && Agrees(chain, contents) && j < |chain|
      ensures var rest, key := Without(chain, j), chain[j].key;
              && Placed(h, rest) && Agrees(rest, contents - {key})
              && forall k :: k != key && Has(chain, k) ==> Has(rest, k)
    {
      forall k | k != chain[j].key && Has(chain, k) ensures Has(Without(chain, j), k) {
        var x :| x in chain && x.key == k;
        assert x in Without(chain, j);
      }
    }

    /** hash_table[hash] = p->next */
    method UnlinkFirst(h: nat, p: Item<K, V>)
      requires Valid() && h < capacity == |chains| && chains[h] != [] && p == chains[h][0]
      modifies table, `chains, `contents
      ensures Core([p]) && contents == old(contents) - {p.key}
    {
      hide Linked, Owned, Keyed;
      ghost var chain := chains[h];
      KeyLeaves(h, 0);
      OneIsUnlinked(all, |contents|, chains, freeList, h, 0);
      assert Without(chain, 0) == chain[1..];
      IsLinked(table[h], chain);
      PathSplit(table[h], chain, null, 0);
      IsLinked(p.next, chain[1..]);
      table[h] := p.next;
      chains := chains[h := chain[1..]];
      contents := contents - {p.key};
    }

    /** p->next = deleted->next */
    method UnlinkNext(h: nat, p: Item<K, V>, deleted: Item<K, V>, ghost j: nat)
      requires Valid() && h < capacity == |chains| && j + 1 < |chains[h]| && p == chains[h][j]
      requires deleted == chains[h][j + 1]
      modifies p`next, `chains, `contents
      ensures Core([deleted]) && contents == old(contents) - {deleted.key}
    {
      hide Linked, Owned, Keyed, Path;
      ghost var chain := chains[h];
      KeyLeaves(h, j + 1);
      OneIsUnlinked(all, |contents|, chains, freeList, h, j + 1);
      OwnedFacts(all, |contents|, chains, freeList, []);
      OnlyHere(h, j);
      IsLinked(table[h], chain);
      PathSplit(table[h], chain, null, j);
      PathSplit(table[h], chain, null, j + 1);
      p.next := deleted.next;
      RelinkAfter(table[h], chain, j);
      chains := chains[h := Without(chain, j + 1)];
      contents := contents - {deleted.key};
    }

    lemma OnlyHere(h: nat, j: nat)
      requires h < |chains| && j < |chains[h]| && Distinct(chains[h]) && Apart(chains[h], freeList)
      requires forall g :: 0 <= g < |chains| && g != h ==> Apart(chains[h], chains[g])
      ensures chains[h][j] !in chains[h][..j] && chains[h][j] !in chains[h][j + 1..]
      ensures j + 1 < |chains[h]| ==> chains[h][j] !in chains[h][j + 2..]
      ensures chains[h][j] !in freeList && forall g :: 0 <= g < |chains| && g != h ==> chains[h][j] !in chains[g]
    {
    }

    lemma RelinkAfter(start: Item?<K, V>, chain: seq<Item<K, V>>, j: nat)
      requires j + 1 < |chain| && Path(start, chain[..j], chain[j]) && Path(chain[j].next, chain[j + 2..], null)
      ensures Linked(start, Without(chain, j + 1))
    {
      LinkedCons(chain[j], chain[j + 2..]);
      PathJoin(start, chain[..j], chain[j], [chain[j]] + chain[j + 2..], null);
      assert chain[..j] + ([chain[j]] + chain[j + 2..]) == Without(chain, j + 1);
    }

    lemma SomeBuckets()
      requires Valid()
      ensures capacity > 0
    {
    }

    lemma ChainFacts(h: nat)
      requires Valid() && h < capacity
      ensures |chains| == capacity == table.Length && Linked(table[h], chains[h]) && forall x <- chains[h] :: x in all
    {
    }

    method HashDelete(key: K)
      requires Valid()
      modifies this, table, all
      ensures Valid() && contents == old(contents) - {key} && all == old(all)
    {
      hide Core, Linked, Owned, Keyed, Members, Path;
      SomeBuckets();
      var h := GetHash(key);
      ChainFacts(h);
      var p := table[h];
      ghost var chain := chains[h];
      if p != null && p.key == key {
        HeadIs(p, chain);
        UnlinkFirst(h, p);
        ReleaseItem(p);
        return;
      }
      var q, j := FindBefore(p, key, chain);
      if q == null {
        KeyIsAbsent(key);
      } else {
        var deleted := q.next;
        UnlinkNext(h, q, deleted, j);
        ReleaseItem(deleted);
      }
    }

    lemma KeyIsAbsent(key: K)
      requires Valid() && |chains| == capacity && forall x <- chains[Bucket(key)] :: x.key != key
      ensures key !in contents && contents == contents - {key}
    {
      assert !Has(chains[Bucket(key)], key);
    }
  }

  lemma HeadIs<K, V>(p: Item<K, V>, chain: seq<Item<K, V>>)
    requires Linked(p, chain)
    ensures chain != [] && p == chain[0]
  {
  }

  /** The loop of hashDelete: the item whose successor has the key. */
  method FindBefore<K(==), V>(start: Item?<K, V>, key: K, ghost chain: seq<Item<K, V>>)
    returns (p: Item?<K, V>, ghost j: nat)
    requires Linked(start, chain) && (start != null ==> start.key != key)
    ensures p == null ==> forall x <- chain :: x.key != key
    ensures p != null ==> j + 1 < |chain| && p == chain[j] && p.next == chain[j + 1] && chain[j + 1].key == key
  {
    p, j := start, 0;
    while p != null
      invariant j <= |chain| && Linked(p, chain[j..])
      invariant forall x <- chain[..j] :: x.key != key
      invariant p != null ==> p.key != key
      decreases |chain| - j
    {
      assert p == chain[j] && chain[j..][1..] == chain[j + 1..];
      assert Linked(p.next, chain[j + 1..]);
      if p.next != null && p.next.key == key {
        assert p.next == chain[j + 1];
        return;
      }
      assert chain[..j + 1] == chain[..j] + [p];
      p := p.next;
      j := j + 1;
    }
    assert chain[..j] == chain;
  }

  /** Any run of operations on a table. */
  method Replay<K(==), V(==)>(t: HashTable<K, V>, ops: seq<Op<K, V>>)
    requires t.Valid()
    modifies t, t.table, t.all
    ensures t.Valid() && t.contents == Run(old(t.contents), t.capacity, ops)
    ensures |old(t.contents).Keys + InsertedKeys(ops)| <= t.capacity ==>
              forall key :: Lookup(t.contents, key) == Bound(ops, key, Lookup(old(t.contents), key))
  {
    hide HashTable.Core, Inserted, Replaced, Lookup, Bound, InsertedKeys;
    for i := 0 to |ops|
      invariant t.Valid() && t.all == old(t.all)
      invariant Run(t.contents, t.capacity, ops[i..]) == Run(old(t.contents), t.capacity, ops)
    {
      assert ops[i..][1..] == ops[i + 1..];
      match ops[i]
      case Insert(key, value) => t.HashInsert(key, value);
      case Replace(key, value) => t.HashReplace(key, value);
      case Delete(key) => t.HashDelete(key);
    }
    assert ops[|ops|..] == [];
    if |old(t.contents).Keys + InsertedKeys(ops)| <= t.capacity {
      RunIsHistory(old(t.contents), t.capacity, ops);
      forall key ensures Lookup(t.contents, key) == Bound(ops, key, Lookup(old(t.contents), key)) {
        assert Lookup(Run(old(t.contents), t.capacity, ops), key) == Bound(ops, key, Lookup(old(t.contents), key));
      }
    }
  }
}
