/** The shared pool of fixed-size blocks (src/blockpool.cpp): one free stack linked through the blocks. */
module BlockPools {
  import opened Bytes
  import opened Layouts

  /** BLOCKPOOL_BLOCK_SIZE */
  const BLOCK_SIZE: nat := 4096

  /** The number of blocks that n bytes need. */
  function BlocksFor(n: nat): nat {
    (n + BLOCK_SIZE - 1) / BLOCK_SIZE
  }

  class Block {
    const data: array<byte>
    var next: Block?

    constructor (next: Block?)
      ensures this.next == next && data.Length == BLOCK_SIZE && fresh(data)
    {
      data := new byte[BLOCK_SIZE];
      this.next := next;
    }
  }

  ghost function NodeAt(s: seq<Block>, k: nat): Block? {
    if k < |s| then s[k] else null
  }

  /** Following `next` from `head` visits exactly the blocks of s and then ends. */
  ghost predicate Linked(head: Block?, s: seq<Block>)
    reads s
  {
    head == NodeAt(s, 0) && forall k {:trigger s[k].next} :: 0 <= k < |s| ==> s[k].next == NodeAt(s, k + 1)
  }

  /** A list that ends visits no block twice. */
  lemma LinkedDistinct(head: Block?, s: seq<Block>)
    requires Linked(head, s)
    ensures Distinct(s)
  {
    forall j, k | 0 <= j < k < |s|
      ensures s[j] != s[k]
    {
      NoCycle(head, s, j, k);
    }
  }

  lemma {:induction false} NoCycle(head: Block?, s: seq<Block>, j: nat, k: nat)
    requires Linked(head, s) && j < k < |s|
    ensures s[j] != s[k]
    decreases |s| - k
  {
    assert s[j].next == s[j + 1];
    assert s[k].next == NodeAt(s, k + 1);
    if k + 1 < |s| {
      NoCycle(head, s, j + 1, k + 1);
    }
  }

  /** The blocks of a pool own separate buffers. */
  ghost predicate SeparateBuffers(all: set<Block>) {
    && (forall b :: b in all ==> b.data.Length == BLOCK_SIZE)
    && (forall b, c :: b in all && c in all && b != c ==> b.data != c.data)
  }

  class BlockPool {
    var totalCount: nat
    var freeCount: nat
    var stack: Block?
    ghost var all: set<Block>       // every block ever reserved
    ghost var freeList: seq<Block>  // the stack, top first

    /** The stack is the linked free list, and no two reserved blocks share a buffer. */
    ghost predicate Shape()
      reads this, freeList
    {
      && Linked(stack, freeList)
      && (forall b :: b in freeList ==> b in all)
      && SeparateBuffers(all)
    }

    ghost predicate Valid()
      reads this, freeList
    {
      && Shape()
      && freeCount == |freeList|
      && totalCount == |all|
    }

    constructor ()
      ensures Valid() && all == {} && freeList == []
    {
      totalCount, freeCount, stack := 0, 0, null;
      all, freeList := {}, [];
    }

    /** Adds count blocks when the allocation (an oracle) succeeds; the result is -1 either way. */
    method Reserve(count: nat, granted: bool) returns (r: int)
      requires Valid()
      modifies this
      ensures Valid() && r == -1
      ensures !granted ==> all == old(all) && freeList == old(freeList)
      ensures granted ==> |freeList| == old(|freeList|) + count && freeList[count..] == old(freeList)
      ensures granted ==> totalCount == old(totalCount) + count
      ensures old(all) <= all && forall b :: b in all ==> b in old(all) || (fresh(b) && fresh(b.data))
    {
      if !granted {
        return -1;
      }
      var i := 0;
      while i < count
        invariant i <= count && Shape()
        invariant |freeList| == old(|freeList|) + i && freeList[i..] == old(freeList)
        invariant freeCount == old(freeCount) && totalCount == old(totalCount)
        invariant |all| == old(|all|) + i && old(all) <= all
        invariant forall b :: b in all ==> b in old(all) || (fresh(b) && fresh(b.data))
      {
        ghost var was := freeList;
        PushFresh();
        assert freeList[i + 1..] == was[i..];
        i := i + 1;
      }
      totalCount := totalCount + count;
      freeCount := freeCount + count;
      return -1;
    }

    /** One round of the reservation loop: a new block on top of the stack. */
    method PushFresh()
      requires Shape()
      modifies `stack, `all, `freeList
      ensures Shape() && stack != null && fresh(stack) && fresh(stack.data)
      ensures freeList == [stack] + old(freeList)
      ensures all == old(all) + {stack} && stack !in old(all)
    {
      var info := new Block(stack);
      assert info !in all;
      ghost var grown := [info] + freeList;
      forall k | 0 <= k < |grown|
        ensures grown[k].next == NodeAt(grown, k + 1)
      {
        assert k > 0 ==> grown[k] == freeList[k - 1] && freeList[k - 1] in freeList;
      }
      freeList := grown;
      all := all + {info};
      stack := info;
    }

    method AllocBySize(size: nat) returns (list: Block?, ghost chain: seq<Block>)
      requires Valid()
      modifies this, freeList
      ensures Valid() && all == old(all) && totalCount == old(totalCount)
      ensures list == null <==> (size == 0 || BlocksFor(size) > old(|freeList|))
      ensures list == null ==> freeList == old(freeList) && chain == []
      ensures list != null ==> |chain| == BlocksFor(size) && old(freeList) == chain + freeList && Linked(list, chain)
      ensures forall b :: b in freeList ==> b.next == old(b.next)
    {
      list, chain := AllocByBlocks((size + BLOCK_SIZE - 1) / BLOCK_SIZE);
    }

    method AllocByBlocks(count: nat) returns (list: Block?, ghost chain: seq<Block>)
      requires Valid()
      modifies this, freeList
      ensures Valid() && all == old(all) && totalCount == old(totalCount)
      ensures list == null <==> (count == 0 || count > old(|freeList|))
      ensures list == null ==> freeList == old(freeList) && chain == []
      ensures list != null ==> |chain| == count && old(freeList) == chain + freeList && Linked(list, chain)
      ensures forall b :: b in freeList ==> b.next == old(b.next)
    {
      chain := [];
      if count == 0 || count > freeCount {
        return null, [];
      }
      ghost var was := freeList;
      assert forall k :: 0 <= k < |was| && k != count - 1 ==> was[k] != was[count - 1] by {
        LinkedDistinct(stack, was);
      }
      list := stack;
      if count > 1 {
        var lim := count - 1;
        var i := 0;
        while i < lim
          invariant i <= lim
          invariant stack == freeList[i]
          modifies `stack
        {
          stack := stack.next;
          i := i + 1;
        }
      }
      var last := stack;
      stack := last.next;
      last.next := null;
      freeCount := freeCount - count;
      chain := was[..count];
      freeList := was[count..];
      assert was == chain + freeList;
      forall k | 0 <= k < |freeList|
        ensures freeList[k].next == NodeAt(freeList, k + 1)
      {
        assert freeList[k] == was[count + k];
      }
      forall k | 0 <= k < |chain|
        ensures chain[k].next == NodeAt(chain, k + 1)
      {
        assert chain[k] == was[k];
      }
    }

    /** Returns a chain to the stack; the blocks must be this pool's and not already free. */
    method Free(list: Block?, ghost chain: seq<Block>)
      requires Valid()
      requires Linked(list, chain) && Apart(chain, freeList)
      requires forall b :: b in chain ==> b in all
      modifies this, chain
      ensures Valid() && all == old(all) && totalCount == old(totalCount)
      ensures freeList == chain + old(freeList)
    {
      if list == null {
        assert chain + freeList == freeList;
        return;
      }
      var last := list;
      var count := 1;
      while last.next != null
        invariant 1 <= count <= |chain| && last == chain[count - 1]
        decreases |chain| - count
      {
        count := count + 1;
        last := last.next;
      }
      assert count == |chain|;
      LinkedDistinct(list, chain);
      ghost var joined := chain + freeList;
      last.next := stack;
      forall k | 0 <= k < |joined|
        ensures joined[k].next == NodeAt(joined, k + 1)
      {
        if k + 1 < |chain| {
          assert chain[k] != last;
        } else if k >= |chain| {
          assert joined[k] == freeList[k - |chain|] && freeList[k - |chain|] in freeList;
        }
      }
      stack := list;
      freeCount := freeCount + count;
      freeList := joined;
    }
  }
}
