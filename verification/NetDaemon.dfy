/** NetDaemon's descriptor table over one shared pool (src/netdaemon.cpp:456-661), proved against BufferSpec. */
module NetDaemons {
  import opened Bytes
  import opened Layouts
  import opened BlockPools
  import opened BlockImages
  import opened OutputBuffers
  import Spec = BufferSpec

  class NetDaemon {
    const fds: seq<FdInfo>
    const sockets: seq<Socket>          // where write(fd, ...) goes
    const bp: BlockPool
    ghost var chains: seq<seq<Block>>   // the blocks of each descriptor, first to last

    ghost var state: Spec.State         // what it all means

    /** Every record is its own object, agrees with its chain and means what `state` says. */
    ghost predicate Table()
      reads this, fds, bp, Objects(bp.all)
    {
      && |chains| == |fds| == |sockets| == |state.channels|
      && (forall i, j :: 0 <= i < j < |fds| ==> fds[i] != fds[j] && sockets[i] != sockets[j])
      && (forall i :: 0 <= i < |fds| ==> Meets(i))
    }

    ghost predicate Meets(i: nat)
      requires i < |fds| == |chains| == |state.channels|
      reads this, fds, bp, Objects(bp.all)
    {
      && (forall b :: b in chains[i] ==> b in bp.all) && Covers(Objects(bp.all), chains[i])
      && Agrees(fds[i], chains[i])
      && ChannelOf(fds[i], chains[i]) == state.channels[i]
    }

    /** Besides, every reserved block is in the free stack or in one chain, once. */
    ghost predicate Valid()
      reads this, fds, bp, bp.freeList, Objects(bp.all)
    {
      Table() && bp.Valid() && Partition(bp.all, bp.freeList, chains) && state.free == bp.freeCount
    }

    /** A daemon over a pool none of whose blocks is lent out; what write(2) will answer is given. */
    constructor (limit: nat, pool: BlockPool, answers: nat -> nat -> int)
      requires pool.Valid() && multiset(pool.freeList) == multiset(pool.all)
      ensures Valid() && bp == pool && |fds| == limit
      ensures forall i :: 0 <= i < limit ==>
                sockets[i].answers == answers(i) && sockets[i].calls == 0 && sockets[i].taken == []
      ensures state == Spec.State(seq(limit, _ => Spec.Idle), pool.freeCount)
    {
      var table, outs := MakeTable(limit, answers);
      fds, sockets, bp := table, outs, pool;
      chains := seq(limit, _ => []);
      state := Spec.State(seq(limit, _ => Spec.Idle), pool.freeCount);
      new;
      UnionEmpty(chains);
    }

    /** The objects that an operation on fd may change, none of which belongs to another descriptor. */
    ghost predicate Exclusive(fd: nat, mine: set<object>)
      requires fd < |fds| == |chains|
      reads this, fds[fd], bp, bp.freeList, chains[fd]
    {
      && Owns(bp, fds[fd], chains[fd]) && Covers(mine, chains[fd]) && Covers(mine, bp.freeList)
      && this !in mine && (forall j :: 0 <= j < |fds| ==> fds[j] !in mine)
      && forall j, k {:trigger chains[j][k]} :: 0 <= j < |fds| && j != fd && 0 <= k < |chains[j]| ==>
           chains[j][k] !in mine && chains[j][k].data !in mine
    }

    lemma Ownership(fd: nat) returns (mine: set<object>)
      requires Valid() && fd < |fds|
      ensures Exclusive(fd, mine) && mine <= Objects(bp.all)
    {
      PartitionFacts(bp.all, bp.freeList, chains);
      assert Meets(fd);
      var blocks := set b: Block | b in chains[fd] || b in bp.freeList;
      mine := Objects(blocks);
      CoversObjects(blocks, chains[fd]);
      CoversObjects(blocks, bp.freeList);
      forall j, k | 0 <= j < |fds| && j != fd && 0 <= k < |chains[j]|
        ensures chains[j][k] !in mine && chains[j][k].data !in mine
      {
        assert Meets(j) && chains[j][k] in chains[j];
      }
    }

    /** put on one descriptor, seen from the table: nobody else's record, chain or bytes change. */
    method PutAt(fd: nat, data: seq<byte>, ghost mine: set<object>) returns (ok: bool, ghost taken: seq<Block>)
      requires Table() && fd < |fds| && data != [] && Exclusive(fd, mine) && state.free == bp.freeCount
      modifies fds[fd], bp, mine
      ensures bp.Valid() && bp.all == old(bp.all) && taken + bp.freeList == old(bp.freeList)
      ensures ok == Spec.Admits(state, fd, |data|) && Agrees(fds[fd], chains[fd] + taken)
      ensures forall b :: b in chains[fd] + taken ==> b in bp.all
      ensures ChannelOf(fds[fd], chains[fd] + taken).Held() == state.channels[fd].Held() + |taken|
      ensures ChannelOf(fds[fd], chains[fd] + taken) ==
              state.channels[fd].(queue := state.channels[fd].queue + if ok then data else [])
      ensures forall j :: 0 <= j < |fds| && j != fd ==> Meets(j)
    {
      assert Meets(fd);
      HeldIsLength(fds[fd], chains[fd]);
      AdmitsIs(state, fd, |data|, |chains[fd]|);
      ok, taken := PutFramed(bp, fds[fd], data, chains[fd], mine);
      AmongAll(bp.all, chains[fd], taken, bp.freeList, old(bp.freeList));
      HeldIsLength(fds[fd], chains[fd] + taken);
      forall j, k {:trigger chains[j][k]} | 0 <= j < |chains| && j != fd && 0 <= k < |chains[j]|
        ensures chains[j][k].next == old(chains[j][k].next)
        ensures chains[j][k].data[..] == old(chains[j][k].data[..])
      {
        assert chains[j][k] !in mine && chains[j][k].data !in mine;
      }
      OthersMeet(fd);
    }

    /** The descriptors whose records, blocks and bytes nobody touched mean what they meant. */
    twostate lemma OthersMeet(fd: nat)
      requires old(Table())
      requires chains == old(chains)
      requires state == old(state)
      requires bp.all == old(bp.all)
      requires forall j :: 0 <= j < |fds| && j != fd ==> Record(fds[j]) == old(Record(fds[j]))
      requires forall j, k {:trigger chains[j][k]} :: 0 <= j < |chains| && j != fd && 0 <= k < |chains[j]| ==>
                 chains[j][k].next == old(chains[j][k].next)
      requires forall j, k {:trigger chains[j][k]} :: 0 <= j < |chains| && j != fd && 0 <= k < |chains[j]| ==>
                 chains[j][k].data[..] == old(chains[j][k].data[..])
      ensures forall j :: 0 <= j < |fds| && j != fd ==> Meets(j)
    {
      forall j | 0 <= j < |fds| && j != fd
        ensures Meets(j)
      {
        assert old(Meets(j));
        ChannelSame((fds[j], chains[j]));
      }
    }

    /** Gives one descriptor its new chain and meaning; the others keep theirs. */
    ghost method Commit(fd: nat, chain: seq<Block>, s: Spec.State)
      requires |chains| == |fds| == |sockets| == |state.channels| && fd < |fds|
      requires forall i, j :: 0 <= i < j < |fds| ==> fds[i] != fds[j] && sockets[i] != sockets[j]
      requires forall j :: 0 <= j < |fds| && j != fd ==> Meets(j)
      requires Agrees(fds[fd], chain) && forall b :: b in chain ==> b in bp.all
      requires s.channels == state.channels[fd := ChannelOf(fds[fd], chain)]
      modifies `chains, `state
      ensures Table() && chains == old(chains)[fd := chain] && state == s
    {
      ghost var images := Images(chain);
      CoversObjects(bp.all, chain);
      chains := chains[fd := chain];
      state := s;
      assert Images(chain) == images;
      assert s.channels[fd] == old(ChannelOf(fds[fd], chain));
      forall j | 0 <= j < |fds|
        ensures Meets(j)
      {
        if j != fd {
          assert old(Meets(j)) && s.channels[j] == old(state.channels[j]);
          assert Images(chains[j]) == old(Images(chains[j]));
        }
      }
    }

    /** put(fd, data, len): the abstract put, and its answer. */
    method Put(fd: int, data: seq<byte>) returns (ok: bool)
      requires Valid()
      modifies `chains, `state, fds, bp, Objects(bp.all)
      ensures Valid() && (state, ok) == Spec.Put(old(state), fd, data)
      ensures bp.all == old(bp.all)
    {
      hide Agrees, ChannelOf, Covers, Owns, Spec.Admits;
      if fd < 0 || fd >= |fds| {
        return false;
      }
      if |data| == 0 {
        return true;
      }
      ghost var lists := chains;
      ghost var mine := Ownership(fd);
      ghost var taken: seq<Block>;
      ok, taken := PutAt(fd, data, mine);
      PutMeaning(state, fd, data);
      PartitionTake(bp.all, taken, bp.freeList, lists, fd);
      Commit(fd, chains[fd] + taken, Spec.Put(state, fd, data).0);
    }

    /** push on one descriptor, seen from the table. */
    method PushAt(fd: nat, ghost mine: set<object>) returns (empty: bool, ghost left: seq<Block>, ghost n: nat)
      requires Table() && fd < |fds| && Exclusive(fd, mine) && state.free == bp.freeCount
      modifies fds[fd], sockets[fd], bp, mine
      ensures bp.Valid() && bp.all == old(bp.all)
      ensures multiset(bp.freeList) + multiset(left) == old(multiset(bp.freeList)) + multiset(chains[fd])
      ensures n <= |state.channels[fd].queue| && (forall b :: b in left ==> b in chains[fd])
      ensures sockets[fd].taken == old(sockets[fd].taken) + state.channels[fd].queue[..n]
      ensures var c := state.channels[fd];
              c.offset < BLOCK_SIZE
                && (n, sockets[fd].calls) == ToWrite(sockets[fd], c.offset, |c.queue|, old(sockets[fd].calls))
      ensures Agrees(fds[fd], left)
      ensures Spec.Push(state, fd, n).0.channels == state.channels[fd := ChannelOf(fds[fd], left)]
      ensures Spec.Push(state, fd, n).0.free == bp.freeCount && Spec.Push(state, fd, n).1 == empty
      ensures forall j :: 0 <= j < |fds| && j != fd ==> Meets(j)
    {
      assert Meets(fd);
      HeldIsLength(fds[fd], chains[fd]);
      empty, left, n := PushFramed(bp, fds[fd], sockets[fd], chains[fd], mine);
      HeldIsLength(fds[fd], left);
      PushMeaning(state, fd, n);
      forall j, k {:trigger chains[j][k]} | 0 <= j < |chains| && j != fd && 0 <= k < |chains[j]|
        ensures chains[j][k].next == old(chains[j][k].next)
        ensures chains[j][k].data[..] == old(chains[j][k].data[..])
      {
        assert chains[j][k] !in mine && chains[j][k].data !in mine;
      }
      OthersMeet(fd);
    }

    /** push(fd): the abstract push, for the n bytes that the socket takes, in order. */
    method Push(fd: int) returns (empty: bool, ghost n: nat)
      requires Valid()
      modifies `chains, `state, fds, bp, Objects(bp.all), if 0 <= fd < |sockets| then {sockets[fd]} else {}
      ensures old(state).Has(fd) ==> n <= |old(state).channels[fd].queue|
      ensures Valid() && (state, empty) == Spec.Push(old(state), fd, n)
      ensures empty <==> old(state).Has(fd) && n == |old(state).channels[fd].queue|
      ensures old(state).Has(fd) ==>
                state.Has(fd) && state.channels[fd].queue == old(state).channels[fd].queue[n..]
                && state.channels[fd].quota == old(state).channels[fd].quota
      ensures bp.all == old(bp.all)
      ensures old(state).Has(fd) ==>
                0 <= fd < |sockets| && sockets[fd].taken == old(sockets[fd].taken) + old(state).channels[fd].queue[..n]
      ensures old(state).Has(fd) ==>
                var c := old(state).channels[fd];
                0 <= fd < |sockets| && c.offset < BLOCK_SIZE
                && (n, sockets[fd].calls) ==
                  Spec.Written(sockets[fd].answers, old(sockets[fd].calls), c.offset, |c.queue|)
    {
      if fd < 0 || fd >= |fds| {
        return false, 0;
      }
      ghost var lists, free := chains, bp.freeList;
      ghost var mine := Ownership(fd);
      assert Meets(fd);
      ghost var left: seq<Block>;
      empty, left, n := PushAt(fd, mine);
      PartitionMove(bp.all, free, lists, fd, bp.freeList, left);
      ghost var s := Spec.Push(state, fd, n).0;
      Commit(fd, left, s);
    }

    /** cleanup on one descriptor, seen from the table: its blocks go back, the quota too is forgotten. */
    method CleanupAt(fd: nat, ghost mine: set<object>)
      requires Table() && fd < |fds| && Exclusive(fd, mine) && state.free == bp.freeCount
      modifies fds[fd], bp, mine
      ensures bp.Valid() && bp.all == old(bp.all) && bp.freeList == chains[fd] + old(bp.freeList)
      ensures Agrees(fds[fd], []) && ChannelOf(fds[fd], []) == Spec.Idle
      ensures Spec.Cleanup(state, fd).free == bp.freeCount
      ensures forall j :: 0 <= j < |fds| && j != fd ==> Meets(j)
    {
      assert Meets(fd);
      HeldIsLength(fds[fd], chains[fd]);
      CleanupFramed(bp, fds[fd], chains[fd], mine);
      forall j, k {:trigger chains[j][k]} | 0 <= j < |chains| && j != fd && 0 <= k < |chains[j]|
        ensures chains[j][k].next == old(chains[j][k].next)
        ensures chains[j][k].data[..] == old(chains[j][k].data[..])
      {
        assert chains[j][k] !in mine && chains[j][k].data !in mine;
      }
      OthersMeet(fd);
    }

    /** cleanup(fd): the abstract cleanup. */
    method Cleanup(fd: int)
      requires Valid()
      modifies `chains, `state, fds, bp, Objects(bp.all)
      ensures Valid() && state == Spec.Cleanup(old(state), fd)
      ensures old(state).Has(fd) ==> state.channels == old(state).channels[fd := Spec.Channel([], 0, 0)]
      ensures !old(state).Has(fd) ==> state == old(state)
      ensures bp.all == old(bp.all)
    {
      if fd < 0 || fd >= |fds| {
        return;
      }
      ghost var lists, free := chains, bp.freeList;
      ghost var mine := Ownership(fd);
      CleanupAt(fd, mine);
      PartitionMove(bp.all, free, lists, fd, bp.freeList, []);
      Commit(fd, [], Spec.Cleanup(state, fd));
    }

    /** setQuota(fd, quota) */
    method SetQuota(fd: int, quota: nat) returns (ok: bool)
      requires Valid()
      modifies `chains, `state, fds
      ensures Valid() && (state, ok) == Spec.SetQuota(old(state), fd, quota)
      ensures ok == (0 <= fd < |fds|) && state.free == old(state).free
      ensures ok ==> state.channels == old(state).channels[fd := old(state).channels[fd].(quota := quota)]
    {
      if 0 <= fd < |fds| {
        assert Meets(fd);
        fds[fd].quota := quota;
        assert Images(chains[fd]) == old(Images(chains[fd]));
        OthersMeet(fd);
        assert chains[fd := chains[fd]] == chains;
        Commit(fd, chains[fd], Spec.SetQuota(state, fd, quota).0);
        return true;
      }
      return false;
    }

    /** getBufferedSize(fd): the length of the queue, 0 for a bad descriptor. */
    method GetBufferedSize(fd: int) returns (size: nat)
      requires Valid()
      ensures size == if state.Has(fd) then |state.channels[fd].queue| else 0
    {
      assert 0 <= fd < |fds| ==> Meets(fd);
      size := if fd >= 0 && fd < |fds| then fds[fd].size else 0;
    }

    /** In every valid state the blocks that are not free are exactly those the queues need. */
    lemma BusyBlocks()
      requires Valid()
      ensures bp.totalCount - bp.freeCount == Spec.HeldBy(state.channels)
    {
      PartitionFacts(bp.all, bp.freeList, chains);
      forall i | 0 <= i < |fds|
        ensures state.channels[i].Held() == |chains[i]|
      {
        assert Meets(i);
        HeldIsLength(fds[i], chains[i]);
      }
      LengthsAdd(state.channels, chains);
    }
  }

  /** Records of idle descriptors, and their sockets. */
  method MakeTable(limit: nat, answers: nat -> nat -> int) returns (table: seq<FdInfo>, outs: seq<Socket>)
    ensures |table| == |outs| == limit
    ensures forall j :: 0 <= j < limit ==> fresh(table[j]) && fresh(outs[j])
    ensures forall j, k :: 0 <= j < k < limit ==> table[j] != table[k] && outs[j] != outs[k]
    ensures forall j :: 0 <= j < limit ==> Agrees(table[j], []) && ChannelOf(table[j], []) == Spec.Idle
    ensures forall j :: 0 <= j < limit ==> outs[j].answers == answers(j) && outs[j].calls == 0 && outs[j].taken == []
  {
    table, outs := [], [];
    for i := 0 to limit
      invariant |table| == |outs| == i
      invariant forall j :: 0 <= j < i ==> fresh(table[j]) && fresh(outs[j])
      invariant forall j, k :: 0 <= j < k < i ==> table[j] != table[k] && outs[j] != outs[k]
      invariant forall j :: 0 <= j < i ==> Agrees(table[j], []) && ChannelOf(table[j], []) == Spec.Idle
      invariant forall j :: 0 <= j < i ==> outs[j].answers == answers(j) && outs[j].calls == 0 && outs[j].taken == []
    {
      var fb := new FdInfo();
      var out := new Socket(answers(i));
      table := table + [fb];
      outs := outs + [out];
    }
  }

  lemma {:induction false} LengthsAdd(channels: seq<Spec.Channel>, chains: seq<seq<Block>>)
    requires |channels| == |chains| && forall i :: 0 <= i < |chains| ==> channels[i].Held() == |chains[i]|
    ensures Spec.HeldBy(channels) == TotalLength(chains)
  {
    if chains != [] {
      LengthsAdd(channels[1..], chains[1..]);
    }
  }

  /** The channel after the socket took n bytes. */
  ghost function Pushed(c: Spec.Channel, n: nat): Spec.Channel
    requires n <= |c.queue|
  {
    if n == |c.queue| then c.(queue := [], offset := 0)
    else c.(queue := c.queue[n..], offset := (c.offset + n) % BLOCK_SIZE)
  }

  lemma PushMeaning(s: Spec.State, fd: nat, n: nat)
    requires s.Has(fd) && n <= |s.channels[fd].queue|
    ensures Spec.Push(s, fd, n) == (s.With(fd, Pushed(s.channels[fd], n)), Pushed(s.channels[fd], n).queue == [])
  {
  }

  method PushFramed(bp: BlockPool, fb: FdInfo, socket: Socket, ghost chain: seq<Block>, ghost mine: set<object>)
    returns (empty: bool, ghost left: seq<Block>, ghost n: nat)
    requires Owns(bp, fb, chain) && Covers(mine, chain)
    modifies bp, fb, socket, mine
    ensures bp.Valid() && bp.all == old(bp.all)
    ensures multiset(bp.freeList) + multiset(left) == old(multiset(bp.freeList)) + multiset(chain)
    ensures |left| + |bp.freeList| == |chain| + old(|bp.freeList|) && forall b :: b in left ==> b in chain
    ensures n <= |old(ChannelOf(fb, chain).queue)|
    ensures socket.taken == old(socket.taken) + old(ChannelOf(fb, chain).queue)[..n]
    ensures Agrees(fb, left) && ChannelOf(fb, left) == Pushed(old(ChannelOf(fb, chain)), n)
    ensures empty == (ChannelOf(fb, left).queue == [])
    ensures (n, socket.calls) == ToWrite(socket, old(fb.offset), old(fb.size), old(socket.calls))
  {
    empty, left, n := PushData(bp, fb, socket, chain);
    SameSizes(left, bp.freeList, chain, old(bp.freeList));
  }

  lemma AmongAll(all: set<Block>, chain: seq<Block>, taken: seq<Block>, free: seq<Block>, before: seq<Block>)
    requires (forall b :: b in chain ==> b in all) && (forall b :: b in before ==> b in all) && taken + free == before
    ensures forall b :: b in chain + taken ==> b in all
  {
    forall b | b in taken ensures b in all {
      assert b in taken + free;
    }
  }

  lemma SameSizes<T>(a: seq<T>, b: seq<T>, c: seq<T>, d: seq<T>)
    requires multiset(a) + multiset(b) == multiset(c) + multiset(d)
    ensures |a| + |b| == |c| + |d| && multiset(b) + multiset(a) == multiset(d) + multiset(c)
  {
    assert |multiset(a) + multiset(b)| == |a| + |b|;
    assert |multiset(c) + multiset(d)| == |c| + |d|;
    assert multiset(a) + multiset(b) == multiset(b) + multiset(a)
      && multiset(c) + multiset(d) == multiset(d) + multiset(c);
  }

  /** The blocks go back to the pool, and the record is as new. */
  method CleanupFramed(bp: BlockPool, fb: FdInfo, ghost chain: seq<Block>, ghost mine: set<object>)
    requires Owns(bp, fb, chain) && Covers(mine, chain)
    modifies bp, fb, mine
    ensures bp.Valid() && bp.all == old(bp.all) && bp.freeList == chain + old(bp.freeList)
    ensures Agrees(fb, []) && ChannelOf(fb, []) == Spec.Idle
  {
    bp.Free(fb.first, chain);
    fb.size := 0;
    fb.offset := 0;
    fb.quota := 0;
    fb.first := null;
    fb.last := null;
  }

  lemma HeldIsLength(fb: FdInfo, chain: seq<Block>)
    requires Agrees(fb, chain)
    ensures ChannelOf(fb, chain).Held() == |chain|
  {
    FitsExactly(fb.offset + fb.size, |chain|);
  }

  lemma PutMeaning(s: Spec.State, fd: nat, data: seq<byte>)
    requires s.Has(fd) && data != []
    ensures var (s', ok) := Spec.Put(s, fd, data);
            var c := s.channels[fd].(queue := s.channels[fd].queue + if ok then data else []);
            s' == s.With(fd, c)
  {
    var c := s.channels[fd];
    assert c.queue + [] == c.queue;
    assert s.channels[fd := c] == s.channels;
  }

  /** The admission rule, in terms of the spare bytes of the last block. */
  lemma AdmitsIs(s: Spec.State, fd: nat, len: nat, blocks: nat)
    requires s.Has(fd) && Fits(s.channels[fd].offset + |s.channels[fd].queue|, blocks) && s.free >= 0
    ensures var c := s.channels[fd];
            var spare := blocks * BLOCK_SIZE - c.offset - |c.queue|;
            Spec.Admits(s, fd, len) ==
            ((c.quota == 0 || |c.queue| + len <= c.quota) && (len <= spare || BlocksFor(len - spare) <= s.free))
  {
    Growth(s.channels[fd].offset, |s.channels[fd].queue|, blocks, len);
  }

  /** Blocks and their buffers. */
  ghost function Objects(blocks: set<Block>): set<object> {
    (set b: Block | b in blocks :: b as object) + (set b: Block | b in blocks :: b.data as object)
  }

  ghost predicate Covers(mine: set<object>, chain: seq<Block>) {
    forall b :: b in chain ==> b in mine && b.data in mine
  }

  lemma CoversObjects(blocks: set<Block>, chain: seq<Block>)
    requires forall b :: b in chain ==> b in blocks
    ensures Covers(Objects(blocks), chain)
  {
    forall b | b in chain
      ensures b in Objects(blocks) && b.data in Objects(blocks)
    {
      assert (b as object) in Objects(blocks) && (b.data as object) in Objects(blocks);
    }
  }

  method PutFramed(bp: BlockPool, fb: FdInfo, data: seq<byte>, ghost chain: seq<Block>, ghost mine: set<object>)
    returns (ok: bool, ghost taken: seq<Block>)
    requires Owns(bp, fb, chain) && data != [] && Covers(mine, chain) && Covers(mine, bp.freeList)
    modifies bp, fb, mine
    ensures bp.Valid() && bp.all == old(bp.all) && taken + bp.freeList == old(bp.freeList)
    ensures ok == old((fb.quota == 0 || fb.size + |data| <= fb.quota)
                      && (|data| <= Spare(fb, chain) || BlocksFor(|data| - Spare(fb, chain)) <= bp.freeCount))
    ensures Agrees(fb, chain + taken)
    ensures ChannelOf(fb, chain + taken) ==
            old(ChannelOf(fb, chain)).(queue := old(ChannelOf(fb, chain).queue) + if ok then data else [])
  {
    ok, taken := PutData(bp, fb, data, chain);
  }
}
