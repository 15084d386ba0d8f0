/** The output side of NetDaemon (src/netdaemon.cpp): each descriptor queues its bytes in a chain of
    blocks borrowed from the shared pool. */
module OutputBuffers {
  import opened Bytes
  import opened Layouts
  import opened BlockPools
  import opened BlockImages
  import opened Seqs
  import opened BufferSpec

  /** fd_info_t, without the registered object. */
  class FdInfo {
    var size: nat
    var offset: nat
    var quota: nat
    var first: Block?
    var last: Block?  // meaningful only while size > 0

    constructor ()
      ensures size == 0 && offset == 0 && quota == 0 && first == null && last == null
    {
      size, offset, quota, first, last := 0, 0, 0, null, null;
    }
  }

  ghost function Buffers(chain: seq<Block>): set<array<byte>> {
    set b | b in chain :: b.data
  }

  /** What the blocks of a chain hold. */
  ghost function Images(chain: seq<Block>): (images: seq<Image>)
    reads Buffers(chain)
    ensures |images| == |chain| && forall k {:trigger images[k]} :: 0 <= k < |chain| ==> images[k] == chain[k].data[..]
  {
    seq(|chain|, k requires 0 <= k < |chain| reads Buffers(chain) => chain[k].data[..])
  }

  /** Whole blocks, no two of which share a buffer. */
  ghost predicate Separate(chain: seq<Block>) {
    && (forall k {:trigger chain[k].data} :: 0 <= k < |chain| ==> chain[k].data.Length == BLOCK_SIZE)
    && (forall j, k {:trigger chain[j].data, chain[k].data} :: 0 <= j < k < |chain| ==> chain[j].data != chain[k].data)
  }

  /** A descriptor's record agrees with the chain of blocks it stands for. */
  ghost predicate Agrees(fb: FdInfo, chain: seq<Block>)
    reads fb, chain
  {
    && Linked(fb.first, chain)
    && Separate(chain)
    && Fits(fb.offset + fb.size, |chain|)
    && fb.offset < BLOCK_SIZE
    && (fb.size == 0 ==> fb.offset == 0)
    && (fb.size > 0 ==> fb.last == chain[|chain| - 1])
  }

  ghost function ChannelOf(fb: FdInfo, chain: seq<Block>): Channel
    requires Agrees(fb, chain)
    reads fb, chain, Buffers(chain)
  {
    Channel(Window(Images(chain), fb.offset, fb.size), fb.offset, fb.quota)
  }

  ghost function Record(fb: FdInfo): (nat, nat, nat, Block?, Block?)
    reads fb
  {
    (fb.size, fb.offset, fb.quota, fb.first, fb.last)
  }

  /** A descriptor whose record, blocks and bytes nobody touched. */
  twostate lemma ChannelSame(c: (FdInfo, seq<Block>))
    requires Record(c.0) == old(Record(c.0))
    requires forall k :: 0 <= k < |c.1| ==> c.1[k].next == old(c.1[k].next)
    requires forall k :: 0 <= k < |c.1| ==> c.1[k].data[..] == old(c.1[k].data[..])
    ensures old(Agrees(c.0, c.1)) ==> Agrees(c.0, c.1) && ChannelOf(c.0, c.1) == old(ChannelOf(c.0, c.1))
  {
    assert Images(c.1) == old(Images(c.1));
  }

  method Memcpy(dst: array<byte>, at: nat, src: seq<byte>)
    requires at + |src| <= dst.Length
    modifies dst
    ensures dst[..] == old(dst[..at]) + src + old(dst[at + |src|..])
  {
    forall i | 0 <= i < |src| {
      dst[at + i] := src[i];
    }
  }

  /** Copies the next bytes of the data to the front of block k of a chain. */
  method WriteBlock(fb: FdInfo, block: Block, src: seq<byte>, ghost taken: seq<Block>, ghost k: nat,
                    ghost data: seq<byte>)
    requires k < |taken| && taken[k] == block && Separate(taken)
    requires |src| <= BLOCK_SIZE && k * BLOCK_SIZE + |src| <= |data| && Chopped(Images(taken), data, k)
    requires src == data[k * BLOCK_SIZE..k * BLOCK_SIZE + |src|]
    modifies block.data, fb`size, fb`last
    ensures fb.size == old(fb.size) + |src| && fb.last == block
    ensures Chopped(Images(taken), data, k) && src <= Images(taken)[k]
    ensures |src| == BLOCK_SIZE ==> Chopped(Images(taken), data, k + 1)
  {
    ghost var images := Images(taken);
    Memcpy(block.data, 0, src);
    fb.size := fb.size + |src|;
    fb.last := block;
    assert Images(taken) == images[k := block.data[..]];
  }

  /** The loop of put that writes whole blocks; what it leaves fills less than one. */
  method FillWhole(fb: FdInfo, first: Block?, data: seq<byte>, ghost taken: seq<Block>)
    returns (block: Block?, src: seq<byte>, ghost k: nat)
    requires Fits(|data|, |taken|) && Linked(first, taken) && Separate(taken)
    modifies fb`size, fb`last, Buffers(taken)
    ensures k * BLOCK_SIZE + |src| == |data| < (k + 1) * BLOCK_SIZE && src == data[k * BLOCK_SIZE..]
    ensures k <= |taken| && block == NodeAt(taken, k) && Chopped(Images(taken), data, k)
    ensures fb.size == old(fb.size) + k * BLOCK_SIZE
    ensures k > 0 ==> fb.last == taken[k - 1]
  {
    block, src, k := first, data, 0;
    while |src| >= BLOCK_SIZE
      invariant k * BLOCK_SIZE + |src| == |data| && src == data[k * BLOCK_SIZE..]
      invariant k <= |taken| && block == NodeAt(taken, k)
      invariant Chopped(Images(taken), data, k)
      invariant fb.size == old(fb.size) + k * BLOCK_SIZE
      invariant k > 0 ==> fb.last == taken[k - 1]
      decreases |src|
    {
      WriteBlock(fb, block, src[..BLOCK_SIZE], taken, k, data);
      src := src[BLOCK_SIZE..];
      block := block.next;
      k := k + 1;
    }
  }

  /** The end of put: whole blocks, then the remainder. */
  method FillBlocks(fb: FdInfo, first: Block?, data: seq<byte>, ghost taken: seq<Block>)
    requires data != [] && Fits(|data|, |taken|) && Linked(first, taken) && Separate(taken)
    modifies fb`size, fb`last, Buffers(taken)
    ensures fb.size == old(fb.size) + |data| && fb.last == taken[|taken| - 1]
    ensures Stores(Images(taken), data)
  {
    var block, src, k := FillWhole(fb, first, data, taken);
    if src != [] {
      WriteBlock(fb, block, src, taken, k, data);
    }
  }

  /** Writes into the free part of the last block. */
  method FillTail(fb: FdInfo, ghost chain: seq<Block>, at: nat, src: seq<byte>)
    requires Agrees(fb, chain) && fb.size > 0
    requires fb.offset + fb.size == (|chain| - 1) * BLOCK_SIZE + at && at + |src| <= BLOCK_SIZE
    modifies fb`size, Buffers(chain)
    ensures Agrees(fb, chain) && fb.size == old(fb.size) + |src|
    ensures Images(chain) == PatchLast(old(Images(chain)), at, src)
  {
    Memcpy(fb.last.data, at, src);
    fb.size := fb.size + |src|;
  }

  /** Links the last block of a chain to newly taken blocks. */
  method Link(fb: FdInfo, ghost chain: seq<Block>, block: Block, ghost taken: seq<Block>)
    requires chain != [] && Linked(fb.first, chain) && fb.last == chain[|chain| - 1]
    requires Linked(block, taken) && Apart(chain, taken)
    modifies fb`last, fb.last
    ensures Linked(fb.first, chain + taken) && Linked(block, taken)
  {
    ghost var whole := chain + taken;
    LinkedDistinct(fb.first, chain);
    assert fb.last in chain;
    fb.last.next := block;
    forall k | 0 <= k < |whole|
      ensures whole[k].next == NodeAt(whole, k + 1)
    {
      if k >= |chain| {
        assert whole[k] == taken[k - |chain|] && whole[k] in taken;
      } else {
        assert k + 1 < |chain| ==> chain[k] != chain[|chain| - 1];
      }
    }
    fb.last := block;
  }

  /** Links a chain that is full to newly taken blocks and writes src there. */
  method Extend(fb: FdInfo, ghost chain: seq<Block>, block: Block, ghost taken: seq<Block>, src: seq<byte>)
    requires Agrees(fb, chain) && fb.size > 0 && Spare(fb, chain) == 0
    requires src != [] && Fits(|src|, |taken|) && Linked(block, taken)
    requires Apart(chain, taken) && Separate(taken) && Separate(chain + taken)
    modifies fb`size, fb`last, fb.last, Buffers(taken)
    ensures Agrees(fb, chain + taken) && fb.size == old(fb.size) + |src|
    ensures Images(chain) == old(Images(chain)) && Stores(Images(taken), src)
  {
    Link(fb, chain, block, taken);
    BuffersApart(chain, taken);
    FillBlocks(fb, block, src, taken);
  }

  lemma ImagesConcat(s: seq<Block>, t: seq<Block>)
    ensures Images(s + t) == Images(s) + Images(t)
  {
  }

  lemma BuffersApart(s: seq<Block>, t: seq<Block>)
    requires Separate(s + t)
    ensures Buffers(s) !! Buffers(t)
  {
    forall b, c | b in s && c in t
      ensures b.data != c.data
    {
      var j :| 0 <= j < |s| && s[j] == b;
      var k :| 0 <= k < |t| && t[k] == c;
      assert (s + t)[j].data != (s + t)[|s| + k].data;
    }
  }

  lemma SeparateParts(all: set<Block>, s: seq<Block>)
    requires SeparateBuffers(all) && Distinct(s) && forall b :: b in s ==> b in all
    ensures Separate(s)
  {
    forall j, k | 0 <= j < k < |s|
      ensures s[j].data != s[k].data
    {
      assert s[j] in s && s[k] in s;
    }
  }

  /** The chain is the descriptor's alone, and made of the pool's blocks. */
  ghost predicate Owns(bp: BlockPool, fb: FdInfo, chain: seq<Block>)
    reads bp, bp.freeList, fb, chain
  {
    && bp.Valid() && Agrees(fb, chain)
    && Apart(chain, bp.freeList) && forall b :: b in chain ==> b in bp.all
  }

  /** allocBySize, with what it leaves alone: the chain and the bytes of every block. */
  method Borrow(bp: BlockPool, size: nat, ghost fb: FdInfo, ghost chain: seq<Block>)
    returns (block: Block?, ghost taken: seq<Block>)
    requires Owns(bp, fb, chain) && size > 0
    modifies bp, bp.freeList
    ensures Owns(bp, fb, chain) && bp.all == old(bp.all)
    ensures Images(chain) == old(Images(chain))
    ensures block == null <==> BlocksFor(size) > old(bp.freeCount)
    ensures block == null ==> bp.freeList == old(bp.freeList)
    ensures block != null ==> old(bp.freeList) == taken + bp.freeList
    ensures block != null ==> Fits(size, |taken|) && Linked(block, taken) && Apart(chain, taken)
    ensures block != null ==> Separate(taken) && Separate(chain + taken)
  {
    ghost var before := bp.freeList;
    block, taken := bp.AllocBySize(size);
    forall b | b in chain
      ensures b !in before && b !in bp.freeList && b !in taken
    {
    }
    if block != null {
      FitsExactly(size, |taken|);
      assert taken == before[..|taken|];
      assert forall b :: b in taken ==> b in before;
      LinkedDistinct(fb.first, chain);
      LinkedDistinct(block, taken);
      SeparateParts(bp.all, taken);
      DistinctConcat(chain, taken);
      SeparateParts(bp.all, chain + taken);
    }
  }

  /** The free bytes of the last block. */
  ghost function Spare(fb: FdInfo, chain: seq<Block>): nat
    requires Agrees(fb, chain)
    reads fb, chain
  {
    |chain| * BLOCK_SIZE - fb.offset - fb.size
  }

  lemma TailOffset(n: nat, blocks: nat)
    requires n > 0 && Fits(n, blocks)
    ensures n % BLOCK_SIZE > 0 ==> n == (blocks - 1) * BLOCK_SIZE + n % BLOCK_SIZE
    ensures n % BLOCK_SIZE == 0 ==> n == blocks * BLOCK_SIZE
  {
  }

  /** Fills the spare bytes of the chain, then continues in the borrowed blocks. */
  method Grow(fb: FdInfo, ghost chain: seq<Block>, at: nat, rest: nat, block: Block, ghost taken: seq<Block>,
              data: seq<byte>)
    requires Agrees(fb, chain) && fb.size > 0
    requires at > 0 ==> fb.offset + fb.size == (|chain| - 1) * BLOCK_SIZE + at
    requires rest == Spare(fb, chain) < |data| && (at == 0 ==> rest == 0)
    requires Fits(|data| - rest, |taken|) && Linked(block, taken)
    requires Apart(chain, taken) && Separate(taken) && Separate(chain + taken)
    modifies fb`size, fb`last, fb.last, Buffers(chain), Buffers(taken)
    ensures Agrees(fb, chain + taken) && fb.size == old(fb.size) + |data|
    ensures Images(chain) == if at > 0 then PatchLast(old(Images(chain)), at, data[..rest]) else old(Images(chain))
    ensures Stores(Images(taken), data[rest..])
  {
    if at > 0 {
      FillTail(fb, chain, at, data[..rest]);
    }
    Extend(fb, chain, block, taken, data[rest..]);
  }

  lemma QueueTail(fb: FdInfo, chain: seq<Block>, images: seq<Image>, size: nat, at: nat, data: seq<byte>)
    requires Agrees(fb, chain) && Full(images) && |images| == |chain| > 0 && fb.size == size + |data|
    requires fb.offset + size == (|chain| - 1) * BLOCK_SIZE + at && at + |data| <= BLOCK_SIZE
    requires Images(chain) == PatchLast(images, at, data)
    ensures ChannelOf(fb, chain).queue == Window(images, fb.offset, size) + data
  {
    WindowTail(images, fb.offset, size, at, data);
  }

  lemma QueueGrow(fb: FdInfo, chain: seq<Block>, taken: seq<Block>, images: seq<Image>, size: nat, at: nat, rest: nat,
                  data: seq<byte>)
    requires Agrees(fb, chain + taken) && Full(images) && |images| == |chain| > 0 && fb.size == size + |data|
    requires fb.offset + size + rest == |chain| * BLOCK_SIZE && rest <= |data|
    requires at > 0 ==> at + rest == BLOCK_SIZE && fb.offset <= (|chain| - 1) * BLOCK_SIZE + at
    requires at == 0 ==> rest == 0
    requires Images(chain) == if at > 0 then PatchLast(images, at, data[..rest]) else images
    requires Stores(Images(taken), data[rest..])
    ensures ChannelOf(fb, chain + taken).queue == Window(images, fb.offset, size) + data
  {
    var filled := Images(chain);
    var q := Window(images, fb.offset, size);
    if at > 0 {
      WindowTail(images, fb.offset, size, at, data[..rest]);
    }
    WindowExtend(filled, Images(taken), fb.offset, size + rest, data[rest..]);
    ImagesConcat(chain, taken);
    assert (q + data[..rest]) + data[rest..] == q + data;
  }

  /** The part of put that needs more blocks than the chain has. */
  method PutBorrowing(bp: BlockPool, fb: FdInfo, at: nat, rest: nat, data: seq<byte>, ghost chain: seq<Block>)
    returns (ok: bool, ghost taken: seq<Block>)
    requires Owns(bp, fb, chain) && fb.size > 0 && rest == Spare(fb, chain) < |data|
    requires at > 0 ==> fb.offset + fb.size == (|chain| - 1) * BLOCK_SIZE + at
    requires at == 0 ==> rest == 0
    modifies bp, bp.freeList, fb`size, fb`last, chain, Buffers(chain), Buffers(bp.freeList)
    ensures bp.Valid() && bp.all == old(bp.all) && taken + bp.freeList == old(bp.freeList)
    ensures ok == (BlocksFor(|data| - rest) <= old(bp.freeCount))
    ensures Agrees(fb, chain + taken)
    ensures ChannelOf(fb, chain + taken).queue == old(ChannelOf(fb, chain).queue) + if ok then data else []
  {
    ghost var images := Images(chain);
    assert chain + [] == chain;
    var block;
    block, taken := Borrow(bp, |data| - rest, fb, chain);
    if block == null {
      return false, [];
    }
    assert fb.last in chain && fb.last !in bp.freeList;
    Grow(fb, chain, at, rest, block, taken, data);
    QueueGrow(fb, chain, taken, images, old(fb.size), at, rest, data);
    ok := true;
  }

  /** put onto a queue that is not empty: fill the last block, then borrow what is missing. */
  method PutMore(bp: BlockPool, fb: FdInfo, data: seq<byte>, ghost chain: seq<Block>)
    returns (ok: bool, ghost taken: seq<Block>)
    requires Owns(bp, fb, chain) && data != [] && fb.size > 0
    modifies bp, bp.freeList, fb`size, fb`last, chain, Buffers(chain), Buffers(bp.freeList)
    ensures bp.Valid() && bp.all == old(bp.all) && taken + bp.freeList == old(bp.freeList)
    ensures ok == (|data| <= old(Spare(fb, chain)) || BlocksFor(|data| - old(Spare(fb, chain))) <= old(bp.freeCount))
    ensures Agrees(fb, chain + taken)
    ensures ChannelOf(fb, chain + taken).queue == old(ChannelOf(fb, chain).queue) + if ok then data else []
  {
    var offset := (fb.offset + fb.size) % BLOCK_SIZE;
    var rest := if offset > 0 then BLOCK_SIZE - offset else 0;
    TailOffset(fb.offset + fb.size, |chain|);
    if |data| <= rest {
      ghost var images := Images(chain);
      FillTail(fb, chain, offset, data);
      QueueTail(fb, chain, images, old(fb.size), offset, data);
      assert chain + [] == chain;
      ok, taken := true, [];
    } else {
      ok, taken := PutBorrowing(bp, fb, offset, rest, data, chain);
    }
  }

  /** put onto an empty queue: the data starts at the front of new blocks. */
  method PutFirst(bp: BlockPool, fb: FdInfo, data: seq<byte>, ghost chain: seq<Block>)
    returns (ok: bool, ghost taken: seq<Block>)
    requires Owns(bp, fb, chain) && data != [] && fb.size == 0
    modifies bp, bp.freeList, fb, Buffers(bp.freeList)
    ensures bp.Valid() && bp.all == old(bp.all) && taken + bp.freeList == old(bp.freeList)
    ensures ok == (BlocksFor(|data|) <= old(bp.freeCount))
    ensures Agrees(fb, taken) && fb.quota == old(fb.quota) && fb.offset == old(fb.offset)
    ensures ChannelOf(fb, taken).queue == if ok then data else []
  {
    hide Images;
    var block;
    block, taken := Borrow(bp, |data|, fb, chain);
    if block == null {
      return false, [];
    }
    fb.first := block;
    fb.offset := 0;
    FillBlocks(fb, block, data, taken);
    StoresConcat(Images(taken), data);
    ok := true;
  }

  lemma Growth(offset: nat, size: nat, blocks: nat, len: nat)
    requires Fits(offset + size, blocks)
    ensures var spare := blocks * BLOCK_SIZE - offset - size;
            BlocksFor(offset + size + len) - BlocksFor(offset + size) ==
            if len <= spare then 0 else BlocksFor(len - spare)
  {
    var spare := blocks * BLOCK_SIZE - offset - size;
    FitsExactly(offset + size, blocks);
    if len <= spare {
      FitsExactly(offset + size + len, blocks);
    } else {
      FitsExactly(len - spare, BlocksFor(len - spare));
      FitsExactly(offset + size + len, blocks + BlocksFor(len - spare));
    }
  }

  /** put on one descriptor: all of the data or nothing, and exactly when it is admitted. */
  method PutData(bp: BlockPool, fb: FdInfo, data: seq<byte>, ghost chain: seq<Block>)
    returns (ok: bool, ghost taken: seq<Block>)
    requires Owns(bp, fb, chain) && data != []
    modifies bp, bp.freeList, fb, chain, Buffers(chain), Buffers(bp.freeList)
    ensures bp.Valid() && bp.all == old(bp.all) && taken + bp.freeList == old(bp.freeList)
    ensures ok == old((fb.quota == 0 || fb.size + |data| <= fb.quota)
                      && (|data| <= Spare(fb, chain) || BlocksFor(|data| - Spare(fb, chain)) <= bp.freeCount))
    ensures Agrees(fb, chain + taken)
    ensures ChannelOf(fb, chain + taken) ==
            old(ChannelOf(fb, chain)).(queue := old(ChannelOf(fb, chain).queue) + if ok then data else [])
  {
    if fb.quota != 0 && fb.size + |data| > fb.quota {
      assert chain + [] == chain;
      return false, [];
    }
    if fb.size > 0 {
      ok, taken := PutMore(bp, fb, data, chain);
    } else {
      assert chain == [] && Images(chain) == [];
      ok, taken := PutFirst(bp, fb, data, chain);
      assert chain + taken == taken;
    }
  }

  /** The descriptor's socket: write(2) takes any number of the bytes offered, or none, or fails; the k-th call
      would take answers(k). */
  class Socket {
    const answers: nat -> int
    var calls: nat
    ghost var taken: seq<byte>

    constructor (answers: nat -> int)
      ensures this.answers == answers && calls == 0 && taken == []
    {
      this.answers := answers;
      calls, taken := 0, [];
    }

    method Write(offered: seq<byte>) returns (r: int)
      modifies this
      ensures calls == old(calls) + 1 && r <= |offered|
      ensures Took(answers(old(calls)), |offered|) == if r > 0 then r else 0
      ensures taken == old(taken) + if r > 0 then offered[..r] else []
    {
      r := answers(calls);
      if r > |offered| {
        r := |offered|;
      }
      calls := calls + 1;
      taken := taken + if r > 0 then offered[..r] else [];
    }
  }

  lemma AfterWrite(offset: nat, n: nat, r: nat)
    requires offset < BLOCK_SIZE && r <= BLOCK_SIZE
    requires (offset + n) % BLOCK_SIZE + r <= BLOCK_SIZE
    ensures (offset + n + r) % BLOCK_SIZE ==
            if (offset + n) % BLOCK_SIZE + r == BLOCK_SIZE then 0 else (offset + n) % BLOCK_SIZE + r
  {
  }

  /** Moves the first block of the chain, now all sent, to the list of blocks to return. */
  method SetAside(fb: FdInfo, unused: Block?, ghost chain: seq<Block>, ghost freed: seq<Block>)
    returns (unused': Block?)
    requires chain != [] && Linked(fb.first, chain) && Linked(unused, freed) && Apart(chain, freed)
    modifies fb`offset, fb`first, fb.first
    ensures fb.offset == 0 && Linked(fb.first, chain[1..]) && Linked(unused', [chain[0]] + freed)
    ensures Apart(chain[1..], [chain[0]] + freed)
  {
    LinkedDistinct(fb.first, chain);
    ghost var left, freed' := chain[1..], [chain[0]] + freed;
    var block := fb.first;
    assert block in chain;
    fb.first := block.next;
    fb.offset := 0;
    block.next := unused;
    unused' := block;
    forall k | 0 <= k < |freed'|
      ensures freed'[k].next == NodeAt(freed', k + 1)
    {
      assert k > 0 ==> freed'[k] == freed[k - 1] && freed[k - 1] in freed;
    }
    forall k | 0 <= k < |left|
      ensures left[k].next == NodeAt(left, k + 1)
    {
      assert left[k] == chain[k + 1];
    }
    forall b | b in left
      ensures b !in freed'
    {
      assert b in chain;
    }
  }

  lemma PrefixOfSlice(s: seq<byte>, i: nat, n: nat, m: nat)
    requires i + n <= |s| && m <= n
    ensures s[i..i + n][..m] == s[i..i + m] && s[i..i] == []
  {
  }

  /** write(fd, fb->first->data + fb->offset, rest) */
  method WriteFirst(fb: FdInfo, socket: Socket, ghost chain: seq<Block>) returns (w: int, rest: nat)
    requires Agrees(fb, chain) && fb.size > 0
    modifies socket
    ensures rest == Offer(fb.offset, fb.size) && w <= rest && socket.calls == old(socket.calls) + 1
    ensures var r := if w > 0 then w else 0;
            && r == Took(socket.answers(old(socket.calls)), rest)
            && fb.offset + r <= BLOCK_SIZE
            && socket.taken == old(socket.taken) + Images(chain)[0][fb.offset..fb.offset + r]
  {
    rest := BLOCK_SIZE - fb.offset;
    if rest > fb.size {
      rest := fb.size;
    }
    ghost var image, o := fb.first.data[..], fb.offset;
    assert image == Images(chain)[0] && fb.first.data[o..o + rest] == image[o..o + rest];
    w := socket.Write(fb.first.data[fb.offset..fb.offset + rest]);
    PrefixOfSlice(image, o, rest, if w > 0 then w else 0);
    Empty(old(socket.taken));
  }

  /** One round of the loop of push: write from the first block, and set it aside once it is all sent. */
  method SendSome(fb: FdInfo, socket: Socket, unused: Block?, ghost chain: seq<Block>, ghost freed: seq<Block>)
    returns (more: bool, unused': Block?, ghost r: nat)
    requires Agrees(fb, chain) && fb.size > 0 && Linked(unused, freed) && Apart(chain, freed)
    modifies fb`size, fb`offset, fb`first, socket, fb.first
    ensures r <= old(fb.size) && old(fb.offset) + r <= BLOCK_SIZE && fb.size == old(fb.size) - r
    ensures fb.size > 0 ==> fb.offset == if old(fb.offset) + r == BLOCK_SIZE then 0 else old(fb.offset) + r
    ensures socket.taken == old(socket.taken) + old(Images(chain))[0][old(fb.offset)..old(fb.offset) + r]
    ensures more ==> Agrees(fb, chain[1..])
    ensures more ==> Linked(unused', [chain[0]] + freed) && Apart(chain[1..], [chain[0]] + freed)
    ensures !more ==> Agrees(fb, chain) && Linked(unused', freed)
    ensures more == (r > 0 && (old(fb.offset) + r == BLOCK_SIZE || fb.size == 0))
    ensures socket.calls == old(socket.calls) + 1
    ensures var offer := old(Offer(fb.offset, fb.size));
            r == Took(socket.answers(old(socket.calls)), offer) && more == (r == offer)
  {
    hide Images, Took;
    var w, rest := WriteFirst(fb, socket, chain);
    more, unused', r := false, unused, 0;
    if w > 0 {
      r := w;
      fb.size := fb.size - w;
      fb.offset := fb.offset + w;
      if w == rest {
        more := true;
        unused' := SetAside(fb, unused, chain, freed);
      }
    }
  }

  /** The bytes of the queue before the loop, split at what has been written so far. */
  ghost predicate SplitAt(fb: FdInfo, chain: seq<Block>, socket: Socket, before: Channel, taken: seq<byte>, n: nat)
    reads fb, chain, Buffers(chain), socket
  {
    && Agrees(fb, chain) && n <= |before.queue|
    && ChannelOf(fb, chain).queue == before.queue[n..]
    && (fb.size > 0 ==> fb.offset == (before.offset + n) % BLOCK_SIZE)
    && socket.taken == taken + before.queue[..n]
  }

  lemma SplitFurther(queue: seq<byte>, taken: seq<byte>, n: nat, r: nat)
    requires n + r <= |queue|
    ensures queue[n..][r..] == queue[n + r..]
    ensures (taken + queue[..n]) + queue[n..][..r] == taken + queue[..n + r]
  {
  }

  lemma NextWindow(images: seq<Image>, now: seq<Image>, offset: nat, size: nat, at: nat, r: nat)
    requires images != [] && Full(images) && Full(now) && at + size - r <= |now| * BLOCK_SIZE
    requires r <= size && offset + size <= |images| * BLOCK_SIZE && offset + r <= BLOCK_SIZE
    requires if at == offset + r then now == images
             else at == 0 && now == images[1..] && (offset + r == BLOCK_SIZE || r == size)
    ensures Window(now, at, size - r) == Window(images, offset, size)[r..]
    ensures images[0][offset..offset + r] == Window(images, offset, size)[..r]
  {
    WindowShrink(images, offset, size, r);
  }

  lemma SplitNext(fb: FdInfo, left: seq<Block>, socket: Socket, before: Channel, taken: seq<byte>, n: nat,
                  images: seq<Image>, offset: nat, size: nat, r: nat)
    requires Agrees(fb, left) && before.offset < BLOCK_SIZE && images != [] && Full(images)
    requires size > 0 && offset + size <= |images| * BLOCK_SIZE
    requires n <= |before.queue| && Window(images, offset, size) == before.queue[n..]
    requires offset == (before.offset + n) % BLOCK_SIZE && r <= size && offset + r <= BLOCK_SIZE
    requires socket.taken == taken + before.queue[..n] + images[0][offset..offset + r]
    requires fb.size == size - r
    requires if fb.offset == offset + r then Images(left) == images && offset + r < BLOCK_SIZE
             else fb.offset == 0 && Images(left) == images[1..] && (offset + r == BLOCK_SIZE || fb.size == 0)
    ensures SplitAt(fb, left, socket, before, taken, n + r)
  {
    hide Linked, Window;
    SplitFurther(before.queue, taken, n, r);
    AfterWrite(before.offset, n, r);
    NextWindow(images, Images(left), offset, size, fb.offset, r);
  }

  /** What the loop of push has still to write. */
  ghost function ToWrite(socket: Socket, offset: nat, size: nat, calls: nat): (nat, nat)
    requires offset < BLOCK_SIZE
  {
    Written(socket.answers, calls, offset, size)
  }

  function Plus(r: int, written: (nat, nat)): (int, nat) { (r + written.0, written.1) }

  lemma OneLess(socket: Socket, offset: nat, size: nat, calls: nat, offset': nat, r: nat, more: bool)
    requires offset < BLOCK_SIZE && size > 0 && offset' < BLOCK_SIZE
    requires var offer := Offer(offset, size); r == Took(socket.answers(calls), offer) && more == (r == offer)
    requires more && size - r > 0 ==> offset' == 0
    ensures ToWrite(socket, offset, size, calls) ==
            if more then Plus(r, ToWrite(socket, offset', size - r, calls + 1)) else (r, calls + 1)
  {
    if more && size == r {
      assert Written(socket.answers, calls + 1, 0, 0) == (0, calls + 1);
      assert Written(socket.answers, calls + 1, offset', 0) == (0, calls + 1);
    }
  }

  lemma WholeImages(chain: seq<Block>)
    requires Separate(chain)
    ensures Full(Images(chain))
  {
  }

  /** SendSome, in terms of the queue. */
  method SendRound(fb: FdInfo, socket: Socket, unused: Block?, ghost chain: seq<Block>, ghost freed: seq<Block>,
                   ghost before: Channel, ghost taken: seq<byte>, ghost n: nat)
    returns (more: bool, unused': Block?, ghost n': nat)
    requires SplitAt(fb, chain, socket, before, taken, n) && before.offset < BLOCK_SIZE
    requires fb.size > 0 && Linked(unused, freed) && Apart(chain, freed)
    modifies fb`size, fb`offset, fb`first, socket, fb.first
    ensures more ==> SplitAt(fb, chain[1..], socket, before, taken, n') && fb.size < old(fb.size)
    ensures more ==> Linked(unused', [chain[0]] + freed) && Apart(chain[1..], [chain[0]] + freed)
    ensures !more ==> SplitAt(fb, chain, socket, before, taken, n') && Linked(unused', freed)
    ensures ToWrite(socket, old(fb.offset), old(fb.size), old(socket.calls)) ==
            if more then Plus(n' - n, ToWrite(socket, fb.offset, fb.size, socket.calls)) else (n' - n, socket.calls)
  {
    hide ToWrite, Linked, Separate, Offer, Took;
    ghost var images, offset, size := Images(chain), fb.offset, fb.size;
    WholeImages(chain);
    ghost var r: nat;
    more, unused', r := SendSome(fb, socket, unused, chain, freed);
    n' := n + r;
    OneLess(socket, offset, size, old(socket.calls), fb.offset, r, more);
    assert Images(chain) == images;
    if more {
      assert Images(chain[1..]) == images[1..];
      SplitNext(fb, chain[1..], socket, before, taken, n, images, offset, size, r);
    } else {
      SplitNext(fb, chain, socket, before, taken, n, images, offset, size, r);
    }
  }

  /** The chain splits into the blocks still in use and those to return. */
  ghost predicate Split(chain: seq<Block>, left: seq<Block>, freed: seq<Block>) {
    multiset(left) + multiset(freed) == multiset(chain)
  }

  lemma SplitMembers(chain: seq<Block>, left: seq<Block>, freed: seq<Block>)
    requires Split(chain, left, freed)
    ensures forall b :: b in left ==> b in chain
    ensures forall b :: b in freed ==> b in chain
  {
    forall b | b in left || b in freed
      ensures b in chain
    {
      assert b in left ==> b in multiset(left);
      assert b in freed ==> b in multiset(freed);
      assert b in multiset(chain);
    }
  }

  lemma SplitPop(chain: seq<Block>, left: seq<Block>, freed: seq<Block>)
    requires Split(chain, left, freed) && left != []
    ensures Split(chain, left[1..], [left[0]] + freed)
  {
    assert left == [left[0]] + left[1..];
  }

  /** The loop of push. */
  method SendAll(fb: FdInfo, socket: Socket, ghost chain: seq<Block>)
    returns (unused: Block?, ghost left: seq<Block>, ghost freed: seq<Block>, ghost n: nat)
    requires Agrees(fb, chain)
    modifies fb`size, fb`offset, fb`first, socket, chain
    ensures SplitAt(fb, left, socket, old(ChannelOf(fb, chain)), old(socket.taken), n)
    ensures Linked(unused, freed) && Apart(left, freed) && Split(chain, left, freed)
    ensures (n, socket.calls) == ToWrite(socket, old(fb.offset), old(fb.size), old(socket.calls))
  {
    hide ToWrite, ChannelOf, Separate;
    ghost var before, taken := ChannelOf(fb, chain), socket.taken;
    ChannelFacts(fb, chain);
    unused, left, freed, n := null, chain, [], 0;
    while fb.size > 0
      invariant SplitAt(fb, left, socket, before, taken, n)
      invariant var still := ToWrite(socket, fb.offset, fb.size, socket.calls);
                (n + still.0, still.1) == ToWrite(socket, old(fb.offset), old(fb.size), old(socket.calls))
      invariant Linked(unused, freed) && Apart(left, freed) && Split(chain, left, freed)
      decreases fb.size
    {
      SplitMembers(chain, left, freed);
      SplitPop(chain, left, freed);
      assert fb.first == left[0] && left[0] in left;
      var more;
      more, unused, n := SendRound(fb, socket, unused, left, freed, before, taken, n);
      if !more {
        break;
      }
      left, freed := left[1..], [left[0]] + freed;
    }
    if fb.size == 0 {
      NothingToWrite(socket, fb.offset, socket.calls);
    }
  }

  lemma ChannelFacts(fb: FdInfo, chain: seq<Block>)
    requires Agrees(fb, chain)
    ensures var c := ChannelOf(fb, chain); c.queue[0..] == c.queue && c.queue[..0] == []
    ensures fb.size > 0 ==> fb.offset == (ChannelOf(fb, chain).offset + 0) % BLOCK_SIZE
    ensures ChannelOf(fb, chain).offset < BLOCK_SIZE
  {
  }

  lemma NothingToWrite(socket: Socket, offset: nat, calls: nat)
    requires offset < BLOCK_SIZE
    ensures ToWrite(socket, offset, 0, calls) == (0, calls)
  {
  }

  /** Free, with what it leaves alone: the chain still in use and the bytes of every block. */
  method Return(bp: BlockPool, unused: Block?, ghost freed: seq<Block>, ghost fb: FdInfo, ghost left: seq<Block>)
    requires bp.Valid() && Linked(unused, freed) && Apart(freed, bp.freeList) && forall b :: b in freed ==> b in bp.all
    requires Agrees(fb, left) && Apart(left, freed)
    modifies bp, freed
    ensures bp.Valid() && bp.all == old(bp.all) && bp.freeList == freed + old(bp.freeList)
    ensures Agrees(fb, left) && Images(left) == old(Images(left))
  {
    assert forall k :: 0 <= k < |left| ==> left[k] in left && left[k] !in freed;
    bp.Free(unused, freed);
  }

  lemma OwnsFacts(bp: BlockPool, fb: FdInfo, chain: seq<Block>)
    requires Owns(bp, fb, chain)
    ensures bp.Valid() && Agrees(fb, chain) && Apart(chain, bp.freeList) && forall b :: b in chain ==> b in bp.all
  {
  }

  /** push: write until the queue is empty or the socket refuses, then return the blocks that are all sent. */
  method PushData(bp: BlockPool, fb: FdInfo, socket: Socket, ghost chain: seq<Block>)
    returns (empty: bool, ghost left: seq<Block>, ghost n: nat)
    requires Owns(bp, fb, chain)
    modifies bp, fb`size, fb`offset, fb`first, socket, chain
    ensures bp.Valid() && bp.all == old(bp.all)
    ensures multiset(left) + multiset(bp.freeList) == multiset(chain) + old(multiset(bp.freeList))
    ensures SplitAt(fb, left, socket, old(ChannelOf(fb, chain)), old(socket.taken), n)
    ensures empty == (fb.size == 0) && fb.quota == old(fb.quota) && forall b :: b in left ==> b in chain
    ensures (n, socket.calls) == ToWrite(socket, old(fb.offset), old(fb.size), old(socket.calls))
  {
    hide Agrees, ToWrite, Images, Owns, Separate;
    OwnsFacts(bp, fb, chain);
    var unused: Block?;
    ghost var freed: seq<Block>;
    unused, left, freed, n := SendAll(fb, socket, chain);
    SplitMembers(chain, left, freed);
    assert forall k :: 0 <= k < |freed| ==> freed[k] in freed && freed[k] in chain;
    assert forall k :: 0 <= k < |bp.freeList| ==> bp.freeList[k] in bp.freeList;
    Return(bp, unused, freed, fb, left);
    empty := fb.size == 0;
    assert multiset(bp.freeList) == multiset(freed) + old(multiset(bp.freeList));
  }
}
