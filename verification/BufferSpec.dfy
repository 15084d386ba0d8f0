/** What the output buffers of the daemon mean: one byte queue per descriptor over a shared supply of
    blocks. The class NetDaemon is proved against these functions; here is what is true of every run. */
module BufferSpec {
  import opened Bytes
  import opened BlockPools

  /** One descriptor; the first `offset` bytes of its first block are already sent. */
  datatype Channel = Channel(queue: seq<byte>, offset: nat, quota: nat) {
    /** The blocks that the queue occupies. */
    function Held(): nat { BlocksFor(offset + |queue|) }

    predicate Valid() { offset < BLOCK_SIZE && (queue == [] ==> offset == 0) }
  }

  const Idle: Channel := Channel([], 0, 0)

  datatype State = State(channels: seq<Channel>, free: int) {
    predicate Has(fd: int) { 0 <= fd < |channels| }

    predicate Valid() { free >= 0 && forall i :: 0 <= i < |channels| ==> channels[i].Valid() }

    function With(fd: nat, c: Channel): State
      requires Has(fd)
    {
      State(channels[fd := c], free + channels[fd].Held() - c.Held())
    }
  }

  /** The admission rule: the quota, and the growth in blocks against the free blocks. */
  predicate Admits(s: State, fd: int, len: nat)
    requires s.Has(fd)
  {
    var c := s.channels[fd];
    && (c.quota == 0 || |c.queue| + len <= c.quota)
    && BlocksFor(c.offset + |c.queue| + len) - BlocksFor(c.offset + |c.queue|) <= s.free
  }

  function Put(s: State, fd: int, data: seq<byte>): (State, bool) {
    if !s.Has(fd) then (s, false)
    else if data == [] then (s, true)
    else if !Admits(s, fd, |data|) then (s, false)
    else var c := s.channels[fd]; (s.With(fd, c.(queue := c.queue + data)), true)
  }

  /** The socket takes n bytes in all, over however many writes. */
  function Push(s: State, fd: int, n: nat): (State, bool)
    requires s.Has(fd) ==> n <= |s.channels[fd].queue|
  {
    if !s.Has(fd) then (s, false)
    else
      var c := s.channels[fd];
      var rest := if n == |c.queue| then c.(queue := [], offset := 0)
                  else c.(queue := c.queue[n..], offset := (c.offset + n) % BLOCK_SIZE);
      (s.With(fd, rest), rest.queue == [])
  }

  function Cleanup(s: State, fd: int): State {
    if s.Has(fd) then s.With(fd, Idle) else s
  }

  function SetQuota(s: State, fd: int, quota: nat): (State, bool) {
    if s.Has(fd) then (s.With(fd, s.channels[fd].(quota := quota)), true) else (s, false)
  }

  // ----- What a socket takes

  /** How much push offers at once: the rest of the first block, or all there is. */
  function Offer(offset: nat, size: nat): nat
    requires offset < BLOCK_SIZE
  {
    if BLOCK_SIZE - offset < size then BLOCK_SIZE - offset else size
  }

  /** How much of it is taken when write(2) would answer this. */
  function Took(answer: int, offer: nat): nat {
    if answer <= 0 then 0 else if answer < offer then answer else offer
  }

  /** The bytes that the loop of push writes when the k-th and later calls of write(2) answer like this, and
      the number of calls by then. */
  function Written(answers: nat -> int, k: nat, offset: nat, size: nat): (nat, nat)
    requires offset < BLOCK_SIZE
    decreases size
  {
    if size == 0 then (0, k)
    else
      var offer := Offer(offset, size);
      var r := Took(answers(k), offer);
      if r < offer then (r, k + 1)
      else
        var (n, last) := Written(answers, k + 1, 0, size - offer);
        (offer + n, last)
  }

  /** What has been offered, and taken, before call i of a push that has not been interrupted. */
  function Before(offset: nat, size: nat, i: nat): nat
    requires offset < BLOCK_SIZE
  {
    if i == 0 then 0 else if i * BLOCK_SIZE - offset < size then i * BLOCK_SIZE - offset else size
  }

  /** What call i of an uninterrupted push offers. */
  function OfferAt(offset: nat, size: nat, i: nat): (offer: nat)
    requires offset < BLOCK_SIZE
  {
    Before(offset, size, i + 1) - Before(offset, size, i)
  }

  lemma OffersGo(offset: nat, size: nat, i: nat)
    requires offset < BLOCK_SIZE && size > 0
    ensures var offer := Offer(offset, size);
            && Before(offset, size, 1) == offer
            && Before(offset, size, i + 1) == offer + Before(0, size - offer, i)
            && OfferAt(offset, size, i + 1) == OfferAt(0, size - offer, i)
  {
  }

  /** A push that wrote n bytes in a number of calls, one more than full: every call before the last took all
      it was offered; the last one did too, if and only if all is written. */
  ghost predicate StopsAt(answers: nat -> int, k: nat, offset: nat, size: nat, n: nat, full: nat)
    requires offset < BLOCK_SIZE
  {
    && (forall i :: 0 <= i < full ==> answers(k + i) >= OfferAt(offset, size, i) > 0)
    && OfferAt(offset, size, full) > 0
    && n == Before(offset, size, full) +
            (if answers(k + full) <= 0 then 0
             else if answers(k + full) < OfferAt(offset, size, full) then answers(k + full)
             else OfferAt(offset, size, full))
    && (n == size <==> answers(k + full) >= OfferAt(offset, size, full))
  }

  lemma FirstOffer(offset: nat, size: nat)
    requires offset < BLOCK_SIZE && size > 0
    ensures OfferAt(offset, size, 0) == Offer(offset, size) > 0 && Offer(offset, size) <= size
    ensures Before(offset, size, 0) == 0
  {
  }

  lemma OneWrite(answers: nat -> int, k: nat, offset: nat, size: nat)
    requires offset < BLOCK_SIZE && size > 0
    requires answers(k) < Offer(offset, size) || Offer(offset, size) == size
    ensures StopsAt(answers, k, offset, size, Took(answers(k), Offer(offset, size)), 0)
  {
    hide Before, OfferAt, Offer;
    FirstOffer(offset, size);
    assert k + 0 == k;
  }

  lemma MoreWrites(answers: nat -> int, k: nat, offset: nat, size: nat, n: nat, full: nat)
    requires offset < BLOCK_SIZE && Offer(offset, size) < size && answers(k) >= Offer(offset, size)
    requires StopsAt(answers, k + 1, 0, size - Offer(offset, size), n, full)
    ensures StopsAt(answers, k, offset, size, Offer(offset, size) + n, full + 1)
  {
    hide Before, OfferAt, Offer, Took;
    OffersGo(offset, size, full);
    OffersGo(offset, size, 0);
    FirstOffer(offset, size);
    forall i | 0 <= i < full + 1 ensures answers(k + i) >= OfferAt(offset, size, i) > 0 {
      if i > 0 {
        OffersGo(offset, size, i - 1);
        assert answers((k + 1) + (i - 1)) >= OfferAt(0, size - Offer(offset, size), i - 1);
      }
    }
    assert (k + 1) + full == k + (full + 1);
  }

  /** push goes on until the first write that takes less than it was offered, and no further. */
  lemma {:induction false} StopsAtShortWrite(answers: nat -> int, k: nat, offset: nat, size: nat)
    requires offset < BLOCK_SIZE && size > 0
    ensures var (n, after) := Written(answers, k, offset, size);
            after > k && n <= size && StopsAt(answers, k, offset, size, n, after - 1 - k)
    decreases size
  {
    hide StopsAt;
    var offer := Offer(offset, size);
    if answers(k) >= offer && offer < size {
      StopsAtShortWrite(answers, k + 1, 0, size - offer);
      var (n, after) := Written(answers, k + 1, 0, size - offer);
      MoreWrites(answers, k, offset, size, n, after - 1 - (k + 1));
    } else {
      OneWrite(answers, k, offset, size);
    }
  }

  /** A socket that takes a whole block whenever it is asked empties the queue, with one call for each block. */
  lemma {:induction false} WillingSocketEmpties(answers: nat -> int, k: nat, offset: nat, size: nat)
    requires offset < BLOCK_SIZE && (size == 0 ==> offset == 0) && forall i :: i >= k ==> answers(i) >= BLOCK_SIZE
    ensures Written(answers, k, offset, size) == (size, k + BlocksFor(offset + size))
    decreases size
  {
    if size > 0 {
      var offer := Offer(offset, size);
      WillingSocketEmpties(answers, k + 1, 0, size - offer);
      assert offer < size ==> offset + size == BLOCK_SIZE + (size - offer);
    }
  }

  // ----- Runs

  datatype Op =
    | PutOp(fd: int, data: seq<byte>)
    | PushOp(fd: int, willing: nat)  // the socket is willing to take this many bytes
    | CleanupOp(fd: int)
    | QuotaOp(fd: int, quota: nat)

  function Taken(s: State, fd: int, willing: nat): nat {
    if s.Has(fd) && |s.channels[fd].queue| < willing then |s.channels[fd].queue| else willing
  }

  function Step(s: State, op: Op): (r: State)
    ensures |r.channels| == |s.channels|
  {
    match op
    case PutOp(fd, data) => Put(s, fd, data).0
    case PushOp(fd, willing) => Push(s, fd, Taken(s, fd, willing)).0
    case CleanupOp(fd) => Cleanup(s, fd)
    case QuotaOp(fd, quota) => SetQuota(s, fd, quota).0
  }

  function Run(s: State, ops: seq<Op>): (r: State)
    ensures |r.channels| == |s.channels|
  {
    if ops == [] then s else Step(Run(s, ops[..|ops| - 1]), ops[|ops| - 1])
  }

  /** What was accepted on fd, after one more operation; a cleanup starts the count afresh. */
  function AcceptedAfter(s: State, op: Op, fd: int, accepted: seq<byte>): seq<byte> {
    if op == CleanupOp(fd) then []
    else if op.PutOp? && op.fd == fd && Put(s, fd, op.data).1 then accepted + op.data
    else accepted
  }

  /** What the socket of fd took, after one more operation. */
  function SentAfter(s: State, op: Op, fd: int, sent: seq<byte>): seq<byte>
    requires s.Has(fd)
  {
    if op == CleanupOp(fd) then []
    else if op.PushOp? && op.fd == fd then sent + s.channels[fd].queue[..Taken(s, fd, op.willing)]
    else sent
  }

  /** The bytes whose `put` answered true, since the last cleanup of fd. */
  function Accepted(s: State, ops: seq<Op>, fd: int): seq<byte>
    requires s.Has(fd)
  {
    if ops == [] then s.channels[fd].queue
    else AcceptedAfter(Run(s, ops[..|ops| - 1]), ops[|ops| - 1], fd, Accepted(s, ops[..|ops| - 1], fd))
  }

  /** The bytes the socket of fd took, since the last cleanup of fd. */
  function Sent(s: State, ops: seq<Op>, fd: int): seq<byte>
    requires s.Has(fd)
  {
    if ops == [] then []
    else SentAfter(Run(s, ops[..|ops| - 1]), ops[|ops| - 1], fd, Sent(s, ops[..|ops| - 1], fd))
  }

  function HeldBy(channels: seq<Channel>): nat {
    if channels == [] then 0 else channels[0].Held() + HeldBy(channels[1..])
  }

  lemma {:induction false} HeldByUpdate(channels: seq<Channel>, i: nat, c: Channel)
    requires i < |channels|
    ensures HeldBy(channels[i := c]) + channels[i].Held() == HeldBy(channels) + c.Held()
  {
    if i == 0 {
      assert channels[i := c][1..] == channels[1..];
    } else {
      HeldByUpdate(channels[1..], i - 1, c);
      assert channels[i := c][1..] == channels[1..][i - 1 := c];
    }
  }

  /** A queue that has lost n bytes has lost the blocks those bytes filled. */
  lemma HeldShrinks(c: Channel, n: nat)
    requires c.Valid() && n < |c.queue|
    ensures BlocksFor((c.offset + n) % BLOCK_SIZE + (|c.queue| - n)) == c.Held() - (c.offset + n) / BLOCK_SIZE
  {
    var sent, all := c.offset + n, c.offset + |c.queue|;
    assert sent == (sent / BLOCK_SIZE) * BLOCK_SIZE + sent % BLOCK_SIZE;
    assert all - (sent / BLOCK_SIZE) * BLOCK_SIZE == sent % BLOCK_SIZE + (|c.queue| - n);
  }

  /** What an operation does to its own descriptor, and that the blocks it wants are there. */
  lemma StepChannel(s: State, op: Op)
    requires s.Valid() && s.Has(op.fd)
    ensures var c := Step(s, op).channels[op.fd];
            c.Valid() && c.Held() <= s.free + s.channels[op.fd].Held() && Step(s, op) == s.With(op.fd, c)
  {
    var c := s.channels[op.fd];
    assert s.With(op.fd, c) == s;
    match op
    case PutOp(fd, data) =>
    case CleanupOp(fd) =>
    case QuotaOp(fd, quota) =>
    case PushOp(fd, willing) =>
      if willing < |c.queue| {
        HeldShrinks(c, willing);
        assert (c.offset + willing) / BLOCK_SIZE >= 0;
      }
  }

  /** One operation keeps the state valid and neither makes nor loses a block. */
  lemma StepConserves(s: State, op: Op)
    requires s.Valid()
    ensures Step(s, op).Valid()
    ensures Step(s, op).free + HeldBy(Step(s, op).channels) == s.free + HeldBy(s.channels)
  {
    if s.Has(op.fd) {
      StepChannel(s, op);
      HeldByUpdate(s.channels, op.fd, Step(s, op).channels[op.fd]);
    }
  }

  /** No byte is lost, repeated or reordered by one operation. */
  lemma StepHistory(s: State, op: Op, fd: int, sent: seq<byte>, accepted: seq<byte>)
    requires s.Valid() && s.Has(fd) && sent + s.channels[fd].queue == accepted
    ensures SentAfter(s, op, fd, sent) + Step(s, op).channels[fd].queue == AcceptedAfter(s, op, fd, accepted)
  {
    var q := s.channels[fd].queue;
    if op.fd == fd {
      match op
      case CleanupOp(_) =>
      case QuotaOp(_, _) =>
      case PutOp(_, data) =>
        assert sent + (q + data) == (sent + q) + data;
      case PushOp(_, willing) =>
        var n := Taken(s, fd, willing);
        assert Step(s, op).channels[fd].queue == q[n..];
        assert (sent + q[..n]) + q[n..] == sent + q;
    }
  }

  /** Over any run: sent then buffered is exactly accepted, on every descriptor; the free blocks and the
      blocks the queues need always add up to the same number. */
  lemma {:induction false} RunConserves(s: State, ops: seq<Op>)
    requires s.Valid()
    ensures Run(s, ops).Valid()
    ensures Run(s, ops).free + HeldBy(Run(s, ops).channels) == s.free + HeldBy(s.channels)
    ensures forall fd :: s.Has(fd) ==> Sent(s, ops, fd) + Run(s, ops).channels[fd].queue == Accepted(s, ops, fd)
  {
    if ops == [] {
    } else {
      var before, op := ops[..|ops| - 1], ops[|ops| - 1];
      var r := Run(s, before);
      RunConserves(s, before);
      StepConserves(r, op);
      forall fd | s.Has(fd)
        ensures Sent(s, ops, fd) + Run(s, ops).channels[fd].queue == Accepted(s, ops, fd)
      {
        StepHistory(r, op, fd, Sent(s, before, fd), Accepted(s, before, fd));
      }
    }
  }

  // ----- The quota in force, and the answers of put

  /** By the operations alone: the last quota that was set since the last cleanup, none after a cleanup. */
  function QuotaAfter(initial: nat, ops: seq<Op>, fd: int): nat {
    if ops == [] then initial
    else
      match ops[|ops| - 1]
      case QuotaOp(other, quota) => if other == fd then quota else QuotaAfter(initial, ops[..|ops| - 1], fd)
      case CleanupOp(other) => if other == fd then 0 else QuotaAfter(initial, ops[..|ops| - 1], fd)
      case _ => QuotaAfter(initial, ops[..|ops| - 1], fd)
  }

  /** Over any run, the quota of every descriptor is the one that the operations leave in force. */
  lemma {:induction false} RunSetsQuota(s: State, ops: seq<Op>, fd: int)
    requires s.Has(fd)
    ensures Run(s, ops).channels[fd].quota == QuotaAfter(s.channels[fd].quota, ops, fd)
  {
    if ops != [] {
      RunSetsQuota(s, ops[..|ops| - 1], fd);
    }
  }

  /** setQuota answers whether there is such a descriptor, and moves no byte and no block. */
  lemma QuotaMovesNothing(s: State, fd: int, quota: nat)
    ensures SetQuota(s, fd, quota).1 <==> 0 <= fd < |s.channels|
    ensures SetQuota(s, fd, quota).0.free == s.free
    ensures forall i :: 0 <= i < |s.channels| ==>
              var c := SetQuota(s, fd, quota).0.channels[i];
              c.queue == s.channels[i].queue && c.offset == s.channels[i].offset
  {
  }

  /** After any run, put answers true exactly for an empty piece of data on a good descriptor, or if the bytes
      accepted and not yet sent, with the new ones, keep within the quota in force, and the blocks of 4096
      bytes that they need beyond those in use are free. */
  lemma PutAnswers(s: State, ops: seq<Op>, fd: int, data: seq<byte>)
    requires s.Valid() && s.Has(fd)
    ensures var now := Run(s, ops);
            var quota := QuotaAfter(s.channels[fd].quota, ops, fd);
            var waiting := |Accepted(s, ops, fd)| - |Sent(s, ops, fd)|;
            var used := now.channels[fd].offset + waiting;
            Put(now, fd, data).1 <==>
              data == [] ||
              ((quota == 0 || waiting + |data| <= quota)
               && (used + |data| + 4095) / 4096 - (used + 4095) / 4096 <= now.free)
  {
    RunConserves(s, ops);
    RunSetsQuota(s, ops, fd);
    var now := Run(s, ops);
    assert |Sent(s, ops, fd) + now.channels[fd].queue| == |Accepted(s, ops, fd)|;
  }

  lemma PutOnBadDescriptor(s: State, fd: int, data: seq<byte>)
    requires !(0 <= fd < |s.channels|)
    ensures Put(s, fd, data) == (s, false)
  {
  }

  /** After a cleanup nothing but the free blocks limits what is put. */
  lemma PutAfterCleanup(s: State, ops: seq<Op>, fd: int, data: seq<byte>)
    requires s.Valid() && s.Has(fd) && data != []
    ensures var now := Run(s, ops + [CleanupOp(fd)]); Put(now, fd, data).1 <==> BlocksFor(|data|) <= now.free
  {
    var all := ops + [CleanupOp(fd)];
    assert all[..|ops|] == ops;
    RunConserves(s, ops);
    assert Run(s, all).channels[fd] == Channel([], 0, 0);
    PutAnswers(s, all, fd, data);
  }
}
