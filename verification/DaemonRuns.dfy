/** Any sequence of calls on a daemon: its state and what its sockets received, by the functions of
    BufferSpec. */
module DaemonRuns {
  import opened Bytes
  import opened NetDaemons
  import Spec = BufferSpec
  import opened Seqs

  datatype Request = Put(fd: int, data: seq<byte>) | Push(fd: int) | Cleanup(fd: int) | SetQuota(fd: int, quota: nat)

  /** The operation that a request is, and the calls of write(2) made by then on each socket, when the sockets
      answer like this. */
  function Decide(s: Spec.State, answers: seq<nat -> int>, calls: seq<nat>, request: Request): (Spec.Op, seq<nat>)
    requires s.Valid() && |answers| == |calls| == |s.channels|
  {
    match request
    case Put(fd, data) => (Spec.PutOp(fd, data), calls)
    case Push(fd) =>
      if !s.Has(fd) then (Spec.PushOp(fd, 0), calls)
      else
        var c := s.channels[fd];
        var (n, k) := Spec.Written(answers[fd], calls[fd], c.offset, |c.queue|);
        (Spec.PushOp(fd, n), calls[fd := k])
    case Cleanup(fd) => (Spec.CleanupOp(fd), calls)
    case SetQuota(fd, quota) => (Spec.QuotaOp(fd, quota), calls)
  }

  /** The run that a sequence of requests is. */
  function Decided(s: Spec.State, answers: seq<nat -> int>, calls: seq<nat>, requests: seq<Request>)
    : (r: (seq<Spec.Op>, seq<nat>))
    requires s.Valid() && |answers| == |calls| == |s.channels|
    ensures |r.0| == |requests| && |r.1| == |calls| && Spec.Run(s, r.0).Valid()
  {
    if requests == [] then ([], calls)
    else
      var n := |requests| - 1;
      var (ops, now) := Decided(s, answers, calls, requests[..n]);
      var (op, next) := Decide(Spec.Run(s, ops), answers, now, requests[n]);
      RunMore(s, ops, op);
      Spec.StepConserves(Spec.Run(s, ops), op);
      (ops + [op], next)
  }

  lemma DecidedMore(s: Spec.State, answers: seq<nat -> int>, calls: seq<nat>, requests: seq<Request>, request: Request)
    requires s.Valid() && |answers| == |calls| == |s.channels|
    ensures var (ops, now) := Decided(s, answers, calls, requests);
            var (op, next) := Decide(Spec.Run(s, ops), answers, now, request);
            Decided(s, answers, calls, requests + [request]) == (ops + [op], next)
  {
    Snoc(requests, request);
  }

  ghost function AnswersOf(d: NetDaemon): seq<nat -> int> {
    seq(|d.sockets|, i requires 0 <= i < |d.sockets| => d.sockets[i].answers)
  }

  ghost function CallsOf(d: NetDaemon): seq<nat>
    reads d.sockets
  {
    seq(|d.sockets|, i requires 0 <= i < |d.sockets| reads d.sockets => d.sockets[i].calls)
  }

  /** All that the socket of fd receives in a run, cleanups or not. */
  function Received(s: Spec.State, ops: seq<Spec.Op>, fd: int): seq<byte>
    requires s.Has(fd)
  {
    if ops == [] then []
    else
      var n := |ops| - 1;
      var t := Spec.Run(s, ops[..n]);
      Received(s, ops[..n], fd) + ReceivedOne(t, ops[n], fd)
  }

  function ReceivedOne(t: Spec.State, op: Spec.Op, fd: int): seq<byte>
    requires t.Has(fd)
  {
    if op.PushOp? && op.fd == fd then t.channels[fd].queue[..Spec.Taken(t, fd, op.willing)] else []
  }

  lemma RunMore(s: Spec.State, ops: seq<Spec.Op>, op: Spec.Op)
    ensures Spec.Run(s, ops + [op]) == Spec.Step(Spec.Run(s, ops), op)
    ensures forall fd :: s.Has(fd) ==>
              Received(s, ops + [op], fd) == Received(s, ops, fd) + ReceivedOne(Spec.Run(s, ops), op, fd)
  {
    Snoc(ops, op);
  }

  method ServePush(d: NetDaemon, fd: int) returns (ghost op: Spec.Op)
    requires d.Valid() && d.state.Valid() && |d.state.channels| == |d.sockets|
    modifies d, d.fds, d.bp, Objects(d.bp.all), d.sockets
    ensures d.Valid() && d.state == Spec.Step(old(d.state), op) && op.PushOp? && op.fd == fd
    ensures (op, CallsOf(d)) == Decide(old(d.state), AnswersOf(d), old(CallsOf(d)), Push(fd))
    ensures d.bp.all == old(d.bp.all)
    ensures forall i :: 0 <= i < |d.sockets| ==>
              old(d.state).Has(i) && d.sockets[i].taken == old(d.sockets[i].taken) + ReceivedOne(old(d.state), op, i)
  {
    hide NetDaemon.Valid, Spec.Written;
    SocketsApart(d);
    var empty;
    ghost var n;
    empty, n := d.Push(fd);
    op := Spec.PushOp(fd, if old(d.state).Has(fd) then n else 0);
    if old(d.state).Has(fd) {
      assert CallsOf(d) == old(CallsOf(d))[fd := d.sockets[fd].calls];
    }
  }

  lemma SocketsApart(d: NetDaemon)
    requires d.Valid()
    ensures forall i, j :: 0 <= i < j < |d.sockets| ==> d.sockets[i] != d.sockets[j]
  {
  }

  /** One request. */
  method ServeOne(d: NetDaemon, request: Request) returns (ghost op: Spec.Op)
    requires d.Valid() && d.state.Valid() && |d.state.channels| == |d.sockets|
    modifies d, d.fds, d.bp, Objects(d.bp.all), d.sockets
    ensures d.Valid() && d.state == Spec.Step(old(d.state), op)
    ensures (op, CallsOf(d)) == Decide(old(d.state), AnswersOf(d), old(CallsOf(d)), request)
    ensures d.bp.all == old(d.bp.all)
    ensures forall i :: 0 <= i < |d.sockets| ==>
              old(d.state).Has(i) && d.sockets[i].taken == old(d.sockets[i].taken) + ReceivedOne(old(d.state), op, i)
  {
    hide NetDaemon.Valid;
    match request
    case Put(fd, data) =>
      op := Spec.PutOp(fd, data);
      var ok := d.Put(fd, data);
    case Push(fd) => op := ServePush(d, fd);
    case Cleanup(fd) =>
      op := Spec.CleanupOp(fd);
      d.Cleanup(fd);
    case SetQuota(fd, quota) =>
      op := Spec.QuotaOp(fd, quota);
      var ok := d.SetQuota(fd, quota);
  }

  /** Any sequence of requests, with sockets that take what they like: the run, the calls of write(2) and what
      every socket received are those that the answers decide; for every descriptor, what was sent since its
      last cleanup and what is still buffered are together exactly what was accepted. */
  method Serve(d: NetDaemon, requests: seq<Request>) returns (ghost ops: seq<Spec.Op>)
    requires d.Valid()
    modifies d, d.fds, d.bp, Objects(d.bp.all), d.sockets
    ensures d.Valid() && old(d.state).Valid() && |old(d.state).channels| == |d.sockets|
    ensures (ops, CallsOf(d)) == Decided(old(d.state), AnswersOf(d), old(CallsOf(d)), requests)
    ensures d.state == Spec.Run(old(d.state), ops)
    ensures forall i :: 0 <= i < |d.sockets| ==>
              old(d.state).Has(i) && d.sockets[i].taken == old(d.sockets[i].taken) + Received(old(d.state), ops, i)
    ensures forall i :: 0 <= i < |d.sockets| ==>
              old(d.state).Has(i) && d.state.Has(i)
              && Spec.Sent(old(d.state), ops, i) + d.state.channels[i].queue == Spec.Accepted(old(d.state), ops, i)
    ensures forall i :: 0 <= i < |d.sockets| ==>
              old(d.state).Has(i) && d.state.Has(i)
              && d.state.channels[i].quota == Spec.QuotaAfter(old(d.state).channels[i].quota, ops, i)
    ensures d.bp.totalCount - d.bp.freeCount == Spec.HeldBy(d.state.channels)
  {
    hide NetDaemon.Valid, Decide, Decided, Spec.Step, ReceivedOne;
    ops := [];
    StateIsValid(d);
    DecidedNone(d.state, AnswersOf(d), CallsOf(d));
    for k := 0 to |requests|
      invariant d.Valid() && d.bp.all == old(d.bp.all)
      invariant (ops, CallsOf(d)) == Decided(old(d.state), AnswersOf(d), old(CallsOf(d)), requests[..k])
      invariant d.state == Spec.Run(old(d.state), ops)
      invariant forall i :: 0 <= i < |d.sockets| ==>
                  old(d.state).Has(i) && d.sockets[i].taken == old(d.sockets[i].taken) + Received(old(d.state), ops, i)
    {
      ghost var op := ServeOne(d, requests[k]);
      DecidedMore(old(d.state), AnswersOf(d), old(CallsOf(d)), requests[..k], requests[k]);
      assert requests[..k + 1] == requests[..k] + [requests[k]];
      RunMore(old(d.state), ops, op);
      ops := ops + [op];
    }
    assert requests[..|requests|] == requests;
    Spec.RunConserves(old(d.state), ops);
    forall i | 0 <= i < |d.sockets|
      ensures d.state.channels[i].quota == Spec.QuotaAfter(old(d.state).channels[i].quota, ops, i)
    {
      Spec.RunSetsQuota(old(d.state), ops, i);
    }
    d.BusyBlocks();
  }

  lemma DecidedNone(s: Spec.State, answers: seq<nat -> int>, calls: seq<nat>)
    requires s.Valid() && |answers| == |calls| == |s.channels|
    ensures Decided(s, answers, calls, []) == ([], calls)
  {
  }

  lemma StateIsValid(d: NetDaemon)
    requires d.Valid()
    ensures d.state.Valid() && |d.state.channels| == |d.sockets|
  {
    forall i | 0 <= i < |d.state.channels| ensures d.state.channels[i].Valid() {
      assert d.Meets(i);
    }
  }
}
