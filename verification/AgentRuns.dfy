/** A client that keeps reconnecting (src/asyncagent.cpp:31-117, 122-176, 207-225, src/asyncstream.cpp:345-354)
    as a state machine over its handlers; what the system calls answer comes with each event. */
module AgentRuns {
  import opened Seqs
  import opened Wrappers

  datatype Connection = NotConnected | Resolving | Connecting | Connected | Reconnecting

  datatype Call = HostConnected | HostDisconnected

  /** queries: DNS questions that have not been answered; timers: reconnect timers that have not fired;
      calls: the callbacks so far. An enabled agent gets events of its socket. */
  datatype Agent = Agent(
    connection: Connection, reconnecting: bool, socket: bool, enabled: bool, queries: nat, timers: nat,
    calls: seq<Call>)

  function Init(): Agent { Agent(NotConnected, false, false, false, 0, 0, []) }

  /** close: out of epoll, and without a descriptor. */
  function Closed(a: Agent): Agent { if a.socket then a.(socket := false, enabled := false) else a }

  function Reconnect(a: Agent): Agent {
    if a.reconnecting then a
    else
      var b := a.(reconnecting := true,
                  calls := if a.connection == Connected then a.calls + [HostDisconnected] else a.calls);
      var c := Closed(b.(connection := Reconnecting));
      c.(timers := c.timers + 1)
  }

  /** created: socket() succeeds; submitted: the DNS question is accepted, which nobody checks. */
  function StartConnection(a: Agent, created: bool, submitted: bool): Agent {
    if !created then Reconnect(a)
    else
      var b := a.(socket := true, enabled := false, connection := Resolving);
      if submitted then b.(queries := b.queries + 1) else b
  }

  /** on_connect_a4; an agent without a descriptor cannot be enabled. */
  function Answered(a: Agent, found: bool, admitted: bool, connects: bool): Agent {
    var b := if found then a.(connection := Connecting) else a;
    if !(b.enabled || (b.socket && admitted)) then Reconnect(b)
    else
      var c := b.(enabled := true);
      if connects then c.(connection := Connected, calls := c.calls + [HostConnected])
      else Disabled(Reconnect(c))
  }

  function Disabled(a: Agent): Agent { if a.socket then a.(enabled := false) else a }

  datatype Event =
    | Start(created: bool, submitted: bool)                    // the one call from outside
    | Answer(found: bool, admitted: bool, connects: bool)      // DNS
    | Down                                                     // onAsyncError or onPeerDown
    | Timer(created: bool, submitted: bool)

  /** None: the event cannot happen now. */
  function Step(a: Agent, event: Event): Option<Agent> {
    match event
    case Start(created, submitted) => Some(StartConnection(a, created, submitted))
    case Answer(found, admitted, connects) =>
      if a.queries == 0 then None else Some(Answered(a.(queries := a.queries - 1), found, admitted, connects))
    case Down => if !a.enabled then None else Some(Reconnect(Disabled(a)))
    case Timer(created, submitted) =>
      if a.timers == 0 then None
      else Some(StartConnection(a.(timers := a.timers - 1, reconnecting := false), created, submitted))
  }

  function Run(a: Agent, events: seq<Event>): Option<Agent>
    decreases |events|
  {
    if events == [] then Some(a)
    else match Step(a, events[0]) case None => None case Some(b) => Run(b, events[1..])
  }

  /** startConnection is called from outside once, at the beginning. */
  predicate StartedOnce(events: seq<Event>) {
    events != [] && events[0].Start? && forall k :: 0 < k < |events| ==> !events[k].Start?
  }

  // ----- What holds in every reachable state

  /** connected, disconnected, connected, and so on */
  predicate Alternates(calls: seq<Call>) {
    forall k :: 0 <= k < |calls| ==> calls[k] == if k % 2 == 0 then HostConnected else HostDisconnected
  }

  /** Exactly one thing is going on: a timer, a DNS question, or a connection; or the question was lost. */
  predicate Inv(a: Agent) {
    && a.timers == (if a.reconnecting then 1 else 0)
    && a.queries <= 1
    && (a.connection == Connected <==> a.enabled)
    && (a.connection == Connected <==> |a.calls| % 2 == 1)
    && Alternates(a.calls)
    && (a.reconnecting ==> a.queries == 0 && a.connection == Reconnecting)
    && (a.queries == 1 ==> a.connection == Resolving)
    && (a.connection == Reconnecting <==> a.reconnecting)
    && (a.connection == Connected || a.connection == Resolving <==> a.socket)
    && a.connection != Connecting
  }

  predicate Busy(a: Agent) { a.timers + a.queries + (if a.connection == Connected then 1 else 0) == 1 }

  lemma StartKeeps(a: Agent, created: bool, submitted: bool)
    requires a == Init()
    ensures Inv(StartConnection(a, created, submitted))
  {
  }

  lemma StepKeeps(a: Agent, event: Event)
    requires Inv(a) && a.connection != NotConnected && !event.Start? && Step(a, event).Some?
    ensures Inv(Step(a, event).value) && Step(a, event).value.connection != NotConnected
  {
  }

  lemma {:induction false} RunKeeps(a: Agent, events: seq<Event>)
    requires Inv(a) && a.connection != NotConnected && Run(a, events).Some?
    requires forall k :: 0 <= k < |events| ==> !events[k].Start?
    ensures Inv(Run(a, events).value) && Run(a, events).value.connection != NotConnected
    decreases |events|
  {
    if events != [] {
      StepKeeps(a, events[0]);
      RunKeeps(Step(a, events[0]).value, events[1..]);
    }
  }

  lemma StartedKeeps(events: seq<Event>)
    requires StartedOnce(events) && Run(Init(), events).Some?
    ensures Inv(Run(Init(), events).value) && Run(Init(), events).value.connection != NotConnected
  {
    var Start(created, submitted) := events[0];
    StartKeeps(Init(), created, submitted);
    RunKeeps(StartConnection(Init(), created, submitted), events[1..]);
  }

  /** Every run that is started once: at most one reconnect timer, there exactly while reconnecting is set,
      and callbacks that alternate, beginning with connected. */
  lemma RunsAreOrderly(events: seq<Event>)
    requires StartedOnce(events) && Run(Init(), events).Some?
    ensures var a := Run(Init(), events).value;
            && a.timers <= 1 && (a.timers == 1 <==> a.reconnecting)
            && Alternates(a.calls) && (a.connection == Connected <==> |a.calls| % 2 == 1)
  {
    StartedKeeps(events);
  }

  // ----- Whether it ever stops trying

  /** The events whose DNS question was accepted, if they asked one. */
  predicate NothingLost(events: seq<Event>) {
    forall k :: 0 <= k < |events| ==> Accepted(events[k])
  }

  predicate Accepted(event: Event) { (event.Start? || event.Timer?) && event.created ==> event.submitted }

  lemma StepIsBusy(a: Agent, event: Event)
    requires Inv(a) && Busy(a) && a.connection != NotConnected && !event.Start? && Step(a, event).Some?
    ensures Busy(Step(a, event).value) <==> Accepted(event)
  {
  }

  /** With nothing pending, nothing happens any more. */
  lemma NothingFollows(a: Agent, event: Event)
    requires Inv(a) && !Busy(a) && !event.Start?
    ensures Step(a, event) == None
  {
  }

  lemma {:induction false} RunIsBusy(a: Agent, events: seq<Event>)
    requires Inv(a) && a.connection != NotConnected && Run(a, events).Some?
    requires forall k :: 0 <= k < |events| ==> !events[k].Start?
    ensures Busy(Run(a, events).value) <==> Busy(a) && NothingLost(events)
    decreases |events|
  {
    if events != [] {
      if !Busy(a) {
        NothingFollows(a, events[0]);
      } else {
        StepKeeps(a, events[0]);
        StepIsBusy(a, events[0]);
        RunIsBusy(Step(a, events[0]).value, events[1..]);
        assert events == [events[0]] + events[1..];
      }
    }
  }

  /** In every run that is started once: exactly one of timer, question and connection is there if and only if
      every DNS question so far was accepted. */
  lemma NeverStuck(events: seq<Event>)
    requires StartedOnce(events) && Run(Init(), events).Some?
    ensures Busy(Run(Init(), events).value) <==> NothingLost(events)
  {
    var Start(created, submitted) := events[0];
    StartKeeps(Init(), created, submitted);
    RunIsBusy(StartConnection(Init(), created, submitted), events[1..]);
    assert events == [events[0]] + events[1..];
  }

  /** A question that is not accepted, the first or any later one, is the end: no run goes on after it. */
  lemma LostForGood(events: seq<Event>, event: Event)
    requires StartedOnce(events) && Run(Init(), events).Some? && !NothingLost(events) && !event.Start?
    ensures Step(Run(Init(), events).value, event) == None
  {
    NeverStuck(events);
    StartedKeeps(events);
    NothingFollows(Run(Init(), events).value, event);
  }

  // ----- What the events alone decide

  lemma {:induction false} RunSnoc(a: Agent, events: seq<Event>, event: Event)
    ensures Run(a, events + [event]) ==
            match Run(a, events) case None => None case Some(b) => Step(b, event)
    decreases |events|
  {
    if events == [] {
      assert [event][1..] == [];
    } else {
      assert (events + [event])[1..] == events[1..] + [event];
      if Step(a, events[0]).Some? {
        RunSnoc(Step(a, events[0]).value, events[1..], event);
      }
    }
  }

  /** After an attempt to connect comes the answer or, if there is no socket, the timer; after a connection its
      end; after anything that failed the timer. Whether the host was found makes no difference. */
  predicate MayFollow(last: Event, next: Event) {
    match last
    case Start(created, submitted) => if created then submitted && next.Answer? else next.Timer?
    case Timer(created, submitted) => if created then submitted && next.Answer? else next.Timer?
    case Answer(_, admitted, connects) => if admitted && connects then next.Down? else next.Timer?
    case Down => next.Timer?
  }

  predicate Chain(events: seq<Event>) {
    forall k :: 0 < k < |events| ==> MayFollow(events[k - 1], events[k])
  }

  /** One callback for each connection that is made, and one for each that is lost. */
  function Reported(events: seq<Event>): seq<Call> {
    if events == [] then []
    else
      var last := events[|events| - 1];
      Reported(events[..|events| - 1]) +
      if last.Answer? && last.admitted && last.connects then [HostConnected]
      else if last.Down? then [HostDisconnected] else []
  }

  function Waiting(calls: seq<Call>): Agent { Agent(Reconnecting, true, false, false, 0, 1, calls) }

  function Asking(submitted: bool, calls: seq<Call>): Agent {
    Agent(Resolving, false, true, false, if submitted then 1 else 0, 0, calls)
  }

  /** The agent after these events: the last one decides all but the callbacks. */
  function Told(events: seq<Event>): Agent
    requires events != []
  {
    var calls := Reported(events);
    match events[|events| - 1]
    case Start(created, submitted) => if created then Asking(submitted, calls) else Waiting(calls)
    case Timer(created, submitted) => if created then Asking(submitted, calls) else Waiting(calls)
    case Answer(_, admitted, connects) =>
      if admitted && connects then Agent(Connected, false, true, true, 0, 0, calls) else Waiting(calls)
    case Down => Waiting(calls)
  }

  lemma ToldStep(events: seq<Event>, event: Event)
    requires events != [] && !event.Start?
    ensures Step(Told(events), event) ==
            if MayFollow(events[|events| - 1], event) then Some(Told(events + [event])) else None
  {
    Empty(Reported(events));
    var more := events + [event];
    assert more[..|more| - 1] == events && more[|more| - 1] == event;
  }

  lemma FirstTold(events: seq<Event>)
    requires |events| == 1 && events[0].Start?
    ensures Step(Init(), events[0]) == Some(Told(events))
  {
    assert events[..0] == [];
    assert Reported([]) == [];
    assert Reported(events) == [] + [];
  }

  /** Started once, an agent goes through exactly the chains of events, and is as they tell. */
  lemma {:induction false} RunsExactly(events: seq<Event>)
    requires StartedOnce(events)
    ensures Run(Init(), events) == if Chain(events) then Some(Told(events)) else None
  {
    hide Step, Told, MayFollow;
    var n := |events| - 1;
    var before, last := events[..n], events[n];
    assert events == before + [last];
    RunSnoc(Init(), before, last);
    if n == 0 {
      FirstTold(events);
      assert before == [];
    } else {
      RunsExactly(before);
      if Chain(before) {
        ToldStep(before, last);
        assert Chain(events) <==> MayFollow(before[n - 1], last);
      } else {
        var k :| 0 < k < n && !MayFollow(before[k - 1], before[k]);
        assert !MayFollow(events[k - 1], events[k]);
      }
    }
  }

  // ----- A second call of startConnection from outside

  predicate NoStart(events: seq<Event>) { forall k :: 0 <= k < |events| ==> !events[k].Start? }

  /** The callbacks alternate whatever follows. */
  ghost predicate StaysOrderly(a: Agent) {
    forall events :: NoStart(events) && Run(a, events).Some? ==> Alternates(Run(a, events).value.calls)
  }

  /** The agent can bear it: a socket that cannot be made, while no question is out; a question that is not
      accepted; or any question, if nothing else is pending because an earlier one was lost. */
  predicate Tolerates(a: Agent, created: bool, submitted: bool) {
    if created then submitted ==> !Busy(a) else a.queries == 0
  }

  lemma OrderlyFromInv(a: Agent)
    requires Inv(a) && a.connection != NotConnected
    ensures StaysOrderly(a)
  {
    forall events | NoStart(events) && Run(a, events).Some? ensures Alternates(Run(a, events).value.calls) {
      RunKeeps(a, events);
    }
  }

  /** A state in which the first event, if there can be one, leads back to the invariant. */
  lemma OrderlyAfterOne(a: Agent)
    requires Alternates(a.calls)
    requires forall event: Event :: !event.Start? && Step(a, event).Some? ==>
               Inv(Step(a, event).value) && Step(a, event).value.connection != NotConnected
    ensures StaysOrderly(a)
  {
    forall events | NoStart(events) && Run(a, events).Some? ensures Alternates(Run(a, events).value.calls) {
      if events != [] {
        RunKeeps(Step(a, events[0]).value, events[1..]);
      }
    }
  }

  lemma RunFirst(a: Agent, event: Event, events: seq<Event>)
    requires Step(a, event).Some?
    ensures Run(a, [event] + events) == Run(Step(a, event).value, events)
  {
    assert ([event] + events)[1..] == events;
  }

  lemma NotTwice(calls: seq<Call>, n: nat)
    requires n + 1 < |calls| && calls[n] == calls[n + 1]
    ensures !Alternates(calls)
  {
  }

  /** A host that answers when it is asked connects; a second question is answered while connected. */
  lemma TwoAnswers(a: Agent)
    requires a.queries >= 2 && a.socket
    ensures Run(a, [Answer(true, true, true), Answer(true, true, true)]) ==
            Some(a.(connection := Connected, enabled := true, queries := a.queries - 2,
                    calls := a.calls + [HostConnected] + [HostConnected]))
  {
    var answer := Answer(true, true, true);
    var b := Answered(a.(queries := a.queries - 1), true, true, true);
    RunFirst(a, answer, [answer]);
    RunFirst(b, answer, []);
    assert [answer] + [answer] == [answer, answer] && [answer] + [] == [answer];
  }

  lemma AnswersBreak(a: Agent)
    requires a.queries >= 2 && a.socket
    ensures !StaysOrderly(a)
  {
    TwoAnswers(a);
    var events := [Answer(true, true, true), Answer(true, true, true)];
    NotTwice(Run(a, events).value.calls, |a.calls|);
    assert NoStart(events);
  }

  /** What may follow a state may follow one that leads to it. */
  lemma OrderlyNext(a: Agent, event: Event)
    requires StaysOrderly(a) && Step(a, event).Some? && !event.Start?
    ensures StaysOrderly(Step(a, event).value)
  {
    var b := Step(a, event).value;
    forall events | NoStart(events) && Run(b, events).Some? ensures Alternates(Run(b, events).value.calls) {
      RunFirst(a, event, events);
      assert NoStart([event] + events);
    }
  }

  lemma OrderlyNow(a: Agent)
    requires StaysOrderly(a)
    ensures Alternates(a.calls)
  {
    assert NoStart([]) && Run(a, []) == Some(a);
  }

  /** A socket that cannot be made while a question is out: the timer asks another. */
  lemma RefusedSocketBreaks(a: Agent)
    requires Inv(a) && a.queries == 1
    ensures !StaysOrderly(Reconnect(a))
  {
    var b := Reconnect(a);
    if StaysOrderly(b) {
      OrderlyNext(b, Timer(true, true));
      AnswersBreak(Step(b, Timer(true, true)).value);
    }
  }

  /** Another question beside a connection, a question or a timer. */
  lemma SecondQuestionBreaks(a: Agent)
    requires Inv(a) && Busy(a)
    ensures !StaysOrderly(StartConnection(a, true, true))
  {
    var b, answer := StartConnection(a, true, true), Answer(true, true, true);
    if a.queries == 1 {
      AnswersBreak(b);
    } else if StaysOrderly(b) {
      OrderlyNext(b, answer);
      var c := Step(b, answer).value;
      assert c.calls == a.calls + [HostConnected];
      if a.connection == Connected {
        OrderlyNow(c);
        NotTwice(c.calls, |a.calls| - 1);
      } else {
        TimerBesideConnection(c);
      }
    }
  }

  lemma TimerBesideConnection(c: Agent)
    requires c.timers == 1 && c.queries == 0 && c.calls != [] && c.calls[|c.calls| - 1] == HostConnected
    ensures !StaysOrderly(c)
  {
    if StaysOrderly(c) {
      OrderlyNext(c, Timer(true, true));
      var d := Step(c, Timer(true, true)).value;
      OrderlyNext(d, Answer(true, true, true));
      var e := Step(d, Answer(true, true, true)).value;
      OrderlyNow(e);
      NotTwice(e.calls, |c.calls| - 1);
    }
  }

  lemma ToleratedIsOrderly(a: Agent, created: bool, submitted: bool)
    requires Inv(a) && a.connection != NotConnected && Tolerates(a, created, submitted)
    ensures StaysOrderly(StartConnection(a, created, submitted))
  {
    hide StaysOrderly;
    var b := StartConnection(a, created, submitted);
    if Inv(b) {
      OrderlyFromInv(b);
    } else {
      OrderlyAfterOne(b);
    }
  }

  /** In any state a started agent can be in: a second call from outside leaves the callbacks in order,
      whatever follows, if and only if the agent tolerates it. */
  lemma StartedTwice(events: seq<Event>, created: bool, submitted: bool)
    requires StartedOnce(events) && Run(Init(), events).Some?
    ensures var a := Run(Init(), events).value;
            StaysOrderly(StartConnection(a, created, submitted)) <==> Tolerates(a, created, submitted)
  {
    hide StaysOrderly, Inv, StartConnection;
    StartedKeeps(events);
    var a := Run(Init(), events).value;
    if Tolerates(a, created, submitted) {
      ToleratedIsOrderly(a, created, submitted);
    } else if created {
      SecondQuestionBreaks(a);
    } else {
      QuestionsAreFew(a);
      RefusedSocketBreaks(a);
    }
  }

  lemma QuestionsAreFew(a: Agent)
    requires Inv(a) && a.queries != 0
    ensures a.queries == 1 && forall submitted :: StartConnection(a, false, submitted) == Reconnect(a)
  {
  }
}
