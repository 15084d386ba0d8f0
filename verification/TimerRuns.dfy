/** One-shot timers (src/netdaemon.cpp:403-434, src/headers/maycloud/netdaemon.h:94-97, 360-362) as a state
    machine: what may happen between two steps of a pass is up to the callbacks. */
module TimerRuns {
  import opened Wrappers

  /** A time_t stored in an int. */
  function Narrow(calltime: int): int {
    var low := calltime % 0x1_0000_0000;
    if low < 0x8000_0000 then low else low - 0x1_0000_0000
  }

  /** An element of the map, in the order of ids; C is whatever the callback is. */
  datatype Entry<+C> = Entry(id: int, expires: int, callback: Option<C>)

  datatype Phase = Idle | Passing(now: int, cursor: int, firing: bool, fired: seq<int>)

  datatype Deed = Added(id: int, calltime: int) | Removed(id: int) | Fired(id: int, now: int) | Passed(now: int)

  datatype State<+C> = State(lastId: int, timers: seq<Entry<C>>, phase: Phase, log: seq<Deed>)

  function Init<C>(): State<C> { State(0, [], Idle, []) }

  // ----- The map

  predicate Sorted<C>(timers: seq<Entry<C>>) {
    forall i, j :: 0 <= i < j < |timers| ==> timers[i].id < timers[j].id
  }

  /** erase(id) */
  function Erase<C>(timers: seq<Entry<C>>, id: int): (r: seq<Entry<C>>)
    ensures (forall e <- r :: e in timers && e.id != id) && (forall e <- timers :: e.id != id ==> e in r)
  {
    if timers == [] then []
    else
      var n := |timers| - 1;
      if timers[n].id == id then Erase(timers[..n], id)
      else
        assert timers == timers[..n] + [timers[n]];
        Erase(timers[..n], id) + [timers[n]]
  }

  /** The position of the first element after an id. */
  function After<C>(timers: seq<Entry<C>>, id: int, i: nat): (j: nat)
    requires i <= |timers|
    ensures i <= j <= |timers|
    ensures (forall k :: i <= k < j ==> timers[k].id <= id) && (j < |timers| ==> timers[j].id > id)
    decreases |timers| - i
  {
    if i == |timers| || timers[i].id > id then i else After(timers, id, i + 1)
  }

  /** fire: callback = NULL */
  function Disarm<C>(timers: seq<Entry<C>>, id: int): (r: seq<Entry<C>>)
    ensures |r| == |timers|
    ensures forall i :: 0 <= i < |r| ==> r[i] == if timers[i].id == id then timers[i].(callback := None) else timers[i]
  {
    if timers == [] then []
    else
      var n := |timers| - 1;
      Disarm(timers[..n], id) + [if timers[n].id == id then timers[n].(callback := None) else timers[n]]
  }

  function EraseAll<C>(timers: seq<Entry<C>>, ids: seq<int>): (r: seq<Entry<C>>)
    ensures (forall e <- r :: e in timers && e.id !in ids) && (forall e <- timers :: e.id !in ids ==> e in r)
  {
    if ids == [] then timers else Erase(EraseAll(timers, ids[..|ids| - 1]), ids[|ids| - 1])
  }

  // ----- Steps

  datatype Event<+C> =
    | CallAt(calltime: int, callback: Option<C>)
    | Remove(id: int)
    | Begin(now: int)
    | Visit               // the iterator reaches the next element; if it is due, its callback is called
    | Return              // the callback is through
    | End                 // the iterator reaches the end; the fired timers are erased

  /** None: the event cannot happen now, or it would invalidate the iterator. */
  function Step<C>(s: State<C>, event: Event<C>): Option<State<C>> {
    match event
    case CallAt(calltime, callback) =>
      if Working(s) then None
      else
        var id := s.lastId + 1;
        Some(s.(lastId := id, timers := s.timers + [Entry(id, Narrow(calltime), callback)],
                log := s.log + [Added(id, calltime)]))
    case Remove(id) =>
      if Working(s) || (s.phase.Passing? && s.phase.cursor == id) then None
      else Some(s.(timers := Erase(s.timers, id), log := s.log + [Removed(id)]))
    case Begin(now) =>
      if s.phase.Idle? then Some(s.(phase := Passing(now, 0, false, []))) else None
    case Visit =>
      if !Working(s) || After(s.timers, s.phase.cursor, 0) == |s.timers| then None
      else
        var e := s.timers[After(s.timers, s.phase.cursor, 0)];
        if e.expires <= s.phase.now then
          Some(s.(phase := s.phase.(cursor := e.id, firing := true),
                  log := if e.callback.Some? then s.log + [Fired(e.id, s.phase.now)] else s.log))
        else Some(s.(phase := s.phase.(cursor := e.id)))
    case Return =>
      if !s.phase.Passing? || !s.phase.firing then None
      else
        var id := s.phase.cursor;
        Some(s.(timers := Disarm(s.timers, id), phase := s.phase.(firing := false, fired := s.phase.fired + [id])))
    case End =>
      if !Working(s) || After(s.timers, s.phase.cursor, 0) < |s.timers| then None
      else Some(s.(timers := EraseAll(s.timers, s.phase.fired), phase := Idle, log := s.log + [Passed(s.phase.now)]))
  }

  /** In a pass, but not inside a callback. */
  predicate Working<C>(s: State<C>) { s.phase.Passing? && !s.phase.firing }

  function Run<C>(s: State<C>, events: seq<Event<C>>): Option<State<C>>
    decreases |events|
  {
    if events == [] then Some(s)
    else match Step(s, events[0]) case None => None case Some(t) => Run(t, events[1..])
  }

  // ----- What holds in every reachable state

  /** The log so far is one that may be written: ids are new, a timer fires once, not before it is due, and
      not after it has been removed. */
  ghost predicate Lawful(log: seq<Deed>) {
    forall j :: 0 <= j < |log| ==> Allowed(log[..j], log[j])
  }

  ghost predicate Allowed(before: seq<Deed>, deed: Deed) {
    match deed
    case Added(id, _) => forall d <- before :: d.Added? ==> d.id < id
    case Removed(_) => true
    case Fired(id, now) => (exists expires :: expires <= now && Alive(before, id, expires)) && NotFired(before, id)
    case Passed(_) => true
  }

  ghost predicate NotFired(log: seq<Deed>, id: int) { forall d <- log :: d.Fired? ==> d.id != id }

  /** The timer was added with this expiry, and has neither been fired nor removed since. */
  ghost predicate Alive(log: seq<Deed>, id: int, expires: int) {
    exists i :: 0 <= i < |log| && AliveSince(log, id, expires, i)
  }

  ghost predicate AliveSince(log: seq<Deed>, id: int, expires: int, i: nat)
    requires i < |log|
  {
    && log[i].Added? && log[i].id == id && Narrow(log[i].calltime) == expires
    && forall k :: i < k < |log| ==> !Ends(log[k], id)
  }

  predicate Ends(d: Deed, id: int) { (d.Fired? || d.Removed?) && d.id == id }

  /** A timer that can still fire. */
  ghost predicate Fresh<C>(log: seq<Deed>, e: Entry<C>) { Alive(log, e.id, e.expires) && NotFired(log, e.id) }

  ghost predicate Inv<C>(s: State<C>) {
    && s.lastId >= 0 && Sorted(s.timers) && Lawful(s.log)
    && (forall e <- s.timers :: 1 <= e.id <= s.lastId)
    && (forall d <- s.log :: d.Added? || d.Fired? ==> d.id <= s.lastId)
    && (forall e <- s.timers :: !Begun(s.phase, e.id) ==> Fresh(s.log, e))
    && PhaseInv(s)
  }

  /** Fired in this pass, or being fired. */
  predicate Begun(p: Phase, id: int) {
    p.Passing? && (id in p.fired || (p.firing && id == p.cursor))
  }

  ghost predicate PhaseInv<C>(s: State<C>) {
    s.phase.Passing? ==>
      && s.phase.cursor >= 0
      && (s.phase.firing ==> exists e <- s.timers :: e.id == s.phase.cursor)
      && (forall id <- s.phase.fired :: id <= s.phase.cursor)
      && (forall e <- s.timers :: e.id <= s.phase.cursor ==> Begun(s.phase, e.id) || e.expires > s.phase.now)
      && (s.phase.firing ==> s.phase.cursor !in s.phase.fired)
  }

  lemma {:induction false} EraseSorted<C>(timers: seq<Entry<C>>, id: int)
    requires Sorted(timers)
    ensures Sorted(Erase(timers, id))
  {
    if timers != [] {
      var n := |timers| - 1;
      EraseSorted(timers[..n], id);
      var r := Erase(timers[..n], id);
      forall i | 0 <= i < |r| ensures r[i].id < timers[n].id {
        assert r[i] in r;
      }
    }
  }

  lemma {:induction false} EraseAllSorted<C>(timers: seq<Entry<C>>, ids: seq<int>)
    requires Sorted(timers)
    ensures Sorted(EraseAll(timers, ids))
  {
    if ids != [] {
      EraseAllSorted(timers, ids[..|ids| - 1]);
      EraseSorted(EraseAll(timers, ids[..|ids| - 1]), ids[|ids| - 1]);
    }
  }

  lemma LawfulMore(log: seq<Deed>, deed: Deed)
    requires Lawful(log) && Allowed(log, deed)
    ensures Lawful(log + [deed]) && forall d <- log + [deed] :: d in log || d == deed
  {
    var more := log + [deed];
    forall j | 0 <= j < |more| ensures Allowed(more[..j], more[j]) {
      assert more[..j] == log[..j];
      if j == |log| {
        assert log[..j] == log;
      }
    }
  }

  lemma FreshMore<C>(log: seq<Deed>, e: Entry<C>, deed: Deed)
    requires Fresh(log, e) && !Ends(deed, e.id)
    ensures Fresh(log + [deed], e)
  {
    var i :| 0 <= i < |log| && AliveSince(log, e.id, e.expires, i);
    assert AliveSince(log + [deed], e.id, e.expires, i);
  }

  lemma NewIsFresh<C>(log: seq<Deed>, lastId: int, calltime: int, e: Entry<C>)
    requires (forall d <- log :: d.Fired? ==> d.id <= lastId) && e.id == lastId + 1 && e.expires == Narrow(calltime)
    ensures Fresh(log + [Added(e.id, calltime)], e)
  {
    assert AliveSince(log + [Added(e.id, calltime)], e.id, e.expires, |log|);
  }

  lemma AddIsAllowed<C>(s: State<C>, calltime: int)
    requires Inv(s)
    ensures Allowed(s.log, Added(s.lastId + 1, calltime))
  {
  }

  lemma AddKeeps<C>(s: State<C>, calltime: int, callback: Option<C>)
    requires Inv(s) && Step(s, CallAt(calltime, callback)).Some?
    ensures Inv(Step(s, CallAt(calltime, callback)).value)
  {
    hide Fresh, Lawful, Allowed;
    var t := Step(s, CallAt(calltime, callback)).value;
    var deed := Added(s.lastId + 1, calltime);
    AddIsAllowed(s, calltime);
    LawfulMore(s.log, deed);
    forall x | x in t.timers && !Begun(t.phase, x.id) ensures Fresh(t.log, x) {
      if x in s.timers {
        FreshMore(s.log, x, deed);
      } else {
        NewIsFresh(s.log, s.lastId, calltime, x);
      }
    }
    if t.phase.Passing? && t.phase.firing {
      var e :| e in s.timers && e.id == s.phase.cursor;
      assert e in t.timers;
    }
  }

  lemma VisitMoves<C>(s: State<C>)
    requires Inv(s) && Step(s, Visit).Some?
    ensures PhaseInv(Step(s, Visit).value)
    ensures var t := Step(s, Visit).value; forall e <- t.timers :: !Begun(t.phase, e.id) ==> !Begun(s.phase, e.id)
  {
    hide Fresh, Lawful;
    var t := Step(s, Visit).value;
    var j := After(s.timers, s.phase.cursor, 0);
    assert s.timers[j] in s.timers;
    forall x | x in t.timers && x.id <= t.phase.cursor ensures Begun(t.phase, x.id) || x.expires > t.phase.now {
      var k :| 0 <= k < |s.timers| && s.timers[k] == x;
      assert k <= j;
      assert k < j ==> x.id <= s.phase.cursor;
    }
  }

  lemma VisitLogs<C>(s: State<C>)
    requires Inv(s) && Step(s, Visit).Some?
    ensures var t := Step(s, Visit).value;
            Lawful(t.log) && forall e <- t.timers :: !Begun(s.phase, e.id) && !Begun(t.phase, e.id) ==> Fresh(t.log, e)
    ensures forall d <- Step(s, Visit).value.log :: d.Added? || d.Fired? ==> d.id <= s.lastId
  {
    var t := Step(s, Visit).value;
    var e := s.timers[After(s.timers, s.phase.cursor, 0)];
    var deed := Fired(e.id, s.phase.now);
    assert e in s.timers && !Begun(s.phase, e.id);
    assert e.expires <= s.phase.now ==> Allowed(s.log, deed);
    hide Fresh, Lawful, Allowed, Sorted, PhaseInv;
    if t.log != s.log {
      LawfulMore(s.log, deed);
      forall x | x in t.timers && !Begun(s.phase, x.id) && !Begun(t.phase, x.id) ensures Fresh(t.log, x) {
        FreshMore(s.log, x, deed);
      }
    }
  }

  lemma VisitKeeps<C>(s: State<C>)
    requires Inv(s) && Step(s, Visit).Some?
    ensures Inv(Step(s, Visit).value)
  {
    VisitMoves(s);
    VisitLogs(s);
    hide Fresh, Lawful, Sorted, PhaseInv, Begun, After;
  }

  lemma RemoveKeeps<C>(s: State<C>, id: int)
    requires Inv(s) && Step(s, Remove(id)).Some?
    ensures Inv(Step(s, Remove(id)).value)
  {
    hide Fresh, Lawful, Sorted;
    var t := Step(s, Remove(id)).value;
    LawfulMore(s.log, Removed(id));
    EraseSorted(s.timers, id);
    forall x | x in t.timers && !Begun(t.phase, x.id) ensures Fresh(t.log, x) {
      FreshMore(s.log, x, Removed(id));
    }
    if t.phase.Passing? && t.phase.firing {
      var e :| e in s.timers && e.id == s.phase.cursor;
      assert e in t.timers;
    }
  }

  /** The same timer, with or without its callback. */
  predicate Like<C(==)>(x: Entry<C>, y: Entry<C>, id: int) {
    y.id == x.id && y.expires == x.expires && (x.id != id ==> x == y)
  }

  /** fire only clears a callback. */
  lemma DisarmFacts<C>(timers: seq<Entry<C>>, id: int)
    ensures forall x <- Disarm(timers, id) :: exists y <- timers :: Like(x, y, id)
    ensures Sorted(timers) ==> Sorted(Disarm(timers, id))
  {
    forall x | x in Disarm(timers, id) ensures exists y <- timers :: Like(x, y, id) {
      var k :| 0 <= k < |timers| && Disarm(timers, id)[k] == x;
      assert timers[k] in timers;
    }
  }

  lemma ReturnKeeps<C>(s: State<C>)
    requires Inv(s) && Step(s, Return).Some?
    ensures Inv(Step(s, Return).value)
  {
    hide Fresh, Lawful, Disarm, Sorted;
    var t := Step(s, Return).value;
    DisarmFacts(s.timers, s.phase.cursor);
    assert s.phase.cursor in t.phase.fired;
    forall x | x in t.timers
      ensures 1 <= x.id <= t.lastId && (!Begun(t.phase, x.id) ==> Fresh(t.log, x))
      ensures x.id <= t.phase.cursor ==> Begun(t.phase, x.id) || x.expires > t.phase.now
    {
      var y :| y in s.timers && Like(x, y, s.phase.cursor);
    }
  }

  /** When the iterator is at the end, what is not erased is not due and has not fired. */
  lemma EndLeaves<C>(s: State<C>)
    requires Inv(s) && Step(s, End).Some?
    ensures forall e <- Step(s, End).value.timers :: e in s.timers && e.expires > s.phase.now && !Begun(s.phase, e.id)
  {
    hide Fresh, Lawful;
    forall x | x in Step(s, End).value.timers ensures x.expires > s.phase.now {
      var k :| 0 <= k < |s.timers| && s.timers[k] == x;
      assert x.id <= s.phase.cursor;
    }
  }

  lemma EndKeeps<C>(s: State<C>)
    requires Inv(s) && Step(s, End).Some?
    ensures Inv(Step(s, End).value)
  {
    EndLeaves(s);
    assert Allowed(s.log, Passed(s.phase.now));
    hide Fresh, Lawful, Allowed, EraseAll, PhaseInv, Begun, After, Sorted;
    LawfulMore(s.log, Passed(s.phase.now));
    EraseAllSorted(s.timers, s.phase.fired);
    NothingBegun<C>(Step(s, End).value);
    forall x | x in Step(s, End).value.timers ensures Fresh(Step(s, End).value.log, x) {
      FreshMore(s.log, x, Passed(s.phase.now));
    }
  }

  lemma NothingBegun<C>(s: State<C>)
    requires s.phase.Idle?
    ensures PhaseInv(s)
  {
  }

  lemma StepKeeps<C>(s: State<C>, event: Event<C>)
    requires Inv(s) && Step(s, event).Some?
    ensures Inv(Step(s, event).value)
  {
    match event
    case CallAt(calltime, callback) => AddKeeps(s, calltime, callback);
    case Remove(id) => RemoveKeeps(s, id);
    case Begin(now) =>
    case Visit => VisitKeeps(s);
    case Return => ReturnKeeps(s);
    case End => EndKeeps(s);
  }

  lemma {:induction false} RunKeeps<C>(s: State<C>, events: seq<Event<C>>)
    requires Inv(s) && Run(s, events).Some?
    ensures Inv(Run(s, events).value)
    decreases |events|
  {
    if events != [] {
      StepKeeps(s, events[0]);
      RunKeeps(Step(s, events[0]).value, events[1..]);
    }
  }

  // ----- What a user may rely on, in every run

  /** Ids are never used twice. */
  lemma IdsAreNew<C>(events: seq<Event<C>>, i: nat, j: nat)
    requires Run(Init<C>(), events).Some?
    requires var log := Run(Init<C>(), events).value.log; i < j < |log| && log[i].Added? && log[j].Added?
    ensures var log := Run(Init<C>(), events).value.log; log[i].id < log[j].id
  {
    RunKeeps(Init<C>(), events);
    var log := Run(Init<C>(), events).value.log;
    assert Allowed(log[..j], log[j]);
    assert log[..j][i] in log[..j];
  }

  /** A timer fires at most once. */
  lemma FiresOnce<C>(events: seq<Event<C>>, i: nat, j: nat)
    requires Run(Init<C>(), events).Some?
    requires var log := Run(Init<C>(), events).value.log; i < j < |log| && log[i].Fired? && log[j].Fired?
    ensures var log := Run(Init<C>(), events).value.log; log[i].id != log[j].id
  {
    RunKeeps(Init<C>(), events);
    var log := Run(Init<C>(), events).value.log;
    assert Allowed(log[..j], log[j]);
    assert log[..j][i] in log[..j];
  }

  /** A timer that fires was set for then or before (as an int), and not removed in between. */
  lemma FiresOnlyWhenDue<C>(events: seq<Event<C>>, j: nat) returns (i: nat)
    requires Run(Init<C>(), events).Some?
    requires var log := Run(Init<C>(), events).value.log; j < |log| && log[j].Fired?
    ensures var log := Run(Init<C>(), events).value.log;
            && i < j && log[i].Added? && log[i].id == log[j].id && Narrow(log[i].calltime) <= log[j].now
            && forall k :: i < k < j ==> log[k] != Removed(log[j].id)
  {
    RunKeeps(Init<C>(), events);
    var log := Run(Init<C>(), events).value.log;
    assert Allowed(log[..j], log[j]);
    var expires :| expires <= log[j].now && Alive(log[..j], log[j].id, expires);
    i :| 0 <= i < j && AliveSince(log[..j], log[j].id, expires, i);
    forall k | i < k < j ensures log[k] != Removed(log[j].id) {
      assert log[..j][k] == log[k];
    }
  }

  /** A pass that comes to its end leaves no timer that was due when it began, not even one added by a
      callback of the same pass. */
  lemma PassIsComplete<C>(events: seq<Event<C>>, s: State<C>)
    requires Run(Init<C>(), events) == Some(s) && Step(s, End).Some?
    ensures forall e <- Step(s, End).value.timers :: e.expires > s.phase.now
  {
    RunKeeps(Init<C>(), events);
    EndLeaves(s);
  }

  /** No timer that was set for this time has fired before it. */
  ghost predicate NoneEarly(log: seq<Deed>, calltime: int) {
    forall i, j :: 0 <= i < |log| && 0 <= j < |log| && log[i].Added? && log[j].Fired? ==>
      log[i].id == log[j].id && log[i].calltime == calltime ==> calltime <= log[j].now
  }

  lemma InRangeIsOnTime<C>(events: seq<Event<C>>, calltime: int)
    requires Run(Init<C>(), events).Some? && 0 <= calltime < 0x8000_0000
    ensures NoneEarly(Run(Init<C>(), events).value.log, calltime)
  {
    var log := Run(Init<C>(), events).value.log;
    forall i, j | 0 <= i < |log| && 0 <= j < |log| && log[i].Added? && log[j].Fired? && log[i].id == log[j].id
      && log[i].calltime == calltime
      ensures calltime <= log[j].now
    {
      var k := FiresOnlyWhenDue(events, j);
      if i < k {
        IdsAreNew(events, i, k);
      } else if k < i {
        IdsAreNew(events, k, i);
      }
    }
  }

  /** A timer for a later time fires early in some run, at a time that is not negative. */
  lemma FiresEarly<C>(calltime: int, callback: C) returns (events: seq<Event<C>>, now: int)
    requires 0x8000_0000 <= calltime
    ensures 0 <= now < calltime && Run(Init<C>(), events).Some?
    ensures Run(Init<C>(), events).value.log == [Added(1, calltime), Fired(1, now)]
  {
    var due := Narrow(calltime);
    now := if due < 0 then 0 else due;
    events := [CallAt(calltime, Some(callback)), Begin(now), Visit];
    var s1 := Step(Init<C>(), events[0]).value;
    var s2 := Step(s1, Begin(now)).value;
    assert events[1..][1..] == [Visit] && events[1..][1..][1..] == [];
    assert Run(s2, [Visit]) == Step(s2, Visit);
  }

  /** In no run does a timer for this time fire early, if and only if the time fits an int. */
  lemma NeverEarly<C>(calltime: int, callback: C)
    requires 0 <= calltime
    ensures (forall events: seq<Event<C>> ::
               Run(Init<C>(), events).Some? ==> NoneEarly(Run(Init<C>(), events).value.log, calltime))
            <==> calltime < 0x8000_0000
  {
    if calltime < 0x8000_0000 {
      forall events: seq<Event<C>> | Run(Init<C>(), events).Some?
        ensures NoneEarly(Run(Init<C>(), events).value.log, calltime)
      {
        InRangeIsOnTime(events, calltime);
      }
    } else {
      var events, now := FiresEarly(calltime, callback);
      var log := Run(Init<C>(), events).value.log;
      assert log[0].Added? && log[1].Fired?;
    }
  }
}
