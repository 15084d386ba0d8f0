/** What one pass over the timers comes to, told from its events alone: which timers are left, and how many ids
    have been given (src/netdaemon.cpp:403-434). */
module TimerPasses {
  import opened Wrappers
  import opened Seqs
  import opened TimerRuns

  /** How many timers these events set. */
  function Additions<C>(events: seq<Event<C>>): nat {
    if events == [] then 0
    else Additions(events[..|events| - 1]) + if events[|events| - 1].CallAt? then 1 else 0
  }

  /** Event i sets the timer e, with the next id, and no event after it removes it. */
  predicate SetAt<C(==)>(lastId: int, events: seq<Event<C>>, e: Entry<C>, i: nat)
    requires i < |events|
  {
    && events[i].CallAt?
    && e == Entry(lastId + Additions(events[..i]) + 1, Narrow(events[i].calltime), events[i].callback)
    && Remove(e.id) !in events[i + 1..]
  }

  /** The timer was there and is not removed, or it is set and not removed after that. */
  ghost predicate Survives<C>(timers: seq<Entry<C>>, lastId: int, events: seq<Event<C>>, e: Entry<C>) {
    || (e in timers && Remove(e.id) !in events)
    || exists i :: 0 <= i < |events| && SetAt(lastId, events, e, i)
  }

  /** What is left are exactly the timers that are not due and survive these events. */
  ghost predicate Leaves<C(!new)>(
      timers: seq<Entry<C>>, lastId: int, events: seq<Event<C>>, now: int, left: seq<Entry<C>>)
  {
    forall e: Entry<C> :: e in left <==> e.expires > now && Survives(timers, lastId, events, e)
  }

  /** So far, of those that are not due. */
  ghost predicate Leaving<C(!new)>(
      timers: seq<Entry<C>>, lastId: int, events: seq<Event<C>>, now: int, left: seq<Entry<C>>)
  {
    forall e: Entry<C> :: e.expires > now ==> (e in left <==> Survives(timers, lastId, events, e))
  }

  /** Events inside one pass. */
  ghost predicate Within<C>(events: seq<Event<C>>) { forall x <- events :: !x.Begin? && !x.End? }

  lemma {:induction false} RunSnoc<C>(s: State<C>, events: seq<Event<C>>, event: Event<C>)
    requires Run(s, events).Some?
    ensures Run(s, events + [event]) == Step(Run(s, events).value, event)
    decreases |events|
  {
    if events == [] {
      assert [event][1..] == [];
    } else {
      assert (events + [event])[1..] == events[1..] + [event];
      RunSnoc(Step(s, events[0]).value, events[1..], event);
    }
  }

  lemma {:induction false} RunAppend<C>(s: State<C>, first: seq<Event<C>>, second: seq<Event<C>>)
    ensures Run(s, first + second) ==
            match Run(s, first) case None => None case Some(t) => Run(t, second)
    decreases |first|
  {
    if first == [] {
      assert first + second == second;
    } else {
      assert (first + second)[1..] == first[1..] + second;
      if Step(s, first[0]).Some? {
        RunAppend(Step(s, first[0]).value, first[1..], second);
      }
    }
  }

  // ----- Inside a pass

  /** In the pass of this time, and nothing that is not due has fired. */
  ghost predicate Calm<C>(s: State<C>, now: int) {
    && s.phase.Passing? && s.phase.now == now && s.phase.cursor <= s.lastId
    && forall e <- s.timers :: e.expires > now ==> !Begun(s.phase, e.id)
  }

  lemma CalmVisit<C>(s: State<C>, now: int)
    requires Inv(s) && Calm(s, now) && Step(s, Visit).Some?
    ensures Calm(Step(s, Visit).value, now)
  {
    hide Lawful, Fresh, PhaseInv;
    var t := Step(s, Visit).value;
    var j := After(s.timers, s.phase.cursor, 0);
    assert s.timers[j] in s.timers;
    forall e | e in t.timers && e.expires > now ensures !Begun(t.phase, e.id) {
      var k :| 0 <= k < |s.timers| && s.timers[k] == e;
    }
  }

  lemma CalmReturn<C>(s: State<C>, now: int)
    requires Calm(s, now) && Step(s, Return).Some?
    ensures Calm(Step(s, Return).value, now)
  {
    hide Disarm;
    var t := Step(s, Return).value;
    DisarmFacts(s.timers, s.phase.cursor);
    forall e | e in t.timers && e.expires > now ensures !Begun(t.phase, e.id) {
      var y :| y in s.timers && Like(e, y, s.phase.cursor);
    }
  }

  lemma CalmStep<C>(s: State<C>, event: Event<C>, now: int)
    requires Inv(s) && Calm(s, now) && Step(s, event).Some? && !event.Begin? && !event.End?
    ensures Calm(Step(s, event).value, now)
    ensures Step(s, event).value.lastId == s.lastId + if event.CallAt? then 1 else 0
  {
    match event
    case Visit => CalmVisit(s, now);
    case Return => CalmReturn(s, now);
    case CallAt(_, _) => CalmCall(s, event, now);
    case Remove(_) =>
  }

  lemma CalmCall<C>(s: State<C>, event: Event<C>, now: int)
    requires Inv(s) && Calm(s, now) && event.CallAt? && Step(s, event).Some?
    ensures Calm(Step(s, event).value, now)
  {
    hide Lawful, Fresh, Sorted;
  }

  /** What one event does to a timer that is not due. */
  lemma LaterStep<C>(s: State<C>, event: Event<C>, now: int, e: Entry<C>)
    requires Inv(s) && Calm(s, now) && Step(s, event).Some? && !event.Begin? && !event.End? && e.expires > now
    ensures e in Step(s, event).value.timers <==>
              if event.CallAt? then e in s.timers || e == Entry(s.lastId + 1, Narrow(event.calltime), event.callback)
              else e in s.timers && event != Remove(e.id)
  {
    hide Lawful, Fresh, Allowed, Inv;
    if event.Return? {
      var t, id := Step(s, event).value, s.phase.cursor;
      DisarmFacts(s.timers, id);
      if e in t.timers {
        var y :| y in s.timers && Like(e, y, id);
      }
      if e in s.timers {
        var k :| 0 <= k < |s.timers| && s.timers[k] == e;
        assert t.timers[k] == e;
      }
    }
  }

  lemma SurvivesMore<C>(timers: seq<Entry<C>>, lastId: int, events: seq<Event<C>>, x: Event<C>, e: Entry<C>)
    ensures Survives(timers, lastId, events + [x], e) <==>
              if x.CallAt? then
                Survives(timers, lastId, events, e)
                || e == Entry(lastId + Additions(events) + 1, Narrow(x.calltime), x.callback)
              else Survives(timers, lastId, events, e) && x != Remove(e.id)
  {
    var n, more := |events|, events + [x];
    forall i | 0 <= i < n
      ensures SetAt(lastId, more, e, i) <==> SetAt(lastId, events, e, i) && x != Remove(e.id)
    {
      assert more[..i] == events[..i] && more[i + 1..] == events[i + 1..] + [x];
    }
    assert more[..n] == events && more[n + 1..] == [];
    assert SetAt(lastId, more, e, n) <==>
           x.CallAt? && e == Entry(lastId + Additions(events) + 1, Narrow(x.calltime), x.callback);
  }

  lemma {:induction false} SurvivorsSoFar<C(!new)>(s: State<C>, events: seq<Event<C>>, now: int)
    requires Inv(s) && Calm(s, now) && Within(events) && Run(s, events).Some?
    ensures var t := Run(s, events).value;
            && Inv(t) && Calm(t, now) && t.lastId == s.lastId + Additions(events)
            && Leaving(s.timers, s.lastId, events, now, t.timers)
    decreases |events|
  {
    hide Inv, Calm, SetAt;
    if events != [] {
      var n := |events| - 1;
      var before, x := events[..n], events[n];
      assert events == before + [x];
      RunAppend(s, before, [x]);
      SurvivorsSoFar(s, before, now);
      var u := Run(s, before).value;
      RunSnoc(s, before, x);
      StepKeeps(u, x);
      CalmStep(u, x, now);
      forall e: Entry<C> | e.expires > now
        ensures e in Step(u, x).value.timers <==> Survives(s.timers, s.lastId, events, e)
      {
        LaterStep(u, x, now, e);
        SurvivesMore(s.timers, s.lastId, before, x, e);
      }
    }
  }

  /** A pass leaves exactly the timers that are not due and survive its events, and gives one id for each
      timer that is set. */
  lemma PassLeaves<C(!new)>(s: State<C>, events: seq<Event<C>>, now: int)
    requires Inv(s) && s.phase.Idle? && Within(events) && Run(s, [Begin(now)] + events + [End]).Some?
    ensures var t := Run(s, [Begin(now)] + events + [End]).value;
            && t.lastId == s.lastId + Additions(events)
            && Leaves(s.timers, s.lastId, events, now, t.timers)
  {
    hide Leaving, Leaves, Inv, Calm, Run;
    var s1 := Step(s, Begin(now)).value;
    Assoc([Begin(now)], events, [End]);
    RunAppend(s, [Begin(now)], events + [End]);
    OneEvent(s, Begin(now));
    RunAppend(s1, events, [End]);
    PassBegins(s, now);
    SurvivorsSoFar(s1, events, now);
    var u := Run(s1, events).value;
    OneEvent(u, End);
    EndSurvivors(u, s.timers, s.lastId, events, now);
  }

  lemma PassBegins<C>(s: State<C>, now: int)
    requires Inv(s) && s.phase.Idle?
    ensures Inv(Step(s, Begin(now)).value) && Calm(Step(s, Begin(now)).value, now)
  {
    StepKeeps(s, Begin(now));
  }

  lemma EndSurvivors<C(!new)>(u: State<C>, timers: seq<Entry<C>>, lastId: int, events: seq<Event<C>>, now: int)
    requires Inv(u) && Calm(u, now) && Step(u, End).Some?
    requires Leaving(timers, lastId, events, now, u.timers)
    ensures Leaves(timers, lastId, events, now, Step(u, End).value.timers)
  {
    hide Inv, Survives;
    EndLeaves(u);
    var left := Step(u, End).value.timers;
    forall e: Entry<C> ensures e in left <==> e.expires > now && Survives(timers, lastId, events, e) {
      if e.expires > now && e in u.timers {
        assert !Begun(u.phase, e.id);
        assert e in left;
      }
    }
  }

  lemma OneEvent<C>(s: State<C>, event: Event<C>)
    ensures Run(s, [event]) == Step(s, event)
  {
    assert [event][1..] == [];
  }
}
