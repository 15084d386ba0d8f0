/** The timers of NetDaemon as fields changed by loops; every run of the object is a run of TimerRuns. */
module Timers {
  import opened Wrappers
  import opened Seqs
  import opened TimerRuns
  import opened TimerPasses

  /** What a callback does to the timers when it is called. */
  datatype Script = Script(actions: seq<Action>)
  datatype Action = Set(calltime: int, callback: Option<Script>) | Cancel(id: int)

  // ----- How long a pass can take

  function Size(callback: Option<Script>): nat
    decreases callback
  {
    match callback
    case None => 1
    case Some(Script(actions)) => 1 + ActionsSize(actions)
  }

  function ActionsSize(actions: seq<Action>): nat
    decreases actions
  {
    if actions == [] then 0
    else
      var n := |actions| - 1;
      ActionsSize(actions[..n]) + ActionSize(actions[n])
  }

  function ActionSize(action: Action): nat
    decreases action
  {
    match action
    case Set(_, callback) => Size(callback)
    case Cancel(_) => 0
  }

  /** What the iterator may still meet. */
  function Load(timers: seq<Entry<Script>>, cursor: int): nat {
    if timers == [] then 0
    else
      var n := |timers| - 1;
      Load(timers[..n], cursor) + if timers[n].id > cursor then Size(timers[n].callback) else 0
  }

  lemma {:induction false} LoadErase(timers: seq<Entry<Script>>, id: int, cursor: int)
    ensures Load(Erase(timers, id), cursor) <= Load(timers, cursor)
  {
    if timers != [] {
      var n := |timers| - 1;
      LoadErase(timers[..n], id, cursor);
      Snoc(Erase(timers[..n], id), timers[n]);
    }
  }

  lemma LoadAdd(timers: seq<Entry<Script>>, e: Entry<Script>, cursor: int)
    ensures Load(timers + [e], cursor) <= Load(timers, cursor) + Size(e.callback)
  {
    Snoc(timers, e);
  }

  lemma {:induction false} LoadDisarm(timers: seq<Entry<Script>>, id: int)
    ensures Load(Disarm(timers, id), id) == Load(timers, id)
  {
    if timers != [] {
      var n := |timers| - 1;
      LoadDisarm(timers[..n], id);
      Snoc(Disarm(timers[..n], id), Disarm(timers, id)[n]);
    }
  }

  /** Moving on to an element leaves it behind. */
  lemma {:induction false} LoadVisit(timers: seq<Entry<Script>>, j: nat, cursor: int)
    requires j < |timers| && timers[j].id > cursor
    ensures Load(timers, timers[j].id) + Size(timers[j].callback) <= Load(timers, cursor)
  {
    var n := |timers| - 1;
    if j == n {
      LoadFalls(timers[..n], cursor, timers[j].id);
    } else {
      LoadVisit(timers[..n], j, cursor);
    }
  }

  lemma {:induction false} LoadFalls(timers: seq<Entry<Script>>, cursor: int, later: int)
    requires cursor <= later
    ensures Load(timers, later) <= Load(timers, cursor)
  {
    if timers != [] {
      LoadFalls(timers[..|timers| - 1], cursor, later);
    }
  }

  // ----- A pass, as a function of the timers

  datatype Table = Table(lastId: int, timers: seq<Entry<Script>>)

  function Act(t: Table, action: Action): Table {
    match action
    case Set(calltime, callback) => Table(t.lastId + 1, t.timers + [Entry(t.lastId + 1, Narrow(calltime), callback)])
    case Cancel(id) => t.(timers := Erase(t.timers, id))
  }

  function Acted(t: Table, actions: seq<Action>): Table {
    if actions == [] then t else Act(Acted(t, actions[..|actions| - 1]), actions[|actions| - 1])
  }

  function Actions(e: Entry<Script>): seq<Action> {
    if e.callback.Some? then e.callback.value.actions else []
  }

  /** The callback removes the timer it runs for, on which the iterator stands. */
  predicate CancelsItself(e: Entry<Script>) { Cancel(e.id) in Actions(e) }

  /** The callback is called and cleared. */
  function Fire(t: Table, e: Entry<Script>): Table {
    var u := Acted(t, Actions(e));
    u.(timers := Disarm(u.timers, e.id))
  }

  lemma {:induction false} ActedLoad(t: Table, actions: seq<Action>, cursor: int)
    ensures Load(Acted(t, actions).timers, cursor) <= Load(t.timers, cursor) + ActionsSize(actions)
  {
    if actions != [] {
      var n := |actions| - 1;
      ActedLoad(t, actions[..n], cursor);
      var u := Acted(t, actions[..n]);
      match actions[n]
      case Set(calltime, callback) => LoadAdd(u.timers, Entry(u.lastId + 1, Narrow(calltime), callback), cursor);
      case Cancel(id) => LoadErase(u.timers, id, cursor);
    }
  }

  /** Whatever a callback adds, less is left to be visited. */
  lemma FireLoad(t: Table, j: nat, cursor: int)
    requires j < |t.timers| && t.timers[j].id > cursor
    ensures var e := t.timers[j];
            Load(t.timers, e.id) < Load(t.timers, cursor) && Load(Fire(t, e).timers, e.id) < Load(t.timers, cursor)
  {
    var e := t.timers[j];
    LoadVisit(t.timers, j, cursor);
    ActedLoad(t, Actions(e), e.id);
    LoadDisarm(Acted(t, Actions(e)).timers, e.id);
    SizeOfNone();
  }

  /** The timers after a pass from the iterator's position, or None if a callback cancels the timer it runs
      for; fired are the timers to erase at the end. */
  function Pass(t: Table, cursor: int, now: int, fired: seq<int>): Option<Table>
    decreases Load(t.timers, cursor)
  {
    var j := After(t.timers, cursor, 0);
    if j == |t.timers| then Some(t.(timers := EraseAll(t.timers, fired)))
    else
      var e := t.timers[j];
      FireLoad(t, j, cursor);
      if e.expires > now then Pass(t, e.id, now, fired)
      else if CancelsItself(e) then None
      else Pass(Fire(t, e), e.id, now, fired + [e.id])
  }

  /** The timers whose time has come in this pass, in order, up to the first that cancels itself. */
  function Reached(t: Table, cursor: int, now: int): seq<Entry<Script>>
    decreases Load(t.timers, cursor)
  {
    var j := After(t.timers, cursor, 0);
    if j == |t.timers| then []
    else
      var e := t.timers[j];
      FireLoad(t, j, cursor);
      if e.expires > now then Reached(t, e.id, now)
      else if CancelsItself(e) then [e]
      else [e] + Reached(Fire(t, e), e.id, now)
  }

  /** A pass breaks off if and only if it reaches a due timer whose callback cancels itself. */
  lemma {:induction false} BreaksExactly(t: Table, cursor: int, now: int, fired: seq<int>)
    ensures Pass(t, cursor, now, fired).None? <==> exists e <- Reached(t, cursor, now) :: CancelsItself(e)
    ensures forall e <- Reached(t, cursor, now) :: e.expires <= now
    decreases Load(t.timers, cursor)
  {
    var j := After(t.timers, cursor, 0);
    if j < |t.timers| {
      var e := t.timers[j];
      FireLoad(t, j, cursor);
      if e.expires > now {
        BreaksExactly(t, e.id, now, fired);
      } else if !CancelsItself(e) {
        BreaksExactly(Fire(t, e), e.id, now, fired + [e.id]);
      }
    }
  }

  // ----- Which timers a pass reaches

  /** One of these actions set this timer. */
  ghost predicate SetBy(e: Entry<Script>, actions: seq<Action>) {
    exists a <- actions :: a.Set? && a.callback == e.callback && Narrow(a.calltime) == e.expires
  }

  lemma {:induction false} ActedTimers(t: Table, actions: seq<Action>)
    ensures forall e <- Acted(t, actions).timers :: e in t.timers || SetBy(e, actions)
    ensures forall e <- t.timers :: Cancel(e.id) !in actions ==> e in Acted(t, actions).timers
  {
    if actions != [] {
      var n := |actions| - 1;
      ActedTimers(t, actions[..n]);
      assert forall e :: SetBy(e, actions[..n]) ==> SetBy(e, actions);
      var last := actions[n];
      assert last in actions;
      if last.Set? {
        forall e: Entry<Script> | e.callback == last.callback && e.expires == Narrow(last.calltime)
          ensures SetBy(e, actions)
        {
          assert last in actions;
        }
      }
    }
  }

  lemma FireTimers(t: Table, e: Entry<Script>)
    ensures forall x <- Fire(t, e).timers :: x.id == e.id || x in t.timers || SetBy(x, Actions(e))
    ensures forall x <- t.timers :: x.id != e.id && Cancel(x.id) !in Actions(e) ==> x in Fire(t, e).timers
  {
    var u := Acted(t, Actions(e));
    ActedTimers(t, Actions(e));
    var after := Disarm(u.timers, e.id);
    forall x | x in after ensures x.id == e.id || x in u.timers {
      var k :| 0 <= k < |after| && after[k] == x;
    }
    forall x | x in u.timers && x.id != e.id ensures x in after {
      var k :| 0 <= k < |u.timers| && u.timers[k] == x;
      assert after[k] == x;
    }
  }

  /** Every timer a pass reaches was there when it began, or was set by a callback before. */
  lemma {:induction false} ReachedFrom(t: Table, cursor: int, now: int, k: nat)
    requires k < |Reached(t, cursor, now)|
    ensures var r := Reached(t, cursor, now);
            r[k].id > cursor && (r[k] in t.timers || exists i :: 0 <= i < k && SetBy(r[k], Actions(r[i])))
    decreases Load(t.timers, cursor)
  {
    hide SetBy, Load, Fire, Actions, CancelsItself;
    var r := Reached(t, cursor, now);
    var j := After(t.timers, cursor, 0);
    var e := t.timers[j];
    FireLoad(t, j, cursor);
    if e.expires > now {
      ReachedFrom(t, e.id, now, k);
    } else if k > 0 {
      var u := Fire(t, e);
      FireTimers(t, e);
      ReachedFrom(u, e.id, now, k - 1);
      if r[k] in u.timers {
        assert SetBy(r[k], Actions(r[0])) || r[k] in t.timers;
      } else {
        var i :| 0 <= i < k - 1 && SetBy(r[k], Actions(Reached(u, e.id, now)[i]));
        assert r[i + 1] == Reached(u, e.id, now)[i];
      }
    }
  }

  predicate Keyed(t: Table) { Sorted(t.timers) && forall e <- t.timers :: e.id <= t.lastId }

  lemma {:induction false} ActedKeyed(t: Table, actions: seq<Action>)
    requires Keyed(t)
    ensures Keyed(Acted(t, actions))
  {
    if actions != [] {
      var n := |actions| - 1;
      ActedKeyed(t, actions[..n]);
      match actions[n]
      case Set(_, _) =>
      case Cancel(id) => EraseSorted(Acted(t, actions[..n]).timers, id);
    }
  }

  lemma FireKeyed(t: Table, e: Entry<Script>)
    requires Keyed(t)
    ensures Keyed(Fire(t, e))
  {
    hide Disarm;
    ActedKeyed(t, Actions(e));
    DisarmFacts(Acted(t, Actions(e)).timers, e.id);
  }

  /** Every timer that is due when a pass begins is reached, unless a callback before cancels it or itself. */
  lemma {:induction false} DueIsReached(t: Table, cursor: int, now: int, x: Entry<Script>)
    requires Keyed(t) && x in t.timers && x.id > cursor && x.expires <= now
    ensures x in Reached(t, cursor, now) || exists r <- Reached(t, cursor, now) ::
              CancelsItself(r) || Cancel(x.id) in Actions(r)
    decreases Load(t.timers, cursor)
  {
    hide Load, Fire;
    var j := After(t.timers, cursor, 0);
    var k :| 0 <= k < |t.timers| && t.timers[k] == x;
    assert j <= k;
    var e := t.timers[j];
    FireLoad(t, j, cursor);
    if e.expires > now {
      DueIsReached(t, e.id, now, x);
    } else if !CancelsItself(e) && x != e && Cancel(x.id) !in Actions(e) {
      FireTimers(t, e);
      FireKeyed(t, e);
      DueIsReached(Fire(t, e), e.id, now, x);
    }
  }

  // ----- Scripts without Cancel

  /** Neither the callback nor any callback it sets cancels anything. */
  predicate OnlySets(callback: Option<Script>)
    decreases callback
  {
    match callback
    case None => true
    case Some(Script(actions)) => AllSet(actions)
  }

  predicate AllSet(actions: seq<Action>)
    decreases actions
  {
    actions == [] ||
    var n := |actions| - 1;
    AllSet(actions[..n]) && OnlySet(actions[n])
  }

  predicate OnlySet(action: Action)
    decreases action
  {
    match action
    case Set(_, callback) => OnlySets(callback)
    case Cancel(_) => false
  }

  predicate Harmless(timers: seq<Entry<Script>>) { forall e <- timers :: OnlySets(e.callback) }

  lemma {:induction false} AllSetMeans(actions: seq<Action>)
    requires AllSet(actions)
    ensures forall a <- actions :: OnlySet(a)
  {
    if actions != [] {
      AllSetMeans(actions[..|actions| - 1]);
    }
  }

  lemma {:induction false} ActedHarmless(t: Table, actions: seq<Action>)
    requires Harmless(t.timers) && AllSet(actions)
    ensures Harmless(Acted(t, actions).timers)
  {
    if actions != [] {
      ActedHarmless(t, actions[..|actions| - 1]);
    }
  }

  lemma DisarmHarmless(timers: seq<Entry<Script>>, id: int)
    requires Harmless(timers)
    ensures Harmless(Disarm(timers, id))
  {
    forall e | e in Disarm(timers, id) ensures OnlySets(e.callback) {
      var k :| 0 <= k < |timers| && Disarm(timers, id)[k] == e;
      assert timers[k] in timers;
    }
  }

  /** If no callback cancels anything, at any depth, every pass comes to its end. */
  lemma {:induction false} HarmlessPassEnds(t: Table, cursor: int, now: int, fired: seq<int>)
    requires Harmless(t.timers)
    ensures Pass(t, cursor, now, fired).Some?
    decreases Load(t.timers, cursor)
  {
    hide OnlySets, Load;
    var j := After(t.timers, cursor, 0);
    if j < |t.timers| {
      var e := t.timers[j];
      FireLoad(t, j, cursor);
      if e.expires > now {
        HarmlessPassEnds(t, e.id, now, fired);
      } else {
        ActionsHarmless(e);
        AllSetMeans(Actions(e));
        ActedHarmless(t, Actions(e));
        DisarmHarmless(Acted(t, Actions(e)).timers, e.id);
        HarmlessPassEnds(Fire(t, e), e.id, now, fired + [e.id]);
      }
    }
  }

  lemma ActionsHarmless(e: Entry<Script>)
    requires OnlySets(e.callback)
    ensures AllSet(Actions(e))
  {
  }

  // ----- The events of a pass

  /** An action of a callback is one event. */
  function Did(action: Action): Event<Script> {
    match action
    case Set(calltime, callback) => CallAt(calltime, callback)
    case Cancel(id) => Remove(id)
  }

  /** What a callback does, in order. */
  function Deeds(actions: seq<Action>): seq<Event<Script>> {
    if actions == [] then [] else Deeds(actions[..|actions| - 1]) + [Did(actions[|actions| - 1])]
  }

  /** One turn of the loop: the iterator moves on, and if the timer is due, its callback does what it does. */
  function Turn(e: Entry<Script>, now: int): seq<Event<Script>> {
    if e.expires <= now then [Visit] + Deeds(Actions(e)) + [Return] else [Visit]
  }

  function Turns(visited: seq<Entry<Script>>, now: int): seq<Event<Script>> {
    if visited == [] then [] else Turns(visited[..|visited| - 1], now) + Turn(visited[|visited| - 1], now)
  }

  /** A turn whose callback cancels its own timer, after as many other actions. */
  function BrokenTurn(e: Entry<Script>, done: nat): seq<Event<Script>>
  {
    [Visit] + if done <= |Actions(e)| then Deeds(Actions(e)[..done]) else []
  }

  predicate Cut(e: Entry<Script>, now: int, done: nat) {
    && e.expires <= now && done < |Actions(e)|
    && Actions(e)[done] == Cancel(e.id) && Cancel(e.id) !in Actions(e)[..done]
  }

  /** The events of a pass that breaks off in the callback of the last timer it visits. */
  ghost predicate Breaks(
      before: seq<Event<Script>>, visited: seq<Entry<Script>>, now: int, done: nat, events: seq<Event<Script>>)
    requires visited != []
  {
    var n := |visited| - 1;
    && Cut(visited[n], now, done)
    && events == before + ([Begin(now)] + Turns(visited[..n], now) + BrokenTurn(visited[n], done))
  }

  lemma BreaksSo(before: seq<Event<Script>>, visited: seq<Entry<Script>>, e: Entry<Script>, now: int, done: nat)
    requires Cut(e, now, done)
    ensures var events := before + ([Begin(now)] + Turns(visited, now)) + BrokenTurn(e, done);
            Breaks(before, visited + [e], now, done, events)
  {
    hide Turns, BrokenTurn;
    Snoc(visited, e);
    Assoc(before, [Begin(now)] + Turns(visited, now), BrokenTurn(e, done));
  }

  /** The element that the iterator reaches next: the least id beyond it. */
  ghost predicate IsNext(s: State<Script>, e: Entry<Script>) {
    && s.phase.Passing? && e in s.timers && e.id > s.phase.cursor
    && forall x <- s.timers :: x.id > s.phase.cursor ==> e.id <= x.id
  }

  /** After the turns before it, each timer is the next. */
  ghost predicate Walks(s: State<Script>, visited: seq<Entry<Script>>, now: int) {
    forall k :: 0 <= k < |visited| ==> Reaches(s, visited[..k], visited[k], now)
  }

  ghost predicate Reaches(s: State<Script>, before: seq<Entry<Script>>, e: Entry<Script>, now: int) {
    var u := Run(s, Turns(before, now));
    u.Some? && IsNext(u.value, e)
  }

  function Due(visited: seq<Entry<Script>>, now: int): seq<Entry<Script>> {
    if visited == [] then []
    else
      var n := |visited| - 1;
      Due(visited[..n], now) + if visited[n].expires <= now then [visited[n]] else []
  }

  /** How many timers the callbacks of these timers set. */
  function SetsOf(due: seq<Entry<Script>>): nat {
    if due == [] then 0 else SetsOf(due[..|due| - 1]) + Sets(Actions(due[|due| - 1]))
  }

  function Sets(actions: seq<Action>): nat {
    if actions == [] then 0 else Sets(actions[..|actions| - 1]) + if actions[|actions| - 1].Set? then 1 else 0
  }

  lemma {:induction false} AdditionsAppend(first: seq<Event<Script>>, second: seq<Event<Script>>)
    ensures Additions(first + second) == Additions(first) + Additions(second)
    decreases |second|
  {
    if second == [] {
      Empty(first);
    } else {
      var n := |second| - 1;
      AdditionsAppend(first, second[..n]);
      assert (first + second)[..|first| + n] == first + second[..n];
    }
  }

  lemma AdditionsOne(event: Event<Script>)
    ensures Additions([event]) == if event.CallAt? then 1 else 0
  {
    assert [event][..0] == [];
    assert Additions<Script>([]) == 0;
  }

  lemma {:induction false} DeedsCounted(actions: seq<Action>)
    ensures Additions(Deeds(actions)) == Sets(actions) && Within(Deeds(actions))
  {
    if actions != [] {
      var n := |actions| - 1;
      DeedsCounted(actions[..n]);
      AdditionsAppend(Deeds(actions[..n]), [Did(actions[n])]);
      AdditionsOne(Did(actions[n]));
    }
  }

  lemma TurnCounted(e: Entry<Script>, now: int)
    ensures Additions(Turn(e, now)) == (if e.expires <= now then Sets(Actions(e)) else 0) && Within(Turn(e, now))
  {
    hide Additions;
    AdditionsOne(Visit);
    if e.expires <= now {
      DeedsCounted(Actions(e));
      AdditionsOne(Return);
      AdditionsAppend([Visit], Deeds(Actions(e)));
      AdditionsAppend([Visit] + Deeds(Actions(e)), [Return]);
    }
  }

  /** One id for each timer that a callback of the pass sets. */
  lemma {:induction false} TurnsCounted(visited: seq<Entry<Script>>, now: int)
    ensures Additions(Turns(visited, now)) == SetsOf(Due(visited, now)) && Within(Turns(visited, now))
  {
    hide Turn, Sets, Actions;
    if visited != [] {
      var n := |visited| - 1;
      TurnsCounted(visited[..n], now);
      TurnCounted(visited[n], now);
      AdditionsAppend(Turns(visited[..n], now), Turn(visited[n], now));
      Empty(Due(visited[..n], now));
      if visited[n].expires <= now {
        Snoc(Due(visited[..n], now), visited[n]);
      }
    }
  }

  lemma WalkOn(s: State<Script>, visited: seq<Entry<Script>>, e: Entry<Script>, now: int)
    requires Walks(s, visited, now) && Reaches(s, visited, e, now)
    ensures Walks(s, visited + [e], now)
    ensures Turns(visited + [e], now) == Turns(visited, now) + Turn(e, now)
  {
    hide Reaches, Turn;
    var more := visited + [e];
    Snoc(visited, e);
    forall k | 0 <= k < |more| ensures Reaches(s, more[..k], more[k], now) {
      if k < |visited| {
        assert more[..k] == visited[..k];
      }
    }
  }

  lemma NothingVisited(s: State<Script>, before: seq<Event<Script>>, now: int)
    ensures Walks(s, [], now) && Due([], now) == []
    ensures before + [Begin(now)] == before + ([Begin(now)] + Turns([], now))
  {
    var begin: Event<Script> := Begin(now);
    Empty([begin]);
  }

  lemma NextIsReached(
      s: State<Script>, before: seq<Event<Script>>, t: State<Script>, visited: seq<Entry<Script>>, j: nat, now: int)
    requires Run(Init(), before) == Some(s) && s.phase.Idle? && t.phase.Passing?
    requires Run(Init(), before + ([Begin(now)] + Turns(visited, now))) == Some(t)
    requires j == After(t.timers, t.phase.cursor, 0) < |t.timers|
    ensures Reaches(s.(phase := Passing(now, 0, false, [])), visited, t.timers[j], now)
  {
    hide Turns;
    RunKeeps(Init<Script>(), before + ([Begin(now)] + Turns(visited, now)));
    RunAppend(Init(), before, [Begin(now)] + Turns(visited, now));
    RunAppend(s, [Begin(now)], Turns(visited, now));
    OneEvent(s, Begin(now));
    assert t.timers[j] in t.timers;
  }

  lemma TurnIsTold(
      s: State<Script>, before: seq<Event<Script>>, t: State<Script>, visited: seq<Entry<Script>>, j: nat, now: int)
    requires Run(Init(), before) == Some(s) && s.phase.Idle? && t.phase.Passing?
    requires Run(Init(), before + ([Begin(now)] + Turns(visited, now))) == Some(t)
    requires j == After(t.timers, t.phase.cursor, 0) < |t.timers|
    requires Walks(s.(phase := Passing(now, 0, false, [])), visited, now)
    ensures var e := t.timers[j];
            && Walks(s.(phase := Passing(now, 0, false, [])), visited + [e], now)
            && before + ([Begin(now)] + Turns(visited, now)) + Turn(e, now) ==
               before + ([Begin(now)] + Turns(visited + [e], now))
            && forall done: nat :: Cut(e, now, done) ==>
                 Breaks(before, visited + [e], now, done,
                        before + ([Begin(now)] + Turns(visited, now)) + BrokenTurn(e, done))
  {
    hide Turns, Run, Walks, Reaches, Turn, BrokenTurn, Cut, Breaks;
    var s0, e := s.(phase := Passing(now, 0, false, [])), t.timers[j];
    NextIsReached(s, before, t, visited, j, now);
    WalkOn(s0, visited, e, now);
    Assoc4(before, [Begin(now)], Turns(visited, now), Turn(e, now));
    Assoc(before, [Begin(now)], Turns(visited, now));
    Assoc([Begin(now)], Turns(visited, now), Turn(e, now));
    forall done: nat | Cut(e, now, done)
      ensures Breaks(before, visited + [e], now, done,
                     before + ([Begin(now)] + Turns(visited, now)) + BrokenTurn(e, done))
    {
      BreaksSo(before, visited, e, now, done);
    }
  }

  lemma DueOn(visited: seq<Entry<Script>>, e: Entry<Script>, now: int, rest: seq<Entry<Script>>)
    ensures Due(visited + [e], now) == Due(visited, now) + if e.expires <= now then [e] else []
    ensures e.expires > now ==> Due(visited + [e], now) == Due(visited, now)
    ensures e.expires <= now ==> Due(visited, now) + ([e] + rest) == Due(visited + [e], now) + rest
  {
    Snoc(visited, e);
    Assoc(Due(visited, now), [e], rest);
  }

  /** The timers and ids after a pass, from its turns. */
  lemma PassIsTold(s: State<Script>, before: seq<Event<Script>>, visited: seq<Entry<Script>>, now: int)
    requires Run(Init(), before) == Some(s) && s.phase.Idle?
    requires Run(Init(), before + ([Begin(now)] + Turns(visited, now) + [End])).Some?
    ensures var t := Run(Init(), before + ([Begin(now)] + Turns(visited, now) + [End])).value;
            && t.lastId == s.lastId + SetsOf(Due(visited, now))
            && Leaves(s.timers, s.lastId, Turns(visited, now), now, t.timers)
  {
    hide Turns, Inv, Run, SetsOf, Due, Within, Leaves;
    RunKeeps(Init<Script>(), before) by {
      InitIsLawful();
    }
    RunAppend(Init(), before, [Begin(now)] + Turns(visited, now) + [End]);
    TurnsCounted(visited, now);
    PassLeaves(s, Turns(visited, now), now);
  }

  lemma InitIsLawful()
    ensures Inv(Init<Script>())
  {
  }

  lemma TurnBegins(before: seq<Event<Script>>, e: Entry<Script>, now: int)
    ensures e.expires > now ==> Turn(e, now) == [Visit]
    ensures e.expires <= now ==> ((before + [Visit]) + Deeds(Actions(e))) + [Return] == before + Turn(e, now)
    ensures Actions(e) == [] ==> (before + [Visit]) + Deeds(Actions(e)) == before + [Visit]
    ensures forall done | 0 <= done <= |Actions(e)| ::
              (before + [Visit]) + Deeds(Actions(e)[..done]) == before + BrokenTurn(e, done)
  {
    Assoc4(before, [Visit], Deeds(Actions(e)), [Return]);
    if Actions(e) == [] {
      Empty(before + [Visit]);
    }
  }

  lemma DeedsStep(actions: seq<Action>, i: nat, before: seq<Event<Script>>)
    requires i < |actions|
    ensures before + Deeds(actions[..i]) + [Did(actions[i])] == before + Deeds(actions[..i + 1])
  {
    assert actions[..i + 1][..i] == actions[..i];
    Assoc(before, Deeds(actions[..i]), [Did(actions[i])]);
  }

  class TimerService {
    var timerId: int
    var timers: seq<Entry<Script>>      // std::map<long, timer>
    ghost var state: State<Script>
    ghost var events: seq<Event<Script>>

    ghost predicate Valid()
      reads this
    {
      state.lastId == timerId && state.timers == timers && Run(Init(), events) == Some(state)
    }

    function Now(): Table
      reads this
    {
      Table(timerId, timers)
    }

    constructor ()
      ensures Valid() && state == Init()
    {
      timerId, timers, state, events := 0, [], Init(), [];
    }

    /** One more event of the run; the fields follow. */
    ghost method Record(event: Event<Script>)
      requires Run(Init(), events) == Some(state) && Step(state, event).Some?
      modifies `state, `events
      ensures Run(Init(), events) == Some(state) && Some(state) == Step(old(state), event)
      ensures events == old(events) + [event]
    {
      RunSnoc(Init(), events, event);
      events := events + [event];
      state := Step(state, event).value;
    }

    method CallAt(calltime: int, callback: Option<Script>) returns (id: int)
      requires Valid() && !Working(state)
      modifies this
      ensures Valid() && Some(state) == Step(old(state), TimerRuns.CallAt(calltime, callback))
      ensures events == old(events) + [TimerRuns.CallAt(calltime, callback)]
      ensures id == timerId == old(timerId) + 1 && timers == old(timers) + [Entry(id, Narrow(calltime), callback)]
    {
      Record(TimerRuns.CallAt(calltime, callback));
      timerId := timerId + 1;
      timers := timers + [Entry(timerId, Narrow(calltime), callback)];
      return timerId;
    }

    method RemoveTimer(id: int)
      requires Valid() && !Working(state) && !(state.phase.Passing? && state.phase.cursor == id)
      modifies this
      ensures Valid() && Some(state) == Step(old(state), TimerRuns.Remove(id)) && timers == Erase(old(timers), id)
      ensures events == old(events) + [TimerRuns.Remove(id)]
    {
      Record(TimerRuns.Remove(id));
      timers := Erase(timers, id);
    }

    /** One thing a callback does. */
    method Perform(action: Action, current: int) returns (broken: bool)
      requires Valid() && state.phase.Passing? && state.phase.firing && state.phase.cursor == current
      modifies this
      ensures Valid() && state.phase == old(state.phase) && broken == (action == Cancel(current))
      ensures Now() == if broken then old(Now()) else Act(old(Now()), action)
      ensures events == old(events) + if broken then [] else [Did(action)]
      ensures Load(timers, current) <= old(Load(timers, current)) + ActionSize(action)
    {
      hide Run, Load, Narrow, Erase;
      broken := false;
      match action
      case Set(calltime, callback) =>
        LoadAdd(timers, Entry(timerId + 1, Narrow(calltime), callback), current);
        var id := CallAt(calltime, callback);
      case Cancel(id) =>
        if id == current {
          return true;
        }
        LoadErase(timers, id, current);
        RemoveTimer(id);
    }

    /** The callback itself: it may set timers, and cancel any but its own. */
    method Call(actions: seq<Action>, current: int) returns (broken: bool, ghost done: nat)
      requires Valid() && state.phase.Passing? && state.phase.firing && state.phase.cursor == current
      modifies this
      ensures Valid() && state.phase == old(state.phase) && broken == (Cancel(current) in actions)
      ensures !broken ==> Now() == Acted(old(Now()), actions)
      ensures Load(timers, current) <= old(Load(timers, current)) + ActionsSize(actions)
      ensures done <= |actions| && events == old(events) + Deeds(actions[..done]) && Cancel(current) !in actions[..done]
      ensures if broken then done < |actions| && actions[done] == Cancel(current) else done == |actions|
    {
      hide Run, Load, ActionsSize, ActionSize, Did;
      SizeOfNone();
      var i := 0;
      while i < |actions|
        invariant i <= |actions| && Valid() && state.phase == old(state.phase)
        invariant Cancel(current) !in actions[..i] && Now() == Acted(old(Now()), actions[..i])
        invariant Load(timers, current) <= old(Load(timers, current)) + ActionsSize(actions[..i])
        invariant events == old(events) + Deeds(actions[..i])
      {
        DeedsStep(actions, i, old(events));
        SizeStep(actions, i);
        SizeGrows(actions, i + 1);
        broken := Perform(actions[i], current);
        if broken {
          done := i;
          return;
        }
        i := i + 1;
      }
      assert actions[..i] == actions;
      return false, i;
    }

    /** One turn of the loop over the map: the next element, and its callback if it is due. */
    method VisitNext(j: nat, now: int) returns (broken: bool, ghost done: nat)
      requires Valid() && Working(state) && state.phase.now == now
      requires j == After(timers, state.phase.cursor, 0) < |timers|
      modifies this
      ensures Valid() && state.phase.Passing? && state.phase.now == now && state.phase.cursor == old(timers[j].id)
      ensures state.phase.firing == broken
      ensures var e := old(timers[j]);
              && broken == (e.expires <= now && CancelsItself(e))
              && (!broken ==> Now() == if e.expires <= now then Fire(old(Now()), e) else old(Now()))
              && (!broken ==> state.phase.fired == old(state.phase.fired) + if e.expires <= now then [e.id] else [])
      ensures !broken ==> events == old(events) + Turn(old(timers[j]), now)
      ensures broken ==> events == old(events) + BrokenTurn(old(timers[j]), done) && Cut(old(timers[j]), now, done)
    {
      hide Run, Load, Disarm, Narrow, Acted, Deeds;
      var e := timers[j];
      TurnBegins(old(events), e, now);
      Record(Visit);
      done := 0;
      if e.expires <= now {
        ActedNone(Now());
        if e.callback.Some? {
          broken, done := Call(e.callback.value.actions, e.id);
          if broken {
            return;
          }
          assert Actions(e)[..done] == Actions(e);
        }
        Record(Return);
        timers := Disarm(timers, e.id);
      }
      return false, done;
    }

    /** processTimers: visits one timer after the other, carries out what the callbacks of those that are due do,
        in order, and breaks off exactly when one of them cancels its own timer. Otherwise it ends, whatever the
        callbacks add, and leaves exactly the timers that are not due and have not been cancelled. */
    method ProcessTimers(now: int) returns (broken: bool, ghost visited: seq<Entry<Script>>, ghost done: nat)
      requires Valid() && state.phase.Idle?
      modifies this
      ensures Valid() && broken == Pass(old(Now()), 0, now, []).None?
      ensures !broken ==> Some(Now()) == Pass(old(Now()), 0, now, [])
      ensures !broken ==> state.phase.Idle? && forall e <- timers :: e.expires > now
      ensures broken ==> var reached := Reached(old(Now()), 0, now);
                reached != [] && state.phase.Passing? && state.phase.firing
                  && state.phase.cursor == reached[|reached| - 1].id
      ensures Walks(old(state).(phase := Passing(now, 0, false, [])), visited, now)
      ensures Due(visited, now) == Reached(old(Now()), 0, now)
      ensures !broken ==> events == old(events) + ([Begin(now)] + Turns(visited, now) + [End])
      ensures !broken ==> timerId == old(timerId) + SetsOf(Due(visited, now))
      ensures !broken ==> Leaves(old(timers), old(timerId), Turns(visited, now), now, timers)
      ensures broken ==> visited != [] && Breaks(old(events), visited, now, done, events)
    {
      hide Run, Load, EraseAll, Fire, Turn, Turns, Walks, Reaches, BrokenTurn, Cut, Due, Leaves, SetsOf, Breaks;
      ghost var s0 := state.(phase := Passing(now, 0, false, []));
      visited, done := [], 0;
      NothingVisited(s0, events, now);
      Record(Begin(now));
      var cursor := 0;
      var toDelete: seq<int> := [];
      ghost var all := Reached(Now(), 0, now);
      Empty(all);
      var j := After(timers, cursor, 0);
      while j < |timers|
        invariant Valid() && Working(state) && state.phase.now == now && state.phase.cursor == cursor
        invariant toDelete == state.phase.fired && j == After(timers, cursor, 0)
        invariant Pass(Now(), cursor, now, toDelete) == Pass(old(Now()), 0, now, [])
        invariant all == Due(visited, now) + Reached(Now(), cursor, now)
        invariant Walks(s0, visited, now) && events == old(events) + ([Begin(now)] + Turns(visited, now))
        decreases Load(timers, cursor)
      {
        var e := timers[j];
        FireLoad(Now(), j, cursor);
        TurnIsTold(old(state), old(events), state, visited, j, now);
        DueOn(visited, e, now, Reached(Fire(Now(), e), e.id, now));
        broken, done := VisitNext(j, now);
        visited := visited + [e];
        if broken {
          return;
        }
        cursor := e.id;
        if e.expires <= now {
          toDelete := toDelete + [e.id];
        }
        j := After(timers, cursor, 0);
      }
      PassIsComplete(events, state);
      Record(End);
      Assoc(old(events), [Begin(now)] + Turns(visited, now), [End]);
      PassIsTold(old(state), old(events), visited, now);
      DeleteFired(toDelete);
      return false, visited, done;
    }

    /** timers.erase(*to_del_it) for all that fired. */
    method DeleteFired(toDelete: seq<int>)
      modifies `timers
      ensures timers == EraseAll(old(timers), toDelete)
    {
      var i := 0;
      while i < |toDelete|
        invariant i <= |toDelete| && timers == EraseAll(old(timers), toDelete[..i])
      {
        assert toDelete[..i + 1][..i] == toDelete[..i];
        timers := Erase(timers, toDelete[i]);
        i := i + 1;
      }
      assert toDelete[..i] == toDelete;
    }
  }

  lemma ActedNone(t: Table)
    ensures Acted(t, []) == t
  {
  }

  lemma SizeOfNone()
    ensures ActionsSize([]) == 0
  {
  }

  lemma SizeStep(actions: seq<Action>, i: nat)
    requires i < |actions|
    ensures actions[..i + 1] == actions[..i] + [actions[i]]
    ensures ActionsSize(actions[..i + 1]) == ActionsSize(actions[..i]) + ActionSize(actions[i])
  {
    Snoc(actions[..i], actions[i]);
  }

  lemma {:induction false} SizeGrows(actions: seq<Action>, i: nat)
    requires i <= |actions|
    ensures ActionsSize(actions[..i]) <= ActionsSize(actions)
    decreases |actions|
  {
    if i < |actions| {
      SizeGrows(actions[..|actions| - 1], i);
      assert actions[..|actions| - 1][..i] == actions[..i];
    } else {
      assert actions[..i] == actions;
    }
  }
}
