/** The registry of asynchronous objects (src/netdaemon.cpp:106-261, 287-308, src/asyncobject.cpp:28-118): a
    daemon keeps an object in the slot of its descriptor, and an object knows its daemon. What the system calls
    answer is given with each call. */
module Registries {

  class AsyncObject {
    var fd: int
    var daemon: Daemon?

    constructor (fd: int)
      ensures this.fd == fd && daemon == null
    {
      this.fd, daemon := fd, null;
    }

    /** In the slot where its daemon looks for it. */
    ghost predicate Registered()
      reads this, if daemon == null then {} else {daemon}
    {
      daemon != null && 0 <= fd < |daemon.slots| && daemon.slots[fd] == this
    }

    /** disableObject() of the object; removed is the answer of epoll_ctl(EPOLL_CTL_DEL). */
    method DisableObject(removed: bool, ghost objects: set<AsyncObject>, ghost daemons: set<Daemon>) returns (ok: bool)
      requires World(objects, daemons) && this in objects && (daemon != null ==> daemon in daemons)
      modifies if daemon == null then {} else {daemon}
      ensures World(objects, daemons)
      ensures Registered() <==> old(Registered()) && !removed
      ensures daemon != null ==> daemon.Unless(removed && old(Registered()), fd, old(daemon.slots), old(daemon.count))
      ensures ok == (daemon != null && 0 <= fd < |daemon.slots| && daemon.slots[fd] == null)
    {
      if daemon == null {
        return false;
      }
      ok := daemon.Disable(this, removed, objects, daemons);
    }

    /** enableObject() of the object */
    method EnableObject(ready: bool, added: bool, ghost objects: set<AsyncObject>, ghost daemons: set<Daemon>)
      returns (ok: bool)
      requires World(objects, daemons) && this in objects && (daemon != null ==> daemon in daemons)
      modifies if daemon == null then {} else {daemon}
      ensures World(objects, daemons) && ok == Registered()
    {
      if daemon == null {
        return false;
      }
      ok := daemon.Enable(this, ready, added, objects, daemons);
    }

    /** Changes the descriptor whether or not the object could be taken out of epoll. */
    method SetFd(newFd: int, removed: bool, ghost objects: set<AsyncObject>, ghost daemons: set<Daemon>)
      requires World(objects, daemons) && this in objects && (daemon != null ==> daemon in daemons)
      modifies this`fd, if daemon == null then {} else {daemon}
      ensures fd == newFd
      ensures World(objects, daemons) <==> old(fd) == newFd || !old(Registered()) || removed
      ensures old(fd) != newFd && World(objects, daemons) ==> !Registered()
      ensures daemon != null ==>
                daemon.Unless(removed && old(Registered()) && old(fd) != newFd, old(fd), old(daemon.slots),
                              old(daemon.count))
    {
      if fd == newFd {
        return;
      }
      if fd != -1 {
        var ok := DisableObject(removed, objects, daemons);
      }
      fd := newFd;
    }

    /** Changes the daemon whether or not the object could be taken out of epoll. */
    method SetDaemon(next: Daemon?, removed: bool, ghost objects: set<AsyncObject>, ghost daemons: set<Daemon>)
      requires World(objects, daemons) && this in objects && (daemon != null ==> daemon in daemons)
      modifies this`daemon, if daemon == null then {} else {daemon}
      ensures daemon == next && fd == old(fd)
      ensures World(objects, daemons) <==> old(daemon) == next || !old(Registered()) || removed
      ensures old(daemon) != next && World(objects, daemons) && (next != null ==> next in daemons) ==> !Registered()
      ensures old(daemon) != null ==>
                old(daemon).Unless(removed && old(Registered()) && old(daemon) != next, fd, old(daemon.slots),
                                   old(daemon.count))
    {
      if daemon == next {
        return;
      }
      if daemon != null {
        if fd != -1 {
          var ok := DisableObject(removed, objects, daemons);
        }
      }
      daemon := next;
    }

    /** leaveDaemon */
    method LeaveDaemon(removed: bool, ghost objects: set<AsyncObject>, ghost daemons: set<Daemon>)
      requires World(objects, daemons) && this in objects && (daemon != null ==> daemon in daemons)
      modifies this`daemon, if daemon == null then {} else {daemon}
      ensures World(objects, daemons) && fd == old(fd)
      ensures daemon == null <==>
                old(daemon) == null ||
                (0 <= fd < |old(daemon.slots)| &&
                 (old(daemon.slots[fd]) == null || (old(daemon.slots[fd]) == this && removed)))
      ensures old(daemon) != null ==>
                old(daemon).Unless(daemon == null && old(Registered()), fd, old(daemon.slots), old(daemon.count))
      ensures daemon != null ==> daemon == old(daemon)
    {
      if daemon != null {
        var ok := daemon.Remove(this, removed, objects, daemons);
      }
    }
  }

  class Daemon {
    var slots: seq<AsyncObject?>     // fds[i].obj
    var count: int

    constructor (limit: nat)
      ensures slots == seq(limit, _ => null) && count == 0
    {
      slots, count := seq(limit, _ => null), 0;
    }

    /** The slot fd has been emptied and counted, or nothing has changed. */
    ghost predicate Unless(emptied: bool, fd: int, slots: seq<AsyncObject?>, count: int)
      reads this
    {
      if emptied then 0 <= fd < |slots| && this.slots == slots[fd := null] && this.count == count - 1
      else this.slots == slots && this.count == count
    }

    /** disableObject */
    method Disable(obj: AsyncObject?, removed: bool, ghost objects: set<AsyncObject>, ghost daemons: set<Daemon>)
      returns (ok: bool)
      requires World(objects, daemons) && this in daemons && (obj != null ==> obj in objects)
      modifies this
      ensures World(objects, daemons)
      ensures obj == null || obj.daemon != this ==> !ok && Unless(false, 0, old(slots), old(count))
      ensures obj != null && obj.daemon == this ==>
                && Unless(removed && old(obj.Registered()), obj.fd, old(slots), old(count))
                && ok == (0 <= obj.fd < |slots| && slots[obj.fd] == null)
    {
      if obj == null {
        return false;
      }
      if obj.daemon != this {
        return false;
      }
      if obj.fd < 0 || obj.fd >= |slots| {
        return false;
      }
      if slots[obj.fd] == null {
        return true;
      }
      if slots[obj.fd] != obj {
        return false;
      }
      if !removed {
        return false;
      }
      OccupiedSet(slots, obj.fd, null);
      slots := slots[obj.fd := null];
      count := count - 1;
      return true;
    }

    /** enableObject; ready is the answer of fcntl, added that of epoll_ctl(EPOLL_CTL_ADD) */
    method Enable(obj: AsyncObject?, ready: bool, added: bool, ghost objects: set<AsyncObject>,
                  ghost daemons: set<Daemon>) returns (ok: bool)
      requires Consistent(this, objects) && (obj != null ==> obj in objects)
      modifies this
      ensures Consistent(this, objects) && (World(objects, daemons) <==> old(World(objects, daemons)))
      ensures ok == (obj != null && obj.daemon == this && obj.Registered())
      ensures ok && !old(obj.Registered()) ==>
                0 <= obj.fd < |old(slots)| && old(slots)[obj.fd] == null && slots == old(slots)[obj.fd := obj]
                  && count == old(count) + 1
      ensures !ok || old(obj.Registered()) ==> slots == old(slots) && count == old(count)
      ensures obj != null && obj.daemon == this && 0 <= obj.fd < |old(slots)| && old(slots)[obj.fd] == null ==>
                ok == (ready && added)
    {
      if obj == null {
        return false;
      }
      if obj.daemon != this {
        return false;
      }
      if obj.fd < 0 || obj.fd >= |slots| {
        return false;
      }
      if slots[obj.fd] == null {
        if !ready || !added {
          return false;
        }
        OccupiedSet(slots, obj.fd, obj);
        slots := slots[obj.fd := obj];
        count := count + 1;
        return true;
      }
      return slots[obj.fd] == obj;
    }

    /** removeObject: setDaemon(0) would take the object out of epoll again, but finds its slot empty. */
    method Remove(obj: AsyncObject?, removed: bool, ghost objects: set<AsyncObject>, ghost daemons: set<Daemon>)
      returns (ok: bool)
      requires World(objects, daemons) && this in daemons && (obj != null ==> obj in objects)
      modifies this, (if obj == null then {} else {obj})`daemon
      ensures World(objects, daemons)
      ensures ok <==> obj != null && old(obj.daemon) == this && 0 <= obj.fd < |old(slots)| &&
                      (old(slots)[obj.fd] == null || (old(slots)[obj.fd] == obj && removed))
      ensures ok ==> obj.daemon == null && Unless(old(obj.Registered()), obj.fd, old(slots), old(count))
      ensures !ok ==> Unless(false, 0, old(slots), old(count)) && (obj != null ==> obj.daemon == old(obj.daemon))
    {
      if obj == null {
        return false;
      }
      if obj.daemon != this {
        return false;
      }
      ok := Disable(obj, removed, objects, daemons);
      if ok {
        obj.SetDaemon(null, removed, objects, daemons);
      }
    }

    /** addObject; removed is the answer of the daemon the object comes from. */
    method Add(obj: AsyncObject?, enabled: bool, removed: bool, ready: bool, added: bool,
               ghost objects: set<AsyncObject>, ghost daemons: set<Daemon>) returns (ok: bool)
      requires World(objects, daemons) && this in daemons
      requires obj != null ==> obj in objects && (obj.daemon != null ==> obj.daemon in daemons)
      modifies this, if obj == null then {} else {obj} + if obj.daemon == null then {} else {obj.daemon}
      ensures World(objects, daemons) <==> obj == null || old(obj.daemon) == this || !old(obj.Registered()) || removed
      ensures obj == null ==> !ok
      ensures obj != null ==>
                obj.daemon == this && obj.fd == old(obj.fd) && (if enabled then ok == obj.Registered() else ok)
      ensures obj != null && old(obj.daemon) != null && old(obj.daemon) != this ==>
                !old(obj.Registered()) || removed ==> !old(obj.daemon).Holds(obj)
    {
      if obj == null {
        return false;
      }
      obj.SetDaemon(this, removed, objects, daemons);
      assert Consistent(this, objects);
      if enabled {
        ok := Enable(obj, ready, added, objects, daemons);
        return;
      }
      return true;
    }

    ghost predicate Holds(obj: AsyncObject)
      reads this
    {
      exists i :: 0 <= i < |slots| && slots[i] == obj
    }
  }

  // ----- What the registry promises

  ghost function Occupied(slots: seq<AsyncObject?>): nat {
    if slots == [] then 0 else Occupied(slots[..|slots| - 1]) + if slots[|slots| - 1] == null then 0 else 1
  }

  lemma {:induction false} OccupiedSet(slots: seq<AsyncObject?>, i: nat, x: AsyncObject?)
    requires i < |slots|
    ensures Occupied(slots[i := x]) ==
              Occupied(slots) - (if slots[i] == null then 0 else 1) + (if x == null then 0 else 1)
  {
    var n := |slots| - 1;
    if i == n {
      assert slots[i := x][..n] == slots[..n];
    } else {
      OccupiedSet(slots[..n], i, x);
      assert slots[i := x][..n] == slots[..n][i := x];
    }
  }

  /** The count is the number of occupied slots; the object in slot i has descriptor i and this daemon. */
  ghost predicate Consistent(d: Daemon, objects: set<AsyncObject>)
    reads d, objects
  {
    && d.count == Occupied(d.slots)
    && forall i :: 0 <= i < |d.slots| && d.slots[i] != null ==>
      d.slots[i] in objects && d.slots[i].fd == i && d.slots[i].daemon == d
  }

  ghost predicate World(objects: set<AsyncObject>, daemons: set<Daemon>)
    reads objects, daemons
  {
    forall d <- daemons :: Consistent(d, objects)
  }

  /** No object is in two slots, of one daemon or of two. */
  lemma OneSlot(objects: set<AsyncObject>, daemons: set<Daemon>, d: Daemon, i: nat, e: Daemon, j: nat)
    requires World(objects, daemons) && d in daemons && e in daemons
    requires i < |d.slots| && j < |e.slots| && d.slots[i] != null && d.slots[i] == e.slots[j]
    ensures d == e && i == j
  {
    assert Consistent(d, objects) && Consistent(e, objects);
  }

  /** Disabling twice is disabling once, once it has succeeded. */
  method DisableTwice(d: Daemon, obj: AsyncObject?, first: bool, second: bool, ghost objects: set<AsyncObject>,
                      ghost daemons: set<Daemon>) returns (once: bool, twice: bool)
    requires World(objects, daemons) && d in daemons && (obj != null ==> obj in objects)
    modifies d
    ensures World(objects, daemons) && (once ==> twice)
    ensures once && obj != null ==> d.Unless(old(obj.Registered()), obj.fd, old(d.slots), old(d.count))
  {
    once := d.Disable(obj, first, objects, daemons);
    twice := d.Disable(obj, second, objects, daemons);
  }

  // ----- Runs

  /** A call, with the answers of the system calls it makes. */
  datatype Request =
    | Add(daemon: Daemon, obj: AsyncObject, enabled: bool, removed: bool, ready: bool, added: bool)
    | Enable(obj: AsyncObject, ready: bool, added: bool)
    | Disable(obj: AsyncObject, removed: bool)
    | Remove(daemon: Daemon, obj: AsyncObject, removed: bool)
    | SetFd(obj: AsyncObject, fd: int, removed: bool)
    | SetDaemon(obj: AsyncObject, next: Daemon?, removed: bool)
    | Leave(obj: AsyncObject, removed: bool)

  ghost predicate Known(r: Request, objects: set<AsyncObject>, daemons: set<Daemon>) {
    && r.obj in objects
    && match r
       case Add(daemon, _, _, _, _, _) => daemon in daemons
       case Remove(daemon, _, _) => daemon in daemons
       case SetDaemon(_, next, _) => next == null || next in daemons
       case _ => true
  }

  /** The daemons that objects belong to are among these. */
  ghost predicate Homes(objects: set<AsyncObject>, daemons: set<Daemon>)
    reads objects
  {
    forall o <- objects :: o.daemon != null ==> o.daemon in daemons
  }

  /** This call does not lose track of an object: epoll lets it go, or it is not in epoll, or it stays. */
  ghost predicate LetsGo(r: Request)
    reads r.obj, if r.obj.daemon == null then {} else {r.obj.daemon}
  {
    match r
    case Add(daemon, obj, _, removed, _, _) => obj.daemon == daemon || !obj.Registered() || removed
    case SetFd(obj, fd, removed) => obj.fd == fd || !obj.Registered() || removed
    case SetDaemon(obj, next, removed) => obj.daemon == next || !obj.Registered() || removed
    case _ => true
  }

  method ServeOne(r: Request, ghost objects: set<AsyncObject>, ghost daemons: set<Daemon>)
    requires World(objects, daemons) && Homes(objects, daemons) && Known(r, objects, daemons)
    modifies objects, daemons
    ensures Homes(objects, daemons) && (World(objects, daemons) <==> old(LetsGo(r)))
  {
    var ok: bool;
    match r
    case Add(daemon, obj, enabled, removed, ready, added) =>
      ok := daemon.Add(obj, enabled, removed, ready, added, objects, daemons);
    case Enable(obj, ready, added) => ok := obj.EnableObject(ready, added, objects, daemons);
    case Disable(obj, removed) => ok := obj.DisableObject(removed, objects, daemons);
    case Remove(daemon, obj, removed) => ok := daemon.Remove(obj, removed, objects, daemons);
    case SetFd(obj, fd, removed) => obj.SetFd(fd, removed, objects, daemons);
    case SetDaemon(obj, next, removed) => obj.SetDaemon(next, removed, objects, daemons);
    case Leave(obj, removed) => obj.LeaveDaemon(removed, objects, daemons);
  }

  /** Any calls on any objects and daemons: as long as epoll lets objects go, every count is the number of
      occupied slots, and every object in a slot belongs there. */
  method Serve(requests: seq<Request>, ghost objects: set<AsyncObject>, ghost daemons: set<Daemon>)
    requires World(objects, daemons) && Homes(objects, daemons)
    requires forall r <- requests :: Known(r, objects, daemons) && (!r.Enable? ==> r.removed)
    modifies objects, daemons
    ensures World(objects, daemons) && Homes(objects, daemons)
  {
    for k := 0 to |requests|
      invariant World(objects, daemons) && Homes(objects, daemons)
    {
      ServeOne(requests[k], objects, daemons);
    }
  }
}
