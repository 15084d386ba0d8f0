/** AsyncAgent with its fields; every handler is the step of AgentRuns with its name. */
module Agents {
  import opened Wrappers
  import opened AgentRuns

  class AsyncAgent {
    var connection: Connection     // connection_state
    var reconnecting: bool
    var socket: bool               // fd != -1
    var enabled: bool              // registered with the daemon
    var queries: nat               // questions handed to the resolver
    var timers: nat                // timers handed to the daemon
    var calls: seq<Call>           // onRemoteHostConnected, onRemoteHostDisconnected

    constructor ()
      ensures View() == Init()
    {
      connection, reconnecting, socket, enabled := NotConnected, false, false, false;
      queries, timers, calls := 0, 0, [];
    }

    function View(): Agent
      reads this
    {
      Agent(connection, reconnecting, socket, enabled, queries, timers, calls)
    }

    method DisableObject()
      modifies `enabled
      ensures View() == Disabled(old(View()))
    {
      if socket {
        enabled := false;
      }
    }

    method EnableObject(admitted: bool) returns (ok: bool)
      modifies `enabled
      ensures ok == (old(enabled) || (socket && admitted)) && enabled == ok
    {
      ok := enabled || (socket && admitted);
      enabled := ok;
    }

    method Close()
      modifies `enabled, `socket
      ensures View() == Closed(old(View()))
    {
      if socket {
        DisableObject();
        socket := false;
      }
    }

    method Reconnect()
      modifies this
      ensures View() == AgentRuns.Reconnect(old(View()))
    {
      if !reconnecting {
        reconnecting := true;
        if connection == Connected {
          calls := calls + [HostDisconnected];
        }
        connection := Reconnecting;
        Close();
        timers := timers + 1;
      }
    }

    method StartConnection(created: bool, submitted: bool)
      modifies this
      ensures View() == AgentRuns.StartConnection(old(View()), created, submitted)
    {
      if !created {
        Reconnect();
        return;
      }
      DisableObject();
      socket := true;
      enabled := false;
      connection := Resolving;
      if submitted {
        queries := queries + 1;
      }
    }

    method OnConnectA4(found: bool, admitted: bool, connects: bool)
      requires queries > 0
      modifies this
      ensures Some(View()) == Step(old(View()), Answer(found, admitted, connects))
    {
      queries := queries - 1;
      if found {
        connection := Connecting;
      }
      var ok := EnableObject(admitted);
      if !ok {
        Reconnect();
        return;
      }
      if connects {
        connection := Connected;
        calls := calls + [HostConnected];
        return;
      }
      Reconnect();
      DisableObject();
    }

    /** onAsyncError, onPeerDown */
    method OnDown()
      requires enabled
      modifies this
      ensures Some(View()) == Step(old(View()), Down)
    {
      DisableObject();
      Reconnect();
    }

    method ReconnectTimer(created: bool, submitted: bool)
      requires timers > 0
      modifies this
      ensures Some(View()) == Step(old(View()), Timer(created, submitted))
    {
      timers := timers - 1;
      reconnecting := false;
      StartConnection(created, submitted);
    }
  }

  /** Events delivered to an agent, for as long as they can happen. */
  method Deliver(agent: AsyncAgent, events: seq<Event>) returns (delivered: nat)
    requires agent.View() == Init()
    modifies agent
    ensures delivered <= |events| && Run(Init(), events[..delivered]) == Some(agent.View())
    ensures delivered < |events| ==> Step(agent.View(), events[delivered]) == None
    ensures delivered > 0 && StartedOnce(events) ==>
              agent.timers <= 1 && (agent.timers == 1 <==> agent.reconnecting) && Alternates(agent.calls)
    ensures delivered > 0 && StartedOnce(events) ==> (Busy(agent.View()) <==> NothingLost(events[..delivered]))
    ensures delivered > 0 && StartedOnce(events) ==>
              Chain(events[..delivered]) && agent.View() == Told(events[..delivered])
  {
    delivered := 0;
    while delivered < |events|
      invariant delivered <= |events| && Run(Init(), events[..delivered]) == Some(agent.View())
    {
      ghost var before := agent.View();
      var event := events[delivered];
      if (event.Answer? && agent.queries == 0) || (event.Down? && !agent.enabled)
         || (event.Timer? && agent.timers == 0) {
        break;
      }
      match event {
        case Start(created, submitted) => agent.StartConnection(created, submitted);
        case Answer(found, admitted, connects) => agent.OnConnectA4(found, admitted, connects);
        case Down => agent.OnDown();
        case Timer(created, submitted) => agent.ReconnectTimer(created, submitted);
      }
      RunSnoc(Init(), events[..delivered], event);
      assert events[..delivered + 1] == events[..delivered] + [event];
      delivered := delivered + 1;
    }
    if delivered > 0 && StartedOnce(events) {
      RunsAreOrderly(events[..delivered]);
      NeverStuck(events[..delivered]);
      RunsExactly(events[..delivered]);
    }
  }
}
