/** websocket_endpoint and wake_agent as they run: one object whose methods update the registries step by step. */
module RelayServer {
  import opened Wrappers
  import opened Relay

  lemma {:induction false} RemoveFirst(bs: seq<BeaconEntry>, c: Conn, i: nat)
    requires i < |bs| && bs[i].socket == c && forall j :: 0 <= j < i ==> bs[j].socket != c
    ensures RemoveBeacon(bs, c) == bs[..i] + bs[i + 1..]
  {
    if i > 0 {
      RemoveFirst(bs[1..], c, i - 1);
      assert bs[..i] + bs[i + 1..] == [bs[0]] + (bs[1..][..i - 1] + bs[1..][i..]);
    }
  }

  lemma {:induction false} RemoveNone(bs: seq<BeaconEntry>, c: Conn)
    requires forall j :: 0 <= j < |bs| ==> bs[j].socket != c
    ensures RemoveBeacon(bs, c) == bs
  {
    if |bs| > 0 {
      RemoveNone(bs[1..], c);
    }
  }

  class Server {
    var open: set<Conn>
    var locals: map<Conn, Locals>
    var outbox: map<Conn, seq<Outgoing>>
    var owed: map<Conn, nat>
    var agents: map<Id, Conn>
    var clients: map<Id, Conn>
    var clientToAgent: map<Id, Id>
    var beacons: seq<BeaconEntry>

    ghost function View(): State
      reads this
    {
      State(open, locals, outbox, owed, agents, clients, clientToAgent, beacons)
    }

    constructor ()
      ensures View() == INITIAL
    {
      open, locals, outbox, owed := {}, map[], map[], map[];
      agents, clients, clientToAgent, beacons := map[], map[], map[], [];
    }

    method Accept(c: Conn)
      modifies this
      ensures View() == Step(old(View()), Connect(c))
    {
      if c !in locals {
        open := open + {c};
        locals := locals[c := Locals(Unregistered, None, None)];
        outbox := outbox[c := []];
        owed := owed[c := 0];
      }
    }

    method Send(d: Conn, m: Outgoing) returns (raised: bool)
      modifies this`outbox
      ensures View() == Post(old(View()), d, m) && (raised <==> d !in open)
    {
      if d in open && d in outbox {
        outbox := outbox[d := outbox[d] + [m]];
      }
      raised := d !in open;
    }

    method SetRole(c: Conn, role: Role)
      requires c in locals
      modifies this`locals
      ensures locals == old(locals)[c := old(locals)[c].(role := role)]
    {
      locals := locals[c := locals[c].(role := role)];
    }

    method RegisterAgentMessage(c: Conn, id: Option<Id>)
      requires c in open && c in locals
      modifies this
      ensures Outcome(View(), false) == HandleRegisterAgent(old(View()), c, id) && c in locals
    {
      locals := locals[c := locals[c].(agentId := id)];
      if !Truthy(id) {
        var _ := Send(c, Error("Missing agent_id"));
        return;
      }
      SetRole(c, Agent);
      agents := agents[id.value := c];
      var _ := Send(c, Registered(Agent));
    }

    method RegisterBeaconMessage(c: Conn, id: Option<Id>, mac: Option<string>)
      requires c in open && c in locals
      modifies this
      ensures Outcome(View(), false) == HandleRegisterBeacon(old(View()), c, id, mac) && c in locals
    {
      locals := locals[c := locals[c].(agentId := id)];
      if !Truthy(id) || !Truthy(mac) {
        var _ := Send(c, Error("Missing agent_id or mac_address"));
        return;
      }
      SetRole(c, Beacon);
      beacons := SetBeacon(beacons, BeaconEntry(id.value, c, mac.value));
      var _ := Send(c, Registered(Beacon));
    }

    method RegisterClientMessage(c: Conn, cid: Option<Id>, target: Option<Id>)
      requires c in open && c in locals
      modifies this
      ensures Outcome(View(), false) == HandleRegisterClient(old(View()), c, cid, target) && c in locals
    {
      locals := locals[c := locals[c].(clientId := cid)];
      if !Truthy(cid) || !Truthy(target) {
        var _ := Send(c, Error("Missing client_id or agent_id"));
        return;
      }
      SetRole(c, Client);
      clients := clients[cid.value := c];
      clientToAgent := clientToAgent[cid.value := target.value];
      if target.value in agents {
        var _ := Send(c, AgentStatus(true));
      } else {
        var _ := Send(c, AgentStatus(false));
      }
    }

    method SignalMessage(c: Conn, dest: Option<Id>, payload: Option<string>) returns (raised: bool)
      requires c in open && c in locals
      modifies this
      ensures Outcome(View(), raised) == HandleSignal(old(View()), c, dest, payload) && c in locals
    {
      raised := false;
      if !Truthy(dest) || !Truthy(payload) {
        return;
      }
      var l := locals[c];
      if l.role == Client {
        if l.clientId.Some? && l.clientId.value in clientToAgent && clientToAgent[l.clientId.value] in agents {
          raised := Send(agents[clientToAgent[l.clientId.value]], SignalFrom(l.clientId, payload.value));
        } else {
          raised := Send(c, Error("Agent is offline"));
        }
      } else if l.role == Agent {
        if dest.value in clients {
          raised := Send(clients[dest.value], SignalFrom(l.agentId, payload.value));
        }
      }
    }

    method PairRequestMessage(c: Conn, m: Incoming) returns (raised: bool)
      requires c in open && c in locals && m.PairRequest?
      modifies this
      ensures Outcome(View(), raised) == HandlePairRequest(old(View()), c, m) && c in locals
    {
      locals := locals[c := locals[c].(clientId := m.clientId)];
      if m.agentId.Some? && m.agentId.value in agents {
        raised := Send(agents[m.agentId.value], PairRequestFrom(m.clientId, m.code, m.pubkey));
      } else {
        raised := Send(c, PairResponseFor(Some("failed"), Some("Agent offline")));
      }
    }

    method Dispatch(c: Conn, m: Incoming) returns (raised: bool)
      requires c in open && c in locals
      modifies this
      ensures Outcome(View(), raised) == Handle(old(View()), c, m) && c in locals
    {
      hide HandleRegisterAgent, HandleRegisterBeacon, HandleRegisterClient, HandleSignal, HandlePairRequest, Post;
      raised := false;
      match m {
        case NotJson => raised := Send(c, Error("Invalid JSON"));
        case NotObject => raised := true;
        case Untyped =>
        case UnknownType =>
        case RegisterAgent(id) => RegisterAgentMessage(c, id);
        case RegisterBeacon(id, mac) => RegisterBeaconMessage(c, id, mac);
        case RegisterClient(cid, target) => RegisterClientMessage(c, cid, target);
        case Signal(dest, payload) => raised := SignalMessage(c, dest, payload);
        case PairRequest(_, _, _, _) => raised := PairRequestMessage(c, m);
        case PairResponse(cid, status, reason) =>
          if cid.Some? && cid.value in clients {
            raised := Send(clients[cid.value], PairResponseFor(status, reason));
          }
      }
    }

    /** One iteration of the receive loop, and the finally block if it raises. */
    method OnMessage(c: Conn, m: Incoming)
      requires c in open && c in locals
      modifies this
      ensures View() == Step(old(View()), Receive(c, m))
    {
      hide Handle, Cleanup;
      var raised := Dispatch(c, m);
      if raised {
        Finally(c);
      }
    }

    method OnDisconnect(c: Conn)
      requires c in open && c in locals
      modifies this
      ensures View() == Step(old(View()), Disconnect(c))
    {
      Finally(c);
    }

    method Finally(c: Conn)
      requires c in locals
      modifies this
      ensures View() == Close(old(View()), c)
    {
      open := open - {c};
      var l := locals[c];
      if l.role == Agent && l.agentId.Some? && l.agentId.value in agents {
        agents := agents - {l.agentId.value};
        NotifyClients(l.agentId.value);
      } else if l.role == Client && l.clientId.Some? && l.clientId.value in clients {
        clients := clients - {l.clientId.value};
        if l.clientId.value in clientToAgent {
          clientToAgent := clientToAgent - {l.clientId.value};
        }
      } else if l.role == Beacon {
        DropBeacon(c);
      }
    }

    /** Schedules the notice of one mapping entry: the socket is looked up now, the task sends later. */
    method NotifyOne(agentId: Id, cid: Id)
      requires cid in clientToAgent
      modifies this`owed
      ensures owed.Keys == old(owed.Keys)
      ensures forall d :: d in owed ==> owed[d] == old(owed)[d] + Notices(old(View()), agentId, cid, d)
    {
      if clientToAgent[cid] == agentId && cid in clients {
        var d := clients[cid];
        if d in owed {
          owed := owed[d := owed[d] + 1];
        }
      }
    }

    /** The loop over a copy of the client-to-agent mapping, in any order. */
    method NotifyClients(agentId: Id)
      modifies this`owed
      ensures View() == NotifyOffline(old(View()), agentId)
    {
      hide Scheduled, WatchersAt, NotifyOffline;
      ghost var before := View();
      var todo := clientToAgent.Keys;
      ghost var visited: set<Id> := {};
      NoneScheduled(before, agentId);
      while todo != {}
        invariant todo + visited == clientToAgent.Keys && todo !! visited
        invariant View() == before.(owed := owed) && owed.Keys == before.owed.Keys
        invariant forall d :: d in owed ==> owed[d] == Scheduled(before, agentId, visited, d)
        decreases todo
      {
        var cid :| cid in todo;
        VisitOne(before, agentId, visited, cid);
        NotifyOne(agentId, cid);
        todo := todo - {cid};
        visited := visited + {cid};
      }
      AllScheduled(before, agentId, visited, owed);
    }

    /** One scheduled task runs; a closed socket makes it fail unnoticed. */
    method RunTask(c: Conn)
      requires c in owed && owed[c] > 0
      modifies this
      ensures View() == Step(old(View()), SendNotice(c))
    {
      owed := owed[c := owed[c] - 1];
      var _ := Send(c, AgentStatus(false));
    }

    method DropBeacon(c: Conn)
      modifies this`beacons
      ensures beacons == RemoveBeacon(old(beacons), c)
    {
      var i := 0;
      while i < |beacons|
        invariant 0 <= i <= |beacons| && beacons == old(beacons)
        invariant forall j :: 0 <= j < i ==> beacons[j].socket != c
      {
        if beacons[i].socket == c {
          RemoveFirst(beacons, c, i);
          beacons := beacons[..i] + beacons[i + 1..];
          return;
        }
        i := i + 1;
      }
      RemoveNone(beacons, c);
    }

    method WakeAgent(id: Id) returns (result: WakeResult)
      modifies this
      ensures View() == Step(old(View()), Wake(id)) && result == WakeOutcome(old(View()), id)
    {
      var b := FindBeacon(beacons, id);
      if b.None? {
        return NoBeacon;
      }
      var raised := Send(b.value.socket, WakeUp(b.value.mac));
      result := if raised then Unreachable else Forwarded;
    }
  }

  /** What d is owed once the notices for the visited client ids are scheduled. */
  function Scheduled(s: State, agentId: Id, visited: set<Id>, d: Conn): nat
    requires d in s.owed
  {
    s.owed[d] + |WatchersAt(s, agentId, d) * visited|
  }

  /** The notices that visiting one client id schedules for d. */
  function Notices(s: State, agentId: Id, cid: Id, d: Conn): nat
    requires cid in s.clientToAgent
  {
    if s.clientToAgent[cid] == agentId && cid in s.clients && s.clients[cid] == d then 1 else 0
  }

  lemma VisitOne(s: State, agentId: Id, visited: set<Id>, cid: Id)
    requires cid in s.clientToAgent && cid !in visited
    ensures forall d :: d in s.owed ==>
              Scheduled(s, agentId, visited + {cid}, d)
              == Scheduled(s, agentId, visited, d) + Notices(s, agentId, cid, d)
  {
    forall d | d in s.owed
      ensures Scheduled(s, agentId, visited + {cid}, d)
           == Scheduled(s, agentId, visited, d) + Notices(s, agentId, cid, d)
    {
      var w := WatchersAt(s, agentId, d);
      if cid in w {
        assert w * (visited + {cid}) == w * visited + {cid};
      } else {
        assert w * (visited + {cid}) == w * visited;
      }
    }
  }

  lemma NoneScheduled(s: State, agentId: Id)
    ensures forall d :: d in s.owed ==> Scheduled(s, agentId, {}, d) == s.owed[d]
  {
    assert forall d :: WatchersAt(s, agentId, d) * {} == {};
  }

  lemma AllScheduled(s: State, agentId: Id, visited: set<Id>, owed: map<Conn, nat>)
    requires visited == s.clientToAgent.Keys && owed.Keys == s.owed.Keys
    requires forall d :: d in owed ==> owed[d] == Scheduled(s, agentId, visited, d)
    ensures s.(owed := owed) == NotifyOffline(s, agentId)
  {
    assert forall d :: WatchersAt(s, agentId, d) * visited == WatchersAt(s, agentId, d);
    assert owed == NotifyOffline(s, agentId).owed;
  }
}
