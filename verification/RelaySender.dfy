/** The names under which the relay forwards signals. */
module RelaySender {
  import opened Wrappers
  import opened Relay
  import opened RelayRegistry
  import opened RelayUnique
  import opened RelayDelivery

  /** What a message makes of its sender's locals. */
  function LocalsAfter(l: Locals, m: Incoming): Locals {
    match m
    case RegisterAgent(id) => Locals(if Truthy(id) then Agent else l.role, l.clientId, id)
    case RegisterBeacon(id, mac) => Locals(if Truthy(id) && Truthy(mac) then Beacon else l.role, l.clientId, id)
    case RegisterClient(cid, target) => Locals(if Truthy(cid) && Truthy(target) then Client else l.role, cid, l.agentId)
    case PairRequest(_, cid, _, _) => l.(clientId := cid)
    case _ => l
  }

  lemma AgentLocals(s: State, c: Conn, id: Option<Id>)
    requires c in s.locals
    ensures HandleRegisterAgent(s, c, id).state.locals == s.locals[c := LocalsAfter(s.locals[c], RegisterAgent(id))]
  {
    hide Post;
  }

  lemma BeaconLocals(s: State, c: Conn, id: Option<Id>, mac: Option<string>)
    requires c in s.locals
    ensures HandleRegisterBeacon(s, c, id, mac).state.locals
         == s.locals[c := LocalsAfter(s.locals[c], RegisterBeacon(id, mac))]
  {
    hide Post, SetBeacon;
  }

  lemma ClientLocals(s: State, c: Conn, cid: Option<Id>, target: Option<Id>)
    requires c in s.locals
    ensures HandleRegisterClient(s, c, cid, target).state.locals
         == s.locals[c := LocalsAfter(s.locals[c], RegisterClient(cid, target))]
  {
    hide Post;
  }

  lemma HandleLocals(s: State, c: Conn, m: Incoming)
    requires c in s.locals
    ensures Handle(s, c, m).state.locals == s.locals[c := LocalsAfter(s.locals[c], m)]
  {
    hide Post, HandleRegisterAgent, HandleRegisterBeacon, HandleRegisterClient;
    match m
    case RegisterAgent(id) => AgentLocals(s, c, id);
    case RegisterBeacon(id, mac) => BeaconLocals(s, c, id, mac);
    case RegisterClient(cid, target) => ClientLocals(s, c, cid, target);
    case _ => assert s.locals == s.locals[c := s.locals[c]];
  }

  lemma CloseLocals(s: State, c: Conn)
    requires c in s.locals
    ensures Close(s, c).locals == s.locals
  {
    hide NotifyOffline, RemoveBeacon;
  }

  /** Only a connection's own messages change its locals. */
  lemma StepLocals(s: State, e: Event, c: Conn)
    requires c in Step(s, e).locals
    ensures c in s.locals || e == Connect(c)
    ensures c in s.locals ==>
              Step(s, e).locals[c] ==
              if e.Receive? && e.conn == c && c in s.open then LocalsAfter(s.locals[c], e.message) else s.locals[c]
    ensures c !in s.locals ==> Step(s, e).locals[c].role == Unregistered
  {
    hide Post, Handle, Close, LocalsAfter, FindBeacon;
    match e
    case Connect(d) =>
    case Receive(d, m) =>
      if d in s.open && d in s.locals {
        HandleLocals(s, d, m);
        CloseLocals(Handle(s, d, m).state, d);
      }
    case Disconnect(d) =>
      if d in s.open && d in s.locals {
        CloseLocals(s, d);
      }
    case Wake(id) =>
    case SendNotice(d) =>
  }

  /** The event is c's complete registration in this role and under this name. */
  predicate RegisteredBy(e: Event, c: Conn, l: Locals) {
    e.Receive? && e.conn == c && SenderName(l).Some? && RegisteredAs(e.message) == Some((l.role, SenderName(l).value))
  }

  lemma DisciplinedLocals(l: Locals, m: Incoming, c: Conn)
    requires DisciplinedMessage(l, m) && LocalsAfter(l, m).role != Unregistered
    ensures RegisteredBy(Receive(c, m), c, LocalsAfter(l, m))
            || (l.role == LocalsAfter(l, m).role && SenderName(l) == SenderName(LocalsAfter(l, m)))
  {
  }

  /** In a disciplined run the name in a registered connection's locals is the id it registered under. */
  lemma {:induction false} NamesAreRegistered(run: seq<Event>, c: Conn)
    requires Disciplined(run) && c in After(run).locals && After(run).locals[c].role != Unregistered
    ensures exists j :: 0 <= j < |run| && RegisteredBy(run[j], c, After(run).locals[c])
  {
    hide Step, LocalsAfter, RegisteredBy, Disciplined, DisciplinedMessage;
    if |run| == 0 {
      NobodyThere();
    } else {
      var init, e := run[..|run| - 1], run[|run| - 1];
      var s, l := After(init), After(run).locals[c];
      DisciplinedPrefix(run);
      StepLocals(s, e, c);
      RunSound(init);
      var own := e.Receive? && e.conn == c && c in s.open;
      if own {
        DisciplinedLocals(s.locals[c], e.message, c);
      }
      if !(own && RegisteredBy(e, c, l)) {
        NamesAreRegistered(init, c);
        var j :| 0 <= j < |init| && RegisteredBy(init[j], c, s.locals[c]);
        SameName(init[j], c, s.locals[c], l);
        assert RegisteredBy(run[j], c, l);
      }
    }
  }

  lemma NobodyThere()
    ensures After([]).locals == map[]
  {
  }

  lemma SameName(e: Event, c: Conn, l: Locals, l': Locals)
    requires RegisteredBy(e, c, l) && l.role == l'.role && SenderName(l) == SenderName(l')
    ensures RegisteredBy(e, c, l')
  {
  }

  /** The event is c's registration as a client or an agent of this name. */
  predicate RegistersSender(e: Event, c: Conn, name: Id) {
    && e.Receive? && e.conn == c
    && (RegisteredAs(e.message) == Some((Client, name)) || RegisteredAs(e.message) == Some((Agent, name)))
  }

  /** The id is registered to the connection. */
  predicate RegisteredTo(s: State, c: Conn, id: Id) {
    (id in s.clients && s.clients[id] == c) || (id in s.agents && s.agents[id] == c)
  }

  lemma ForwardedSender(s: State, e: Event, d: Conn)
    requires ForwardsTo(s, e, d)
    ensures s.locals[e.conn].role in {Client, Agent}
    ensures SenderName(s.locals[e.conn]) == Outbound(s, e.conn, e.message).sender
  {
  }

  lemma SenderListed(s: State, c: Conn)
    requires AllListed(s) && c in s.open && c in s.locals && s.locals[c].role in {Client, Agent}
    requires SenderName(s.locals[c]).Some?
    ensures RegisteredTo(s, c, SenderName(s.locals[c]).value)
  {
    assert ClientListed(s, c) && AgentListed(s, c);
  }

  /**
   * In a disciplined run every signal a step delivers carries the id under which its sender registered; with unique ids
   * that id is registered to the sender now.
   */
  lemma SignalsAreNamed(run: seq<Event>, e: Event, d: Conn, x: Relayed)
    requires Disciplined(run) && d in After(run).outbox && x in Delivered(After(run), e, d)
    ensures e.Receive? && x.sender.Some?
    ensures exists j :: 0 <= j < |run| && RegistersSender(run[j], e.conn, x.sender.value)
    ensures Unique(run) ==> RegisteredTo(After(run), e.conn, x.sender.value)
  {
    hide Step, After, Disciplined, Unique, Delivered, Outbound, ForwardsTo, SenderName, AllListed, Named, Sound;
    var s := After(run);
    RunSound(run);
    StepDelivers(s, e, d);
    assert ForwardsTo(s, e, d);
    SenderConnected(s, e, d);
    ForwardedSender(s, e, d);
    NamesAreRegistered(run, e.conn);
    var j :| 0 <= j < |run| && RegisteredBy(run[j], e.conn, s.locals[e.conn]);
    assert RegistersSender(run[j], e.conn, x.sender.value);
    if Unique(run) {
      RegistriesAreExactIff(run);
      assert Exact(s) by {
        assert run[..|run|] == run;
      }
      SenderListed(s, e.conn);
    }
  }

  lemma SenderConnected(s: State, e: Event, d: Conn)
    requires ForwardsTo(s, e, d)
    ensures e.Receive? && e.conn in s.open && e.conn in s.locals && IsSignal(e.message)
  {
  }

  // ---- Where signals go ----

  lemma StepTargets(s: State, e: Event, id: Id)
    requires id in Step(s, e).clientToAgent
    requires !(e.Receive? && e.conn in s.open && RegistersClient(e.message) && e.message.clientId.value == id)
    ensures id in s.clientToAgent && s.clientToAgent[id] == Step(s, e).clientToAgent[id]
  {
    hide Post, Handle, Close, FindBeacon, RegistersClient;
    match e
    case Receive(c, m) =>
      if c in s.open && c in s.locals {
        HandleTargets(s, c, m, id);
        CloseTargets(Handle(s, c, m).state, c, id);
      }
    case Disconnect(c) =>
      if c in s.locals {
        CloseTargets(s, c, id);
      }
    case _ =>
  }

  lemma HandleTargets(s: State, c: Conn, m: Incoming, id: Id)
    requires c in s.locals && c in s.open && !(RegistersClient(m) && m.clientId.value == id)
    ensures var t := Handle(s, c, m).state;
            && c in t.locals
            && (id in t.clientToAgent ==> id in s.clientToAgent && t.clientToAgent[id] == s.clientToAgent[id])
  {
    hide Handle, Post;
    if RegistersClient(m) {
      RegistersQuietly(s, c, m);
    } else {
      QuietRegistries(s, c, m);
    }
  }

  lemma CloseTargets(s: State, c: Conn, id: Id)
    requires c in s.locals
    ensures id in Close(s, c).clientToAgent ==>
              id in s.clientToAgent && s.clientToAgent[id] == Close(s, c).clientToAgent[id]
  {
    hide RemoveBeacon, NotifyOffline;
  }

  /** In every run a client entry and its target come from one registration that its socket sent. */
  lemma {:induction false} TargetStems(run: seq<Event>, id: Id)
    requires id in After(run).clients
    ensures id in After(run).clientToAgent
    ensures exists j :: 0 <= j < |run| &&
              run[j] == Receive(After(run).clients[id], RegisterClient(Some(id), Some(After(run).clientToAgent[id])))
  {
    hide Step;
    RunSound(run);
    var init, e := run[..|run| - 1], run[|run| - 1];
    var s := After(init);
    RunSound(init);
    if e.Receive? && e.conn in s.open && RegistersClient(e.message) && e.message.clientId.value == id {
      Registered(s, e.conn, e.message);
      assert run[|run| - 1]
          == Receive(After(run).clients[id], RegisterClient(Some(id), Some(After(run).clientToAgent[id])));
    } else {
      StepClients(s, e, id);
      StepTargets(s, e, id);
      TargetStems(init, id);
      var j :| 0 <= j < |init|
               && init[j] == Receive(s.clients[id], RegisterClient(Some(id), Some(s.clientToAgent[id])));
      assert run[j] == init[j];
    }
  }

  lemma Registered(s: State, c: Conn, m: Incoming)
    requires c in s.open && c in s.locals && RegistersClient(m)
    ensures var (t, id) := (Step(s, Receive(c, m)), m.clientId.value);
            && id in t.clients && t.clients[id] == c
            && id in t.clientToAgent && t.clientToAgent[id] == m.agentId.value
  {
    hide Close, Post;
  }

  /**
   * In every run a client's signal is delivered only to the agent that the client entry of its name was registered for,
   * whatever destination it gives, and an agent's only to the client it names.
   */
  lemma SignalsReachTarget(run: seq<Event>, e: Event, d: Conn, x: Relayed)
    requires d in After(run).outbox && x in Delivered(After(run), e, d)
    ensures var s := After(run);
            && e.Receive? && e.message.Signal? && e.conn in s.locals && x.payload == e.message.payload.value
            && (s.locals[e.conn].role == Client ==>
                  exists j, a :: 0 <= j < |run| && Targets(run[j], x.sender, a) && a in s.agents && s.agents[a] == d)
            && (s.locals[e.conn].role != Client ==>
                  e.message.dest.Some? && e.message.dest.value in s.clients && s.clients[e.message.dest.value] == d)
  {
    hide Step, After, Delivered, Sound;
    var s := After(run);
    RunSound(run);
    StepDelivers(s, e, d);
    if s.locals[e.conn].role == Client {
      var id := s.locals[e.conn].clientId.value;
      assert id in s.clients by {
        ClientKeys(s);
      }
      TargetStems(run, id);
      var j :| 0 <= j < |run| && run[j] == Receive(s.clients[id], RegisterClient(Some(id), Some(s.clientToAgent[id])));
      assert Targets(run[j], x.sender, s.clientToAgent[id]);
    }
  }

  lemma ClientKeys(s: State)
    requires Sound(s)
    ensures s.clients.Keys == s.clientToAgent.Keys
  {
  }

  /** The event registers a client of this name for agent a. */
  predicate Targets(e: Event, name: Option<Id>, a: Id) {
    e.Receive? && e.message == RegisterClient(name, Some(a))
  }
}
