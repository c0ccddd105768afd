/** What a connection is told: the answers to its messages, and an exact account of its status notices. */
module RelayStatus {
  import opened Wrappers
  import opened Relay
  import opened RelayRegistry
  import opened RelayUnique
  import opened RelayDelivery

  // ---- Answers ----

  /** A complete client registration is answered with whether the agent is registered; nobody else is told anything. */
  lemma ClientAnswer(s: State, c: Conn, m: Incoming)
    requires Sound(s) && c in s.open && RegistersClient(m)
    ensures Step(s, Receive(c, m)).outbox == s.outbox[c := s.outbox[c] + [AgentStatus(m.agentId.value in s.agents)]]
  {
    hide Close, DistinctBeacons;
  }

  /** Other registrations are confirmed, or answered with what is missing. */
  lemma RegistrationAnswers(s: State, c: Conn, m: Incoming)
    requires Sound(s) && c in s.open
    ensures var t := Step(s, Receive(c, m));
            && (m.RegisterAgent? && Truthy(m.agentId) ==>
                  t.outbox == s.outbox[c := s.outbox[c] + [Registered(Agent)]])
            && (m.RegisterAgent? && !Truthy(m.agentId) ==>
                  t.outbox == s.outbox[c := s.outbox[c] + [Error("Missing agent_id")]])
            && (m.RegisterBeacon? && Truthy(m.agentId) && Truthy(m.mac) ==>
                  t.outbox == s.outbox[c := s.outbox[c] + [Registered(Beacon)]])
            && (m.RegisterBeacon? && !(Truthy(m.agentId) && Truthy(m.mac)) ==>
                  t.outbox == s.outbox[c := s.outbox[c] + [Error("Missing agent_id or mac_address")]])
            && (m.RegisterClient? && !RegistersClient(m) ==>
                  t.outbox == s.outbox[c := s.outbox[c] + [Error("Missing client_id or agent_id")]])
            && (m.NotJson? ==> t.outbox == s.outbox[c := s.outbox[c] + [Error("Invalid JSON")]])
  {
    hide Close, DistinctBeacons, SetBeacon;
  }

  /** A client whose agent is not registered is told so for each signal; others' unroutable signals are dropped. */
  lemma UnroutedSignal(s: State, c: Conn, m: Incoming)
    requires Sound(s) && c in s.open && IsSignal(m) && forall d :: !RoutesTo(s, c, m.dest.value, d)
    ensures Step(s, Receive(c, m)).outbox ==
            if s.locals[c].role == Client then s.outbox[c := s.outbox[c] + [Error("Agent is offline")]] else s.outbox
  {
    hide Close, DistinctBeacons;
    RouteExists(s, c, m.dest.value);
  }

  lemma RouteExists(s: State, c: Conn, dest: Id)
    requires c in s.locals
    ensures var l := s.locals[c];
            if l.role == Client then
              l.clientId.Some? && l.clientId.value in s.clientToAgent
              && s.clientToAgent[l.clientId.value] in s.agents ==>
                exists d :: RoutesTo(s, c, dest, d)
            else l.role == Agent && dest in s.clients ==> exists d :: RoutesTo(s, c, dest, d)
  {
    var l := s.locals[c];
    if l.role == Client {
      if l.clientId.Some? && l.clientId.value in s.clientToAgent && s.clientToAgent[l.clientId.value] in s.agents {
        assert RoutesTo(s, c, dest, s.agents[s.clientToAgent[l.clientId.value]]);
      }
    } else if l.role == Agent && dest in s.clients {
      assert RoutesTo(s, c, dest, s.clients[dest]);
    }
  }

  /** A signal that can be routed goes to that one connection, under the sender's name; a closed one gets nothing. */
  lemma RoutedSignal(s: State, c: Conn, m: Incoming, d: Conn)
    requires Sound(s) && c in s.open && IsSignal(m) && RoutesTo(s, c, m.dest.value, d)
    requires d in s.open ==> d in s.outbox
    ensures Step(s, Receive(c, m)).outbox ==
            if d in s.open then s.outbox[d := s.outbox[d] + [SignalFrom(SenderName(s.locals[c]), m.payload.value)]]
            else s.outbox
  {
    hide Close, DistinctBeacons;
    if d !in s.open {
      CloseMail(s, c);
    }
  }

  /** A pair request goes to the agent it names, or is refused when that agent is away. */
  lemma PairRequestAnswer(s: State, c: Conn, m: Incoming)
    requires Sound(s) && c in s.open && m.PairRequest?
    ensures var t := Step(s, Receive(c, m));
            && (!(m.agentId.Some? && m.agentId.value in s.agents) ==>
                  t.outbox == s.outbox[c := s.outbox[c] + [PairResponseFor(Some("failed"), Some("Agent offline"))]])
            && (m.agentId.Some? && m.agentId.value in s.agents ==>
                  t.outbox == Put(s, s.agents[m.agentId.value], PairRequestFrom(m.clientId, m.code, m.pubkey)))
  {
    hide Close, DistinctBeacons;
    var u := Handle(s, c, m).state;
    assert c in u.locals;
    CloseMail(u, c);
  }

  /** A pair response goes to the client it names, if that client is registered. */
  lemma PairResponseAnswer(s: State, c: Conn, m: Incoming)
    requires Sound(s) && c in s.open && m.PairResponse?
    ensures Step(s, Receive(c, m)).outbox ==
            if m.clientId.Some? && m.clientId.value in s.clients
            then Put(s, s.clients[m.clientId.value], PairResponseFor(m.status, m.reason))
            else s.outbox
  {
    hide Close, DistinctBeacons;
    var u := Handle(s, c, m).state;
    assert c in u.locals;
    CloseMail(u, c);
  }

  /** The mailboxes with one more message for an open connection. */
  function Put(s: State, d: Conn, x: Outgoing): map<Conn, seq<Outgoing>> {
    if d in s.open && d in s.outbox then s.outbox[d := s.outbox[d] + [x]] else s.outbox
  }

  /** Everything else that is received, and a disconnect, tells nobody anything. */
  lemma NoAnswer(s: State, c: Conn, m: Incoming)
    requires Sound(s) && c in s.open
    requires m in {NotObject, Untyped, UnknownType} || (m.Signal? && !(Truthy(m.dest) && Truthy(m.payload)))
    ensures Step(s, Receive(c, m)).outbox == s.outbox && Step(s, Disconnect(c)).outbox == s.outbox
  {
    hide Close, DistinctBeacons;
    CloseMail(s, c);
  }

  // ---- Scheduled notices ----

  /** The client ids of socket d whose agent is registered in s and no longer in t. */
  function Bereft(s: State, t: State, d: Conn): set<Id> {
    set i | i in s.clients && i in s.clientToAgent && s.clients[i] == d
            && s.clientToAgent[i] in s.agents && s.clientToAgent[i] !in t.agents
  }

  /** From s to t, d was owed one more notice for each of its clients whose agent went. */
  predicate OwedForLosses(s: State, t: State, d: Conn) {
    d in s.owed && d in t.owed && t.owed[d] == s.owed[d] + |Bereft(s, t, d)|
  }

  /** Closing schedules for each socket one notice for each of its clients whose agent goes. */
  lemma CloseOwed(s: State, c: Conn, d: Conn)
    requires Sound(s) && c in s.open && d in s.owed
    ensures OwedForLosses(s, Close(s, c), d)
  {
    hide RemoveBeacon, DistinctBeacons;
    var t := Close(s, c);
    var l := s.locals[c];
    if l.role == Agent && l.agentId.Some? && l.agentId.value in s.agents {
      var v := s.(open := s.open - {c}).(agents := s.agents - {l.agentId.value});
      assert Bereft(s, t, d) == WatchersAt(v, l.agentId.value, d);
    } else {
      assert Bereft(s, t, d) == {};
    }
  }

  /**
   * A received message or a disconnect schedules for each socket exactly one notice for each of its clients whose agent
   * was registered before and is not afterwards.
   */
  lemma OwedExactly(s: State, e: Event, d: Conn)
    requires Sound(s) && d in s.owed && (e.Receive? || e.Disconnect?)
    ensures OwedForLosses(s, Step(s, e), d)
  {
    hide Handle, Close, DistinctBeacons;
    var t := Step(s, e);
    if e.conn !in s.open {
      assert Bereft(s, t, d) == {};
    } else if e.Disconnect? {
      CloseOwed(s, e.conn, d);
    } else {
      HandleSound(s, e.conn, e.message);
      HandleOwes(s, e.conn, e.message);
      var o := Handle(s, e.conn, e.message);
      if o.raised {
        CloseOwed(o.state, e.conn, d);
        assert Bereft(s, t, d) == Bereft(o.state, t, d);
      } else {
        assert Bereft(s, t, d) == {};
      }
    }
  }

  /** A handler removes no agent and schedules nothing, and one that raises changes no agent or client entry. */
  lemma HandleOwes(s: State, c: Conn, m: Incoming)
    requires c in s.open && c in s.locals
    ensures var o := Handle(s, c, m);
            && s.agents.Keys <= o.state.agents.Keys && o.state.owed == s.owed
            && (o.raised ==> o.state.agents == s.agents && o.state.clients == s.clients
                             && o.state.clientToAgent == s.clientToAgent)
  {
    hide Post, HandleRegisterAgent, HandleRegisterBeacon, HandleRegisterClient, HandleSignal, HandlePairRequest,
         HandlePairResponse;
    match m
    case RegisterAgent(id) => AgentOwes(s, c, id);
    case RegisterBeacon(id, mac) => BeaconOwes(s, c, id, mac);
    case RegisterClient(cid, target) => ClientOwes(s, c, cid, target);
    case _ => RoutingOwes(s, c, m);
  }

  lemma AgentOwes(s: State, c: Conn, id: Option<Id>)
    requires c in s.locals
    ensures var o := HandleRegisterAgent(s, c, id);
            s.agents.Keys <= o.state.agents.Keys && o.state.owed == s.owed && !o.raised
  {
    hide Post;
  }

  lemma BeaconOwes(s: State, c: Conn, id: Option<Id>, mac: Option<string>)
    requires c in s.locals
    ensures var o := HandleRegisterBeacon(s, c, id, mac);
            s.agents.Keys <= o.state.agents.Keys && o.state.owed == s.owed && !o.raised
  {
    QuietBeacon(s, c, id, mac);
    hide Post, SetBeacon, Truthy, SetLocals;
  }

  lemma ClientOwes(s: State, c: Conn, cid: Option<Id>, target: Option<Id>)
    requires c in s.locals
    ensures var o := HandleRegisterClient(s, c, cid, target);
            o.state.agents == s.agents && o.state.owed == s.owed && !o.raised
  {
    hide Post;
  }

  /** Routing changes no registry. */
  predicate SameRegistries(s: State, t: State) {
    t.agents == s.agents && t.clients == s.clients && t.clientToAgent == s.clientToAgent && t.owed == s.owed
  }

  lemma RoutingOwes(s: State, c: Conn, m: Incoming)
    requires c in s.locals
    ensures m.Signal? ==> SameRegistries(s, HandleSignal(s, c, m.dest, m.payload).state)
    ensures m.PairRequest? ==> SameRegistries(s, HandlePairRequest(s, c, m).state)
    ensures m.PairResponse? ==> SameRegistries(s, HandlePairResponse(s, m).state)
  {
    hide Post;
  }

  // ---- The account of a run ----

  function Count(mail: seq<Outgoing>, x: Outgoing): nat {
    if |mail| == 0 then 0 else Count(mail[..|mail| - 1], x) + if mail[|mail| - 1] == x then 1 else 0
  }

  lemma CountAppend(mail: seq<Outgoing>, y: Outgoing, x: Outgoing)
    ensures Count(mail + [y], x) == Count(mail, x) + if y == x then 1 else 0
  {
    assert (mail + [y])[..|mail|] == mail;
  }

  /** The event is a complete client registration by d while its agent is registered, or while it is not. */
  predicate RegistersWhile(s: State, e: Event, d: Conn, present: bool) {
    && e.Receive? && e.conn == d && d in s.open && RegistersClient(e.message)
    && (e.message.agentId.value in s.agents <==> present)
  }

  /** How many complete client registrations d sent while their agent was registered, or was not. */
  function Registrations(run: seq<Event>, d: Conn, present: bool): nat {
    if |run| == 0 then 0 else
      var init := run[..|run| - 1];
      Registrations(init, d, present) + if RegistersWhile(After(init), run[|run| - 1], d, present) then 1 else 0
  }

  /** How often the agent of one of d's clients was unregistered while d was open. */
  function Losses(run: seq<Event>, d: Conn): nat {
    if |run| == 0 then 0 else
      var init, e := run[..|run| - 1], run[|run| - 1];
      Losses(init, d)
      + if d in After(init).open && (e.Receive? || e.Disconnect?) then |Bereft(After(init), After(run), d)| else 0
  }

  /** The status notices that d has been sent, and is owed, at state s. */
  predicate Account(s: State, d: Conn, online: nat, offline: nat) {
    && d in s.outbox && d in s.owed
    && Count(s.outbox[d], AgentStatus(true)) == online
    && Count(s.outbox[d], AgentStatus(false)) + s.owed[d] == offline
  }

  /**
   * In every run the notices of an open connection are exactly accounted for: it was told "online" once for each of its
   * registrations whose agent was there, and was or will be told "offline" once for each registration whose agent was
   * not and once whenever the agent of one of its clients was unregistered.
   */
  lemma {:induction false} NoticesAccounted(run: seq<Event>, d: Conn)
    requires d in After(run).open
    ensures Account(After(run), d, Registrations(run, d, true), Registrations(run, d, false) + Losses(run, d))
  {
    hide Step, After, Account, RegistersWhile, Bereft;
    if |run| == 0 {
      NobodyOpen();
    } else {
      var init, e := run[..|run| - 1], run[|run| - 1];
      var s := After(init);
      assert After(run) == Step(s, e) by {
        LastStep(run);
      }
      RunSound(init);
      if d in s.open {
        NoticesAccounted(init, d);
        StepAccount(s, e, d, Registrations(init, d, true), Registrations(init, d, false) + Losses(init, d));
      } else {
        NewlyOpen(s, e, d);
        NeverOpen(init, d);
      }
    }
  }

  lemma LastStep(run: seq<Event>)
    requires |run| > 0
    ensures After(run) == Step(After(run[..|run| - 1]), run[|run| - 1])
  {
  }

  lemma NobodyOpen()
    ensures After([]).open == {}
  {
  }

  /** A connection opens once, with nothing in its mailbox and nothing owed. */
  lemma NewlyOpen(s: State, e: Event, d: Conn)
    requires Sound(s) && d !in s.open
    ensures d in Step(s, e).open ==> d !in s.locals && e == Connect(d) && Account(Step(s, e), d, 0, 0)
    ensures !RegistersWhile(s, e, d, true) && !RegistersWhile(s, e, d, false)
  {
    hide Handle, Close, DistinctBeacons, FindBeacon, Count, RegistersClient;
    if (e.Receive? || e.Disconnect?) && e.conn in s.open {
      if e.Receive? {
        HandleSound(s, e.conn, e.message);
        CloseOpen(Handle(s, e.conn, e.message).state, e.conn);
      }
      CloseOpen(s, e.conn);
    }
    CountNothing();
  }

  lemma CountNothing()
    ensures forall x :: Count([], x) == 0
  {
  }

  lemma CloseOpen(s: State, c: Conn)
    requires c in s.locals
    ensures Close(s, c).open == s.open - {c} && Close(s, c).locals == s.locals
  {
    hide NotifyOffline, RemoveBeacon;
  }

  lemma {:induction false} NeverOpen(run: seq<Event>, d: Conn)
    requires d !in After(run).locals
    ensures Registrations(run, d, true) == Registrations(run, d, false) == Losses(run, d) == 0
  {
    hide Step, Bereft;
    if |run| > 0 {
      var init := run[..|run| - 1];
      RunSound(init);
      LocalsGrow(After(init), run[|run| - 1]);
      NeverOpen(init, d);
    }
  }

  lemma LocalsGrow(s: State, e: Event)
    requires Sound(s)
    ensures s.locals.Keys <= Step(s, e).locals.Keys
  {
    hide Handle, Close, DistinctBeacons, FindBeacon;
    if (e.Receive? || e.Disconnect?) && e.conn in s.open {
      if e.Receive? {
        HandleSound(s, e.conn, e.message);
        CloseOpen(Handle(s, e.conn, e.message).state, e.conn);
      }
      CloseOpen(s, e.conn);
    }
  }

  /** The mailbox of d has so many notices of this kind more. */
  predicate NoticesAdded(s: State, t: State, d: Conn, online: bool, n: nat) {
    && d in s.outbox && d in t.outbox
    && Count(t.outbox[d], AgentStatus(online)) == Count(s.outbox[d], AgentStatus(online)) + n
  }

  lemma SameMail(s: State, t: State, d: Conn, online: bool)
    requires d in s.outbox && t.outbox == s.outbox
    ensures NoticesAdded(s, t, d, online, 0)
  {
  }

  lemma QuietHandler(s: State, c: Conn, m: Incoming, d: Conn, online: bool)
    requires Sound(s) && c in s.open && !RegistersClient(m) && d in s.outbox
    ensures NoticesAdded(s, Handle(s, c, m).state, d, online, 0)
  {
    hide Handle, DistinctBeacons, Count, RoutesTo;
    var sent, r, x := true, c, Error("");
    if IsRegistration(m) {
      x := RegistrationPost(s, c, m);
    } else {
      sent, r, x := RoutingPost(s, c, m);
    }
    if sent {
      CountAppend(s.outbox[r], x, AgentStatus(online));
    }
  }

  lemma CloseMail(s: State, c: Conn)
    requires c in s.locals
    ensures Close(s, c).outbox == s.outbox
  {
    hide NotifyOffline, RemoveBeacon;
  }

  /** A received message adds a status notice exactly as the answer to its sender's complete client registration. */
  lemma ReceiveNotices(s: State, c: Conn, m: Incoming, d: Conn, online: bool)
    requires Sound(s) && d in s.outbox
    ensures NoticesAdded(s, Step(s, Receive(c, m)), d, online,
                         if RegistersWhile(s, Receive(c, m), d, online) then 1 else 0)
  {
    hide Handle, Close, DistinctBeacons, Count;
    if c !in s.open {
      SameMail(s, s, d, online);
    } else if RegistersClient(m) {
      ClientAnswer(s, c, m);
      CountAppend(s.outbox[c], AgentStatus(m.agentId.value in s.agents), AgentStatus(online));
    } else {
      QuietHandler(s, c, m, d, online);
      HandleSound(s, c, m);
      CloseMail(Handle(s, c, m).state, c);
    }
  }

  lemma OtherNotices(s: State, e: Event, d: Conn, online: bool)
    requires Sound(s) && d in s.open && (e.Connect? || e.Disconnect? || e.Wake?)
    ensures NoticesAdded(s, Step(s, e), d, online, 0)
  {
    hide Close, DistinctBeacons, FindBeacon, Count;
    if e.Disconnect? && e.conn in s.open {
      CloseMail(s, e.conn);
    }
    if e.Wake? && FindBeacon(s.beacons, e.agentId).Some? {
      var b := FindBeacon(s.beacons, e.agentId).value;
      if b.socket in s.outbox {
        CountAppend(s.outbox[b.socket], WakeUp(b.mac), AgentStatus(online));
      }
    }
  }

  lemma OtherOwed(s: State, e: Event, d: Conn)
    requires Sound(s) && d in s.open && (e.Connect? || e.Wake?)
    ensures d in s.owed && d in Step(s, e).owed && Step(s, e).owed[d] == s.owed[d]
  {
    hide FindBeacon, DistinctBeacons;
  }

  lemma SentNotice(s: State, c: Conn, d: Conn, online: nat, offline: nat)
    requires Sound(s) && d in s.open && Account(s, d, online, offline)
    ensures Account(Step(s, SendNotice(c)), d, online, offline)
  {
    hide DistinctBeacons, Count;
    if c in s.owed && s.owed[c] > 0 {
      CountAppend(s.outbox[c], AgentStatus(false), AgentStatus(false));
      CountAppend(s.outbox[c], AgentStatus(false), AgentStatus(true));
    }
  }

  lemma StepAccount(s: State, e: Event, d: Conn, online: nat, offline: nat)
    requires Sound(s) && d in s.open && d in Step(s, e).open && Account(s, d, online, offline)
    ensures Account(Step(s, e), d,
                    online + if RegistersWhile(s, e, d, true) then 1 else 0,
                    offline + (if RegistersWhile(s, e, d, false) then 1 else 0)
                    + if e.Receive? || e.Disconnect? then |Bereft(s, Step(s, e), d)| else 0)
  {
    hide Step, Count, Bereft, DistinctBeacons;
    match e
    case SendNotice(c) => SentNotice(s, c, d, online, offline);
    case Receive(c, m) =>
      ReceiveNotices(s, c, m, d, true);
      ReceiveNotices(s, c, m, d, false);
      OwedExactly(s, e, d);
    case Disconnect(c) =>
      OtherNotices(s, e, d, true);
      OtherNotices(s, e, d, false);
      OwedExactly(s, e, d);
    case _ =>
      OtherNotices(s, e, d, true);
      OtherNotices(s, e, d, false);
      OtherOwed(s, e, d);
  }

  // ---- Whom "online" speaks of ----

  /**
   * In a disciplined run with unique ids a complete client registration is answered "online" if and only if some open
   * connection is registered as that agent.
   */
  lemma OnlineIffAgentOpen(run: seq<Event>, c: Conn, m: Incoming)
    requires Disciplined(run) && Unique(run) && c in After(run).open && RegistersClient(m)
    ensures var (s, t) := (After(run), Step(After(run), Receive(c, m)));
            var online := exists a :: Owns(s, a, Agent, m.agentId.value);
            t.outbox == s.outbox[c := Told(s, c) + [AgentStatus(online)]]
  {
    hide After, Step, Disciplined, Unique, ClientListed, BeaconListed;
    var s, id := After(run), m.agentId.value;
    RunSound(run);
    RegistriesAreExactIff(run);
    assert Exact(s) by {
      assert run[..|run|] == run;
    }
    ClientAnswer(s, c, m);
    if id in s.agents {
      assert Owns(s, s.agents[id], Agent, id);
    }
    forall a | Owns(s, a, Agent, id) ensures id in s.agents {
      assert AgentListed(s, a);
    }
  }

  function Told(s: State, c: Conn): seq<Outgoing> {
    if c in s.outbox then s.outbox[c] else []
  }
}
