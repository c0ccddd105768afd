/** With ids unique among open connections, the registries are exactly the open registered connections. */
module RelayUnique {
  import opened Wrappers
  import opened Relay
  import opened RelayRegistry

  /** The role and id that a complete registration asks for; an incomplete one changes no registry. */
  function RegisteredAs(m: Incoming): Option<(Role, Id)> {
    match m
    case RegisterAgent(id) => if Truthy(id) then Some((Agent, id.value)) else None
    case RegisterBeacon(id, mac) => if Truthy(id) && Truthy(mac) then Some((Beacon, id.value)) else None
    case RegisterClient(id, target) => if Truthy(id) && Truthy(target) then Some((Client, id.value)) else None
    case _ => None
  }

  /** No other open connection is registered in the role and under the id that a registration asks for. */
  predicate UniqueRegistration(s: State, c: Conn, m: Incoming) {
    var r := RegisteredAs(m);
    r.Some? ==> forall d :: d in s.open && d != c ==> !Owns(s, d, r.value.0, r.value.1)
  }

  predicate UniqueEvent(s: State, e: Event) {
    e.Receive? && e.conn in s.open ==> UniqueRegistration(s, e.conn, e.message)
  }

  predicate Unique(run: seq<Event>) {
    forall i :: 0 <= i < |run| ==> UniqueEvent(After(run[..i]), run[i])
  }

  predicate AgentListed(s: State, c: Conn) {
    c in s.locals && s.locals[c].role == Agent ==>
      var id := s.locals[c].agentId;
      id.Some? && id.value in s.agents && s.agents[id.value] == c
  }

  predicate ClientListed(s: State, c: Conn) {
    c in s.locals && s.locals[c].role == Client ==>
      var id := s.locals[c].clientId;
      id.Some? && id.value in s.clients && s.clients[id.value] == c
  }

  predicate BeaconListed(s: State, c: Conn) {
    c in s.locals && s.locals[c].role == Beacon ==>
      exists b :: b in s.beacons && b.socket == c && s.locals[c].agentId == Some(b.agentId)
  }

  /** Every open registered connection is in its registry. */
  predicate AllListed(s: State) {
    forall c :: c in s.open ==> AgentListed(s, c) && ClientListed(s, c) && BeaconListed(s, c)
  }

  lemma CloseListed(s: State, c: Conn)
    requires Sound(s) && c in s.open && Named(s) && AllListed(s)
    ensures AllListed(Close(s, c))
  {
    hide Close, Named, DistinctBeacons;
    var t := Close(s, c);
    CloseConnections(s, c);
    forall d | d in t.open ensures AgentListed(t, d) && ClientListed(t, d) && BeaconListed(t, d) {
      assert AgentListed(s, d) && ClientListed(s, d) && BeaconListed(s, d) && AgentListed(s, c) && ClientListed(s, c);
      CloseRegistries(s, c, d);
      CloseBeacons(s, c, d);
    }
  }

  lemma CloseConnections(s: State, c: Conn)
    requires c in s.locals
    ensures Close(s, c).open == s.open - {c} && Close(s, c).locals == s.locals
  {
    hide RemoveBeacon, NotifyOffline;
  }

  lemma CloseRegistries(s: State, c: Conn, d: Conn)
    requires c in s.open && c in s.locals && c != d
    requires AgentListed(s, c) && ClientListed(s, c) && AgentListed(s, d) && ClientListed(s, d)
    ensures AgentListed(Close(s, c), d) && ClientListed(Close(s, c), d)
  {
    hide RemoveBeacon, NotifyOffline;
  }

  lemma CloseBeacons(s: State, c: Conn, d: Conn)
    requires c in s.locals && c != d && DistinctBeacons(s.beacons) && BeaconListed(s, d)
    ensures BeaconListed(Close(s, c), d)
  {
    RemoveBeaconEntries(s.beacons, c);
    hide RemoveBeacon, NotifyOffline, DistinctBeacons;
  }

  lemma RegisterAgentListed(s: State, c: Conn, id: Option<Id>)
    requires c in s.open && c in s.locals && Named(s) && AllListed(s) && s.locals[c].role == Unregistered
    requires UniqueRegistration(s, c, RegisterAgent(id))
    ensures AllListed(HandleRegisterAgent(s, c, id).state)
  {
    hide Post, Named;
    var t := HandleRegisterAgent(s, c, id).state;
    forall d | d in t.open ensures AgentListed(t, d) && ClientListed(t, d) && BeaconListed(t, d) {
      assert AgentListed(s, d) && ClientListed(s, d) && BeaconListed(s, d);
    }
  }

  lemma RegisterClientListed(s: State, c: Conn, cid: Option<Id>, target: Option<Id>)
    requires c in s.open && c in s.locals && Named(s) && AllListed(s) && s.locals[c].role == Unregistered
    requires UniqueRegistration(s, c, RegisterClient(cid, target))
    ensures AllListed(HandleRegisterClient(s, c, cid, target).state)
  {
    hide Post, Named;
    var t := HandleRegisterClient(s, c, cid, target).state;
    forall d | d in t.open ensures AgentListed(t, d) && ClientListed(t, d) && BeaconListed(t, d) {
      assert AgentListed(s, d) && ClientListed(s, d) && BeaconListed(s, d);
    }
  }

  lemma RegisterBeaconListed(s: State, c: Conn, id: Option<Id>, mac: Option<string>)
    requires c in s.open && c in s.locals && Named(s) && AllListed(s) && s.locals[c].role == Unregistered
    requires DistinctBeacons(s.beacons) && UniqueRegistration(s, c, RegisterBeacon(id, mac))
    ensures AllListed(HandleRegisterBeacon(s, c, id, mac).state)
  {
    hide Post, Named, SetBeacon, DistinctBeacons;
    var t := HandleRegisterBeacon(s, c, id, mac).state;
    if Truthy(id) && Truthy(mac) {
      SetBeaconEntries(s.beacons, BeaconEntry(id.value, c, mac.value));
      assert BeaconEntry(id.value, c, mac.value) in t.beacons;
    }
    forall d | d in t.open ensures AgentListed(t, d) && ClientListed(t, d) && BeaconListed(t, d) {
      assert AgentListed(s, d) && ClientListed(s, d) && BeaconListed(s, d);
    }
  }

  lemma PairRequestListed(s: State, c: Conn, m: Incoming)
    requires c in s.open && c in s.locals && AllListed(s) && DisciplinedMessage(s.locals[c], m) && m.PairRequest?
    ensures AllListed(HandlePairRequest(s, c, m).state)
  {
    hide Post;
    var t := HandlePairRequest(s, c, m).state;
    forall d | d in t.open ensures AgentListed(t, d) && ClientListed(t, d) && BeaconListed(t, d) {
      assert AgentListed(s, d) && ClientListed(s, d) && BeaconListed(s, d);
    }
  }

  lemma MailListed(s: State, t: State)
    requires AllListed(s) && t == s.(outbox := t.outbox, owed := t.owed)
    ensures AllListed(t)
  {
    forall d | d in t.open ensures AgentListed(t, d) && ClientListed(t, d) && BeaconListed(t, d) {
      assert AgentListed(s, d) && ClientListed(s, d) && BeaconListed(s, d);
    }
  }

  lemma HandleListed(s: State, c: Conn, m: Incoming)
    requires Sound(s) && c in s.open && Named(s) && AllListed(s)
    requires DisciplinedMessage(s.locals[c], m) && UniqueEvent(s, Receive(c, m))
    ensures AllListed(Handle(s, c, m).state)
  {
    assert c in s.locals && DistinctBeacons(s.beacons);
    hide HandleRegisterAgent, HandleRegisterBeacon, HandleRegisterClient, HandlePairRequest, Named, Sound, Post,
         DistinctBeacons, AllListed;
    match m
    case RegisterAgent(id) => RegisterAgentListed(s, c, id);
    case RegisterClient(cid, target) => RegisterClientListed(s, c, cid, target);
    case RegisterBeacon(id, mac) => RegisterBeaconListed(s, c, id, mac);
    case PairRequest(_, _, _, _) => PairRequestListed(s, c, m);
    case _ => MailListed(s, Handle(s, c, m).state);
  }

  lemma StepListed(s: State, e: Event)
    requires Sound(s) && Named(s) && AllListed(s) && DisciplinedEvent(s, e) && UniqueEvent(s, e)
    ensures AllListed(Step(s, e))
  {
    match e
    case Connect(c) =>
      var t := Step(s, e);
      forall d | d in t.open ensures AgentListed(t, d) && ClientListed(t, d) && BeaconListed(t, d) {
        if d in s.open {
          assert AgentListed(s, d) && ClientListed(s, d) && BeaconListed(s, d);
        }
      }
    case Receive(c, m) =>
      hide Handle, Close;
      if c in s.open {
        HandleListed(s, c, m);
        HandleNamed(s, c, m);
        HandleSound(s, c, m);
        CloseListed(Handle(s, c, m).state, c);
      }
    case Disconnect(c) =>
      hide Close;
      if c in s.open {
        CloseListed(s, c);
      }
    case _ => MailListed(s, Step(s, e));
  }

  /** A second connection under an open id leaves the first one out of the registry. */
  lemma DuplicateUnlists(s: State, c: Conn, m: Incoming, d: Conn)
    requires Sound(s) && c in s.open && DisciplinedMessage(s.locals[c], m) && RegisteredAs(m).Some?
    requires d in s.open && d != c && Owns(s, d, RegisteredAs(m).value.0, RegisteredAs(m).value.1)
    ensures !Handle(s, c, m).raised && !AllListed(Handle(s, c, m).state)
  {
    var t := Handle(s, c, m).state;
    if m.RegisterBeacon? {
      SetBeaconEntries(s.beacons, BeaconEntry(m.agentId.value, c, m.mac.value));
    }
    hide Post, SetBeacon, DistinctBeacons;
    assert !AgentListed(t, d) || !ClientListed(t, d) || !BeaconListed(t, d);
  }

  /** From a state with exact registries a disciplined step leads to one if and only if it duplicates no open id. */
  lemma StepListedIff(s: State, e: Event)
    requires Sound(s) && Named(s) && AllListed(s) && DisciplinedEvent(s, e)
    ensures AllListed(Step(s, e)) <==> UniqueEvent(s, e)
  {
    hide Named, AllListed, Handle;
    if UniqueEvent(s, e) {
      StepListed(s, e);
    } else {
      var r := RegisteredAs(e.message).value;
      var d :| d in s.open && d != e.conn && Owns(s, d, r.0, r.1);
      DuplicateUnlists(s, e.conn, e.message, d);
    }
  }

  /** The registries hold the open registered connections and nothing else. */
  predicate Exact(s: State) {
    Named(s) && AllListed(s)
  }

  predicate ExactThroughout(run: seq<Event>) {
    forall n :: 0 <= n <= |run| ==> Exact(After(run[..n]))
  }

  /**
   * In a disciplined run the registries are exactly the open registered connections all along if and only if no
   * complete registration asks for an id under which another open connection is registered.
   */
  lemma {:induction false} RegistriesAreExactIff(run: seq<Event>)
    requires Disciplined(run)
    ensures ExactThroughout(run) <==> Unique(run)
  {
    hide Exact, UniqueEvent, Step;
    if |run| == 0 {
      assert run[..0] == run;
      StartsExact();
    } else {
      var init, s, e := run[..|run| - 1], After(run[..|run| - 1]), run[|run| - 1];
      DisciplinedPrefix(run);
      RegistriesAreExactIff(init);
      ExactPrefix(run);
      assert Unique(run) <==> Unique(init) && UniqueEvent(s, e) by {
        UniquePrefix(run);
      }
      if Exact(s) {
        ExactStep(run);
      }
      assert ExactThroughout(init) ==> Exact(s) by {
        assert init[..|init|] == init;
      }
    }
  }

  lemma StartsExact()
    ensures Exact(After([]))
  {
  }

  lemma ExactStep(run: seq<Event>)
    requires Disciplined(run) && |run| > 0 && Exact(After(run[..|run| - 1]))
    ensures Exact(After(run)) <==> UniqueEvent(After(run[..|run| - 1]), run[|run| - 1])
  {
    hide Disciplined, Named, AllListed, Step, UniqueEvent, Sound, DisciplinedEvent;
    DisciplinedPrefix(run);
    DisciplinedNamed(run);
    RunSound(run[..|run| - 1]);
    StepListedIff(After(run[..|run| - 1]), run[|run| - 1]);
  }

  lemma ExactPrefix(run: seq<Event>)
    requires |run| > 0
    ensures ExactThroughout(run) <==> ExactThroughout(run[..|run| - 1]) && Exact(After(run))
  {
    hide Exact, After;
    var init := run[..|run| - 1];
    assert run[..|run|] == run;
    assert forall n :: 0 <= n <= |init| ==> init[..n] == run[..n];
  }

  lemma UniquePrefix(run: seq<Event>)
    requires |run| > 0
    ensures Unique(run) <==> Unique(run[..|run| - 1]) && UniqueEvent(After(run[..|run| - 1]), run[|run| - 1])
  {
    hide UniqueEvent, After;
    var init := run[..|run| - 1];
    assert forall n :: 0 <= n < |init| ==> init[..n] == run[..n] && init[n] == run[n];
    if Unique(run) {
      forall i | 0 <= i < |init| ensures UniqueEvent(After(init[..i]), init[i]) {
        assert UniqueEvent(After(run[..i]), run[i]);
      }
    }
  }

  // ---- Consequences ----

  /** In a disciplined run only a text that is not an object makes a handler leave its loop with an exception. */
  lemma NoSendFails(run: seq<Event>, c: Conn, m: Incoming)
    requires Disciplined(run) && c in After(run).open && c in After(run).locals
    ensures Handle(After(run), c, m).raised <==> m == NotObject
  {
    DisciplinedNamed(run);
    var s := After(run);
    hide Post, After, Disciplined;
    if m.PairRequest? && m.agentId.Some? && m.agentId.value in s.agents {
      assert Owns(s, s.agents[m.agentId.value], Agent, m.agentId.value);
    }
  }

  lemma {:induction false} FoundBeacon(bs: seq<BeaconEntry>, id: Id)
    requires FindBeacon(bs, id).Some?
    ensures FindBeacon(bs, id).value in bs && FindBeacon(bs, id).value.agentId == id
  {
    if bs[0].agentId != id {
      FoundBeacon(bs[1..], id);
    }
  }

  /** The lookup finds exactly the entry of the agent, if there is one. */
  lemma {:induction false} BeaconFoundIff(bs: seq<BeaconEntry>, id: Id, b: BeaconEntry)
    requires DistinctBeacons(bs)
    ensures FindBeacon(bs, id) == Some(b) <==> b in bs && b.agentId == id
    ensures FindBeacon(bs, id) == None <==> forall x :: x in bs ==> x.agentId != id
  {
    if |bs| > 0 {
      BeaconFoundIff(bs[1..], id, b);
      if bs[0].agentId == id {
        assert bs[0].agentId !in Ids(bs[1..]);
        assert forall x :: x in bs[1..] ==> x.agentId in Ids(bs[1..]);
      }
    }
  }

  /** In a disciplined run a wake request reaches a beacon registered for the agent, with that entry's address. */
  lemma WakeReachesBeacon(run: seq<Event>, id: Id)
    requires Disciplined(run)
    ensures WakeOutcome(After(run), id) != Unreachable
    ensures WakeOutcome(After(run), id) == Forwarded <==> exists b :: b in After(run).beacons && b.agentId == id
    ensures WakeOutcome(After(run), id) == Forwarded ==>
              exists b :: b in After(run).beacons && b.agentId == id && Owns(After(run), b.socket, Beacon, id)
                && b.socket in After(run).outbox
                && Step(After(run), Wake(id)).outbox
                   == After(run).outbox[b.socket := After(run).outbox[b.socket] + [WakeUp(b.mac)]]
  {
    DisciplinedNamed(run);
    RunSound(run);
    var s := After(run);
    hide After, Disciplined, DistinctBeacons, FindBeacon;
    BeaconFoundIff(s.beacons, id, BeaconEntry(id, 0, ""));
    if FindBeacon(s.beacons, id).Some? {
      FoundBeacon(s.beacons, id);
      var b := FindBeacon(s.beacons, id).value;
      assert Owns(s, b.socket, Beacon, id);
    }
  }

  // ---- Without the discipline ----

  /** The cleanup does not look at the socket: it removes another connection's entry exactly in this case. */
  lemma ForeignEntryRemovedIff(s: State, c: Conn)
    requires c in s.open && c in s.locals
    ensures (exists a :: a in s.agents && s.agents[a] != c && a !in Close(s, c).agents) <==>
              var l := s.locals[c];
              l.role == Agent && l.agentId.Some? && l.agentId.value in s.agents && s.agents[l.agentId.value] != c
    ensures (exists i :: i in s.clients && s.clients[i] != c && i !in Close(s, c).clients) <==>
              var l := s.locals[c];
              l.role == Client && l.clientId.Some? && l.clientId.value in s.clients && s.clients[l.clientId.value] != c
  {
    hide RemoveBeacon, NotifyOffline;
  }

  /**
   * A peer that opens a second connection before its first one closes: an agent that reconnects, or a client whose
   * pairing socket is still open when its session begins.
   */
  function ReconnectRun(m: Incoming): seq<Event> {
    [Connect(0), Receive(0, m), Connect(1), Receive(1, m), Disconnect(0)]
  }

  lemma ConnectEffect(s: State, c: Conn)
    requires c !in s.locals
    ensures var t := Step(s, Connect(c));
            t == s.(open := s.open + {c}, locals := s.locals[c := Locals(Unregistered, None, None)],
                    outbox := t.outbox, owed := s.owed[c := 0])
  {
  }

  /** The locals after a complete registration on a new connection. */
  function RegisteredLocals(m: Incoming): Locals
    requires RegisteredAs(m).Some?
  {
    var (role, id) := RegisteredAs(m).value;
    if role == Client then Locals(role, Some(id), None) else Locals(role, None, Some(id))
  }

  lemma RegisterEffect(s: State, c: Conn, m: Incoming)
    requires c in s.open && c in s.locals && s.locals[c] == Locals(Unregistered, None, None) && RegisteredAs(m).Some?
    ensures var (t, (role, id)) := (Step(s, Receive(c, m)), RegisteredAs(m).value);
            && t.open == s.open && t.owed == s.owed && t.locals == s.locals[c := RegisteredLocals(m)]
            && t.agents == (if role == Agent then s.agents[id := c] else s.agents)
            && t.clients == (if role == Client then s.clients[id := c] else s.clients)
            && t.beacons == (if m.RegisterBeacon? then SetBeacon(s.beacons, BeaconEntry(id, c, m.mac.value))
                             else s.beacons)
  {
    hide Post, Close, SetBeacon;
  }

  lemma FirstRegistered(m: Incoming)
    requires RegisteredAs(m).Some?
    ensures var s := After(ReconnectRun(m)[..1]); 0 in s.locals && s.locals[0].role == Unregistered
    ensures var (s, (role, id)) := (After(ReconnectRun(m)[..2]), RegisteredAs(m).value);
            && s.open == s.locals.Keys == {0} && s.locals[0] == RegisteredLocals(m)
            && s.agents == (if role == Agent then map[id := 0] else map[])
            && s.clients == (if role == Client then map[id := 0] else map[])
            && s.beacons == (if m.RegisterBeacon? then [BeaconEntry(id, 0, m.mac.value)] else [])
  {
    var run := ReconnectRun(m);
    assert run[..0] == [] && After(run[..0]) == INITIAL;
    hide Step, After, RegisteredAs, RegisteredLocals;
    RunStep(run, 0);
    ConnectEffect(INITIAL, 0);
    RunStep(run, 1);
    RegisterEffect(After(run[..1]), 0, m);
  }

  lemma SecondRegistered(m: Incoming)
    requires RegisteredAs(m).Some?
    ensures var s := After(ReconnectRun(m)[..3]); 1 in s.locals && s.locals[1].role == Unregistered
    ensures var (s, (role, id)) := (After(ReconnectRun(m)[..4]), RegisteredAs(m).value);
            && s.open == s.locals.Keys == {0, 1} && s.locals[0] == s.locals[1] == RegisteredLocals(m)
            && s.agents == (if role == Agent then map[id := 1] else map[])
            && s.clients == (if role == Client then map[id := 1] else map[])
            && s.beacons == (if m.RegisterBeacon? then [BeaconEntry(id, 1, m.mac.value)] else [])
  {
    var run := ReconnectRun(m);
    hide Step, After, RegisteredAs, RegisteredLocals;
    FirstRegistered(m);
    RunStep(run, 2);
    ConnectEffect(After(run[..2]), 1);
    RunStep(run, 3);
    RegisterEffect(After(run[..3]), 1, m);
  }

  lemma ReconnectDisciplined(m: Incoming)
    requires RegisteredAs(m).Some?
    ensures Disciplined(ReconnectRun(m))
  {
    FirstRegistered(m);
    SecondRegistered(m);
    hide After, RegisteredAs;
  }

  lemma ReconnectNotUnique(m: Incoming)
    requires RegisteredAs(m).Some?
    ensures !Unique(ReconnectRun(m))
  {
    hide After, Step, RegisteredAs;
    var run := ReconnectRun(m);
    FirstRegistered(m);
    SecondRegistered(m);
    RunStep(run, 2);
    ConnectEffect(After(run[..2]), 1);
    var s := After(run[..3]);
    assert Owns(s, 0, RegisteredAs(m).value.0, RegisteredAs(m).value.1);
    assert !UniqueEvent(s, run[3]);
  }

  lemma CloseEffect(s: State, c: Conn, d: Conn, m: Incoming)
    requires c in s.locals && RegisteredAs(m).Some? && s.locals[c] == RegisteredLocals(m)
    requires d in s.open && d != c && d in s.locals && s.locals[d] == RegisteredLocals(m)
    requires m.RegisterBeacon? ==> s.beacons == [BeaconEntry(m.agentId.value, d, m.mac.value)]
    ensures var (t, (role, id)) := (Close(s, c), RegisteredAs(m).value);
            && Owns(t, d, role, id)
            && (role == Agent ==> id !in t.agents) && (role == Client ==> id !in t.clients)
            && (role == Beacon ==> BeaconListed(t, d))
  {
    hide NotifyOffline, RemoveBeacon, DistinctBeacons;
    if m.RegisterBeacon? {
      var b := BeaconEntry(m.agentId.value, d, m.mac.value);
      assert b in s.beacons && DistinctBeacons(s.beacons) by {
        OneDistinct(b);
      }
      RemoveBeaconEntries(s.beacons, c);
    }
  }

  lemma OneDistinct(b: BeaconEntry)
    ensures DistinctBeacons([b])
  {
  }

  /**
   * The cleanup of the first connection unregisters the second one of an agent or a client, which stays open and
   * registered in its own locals. Only the beacon's cleanup looks at the socket and keeps the new entry.
   */
  lemma ReconnectLosesEntry(m: Incoming)
    requires RegisteredAs(m).Some?
    ensures Disciplined(ReconnectRun(m)) && !Unique(ReconnectRun(m))
    ensures var (s, (role, id)) := (After(ReconnectRun(m)), RegisteredAs(m).value);
            && Owns(s, 1, role, id)
            && (role == Agent ==> id !in s.agents) && (role == Client ==> id !in s.clients)
            && (role == Beacon ==> BeaconListed(s, 1))
  {
    hide After, Close, Disciplined, Unique, RegisteredLocals, Owns, BeaconListed;
    var run := ReconnectRun(m);
    ReconnectDisciplined(m);
    ReconnectNotUnique(m);
    SecondRegistered(m);
    RunStep(run, 4);
    assert run[..5] == run;
    CloseEffect(After(run[..4]), 0, 1, m);
  }

  lemma RunStep(run: seq<Event>, i: nat)
    requires i < |run|
    ensures After(run[..i + 1]) == Step(After(run[..i]), run[i])
  {
    assert run[..i + 1][..i] == run[..i];
  }
}
