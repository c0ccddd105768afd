/** What the registries of the relay mean: invariants of all runs, and of runs that keep the peers' discipline. */
module RelayRegistry {
  import opened Wrappers
  import opened Relay

  // ---- Every run ----

  predicate WellFormed(s: State) {
    s.open <= s.locals.Keys && s.outbox.Keys == s.owed.Keys == s.locals.Keys
  }

  /** Each client id has a socket exactly when it has a target. */
  predicate SameKeys(s: State) {
    s.clients.Keys == s.clientToAgent.Keys
  }

  function Ids(bs: seq<BeaconEntry>): set<Id> {
    set b | b in bs :: b.agentId
  }

  predicate DistinctBeacons(bs: seq<BeaconEntry>) {
    |bs| == 0 || (bs[0].agentId !in Ids(bs[1..]) && DistinctBeacons(bs[1..]))
  }

  predicate Sound(s: State) {
    WellFormed(s) && SameKeys(s) && DistinctBeacons(s.beacons)
  }

  lemma {:induction false} SetBeaconEntries(bs: seq<BeaconEntry>, b: BeaconEntry)
    requires DistinctBeacons(bs)
    ensures DistinctBeacons(SetBeacon(bs, b))
    ensures forall x :: x in SetBeacon(bs, b) <==> x == b || (x in bs && x.agentId != b.agentId)
  {
    if |bs| > 0 {
      var rest := bs[1..];
      SetBeaconEntries(rest, b);
      assert SetBeacon(bs, b)[1..] == if bs[0].agentId == b.agentId then rest else SetBeacon(rest, b);
    }
  }

  /** Setting an entry replaces the agent's old one in place. */
  lemma {:induction false} SetBeaconInPlace(bs: seq<BeaconEntry>, b: BeaconEntry, i: nat)
    requires i < |bs| && bs[i].agentId == b.agentId && forall j :: 0 <= j < i ==> bs[j].agentId != b.agentId
    ensures SetBeacon(bs, b) == bs[i := b]
  {
    if i > 0 {
      SetBeaconInPlace(bs[1..], b, i - 1);
      assert bs[i := b] == [bs[0]] + bs[1..][i - 1 := b];
    }
  }

  /** Without an old one it is appended. */
  lemma {:induction false} SetBeaconAppends(bs: seq<BeaconEntry>, b: BeaconEntry)
    requires forall j :: 0 <= j < |bs| ==> bs[j].agentId != b.agentId
    ensures SetBeacon(bs, b) == bs + [b]
  {
    if |bs| > 0 {
      SetBeaconAppends(bs[1..], b);
    }
  }

  lemma {:induction false} RemoveBeaconEntries(bs: seq<BeaconEntry>, c: Conn)
    requires DistinctBeacons(bs)
    ensures DistinctBeacons(RemoveBeacon(bs, c))
    ensures forall x :: x in RemoveBeacon(bs, c) ==> x in bs
    ensures forall x :: x in bs && x.socket != c ==> x in RemoveBeacon(bs, c)
    ensures (forall x, y :: x in bs && y in bs && x.socket == c && y.socket == c ==> x.agentId == y.agentId) ==>
              forall x :: x in RemoveBeacon(bs, c) ==> x.socket != c
  {
    if |bs| > 0 {
      var rest := bs[1..];
      RemoveBeaconEntries(rest, c);
      if bs[0].socket != c {
        assert RemoveBeacon(bs, c)[1..] == RemoveBeacon(rest, c);
      }
    }
  }

  lemma CleanupSound(s: State, c: Conn)
    requires Sound(s) && c in s.locals
    ensures Sound(Cleanup(s, c))
  {
    RemoveBeaconEntries(s.beacons, c);
  }

  /** A handler changes neither the open connections nor the set of known ones. */
  predicate SameConnections(s: State, t: State) {
    t.open == s.open && t.locals.Keys == s.locals.Keys && t.outbox.Keys == s.outbox.Keys && t.owed == s.owed
  }

  predicate KeepsSound(s: State, t: State) {
    Sound(t) && SameConnections(s, t)
  }

  lemma RegisterAgentSound(s: State, c: Conn, id: Option<Id>)
    requires Sound(s) && c in s.locals
    ensures KeepsSound(s, HandleRegisterAgent(s, c, id).state)
  {
    hide DistinctBeacons, Post;
  }

  lemma RegisterClientSound(s: State, c: Conn, cid: Option<Id>, target: Option<Id>)
    requires Sound(s) && c in s.locals
    ensures KeepsSound(s, HandleRegisterClient(s, c, cid, target).state)
  {
    hide DistinctBeacons, Post;
  }

  lemma RegisterBeaconSound(s: State, c: Conn, id: Option<Id>, mac: Option<string>)
    requires Sound(s) && c in s.locals
    ensures KeepsSound(s, HandleRegisterBeacon(s, c, id, mac).state)
  {
    if Truthy(id) && Truthy(mac) {
      var b := BeaconEntry(id.value, c, mac.value);
      assert DistinctBeacons(SetBeacon(s.beacons, b)) by {
        SetBeaconEntries(s.beacons, b);
      }
    }
    hide DistinctBeacons, SetBeacon, Post;
  }

  lemma RoutingSound(s: State, c: Conn, m: Incoming)
    requires Sound(s) && c in s.locals
    ensures m.Signal? ==> KeepsSound(s, HandleSignal(s, c, m.dest, m.payload).state)
    ensures m.PairRequest? ==> KeepsSound(s, HandlePairRequest(s, c, m).state)
    ensures m.PairResponse? ==> KeepsSound(s, HandlePairResponse(s, m).state)
  {
    hide DistinctBeacons, Post;
  }

  lemma HandleSound(s: State, c: Conn, m: Incoming)
    requires Sound(s) && c in s.locals
    ensures KeepsSound(s, Handle(s, c, m).state)
  {
    hide HandleRegisterAgent, HandleRegisterBeacon, HandleRegisterClient, HandleSignal, HandlePairRequest,
         HandlePairResponse, DistinctBeacons;
    match m
    case RegisterAgent(id) => RegisterAgentSound(s, c, id);
    case RegisterClient(cid, target) => RegisterClientSound(s, c, cid, target);
    case RegisterBeacon(id, mac) => RegisterBeaconSound(s, c, id, mac);
    case _ => RoutingSound(s, c, m);
  }

  lemma StepSound(s: State, e: Event)
    requires Sound(s)
    ensures Sound(Step(s, e))
  {
    hide Handle, Cleanup;
    match e
    case Connect(c) =>
    case Receive(c, m) =>
      if c in s.open && c in s.locals {
        HandleSound(s, c, m);
        var o := Handle(s, c, m);
        CleanupSound(o.state.(open := o.state.open - {c}), c);
      }
    case Disconnect(c) =>
      if c in s.open && c in s.locals {
        CleanupSound(s.(open := s.open - {c}), c);
      }
    case Wake(id) =>
    case SendNotice(c) =>
  }

  /** In all runs `clients` and `client_to_agent` have the same keys. */
  lemma {:induction false} RunSound(run: seq<Event>)
    ensures Sound(After(run))
  {
    if |run| > 0 {
      RunSound(run[..|run| - 1]);
      StepSound(After(run[..|run| - 1]), run[|run| - 1]);
    }
  }

  // ---- Disciplined runs: one registration per connection, pair requests under the sender's own id ----

  predicate IsRegistration(m: Incoming) {
    m.RegisterAgent? || m.RegisterBeacon? || m.RegisterClient?
  }

  predicate DisciplinedMessage(l: Locals, m: Incoming) {
    && (IsRegistration(m) ==> l.role == Unregistered)
    && (m.PairRequest? && l.role == Client ==> m.clientId == l.clientId)
  }

  predicate DisciplinedEvent(s: State, e: Event) {
    e.Receive? && e.conn in s.open && e.conn in s.locals ==> DisciplinedMessage(s.locals[e.conn], e.message)
  }

  predicate Disciplined(run: seq<Event>) {
    forall i :: 0 <= i < |run| ==> DisciplinedEvent(After(run[..i]), run[i])
  }

  /** c is an open connection whose locals name the entry. */
  predicate Owns(s: State, c: Conn, role: Role, id: Id) {
    && c in s.open && c in s.locals && s.locals[c].role == role
    && (if role == Client then s.locals[c].clientId else s.locals[c].agentId) == Some(id)
  }

  predicate AgentsNamed(s: State) {
    forall a :: a in s.agents ==> Owns(s, s.agents[a], Agent, a)
  }

  predicate ClientsNamed(s: State) {
    forall c :: c in s.clients ==> Owns(s, s.clients[c], Client, c)
  }

  predicate BeaconsNamed(s: State) {
    forall b :: b in s.beacons ==> Owns(s, b.socket, Beacon, b.agentId)
  }

  /** Every registry entry points to an open connection whose locals name it. */
  predicate Named(s: State) {
    AgentsNamed(s) && ClientsNamed(s) && BeaconsNamed(s)
  }

  lemma CloseAgentsNamed(s: State, c: Conn)
    requires c in s.open && c in s.locals && AgentsNamed(s)
    ensures AgentsNamed(Close(s, c))
  {
    hide RemoveBeacon, NotifyOffline;
  }

  lemma CloseClientsNamed(s: State, c: Conn)
    requires c in s.open && c in s.locals && ClientsNamed(s)
    ensures ClientsNamed(Close(s, c))
  {
    hide RemoveBeacon, NotifyOffline;
  }

  lemma CloseBeaconsNamed(s: State, c: Conn)
    requires c in s.open && c in s.locals && BeaconsNamed(s) && DistinctBeacons(s.beacons)
    ensures BeaconsNamed(Close(s, c))
  {
    RemoveBeaconEntries(s.beacons, c);
    hide RemoveBeacon, NotifyOffline, DistinctBeacons;
  }

  lemma CloseNamed(s: State, c: Conn)
    requires Sound(s) && c in s.open && Named(s)
    ensures Named(Close(s, c))
  {
    CloseAgentsNamed(s, c);
    CloseClientsNamed(s, c);
    CloseBeaconsNamed(s, c);
  }

  lemma RegisterAgentNamed(s: State, c: Conn, id: Option<Id>)
    requires c in s.open && c in s.locals && Named(s) && s.locals[c].role == Unregistered
    ensures Named(HandleRegisterAgent(s, c, id).state)
  {
    hide Post;
  }

  lemma RegisterClientNamed(s: State, c: Conn, cid: Option<Id>, target: Option<Id>)
    requires c in s.open && c in s.locals && Named(s) && s.locals[c].role == Unregistered
    ensures Named(HandleRegisterClient(s, c, cid, target).state)
  {
    hide Post;
  }

  lemma RegisterBeaconNamed(s: State, c: Conn, id: Option<Id>, mac: Option<string>)
    requires c in s.open && c in s.locals && Named(s) && s.locals[c].role == Unregistered
    requires DistinctBeacons(s.beacons)
    ensures Named(HandleRegisterBeacon(s, c, id, mac).state)
  {
    if Truthy(id) && Truthy(mac) {
      SetBeaconEntries(s.beacons, BeaconEntry(id.value, c, mac.value));
    }
    hide DistinctBeacons, SetBeacon, Post;
  }

  lemma PairRequestNamed(s: State, c: Conn, m: Incoming)
    requires c in s.open && c in s.locals && Named(s) && DisciplinedMessage(s.locals[c], m) && m.PairRequest?
    ensures Named(HandlePairRequest(s, c, m).state)
  {
    hide Post;
  }

  lemma MailNamed(s: State, t: State)
    requires Named(s) && t == s.(outbox := t.outbox, owed := t.owed)
    ensures Named(t)
  {
  }

  lemma HandleNamed(s: State, c: Conn, m: Incoming)
    requires Sound(s) && c in s.open && Named(s) && DisciplinedMessage(s.locals[c], m)
    ensures Named(Handle(s, c, m).state)
  {
    assert c in s.locals && DistinctBeacons(s.beacons);
    hide HandleRegisterAgent, HandleRegisterBeacon, HandleRegisterClient, HandlePairRequest, Named, Sound, Post,
         DistinctBeacons, WellFormed, SameKeys;
    match m
    case RegisterAgent(id) => RegisterAgentNamed(s, c, id);
    case RegisterClient(cid, target) => RegisterClientNamed(s, c, cid, target);
    case RegisterBeacon(id, mac) => RegisterBeaconNamed(s, c, id, mac);
    case PairRequest(_, _, _, _) => PairRequestNamed(s, c, m);
    case _ => MailNamed(s, Handle(s, c, m).state);
  }

  lemma StepNamed(s: State, e: Event)
    requires Sound(s) && Named(s) && DisciplinedEvent(s, e)
    ensures Named(Step(s, e))
  {
    hide Handle, Close, Post;
    match e
    case Connect(c) =>
    case Receive(c, m) =>
      if c in s.open {
        HandleNamed(s, c, m);
        HandleSound(s, c, m);
        CloseNamed(Handle(s, c, m).state, c);
      }
    case Disconnect(c) =>
      if c in s.open {
        CloseNamed(s, c);
      }
    case Wake(id) =>
    case SendNotice(c) =>
  }

  /** In every disciplined run each registry entry points to an open connection whose locals name it. */
  lemma {:induction false} DisciplinedNamed(run: seq<Event>)
    requires Disciplined(run)
    ensures Named(After(run))
  {
    if |run| > 0 {
      var init := run[..|run| - 1];
      DisciplinedPrefix(run);
      DisciplinedNamed(init);
      RunSound(init);
      StepNamed(After(init), run[|run| - 1]);
    }
  }

  lemma DisciplinedPrefix(run: seq<Event>)
    requires Disciplined(run) && |run| > 0
    ensures Disciplined(run[..|run| - 1]) && DisciplinedEvent(After(run[..|run| - 1]), run[|run| - 1])
  {
    var init := run[..|run| - 1];
    forall i | 0 <= i < |init| ensures DisciplinedEvent(After(init[..i]), init[i]) {
      assert init[..i] == run[..i];
      assert DisciplinedEvent(After(run[..i]), run[i]);
    }
  }
}
