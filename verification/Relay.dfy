/**
 * The signalling relay as a transition system. One step is one received message, one disconnect with its cleanup,
 * one accepted connection, one wake request or one scheduled notice being sent; sends append to the outbox of the
 * receiving connection.
 */
module Relay {
  import opened Wrappers

  type Conn = nat
  type Id = string

  datatype Role = Unregistered | Agent | Beacon | Client

  /** The local variables of one websocket_endpoint call. */
  datatype Locals = Locals(role: Role, clientId: Option<Id>, agentId: Option<Id>)

  /** What json.loads and data.get("type") make of a received text. */
  datatype Incoming =
    | NotJson
    | NotObject
    | Untyped
    | UnknownType
    | RegisterAgent(agentId: Option<Id>)
    | RegisterBeacon(agentId: Option<Id>, mac: Option<string>)
    | RegisterClient(clientId: Option<Id>, agentId: Option<Id>)
    | Signal(dest: Option<Id>, payload: Option<string>)
    | PairRequest(agentId: Option<Id>, clientId: Option<Id>, code: Option<string>, pubkey: Option<string>)
    | PairResponse(clientId: Option<Id>, status: Option<string>, reason: Option<string>)

  datatype Outgoing =
    | Error(message: string)
    | Registered(role: Role)
    | AgentStatus(online: bool)
    | SignalFrom(sender: Option<Id>, payload: string)
    | PairRequestFrom(clientId: Option<Id>, code: Option<string>, pubkey: Option<string>)
    | PairResponseFor(status: Option<string>, reason: Option<string>)
    | WakeUp(mac: string)

  datatype BeaconEntry = BeaconEntry(agentId: Id, socket: Conn, mac: string)

  datatype State = State(
    open: set<Conn>,
    locals: map<Conn, Locals>,
    outbox: map<Conn, seq<Outgoing>>,
    owed: map<Conn, nat>,  // how many offline notices are scheduled for a connection and not yet sent
    agents: map<Id, Conn>,
    clients: map<Id, Conn>,
    clientToAgent: map<Id, Id>,
    beacons: seq<BeaconEntry>)  // a dictionary in insertion order: the cleanup depends on it

  const INITIAL := State({}, map[], map[], map[], map[], map[], map[], [])

  datatype Event =
    | Connect(conn: Conn)
    | Receive(conn: Conn, message: Incoming)
    | Disconnect(conn: Conn)
    | Wake(agentId: Id)
    | SendNotice(conn: Conn)

  /** Python's truth value of a string or None. */
  predicate Truthy(s: Option<string>) {
    s.Some? && s.value != ""
  }

  // ---- The beacon dictionary ----

  function FindBeacon(bs: seq<BeaconEntry>, id: Id): Option<BeaconEntry> {
    if |bs| == 0 then None else if bs[0].agentId == id then Some(bs[0]) else FindBeacon(bs[1..], id)
  }

  function SetBeacon(bs: seq<BeaconEntry>, b: BeaconEntry): seq<BeaconEntry> {
    if |bs| == 0 then [b]
    else if bs[0].agentId == b.agentId then [b] + bs[1..]
    else [bs[0]] + SetBeacon(bs[1..], b)
  }

  /** The cleanup loop: delete the first entry of the socket and stop. */
  function RemoveBeacon(bs: seq<BeaconEntry>, c: Conn): seq<BeaconEntry> {
    if |bs| == 0 then [] else if bs[0].socket == c then bs[1..] else [bs[0]] + RemoveBeacon(bs[1..], c)
  }

  // ---- Sending ----

  /** Appends to the outbox of an open connection; sending to a closed one delivers nothing. */
  function Post(s: State, dest: Conn, m: Outgoing): (t: State)
    ensures t == s.(outbox := t.outbox) && t.outbox.Keys == s.outbox.Keys
  {
    if dest in s.open && dest in s.outbox then s.(outbox := s.outbox[dest := s.outbox[dest] + [m]]) else s
  }

  /** The state after a handler body, and whether it left the receive loop with an exception. */
  datatype Outcome = Outcome(state: State, raised: bool)

  /** send_json to another connection: a closed one raises in the sender's handler. */
  function Forward(s: State, dest: Conn, m: Outgoing): Outcome {
    Outcome(Post(s, dest, m), dest !in s.open)
  }

  function Reply(s: State, c: Conn, m: Outgoing): Outcome {
    Outcome(Post(s, c, m), false)
  }

  function SetLocals(s: State, c: Conn, l: Locals): State {
    s.(locals := s.locals[c := l])
  }

  // ---- One message ----

  function HandleRegisterAgent(s: State, c: Conn, id: Option<Id>): Outcome
    requires c in s.locals
  {
    var s1 := SetLocals(s, c, s.locals[c].(agentId := id));
    if !Truthy(id) then Reply(s1, c, Error("Missing agent_id"))
    else
      var s2 := SetLocals(s1, c, s1.locals[c].(role := Agent));
      Reply(s2.(agents := s2.agents[id.value := c]), c, Registered(Agent))
  }

  function HandleRegisterBeacon(s: State, c: Conn, id: Option<Id>, mac: Option<string>): Outcome
    requires c in s.locals
  {
    var s1 := SetLocals(s, c, s.locals[c].(agentId := id));
    if !Truthy(id) || !Truthy(mac) then Reply(s1, c, Error("Missing agent_id or mac_address"))
    else
      var s2 := SetLocals(s1, c, s1.locals[c].(role := Beacon));
      Reply(s2.(beacons := SetBeacon(s2.beacons, BeaconEntry(id.value, c, mac.value))), c, Registered(Beacon))
  }

  function HandleRegisterClient(s: State, c: Conn, cid: Option<Id>, target: Option<Id>): Outcome
    requires c in s.locals
  {
    var s1 := SetLocals(s, c, s.locals[c].(clientId := cid));
    if !Truthy(cid) || !Truthy(target) then Reply(s1, c, Error("Missing client_id or agent_id"))
    else
      var s2 := SetLocals(s1, c, s1.locals[c].(role := Client));
      var s3 := s2.(clients := s2.clients[cid.value := c],
                    clientToAgent := s2.clientToAgent[cid.value := target.value]);
      Reply(s3, c, AgentStatus(target.value in s3.agents))
  }

  function HandleSignal(s: State, c: Conn, dest: Option<Id>, payload: Option<string>): Outcome
    requires c in s.locals
  {
    var l := s.locals[c];
    if !Truthy(dest) || !Truthy(payload) then Outcome(s, false)
    else if l.role == Client then
      if l.clientId.Some? && l.clientId.value in s.clientToAgent && s.clientToAgent[l.clientId.value] in s.agents then
        Forward(s, s.agents[s.clientToAgent[l.clientId.value]], SignalFrom(l.clientId, payload.value))
      else Reply(s, c, Error("Agent is offline"))
    else if l.role == Agent && dest.value in s.clients then
      Forward(s, s.clients[dest.value], SignalFrom(l.agentId, payload.value))
    else Outcome(s, false)
  }

  function HandlePairRequest(s: State, c: Conn, m: Incoming): Outcome
    requires c in s.locals && m.PairRequest?
  {
    var s1 := SetLocals(s, c, s.locals[c].(clientId := m.clientId));
    if m.agentId.Some? && m.agentId.value in s1.agents then
      Forward(s1, s1.agents[m.agentId.value], PairRequestFrom(m.clientId, m.code, m.pubkey))
    else Reply(s1, c, PairResponseFor(Some("failed"), Some("Agent offline")))
  }

  function HandlePairResponse(s: State, m: Incoming): Outcome
    requires m.PairResponse?
  {
    if m.clientId.Some? && m.clientId.value in s.clients then
      Forward(s, s.clients[m.clientId.value], PairResponseFor(m.status, m.reason))
    else Outcome(s, false)
  }

  function Handle(s: State, c: Conn, m: Incoming): Outcome
    requires c in s.locals
  {
    match m
    case NotJson => Reply(s, c, Error("Invalid JSON"))
    case NotObject => Outcome(s, true)
    case Untyped => Outcome(s, false)
    case UnknownType => Outcome(s, false)
    case RegisterAgent(id) => HandleRegisterAgent(s, c, id)
    case RegisterBeacon(id, mac) => HandleRegisterBeacon(s, c, id, mac)
    case RegisterClient(cid, target) => HandleRegisterClient(s, c, cid, target)
    case Signal(dest, payload) => HandleSignal(s, c, dest, payload)
    case PairRequest(_, _, _, _) => HandlePairRequest(s, c, m)
    case PairResponse(_, _, _) => HandlePairResponse(s, m)
  }

  // ---- Leaving the loop ----

  /** The client ids mapped to an agent whose socket is d. */
  function WatchersAt(s: State, agentId: Id, d: Conn): set<Id> {
    set cid | cid in s.clientToAgent && s.clientToAgent[cid] == agentId && cid in s.clients && s.clients[cid] == d
  }

  /** Schedules one offline notice for every client id mapped to the agent. */
  function NotifyOffline(s: State, agentId: Id): (t: State)
    ensures t == s.(owed := t.owed) && t.owed.Keys == s.owed.Keys
  {
    s.(owed := map d | d in s.owed :: s.owed[d] + |WatchersAt(s, agentId, d)|)
  }

  /** The finally block. */
  function Cleanup(s: State, c: Conn): State
    requires c in s.locals
  {
    var l := s.locals[c];
    if l.role == Agent && l.agentId.Some? && l.agentId.value in s.agents then
      NotifyOffline(s.(agents := s.agents - {l.agentId.value}), l.agentId.value)
    else if l.role == Client && l.clientId.Some? && l.clientId.value in s.clients then
      s.(clients := s.clients - {l.clientId.value}, clientToAgent := s.clientToAgent - {l.clientId.value})
    else if l.role == Beacon then s.(beacons := RemoveBeacon(s.beacons, c))
    else s
  }

  function Close(s: State, c: Conn): State
    requires c in s.locals
  {
    Cleanup(s.(open := s.open - {c}), c)
  }

  // ---- Steps and runs ----

  datatype WakeResult = Forwarded | Unreachable | NoBeacon

  function WakeOutcome(s: State, id: Id): WakeResult {
    var b := FindBeacon(s.beacons, id);
    if b.None? then NoBeacon else if b.value.socket in s.open then Forwarded else Unreachable
  }

  /** Events of connections that are not open (or already known, for Connect) do not happen and change nothing. */
  function Step(s: State, e: Event): State {
    match e
    case Connect(c) =>
      if c in s.locals then s
      else s.(open := s.open + {c}, locals := s.locals[c := Locals(Unregistered, None, None)],
              outbox := s.outbox[c := []], owed := s.owed[c := 0])
    case Receive(c, m) =>
      if c !in s.open || c !in s.locals then s
      else
        var o := Handle(s, c, m);
        if o.raised then Close(o.state, c) else o.state
    case Disconnect(c) => if c !in s.open || c !in s.locals then s else Close(s, c)
    case Wake(id) =>
      var b := FindBeacon(s.beacons, id);
      if b.None? then s else Post(s, b.value.socket, WakeUp(b.value.mac))
    case SendNotice(c) =>
      if c !in s.owed || s.owed[c] == 0 then s
      else Post(s.(owed := s.owed[c := s.owed[c] - 1]), c, AgentStatus(false))
  }

  function After(run: seq<Event>): State
  {
    if |run| == 0 then INITIAL else Step(After(run[..|run| - 1]), run[|run| - 1])
  }
}
