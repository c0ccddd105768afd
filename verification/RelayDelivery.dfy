/** What the relay delivers: agent status notices that stay true, and signals in order, unchanged and at most once. */
module RelayDelivery {
  import opened Wrappers
  import opened Relay
  import opened RelayRegistry
  import opened RelayUnique

  // ---- Agent status ----

  /** The last status notice in an outbox. */
  function LastStatus(mail: seq<Outgoing>): Option<bool> {
    if |mail| == 0 then None
    else if mail[|mail| - 1].AgentStatus? then Some(mail[|mail| - 1].online)
    else LastStatus(mail[..|mail| - 1])
  }

  predicate ToldOnline(s: State, d: Conn) {
    d in s.open && d in s.outbox && LastStatus(s.outbox[d]) == Some(true)
  }

  /** An offline notice for the connection is scheduled. */
  predicate NoticeOwed(s: State, d: Conn) {
    d in s.owed && s.owed[d] > 0
  }

  /** A connected client whose last notice was "online" has its agent registered, or an offline notice on its way. */
  predicate StatusSound(s: State) {
    forall i :: i in s.clients && i in s.clientToAgent && ToldOnline(s, s.clients[i]) ==>
      s.clientToAgent[i] in s.agents || NoticeOwed(s, s.clients[i])
  }

  /** A message that registers its sender as a client. */
  predicate RegistersClient(m: Incoming) {
    m.RegisterClient? && Truthy(m.clientId) && Truthy(m.agentId)
  }

  /** The connection owns no other client entry whose agent is away, or is owed an offline notice. */
  predicate OtherAgentsPresent(s: State, c: Conn, id: Id) {
    NoticeOwed(s, c) ||
    forall i :: i in s.clients && i in s.clientToAgent && i != id && s.clients[i] == c ==>
      s.clientToAgent[i] in s.agents
  }

  lemma StatusAppended(mail: seq<Outgoing>, m: Outgoing)
    ensures LastStatus(mail + [m]) == if m.AgentStatus? then Some(m.online) else LastStatus(mail)
  {
    assert (mail + [m])[..|mail|] == mail;
  }

  /** Mail that is no status notice changes nobody's last status. */
  lemma PostStatus(s: State, d: Conn, m: Outgoing)
    requires !m.AgentStatus?
    ensures forall x :: ToldOnline(Post(s, d, m), x) <==> ToldOnline(s, x)
  {
    if d in s.open && d in s.outbox {
      StatusAppended(s.outbox[d], m);
    }
  }

  lemma CloseStatus(s: State, c: Conn)
    requires Sound(s) && c in s.open && StatusSound(s)
    ensures StatusSound(Close(s, c))
  {
    hide RemoveBeacon, DistinctBeacons, LastStatus;
    var t := Close(s, c);
    forall i | i in t.clients && i in t.clientToAgent && ToldOnline(t, t.clients[i])
      ensures t.clientToAgent[i] in t.agents || NoticeOwed(t, t.clients[i])
    {
      var d := t.clients[i];
      var l := s.locals[c];
      assert ToldOnline(s, d);
      if l.role == Agent && l.agentId.Some? && l.agentId.value in s.agents {
        var gone := l.agentId.value;
        var v := s.(open := s.open - {c}).(agents := s.agents - {gone});
        assert s.clientToAgent[i] == gone ==> i in WatchersAt(v, gone, d);
        assert t.owed[d] == s.owed[d] + |WatchersAt(v, gone, d)|;
      }
    }
  }

  /** Sending a scheduled notice leaves its receiver told "offline". */
  lemma NoticeStatus(s: State, c: Conn)
    requires Sound(s) && StatusSound(s)
    ensures StatusSound(Step(s, SendNotice(c)))
  {
    hide DistinctBeacons, LastStatus;
    var t := Step(s, SendNotice(c));
    if NoticeOwed(s, c) {
      StatusAppended(s.outbox[c], AgentStatus(false));
      assert !ToldOnline(t, c);
      assert forall d :: d != c ==> (ToldOnline(t, d) <==> ToldOnline(s, d));
      assert forall d :: d != c ==> (NoticeOwed(t, d) <==> NoticeOwed(s, d));
    }
  }

  lemma RegisterClientStatus(s: State, c: Conn, id: Id, target: Id)
    requires Sound(s) && c in s.open && StatusSound(s) && id != "" && target != ""
    ensures StatusSound(HandleRegisterClient(s, c, Some(id), Some(target)).state)
       <==> (target in s.agents ==> OtherAgentsPresent(s, c, id))
  {
    var t := HandleRegisterClient(s, c, Some(id), Some(target)).state;
    StatusAppended(s.outbox[c], AgentStatus(target in s.agents));
    assert ToldOnline(t, c) <==> target in s.agents;
    assert forall x :: x != c ==> (ToldOnline(t, x) <==> ToldOnline(s, x));
    hide DistinctBeacons, LastStatus, ToldOnline;
    if target in s.agents && !OtherAgentsPresent(s, c, id) {
      var i :| i in s.clients && i in s.clientToAgent && i != id && s.clients[i] == c
               && s.clientToAgent[i] !in s.agents;
      assert i in t.clients && i in t.clientToAgent && t.clients[i] == c && t.owed == s.owed;
    }
  }

  // ---- The one message a handler posts ----

  predicate Posts(s: State, t: State, d: Conn, x: Outgoing) {
    d in s.open && d in s.outbox && t.outbox == s.outbox[d := s.outbox[d] + [x]]
  }

  /** The socket that the relay routes a signal of c to: the client's agent, or the client an agent names. */
  predicate RoutesTo(s: State, c: Conn, dest: Id, d: Conn)
    requires c in s.locals
  {
    var l := s.locals[c];
    if l.role == Client then
      && l.clientId.Some? && l.clientId.value in s.clientToAgent
      && s.clientToAgent[l.clientId.value] in s.agents && s.agents[s.clientToAgent[l.clientId.value]] == d
    else l.role == Agent && dest in s.clients && s.clients[dest] == d
  }

  predicate IsSignal(m: Incoming) {
    m.Signal? && Truthy(m.dest) && Truthy(m.payload)
  }

  /** What a posted message says about the message that caused it. */
  predicate Caused(s: State, c: Conn, m: Incoming, d: Conn, x: Outgoing)
    requires c in s.locals
  {
    && (x.AgentStatus? ==> RegistersClient(m))
    && (x.SignalFrom? ==>
          && IsSignal(m) && RoutesTo(s, c, m.dest.value, d)
          && x.payload == m.payload.value && x.sender == SenderName(s.locals[c]))
  }

  lemma RegistrationPost(s: State, c: Conn, m: Incoming) returns (x: Outgoing)
    requires WellFormed(s) && c in s.open && IsRegistration(m)
    ensures Posts(s, Handle(s, c, m).state, c, x) && Caused(s, c, m, c, x)
    ensures x.Registered? || x.AgentStatus? || x.Error?
  {
    hide SetBeacon;
    match m
    case RegisterAgent(id) =>
      x := if Truthy(id) then Registered(Agent) else Error("Missing agent_id");
    case RegisterBeacon(id, mac) =>
      x := if Truthy(id) && Truthy(mac) then Registered(Beacon) else Error("Missing agent_id or mac_address");
    case RegisterClient(cid, target) =>
      x := if RegistersClient(m) then AgentStatus(target.value in s.agents) else Error("Missing client_id or agent_id");
  }

  lemma RoutingPost(s: State, c: Conn, m: Incoming) returns (sent: bool, d: Conn, x: Outgoing)
    requires WellFormed(s) && c in s.open && !IsRegistration(m)
    ensures sent ==> Posts(s, Handle(s, c, m).state, d, x) && Caused(s, c, m, d, x)
    ensures !sent ==> Handle(s, c, m).state.outbox == s.outbox
    ensures forall r :: IsSignal(m) && RoutesTo(s, c, m.dest.value, r) && r in s.open ==>
              sent && d == r && x.SignalFrom?
  {
    var l := s.locals[c];
    d, x := c, Error("Invalid JSON");
    match m
    case Signal(dest, payload) =>
      if IsSignal(m) && l.role == Client {
        var known := l.clientId.Some? && l.clientId.value in s.clientToAgent
                     && s.clientToAgent[l.clientId.value] in s.agents;
        d := if known then s.agents[s.clientToAgent[l.clientId.value]] else c;
        x := if known then SignalFrom(l.clientId, payload.value) else Error("Agent is offline");
        sent := d in s.open;
      } else if IsSignal(m) && l.role == Agent && dest.value in s.clients {
        d, x := s.clients[dest.value], SignalFrom(l.agentId, payload.value);
        sent := d in s.open;
      } else {
        sent := false;
      }
    case PairRequest(id, cid, code, key) =>
      var known := id.Some? && id.value in s.agents;
      d := if known then s.agents[id.value] else c;
      x := if known then PairRequestFrom(cid, code, key) else PairResponseFor(Some("failed"), Some("Agent offline"));
      sent := d in s.open;
    case PairResponse(cid, status, reason) =>
      var known := cid.Some? && cid.value in s.clients;
      d := if known then s.clients[cid.value] else c;
      x := PairResponseFor(status, reason);
      sent := known && d in s.open;
    case _ =>
      sent := m.NotJson?;
  }

  lemma HandleStatus(s: State, c: Conn, m: Incoming)
    requires Sound(s) && c in s.open && StatusSound(s)
    requires RegistersClient(m) && m.agentId.value in s.agents ==> OtherAgentsPresent(s, c, m.clientId.value)
    ensures StatusSound(Handle(s, c, m).state)
  {
    if RegistersClient(m) {
      RegisterClientStatus(s, c, m.clientId.value, m.agentId.value);
    } else {
      QuietMail(s, c, m);
      QuietRegistries(s, c, m);
      hide ToldOnline, Handle;
    }
  }

  /** No client entry changes, no agent leaves and no notice is scheduled. */
  predicate Quiet(s: State, t: State) {
    && t.clients == s.clients && t.clientToAgent == s.clientToAgent && s.agents.Keys <= t.agents.Keys
    && t.locals.Keys == s.locals.Keys && t.owed == s.owed
  }

  lemma QuietAgent(s: State, c: Conn, id: Option<Id>)
    requires c in s.locals
    ensures Quiet(s, HandleRegisterAgent(s, c, id).state)
  {
    hide Post;
  }

  lemma QuietBeacon(s: State, c: Conn, id: Option<Id>, mac: Option<string>)
    requires c in s.locals
    ensures Quiet(s, HandleRegisterBeacon(s, c, id, mac).state)
  {
    hide Post, SetBeacon;
  }

  lemma QuietClient(s: State, c: Conn, cid: Option<Id>, target: Option<Id>)
    requires c in s.locals && !RegistersClient(RegisterClient(cid, target))
    ensures Quiet(s, HandleRegisterClient(s, c, cid, target).state)
  {
    hide Post;
  }

  lemma QuietRouting(s: State, c: Conn, m: Incoming)
    requires c in s.locals
    ensures m.Signal? ==> Quiet(s, HandleSignal(s, c, m.dest, m.payload).state)
    ensures m.PairRequest? ==> Quiet(s, HandlePairRequest(s, c, m).state)
    ensures m.PairResponse? ==> Quiet(s, HandlePairResponse(s, m).state)
  {
    hide Post;
  }

  lemma QuietRegistries(s: State, c: Conn, m: Incoming)
    requires c in s.open && c in s.locals && !RegistersClient(m)
    ensures Quiet(s, Handle(s, c, m).state)
  {
    hide Post, HandleRegisterAgent, HandleRegisterBeacon, HandleRegisterClient, HandleSignal, HandlePairRequest,
         HandlePairResponse, RegistersClient;
    match m
    case RegisterAgent(id) => QuietAgent(s, c, id);
    case RegisterBeacon(id, mac) => QuietBeacon(s, c, id, mac);
    case RegisterClient(cid, target) => QuietClient(s, c, cid, target);
    case _ => QuietRouting(s, c, m);
  }

  /** Every other handler posts no status notice. */
  lemma QuietMail(s: State, c: Conn, m: Incoming)
    requires Sound(s) && c in s.open && !RegistersClient(m)
    ensures forall x :: ToldOnline(Handle(s, c, m).state, x) ==> ToldOnline(s, x)
  {
    var sent, d, x := true, c, Error("");
    if IsRegistration(m) {
      x := RegistrationPost(s, c, m);
    } else {
      sent, d, x := RoutingPost(s, c, m);
    }
    HandleSound(s, c, m);
    if sent {
      StatusAppended(s.outbox[d], x);
    }
    hide Handle;
  }

  /** The registration of a client leaves no entry of the sender's other ids with an absent agent behind. */
  predicate CarefulEvent(s: State, e: Event) {
    e.Receive? && e.conn in s.open && RegistersClient(e.message) && e.message.agentId.value in s.agents ==>
      OtherAgentsPresent(s, e.conn, e.message.clientId.value)
  }

  lemma MailStatus(s: State, t: State)
    requires StatusSound(s) && t == s.(open := t.open, locals := t.locals, outbox := t.outbox, owed := t.owed)
    requires forall d :: NoticeOwed(s, d) ==> NoticeOwed(t, d)
    requires forall d :: ToldOnline(t, d) ==> ToldOnline(s, d)
    ensures StatusSound(t)
  {
    hide ToldOnline;
  }

  lemma StepStatus(s: State, e: Event)
    requires Sound(s) && StatusSound(s) && CarefulEvent(s, e)
    ensures StatusSound(Step(s, e))
  {
    match e
    case Connect(c) => MailStatus(s, Step(s, e));
    case Receive(c, m) =>
      hide Handle, Close, StatusSound;
      if c in s.open {
        HandleStatus(s, c, m);
        HandleSound(s, c, m);
        CloseStatus(Handle(s, c, m).state, c);
      }
    case Disconnect(c) =>
      hide Close, StatusSound;
      if c in s.open {
        CloseStatus(s, c);
      }
    case Wake(id) =>
      var b := FindBeacon(s.beacons, id);
      if b.Some? {
        PostStatus(s, b.value.socket, WakeUp(b.value.mac));
        MailStatus(s, Step(s, e));
      }
    case SendNotice(c) => NoticeStatus(s, c);
  }

  /** A registration keeps the notices true exactly if its sender has no other client entry with an absent agent. */
  lemma RegistrationKeepsStatusIff(s: State, c: Conn, m: Incoming)
    requires Sound(s) && c in s.open && StatusSound(s) && RegistersClient(m)
    ensures StatusSound(Step(s, Receive(c, m))) <==> CarefulEvent(s, Receive(c, m))
  {
    RegisterClientStatus(s, c, m.clientId.value, m.agentId.value);
    hide HandleRegisterClient, StatusSound;
    RegistersQuietly(s, c, m);
  }

  lemma RegistersQuietly(s: State, c: Conn, m: Incoming)
    requires c in s.locals && RegistersClient(m)
    ensures !Handle(s, c, m).raised && Handle(s, c, m) == HandleRegisterClient(s, c, m.clientId, m.agentId)
  {
  }

  // ---- Runs in which each connection registers as a client at most once ----

  predicate ClientRegistration(e: Event, c: Conn) {
    e.Receive? && e.conn == c && RegistersClient(e.message)
  }

  ghost predicate RegistersOnce(run: seq<Event>) {
    forall i, j, c :: 0 <= i < j < |run| && ClientRegistration(run[i], c) ==> !ClientRegistration(run[j], c)
  }

  /** Every client entry stems from a registration that its socket sent. */
  lemma {:induction false} EntryStems(run: seq<Event>, id: Id) returns (i: nat)
    requires id in After(run).clients
    ensures i < |run| && ClientRegistration(run[i], After(run).clients[id])
  {
    var init, e := run[..|run| - 1], run[|run| - 1];
    var s := After(init);
    if e.Receive? && e.conn in s.open && RegistersClient(e.message) && e.message.clientId.value == id {
      i := |run| - 1;
      RunSound(init);
      RegistersQuietly(s, e.conn, e.message);
    } else {
      StepClients(s, e, id);
      i := EntryStems(init, id);
    }
  }

  lemma StepClients(s: State, e: Event, id: Id)
    requires id in Step(s, e).clients
    requires !(e.Receive? && e.conn in s.open && RegistersClient(e.message) && e.message.clientId.value == id)
    ensures id in s.clients && s.clients[id] == Step(s, e).clients[id]
  {
    hide Post, Handle, Close, FindBeacon, RegistersClient;
    match e
    case Receive(c, m) =>
      if c in s.open && c in s.locals {
        HandleClients(s, c, m, id);
        CloseClients(Handle(s, c, m).state, c, id);
      }
    case Disconnect(c) =>
      if c in s.locals {
        CloseClients(s, c, id);
      }
    case _ =>
  }

  lemma CloseClients(s: State, c: Conn, id: Id)
    requires c in s.locals
    ensures id in Close(s, c).clients ==> id in s.clients && s.clients[id] == Close(s, c).clients[id]
  {
    hide RemoveBeacon, NotifyOffline;
  }

  lemma HandleClients(s: State, c: Conn, m: Incoming, id: Id)
    requires c in s.locals && c in s.open && !(RegistersClient(m) && m.clientId.value == id)
    ensures c in Handle(s, c, m).state.locals
    ensures var t := Handle(s, c, m).state;
            (id in t.clients <==> id in s.clients) && (id in s.clients ==> t.clients[id] == s.clients[id])
  {
    hide Handle, Post;
    if RegistersClient(m) {
      RegistersQuietly(s, c, m);
    } else {
      QuietRegistries(s, c, m);
    }
  }

  /**
   * In every run in which no connection registers as a client twice, a connected client whose last notice says
   * "online" has its target agent registered now.
   */
  lemma {:induction false} OnlineMeansRegistered(run: seq<Event>)
    requires RegistersOnce(run)
    ensures StatusSound(After(run))
  {
    if |run| > 0 {
      var init, e := run[..|run| - 1], run[|run| - 1];
      assert forall i :: 0 <= i < |init| ==> init[i] == run[i];
      OnlineMeansRegistered(init);
      RunSound(init);
      var s := After(init);
      if e.Receive? && e.conn in s.open && RegistersClient(e.message) {
        forall i | i in s.clients && s.clients[i] == e.conn ensures false {
          var j := EntryStems(init, i);
          assert ClientRegistration(run[j], e.conn) && ClientRegistration(run[|run| - 1], e.conn);
        }
      }
      StepStatus(s, e);
    }
  }

  /** A connection that registers twice, first for an absent agent and then for a present one. */
  function TwiceRun(): seq<Event> {
    [Connect(0), Receive(0, RegisterAgent(Some("B"))), Connect(1),
     Receive(1, RegisterClient(Some("x"), Some("A"))), Receive(1, RegisterClient(Some("y"), Some("B")))]
  }

  lemma TwiceBegins()
    ensures var s := After(TwiceRun()[..2]); s.locals.Keys == {0} && s.agents.Keys == {"B"}
  {
    hide Step, After;
    var run := TwiceRun();
    assert run[..0] == [] && After(run[..0]) == INITIAL by { StartsEmpty(); }
    RunStep(run, 0);
    ConnectEffect(INITIAL, 0);
    RunStep(run, 1);
    AgentEffect(After(run[..1]), 0, "B");
  }

  lemma StartsEmpty()
    ensures After([]) == INITIAL
  {
  }

  lemma TwiceStates()
    ensures var s := After(TwiceRun()[..4]);
            && 1 in s.open && 1 in s.locals && !NoticeOwed(s, 1) && s.agents.Keys == {"B"}
            && "x" in s.clients && "x" in s.clientToAgent && s.clients["x"] == 1 && s.clientToAgent["x"] == "A"
  {
    hide Step, After;
    var run := TwiceRun();
    TwiceBegins();
    RunStep(run, 2);
    ConnectEffect(After(run[..2]), 1);
    RunStep(run, 3);
    ClientEffect(After(run[..3]), 1, "x", "A");
  }

  lemma AgentEffect(s: State, c: Conn, id: Id)
    requires c in s.open && c in s.locals && s.locals[c] == Locals(Unregistered, None, None) && id != ""
    ensures var t := Step(s, Receive(c, RegisterAgent(Some(id))));
            && t.open == s.open && t.locals.Keys == s.locals.Keys && t.owed == s.owed && t.agents == s.agents[id := c]
  {
    RegisterEffect(s, c, RegisterAgent(Some(id)));
  }

  lemma ClientEffect(s: State, c: Conn, id: Id, target: Id)
    requires c in s.open && c in s.locals && id != "" && target != ""
    ensures var t := Step(s, Receive(c, RegisterClient(Some(id), Some(target))));
            && t.open == s.open && t.locals.Keys == s.locals.Keys && t.owed == s.owed && t.agents == s.agents
            && t.clients == s.clients[id := c] && t.clientToAgent == s.clientToAgent[id := target]
  {
    RegistersQuietly(s, c, RegisterClient(Some(id), Some(target)));
    hide Post, Handle;
  }

  lemma TwiceMisleads()
    ensures !StatusSound(After(TwiceRun()))
  {
    hide After, StatusSound, Sound, Step, CarefulEvent;
    var run := TwiceRun();
    TwiceStates();
    RunStep(run, 4);
    assert run[..5] == run;
    OnlineMeansRegistered(run[..4]);
    RunSound(run[..4]);
    var s, e := After(run[..4]), run[4];
    NotCareful(s);
    RegistrationKeepsStatusIff(s, 1, RegisterClient(Some("y"), Some("B")));
  }

  lemma NotCareful(s: State)
    requires 1 in s.open && !NoticeOwed(s, 1) && "B" in s.agents && "A" !in s.agents
    requires "x" in s.clients && "x" in s.clientToAgent && s.clients["x"] == 1 && s.clientToAgent["x"] == "A"
    ensures !CarefulEvent(s, Receive(1, RegisterClient(Some("y"), Some("B"))))
  {
    assert "x" != "y" && "A" != "B";
  }

  // ---- Signals ----

  /** A forwarded signal: the name its sender is given, and the payload. */
  datatype Relayed = Relayed(sender: Option<Id>, payload: string)

  function SignalsIn(mail: seq<Outgoing>): seq<Relayed> {
    if |mail| == 0 then []
    else SignalsIn(mail[..|mail| - 1]) +
         (if mail[|mail| - 1].SignalFrom? then [Relayed(mail[|mail| - 1].sender, mail[|mail| - 1].payload)] else [])
  }

  /** The id in the locals that stands for a sender. */
  function SenderName(l: Locals): Option<Id> {
    if l.role == Client then l.clientId else l.agentId
  }

  /** The signal a message asks the relay to forward. */
  function Outbound(s: State, c: Conn, m: Incoming): Relayed
    requires c in s.locals && IsSignal(m)
  {
    Relayed(SenderName(s.locals[c]), m.payload.value)
  }

  /** The mail a step adds to the outbox of d. */
  function NewMail(s: State, t: State, d: Conn): seq<Outgoing> {
    if d in s.outbox && d in t.outbox && |s.outbox[d]| <= |t.outbox[d]| then t.outbox[d][|s.outbox[d]|..] else []
  }

  /** The signals that a step of c's handler delivers to d. */
  function Delivered(s: State, e: Event, d: Conn): seq<Relayed> {
    SignalsIn(NewMail(s, Step(s, e), d))
  }

  /** The event makes the relay forward a signal to d. */
  predicate ForwardsTo(s: State, e: Event, d: Conn) {
    && e.Receive? && e.conn in s.open && e.conn in s.locals && d in s.open
    && IsSignal(e.message) && RoutesTo(s, e.conn, e.message.dest.value, d)
  }

  lemma {:induction false} SignalsAppend(a: seq<Outgoing>, b: seq<Outgoing>)
    ensures SignalsIn(a + b) == SignalsIn(a) + SignalsIn(b)
  {
    if |b| == 0 {
      assert a + b == a;
    } else {
      SignalsAppend(a, b[..|b| - 1]);
      assert (a + b)[..|a + b| - 1] == a + b[..|b| - 1];
    }
  }

  lemma CloseSignals(s: State, c: Conn, d: Conn)
    requires Sound(s) && c in s.open && d in s.outbox
    ensures d in Close(s, c).outbox && s.outbox[d] <= Close(s, c).outbox[d]
    ensures SignalsIn(NewMail(s, Close(s, c), d)) == []
  {
    hide RemoveBeacon, DistinctBeacons, NotifyOffline;
    assert Close(s, c).outbox == s.outbox;
  }

  lemma HandleSignals(s: State, c: Conn, m: Incoming, d: Conn)
    requires Sound(s) && c in s.open && d in s.outbox
    ensures var t := Handle(s, c, m).state;
            && d in t.outbox && s.outbox[d] <= t.outbox[d]
            && SignalsIn(NewMail(s, t, d)) == if ForwardsTo(s, Receive(c, m), d) then [Outbound(s, c, m)] else []
  {
    var sent, r, x := true, c, Error("");
    if IsRegistration(m) {
      x := RegistrationPost(s, c, m);
    } else {
      sent, r, x := RoutingPost(s, c, m);
    }
    var t := Handle(s, c, m).state;
    hide Handle, DistinctBeacons, RoutesTo;
    assert NewMail(s, t, d) == if sent && d == r then [x] else [];
    OneSignal(x);
  }

  /** t's outbox of d extends the one of s. */
  predicate Extends(s: State, t: State, d: Conn) {
    d in s.outbox && d in t.outbox && s.outbox[d] <= t.outbox[d]
  }

  lemma MailComposes(s: State, u: State, t: State, d: Conn)
    requires Extends(s, u, d) && Extends(u, t, d)
    ensures Extends(s, t, d)
    ensures SignalsIn(NewMail(s, t, d)) == SignalsIn(NewMail(s, u, d)) + SignalsIn(NewMail(u, t, d))
  {
    SignalsAppend(NewMail(s, u, d), NewMail(u, t, d));
    assert NewMail(s, t, d) == NewMail(s, u, d) + NewMail(u, t, d);
  }

  lemma OneSignal(x: Outgoing)
    ensures SignalsIn([x]) == if x.SignalFrom? then [Relayed(x.sender, x.payload)] else []
  {
    assert [x][..0] == [];
    assert SignalsIn([x]) == SignalsIn([]) + (if x.SignalFrom? then [Relayed(x.sender, x.payload)] else []);
  }

  lemma ReceiveDelivers(s: State, c: Conn, m: Incoming, d: Conn)
    requires Sound(s) && d in s.outbox
    ensures Extends(s, Step(s, Receive(c, m)), d)
    ensures Delivered(s, Receive(c, m), d) == if ForwardsTo(s, Receive(c, m), d) then [Outbound(s, c, m)] else []
  {
    if c in s.open {
      var u := Handle(s, c, m).state;
      HandleSignals(s, c, m, d);
      HandleSound(s, c, m);
      CloseSignals(u, c, d);
      hide Handle, Close, ForwardsTo, DistinctBeacons, NewMail, SignalsIn;
      MailComposes(s, u, Close(u, c), d);
    } else {
      NotOpen(s, Receive(c, m), d);
    }
  }

  lemma WakeDelivers(s: State, id: Id, d: Conn)
    requires d in s.outbox
    ensures d in Step(s, Wake(id)).outbox && s.outbox[d] <= Step(s, Wake(id)).outbox[d]
    ensures Delivered(s, Wake(id), d) == []
  {
    hide FindBeacon;
    var t, b := Step(s, Wake(id)), FindBeacon(s.beacons, id);
    if b.Some? && b.value.socket == d && d in s.open {
      assert NewMail(s, t, d) == [WakeUp(b.value.mac)];
      OneSignal(WakeUp(b.value.mac));
    } else {
      assert NewMail(s, t, d) == [];
    }
  }

  /**
   * A step delivers to d exactly the signal it receives, with its payload and the sender's name in its locals, if the
   * relay routes that signal to d, and no other signal; earlier mail stays in place.
   */
  lemma StepDelivers(s: State, e: Event, d: Conn)
    requires Sound(s) && d in s.outbox
    ensures d in Step(s, e).outbox && s.outbox[d] <= Step(s, e).outbox[d]
    ensures Delivered(s, e, d) == if ForwardsTo(s, e, d) then [Outbound(s, e.conn, e.message)] else []
  {
    hide Close, Handle, DistinctBeacons;
    match e
    case Connect(c) =>
      assert NewMail(s, Step(s, e), d) == [];
    case Receive(c, m) => ReceiveDelivers(s, c, m, d);
    case Disconnect(c) =>
      if c in s.open {
        CloseSignals(s, c, d);
      }
    case Wake(id) => WakeDelivers(s, id, d);
    case SendNotice(c) => NoticeDelivers(s, c, d);
  }

  lemma NoticeDelivers(s: State, c: Conn, d: Conn)
    requires Sound(s) && d in s.outbox
    ensures d in Step(s, SendNotice(c)).outbox && s.outbox[d] <= Step(s, SendNotice(c)).outbox[d]
    ensures Delivered(s, SendNotice(c), d) == []
  {
    hide DistinctBeacons;
    var t := Step(s, SendNotice(c));
    if c == d && NoticeOwed(s, c) && d in s.open {
      assert NewMail(s, t, d) == [AgentStatus(false)];
      OneSignal(AgentStatus(false));
    } else {
      assert NewMail(s, t, d) == [];
    }
  }

  lemma NotOpen(s: State, e: Event, d: Conn)
    requires e.Receive? && e.conn !in s.open
    ensures !ForwardsTo(s, e, d)
  {
  }

  /** At most one socket gets the signal. */
  lemma OneRecipient(s: State, e: Event, d1: Conn, d2: Conn)
    requires Sound(s) && d1 in s.outbox && d2 in s.outbox
    requires Delivered(s, e, d1) != [] && Delivered(s, e, d2) != []
    ensures d1 == d2
  {
    StepDelivers(s, e, d1);
    StepDelivers(s, e, d2);
    hide Step;
  }

  predicate Subsequence(a: seq<Relayed>, b: seq<Relayed>) {
    |a| == 0 || (|b| > 0 && (Subsequence(a, b[..|b| - 1])
                             || (a[|a| - 1] == b[|b| - 1] && Subsequence(a[..|a| - 1], b[..|b| - 1]))))
  }

  /** The signals c sent while connected, in order, under the names its locals gave it at the time. */
  function SentBy(run: seq<Event>, c: Conn): seq<Relayed> {
    if |run| == 0 then []
    else
      var init, e := run[..|run| - 1], run[|run| - 1];
      SentBy(init, c) + SentIn(After(init), e, c)
  }

  /** The signals that the steps of c's handler put into the outbox of d, in order. */
  function DeliveredFrom(run: seq<Event>, c: Conn, d: Conn): seq<Relayed> {
    if |run| == 0 then []
    else
      var init, e := run[..|run| - 1], run[|run| - 1];
      DeliveredFrom(init, c, d) + DeliveredBy(After(init), e, c, d)
  }

  /** Over every interleaving, d receives from c a subsequence of what c sent, in order and unchanged. */
  lemma {:induction false} SignalsInOrder(run: seq<Event>, c: Conn, d: Conn)
    ensures Subsequence(DeliveredFrom(run, c, d), SentBy(run, c))
  {
    hide Step, After, Delivered, Outbound, ForwardsTo, IsSignal;
    if |run| > 0 {
      var init, e := run[..|run| - 1], run[|run| - 1];
      SignalsInOrder(init, c, d);
      RunSound(init);
      StepSends(After(init), e, c, d);
      Append(DeliveredFrom(init, c, d), SentBy(init, c), DeliveredBy(After(init), e, c, d), SentIn(After(init), e, c));
    }
  }

  /** The signals that one step delivers from c to d. */
  function DeliveredBy(s: State, e: Event, c: Conn, d: Conn): seq<Relayed> {
    if e.Receive? && e.conn == c then Delivered(s, e, d) else []
  }

  /** The signals that c sends in one step. */
  function SentIn(s: State, e: Event, c: Conn): seq<Relayed> {
    if e.Receive? && e.conn == c && c in s.open && c in s.locals && IsSignal(e.message) then [Outbound(s, c, e.message)]
    else []
  }

  lemma StepSends(s: State, e: Event, c: Conn, d: Conn)
    requires Sound(s)
    ensures DeliveredBy(s, e, c, d) == [] || (|SentIn(s, e, c)| == 1 && DeliveredBy(s, e, c, d) == SentIn(s, e, c))
  {
    hide Step, Sound;
    if d in s.outbox {
      StepDelivers(s, e, d);
    }
  }

  lemma Append(a: seq<Relayed>, b: seq<Relayed>, x: seq<Relayed>, y: seq<Relayed>)
    requires Subsequence(a, b) && |y| <= 1 && (x == [] || x == y)
    ensures Subsequence(a + x, b + y)
  {
    hide Subsequence;
    assert a + [] == a && b + [] == b;
    if y != [] {
      SubsequenceUnfolds(a + x, b + y);
      assert (b + y)[..|b|] == b && (a + y)[..|a|] == a;
    }
  }

  lemma SubsequenceUnfolds(a: seq<Relayed>, b: seq<Relayed>)
    requires |b| > 0
    ensures Subsequence(a, b[..|b| - 1]) ==> Subsequence(a, b)
    ensures |a| > 0 && a[|a| - 1] == b[|b| - 1] && Subsequence(a[..|a| - 1], b[..|b| - 1]) ==> Subsequence(a, b)
  {
  }

  /** The signals that any step put into the outbox of d. */
  function DeliveredTo(run: seq<Event>, d: Conn): seq<Relayed> {
    if |run| == 0 then []
    else DeliveredTo(run[..|run| - 1], d) + Delivered(After(run[..|run| - 1]), run[|run| - 1], d)
  }

  /** Every signal in an outbox comes from one of these deliveries. */
  lemma {:induction false} OutboxIsDeliveries(run: seq<Event>, d: Conn)
    ensures d in After(run).outbox ==> SignalsIn(After(run).outbox[d]) == DeliveredTo(run, d)
    ensures d !in After(run).outbox ==> DeliveredTo(run, d) == []
  {
    if |run| > 0 {
      var init, e := run[..|run| - 1], run[|run| - 1];
      OutboxIsDeliveries(init, d);
      RunSound(init);
      StepSignals(After(init), e, d);
      hide Step, After, Delivered;
    }
  }

  lemma StepSignals(s: State, e: Event, d: Conn)
    requires Sound(s)
    ensures d in s.outbox ==>
              d in Step(s, e).outbox && SignalsIn(Step(s, e).outbox[d]) == SignalsIn(s.outbox[d]) + Delivered(s, e, d)
    ensures d !in s.outbox ==> Delivered(s, e, d) == [] && (d in Step(s, e).outbox ==> Step(s, e).outbox[d] == [])
  {
    var t := Step(s, e);
    if d in s.outbox {
      StepDelivers(s, e, d);
      SignalsAppend(s.outbox[d], NewMail(s, t, d));
      assert t.outbox[d] == s.outbox[d] + NewMail(s, t, d);
    } else {
      NewOutbox(s, e);
    }
    hide Step;
  }

  lemma NewOutbox(s: State, e: Event)
    requires Sound(s)
    ensures forall d :: d in Step(s, e).outbox && d !in s.outbox ==> Step(s, e).outbox[d] == []
  {
    hide Handle, RemoveBeacon, DistinctBeacons;
    if e.Receive? && e.conn in s.open {
      HandleSound(s, e.conn, e.message);
    }
  }
}
