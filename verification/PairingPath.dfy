/** Pairing from end to end: a client's request through the relay's proxy into the agent's store. */
module PairingPath {
  import opened Wrappers
  import opened Relay
  import opened RelayRegistry
  import opened RelayDelivery
  import Pairing
  import SignedOffer

  // ---- The relay's pairing proxy ----

  predicate IsPairMail(x: Outgoing) {
    x.PairRequestFrom? || x.PairResponseFor?
  }

  /** The connection that a pair request or response is proxied to, and what it is told. */
  predicate ProxiedTo(s: State, c: Conn, m: Incoming, d: Conn, x: Outgoing) {
    match m
    case PairRequest(a, cid, code, key) =>
      if a.Some? && a.value in s.agents then d == s.agents[a.value] && x == PairRequestFrom(cid, code, key)
      else d == c && x == PairResponseFor(Some("failed"), Some("Agent offline"))
    case PairResponse(cid, status, reason) =>
      cid.Some? && cid.value in s.clients && d == s.clients[cid.value] && x == PairResponseFor(status, reason)
    case _ => false
  }

  /** The event makes the relay send x to d. */
  predicate Proxied(s: State, e: Event, d: Conn, x: Outgoing) {
    e.Receive? && e.conn in s.open && e.conn in s.locals && d in s.open && ProxiedTo(s, e.conn, e.message, d, x)
  }

  predicate InMail(s: State, d: Conn, x: Outgoing) {
    d in s.outbox && x in s.outbox[d]
  }

  lemma PostMail(s: State, dest: Conn, y: Outgoing, d: Conn, x: Outgoing)
    ensures InMail(Post(s, dest, y), d, x) <==> InMail(s, d, x) || (dest == d && d in s.open && d in s.outbox && x == y)
  {
  }

  lemma RegistrationPairMail(s: State, c: Conn, m: Incoming, d: Conn, x: Outgoing)
    requires WellFormed(s) && c in s.open && IsPairMail(x) && IsRegistration(m)
    ensures InMail(Handle(s, c, m).state, d, x) <==> InMail(s, d, x)
  {
    hide Handle;
    var reply := RegistrationPost(s, c, m);
  }

  lemma HandlePairMail(s: State, c: Conn, m: Incoming, d: Conn, x: Outgoing)
    requires WellFormed(s) && c in s.open && IsPairMail(x)
    ensures InMail(Handle(s, c, m).state, d, x) <==> InMail(s, d, x) || Proxied(s, Receive(c, m), d, x)
  {
    hide HandleRegisterAgent, HandleRegisterBeacon, HandleRegisterClient, HandleSignal, HandlePairRequest,
         HandlePairResponse, DistinctBeacons, Post;
    match m
    case Signal(dest, payload) => SignalPairMail(s, c, dest, payload, d, x);
    case PairRequest(_, _, _, _) => RequestPairMail(s, c, m, d, x);
    case PairResponse(_, _, _) => ResponsePairMail(s, c, m, d, x);
    case NotJson => PostMail(s, c, Error("Invalid JSON"), d, x);
    case _ =>
      if IsRegistration(m) {
        RegistrationPairMail(s, c, m, d, x);
      }
  }

  lemma SignalPairMail(s: State, c: Conn, dest: Option<Id>, payload: Option<string>, d: Conn, x: Outgoing)
    requires c in s.locals && IsPairMail(x)
    ensures InMail(HandleSignal(s, c, dest, payload).state, d, x) <==> InMail(s, d, x)
  {
    hide WellFormed;
  }

  lemma RequestPairMail(s: State, c: Conn, m: Incoming, d: Conn, x: Outgoing)
    requires WellFormed(s) && c in s.open && IsPairMail(x) && m.PairRequest?
    ensures InMail(HandlePairRequest(s, c, m).state, d, x) <==> InMail(s, d, x) || Proxied(s, Receive(c, m), d, x)
  {
  }

  lemma ResponsePairMail(s: State, c: Conn, m: Incoming, d: Conn, x: Outgoing)
    requires WellFormed(s) && c in s.open && IsPairMail(x) && m.PairResponse?
    ensures InMail(HandlePairResponse(s, m).state, d, x) <==> InMail(s, d, x) || Proxied(s, Receive(c, m), d, x)
  {
  }

  lemma ClosePairMail(s: State, c: Conn, d: Conn, x: Outgoing)
    requires Sound(s) && c in s.open && IsPairMail(x)
    ensures InMail(Close(s, c), d, x) <==> InMail(s, d, x)
  {
    hide RemoveBeacon, DistinctBeacons, NotifyOffline;
    assert Close(s, c).outbox == s.outbox;
  }

  /** A step puts a pairing message into a mailbox if and only if it proxies it there. */
  lemma StepPairMail(s: State, e: Event, d: Conn, x: Outgoing)
    requires Sound(s) && IsPairMail(x)
    ensures InMail(Step(s, e), d, x) <==> InMail(s, d, x) || Proxied(s, e, d, x)
  {
    hide Handle, Close, FindBeacon, DistinctBeacons;
    match e
    case Connect(c) =>
    case Receive(c, m) =>
      if c in s.open {
        HandlePairMail(s, c, m, d, x);
        HandleSound(s, c, m);
        ClosePairMail(Handle(s, c, m).state, c, d, x);
      }
    case Disconnect(c) =>
      if c in s.open {
        ClosePairMail(s, c, d, x);
      }
    case Wake(id) =>
      var b := FindBeacon(s.beacons, id);
      if b.Some? {
        PostMail(s, b.value.socket, WakeUp(b.value.mac), d, x);
      }
    case SendNotice(c) =>
      if NoticeOwed(s, c) {
        PostMail(s.(owed := s.owed[c := s.owed[c] - 1]), c, AgentStatus(false), d, x);
      }
  }

  /** Step i of the run proxies x to d. */
  predicate ProxiedAt(run: seq<Event>, i: nat, d: Conn, x: Outgoing)
    requires i < |run|
  {
    Proxied(After(run[..i]), run[i], d, x)
  }

  /** In every run the pairing messages in a mailbox are exactly those that a step proxied there. */
  lemma {:induction false} PairMailStems(run: seq<Event>, d: Conn, x: Outgoing)
    requires IsPairMail(x)
    ensures InMail(After(run), d, x) <==> exists i :: 0 <= i < |run| && ProxiedAt(run, i, d, x)
  {
    hide Step, Proxied;
    if |run| > 0 {
      var init, last := run[..|run| - 1], |run| - 1;
      PairMailStems(init, d, x);
      RunSound(init);
      StepPairMail(After(init), run[last], d, x);
      assert forall i :: 0 <= i <= last ==> init[..i] == run[..i];
      assert forall i :: 0 <= i < last ==> (ProxiedAt(run, i, d, x) <==> ProxiedAt(init, i, d, x));
      assert ProxiedAt(run, last, d, x) <==> Proxied(After(init), run[last], d, x);
    }
  }

  // ---- The agent's end ----

  /** What the agent's libraries make of a signal: the fields of the offer and the outcome of the negotiation. */
  datatype OfferParts = OfferParts(sdp: Option<seq<SignedOffer.CodePoint>>, sdpType: Option<string>,
                                   signature: Option<string>, negotiation: Option<string>)

  /** The agent's message loop: what it handles of its mail, in order. */
  function Inbox(mail: seq<Outgoing>, parts: (nat, string) -> OfferParts): seq<Pairing.AgentEvent> {
    if |mail| == 0 then [] else
      var x := mail[|mail| - 1];
      Inbox(mail[..|mail| - 1], parts) +
      match x
      case PairRequestFrom(cid, code, key) => [Pairing.PairRequest(cid, key, code)]
      case SignalFrom(sender, payload) =>
        var o := parts(|mail|, payload);
        [Pairing.Offer(sender, o.sdp, o.sdpType, o.signature, o.negotiation)]
      case _ => []
  }

  /** The agent after reading its mail. */
  function AgentAfter(config: Pairing.Config, mail: seq<Outgoing>, parts: (nat, string) -> OfferParts)
    : Pairing.AgentState
  {
    Pairing.After(config, Inbox(mail, parts))
  }

  lemma {:induction false} InboxRequests(mail: seq<Outgoing>, parts: (nat, string) -> OfferParts, e: Pairing.AgentEvent)
    requires e.PairRequest?
    ensures e in Inbox(mail, parts) <==> PairRequestFrom(e.clientId, e.code, e.pubkey) in mail
  {
    if |mail| > 0 {
      var front, x := mail[..|mail| - 1], mail[|mail| - 1];
      InboxRequests(front, parts, e);
      assert mail == front + [x];
    }
  }

  /** A signal in the mail is handled as an offer of its sender, with the fields of its payload, and nothing else is. */
  lemma {:induction false} InboxOffers(mail: seq<Outgoing>, parts: (nat, string) -> OfferParts, e: Pairing.AgentEvent)
    requires e.Offer?
    ensures e in Inbox(mail, parts) <==>
              exists i :: 0 <= i < |mail| && mail[i].SignalFrom? && mail[i].sender == e.sender
                && parts(i + 1, mail[i].payload) == OfferParts(e.sdp, e.sdpType, e.signature, e.negotiation)
  {
    if |mail| > 0 {
      var front, x := mail[..|mail| - 1], mail[|mail| - 1];
      InboxOffers(front, parts, e);
      assert forall i :: 0 <= i < |front| ==> front[i] == mail[i];
    }
  }

  /** A key comes from the loaded store or from a code-matching request. */
  lemma {:induction false} KeyOrigin(config: Pairing.Config, events: seq<Pairing.AgentEvent>, id: string)
    ensures var k := Pairing.LatestKey(config, events, id);
            k.Some? ==>
              Pairing.Lookup(config.loaded, id) == k || Pairing.PairRequest(Some(id), k, Some(config.code)) in events
  {
    if |events| > 0 {
      var init, e := events[..|events| - 1], events[|events| - 1];
      KeyOrigin(config, init, id);
      assert events == init + [e];
    }
  }

  /** Step i receives this key for this client with this code, for agent a, whose connection was d. */
  predicate SendsKey(run: seq<Event>, i: nat, a: Id, d: Conn, code: string, id: string, key: string)
    requires i < |run|
  {
    var (s, e) := (After(run[..i]), run[i]);
    && e.Receive? && e.conn in s.open && e.message == PairRequest(Some(a), Some(id), Some(code), Some(key))
    && a in s.agents && s.agents[a] == d && d in s.open
  }

  /** Some connection sent this key for this client, with this code, to the agent that owned the mailbox then. */
  ghost predicate KeySent(run: seq<Event>, d: Conn, code: string, id: string, key: string) {
    exists i, a :: 0 <= i < |run| && SendsKey(run, i, a, d, code, id, key)
  }

  lemma KeySentIffMail(run: seq<Event>, d: Conn, code: string, id: string, key: string)
    ensures KeySent(run, d, code, id, key) <==> InMail(After(run), d, PairRequestFrom(Some(id), Some(code), Some(key)))
  {
    hide After;
    var x := PairRequestFrom(Some(id), Some(code), Some(key));
    PairMailStems(run, d, x);
    forall i, a | 0 <= i < |run| && SendsKey(run, i, a, d, code, id, key) ensures ProxiedAt(run, i, d, x) {
      RunSound(run[..i]);
    }
    if i :| 0 <= i < |run| && ProxiedAt(run, i, d, x) {
      assert SendsKey(run, i, run[i].message.agentId.value, d, code, id, key);
    }
  }

  /**
   * Whatever the relay's run and however much of its mail the agent has read, a key in its store was loaded, or was
   * sent to the relay by a connection that gave the agent's current code.
   */
  lemma StoredKeysWereSent(config: Pairing.Config, run: seq<Event>, d: Conn, n: nat,
                           parts: (nat, string) -> OfferParts, id: string)
    requires d in After(run).outbox && n <= |After(run).outbox[d]|
    ensures var paired := AgentAfter(config, After(run).outbox[d][..n], parts).paired;
            id in paired ==>
              (id in config.loaded && config.loaded[id] == paired[id]) || KeySent(run, d, config.code, id, paired[id])
  {
    hide Pairing.After, Pairing.LatestKey, After, Inbox, KeySent;
    var mail := After(run).outbox[d][..n];
    var events := Inbox(mail, parts);
    Pairing.StoreIsLatest(config, events, id);
    KeyOrigin(config, events, id);
    var k := Pairing.LatestKey(config, events, id);
    InboxRequests(mail, parts, Pairing.PairRequest(Some(id), k, Some(config.code)));
    if k.Some? {
      KeySentIffMail(run, d, config.code, id, k.value);
    }
  }

  /** An agent that has read its mail has approved a client if and only if some connection sent a key with its code. */
  lemma ApprovedIffSent(config: Pairing.Config, run: seq<Event>, d: Conn,
                        parts: (nat, string) -> OfferParts, id: string)
    requires d in After(run).outbox
    ensures Pairing.PairResponse(id, Pairing.Approved) in AgentAfter(config, After(run).outbox[d], parts).sent <==>
              id != "" && config.code != "" && exists key :: key != "" && KeySent(run, d, config.code, id, key)
  {
    hide After, Inbox, Pairing.After, ProxiedAt, KeySent;
    var mail := After(run).outbox[d];
    var events := Inbox(mail, parts);
    Pairing.ApprovedIffMatched(config, events, id);
    if i :| 0 <= i < |events| && Pairing.CodeMatches(config, events[i]) && events[i].clientId == Some(id) {
      var key := events[i].pubkey.value;
      assert events[i] == Pairing.PairRequest(Some(id), Some(key), Some(config.code)) && events[i] in events;
      RequestReceived(config, run, d, parts, id, key);
    }
    if id != "" && config.code != "" {
      forall key | key != "" && KeySent(run, d, config.code, id, key)
        ensures exists i :: 0 <= i < |events| && Pairing.CodeMatches(config, events[i])
                  && events[i].clientId == Some(id)
      {
        RequestReceived(config, run, d, parts, id, key);
        var i :| 0 <= i < |events| && events[i] == Pairing.PairRequest(Some(id), Some(key), Some(config.code));
        assert Pairing.CodeMatches(config, events[i]);
      }
    }
  }

  /** A request with the current code is among what the agent handles if and only if it was sent. */
  lemma RequestReceived(config: Pairing.Config, run: seq<Event>, d: Conn,
                        parts: (nat, string) -> OfferParts, id: string, key: string)
    requires d in After(run).outbox
    ensures Pairing.PairRequest(Some(id), Some(key), Some(config.code)) in Inbox(After(run).outbox[d], parts)
            <==> KeySent(run, d, config.code, id, key)
  {
    hide After, Inbox, KeySent;
    InboxRequests(After(run).outbox[d], parts, Pairing.PairRequest(Some(id), Some(key), Some(config.code)));
    KeySentIffMail(run, d, config.code, id, key);
  }

  lemma AnsweredHasKey(config: Pairing.Config, events: seq<Pairing.AgentEvent>, j: nat, id: string, sdp: string)
    requires j < |events|
    ensures Pairing.AnsweredAt(config, events, j, id, sdp) ==> Pairing.LatestKey(config, events[..j], id).Some?
  {
  }

  /** A client that is sent an answer was in the loaded store or had a key sent with the agent's code. */
  lemma AnsweredWasPaired(config: Pairing.Config, run: seq<Event>, d: Conn, n: nat,
                          parts: (nat, string) -> OfferParts, id: string, sdp: string)
    requires d in After(run).outbox && n <= |After(run).outbox[d]|
    ensures Pairing.Answer(id, sdp) in AgentAfter(config, After(run).outbox[d][..n], parts).sent ==>
              id in config.loaded || exists key :: KeySent(run, d, config.code, id, key)
  {
    hide After, Inbox, Pairing.After, Pairing.AnsweredAt, Pairing.LatestKey, ProxiedAt, KeySent;
    var mail := After(run).outbox[d][..n];
    var events := Inbox(mail, parts);
    Pairing.AnswersAreVerified(config, events, id, sdp);
    if j :| 0 <= j < |events| && Pairing.AnsweredAt(config, events, j, id, sdp) {
      var k := Pairing.LatestKey(config, events[..j], id);
      AnsweredHasKey(config, events, j, id, sdp);
      KeyOrigin(config, events[..j], id);
      if id !in config.loaded {
        var request := Pairing.PairRequest(Some(id), k, Some(config.code));
        assert request in events[..j];
        InboxRequests(mail, parts, request);
        assert PairRequestFrom(Some(id), Some(config.code), k) in After(run).outbox[d];
        InboxRequests(After(run).outbox[d], parts, request);
        RequestReceived(config, run, d, parts, id, k.value);
      }
    }
  }
}
