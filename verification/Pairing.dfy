/** The agent's handlers for pair requests and signed offers, as steps over the pairing store. */
module Pairing {
  import opened Base64
  import opened SignedOffer
  import opened Wrappers
  import Fips180

  /** What the relay passes on to the agent; negotiation is the outcome of the WebRTC calls, None for an exception. */
  datatype AgentEvent =
    | PairRequest(clientId: Option<string>, pubkey: Option<string>, code: Option<string>)
    | Offer(sender: Option<string>, sdp: Option<seq<CodePoint>>, sdpType: Option<string>, signature: Option<string>,
            negotiation: Option<string>)

  datatype Status = Approved | Rejected

  datatype AgentMessage =
    | PairResponse(clientId: string, status: Status)
    | Answer(dest: string, sdp: string)

  /** The pairing code of this start of the agent, the key store as loaded, and the library. */
  datatype Config = Config(code: string, loaded: map<string, string>, library: Library)

  datatype AgentState = AgentState(paired: map<string, string>, sent: seq<AgentMessage>)

  predicate Given(s: Option<string>) {
    s.Some? && s.value != ""
  }

  /** A pair request with all fields and the agent's current code. */
  predicate CodeMatches(config: Config, e: AgentEvent) {
    e.PairRequest? && Given(e.clientId) && Given(e.pubkey) && Given(e.code) && e.code.value == config.code
  }

  /** An offer with all fields whose signature verifies under the keys stored now. */
  predicate OfferVerified(config: Config, paired: map<string, string>, e: AgentEvent) {
    && e.Offer? && e.sdp.Some? && |e.sdp.value| > 0 && Given(e.sdpType) && Given(e.signature)
    && Encodable(e.sdp.value) && DecodeLenient(e.signature.value).Some?
    && VerifySignature(config.library, paired, e.sender, Utf8(e.sdp.value), DecodeLenient(e.signature.value).value)
  }

  function Step(config: Config, s: AgentState, e: AgentEvent): AgentState {
    match e
    case PairRequest(id, key, code) =>
      if !Given(id) || !Given(key) || !Given(code) then s
      else if code.value != config.code then s.(sent := s.sent + [PairResponse(id.value, Rejected)])
      else AgentState(s.paired[id.value := key.value], s.sent + [PairResponse(id.value, Approved)])
    case Offer(sender, _, _, _, negotiation) =>
      if OfferVerified(config, s.paired, e) && negotiation.Some? then
        s.(sent := s.sent + [Answer(sender.value, negotiation.value)])
      else s
  }

  function After(config: Config, run: seq<AgentEvent>): AgentState {
    if |run| == 0 then AgentState(config.loaded, [])
    else Step(config, After(config, run[..|run| - 1]), run[|run| - 1])
  }

  // ---- The handlers ----

  class Agent {
    const config: Config
    var pairedClients: map<string, string>
    var sent: seq<AgentMessage>

    ghost function View(): AgentState
      reads this
    {
      AgentState(pairedClients, sent)
    }

    constructor (config: Config)
      ensures this.config == config && View() == After(config, [])
    {
      this.config := config;
      pairedClients := config.loaded;
      sent := [];
    }

    method Send(m: AgentMessage)
      modifies this`sent
      ensures sent == old(sent) + [m]
    {
      sent := sent + [m];
    }

    method SaveClientKey(clientId: string, pubkey: string)
      modifies this`pairedClients
      ensures pairedClients == old(pairedClients)[clientId := pubkey]
    {
      pairedClients := pairedClients[clientId := pubkey];
    }

    method HandlePairingRequest(e: AgentEvent)
      requires e.PairRequest?
      modifies this
      ensures View() == Step(config, old(View()), e)
    {
      if !Given(e.clientId) || !Given(e.pubkey) || !Given(e.code) {
        return;
      }
      if e.code.value != config.code {
        Send(PairResponse(e.clientId.value, Rejected));
        return;
      }
      SaveClientKey(e.clientId.value, e.pubkey.value);
      Send(PairResponse(e.clientId.value, Approved));
    }

    method HandleSignalingOffer(e: AgentEvent)
      requires e.Offer?
      modifies this
      ensures View() == Step(config, old(View()), e)
    {
      hide Utf8, DecodeLenient, Fips180.Digest, RawToDer;
      if e.sdp.None? || |e.sdp.value| == 0 || !Given(e.sdpType) || !Given(e.signature) {
        return;
      }
      if !Encodable(e.sdp.value) {
        return;
      }
      var messageBytes := Utf8(e.sdp.value);
      var signatureBytes := DecodeLenient(e.signature.value);
      if signatureBytes.None? {
        return;
      }
      if !VerifySignature(config.library, pairedClients, e.sender, messageBytes, signatureBytes.value) {
        return;
      }
      if e.negotiation.Some? {
        Send(Answer(e.sender.value, e.negotiation.value));
      }
    }
  }

  // ---- History ----

  /** The key of the latest code-matching pair request of a client, or the loaded one. */
  function LatestKey(config: Config, run: seq<AgentEvent>, id: string): Option<string> {
    if |run| == 0 then
      if id in config.loaded then Some(config.loaded[id]) else None
    else
      var e := run[|run| - 1];
      if CodeMatches(config, e) && e.clientId.value == id then e.pubkey else LatestKey(config, run[..|run| - 1], id)
  }

  function Lookup(m: map<string, string>, id: string): Option<string> {
    if id in m then Some(m[id]) else None
  }

  /** In every run the store holds exactly the latest code-matching keys. */
  lemma {:induction false} StoreIsLatest(config: Config, run: seq<AgentEvent>, id: string)
    ensures Lookup(After(config, run).paired, id) == LatestKey(config, run, id)
  {
    if |run| > 0 {
      StoreIsLatest(config, run[..|run| - 1], id);
    }
  }

  /** The i-th event is an offer of c that verified, when it arrived, under the key c had then. */
  predicate AnsweredAt(config: Config, run: seq<AgentEvent>, i: nat, c: string, sdp: string)
    requires i < |run|
  {
    var e, key := run[i], LatestKey(config, run[..i], c);
    && e.Offer? && e.sender == Some(c) && e.negotiation == Some(sdp)
    && e.sdp.Some? && |e.sdp.value| > 0 && Given(e.sdpType) && Given(e.signature) && Given(key)
    && Encodable(e.sdp.value) && DecodeLenient(e.signature.value).Some?
    && config.library.accepts(key.value, Fips180.Digest(Utf8(e.sdp.value)),
                              RawToDer(DecodeLenient(e.signature.value).value))
  }

  predicate Answered(config: Config, run: seq<AgentEvent>, c: string, sdp: string) {
    exists i :: 0 <= i < |run| && AnsweredAt(config, run, i, c, sdp)
  }

  /** How often the run answers this offer. */
  function TimesAnswered(config: Config, run: seq<AgentEvent>, c: string, sdp: string): nat {
    if |run| == 0 then 0
    else TimesAnswered(config, run[..|run| - 1], c, sdp) + if AnsweredAt(config, run, |run| - 1, c, sdp) then 1 else 0
  }

  /** In every run an answer is sent as often as such offers verified: once for each of them. */
  lemma {:induction false} OneAnswerPerOffer(config: Config, run: seq<AgentEvent>, c: string, sdp: string)
    ensures multiset(After(config, run).sent)[Answer(c, sdp)] == TimesAnswered(config, run, c, sdp)
  {
    hide Step, AnsweredAt, Verified;
    if |run| > 0 {
      var init := run[..|run| - 1];
      OneAnswerPerOffer(config, init, c, sdp);
      AnsweredLast(config, run, c, sdp);
      StepCounts(config, After(config, init), run[|run| - 1], c, sdp);
    }
  }

  lemma StepCounts(config: Config, s: AgentState, e: AgentEvent, c: string, sdp: string)
    ensures multiset(Step(config, s, e).sent)[Answer(c, sdp)]
         == multiset(s.sent)[Answer(c, sdp)] + if Verified(config, s, e, c, sdp) then 1 else 0
  {
    hide Utf8, DecodeLenient, Fips180.Digest, RawToDer;
  }

  /**
   * In every run an answer is sent to a client exactly for the offers that verify under the key that the client's
   * latest code-matching pair request, or the loaded store, gave it at that moment, and once for each of them.
   */
  lemma {:induction false} AnswersAreVerified(config: Config, run: seq<AgentEvent>, c: string, sdp: string)
    ensures Answer(c, sdp) in After(config, run).sent <==> Answered(config, run, c, sdp)
    ensures multiset(After(config, run).sent)[Answer(c, sdp)] == TimesAnswered(config, run, c, sdp)
  {
    OneAnswerPerOffer(config, run, c, sdp);
    hide Step, AnsweredAt, Verified, Answered;
    if |run| == 0 {
      NeverAnswered(config, c, sdp);
    } else {
      var init, last := run[..|run| - 1], |run| - 1;
      AnswersAreVerified(config, init, c, sdp);
      StepAnswers(config, After(config, init), run[last], c, sdp);
      AnsweredLast(config, run, c, sdp);
      AnsweredGrows(config, run, c, sdp);
    }
  }

  lemma NeverAnswered(config: Config, c: string, sdp: string)
    ensures !Answered(config, [], c, sdp)
  {
  }

  lemma AnsweredGrows(config: Config, run: seq<AgentEvent>, c: string, sdp: string)
    requires |run| > 0
    ensures Answered(config, run, c, sdp)
       <==> Answered(config, run[..|run| - 1], c, sdp) || AnsweredAt(config, run, |run| - 1, c, sdp)
  {
    hide AnsweredAt;
    var init := run[..|run| - 1];
    if Answered(config, run, c, sdp) {
      var i :| 0 <= i < |run| && AnsweredAt(config, run, i, c, sdp);
      if i < |run| - 1 {
        AnsweredEarlier(config, run, i, c, sdp);
      }
    }
    if Answered(config, init, c, sdp) {
      var i :| 0 <= i < |init| && AnsweredAt(config, init, i, c, sdp);
      AnsweredEarlier(config, run, i, c, sdp);
    }
  }

  lemma AnsweredEarlier(config: Config, run: seq<AgentEvent>, i: nat, c: string, sdp: string)
    requires i < |run| - 1
    ensures AnsweredAt(config, run, i, c, sdp) <==> AnsweredAt(config, run[..|run| - 1], i, c, sdp)
  {
    hide LatestKey, Fips180.Digest, Utf8, RawToDer, DecodeLenient;
    assert run[..|run| - 1][..i] == run[..i];
  }

  lemma AnsweredLast(config: Config, run: seq<AgentEvent>, c: string, sdp: string)
    requires |run| > 0
    ensures AnsweredAt(config, run, |run| - 1, c, sdp)
       <==> Verified(config, After(config, run[..|run| - 1]), run[|run| - 1], c, sdp)
  {
    hide After, LatestKey, Fips180.Digest, Utf8, RawToDer, DecodeLenient;
    StoreIsLatest(config, run[..|run| - 1], c);
  }

  /** The step of e sends this answer. */
  predicate Verified(config: Config, s: AgentState, e: AgentEvent, c: string, sdp: string) {
    e.Offer? && e.sender == Some(c) && e.negotiation == Some(sdp) && OfferVerified(config, s.paired, e)
  }

  lemma StepAnswers(config: Config, s: AgentState, e: AgentEvent, c: string, sdp: string)
    ensures Answer(c, sdp) in Step(config, s, e).sent <==> Answer(c, sdp) in s.sent || Verified(config, s, e, c, sdp)
  {
    hide Utf8, DecodeLenient, Fips180.Digest, RawToDer;
  }

  /** An unpaired client, one without a loaded key or a code-matching request, is never answered. */
  lemma UnpairedIsNotAnswered(config: Config, run: seq<AgentEvent>, c: string, sdp: string)
    requires c !in config.loaded
    requires forall i :: 0 <= i < |run| && CodeMatches(config, run[i]) ==> run[i].clientId.value != c
    ensures Answer(c, sdp) !in After(config, run).sent
  {
    AnswersAreVerified(config, run, c, sdp);
    forall i | 0 <= i < |run| ensures !AnsweredAt(config, run, i, c, sdp) {
      NoKey(config, run[..i], c);
    }
  }

  lemma {:induction false} NoKey(config: Config, run: seq<AgentEvent>, c: string)
    requires c !in config.loaded
    requires forall i :: 0 <= i < |run| && CodeMatches(config, run[i]) ==> run[i].clientId.value != c
    ensures LatestKey(config, run, c) == None
  {
    if |run| > 0 {
      NoKey(config, run[..|run| - 1], c);
    }
  }

  /** Approved responses go exactly to the senders of code-matching requests. */
  lemma {:induction false} ApprovedIffMatched(config: Config, run: seq<AgentEvent>, c: string)
    ensures PairResponse(c, Approved) in After(config, run).sent <==>
              exists i :: 0 <= i < |run| && CodeMatches(config, run[i]) && run[i].clientId == Some(c)
  {
    if |run| > 0 {
      var init := run[..|run| - 1];
      ApprovedIffMatched(config, init, c);
      assert forall i :: 0 <= i < |init| ==> run[i] == init[i];
      hide OfferVerified;
    }
  }

  /** The event is a pair request of this client with all fields, and its code is right, or is not. */
  predicate Requests(config: Config, e: AgentEvent, id: string, right: bool) {
    && e.PairRequest? && e.clientId == Some(id) && id != ""
    && e.pubkey.Some? && e.pubkey.value != "" && e.code.Some? && e.code.value != ""
    && (e.code.value == config.code <==> right)
  }

  function TimesRequested(config: Config, run: seq<AgentEvent>, id: string, right: bool): nat {
    if |run| == 0 then 0
    else
      TimesRequested(config, run[..|run| - 1], id, right)
      + if Requests(config, run[|run| - 1], id, right) then 1 else 0
  }

  /** In every run each complete request is answered once: approved if its code is right, rejected if not. */
  lemma {:induction false} RequestsAnswered(config: Config, run: seq<AgentEvent>, id: string)
    ensures multiset(After(config, run).sent)[PairResponse(id, Approved)] == TimesRequested(config, run, id, true)
    ensures multiset(After(config, run).sent)[PairResponse(id, Rejected)] == TimesRequested(config, run, id, false)
  {
    hide Step, Requests;
    if |run| > 0 {
      RequestsAnswered(config, run[..|run| - 1], id);
      StepResponds(config, After(config, run[..|run| - 1]), run[|run| - 1], id, true);
      StepResponds(config, After(config, run[..|run| - 1]), run[|run| - 1], id, false);
    }
  }

  lemma StepResponds(config: Config, s: AgentState, e: AgentEvent, id: string, right: bool)
    ensures var x := PairResponse(id, if right then Approved else Rejected);
            multiset(Step(config, s, e).sent)[x]
            == multiset(s.sent)[x] + if Requests(config, e, id, right) then 1 else 0
  {
    hide OfferVerified;
  }
}
