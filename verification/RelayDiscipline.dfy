/** What goes wrong in the relay when a peer breaks the discipline: stale entries that point to closed connections. */
module RelayDiscipline {
  import opened Wrappers
  import opened Relay
  import opened RelayRegistry
  import opened RelayUnique

  lemma CloseKeepsOthers(s: State, c: Conn)
    requires c in s.locals
    ensures var (t, l) := (Close(s, c), s.locals[c]);
            && t.open == s.open - {c}
            && t.agents == (if l.role == Agent && l.agentId.Some? then s.agents - {l.agentId.value} else s.agents)
            && t.clients == (if l.role == Client && l.clientId.Some? then s.clients - {l.clientId.value} else s.clients)
  {
    hide NotifyOffline, RemoveBeacon;
    assert forall x :: x !in s.agents ==> s.agents - {x} == s.agents;
    assert forall x :: x !in s.clients ==> s.clients - {x} == s.clients;
  }

  // ---- A pair request under another id ----

  /** A client that pairs under an id which is not its own, and leaves. */
  function ForeignPairRun(own: Id, other: Id): seq<Event> {
    [Connect(0), Receive(0, RegisterClient(Some(own), Some("A"))),
     Receive(0, PairRequest(Some("A"), Some(other), None, None)), Disconnect(0)]
  }

  lemma PairRequestEffect(s: State, c: Conn, target: Id, cid: Id)
    requires c in s.open && c in s.locals && s.agents == map[]
    ensures var t := Step(s, Receive(c, PairRequest(Some(target), Some(cid), None, None)));
            && t == s.(locals := s.locals[c := s.locals[c].(clientId := Some(cid))], outbox := t.outbox)
  {
    hide Post, Close;
  }

  /** Its own entry stays, pointing to a closed connection. */
  lemma ForeignPairLeavesEntry(own: Id, other: Id)
    requires own != "" && own != other
    ensures var s := After(ForeignPairRun(own, other)); 0 !in s.open && own in s.clients && s.clients[own] == 0
    ensures !Disciplined(ForeignPairRun(own, other))
  {
    hide Step, After, Close;
    var run := ForeignPairRun(own, other);
    var m := run[1].message;
    Begins(run);
    RegisterEffect(After(run[..1]), 0, m);
    RunStep(run, 1);
    RunStep(run, 2);
    RunStep(run, 3);
    PairRequestEffect(After(run[..2]), 0, "A", other);
    var s := After(run[..3]);
    CloseKeepsOthers(s, 0);
    Disconnects(s, 0);
    assert run[..4] == run;
    assert !DisciplinedEvent(After(run[..2]), run[2]);
  }

  lemma Begins(run: seq<Event>)
    requires |run| > 0 && run[0] == Connect(0)
    ensures After(run[..1]) == INITIAL.(open := {0}, locals := map[0 := Locals(Unregistered, None, None)],
                                        outbox := map[0 := []], owed := map[0 := 0])
  {
    assert run[..1][..0] == [];
    RunStep(run, 0);
    assert run[..0] == [];
  }

  lemma Disconnects(s: State, c: Conn)
    requires c in s.open && c in s.locals
    ensures Step(s, Disconnect(c)) == Close(s, c)
  {
  }

  // ---- A second registration ----

  /** An agent that registers under two ids, and leaves. */
  function TwoIdsRun(first: Id, second: Id): seq<Event> {
    [Connect(0), Receive(0, RegisterAgent(Some(first))), Receive(0, RegisterAgent(Some(second))), Disconnect(0)]
  }

  lemma AgainEffect(s: State, c: Conn, id: Id)
    requires c in s.open && c in s.locals && id != ""
    ensures var t := Step(s, Receive(c, RegisterAgent(Some(id))));
            && t.open == s.open && t.agents == s.agents[id := c]
            && t.locals == s.locals[c := s.locals[c].(role := Agent, agentId := Some(id))]
  {
    hide Post, Close;
  }

  /** The first entry stays, pointing to a closed connection. */
  lemma SecondIdLeavesEntry(first: Id, second: Id)
    requires first != "" && second != "" && first != second
    ensures var s := After(TwoIdsRun(first, second)); 0 !in s.open && first in s.agents && s.agents[first] == 0
    ensures !Disciplined(TwoIdsRun(first, second))
  {
    hide Step, After, Close;
    var run := TwoIdsRun(first, second);
    Begins(run);
    RunStep(run, 1);
    RunStep(run, 2);
    RunStep(run, 3);
    AgainEffect(After(run[..1]), 0, first);
    AgainEffect(After(run[..2]), 0, second);
    var s := After(run[..3]);
    CloseKeepsOthers(s, 0);
    Disconnects(s, 0);
    assert run[..4] == run;
    assert !DisciplinedEvent(After(run[..2]), run[2]);
  }
}
