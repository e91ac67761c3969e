/** What becomes of queued messages over whole runs (src/claw_msg/server/offline_queue.py,
    routes_ws.py): rows only move forward, and a message is lost exactly when nothing has taken it
    and no unexpired row waits for its agent. */
module Fate {
  import opened Common
  import B = Broker
  import D = Directory
  import Q = OfflineQueue
  import R = RateLimit
  import opened Delivery

  // ----- Rows only move forward ----------------------------------------------------------

  lemma StoredMovesNoRow(s: Server, message: Message, oracle: Oracle, wall: int, after: Q.Queue)
    requires after == Stored(s, message, oracle, wall).0.queue && forall a :: (message.id, a) !in s.queue
    ensures forall p :: p in s.queue ==> p in after && after[p] == s.queue[p]
    ensures forall p :: p in after && p !in s.queue ==> p.0 == message.id
  {
    hide FanOut;
    var targets := Targets(s.tables, message.from, message.to, message.room);
    var fan := StoredFan(s, message, oracle, wall);
    FanOutPlaces(Fan(s.registry, s.queue, []), message.id, targets, |targets|, oracle, wall + s.ttl);
  }

  lemma SendMovesNoRow(s: Server, sender: AgentId, req: Request, id: MsgId, clock: Clock, oracle: Oracle,
                       after: Q.Queue)
    requires after == Send(s, sender, req, id, clock, oracle).1.queue && forall a :: (id, a) !in s.queue
    ensures forall p :: p in s.queue ==> p in after && after[p] == s.queue[p]
    ensures forall p :: p in after && p !in s.queue ==> p.0 == id
  {
    var verdict := Judge(s, sender, req, clock);
    if verdict.Accept? {
      var message := NewMessage(sender, req, verdict.to, id, clock.wall);
      StoredMovesNoRow(Charged(s, sender, clock), message, oracle, clock.wall, after);
    }
  }

  /** What a row may have come to: its expiry is the same and its status no earlier; it is gone
      only if it had expired; and a message that was stored has got no new row. */
  ghost predicate Onward(w: World, w': World) {
    var s, s' := w.server, w'.server;
    && w.now <= w'.now && s.messages.Keys <= s'.messages.Keys
    && Q.MovesForward(s.queue, s'.queue)
    && (forall p :: p in s.queue && p !in s'.queue ==> s.queue[p].expires <= w'.now)
    && (forall p :: p in s'.queue && p !in s.queue ==> p.0 !in s.messages)
  }

  lemma RowsAreStored(w: World)
    requires Inv(w)
    ensures forall p :: p in w.server.queue ==> p in w.history.intended && p.0 in w.server.messages
  {
  }

  lemma SendMovesForward(w: World, sender: AgentId, req: Request, id: MsgId, clock: Clock, oracle: Oracle, w': World)
    requires Inv(w) && id !in w.server.messages
    requires w' == After(w, sender, id, Send(w.server, sender, req, id, clock, oracle))
    ensures Onward(w, w')
  {
    RowsAreStored(w);
    assert forall a :: (id, a) in w.server.queue ==> (id, a).0 in w.server.messages;
    SendMovesNoRow(w.server, sender, req, id, clock, oracle, w'.server.queue);
  }

  lemma StepMovesForward(w: World, e: Event)
    requires Inv(w) && Enabled(w, e)
    ensures Onward(w, Step(w, e))
  {
    var s := w.server;
    match e {
      case SendMessage(sender, req, id, mono, made, oracle) =>
        SendMovesForward(w, sender, req, id, Clock(w.now, mono, made), oracle, Step(w, e));
      case Connect(agent, ws, rows, writes) =>
        Q.StatusOnlyMovesForward(s.queue, "", agent, w.now, 0, CreatedAt(s.messages));
      case Ack(agent, id) => Q.StatusOnlyMovesForward(s.queue, id, agent, w.now, 0, map[]);
      case Cleanup => Q.StatusOnlyMovesForward(s.queue, "", "", w.now, 0, map[]);
      case _ =>
    }
  }

  lemma OnwardTwice(a: World, b: World, c: World)
    requires Onward(a, b) && Onward(b, c) && forall p :: p in a.server.queue ==> p.0 in a.server.messages
    ensures Onward(a, c)
  {
    assert forall p :: p in a.server.queue && p in c.server.queue ==> p in b.server.queue;
  }

  /** Over any run a row that is there at both ends keeps its expiry and never moves back from
      acked or delivered, a row goes only once expired, and a message that had no row for an
      agent gets none. */
  lemma {:induction false} RowsOnlyMoveForward(w: World, events: seq<Event>)
    requires Inv(w) && CanRun(w, events)
    ensures Onward(w, Run(w, events))
    decreases |events|
  {
    if events != [] {
      RowsAreStored(w);
      StepMovesForward(w, events[0]);
      StepKeepsInv(w, events[0]);
      RowsOnlyMoveForward(Step(w, events[0]), events[1..]);
      OnwardTwice(w, Step(w, events[0]), Run(w, events));
    }
  }

  /** A row that has gone never comes back. */
  lemma RemovedRowStaysRemoved(w: World, before: seq<Event>, after: seq<Event>, p: Pair)
    requires Inv(w) && CanRun(w, before) && CanRun(Run(w, before), after)
    requires p in w.server.queue && p !in Run(w, before).server.queue
    ensures p !in Run(Run(w, before), after).server.queue
  {
    RowsAreStored(w);
    RowsOnlyMoveForward(w, before);
    RunKeepsInv(w, before);
    RowsOnlyMoveForward(Run(w, before), after);
  }

  // ----- Delivery is not at least once ---------------------------------------------------

  /** The message reached some socket of the agent. */
  ghost predicate Received(w: World, p: Pair) {
    p in w.history.accepted || w.history.written[p] > 0
  }

  ghost predicate SameFate(w: World, w': World, p: Pair) {
    && p in w'.history.queued
    && w'.history.returned[p] == w.history.returned[p]
    && w'.history.written[p] == w.history.written[p]
    && (p in w'.history.accepted <==> p in w.history.accepted)
  }

  lemma ReturnedIsFinalForStep(w: World, e: Event, p: Pair)
    requires Inv(w) && Enabled(w, e) && p in w.history.queued && w.history.returned[p] == 1
    ensures SameFate(w, Step(w, e), p)
  {
    match e {
      case SendMessage(sender, req, id, mono, made, oracle) =>
        assert p in w.history.intended && p.0 != id;
      case Connect(agent, ws, rows, writes) =>
        var created := CreatedAt(w.server.messages);
        assert p in w.history.intended && p.0 in created;
        FlushedRow(w.server.queue, w.now, created, agent, rows, p);
        FlushingCounts(w.history, rows, agent, writes);
      case _ =>
    }
  }

  /** Once a flush has returned a row, nothing later changes whether it reached the agent. */
  lemma {:induction false} ReturnedIsFinal(w: World, events: seq<Event>, p: Pair)
    requires Inv(w) && CanRun(w, events) && p in w.history.queued && w.history.returned[p] == 1
    ensures SameFate(w, Run(w, events), p)
    decreases |events|
  {
    if events != [] {
      StepKeepsInv(w, events[0]);
      ReturnedIsFinalForStep(w, events[0], p);
      ReturnedIsFinal(Step(w, events[0]), events[1..], p);
    }
  }

  /** The rows a connection flushes are the agent's last chance: the `i`-th of them reaches the
      agent, in every continuation of the run, exactly when the connecting socket took at least
      `i + 1` frames or some socket had taken the message when it was sent. */
  lemma FlushedRowArrivesExactlyWhen(w: World, agent: AgentId, ws: Socket, rows: seq<MsgId>, writes: nat,
                                     i: nat, events: seq<Event>)
    requires Inv(w) && Enabled(w, Connect(agent, ws, rows, writes)) && i < |rows|
    requires CanRun(Step(w, Connect(agent, ws, rows, writes)), events)
    ensures Received(Run(Step(w, Connect(agent, ws, rows, writes)), events), (rows[i], agent))
        <==> i < writes || (rows[i], agent) in w.history.accepted
  {
    var p, e := (rows[i], agent), Connect(agent, ws, rows, writes);
    var w' := Step(w, e);
    assert rows[i] in rows;
    assert forall p :: p in w.server.queue ==> p in w.history.intended;
    FlushedRow(w.server.queue, w.now, CreatedAt(w.server.messages), agent, rows, p);
    RowsCount(rows, agent, p);
    RowsCount(rows[..writes], agent, p);
    assert w.history.written[p] <= w.history.returned[p] == 0;
    assert p.0 in rows[..writes] <==> i < writes by {
      if j :| 0 <= j < writes && rows[..writes][j] == rows[i] {
        assert rows[j] == rows[i];
      }
      if i < writes {
        assert rows[..writes][i] == rows[i];
      }
    }
    StepKeepsInv(w, e);
    ReturnedIsFinal(w', events, p);
  }

  /** The message does not reach the agent, however the run goes on. */
  ghost predicate Lost(w: World, p: Pair) {
    forall more :: CanRun(w, more) ==> !Received(Run(w, more), p)
  }

  /** An unexpired row waits for the agent's next connection. */
  ghost predicate IsWaiting(w: World, p: Pair) {
    var q := w.server.queue;
    p in q && q[p].status == Q.Pending && q[p].expires > w.now
  }

  /** Only the rows a connection flushes are written. */
  lemma ConnectWritesWaiting(w: World, agent: AgentId, ws: Socket, rows: seq<MsgId>, writes: nat, p: Pair)
    requires Inv(w) && Enabled(w, Connect(agent, ws, rows, writes)) && !IsWaiting(w, p)
    ensures Step(w, Connect(agent, ws, rows, writes)).history.written[p] == w.history.written[p]
  {
    RowsCount(rows[..writes], agent, p);
    assert p == (p.0, p.1);
    assert p.0 in rows ==> Q.IsFlushable(w.server.queue, agent, w.now, CreatedAt(w.server.messages), p.0);
    assert p.0 in rows[..writes] ==> p.0 in rows;
  }

  lemma SendTakesOnlyItsOwn(w: World, sender: AgentId, req: Request, id: MsgId, clock: Clock, oracle: Oracle, p: Pair)
    requires Inv(w) && id !in w.server.messages && p.0 != id
    ensures var w' := After(w, sender, id, Send(w.server, sender, req, id, clock, oracle));
      Received(w', p) <==> Received(w, p)
  {
  }

  lemma GoneAfterStep(w: World, e: Event, p: Pair)
    requires Inv(w) && Enabled(w, e) && p.0 in w.server.messages && !Received(w, p) && !IsWaiting(w, p)
    ensures p.0 in Step(w, e).server.messages && !Received(Step(w, e), p) && !IsWaiting(Step(w, e), p)
  {
    StepMovesForward(w, e);
    match e {
      case SendMessage(sender, req, id, mono, made, oracle) =>
        SendTakesOnlyItsOwn(w, sender, req, id, Clock(w.now, mono, made), oracle, p);
      case Connect(agent, ws, rows, writes) => ConnectWritesWaiting(w, agent, ws, rows, writes, p);
      case _ =>
    }
  }

  lemma {:induction false} GoneForGood(w: World, events: seq<Event>, p: Pair)
    requires Inv(w) && CanRun(w, events)
    requires p.0 in w.server.messages && !Received(w, p) && !IsWaiting(w, p)
    ensures !Received(Run(w, events), p)
    decreases |events|
  {
    if events != [] {
      StepKeepsInv(w, events[0]);
      GoneAfterStep(w, events[0], p);
      GoneForGood(Step(w, events[0]), events[1..], p);
    }
  }

  lemma {:induction false} SomeSocketIsNew(conns: seq<Socket>) returns (ws: Socket)
    ensures forall c :: c in conns ==> c < ws
  {
    if conns == [] {
      ws := 0;
    } else {
      var rest := SomeSocketIsNew(conns[1..]);
      ws := if conns[0] < rest then rest else conns[0] + 1;
      assert conns == [conns[0]] + conns[1..];
    }
  }

  /** A row that waits can still arrive: the agent connects and its socket takes everything. */
  lemma WaitingCanArrive(w: World, p: Pair) returns (e: Event)
    requires Inv(w) && IsWaiting(w, p)
    ensures Enabled(w, e) && Received(Step(w, e), p)
  {
    var created := CreatedAt(w.server.messages);
    var ws := SomeSocketIsNew(B.Connections(w.server.registry, p.1));
    var rows := Q.FlushExists(w.server.queue, p.1, w.now, created);
    RowsAreStored(w);
    e := Connect(p.1, ws, rows, |rows|);
    assert p == (p.0, p.1);
    assert Q.IsFlushable(w.server.queue, p.1, w.now, created, p.0);
    assert p.0 in rows && rows[..|rows|] == rows;
    RowsCount(rows, p.1, p);
  }

  lemma OneStep(w: World, e: Event)
    requires Enabled(w, e)
    ensures CanRun(w, [e]) && Run(w, [e]) == Step(w, e)
  {
    assert [e][1..] == [] && CanRun(Step(w, e), []);
    assert Run(w, [e]) == Run(Step(w, e), []);
  }

  /** Exactly when a message fails to reach an agent it was meant for, from any state on and
      however the run continues: no socket has taken it and no unexpired row waits for the agent.
      It holds whatever came before, be it a flush whose socket failed, a row that expired
      first, or an acknowledgement of a row still pending. */
  lemma LostExactlyWhen(w: World, p: Pair)
    requires Inv(w) && p in w.history.intended
    ensures Lost(w, p) <==> !Received(w, p) && !IsWaiting(w, p)
  {
    if Lost(w, p) {
      assert Run(w, []) == w;
      if IsWaiting(w, p) {
        var e := WaitingCanArrive(w, p);
        OneStep(w, e);
      }
    }
    if !Received(w, p) && !IsWaiting(w, p) {
      forall more | CanRun(w, more) ensures !Received(Run(w, more), p) {
        GoneForGood(w, more, p);
      }
    }
  }

  /** The steps that lose a waiting message: a connection whose socket fails before it, the
      acknowledgement of the row, and its expiry. */
  ghost predicate Loses(w: World, e: Event, p: Pair)
    requires Enabled(w, e) && p in w.server.queue
  {
    match e
    case Connect(agent, _, rows, writes) => agent == p.1 && p.0 !in rows[..writes]
    case Ack(agent, id) => p == (id, agent)
    case Tick(later) => w.server.queue[p].expires <= later
    case _ => false
  }

  lemma ConnectLosesExactlyWhen(w: World, agent: AgentId, ws: Socket, rows: seq<MsgId>, writes: nat, p: Pair)
    requires Inv(w) && Enabled(w, Connect(agent, ws, rows, writes)) && IsWaiting(w, p) && !Received(w, p)
    ensures var w' := Step(w, Connect(agent, ws, rows, writes));
      !Received(w', p) && !IsWaiting(w', p) <==> Loses(w, Connect(agent, ws, rows, writes), p)
  {
    RowsAreStored(w);
    var created := CreatedAt(w.server.messages);
    assert p == (p.0, p.1) && p.0 in created;
    FlushedRow(w.server.queue, w.now, created, agent, rows, p);
    RowsCount(rows[..writes], agent, p);
    assert p.1 == agent ==> Q.IsFlushable(w.server.queue, agent, w.now, created, p.0);
    assert p.0 in rows[..writes] ==> p.0 in rows;
  }

  lemma SendLosesNothing(w: World, sender: AgentId, req: Request, id: MsgId, clock: Clock, oracle: Oracle, p: Pair,
                         w': World)
    requires Inv(w) && id !in w.server.messages && IsWaiting(w, p)
    requires w' == After(w, sender, id, Send(w.server, sender, req, id, clock, oracle))
    ensures IsWaiting(w', p)
  {
    RowsAreStored(w);
    assert forall a :: (id, a) in w.server.queue ==> (id, a).0 in w.server.messages;
    SendMovesNoRow(w.server, sender, req, id, clock, oracle, w'.server.queue);
  }

  /** Which step loses a message that waits: one of those three and no other. */
  lemma StepLosesExactlyWhen(w: World, e: Event, p: Pair)
    requires Inv(w) && Enabled(w, e) && IsWaiting(w, p) && !Received(w, p)
    ensures Lost(Step(w, e), p) <==> Loses(w, e, p)
  {
    hide Send;
    RowsAreStored(w);
    StepKeepsInv(w, e);
    var w' := Step(w, e);
    assert p in w'.history.intended;
    LostExactlyWhen(w', p);
    match e {
      case SendMessage(sender, req, id, mono, made, oracle) =>
        SendLosesNothing(w, sender, req, id, Clock(w.now, mono, made), oracle, p, w');
      case Connect(agent, ws, rows, writes) => ConnectLosesExactlyWhen(w, agent, ws, rows, writes, p);
      case _ =>
    }
  }

  // ----- Two runs ------------------------------------------------------------------------

  /** Alice and Bob, both open to messages. */
  ghost function Start(): World {
    var agents := [D.AgentRow("alice", "Alice", D.Open), D.AgentRow("bob", "Bob", D.Open)];
    Initial(D.Tables(agents, {}, {}, []), 60, 1_000_000, 0)
  }

  const HELLO := Request(Some("bob"), None, "hi", "text/plain", None)

  ghost function Hello(sender: AgentId, id: MsgId): Event {
    SendMessage(sender, HELLO, id, 0.0, 0.0, [])
  }

  /** A message to Bob, who is offline, from a sender who has sent nothing yet. */
  ghost predicate CanSendHello(w: World, sender: AgentId, id: MsgId) {
    && w.server.tables == Start().server.tables && w.server.registry == map[]
    && sender !in w.server.limiter.buckets && w.server.limiter.ratePerMin == 60
    && id !in w.server.messages && (id, "bob") !in w.server.queue
  }

  lemma HelloIsAccepted(s: Server, sender: AgentId, clock: Clock)
    requires s.tables == Start().server.tables
    requires sender !in s.limiter.buckets && s.limiter.ratePerMin == 60 && clock.mono == clock.bucketMade == 0.0
    ensures Judge(s, sender, HELLO, clock) == Accept(Some("bob"))
  {
    R.RefillAdds(60, 0.0, 0.0, 0.0);
    assert D.ById(s.tables.agents, "bob") == Some(s.tables.agents[1]) by {
      assert s.tables.agents[1..][0].id == "bob";
      assert "alice" != "bob" by { assert "alice"[0] != "bob"[0]; }
    }
  }

  lemma HelloIsQueued(w: World, sender: AgentId, id: MsgId, w': World)
    requires CanSendHello(w, sender, id) && w' == Step(w, Hello(sender, id))
    ensures w'.server.queue == w.server.queue[(id, "bob") := Q.Row(Q.Pending, 0, w.now + w.server.ttl)]
    ensures var s := w'.server;
      s == w.server.(queue := s.queue, messages := s.messages, limiter := s.limiter)
    ensures w'.server.messages.Keys == w.server.messages.Keys + {id} && w'.now == w.now
    ensures w'.server.limiter.buckets.Keys == w.server.limiter.buckets.Keys + {sender}
    ensures w'.server.limiter.ratePerMin == 60
    ensures w'.history.intended == w.history.intended + {(id, "bob")} && w'.history.accepted == w.history.accepted
    ensures w'.history.returned == w.history.returned
  {
    var s, clock := w.server, Clock(w.now, 0.0, 0.0);
    HelloIsAccepted(s, sender, clock);
    var targets := Targets(s.tables, sender, Some("bob"), None);
    assert targets == ["bob"];
    var f, expires := Fan(s.registry, s.queue, []), w.now + s.ttl;
    assert FanOut(f, id, targets, 0, [], expires) == f;
    assert FanOut(f, id, targets, 1, [], expires) == TryOne(f, id, "bob", {}, expires);
    assert !B.Delivers(map[], "bob", {}) && B.Attempted(map[], "bob", {}) == map[];
    assert D.Recipients(s.tables, sender, Some("bob"), None) == {"bob"};
    assert PairsOf(id, {"bob"}) == {(id, "bob")};
  }

  /** A message sent to an agent that is offline, whose next connection then takes nothing. */
  ghost function LossyRun(id: MsgId): (World, seq<Event>) {
    (Start(), [Hello("alice", id), Connect("bob", 1, [id], 0)])
  }

  lemma LossySend(id: MsgId)
    ensures var (w, events) := LossyRun(id);
      var w' := Step(w, events[0]);
      && w'.server.queue == map[(id, "bob") := Q.Row(Q.Pending, 0, 1_000_000)]
      && w'.server.messages.Keys == {id} && w'.server.registry == map[] && w'.now == 0
      && w'.history.intended == {(id, "bob")} && w'.history.accepted == {}
  {
    HelloIsQueued(Start(), "alice", id, Step(Start(), LossyRun(id).1[0]));
  }

  lemma LossyConnect(id: MsgId)
    ensures var (w, events) := LossyRun(id);
      && Enabled(Step(w, events[0]), events[1])
      && CanRun(w, events) && Run(w, events) == Step(Step(w, events[0]), events[1])
  {
    var (w, events) := LossyRun(id);
    LossySend(id);
    var sent := Step(w, events[0]);
    assert Q.IsFlushable(sent.server.queue, "bob", 0, CreatedAt(sent.server.messages), id);
    assert Q.IsFlush([id], sent.server.queue, "bob", 0, CreatedAt(sent.server.messages));
    TwoSteps(w, events[0], events[1]);
  }

  lemma TwoSteps(w: World, first: Event, second: Event)
    requires Enabled(w, first) && Enabled(Step(w, first), second)
    ensures CanRun(w, [first, second]) && Run(w, [first, second]) == Step(Step(w, first), second)
  {
    OneStep(Step(w, first), second);
    assert [first, second][1..] == [second];
  }

  /** The queue is not at-least-once: there is a run that loses a message. */
  lemma DeliveryCanLose(id: MsgId)
    ensures var (w, events) := LossyRun(id);
      CanRun(w, events) && (id, "bob") in Run(w, events).history.intended && Lost(Run(w, events), (id, "bob"))
  {
    var (w, events) := LossyRun(id);
    LossySend(id);
    LossyConnect(id);
    var sent := Step(w, events[0]);
    StepKeepsInv(w, events[0]);
    forall more | CanRun(Step(sent, events[1]), more)
      ensures !Received(Run(Step(sent, events[1]), more), (id, "bob"))
    {
      FlushedRowArrivesExactlyWhen(sent, "bob", 1, [id], 0, 0, more);
    }
  }

  // ----- A flush does not return all that it marks ---------------------------------------

  lemma RunFirst(w: World, e: Event, rest: seq<Event>)
    requires Enabled(w, e) && CanRun(Step(w, e), rest)
    ensures CanRun(w, [e] + rest) && Run(w, [e] + rest) == Run(Step(w, e), rest)
  {
    assert ([e] + rest)[1..] == rest;
  }

  /** Two messages wait for Bob; at the end the first has just expired. */
  ghost predicate TwoWait(w: World, id1: MsgId, id2: MsgId) {
    var q := w.server.queue;
    && q == map[(id1, "bob") := Q.Row(Q.Pending, 0, 1_000_000), (id2, "bob") := Q.Row(Q.Pending, 0, 1_500_000)]
    && w.server.messages.Keys == {id1, id2} && w.server.registry == map[] && w.now == 1_000_000
    && (id1, "bob") in w.history.intended && w.history.returned == multiset{}
  }

  lemma TwoAreSent(id1: MsgId, id2: MsgId) returns (w1: World, w2: World, w3: World)
    requires id1 != id2
    ensures w1 == Step(Start(), Hello("alice", id1)) && w1.now == 0 && w2 == w1.(now := 500_000)
    ensures Enabled(w2, Hello("carol", id2)) && w3 == Step(w2, Hello("carol", id2)) && w3.now == 500_000
    ensures TwoWait(w3.(now := 1_000_000), id1, id2)
  {
    hide Step;
    w1 := Step(Start(), Hello("alice", id1));
    HelloIsQueued(Start(), "alice", id1, w1);
    w2 := w1.(now := 500_000);
    assert "alice" != "carol" by { assert "alice"[0] != "carol"[0]; }
    w3 := Step(w2, Hello("carol", id2));
    HelloIsQueued(w2, "carol", id2, w3);
  }

  lemma BobConnects(w: World, id1: MsgId, id2: MsgId)
    requires id1 != id2 && TwoWait(w, id1, id2)
    ensures Enabled(w, Connect("bob", 1, [id2], 1))
    ensures var w', p := Step(w, Connect("bob", 1, [id2], 1)), (id1, "bob");
      && p in w'.history.intended && p in w'.server.queue && w'.server.queue[p].status == Q.Delivered
      && w'.history.returned[p] == 0
  {
    var q, created := w.server.queue, CreatedAt(w.server.messages);
    assert forall id :: Q.IsFlushable(q, "bob", w.now, created, id) <==> id == id2;
    assert Q.IsFlush([id2], q, "bob", w.now, created) && Q.IsFlushable(q, "bob", w.now, created, id2);
    Q.ExpiredRowIsMarkedExactlyWhen(q, "bob", w.now, created, id1);
    RowsCount([id2], "bob", (id1, "bob"));
  }

  /** Bob misses two messages, the first expires, he connects and his socket takes everything it is
      given, which is the second. The row of the first counts as delivered all the same. */
  lemma FlushMarksUnreturned(id1: MsgId, id2: MsgId) returns (events: seq<Event>)
    requires id1 != id2
    ensures CanRun(Start(), events) && events != [] && events[|events| - 1] == Connect("bob", 1, [id2], 1)
    ensures var w, p := Run(Start(), events), (id1, "bob");
      && p in w.history.intended && p in w.server.queue && w.server.queue[p].status == Q.Delivered
      && w.history.returned[p] == 0
  {
    var e1, e3 := Hello("alice", id1), Hello("carol", id2);
    var t2, t4, e5 := Tick(500_000), Tick(1_000_000), Connect("bob", 1, [id2], 1);
    var w1, w2, w3 := TwoAreSent(id1, id2);
    var w4 := w3.(now := 1_000_000);
    BobConnects(w4, id1, id2);
    OneStep(w4, e5);
    RunFirst(w3, t4, [e5]);
    RunFirst(w2, e3, [t4] + [e5]);
    RunFirst(w1, t2, [e3] + ([t4] + [e5]));
    RunFirst(Start(), e1, [t2] + ([e3] + ([t4] + [e5])));
    events := [e1] + ([t2] + ([e3] + ([t4] + [e5])));
  }

  // ----- Nor is it at most once ----------------------------------------------------------

  /** Each attempt is judged by the sockets that the attempts before it have left: those of the agent
      that do not fail take the message, and it counts as delivered when they are the majority. */
  lemma {:induction false} AttemptsAreJudgedInTurn(f: Fan, id: MsgId, targets: seq<AgentId>, n: nat, oracle: Oracle,
                                                   expires: int, i: nat)
    requires i < n <= |targets| && f.attempts == []
    ensures var attempts := FanOut(f, id, targets, n, oracle, expires).attempts;
      var reg := FanOut(f, id, targets, i, oracle, expires).registry;
      var accepted := B.Accepting(reg, targets[i], Refusing(oracle, i));
      && |attempts| == n && attempts[i].agent == targets[i] && attempts[i].accepted == accepted
      && (attempts[i].delivered <==> 2 * |accepted| > |B.Connections(reg, targets[i])|)
    decreases n
  {
    hide FanOut;
    AttemptsAreCounted(f, id, targets, n - 1, oracle, expires);
    FanOutStep(f, id, targets, n, oracle, expires);
    if i < n - 1 {
      AttemptsAreJudgedInTurn(f, id, targets, n - 1, oracle, expires, i);
    }
  }

  lemma FanOutStep(f: Fan, id: MsgId, targets: seq<AgentId>, n: nat, oracle: Oracle, expires: int)
    requires 0 < n <= |targets|
    ensures var before := FanOut(f, id, targets, n - 1, oracle, expires);
      FanOut(f, id, targets, n, oracle, expires)
      == TryOne(before, id, targets[n - 1], Refusing(oracle, |before.attempts|), expires)
  {
  }

  lemma {:induction false} AttemptsAreCounted(f: Fan, id: MsgId, targets: seq<AgentId>, n: nat, oracle: Oracle,
                                              expires: int)
    requires n <= |targets| && f.attempts == []
    ensures |FanOut(f, id, targets, n, oracle, expires).attempts| == n
  {
    if n > 0 {
      hide FanOut;
      FanOutStep(f, id, targets, n, oracle, expires);
      AttemptsAreCounted(f, id, targets, n - 1, oracle, expires);
    }
  }

  /** Some socket of the agent took the message at one of the attempts. */
  ghost predicate Took(attempts: seq<Attempt>, agent: AgentId) {
    exists i :: 0 <= i < |attempts| && attempts[i].agent == agent && attempts[i].accepted != []
  }

  lemma TakenByAttempts(id: MsgId, attempts: seq<Attempt>, agent: AgentId)
    ensures (id, agent) in TakenBy(id, attempts) <==> Took(attempts, agent)
  {
    if i :| 0 <= i < |attempts| && attempts[i].agent == agent && attempts[i].accepted != [] {
      assert (id, attempts[i].agent) in TakenBy(id, attempts);
    }
  }

  lemma QueuedByAttempts(f: Fan, fan: Fan, id: MsgId, targets: seq<AgentId>, n: nat, expires: int, agent: AgentId)
    requires n <= |targets| && Placed(f, fan, id, targets, n, expires) && (id, agent) !in f.queue
    ensures (id, agent) in fan.queue <==> Missed(fan.attempts, agent)
  {
    assert (id, agent).1 == agent;
    if i :| 0 <= i < n && fan.attempts[i].agent == agent && !fan.attempts[i].delivered {
      assert (id, targets[i]) in fan.queue;
    }
  }

  lemma NotYetKnown(w: World, id: MsgId)
    requires Inv(w) && id !in w.server.messages
    ensures forall a :: (id, a) !in w.server.queue && (id, a) !in w.history.accepted
  {
    assert forall p :: p in w.server.queue || p in w.history.accepted ==>
      p in w.history.intended && p.0 in w.server.messages;
    assert forall a :: (id, a) in w.server.queue || (id, a) in w.history.accepted ==>
      (id, a).0 in w.server.messages;
  }

  /** What a send does for an agent, who may be tried twice, as recipient and as member of the room:
      some socket takes the message exactly when one did at some attempt, and it is queued exactly
      when some attempt was judged undelivered. */
  lemma TakenAndQueuedExactlyWhen(w: World, sender: AgentId, req: Request, to: Option<AgentId>, id: MsgId,
                                  clock: Clock, oracle: Oracle, agent: AgentId)
    requires Inv(w) && id !in w.server.messages
    ensures var sent := Accepted(w.server, sender, req, to, id, clock, oracle);
      var w' := After(w, sender, id, sent);
      && ((id, agent) in w'.history.accepted <==> Took(sent.0.attempts, agent))
      && ((id, agent) in w'.server.queue <==> Missed(sent.0.attempts, agent))
  {
    hide FanOut;
    var s := w.server;
    var w' := After(w, sender, id, Accepted(s, sender, req, to, id, clock, oracle));
    var fan, h := AcceptedIsSend(w, sender, req, to, id, clock, oracle, w');
    NotYetKnown(w, id);
    var f, expires := Fan(s.registry, s.queue, []), clock.wall + s.ttl;
    var targets := Targets(s.tables, sender, to, req.room);
    FanOutPlaces(f, id, targets, |targets|, oracle, expires);
    QueuedByAttempts(f, fan, id, targets, |targets|, expires, agent);
    TakenByAttempts(id, fan.attempts, agent);
  }

  /** Without a room there is one attempt: a direct message is both taken by a socket at once and
      queued for the next connection exactly when the recipient has accepting sockets but no
      majority of them. */
  lemma DirectIsTakenAndQueuedExactlyWhen(w: World, sender: AgentId, req: Request, to: AgentId, id: MsgId,
                                        clock: Clock, oracle: Oracle)
    requires Inv(w) && id !in w.server.messages && to != "" && !D.Given(req.room)
    ensures var w' := After(w, sender, id, Accepted(w.server, sender, req, Some(to), id, clock, oracle));
      var conns := |B.Connections(w.server.registry, to)|;
      var accepting := |B.Accepting(w.server.registry, to, Refusing(oracle, 0))|;
      && ((id, to) in w'.history.accepted <==> accepting > 0)
      && ((id, to) in w'.server.queue <==> 2 * accepting <= conns)
  {
    var w' := After(w, sender, id, Accepted(w.server, sender, req, Some(to), id, clock, oracle));
    var fan, h := AcceptedIsSend(w, sender, req, Some(to), id, clock, oracle, w');
    OneTarget(w.server, sender, req, to, id, clock, oracle, fan);
    assert forall p :: p in w.server.queue || p in w.history.accepted ==> p in w.history.intended;
    assert (id, to) !in w.history.intended by {
      assert (id, to).0 !in w.server.messages;
    }
    TakenByOne(id, fan.attempts[0]);
  }

  lemma TakenByOne(id: MsgId, attempt: Attempt)
    ensures TakenBy(id, [attempt]) == if attempt.accepted == [] then {} else {(id, attempt.agent)}
  {
    if attempt.accepted != [] {
      assert [attempt][0].accepted != [];
    }
  }

  lemma OneTarget(s: Server, sender: AgentId, req: Request, to: AgentId, id: MsgId, clock: Clock,
                  oracle: Oracle, fan: Fan)
    requires to != "" && !D.Given(req.room)
    requires var targets := Targets(s.tables, sender, Some(to), req.room);
      fan == FanOut(Fan(s.registry, s.queue, []), id, targets, |targets|, oracle, clock.wall + s.ttl)
    ensures fan == TryOne(Fan(s.registry, s.queue, []), id, to, Refusing(oracle, 0), clock.wall + s.ttl)
  {
    assert Targets(s.tables, sender, Some(to), req.room) == [to];
    var f, expires := Fan(s.registry, s.queue, []), clock.wall + s.ttl;
    assert FanOut(f, id, [to], 0, oracle, expires) == f;
  }
}
