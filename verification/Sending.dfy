/** What a send does for the people in it, over runs (src/claw_msg/server/routes_messages.py,
    routes_ws.py): the message that is stored and answered, the order in which stored messages are
    flushed, and how long a connected socket gets them. */
module Sending {
  import opened Common
  import B = Broker
  import D = Directory
  import Q = OfflineQueue
  import R = RateLimit
  import opened Delivery
  import F = Fate

  // ----- The stored message --------------------------------------------------------------

  /** The message says what the request said, who sent it, to whom it was resolved, and the second
      in which it was sent. */
  ghost predicate IsMessageOf(m: Message, t: D.Tables, sender: AgentId, req: Request, id: MsgId, wall: int) {
    && m.id == id && m.from == sender && m.room == req.room && m.content == req.content
    && m.contentType == req.contentType && m.replyTo == req.replyTo
    && IsAddressee(t, req, m.to)
    && m.createdAt * 1_000_000 <= wall < (m.createdAt + 1) * 1_000_000
  }

  /** An accepted send stores one message and answers with the same; a refused one stores nothing. */
  lemma SentMessageIsStored(s: Server, sender: AgentId, req: Request, id: MsgId, clock: Clock, oracle: Oracle)
    ensures var (outcome, server) := Send(s, sender, req, id, clock, oracle);
      && (outcome.Sent? ==> IsMessageOf(outcome.message, s.tables, sender, req, id, clock.wall))
      && server.messages == (if outcome.Sent? then s.messages[id := outcome.message] else s.messages)
      && server.tables == s.tables && server.ttl == s.ttl
  {
    hide FanOut;
    SentExactlyWhenAcceptable(s, sender, req, id, clock, oracle);
  }

  /** The judgement of the request that the step is about. */
  ghost function VerdictOf(w: World, e: Event): Verdict
    requires e.SendMessage?
  {
    Judge(w.server, e.sender, e.request, Clock(w.now, e.mono, e.bucketMade))
  }

  /** The step is a send that is accepted. */
  ghost predicate StoresMessage(w: World, e: Event) {
    e.SendMessage? && VerdictOf(w, e).Accept?
  }

  /** Accepted sends are those after which the message is there, addressed as it was judged. */
  lemma StoresExactlyWhen(w: World, e: Event)
    requires Enabled(w, e) && e.SendMessage?
    ensures StoresMessage(w, e) <==> e.id in Step(w, e).server.messages
    ensures StoresMessage(w, e) ==> Step(w, e).server.messages[e.id].to == VerdictOf(w, e).to
  {
    hide FanOut;
    SentMessageIsStored(w.server, e.sender, e.request, e.id, Clock(w.now, e.mono, e.bucketMade), e.oracle);
  }

  lemma StepKeepsMessages(w: World, e: Event)
    requires Enabled(w, e)
    ensures forall id :: id in w.server.messages ==>
      id in Step(w, e).server.messages && Step(w, e).server.messages[id] == w.server.messages[id]
    ensures w.now <= Step(w, e).now
    ensures StoresMessage(w, e) ==>
      e.id in Step(w, e).server.messages
      && IsMessageOf(Step(w, e).server.messages[e.id], w.server.tables, e.sender, e.request, e.id, w.now)
  {
    if e.SendMessage? {
      SentMessageIsStored(w.server, e.sender, e.request, e.id, Clock(w.now, e.mono, e.bucketMade), e.oracle);
    }
  }

  /** A stored message never changes and never goes. */
  lemma {:induction false} RunKeepsMessages(w: World, events: seq<Event>)
    requires CanRun(w, events)
    ensures forall id :: id in w.server.messages ==>
      id in Run(w, events).server.messages && Run(w, events).server.messages[id] == w.server.messages[id]
    decreases |events|
  {
    if events != [] {
      StepKeepsMessages(w, events[0]);
      RunKeepsMessages(Step(w, events[0]), events[1..]);
    }
  }

  /** Of two messages sent in different seconds, whatever happens in between and after, every flush
      that returns both returns the earlier one first. */
  lemma FlushedInOrderOfSending(w: World, first: Event, between: seq<Event>, second: Event, after: seq<Event>,
                                agent: AgentId, ws: Socket, rows: seq<MsgId>, writes: nat, boundary: int,
                                i: nat, j: nat)
    requires Enabled(w, first) && StoresMessage(w, first) && CanRun(Step(w, first), between)
    requires var v := Run(Step(w, first), between);
      && Enabled(v, second) && StoresMessage(v, second) && CanRun(Step(v, second), after)
      && w.now < boundary * 1_000_000 <= v.now
      && Enabled(Run(Step(v, second), after), Connect(agent, ws, rows, writes))
    requires i < |rows| && j < |rows| && rows[i] == first.id && rows[j] == second.id
    ensures i < j
  {
    hide Step, Run, Judge;
    var w1 := Step(w, first);
    var v := Run(w1, between);
    var v1 := Step(v, second);
    var u := Run(v1, after);
    StepKeepsMessages(w, first);
    RunKeepsMessages(w1, between);
    StepKeepsMessages(v, second);
    RunKeepsMessages(v1, after);
    var created := CreatedAt(u.server.messages);
    assert created[first.id] < boundary <= created[second.id];
    assert rows[i] in created && rows[j] in created;
  }

  // ----- Who is tried --------------------------------------------------------------------

  function Count(s: seq<AgentId>, a: AgentId): nat {
    multiset(s)[a]
  }

  lemma {:induction false} WithoutCounts(s: seq<AgentId>, x: AgentId, a: AgentId)
    ensures Count(Without(s, {x}), a) == if a == x then 0 else Count(s, a)
  {
    if s != [] {
      WithoutCounts(s[1..], x, a);
      assert s == [s[0]] + s[1..];
    }
  }

  /** The direct recipient is tried first, and each member of the room other than the sender as often
      as the membership table names it, which is once. */
  lemma TriedExactlyOncePerRow(t: D.Tables, sender: AgentId, to: Option<AgentId>, room: Option<RoomId>, a: AgentId)
    ensures Count(Targets(t, sender, to, room), a) ==
      (if D.Given(to) && to.value == a then 1 else 0)
      + (if D.Given(room) && a != sender then multiset(t.members)[(room.value, a)] else 0)
    ensures D.Given(to) ==> Targets(t, sender, to, room) != [] && Targets(t, sender, to, room)[0] == to.value
  {
    if D.Given(room) {
      D.MembersAreCounted(t.members, room.value, a);
      WithoutCounts(D.MembersOf(t.members, room.value), sender, a);
    }
  }

  // ----- Connected sockets ---------------------------------------------------------------

  /** The sockets an agent has in the registry, in order. */
  ghost function Sockets(w: World, agent: AgentId): seq<Socket> {
    B.Connections(w.server.registry, agent)
  }

  /** Connecting appends the socket to its agent's, and concerns nobody else. */
  lemma ConnectListsTheSocket(w: World, agent: AgentId, ws: Socket, rows: seq<MsgId>, writes: nat)
    requires Enabled(w, Connect(agent, ws, rows, writes))
    ensures var w' := Step(w, Connect(agent, ws, rows, writes));
      && Sockets(w', agent) == Sockets(w, agent) + [ws]
      && forall a :: a != agent ==> Sockets(w', a) == Sockets(w, a)
  {
  }

  /** `ws` was offered to in some attempt on the agent, and refused. */
  ghost predicate RefusesSomeAttempt(targets: seq<AgentId>, n: nat, oracle: Oracle, agent: AgentId, ws: Socket)
    requires n <= |targets|
  {
    exists i :: 0 <= i < n && targets[i] == agent && ws in Refusing(oracle, i)
  }

  lemma TryOneKeepsSocket(f: Fan, id: MsgId, target: AgentId, refusing: set<Socket>, expires: int,
                          agent: AgentId, ws: Socket)
    requires B.WellFormed(f.registry)
    ensures ws in B.Connections(TryOne(f, id, target, refusing, expires).registry, agent) <==>
      ws in B.Connections(f.registry, agent) && !(target == agent && ws in refusing)
  {
    B.AttemptLeavesAcceptingSockets(f.registry, target, refusing);
  }

  lemma RefusesOneMore(targets: seq<AgentId>, n: nat, oracle: Oracle, agent: AgentId, ws: Socket)
    requires n < |targets|
    ensures RefusesSomeAttempt(targets, n + 1, oracle, agent, ws) <==>
      RefusesSomeAttempt(targets, n, oracle, agent, ws) || (targets[n] == agent && ws in Refusing(oracle, n))
  {
  }

  lemma NextAttemptKeepsSocket(reg: B.Registry, before: Fan, id: MsgId, targets: seq<AgentId>, n: nat, oracle: Oracle,
                               expires: int, agent: AgentId, ws: Socket)
    requires n < |targets| && |before.attempts| == n && B.WellFormed(before.registry)
    requires ws in B.Connections(before.registry, agent) <==>
      ws in B.Connections(reg, agent) && !RefusesSomeAttempt(targets, n, oracle, agent, ws)
    ensures var next := TryOne(before, id, targets[n], Refusing(oracle, |before.attempts|), expires);
      ws in B.Connections(next.registry, agent) <==>
      ws in B.Connections(reg, agent) && !RefusesSomeAttempt(targets, n + 1, oracle, agent, ws)
  {
    hide TryOne, RefusesSomeAttempt, B.WellFormed, B.Connections;
    TryOneKeepsSocket(before, id, targets[n], Refusing(oracle, n), expires, agent, ws);
    RefusesOneMore(targets, n, oracle, agent, ws);
  }

  lemma {:induction false} FanOutKeepsSocket(f: Fan, id: MsgId, targets: seq<AgentId>, n: nat, oracle: Oracle,
                                             expires: int, agent: AgentId, ws: Socket)
    requires n <= |targets| && B.WellFormed(f.registry) && f.attempts == []
    ensures ws in B.Connections(FanOut(f, id, targets, n, oracle, expires).registry, agent) <==>
      ws in B.Connections(f.registry, agent) && !RefusesSomeAttempt(targets, n, oracle, agent, ws)
  {
    if n == 0 {
      assert FanOut(f, id, targets, n, oracle, expires) == f;
    } else {
      hide FanOut, TryOne, RefusesSomeAttempt, B.WellFormed, B.Connections;
      var before := FanOut(f, id, targets, n - 1, oracle, expires);
      FanOutKeepsSocket(f, id, targets, n - 1, oracle, expires, agent, ws);
      FanOutKeepsRegistry(f, id, targets, n - 1, oracle, expires);
      F.AttemptsAreCounted(f, id, targets, n - 1, oracle, expires);
      NextAttemptKeepsSocket(f.registry, before, id, targets, n - 1, oracle, expires, agent, ws);
      F.FanOutStep(f, id, targets, n, oracle, expires);
    }
  }

  /** The fan-out of an accepted send, as the step has it. */
  lemma StepFansOut(w: World, e: Event) returns (fan: Fan, to: Option<AgentId>)
    requires Enabled(w, e) && StoresMessage(w, e)
    ensures IsAddressee(w.server.tables, e.request, to)
    ensures var s := w.server;
      var targets := Targets(s.tables, e.sender, to, e.request.room);
      && fan == FanOut(Fan(s.registry, s.queue, []), e.id, targets, |targets|, e.oracle, w.now + s.ttl)
      && Step(w, e).server.registry == fan.registry && Step(w, e).server.queue == fan.queue
      && Step(w, e).history.accepted == w.history.accepted + TakenBy(e.id, fan.attempts)
      && VerdictOf(w, e).to == to
  {
    hide FanOut;
    var clock := Clock(w.now, e.mono, e.bucketMade);
    SentMessageIsStored(w.server, e.sender, e.request, e.id, clock, e.oracle);
    var verdict := Judge(w.server, e.sender, e.request, clock);
    to := verdict.to;
    var h: History;
    fan, h := AcceptedIsSend(w, e.sender, e.request, to, e.id, clock, e.oracle, Step(w, e));
  }

  ghost function TargetsOf(w: World, e: Event): seq<AgentId>
    requires StoresMessage(w, e)
  {
    Targets(w.server.tables, e.sender, VerdictOf(w, e).to, e.request.room)
  }

  /** What takes a socket off the list: its disconnection, a restart, and refusing a message. */
  ghost predicate Drops(w: World, e: Event, agent: AgentId, ws: Socket)
    requires Enabled(w, e)
  {
    match e
    case Disconnect(a, s) => a == agent && s == ws
    case Restart => true
    case SendMessage(_, _, _, _, _, oracle) =>
      StoresMessage(w, e)
      && RefusesSomeAttempt(TargetsOf(w, e), |TargetsOf(w, e)|, oracle, agent, ws)
    case _ => false
  }

  lemma SendKeepsSocketExactlyWhen(w: World, e: Event, agent: AgentId, ws: Socket)
    requires Inv(w) && Enabled(w, e) && e.SendMessage?
    ensures ws in Sockets(Step(w, e), agent) <==> ws in Sockets(w, agent) && !Drops(w, e, agent, ws)
  {
    hide FanOut;
    var s := w.server;
    if StoresMessage(w, e) {
      var fan, to := StepFansOut(w, e);
      var targets := TargetsOf(w, e);
      FanOutKeepsSocket(Fan(s.registry, s.queue, []), e.id, targets, |targets|, e.oracle, w.now + s.ttl, agent, ws);
    } else {
      RefusedKeepsRegistry(w, e);
    }
  }

  lemma RefusedKeepsRegistry(w: World, e: Event)
    requires Enabled(w, e) && e.SendMessage? && !StoresMessage(w, e)
    ensures Step(w, e).server.registry == w.server.registry
  {
    hide FanOut;
    var clock := Clock(w.now, e.mono, e.bucketMade);
    SentMessageIsStored(w.server, e.sender, e.request, e.id, clock, e.oracle);
    SentExactlyWhenAcceptable(w.server, e.sender, e.request, e.id, clock, e.oracle);
  }

  /** Which sockets an agent has after a step: those it had and that were not dropped, and the one
      that connects. */
  lemma ListedExactlyWhen(w: World, e: Event, agent: AgentId, ws: Socket)
    requires Inv(w) && Enabled(w, e)
    ensures ws in Sockets(Step(w, e), agent) <==>
      (ws in Sockets(w, agent) && !Drops(w, e, agent, ws)) || (e.Connect? && e.agent == agent && e.ws == ws)
  {
    match e {
      case SendMessage(_, _, _, _, _, _) => SendKeepsSocketExactlyWhen(w, e, agent, ws);
      case Connect(a, s, rows, writes) => ConnectListsTheSocket(w, a, s, rows, writes);
      case Disconnect(a, s) => DisconnectDropsTheSocket(w, a, s, agent, ws);
      case _ =>
    }
  }

  lemma DisconnectDropsTheSocket(w: World, a: AgentId, s: Socket, agent: AgentId, ws: Socket)
    requires Inv(w)
    ensures ws in Sockets(Step(w, Disconnect(a, s)), agent) <==> ws in Sockets(w, agent) && !(a == agent && s == ws)
  {
    B.UnregisteredExactly(w.server.registry, a, s, agent);
    WithoutMembers(Sockets(w, a), {s});
  }

  /** No step of the run drops the socket. */
  ghost predicate NeverDrops(w: World, events: seq<Event>, agent: AgentId, ws: Socket)
    requires CanRun(w, events)
    decreases |events|
  {
    events != [] ==> !Drops(w, events[0], agent, ws) && NeverDrops(Step(w, events[0]), events[1..], agent, ws)
  }

  lemma {:induction false} StaysListed(w: World, events: seq<Event>, agent: AgentId, ws: Socket)
    requires Inv(w) && CanRun(w, events) && ws in Sockets(w, agent) && NeverDrops(w, events, agent, ws)
    ensures ws in Sockets(Run(w, events), agent)
    decreases |events|
  {
    if events != [] {
      ListedExactlyWhen(w, events[0], agent, ws);
      StepKeepsInv(w, events[0]);
      StaysListed(Step(w, events[0]), events[1..], agent, ws);
    }
  }

  // ----- What a connected socket gets ----------------------------------------------------

  ghost function AttemptsOf(w: World, e: Event): seq<Attempt>
    requires Enabled(w, e) && StoresMessage(w, e)
  {
    Send(w.server, e.sender, e.request, e.id, Clock(w.now, e.mono, e.bucketMade), e.oracle).0.attempts
  }

  /** The registry that the `i`-th attempt of a send meets. */
  ghost function RegistryAt(w: World, e: Event, i: nat): B.Registry
    requires Enabled(w, e) && StoresMessage(w, e) && i <= |TargetsOf(w, e)|
  {
    var s := w.server;
    FanOut(Fan(s.registry, s.queue, []), e.id, TargetsOf(w, e), i, e.oracle, w.now + s.ttl).registry
  }

  lemma AttemptMeets(w: World, e: Event, i: nat)
    requires Inv(w) && Enabled(w, e) && StoresMessage(w, e) && i < |TargetsOf(w, e)|
    ensures |AttemptsOf(w, e)| == |TargetsOf(w, e)| && B.WellFormed(RegistryAt(w, e, i))
    ensures var attempt, agent := AttemptsOf(w, e)[i], TargetsOf(w, e)[i];
      && attempt.agent == agent
      && attempt.accepted == B.Accepting(RegistryAt(w, e, i), agent, Refusing(e.oracle, i))
      && (attempt.delivered <==> 2 * |attempt.accepted| > |B.Connections(RegistryAt(w, e, i), agent)|)
  {
    hide FanOut;
    var s, targets := w.server, TargetsOf(w, e);
    var fan, to := StepFansOut(w, e);
    var f, expires := Fan(s.registry, s.queue, []), w.now + s.ttl;
    F.AttemptsAreJudgedInTurn(f, e.id, targets, |targets|, e.oracle, expires, i);
    FanOutKeepsRegistry(f, e.id, targets, i, e.oracle, expires);
  }

  lemma AttemptMeetsSocket(w: World, e: Event, i: nat, agent: AgentId, ws: Socket)
    requires Inv(w) && Enabled(w, e) && StoresMessage(w, e) && i <= |TargetsOf(w, e)|
    ensures ws in B.Connections(RegistryAt(w, e, i), agent) <==>
      ws in Sockets(w, agent) && !RefusesSomeAttempt(TargetsOf(w, e), i, e.oracle, agent, ws)
  {
    hide FanOut, RefusesSomeAttempt;
    var s := w.server;
    FanOutKeepsSocket(Fan(s.registry, s.queue, []), e.id, TargetsOf(w, e), i, e.oracle, w.now + s.ttl, agent, ws);
  }

  /** Which sockets take the message at an attempt: those the agent had, that refused at no attempt
      on it so far, this one included. */
  lemma TakesExactlyWhen(w: World, e: Event, i: nat, ws: Socket)
    requires Inv(w) && Enabled(w, e) && StoresMessage(w, e) && i < |TargetsOf(w, e)|
    ensures i < |AttemptsOf(w, e)|
    ensures var agent := TargetsOf(w, e)[i];
      ws in AttemptsOf(w, e)[i].accepted <==>
      ws in Sockets(w, agent) && !RefusesSomeAttempt(TargetsOf(w, e), i + 1, e.oracle, agent, ws)
  {
    hide RegistryAt, AttemptsOf, TargetsOf, RefusesSomeAttempt;
    var agent := TargetsOf(w, e)[i];
    AttemptMeets(w, e, i);
    AttemptMeetsSocket(w, e, i, agent, ws);
    RefusesOneMore(TargetsOf(w, e), i, e.oracle, agent, ws);
    WithoutMembers(B.Connections(RegistryAt(w, e, i), agent), Refusing(e.oracle, i));
  }

  lemma StepTakesAndQueues(w: World, e: Event, agent: AgentId)
    requires Inv(w) && Enabled(w, e) && StoresMessage(w, e)
    ensures (e.id, agent) in Step(w, e).history.accepted <==> F.Took(AttemptsOf(w, e), agent)
    ensures (e.id, agent) in Step(w, e).server.queue <==> Missed(AttemptsOf(w, e), agent)
  {
    hide FanOut;
    var clock := Clock(w.now, e.mono, e.bucketMade);
    SentMessageIsStored(w.server, e.sender, e.request, e.id, clock, e.oracle);
    var verdict := Judge(w.server, e.sender, e.request, clock);
    F.TakenAndQueuedExactlyWhen(w, e.sender, e.request, verdict.to, e.id, clock, e.oracle, agent);
  }

  ghost predicate IsFirstAttempt(targets: seq<AgentId>, i: nat, agent: AgentId) {
    i < |targets| && targets[i] == agent && forall k :: 0 <= k < i ==> targets[k] != agent
  }

  /** Who gets a message at once: the agents with a socket that does not refuse at the first attempt
      on them. A second attempt reaches nobody new. */
  lemma TakenAtOnceExactlyWhen(w: World, e: Event, agent: AgentId)
    requires Inv(w) && Enabled(w, e) && StoresMessage(w, e)
    ensures (e.id, agent) in Step(w, e).history.accepted <==>
      exists i, ws ::
        IsFirstAttempt(TargetsOf(w, e), i, agent) && ws in Sockets(w, agent) && ws !in Refusing(e.oracle, i)
  {
    hide Step, TargetsOf, AttemptsOf, VerdictOf;
    var targets, attempts := TargetsOf(w, e), AttemptsOf(w, e);
    StepTakesAndQueues(w, e, agent);
    if i, ws :| IsFirstAttempt(targets, i, agent) && ws in Sockets(w, agent) && ws !in Refusing(e.oracle, i) {
      AttemptMeets(w, e, i);
      TakesExactlyWhen(w, e, i, ws);
    }
    if i :| 0 <= i < |attempts| && attempts[i].agent == agent && attempts[i].accepted != [] {
      var ws := attempts[i].accepted[0];
      AttemptsMatchTargets(w, e, i);
      TakesExactlyWhen(w, e, i, ws);
      var first := FirstAttempt(targets, i, agent);
      assert ws !in Refusing(e.oracle, first);
    }
  }

  lemma AttemptsMatchTargets(w: World, e: Event, i: nat)
    requires Inv(w) && Enabled(w, e) && StoresMessage(w, e) && i < |AttemptsOf(w, e)|
    ensures i < |TargetsOf(w, e)| && TargetsOf(w, e)[i] == AttemptsOf(w, e)[i].agent
  {
    if TargetsOf(w, e) != [] {
      AttemptMeets(w, e, 0);
      if i < |TargetsOf(w, e)| {
        AttemptMeets(w, e, i);
      }
    } else {
      NobodyIsTried(w, e);
    }
  }

  lemma NobodyIsTried(w: World, e: Event)
    requires Enabled(w, e) && StoresMessage(w, e) && TargetsOf(w, e) == []
    ensures AttemptsOf(w, e) == []
  {
    var fan, to := StepFansOut(w, e);
  }

  lemma FirstAttempt(targets: seq<AgentId>, i: nat, agent: AgentId) returns (first: nat)
    requires i < |targets| && targets[i] == agent
    ensures first <= i && IsFirstAttempt(targets, first, agent)
  {
    first := 0;
    while targets[first] != agent
      invariant first <= i && forall k :: 0 <= k < first ==> targets[k] != agent
      decreases i - first
    {
      first := first + 1;
    }
  }

  /** An agent with a socket, none of which refuses at any attempt, gets no row. */
  lemma NotQueuedWhenNobodyRefuses(w: World, e: Event, agent: AgentId)
    requires Inv(w) && Enabled(w, e) && StoresMessage(w, e) && Sockets(w, agent) != []
    requires forall i, ws :: 0 <= i < |TargetsOf(w, e)| && TargetsOf(w, e)[i] == agent && ws in Sockets(w, agent) ==>
      ws !in Refusing(e.oracle, i)
    ensures (e.id, agent) !in Step(w, e).server.queue
  {
    hide Step;
    var attempts := AttemptsOf(w, e);
    StepTakesAndQueues(w, e, agent);
    forall i | 0 <= i < |attempts| && attempts[i].agent == agent ensures attempts[i].delivered {
      AttemptsMatchTargets(w, e, i);
      EverySocketTakes(w, e, i);
    }
  }

  lemma EverySocketTakes(w: World, e: Event, i: nat)
    requires Inv(w) && Enabled(w, e) && StoresMessage(w, e) && i < |TargetsOf(w, e)|
    requires Sockets(w, TargetsOf(w, e)[i]) != []
    requires var targets := TargetsOf(w, e);
      forall k, ws :: 0 <= k < |targets| && targets[k] == targets[i] && ws in Sockets(w, targets[i]) ==>
        ws !in Refusing(e.oracle, k)
    ensures i < |AttemptsOf(w, e)| && AttemptsOf(w, e)[i].delivered
  {
    hide RegistryAt, AttemptsOf;
    var agent := TargetsOf(w, e)[i];
    var conns := B.Connections(RegistryAt(w, e, i), agent);
    AttemptMeets(w, e, i);
    var some := Sockets(w, agent)[0];
    AttemptMeetsSocket(w, e, i, agent, some);
    forall ws | ws in conns ensures ws !in Refusing(e.oracle, i) {
      AttemptMeetsSocket(w, e, i, agent, ws);
    }
    WithoutNothing(conns, Refusing(e.oracle, i));
    assert some in conns;
  }

  /** A socket that has connected gets the agent's messages: from then on, as long as it is not
      dropped, it takes every message meant for the agent that it does not refuse. */
  lemma ConnectedSocketGetsMessages(w: World, connect: Event, quiet: seq<Event>, send: Event, i: nat)
    requires Inv(w) && connect.Connect? && Enabled(w, connect) && CanRun(Step(w, connect), quiet)
    requires NeverDrops(Step(w, connect), quiet, connect.agent, connect.ws)
    requires var v := Run(Step(w, connect), quiet);
      && Enabled(v, send) && StoresMessage(v, send) && IsFirstAttempt(TargetsOf(v, send), i, connect.agent)
      && connect.ws !in Refusing(send.oracle, i)
    ensures var v := Run(Step(w, connect), quiet);
      && i < |AttemptsOf(v, send)| && connect.ws in AttemptsOf(v, send)[i].accepted
      && (send.id, connect.agent) in Step(v, send).history.accepted
  {
    var v := Run(Step(w, connect), quiet);
    StepKeepsInv(w, connect);
    RunKeepsInv(Step(w, connect), quiet);
    ConnectListsTheSocket(w, connect.agent, connect.ws, connect.rows, connect.writes);
    StaysListed(Step(w, connect), quiet, connect.agent, connect.ws);
    TakesExactlyWhen(v, send, i, connect.ws);
    TakenAtOnceExactlyWhen(v, send, connect.agent);
  }

  // ----- Rows and restarts ---------------------------------------------------------------

  /** The rows a send leaves for its message: each is pending, with no attempt counted, and expires
      the queue's lifetime after the send. */
  lemma NewRowsAreFresh(w: World, e: Event, agent: AgentId)
    requires Inv(w) && Enabled(w, e) && StoresMessage(w, e) && (e.id, agent) in Step(w, e).server.queue
    ensures var row := Step(w, e).server.queue[(e.id, agent)];
      row.status == Q.Pending && row.attempts == 0 && row.expires == w.now + w.server.ttl
  {
    hide FanOut, Step, Targets;
    var s := w.server;
    var fan, to := StepFansOut(w, e);
    F.NotYetKnown(w, e.id);
    var targets := Targets(s.tables, e.sender, to, e.request.room);
    FanOutPlaces(Fan(s.registry, s.queue, []), e.id, targets, |targets|, e.oracle, w.now + s.ttl);
  }

  /** Cleaning up removes the expired rows, and only those. */
  lemma CleanupRemovesTheExpired(w: World, p: Pair)
    ensures p in Step(w, Cleanup).server.queue <==> p in w.server.queue && w.server.queue[p].expires > w.now
    ensures p in Step(w, Cleanup).server.queue ==> Step(w, Cleanup).server.queue[p] == w.server.queue[p]
  {
  }

  /** A restart keeps the database and leaves nobody connected, and the next call of every sender
      meets a full bucket. */
  lemma RestartForgets(w: World, agent: AgentId, made: real, mono: real)
    requires made <= mono && w.server.limiter.ratePerMin >= 0
    ensures var s, s' := w.server, Step(w, Restart).server;
      && s'.tables == s.tables && s'.messages == s.messages && s'.queue == s.queue && s'.ttl == s.ttl
      && Sockets(Step(w, Restart), agent) == []
      && (R.Allows(s'.limiter, agent, made, mono) <==> s.limiter.ratePerMin >= 1)
  {
    R.RefillAdds(w.server.limiter.ratePerMin, made, mono, mono);
  }
}
