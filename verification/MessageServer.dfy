/** The handlers themselves: the HTTP route (src/claw_msg/server/routes_messages.py) and the
    WebSocket endpoint (src/claw_msg/server/routes_ws.py), each proved against the steps of
    `Delivery`. The two sends are separate code that meets one specification. */
module MessageServer {
  import opened Common
  import B = Broker
  import D = Directory
  import Q = OfflineQueue
  import R = RateLimit
  import opened Delivery

  datatype HttpResult = HttpError(status: int) | HttpOk(message: Message)

  datatype Frame =
    | ErrorFrame(status: int)
    | SentFrame(id: MsgId)

  /** Where the members of a room stand among the targets, `direct` of which come before them. */
  lemma RoomFollowsDirect(t: D.Tables, message: Message, targets: seq<AgentId>, direct: nat)
    requires targets == Targets(t, message.from, message.to, message.room) && D.Given(message.room)
    requires direct == if D.Given(message.to) then 1 else 0
    ensures direct <= |targets|
    ensures targets[direct..] == Without(D.MembersOf(t.members, message.room.value), {message.from})
  {
  }

  /** The `i`-th member is skipped if it is the sender and is the next target otherwise. */
  lemma NextRoomTarget(members: seq<AgentId>, sender: AgentId, i: nat)
    requires i < |members|
    ensures var tried, all := Without(members[..i], {sender}), Without(members, {sender});
      && |Without(members[..i + 1], {sender})| == |tried| + (if members[i] == sender then 0 else 1)
      && (members[i] != sender ==> |tried| < |all| && all[|tried|] == members[i])
  {
    var here, rest := [members[i]], members[i + 1..];
    assert members[..i + 1] == members[..i] + here;
    assert members == members[..i] + (here + rest);
    WithoutConcat(members[..i], here, {sender});
    WithoutConcat(members[..i], here + rest, {sender});
    WithoutConcat(here, rest, {sender});
  }

  lemma FirstTarget(f: Delivery.Fan, message: Message, targets: seq<AgentId>, oracle: Oracle, expires: int)
    requires D.Given(message.to) && 1 <= |targets| && targets[0] == message.to.value && f.attempts == []
    ensures FanOut(f, message.id, targets, 1, oracle, expires)
         == TryOne(f, message.id, message.to.value, Refusing(oracle, 0), expires)
  {
    assert FanOut(f, message.id, targets, 0, oracle, expires) == f;
  }

  lemma NextFan(f: Delivery.Fan, id: MsgId, targets: seq<AgentId>, n: nat, oracle: Oracle, expires: int,
                attempts: seq<Attempt>)
    requires n < |targets| && n == |attempts| && FanOut(f, id, targets, n, oracle, expires).attempts == attempts
    ensures FanOut(f, id, targets, n + 1, oracle, expires)
         == TryOne(FanOut(f, id, targets, n, oracle, expires), id, targets[n], Refusing(oracle, n), expires)
  {
  }

  method WriteUntilFailure(rows: seq<MsgId>, takes: nat) returns (written: seq<MsgId>)
    ensures written == rows[..if takes < |rows| then takes else |rows|]
  {
    written := [];
    for i := 0 to |rows|
      invariant i <= takes && written == rows[..i]
    {
      if i == takes {
        break;
      }
      written := written + [rows[i]];
    }
  }

  class MessageServer {
    var tables: D.Tables
    var messages: map<MsgId, Message>
    const broker: B.WebSocketBroker
    const queue: Q.DeliveryQueue
    const limiter: R.RateLimiter

    ghost predicate Owned()
      reads this, broker, limiter
    {
      && broker.Owned() && limiter.Owned()
      && broker.Repr !! limiter.Repr && {this, queue} !! broker.Repr && {this, queue} !! limiter.Repr
    }

    ghost predicate Valid()
      reads this, broker, limiter, broker.Repr, limiter.Repr
    {
      && Owned() && broker.Valid() && limiter.Valid()
      && B.WellFormed(broker.View())
    }

    ghost function View(): Server
      requires Owned()
      reads this, broker, queue, limiter, broker.Repr, limiter.Repr
    {
      Server(tables, messages, broker.View(), queue.rows, limiter.State(), queue.ttl)
    }

    ghost function Fan(attempts: seq<Attempt>): Delivery.Fan
      requires Owned()
      reads this, broker, queue, limiter, broker.Repr
    {
      Delivery.Fan(broker.View(), queue.rows, attempts)
    }

    /** A new process over the database of an earlier one, `s`. */
    constructor (s: Server)
      ensures Valid() && fresh(broker.Repr) && fresh(limiter.Repr) && fresh(queue)
      ensures View() == Restarted(s)
    {
      this.tables := s.tables;
      this.messages := s.messages;
      this.broker := new B.WebSocketBroker();
      this.queue := new Q.DeliveryQueue(s.queue, s.ttl);
      this.limiter := new R.RateLimiter(s.limiter.ratePerMin);
    }

    /** One delivery attempt: the sockets first, the queue if they did not take it. */
    method TryAgent(id: MsgId, agent: AgentId, refusing: set<Socket>, now: int, attempts: seq<Attempt>)
      returns (tried: seq<Attempt>)
      requires Valid()
      modifies broker.Repr, queue
      ensures Valid() && broker.Repr == old(broker.Repr)
      ensures |tried| == |attempts| + 1
      ensures Fan(tried) == TryOne(old(Fan(attempts)), id, agent, refusing, now + queue.ttl)
    {
      B.AttemptLeavesAcceptingSockets(broker.View(), agent, refusing);
      assert NoDup(B.Connections(broker.View(), agent));
      var delivered, written := broker.SendToAgent(agent, refusing);
      if !delivered {
        queue.Enqueue(id, agent, now);
      }
      tried := attempts + [Attempt(agent, written, delivered)];
    }

    /** The server as it stands after a verdict. */
    ghost function Consulted(sender: AgentId, clock: Clock, verdict: Verdict): Server
      requires Owned()
      reads this, broker, queue, limiter, broker.Repr, limiter.Repr
    {
      if verdict.Accept? || verdict.consulted then Charged(View(), sender, clock) else View()
    }

    // ----- POST /messages/ ---------------------------------------------------------------

    method AdmitHttp(sender: AgentId, req: Request, clock: Clock) returns (verdict: Verdict)
      requires Valid()
      modifies limiter.Repr
      ensures Valid() && fresh(limiter.Repr - old(limiter.Repr))
      ensures verdict == Judge(old(View()), sender, req, clock)
      ensures View() == old(Consulted(sender, clock, verdict))
    {
      // The request model is validated before the handler runs.
      if |req.content| > MAX_MESSAGE_CONTENT_LENGTH {
        return Reject(422, false);
      }
      if !D.Given(req.to) && !D.Given(req.room) {
        return Reject(400, false);
      }
      var to: Option<AgentId> := None;
      if D.Given(req.to) {
        to := D.ResolveAgentTarget(tables, req.to.value);
        if to == None {
          if D.IsAmbiguousAgentName(tables, req.to.value) {
            return Reject(409, false);
          }
          return Reject(404, false);
        }
      }
      var allowed := limiter.Allow(sender, clock.bucketMade, clock.mono);
      if !allowed {
        return Reject(429, true);
      }
      var error := D.MessageTargetError(tables, sender, to, req.room);
      verdict := if error.Some? then Reject(error.value, true) else Accept(to);
    }

    /** The fan-out, which the two routes share line for line: the direct recipient, if any. */
    method DeliverDirect(message: Message, oracle: Oracle, now: int,
                         ghost f: Delivery.Fan, ghost targets: seq<AgentId>, ghost expires: int)
      returns (attempts: seq<Attempt>)
      requires Valid()
      requires expires == now + queue.ttl && f == Fan([])
      requires targets == Targets(tables, message.from, message.to, message.room)
      modifies broker.Repr, queue
      ensures Valid() && broker.Repr == old(broker.Repr)
      ensures |attempts| == (if D.Given(message.to) then 1 else 0) <= |targets|
      ensures Fan(attempts) == FanOut(f, message.id, targets, |attempts|, oracle, expires)
    {
      attempts := [];
      if D.Given(message.to) {
        attempts := TryAgent(message.id, message.to.value, Refusing(oracle, 0), now, []);
        FirstTarget(f, message, targets, oracle, expires);
      }
    }

    method TryNext(id: MsgId, agent: AgentId, oracle: Oracle, now: int, attempts: seq<Attempt>,
                   ghost f: Delivery.Fan, ghost targets: seq<AgentId>)
      returns (tried: seq<Attempt>)
      requires Valid()
      requires |attempts| < |targets| && targets[|attempts|] == agent
      requires Fan(attempts) == FanOut(f, id, targets, |attempts|, oracle, now + queue.ttl)
      modifies broker.Repr, queue
      ensures Valid() && broker.Repr == old(broker.Repr)
      ensures |tried| == |attempts| + 1
      ensures Fan(tried) == FanOut(f, id, targets, |tried|, oracle, now + queue.ttl)
    {
      NextFan(f, id, targets, |attempts|, oracle, now + queue.ttl, attempts);
      tried := TryAgent(id, agent, Refusing(oracle, |attempts|), now, attempts);
    }

    /** Then the members of the room. */
    method DeliverRoom(message: Message, oracle: Oracle, now: int, direct: seq<Attempt>,
                       ghost f: Delivery.Fan, ghost targets: seq<AgentId>, ghost expires: int)
      returns (attempts: seq<Attempt>)
      requires Valid()
      requires expires == now + queue.ttl
      requires targets == Targets(tables, message.from, message.to, message.room)
      requires |direct| == if D.Given(message.to) then 1 else 0
      requires Fan(direct) == FanOut(f, message.id, targets, |direct|, oracle, expires)
      modifies broker.Repr, queue
      ensures Valid() && broker.Repr == old(broker.Repr)
      ensures Fan(attempts) == FanOut(f, message.id, targets, |targets|, oracle, expires)
    {
      hide FanOut;
      attempts := direct;
      if D.Given(message.room) {
        var members := D.MembersOf(tables.members, message.room.value);
        RoomFollowsDirect(tables, message, targets, |direct|);
        for i := 0 to |members|
          invariant Valid() && broker.Repr == old(broker.Repr)
          invariant |attempts| == |direct| + |Without(members[..i], {message.from})| <= |targets|
          invariant Fan(attempts) == FanOut(f, message.id, targets, |attempts|, oracle, expires)
        {
          NextRoomTarget(members, message.from, i);
          if members[i] != message.from {
            attempts := TryNext(message.id, members[i], oracle, now, attempts, f, targets);
          }
        }
        assert members[..|members|] == members;
      }
    }

    method Deliver(message: Message, oracle: Oracle, now: int, ghost f: Delivery.Fan, ghost targets: seq<AgentId>)
      returns (attempts: seq<Attempt>)
      requires Valid() && f == Fan([])
      requires targets == Targets(tables, message.from, message.to, message.room)
      modifies broker.Repr, queue
      ensures Valid() && broker.Repr == old(broker.Repr)
      ensures Fan(attempts) == FanOut(f, message.id, targets, |targets|, oracle, now + queue.ttl)
    {
      ghost var expires := now + queue.ttl;
      var direct := DeliverDirect(message, oracle, now, f, targets, expires);
      attempts := DeliverRoom(message, oracle, now, direct, f, targets, expires);
    }

    method Store(message: Message, oracle: Oracle, now: int) returns (attempts: seq<Attempt>)
      requires Valid()
      modifies this`messages, broker.Repr, queue
      ensures Valid() && broker.Repr == old(broker.Repr)
      ensures (View(), attempts) == Stored(old(View()), message, oracle, now)
    {
      ghost var before := View();
      messages := messages[message.id := message];
      ghost var targets := Targets(tables, message.from, message.to, message.room);
      attempts := Deliver(message, oracle, now, Fan([]), targets);
      StoredIs(before, message, oracle, now, targets, Fan(attempts), View());
    }

    method SendMessage(sender: AgentId, req: Request, id: MsgId, clock: Clock, oracle: Oracle)
      returns (result: HttpResult, attempts: seq<Attempt>)
      requires Valid()
      modifies this`messages, broker.Repr, queue, limiter.Repr
      ensures Valid() && broker.Repr == old(broker.Repr) && fresh(limiter.Repr - old(limiter.Repr))
      ensures View() == Send(old(View()), sender, req, id, clock, oracle).1
      ensures match Send(old(View()), sender, req, id, clock, oracle).0
        case Refused(code) => result == HttpError(code) && attempts == []
        case Sent(message, tried) => result == HttpOk(message) && attempts == tried
    {
      var verdict := AdmitHttp(sender, req, clock);
      if verdict.Reject? {
        return HttpError(verdict.code), [];
      }
      var message := NewMessage(sender, req, verdict.to, id, clock.wall);
      attempts := Store(message, oracle, clock.wall);
      result := HttpOk(message);
    }

    // ----- The WebSocket endpoint --------------------------------------------------------

    method AdmitFrame(sender: AgentId, req: Request, clock: Clock) returns (verdict: Verdict)
      requires Valid()
      modifies limiter.Repr
      ensures Valid() && fresh(limiter.Repr - old(limiter.Repr))
      ensures verdict == Judge(old(View()), sender, req, clock)
      ensures View() == old(Consulted(sender, clock, verdict))
    {
      // Here the request model is validated by the handler itself.
      if |req.content| > MAX_MESSAGE_CONTENT_LENGTH {
        return Reject(422, false);
      }
      if !D.Given(req.to) && !D.Given(req.room) {
        return Reject(400, false);
      }
      var resolved: Option<AgentId> := None;
      if D.Given(req.to) {
        resolved := D.ResolveAgentTarget(tables, req.to.value);
        if resolved == None {
          if D.IsAmbiguousAgentName(tables, req.to.value) {
            return Reject(409, false);
          }
          return Reject(404, false);
        }
      }
      var allowed := limiter.Allow(sender, clock.bucketMade, clock.mono);
      if !allowed {
        return Reject(429, true);
      }
      var error := D.MessageTargetError(tables, sender, resolved, req.room);
      if error.Some? {
        return Reject(error.value, true);
      }
      return Accept(resolved);
    }

    /** The `message.send` frame: the same server and the same refusals as POST /messages/, plus
        the one frame that goes back to the sender. */
    method HandleMessageSend(sender: AgentId, req: Request, id: MsgId, clock: Clock, oracle: Oracle)
      returns (frame: Frame, attempts: seq<Attempt>)
      requires Valid()
      modifies this`messages, broker.Repr, queue, limiter.Repr
      ensures Valid() && broker.Repr == old(broker.Repr) && fresh(limiter.Repr - old(limiter.Repr))
      ensures View() == Send(old(View()), sender, req, id, clock, oracle).1
      ensures match Send(old(View()), sender, req, id, clock, oracle).0
        case Refused(code) => frame == ErrorFrame(code) && attempts == []
        case Sent(message, tried) => frame == SentFrame(message.id) && attempts == tried
    {
      var verdict := AdmitFrame(sender, req, clock);
      if verdict.Reject? {
        return ErrorFrame(verdict.code), [];
      }
      attempts := Store(NewMessage(sender, req, verdict.to, id, clock.wall), oracle, clock.wall);
      frame := SentFrame(id);
    }

    method RegisterSocket(agent: AgentId, ws: Socket)
      requires Valid() && ws !in B.Connections(broker.View(), agent)
      modifies broker.Repr
      ensures Valid() && fresh(broker.Repr - old(broker.Repr))
      ensures View() == old(View()).(registry := B.Registered(old(broker.View()), agent, ws))
    {
      B.RegistrationsKeepWellFormed(broker.View(), agent, ws);
      broker.Register(agent, ws);
    }

    method FlushQueue(agent: AgentId, now: int) returns (rows: seq<MsgId>)
      requires Valid()
      modifies queue
      ensures Valid()
      ensures View() == old(View()).(queue := Q.Flushed(old(queue.rows), agent, now, CreatedAt(messages)))
      ensures Q.IsFlush(rows, old(queue.rows), agent, now, CreatedAt(messages))
    {
      rows := queue.FlushForAgent(agent, now, CreatedAt(messages));
    }

    /** Registering and flushing an authenticated socket, which takes `takes` frames before a
        write to it fails. The loop stops at the first failed write. */
    method Connect(agent: AgentId, ws: Socket, now: int, takes: nat) returns (rows: seq<MsgId>, written: seq<MsgId>)
      requires Valid() && ws !in B.Connections(broker.View(), agent)
      modifies broker.Repr, queue
      ensures Valid() && fresh(broker.Repr - old(broker.Repr))
      ensures View() == Connected(old(View()), agent, ws, now)
      ensures Q.IsFlush(rows, old(queue.rows), agent, now, CreatedAt(messages))
      ensures written == rows[..if takes < |rows| then takes else |rows|]
    {
      RegisterSocket(agent, ws);
      rows := FlushQueue(agent, now);
      written := WriteUntilFailure(rows, takes);
    }

    /** The `message.ack` frame; one without an identifier is ignored. */
    method HandleAck(agent: AgentId, id: Option<MsgId>)
      requires Valid()
      modifies queue
      ensures Valid()
      ensures View() == if D.Given(id) then AckedBy(old(View()), agent, id.value) else old(View())
    {
      if D.Given(id) {
        queue.MarkAcked(id.value, agent);
      }
    }

    /** However the receive loop ends. */
    method Disconnect(agent: AgentId, ws: Socket)
      requires Valid()
      modifies broker.Repr
      ensures Valid() && broker.Repr == old(broker.Repr)
      ensures View() == Disconnected(old(View()), agent, ws)
    {
      B.RegistrationsKeepWellFormed(broker.View(), agent, ws);
      broker.Unregister(agent, ws);
    }

    method CleanUp(now: int)
      requires Valid()
      modifies queue
      ensures Valid() && View() == CleanedUp(old(View()), now)
    {
      queue.CleanupExpired(now);
    }
  }
}
