/** What the broker does with messages, as one transition system: the send that the HTTP and the
    WebSocket route share, connecting with its flush, acknowledging, disconnecting and cleaning
    up (src/claw_msg/server/routes_ws.py, routes_messages.py, offline_queue.py). Handlers are
    atomic, socket writes succeed or fail as an oracle says, and time does not go back. */
module Delivery {
  import opened Common
  import B = Broker
  import D = Directory
  import Q = OfflineQueue
  import R = RateLimit

  // ----- The server ----------------------------------------------------------------------

  const MAX_MESSAGE_CONTENT_LENGTH := 32768

  datatype Request = Request(
    to: Option<string>,
    room: Option<RoomId>,
    content: string,
    contentType: string,
    replyTo: Option<MsgId>)

  datatype Message = Message(
    id: MsgId,
    from: AgentId,
    to: Option<AgentId>,
    room: Option<RoomId>,
    content: string,
    contentType: string,
    replyTo: Option<MsgId>,
    createdAt: int)

  datatype Server = Server(
    tables: D.Tables,
    messages: map<MsgId, Message>,
    registry: B.Registry,
    queue: Q.Queue,
    limiter: R.Limiter,
    ttl: int)

  /** The readings one handler makes: wall clock in microseconds, monotonic clock in seconds, and
      the monotonic reading of a bucket that this call has to create. */
  datatype Clock = Clock(wall: int, mono: real, bucketMade: real)

  /** The messages table keeps whole seconds. */
  function Seconds(wall: int): int { wall / 1_000_000 }

  function CreatedAt(messages: map<MsgId, Message>): Q.CreatedAt {
    map id | id in messages :: messages[id].createdAt
  }

  // ----- Sending -------------------------------------------------------------------------

  /** A refusal says whether the sender's bucket was consulted first. */
  datatype Verdict = Reject(code: int, consulted: bool) | Accept(to: Option<AgentId>)

  function Judge(s: Server, sender: AgentId, req: Request, clock: Clock): Verdict {
    if |req.content| > MAX_MESSAGE_CONTENT_LENGTH then Reject(422, false)
    else if !D.Given(req.to) && !D.Given(req.room) then Reject(400, false)
    else
      var to := if D.Given(req.to) then D.ResolveAgentTarget(s.tables, req.to.value) else None;
      if D.Given(req.to) && to.None? then
        Reject(if D.IsAmbiguousAgentName(s.tables, req.to.value) then 409 else 404, false)
      else if !R.Allows(s.limiter, sender, clock.bucketMade, clock.mono) then Reject(429, true)
      else
        var error := D.MessageTargetError(s.tables, sender, to, req.room);
        if error.Some? then Reject(error.value, true) else Accept(to)
  }

  /** Whom the handlers try, in order: the direct recipient, then the room. */
  function Targets(t: D.Tables, sender: AgentId, to: Option<AgentId>, room: Option<RoomId>): seq<AgentId> {
    (if D.Given(to) then [to.value] else []) + RoomTargets(t, sender, room)
  }

  function RoomTargets(t: D.Tables, sender: AgentId, room: Option<RoomId>): seq<AgentId> {
    if D.Given(room) then Without(D.MembersOf(t.members, room.value), {sender}) else []
  }

  /** `oracle[i]` are the sockets that fail during the `i`-th delivery attempt. */
  type Oracle = seq<set<Socket>>

  function Refusing(oracle: Oracle, i: nat): set<Socket> {
    if i < |oracle| then oracle[i] else {}
  }

  datatype Attempt = Attempt(agent: AgentId, accepted: seq<Socket>, delivered: bool)

  datatype Fan = Fan(registry: B.Registry, queue: Q.Queue, attempts: seq<Attempt>)

  function TryOne(f: Fan, id: MsgId, agent: AgentId, refusing: set<Socket>, expires: int): Fan {
    var delivered := B.Delivers(f.registry, agent, refusing);
    Fan(B.Attempted(f.registry, agent, refusing),
        if delivered then f.queue else Q.Enqueued(f.queue, id, agent, expires),
        f.attempts + [Attempt(agent, B.Accepting(f.registry, agent, refusing), delivered)])
  }

  /** The first `n` targets tried, from `f` on. */
  function FanOut(f: Fan, id: MsgId, targets: seq<AgentId>, n: nat, oracle: Oracle, expires: int): Fan
    requires n <= |targets|
  {
    if n == 0 then f
    else
      var before := FanOut(f, id, targets, n - 1, oracle, expires);
      TryOne(before, id, targets[n - 1], Refusing(oracle, |before.attempts|), expires)
  }

  datatype Outcome = Refused(code: int) | Sent(message: Message, attempts: seq<Attempt>)

  function NewMessage(sender: AgentId, req: Request, to: Option<AgentId>, id: MsgId, wall: int): Message {
    Message(id, sender, to, req.room, req.content, req.contentType, req.replyTo, Seconds(wall))
  }

  /** The message row, then the fan-out. */
  function Stored(s: Server, message: Message, oracle: Oracle, wall: int): (Server, seq<Attempt>) {
    var targets := Targets(s.tables, message.from, message.to, message.room);
    var fan := FanOut(Fan(s.registry, s.queue, []), message.id, targets, |targets|, oracle, wall + s.ttl);
    (s.(messages := s.messages[message.id := message], registry := fan.registry, queue := fan.queue), fan.attempts)
  }

  lemma StoredIs(s: Server, message: Message, oracle: Oracle, wall: int, targets: seq<AgentId>, fan: Fan, after: Server)
    requires targets == Targets(s.tables, message.from, message.to, message.room)
    requires fan == FanOut(Fan(s.registry, s.queue, []), message.id, targets, |targets|, oracle, wall + s.ttl)
    requires after == s.(messages := s.messages[message.id := message], registry := fan.registry, queue := fan.queue)
    ensures Stored(s, message, oracle, wall) == (after, fan.attempts)
  {
  }

  lemma StoredFan(s: Server, message: Message, oracle: Oracle, wall: int) returns (fan: Fan)
    ensures var targets := Targets(s.tables, message.from, message.to, message.room);
      fan == FanOut(Fan(s.registry, s.queue, []), message.id, targets, |targets|, oracle, wall + s.ttl)
    ensures Stored(s, message, oracle, wall) ==
      (s.(messages := s.messages[message.id := message], registry := fan.registry, queue := fan.queue), fan.attempts)
  {
    var targets := Targets(s.tables, message.from, message.to, message.room);
    fan := FanOut(Fan(s.registry, s.queue, []), message.id, targets, |targets|, oracle, wall + s.ttl);
  }

  function Charged(s: Server, sender: AgentId, clock: Clock): Server {
    s.(limiter := R.Charged(s.limiter, sender, clock.bucketMade, clock.mono))
  }

  function Accepted(s: Server, sender: AgentId, req: Request, to: Option<AgentId>, id: MsgId, clock: Clock,
                    oracle: Oracle): (Outcome, Server) {
    var message := NewMessage(sender, req, to, id, clock.wall);
    var (server, attempts) := Stored(Charged(s, sender, clock), message, oracle, clock.wall);
    (Sent(message, attempts), server)
  }

  function Send(s: Server, sender: AgentId, req: Request, id: MsgId, clock: Clock, oracle: Oracle): (Outcome, Server) {
    match Judge(s, sender, req, clock)
    case Reject(code, consulted) => (Refused(code), if consulted then Charged(s, sender, clock) else s)
    case Accept(to) => Accepted(s, sender, req, to, id, clock, oracle)
  }

  // ----- Connecting, acknowledging, disconnecting, cleaning up ---------------------------

  /** The new socket is registered before the flush. */
  function Connected(s: Server, agent: AgentId, ws: Socket, wall: int): Server {
    s.(registry := B.Registered(s.registry, agent, ws),
       queue := Q.Flushed(s.queue, agent, wall, CreatedAt(s.messages)))
  }

  function AckedBy(s: Server, agent: AgentId, id: MsgId): Server {
    s.(queue := Q.MarkedAcked(s.queue, id, agent))
  }

  function Disconnected(s: Server, agent: AgentId, ws: Socket): Server {
    s.(registry := B.Unregistered(s.registry, agent, ws))
  }

  function CleanedUp(s: Server, wall: int): Server {
    s.(queue := Q.Cleaned(s.queue, wall))
  }

  /** A new process has the database and nothing else: no sockets and no buckets. */
  function Restarted(s: Server): Server {
    s.(registry := map[], limiter := R.Limiter(s.limiter.ratePerMin, map[]))
  }

  // ----- Runs and what they leave behind -------------------------------------------------

  type Pair = Q.Pair

  /** What a run has done so far, recorded from the outputs of its steps. */
  datatype History = History(
    intended: set<Pair>,      // accepted messages with each agent they are meant for
    accepted: set<Pair>,      // some socket of the agent took the message when it was sent
    queued: map<Pair, int>,   // every row ever inserted, with its expiry
    returned: multiset<Pair>, // rows returned by flushes
    written: multiset<Pair>,  // returned rows that the connecting socket took
    acked: set<Pair>)         // acknowledgements that met a row

  datatype World = World(server: Server, now: int, history: History)

  datatype Event =
    | SendMessage(sender: AgentId, request: Request, id: MsgId, mono: real, bucketMade: real, oracle: Oracle)
    | Connect(agent: AgentId, ws: Socket, rows: seq<MsgId>, writes: nat)
    | Ack(agent: AgentId, id: MsgId)
    | Disconnect(agent: AgentId, ws: Socket)
    | Cleanup
    | Tick(later: int)
    | Retable(tables: D.Tables)
    | Restart

  /** Message identifiers are fresh, a socket connects once, a flush returns rows in an order SQL
      may choose and `writes` of them reach the socket, and time does not go back. Registering
      agents, contacts and rooms is left open: any tables may appear between two steps. So is when
      the process ends and starts again. */
  ghost predicate Enabled(w: World, e: Event) {
    match e
    case SendMessage(sender, req, id, mono, made, oracle) => id !in w.server.messages
    case Connect(agent, ws, rows, writes) =>
      && ws !in B.Connections(w.server.registry, agent)
      && Q.IsFlush(rows, w.server.queue, agent, w.now, CreatedAt(w.server.messages))
      && writes <= |rows|
    case Tick(later) => later >= w.now
    case _ => true
  }

  ghost function PairsOf(id: MsgId, agents: set<AgentId>): set<Pair> {
    set a | a in agents :: (id, a)
  }

  ghost function TakenBy(id: MsgId, attempts: seq<Attempt>): set<Pair> {
    set i | 0 <= i < |attempts| && attempts[i].accepted != [] :: (id, attempts[i].agent)
  }

  ghost function Rows(rows: seq<MsgId>, agent: AgentId): multiset<Pair> {
    multiset(seq(|rows|, i requires 0 <= i < |rows| => (rows[i], agent)))
  }

  /** What an accepted send records. */
  ghost function Recorded(h: History, before: Q.Queue, after: Q.Queue, id: MsgId, agents: set<AgentId>,
                          attempts: seq<Attempt>): History {
    h.(intended := h.intended + PairsOf(id, agents),
       accepted := h.accepted + TakenBy(id, attempts),
       queued := h.queued + map p | p in after && p !in before :: after[p].expires)
  }

  /** What a connection records. */
  ghost function Flushing(h: History, rows: seq<MsgId>, agent: AgentId, writes: nat): History
    requires writes <= |rows|
  {
    h.(returned := h.returned + Rows(rows, agent), written := h.written + Rows(rows[..writes], agent))
  }

  ghost function After(w: World, sender: AgentId, id: MsgId, result: (Outcome, Server)): World {
    match result.0
    case Refused(_) => w.(server := result.1)
    case Sent(message, attempts) =>
      var recipients := D.Recipients(w.server.tables, sender, message.to, message.room);
      w.(server := result.1,
         history := Recorded(w.history, w.server.queue, result.1.queue, id, recipients, attempts))
  }

  ghost function Step(w: World, e: Event): World
    requires Enabled(w, e)
  {
    match e
    case SendMessage(sender, req, id, mono, made, oracle) =>
      After(w, sender, id, Send(w.server, sender, req, id, Clock(w.now, mono, made), oracle))
    case Connect(agent, ws, rows, writes) =>
      w.(server := Connected(w.server, agent, ws, w.now),
         history := Flushing(w.history, rows, agent, writes))
    case Ack(agent, id) =>
      w.(server := AckedBy(w.server, agent, id),
         history := if (id, agent) in w.server.queue
                    then w.history.(acked := w.history.acked + {(id, agent)}) else w.history)
    case Disconnect(agent, ws) => w.(server := Disconnected(w.server, agent, ws))
    case Cleanup => w.(server := CleanedUp(w.server, w.now))
    case Tick(later) => w.(now := later)
    case Retable(tables) => w.(server := w.server.(tables := tables))
    case Restart => w.(server := Restarted(w.server))
  }

  ghost predicate CanRun(w: World, events: seq<Event>)
    decreases |events|
  {
    events == [] || (Enabled(w, events[0]) && CanRun(Step(w, events[0]), events[1..]))
  }

  ghost function Run(w: World, events: seq<Event>): World
    requires CanRun(w, events)
    decreases |events|
  {
    if events == [] then w else Run(Step(w, events[0]), events[1..])
  }

  ghost function Initial(tables: D.Tables, ratePerMin: int, ttl: int, now: int): World {
    World(Server(tables, map[], map[], map[], R.Limiter(ratePerMin, map[]), ttl), now,
          History({}, {}, map[], multiset{}, multiset{}, {}))
  }

  // ----- The invariant -------------------------------------------------------------------

  /** The rows in the table, and no others, are those that were inserted and have not been
      cleaned up, and each row's status tells what happened to it. */
  ghost predicate RowsAreTold(q: Q.Queue, h: History, now: int) {
    && (forall p :: p in q ==>
          && p in h.queued && h.queued[p] == q[p].expires
          && (p in h.acked <==> q[p].status == Q.Acked)
          && (q[p].status == Q.Pending ==> h.returned[p] == 0)
          && (q[p].status == Q.Delivered ==> h.returned[p] == 1 || q[p].expires <= now))
    && (forall p :: p in h.queued && p !in q ==> h.queued[p] <= now)
  }

  ghost predicate HistoryIsConsistent(h: History, ids: set<MsgId>) {
    && (forall p :: p in h.intended ==> p.0 in ids && (p in h.accepted || p in h.queued))
    && (forall p :: p in h.accepted || p in h.queued ==> p in h.intended)
    && (forall p :: p in h.acked ==> p in h.queued)
    && (forall p :: p in h.returned ==> p in h.queued)
    && (forall p :: h.returned[p] <= 1)
    && (forall p :: h.written[p] <= h.returned[p])
  }

  ghost predicate Inv(w: World) {
    && B.WellFormed(w.server.registry)
    && RowsAreTold(w.server.queue, w.history, w.now)
    && HistoryIsConsistent(w.history, w.server.messages.Keys)
  }

  // ----- What one send does --------------------------------------------------------------

  /** Every target is tried once and in order; a pair gets a row exactly when one of the attempts
      on its agent was judged undelivered; other rows are untouched. */
  ghost predicate Placed(f: Fan, fan: Fan, id: MsgId, targets: seq<AgentId>, n: nat, expires: int)
    requires n <= |targets|
  {
    && |fan.attempts| == n
    && (forall i :: 0 <= i < n ==> fan.attempts[i].agent == targets[i])
    && (forall i :: 0 <= i < n && fan.attempts[i].delivered ==> fan.attempts[i].accepted != [])
    && (forall p :: p in f.queue ==> p in fan.queue && fan.queue[p] == f.queue[p])
    && (forall p :: p in fan.queue && p !in f.queue ==>
          p.0 == id && fan.queue[p] == Q.Row(Q.Pending, 0, expires) && Missed(fan.attempts, p.1))
    && (forall i :: 0 <= i < n && !fan.attempts[i].delivered ==> (id, targets[i]) in fan.queue)
  }

  ghost predicate Missed(attempts: seq<Attempt>, agent: AgentId) {
    exists i :: 0 <= i < |attempts| && attempts[i].agent == agent && !attempts[i].delivered
  }

  lemma TryOnePlaces(f: Fan, before: Fan, id: MsgId, targets: seq<AgentId>, n: nat, refusing: set<Socket>, expires: int)
    requires n < |targets| && Placed(f, before, id, targets, n, expires)
    ensures Placed(f, TryOne(before, id, targets[n], refusing, expires), id, targets, n + 1, expires)
  {
    var fan := TryOne(before, id, targets[n], refusing, expires);
    assert forall i :: 0 <= i < n ==> fan.attempts[i] == before.attempts[i];
    forall p | p in fan.queue && p !in f.queue ensures Missed(fan.attempts, p.1) {
      if p in before.queue {
        var i :| 0 <= i < n && before.attempts[i].agent == p.1 && !before.attempts[i].delivered;
        assert fan.attempts[i].agent == p.1;
      } else {
        assert fan.attempts[n].agent == p.1;
      }
    }
  }

  lemma {:induction false} FanOutPlaces(f: Fan, id: MsgId, targets: seq<AgentId>, n: nat, oracle: Oracle, expires: int)
    requires n <= |targets| && f.attempts == [] && forall a :: (id, a) !in f.queue
    ensures Placed(f, FanOut(f, id, targets, n, oracle, expires), id, targets, n, expires)
  {
    if n > 0 {
      FanOutPlaces(f, id, targets, n - 1, oracle, expires);
      var before := FanOut(f, id, targets, n - 1, oracle, expires);
      TryOnePlaces(f, before, id, targets, n - 1, Refusing(oracle, |before.attempts|), expires);
    }
  }

  lemma {:induction false} FanOutKeepsRegistry(f: Fan, id: MsgId, targets: seq<AgentId>, n: nat,
                                               oracle: Oracle, expires: int)
    requires n <= |targets| && B.WellFormed(f.registry)
    ensures B.WellFormed(FanOut(f, id, targets, n, oracle, expires).registry)
  {
    if n > 0 {
      FanOutKeepsRegistry(f, id, targets, n - 1, oracle, expires);
      var before := FanOut(f, id, targets, n - 1, oracle, expires);
      B.AttemptLeavesAcceptingSockets(before.registry, targets[n - 1], Refusing(oracle, |before.attempts|));
    }
  }

  /** The handlers try exactly the intended recipients. */
  lemma TargetsAreRecipients(t: D.Tables, sender: AgentId, to: Option<AgentId>, room: Option<RoomId>)
    ensures forall a :: a in Targets(t, sender, to, room) <==> a in D.Recipients(t, sender, to, room)
  {
    if D.Given(room) {
      var members := D.MembersOf(t.members, room.value);
      D.MembersOfRoom(t.members, room.value);
      WithoutMembers(members, {sender});
      forall a ensures a in RoomTargets(t, sender, room) <==>
        a in set m | m in t.members && m.0 == room.value && m.1 != sender :: m.1
      {
        if a in RoomTargets(t, sender, room) {
          assert (room.value, a) in t.members;
        }
      }
    }
  }

  lemma PlacingKeepsRows(q: Q.Queue, h: History, now: int, ids: set<MsgId>, fan: Fan, f: Fan, id: MsgId,
                         targets: seq<AgentId>, expires: int, agents: set<AgentId>)
    requires RowsAreTold(q, h, now) && HistoryIsConsistent(h, ids) && id !in ids
    requires f.queue == q && Placed(f, fan, id, targets, |targets|, expires)
    ensures RowsAreTold(fan.queue, Recorded(h, q, fan.queue, id, agents, fan.attempts), now)
  {
    assert forall p :: p in h.queued ==> p in h.intended && p.0 in ids;
  }

  lemma RecipientIsPlaced(q: Q.Queue, h: History, fan: Fan, f: Fan, id: MsgId, targets: seq<AgentId>, expires: int,
                          agents: set<AgentId>, agent: AgentId)
    requires f.queue == q && (id, agent) !in q && Placed(f, fan, id, targets, |targets|, expires)
    requires agent in targets
    ensures (id, agent) in TakenBy(id, fan.attempts) || (id, agent) in fan.queue
  {
    var i :| 0 <= i < |targets| && targets[i] == agent;
    if fan.attempts[i].delivered {
      assert (id, fan.attempts[i].agent) in TakenBy(id, fan.attempts);
    }
  }

  lemma OnlyRecipientsArePlaced(q: Q.Queue, fan: Fan, f: Fan, id: MsgId, targets: seq<AgentId>, expires: int)
    requires f.queue == q && Placed(f, fan, id, targets, |targets|, expires)
    ensures forall p :: p in fan.queue && p !in q ==> p.0 == id && p.1 in targets
    ensures forall p :: p in TakenBy(id, fan.attempts) ==> p.0 == id && p.1 in targets
  {
    forall p | p in fan.queue && p !in q ensures p.0 == id && p.1 in targets {
      var i :| 0 <= i < |fan.attempts| && fan.attempts[i].agent == p.1 && !fan.attempts[i].delivered;
      assert targets[i] in targets;
    }
    forall p | p in TakenBy(id, fan.attempts) ensures p.0 == id && p.1 in targets {
      var i :| 0 <= i < |fan.attempts| && fan.attempts[i].accepted != [] && p == (id, fan.attempts[i].agent);
      assert targets[i] in targets;
    }
  }

  lemma PlacingKeepsHistory(q: Q.Queue, h: History, ids: set<MsgId>, fan: Fan, f: Fan, id: MsgId,
                            targets: seq<AgentId>, expires: int, agents: set<AgentId>, h': History)
    requires HistoryIsConsistent(h, ids) && id !in ids && forall p :: p in q ==> p.0 in ids
    requires f.queue == q && Placed(f, fan, id, targets, |targets|, expires)
    requires forall a :: a in agents <==> a in targets
    requires h' == Recorded(h, q, fan.queue, id, agents, fan.attempts)
    ensures HistoryIsConsistent(h', ids + {id})
  {
    OnlyRecipientsArePlaced(q, fan, f, id, targets, expires);
    forall p | p in PairsOf(id, agents) ensures p in h'.accepted || p in h'.queued {
      assert (id, p.1) !in q;
      RecipientIsPlaced(q, h, fan, f, id, targets, expires, agents, p.1);
    }
    assert forall a :: a in agents ==> (id, a) in PairsOf(id, agents);
  }

  /** Trying all the recipients from a good state puts the fan and the records in order. */
  lemma FanKeepsInv(q: Q.Queue, h: History, now: int, ids: set<MsgId>, t: D.Tables, sender: AgentId,
                    to: Option<AgentId>, room: Option<RoomId>, f: Fan, id: MsgId, oracle: Oracle, expires: int,
                    fan: Fan, h': History)
    requires B.WellFormed(f.registry) && RowsAreTold(q, h, now) && HistoryIsConsistent(h, ids) && id !in ids
    requires f.queue == q && f.attempts == []
    requires var targets := Targets(t, sender, to, room);
      fan == FanOut(f, id, targets, |targets|, oracle, expires)
    requires h' == Recorded(h, q, fan.queue, id, D.Recipients(t, sender, to, room), fan.attempts)
    ensures B.WellFormed(fan.registry) && RowsAreTold(fan.queue, h', now) && HistoryIsConsistent(h', ids + {id})
  {
    var targets, agents := Targets(t, sender, to, room), D.Recipients(t, sender, to, room);
    assert B.WellFormed(fan.registry) by { FanOutKeepsRegistry(f, id, targets, |targets|, oracle, expires); }
    assert forall p :: p in q ==> p.0 in ids by {
      assert forall p :: p in q ==> p in h.intended;
    }
    assert Placed(f, fan, id, targets, |targets|, expires) by {
      assert forall a :: (id, a) in q ==> (id, a).0 in ids;
      FanOutPlaces(f, id, targets, |targets|, oracle, expires);
    }
    PlacingKeepsRows(q, h, now, ids, fan, f, id, targets, expires, agents);
    assert forall a :: a in agents <==> a in targets by { TargetsAreRecipients(t, sender, to, room); }
    PlacingKeepsHistory(q, h, ids, fan, f, id, targets, expires, agents, h');
  }

  /** `fan` and `h` are what an accepted send makes of the world. */
  ghost predicate IsSendOf(w: World, sender: AgentId, req: Request, to: Option<AgentId>, id: MsgId, clock: Clock,
                           oracle: Oracle, fan: Fan, h: History) {
    var s := w.server;
    var targets := Targets(s.tables, sender, to, req.room);
    && fan == FanOut(Fan(s.registry, s.queue, []), id, targets, |targets|, oracle, clock.wall + s.ttl)
    && h == Recorded(w.history, s.queue, fan.queue, id, D.Recipients(s.tables, sender, to, req.room), fan.attempts)
  }

  lemma AcceptedIsSend(w: World, sender: AgentId, req: Request, to: Option<AgentId>, id: MsgId, clock: Clock,
                       oracle: Oracle, w': World) returns (fan: Fan, h: History)
    requires w' == After(w, sender, id, Accepted(w.server, sender, req, to, id, clock, oracle))
    ensures IsSendOf(w, sender, req, to, id, clock, oracle, fan, h)
    ensures Accepted(w.server, sender, req, to, id, clock, oracle).0.attempts == fan.attempts
    ensures w'.server.registry == fan.registry && w'.server.queue == fan.queue && w'.history == h && w'.now == w.now
    ensures w'.server.messages.Keys == w.server.messages.Keys + {id}
  {
    hide FanOut;
    fan := StoredFan(Charged(w.server, sender, clock), NewMessage(sender, req, to, id, clock.wall), oracle, clock.wall);
    h := w'.history;
  }

  lemma SendOfKeepsInv(w: World, sender: AgentId, req: Request, to: Option<AgentId>, id: MsgId, clock: Clock,
                       oracle: Oracle, fan: Fan, h: History)
    requires Inv(w) && id !in w.server.messages && clock.wall == w.now
    requires IsSendOf(w, sender, req, to, id, clock, oracle, fan, h)
    ensures B.WellFormed(fan.registry) && RowsAreTold(fan.queue, h, w.now)
    ensures HistoryIsConsistent(h, w.server.messages.Keys + {id})
  {
    hide FanOut;
    var s := w.server;
    FanKeepsInv(s.queue, w.history, w.now, s.messages.Keys, s.tables, sender, to, req.room,
                Fan(s.registry, s.queue, []), id, oracle, clock.wall + s.ttl, fan, h);
  }

  lemma AcceptedKeepsInv(w: World, sender: AgentId, req: Request, to: Option<AgentId>, id: MsgId, clock: Clock,
                         oracle: Oracle, w': World)
    requires Inv(w) && id !in w.server.messages && clock.wall == w.now
    requires w' == After(w, sender, id, Accepted(w.server, sender, req, to, id, clock, oracle))
    ensures Inv(w')
  {
    var fan, h := AcceptedIsSend(w, sender, req, to, id, clock, oracle, w');
    SendOfKeepsInv(w, sender, req, to, id, clock, oracle, fan, h);
  }

  lemma SendKeepsInv(w: World, sender: AgentId, req: Request, id: MsgId, clock: Clock, oracle: Oracle)
    requires Inv(w) && id !in w.server.messages && clock.wall == w.now
    ensures Inv(After(w, sender, id, Send(w.server, sender, req, id, clock, oracle)))
  {
    match Judge(w.server, sender, req, clock) {
      case Reject(_, _) =>
      case Accept(to) =>
        AcceptedKeepsInv(w, sender, req, to, id, clock, oracle,
                         After(w, sender, id, Accepted(w.server, sender, req, to, id, clock, oracle)));
    }
  }

  // ----- What the other steps do ---------------------------------------------------------

  lemma {:induction false} RowsCount(rows: seq<MsgId>, agent: AgentId, p: Pair)
    requires NoDup(rows)
    ensures Rows(rows, agent)[p] == if p.1 == agent && p.0 in rows then 1 else 0
  {
    if rows != [] {
      var n := |rows| - 1;
      var init := rows[..n];
      RowsCount(init, agent, p);
      assert rows == init + [rows[n]];
      assert seq(|rows|, i requires 0 <= i < |rows| => (rows[i], agent))
          == seq(|init|, i requires 0 <= i < |init| => (init[i], agent)) + [(rows[n], agent)];
    }
  }

  lemma FlushingCounts(h: History, rows: seq<MsgId>, agent: AgentId, writes: nat)
    requires writes <= |rows| && NoDup(rows)
    ensures forall p: Pair ::
      Flushing(h, rows, agent, writes).returned[p] == h.returned[p] + if p.1 == agent && p.0 in rows then 1 else 0
    ensures forall p: Pair ::
      Flushing(h, rows, agent, writes).written[p] <= h.written[p] + if p.1 == agent && p.0 in rows then 1 else 0
  {
    forall p: Pair
      ensures Rows(rows, agent)[p] == if p.1 == agent && p.0 in rows then 1 else 0
      ensures Rows(rows[..writes], agent)[p] <= if p.1 == agent && p.0 in rows then 1 else 0
    {
      RowsCount(rows, agent, p);
      RowsCount(rows[..writes], agent, p);
    }
  }

  /** Exactly the returned rows were pending and unexpired; a row that changed without being
      returned had expired. */
  lemma FlushedRow(q: Q.Queue, now: int, created: Q.CreatedAt, agent: AgentId, rows: seq<MsgId>, p: Pair)
    requires Q.IsFlush(rows, q, agent, now, created) && (p in q ==> p.0 in created)
    ensures var q' := Q.Flushed(q, agent, now, created);
      && (p in q' <==> p in q)
      && (p.1 == agent && p.0 in rows ==> p in q && q[p].status == Q.Pending && q'[p].status == Q.Delivered)
      && (p in q ==> q'[p].expires == q[p].expires)
      && (p in q && !(p.1 == agent && p.0 in rows) ==>
            q'[p] == q[p] || (q[p].status == Q.Pending && q'[p].status == Q.Delivered && q[p].expires <= now))
  {
    if p.1 == agent {
      assert p == (p.0, agent);
      assert p.0 in rows <==> Q.IsFlushable(q, agent, now, created, p.0);
      assert p.0 in rows ==> p.0 in Q.Flushable(q, agent, now, created);
    }
  }

  lemma FlushKeepsRows(q: Q.Queue, h: History, now: int, created: Q.CreatedAt, agent: AgentId, rows: seq<MsgId>,
                       q': Q.Queue, h': History)
    requires RowsAreTold(q, h, now) && forall p :: p in q ==> p.0 in created
    requires Q.IsFlush(rows, q, agent, now, created) && q' == Q.Flushed(q, agent, now, created)
    requires h'.queued == h.queued && h'.acked == h.acked
    requires forall p: Pair :: h'.returned[p] == h.returned[p] + if p.1 == agent && p.0 in rows then 1 else 0
    ensures RowsAreTold(q', h', now)
  {
    forall p: Pair ensures p in q' <==> p in q {
      FlushedRow(q, now, created, agent, rows, p);
    }
    forall p | p in q'
      ensures p in h'.queued && h'.queued[p] == q'[p].expires
      ensures p in h'.acked <==> q'[p].status == Q.Acked
      ensures q'[p].status == Q.Pending ==> h'.returned[p] == 0
      ensures q'[p].status == Q.Delivered ==> h'.returned[p] == 1 || q'[p].expires <= now
    {
      FlushedRow(q, now, created, agent, rows, p);
    }
  }

  lemma FlushKeepsHistory(q: Q.Queue, h: History, now: int, ids: set<MsgId>, created: Q.CreatedAt, agent: AgentId,
                          rows: seq<MsgId>, h': History)
    requires RowsAreTold(q, h, now) && HistoryIsConsistent(h, ids) && forall p :: p in q ==> p.0 in created
    requires Q.IsFlush(rows, q, agent, now, created)
    requires h' == h.(returned := h'.returned, written := h'.written)
    requires forall p: Pair :: h'.returned[p] == h.returned[p] + if p.1 == agent && p.0 in rows then 1 else 0
    requires forall p: Pair :: h'.written[p] <= h.written[p] + if p.1 == agent && p.0 in rows then 1 else 0
    ensures HistoryIsConsistent(h', ids)
  {
    forall p: Pair | p.1 == agent && p.0 in rows ensures p in q && h.returned[p] == 0 {
      FlushedRow(q, now, created, agent, rows, p);
    }
  }

  lemma ConnectKeepsInv(w: World, agent: AgentId, ws: Socket, rows: seq<MsgId>, writes: nat)
    requires Inv(w) && Enabled(w, Connect(agent, ws, rows, writes))
    ensures Inv(Step(w, Connect(agent, ws, rows, writes)))
  {
    var s := w.server;
    B.RegistrationsKeepWellFormed(s.registry, agent, ws);
    var q, h, created := s.queue, w.history, CreatedAt(s.messages);
    var h' := Flushing(h, rows, agent, writes);
    assert forall p :: p in q ==> p in h.intended && p.0 in created;
    FlushingCounts(h, rows, agent, writes);
    FlushKeepsRows(q, h, w.now, created, agent, rows, Q.Flushed(q, agent, w.now, created), h');
    FlushKeepsHistory(q, h, w.now, s.messages.Keys, created, agent, rows, h');
  }

  lemma StepKeepsInv(w: World, e: Event)
    requires Inv(w) && Enabled(w, e)
    ensures Inv(Step(w, e))
  {
    match e {
      case SendMessage(sender, req, id, mono, made, oracle) =>
        SendKeepsInv(w, sender, req, id, Clock(w.now, mono, made), oracle);
      case Connect(agent, ws, rows, writes) => ConnectKeepsInv(w, agent, ws, rows, writes);
      case Disconnect(agent, ws) => B.RegistrationsKeepWellFormed(w.server.registry, agent, ws);
      case _ =>
    }
  }

  lemma {:induction false} RunKeepsInv(w: World, events: seq<Event>)
    requires Inv(w) && CanRun(w, events)
    ensures Inv(Run(w, events))
    decreases |events|
  {
    if events != [] {
      StepKeepsInv(w, events[0]);
      RunKeepsInv(Step(w, events[0]), events[1..]);
    }
  }

  // ----- When a send is accepted ---------------------------------------------------------

  /** The recipient a request names: an agent of that id or, failing that, the only agent of
      that name. */
  ghost predicate Names(t: D.Tables, identifier: string, to: AgentId) {
    if D.HasId(t, identifier) then to == identifier
    else D.HasIdAndName(t, to, identifier) && !D.SeveralNamed(t.agents, identifier)
  }

  /** Whom the request is addressed to, if anyone directly. */
  ghost predicate IsAddressee(t: D.Tables, req: Request, to: Option<AgentId>) {
    if D.Given(req.to) then to.Some? && Names(t, req.to.value, to.value) else to == None
  }

  /** The message is short enough, names a target, its recipient is known and unambiguous, the
      sender's bucket admits it, and the sender may address the recipient and the room. */
  ghost predicate Acceptable(s: Server, sender: AgentId, req: Request, clock: Clock, to: Option<AgentId>) {
    && |req.content| <= MAX_MESSAGE_CONTENT_LENGTH
    && (D.Given(req.to) || D.Given(req.room))
    && IsAddressee(s.tables, req, to)
    && R.Allows(s.limiter, sender, clock.bucketMade, clock.mono)
    && D.MayAddress(s.tables, sender, to, req.room)
  }

  /** A message is sent exactly when it is acceptable for some recipient, and to that recipient.
      A refusal touches at most the sender's bucket. */
  lemma SentExactlyWhenAcceptable(s: Server, sender: AgentId, req: Request, id: MsgId, clock: Clock, oracle: Oracle)
    ensures var (outcome, server) := Send(s, sender, req, id, clock, oracle);
      && (outcome.Sent? ==> Acceptable(s, sender, req, clock, outcome.message.to))
      && (outcome.Refused? ==> forall to :: !Acceptable(s, sender, req, clock, to))
      && (outcome.Refused? ==> server == s.(limiter := server.limiter))
  {
    if D.Given(req.to) {
      ResolvesWhatIsNamed(s.tables, req.to.value);
    }
    var to := if D.Given(req.to) then D.ResolveAgentTarget(s.tables, req.to.value) else None;
    D.NoErrorExactlyWhenAllowed(s.tables, sender, to, req.room);
  }

  /** The request gets as far as the rate limit: it is short enough and its recipient, if it names
      one, is known and unambiguous. */
  ghost predicate Addressed(t: D.Tables, req: Request, to: Option<AgentId>) {
    && |req.content| <= MAX_MESSAGE_CONTENT_LENGTH
    && (D.Given(req.to) || D.Given(req.room))
    && IsAddressee(t, req, to)
  }

  lemma AddressedResolves(t: D.Tables, req: Request)
    requires D.Given(req.to)
    ensures var found := D.ResolveAgentTarget(t, req.to.value);
      && (forall to :: IsAddressee(t, req, to) <==> to == found && found.Some?)
      && (found.None? ==> !D.HasId(t, req.to.value))
      && (found.None? && D.IsAmbiguousAgentName(t, req.to.value) <==>
            !D.HasId(t, req.to.value) && D.SeveralNamed(t.agents, req.to.value))
      && (found.None? && !D.IsAmbiguousAgentName(t, req.to.value) <==>
            !D.HasId(t, req.to.value) && D.NobodyNamed(t.agents, req.to.value))
  {
    ResolvesWhatIsNamed(t, req.to.value);
    D.ResolutionIsExact(t, req.to.value);
  }

  /** A request that does not get as far as the rate limit: which refusal it gets, and that the
      server is left as it was. */
  lemma TurnedAwayExactlyWhen(s: Server, sender: AgentId, req: Request, id: MsgId, clock: Clock, oracle: Oracle)
    ensures var (outcome, server) := Send(s, sender, req, id, clock, oracle);
      var short := |req.content| <= MAX_MESSAGE_CONTENT_LENGTH;
      var unknown := short && D.Given(req.to) && !D.HasId(s.tables, req.to.value);
      && (outcome == Refused(422) <==> !short)
      && (outcome == Refused(400) <==> short && !D.Given(req.to) && !D.Given(req.room))
      && (outcome == Refused(409) <==> unknown && D.SeveralNamed(s.tables.agents, req.to.value))
      && ((forall to :: !Addressed(s.tables, req, to)) ==>
            server == s && (outcome == Refused(404) <==> unknown && D.NobodyNamed(s.tables.agents, req.to.value)))
  {
    if D.Given(req.to) {
      AddressedResolves(s.tables, req);
      var found := D.ResolveAgentTarget(s.tables, req.to.value);
      assert found.Some? ==> IsAddressee(s.tables, req, found);
      assert found.Some? && |req.content| <= MAX_MESSAGE_CONTENT_LENGTH ==> Addressed(s.tables, req, found);
    } else {
      assert D.Given(req.room) && |req.content| <= MAX_MESSAGE_CONTENT_LENGTH ==> Addressed(s.tables, req, None);
    }
    var to := if D.Given(req.to) then D.ResolveAgentTarget(s.tables, req.to.value) else None;
    D.NoErrorExactlyWhenAllowed(s.tables, sender, to, req.room);
  }

  /** One that does: an empty bucket refuses it, only then do permissions count, and the sender's
      bucket is charged either way. */
  lemma RefusedExactlyWhen(s: Server, sender: AgentId, req: Request, id: MsgId, clock: Clock, oracle: Oracle,
                           to: Option<AgentId>)
    requires Addressed(s.tables, req, to)
    ensures var (outcome, server) := Send(s, sender, req, id, clock, oracle);
      var allowed := R.Allows(s.limiter, sender, clock.bucketMade, clock.mono);
      && (outcome == Refused(429) <==> !allowed)
      && (outcome == Refused(404) <==> allowed && D.IsMissing(s.tables, sender, to, req.room))
      && (outcome == Refused(403) <==> allowed && D.IsForbidden(s.tables, sender, to, req.room))
      && (outcome.Sent? <==> allowed && D.MayAddress(s.tables, sender, to, req.room))
      && (outcome.Refused? ==> outcome.code in {429, 404, 403})
      && server.limiter == R.Charged(s.limiter, sender, clock.bucketMade, clock.mono)
  {
    if D.Given(req.to) {
      AddressedResolves(s.tables, req);
    }
    D.NoErrorExactlyWhenAllowed(s.tables, sender, to, req.room);
  }

  lemma ResolvesWhatIsNamed(t: D.Tables, identifier: string)
    ensures forall to :: Names(t, identifier, to) <==> D.ResolveAgentTarget(t, identifier) == Some(to)
  {
    D.ResolutionIsExact(t, identifier);
    if !D.HasId(t, identifier) {
      D.OnlyOneNamed(t, identifier);
    }
  }

  // ----- Accounting ----------------------------------------------------------------------

  /** What can have become of a message meant for an agent. */
  ghost predicate Accounted(w: World, p: Pair) {
    var q, h := w.server.queue, w.history;
    || p in h.accepted
    || (p in q && q[p].status == Q.Pending)
    || h.returned[p] == 1
    || p in h.acked
    || (p in h.queued && h.queued[p] <= w.now)
  }

  /** In every run from an empty broker, each accepted message is accounted for at each agent it
      was meant for, no row is returned by two flushes, and nothing is taken by, returned to or
      written to an agent it was not meant for. */
  lemma EveryPairIsAccountedFor(tables: D.Tables, ratePerMin: int, ttl: int, now: int, events: seq<Event>, p: Pair)
    requires CanRun(Initial(tables, ratePerMin, ttl, now), events)
    ensures var w := Run(Initial(tables, ratePerMin, ttl, now), events);
      && (p in w.history.intended ==> Accounted(w, p))
      && w.history.returned[p] <= 1
      && (p !in w.history.intended ==>
            p !in w.history.accepted && w.history.returned[p] == 0 && w.history.written[p] == 0)
  {
    RunKeepsInv(Initial(tables, ratePerMin, ttl, now), events);
    var w := Run(Initial(tables, ratePerMin, ttl, now), events);
    assert p in w.history.returned <==> w.history.returned[p] > 0;
    assert w.history.written[p] <= w.history.returned[p];
  }
}
