/** The cleanup loop (src/claw_msg/server/offline_queue.py) is invisible: leaving every cleanup
    out of a run changes nothing that any agent can see. */
module Housekeeping {
  import opened Common
  import D = Directory
  import Q = OfflineQueue
  import opened Delivery

  /** The unexpired rows of both tables are the same. */
  ghost predicate SameLive(q: Q.Queue, r: Q.Queue, now: int) {
    && (forall p :: p in q && q[p].expires > now ==> p in r && r[p] == q[p])
    && (forall p :: p in r && r[p].expires > now ==> p in q && q[p] == r[p])
  }

  /** What was sent, taken, queued, returned and written is the same. */
  ghost predicate SameTraffic(h: History, k: History) {
    && h.intended == k.intended && h.accepted == k.accepted && h.queued == k.queued
    && h.returned == k.returned && h.written == k.written
  }

  ghost predicate Alike(w: World, v: World) {
    && w.now == v.now && w.server.(queue := v.server.queue) == v.server
    && SameLive(w.server.queue, v.server.queue, w.now) && SameTraffic(w.history, v.history)
  }

  // ----- Sending -------------------------------------------------------------------------

  /** `after` and `after'` have grown by the same rows, all of this message. */
  ghost predicate SameGrowth(q: Q.Queue, after: Q.Queue, r: Q.Queue, after': Q.Queue, id: MsgId) {
    && (forall p :: p in q ==> p in after && after[p] == q[p])
    && (forall p :: p in r ==> p in after' && after'[p] == r[p])
    && (forall p :: p in after && p !in q ==> p.0 == id && p in after' && after'[p] == after[p])
    && (forall p :: p in after' && p !in r ==> p.0 == id && p in after && after[p] == after'[p])
  }

  ghost predicate Unsent(q: Q.Queue, id: MsgId) {
    forall a :: (id, a) !in q
  }

  lemma EnqueueGrows(q: Q.Queue, after: Q.Queue, r: Q.Queue, after': Q.Queue, id: MsgId, agent: AgentId, expires: int)
    requires Unsent(q, id) && Unsent(r, id) && SameGrowth(q, after, r, after', id)
    ensures SameGrowth(q, Q.Enqueued(after, id, agent, expires), r, Q.Enqueued(after', id, agent, expires), id)
  {
    assert (id, agent) in after <==> (id, agent) in after';
  }

  /** Two fans from the same registry that differ only in the rows they started from. */
  ghost predicate FansAlike(q: Q.Queue, f: Fan, r: Q.Queue, g: Fan, id: MsgId) {
    f.registry == g.registry && f.attempts == g.attempts && SameGrowth(q, f.queue, r, g.queue, id)
  }

  lemma TryOneGrows(q: Q.Queue, f: Fan, r: Q.Queue, g: Fan, id: MsgId, agent: AgentId, refusing: set<Socket>,
                    expires: int)
    requires Unsent(q, id) && Unsent(r, id) && FansAlike(q, f, r, g, id)
    ensures FansAlike(q, TryOne(f, id, agent, refusing, expires), r, TryOne(g, id, agent, refusing, expires), id)
  {
    EnqueueGrows(q, f.queue, r, g.queue, id, agent, expires);
  }

  lemma {:induction false} FanOutGrows(f: Fan, g: Fan, id: MsgId, targets: seq<AgentId>, n: nat,
                                       oracle: Oracle, expires: int)
    requires n <= |targets| && Unsent(f.queue, id) && Unsent(g.queue, id)
    requires f.registry == g.registry && f.attempts == g.attempts
    ensures FansAlike(f.queue, FanOut(f, id, targets, n, oracle, expires),
                      g.queue, FanOut(g, id, targets, n, oracle, expires), id)
  {
    if n > 0 {
      FanOutGrows(f, g, id, targets, n - 1, oracle, expires);
      var before := FanOut(f, id, targets, n - 1, oracle, expires);
      TryOneGrows(f.queue, before, g.queue, FanOut(g, id, targets, n - 1, oracle, expires), id, targets[n - 1],
                  Refusing(oracle, |before.attempts|), expires);
    }
  }

  lemma GrowthKeepsLive(q: Q.Queue, after: Q.Queue, r: Q.Queue, after': Q.Queue, id: MsgId, now: int)
    requires SameLive(q, r, now) && SameGrowth(q, after, r, after', id) && Unsent(q, id) && Unsent(r, id)
    ensures SameLive(after, after', now)
    ensures forall h, k, agents, attempts :: SameTraffic(h, k) ==>
      SameTraffic(Recorded(h, q, after, id, agents, attempts), Recorded(k, r, after', id, agents, attempts))
  {
    assert (map p | p in after && p !in q :: after[p].expires) == (map p | p in after' && p !in r :: after'[p].expires);
  }

  /** A message not yet stored has no rows. */
  lemma FreshIsUnsent(w: World, id: MsgId)
    requires Inv(w) && id !in w.server.messages
    ensures Unsent(w.server.queue, id)
  {
    assert forall p :: p in w.server.queue ==> p in w.history.intended && p.0 in w.server.messages;
    assert forall a :: (id, a) in w.server.queue ==> (id, a).0 in w.server.messages;
  }

  /** What a send does beyond inserting rows does not depend on the rows there are. */
  lemma StoredIsAlike(s: Server, t: Server, message: Message, oracle: Oracle, wall: int,
                      after: (Server, seq<Attempt>), after': (Server, seq<Attempt>))
    requires s.tables == t.tables && s.registry == t.registry && s.ttl == t.ttl
    requires Unsent(s.queue, message.id) && Unsent(t.queue, message.id)
    requires after == Stored(s, message, oracle, wall) && after' == Stored(t, message, oracle, wall)
    ensures FansAlike(s.queue, Fan(after.0.registry, after.0.queue, after.1),
                      t.queue, Fan(after'.0.registry, after'.0.queue, after'.1), message.id)
  {
    hide FanOut;
    var targets := Targets(s.tables, message.from, message.to, message.room);
    var f := StoredFan(s, message, oracle, wall);
    var g := StoredFan(t, message, oracle, wall);
    FanOutGrows(Fan(s.registry, s.queue, []), Fan(t.registry, t.queue, []), message.id, targets, |targets|,
                oracle, wall + s.ttl);
  }

  lemma StoredFrame(s: Server, message: Message, oracle: Oracle, wall: int, after: Server)
    requires after == Stored(s, message, oracle, wall).0
    ensures after == s.(messages := s.messages[message.id := message], registry := after.registry, queue := after.queue)
  {
    var fan := StoredFan(s, message, oracle, wall);
  }

  lemma AcceptedIsAlike(w: World, v: World, sender: AgentId, req: Request, to: Option<AgentId>, id: MsgId,
                        clock: Clock, oracle: Oracle)
    requires Inv(w) && Inv(v) && Alike(w, v) && id !in w.server.messages
    ensures Alike(After(w, sender, id, Accepted(w.server, sender, req, to, id, clock, oracle)),
                  After(v, sender, id, Accepted(v.server, sender, req, to, id, clock, oracle)))
  {
    FreshIsUnsent(w, id);
    FreshIsUnsent(v, id);
    var message := NewMessage(sender, req, to, id, clock.wall);
    var s, t := Charged(w.server, sender, clock), Charged(v.server, sender, clock);
    var after, after' := Stored(s, message, oracle, clock.wall), Stored(t, message, oracle, clock.wall);
    StoredIsAlike(s, t, message, oracle, clock.wall, after, after');
    StoredFrame(s, message, oracle, clock.wall, after.0);
    StoredFrame(t, message, oracle, clock.wall, after'.0);
    GrowthKeepsLive(s.queue, after.0.queue, t.queue, after'.0.queue, id, w.now);
  }

  lemma SendIsAlike(w: World, v: World, sender: AgentId, req: Request, id: MsgId, clock: Clock, oracle: Oracle)
    requires Inv(w) && Inv(v) && Alike(w, v) && id !in w.server.messages
    ensures Alike(After(w, sender, id, Send(w.server, sender, req, id, clock, oracle)),
                  After(v, sender, id, Send(v.server, sender, req, id, clock, oracle)))
  {
    var verdict := Judge(w.server, sender, req, clock);
    assert verdict == Judge(v.server, sender, req, clock);
    if verdict.Accept? {
      AcceptedIsAlike(w, v, sender, req, verdict.to, id, clock, oracle);
    }
  }

  // ----- The other steps -----------------------------------------------------------------

  lemma FlushIsAlike(q: Q.Queue, r: Q.Queue, agent: AgentId, now: int, created: Q.CreatedAt, rows: seq<MsgId>)
    requires SameLive(q, r, now)
    ensures Q.IsFlush(rows, q, agent, now, created) <==> Q.IsFlush(rows, r, agent, now, created)
    ensures SameLive(Q.Flushed(q, agent, now, created), Q.Flushed(r, agent, now, created), now)
  {
    assert forall id :: Q.IsFlushable(q, agent, now, created, id) <==> Q.IsFlushable(r, agent, now, created, id);
    assert Q.Flushable(q, agent, now, created) == Q.Flushable(r, agent, now, created);
  }

  lemma ConnectIsAlike(w: World, v: World, agent: AgentId, ws: Socket, rows: seq<MsgId>, writes: nat)
    requires Alike(w, v) && Enabled(w, Connect(agent, ws, rows, writes))
    ensures Enabled(v, Connect(agent, ws, rows, writes))
    ensures Alike(Step(w, Connect(agent, ws, rows, writes)), Step(v, Connect(agent, ws, rows, writes)))
  {
    FlushIsAlike(w.server.queue, v.server.queue, agent, w.now, CreatedAt(w.server.messages), rows);
  }

  lemma AckIsAlike(q: Q.Queue, r: Q.Queue, id: MsgId, agent: AgentId, now: int)
    requires SameLive(q, r, now)
    ensures SameLive(Q.MarkedAcked(q, id, agent), Q.MarkedAcked(r, id, agent), now)
  {
  }

  lemma StepIsAlike(w: World, v: World, e: Event)
    requires Inv(w) && Inv(v) && Alike(w, v) && Enabled(w, e) && !e.Cleanup?
    ensures Enabled(v, e) && Alike(Step(w, e), Step(v, e))
  {
    match e {
      case SendMessage(sender, req, id, mono, made, oracle) =>
        SendIsAlike(w, v, sender, req, id, Clock(w.now, mono, made), oracle);
      case Connect(agent, ws, rows, writes) => ConnectIsAlike(w, v, agent, ws, rows, writes);
      case Ack(agent, id) => AckIsAlike(w.server.queue, v.server.queue, id, agent, w.now);
      case _ =>
    }
  }

  lemma CleanupIsAlike(w: World, v: World)
    requires Alike(w, v)
    ensures Alike(Step(w, Cleanup), v)
  {
  }

  function WithoutCleanups(events: seq<Event>): seq<Event> {
    if events == [] then []
    else if events[0].Cleanup? then WithoutCleanups(events[1..])
    else [events[0]] + WithoutCleanups(events[1..])
  }

  lemma {:induction false} RunsAreAlike(w: World, v: World, events: seq<Event>)
    requires Inv(w) && Inv(v) && Alike(w, v) && CanRun(w, events)
    ensures CanRun(v, WithoutCleanups(events))
    ensures Alike(Run(w, events), Run(v, WithoutCleanups(events)))
    decreases |events|
  {
    if events != [] {
      var e, rest := events[0], events[1..];
      StepKeepsInv(w, e);
      if e.Cleanup? {
        CleanupIsAlike(w, v);
        RunsAreAlike(Step(w, e), v, rest);
      } else {
        StepIsAlike(w, v, e);
        StepKeepsInv(v, e);
        RunsAreAlike(Step(w, e), Step(v, e), rest);
        assert WithoutCleanups(events)[1..] == WithoutCleanups(rest);
      }
    }
  }

  /** Whenever and however often the cleanup loop runs, the broker answers, delivers and flushes as
      if it never had: without its steps the run is still possible, every send and flush in it
      does the same, and it ends with the same unexpired rows. */
  lemma CleanupIsInvisible(tables: D.Tables, ratePerMin: int, ttl: int, now: int, events: seq<Event>)
    requires CanRun(Initial(tables, ratePerMin, ttl, now), events)
    ensures CanRun(Initial(tables, ratePerMin, ttl, now), WithoutCleanups(events))
    ensures Alike(Run(Initial(tables, ratePerMin, ttl, now), events),
                  Run(Initial(tables, ratePerMin, ttl, now), WithoutCleanups(events)))
  {
    var w := Initial(tables, ratePerMin, ttl, now);
    RunsAreAlike(w, w, events);
  }
}
