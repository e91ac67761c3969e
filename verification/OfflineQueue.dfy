/** The delivery queue (src/claw_msg/server/offline_queue.py). Rows are keyed by message and
    recipient; SQL statements are map updates, and ORDER BY leaves ties open. */
module OfflineQueue {
  import opened Common

  type Pair = (MsgId, AgentId)

  datatype Status = Pending | Delivered | Acked
  datatype Row = Row(status: Status, attempts: nat, expires: int)

  type Queue = map<Pair, Row>

  /** The messages table as the flush query joins it: identifier to creation second. */
  type CreatedAt = map<MsgId, int>

  // ----- The statements as values --------------------------------------------------------

  /** INSERT OR IGNORE. */
  function Enqueued(q: Queue, id: MsgId, agent: AgentId, expires: int): Queue {
    if (id, agent) in q then q else q[(id, agent) := Row(Pending, 0, expires)]
  }

  predicate IsFlushable(q: Queue, agent: AgentId, now: int, created: CreatedAt, id: MsgId) {
    && (id, agent) in q && q[(id, agent)].status == Pending && q[(id, agent)].expires > now
    && id in created
  }

  function Flushable(q: Queue, agent: AgentId, now: int, created: CreatedAt): set<MsgId> {
    set p | p in q && p.1 == agent && IsFlushable(q, agent, now, created, p.0) :: p.0
  }

  function MarkedDelivered(q: Queue, agent: AgentId): Queue {
    map p | p in q :: if p.1 == agent && q[p].status == Pending
      then q[p].(status := Delivered, attempts := q[p].attempts + 1) else q[p]
  }

  /** The UPDATE is skipped when the SELECT returned nothing, and otherwise covers every pending
      row of the agent, expired or not. */
  function Flushed(q: Queue, agent: AgentId, now: int, created: CreatedAt): Queue {
    if Flushable(q, agent, now, created) == {} then q else MarkedDelivered(q, agent)
  }

  function MarkedAcked(q: Queue, id: MsgId, agent: AgentId): Queue {
    if (id, agent) in q then q[(id, agent) := q[(id, agent)].(status := Acked)] else q
  }

  function Cleaned(q: Queue, now: int): Queue {
    map p | p in q && q[p].expires > now :: q[p]
  }

  /** What a flush may return: every flushable message once, oldest second first. */
  ghost predicate IsFlush(rows: seq<MsgId>, q: Queue, agent: AgentId, now: int, created: CreatedAt) {
    && NoDup(rows)
    && (forall id :: id in rows <==> IsFlushable(q, agent, now, created, id))
    && forall i, j :: 0 <= i < j < |rows| && rows[i] in created && rows[j] in created
         ==> created[rows[i]] <= created[rows[j]]
  }

  // ----- The object ----------------------------------------------------------------------

  class DeliveryQueue {
    var rows: Queue
    const ttl: int

    /** Over a table that may hold rows already. */
    constructor (rows: Queue, ttl: int)
      ensures this.rows == rows && this.ttl == ttl
    {
      this.rows := rows;
      this.ttl := ttl;
    }

    method Enqueue(id: MsgId, agent: AgentId, now: int)
      modifies this
      ensures rows == Enqueued(old(rows), id, agent, now + ttl)
    {
      var expires := now + ttl;
      if (id, agent) !in rows {
        rows := rows[(id, agent) := Row(Pending, 0, expires)];
      }
    }

    method FlushForAgent(agent: AgentId, now: int, created: CreatedAt) returns (messages: seq<MsgId>)
      modifies this
      ensures IsFlush(messages, old(rows), agent, now, created)
      ensures rows == Flushed(old(rows), agent, now, created)
    {
      var selected := Flushable(rows, agent, now, created);
      messages := OrderByCreated(selected, created);
      if messages != [] {
        assert messages[0] in selected;
        rows := MarkedDelivered(rows, agent);
      } else {
        assert forall id :: id in selected ==> id in messages;
      }
    }

    method MarkAcked(id: MsgId, agent: AgentId)
      modifies this
      ensures rows == MarkedAcked(old(rows), id, agent)
    {
      if (id, agent) in rows {
        rows := rows[(id, agent) := rows[(id, agent)].(status := Acked)];
      }
    }

    method CleanupExpired(now: int)
      modifies this
      ensures rows == Cleaned(old(rows), now)
    {
      rows := map p | p in rows && rows[p].expires > now :: rows[p];
    }
  }

  /** ORDER BY created_at: any order that respects the seconds. */
  method OrderByCreated(ids: set<MsgId>, created: CreatedAt) returns (rows: seq<MsgId>)
    requires forall id :: id in ids ==> id in created
    ensures NoDup(rows) && forall id :: id in rows <==> id in ids
    ensures forall i, j :: 0 <= i < j < |rows| ==> created[rows[i]] <= created[rows[j]]
  {
    rows := [];
    var rest := ids;
    while rest != {}
      invariant rest <= ids && NoDup(rows)
      invariant forall id :: id in ids <==> id in rows || id in rest
      invariant forall id :: id in rows ==> id !in rest
      invariant forall i :: 0 <= i < |rows| ==> forall id :: id in rest ==> created[rows[i]] <= created[id]
      invariant forall i, j :: 0 <= i < j < |rows| ==> created[rows[i]] <= created[rows[j]]
      decreases rest
    {
      OldestExists(rest, created);
      var oldest :| oldest in rest && forall id :: id in rest ==> created[oldest] <= created[id];
      rows := rows + [oldest];
      rest := rest - {oldest};
    }
  }

  lemma {:induction false} OldestExists(ids: set<MsgId>, created: CreatedAt)
    requires ids != {} && forall id :: id in ids ==> id in created
    ensures exists oldest :: oldest in ids && forall id :: id in ids ==> created[oldest] <= created[id]
  {
    var some :| some in ids;
    if ids == {some} {
      assert forall id :: id in ids ==> created[some] <= created[id];
    } else {
      var rest := ids - {some};
      assert ids == rest + {some};
      OldestExists(rest, created);
      var oldest :| oldest in rest && forall id :: id in rest ==> created[oldest] <= created[id];
      var best := if created[some] <= created[oldest] then some else oldest;
      assert forall id :: id in ids ==> id == some || id in rest;
      assert best in ids && forall id :: id in ids ==> created[best] <= created[id];
    }
  }

  lemma {:induction false} OrderExists(ids: set<MsgId>, created: CreatedAt) returns (rows: seq<MsgId>)
    requires forall id :: id in ids ==> id in created
    ensures NoDup(rows) && forall id :: id in rows <==> id in ids
    ensures forall i, j :: 0 <= i < j < |rows| ==> created[rows[i]] <= created[rows[j]]
  {
    if ids == {} {
      rows := [];
    } else {
      OldestExists(ids, created);
      var oldest :| oldest in ids && forall id :: id in ids ==> created[oldest] <= created[id];
      var rest := OrderExists(ids - {oldest}, created);
      rows := [oldest] + rest;
      assert forall i :: 0 <= i < |rest| ==> rest[i] in rest;
    }
  }

  /** A flush is always possible. */
  lemma FlushExists(q: Queue, agent: AgentId, now: int, created: CreatedAt) returns (rows: seq<MsgId>)
    ensures IsFlush(rows, q, agent, now, created)
  {
    var ids := Flushable(q, agent, now, created);
    rows := OrderExists(ids, created);
    forall id ensures id in ids <==> IsFlushable(q, agent, now, created, id) {
      if IsFlushable(q, agent, now, created, id) {
        assert (id, agent).0 in ids;
      }
    }
  }

  // ----- What the statements do to a row -------------------------------------------------

  function Rank(s: Status): nat {
    match s case Pending => 0 case Delivered => 1 case Acked => 2
  }

  /** Every row a statement leaves behind keeps its expiry, and its status moves forward only. */
  ghost predicate MovesForward(q: Queue, q': Queue) {
    forall p :: p in q && p in q' ==>
      q'[p].expires == q[p].expires && Rank(q[p].status) <= Rank(q'[p].status)
  }

  lemma StatusOnlyMovesForward(q: Queue, id: MsgId, agent: AgentId, now: int, expires: int, created: CreatedAt)
    ensures MovesForward(q, Enqueued(q, id, agent, expires)) && q.Keys <= Enqueued(q, id, agent, expires).Keys
    ensures MovesForward(q, Flushed(q, agent, now, created)) && q.Keys == Flushed(q, agent, now, created).Keys
    ensures MovesForward(q, MarkedAcked(q, id, agent)) && q.Keys == MarkedAcked(q, id, agent).Keys
    ensures MovesForward(q, Cleaned(q, now))
    ensures forall p :: p in q && p !in Cleaned(q, now) ==> q[p].expires <= now
  {
  }

  /** A flush that returns anything leaves the agent nothing pending. One that returns nothing
      changes nothing, and then whatever is pending has expired. Either way nothing that could
      be returned is left, and other agents' rows are untouched. */
  lemma FlushLeavesNothingToFlush(q: Queue, agent: AgentId, now: int, created: CreatedAt, rows: seq<MsgId>)
    requires IsFlush(rows, q, agent, now, created)
    requires forall p :: p in q ==> p.0 in created
    ensures var q' := Flushed(q, agent, now, created);
      && (forall id :: (id, agent) in q' && q'[(id, agent)].status == Pending ==>
            rows == [] && q' == q && q'[(id, agent)].expires <= now)
      && (rows != [] ==> forall id :: (id, agent) in q' ==> q'[(id, agent)].status != Pending)
      && (forall id :: id in rows ==> q'[(id, agent)].status == Delivered)
      && (forall id :: !IsFlushable(q', agent, now, created, id))
      && forall p :: p in q && p.1 != agent ==> q'[p] == q[p]
  {
    if rows == [] {
      assert forall id :: id in Flushable(q, agent, now, created) ==> id in rows;
      forall id | (id, agent) in q && q[(id, agent)].status == Pending
        ensures q[(id, agent)].expires <= now
      {
        assert (id, agent).0 in created;
        assert !IsFlushable(q, agent, now, created, id);
      }
    } else {
      assert rows[0] in rows;
      assert (rows[0], agent) in q;
      assert rows[0] in Flushable(q, agent, now, created);
    }
  }

  /** A row that had expired is nevertheless marked delivered, without having been returned,
      exactly when the agent also had a row that was returned. */
  lemma ExpiredRowIsMarkedExactlyWhen(q: Queue, agent: AgentId, now: int, created: CreatedAt, id: MsgId)
    requires (id, agent) in q && q[(id, agent)].status == Pending && q[(id, agent)].expires <= now
    ensures !IsFlushable(q, agent, now, created, id)
    ensures Flushed(q, agent, now, created)[(id, agent)].status == Delivered
        <==> exists other :: IsFlushable(q, agent, now, created, other)
  {
    var selected := Flushable(q, agent, now, created);
    if selected != {} {
      var other :| other in selected;
      assert IsFlushable(q, agent, now, created, other);
    } else {
      assert forall p :: p in q && p.1 == agent && IsFlushable(q, agent, now, created, p.0) ==> p.0 in selected;
    }
  }

  /** A flush returns every row that it changes exactly when it has nothing to return or the agent
      has no expired row still pending. */
  lemma FlushReturnsWhatItMarksExactlyWhen(q: Queue, agent: AgentId, now: int, created: CreatedAt, rows: seq<MsgId>)
    requires IsFlush(rows, q, agent, now, created)
    requires forall p :: p in q ==> p.0 in created
    ensures (forall p :: p in q && Flushed(q, agent, now, created)[p] != q[p] ==> p.1 == agent && p.0 in rows) <==>
      rows == [] || forall id :: (id, agent) in q && q[(id, agent)].status == Pending ==> q[(id, agent)].expires > now
  {
    var selected, q' := Flushable(q, agent, now, created), Flushed(q, agent, now, created);
    FlushLeavesNothingToFlush(q, agent, now, created, rows);
    if rows != [] {
      assert rows[0] in rows;
      if id :| (id, agent) in q && q[(id, agent)].status == Pending && q[(id, agent)].expires <= now {
        assert q'[(id, agent)] != q[(id, agent)] && id !in rows;
        assert (id, agent).0 == id;
      } else {
        forall p | p in q && q'[p] != q[p] ensures p.1 == agent && p.0 in rows {
          assert p == (p.0, p.1);
          assert (p.0, agent) in q && q[(p.0, agent)].status == Pending;
          assert IsFlushable(q, agent, now, created, p.0);
        }
      }
    } else {
      assert forall id :: id in selected ==> id in rows;
    }
  }

  /** A row counts one attempt for each flush that marks it, and nothing else counts. */
  lemma FlushCountsAttempts(q: Queue, agent: AgentId, now: int, created: CreatedAt, id: MsgId, p: Pair)
    requires p in q
    ensures var q' := Flushed(q, agent, now, created);
      q'[p].attempts == q[p].attempts + if q'[p] != q[p] then 1 else 0
    ensures MarkedAcked(q, id, agent)[p].attempts == q[p].attempts
  {
  }
}
