/** Matching replies to questions in the SDK (src/claw_msg/client/agent.py): the futures that `ask`
    waits on, the bounded cache of replies that came too early, and how messages are dispatched. */
module Replies {
  import opened Common

  type FutureId = nat

  /** An asyncio future: completed once, with a message, or cancelled by its waiter. */
  datatype Future = Open | Done(reply: Reply) | Cancelled

  datatype Reply = Reply(id: MsgId, replyTo: Option<MsgId>)

  /** One item of the insertion-ordered cache. */
  datatype Entry = Entry(key: MsgId, expires: real, reply: Reply)

  const EARLY_REPLY_TTL_SECONDS := 60.0
  const EARLY_REPLY_MAX_SIZE: nat := 1000

  // ----- Pruning -------------------------------------------------------------------------

  /** What pruning is for: the unexpired entries, of which the newest are kept. */
  function Unexpired(s: seq<Entry>, now: real): seq<Entry> {
    if s == [] then []
    else if s[0].expires > now then [s[0]] + Unexpired(s[1..], now)
    else Unexpired(s[1..], now)
  }

  function Newest(s: seq<Entry>, n: nat): seq<Entry> {
    if |s| <= n then s else s[|s| - n..]
  }

  function Pruned(s: seq<Entry>, now: real): seq<Entry> {
    Newest(Unexpired(s, now), EARLY_REPLY_MAX_SIZE)
  }

  ghost predicate ByExpiry(s: seq<Entry>) {
    forall i, j :: 0 <= i < j < |s| ==> s[i].expires <= s[j].expires
  }

  ghost predicate DistinctKeys(s: seq<Entry>) {
    forall i, j :: 0 <= i < j < |s| ==> s[i].key != s[j].key
  }

  ghost predicate HasKey(s: seq<Entry>, key: MsgId) {
    exists i :: 0 <= i < |s| && s[i].key == key
  }

  lemma {:induction false} UnexpiredAll(s: seq<Entry>, now: real)
    requires forall i :: 0 <= i < |s| ==> s[i].expires > now
    ensures Unexpired(s, now) == s
  {
    if s != [] {
      UnexpiredAll(s[1..], now);
    }
  }

  /** In a cache ordered by expiry the unexpired entries are a suffix. */
  lemma {:induction false} UnexpiredIsSuffix(s: seq<Entry>, now: real)
    requires ByExpiry(s)
    ensures |Unexpired(s, now)| <= |s| && Unexpired(s, now) == s[|s| - |Unexpired(s, now)|..]
    ensures forall i :: 0 <= i < |Unexpired(s, now)| ==> Unexpired(s, now)[i].expires > now
  {
    if s != [] {
      if s[0].expires > now {
        UnexpiredAll(s, now);
      } else {
        UnexpiredIsSuffix(s[1..], now);
      }
    }
  }

  // ----- The correlator as a value -------------------------------------------------------

  datatype State = State(
    pending: map<MsgId, FutureId>,
    early: seq<Entry>,
    futures: map<FutureId, Future>)

  function Find(s: seq<Entry>, key: MsgId): Option<Entry> {
    if s == [] then None else if s[0].key == key then Some(s[0]) else Find(s[1..], key)
  }

  function Drop(s: seq<Entry>, key: MsgId): seq<Entry> {
    if s == [] then [] else if s[0].key == key then s[1..] else [s[0]] + Drop(s[1..], key)
  }

  predicate IsOpen(s: State, f: FutureId) {
    f in s.futures && s.futures[f] == Open
  }

  /** `_register_pending_reply`. */
  function Registered(s: State, id: MsgId, f: FutureId, now: real): State {
    var early := Pruned(s.early, now);
    var found := Find(early, id);
    if found.Some? && IsOpen(s, f) then
      State(s.pending, Drop(early, id), s.futures[f := Done(found.value.reply)])
    else State(s.pending[id := f], Drop(early, id), s.futures)
  }

  /** `_resolve_reply`, with the clock readings of its two prunings and of the expiry. */
  function Resolved(s: State, reply: Reply, t1: real, t2: real, t3: real): State {
    if reply.replyTo.None? || reply.replyTo.value == "" then s
    else
      var id := reply.replyTo.value;
      var pending := s.pending - {id};
      if id in s.pending && IsOpen(s, s.pending[id]) then
        State(pending, s.early, s.futures[s.pending[id] := Done(reply)])
      else
        var early := Pruned(s.early, t1);
        if Find(early, id).Some? then State(pending, early, s.futures)
        else State(pending, Pruned(early + [Entry(id, t2 + EARLY_REPLY_TTL_SECONDS, reply)], t3), s.futures)
  }

  /** The `finally` of `ask`. */
  function Ended(s: State, id: MsgId, f: FutureId): State {
    State(s.pending - {id}, s.early, if IsOpen(s, f) then s.futures[f := Cancelled] else s.futures)
  }

  // ----- The object ----------------------------------------------------------------------

  class ReplyCorrelator {
    var pending: map<MsgId, FutureId>
    var early: seq<Entry>
    var futures: map<FutureId, Future>

    ghost function View(): State
      reads this
    {
      State(pending, early, futures)
    }

    constructor ()
      ensures View() == State(map[], [], map[])
    {
      pending, early, futures := map[], [], map[];
    }

    /** Pops the head while it has expired, then the head while there are too many. */
    method PruneEarlyReplies(now: real)
      requires ByExpiry(early)
      modifies this`early
      ensures early == Pruned(old(early), now)
    {
      ghost var all := early;
      UnexpiredIsSuffix(all, now);
      while early != []
        invariant |Unexpired(all, now)| <= |early| <= |all| && early == all[|all| - |early|..]
        decreases |early|
      {
        if early[0].expires > now {
          break;
        }
        ExpiredHead(all, now, |all| - |early|);
        early := early[1..];
      }
      if early != [] {
        UnexpiredFrom(all, now, |all| - |early|);
      }
      assert early == Unexpired(all, now);
      ghost var live := early;
      while |early| > EARLY_REPLY_MAX_SIZE
        invariant |early| <= |live| && early == live[|live| - |early|..]
        invariant |early| >= |Newest(live, EARLY_REPLY_MAX_SIZE)|
        decreases |early|
      {
        early := early[1..];
      }
    }

    /** `_register_pending_reply`. */
    method RegisterPendingReply(id: MsgId, future: FutureId, now: real)
      requires ByExpiry(early)
      modifies this
      ensures View() == Registered(old(View()), id, future, now)
    {
      PruneEarlyReplies(now);
      var found := Find(early, id);
      DropMissing(early, id);
      if found.Some? {
        early := Drop(early, id);
        if future in futures && futures[future] == Open {
          futures := futures[future := Done(found.value.reply)];
          return;
        }
      }
      pending := pending[id := future];
    }

    /** `_resolve_reply`: whether the message completed a future. */
    method ResolveReply(message: Reply, t1: real, t2: real, t3: real) returns (completed: bool)
      requires ByExpiry(early) && LatestExpiry(early, t2 + EARLY_REPLY_TTL_SECONDS)
      modifies this
      ensures View() == Resolved(old(View()), message, t1, t2, t3)
      ensures completed == Completes(old(View()), message)
    {
      if message.replyTo.None? || message.replyTo.value == "" {
        return false;
      }
      var id := message.replyTo.value;
      var popped := if id in pending then Some(pending[id]) else None;
      pending := pending - {id};
      if popped.Some? && popped.value in futures && futures[popped.value] == Open {
        futures := futures[popped.value := Done(message)];
        return true;
      }
      PrunedIsSuffix(early, t1);
      PruneEarlyReplies(t1);
      if Find(early, id).None? {
        early := early + [Entry(id, t2 + EARLY_REPLY_TTL_SECONDS, message)];
        PruneEarlyReplies(t3);
      }
      return false;
    }

    /** The `finally` of `ask`. */
    method EndAsk(id: MsgId, future: FutureId)
      modifies this
      ensures View() == Ended(old(View()), id, future)
    {
      pending := pending - {id};
      if future in futures && futures[future] == Open {
        futures := futures[future := Cancelled];
      }
    }
  }

  predicate Completes(s: State, reply: Reply) {
    && reply.replyTo.Some? && reply.replyTo.value != ""
    && reply.replyTo.value in s.pending && IsOpen(s, s.pending[reply.replyTo.value])
  }

  ghost predicate LatestExpiry(s: seq<Entry>, latest: real) {
    forall i :: 0 <= i < |s| ==> s[i].expires <= latest
  }

  lemma {:induction false} DropMissing(s: seq<Entry>, key: MsgId)
    ensures Find(s, key).None? ==> Drop(s, key) == s
  {
    if s != [] && s[0].key != key {
      DropMissing(s[1..], key);
    }
  }

  lemma PrunedIsSuffix(s: seq<Entry>, now: real)
    requires ByExpiry(s)
    ensures |Pruned(s, now)| <= |s| && Pruned(s, now) == s[|s| - |Pruned(s, now)|..]
  {
    UnexpiredIsSuffix(s, now);
  }

  /** While the head has expired, the unexpired suffix lies strictly behind it. */
  lemma ExpiredHead(s: seq<Entry>, now: real, at: nat)
    requires ByExpiry(s) && at < |s| && s[at].expires <= now
    ensures |Unexpired(s, now)| < |s| - at
  {
    UnexpiredIsSuffix(s, now);
  }

  /** Once the head is unexpired, everything from it on is. */
  lemma {:induction false} UnexpiredFrom(s: seq<Entry>, now: real, at: nat)
    requires ByExpiry(s) && at < |s| && s[at].expires > now
    ensures |Unexpired(s, now)| >= |s| - at
    decreases at
  {
    if at == 0 {
      UnexpiredAll(s, now);
    } else if s[0].expires > now {
      UnexpiredAll(s, now);
    } else {
      UnexpiredFrom(s[1..], now, at - 1);
    }
  }

  // ----- Runs ----------------------------------------------------------------------------

  /** The correlator, the id each future was created for, and the latest clock reading. */
  datatype World = World(state: State, asked: map<FutureId, MsgId>, now: real)

  datatype Event =
    | Ask(id: MsgId, future: FutureId, t: real)
    | Dispatch(reply: Reply, t1: real, t2: real, t3: real)
    | TimeOut(future: FutureId)
    | Finish(future: FutureId)

  /** The broker's message ids and the loop's futures are new, and the clock is monotonic. */
  ghost predicate Enabled(w: World, e: Event) {
    match e
    case Ask(id, f, t) =>
      id != "" && f !in w.state.futures && (forall g :: g in w.asked ==> w.asked[g] != id) && w.now <= t
    case Dispatch(_, t1, t2, t3) => w.now <= t1 <= t2 <= t3
    case TimeOut(f) => f in w.asked
    case Finish(f) => f in w.asked
  }

  ghost function Step(w: World, e: Event): World
    requires Enabled(w, e)
  {
    match e
    case Ask(id, f, t) =>
      World(Registered(w.state.(futures := w.state.futures[f := Open]), id, f, t), w.asked[f := id], t)
    case Dispatch(reply, t1, t2, t3) => w.(state := Resolved(w.state, reply, t1, t2, t3), now := t3)
    case TimeOut(f) =>
      if IsOpen(w.state, f) then w.(state := w.state.(futures := w.state.futures[f := Cancelled])) else w
    case Finish(f) => w.(state := Ended(w.state, w.asked[f], f))
  }

  ghost predicate CanRun(w: World, events: seq<Event>)
    decreases |events|
  {
    events == [] || (Enabled(w, events[0]) && CanRun(Step(w, events[0]), events[1..]))
  }

  ghost function Run(w: World, events: seq<Event>): World
    requires CanRun(w, events)
    decreases |events|
  {
    if events == [] then w else Run(Step(w, events[0]), events[1..])
  }

  ghost predicate CacheOrder(early: seq<Entry>, now: real) {
    && ByExpiry(early) && DistinctKeys(early)
    && LatestExpiry(early, now + EARLY_REPLY_TTL_SECONDS)
    && forall i :: 0 <= i < |early| ==> early[i].reply.replyTo == Some(early[i].key)
  }

  ghost predicate CacheInv(early: seq<Entry>, now: real) {
    CacheOrder(early, now) && |early| <= EARLY_REPLY_MAX_SIZE
  }

  ghost predicate FuturesInv(w: World) {
    && w.asked.Keys == w.state.futures.Keys
    && (forall id :: id in w.state.pending ==>
          w.state.pending[id] in w.asked && w.asked[w.state.pending[id]] == id)
    && (forall f, g :: f in w.asked && g in w.asked && f != g ==> w.asked[f] != w.asked[g])
    && (forall f :: f in w.state.futures && w.state.futures[f].Done? ==>
          w.state.futures[f].reply.replyTo == Some(w.asked[f]))
  }

  ghost predicate Disjoint(s: State) {
    forall id :: HasKey(s.early, id) ==> id !in s.pending
  }

  ghost predicate Inv(w: World) {
    CacheInv(w.state.early, w.now) && FuturesInv(w) && Disjoint(w.state)
  }

  lemma {:induction false} FindFinds(s: seq<Entry>, key: MsgId)
    ensures Find(s, key).Some? <==> HasKey(s, key)
    ensures Find(s, key).Some? ==> Find(s, key).value in s && Find(s, key).value.key == key
  {
    if s != [] && s[0].key != key {
      FindFinds(s[1..], key);
      if i :| 0 <= i < |s| && s[i].key == key {
        assert s[1..][i - 1].key == key;
      }
      if i :| 0 <= i < |s[1..]| && s[1..][i].key == key {
        assert s[i + 1].key == key;
      }
    }
  }

  ghost predicate IsCut(d: seq<Entry>, s: seq<Entry>, i: nat) {
    i < |s| == |d| + 1 && forall k :: 0 <= k < |d| ==> d[k] == s[if k < i then k else k + 1]
  }

  lemma HasKeyTail(s: seq<Entry>, key: MsgId)
    requires s != []
    ensures HasKey(s, key) <==> s[0].key == key || HasKey(s[1..], key)
  {
    assert forall k :: 0 < k < |s| ==> s[k] == s[1..][k - 1];
    if k :| 0 <= k < |s[1..]| && s[1..][k].key == key {
      assert s[k + 1].key == key;
    }
  }

  lemma CutShift(d: seq<Entry>, s: seq<Entry>, j: nat)
    requires s != [] && IsCut(d, s[1..], j)
    ensures IsCut([s[0]] + d, s, j + 1)
  {
  }

  lemma {:induction false} DropCutsOne(s: seq<Entry>, key: MsgId) returns (i: nat)
    ensures if HasKey(s, key) then i < |s| && s[i].key == key && IsCut(Drop(s, key), s, i) else Drop(s, key) == s
  {
    i := 0;
    if s != [] && s[0].key != key {
      var j := DropCutsOne(s[1..], key);
      HasKeyTail(s, key);
      if HasKey(s, key) {
        CutShift(Drop(s[1..], key), s, j);
      }
      i := j + 1;
    }
  }

  lemma CutKeepsCache(d: seq<Entry>, s: seq<Entry>, i: nat, now: real)
    requires CacheInv(s, now) && IsCut(d, s, i)
    ensures CacheInv(d, now) && !HasKey(d, s[i].key)
  {
  }

  lemma CutMembers(d: seq<Entry>, s: seq<Entry>, i: nat, x: Entry)
    requires DistinctKeys(s) && IsCut(d, s, i)
    ensures x in d <==> x in s && x.key != s[i].key
  {
    if x in s && x.key != s[i].key {
      var k :| 0 <= k < |s| && s[k] == x;
      assert d[if k < i then k else k - 1] == x;
    }
  }

  /** Dropping a key leaves the other entries in order. */
  lemma DropKeepsOthers(s: seq<Entry>, key: MsgId, now: real)
    requires CacheInv(s, now)
    ensures CacheInv(Drop(s, key), now) && !HasKey(Drop(s, key), key)
    ensures forall x :: x in Drop(s, key) <==> x in s && x.key != key
    ensures forall other :: HasKey(Drop(s, key), other) ==> HasKey(s, other)
  {
    var i := DropCutsOne(s, key);
    if HasKey(s, key) {
      CutKeepsCache(Drop(s, key), s, i, now);
      forall x ensures x in Drop(s, key) <==> x in s && x.key != key {
        CutMembers(Drop(s, key), s, i, x);
      }
    }
  }

  /** Pruning keeps exactly the entries that have not expired and have fewer than the maximum
      number of entries behind them: it cuts the cache at one place. */
  lemma PrunedExactly(s: seq<Entry>, now: real, i: nat)
    requires ByExpiry(s) && i < |s|
    ensures |s| - |Pruned(s, now)| <= i <==> s[i].expires > now && |s| - i <= EARLY_REPLY_MAX_SIZE
    ensures |Pruned(s, now)| <= |s| && Pruned(s, now) == s[|s| - |Pruned(s, now)|..]
  {
    UnexpiredIsSuffix(s, now);
    if s[i].expires > now {
      UnexpiredFrom(s, now, i);
    } else {
      ExpiredHead(s, now, i);
    }
  }

  lemma SuffixKeepsOrder(s: seq<Entry>, at: nat, now: real)
    requires CacheOrder(s, now) && at <= |s|
    ensures CacheOrder(s[at..], now)
    ensures forall key :: HasKey(s[at..], key) ==> HasKey(s, key)
  {
    forall key | HasKey(s[at..], key) ensures HasKey(s, key) {
      var i :| 0 <= i < |s[at..]| && s[at..][i].key == key;
      assert s[at + i].key == key;
    }
  }

  lemma PruneKeepsCache(s: seq<Entry>, now: real, t: real)
    requires CacheOrder(s, now)
    ensures CacheInv(Pruned(s, t), now)
    ensures forall key :: HasKey(Pruned(s, t), key) ==> HasKey(s, key)
  {
    PrunedIsSuffix(s, t);
    SuffixKeepsOrder(s, |s| - |Pruned(s, t)|, now);
  }

  /** Appending a reply that expires last. */
  lemma AppendKeepsOrder(s: seq<Entry>, now: real, entry: Entry)
    requires CacheOrder(s, now) && !HasKey(s, entry.key)
    requires entry.expires == now + EARLY_REPLY_TTL_SECONDS && entry.reply.replyTo == Some(entry.key)
    ensures CacheOrder(s + [entry], now)
    ensures forall key :: HasKey(s + [entry], key) ==> HasKey(s, key) || key == entry.key
  {
    forall key | HasKey(s + [entry], key) && key != entry.key ensures HasKey(s, key) {
      var i :| 0 <= i < |s + [entry]| && (s + [entry])[i].key == key;
      assert s[i].key == key;
    }
  }

  lemma CacheOrderLater(s: seq<Entry>, now: real, later: real)
    requires CacheOrder(s, now) && now <= later
    ensures CacheOrder(s, later)
  {
  }

  lemma AskKeepsInv(w: World, id: MsgId, f: FutureId, t: real)
    requires Inv(w) && Enabled(w, Ask(id, f, t))
    ensures Inv(Step(w, Ask(id, f, t)))
  {
    hide Pruned, Find, Drop;
    var early := Pruned(w.state.early, t);
    CacheOrderLater(w.state.early, w.now, t);
    PruneKeepsCache(w.state.early, t, t);
    FindFinds(early, id);
    DropKeepsOthers(early, id, t);
  }

  lemma StoreKeepsInv(early: seq<Entry>, pending: map<MsgId, FutureId>, now: real, reply: Reply, id: MsgId,
                      t1: real, t2: real, t3: real)
    requires CacheOrder(early, now) && now <= t1 <= t2 <= t3 && reply.replyTo == Some(id) && !HasKey(early, id)
    requires forall key :: HasKey(early, key) ==> key !in pending
    ensures var stored := Pruned(early + [Entry(id, t2 + EARLY_REPLY_TTL_SECONDS, reply)], t3);
      && CacheInv(stored, t3)
      && forall key :: HasKey(stored, key) ==> key !in pending - {id}
  {
    var entry := Entry(id, t2 + EARLY_REPLY_TTL_SECONDS, reply);
    CacheOrderLater(early, now, t2);
    AppendKeepsOrder(early, t2, entry);
    CacheOrderLater(early + [entry], t2, t3);
    PruneKeepsCache(early + [entry], t3, t3);
  }

  lemma DispatchKeepsInv(w: World, reply: Reply, t1: real, t2: real, t3: real)
    requires Inv(w) && Enabled(w, Dispatch(reply, t1, t2, t3))
    ensures Inv(Step(w, Dispatch(reply, t1, t2, t3)))
  {
    hide Pruned, Find;
    var s := w.state;
    CacheOrderLater(s.early, w.now, t3);
    if reply.replyTo.Some? && reply.replyTo.value != "" && !Completes(s, reply) {
      var id := reply.replyTo.value;
      var early := Pruned(s.early, t1);
      PruneKeepsCache(s.early, w.now, t1);
      CacheOrderLater(early, w.now, t3);
      FindFinds(early, id);
      if Find(early, id).None? {
        StoreKeepsInv(early, s.pending, w.now, reply, id, t1, t2, t3);
      }
    }
  }

  lemma StepKeepsInv(w: World, e: Event)
    requires Inv(w) && Enabled(w, e)
    ensures Inv(Step(w, e)) && w.now <= Step(w, e).now
  {
    match e {
      case Ask(id, f, t) => AskKeepsInv(w, id, f, t);
      case Dispatch(reply, t1, t2, t3) => DispatchKeepsInv(w, reply, t1, t2, t3);
      case _ =>
    }
  }

  lemma {:induction false} RunKeepsInv(w: World, events: seq<Event>)
    requires Inv(w) && CanRun(w, events)
    ensures Inv(Run(w, events)) && w.now <= Run(w, events).now
    decreases |events|
  {
    if events != [] {
      StepKeepsInv(w, events[0]);
      RunKeepsInv(Step(w, events[0]), events[1..]);
    }
  }

  ghost function Start(now: real): World {
    World(State(map[], [], map[]), map[], now)
  }

  /** In every run: no id is both pending and cached, at most the maximum is cached, a future is
      completed only by a message that replies to the question it was created for, and the cache
      is ordered by expiry, so that pruning its head is pruning it. */
  lemma ReachableStatesAreGood(now: real, events: seq<Event>)
    requires CanRun(Start(now), events)
    ensures var w := Run(Start(now), events);
      && Disjoint(w.state) && |w.state.early| <= EARLY_REPLY_MAX_SIZE && ByExpiry(w.state.early)
      && forall f :: f in w.asked && f in w.state.futures && w.state.futures[f].Done? ==>
           w.state.futures[f].reply.replyTo == Some(w.asked[f])
  {
    RunKeepsInv(Start(now), events);
  }

  // ----- Futures settle once -------------------------------------------------------------

  ghost predicate Settled(w: World, f: FutureId) {
    f in w.state.futures && w.state.futures[f] != Open
  }

  /** A completed or cancelled future is never touched again. */
  lemma {:induction false} FuturesSettleOnce(w: World, events: seq<Event>, f: FutureId)
    requires Inv(w) && CanRun(w, events) && Settled(w, f)
    ensures Settled(Run(w, events), f) && Run(w, events).state.futures[f] == w.state.futures[f]
    decreases |events|
  {
    if events != [] {
      StepKeepsInv(w, events[0]);
      FuturesSettleOnce(Step(w, events[0]), events[1..], f);
    }
  }

  /** The question is over: its future is settled and nothing waits for its id. */
  ghost predicate Over(w: World, f: FutureId) {
    f in w.asked && Settled(w, f) && w.asked[f] !in w.state.pending
  }

  lemma {:induction false} OverForGood(w: World, events: seq<Event>, f: FutureId)
    requires Inv(w) && CanRun(w, events) && Over(w, f)
    ensures Over(Run(w, events), f)
    decreases |events|
  {
    if events != [] {
      StepKeepsInv(w, events[0]);
      OverForGood(Step(w, events[0]), events[1..], f);
    }
  }

  /** However `ask` ends, its id is not pending afterwards, nor ever again. */
  lemma FinishedAskIsForgotten(w: World, f: FutureId, events: seq<Event>)
    requires Inv(w) && Enabled(w, Finish(f)) && CanRun(Step(w, Finish(f)), events)
    ensures Over(Run(Step(w, Finish(f)), events), f)
  {
    StepKeepsInv(w, Finish(f));
    OverForGood(Step(w, Finish(f)), events, f);
  }

  // ----- An early reply is not missed ----------------------------------------------------

  /** `entry` is one of the last `d` entries. */
  ghost predicate AmongLast(s: seq<Entry>, entry: Entry, d: nat) {
    exists i :: 0 <= i < |s| && |s| - i <= d && s[i] == entry
  }

  lemma PruneKeepsAmongLast(s: seq<Entry>, entry: Entry, d: nat, t: real)
    requires ByExpiry(s) && AmongLast(s, entry, d) && d <= EARLY_REPLY_MAX_SIZE && t < entry.expires
    ensures AmongLast(Pruned(s, t), entry, d)
  {
    var i :| 0 <= i < |s| && |s| - i <= d && s[i] == entry;
    PrunedExactly(s, t, i);
    var at := |s| - |Pruned(s, t)|;
    assert Pruned(s, t)[i - at] == entry;
  }

  lemma DropKeepsAmongLast(s: seq<Entry>, entry: Entry, d: nat, key: MsgId)
    requires AmongLast(s, entry, d) && entry.key != key
    ensures AmongLast(Drop(s, key), entry, d)
  {
    var i :| 0 <= i < |s| && |s| - i <= d && s[i] == entry;
    var cut := DropCutsOne(s, key);
    if HasKey(s, key) {
      assert Drop(s, key)[if i < cut then i else i - 1] == entry;
    }
  }

  lemma AppendKeepsAmongLast(s: seq<Entry>, entry: Entry, d: nat, more: Entry)
    requires AmongLast(s, entry, d)
    ensures AmongLast(s + [more], entry, d + 1)
  {
    var i :| 0 <= i < |s| && |s| - i <= d && s[i] == entry;
    assert (s + [more])[i] == entry;
  }

  /** The event puts a new entry into the cache. */
  ghost predicate Stores(w: World, e: Event) {
    && e.Dispatch? && e.reply.replyTo.Some? && e.reply.replyTo.value != ""
    && !Completes(w.state, e.reply)
    && Find(Pruned(w.state.early, e.t1), e.reply.replyTo.value).None?
  }

  ghost function StoreCount(w: World, events: seq<Event>): nat
    requires CanRun(w, events)
    decreases |events|
  {
    if events == [] then 0
    else (if Stores(w, events[0]) then 1 else 0) + StoreCount(Step(w, events[0]), events[1..])
  }

  ghost predicate Asks(events: seq<Event>, id: MsgId) {
    exists i :: 0 <= i < |events| && events[i].Ask? && events[i].id == id
  }

  lemma StepKeepsEntry(w: World, e: Event, entry: Entry, d: nat)
    requires Inv(w) && Enabled(w, e) && AmongLast(w.state.early, entry, d)
    requires d + (if Stores(w, e) then 1 else 0) <= EARLY_REPLY_MAX_SIZE && Step(w, e).now < entry.expires
    requires !(e.Ask? && e.id == entry.key)
    ensures AmongLast(Step(w, e).state.early, entry, d + if Stores(w, e) then 1 else 0)
  {
    match e {
      case Ask(id, f, t) =>
        PruneKeepsAmongLast(w.state.early, entry, d, t);
        DropKeepsAmongLast(Pruned(w.state.early, t), entry, d, id);
      case Dispatch(reply, t1, t2, t3) =>
        var early := Pruned(w.state.early, t1);
        PruneKeepsAmongLast(w.state.early, entry, d, t1);
        if Stores(w, e) {
          var more := Entry(reply.replyTo.value, t2 + EARLY_REPLY_TTL_SECONDS, reply);
          AppendKeepsAmongLast(early, entry, d, more);
          StoredInOrder(w, reply, t1, t2);
          PruneKeepsAmongLast(early + [more], entry, d + 1, t3);
        }
      case _ =>
    }
  }

  lemma StoredInOrder(w: World, reply: Reply, t1: real, t2: real)
    requires Inv(w) && w.now <= t1 <= t2 && reply.replyTo.Some?
    requires Find(Pruned(w.state.early, t1), reply.replyTo.value).None?
    ensures ByExpiry(Pruned(w.state.early, t1) + [Entry(reply.replyTo.value, t2 + EARLY_REPLY_TTL_SECONDS, reply)])
  {
    PrunedIsSuffix(w.state.early, t1);
  }

  lemma {:induction false} RunKeepsEntry(w: World, events: seq<Event>, entry: Entry, d: nat)
    requires Inv(w) && CanRun(w, events) && AmongLast(w.state.early, entry, d)
    requires d + StoreCount(w, events) <= EARLY_REPLY_MAX_SIZE && Run(w, events).now < entry.expires
    requires !Asks(events, entry.key)
    ensures AmongLast(Run(w, events).state.early, entry, EARLY_REPLY_MAX_SIZE)
    decreases |events|
  {
    if events != [] {
      var e, rest := events[0], events[1..];
      StepKeepsInv(w, e);
      RunKeepsInv(Step(w, e), rest);
      assert !(e.Ask? && e.id == entry.key);
      StepKeepsEntry(w, e, entry, d);
      assert forall i :: 0 <= i < |rest| ==> rest[i] == events[i + 1];
      RunKeepsEntry(Step(w, e), rest, entry, d + if Stores(w, e) then 1 else 0);
    }
  }

  /** A reply that is dispatched, and cached, before its question is registered completes the
      question's future at registration, provided the clock has not reached its expiry and fewer
      than the maximum number of other replies were cached in between. Nothing that is dispatched
      in between, not even a second reply to the same question, takes its place. */
  lemma EarlyReplyIsNotMissed(w: World, reply: Reply, t1: real, t2: real, t3: real, events: seq<Event>,
                              f: FutureId, t: real)
    requires Inv(w) && Enabled(w, Dispatch(reply, t1, t2, t3)) && Stores(w, Dispatch(reply, t1, t2, t3))
    requires var w1 := Step(w, Dispatch(reply, t1, t2, t3));
      && CanRun(w1, events) && StoreCount(w1, events) < EARLY_REPLY_MAX_SIZE
      && !Asks(events, reply.replyTo.value)
      && Enabled(Run(w1, events), Ask(reply.replyTo.value, f, t))
    requires t < t2 + EARLY_REPLY_TTL_SECONDS
    ensures var w2 := Run(Step(w, Dispatch(reply, t1, t2, t3)), events);
      Step(w2, Ask(reply.replyTo.value, f, t)).state.futures[f] == Done(reply)
  {
    var id, w1 := reply.replyTo.value, Step(w, Dispatch(reply, t1, t2, t3));
    var entry := Entry(id, t2 + EARLY_REPLY_TTL_SECONDS, reply);
    var longer := Pruned(w.state.early, t1) + [entry];
    StepKeepsInv(w, Dispatch(reply, t1, t2, t3));
    RunKeepsInv(w1, events);
    assert longer[|longer| - 1] == entry;
    assert AmongLast(longer, entry, 1);
    StoredInOrder(w, reply, t1, t2);
    PruneKeepsAmongLast(longer, entry, 1, t3);
    RunKeepsEntry(w1, events, entry, 1);
    var w2 := Run(w1, events);
    PruneKeepsAmongLast(w2.state.early, entry, EARLY_REPLY_MAX_SIZE, t);
    PruneKeepsCache(w2.state.early, w2.now, t);
    OnlyEntryOfKey(Pruned(w2.state.early, t), entry);
  }

  lemma OnlyEntryOfKey(s: seq<Entry>, entry: Entry)
    requires DistinctKeys(s) && entry in s
    ensures Find(s, entry.key) == Some(entry)
  {
    FindFinds(s, entry.key);
  }
}
