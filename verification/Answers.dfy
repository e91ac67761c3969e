/** That questions get their answers (src/claw_msg/client/agent.py): what settles the future an `ask`
    waits on, and with what, over runs of the dispatcher, the poller and any number of asks. */
module Answers {
  import opened Common
  import opened Replies

  /** Every open future is the one its id waits for. */
  ghost predicate OpenOnesWait(w: World) {
    && (forall f :: f in w.asked ==> w.asked[f] != "")
    && (forall f :: f in w.asked && IsOpen(w.state, f) ==>
          w.asked[f] in w.state.pending && w.state.pending[w.asked[f]] == f)
  }

  ghost predicate Good(w: World) {
    Inv(w) && OpenOnesWait(w)
  }

  /** The cache after pruning, when it is no larger than it may be: what has not expired. */
  lemma PrunedMembers(early: seq<Entry>, now: real, t: real)
    requires CacheInv(early, now)
    ensures forall x :: x in Pruned(early, t) <==> x in early && x.expires > t
  {
    forall x ensures x in Pruned(early, t) <==> x in early && x.expires > t {
      PrunedMember(early, now, t, x);
    }
  }

  lemma PrunedMember(early: seq<Entry>, now: real, t: real, x: Entry)
    requires CacheInv(early, now)
    ensures x in Pruned(early, t) <==> x in early && x.expires > t
  {
    hide Pruned;
    PrunedIsSuffix(early, t);
    var kept := Pruned(early, t);
    if i :| 0 <= i < |early| && early[i] == x {
      PrunedExactly(early, t, i);
      if x.expires > t {
        assert kept[i - (|early| - |kept|)] == x;
      }
    }
    if j :| 0 <= j < |kept| && kept[j] == x {
      var i := j + |early| - |kept|;
      assert early[i] == x;
      PrunedExactly(early, t, i);
    }
  }

  // ----- Asking --------------------------------------------------------------------------

  /** Some unexpired reply to the question was cached before it was registered. */
  ghost predicate IsCached(w: World, id: MsgId, t: real, x: Entry) {
    x in w.state.early && x.key == id && x.expires > t
  }

  /** Registering a question answers it at once exactly when the cache holds an unexpired reply to
      it, and with that reply; otherwise it waits. The cache keeps everything else unexpired. */
  lemma AskIsAnsweredFromCacheExactlyWhen(w: World, id: MsgId, f: FutureId, t: real)
    requires Inv(w) && Enabled(w, Ask(id, f, t))
    ensures var s, s' := w.state, Step(w, Ask(id, f, t)).state;
      && (forall x :: IsCached(w, id, t, x) ==> s'.futures == s.futures[f := Done(x.reply)] && s'.pending == s.pending)
      && ((forall x :: !IsCached(w, id, t, x)) ==>
            s'.futures == s.futures[f := Open] && s'.pending == s.pending[id := f])
      && (forall x :: x in s'.early <==> x in s.early && x.expires > t && x.key != id)
  {
    hide Pruned, Find, Drop;
    var early := Pruned(w.state.early, t);
    PrunedMembers(w.state.early, w.now, t);
    CacheOrderLater(w.state.early, w.now, t);
    PruneKeepsCache(w.state.early, t, t);
    FindFinds(early, id);
    DropKeepsOthers(early, id, t);
    forall x | IsCached(w, id, t, x) ensures Find(early, id) == Some(x) {
      OnlyEntryOfKey(early, x);
    }
    if Find(early, id).Some? {
      assert IsCached(w, id, t, Find(early, id).value);
    }
  }

  // ----- Dispatching ---------------------------------------------------------------------

  /** A reply to a question that waits completes it: nothing else changes, and nothing afterwards
      takes the answer away. */
  lemma WaitingQuestionIsAnswered(w: World, id: MsgId, f: FutureId, reply: Reply, t1: real, t2: real, t3: real,
                                  more: seq<Event>)
    requires Inv(w) && id != "" && id in w.state.pending && w.state.pending[id] == f && IsOpen(w.state, f)
    requires reply.replyTo == Some(id) && Enabled(w, Dispatch(reply, t1, t2, t3))
    requires CanRun(Step(w, Dispatch(reply, t1, t2, t3)), more)
    ensures var s, s' := w.state, Step(w, Dispatch(reply, t1, t2, t3)).state;
      s'.futures == s.futures[f := Done(reply)] && s'.pending == s.pending - {id} && s'.early == s.early
    ensures var w' := Run(Step(w, Dispatch(reply, t1, t2, t3)), more);
      f in w'.state.futures && w'.state.futures[f] == Done(reply)
  {
    StepKeepsInv(w, Dispatch(reply, t1, t2, t3));
    FuturesSettleOnce(Step(w, Dispatch(reply, t1, t2, t3)), more, f);
  }

  /** A message that is no reply changes nothing. */
  lemma OthersAreIgnored(w: World, message: Reply, t1: real, t2: real, t3: real)
    requires Enabled(w, Dispatch(message, t1, t2, t3)) && (message.replyTo == None || message.replyTo == Some(""))
    ensures Step(w, Dispatch(message, t1, t2, t3)).state == w.state
  {
  }

  ghost predicate Answers(e: Event, id: MsgId) {
    e.Dispatch? && e.reply.replyTo == Some(id)
  }

  ghost predicate Ends(e: Event, f: FutureId) {
    e == TimeOut(f) || e == Finish(f)
  }

  /** What a step does to a question that waits: a reply to it completes it, its time-out and its end
      cancel it, and nothing else concerns it. */
  lemma StepSettlesExactlyWhen(w: World, e: Event, f: FutureId)
    requires Good(w) && Enabled(w, e) && f in w.asked && IsOpen(w.state, f)
    ensures var w' := Step(w, e);
      && f in w'.asked && w'.asked[f] == w.asked[f] && f in w'.state.futures
      && w'.state.futures[f] ==
         (if Answers(e, w.asked[f]) then Done(e.reply) else if Ends(e, f) then Cancelled else Open)
  {
    hide Pruned, Find, Drop;
  }

  lemma AskKeepsWaiting(w: World, id: MsgId, f: FutureId, t: real)
    requires Good(w) && Enabled(w, Ask(id, f, t))
    ensures OpenOnesWait(Step(w, Ask(id, f, t)))
  {
    AskIsAnsweredFromCacheExactlyWhen(w, id, f, t);
    hide Registered;
    var w' := Step(w, Ask(id, f, t));
    assert w'.asked == w.asked[f := id];
    assert forall g :: g in w.asked ==> g in w.state.futures && g != f && w.asked[g] != id;
    if x :| IsCached(w, id, t, x) {
      assert w'.state.futures == w.state.futures[f := Done(x.reply)] && w'.state.pending == w.state.pending;
    }
  }

  lemma DispatchKeepsWaiting(w: World, reply: Reply, t1: real, t2: real, t3: real)
    requires Good(w) && Enabled(w, Dispatch(reply, t1, t2, t3))
    ensures OpenOnesWait(Step(w, Dispatch(reply, t1, t2, t3)))
  {
    hide Pruned, Find, Drop;
    var w' := Step(w, Dispatch(reply, t1, t2, t3));
    assert w'.asked == w.asked;
    assert forall f, g :: f in w.asked && g in w.asked && f != g ==> w.asked[f] != w.asked[g];
    forall f | f in w.asked && IsOpen(w'.state, f)
      ensures w.asked[f] in w'.state.pending && w'.state.pending[w.asked[f]] == f
    {
      assert IsOpen(w.state, f);
    }
  }

  lemma StepKeepsGood(w: World, e: Event)
    requires Good(w) && Enabled(w, e)
    ensures Good(Step(w, e))
  {
    hide Step, OpenOnesWait;
    StepKeepsInv(w, e);
    match e {
      case Ask(id, f, t) => AskKeepsWaiting(w, id, f, t);
      case Dispatch(reply, t1, t2, t3) => DispatchKeepsWaiting(w, reply, t1, t2, t3);
      case TimeOut(f) => TimeOutKeepsWaiting(w, f);
      case Finish(f) => EndKeepsWaiting(w, f);
    }
  }

  lemma TimeOutKeepsWaiting(w: World, f: FutureId)
    requires Good(w) && Enabled(w, TimeOut(f))
    ensures OpenOnesWait(Step(w, TimeOut(f)))
  {
  }

  lemma EndKeepsWaiting(w: World, f: FutureId)
    requires Good(w) && Enabled(w, Finish(f))
    ensures OpenOnesWait(Step(w, Finish(f)))
  {
    assert forall g :: g in w.asked && g != f ==> w.asked[g] != w.asked[f];
  }

  lemma {:induction false} RunKeepsGood(w: World, events: seq<Event>)
    requires Good(w) && CanRun(w, events)
    ensures Good(Run(w, events))
    decreases |events|
  {
    if events != [] {
      StepKeepsGood(w, events[0]);
      RunKeepsGood(Step(w, events[0]), events[1..]);
    }
  }

  /** The first of these events that settles the question, or none. */
  ghost function Settlement(events: seq<Event>, id: MsgId, f: FutureId): Future {
    if events == [] then Open
    else if Answers(events[0], id) then Done(events[0].reply)
    else if Ends(events[0], f) then Cancelled
    else Settlement(events[1..], id, f)
  }

  /** A question that waits is settled by the first event that concerns it: answered by the first
      reply to it that is dispatched, unless its time-out or its end comes first. */
  lemma {:induction false} FirstEventSettles(w: World, events: seq<Event>, f: FutureId)
    requires Good(w) && CanRun(w, events) && f in w.asked && IsOpen(w.state, f)
    ensures f in Run(w, events).state.futures
    ensures Run(w, events).state.futures[f] == Settlement(events, w.asked[f], f)
    decreases |events|
  {
    if events != [] {
      var w' := Step(w, events[0]);
      StepSettlesExactlyWhen(w, events[0], f);
      StepKeepsGood(w, events[0]);
      if IsOpen(w'.state, f) {
        FirstEventSettles(w', events[1..], f);
      } else {
        FuturesSettleOnce(w', events[1..], f);
      }
    }
  }

  /** What becomes of a question, in any run from the start on: the unexpired reply in the cache when
      it is registered, if there is one, or else whatever the first event after it says. */
  lemma QuestionIsSettledBy(now: real, before: seq<Event>, id: MsgId, f: FutureId, t: real, after: seq<Event>)
    requires CanRun(Start(now), before) && Enabled(Run(Start(now), before), Ask(id, f, t))
    requires CanRun(Step(Run(Start(now), before), Ask(id, f, t)), after)
    ensures var w := Run(Start(now), before);
      var w' := Run(Step(w, Ask(id, f, t)), after);
      && f in w'.state.futures
      && (forall x :: IsCached(w, id, t, x) ==> w'.state.futures[f] == Done(x.reply))
      && ((forall x :: !IsCached(w, id, t, x)) ==> w'.state.futures[f] == Settlement(after, id, f))
  {
    RunKeepsGood(Start(now), before);
    var w := Run(Start(now), before);
    var w1 := Step(w, Ask(id, f, t));
    AskIsAnsweredFromCacheExactlyWhen(w, id, f, t);
    StepKeepsGood(w, Ask(id, f, t));
    if x :| IsCached(w, id, t, x) {
      FuturesSettleOnce(w1, after, f);
    } else {
      FirstEventSettles(w1, after, f);
    }
  }
}
