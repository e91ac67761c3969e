/** What the rate limit means for a whole run of the broker (src/claw_msg/server/rate_limit.py,
    routes_messages.py, routes_ws.py): how many messages one sender gets sent. */
module Throttle {
  import opened Common
  import D = Directory
  import R = RateLimit
  import opened Delivery

  // ----- One sender's bucket -------------------------------------------------------------

  ghost predicate RatesAgree(l: R.Limiter) {
    forall a :: a in l.buckets ==> l.buckets[a].capacity == l.ratePerMin
  }

  /** What the sender could spend at `t`; a sender without a bucket is about to get a full one. */
  function Tokens(l: R.Limiter, sender: AgentId, t: real): real {
    if sender in l.buckets then R.Level(l.buckets[sender], t) else l.ratePerMin as real
  }

  ghost predicate IsSound(l: R.Limiter, sender: AgentId, t: real) {
    RatesAgree(l) && l.ratePerMin >= 0 && 0.0 <= Tokens(l, sender, t) <= l.ratePerMin as real
  }

  /** Waiting earns no more than the refill. */
  lemma TokensLater(l: R.Limiter, sender: AgentId, t: real, later: real)
    requires IsSound(l, sender, t) && t <= later
    ensures IsSound(l, sender, later)
    ensures Tokens(l, sender, later) <= Tokens(l, sender, t) + R.Refill(l.ratePerMin, later - t)
    ensures R.Refill(l.ratePerMin, later - t) >= 0.0
  {
    R.RefillAdds(l.ratePerMin, t, later, later);
    if sender in l.buckets {
      R.RefillAdds(l.ratePerMin, l.buckets[sender].last, t, later);
    }
  }

  /** A call takes one token if it is allowed and none otherwise, from the caller only. */
  lemma TokensCharged(l: R.Limiter, caller: AgentId, made: real, now: real, sender: AgentId)
    requires IsSound(l, sender, now) && made <= now
    ensures IsSound(R.Charged(l, caller, made, now), sender, now)
    ensures Tokens(R.Charged(l, caller, made, now), sender, now) ==
      Tokens(l, sender, now) - if caller == sender && R.Allows(l, caller, made, now) then 1.0 else 0.0
  {
    R.RefillAdds(l.ratePerMin, made, now, now);
  }

  // ----- Runs ----------------------------------------------------------------------------

  /** The monotonic clock does not go back, and a bucket is made before it is charged. */
  ghost predicate IsClocked(events: seq<Event>, since: real, until: real)
    decreases |events|
  {
    if events == [] then since <= until
    else if events[0].SendMessage? then
      && since <= events[0].mono && events[0].bucketMade <= events[0].mono
      && IsClocked(events[1..], events[0].mono, until)
    else IsClocked(events[1..], since, until)
  }

  ghost predicate Sends(w: World, e: Event, sender: AgentId) {
    && e.SendMessage? && e.sender == sender
    && Send(w.server, e.sender, e.request, e.id, Clock(w.now, e.mono, e.bucketMade), e.oracle).0.Sent?
  }

  /** How many messages of this sender are sent in the run. */
  ghost function SentBy(w: World, events: seq<Event>, sender: AgentId): nat
    requires CanRun(w, events)
    decreases |events|
  {
    if events == [] then 0
    else (if Sends(w, events[0], sender) then 1 else 0) + SentBy(Step(w, events[0]), events[1..], sender)
  }

  /** A restart throws the buckets away, and every sender has a full one again. */
  function Refunds(events: seq<Event>, capacity: nat): real
    decreases |events|
  {
    if events == [] then 0.0
    else (if events[0].Restart? then capacity as real else 0.0) + Refunds(events[1..], capacity)
  }

  lemma SendCharges(s: Server, sender: AgentId, req: Request, id: MsgId, clock: Clock, oracle: Oracle)
    ensures var (outcome, server) := Send(s, sender, req, id, clock, oracle);
      && (server.limiter == s.limiter
          || server.limiter == R.Charged(s.limiter, sender, clock.bucketMade, clock.mono))
      && (outcome.Sent? ==> R.Allows(s.limiter, sender, clock.bucketMade, clock.mono))
      && (outcome.Sent? ==> server.limiter == R.Charged(s.limiter, sender, clock.bucketMade, clock.mono))
  {
  }

  /** One step spends a token for a message of the sender. */
  lemma StepSpends(w: World, e: Event, sender: AgentId, now: real)
    requires Enabled(w, e) && IsSound(w.server.limiter, sender, now)
    requires e.SendMessage? ==> e.mono == now && e.bucketMade <= now
    ensures var l, l' := w.server.limiter, Step(w, e).server.limiter;
      && l'.ratePerMin == l.ratePerMin && IsSound(l', sender, now)
      && (if Sends(w, e, sender) then 1.0 else 0.0) + Tokens(l', sender, now)
         <= Tokens(l, sender, now) + if e.Restart? then l.ratePerMin as real else 0.0
  {
    if e.SendMessage? {
      SendCharges(w.server, e.sender, e.request, e.id, Clock(w.now, e.mono, e.bucketMade), e.oracle);
      TokensCharged(w.server.limiter, e.sender, e.bucketMade, now, sender);
    }
  }

  /** The time at which the limiter is next consulted, if it is in this step. */
  function Reading(e: Event, since: real): real {
    if e.SendMessage? then e.mono else since
  }

  /** What is sent comes out of the tokens there are, the refill and the refunds; and whatever
      happens the sender's bucket stays between empty and full. */
  lemma {:induction false} SentWithinTokens(w: World, events: seq<Event>, sender: AgentId, since: real, until: real)
    requires CanRun(w, events) && IsClocked(events, since, until) && IsSound(w.server.limiter, sender, since)
    ensures since <= until && IsSound(Run(w, events).server.limiter, sender, until)
    ensures var l := w.server.limiter;
      && Run(w, events).server.limiter.ratePerMin == l.ratePerMin
      && SentBy(w, events, sender) as real
         <= Tokens(l, sender, since) + R.Refill(l.ratePerMin, until - since) + Refunds(events, l.ratePerMin)
    decreases |events|
  {
    var l := w.server.limiter;
    if events == [] {
      TokensLater(l, sender, since, until);
    } else {
      var e := events[0];
      var now := Reading(e, since);
      TokensLater(l, sender, since, now);
      StepSpends(w, e, sender, now);
      SentWithinTokens(Step(w, e), events[1..], sender, now, until);
      R.RefillAdds(l.ratePerMin, since, now, until);
    }
  }

  /** After any run of the broker, in any stretch of it between two readings of the clock, a sender
      gets at most a minute's rate sent, plus what flows in meanwhile, plus a minute's rate for
      each restart: over HTTP and WebSocket together, and whatever others send. */
  lemma SenderIsBounded(tables: D.Tables, ratePerMin: nat, ttl: int, now: int, before: seq<Event>, stretch: seq<Event>,
                        sender: AgentId, start: real, since: real, until: real)
    requires CanRun(Initial(tables, ratePerMin, ttl, now), before) && IsClocked(before, start, since)
    requires CanRun(Run(Initial(tables, ratePerMin, ttl, now), before), stretch) && IsClocked(stretch, since, until)
    ensures SentBy(Run(Initial(tables, ratePerMin, ttl, now), before), stretch, sender) as real
         <= ratePerMin as real + R.Refill(ratePerMin, until - since) + Refunds(stretch, ratePerMin)
  {
    var w := Initial(tables, ratePerMin, ttl, now);
    SentWithinTokens(w, before, sender, start, since);
    SentWithinTokens(Run(w, before), stretch, sender, since, until);
  }
}
