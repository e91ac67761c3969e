/** That a rejected call is retried (src/claw_msg/client/agent.py, `_with_reauth`): what each answer
    leads to, when a second request goes out and with which token, and when a task gives up. */
module Retry {
  import opened Common
  import opened Reauth

  /** Between the 401 and the second request: waiting for the lock or holding it. */
  ghost predicate IsRetrying(a: Agent, i: TaskId) {
    PcOf(a, i).Waiting? || Holds(a, i)
  }

  /** Each task has sent as many requests as its place says: one until it is retried, then two. */
  ghost predicate CountsAreExact(w: World) {
    forall i :: i in w.agent.tasks ==>
      && (PcOf(w.agent, i).First? || IsRetrying(w.agent, i) ==> Sent(w.history, i) == 1)
      && (PcOf(w.agent, i).Second? ==> Sent(w.history, i) == 2)
  }

  ghost predicate Good(w: World) {
    Inv(w) && CountsAreExact(w)
  }

  lemma StepKeepsCounts(w: World, e: Event)
    requires Good(w) && Enabled(w, e)
    ensures CountsAreExact(Step(w, e))
  {
    var w' := Step(w, e);
    forall i | i in w'.agent.tasks
      ensures PcOf(w'.agent, i).First? || IsRetrying(w'.agent, i) ==> Sent(w'.history, i) == 1
      ensures PcOf(w'.agent, i).Second? ==> Sent(w'.history, i) == 2
    {
      if i != e.task {
        assert PcOf(w'.agent, i) == PcOf(w.agent, i) && Sent(w'.history, i) == Sent(w.history, i);
      }
    }
  }

  lemma {:induction false} RunKeepsGood(w: World, events: seq<Event>)
    requires Good(w) && CanRun(w, events)
    ensures Good(Run(w, events))
    decreases |events|
  {
    if events != [] {
      StepKeepsInv(w, events[0]);
      StepKeepsCounts(w, events[0]);
      RunKeepsGood(Step(w, events[0]), events[1..]);
    }
  }

  // ----- One step ------------------------------------------------------------------------

  /** What the answers do: success ends the task, another failure raises, and a 401 to the first
      request, but not to the second, leaves the task waiting to try again, with the token that
      failed. Nobody else is concerned and nothing is sent. */
  lemma AnswersLeadTo(w: World, i: TaskId, answer: Answer)
    requires Good(w)
    ensures Enabled(w, FirstAnswer(i, answer)) ==>
      var w' := Step(w, FirstAnswer(i, answer));
      && w'.history == w.history && w'.agent == w.agent.(tasks := w'.agent.tasks)
      && PcOf(w'.agent, i) == match answer
           case Ok => Succeeded
           case Failure => Raised
           case Unauthorized => Waiting(Some(PcOf(w.agent, i).used))
    ensures Enabled(w, SecondAnswer(i, answer)) ==>
      var w' := Step(w, SecondAnswer(i, answer));
      && w'.history == w.history && w'.agent == w.agent.(tasks := w'.agent.tasks)
      && (PcOf(w'.agent, i) == if answer.Ok? then Succeeded else Raised)
  {
  }

  lemma StepConcernsOneTask(w: World, e: Event, i: TaskId)
    requires Enabled(w, e) && i != e.task
    ensures PcOf(Step(w, e).agent, i) == PcOf(w.agent, i) && Sent(Step(w, e).history, i) == Sent(w.history, i)
  {
  }

  /** Which steps send a request: starting a task while there is a token, entering the lock to find
      that the token has been renewed, and being issued one. */
  ghost predicate SendsNow(w: World, e: Event)
    requires Enabled(w, e)
  {
    match e
    case Begin(_) => w.agent.token.Some?
    case Acquire(i) => w.agent.token.Some? && w.agent.token != PcOf(w.agent, i).failed
    case Registered(_, issued) => issued.Some?
    case _ => false
  }

  /** A step sends one request or none; it is sent with the token current afterwards; and a second
      one goes out with another token than the first. */
  lemma RequestIsSentExactlyWhen(w: World, e: Event)
    requires Good(w) && Enabled(w, e)
    ensures var w', i := Step(w, e), e.task;
      && Sent(w'.history, i) == Sent(w.history, i) + (if SendsNow(w, e) then 1 else 0)
      && (SendsNow(w, e) ==> w'.agent.token.Some? && w'.agent.http == w'.agent.token)
      && (SendsNow(w, e) && e.Begin? ==> PcOf(w'.agent, i) == First(w.agent.token, w'.agent.token.value))
      && (SendsNow(w, e) && !e.Begin? ==>
            PcOf(w'.agent, i) == Second(PcOf(w.agent, i).failed, w'.agent.token.value)
            && w'.agent.token != PcOf(w.agent, i).failed)
      && (e.Registered? && e.issued.Some? ==> w'.agent.token == e.issued)
  {
  }

  /** A registration is made when the task that holds the lock has closed the old connection, with
      the token that failed, and at no other step. */
  lemma RegistrationIsMadeExactlyWhen(w: World, e: Event)
    requires Good(w) && Enabled(w, e)
    ensures Step(w, e).history.registrations ==
      w.history.registrations + if e.Closed? then [PcOf(w.agent, e.task).failed] else []
  {
  }

  /** Which steps make a task that is retrying give up. */
  ghost predicate GivesUp(w: World, e: Event, i: TaskId) {
    e == CloseFailed(i) || e == Registered(i, None) || (e == Acquire(i) && w.agent.token == None)
  }

  /** A task that is retrying goes on, unless one of these steps makes it raise, until it sends. */
  lemma RetryEndsExactlyWhen(w: World, e: Event, i: TaskId)
    requires Good(w) && Enabled(w, e) && IsRetrying(w.agent, i)
    ensures PcOf(Step(w, e).agent, i) == Raised <==> GivesUp(w, e, i)
    ensures PcOf(Step(w, e).agent, i).Second? <==> SendsNow(w, e) && e.task == i
    ensures IsRetrying(Step(w, e).agent, i) <==> !GivesUp(w, e, i) && !(SendsNow(w, e) && e.task == i)
  {
    if e.task != i {
      StepConcernsOneTask(w, e, i);
    }
  }

  // ----- Runs ----------------------------------------------------------------------------

  /** At some step of the run the task gives up. */
  ghost predicate GivesUpIn(w: World, events: seq<Event>, i: TaskId)
    requires CanRun(w, events)
    decreases |events|
  {
    events != [] && (GivesUp(w, events[0], i) || GivesUpIn(Step(w, events[0]), events[1..], i))
  }

  /** A task whose call was answered 401 ends raised, without a second request, only because closing
      failed in it, its own registration was refused, or it had the lock and there was no token. */
  lemma {:induction false} RaisesUnretriedOnlyWhen(w: World, events: seq<Event>, i: TaskId)
    requires Good(w) && CanRun(w, events) && IsRetrying(w.agent, i)
    requires PcOf(Run(w, events).agent, i) == Raised && Sent(Run(w, events).history, i) == 1
    ensures GivesUpIn(w, events, i)
    decreases |events|
  {
    if events != [] {
      var e, w' := events[0], Step(w, events[0]);
      RetryEndsExactlyWhen(w, e, i);
      StepKeepsInv(w, e);
      StepKeepsCounts(w, e);
      if IsRetrying(w'.agent, i) {
        RaisesUnretriedOnlyWhen(w', events[1..], i);
      } else if PcOf(w'.agent, i).Second? {
        SentNeverFalls(w', events[1..], i);
      }
    }
  }

  lemma {:induction false} SentNeverFalls(w: World, events: seq<Event>, i: TaskId)
    requires Good(w) && CanRun(w, events)
    ensures Sent(w.history, i) <= Sent(Run(w, events).history, i)
    decreases |events|
  {
    if events != [] {
      var e := events[0];
      RequestIsSentExactlyWhen(w, e);
      if e.task != i {
        StepConcernsOneTask(w, e, i);
      }
      StepKeepsInv(w, e);
      StepKeepsCounts(w, e);
      SentNeverFalls(Step(w, e), events[1..], i);
    }
  }

  // ----- The second request is always within reach ---------------------------------------

  lemma RunJoins(w: World, first: seq<Event>, second: seq<Event>)
    requires CanRun(w, first) && CanRun(Run(w, first), second)
    ensures CanRun(w, first + second) && Run(w, first + second) == Run(Run(w, first), second)
    decreases |first|
  {
    if first == [] {
      assert first + second == second;
    } else {
      RunJoins(Step(w, first[0]), first[1..], second);
      assert (first + second)[1..] == first[1..] + second;
    }
  }

  lemma AddStep(w: World, events: seq<Event>, e: Event)
    requires CanRun(w, events) && Enabled(Run(w, events), e)
    ensures CanRun(w, events + [e]) && Run(w, events + [e]) == Step(Run(w, events), e)
  {
    OneStep(Run(w, events), e);
    RunJoins(w, events, [e]);
  }

  /** The holder of the lock closes, registers and is issued a new token. */
  lemma HolderCanFinish(w: World, j: TaskId) returns (events: seq<Event>, token: Token)
    requires Good(w) && Holds(w.agent, j)
    ensures CanRun(w, events) && token !in w.history.known
    ensures var w' := Run(w, events);
      && w'.agent.token == Some(token) && w'.agent.lock == None
      && PcOf(w'.agent, j) == Second(PcOf(w.agent, j).failed, token)
      && forall i :: i != j ==> PcOf(w'.agent, i) == PcOf(w.agent, i)
  {
    token := SomeTokenIsNew(w.history.known);
    if PcOf(w.agent, j).Closing? {
      var w1 := Step(w, Closed(j));
      OneStep(w, Closed(j));
      AddStep(w, [Closed(j)], Registered(j, Some(token)));
      events := [Closed(j)] + [Registered(j, Some(token))];
    } else {
      events := [Registered(j, Some(token))];
      OneStep(w, events[0]);
    }
  }

  /** A waiting task gets the lock once it is free. */
  lemma WaiterCanRetry(w: World, i: TaskId) returns (events: seq<Event>)
    requires Good(w) && PcOf(w.agent, i).Waiting? && w.agent.lock == None && w.agent.token.Some?
    ensures CanRun(w, events) && PcOf(Run(w, events).agent, i).Second?
    ensures PcOf(Run(w, events).agent, i).failed == PcOf(w.agent, i).failed
  {
    var w1 := Step(w, Acquire(i));
    OneStep(w, Acquire(i));
    events := [Acquire(i)];
    RunKeepsGood(w, events);
    if w.agent.token == PcOf(w.agent, i).failed {
      var rest, token := HolderCanFinish(w1, i);
      RunJoins(w, [Acquire(i)], rest);
      events := [Acquire(i)] + rest;
    }
  }

  /** From every reachable state in which a task's first request was answered 401 and the client is
      not stranded, there is a way on in which the task sends its request a second time, with
      another token than the one that failed. */
  lemma RejectedCallCanBeRetried(token: Option<Token>, client: bool, before: seq<Event>, i: TaskId)
    returns (after: seq<Event>)
    requires CanRun(Start(token, client), before)
    requires IsRetrying(Run(Start(token, client), before).agent, i) && !Stranded(Run(Start(token, client), before))
    ensures var w := Run(Start(token, client), before);
      && CanRun(w, after)
      && var w' := Run(w, after);
         && Sent(w.history, i) == 1 && Sent(w'.history, i) == 2 && PcOf(w'.agent, i).Second?
         && PcOf(w'.agent, i).failed == PcOf(w.agent, i).failed
         && PcOf(w'.agent, i).failed != Some(PcOf(w'.agent, i).used)
  {
    RunKeepsGood(Start(token, client), before);
    var w := Run(Start(token, client), before);
    if Holds(w.agent, i) {
      var issued;
      after, issued := HolderCanFinish(w, i);
    } else if w.agent.lock.Some? {
      var first, issued := HolderCanFinish(w, w.agent.lock.value);
      RunKeepsGood(w, first);
      var second := WaiterCanRetry(Run(w, first), i);
      RunJoins(w, first, second);
      after := first + second;
    } else {
      after := WaiterCanRetry(w, i);
    }
    RunKeepsGood(w, after);
  }

  // ----- From the 401 on -----------------------------------------------------------------

  /** A first request that is answered 401 leads on to a second: in every reachable state in which it
      may be answered so and the client is not stranded, there is a run from that answer to a second
      request of the same task, made with another token. */
  lemma UnauthorizedCanBeRetried(token: Option<Token>, client: bool, before: seq<Event>, i: TaskId)
    returns (after: seq<Event>)
    requires CanRun(Start(token, client), before) && !Stranded(Run(Start(token, client), before))
    requires Enabled(Run(Start(token, client), before), FirstAnswer(i, Unauthorized))
    ensures var w := Run(Start(token, client), before);
      var w1 := Step(w, FirstAnswer(i, Unauthorized));
      && CanRun(w1, after)
      && var w' := Run(w1, after);
         && Sent(w.history, i) == 1 && Sent(w'.history, i) == 2
         && PcOf(w'.agent, i).Second? && PcOf(w'.agent, i).used != PcOf(w.agent, i).used
  {
    RunKeepsGood(Start(token, client), before);
    var w, e := Run(Start(token, client), before), FirstAnswer(i, Unauthorized);
    AnswersLeadTo(w, i, Unauthorized);
    AddStep(Start(token, client), before, e);
    after := RejectedCallCanBeRetried(token, client, before + [e], i);
  }

  /** And if the task ends raised after a 401 without having sent a second request, then closing failed
      in it, its own registration was refused, or there was no token when it had the lock. */
  lemma UnauthorizedIsRaisedOnlyWhen(w: World, i: TaskId, events: seq<Event>)
    requires Good(w) && Enabled(w, FirstAnswer(i, Unauthorized))
    requires CanRun(Step(w, FirstAnswer(i, Unauthorized)), events)
    requires var w' := Run(Step(w, FirstAnswer(i, Unauthorized)), events);
      PcOf(w'.agent, i) == Raised && Sent(w'.history, i) == 1
    ensures GivesUpIn(Step(w, FirstAnswer(i, Unauthorized)), events, i)
  {
    var w1 := Step(w, FirstAnswer(i, Unauthorized));
    AnswersLeadTo(w, i, Unauthorized);
    StepKeepsInv(w, FirstAnswer(i, Unauthorized));
    StepKeepsCounts(w, FirstAnswer(i, Unauthorized));
    RaisesUnretriedOnlyWhen(w1, events, i);
  }
}
