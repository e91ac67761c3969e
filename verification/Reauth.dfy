/** Token refresh in the SDK (src/claw_msg/client/agent.py, `_with_reauth` and `_reauthenticate`):
    many tasks share one token and one HTTP client; a task whose call came back 401 takes the lock
    and re-registers unless somebody has done so already. A step is what one task does between
    two suspension points. */
module Reauth {
  import opened Common

  type TaskId = nat
  type Token = string

  /** Where a task stands in `_with_reauth`. `failed` is the token it read before its first try
      and `used` the token of the HTTP client its request in flight was made with. */
  datatype Pc =
    | Idle
    | First(failed: Option<Token>, used: Token)
    | Waiting(failed: Option<Token>)
    | Closing(failed: Option<Token>)
    | Registering(failed: Option<Token>)
    | Second(failed: Option<Token>, used: Token)
    | Succeeded
    | Raised

  datatype Agent = Agent(
    token: Option<Token>,
    http: Option<Token>,     // the token the current HTTP client was created with
    lock: Option<TaskId>,
    tasks: map<TaskId, Pc>)

  /** What the run has done: tokens ever known, the re-registrations made with the token each
      presented, and how often each task has sent its request. */
  datatype History = History(known: set<Token>, registrations: seq<Option<Token>>, sent: map<TaskId, nat>)

  datatype World = World(agent: Agent, history: History)

  datatype Answer = Ok | Unauthorized | Failure

  datatype Event =
    | Begin(task: TaskId)
    | FirstAnswer(task: TaskId, answer: Answer)
    | Acquire(task: TaskId)
    | Closed(task: TaskId)
    | CloseFailed(task: TaskId)
    | Registered(task: TaskId, issued: Option<Token>)
    | SecondAnswer(task: TaskId, answer: Answer)

  function PcOf(a: Agent, i: TaskId): Pc {
    if i in a.tasks then a.tasks[i] else Idle
  }

  /** `_get_http`: the client in use, or a new one if there is a token to make it with. */
  function ClientToken(a: Agent): Option<Token> {
    if a.http.Some? then a.http else a.token
  }

  predicate Enabled(w: World, e: Event) {
    var a := w.agent;
    match e
    case Begin(i) => i !in a.tasks
    case FirstAnswer(i, _) => PcOf(a, i).First?
    case Acquire(i) => PcOf(a, i).Waiting? && a.lock == None
    case Closed(i) => PcOf(a, i).Closing?
    case CloseFailed(i) => PcOf(a, i).Closing?
    case Registered(i, token) => PcOf(a, i).Registering? && (token.Some? ==> token.value !in w.history.known)
    case SecondAnswer(i, _) => PcOf(a, i).Second?
  }

  /** Starting the operation: without a token the call raises before anything is sent. */
  function Launch(a: Agent, h: History, i: TaskId, pc: (Token) -> Pc): World {
    var client := ClientToken(a);
    if client.None? then World(a.(tasks := a.tasks[i := Raised]), h)
    else World(a.(http := client, tasks := a.tasks[i := pc(client.value)]),
               h.(sent := h.sent[i := (if i in h.sent then h.sent[i] else 0) + 1]))
  }

  function Step(w: World, e: Event): World
    requires Enabled(w, e)
  {
    var a, h := w.agent, w.history;
    match e
    case Begin(i) => Launch(a, h, i, used => First(a.token, used))
    case FirstAnswer(i, answer) =>
      w.(agent := a.(tasks := a.tasks[i :=
        match answer case Ok => Succeeded case Failure => Raised case Unauthorized => Waiting(a.tasks[i].failed)]))
    case Acquire(i) =>
      var failed := a.tasks[i].failed;
      if failed.Some? && a.token != failed then Launch(a, h, i, used => Second(failed, used))
      else w.(agent := a.(lock := Some(i), tasks := a.tasks[i := Closing(failed)]))
    case Closed(i) =>
      var failed := a.tasks[i].failed;
      World(a.(token := None, http := None, tasks := a.tasks[i := Registering(failed)]),
            h.(registrations := h.registrations + [failed]))
    case CloseFailed(i) => w.(agent := a.(lock := None, tasks := a.tasks[i := Raised]))
    case Registered(i, token) =>
      var failed := a.tasks[i].failed;
      var released := a.(lock := None);
      if token.None? then w.(agent := released.(tasks := a.tasks[i := Raised]))
      else Launch(released.(token := token, http := token), h.(known := h.known + {token.value}), i,
                  used => Second(failed, used))
    case SecondAnswer(i, answer) =>
      w.(agent := a.(tasks := a.tasks[i := if answer.Ok? then Succeeded else Raised]))
  }

  ghost predicate CanRun(w: World, events: seq<Event>)
    decreases |events|
  {
    events == [] || (Enabled(w, events[0]) && CanRun(Step(w, events[0]), events[1..]))
  }

  ghost function Run(w: World, events: seq<Event>): World
    requires CanRun(w, events)
    decreases |events|
  {
    if events == [] then w else Run(Step(w, events[0]), events[1..])
  }

  /** An agent with saved credentials or with none, and with or without a client made of them. */
  ghost function Start(token: Option<Token>, client: bool): World {
    World(Agent(token, if client then token else None, None, map[]),
          History(if token.Some? then {token.value} else {}, [], map[]))
  }

  // ----- The object ----------------------------------------------------------------------

  /** The fields the tasks share. Each method is one stretch of `_with_reauth` and
      `_reauthenticate` that runs without suspending, and performs the step of the same name. */
  class SharedClient {
    var token: Option<Token>
    var http: Option<Token>
    var lock: Option<TaskId>

    ghost predicate Matches(w: World)
      reads this
    {
      w.agent == Agent(token, http, lock, w.agent.tasks)
    }

    constructor (token: Option<Token>)
      ensures Matches(Start(token, false))
    {
      this.token := token;
      this.http := None;
      this.lock := None;
    }

    method GetHttp() returns (client: Option<Token>)
      modifies this`http
      ensures http == client == if old(http).Some? then old(http) else token
    {
      if http == None && token.Some? {
        http := token;
      }
      client := http;
    }

    method BeginOperation(i: TaskId, ghost w: World) returns (failed: Option<Token>, used: Option<Token>)
      requires Matches(w) && Enabled(w, Begin(i))
      modifies this`http
      ensures Matches(Step(w, Begin(i)))
      ensures PcOf(Step(w, Begin(i)).agent, i) == if used.Some? then First(failed, used.value) else Raised
    {
      failed := token;
      used := GetHttp();
    }

    method EnterLock(i: TaskId, failed: Option<Token>, ghost w: World) returns (closing: bool, used: Option<Token>)
      requires Matches(w) && Enabled(w, Acquire(i)) && w.agent.tasks[i] == Waiting(failed)
      modifies this`http, this`lock
      ensures Matches(Step(w, Acquire(i)))
      ensures PcOf(Step(w, Acquire(i)).agent, i)
        == if closing then Closing(failed) else if used.Some? then Second(failed, used.value) else Raised
    {
      if failed.Some? && token != failed {
        // Another task has renewed the token: leave the lock at once and try again.
        used := GetHttp();
        return false, used;
      }
      lock := Some(i);
      return true, None;
    }

    method GiveUpToken(i: TaskId, ghost w: World)
      requires Matches(w) && Enabled(w, Closed(i))
      modifies this`http, this`token
      ensures Matches(Step(w, Closed(i)))
    {
      http := None;
      token := None;
    }

    /** Closing the connection or the client raised: the lock is released, and the token that
        failed is still in place. */
    method AbandonClosing(i: TaskId, ghost w: World)
      requires Matches(w) && Enabled(w, CloseFailed(i))
      modifies this`lock
      ensures Matches(Step(w, CloseFailed(i)))
    {
      lock := None;
    }

    method FinishRegistration(i: TaskId, issued: Option<Token>, ghost w: World) returns (used: Option<Token>)
      requires Matches(w) && Enabled(w, Registered(i, issued))
      modifies this
      ensures Matches(Step(w, Registered(i, issued)))
      ensures PcOf(Step(w, Registered(i, issued)).agent, i)
        == if used.Some? then Second(w.agent.tasks[i].failed, used.value) else Raised
    {
      lock := None;
      if issued == None {
        return None;
      }
      token := issued;
      http := issued;
      used := GetHttp();
    }
  }

  // ----- The invariant -------------------------------------------------------------------

  ghost predicate Holds(a: Agent, i: TaskId) {
    PcOf(a, i).Closing? || PcOf(a, i).Registering?
  }

  /** The lock's holder is the task that is re-registering; the client, if any, carries the
      current token; a task closing down still has the token that failed in place. */
  ghost predicate SharedInv(a: Agent) {
    && (forall i :: i in a.tasks && Holds(a, i) ==> a.lock == Some(i))
    && (a.lock.Some? ==> a.lock.value in a.tasks && Holds(a, a.lock.value))
    && (a.http.Some? ==> a.http == a.token)
    && (forall i :: i in a.tasks && a.tasks[i].Closing? ==> a.tasks[i].failed.Some? && a.token == a.tasks[i].failed)
    && (forall i :: i in a.tasks && a.tasks[i].Registering? ==> a.token == None)
  }

  /** A request in flight was made with the token its task had read; a second request never with
      the token that failed. */
  ghost predicate TasksInv(a: Agent, known: set<Token>) {
    && (a.token.Some? ==> a.token.value in known)
    && (forall i :: i in a.tasks && a.tasks[i].First? ==> a.tasks[i].failed == Some(a.tasks[i].used))
    && (forall i :: i in a.tasks && (a.tasks[i].First? || a.tasks[i].Waiting? || Holds(a, i)) ==>
          a.tasks[i].failed.Some? && a.tasks[i].failed.value in known)
    && (forall i :: i in a.tasks && a.tasks[i].Second? ==> a.tasks[i].failed != Some(a.tasks[i].used))
  }

  /** No token was presented twice, and one that was presented is not the current one. */
  ghost predicate RegistrationsInv(a: Agent, h: History) {
    && (forall j :: 0 <= j < |h.registrations| ==>
          h.registrations[j].Some? && h.registrations[j].value in h.known && h.registrations[j] != a.token)
    && (forall j, k :: 0 <= j < k < |h.registrations| ==> h.registrations[j] != h.registrations[k])
  }

  ghost predicate SentInv(a: Agent, h: History) {
    && (forall i :: i in h.sent ==> i in a.tasks)
    && (forall i :: i in a.tasks ==> Sent(h, i) <= SendsAllowed(a.tasks[i]))
  }

  function Sent(h: History, i: TaskId): nat {
    if i in h.sent then h.sent[i] else 0
  }

  function SendsAllowed(pc: Pc): nat {
    match pc
    case Idle => 0
    case First(_, _) => 1
    case Waiting(_) => 1
    case Closing(_) => 1
    case Registering(_) => 1
    case _ => 2
  }

  ghost predicate Inv(w: World) {
    && SharedInv(w.agent) && TasksInv(w.agent, w.history.known)
    && RegistrationsInv(w.agent, w.history) && SentInv(w.agent, w.history)
  }

  lemma BeginKeepsInv(w: World, i: TaskId)
    requires Inv(w) && Enabled(w, Begin(i))
    ensures Inv(Step(w, Begin(i)))
  {
  }

  lemma FirstAnswerKeepsInv(w: World, i: TaskId, answer: Answer)
    requires Inv(w) && Enabled(w, FirstAnswer(i, answer))
    ensures Inv(Step(w, FirstAnswer(i, answer)))
  {
  }

  lemma SecondAnswerKeepsInv(w: World, i: TaskId, answer: Answer)
    requires Inv(w) && Enabled(w, SecondAnswer(i, answer))
    ensures Inv(Step(w, SecondAnswer(i, answer)))
  {
  }

  lemma AcquireKeepsInv(w: World, i: TaskId)
    requires Inv(w) && Enabled(w, Acquire(i))
    ensures Inv(Step(w, Acquire(i)))
  {
  }

  lemma ClosedKeepsInv(w: World, i: TaskId)
    requires Inv(w) && Enabled(w, Closed(i))
    ensures Inv(Step(w, Closed(i)))
  {
  }

  lemma CloseFailedKeepsInv(w: World, i: TaskId)
    requires Inv(w) && Enabled(w, CloseFailed(i))
    ensures Inv(Step(w, CloseFailed(i)))
  {
  }

  lemma RegisteredKeepsInv(w: World, i: TaskId, token: Option<Token>)
    requires Inv(w) && Enabled(w, Registered(i, token))
    ensures Inv(Step(w, Registered(i, token)))
  {
  }

  lemma StepKeepsInv(w: World, e: Event)
    requires Inv(w) && Enabled(w, e)
    ensures Inv(Step(w, e))
  {
    match e {
      case Begin(i) => BeginKeepsInv(w, i);
      case FirstAnswer(i, answer) => FirstAnswerKeepsInv(w, i, answer);
      case Acquire(i) => AcquireKeepsInv(w, i);
      case Closed(i) => ClosedKeepsInv(w, i);
      case CloseFailed(i) => CloseFailedKeepsInv(w, i);
      case Registered(i, token) => RegisteredKeepsInv(w, i, token);
      case SecondAnswer(i, answer) => SecondAnswerKeepsInv(w, i, answer);
    }
  }

  lemma {:induction false} RunKeepsInv(w: World, events: seq<Event>)
    requires Inv(w) && CanRun(w, events)
    ensures Inv(Run(w, events))
    decreases |events|
  {
    if events != [] {
      StepKeepsInv(w, events[0]);
      RunKeepsInv(Step(w, events[0]), events[1..]);
    }
  }

  // ----- What holds of every run ---------------------------------------------------------

  /** However many calls fail on the same token, and however the tasks interleave, at most one
      re-registration is made with it; every operation is sent at most twice, the second time
      not with the token that failed; and a token that was given up is never current again. */
  lemma OneRegistrationPerToken(token: Option<Token>, client: bool, events: seq<Event>)
    requires CanRun(Start(token, client), events)
    ensures var w := Run(Start(token, client), events);
      var made := w.history.registrations;
      && (forall j, k :: 0 <= j < k < |made| ==> made[j] != made[k])
      && (forall j :: 0 <= j < |made| ==> made[j].Some? && made[j] != w.agent.token)
      && (forall i :: Sent(w.history, i) <= 2)
      && (forall i :: i in w.agent.tasks && w.agent.tasks[i].Second? ==>
            w.agent.tasks[i].failed != Some(w.agent.tasks[i].used))
  {
    RunKeepsInv(Start(token, client), events);
  }

  /** At most one task is re-registering at any time, and while one is, the token it gave up is
      not in use. */
  lemma RegistrationIsExclusive(token: Option<Token>, client: bool, events: seq<Event>, i: TaskId, j: TaskId)
    requires CanRun(Start(token, client), events)
    requires var a := Run(Start(token, client), events).agent; Holds(a, i) && Holds(a, j)
    ensures i == j
    ensures var a := Run(Start(token, client), events).agent;
      PcOf(a, i).Registering? ==> a.token == None && a.http == None
  {
    RunKeepsInv(Start(token, client), events);
  }

  /** Nobody waits for the lock in vain: in every reachable state with a task that waits, that task
      can enter, or another holds the lock and can go on, to register or out of it. */
  lemma LockMakesProgress(token: Option<Token>, client: bool, events: seq<Event>, i: TaskId) returns (e: Event)
    requires CanRun(Start(token, client), events)
    requires PcOf(Run(Start(token, client), events).agent, i).Waiting?
    ensures var w := Run(Start(token, client), events);
      && Enabled(w, e)
      && (e == Acquire(i)
          || (e.task != i && w.agent.lock == Some(e.task) && (e == Closed(e.task) || e == Registered(e.task, None))))
  {
    RunKeepsInv(Start(token, client), events);
    var a := Run(Start(token, client), events).agent;
    if a.lock == None {
      e := Acquire(i);
    } else if PcOf(a, a.lock.value).Closing? {
      e := Closed(a.lock.value);
    } else {
      e := Registered(a.lock.value, None);
    }
  }

  // ----- A refused re-registration is final ----------------------------------------------

  /** Nobody holds the lock and there is no token: what a failed re-registration leaves. */
  ghost predicate Stranded(w: World) {
    w.agent.token == None && w.agent.lock == None
  }

  lemma FailedRegistrationStrands(w: World, i: TaskId)
    requires Inv(w) && Enabled(w, Registered(i, None))
    ensures Stranded(Step(w, Registered(i, None)))
  {
  }

  /** From then on nothing is sent and nobody re-registers: tasks that were waiting for the lock
      raise as well. */
  lemma {:induction false} StrandedForGood(w: World, events: seq<Event>)
    requires Inv(w) && Stranded(w) && CanRun(w, events)
    ensures var w' := Run(w, events);
      Stranded(w') && w'.history.sent == w.history.sent && w'.history.registrations == w.history.registrations
    decreases |events|
  {
    if events != [] {
      StepKeepsInv(w, events[0]);
      StrandedStep(w, events[0]);
      StrandedForGood(Step(w, events[0]), events[1..]);
    }
  }

  lemma StrandedStep(w: World, e: Event)
    requires Inv(w) && Stranded(w) && Enabled(w, e)
    ensures Stranded(Step(w, e)) && Step(w, e).history == w.history
  {
  }

  lemma {:induction false} SomeTaskIsNew(tasks: set<TaskId>) returns (i: TaskId)
    ensures forall t :: t in tasks ==> t < i
  {
    if tasks == {} {
      i := 0;
    } else {
      var t :| t in tasks;
      var j := SomeTaskIsNew(tasks - {t});
      i := if t < j then j else t + 1;
      assert tasks == (tasks - {t}) + {t};
    }
  }

  lemma {:induction false} SomeTokenIsNew(known: set<Token>) returns (token: Token)
    ensures forall t :: t in known ==> |t| < |token|
  {
    if known == {} {
      token := "";
    } else {
      var t :| t in known;
      var longer := SomeTokenIsNew(known - {t});
      token := if |t| < |longer| then longer else t + "x";
      assert known == (known - {t}) + {t};
    }
  }

  /** Unless the client is stranded, some task can send something in the next step: a new one when
      there is a token, or else the one that is registering, once it is issued one. */
  lemma SomeStepSends(w: World) returns (e: Event)
    requires Inv(w) && !Stranded(w)
    ensures Enabled(w, e) && Step(w, e).history.sent != w.history.sent
  {
    if w.agent.token.Some? {
      var i := SomeTaskIsNew(w.agent.tasks.Keys);
      e := Begin(i);
      assert i !in w.history.sent && i in Step(w, e).history.sent;
    } else {
      var i := w.agent.lock.value;
      var token := SomeTokenIsNew(w.history.known);
      e := Registered(i, Some(token));
      assert Step(w, e).history.sent[i] == Sent(w.history, i) + 1;
    }
  }

  lemma OneStep(w: World, e: Event)
    requires Enabled(w, e)
    ensures CanRun(w, [e]) && Run(w, [e]) == Step(w, e)
  {
    assert [e][1..] == [] && CanRun(Step(w, e), []);
    assert Run(Step(w, e), []) == Step(w, e);
  }

  /** The client is of no further use, whatever happens, exactly when it has no token and nobody is
      registering. */
  lemma NothingIsEverSentExactlyWhen(w: World)
    requires Inv(w)
    ensures (forall more :: CanRun(w, more) ==> Run(w, more).history.sent == w.history.sent) <==> Stranded(w)
  {
    if Stranded(w) {
      forall more | CanRun(w, more) ensures Run(w, more).history.sent == w.history.sent {
        StrandedForGood(w, more);
      }
    } else {
      var e := SomeStepSends(w);
      OneStep(w, e);
    }
  }
}
