/** The plugin's outgoing queue (plugin/src/monitor.ts): sends are chained on one promise, each
    writes its frame only after the one before it was fulfilled, and a single slot holds whoever
    waits for the broker's acknowledgement. */
module Monitor {
  import opened Common

  /** Sends are numbered in the order `sendText` was called. `Written` means the frame went out
      and its promise is unsettled; a fulfilled promise remembers which frame's ack it got. */
  datatype Outcome = Queued | Written | Fulfilled(ack: nat) | Rejected

  datatype State = State(
    socketOpen: bool,
    connected: bool,
    pendingAck: Option<nat>,
    timers: set<nat>,
    sends: seq<Outcome>)

  predicate Settled(o: Outcome) {
    o.Fulfilled? || o.Rejected?
  }

  /** Settling a promise a second time does nothing. */
  function Settle(sends: seq<Outcome>, i: nat, o: Outcome): seq<Outcome> {
    if i < |sends| && sends[i] == Written then sends[i := o] else sends
  }

  /** The next callback of the chain may run: all before it have run and the last has settled. */
  predicate CanRunNext(s: State, i: nat) {
    && i < |s.sends| && s.sends[i] == Queued
    && (i > 0 ==> Settled(s.sends[i - 1]))
  }

  predicate Writes(s: State, i: nat)
    requires CanRunNext(s, i)
  {
    (i > 0 ==> s.sends[i - 1].Fulfilled?) && s.socketOpen && s.connected
  }

  // ----- The handlers as values ----------------------------------------------------------

  function Called(s: State): State {
    s.(sends := s.sends + [Queued])
  }

  function Chained(s: State, i: nat): State
    requires CanRunNext(s, i)
  {
    if Writes(s, i) then
      s.(pendingAck := Some(i), timers := s.timers + {i}, sends := s.sends[i := Written])
    else s.(sends := s.sends[i := Rejected])
  }

  function Acked(s: State, frame: nat): State {
    if s.pendingAck.None? then s
    else s.(pendingAck := None, timers := s.timers - {s.pendingAck.value},
            sends := Settle(s.sends, s.pendingAck.value, Fulfilled(frame)))
  }

  function Cleared(s: State): State {
    if s.pendingAck.None? then s
    else s.(pendingAck := None, timers := s.timers - {s.pendingAck.value},
            sends := Settle(s.sends, s.pendingAck.value, Rejected))
  }

  function Failed(s: State, i: nat): State {
    s.(pendingAck := None, timers := s.timers - {i}, sends := Settle(s.sends, i, Rejected))
  }

  // ----- The object ----------------------------------------------------------------------

  class MonitorState {
    var socketOpen: bool
    var connected: bool
    var pendingAck: Option<nat>
    var timers: set<nat>
    var sends: seq<Outcome>

    ghost function View(): State
      reads this
    {
      State(socketOpen, connected, pendingAck, timers, sends)
    }

    constructor ()
      ensures View() == State(false, false, None, {}, [])
    {
      socketOpen, connected, pendingAck, timers, sends := false, false, None, {}, [];
    }

    method SettleSend(i: nat, o: Outcome)
      modifies this`sends
      ensures sends == Settle(old(sends), i, o)
    {
      if i < |sends| && sends[i] == Written {
        sends := sends[i := o];
      }
    }

    /** `sendText`: chains a callback on the queue. */
    method SendText() returns (i: nat)
      modifies this`sends
      ensures View() == Called(old(View())) && i == |old(sends)|
    {
      i := |sends|;
      sends := sends + [Queued];
    }

    /** The callback of send `i`, once the promise before it has settled. */
    method RunCallback(i: nat) returns (written: bool)
      requires CanRunNext(View(), i)
      modifies this
      ensures View() == Chained(old(View()), i)
      ensures written == Writes(old(View()), i)
    {
      if i > 0 && sends[i - 1].Rejected? {
        sends := sends[i := Rejected];
        return false;
      }
      if !socketOpen || !connected {
        sends := sends[i := Rejected];
        return false;
      }
      timers := timers + {i};
      pendingAck := Some(i);
      sends := sends[i := Written];
      return true;
    }

    /** A `message.ack` frame, here for frame `frame`. The handler does not look at which. */
    method OnAck(frame: nat)
      modifies this
      ensures View() == Acked(old(View()), frame)
    {
      if pendingAck.Some? {
        timers := timers - {pendingAck.value};
        SettleSend(pendingAck.value, Fulfilled(frame));
        pendingAck := None;
      }
    }

    /** `clearPendingAck`. */
    method ClearPendingAck()
      modifies this
      ensures View() == Cleared(old(View()))
    {
      if pendingAck == None {
        return;
      }
      timers := timers - {pendingAck.value};
      SettleSend(pendingAck.value, Rejected);
      pendingAck := None;
    }

    method OnClose()
      modifies this
      ensures View() == Cleared(old(View())).(connected := false)
    {
      connected := false;
      ClearPendingAck();
    }

    /** The acknowledgement timer of send `i` fires, or its write reports an error. */
    method OnFailure(i: nat)
      modifies this
      ensures View() == Failed(old(View()), i)
    {
      timers := timers - {i};
      pendingAck := None;
      SettleSend(i, Rejected);
    }
  }

  // ----- Runs ----------------------------------------------------------------------------

  /** The monitor, the frames written so far, in order, and the frames whose ack has arrived. */
  datatype World = World(state: State, frames: seq<nat>, acked: set<nat>)

  datatype Event =
    | Call
    | RunNext(i: nat)
    | Ack(frame: nat)
    | Timeout(i: nat)
    | WriteError(i: nat)
    | Close
    | Socket(open: bool, connected: bool)

  /** The broker acknowledges frames it was sent, each at most once. A timer fires only while it
      is set. A write may report its error at any later time. */
  ghost predicate Enabled(w: World, e: Event) {
    match e
    case RunNext(i) => CanRunNext(w.state, i)
    case Ack(frame) => frame in w.frames && frame !in w.acked
    case Timeout(i) => i in w.state.timers
    case WriteError(i) => i in w.frames
    case _ => true
  }

  ghost function Step(w: World, e: Event): World
    requires Enabled(w, e)
  {
    match e
    case Call => w.(state := Called(w.state))
    case RunNext(i) =>
      w.(state := Chained(w.state, i), frames := if Writes(w.state, i) then w.frames + [i] else w.frames)
    case Ack(frame) => w.(state := Acked(w.state, frame), acked := w.acked + {frame})
    case Timeout(i) => w.(state := Failed(w.state, i))
    case WriteError(i) => w.(state := Failed(w.state, i))
    case Close => w.(state := Cleared(w.state).(connected := false))
    case Socket(open, connected) => w.(state := w.state.(socketOpen := open, connected := connected))
  }

  ghost predicate CanRun(w: World, events: seq<Event>)
    decreases |events|
  {
    events == [] || (Enabled(w, events[0]) && CanRun(Step(w, events[0]), events[1..]))
  }

  ghost function Run(w: World, events: seq<Event>): World
    requires CanRun(w, events)
    decreases |events|
  {
    if events == [] then w else Run(Step(w, events[0]), events[1..])
  }

  const START := World(State(false, false, None, {}, []), [], {})

  // ----- The invariant -------------------------------------------------------------------

  /** Everything before a send that has run has settled, and everything before one whose frame
      was written was fulfilled. */
  ghost predicate ChainInv(s: State, frames: seq<nat>) {
    && (forall i, j :: 0 <= i < j < |s.sends| && s.sends[j] != Queued ==> Settled(s.sends[i]))
    && (forall i, j :: 0 <= i < j < |s.sends| && j in frames ==> s.sends[i].Fulfilled?)
    && (forall i :: i in frames ==> i < |s.sends| && s.sends[i] != Queued)
    && (forall i :: 0 <= i < |s.sends| && (s.sends[i].Fulfilled? || s.sends[i].Written?) ==> i in frames)
    && Increasing(frames)
  }

  ghost predicate Increasing(frames: seq<nat>) {
    forall a, b :: 0 <= a < b < |frames| ==> frames[a] < frames[b]
  }

  lemma StillIncreasing(frames: seq<nat>, i: nat)
    requires Increasing(frames) && forall f :: f in frames ==> f < i
    ensures Increasing(frames + [i])
  {
    forall a | 0 <= a < |frames| ensures frames[a] < i {
      assert frames[a] in frames;
    }
  }

  /** A frame that waits has its timer, and the slot, if taken, holds a waiting frame that has not
      been acknowledged; each fulfilled send got its own ack. */
  ghost predicate SlotInv(w: World) {
    var s := w.state;
    && (forall i: nat :: i in s.timers <==> i < |s.sends| && s.sends[i] == Written)
    && (s.pendingAck.Some? ==>
          s.pendingAck.value < |s.sends| && s.sends[s.pendingAck.value] == Written && s.pendingAck.value !in w.acked)
    && (forall i :: 0 <= i < |s.sends| && s.sends[i].Fulfilled? ==> s.sends[i].ack == i && i in w.acked)
    && (forall i :: i in w.acked ==> i in w.frames)
  }

  ghost predicate Inv(w: World) {
    ChainInv(w.state, w.frames) && SlotInv(w)
  }

  /** The ack that arrives is that of the frame that waits. */
  lemma AckIsOfPending(w: World, frame: nat)
    requires Inv(w) && frame in w.frames && w.state.pendingAck.Some?
    ensures frame !in w.acked <==> frame == w.state.pendingAck.value
  {
    var k := w.state.pendingAck.value;
    assert k in w.frames;
  }

  lemma CallKeepsInv(w: World)
    requires Inv(w)
    ensures Inv(Step(w, Call))
  {
  }

  /** What the chain invariant says about the next send to run: nothing later has run. */
  lemma NextIsFrontier(s: State, frames: seq<nat>, i: nat)
    requires ChainInv(s, frames) && CanRunNext(s, i)
    ensures forall j :: i < j < |s.sends| ==> s.sends[j] == Queued
    ensures forall f :: f in frames ==> f < i
    ensures forall k :: 0 <= k < i ==> Settled(s.sends[k])
    ensures (i > 0 ==> s.sends[i - 1].Fulfilled?) ==> forall k :: 0 <= k < i ==> s.sends[k].Fulfilled?
  {
    if i > 0 && s.sends[i - 1].Fulfilled? {
      assert i - 1 in frames;
    }
  }

  lemma RejectKeepsChain(s: State, frames: seq<nat>, i: nat)
    requires ChainInv(s, frames) && CanRunNext(s, i)
    ensures ChainInv(s.(sends := s.sends[i := Rejected]), frames)
  {
    NextIsFrontier(s, frames, i);
  }

  lemma WriteKeepsChain(s: State, frames: seq<nat>, i: nat, after: State)
    requires ChainInv(s, frames) && CanRunNext(s, i) && Writes(s, i)
    requires after.sends == s.sends[i := Written]
    ensures ChainInv(after, frames + [i])
  {
    NextIsFrontier(s, frames, i);
    StillIncreasing(frames, i);
  }

  lemma RunNextKeepsChain(w: World, i: nat)
    requires Inv(w) && Enabled(w, RunNext(i))
    ensures ChainInv(Step(w, RunNext(i)).state, Step(w, RunNext(i)).frames)
  {
    if Writes(w.state, i) {
      WriteKeepsChain(w.state, w.frames, i, Chained(w.state, i));
    } else {
      RejectKeepsChain(w.state, w.frames, i);
    }
  }

  lemma RunNextKeepsSlot(w: World, i: nat)
    requires Inv(w) && Enabled(w, RunNext(i))
    ensures SlotInv(Step(w, RunNext(i)))
  {
    assert i !in w.frames;
  }

  /** Settling the one frame that waits, or nothing. */
  lemma SettleKeepsChain(s: State, frames: seq<nat>, i: nat, o: Outcome)
    requires ChainInv(s, frames) && Settled(o)
    ensures ChainInv(s.(sends := Settle(s.sends, i, o)), frames)
  {
    if i < |s.sends| && s.sends[i] == Written {
      assert forall j :: i < j < |s.sends| ==> s.sends[j] == Queued && j !in frames;
    }
  }

  lemma AckKeepsInv(w: World, frame: nat)
    requires Inv(w) && Enabled(w, Ack(frame))
    ensures Inv(Step(w, Ack(frame)))
  {
    if w.state.pendingAck.Some? {
      AckIsOfPending(w, frame);
      SettleKeepsChain(w.state, w.frames, frame, Fulfilled(frame));
    }
  }

  lemma FailureKeepsInv(w: World, i: nat)
    requires Inv(w)
    ensures Inv(w.(state := Failed(w.state, i)))
  {
    SettleKeepsChain(w.state, w.frames, i, Rejected);
  }

  lemma CloseKeepsInv(w: World)
    requires Inv(w)
    ensures Inv(Step(w, Close))
  {
    if w.state.pendingAck.Some? {
      FailureKeepsInv(w, w.state.pendingAck.value);
    }
  }

  lemma StepKeepsInv(w: World, e: Event)
    requires Inv(w) && Enabled(w, e)
    ensures Inv(Step(w, e))
  {
    match e {
      case Call => CallKeepsInv(w);
      case RunNext(i) =>
        RunNextKeepsChain(w, i);
        RunNextKeepsSlot(w, i);
      case Ack(frame) => AckKeepsInv(w, frame);
      case Timeout(i) => FailureKeepsInv(w, i);
      case WriteError(i) => FailureKeepsInv(w, i);
      case Close => CloseKeepsInv(w);
      case Socket(_, _) =>
    }
  }

  lemma {:induction false} RunKeepsInv(w: World, events: seq<Event>)
    requires Inv(w) && CanRun(w, events)
    ensures Inv(Run(w, events))
    decreases |events|
  {
    if events != [] {
      StepKeepsInv(w, events[0]);
      RunKeepsInv(Step(w, events[0]), events[1..]);
    }
  }

  // ----- What holds of every run ---------------------------------------------------------

  /** In every run, with time-outs, closes and failed writes: at most one frame waits for its
      ack; frames go out in call order; nothing is written after a send that was rejected; and a
      fulfilled send got the ack of its own frame. */
  lemma AcksAreSerialized(events: seq<Event>)
    requires CanRun(START, events)
    ensures var w := Run(START, events);
      var sends := w.state.sends;
      && (forall i, j :: 0 <= i < |sends| && 0 <= j < |sends| && sends[i] == Written && sends[j] == Written ==> i == j)
      && Increasing(w.frames)
      && (forall i, j :: 0 <= i < j < |sends| && sends[i] == Rejected ==> j !in w.frames)
      && (forall i :: 0 <= i < |sends| && sends[i].Fulfilled? ==> sends[i].ack == i)
  {
    RunKeepsInv(START, events);
  }

  /** Which promise an ack would fulfil is right exactly when the broker has not acknowledged that
      frame before: the handler resolves whoever waits, so a repeated ack goes to the wrong send. */
  lemma AckMatchesExactlyWhenFirst(events: seq<Event>, frame: nat)
    requires CanRun(START, events)
    requires var w := Run(START, events); frame in w.frames && w.state.pendingAck.Some?
    ensures var w := Run(START, events);
      var k := w.state.pendingAck.value;
      && k < |w.state.sends| && Acked(w.state, frame).sends == w.state.sends[k := Fulfilled(frame)]
      && (k == frame <==> frame !in w.acked)
  {
    RunKeepsInv(START, events);
    AckIsOfPending(Run(START, events), frame);
  }

  /** No call waits for ever: while some send is unsettled, the next in line can run or the frame
      that waits has its timer, so a step that settles one more promise is always possible. */
  lemma QueueNeverStalls(events: seq<Event>, k: nat) returns (i: nat)
    requires CanRun(START, events)
    requires var sends := Run(START, events).state.sends; k < |sends| && !Settled(sends[k])
    ensures var w := Run(START, events);
      && i <= k && !Settled(w.state.sends[i])
      && (Enabled(w, RunNext(i)) || (Enabled(w, Timeout(i)) && Step(w, Timeout(i)).state.sends[i] == Rejected))
  {
    RunKeepsInv(START, events);
    var sends := Run(START, events).state.sends;
    i := k;
    while i > 0 && !Settled(sends[i - 1])
      invariant i <= k && !Settled(sends[i])
    {
      i := i - 1;
    }
  }

  // ----- What goes out -------------------------------------------------------------------

  /** Every send before `i` got its ack, and the socket is open and connected. */
  ghost predicate IsClear(s: State, i: nat) {
    && (forall k :: 0 <= k < i && k < |s.sends| ==> s.sends[k].Fulfilled?)
    && s.socketOpen && s.connected
  }

  /** What running the next callback does, in every reachable state: if every send before it was
      fulfilled and the connection is up, the frame goes out, the send takes the slot and its timer
      is set; otherwise the send is rejected and nothing else happens. */
  lemma FrameIsWrittenExactlyWhen(events: seq<Event>, i: nat)
    requires CanRun(START, events) && Enabled(Run(START, events), RunNext(i))
    ensures var w := Run(START, events);
      var w' := Step(w, RunNext(i));
      if IsClear(w.state, i) then
        && w'.frames == w.frames + [i] && w'.state.pendingAck == Some(i) && i in w'.state.timers
        && w'.state.sends == w.state.sends[i := Written]
      else w'.frames == w.frames && w'.state == w.state.(sends := w.state.sends[i := Rejected])
  {
    RunKeepsInv(START, events);
    NextIsFrontier(Run(START, events).state, Run(START, events).frames, i);
  }

  /** What the other events do to a send that waits in the slot: its ack fulfils it, and a close, its
      time-out or its failed write rejects it. Each empties the slot and touches no other send. */
  lemma WaitingSendIsSettled(events: seq<Event>, i: nat)
    requires CanRun(START, events) && Run(START, events).state.pendingAck == Some(i)
    ensures var w := Run(START, events);
      && i < |w.state.sends| && Enabled(w, Ack(i)) && Enabled(w, Timeout(i)) && Enabled(w, WriteError(i))
      && Step(w, Ack(i)).state.sends == w.state.sends[i := Fulfilled(i)]
      && Step(w, Close).state.sends == w.state.sends[i := Rejected] && !Step(w, Close).state.connected
      && Step(w, Timeout(i)).state.sends == w.state.sends[i := Rejected]
      && Step(w, WriteError(i)).state.sends == w.state.sends[i := Rejected]
      && forall e :: e in [Ack(i), Close, Timeout(i), WriteError(i)] ==>
           Step(w, e).state.pendingAck == None && i !in Step(w, e).state.timers && Step(w, e).frames == w.frames
  {
    RunKeepsInv(START, events);
  }

  /** The connection comes up, and `n` sends follow, each acknowledged in time. */
  ghost function HealthyRun(n: nat): seq<Event> {
    if n == 0 then [Socket(true, true)] else HealthyRun(n - 1) + [Call, RunNext(n - 1), Ack(n - 1)]
  }

  lemma {:induction false} RunJoins(w: World, first: seq<Event>, second: seq<Event>)
    requires CanRun(w, first) && CanRun(Run(w, first), second)
    ensures CanRun(w, first + second) && Run(w, first + second) == Run(Run(w, first), second)
    decreases |first|
  {
    if first == [] {
      assert first + second == second;
    } else {
      RunJoins(Step(w, first[0]), first[1..], second);
      assert (first + second)[1..] == first[1..] + second;
    }
  }

  lemma ThreeSteps(w: World, a: Event, b: Event, c: Event)
    requires Enabled(w, a) && Enabled(Step(w, a), b) && Enabled(Step(Step(w, a), b), c)
    ensures CanRun(w, [a, b, c]) && Run(w, [a, b, c]) == Step(Step(Step(w, a), b), c)
  {
    var last := Step(Step(Step(w, a), b), c);
    assert [c][1..] == [] && [b, c][1..] == [c] && [a, b, c][1..] == [b, c];
    assert CanRun(last, []) && Run(last, []) == last;
    assert CanRun(Step(Step(w, a), b), [c]) && Run(Step(Step(w, a), b), [c]) == last;
    assert CanRun(Step(w, a), [b, c]) && Run(Step(w, a), [b, c]) == last;
  }

  /** `n` sends have been fulfilled, each with the ack of its own frame, and the connection is up. */
  ghost predicate AllFulfilled(w: World, n: nat) {
    && |w.state.sends| == |w.frames| == n
    && (forall i :: 0 <= i < n ==> w.state.sends[i] == Fulfilled(i) && w.frames[i] == i)
    && w.state.pendingAck == None && w.state.socketOpen && w.state.connected
    && forall i :: i in w.acked ==> i < n
  }

  lemma SendAndAck(w: World, n: nat)
    requires AllFulfilled(w, n)
    ensures CanRun(w, [Call, RunNext(n), Ack(n)]) && AllFulfilled(Run(w, [Call, RunNext(n), Ack(n)]), n + 1)
  {
    var w1 := Step(w, Call);
    var w2 := Step(w1, RunNext(n));
    var w3 := Step(w2, Ack(n));
    assert w2.frames[n] == n;
    ThreeSteps(w, Call, RunNext(n), Ack(n));
  }

  /** A healthy connection carries any number of sends: all are fulfilled, with frames 0 to n-1. */
  lemma {:induction false} EverySendGoesOut(n: nat)
    ensures CanRun(START, HealthyRun(n)) && AllFulfilled(Run(START, HealthyRun(n)), n)
  {
    if n == 0 {
      var up: seq<Event> := [Socket(true, true)];
      assert up[1..] == [] && CanRun(Step(START, up[0]), []);
      assert Run(START, up) == Run(Step(START, up[0]), []);
    } else {
      EverySendGoesOut(n - 1);
      SendAndAck(Run(START, HealthyRun(n - 1)), n - 1);
      RunJoins(START, HealthyRun(n - 1), [Call, RunNext(n - 1), Ack(n - 1)]);
    }
  }

  // ----- A rejected send is the end of the queue -----------------------------------------

  /** Send `i` was rejected, and what comes after it has not run or was rejected too. */
  ghost predicate DeadFrom(w: World, i: nat) {
    && i < |w.state.sends| && w.state.sends[i] == Rejected
    && forall j :: i < j < |w.state.sends| ==> w.state.sends[j] == Queued || w.state.sends[j] == Rejected
  }

  lemma RejectedIsDead(w: World, i: nat)
    requires Inv(w) && i < |w.state.sends| && w.state.sends[i] == Rejected
    ensures DeadFrom(w, i)
  {
  }

  lemma DeadStep(w: World, e: Event, i: nat)
    requires Inv(w) && Enabled(w, e) && DeadFrom(w, i)
    ensures Step(w, e).frames == w.frames && DeadFrom(Step(w, e), i)
  {
    StepKeepsInv(w, e);
    if e.RunNext? {
      assert i < e.i;
      assert w.state.sends[e.i - 1] == Rejected;
    }
    RejectedIsDead(Step(w, e), i);
  }

  /** After one rejection no frame is ever written again, whatever the socket does: reconnecting
      does not revive the queue. */
  lemma {:induction false} RejectionIsFinal(w: World, events: seq<Event>, i: nat)
    requires Inv(w) && CanRun(w, events) && i < |w.state.sends| && w.state.sends[i] == Rejected
    ensures Run(w, events).frames == w.frames && DeadFrom(Run(w, events), i)
    decreases |events|
  {
    RejectedIsDead(w, i);
    if events != [] {
      StepKeepsInv(w, events[0]);
      DeadStep(w, events[0], i);
      RejectionIsFinal(Step(w, events[0]), events[1..], i);
    }
  }
}
