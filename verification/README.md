# claw-msg: verified model of the broker, the SDK client and the plugin

claw-msg is a small message broker with an HTTP route, a WebSocket route, a Python SDK and an
OpenClaw plugin. This project models the parts of it that hold state and proves what they keep,
in Dafny 4.11. `dafny verify dfyconfig.toml` checks everything.

One module stands for one component:

- `Delivery` is the broker as a transition system: sending, connecting with its flush,
  acknowledging, disconnecting and cleaning up, with socket failures and the clock as inputs.
  `MessageServer` holds the two routes' handlers as imperative code, proved against it.
  `Broker`, `OfflineQueue`, `Directory` and `RateLimit` are the components they use. `Fate` says
  what becomes of queued messages over whole runs, `Sending` what a send stores and which connected
  sockets get it, and `Housekeeping` proves that the cleanup loop
  makes no difference to anyone.
- `RateLimit` also has the theory of the token bucket: what it admits, exactly.
- `Replies` and `Reauth` are the SDK's two concurrent protocols: matching replies to questions,
  and refreshing a rejected token. `Answers` and `Retry` prove that they get there: that a question
  is settled by the first event that concerns it, and that a rejected call can be made again.
- `Monitor` is the plugin's outgoing queue with its single slot for an acknowledgement.
- `Identity`, `Dedup` and `AutoConfig` are registration and trusted identity over runs, the
  one-off duplicate migration, and the plugin's automatic configuration. `Names` says when agent
  names stay unique.
- `Throttle` carries the rate limit over to whole runs of the broker.

Each stateful component appears twice: as a class whose methods do what the code does, and as
functions on values that the methods are proved to compute. What the component is for is then
proved about the functions, over every run.

## Where the code and its documentation differ

The model follows the code. Each difference is a lemma.

- README.md line 128 promises at-least-once delivery. A flush marks its rows delivered before they
  are written, and the write loop stops at the first failure, so a message can be lost to the queue
  and to the agent's sockets (`Fate.DeliveryCanLose`). `Fate.LostExactlyWhen` says when, for every
  reachable state: no socket has taken the message and no unexpired row waits for the agent, be it
  after such a flush, after the row expired, or after it was acknowledged while pending. These are
  the only steps that lose a waiting message (`Fate.StepLosesExactlyWhen`). A direct
  message can still be listed with GET /messages/.
- README.md line 133 promises 60 messages a minute. A closed window of 60 seconds can admit twice
  that (`RateLimit.MinuteAdmitsTwiceTheRate`). The windows that do keep to the capacity are those
  in which less than one token comes back (`RateLimit.CapacityPerWindowExactlyWhen`).
- README.md line 35 says names are unique. A name comes to be shared by registering it twice
  (`Names.SameNameMakesTwoAgents`) or by registering again, with a live token, under another agent's
  name (`Names.RenamingMakesTwoOfAName`). Names are unique throughout a run exactly when no
  registration in it uses a name that another agent has at that moment
  (`Names.NamesStayDistinctExactlyWhen`, `Names.RegistrationKeepsNamesExactlyWhen`).
- The same line says that registering a name again reuses its agent. A registration reuses an agent
  exactly when its existing token is live, whatever the name
  (`Identity.ReuseExactlyWhenTokenIsLive`, `Names.SameNameMakesTwoAgents`).
- The docstring at src/claw_msg/server/broker.py line 38 says the result tells whether the message
  was delivered. The result is false when no more sockets took the message than refused it
  (`Broker.VerdictIsMajority`), so such a message is both received and queued
  (`Fate.TakenAndQueuedExactlyWhen`).
- src/claw_msg/server/offline_queue.py line 22 says a flush returns all pending messages and marks
  them delivered. A run in which it marks an expired row that it does not return is
  `Fate.FlushMarksUnreturned`. A flush returns all that it marks exactly when it has nothing to
  return or none of the agent's pending rows has expired
  (`OfflineQueue.FlushReturnsWhatItMarksExactlyWhen`).
- The first start-up on a database with duplicate names has to fail, and would fail again, exactly
  when a row referred to by another table is older than another of its name, or two such rows share
  a name (`Dedup.StartUpFailsExactlyWhen`, `Dedup.OldMessageBlocksStartUp`).
- A second pass of the automatic configuration yields an equal configuration but reports a change
  exactly when the broker address was blank or a name it gave is
  (`AutoConfig.SecondPassStillReportsAChangeExactlyWhen`, `AutoConfig.BlankBrokerNeverSettles`).

## Model

| member | source | states |
|---|---|---|
| Delivery.EveryPairIsAccountedFor | src/claw_msg/server/routes_ws.py:76-141 | In every run, each accepted message is, for each agent it was meant for, taken by one of its sockets at send time, pending, returned by one flush, acknowledged, or past its expiry; no row is returned twice; nothing reaches an agent it was not meant for |
| Delivery.StepKeepsInv | src/claw_msg/server/routes_ws.py:76-141 | Send, connect, acknowledge, disconnect, cleanup, a restart and the passing of time all keep the accounting invariant: every row's status tells its history, and the registry stays well formed |
| Delivery.FanOutPlaces | src/claw_msg/server/routes_ws.py:225-242 | Every target is tried once, in order; exactly the agents with an attempt judged undelivered get a row, pending and with the right expiry; no older row is touched |
| Delivery.TargetsAreRecipients | src/claw_msg/server/routes_messages.py:96-115 | The agents tried are exactly the direct recipient and the room's members other than the sender |
| Delivery.SentExactlyWhenAcceptable | src/claw_msg/server/routes_messages.py:36-62 | A message is sent iff it is short enough, names a known unambiguous target, is admitted by the sender's bucket and is allowed by contacts and membership; a refusal changes at most the bucket |
| Delivery.TurnedAwayExactlyWhen | src/claw_msg/server/routes_messages.py:36-48 | Before the rate limit: 422 iff too long, 400 iff no target, 409 iff several agents have the name and no id matches, 404 iff none has; the server is then untouched |
| Delivery.RefusedExactlyWhen | src/claw_msg/server/routes_messages.py:50-62 | After it: 429 iff the bucket is empty; else 404 iff recipient or room is missing, 403 iff recipient or room does not admit the sender, sent iff both do; the sender's bucket is charged in every case |
| Fate.RowsOnlyMoveForward | src/claw_msg/server/offline_queue.py:11-62 | Over any run a row present at both ends keeps its expiry and its status moves only from pending to delivered to acked, a row disappears only after its expiry, and a stored message gets no new row |
| Fate.RemovedRowStaysRemoved | src/claw_msg/server/offline_queue.py:11-62 | A row that has gone never comes back in any continuation |
| Fate.ReturnedIsFinal | src/claw_msg/server/offline_queue.py:21-46 | Once a flush has returned a row, no continuation of the run changes whether it reached the agent |
| Fate.LostExactlyWhen | src/claw_msg/server/offline_queue.py:11-62 | In every reachable state a message meant for an agent reaches no socket of it in any continuation iff none has taken it and no pending unexpired row of it is left |
| Fate.FlushedRowArrivesExactlyWhen | src/claw_msg/server/routes_ws.py:81-87 | The i-th row of a flush reaches the agent, however the run continues, iff the connecting socket took more than i frames or a socket had already taken it |
| Fate.StepLosesExactlyWhen | src/claw_msg/server/routes_ws.py:76-141 | A step loses a message that waits iff it is a connection of its agent whose socket fails before the row is written, the acknowledgement of the row, or the passing of its expiry |
| Fate.DeliveryCanLose | src/claw_msg/server/routes_ws.py:81-87 | A concrete run loses a message in every continuation |
| Fate.FlushMarksUnreturned | src/claw_msg/server/offline_queue.py:21-46 | A concrete run in which a row ends as delivered that no flush returned |
| Fate.TakenAndQueuedExactlyWhen | src/claw_msg/server/routes_ws.py:225-242 | With a recipient, a room or both: a socket of an agent takes the message iff one does at some attempt on that agent, and a row is queued iff some attempt is judged undelivered |
| Fate.AttemptsAreJudgedInTurn | src/claw_msg/server/routes_ws.py:225-242 | Each attempt offers the message to the sockets the attempts before it left, and is judged delivered iff more of them accept than refuse |
| Sending.SentMessageIsStored | src/claw_msg/server/routes_messages.py:64-117 | A send that succeeds stores one message and answers with it: sender, room, content, type and reply_to as in the request, the resolved recipient, and the current second; other messages, and all of them after a refusal, are unchanged |
| Sending.StoresExactlyWhen | src/claw_msg/server/routes_messages.py:64-71 | After the step of a send its message is stored iff the request was accepted, and to the recipient it was resolved to |
| Sending.FlushedInOrderOfSending | src/claw_msg/server/offline_queue.py:24-46 | Over runs, of two messages sent in different seconds every flush that returns both returns the earlier first |
| Sending.TriedExactlyOncePerRow | src/claw_msg/server/routes_ws.py:225-242 | The direct recipient is tried first and every other member once per membership row |
| Sending.ConnectListsTheSocket | src/claw_msg/server/routes_ws.py:76-78 | After a connection the agent's sockets are its former ones followed by the new one, other agents' unchanged |
| Sending.ListedExactlyWhen | src/claw_msg/server/routes_ws.py:76-141 | After any step a socket is listed iff it was and was not disconnected, lost in a restart or refusing at an attempt, or it has just connected |
| Sending.TakesExactlyWhen | src/claw_msg/server/broker.py:37-54 | A socket takes the message at an attempt iff it was listed and refused at no attempt on the agent up to this one |
| Sending.TakenAtOnceExactlyWhen | src/claw_msg/server/routes_ws.py:225-242 | An agent gets a message at once iff one of its sockets does not refuse at the first attempt on it |
| Sending.NotQueuedWhenNobodyRefuses | src/claw_msg/server/routes_ws.py:225-242 | An agent with a socket, none refusing at any attempt, gets no row |
| Sending.ConnectedSocketGetsMessages | src/claw_msg/server/routes_ws.py:76-141 | Over runs, from its connection until it is dropped a socket takes every message meant for its agent that it does not refuse at the first attempt |
| Sending.NewRowsAreFresh | src/claw_msg/server/offline_queue.py:11-18 | A row made by a send is pending, without attempts, and expires the queue's lifetime after the send |
| Sending.CleanupRemovesTheExpired | src/claw_msg/server/offline_queue.py:58-62 | Cleaning up removes exactly the expired rows and changes no other |
| Sending.RestartForgets | src/claw_msg/server/app.py:20-27 | A restart keeps the database, leaves nobody connected, and every sender's next call meets a full bucket |
| Housekeeping.CleanupIsInvisible | src/claw_msg/server/offline_queue.py:58-72 | From any run the cleanup steps can be left out: the rest is still a run, every send and flush does the same, and the same unexpired rows remain |
| MessageServer.MessageServer.constructor | src/claw_msg/server/app.py:20-27 | A new process over an earlier one's database: tables, messages and queue as they were, no socket and no bucket |
| MessageServer.MessageServer.SendMessage | src/claw_msg/server/routes_messages.py:31-117 | The HTTP send computes the one specification of a send: same error code, or same message row, bucket, registry, queue and attempts |
| MessageServer.MessageServer.HandleMessageSend | src/claw_msg/server/routes_ws.py:144-246 | The WebSocket send computes the same specification, plus its single error or ack frame |
| MessageServer.MessageServer.Connect | src/claw_msg/server/routes_ws.py:76-87 | Registers the socket, flushes, and writes the flushed rows up to the first failed write |
| MessageServer.MessageServer.HandleAck | src/claw_msg/server/routes_ws.py:127-130 | Acknowledges the agent's own row of that message; a frame without an identifier does nothing |
| MessageServer.MessageServer.Disconnect | src/claw_msg/server/routes_ws.py:139-140 | Removes that socket and no other, whichever way the receive loop ended |
| Broker.WebSocketBroker.Register | src/claw_msg/server/broker.py:19-20 | Appends the socket to its agent's list, other agents unchanged |
| Broker.WebSocketBroker.Unregister | src/claw_msg/server/broker.py:22-29 | Removes the first occurrence in place, ignores an unknown socket, and deletes an emptied list |
| Broker.WebSocketBroker.IsOnline | src/claw_msg/server/broker.py:31-32 | True iff the registry has an entry, no entry being empty |
| Broker.WebSocketBroker.SendToAgent | src/claw_msg/server/broker.py:37-54 | With removal from the very list that is measured: offers to every socket in order, leaves the accepting ones, and answers accepted more than refused |
| Broker.AttemptLeavesAcceptingSockets | src/claw_msg/server/broker.py:37-54 | Afterwards an agent's sockets are exactly those that accepted, its entry exists iff one did, other agents are unchanged and the registry stays well formed |
| Broker.VerdictIsMajority | src/claw_msg/server/broker.py:39-54 | True implies that some socket accepted; the answer tells whether one did, except exactly when some but at most half accepted |
| Broker.VerdictCanMissAnAcceptance | src/claw_msg/server/broker.py:39-54 | Two sockets, one of which accepts: the answer is false |
| Broker.RegistrationsKeepWellFormed | src/claw_msg/server/broker.py:19-29 | Registering and unregistering keep lists free of repeats and entries non-empty |
| OfflineQueue.DeliveryQueue.Enqueue | src/claw_msg/server/offline_queue.py:11-18 | Inserts a pending row unless the pair has one |
| OfflineQueue.DeliveryQueue.FlushForAgent | src/claw_msg/server/offline_queue.py:21-46 | Returns exactly the agent's pending unexpired rows once each, in creation order, and marks the pending rows if there is anything to return |
| OfflineQueue.DeliveryQueue.MarkAcked | src/claw_msg/server/offline_queue.py:49-55 | Marks the pair's row, if there is one |
| OfflineQueue.DeliveryQueue.CleanupExpired | src/claw_msg/server/offline_queue.py:58-62 | Leaves exactly the unexpired rows |
| OfflineQueue.OrderByCreated | src/claw_msg/server/offline_queue.py:32-36 | Lists a set of messages once each in creation order, ties in any order |
| OfflineQueue.FlushLeavesNothingToFlush | src/claw_msg/server/offline_queue.py:21-46 | After a flush no row of the agent is flushable, returned rows are delivered, and if anything was returned none is pending; other agents' rows are unchanged |
| OfflineQueue.ExpiredRowIsMarkedExactlyWhen | src/claw_msg/server/offline_queue.py:39-44 | An expired pending row is not returned, and is marked delivered iff the flush returned something |
| OfflineQueue.FlushReturnsWhatItMarksExactlyWhen | src/claw_msg/server/offline_queue.py:21-46 | Every row a flush changes is returned iff nothing is returned or no pending row of the agent has expired |
| OfflineQueue.StatusOnlyMovesForward | src/claw_msg/server/offline_queue.py:11-62 | Each queue operation moves statuses forward only; only cleanup removes rows, and only expired ones |
| OfflineQueue.FlushCountsAttempts | src/claw_msg/server/offline_queue.py:39-55 | A row's attempts go up by one when a flush marks it, and not when it is acknowledged |
| Directory.ResolutionIsExact | src/claw_msg/server/message_validation.py:17-53 | The LIMIT 2 look-up followed by the count: an identifier resolves to itself; otherwise not found iff nobody has the name and ambiguous iff several do |
| Directory.OnlyOneNamed | src/claw_msg/server/message_validation.py:30-41 | The only agent of a name is found by it |
| Directory.NoErrorExactlyWhenAllowed | src/claw_msg/server/message_validation.py:56-92 | No error iff the recipient exists and accepts the sender, and the room exists and has the sender as a member; which of 404 and 403 it is otherwise, the recipient coming before the room |
| Directory.MembersOfRoom | src/claw_msg/server/routes_messages.py:104-108 | The selected members are exactly the room's |
| Directory.MembersAreCounted | src/claw_msg/server/routes_messages.py:104-108 | A member is listed as often as the membership table has it in the room |
| RateLimit.TokenBucket.Consume | src/claw_msg/server/rate_limit.py:18-27 | Refills to at most the capacity and takes a token iff there is a whole one |
| RateLimit.RateLimiter.Allow | src/claw_msg/server/rate_limit.py:30-39 | Charges the agent's own bucket, made full on its first call, and no other |
| RateLimit.BucketIsExact | src/claw_msg/server/rate_limit.py:12-27 | Call n is allowed iff for every earlier call k the calls allowed from k on, plus one, are at most capacity plus what flows in between |
| RateLimit.WindowBound | src/claw_msg/server/rate_limit.py:12-27 | Every window admits at most capacity plus rate times its length |
| RateLimit.BucketIsOptimal | src/claw_msg/server/rate_limit.py:18-27 | Any other choice that keeps all the window bounds has admitted no more in any prefix of the run |
| RateLimit.RefillIsRate | src/claw_msg/server/rate_limit.py:14-22 | The refill is elapsed time at a capacity a minute |
| RateLimit.MinuteAdmitsTwiceTheRate | src/claw_msg/server/rate_limit.py:12-27 | For every capacity a run admits twice that within 60 seconds |
| RateLimit.CapacityPerWindowExactlyWhen | src/claw_msg/server/rate_limit.py:12-27 | No run exceeds the capacity within a window of length w iff less than one token flows in over w |
| RateLimit.RefusalsAreInvisible | src/claw_msg/server/rate_limit.py:18-27 | Deleting any refused calls from a run changes no other decision |
| RateLimit.AgentsAreIsolated | src/claw_msg/server/rate_limit.py:30-39 | In any interleaving each agent's decisions are those of its own calls on its own bucket |
| Throttle.SenderIsBounded | src/claw_msg/server/rate_limit.py:12-39 | After any run of the broker, what one sender gets sent in a stretch of it, over both routes and whatever others send, is at most the capacity, plus the refill over the stretch, plus the capacity for each restart |
| Replies.ReplyCorrelator.PruneEarlyReplies | src/claw_msg/client/agent.py:452-461 | The two head-only loops compute the unexpired entries cut to the newest 1000 |
| Replies.ReplyCorrelator.RegisterPendingReply | src/claw_msg/client/agent.py:378-387 | Completes the future with a cached reply, which is removed, or makes it pending |
| Replies.ReplyCorrelator.ResolveReply | src/claw_msg/client/agent.py:389-406 | Completes the pending future of the id replied to, or caches the first such reply; says which |
| Replies.ReplyCorrelator.EndAsk | src/claw_msg/client/agent.py:209-219 | Forgets the id and cancels a future still open |
| Replies.PrunedExactly | src/claw_msg/client/agent.py:452-461 | In a cache ordered by expiry an entry stays iff it has not expired and fewer than 1000 entries are newer; what stays is a suffix |
| Replies.ReachableStatesAreGood | src/claw_msg/client/agent.py:378-406 | In every reachable state pending ids and cached ids are disjoint, the cache holds at most 1000 entries in order of expiry, and a completed future holds a reply to its own id |
| Replies.FuturesSettleOnce | src/claw_msg/client/agent.py:378-426 | A completed or cancelled future never changes |
| Replies.FinishedAskIsForgotten | src/claw_msg/client/agent.py:209-219 | However an ask ends, its id is never pending again and its future is settled for good |
| Replies.EarlyReplyIsNotMissed | src/claw_msg/client/agent.py:378-406 | A reply stored before its ask registers completes it, through any interleaving, if registration comes within the lifetime and fewer than 1000 others were stored in between |
| Answers.AskIsAnsweredFromCacheExactlyWhen | src/claw_msg/client/agent.py:378-387 | Registering completes the future iff an unexpired reply to the id is cached, and with it, else the id waits; what stays cached is everything else unexpired |
| Answers.WaitingQuestionIsAnswered | src/claw_msg/client/agent.py:389-398 | A reply to a waiting id completes its future and no other, takes the id off the list, leaves the cache, and nothing later takes the answer away |
| Answers.StepSettlesExactlyWhen | src/claw_msg/client/agent.py:187-219 | An open future is completed by a reply to its id, cancelled by its time-out or end, and untouched by every other step |
| Answers.FirstEventSettles | src/claw_msg/client/agent.py:187-219 | Over runs a waiting question is settled by the first event that concerns it |
| Answers.QuestionIsSettledBy | src/claw_msg/client/agent.py:187-219 | From the start on, a question ends with the unexpired cached reply to it if there is one when it is registered, else as the first event after it says: the first reply, or cancelled |
| Reauth.OneRegistrationPerToken | src/claw_msg/client/agent.py:435-482 | Over all interleavings at most one registration is made for a token, never for the current one; each operation is sent at most twice, the second time not with the rejected token |
| Reauth.RegistrationIsExclusive | src/claw_msg/client/agent.py:463-482 | Two tasks are never inside the refresh together, and during a registration there is neither token nor client |
| Reauth.FailedRegistrationStrands | src/claw_msg/client/agent.py:478-482 | A registration that fails leaves the client with no token |
| Reauth.StrandedForGood | src/claw_msg/client/agent.py:435-492 | From then on no operation is sent and no registration is made |
| Reauth.NothingIsEverSentExactlyWhen | src/claw_msg/client/agent.py:435-492 | No continuation sends anything iff there is no token and nobody holds the lock |
| Reauth.LockMakesProgress | src/claw_msg/client/agent.py:463-482 | In every reachable state with a waiting task, that task can enter the lock or another holds it and can take its next step |
| Retry.AnswersLeadTo | src/claw_msg/client/agent.py:435-444 | Success ends a task, another failure raises, a first 401 makes it wait with its failed token, a second 401 raises; nothing is sent and no other task changes |
| Retry.RequestIsSentExactlyWhen | src/claw_msg/client/agent.py:435-492 | A step sends one request iff it starts a task with a token, enters the lock to find the token renewed, or is issued one; a second request has the current token, which is not the failed one |
| Retry.RegistrationIsMadeExactlyWhen | src/claw_msg/client/agent.py:463-482 | One registration is made, with the failed token, when the lock's holder has closed the old connection, and at no other step |
| Retry.RetryEndsExactlyWhen | src/claw_msg/client/agent.py:463-482 | A retrying task raises iff closing failed in it, its registration was refused or it had the lock without a token, and stops waiting otherwise only by sending |
| Retry.UnauthorizedCanBeRetried | src/claw_msg/client/agent.py:435-482 | From every reachable state in which a first request is answered 401, unless the client is stranded, some run leads to its second request, made with another token |
| Retry.UnauthorizedIsRaisedOnlyWhen | src/claw_msg/client/agent.py:435-482 | Over runs, a task raised after a 401 without a second request had one of those three steps |
| Reauth.SharedClient.EnterLock | src/claw_msg/client/agent.py:463-466 | Having the lock, a task goes on to register iff nobody replaced the token it saw fail |
| Reauth.SharedClient.GiveUpToken | src/claw_msg/client/agent.py:476-481 | Drops client and token before registering |
| Reauth.SharedClient.AbandonClosing | src/claw_msg/client/agent.py:472-478 | When closing raises, the lock is released with the failed token and the client in place |
| Reauth.SharedClient.FinishRegistration | src/claw_msg/client/agent.py:482-492 | Installs the new token, frees the lock and retries with it |
| Monitor.MonitorState.SendText | plugin/src/monitor.ts:368-410 | Chains one more send on the queue |
| Monitor.MonitorState.RunCallback | plugin/src/monitor.ts:369-407 | Writes and takes the slot iff the send before was fulfilled and the socket is open; rejects otherwise |
| Monitor.MonitorState.OnAck | plugin/src/monitor.ts:205-217 | Resolves whoever waits, without looking at which frame is acknowledged |
| Monitor.MonitorState.ClearPendingAck | plugin/src/monitor.ts:94-101 | Rejects whoever waits |
| Monitor.MonitorState.OnClose | plugin/src/monitor.ts:231-234 | The same, and the connection is down |
| Monitor.MonitorState.OnFailure | plugin/src/monitor.ts:387-406 | A time-out or write error empties the slot and rejects that send |
| Monitor.AcksAreSerialized | plugin/src/monitor.ts:368-410 | Over every run at most one frame waits, frames go out in call order, none after a rejected send, and a fulfilled send got the ack of its own frame |
| Monitor.QueueNeverStalls | plugin/src/monitor.ts:368-410 | In every reachable state with an unsettled send, one not after it can run or be timed out, so every call can still be settled |
| Monitor.FrameIsWrittenExactlyWhen | plugin/src/monitor.ts:369-407 | In every reachable state the next send is written, takes the slot and sets its timer iff every send before it was fulfilled and the connection is open and up; else it is rejected and nothing else changes |
| Monitor.WaitingSendIsSettled | plugin/src/monitor.ts:94-101 | The send in the slot is fulfilled by its ack and rejected by a close, its time-out or its failed write, each of which empties the slot and leaves the other sends |
| Monitor.EverySendGoesOut | plugin/src/monitor.ts:368-410 | For every n, on a healthy connection n sends are all fulfilled with frames 0 to n-1 |
| Monitor.AckMatchesExactlyWhenFirst | plugin/src/monitor.ts:205-217 | An ack reaches the send of its own frame iff the broker has not acknowledged that frame before |
| Monitor.RejectionIsFinal | plugin/src/monitor.ts:368-410 | After one rejected send no frame is ever written again, reconnecting included |
| Identity.AgentTable.Register | src/claw_msg/server/routes_agents.py:90-188 | Updates the row the live token names or inserts one, or fails and changes nothing |
| Identity.AgentTable.UpdateMyProfile | src/claw_msg/server/routes_agents.py:202-228 | Writes the fields mentioned, a null policy excepted; reports whether the agent exists |
| Identity.TokenIsLiveExactlyWhenLatest | src/claw_msg/server/auth.py:47-56 | In every reachable state a token authenticates an agent iff it is the latest issued to it, and each registered agent has one |
| Identity.RotatedTokenIsDead | src/claw_msg/server/routes_agents.py:123-157 | After a later registration of the same agent a token opens nothing |
| Identity.ReuseExactlyWhenTokenIsLive | src/claw_msg/server/routes_agents.py:90-188 | A registration is for an existing agent iff its existing token is live, and then for the agent it names; other rows are untouched; an omitted owner and the public key are kept |
| Names.SameNameMakesTwoAgents | src/claw_msg/server/routes_agents.py:158-185 | Two registrations of one name without a token make two agents |
| Names.RenamingMakesTwoOfAName | src/claw_msg/server/routes_agents.py:123-157 | An agent that registers again under another's name keeps its row and shares the name |
| Names.RegistrationKeepsNamesExactlyWhen | src/claw_msg/server/routes_agents.py:90-188 | A registration keeps names pairwise different, ASCII case aside, iff no agent but the one registered has the name |
| Names.NamesStayDistinctExactlyWhen | src/claw_msg/server/routes_agents.py:90-228 | Over any run from an empty table, names differ after every prefix iff no step is a successful registration of a name another agent has then |
| Identity.TrustedIdentityIsWriteOnce | src/claw_msg/server/routes_agents.py:95-138 | Over any run of registrations and profile updates a trusted identity, once set, is neither changed nor cleared |
| Identity.TrustedIdentityIsFirstAdminStamp | src/claw_msg/server/routes_agents.py:95-121 | An agent's identity is the one in its first admin-authenticated registration that carried one; without such a registration it has none |
| Identity.MalformedExactlyWhen | src/claw_msg/server/routes_agents.py:43-66 | Status 400 iff the admin key is right and the payload lacks a text field or has another kind |
| Identity.ConflictExactlyWhen | src/claw_msg/server/routes_agents.py:111-119 | Status 409 iff an admin asks for an identity other than the one the token's agent has; there is no third failure |
| Identity.RegistrationWrites | src/claw_msg/server/routes_agents.py:43-188 | A registration writes one row: every field from the request, owner and public key kept unless given, and the identity stamped field by field from the payload or else the one there was |
| Identity.ProfileUpdateWrites | src/claw_msg/server/routes_agents.py:202-228 | A profile update changes owner, policy and public key of the bearer's row as far as it mentions them, a null policy excepted, and nothing else |
| Dedup.Database.SelectDuplicates | src/claw_msg/server/database.py:150-154 | Lists names with several rows, each such class at least once |
| Dedup.Database.Deduplicate | src/claw_msg/server/database.py:148-165 | The loop chooses a row to stay for each name, as recent as any, and removes the rest; it stops iff a row outside its choice is referenced |
| Dedup.Database.StartUp | src/claw_msg/server/database.py:168-173 | With the marker set nothing changes; otherwise it deduplicates and marks, or fails and changes nothing |
| Dedup.SurvivesExactlyWhenNewest | src/claw_msg/server/database.py:157-164 | With ties left open: a row may survive iff no row of its name is more recent, and must iff every other row of its name is older |
| Dedup.DeduplicatedOnceIsEnough | src/claw_msg/server/database.py:148-165 | Deduplicating a deduplicated table removes nothing |
| Dedup.StartUpFailsExactlyWhen | src/claw_msg/server/database.py:176-193 | The first start-up must fail iff a referenced row is older than another of its name or two referenced rows share one; it may fail iff another row of a referenced row's name is at least as recent |
| Dedup.OldMessageBlocksStartUp | src/claw_msg/server/database.py:176-193 | A concrete database of two agents on which every start-up fails |
| Dedup.LaterStartUpsDeleteNothing | src/claw_msg/server/database.py:168-173 | Over a database's life, from the first successful start-up on no row is removed and every start-up leaves the database as it is, whatever duplicates were registered |
| AutoConfig.ListBoundAccounts | plugin/src/auto-config.ts:127-156 | The loop and the sort compute the list that the next rows are about |
| AutoConfig.BoundAccountsExactly | plugin/src/auto-config.ts:81-156 | Each account bound to the channel is listed once, with the agent of its first binding, and no other |
| AutoConfig.AccountsAreBoundExactlyWhen | plugin/src/auto-config.ts:81-145 | An account is bound iff a binding with an agent id names the channel, case aside, and its account, or the default one, normalises to it; its name is the identity's, the agent's own, the normalised id or the id of the first such binding's agent, the first there is |
| AutoConfig.TrimIsExact | plugin/src/auto-config.ts:81-125 | Trimming takes away the white space at both ends and nothing else |
| AutoConfig.DefaultComesFirst | plugin/src/auto-config.ts:147-155 | The default account, if listed, is first, whatever the host's order of strings |
| AutoConfig.SortedIsInOrder | plugin/src/auto-config.ts:147-155 | The rest follows the host's order, if that is one |
| AutoConfig.BuildAutoConfig | plugin/src/auto-config.ts:193-233 | The loop over rebound configurations computes one pass, with the created ids and both flags |
| AutoConfig.NamesAfterPass | plugin/src/auto-config.ts:204-225 | An existing name is kept, a bound account without one gets its agent's, no other account changes or appears |
| AutoConfig.PassFrame | plugin/src/auto-config.ts:39-75 | Nothing but names and a blank broker changes |
| AutoConfig.BrokerAfterPass | plugin/src/auto-config.ts:175-191 | A broker address that is not blank is kept, otherwise it becomes the empty default |
| AutoConfig.CreatedExactlyWhen | plugin/src/auto-config.ts:202-225 | The created ids are exactly the bound accounts that lacked a name, without repeats |
| AutoConfig.SecondPassChangesNothing | plugin/src/auto-config.ts:175-233 | A second pass gives an equal configuration, for every host and every configuration |
| AutoConfig.SecondPassCreatesNothingExactlyWhen | plugin/src/auto-config.ts:204-225 | A second pass creates nothing iff no name given by the first was blank |
| AutoConfig.SecondPassStillReportsAChangeExactlyWhen | plugin/src/auto-config.ts:193-233 | A second pass sets the change flag iff the broker was blank or some account got a blank name |
| AutoConfig.BlankBrokerNeverSettles | plugin/src/auto-config.ts:175-201 | A concrete configuration on which every pass reports a change and from the second on none is made |
| AutoConfig.AgentNameIsBlankExactlyWhen | plugin/src/auto-config.ts:113-125 | A resolved name is blank iff the agent has none and its normalised id is white space |
| AutoConfig.EveryBoundAccountIsNamedExactlyWhen | plugin/src/auto-config.ts:127-233 | Every bound account has a name after one pass iff none that lacked one got a blank name |
| AutoConfig.EveryBoundAccountIsNamed | plugin/src/auto-config.ts:127-233 | With a host whose normalised ids are trimmed, every bound account has a name after one pass |

## Left out

- Handlers are atomic steps. What SQLite and the event loop could interleave between a handler's
  awaits is not modelled, except in `Reauth`, `Replies` and `Monitor`, where steps end at awaits.
- The agents table appears three times, with the columns each module's statements use:
  `Directory.AgentRow`, `Identity.Agent` and `Dedup.Row`. That they are one table is not stated.
- A restart begins with empty buckets and no sockets; the rate-limit theorems are about one
  limiter's life.
- The two routes run the same fan-out lines; `MessageServer.Deliver` models them once.
- MessageServer.MessageServer.Connect: the auth handshake, ping and pong, frame-size limits,
  malformed frames and presence are not modelled, because they hold no state the properties need.
- MessageServer.MessageServer.Disconnect: `set_offline` is not modelled; presence is not the same
  as having a connection when an agent has several sockets.
- Broker.WebSocketBroker.SendToAgent: assumes a socket is registered once, which the one
  registration per accepted connection gives; the list may not change while it is being offered.
- `online_agents` and `broadcast_to_room`: thin wrappers around what is modelled.
- Expiry times are compared as integers; the code compares ISO strings of one fixed format.
- Message ids, agent ids, futures and tokens are fresh where the code generates them; tokens stand
  for their two hashes, the look-up hash taken as injective.
- RateLimit.TokenBucket.Consume: floats are modelled as `real`, without rounding, and the clock is
  monotonic.
- The sender's name and owner in envelopes, message history and its paging, contacts and rooms
  CRUD, agent search and the admin bulk endpoints.
- Replies.EarlyReplyIsNotMissed: the poller's HTTP calls and delays are not modelled; whatever it
  finds arrives as a dispatched message.
- Reauth.OneRegistrationPerToken: the credentials file and the WebSocket connection that are closed
  along the way are not modelled, only that closing may raise, and neither are cancellation and a
  `register` called by hand.
- Monitor.AcksAreSerialized: assumes the broker acknowledges a frame at most once;
  `Monitor.AckMatchesExactlyWhenFirst` says what happens otherwise. The connect loop and its
  backoff are reduced to arbitrary changes of the socket.
- Identity.AgentTable.Register: JSON round trips and `has_valid_admin_key` are inputs; status and
  last-seen columns are not modelled.
- Identity.AgentTable.UpdateMyProfile: a request that is neither valid JSON nor a known policy is
  rejected before the handler and not modelled.
- Dedup.StartUpFailsExactlyWhen: the table creation and column additions around the migration are
  not modelled; a failed start-up is taken to be rolled back.
- AutoConfig.ListBoundAccounts: the host's normalisers and string order are parameters; `sort` is
  modelled as a stable insertion sort; `toLowerCase` folds ASCII only, which decides equality with
  the channel's name in the same way.
- `ensureClawMsgAutoConfig`, the daemon, the CLI, service files, prompt hooks and inbound dispatch:
  I/O around what is modelled.
