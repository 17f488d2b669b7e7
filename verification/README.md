# Verified model of the muduo core

muduo is a reactor network library: one event loop per thread, timers, buffered connections, pollers, codecs and an
asynchronous logger. This project models the parts where state and interleaving are hard to reason about, and proves
what they promise for every input, every run and every interleaving.

The files come in pairs. `X.dfy` is the behaviour on values: a state, its steps, whole runs (`Exec`) and the theorems
about them. `XObject.dfy` is the class or method that changes fields, buffers and arrays in place, proved to compute
exactly those steps, so that the theorems hold of it.

| part | files | main results |
|---|---|---|
| timer scheduler | TimerQueue, TimerQueueRuns, TimerQueueRepeats, TimerQueueObject | both indexes agree and each timer is in exactly one place in every reachable state, callbacks included, and is deleted once; a handleRead calls each due timer once, in order; cancellation is final, exactly when; the timerfd is armed in time |
| functor queue and wakeup | EventLoop, EventLoopObject | push order, at most once; no lost wakeup and no forgotten quit, exactly when |
| connection output | TcpConnection, TcpConnectionObject | byte conservation under any kernel; half-close discipline and finality of close, exactly when |
| HTTP parser | Http, HttpObject | independence of chunking; rendering and parsing back, request after request |
| RPC codec | RpcCodec, RpcCodecObject | round trip under any chunking; termination, exactly when; one-byte corruption is detected |
| async logger | AsyncLogging, AsyncLoggingObject | nothing lost or reordered on its way or when the writer stops, exactly when; the spares are always there |
| bounded queue | BoundedQueue, BoundedQueueObject | FIFO; no lost signal; deadlock, exactly when |
| pollers | Pollers | index bijection under swap-remove; epoll registry refines a map |
| buffer | Buffer, Wire | refines a byte queue over every operation sequence |
| calendar, zones | CInt, Calendar, TimeZone | Julian day, UTC and local time round trips, exactly when |
| decimal text | LogStream | canonical text of every 64-bit integer; the cursor stays inside |

Where the code does not do what its comments or callers expect, the model follows the code and a lemma says exactly
when the expectation holds:

- the loop thread queuing a functor before `loop()` runs is not woken (`EarlyPushIsLost`, `NoLostWakeupIff`), and a
  `quit()` before `loop()` is overwritten (`EarlyQuitIsLost`, `QuitForgottenIff`);
- a cancel that reaches the loop before the add of its timer does nothing (`OvertakenCancelIsLost`, `CancelFinalIff`);
- a send or shutdown queued by another thread can act after the half-close (`CrossThreadSendWritesLate`,
  `CrossThreadShutdownTwice`, `HalfCloseDiscipline`), and one that tested the state before a close can undo the close
  (`StaleShutdownReopens`, `ClosedIsFinalIff`);
- `addTimer` reads the sequence number after handing the timer over, which from another thread can be too late
  (`LateReadDangles`, `LateReadIff`);
- the header section ends at any line without a colon, though the comment says empty line (`HeadersEndIffNoColon`);
- a request line that fails after its method was recognised leaves the method set, and the next read meets the
  assertion in `setMethod` (`OnMessageReadyIff`, `Http2LineSpoils`); `HttpRequest::swap` leaves the version behind (`HttpRequest.Swap`);
- the RPC decode loop neither consumes nor leaves on a bad frame (`TerminatesIff`, `CorruptFrameNeverExits`), and the sender does not check the
  size the receiver refuses (`FrameDecodesIff`);
- the logger loses text on oversized lines and batches (`LogConservedIff`, `FloodDrops`), and what is appended after
  the writer last took the buffers is not written when it stops (`StoppedFileIff`, `StoppedBeforeWriting`);
- the poll registry does not watch a channel again once it was disabled (`WatchedIff`, `ReEnabledIsIgnored`);
- the Julian day formulas hold from 1 March 4801 BC on and not before (`DateRoundTripIff`); the daylight saving hack
  is right for a shift of one hour only (`RoundTripIffHour`); the day of the year is off in the first year of the range
  and the weekday before day number -1 (`YdayIff`, `WeekdayIff`).

## Model

| member | source | states |
|---|---|---|
| `TimerQueueRuns.ReachableStatesAreSafe` | muduo/net/TimerQueue.cc:122-288 | in every reachable state, inside callbacks too: the two indexes hold the same timers; every inserted timer is in exactly one of queue, running batch and deleted; outside handleRead a non-empty queue has the timerfd fired or armed no later than max(each expiration, arming time + 100 µs); no callback ran early |
| `TimerQueues.Step` | muduo/net/TimerQueue.cc:122-253 | every operation, in any state and at any point of a batch, keeps the whole invariant |
| `TimerQueues.Exec` | muduo/net/TimerQueue.cc:122-253 | and so does every finite run of them |
| `TimerQueues.GetExpiredExact` | muduo/net/TimerQueue.cc:190-219 | exactly the timers due at or before now leave both indexes and are returned in expiration order; the rest stay |
| `TimerQueues.DueCount` | muduo/net/TimerQueue.cc:195-199 | the bound splits the ordered queue into due and not yet due |
| `TimerQueues.InsertSorted` | muduo/net/TimerQueue.cc:271-276 | the ordered set gains exactly the new entry, and its head changes only for an earlier one |
| `TimerQueues.Erase` | muduo/net/TimerQueue.cc:149-151 | the ordered set loses exactly that entry, and its head never moves earlier |
| `TimerQueues.HowMuchTimeFromNow` | muduo/net/TimerQueue.cc:30-42 | the timespec is the distance, at least 100 µs, never the zero that would disarm, with nanoseconds in range |
| `TimerQueues.ResetTimerfdDeadline` | muduo/net/TimerQueue.cc:58-71 | the timer is armed for the later of the expiration and 100 µs from now |
| `TimerQueues.NewTimerInv` | muduo/net/Timer.h:16-23 | a timer created at any free address, reused or not, gets a sequence number no timer ever had and keeps the invariant |
| `TimerQueues.AddTimerInv` | muduo/net/TimerQueue.cc:122-134 | adding keeps the index, the partition and the arming of the timerfd |
| `TimerQueues.CancelInv` | muduo/net/TimerQueue.cc:140-162 | cancelling with any id keeps the invariant, even when the earliest timer goes |
| `TimerQueues.StartBatchInv` | muduo/net/TimerQueue.cc:166-177 | collecting a batch keeps the invariant |
| `TimerQueues.ResetOneInv` | muduo/net/TimerQueue.cc:225-240 | restarting or deleting one timer of the batch keeps it |
| `TimerQueues.ResetOneOthers` | muduo/net/TimerQueue.cc:225-240 | and leaves every other timer as it was |
| `TimerQueues.EndBatchInv` | muduo/net/TimerQueue.cc:183-187 | ending a batch keeps it and rearms for the new head |
| `TimerQueueRuns.BatchOutcome` | muduo/net/TimerQueue.cc:221-253 | after a batch each repeating, uncancelled timer of it is queued at now + interval, each other one is deleted, and no timer outside it changed |
| `TimerQueueRuns.HandleReadCallsEachOnce` | muduo/net/TimerQueue.cc:166-187 | over a whole handleRead, whatever its callbacks add, cancel and create: the batch is exactly the timers due at or before now in expiration order, and the log gains exactly one callback for each, in that order |
| `TimerQueueRuns.DeletedForever` | muduo/net/TimerQueue.cc:140-187 | in every continuation a deleted timer does not run and is not among the later deletions |
| `TimerQueueRuns.DeletedAtMostOnce` | muduo/net/TimerQueue.cc:140-240 | on every run the deletions on record are distinct and are those of the deleted timers |
| `TimerQueueRuns.CancelQueuedIsFinal` | muduo/net/TimerQueue.cc:140-155 | after cancelling a queued timer no callback of it follows in any continuation |
| `TimerQueueRuns.CancelInBatchEndsWithBatch` | muduo/net/TimerQueue.cc:156-160 | after cancelling a timer of the running batch it runs in no later batch |
| `TimerQueueRuns.CancelFinalIff` | muduo/net/TimerQueue.cc:116-162 | after cancelling with an id that was handed out, the timer is queued in no continuation, exactly when its add had reached the loop: it is queued, in the batch or gone |
| `TimerQueueRuns.OvertakenCancelIsLost` | muduo/net/TimerQueue.cc:107-162 | the run on which a cancel overtakes the add and the timer is called all the same |
| `TimerQueueRuns.LateReadIff` | muduo/net/TimerQueue.cc:107-114 | after any run since the timer was handed over, the read of its sequence number finds that timer exactly when it was not deleted in between |
| `TimerQueueRuns.ReadAfterAddIsSafe` | muduo/net/TimerQueue.cc:107-114 | in the loop thread the read follows the add and finds the timer |
| `TimerQueueRuns.LateReadDangles` | muduo/net/TimerQueue.cc:107-114 | the run on which a one-shot timer is run and deleted before the read, and its address can hold another timer by then |
| `TimerQueueRuns.StaleIdRemovesNothing` | muduo/net/TimerQueue.cc:145-162 | an id whose timer is gone, even if its address holds another timer, removes and dooms nothing |
| `TimerQueueRuns.CancelRemovesOnlyItself` | muduo/net/TimerQueue.cc:147-155 | a live id removes its own timer and no other |
| `TimerQueueRuns.RunIsAlive` | muduo/net/TimerQueue.cc:178-182 | a callback runs only for an allocated, undeleted timer of the current batch |
| `TimerQueueRepeats.CreatedAsAsked` | muduo/net/Timer.h:16-23 | a new timer has exactly the expiration, repeat flag and interval it was asked for and a number no timer had, and nothing else changes |
| `TimerQueueRepeats.PlanKept` | muduo/net/Timer.cc:9-19 | in every continuation a timer that is still there keeps its repeat flag and interval |
| `TimerQueueRepeats.RepeatsUnlessCancelled` | muduo/net/TimerQueue.cc:166-253 | a queued repeating timer that is due is queued again at now + interval after the batch, unless a callback of that batch cancels it |
| `TimerQueueRepeats.CreatedToRepeat` | muduo/net/TimerQueue.cc:107-253 | so a timer created to repeat comes back, by the interval it was created with, after every batch it is due in and not cancelled in, whatever happened before |
| `TimerQueueRepeats.CancelElsewhere` | muduo/net/TimerQueue.cc:156-160 | cancelling a timer that is not queued is noted while callbacks run, and does nothing otherwise |
| `TimerQueueRepeats.AddArms` | muduo/net/TimerQueue.cc:122-134 | adding queues exactly that timer and arms the timerfd for it exactly when it is earlier than all that are queued |
| `TimerQueueRepeats.BatchArms` | muduo/net/TimerQueue.cc:45-54 | reading empties a fired timerfd |
| `TimerQueueRepeats.EndArms` | muduo/net/TimerQueue.cc:242-252 | the end of a batch arms the timerfd for the earliest timer |
| `TimerQueueRepeats.DeadlineFires` | muduo/net/TimerQueue.cc:58-71 | an armed timerfd becomes readable exactly when its deadline is reached |
| `TimerQueueRepeats.DueTimerIsNoticed` | muduo/net/TimerQueue.cc:30-71 | outside handleRead the timerfd is readable once a queued timer is due and 100 µs have passed since arming |
| `TimerQueueObjects.TimerQueue.constructor` | muduo/net/TimerQueue.cc:81-86 | a new scheduler is the initial state |
| `TimerQueueObjects.TimerQueue.CreateTimer` | muduo/net/Timer.h:16-23 | computes the creation step: the heap gains exactly the timer asked for, and the id names it |
| `TimerQueueObjects.TimerQueue.Insert` | muduo/net/TimerQueue.cc:256-288 | both indexes gain the timer, which was in neither, and the result says whether it is the new earliest |
| `TimerQueueObjects.TimerQueue.AddTimerInLoop` | muduo/net/TimerQueue.cc:122-134 | computes the adding step |
| `TimerQueueObjects.TimerQueue.CancelInLoop` | muduo/net/TimerQueue.cc:140-162 | computes the cancelling step |
| `TimerQueueObjects.TimerQueue.GetExpired` | muduo/net/TimerQueue.cc:190-219 | the loop that erases one by one computes the exact removal above |
| `TimerQueueObjects.TimerQueue.ResetTimers` | muduo/net/TimerQueue.cc:225-240 | the loop restarts or deletes the whole batch as specified |
| `TimerQueueObjects.TimerQueue.Reset` | muduo/net/TimerQueue.cc:221-253 | computes the end of a batch, rearming included |
| `TimerQueueObjects.TimerQueue.HandleRead` | muduo/net/TimerQueue.cc:166-187 | with an arbitrary list of re-entrant calls in each callback, computes the run begin, callbacks, end |
| `EventLoops.ReachableSafe` | muduo/net/EventLoop.cc:98-131 | over every interleaving: pushed = executed ++ in flight ++ pending (push order, at most once); what was pushed when poll returned has run by the next poll; poll is not left sleeping on a raised quit flag |
| `EventLoops.StepSafe` | muduo/net/EventLoop.cc:98-273 | each step of any thread keeps that |
| `EventLoops.StepNoLostWakeup` | muduo/net/EventLoop.cc:159-174 | a step loses a wakeup exactly when it enters loop() with unannounced work |
| `EventLoops.NoLostWakeupIff` | muduo/net/EventLoop.cc:98-131 | on a run no state at or on the way to poll has unannounced work, exactly when every loop() is entered with an empty queue, a token, or a pusher about to wake |
| `EventLoops.DisciplinedRunsNeverLose` | muduo/net/EventLoop.cc:166-173 | if the loop thread never queues outside loop(), no interleaving of any number of threads loses a wakeup |
| `EventLoops.EarlyPushIsLost` | muduo/net/EventLoop.cc:170-173 | the run on which the loop thread sleeps on its own functor |
| `EventLoops.WokenIterationRunsAll` | muduo/net/EventLoop.cc:241-273 | from any safe state at poll with a token, one iteration runs everything pushed, drains the token and changes nothing else |
| `EventLoops.QuitForgottenIff` | muduo/net/EventLoop.cc:98-143 | on a run no quit() is ever outstanding with the flag down, exactly when no loop() is entered while one is outstanding |
| `EventLoops.QuitSleptThroughIff` | muduo/net/EventLoop.cc:104-143 | for any call of quit(), with no later call and no loop() returned since: it is forgotten exactly when a loop() was entered after it, and otherwise poll has a wakeup there or on its way |
| `EventLoops.ForgottenNeverReturns` | muduo/net/EventLoop.cc:105-127 | a running loop with a forgotten quit returns on no continuation without another quit() |
| `EventLoops.HeardQuitReturns` | muduo/net/EventLoop.cc:106-143 | a loop woken with the flag up returns after one iteration |
| `EventLoops.EarlyQuitIsLost` | muduo/net/EventLoop.cc:104-105 | the run on which a quit() before loop() is overwritten and the loop sleeps with nobody to wake it |
| `EventLoops.EveryPushIsKept` | muduo/net/EventLoop.cc:159-174 | executed ++ in flight ++ pending is, in order, the functors of all the calls of queueInLoop |
| `EventLoops.RunByNextPoll` | muduo/net/EventLoop.cc:106-127 | the functors of all calls before a return of poll have run when the loop next comes to its test or to poll |
| `EventLoops.QuitRaises` | muduo/net/EventLoop.cc:135-143 | quit() raises the flag, and a foreign caller owes a wakeup |
| `EventLoops.QuitReturns` | muduo/net/EventLoop.cc:105-143 | with the flag up and no loop() entered in between, the next test makes the loop return |
| `EventLoops.NoQuitNoReturn` | muduo/net/EventLoop.cc:105-127 | and without a quit() every test goes to poll |
| `EventLoops.WakeOutcome` | muduo/net/EventLoop.cc:230-238 | a wakeup adds a token and settles what its caller owed |
| `EventLoopObjects.EventLoop.Push` | muduo/net/EventLoop.cc:159-174 | the flag test on line 170 asks for a wakeup exactly from the callers the proof counts as owing one |
| `EventLoopObjects.EventLoop.HandleRead` | muduo/net/EventLoop.cc:241-249 | computes the draining step |
| `EventLoopObjects.EventLoop.LoopMove` | muduo/net/EventLoop.cc:98-131 | computes the loop's own steps on its flags |
| `EventLoopObjects.EventLoop.SwapPending` | muduo/net/EventLoop.cc:257-262 | computes the swap |
| `EventLoopObjects.EventLoop.RunOne` | muduo/net/EventLoop.cc:267-271 | runs the next functor in order |
| `EventLoopObjects.EventLoop.Replay` | muduo/net/EventLoop.cc:98-273 | every interleaving of the pieces takes the object where the transition system goes |
| `TcpConnections.OutputConserved` | muduo/net/TcpConnection.cc:131-335 | for every pattern of short writes, EWOULDBLOCK, errors, calls and interleavings of other threads: kernel bytes ++ output buffer = payloads neither refused with EPIPE nor given up after close, in order; POLLOUT is watched iff the buffer is non-empty, until close; a requested half-close is done or pending |
| `TcpConnections.EveryPayloadIsKept` | muduo/net/TcpConnection.cc:69-319 | what write(2) took, in order, and what is still buffered are together the payloads of all the calls, in order: those sent while connected and those queued and run before close, less the ones refused with EPIPE |
| `TcpConnections.StepSends` | muduo/net/TcpConnection.cc:131-319 | each step adds to the stream exactly the payload it sends and to the kernel exactly the bytes write(2) took |
| `TcpConnections.SendLengthensStream` | muduo/net/TcpConnection.cc:71-83 | a send on a connected socket lengthens the stream by its payload, backlog or not |
| `TcpConnections.StepInv` | muduo/net/TcpConnection.cc:69-335 | every operation keeps that |
| `TcpConnections.HighWaterOnCrossing` | muduo/net/TcpConnection.cc:173-188 | the high-water callback is queued exactly when a send lifts the buffer from below the mark to it or past it |
| `TcpConnections.WriteCompleteOnDrain` | muduo/net/TcpConnection.cc:276-319 | the write-complete callback is queued exactly when a write empties the buffer |
| `TcpConnections.SendCompletes` | muduo/net/TcpConnection.cc:145-156 | a send reports completion exactly when the kernel takes all of it at once |
| `TcpConnections.WriteDropsTaken` | muduo/net/TcpConnection.cc:280-299 | the POLLOUT callback drops what the kernel took, stops watching when the buffer is empty, and half-closes exactly then if that was asked for |
| `TcpConnections.ShutdownOutcome` | muduo/net/TcpConnection.cc:194-213 | shutdown() half-closes at once with an empty buffer and leaves it to the drain otherwise |
| `TcpConnections.QueuedShutdownOutcome` | muduo/net/TcpConnection.cc:205-213 | a queued shutdown half-closes unless output is pending |
| `TcpConnections.OpenAndClose` | muduo/net/TcpConnection.cc:222-335 | establishing connects; closing disconnects, stops watching and keeps what is buffered; destroying does so only while connected |
| `TcpConnections.HalfCloseDiscipline` | muduo/net/TcpConnection.cc:194-213 | shutdownWrite happens at most once, with nothing buffered, and no write follows, exactly when no queued functor runs too late; always so if send and shutdown are called in the loop thread |
| `TcpConnections.StepDiscipline` | muduo/net/TcpConnection.cc:194-213 | one step breaks the discipline exactly if it is such a late functor |
| `TcpConnections.CrossThreadSendWritesLate` | muduo/net/TcpConnection.cc:85-102 | the run on which a foreign send is written after the half-close |
| `TcpConnections.CrossThreadShutdownTwice` | muduo/net/TcpConnection.cc:194-203 | the run on which a foreign shutdown half-closes twice |
| `TcpConnections.ClosedIsFinalIff` | muduo/net/TcpConnection.cc:194-203 | a closed connection stays disconnected and unwatched in every state of a run exactly when no other thread sets Disconnecting after the close on a test made before it; always so if send and shutdown are called in the loop thread |
| `TcpConnections.StaleShutdownReopens` | muduo/net/TcpConnection.cc:194-203 | the run on which such a shutdown reopens the state and a queued send is written after the close |
| `TcpConnections.IntentKept` | muduo/net/TcpConnection.cc:85-98 | another thread sets out only on a connected socket and keeps its payload until its next step |
| `TcpConnections.ProceedOutcome` | muduo/net/TcpConnection.cc:197-202 | its shutdown sets the state whatever it is, and then queues |
| `TcpConnections.QueueInOrder` | muduo/net/TcpConnection.cc:85-203 | sends and shutdowns of other threads run in the order they were queued, each once |
| `TcpConnectionObjects.TcpConnection.ConnectEstablished` | muduo/net/TcpConnection.cc:222-232 | computes the establishing step |
| `TcpConnectionObjects.TcpConnection.SendInLoop` | muduo/net/TcpConnection.cc:131-189 | computes the send transition over the real buffer |
| `TcpConnectionObjects.TcpConnection.WriteOrBuffer` | muduo/net/TcpConnection.cc:140-188 | what the kernel did not take is buffered behind the rest, POLLOUT follows, and the one notice due is queued |
| `TcpConnectionObjects.TcpConnection.BufferRest` | muduo/net/TcpConnection.cc:173-188 | the rest goes behind the buffered bytes, with a notice exactly on a crossing, and POLLOUT is on |
| `TcpConnectionObjects.TcpConnection.Send` | muduo/net/TcpConnection.cc:69-83 | computes the loop thread's send |
| `TcpConnectionObjects.TcpConnection.TestSend` | muduo/net/TcpConnection.cc:85-89 | computes another thread's test of the state in send |
| `TcpConnectionObjects.TcpConnection.Shutdown` | muduo/net/TcpConnection.cc:194-213 | computes the loop thread's shutdown |
| `TcpConnectionObjects.TcpConnection.TestShutdown` | muduo/net/TcpConnection.cc:194-197 | computes another thread's test of the state in shutdown |
| `TcpConnectionObjects.TcpConnection.Proceed` | muduo/net/TcpConnection.cc:85-203 | computes that thread's next step, in whatever state it now finds the connection: queue the send, or set Disconnecting and then queue the shutdown |
| `TcpConnectionObjects.TcpConnection.HandleWrite` | muduo/net/TcpConnection.cc:276-319 | computes the POLLOUT transition, deferred half-close included |
| `TcpConnectionObjects.TcpConnection.Wrote` | muduo/net/TcpConnection.cc:283-299 | the written bytes leave the buffer, and draining it stops POLLOUT, queues the notice and finishes a deferred half-close |
| `TcpConnectionObjects.TcpConnection.HandleClose` | muduo/net/TcpConnection.cc:322-335 | computes the closing step |
| `TcpConnectionObjects.TcpConnection.ConnectDestroyed` | muduo/net/TcpConnection.cc:236-249 | computes the destroying step |
| `TcpConnectionObjects.TcpConnection.Replay` | muduo/net/TcpConnection.cc:69-335 | every legal run of calls and events takes the object where the transition system goes, and conserves the real buffer's bytes |
| `Http.ChunkingIndependent` | muduo/net/http/HttpServer.cc:57-114 | for every stream, context and split, feeding the pieces until the first error or complete request gives the verdict, context, request and left-over bytes of one whole read |
| `Http.ParseSplit` | muduo/net/http/HttpServer.cc:57-114 | parsing a and then b behind what was left is parsing a ++ b |
| `Http.ParseIdle` | muduo/net/http/HttpServer.cc:57-114 | an incomplete parse is a fixed point |
| `Http.Parse` | muduo/net/http/HttpServer.cc:57-114 | the parse ends complete or in a state it can be entered in again, and never grows the buffer |
| `Http.HeadersEndIffNoColon` | muduo/net/http/HttpServer.cc:85-101 | a line ends the header section exactly when it has no colon, empty or not |
| `Http.HeadersNeverFail` | muduo/net/http/HttpServer.cc:85-107 | once headers are expected no bytes make the parse fail |
| `Http.RenderParses` | muduo/net/http/HttpServer.cc:20-114 | from a new context or one reset after any request, every well-formed request, rendered with anything behind it, parses back to its method, path, version and header map, and leaves what is behind |
| `Http.KeptConnection` | muduo/net/http/HttpServer.cc:158-176 | for every list of well-formed requests, each cut into reads in any way, the connection hands over exactly those requests in order and ends clean |
| `Http.OnMessage` | muduo/net/http/HttpServer.cc:158-176 | the reset leaves a state parseRequest can be entered in |
| `Http.RequestLineParses` | muduo/net/http/HttpServer.cc:20-53 | a rendered request line gives back method, path and version |
| `Http.HeaderLineParses` | muduo/net/http/HttpRequest.h:121-140 | a rendered header line gives back its field and trimmed value, overriding an earlier equal field |
| `Http.HeaderStored` | muduo/net/http/HttpRequest.h:121-140 | for any line and colon the field gets what follows the colon less the space at both ends, and nothing else changes |
| `Http.SpaceIff` | muduo/net/http/HttpRequest.h:126-134 | what counts as space |
| `Http.HeaderLineStep` | muduo/net/http/HttpServer.cc:90-101 | a header line is stored under what precedes its first colon, and the parse goes on behind it |
| `Http.VerbIff` | muduo/net/http/HttpRequest.h:44-75 | exactly the five names are methods |
| `Http.RequestLineAccepted` | muduo/net/http/HttpServer.cc:20-53 | only method, space, path without space, space, HTTP/1.0 or HTTP/1.1 is accepted, and leaves what it says |
| `Http.RequestLineRefused` | muduo/net/http/HttpServer.cc:20-53 | what a refused line has already set |
| `Http.OnMessageReadyIff` | muduo/net/http/HttpServer.cc:158-176 | after a read the context cannot take the next one exactly when a request line was expected, a whole line is there, its method is recognised, and a second space is missing or the protocol is neither HTTP/1.0 nor HTTP/1.1 |
| `Http.HalfGoodSpoils` | muduo/net/http/HttpServer.cc:20-53 | every such line, with anything behind it, is refused and leaves a new context unready |
| `Http.Http2LineSpoils` | muduo/net/http/HttpServer.cc:20-53 | `GET / HTTP/2.0` is such a line |
| `HttpObjects.HttpRequest.SetMethod` | muduo/net/http/HttpRequest.h:44-75 | sets the named method and reports whether there is one |
| `HttpObjects.HttpRequest.AddHeader` | muduo/net/http/HttpRequest.h:121-140 | the two trimming loops compute the stored value that `HeaderStored` describes |
| `HttpObjects.HttpRequest.Swap` | muduo/net/http/HttpRequest.h:158-164 | exchanges everything but the version |
| `HttpObjects.HttpContext.Reset` | muduo/net/http/HttpContext.h:63-68 | expects a request line again, with an empty request but the old version |
| `HttpObjects.HttpContext.ProcessRequestLine` | muduo/net/http/HttpServer.cc:20-53 | computes the specified request and verdict, what a failed line already set included |
| `HttpObjects.ParseRequestLine` | muduo/net/http/HttpServer.cc:63-84 | one round on a request line keeps the outcome of the whole parse and shrinks the buffer if it goes on |
| `HttpObjects.ParseHeaderLine` | muduo/net/http/HttpServer.cc:85-107 | one round on a header line does the same |
| `HttpObjects.ParseRequest` | muduo/net/http/HttpServer.cc:57-114 | the loop ends and leaves verdict, context and buffer of the parse function |
| `HttpObjects.HandleMessage` | muduo/net/http/HttpServer.cc:158-176 | hands over the completed request and leaves the context of onMessage, which can be entered again |
| `Rpc.StreamRoundTrip` | muduo/net/protorpc/RpcCodec.cc:33-98 | for every message list and every chunking of any part of its frames, exactly the complete messages are delivered in order and exactly the incomplete tail is kept |
| `Rpc.WholeStreamRoundTrip` | muduo/net/protorpc/RpcCodec.cc:33-98 | all frames in any chunks give all messages and an empty buffer |
| `Rpc.DecodeSplit` | muduo/net/protorpc/RpcCodec.cc:66-98 | decoding a and then b behind what was left is decoding a ++ b, on good and bad streams |
| `Rpc.PrefixDecodes` | muduo/net/protorpc/RpcCodec.cc:66-98 | one read of any prefix of the frames delivers the whole ones and keeps the cut one |
| `Rpc.FrameDecodesIff` | muduo/net/protorpc/RpcCodec.cc:66-98 | a sent frame is delivered if its payload fits 64 MiB - 8, and spins with an invalid length otherwise |
| `Rpc.TerminatesIff` | muduo/net/protorpc/RpcCodec.cc:70-97 | the decode loop ends exactly when the buffer is frames of 8 bytes to 64 MiB whose bodies parse, followed by a tail that is too short or shorter than its own acceptable length field says |
| `Rpc.CorruptFrameNeverExits` | muduo/net/protorpc/RpcCodec.cc:88-91 | a frame with one byte of its body changed, whatever follows, keeps the loop running for ever |
| `Rpc.LoopRound` | muduo/net/protorpc/RpcCodec.cc:70-97 | a delivered frame consumes at least 12 bytes from the front and nothing else |
| `Rpc.BodyParses` | muduo/net/protorpc/RpcCodec.cc:151-189 | a correctly framed body passes both checks and yields what the message parser says |
| `Rpc.FrameLayout` | muduo/net/protorpc/RpcCodec.cc:37-61 | byte by byte: the length most significant byte first, "RPC0", the payload, the ADLER32 of both most significant byte first |
| `Rpc.CheckedBodyParses` | muduo/net/protorpc/RpcCodec.cc:162-182 | a body with the right checksum is judged by its first four bytes and then by the message parser |
| `Rpc.CheckSumErrorIff` | muduo/net/protorpc/RpcCodec.cc:156-186 | a body is a checksum error exactly when its last four bytes are not the ADLER32 of the others |
| `Rpc.LengthRefusedIff` | muduo/net/protorpc/RpcCodec.cc:70-76 | a length is refused exactly when it is below 8 or above 64 MiB |
| `Rpc.OneByteCorruptionDetected` | muduo/net/protorpc/RpcCodec.cc:151-187 | a body of any length that differs in exactly one byte, content or checksum, is rejected as a checksum error |
| `Adler.OneByteChangesAdler32` | muduo/net/protorpc/RpcCodec.cc:157-160 | changing any one byte of any input changes its ADLER32 (section 2.2 of RFC 1950) |
| `Adler.AdlerHalves` | muduo/net/protorpc/RpcCodec.cc:54-57 | the low half is one plus the sum of the bytes, the high half their number plus their sum weighted by distance from the end, both modulo 65521 |
| `Adler.WeightByPosition` | muduo/net/protorpc/RpcCodec.cc:54-57 | the weight of a byte is its distance from the end |
| `Adler.AdlerExample` | muduo/net/protorpc/RpcCodec.cc:54-57 | the ADLER32 of "Wikipedia" is 0x11E60398 |
| `RpcObjects.Send` | muduo/net/protorpc/RpcCodec.cc:33-61 | append, checksum and prepend build the frame in a fresh buffer |
| `RpcObjects.OneRound` | muduo/net/protorpc/RpcCodec.cc:72-96 | one pass of the loop delivers and consumes a good frame, or leaves the buffer alone |
| `RpcObjects.OnMessage` | muduo/net/protorpc/RpcCodec.cc:66-98 | on every buffer: the good frames in front are delivered and consumed; it returns exactly on good streams, and else reports the same bad frame for any number of rounds |
| `AsyncLogging.LogConservedIff` | muduo/base/AsyncLogging.cc:27-140 | over every interleaving, file ++ in-flight batch ++ buffers ++ current buffer = appended lines in order, exactly when every line is shorter than a large buffer and no batch exceeds 25; then the file is a prefix of them |
| `AsyncLogging.EveryLineIsKeptIff` | muduo/base/AsyncLogging.cc:27-140 | file ++ text on its way is, in order, the lines of all the calls of append, exactly when no step was lossy |
| `AsyncLogging.AppendOutcome` | muduo/base/AsyncLogging.cc:27-53 | a line that fits goes behind what is in the current buffer; only one that does not begins a new buffer |
| `AsyncLogging.DropNeedsBacklog` | muduo/base/AsyncLogging.cc:99-108 | with no oversized line, text is dropped only when at least thirteen large buffers' worth of it was waiting |
| `AsyncLogging.TrimOutcome` | muduo/base/AsyncLogging.cc:99-108 | of a batch over 25 the two oldest buffers are kept, behind a notice of how many are gone |
| `AsyncLogging.WriterRound` | muduo/base/AsyncLogging.cc:72-138 | one round of the writer left to itself puts everything it found into the file in order and comes back to its loop head |
| `AsyncLogging.StoppedFileIff` | muduo/base/AsyncLogging.cc:72-140 | once the writer has stopped, the file is exactly what was appended if and only if no step was lossy and nothing was appended after it last took the buffers |
| `AsyncLogging.StoppedBeforeWriting` | muduo/base/AsyncLogging.cc:72-140 | the run on which a line appended before stop() is never written |
| `AsyncLogging.FloodDrops` | muduo/base/AsyncLogging.cc:99-108 | appenders that outrun the writer by n lines of 3,999,999 bytes get n - 2 buffers dropped exactly when n is over 25 |
| `AsyncLogging.StepConserves` | muduo/base/AsyncLogging.cc:27-138 | a step that is neither of the lossy two loses, repeats and reorders nothing |
| `AsyncLogging.DamageLasts` | muduo/base/AsyncLogging.cc:99-108 | what a lossy step lost never comes back |
| `AsyncLogging.Step` | muduo/base/AsyncLogging.cc:72-138 | every step keeps: a missing reserve means a waiting buffer, so both refill pops find one |
| `AsyncLogging.SparesReadyAtHead` | muduo/base/AsyncLogging.cc:74-90 | from every loop head until the buffers are taken both spares are present and empty, whatever the appenders did, stop() included |
| `AsyncLoggingObjects.AsyncLogger.Append` | muduo/base/AsyncLogging.cc:27-53 | computes the appending step |
| `AsyncLoggingObjects.AsyncLogger.Grab` | muduo/base/AsyncLogging.cc:78-93 | computes the writer's critical section |
| `AsyncLoggingObjects.AsyncLogger.Trim` | muduo/base/AsyncLogging.cc:99-108 | computes the dropping of a too large batch |
| `AsyncLoggingObjects.AsyncLogger.WriteOne` | muduo/base/AsyncLogging.cc:110-114 | writes the next buffer of the batch |
| `AsyncLoggingObjects.AsyncLogger.Recycle` | muduo/base/AsyncLogging.cc:116-136 | both pop assertions hold, and both spares end present and empty |
| `AsyncLoggingObjects.AsyncLogger.Replay` | muduo/base/AsyncLogging.cc:27-140 | every interleaving takes the object where the transition system goes |
| `BoundedQueues.NoLostSignal` | muduo/base/BoundedBlockingQueue.h:26-54 | for any number of threads: FIFO within capacity; while takers sleep the queue is covered by woken takers and putters about to notify, dually for putters; if all threads sleep, takers face an empty queue and putters a full one |
| `BoundedQueues.StepInv` | muduo/base/BoundedBlockingQueue.h:26-54 | every step, spurious wakeups included, keeps that |
| `BoundedQueues.DeadlockIff` | muduo/base/BoundedBlockingQueue.h:18-54 | takers and putters can all be asleep together exactly when the capacity is zero |
| `BoundedQueues.PushesItsArguments` | muduo/base/BoundedBlockingQueue.h:26-38 | over every interleaving a thread pushes the arguments of its calls of put, in order; at most the last one is still held |
| `BoundedQueues.PutOutcome` | muduo/base/BoundedBlockingQueue.h:26-38 | put pushes its argument, or sleeps on a full queue holding it |
| `BoundedQueues.RetryPutOutcome` | muduo/base/BoundedBlockingQueue.h:30-36 | a woken putter pushes the item it holds, or sleeps again holding it |
| `BoundedQueues.TakeOutcome` | muduo/base/BoundedBlockingQueue.h:40-54 | take takes the oldest item and signals, or sleeps on an empty queue |
| `BoundedQueues.WakeOutcome` | muduo/base/BoundedBlockingQueue.h:32-45 | a signal and a spurious wakeup move sleepers to the woken and change nothing else |
| `BoundedQueueObjects.BoundedBlockingQueue.PutLocked` | muduo/base/BoundedBlockingQueue.h:29-36 | waits or pushes at the back and owes a notification |
| `BoundedQueueObjects.BoundedBlockingQueue.TakeLocked` | muduo/base/BoundedBlockingQueue.h:42-53 | waits or takes the front |
| `BoundedQueueObjects.BoundedBlockingQueue.Replay` | muduo/base/BoundedBlockingQueue.h:26-54 | every interleaving takes the object where the transition system goes |
| `PollPollers.PollPoller.UpdateChannel` | muduo/net/poller/PollPoller.cc:69-104 | keeps the bijection of channels and slots, and changes this descriptor's entry only |
| `PollPollers.PollPoller.Register` | muduo/net/poller/PollPoller.cc:74-87 | a new channel gets a new last slot |
| `PollPollers.PollPoller.Modify` | muduo/net/poller/PollPoller.cc:88-103 | a known channel's slot is rewritten in place, negated on an empty mask |
| `PollPollers.PollPoller.RemoveChannel` | muduo/net/poller/PollPoller.cc:106-136 | keeps the bijection and removes this descriptor's entry only |
| `PollPollers.PollPoller.SwapOut` | muduo/net/poller/PollPoller.cc:125-135 | swap-remove re-targets the channel of the moved slot |
| `PollPollers.MoveLastSlot` | muduo/net/poller/PollPoller.cc:125-135 | moving the last slot keeps the index a bijection, negated entries included, and every other descriptor's entry |
| `PollPollers.AddSlot` | muduo/net/poller/PollPoller.cc:78-86 | so does a new last slot |
| `PollPollers.PollPoller.Replay` | muduo/net/poller/PollPoller.cc:69-136 | over every legal series of updates and removals, slots and channels stay in bijection and hold what the registry says |
| `PollPollers.PollPoller.FillActiveChannels` | muduo/net/poller/PollPoller.cc:51-67 | stopping at the reported count finds every reported channel once, in slot order, and tells each one its events and no other |
| `PollPollers.PollPoller.ReportedIff` | muduo/net/poller/PollPoller.cc:51-67 | a registered channel is among the active ones exactly when its slot was reported |
| `PollPollers.PollPoller.ReportedInOrder` | muduo/net/poller/PollPoller.cc:51-67 | and they come in the order of their slots, so each once |
| `PollPollers.ToldMeaning` | muduo/net/poller/PollPoller.cc:62-62 | every channel is told what poll reported in its own slot |
| `PollPollers.WatchedIff` | muduo/net/poller/PollPoller.cc:69-136 | over every run of updates and removals, for every registered descriptor: poll watches what its channel asks for exactly when that is nothing, or no update since its registration asked for nothing |
| `PollPollers.SlotHistory` | muduo/net/poller/PollPoller.cc:69-136 | a descriptor is registered exactly when it was set since its last removal, and its slot is the life of that registration |
| `PollPollers.LifeFields` | muduo/net/poller/PollPoller.cc:77-102 | a slot asks for the last mask, has no events yet, and names its descriptor, negated exactly after an empty mask |
| `PollPollers.ReEnabledIsIgnored` | muduo/net/poller/PollPoller.cc:94-102 | the legal run enable, disable, enable after which poll watches nothing |
| `EPollPollers.EPollPoller.UpdateChannel` | muduo/net/poller/EPollPoller.cc:108-152 | every epoll_ctl is legal, the index matches both sets, and the registry gains exactly this mask |
| `EPollPollers.EPollPoller.RemoveChannel` | muduo/net/poller/EPollPoller.cc:155-177 | and loses exactly this descriptor |
| `EPollPollers.EPollPoller.EnableReading` | muduo/net/Channel.h:43-47 | the mask in force gains the read bits |
| `EPollPollers.EPollPoller.EnableWriting` | muduo/net/Channel.h:50-54 | the channel is writing, and the mask in force says so |
| `EPollPollers.EPollPoller.DisableWriting` | muduo/net/Channel.h:56-60 | the channel is not writing, and the mask in force says so |
| `EPollPollers.EPollPoller.DisableAll` | muduo/net/Channel.h:62-66 | nothing is in force for the channel |
| `Pollers.WritingBit` | muduo/net/Channel.h:50-68 | isWriting sees the write bit set and cleared, and the read bits stay |
| `EPollPollers.EPollPoller.Replay` | muduo/net/poller/EPollPoller.cc:108-198 | over every legal series of mask changes and removals, with descriptors reused, the poller is the map from descriptors to channels and masks |
| `Buffers.Buffer.constructor` | muduo/net/Buffer.h:37-45 | a new buffer is empty with 8 bytes in front and 1024 behind |
| `Buffers.Buffer.FindCRLF` | muduo/net/Buffer.h:76-89 | finds the first CRLF at or after the start, or reports none |
| `Buffers.Buffer.Retrieve` | muduo/net/Buffer.h:93-105 | drops the first bytes of the queue, and determines the layout |
| `Buffers.Buffer.RetrieveAll` | muduo/net/Buffer.h:130-134 | empties the queue and restores the headroom |
| `Buffers.Buffer.RetrieveAsString` | muduo/net/Buffer.h:141-148 | returns and drops the first bytes |
| `Buffers.Buffer.Append` | muduo/net/Buffer.h:160-165 | adds bytes at the back, and determines the layout |
| `Buffers.Buffer.EnsureWritableBytes` | muduo/net/Buffer.h:173-180 | makes the room without changing the queue |
| `Buffers.Buffer.MakeSpace` | muduo/net/Buffer.h:325-345 | growing and the overlapping move both keep the queue, and the assertion follows from the caller's test |
| `Buffers.RoomySize` | muduo/net/Buffer.h:325-345 | the vector grows only when sliding down would not make the room, and then by exactly what is missing |
| `Buffers.SizeKept` | muduo/net/Buffer.h:93-165 | taking and adding bytes within the vector keeps its length |
| `Buffers.ShrunkSize` | muduo/net/Buffer.h:299-306 | a shrunk vector is as long as a new one, or as the bytes and the reserve need |
| `Buffers.Buffer.Slide` | muduo/net/Buffer.h:337-342 | the overlapping copy, first byte first, keeps the queue |
| `Buffers.Buffer.Prepend` | muduo/net/Buffer.h:289-296 | adds bytes at the front, within the real headroom |
| `Buffers.Buffer.Shrink` | muduo/net/Buffer.h:299-306 | reallocates without changing the queue, and leaves the reserve |
| `Buffers.Buffer.ReadFd` | muduo/net/Buffer.cc:17-52 | a scattered read adds all its bytes at the back, spilled or not; a failed one changes nothing |
| `Buffers.Buffer.AppendInt32` | muduo/net/Buffer.h:200-204 | adds the big-endian encoding at the back |
| `Buffers.Buffer.PeekInt32` | muduo/net/Buffer.h:246-252 | decodes the first four bytes |
| `Buffers.Buffer.ReadInt32` | muduo/net/Buffer.h:221-226 | decodes and drops the first four bytes |
| `Buffers.Buffer.PrependInt32` | muduo/net/Buffer.h:272-276 | adds the big-endian encoding at the front |
| `Buffers.PrependThenRead` | muduo/net/Buffer.h:221-276 | a prepended integer reads back and leaves the queue as it was |
| `Buffers.Replay` | muduo/net/Buffer.h:93-345 | over every sequence of appends, prepends, reads, retrievals and shrinks whose own assertions hold, the readable bytes are the byte queue and headroom and tail are exactly those of the layout |
| `Buffers.LayoutIsQueue` | muduo/net/Buffer.h:93-345 | whatever the layout does, its readable bytes are the byte queue |
| `Wire.DecodeEncodeInt` | muduo/net/Buffer.h:200-276 | big-endian integers of any width and sign decode to themselves |
| `Wire.EncodeDecodeInt` | muduo/net/Buffer.h:200-276 | and every byte string is the encoding of what it decodes to |
| `Wire.BytesByPower` | muduo/net/Buffer.h:200-204 | each byte is the digit of its power of 256, most significant first |
| `Wire.ValueByPower` | muduo/net/Buffer.h:246-252 | the first byte counts 256 to the power of how many follow |
| `Wire.SignBit` | muduo/net/Buffer.h:200-252 | the first byte is 128 or more exactly for a negative integer |
| `Wire.FirstCRLFExtends` | muduo/net/Buffer.h:76-80 | a CRLF once found stays the first however the stream goes on |
| `Calendar.DateRoundTripIff` | muduo/base/Date.cc:20-42 | decoding inverts encoding on a valid date exactly from 1 March 4801 BC on |
| `Calendar.DateRoundTrip` | muduo/base/Date.cc:20-42 | on the range decoding inverts encoding |
| `Calendar.NumberRoundTrip` | muduo/base/Date.cc:29-42 | every number of the range decodes to a valid date with that number |
| `Calendar.ConsecutiveDays` | muduo/base/Date.cc:20-27 | consecutive days under the 4/100/400 rule have consecutive numbers |
| `Calendar.DecodeFitsInt32` | muduo/base/Date.cc:29-42 | no int on the way of decoding overflows up to the last day number |
| `Calendar.DecodeOverflows` | muduo/base/Date.cc:32-32 | and the next day number overflows |
| `Calendar.EncodeFitsInt32` | muduo/base/Date.cc:20-27 | no int on the way of encoding, each partial sum included, overflows up to the year 5,800,000 |
| `Calendar.EpochNumber` | muduo/base/Date.cc:44-44 | the day number of 1 January 1970 |
| `CInt.Truncates` | muduo/base/Date.cc:20-42 | the division of the model rounds toward zero and its remainder has the sign of the dividend, as in C++ |
| `Calendar.SplitSeconds` | muduo/base/TimeZone.cc:315-321 | truncating division and its correction split every second, negative too, into a day and a second of the day |
| `Calendar.FillHms` | muduo/base/TimeZone.cc:71-77 | hours, minutes and seconds in range that add up |
| `Calendar.UtcFields` | muduo/base/TimeZone.cc:315-328 | date, hour, minute and second are those of the day and the second of the day |
| `Calendar.EpochFields` | muduo/base/TimeZone.cc:310-336 | the fields of second 0 and of second -1 |
| `Calendar.UtcRoundTrip` | muduo/base/TimeZone.cc:310-351 | fromUtcTime inverts toUtcTime for positive and negative seconds, and the fields are a real date and time |
| `Calendar.UtcRoundTripInt32` | muduo/base/TimeZone.cc:310-351 | from the first to the last second of the range no int overflows, the cast of the day count and the day of the year included, and the second comes back |
| `Calendar.TmRoundTrip` | muduo/base/TimeZone.cc:310-351 | and toUtcTime inverts fromUtcTime on every valid date and time |
| `Calendar.YdayIff` | muduo/base/TimeZone.cc:330-334 | tm_yday is the day of the year counted by the calendar exactly outside the year -4800, where it is one short |
| `Calendar.DaysIntoYear` | muduo/base/Date.cc:20-27 | from 1 January on, day numbers count the days of the year |
| `Calendar.WeekdayIff` | muduo/base/TimeZone.cc:328-328 | tm_wday is the day of the week exactly from day number -1 on, and on the Sundays before it |
| `Calendar.WeekdaysCycle` | muduo/base/TimeZone.cc:328-328 | the day of the week goes round with the day number, and 1 January 1970 is a Thursday |
| `TimeZones.LowerBound` | muduo/base/TimeZone.cc:229-232 | the binary search splits the transitions at the key |
| `TimeZones.FindLocaltime` | muduo/base/TimeZone.cc:218-250 | the search and its corrections agree with a linear scan for the last transition at or before the key |
| `TimeZones.LocalFields` | muduo/base/TimeZone.cc:265-285 | local time is the UTC time of the second moved by the offset in force, and says which offset that is |
| `TimeZones.LocalConverts` | muduo/base/TimeZone.cc:287-308 | any local time converts by the offset in force at it, an hour further back exactly when it is marked as daylight time and standard time shows the same hour and minute |
| `TimeZones.LocalTimeRoundTrip` | muduo/base/TimeZone.cc:265-308 | in a regular zone with an hour's shift, local time converts back to the second it came from, in both passes of the repeated hour too |
| `TimeZones.LocalTimeReturns` | muduo/base/TimeZone.cc:287-308 | for any shift: what comes back, second by second |
| `TimeZones.RoundTripIffHour` | muduo/base/TimeZone.cc:296-306 | a zone with a daylight season round-trips everywhere exactly when its shift is an hour |
| `LogStreams.DecimalMeaning` | muduo/base/LogStream.cc:30-50 | the text is canonical and denotes the value |
| `LogStreams.CanonicalUnique` | muduo/base/LogStream.cc:30-50 | and no other canonical text denotes it |
| `LogStreams.DecimalLength` | muduo/base/LogStream.cc:30-50 | at most 20 characters for every 64-bit value |
| `LogStreams.DigitTable` | muduo/base/LogStream.cc:37-39 | a negative C remainder picks the digit of the absolute value |
| `LogStreams.ReverseRange` | muduo/base/LogStream.cc:47-47 | reverses the range in place and touches nothing else |
| `LogStreams.WriteDigits` | muduo/base/LogStream.cc:35-40 | the loop writes the digits backwards, for negative values too |
| `LogStreams.Convert` | muduo/base/LogStream.cc:30-50 | writes the canonical text and a NUL, the most negative value included |
| `LogStreams.LogStream.Append` | muduo/base/LogStream.h:38-46 | adds all of the text or none, and leaves a character to spare |
| `LogStreams.LogStream.FormatInteger` | muduo/base/LogStream.cc:112-119 | adds the decimal text or nothing, and leaves a character to spare |
| `LogStreams.LogStream.ResetBuffer` | muduo/base/LogStream.h:62-62 | empties the text |
| `LogStreams.LogStream.WriteAll` | muduo/base/LogStream.h:38-62 | under any sequence of string and integer writes the cursor stays strictly inside, and the text is the items that found room, whole |

## Left out

- Sockets, epoll, poll, timerfd, eventfd, readv, write: their results are parameters or nondeterministic steps; the eventfd counter does not overflow.
- Wall clock and floating-point intervals: time is integer microseconds and `now` is an input; clock steps backwards are not modelled. Whether a timer repeats is given beside its interval, since an interval below a microsecond is positive and rounds to none.
- TimerQueue destructor and `readTimerfd` errors.
- The iterator that `cancelInLoop` reads after erasing it (muduo/net/TimerQueue.cc:153-154): the model takes the pointer first.
- EventLoop, AsyncLogging and BoundedBlockingQueue methods are split where a lock is released, because other threads act there; `runInLoop` in the loop thread is a plain call.
- `handleClose` for a connection closed twice by one poll result, and `TcpConnection::handleRead` and `handleError`.
- The high-water and write-complete callbacks are taken to be set.
- HttpObjects.ParseRequest: is entered with a request line or headers expected and no method set before the request line, because the loop does not end otherwise and `setMethod` asserts the rest; `OnMessageReadyIff` says when the server keeps that.
- HTTP receive time, `getHeader`, responses, and several requests in one read.
- RpcObjects.OnMessage: a loop that never ends is watched for any finite number of error callbacks. Error callbacks other than the default one, which does not touch the buffer, are left out.
- Protobuf: serialising and parsing are parameters, and parsing is assumed to invert serialising; zlib is replaced by the definition of ADLER32.
- 16-bit and 8-bit buffer integers: the encoding lemmas are for every width, the methods for 32 bits.
- `Channel::handleEvent`, which acts on the events a channel was told.
- readTimeZoneFile; `gmtime_r` and `timegm` are replaced by the repository's own UTC conversion.
- convertHex, `%g` formatting, Fmt and the logging macros.
- Connector, TcpClient, TcpServer, Acceptor, RpcChannel, LogFile, inspectors and the thread wrappers.
