# Verification of mymuduo

A Dafny model of mymuduo, the one-loop-per-thread network library with its asynchronous logger
and its incremental HTTP parser, and proofs about it.  `dafny verify dfyconfig.toml` checks
everything.

Objects that one thread updates in place are classes: `Buffer` keeps its array and two indices,
`FixedBuffer` its array and cursor, `EPollPoller` and `Channel`, `TimerQueue`, `LogFile` and
`FileUtil`, `TcpConnection` and `HttpConnection` keep the fields their originals have.  Each of
their methods is proved against a function on values, and what the code promises over whole runs
is proved about these functions.  Protocols between threads (the functor queue of an event loop,
the asynchronous logger, the life of a connection across two loops) are state machines: an action
is one step another thread can observe, a run is any sequence of actions, and the results hold for
every run.  Results of system calls, clock readings, arriving bytes and the choice of an I/O loop
are parameters, so every result is for all of them.

| file | content |
|---|---|
| Buffer.dfy | network buffer: in-place compaction and growth, scatter read, refinement of a byte queue |
| EventLoop.dfy | functor queue, eventfd, quit: FIFO, no lost wakeup, progress without the poll timeout |
| TcpConnection.dfy | output path of sends and HTTP responses: stream conservation, deferred shutdown, the failed direct write |
| Poller.dfy | channels, epoll poller and kernel interest set in agreement |
| TcpServer.dfy | life of connections across loops: event dispatch, ownership, states |
| CloseSafety.dfy | exactly when no assertion fails and callbacks come once, in order |
| CloseProgress.dfy | accepted connections come up, ended ones are removed |
| TimerQueue.dfy | timer set, timerfd, expiry batches |
| TimerCancellation.dfy | when cancelling a timer has an effect |
| TimerIntervals.dfy | when timers run: first calls and intervals |
| AsyncLogging.dfy | double-buffered log hand-off between threads |
| LogFile.dfy | write-all loop and file rolling |
| LogStream.dfy | integer formatting in place |
| HttpParser.dfy | incremental request parser, chunking independence, exceptions |
| HttpRequests.dfy, HttpForms.dfy, HttpPosts.dfy | printing and parsing of requests and form bodies |
| HttpResponses.dfy | responses, their framing, one message |
| HttpSessions.dfy | whole sessions: which requests are answered |
| HttpBoundaries.dfy | where a refused request leaves the input buffer |
| HttpAnswers.dfy | what a client reads, in literals |
| HttpConnection.dfy | the connection object over the network buffer |

Where the code does not do what it is meant to, the code is modelled as it is, the exact condition
is proved, and an input that shows the failure is given:

- a direct write that fails makes `sendInLoop` queue from one byte before the message
  (`TcpOutput.StreamConservedExactly`, `TcpOutput.FailedWriteShiftsMessage`);
- a shutdown shuts the socket over output that a close or a late response has left behind
  (`TcpOutput.ShutOnlyWhenDrained`, `TcpOutput.ShutAfterCloseDropsOutput`);
- an HTTP response built after `shutdown()` is stranded unless the channel is still writing
  (`TcpOutput.StreamConserved`, `TcpOutput.ReplyAfterShutdownIsStranded`);
- a functor the loop thread queues before `loop()` is not announced (`TaskQueue.NoWakeupIsLost`,
  `TaskQueue.QueuedBeforeLoopIsNotAnnounced`);
- a quit before `loop()` is forgotten, because `loop()` clears the flag (`TaskQueue.QuitEndsLoop` is for
  one that follows it, `TaskQueue.EarlyQuitIsForgotten`);
- `TimerQueue::insert` never fills `activeTimers_`, so a cancelled timer is silent from then on
  exactly when its turn in the batch being run has come; one whose turn is still to come runs in
  this batch, one outside the batch in a later one (`TimerCancellation.CancelSilencesExactly`,
  `TimerCancellation.CancelStopsExactly`, `TimerCancellation.CancelHasEffect`,
  `TimerCancellation.CancelledPendingTimerRuns`, `TimerCancellation.CancelledBeforeItsTurnRuns`);
- one event dispatch can enter `handleClose` twice: its assertion fails and DOWN is called twice
  (`CloseSafety.NoAssertionFails`, `CloseSafety.CallbacksOnceInOrder`, `CloseSafety.DoubleCloseHappens`);
- a log line as long as a large buffer is dropped, and lines appended after the writer's last swap
  are lost at stop (`AsyncLogging.LogConserved`, `AsyncLogging.StoppedLog`,
  `AsyncLogging.LineAfterTheLastSwapIsLost`);
- a message is answered at most once, so the second of two requests that arrive together waits for
  a further message, and the replies depend on how the bytes are split (`HttpSessions.SecondOfTwo`,
  `HttpSessions.RepliesDependOnChunking`, `HttpSessions.PipelinedRequestIsNotAnswered`);
- a request whose head has a refused line is answered before its end, and the lines behind that line
  are read as the next request (`HttpBoundaries.BoundaryExactly`, `HttpBoundaries.LinesBehindAreARequest`);
- a percent escape in a form is stored as decimal text, so a form survives exactly when nothing in it
  is escaped (`HttpForms.EscapedForm`, `HttpForms.EscapedPair`);
- `resetState` keeps the stored form values, so a login form without credentials is welcomed after an
  earlier login (`HttpPosts.IndependentExactly`, `HttpPosts.EarlierLoginCounts`);
- a negative Content-Length makes the server wait for almost 2^64 bytes (`HttpRequests.NegativeLengthWaits`);
- a page that is empty cannot be mapped and a Content-Length that is no int throws; both end the
  server (`HttpResponses.DiesExactly`, `HttpParser.ThrowsExactly`, `HttpSessions.EmptyPageKillsServer`,
  `HttpSessions.BadLengthKillsServer`).

## Model

| member | source | states |
|---|---|---|
| TaskQueue.FifoExactlyOnce | src/net/EventLoop.cc:96-128 | in every interleaving, started functors, then the rest of the batch, then the pending list are all functors enqueued so far in lock order; a quit stored by another thread during the poll has its wakeup |
| TaskQueue.NoWakeupIsLost | src/net/EventLoop.cc:68-128 | every run of a loop from its top polls with pending functors only when the eventfd is positive or a thread still owes its wakeup, if and only if at the start the list is empty or a wakeup is on its way |
| TaskQueue.NoWakeupIsLostFromTheStart | src/net/EventLoop.cc:68-128 | from construction on, every run in which the loop thread pushes nothing before loop() keeps all wakeups, whatever other threads push before and after |
| TaskQueue.QueuedBeforeLoopIsNotAnnounced | src/net/EventLoop.cc:111-120 | the excluded start is reached when the loop thread queues before loop() |
| TaskQueue.EveryBatchRunsAll | src/net/EventLoop.cc:181-195 | in every run, when the batch taken by a swap has ended, everything enqueued before that swap has been executed, in order |
| TaskQueue.EveryFunctorCanRun | src/net/EventLoop.cc:76-91 | from every state of a running loop there is a run of its own steps and owed wakeups alone that executes everything enqueued so far, with no poll timeout and no other event |
| TaskQueue.StepKeepsBase | src/net/EventLoop.cc:173-195 | each atomic step of any thread keeps the FIFO equation, the flag discipline and the quit guarantee |
| TaskQueue.StepKeepsCovered | src/net/EventLoop.cc:181-195 | from the swap to the next dispatch, a non-empty list keeps its wakeup through every step |
| TaskQueue.EveryCheckAfterQuitStops | src/net/EventLoop.cc:76-101 | once a started loop has been asked to quit, by its own thread or another, every test of the flag stops it |
| TaskQueue.QuitEndsLoop | src/net/EventLoop.cc:68-101 | from every such point the loop's own steps and the wakeups still owed lead to the end of loop(), with no poll timeout |
| TaskQueue.NoQuitNoStop | src/net/EventLoop.cc:68-101 | without a quit the loop never stops |
| TaskQueue.EarlyQuitIsForgotten | src/net/EventLoop.cc:68-76 | a quit before loop() is cleared and the loop polls |
| TaskQueue.WakeupEndsOnePoll | src/net/EventLoop.cc:173-179 | after the read of the eventfd the poll does not return for it until another wakeup is written |
| NetBuffer.Buffer.constructor | src/net/Buffer.h:18-20 | an empty queue in a fresh array with eight bytes in front |
| NetBuffer.Buffer.Retrieve | src/net/Buffer.h:31-42 | the queue loses exactly its first bytes; indices stay in range |
| NetBuffer.Buffer.RetrieveUntil | src/net/Buffer.h:43-47 | the queue loses the bytes before the given array position |
| NetBuffer.Buffer.RetrieveAll | src/net/Buffer.h:48-51 | the queue becomes empty |
| NetBuffer.Buffer.RetrieveAsString | src/net/Buffer.h:55-60 | returns the first bytes and removes exactly them |
| NetBuffer.Buffer.EnsureWritableBytes | src/net/Buffer.h:61-67 | makes room without touching the queue; the array grows at most to readable + 2 len + 7 |
| NetBuffer.Buffer.Append | src/net/Buffer.h:68-72 | the queue gains exactly the bytes, whichever way room was made |
| NetBuffer.Buffer.HasWritten | src/net/Buffer.h:73-76 | the queue gains what lies behind the writer index |
| NetBuffer.Buffer.FindCRLF | src/net/Buffer.h:83-86 | finds the first CR LF of the queue, or none if and only if there is none |
| NetBuffer.Buffer.MakeSpace | src/net/Buffer.h:110-122 | keeps the queue and leaves len writable bytes; compacts if and only if everything fits, and then the reader index was above eight |
| NetBuffer.Buffer.MoveToFront | src/net/Buffer.h:115-120 | the overlapping copy to the left keeps the readable bytes |
| NetBuffer.Buffer.ReadFd | src/net/Buffer.cc:21-58 | adds exactly the bytes read, in order, across the tail and the overflow area; nothing on failure |
| NetBuffer.Receive | src/net/Buffer.cc:12-58 | a level-triggered reader receives any stream whole, however the reads split it |
| NetBuffer.Replay | src/net/Buffer.h:31-79 | after any run of appends, receives, failing reads and both kinds of retrieve the array holds what a plain queue holds |
| NetBuffer.FirstCrlfStable | src/net/Buffer.h:83-86 | a CR LF once found stays the first one as bytes arrive |
| TcpOutput.TcpConnection.constructor | src/net/TcpConnection.cc:22-41 | a connecting connection with nothing accepted, queued or sent |
| TcpOutput.TcpConnection.DoSendInLoop | src/net/TcpConnection.cc:80-112 | the buffer-backed object does the value step for every result of the direct write, failure included |
| TcpOutput.TcpConnection.DoHandleWrite | src/net/TcpConnection.cc:190-215 | moves the taken bytes from queue to wire, ends write interest when drained, then carries out a deferred shutdown |
| TcpOutput.TcpConnection.DoSendBuffer | src/net/TcpConnection.cc:73-78 | sends the bytes of the connection's own output buffer, only while connected |
| TcpOutput.TcpConnection.DoRespond | src/http/HttpConnection.cc:91-92 | appends a response to the output buffer, then sends the buffer |
| TcpOutput.TcpConnection.DoShutdown | src/net/TcpConnection.cc:114-120 | only a connected connection starts disconnecting |
| TcpOutput.TcpConnection.DoShutdownInLoop | src/net/TcpConnection.cc:122-128 | shuts the socket only when not writing |
| TcpOutput.TcpConnection.DoHandleClose | src/net/TcpConnection.cc:217-228 | disconnected, no interest left, bytes untouched |
| TcpOutput.TcpConnection.DoConnectEstablished | src/net/TcpConnection.cc:130-139 | connected and reading, bytes untouched |
| TcpOutput.TcpConnection.DoConnectDestroyed | src/net/TcpConnection.cc:141-149 | a still connected connection is disconnected, any other is left alone |
| TcpOutput.StreamConserved | src/net/TcpConnection.cc:80-128 | over every run of sends and HTTP responses with any partial writes: if no direct write failed, wire followed by queue is the concatenation of what was accepted; a deferred shutdown is carried out; write interest holds exactly while output is pending, all along, if and only if no response is stranded |
| TcpOutput.WritableDrains | src/net/TcpConnection.cc:190-215 | writable events that take positive numbers of bytes put exactly their sum on the wire; with the last byte write interest ends and a deferred shutdown is carried out; nothing else changes |
| TcpOutput.EverythingGoesOut | src/net/TcpConnection.cc:190-215 | while there is write interest, a write of all the output has everything accepted so far on the wire |
| TcpOutput.SendParts | src/net/TcpConnection.cc:80-112 | an idle connection writes as much as the socket takes and queues the rest; a busy one queues all |
| TcpOutput.ReadsWhileOpen | src/net/TcpConnection.cc:130-149 | over every run the channel has read interest exactly while the connection is open |
| TcpOutput.EndIsFinal | src/net/TcpConnection.cc:217-228 | after a close, or a destroy while connected, the connection stays down and no byte reaches the wire |
| TcpOutput.ShutdownIsFinal | src/net/TcpConnection.cc:114-120 | after a shutdown call an established connection is never connected again |
| TcpOutput.StreamConservedExactly | src/net/TcpConnection.cc:80-112 | the stream of a run survives, whatever bytes lie in front of its messages, if and only if no attempted direct write of a non-empty message fails |
| TcpOutput.FailedWriteShiftsMessage | src/net/TcpConnection.cc:87-111 | a run whose first write fails and queues the byte in front of the message |
| TcpOutput.RunKeepsTidy | src/net/TcpConnection.cc:190-228 | interest, deferred shutdown and, without failed writes, conservation from any good state, over any sequence of events |
| TcpOutput.RunKeepsInterest | src/net/TcpConnection.cc:190-228 | from any good state, interest follows output through the run if and only if no response of it comes to a disconnecting connection without write interest |
| TcpOutput.ShutOnlyWhenDrained | src/net/TcpConnection.cc:122-128 | the step that shuts the socket finds every accepted byte on the wire, if and only if the events before it left nothing behind: no close met write interest and no response came without it, or a later message took the output up again |
| TcpOutput.ShutAfterCloseDropsOutput | src/net/TcpConnection.cc:114-128 | a run in which a queued shutdown shuts the socket over unsent output after a close |
| TcpOutput.StepConservesExactly | src/net/TcpConnection.cc:87-111 | one message or response keeps the stream, whatever byte precedes it, if and only if no attempted direct write of it failed; it keeps write interest in step with the output if and only if it is no response stranded by a shutdown |
| TcpOutput.ReplyAfterShutdownIsStranded | src/http/HttpConnection.cc:91-94 | a run in which a response is left in the buffer without write interest |
| Poller.Channel.constructor | src/net/Channel.cc:12-14 | a new channel is unknown to poller and kernel and disturbs no other |
| Poller.Channel.EnableReading | src/net/Channel.h:39-42 | read interest on, write interest kept, registered in the kernel with exactly these events, no other descriptor touched |
| Poller.Channel.DisableReading | src/net/Channel.h:43-46 | read interest off, write interest kept, agreement kept |
| Poller.Channel.EnableWriting | src/net/Channel.h:47-50 | write interest on, read interest kept, registered |
| Poller.Channel.DisableWriting | src/net/Channel.h:51-54 | write interest off, read interest kept, agreement kept |
| Poller.Channel.DisableAll | src/net/Channel.h:55-58 | no interest; the descriptor leaves the kernel if and only if it was registered |
| Poller.Channel.Remove | src/net/Channel.cc:31-35 | the channel is unknown to poller and kernel again |
| Poller.EPollPoller.UpdateChannel | src/net/EPollPoller.cc:62-93 | from new events to agreement for every live channel; ADD never meets a known descriptor, MOD and DEL never an unknown one |
| Poller.EPollPoller.RemoveChannel | src/net/EPollPoller.cc:95-109 | erases the entry, and the kernel's where there is one |
| Poller.EPollPoller.Update | src/net/EPollPoller.cc:111-124 | the epoll_ctl call succeeds |
| Poller.EPollPoller.FillActiveChannels | src/net/EPollPoller.cc:49-60 | every reported channel is found in the map, appended in order, with its revents |
| Poller.Replay | src/net/EPollPoller.cc:62-109 | any sequence of interest changes and removals on any channels keeps poller and kernel in agreement |
| Lifecycle.HeldUntilDestroyed | src/net/TcpServer.cc:64-109 | in every run without a failed assertion a connection is held by the map, a queued functor, an executing call or a dispatch, if and only if its channel has not been removed yet |
| CloseSafety.CallbacksOnceInOrder | src/net/TcpConnection.cc:130-149 | UP at most once, DOWN at most once and after UP, both before the channel is gone: always up to the first failed assertion, and for good if and only if no dispatch of the run enters handleClose twice |
| CloseSafety.NoAssertionFails | src/net/TcpConnection.cc:217-228 | no assertion of establish, close, remove and destroy fails in a run or in the statements still to come, if and only if no dispatch of it is a hang-up without POLLIN, with POLLPRI, whose read returns zero |
| CloseSafety.DoubleCloseHappens | src/net/Channel.cc:89-114 | a run with such a dispatch |
| Lifecycle.ErasesExactlyOne | src/net/TcpServer.cc:102-109 | each erase removes exactly one entry |
| Lifecycle.StateMovesForward | src/net/TcpConnection.cc:114-120 | the state only moves forward, whatever the concurrent shutdown calls |
| Lifecycle.StepKeepsInv | src/net/TcpServer.cc:64-109 | each observable step whose assertions hold keeps one lifecycle token per connection, with state, channel, callbacks and dispatches fitting its place |
| Lifecycle.IdleRegisteredIsOpen | src/net/Channel.cc:72-86 | an event finds its connection established and not yet closing |
| Lifecycle.NamesDiffer | src/net/TcpServer.cc:68-74 | for every IPv4 address the name fits the 64-byte buffer untruncated, and different connection numbers give different names |
| Lifecycle.ClosesAtMostOnce | src/net/Channel.cc:89-114 | one dispatch enters handleClose at most twice, and at most once if and only if it is not a hang-up without POLLIN, with POLLPRI or POLLRDHUP, whose read returns zero |
| Lifecycle.EntersExactly | src/net/Channel.cc:89-114 | a dispatch enters handleClose at all, if and only if it is a hang-up without POLLIN, or its read returns zero |
| Lifecycle.DispatchMakes | src/net/Channel.cc:89-114 | which callbacks a dispatch makes, for every set of events |
| Lifecycle.DispatchOrder | src/net/Channel.cc:89-114 | each at most once, in the order close, error, read, write; POLLOUT always reaches the write callback, last |
| Lifecycle.ShutdownIsFinal | src/net/TcpConnection.cc:114-120 | after shutdown() an established connection is never connected again, whatever the other threads do |
| CloseProgress.AcceptedComesUp | src/net/TcpServer.cc:64-96 | from every state without a double close, the loops' own steps register an accepted connection and call UP once |
| CloseProgress.EndOfStreamRemoves | src/net/TcpConnection.cc:171-228 | an event that reports the end of a stream leads, by statements and tasks of the loops alone and past whatever else they have queued, to the removal of the channel, with the connection out of the map and DOWN called once |
| CloseProgress.PeerCloseRemoves | src/net/TcpConnection.cc:171-188 | so does POLLIN alone with a read of zero bytes |
| TimerQueue.TimerQueue.ResetTimerfd | src/net/TimerQueue.cc:20-54 | arms for the expiration, or 100 microseconds ahead when that is later |
| TimerQueue.TimerQueue.InsertTimer | src/net/TimerQueue.cc:157-166 | the set stays ordered and gains exactly the entry; reports if and only if every other timer is later |
| TimerQueue.TimerQueue.AddTimerInLoop | src/net/TimerQueue.cc:85-90 | inserts, and re-arms exactly when the earliest changed |
| TimerQueue.TimerQueue.CancelInLoop | src/net/TimerQueue.cc:92-102 | erases an active timer, marks the identity during callbacks, else nothing |
| TimerQueue.TimerQueue.GetExpired | src/net/TimerQueue.cc:121-132 | takes out exactly the due entries in order and leaves exactly the others |
| TimerQueue.TimerQueue.TakeTime | src/net/TimerQueue.cc:34-43 | reads the clock; the read disarms an expired timerfd and fails on one that was set again meanwhile |
| TimerQueue.TimerQueue.HandleReadBegin | src/net/TimerQueue.cc:104-112 | takes time and batch, clears the marks |
| TimerQueue.TimerQueue.HandleReadEnd | src/net/TimerQueue.cc:116-119 | resets the batch and re-arms |
| TimerQueue.TimerQueue.Reset | src/net/TimerQueue.cc:134-155 | restarts and re-inserts, or deletes, each timer of the batch, then arms for the earliest |
| TimerQueue.DueSplits | src/net/TimerQueue.cc:121-132 | a batch is exactly the entries with expiration at or before now, ascending, and the rest stays sorted |
| TimerQueue.NoTimerForgotten | src/net/TimerQueue.cc:85-155 | in every run, between dispatches, a non-empty set has the timerfd armed exactly for the larger of the earliest expiration and the arming time + 100; once that has come, the poller reports it and handleRead takes the timer |
| TimerQueue.OnePlacePerTimer | src/net/TimerQueue.cc:74-166 | every allocated timer is in exactly one of waiting-to-be-added, the set and the batch; every key is its timer's expiration |
| TimerIntervals.RestartedExactly | src/net/Timer.cc:7-14 | when a batch has been reset, each surviving timer of it is in the set for exactly its interval after the time of the batch, otherwise unchanged; every other timer is as it was |
| TimerIntervals.IntervalsKept | src/net/TimerQueue.cc:104-155 | in every run, a timer is called back only when due, and its earlier callbacks belong to batches taken at least its interval before |
| TimerIntervals.FirstCallIsNotEarly | src/net/TimerQueue.cc:74-90 | a new timer keeps the expiration it was created for until its first callback, which is in no earlier batch |
| TimerIntervals.CallsAreRecorded | src/net/TimerQueue.cc:113-115 | the callbacks of a run are those its history records, in order |
| TimerCancellation.BatchSurvivors | src/net/TimerQueue.cc:137-146 | a timer of the batch is gone after the reset, if and only if it is one-shot or was cancelled during the callbacks |
| TimerCancellation.CancelledNeverRunsAgain | src/net/TimerQueue.cc:92-119 | a timer of the batch cancelled during callbacks never runs after the batch, whoever gets its address |
| TimerCancellation.GoneForever | src/net/Timer.cc:5-14 | a sequence number without a timer never has one again and no callback carries it |
| TimerCancellation.CancelSilencesExactly | src/net/TimerQueue.cc:92-119 | no run after a cancel calls the timer back, if and only if it is in the current batch and its turn there has come |
| TimerCancellation.CancelledBeforeItsTurnRuns | src/net/TimerQueue.cc:104-119 | a run in which a callback cancels the other timer of its batch, which runs all the same |
| TimerCancellation.CancelStopsExactly | src/net/TimerQueue.cc:92-102 | a cancelled timer has no run in which it runs in a later batch, if and only if it is in the current batch |
| TimerCancellation.CancelHasEffect | src/net/TimerQueue.cc:92-119 | every run after a cancel agrees with the run without it on everything but marks, unless and only unless callbacks are being run and the timer is a repeating one of the batch not cancelled before |
| TimerCancellation.RunsAgainExactly | src/net/TimerQueue.cc:134-155 | any allocated timer can run in a later batch, if and only if it is not a one-shot or cancelled timer of the current one |
| TimerCancellation.CancelledPendingTimerRuns | src/net/TimerQueue.cc:92-119 | a run in which a pending timer is cancelled and still runs |
| AsyncLogging.LogConserved | src/logger/AsyncLogging.cc:19-99 | in every interleaving, file, unwritten buffers and producers' buffers are all lines shorter than a large buffer, in order; the file is a prefix of them |
| AsyncLogging.RecyclingIsSafe | src/logger/AsyncLogging.cc:61-93 | no null buffer is used and no empty vector popped; both spares are back, empty, at every loop head; the next buffer is missing only if a full one waits |
| AsyncLogging.EveryLineCanBeWritten | src/logger/AsyncLogging.cc:51-95 | from every state of a running logger the writer's own steps bring every kept line appended so far into the file |
| AsyncLogging.StopEndsWriter | src/logger/AsyncLogging.cc:51-51 | after a stop every test of the flag ends the writer thread |
| AsyncLogging.OnlyStopEnds | src/logger/AsyncLogging.cc:51-51 | without a stop it never ends |
| AsyncLogging.StoppedLog | src/logger/AsyncLogging.cc:51-98 | after the stop the file holds exactly the kept lines of the last swap; it is complete if and only if no kept non-empty line came later |
| AsyncLogging.LineAfterTheLastSwapIsLost | src/logger/AsyncLogging.cc:51-98 | a run in which a line is appended and never written |
| AsyncLogging.AppendExtendsFront | src/logger/FixedBuffer.h:18-23 | an append adds the line to the producers' side, or nothing if it is as long as a buffer |
| AsyncLogging.RecycleSucceeds | src/logger/AsyncLogging.cc:76-95 | both recoveries find a buffer and give it back empty |
| AsyncLogging.StepKeepsInv | src/logger/AsyncLogging.cc:19-95 | each critical section and each writer step succeeds and keeps all of this |
| LogFile.FileUtil.Append | src/logger/FileUtil.cc:16-35 | however the writes split, the file gains exactly the data and the count its length |
| LogFile.LogFile.constructor | src/logger/LogFile.cc:5-12 | one empty file, opened now |
| LogFile.LogFile.RollFile | src/logger/LogFile.cc:60-76 | a new file if and only if the clock has moved since the last one |
| LogFile.LogFile.AppendUnlocked | src/logger/LogFile.cc:25-48 | the object does the value step for every clock reading and every split of the writes |
| LogFile.RollingConserves | src/logger/LogFile.cc:25-76 | files in order of creation are the appended records; none is split; roll times strictly increase; the period start is the day of the last roll |
| LogFile.CountIsFitting | src/logger/LogFile.cc:31-34 | the counter is the number of records that fitted their file, modulo the distance of the checks, over every run |
| LogFile.RollsExactlyWhen | src/logger/LogFile.cc:25-48 | with a clock that does not run backwards a file is left if and only if it has no room and time has moved, or the record is the one of a periodic check and a new day has come |
| LogFile.FlushesExactlyWhen | src/logger/LogFile.cc:33-45 | when and where the time of the last flush moves; behind a periodic check it is no older than the flush interval |
| LogFile.NewDayLeavesFile | src/logger/LogFile.cc:25-48 | among as many records as lie between two checks, all dated after the day of the last roll, one leaves the file |
| LogFile.SecondDayEndsFile | src/logger/LogFile.cc:25-48 | two records a day apart with a check every second record |
| LogStream.FixedBuffer.Append | src/logger/FixedBuffer.h:18-23 | appends what leaves a byte free, else nothing |
| LogStream.FixedBuffer.EmitDigits | src/logger/LogStream.cc:9-22 | the do-while loop writes the digits last one first, for every 64-bit value, without negating it |
| LogStream.FixedBuffer.Reverse | src/logger/LogStream.cc:26-26 | the range is reversed in place, the rest untouched |
| LogStream.FixedBuffer.FormatInteger | src/logger/LogStream.cc:7-29 | appends the decimal text of any signed or unsigned 64-bit value, or nothing when less than 48 bytes are free |
| LogStream.DecimalRoundTrip | src/logger/LogStream.cc:6-29 | the text is canonical and reads back as the number |
| LogStream.ParseRoundTrip | src/logger/LogStream.cc:6-29 | every canonical text is the text of its value |
| LogStream.DecimalFits | src/logger/LogStream.cc:8-27 | digits, sign and NUL of any 64-bit value fit the 48 bytes |
| LogStream.TruncAbs | src/logger/LogStream.cc:6-19 | truncating division, negative remainder and the digit table agree with the decimal digits |
| HttpParser.ChunkingIndependence | src/http/HttpConnection.cc:100-233 | for any bytes and any split into chunks, the first verdict, the parsed fields and the unconsumed bytes are those of parsing at once |
| HttpParser.Resume | src/http/HttpConnection.cc:100-151 | parsing interrupted after any byte and resumed gives the same result |
| HttpParser.WaitsOnlyWhenItMust | src/http/HttpConnection.cc:104-114 | more bytes are asked for only without a complete line or a complete body; nothing is read twice |
| HttpParser.ThrowsExactly | src/http/HttpConnection.cc:186-198 | an exception leaves the parser if and only if a head whose Content-Length is no int has been read up to its blank line |
| HttpParser.BodyDecides | src/http/HttpConnection.cc:209-233 | a complete body always decides the request |
| HttpParser.BodyKeepsSane | src/http/HttpConnection.cc:209-218 | the body is always exactly as long as announced: too short and too long never happen |
| HttpParser.ParseKeepsSane | src/http/HttpConnection.cc:100-233 | the parser state between calls always satisfies the assertion of the body phase |
| HttpParser.NormalisedPath | src/http/HttpConnection.cc:166-170 | the root becomes the index page, a target without a dot gets the suffix .html, any other is kept; a path is a fixed point |
| HttpParser.UserVerify | src/http/HttpConnection.cc:309-328 | when the form is accepted the stat buffer describes the new path; method, header and body are untouched |
| HttpRequests.RequestLineMatches | src/http/HttpConnection.cc:155-163 | the request-line pattern finds the three words of a printed line |
| HttpRequests.RequestLineOnly | src/http/HttpConnection.cc:155-160 | whatever the pattern accepts is three words in that form |
| HttpRequests.HeaderMatches | src/http/HttpConnection.cc:199-205 | the header pattern finds name and value of a printed field, any number of spaces between |
| HttpRequests.HeaderExactly | src/http/HttpConnection.cc:199-205 | the header pattern accepts exactly the lines made of a name, a colon, any spaces and a value |
| HttpRequests.ScanReads | src/http/HttpConnection.cc:189-190 | both conversions read white space, a sign and digits, and ignore what follows |
| HttpRequests.NegativeLengthWaits | src/http/HttpConnection.cc:104-110 | a negative Content-Length makes the parser wait for as many bytes as size_t makes of it |
| HttpRequests.RequestRoundTrip | src/http/HttpConnection.cc:100-233 | every well-formed request for a servable resource, followed by anything, is read back with normalised path and last-wins headers, and exactly what follows is left |
| HttpRequests.RequestThrows | src/http/HttpConnection.cc:186-198 | a printed request for a servable resource throws if and only if its last Content-Length cannot be converted |
| HttpRequests.DecimalLengthIsRead | src/http/HttpConnection.cc:189-190 | a printed length is read back by both conversions |
| HttpForms.FormRoundTrip | src/http/HttpConnection.cc:254-307 | the decoder accepts every printed form and stores exactly its pairs, the last of each key, on top of earlier ones |
| HttpForms.EscapedForm | src/http/HttpConnection.cc:254-307 | a form in which any characters are escaped, in digits of either case, is accepted with the decimal text of every escape stored; its pairs are the ones meant if and only if nothing is escaped |
| HttpForms.EscapedPair | src/http/HttpConnection.cc:279-287 | the map stored for one pair is the one meant if and only if nothing in it is escaped |
| HttpForms.CutEscapeRejects | src/http/HttpConnection.cc:254-307 | a form whose last pair has a cut-off escape is rejected whole, with exactly the pairs of the accepted form before it stored |
| HttpForms.HalfPairRejects | src/http/HttpConnection.cc:265-306 | a form with a pair whose key or value is empty is rejected there, with exactly the pairs of the accepted form before it stored |
| HttpForms.KeyAloneRejects | src/http/HttpConnection.cc:265-306 | so is one with a key without an equals sign |
| HttpForms.AcceptedThen | src/http/HttpConnection.cc:254-307 | forms joined by an ampersand decode one after the other |
| HttpPosts.UserVerifyVerdict | src/http/HttpConnection.cc:309-328 | which page answers a form; no stored value is changed by asking, only missing credentials appear as empty |
| HttpPosts.FormRequestRoundTrip | src/http/HttpConnection.cc:209-328 | the bytes of a form request are consumed exactly; method, version, headers and body are read back; its pairs are stored on top of earlier ones and decide the page |
| HttpPosts.PostWithoutType | src/http/HttpConnection.cc:235-252 | a POST body without Content-Type is a bad request, consumed exactly, with nothing stored |
| HttpPosts.PostOfOtherType | src/http/HttpConnection.cc:235-252 | a body of another type is not looked at; what is stored already decides the page |
| HttpPosts.IndependentExactly | src/http/HttpConnection.cc:309-328 | the page for a form is independent of earlier requests, if and only if it is no login or the form gives both credentials or a wrong one |
| HttpPosts.FormPostIsFormRequest | src/http/HttpConnection.cc:209-252 | the request a client prints for a form is one the round trip is about |
| HttpPosts.EarlierLoginCounts | src/http/HttpConnection.cc:431-442 | a form without credentials is refused on a new connection and welcomed after a login |
| HttpResponses.ResponseFramed | src/http/HttpConnection.cc:330-429 | a message is answered if and only if its request is decided without exception and the page can be mapped; head and Content-Length are right and the whole page follows |
| HttpResponses.DiesExactly | src/http/HttpConnection.cc:84-98 | the server dies of a message if and only if a bad length is met or the deciding page cannot be mapped |
| HttpAnswers.MissingIsNotFound | src/http/HttpConnection.cc:171-178 | for a missing resource or a directory the client reads HTTP/1.1 404 Not Found and /404.html |
| HttpAnswers.UnreadableIsForbidden | src/http/HttpConnection.cc:179-183 | for one that others may not read, HTTP/1.1 403 Forbidden and /403.html |
| HttpAnswers.BadStartIsBadRequest | src/http/HttpConnection.cc:153-160 | for a refused start line, HTTP/1.1 400 Bad Request and /400.html |
| HttpAnswers.BadHeaderIsBadRequest | src/http/HttpConnection.cc:199-207 | for a refused header line, the same |
| HttpAnswers.ServableIsServed | src/http/HttpConnection.cc:366-403 | for a servable resource, HTTP/1.1 200 OK, the connection lines, type and length in literals, and its own page |
| HttpAnswers.HtmlTypes | src/http/HttpConnection.cc:53-73 | html and xhtml pages get their types |
| HttpAnswers.TextTypes | src/http/HttpConnection.cc:53-73 | so do xml and txt |
| HttpAnswers.DocumentTypes | src/http/HttpConnection.cc:53-73 | rtf, pdf and doc |
| HttpAnswers.PictureTypes | src/http/HttpConnection.cc:53-73 | png and gif |
| HttpAnswers.JpegTypes | src/http/HttpConnection.cc:53-73 | jpg and jpeg |
| HttpAnswers.MpegTypes | src/http/HttpConnection.cc:53-73 | mpeg and mpg |
| HttpAnswers.MediaTypes | src/http/HttpConnection.cc:53-73 | au and avi |
| HttpAnswers.ArchiveTypes | src/http/HttpConnection.cc:53-73 | gz and tar |
| HttpAnswers.StyleTypes | src/http/HttpConnection.cc:53-73 | css and js |
| HttpAnswers.UnknownType | src/http/HttpConnection.cc:386-397 | a longer suffix than any in the table is plain text |
| HttpSessions.SessionFramed | src/http/HttpConnection.cc:84-98 | every response of every session, over any chunks, is framed and carries a whole page |
| HttpSessions.AtMostOneReplyPerChunk | src/http/HttpConnection.cc:84-98 | no session has more replies than messages |
| HttpSessions.SecondOfTwo | src/http/HttpConnection.cc:84-98 | of two requests in one message the second is answered if and only if the first asks for keep-alive, both pages can be mapped and a further message arrives |
| HttpSessions.OneReplyPerMessage | src/http/HttpConnection.cc:84-98 | of any number of waiting keep-alive requests each further message answers exactly the next |
| HttpSessions.RepliesLag | src/http/HttpConnection.cc:84-151 | a stream of keep-alive requests split in any way: the replies are those to the first requests in order, one more with each message that finds the next one whole |
| HttpSessions.CountLast | src/http/HttpConnection.cc:84-98 | their number after a message is the smaller of one more than before and the requests received whole |
| HttpBoundaries.BoundaryExactly | src/http/HttpConnection.cc:100-151 | the message that decides a request leaves the buffer at its end, if and only if no line of its head is refused |
| HttpBoundaries.RefusedLeavesLines | src/http/HttpConnection.cc:84-98 | after a refused line exactly the lines behind it are left, and a kept-alive connection starts over with them |
| HttpBoundaries.LinesBehindAreARequest | src/http/HttpConnection.cc:84-98 | lines behind a refused one that read like a request are answered like one |
| HttpSessions.RepliesDependOnChunking | src/http/HttpConnection.cc:84-98 | the same two requests get two replies in two messages and one reply in one |
| HttpSessions.FinishedRepeats | src/http/HttpConnection.cc:91-97 | after a reply without keep-alive every further message builds the same page again and reads no request |
| HttpSessions.PipelinedRequestIsNotAnswered | src/http/HttpConnection.cc:84-98 | the home page asked for twice in one message is sent once |
| HttpSessions.EmptyPageKillsServer | src/http/HttpConnection.cc:405-429 | a request for an empty page ends the server |
| HttpSessions.BadLengthKillsServer | src/http/HttpConnection.cc:186-198 | so does a Content-Length that is no number |
| HttpResponses.ParseKeepsDescribed | src/http/HttpConnection.cc:166-183 | whenever a path has been chosen, the stat buffer describes it |
| HttpResponses.SuffixIsFromLastDot | src/http/HttpConnection.cc:386-397 | the suffix looked up is what follows the last dot |
| HttpConnection.HttpConnection.constructor | src/http/HttpConnection.cc:80-82 | a parser at the request line with nothing stored |
| HttpConnection.HttpConnection.ResetState | src/http/HttpConnection.cc:431-442 | a fresh parser that keeps the stored form values |
| HttpConnection.HttpConnection.DoParseRequestLine | src/http/HttpConnection.cc:153-184 | the object does the value step for a request line |
| HttpConnection.HttpConnection.DoParseRequestHeader | src/http/HttpConnection.cc:186-207 | the object does the value step for a header line |
| HttpConnection.HttpConnection.DoParseRequestBody | src/http/HttpConnection.cc:209-233 | the object does the value step for a body |
| HttpConnection.HttpConnection.ParseFromUrlEncode | src/http/HttpConnection.cc:254-307 | the scanning loop stores what the recursive decoder stores and reports the same errors |
| HttpConnection.HttpConnection.DoParsePost | src/http/HttpConnection.cc:235-252 | the object does the value step for a POST body |
| HttpConnection.HttpConnection.DoUserVerify | src/http/HttpConnection.cc:309-328 | the object does the value step for the answer to a form |
| HttpConnection.HttpConnection.ParseRequest | src/http/HttpConnection.cc:100-151 | the loop over the network buffer returns the verdict, fields and unread bytes of the parse function, and terminates |
| HttpConnection.HttpConnection.InitResponse | src/http/HttpConnection.cc:338-364 | status and page for a verdict; fails if and only if the error page is missing |
| HttpConnection.HttpConnection.MakeResponseHead | src/http/HttpConnection.cc:366-403 | appends status line and header lines and decides keep-alive |
| HttpConnection.HttpConnection.MakeResponseBody | src/http/HttpConnection.cc:405-429 | appends the page; fails if and only if it cannot be opened or mapped |
| HttpConnection.HttpConnection.MakeResponse | src/http/HttpConnection.cc:330-336 | appends exactly the response of the value function |
| HttpConnection.HttpConnection.ProcessMessage | src/http/HttpConnection.cc:84-98 | waits, replies or dies as the value function says, with its parser, unread bytes and response; at most one request is read |

## Left out

- EventLoop, AsyncLogging and TcpServer are modelled as steps on values, because the results are about every interleaving of several threads; buffers moved by unique_ptr in the logger are values, which no aliasing could tell apart.
- LogFile.FileUtil.Append: requires that the results of fwrite add up to the length, because the loop does not leave on an error.
- TcpOutput: write-complete callbacks, the high-water mark and the input buffer of a connection; the channel is its two interest flags here, its registration is in Poller.dfy.
- CloseSafety.NoAssertionFails: a run goes on after a failed assertion, with the erase that stands inside an assertion carried out; the default build stops there.
- Lifecycle.HeldUntilDestroyed: is about runs without forceClose and without destruction of the server; functors that carry a raw `this` are not counted as references.
- Lifecycle.NamesDiffer: the connection counter does not overflow; after 2^31 connections the code's int does.
- TimerQueue: time is one monotone clock in integer microseconds; the code reads the wall clock and arms a monotonic timer. Between the poller's report and handleRead, and between two callbacks of a batch, any timers may be added and cancelled; the callbacks themselves are not modelled.
- HttpParser: the two regular expressions are written out as functions; a NUL byte inside a path, which ends the name the system calls see, is not modelled.
- HttpSessions.SecondOfTwo: is about requests other than POST with a body; what a session counts is responses appended to the output buffer, which TcpConnection.dfy sends or strands.
- HttpResponses: the file system does not change while a request is parsed and answered.
- runInLoop from the loop thread, which is a plain call.
- Acceptor, Socket, InetAddress, thread start-up and the round-robin choice of a loop: wrappers; their results are parameters.
- Connector and TcpClient: removing an active channel during dispatch stops at an assertion, so there is no run to describe.
- Timestamp, floating-point and log-line formatting: library formatting.
