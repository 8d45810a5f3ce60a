# Verified model of the application framework daemon's core

Dafny 4.11 models of the small engines in the C core of the daemon, and proofs of what
each of them owes. `dafny verify dfyconfig.toml` checks everything.

The engines and their files:

- **Grouped job scheduler** (`src/afb-thread.c`). `JobQueue` and `Scheduler` describe it
  as a transition system with one step per critical section, plus waiting, signals,
  spurious wake-ups and joins; `SchedulerSafety` has the invariant,
  `SchedulerTheorems` what follows from it, `SchedulerCalls` what a submission and a worker do
  in every run and `SchedulerEnd` the termination. `ThreadPool` is the code over its own
  variables, proved step by step against the transition system.
- **Event subscriptions and their remote mirror** (`src/afb-evt.c`,
  `src/afb-api-ws.c`). `EventHub` describes events, listeners and the doubly threaded
  watches; `EventOps` the operations and their callbacks; `EventTrace` whole runs;
  `EventBalance` ties what listeners get to what was asked; `EventBroker` is the code
  in place. `EventTable` is the table a remote client rebuilds from messages, `Mirror` the system of server, first-in first-out link and client, and
  `MirrorBytes` the same over the bytes sent; `MirrorNotes` and `MirrorPackets` tell that
  everything arrives, once and in order.
- **WebSocket framing and reassembly** (`src/websock.c`, `src/afb-ws.c`), sections 5.2 to
  5.4 of RFC 6455. `Frames` has headers and masking, `FrameSender` the sender, `Wire` a
  machine that takes one byte at a time, `WireTrace` what a would-block does to it,
  `WireBlocks`, `WireMessages` and `WireReassembly` what it does on blocks, frames and
  messages. `WireDispatch` is the resumable code, proved to refine the machine on
  everything that reads can meet; `WireFaults` tells which streams end in a fault,
  `WireEndToEnd` joins the sender to the reader. `FrameFormat` writes frames out byte by byte.
- **Message codecs**. `Bytes`, `Words`, `ApiCodec`, `ApiMessages`, `ApiFormat`, `ApiBuffers` and
  `ApiHandlers` for the binary messages of `src/afb-api-ws.c`; `Wsj1Scan`, `Wsj1Text`, `Wsj1Grammar`,
  `Wsj1Messages`, `Wsj1Json` and
  `Wsj1InPlace` for the scanner and printer of `src/afb-wsj1.c`; `Pending`, `PendingRuns` and
  `PendingTables` for the names of pending calls in both.
- **Locale lookup** (`src/locale-root.c`). `LocaleNames` has the binary search,
  `LocaleCase` what case set aside means, `LocaleDefinitions` what a definition asks for,
  `LocaleSearch` parents and search lists, `LocaleLru` the cache, `LocaleBlanks` and
  `LocaleStale` the effect of trailing blanks, `LocaleRoot` the loops in place, `LocaleRefs`,
  `LocaleHeld` and `LocaleRefsRoot` the reference counts. `SubPath` and `SubPathMeaning` have
  the two path checks (also `src/afb-hreq.c`).
- **Session store** (`src/session.c`). `Sessions` has the operations on values,
  `SessionSafety` the invariant, `SessionTheorems` the guarantees over runs,
  `SessionLife` how long a session lives, `SessionTable` the store in memory.

What changes state in the source is a class or a method with its loops here; its
`ensures` ties it to a function on values, and the theorems are about that function.

Where the code does less than its comments or its purpose suggest, the model follows the
code and a lemma says exactly when it does what is expected:

- With no thread allowed, an accepted job waits for ever (`StuckWithoutThreads`,
  `WakeUpsIffThreads`).
- `evt_push` is documented to return the number of listeners reached; it counts inactive
  watches too (`PushCounts`, `PushMiscounts`, `EvtPush`).
- A message with an empty total payload has a NULL buffer, and ending it writes through
  that pointer (`MessagesDelivered` has both directions).
- The payload of a ping or pong that is cut by a would-block is not dropped, and what is
  left of it is read as frames (`BlockHarmlessIff`, `CutPing`).
- An error found in the callback of a data frame hangs up and frees the websock, and
  `websock_dispatch` goes on with it (`DanglingExactly`, `RefusedFrames`).
- A wsj1 text without items is not refused at once: a first item that nothing stored is
  looked at (`OnText` tells exactly when).
- The token of a reply is never read (`ReplyRoundTrip`).
- A blank cut off behind a locale definition costs the definition its last character,
  and the list so made stays in the cache (`BlankBehindCutsOne`, `BlankSpoilsCache`;
  exactly when: `BlankHarmlessIff`, `CacheAgreesIff`).
- A locale root with a default search is never freed (`DefaultLeaks`,
  `DefaultKeepsRoot`, `FreedExactly`).

## Model

| member | source | states |
|---|---|---|
| `SchedulerTheorems.NoLostWakeUp` | src/afb-thread.c:197-304 | over every interleaving, with at least one thread allowed and before termination: while an unblocked job is queued, some thread does not wait or a submitter still owes its signal |
| `SchedulerTheorems.StuckWithoutThreads` | src/afb-thread.c:278-303 | the run that loses its wake-up when no thread is allowed |
| `SchedulerTheorems.WakeUpsIffThreads` | src/afb-thread.c:264-304 | no wake-up is ever lost if and only if at least one thread is allowed |
| `SchedulerTheorems.GroupsInOrder` | src/afb-thread.c:143-194 | jobs of a group start in the order of submission; only the first queued one may be unblocked; if it is blocked a job of the group is running |
| `SchedulerTheorems.NeverReportsBlocked` | src/afb-thread.c:207-214 | the branch that reports blocked threads is never taken |
| `SchedulerTheorems.Conservation` | src/afb-thread.c:143-241 | before termination: remains plus queue length is the waiter count, running is the number of working threads, at most started, at most allowed; references held are those of queued and running jobs |
| `SchedulerTheorems.EverySubmissionSettled` | src/afb-thread.c:264-379 | when termination is complete each submission was refused, run or aborted, exactly one of these exactly once, and no reference is left |
| `SchedulerEnd.TerminationSettles` | src/afb-thread.c:340-379 | from every reachable state in which termination began: every continuation has a bounded number of steps besides broadcasts that wake nobody, and where nothing is left to do all threads are joined, the queue is empty and every submission is settled exactly once |
| `SchedulerEnd.EndingRunsEnd` | src/afb-thread.c:345-378 | after termination began a run has at most as many steps as a measure of its state, besides broadcasts that wake nobody |
| `SchedulerEnd.OverIsEnd` | src/afb-thread.c:345-378 | if neither the workers nor the terminating thread can do anything, all threads are joined and the queue is empty |
| `SchedulerTheorems.InternalRunsEnd` | src/afb-thread.c:197-241 | without new submissions the pool makes no more steps than a measure of its state |
| `SchedulerTheorems.RestMeansDone` | src/afb-thread.c:197-241 | a pool that can make no step of its own has an empty queue and has run every accepted job |
| `SchedulerTheorems.AcceptedJobsGetRun` | src/afb-thread.c:197-304 | from any reachable state before termination, any maximal run of the pool alone is finite and runs every accepted job |
| `SchedulerCalls.CallAnswers` | src/afb-thread.c:264-312 | in every reachable state before termination: a submission is refused exactly when all places are taken, or no thread runs, one is allowed and none can be created; else its job enters last, blocked exactly if one of its group is queued, and one thread more is started exactly when every thread works, fewer are started than allowed and the system gives one |
| `SchedulerCalls.CallFindsThread` | src/afb-thread.c:283-289 | after every run that ends in an accepted submission, with threads to be had: some thread does not work, or all the threads allowed are started |
| `SchedulerCalls.ThreadsGrowWhenBusy` | src/afb-thread.c:243-289 | over every run a step makes the number of threads grow exactly when it is an accepted submission that finds all threads working and another one allowed and to be had, and then by one |
| `SchedulerCalls.WorkersTakeOldest` | src/afb-thread.c:164-221 | over every run before termination a ready worker takes the oldest queued job that is not blocked, or waits when all are |
| `SchedulerCalls.WorkersLetGo` | src/afb-thread.c:181-234 | and one that ends a job first unblocks the first queued job of its group and no other |
| `SchedulerSafety.StepKeeps` | src/afb-thread.c:143-379 | every critical section, signal, spurious wake-up, join and abort keeps the invariant on queue, counters, groups, wake-ups and accounts |
| `SchedulerSafety.RunKeeps` | src/afb-thread.c:143-379 | the invariant holds after every run from afb_thread_init |
| `SchedulerSafety.NeverBlocked` | src/afb-thread.c:207-214 | under the invariant a queue with only blocked jobs has a running job |
| `JobQueue.OfWithout` | src/afb-thread.c:165-194 | taking out the first job of its group takes the head of that group's order and leaves the others' |
| `ThreadPool.Pool.constructor` | src/afb-thread.c:315-337 | afb_thread_init creates min(startable, asked) threads and the initial state |
| `ThreadPool.Pool.JobAdd` | src/afb-thread.c:143-162 | appends the job, blocked exactly if its group is queued, and uses one place |
| `ThreadPool.Pool.JobGet` | src/afb-thread.c:165-179 | takes the first unblocked job out and gives its place back, or changes nothing |
| `ThreadPool.Pool.JobUnblock` | src/afb-thread.c:182-194 | unblocks the first queued job of the group only |
| `ThreadPool.Pool.LoopHead` | src/afb-thread.c:206-221 | one turn of the loop under the mutex is the loop step of the transition system |
| `ThreadPool.Pool.FinishJob` | src/afb-thread.c:206-236 | the end of a job and the turn that follows are the finishing step |
| `ThreadPool.Pool.CallJob` | src/afb-thread.c:264-312 | a submission is refused, or queued with or without a new thread, as in the submission step, of which `CallAnswers` tells when it does which; the signal is due exactly when it is queued |
| `ThreadPool.Pool.RequestStop` | src/afb-thread.c:345-350 | the first part of termination is the terminate step on all threads |
| `ThreadPool.Pool.CancelPending` | src/afb-thread.c:371-378 | the last part aborts every queued job and empties the queue |
| `EventTrace.TraceTellsActive` | src/afb-evt.c:184-442 | after any run, replaying the callbacks of the listeners whose interface has both add and remove gives exactly their active pairs of listener and event, never repeating an add nor removing what was not added |
| `EventTrace.CallbacksAlternate` | src/afb-evt.c:184-442 | for each listener whose interface has both add and remove, and each event, these callbacks strictly alternate, add first, and end with an add exactly when the pair is active |
| `EventTrace.WatchesLinkedOnce` | src/afb-evt.c:184-442 | after any run each watch lies in exactly its event's list and its listener's list, once; at most one watch per pair; event identifiers differ |
| `EventTrace.StepReplay` | src/afb-evt.c:184-442 | the callbacks of one operation, to listeners with both add and remove, turn their active pairs before it into those after it |
| `EventOps.StepKeeps` | src/afb-evt.c:153-442 | every operation keeps both threadings of the watches, the chains of events and listeners, the counts and the identifiers |
| `EventOps.AllocatedIsFree` | src/afb-evt.c:250-261 | an allocated identifier is positive and not in use; after the counter wrapped it is at least 1024 |
| `EventOps.SomeIdFree` | src/afb-evt.c:250-261 | with fewer live events than reused identifiers one of these is free, so the search ends |
| `EventOps.PushReaches` | src/afb-evt.c:150-171 | over any list of watches: as many callbacks as watches if and only if all are active |
| `EventTrace.PushCounts` | src/afb-evt.c:150-171 | in every reachable hub the count that evt_push gives is that of the listeners reached if and only if all watches of the event are active |
| `EventTrace.PushMiscounts` | src/afb-evt.c:150-171 | the run create event, create listener, add watch, remove watch: a push then counts one watch and reaches nobody |
| `EventBalance.ActivityIsBalance` | src/afb-evt.c:366-442 | after any run, while a listener with push and an event live: the activity of the pair is the number of times it was added less the times it was removed while added, counted from the operations alone; a listener without push watches nothing |
| `EventBalance.CallsByBalance` | src/afb-evt.c:153-442 | over any run that balance decides every callback of every operation: added when the pair is added at balance zero, removed when the balance comes back to zero or one of the two dies, pushed exactly to the listeners with a positive balance, each once |
| `EventBalance.CallsName` | src/afb-evt.c:153-442 | every callback goes to a live listener and carries the identifier and the name its event was made with |
| `EventBalance.ReferencesAreHeld` | src/afb-evt.c:303-360 | after any run the reference count of a listener is the number of references given less those taken back; it lives exactly while that is positive; no two live listeners have the same interface and closure |
| `EventBalance.HandlesLast` | src/afb-evt.c:215-360 | an event lives from its creation to its destruction with the name and identifier it was made with; a listener keeps its interface and closure |
| `EventBroker.Broker.CutWatch` | src/afb-evt.c:184-210 | takes a watch out of both lists and calls remove exactly if it was active |
| `EventBroker.Broker.ClearEvent` | src/afb-evt.c:228-230 | the unlink loop of an event ends and removes exactly its watches |
| `EventBroker.Broker.ClearListener` | src/afb-evt.c:347-349 | the unlink loop of a listener ends and removes exactly its watches |
| `EventBroker.Broker.EvtDestroy` | src/afb-evt.c:215-238 | destroys a known event with its watches; ignores an unknown one |
| `EventBroker.Broker.EvtPush` | src/afb-evt.c:153-171 | pushes to the active watches in list order and returns the number of all watches |
| `EventBroker.Broker.AllocateId` | src/afb-evt.c:250-261 | the search loop ends while an identifier is free, and gives the first free one in cyclic order |
| `EventBroker.Broker.CreateEvent` | src/afb-evt.c:244-280 | links a new event with a free identifier |
| `EventBroker.Broker.ListenerCreate` | src/afb-evt.c:303-327 | references the listener with that interface and closure, or links a new one |
| `EventBroker.Broker.ListenerUnref` | src/afb-evt.c:342-360 | drops a reference; with the last one the listener and its watches go |
| `EventBroker.Broker.FindWatch` | src/afb-evt.c:377-384 | finds the watch of the pair if and only if there is one |
| `EventBroker.Broker.AddWatch` | src/afb-evt.c:366-408 | creates or counts up the watch, and calls add exactly when it becomes active; refuses a listener without push; over runs the count is the balance of `ActivityIsBalance` |
| `EventBroker.Broker.RemoveWatch` | src/afb-evt.c:414-442 | counts the watch down, and calls remove exactly when it becomes inactive; fails exactly when there is no watch |
| `Mirror.MirrorAgrees` | src/afb-api-ws.c:586-697 | over every run of server operations, subscriptions and deliveries: receiving all messages in flight gives exactly the events the server listener actively watches, each with reference count 1, and every lookup of an event on the way succeeds |
| `Mirror.StepMirrors` | src/afb-api-ws.c:1044-1075 | each step of the server, of the link or of the client keeps that agreement; what is sent is told by `NotesArrive` |
| `Mirror.SubscribedIsMine` | src/afb-api-ws.c:1209-1230 | an event subscribed for a request is among the mirrored ones before its message is sent |
| `MirrorNotes.NotesArrive` | src/afb-api-ws.c:1044-1075 | after any run: the messages delivered so far followed by those on the link tell, in order, exactly the additions, removals and pushes with identifier and name that the callbacks of the server listener were called for, and exactly the subscriptions and unsubscriptions that requests asked for |
| `MirrorNotes.UnsubscribedIsFound` | src/afb-api-ws.c:1232-1250 | an unsubscription is told before the event is dropped: the client finds the event exactly when the listener actively watched it |
| `MirrorBytes.MirrorOverBytes` | src/afb-api-ws.c:586-697 | the same agreement over every run in which everything between server and client is packets: encoded by the server, decoded one by one into the table of the client |
| `MirrorPackets.PushesArrive` | src/afb-api-ws.c:1044-1075 | the same over packets, with the objects: those delivered so far and those on the link decode, in order, to exactly what the server listener was called for, each push with the object pushed, and to the subscriptions asked for |
| `MirrorBytes.RunCarries` | src/afb-api-ws.c:532-697 | every run over packets is a run over messages with the same server and the same table at every moment |
| `MirrorBytes.ReceiveSent` | src/afb-api-ws.c:532-697 | receiving the bytes of a message does to the table what the message says |
| `EventTable.DrainConcat` | src/afb-api-ws.c:586-697 | receiving messages one after the other, in any grouping, gives the same table and understanding |
| `EventTable.MinusHolds` | src/afb-api-ws.c:626-647 | a drop message removes exactly the entry of its event |
| `ApiBuffers.ClientEvents.Find` | src/afb-api-ws.c:483-492 | the walk gives the first entry of the event, or none |
| `ApiBuffers.ClientEvents.Receive` | src/afb-api-ws.c:586-697 | the client table after one message, and whether its event was found |
| `Pending.RunKeeps` | src/afb-api-ws.c:471-529 | over every run of calls and replies the pending names differ and calls made are pending or done |
| `Pending.CompletedAtMostOnce` | src/afb-api-ws.c:699-764 | each call is pending or completed, one of these exactly once |
| `Pending.ReplyCompletesItsCall` | src/afb-api-ws.c:471-529 | a reply completes exactly the pending call it names; a second one finds nothing |
| `PendingRuns.PendingExactly` | src/afb-api-ws.c:471-529 | over every run a call is in the table, under the name it was given, exactly while no reply named it since it was made, told from the operations alone; an unknown reply changes nothing |
| `PendingTables.Memos.Make` | src/afb-api-ws.c:496-511 | the loop ends while a msgid is free and takes the first free one in cyclic order of 32-bit numbers |
| `PendingTables.Memos.Complete` | src/afb-api-ws.c:514-529 | the memo named by a reply is found, completed and destroyed; an unknown one changes nothing |
| `PendingTables.Calls.Create` | src/afb-wsj1.c:152-169 | the loop ends while an identifier is free and takes the first free one counting down from the last, 999999 after 1 |
| `PendingTables.Calls.Complete` | src/afb-wsj1.c:137-150 | a reply takes out exactly the call of its identifier |
| `PendingTables.DecimalInjective` | src/afb-wsj1.c:158-162 | different numbers print differently, so comparing texts compares numbers |
| `PendingRuns.DecimalIs` | src/afb-wsj1.c:161-161 | the text of a number: digits, none of them a leading zero, the last one that of the number modulo ten behind the text of the tenth |
| `PendingTables.SomeMsgidFree` | src/afb-api-ws.c:505-505 | with fewer pending calls than 32-bit numbers some msgid is free |
| `PendingTables.SomeCallFree` | src/afb-wsj1.c:158-162 | with fewer than 999999 pending calls some identifier is free |
| `ApiMessages.ServerRoundTrip` | src/afb-api-ws.c:1044-1250 | each of the nine server messages, when sent, is read back field for field with the cursor at its end |
| `ApiMessages.CallRoundTrip` | src/afb-api-ws.c:807-970 | the same for the call message |
| `ApiMessages.SentIffShort` | src/afb-api-ws.c:423-444 | a message is sent if and only if each string with its NUL has a length of 32 bits |
| `ApiMessages.EncodingsDiffer` | src/afb-api-ws.c:1044-1250 | different messages have different encodings |
| `ApiFormat.MessageWritten` | src/afb-api-ws.c:1044-1250 | the bytes of each message that is sent: the character of its order, then its fields one behind the other to the end, numbers with the lowest byte first, strings with their length, text and NUL |
| `ApiFormat.CallWritten` | src/afb-api-ws.c:823-832 | the bytes of a call: number, flags, verb, uuid and request, in this order |
| `ApiMessages.DecodeWithinBounds` | src/afb-api-ws.c:767-804 | on every input the reader stays within it, and what it accepts is exactly the encoding of the fields it found |
| `ApiCodec.ReadAllWritten` | src/afb-api-ws.c:350-444 | fields written are read back anywhere in a buffer |
| `ApiCodec.WriteAllRead` | src/afb-api-ws.c:350-386 | fields read, written again, are the bytes that were read |
| `ApiBuffers.ReadBuf.ReadUint32` | src/afb-api-ws.c:360-369 | reads a little-endian number or leaves the cursor |
| `ApiBuffers.ReadBuf.ReadString` | src/afb-api-ws.c:371-379 | reads a string with its length and final NUL; the cursor never passes the end |
| `ApiBuffers.WriteBuf.WriteString` | src/afb-api-ws.c:429-433 | writes length, text and NUL in two parts, or nothing exactly when the length does not fit 32 bits |
| `ApiBuffers.WriteBuf.WriteStringNz` | src/afb-api-ws.c:423-427 | the same in three parts for a text without its NUL |
| `ApiHandlers.SendSuccess` | src/afb-api-ws.c:1145-1163 | the writes of this function make exactly the encoding of the success reply, or it is not sent |
| `ApiHandlers.SendFail` | src/afb-api-ws.c:1165-1181 | the same for the failure reply |
| `ApiHandlers.SendRaw` | src/afb-api-ws.c:1191-1207 | the same for the raw reply |
| `ApiHandlers.SendBroadcast` | src/afb-api-ws.c:1077-1091 | the same for the broadcast |
| `ApiHandlers.SendEvent` | src/afb-api-ws.c:1044-1058 | the same for the creation, drop and push of an event |
| `ApiHandlers.SendSubscription` | src/afb-api-ws.c:1209-1250 | the same for subscribing and unsubscribing |
| `ApiHandlers.SendCall` | src/afb-api-ws.c:823-832 | the same for the call |
| `ApiHandlers.OnBinary` | src/afb-api-ws.c:767-804 | the handlers, read after read, have on every input the effect that its decoding says; a reply completes its call even when its body is malformed |
| `ApiHandlers.OnReply` | src/afb-api-ws.c:699-764 | a reply whose number can be read completes that call, with its answer if the rest can be read and with a failure if not |
| `ApiHandlers.EffectOfSent` | src/afb-api-ws.c:699-804 | every message sent has its own effect at the client: a reply completes its call with its answer |
| `ApiHandlers.RepliedIff` | src/afb-api-ws.c:560-578 | a message completes a call if and only if it is of a reply order and has at least five bytes |
| `Frames.HeaderRoundTrip` | src/websock.c:101-156 | a header sent for any 64-bit size and key reads back with the same FIN, opcode, reserved bits, length and mask, and its size is known from its first two bytes |
| `Frames.LengthBytes` | src/websock.c:128-148 | the 7, 16 and 64-bit lengths invert |
| `Frames.BigEndianInverse` | src/websock.c:128-148 | big-endian digits invert |
| `Frames.UnmaskConcat` | src/websock.c:480-512 | unmasking in two parts, the second with the mask rotated by the first, is unmasking at once |
| `Frames.UnmaskTwice` | src/websock.c:480-512 | unmasking is its own inverse |
| `FrameFormat.FrameLaid` | src/websock.c:101-156 | the bytes of a frame as section 5.2 of RFC 6455 has them: FIN and opcode, mask bit and length of 7, 16 or 64 bits with the highest byte first, the key, and byte i of the payload combined with byte i mod 4 of the key |
| `FrameFormat.HeaderLaid` | src/websock.c:121-148 | the same for the header alone and every 64-bit size |
| `FrameFormat.XorBit` | src/websock.c:488-510 | a bit of the exclusive or is set exactly when it differs in the two bytes |
| `Frames.UnmaskInPlace` | src/websock.c:480-512 | for every address and length, the byte, word and byte loops give the bytewise XOR with the mask byte of the position modulo 4, and leave the mask rotated by the length |
| `Words.WordXor` | src/websock.c:499-502 | the exclusive or of two 32-bit words is that of their four bytes |
| `WireEndToEnd.SentIsTaken` | src/websock.c:101-156 | what the sender emits has at the reader the effect of its frame |
| `WireEndToEnd.SendAndServe` | src/websock.c:101-156 | a message sent in any pieces, read in any cuts with would-blocks anywhere, arrives as one callback with the whole of it |
| `FrameSender.SendV` | src/websock.c:101-156 | what is sent is the header of the total size and the pieces, unless there are too many |
| `FrameSender.PiecesInOrder` | src/websock.c:113-126 | what is sent behind the header is all the bytes of each piece, one piece behind the other, and nothing else |
| `FrameSender.ShiftedDigit` | src/websock.c:128-148 | the bytes made by shifting are the big-endian digits |
| `Wire.FeedConcat` | src/websock.c:278-478 | the byte machine depends only on the bytes, not on how they are cut |
| `WireMessages.FeedFrame` | src/websock.c:306-478 | a whole frame on the wire, of any sender, has the effect of its opcode, payload and mask |
| `WireMessages.HeaderFits` | src/websock.c:341-382 | dispatch reads the fields of each frame sent and leaves exactly its payload |
| `WireMessages.OutOfOrder` | src/afb-ws.c:473-509 | a data frame out of order is reported as a protocol error and hung up; dispatch then goes on with the freed websock |
| `FrameFormat.ControlAnswered` | src/websock.c:442-459 | between two frames: a ping is answered by one pong, a pong by nothing, an unknown opcode by the error 1002 and a hang-up; what was received of a message stays |
| `FrameFormat.DataAnswered` | src/afb-ws.c:454-509 | a text or binary frame begins a message and a continuation goes on with it, a final one delivers all its payloads in order; a kind that the user does not take is the error 1003, a frame out of order the error 1002 |
| `FrameFormat.TooLargeIff` | src/websock.c:381-382 | a data frame is refused as too large, error 1009, exactly if its length is above 65000 |
| `FrameFormat.CloseAnswered` | src/websock.c:426-441 | a close frame without payload hangs up at its second byte, an unmasked one with code and reason at its code |
| `FrameFormat.StreamCut` | src/afb-ws.c:387-418 | a stream that the peer closes inside a data frame: a hang-up inside the header, the error 1006 inside the payload, and nothing before |
| `FrameFormat.BadControl` | src/websock.c:290-306 | a control frame with a reserved bit or a length above 125 is the error 1002 at its second byte |
| `WireReassembly.Reassemble` | src/afb-ws.c:454-509 | reassembly from any point inside or between messages, with control frames anywhere between the fragments |
| `WireReassembly.MessagesDelivered` | src/afb-ws.c:454-509 | fragments of messages give one callback of the right kind with the whole payload for each message, if and only if no message is empty; the first empty one writes through a NULL buffer |
| `WireReassembly.SmoothStream` | src/websock.c:416-457 | in a stream whose control frames are empty no byte lies in a control payload |
| `WireDispatch.Connection.Recv` | src/afb-ws.c:361-372 | a read of the transport gives what is there, would block, or ends |
| `WireDispatch.Connection.WebsockRead` | src/websock.c:514-533 | a read takes at most what is left of the frame, unmasked, with length and mask advanced by what was read |
| `WireDispatch.Connection.AwsRead` | src/afb-ws.c:392-418 | the growing buffer gets the whole payload over any sequence of reads, or the connection ends |
| `WireDispatch.Connection.AwsContinue` | src/afb-ws.c:454-468 | a fragment is appended; the last one fires its callback |
| `WireDispatch.Connection.OnControl` | src/websock.c:442-457 | a ping or pong drops its payload; cut by a would-block it ends there, with its pong |
| `WireDispatch.Connection.FinishHeader` | src/websock.c:341-382 | a complete header leads to the frame's effect; the lengths satisfy 0 <= lenhead <= szhead <= 14 throughout |
| `WireDispatch.Connection.Turn` | src/websock.c:306-478 | one turn of dispatch refines the machine on what it met, whatever part of a frame it ends in |
| `WireDispatch.Connection.Run` | src/afb-ws.c:377-385 | for everything the reads can meet, bytes and would-blocks in any order, and any cuts, the events are those of the machine |
| `WireDispatch.Serve` | src/websock.c:306-478 | a whole connection: its events are those of the machine on what its reads meet, however they are cut |
| `WireDispatch.ServeBytes` | src/websock.c:306-478 | chunking independence: with no would-block inside a control payload only the bytes count |
| `WireDispatch.UnblockedSpared` | src/websock.c:442-457 | so for every stream without would-blocks, control payloads or not |
| `WireDispatch.SmoothSpared` | src/websock.c:442-457 | and for every stream of frames without control payloads, would-blocks anywhere |
| `WireTrace.BlockHarmlessIff` | src/websock.c:442-457 | after anything met, a would-block makes no difference to whatever bytes follow if and only if it is not inside the payload of a ping or pong |
| `WireTrace.CutPing` | src/websock.c:442-457 | a ping of two bytes cut behind its header: without the would-block a pong and the end, with it the payload is taken for a text message |
| `WireTrace.SparedPlay` | src/websock.c:306-478 | with would-blocks outside control payloads the machine does what it does on the bytes alone |
| `WireTrace.PlayConcat` | src/websock.c:306-478 | the machine depends only on what is met, not on how it is cut |
| `WireFaults.DanglingExactly` | src/websock.c:461-469 | dispatch uses the freed websock if and only if a refused data frame is met or the peer closes inside the payload of a data frame |
| `WireFaults.RefusedFrames` | src/afb-ws.c:473-509 | for whole frames: if and only if some data frame is refused when it comes, being out of order or of a kind not taken |
| `WireDispatch.ServeMessages` | src/afb-ws.c:377-509 | end to end: messages in fragments, mixed with pings and pongs of any payload, cut in any way, give exactly the expected callbacks when no would-block comes inside a control payload |
| `Wsj1Messages.CallRoundTrip` | src/afb-wsj1.c:438-442 | a printed call scans back to its identifier, api, verb, object and token |
| `Wsj1Messages.EventRoundTrip` | src/afb-wsj1.c:432-436 | a printed event scans back to its name and object |
| `Wsj1Messages.ReplyRoundTrip` | src/afb-wsj1.c:280-289 | a printed reply scans back with its identifier and object and without a token: so as it was sent if and only if it had none |
| `Wsj1Json.JsonCallRoundTrip` | src/afb-wsj1.c:172-300 | a call with any JSON value as its object, printed without blanks, and any strings once they are escaped, comes back as it was sent |
| `Wsj1Json.JsonClean` | src/afb-wsj1.c:172-224 | every JSON value, nested in any way and with any strings in it, is passed over to its end by the scanner |
| `Wsj1Json.CallText` | src/afb-wsj1.c:438-442 | the text of a call, character for character |
| `Wsj1Json.ShortText` | src/afb-wsj1.c:432-436 | and the texts of replies and events |
| `Wsj1Text.ValueInContext` | src/afb-wsj1.c:190-205 | followed by a comma or bracket a value is passed over to its end if and only if it is neutral |
| `Wsj1Text.ScanOfArray` | src/afb-wsj1.c:172-223 | an array of clean items is scanned into exactly these |
| `Wsj1Text.PlaceHolds` | src/afb-wsj1.c:172-223 | the text at each scanned place is the printed item |
| `Wsj1Text.EscapedClean` | src/afb-wsj1.c:197-203 | a quoted string is one clean item when its quotes are escaped |
| `Wsj1Text.PlainEscaped` | src/afb-wsj1.c:197-203 | so is every string without quotes and backslashes |
| `Wsj1Grammar.ScanIff` | src/afb-wsj1.c:172-224 | the scanner finds items exactly in the texts that are an array of them: blanks, a bracket, at most ten balanced items between commas with any blanks around them, the closing bracket, blanks; and it finds them there, without the blanks |
| `Wsj1Scan.ScannedApart` | src/afb-wsj1.c:172-223 | on every input at most ten items, inside the text, each ending before the next begins |
| `Wsj1Scan.MsgScan` | src/afb-wsj1.c:172-223 | the loops of the scanner give the specified items and never pass the NUL |
| `Wsj1InPlace.FieldSpared` | src/afb-wsj1.c:225-238 | a NUL written behind one field lies in no other |
| `Wsj1InPlace.FieldKept` | src/afb-wsj1.c:225-238 | each ended field reads as its text |
| `Wsj1InPlace.EndItem` | src/afb-wsj1.c:225-238 | one field is ended in place: its place is returned and no other character changes |
| `Wsj1InPlace.TakeCall` | src/afb-wsj1.c:269-279 | the fields of a call, ended and its tag split in the order of the code, are the C strings that parsing gives, or the call is refused for want of a slash |
| `Wsj1InPlace.OnText` | src/afb-wsj1.c:240-296 | scan, code, ends and split together: the pointers handed on read as exactly the parsed message; a text is refused exactly when it is none, but for one without items, of which the code reads a first item that nothing stored |
| `Wsj1InPlace.FieldIsText` | src/afb-wsj1.c:225-238 | that text is the item, without its quotes where they are stripped |
| `Wsj1InPlace.SplitTag` | src/afb-wsj1.c:272-275 | the tag splits in place at its first slash into api and verb, or is refused, and nothing else changes |
| `SubPath.WalkInside` | src/locale-root.c:82-120 | counting over the characters decides whether some prefix of the components rises above the root, empty ones and "." set aside |
| `SubPathMeaning.InsideIff` | src/locale-root.c:82-120 | a path stays inside exactly when no beginning of it, cut at slashes, has more ".." than names |
| `SubPathMeaning.ComponentsAre` | src/locale-root.c:82-120 | the components joined by slashes are the path, and none has a slash |
| `SubPath.ValidLocale` | src/locale-root.c:82-120 | accepts exactly the relative paths of which no prefix has more ".." than names |
| `SubPath.ValidHreq` | src/afb-hreq.c:125-159 | the early-exit version accepts exactly the paths of which no prefix has more ".." than names |
| `SubPath.SameOnRelative` | src/afb-hreq.c:125-159 | both agree on all relative paths |
| `LocaleNames.FindIff` | src/locale-root.c:188-208 | the binary search finds a folder of that name, case set aside, if and only if there is one |
| `LocaleCase.FindAnyCase` | src/locale-root.c:188-208 | in a container in which no folder comes before one that lies behind it, by the codes of their letters, the search finds a folder with the letters of the name, case set aside, exactly when there is one; letters are told by their codes |
| `LocaleCase.CmpTells` | src/locale-root.c:179-183 | the comparison is negative exactly when the first name has the smaller folded code at the first difference or ends there, zero exactly when the names are the same but for the two cases of letters |
| `LocaleCase.SameIff` | src/locale-root.c:480-483 | names are the same exactly when they have the same length and at each place the same character or the two cases of one letter, 32 apart |
| `LocaleNames.SearchFolder` | src/locale-root.c:188-208 | the loop gives what the search specifies, of which `FindAnyCase` tells what it finds |
| `LocaleSearch.ParentLongest` | src/locale-root.c:270-279 | the parent is the folder of the longest existing prefix that ends before a dash |
| `LocaleSearch.ParentShorter` | src/locale-root.c:270-279 | a parent has a shorter name, so chains of parents end |
| `LocaleSearch.RangeGivesLongest` | src/locale-root.c:433-459 | without the immediate flag each range gives the folder of its longest existing dash prefix, or none if no prefix exists |
| `LocaleSearch.SearchList` | src/locale-root.c:412-475 | the list has no duplicates, begins with the wanted folders in order, contains the parent of each of its folders, and nothing else |
| `LocaleDefinitions.WantedOfRanges` | src/locale-root.c:432-459 | a definition written as ranges, parameters and separators asks for the folders of its ranges in order, each range cut at its semicolon |
| `LocaleDefinitions.ImmediateGivesAll` | src/locale-root.c:441-452 | with the immediate flag a range gives the folders of all its prefixes that the code looks up, from the longest to the shortest |
| `LocaleDefinitions.ListInOrder` | src/locale-root.c:381-407 | the list begins with the wanted folders in the order in which each is first wanted |
| `LocaleDefinitions.NormalIs` | src/locale-root.c:499-510 | normalising cuts all blanks and commas off both ends and nothing else |
| `LocaleRoot.Root.constructor` | src/locale-root.c:270-279 | the link loop gives every folder its parent |
| `LocaleRoot.AppendFolder` | src/locale-root.c:381-407 | appends a folder unless it is there |
| `LocaleRoot.AppendRanges` | src/locale-root.c:432-459 | the loops over the ranges of a definition collect the wanted folders |
| `LocaleRoot.Root.Fulfil` | src/locale-root.c:461-472 | the loop over the growing list ends and closes it under parents |
| `LocaleRoot.Root.Create` | src/locale-root.c:412-475 | create_search gives the specified list |
| `LocaleRoot.Root.Search` | src/locale-root.c:493-539 | normalises, looks up, creates if needed and moves to the front |
| `LocaleLru.SearchAlike` | src/locale-root.c:480-483 | definitions that differ in case have the same search list |
| `LocaleLru.CacheAgrees` | src/locale-root.c:493-539 | over every sequence of calls with one flag and no blanks cut off behind definitions, the list found is the one a fresh create_search gives |
| `LocaleLru.LatestThree` | src/locale-root.c:512-535 | the slots hold the last three different definitions, case set aside, the latest first; so keys differ |
| `LocaleCase.SlotsAnyCase` | src/locale-root.c:512-535 | after any calls the slots hold the three latest definitions that differ in more than the case of letters, the latest first, and no two have the same letters |
| `LocaleCase.HitAnyCase` | src/locale-root.c:480-515 | a slot is taken for a definition exactly if it has its letters, case set aside; the first one such |
| `LocaleCase.ListAnyCase` | src/locale-root.c:480-483 | definitions with the same letters have the same search list |
| `LocaleBlanks.BlankBehindCutsOne` | src/locale-root.c:437-439 | a definition with a blank behind it is searched as if its last character were missing |
| `LocaleBlanks.BlankSpoilsCache` | src/locale-root.c:437-439 | the calls "en " and "en" on the folder "en": the second one gets the empty list of the first |
| `LocaleStale.BlankHarmlessIff` | src/locale-root.c:433-472 | for every container and definition: a blank behind makes no difference if and only if one list of chosen folders begins the other and what is more in it is what its parents append anyway |
| `LocaleStale.BlankHarmlessOne` | src/locale-root.c:433-472 | without the immediate flag: if and only if the last range and the one cut short add the same folder or none, or one adds what is the next parent anyway and the other nothing |
| `LocaleStale.BlankHarmlessAll` | src/locale-root.c:433-472 | with the immediate flag: if and only if the last range and the one cut short add the same folder or none before their common shorter prefixes, or these add nothing, one of the two adds what is the next parent anyway and the other nothing |
| `LocaleStale.SafeRangeIff` | src/locale-root.c:433-458 | a last range is safe from blanks in every definition and every container if and only if it has a semicolon |
| `LocaleStale.SafeDefinitionIff` | src/locale-root.c:433-458 | a definition whose other ranges never look up the text of the last one is safe in every container if and only if its last range has a semicolon |
| `LocaleStale.CacheAgreesIff` | src/locale-root.c:493-539 | over every sequence of calls with one flag, blanks or not: the list found is the fresh one if and only if it is not cached, or was made with a blank behind just as the call has one, or the blank is harmless |
| `LocaleRefs.FreedExactly` | src/locale-root.c:344-368 | the root is freed exactly when nobody references it or one of its searches and it has no default search |
| `LocaleRefs.SearchLivesExactly` | src/locale-root.c:544-582 | a search lives exactly while a user holds it, the cache of a referenced root has it, or it is the default |
| `LocaleRefs.HandlesLive` | src/locale-root.c:344-368 | no operation on a held handle reaches a freed root |
| `LocaleHeld.FreedByCalls` | src/locale-root.c:334-582 | over every run the root is freed exactly when the references that calls gave to it and to its searches were all taken back and the last default set is none |
| `LocaleHeld.HeldByCalls` | src/locale-root.c:334-582 | over every run the references that users hold are those that the calls gave, less those taken back |
| `LocaleHeld.CacheByCalls` | src/locale-root.c:512-535 | over every run the cache holds the three searches last looked for, the latest first |
| `LocaleRefs.DefaultKeepsRoot` | src/locale-root.c:357-368 | a default search is never let go with the last reference to its root: both stay for ever |
| `LocaleRefs.DefaultLeaks` | src/locale-root.c:357-368 | one search made the default, then search and root given back: nobody holds anything and neither is freed |
| `LocaleRefs.StepKeeps` | src/locale-root.c:334-582 | every operation keeps each counter equal to the number of its holders |
| `LocaleRefsRoot.Counters.RootUnrefNow` | src/locale-root.c:357-368 | the loop over the cache lets each search go once, then the root |
| `LocaleRefsRoot.Counters.SearchUnref` | src/locale-root.c:553-567 | the last reference frees the search and drops its hold on the root |
| `LocaleRefsRoot.Counters.SearchNew` | src/locale-root.c:521-538 | a new search replaces the oldest one and is counted for cache and caller |
| `LocaleRefsRoot.Counters.SearchCached` | src/locale-root.c:518-538 | a cached search moves to the front and is counted once more |
| `LocaleRefsRoot.Counters.SetDefaultSearch` | src/locale-root.c:573-582 | the new default is counted before the older one is let go |
| `LocaleRefsRoot.Counters.SearchAddref` | src/locale-root.c:544-548 | a user holds the search once more |
| `SessionTheorems.StoreSound` | src/session.c:124-341 | over every sequence of operations: the count is that of the occupied slots, at most the maximum; unclosed sessions have different uuids; a session is out of the store exactly when it is closed and unreferenced |
| `SessionTheorems.GetOutcome` | src/session.c:286-308 | the active session of the uuid if there is one; else a new one exactly if the uuid fits and there is room after cleaning; else which error |
| `SessionTheorems.CreateOutcome` | src/session.c:268-283 | refuses exactly the uuids of active sessions, those too long, and a full store |
| `SessionTheorems.GivenIsActive` | src/session.c:268-308 | a session given to a caller is stored, referenced, neither closed nor expired, and has the uuid asked for |
| `SessionTheorems.ClosedExactly` | src/session.c:206-218 | a session closes exactly when closed by name or found outdated by a call that looks for sessions |
| `SessionTheorems.NeverExpires` | src/session.c:245-252 | a session without timeout stays open over every run that does not close it |
| `SessionLife.LivesUntilTimeout` | src/session.c:192-370 | a session made at n with a timeout t, not closed by name, over any run in which no call looked for sessions after its time was out: a call for its uuid gives it up to n + t, or up to the last new token plus t, and a creation with its uuid is refused; the first call that looks later closes it |
| `SessionLife.LivesForEver` | src/session.c:245-252 | a session made without timeout and not closed by name is given for its uuid at any time of the clock |
| `SessionLife.MadeRecord` | src/session.c:241-259 | a new session has the uuid asked for or the generated one, the initial token, the timeout, the time of the call plus the timeout for its end, and one reference |
| `SessionLife.RecordAfter` | src/session.c:192-370 | what each operation does to the record of each session: only closing, finding, renewing and referencing change it, each its own fields |
| `SessionTheorems.RefcountIsHeld` | src/session.c:310-327 | the reference count is the number of references given less those taken back, and a held session is never freed |
| `SessionSafety.CleanUpKeeps` | src/session.c:206-218 | cleaning closes exactly the outdated sessions and empties exactly the slots of those nobody holds |
| `SessionSafety.SearchIff` | src/session.c:124-143 | a search for a uuid finds the unclosed session that has it if and only if there is one |
| `SessionSafety.StepKeeps` | src/session.c:124-370 | every operation keeps the store valid |
| `SessionTable.Table.CleanUp` | src/session.c:206-218 | the loop over the slots, which closes and frees while it walks, is the specified cleaning |
| `SessionTable.Table.StoreAdd` | src/session.c:168-189 | takes the first free slot, or fails and changes nothing |
| `SessionTable.Table.StoreDel` | src/session.c:145-166 | empties the slot of the session |
| `SessionTable.Table.Create` | src/session.c:268-283 | ctxClientCreate in place: the creation that `CreateOutcome`, `MadeRecord` and `LivesUntilTimeout` tell of |
| `SessionTable.Table.GetSession` | src/session.c:286-308 | ctxClientGetSession in place: the lookup that `GetOutcome`, `RecordAfter` and `LivesUntilTimeout` tell of |
| `SessionTable.Table.Unref` | src/session.c:317-327 | frees a closed session with its last reference |
| `SessionTable.Table.Close` | src/session.c:330-341 | closes once; frees if nobody holds it |
| `SessionTable.Table.TokenNew` | src/session.c:360-370 | renews the token, and the expiration unless there is no timeout |

## Left out

- ThreadPool.Pool.CallJob: the failing of `malloc` is not modelled, here as everywhere; that of `pthread_create` is.
- Scheduler: timers, signals and `setjmp` around a callback (`src/afb-sig-handler.c` is not part of this model); submissions after termination begins, which the code does not order; a start count above the allowed count, which `afb_thread_init` asserts against. Threads are joined in any order, which admits all orders of the code.
- Scheduler: that jobs of one group never run at the same time is not claimed: `job_add` looks at queued jobs only, so the code does not give it; `CallAnswers` tells when a job enters unblocked.
- EventBroker.Broker.ListenerUnref: callbacks that call back into the engine while lists are relinked are excluded, and a freed handle is never given out again.
- EventHub: the 32-bit overflow of `activity` and of reference counts.
- EventBroker.Broker.EvtPush: the objects pushed, which `MirrorPackets` follows to the client; broadcasting is a plain walk over the listeners and is left out of the hub.
- EventTrace.CallbacksAlternate: listeners without an add or a remove callback, whose calls are one-sided; `CallsByBalance` has them.
- Mirror.MirrorAgrees: a link that reorders, loses or cuts; hang-up of the link; several requests share one connection and their replies are in `Pending`.
- ApiHandlers.SendRaw: the code sends one byte more than the size it is given; the model takes that byte for the final NUL, as for a buffer that ends with one.
- ApiHandlers.OnReply: what becomes of the call is in `Pending`; an unknown number is ignored there.
- MirrorBytes.MirrorOverBytes: names are C strings of bytes and short enough to be sent.
- LocaleStale.BlankHarmlessIff: over all containers at once the condition is given for the last range in every definition, and for every definition that looks up the text of its last range only there; for one that repeats it, such as "en,en", it is the stated one, container by container.
- Frames.UnmaskInPlace: words are taken as little-endian; the order does not matter to an exclusive or.
- Wsj1InPlace.TakeCall: that a reply names a pending call is checked in `Pending`, not here.
- ApiMessages.ServerRoundTrip: JSON objects are taken as serialised text; parsing and printing them is json-c's.
- PendingTables.Calls.Create: `sprintf` is the decimal text without sign.
- WireDispatch.Serve: nothing is claimed of what happens after a write through the NULL buffer or with the freed websock; both are events of the model, and the last ones.
- WireDispatch.Connection.Run: a user without `on_close` and `on_error`, as both users of the layer are; after a close frame nothing more is read. A partly written frame or a failing write is excluded.
- WireMessages.FeedFrame: close frames as a sender makes them; the receiver's arithmetic on them, which takes the two bytes of the code for header, is in `FrameLength` and is followed, but nothing is promised for masked ones or those without a reason.
- FrameSender.SendV: `writev` takes all it is given.
- Wsj1InPlace.OnText: nothing is claimed of what happens after an item that nothing stored is looked at.
- Wsj1Messages.CallRoundTrip: the object is a balanced text without blanks at its ends, as json-c prints it.
- LocaleNames.SearchFolder: `tolower` for ASCII; the folders are given sorted, as `qsort` leaves them; scanning the directory and opening files are left out.
- LocaleSearch.RangeGivesLongest: a blank before a separator stays part of its range, as in the code.
- LocaleRoot.Root.Search: the default search and the reference counts are in `LocaleRefs` and not in the class `Root`.
- SessionTable.Table.GetSession: values, cookies and the level of assurance of a session; the mutex around the table; the sum of a time and a timeout does not overflow.
- SessionTheorems.StoreSound: an empty uuid given by a caller is excluded: it would find closed sessions.
- ctxTokenCheck, accessors and setters, `src/afb-hook.c`, `src/afb-subcall.c`, `src/afb-svc.c`, `src/afb-context.c`, `src/afb-apis.c`, `src/afb-hsrv.c`: they forward, compare or set flags.
- Sockets, epoll, sd-event, sd-bus, HTTP, `src/afb-api-dbus.c`, `src/main.c`, the bindings: foreign calls, or the same schemes over a library that cannot be seen.
