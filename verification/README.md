# GameEventSystem: verified model

This project models the network and persistence extension of the game event system, and the
tick scheduler that drives the event handlers, and proves what they promise. `dafny verify
dfyconfig.toml` checks all of it.

There are two kinds of model, and they share their functions.

*Bodies that one thread runs* are methods on mutable objects, with the loops of the source:
`GameServer` (`Session`, the packet router, the bridge, the job queue between two waits),
`IoCompletionPort`, `NetworkServer`, `ConnectionPool.Pool`, `UserEvents.CUser` and
`TickWindows.Check`. Socket calls succeed or fail as an arbitrary function `io` of the call's
number says, so every contract holds for every behaviour of the network.

*Protocols between threads* are transition systems: a state, labels, `Enabled` and `Apply`, and
an inductive invariant proved for every run.

| module | what runs concurrently |
|---|---|
| `RecvProtocol` | any number of sessions and IOCP workers; `OnRecvComplete` is cut into its unlocked steps (append, one turn of the loop, compact, post) |
| `SendProtocol` | posting threads, the kernel and completion workers of one session; a section under `send_mutex_` is one step |
| `SessionLifetime` | `RecvProtocol` and `SendProtocol` on the same sessions, with one `closed_` flag and the entry in the completion port's map |
| `JobQueueProtocol` | producers, workers, the main thread and `Stop`; notify is apart from push, and the gap between a worker's predicate check and its sleep is a state of its own |
| `EventLoad` | the job queue, plus the shared rows cells, the table and the users' containers |
| `LoginServer` | `RecvProtocol` and `EventLoad` joined by `HandleLogin` |
| `ConnectionPool` | the job queue's workers, plus the connections they borrow and wait for |
| `IocpShutdown` | IOCP workers and the null completions of `Stop` |
| `ServerShutdown` | `IocpShutdown` and `JobQueueProtocol` joined by the order in which `NetworkServer::Stop` stops them |

`QueueShutdown` holds the results about stopping the job queue. `LoadRefinement` and
`RecvRefinement` join the two kinds of model: `AsyncDbJobQueue.WorkerLoop`,
`AsyncDbJobQueue.ProcessCompletions` and `Session.OnRecvComplete` compute what a thread reaches by
steps of the protocols; `Steps` says what reaching is.

Each operation is also stated on plain fields, bytes and numbers, without the functions of the
model: the lemmas whose names end in `Exactly` or `Layout`, and the contracts of the methods.

`Framing` holds the packet parser and printer, `SessionModel` the send-side and routing functions
(`TryFlush`, `Pushed` and `Popped` serve both the `Session` methods and `SendProtocol`), and
`TickWindows` and `EventHandlers` the time checks.

## What the proofs found

- A payload of more than 4092 bytes is accepted by `PostSend` but can never be received: the
  receiver drops the connection, also for the four lengths where the 16-bit size field wraps.
  `RoundTrip` and `ParseOfPosted` give the exact condition.
- `AsyncDbJobQueue::Stop` clears `running_` and notifies without `job_mutex_`, although
  `Persistence/AsyncDbJobQueue.h:39` says that it wakes the waiting workers. It does if and only if
  no worker holds `job_mutex_` between its predicate check and its sleep at that moment; otherwise
  it misses the one that does (`StopWakesAllIffUnlocked`). If nobody is missed, nothing keeps the
  joins from returning (`JoinReturns`, `ShutdownJoins`). In this program nothing but a spurious
  wakeup ever wakes the missed worker (`ShutdownReturnsIffUnlocked`).
- The jobs that never run are those enqueued after the last worker returned (`DrainOnStop`), and
  such a job is accepted without a word (`LateJobIsLost`). Nothing is lost if nothing is enqueued
  from some moment before `Stop` on (`DrainIfNoLatePush`); and `NetworkServer::Stop` always meets
  that, because it joins the enqueuing threads first (`ShutdownDrains`).
- The close of a hunting event is announced only if a check falls on the very second of the close,
  and its start only if one falls between start and close (`HuntingNotifiedExactly`), so both can
  be missed (`HuntingCloseCanBeMissed`, `HuntingStartCanBeMissed`).
- `NetworkServer::Tick` never takes a closed session out of the completion port's map: it asks for
  the socket after `Close` has overwritten it (`NetworkServer.Server.Tick`). As the
  kernel fails what is outstanding on a closed socket, the entry goes away if and only if an
  operation of the session was outstanding, or had failed unhandled, when it was closed
  (`ClosedSessionUnmapped`). A session closed for a bad length while nothing is being sent on it
  stays in the map for ever (`BadLengthIsForgotten`, `ForgottenExists`).
- `Network/PacketRouter.cpp:58-59` says that `PostSend` is called from the main thread only; the
  code also calls it from IOCP workers (lines 38, 79 and 90): routing one packet posts the answers
  of `SessionModel.RouteOneAnswers`. `SendProtocol` allows any thread.
- `Persistence/MySqlConnectionPool.h:7-8` holds for a pool as large as the number of workers
  (`PoolOwnership`), and in any other pool that is not empty some query can always go on
  (`PoolServesIffNotEmpty`). But nothing in the repository calls `Init`, and over the pool of size
  zero that this leaves no load ever finishes.

## Model

| member | source | states |
|---|---|---|
| Framing.FrameLayout | Network/PacketDefs.h:17-22 | the bytes of a frame: the low 16 bits of the total size, then the opcode, both little-endian, then the payload |
| Framing.HeadLayout | Network/Session.cpp:70-87 | by the bytes of the buffer: fewer than 4 wait, a size below 4 or above 4096 is bad, an incomplete packet waits, and a complete one is its opcode and its payload |
| Framing.ReadHead | Network/Session.cpp:70-87 | a packet found at the start of the buffer lies within it, and its size is between 4 and 4096, so the loop advances and no slice leaves the buffer |
| Framing.ParseSound | Network/Session.cpp:68-98 | what the parser routes, framed again and followed by the leftover, is the received stream; the leftover starts with no complete packet |
| Framing.ParseUnique | Network/Session.cpp:68-98 | the parser finds the only decomposition of a stream into frames and a tail |
| Framing.ParseTurn | Network/Session.cpp:70-94 | one turn of the offset loop moves exactly one packet from the unparsed part to the end of the routed ones |
| Framing.ParseStop | Network/Session.cpp:75-84 | where the loop ends, everything routable was routed, and it is a bad length exactly if the session is dropped |
| Framing.ParseResume | Network/Session.cpp:63-98 | parsing may stop after any prefix and resume from the leftover; bytes after a bad length change nothing |
| Framing.ChunkingIndependence | Network/Session.cpp:54-101 | for every cutting of the stream into chunks, the packets routed, the verdict and the open session's leftover are those of one parse of the whole |
| Framing.LeftoverBound | Network/Session.cpp:96-98 | an open session keeps fewer than 4096 bytes |
| Framing.ParseOfPosted | Network/Session.cpp:103-115 | for any list of packets PostSend can frame, the receiver routes those before the first that exceeds 4096 bytes and drops the connection exactly if there is one, wrapped size fields included |
| Framing.RoundTrip | Network/Session.cpp:69-115 | posted packets arrive as they were, in any chunking, with nothing left over and no disconnect, if and only if every payload has at most 4092 bytes |
| Framing.FramingInjective | Network/PacketDefs.h:14-24 | different packet lists have different encodings |
| SessionModel.FlushExactly | Network/Session.cpp:122-146 | WSASend is called exactly if nothing is in flight, something is queued and the session is open; then the send is in flight, or the session closed |
| SessionModel.PostExactly | Network/Session.cpp:103-120 | an open session queues the frame at the back, and sends it exactly if nothing is in flight |
| SessionModel.SendDoneExactly | Network/Session.cpp:148-156 | the front packet is gone and the next one is sent, if there is one and the session is open |
| SessionModel.LoadExactly | Network/PacketRouter.cpp:32-46 | a login is opcode 1001 with at least eight bytes, and its uid is those bytes, little-endian |
| SessionModel.AnswerFrames | Network/PacketDefs.h:26-37 | the bytes of the four answers |
| SessionModel.RouteOneExactly | Network/PacketRouter.cpp:11-92 | a login of at least eight bytes binds the session; a shorter one is refused; an event request gets the acknowledgement if a user is bound and the error if not, in bytes; any other opcode gets nothing |
| SessionModel.ReceiveExactly | Network/Session.cpp:54-101 | a chunk is parsed behind the buffer, its packets routed, and then a bad length closes the session, or an open one makes one receive call |
| SessionModel.RouteOneAnswers | Network/PacketRouter.cpp:11-92 | routing one packet queues exactly its answer, if the session is open, and binds a user exactly for an accepted login |
| SessionModel.RoutingAnswersInOrder | Network/PacketRouter.cpp:11-92 | requests are answered in order and once each; if a send fails, a prefix of the answers was queued; a session has a user once a login was accepted |
| GameServer.Session.constructor | Network/Session.cpp:8-14 | a new session has empty buffers and a 4096-byte receive buffer |
| GameServer.Session.PostRecv | Network/Session.cpp:27-52 | afterwards a receive is outstanding exactly if the session is open; a failed call closes it |
| GameServer.Session.TryFlushSendQueueNoLock | Network/Session.cpp:122-146 | issues a send exactly if none is in flight, the queue is not empty and the session is open; a failed call closes it |
| GameServer.Session.PostSend | Network/Session.cpp:103-120 | an open session queues the framed packet at the back and, if nothing is in flight, makes one send call, which puts it in flight or closes the session; a closed one ignores it |
| GameServer.Session.OnSendComplete | Network/Session.cpp:148-156 | pops the front packet and makes one send call exactly if another is queued and the session is open |
| GameServer.Session.Route | Network/PacketRouter.cpp:11-92 | a well-formed login binds a new user with no records and queues its load for this session; all else queues at most one answer and no load |
| GameServer.Session.RouteBuffered | Network/Session.cpp:68-98 | the in-place loop routes exactly the packets that the pure parser finds, in order, and keeps its leftover; a bad length stops it with the buffer as it was |
| GameServer.Session.OnRecvComplete | Network/Session.cpp:54-101 | appends the chunk, routes what is complete and posts the next receive exactly if still open; agrees with the chunk fold; the buffer stays within 8191 bytes and an open session's leftover within 4095 |
| GameServer.LoadUserEventsAsync | Persistence/EventDbBridge.cpp:7-42 | queues one load, none for a null user |
| GameServer.RunCallback | Persistence/EventDbBridge.cpp:26-41 | the user's records are overridden by the rows and the success acknowledgement is posted on the captured session |
| GameServer.LoadedIsOwnRows | Persistence/EventDbBridge.cpp:26-37 | after a batch of callbacks a user's records are the old ones overridden by all of its own rows in order, and by no other user's |
| GameServer.AckedOncePerLoad | Persistence/EventDbBridge.cpp:39-40 | after a batch of callbacks a session has queued, behind what it had, one success acknowledgement per load of its own, in bytes, and none for another's |
| GameServer.LoadsQueuedExactly | Network/PacketRouter.cpp:44-68 | the jobs queued for a run of logins: the earlier ones first, then one per uid in order, for this session, each with a user of its own |
| GameServer.ResultsInOrder | Persistence/EventDbBridge.cpp:17-25 | each job completes with its own user and session and with the rows that the table held for its own uid at its turn |
| GameServer.AsyncDbJobQueue.Enqueue | Persistence/AsyncDbJobQueue.cpp:28-52 | the job is queued behind the others |
| GameServer.AsyncDbJobQueue.WorkerLoop | Persistence/AsyncDbJobQueue.cpp:78-96 | a worker alone runs every queued job in order, each query on the table as it is then, pushes each one's completion in that order, and returns exactly if the queue is being stopped |
| GameServer.AsyncDbJobQueue.ProcessCompletions | Persistence/AsyncDbJobQueue.cpp:54-70 | the callbacks present at the swap are run, in order; each user and each session ends as its own callbacks make it |
| IoCompletionPort.Port.AssociateSocket | Network/IoCompletionPort.cpp:54-71 | fails exactly if the system call does, with the map as before; else the socket maps to the session |
| IoCompletionPort.Port.RemoveSession | Network/IoCompletionPort.cpp:73-77 | exactly this socket is unmapped |
| IoCompletionPort.Port.Handle | Network/IoCompletionPort.cpp:96-122 | completions of unmapped sessions are ignored; failure or end of stream closes and unmaps; the rest reach the handler of their direction; afterwards an open session has a receive outstanding again, as the next turn of the loop needs |
| NetworkServer.Server.Accept | Network/NetworkServer.cpp:96-122 | a new session is known to the port and to the server, has no user and nothing buffered, and has made one socket call, a receive, closing if that failed; a refused socket or association changes nothing |
| NetworkServer.Server.Tick | Network/NetworkServer.cpp:126-153 | completed loads are applied and acknowledged first; then closed sessions are dropped and the others keep their order; the last-check time of a user becomes now exactly if an open session has it and five seconds have passed; the port's map loses no accepted socket |
| NetworkServer.Server.CheckSessions | Network/NetworkServer.cpp:137-153 | the erase-while-iterating loop keeps exactly the open sessions, checks each of their users once, and asks the port to forget only the overwritten socket value |
| NetworkServer.OpenExactly | Network/NetworkServer.cpp:137-145 | the sessions that stay are the open ones |
| RecvProtocol.InvStep | Network/Session.cpp:54-101 | every step of every thread keeps the token exclusive and the received bytes accounted for |
| RecvProtocol.OneReceiverPerSession | Network/IoCompletionPort.cpp:79-124 | in every run, while a worker is in a session's receive code there is no outstanding receive, no queued completion, no pending first receive and no second worker for it |
| RecvProtocol.RoutedIsSequentialParse | Network/Session.cpp:27-101 | in every run, the packets routed for a session are the first ones of the sequential parse of its bytes, all of them when it waits for data, and none at or after a bad length |
| RecvProtocol.SlicesInBounds | Network/Session.cpp:63-98 | in every run, a worker's next slice is inside its buffer, and no session's buffer ever exceeds the 8192 bytes reserved |
| SendProtocol.InvStep | Network/Session.cpp:103-156 | every locked section and every kernel step keeps the send invariant |
| SendProtocol.SendsInOrder | Network/Session.cpp:103-156 | in every run, at most one send is outstanding, on the unaltered front packet; pushed packets are the popped ones followed by the queue; the kernel sends them in push order; no packet of an open session is stranded |
| SendProtocol.PeerParsesPosted | Network/Session.h:18-20 | the peer's parse of what was delivered is the posted packets, whole and in push order, up to the first oversized one, and it drops the connection exactly if that one was delivered |
| SendProtocol.PostRefines | Network/Session.cpp:103-120 | PostSend is the protocol's locked step: the same send side, and the kernel is given the front packet exactly if the method's socket call was made and accepted |
| SendProtocol.SendDoneRefines | Network/Session.cpp:148-156 | the same for OnSendComplete |
| SendProtocol.NothingStranded | Network/Session.cpp:122-156 | neither leaves an open session with a packet queued and nothing in flight |
| SessionLifetime.InvStep | Network/Session.cpp:158-168 | every step of either direction keeps the invariants of both, one closed flag between them, and only closed sessions unmapped |
| SessionLifetime.ForgottenForever | Network/NetworkServer.cpp:140-144 | in every run, a closed session with no operation outstanding or failed unhandled is neither mapped nor unmapped by anyone again |
| SessionLifetime.ClosedSessionUnmapped | Network/IoCompletionPort.cpp:104-116 | in every run in which the kernel fails what is outstanding, a closed session has been unmapped, once nothing of it is left, if and only if it had something outstanding or failed unhandled |
| SessionLifetime.BadLengthIsForgotten | Network/Session.cpp:76-81 | in every run, a session closed for a bad length stays mapped for ever unless a send was outstanding or had failed unhandled; and if one was, it is unmapped once nothing of it is left |
| SessionLifetime.ForgottenExists | Network/Session.cpp:76-81 | a run of seven steps in which that happens, on a header of size zero |
| JobQueueProtocol.InvStep | Persistence/AsyncDbJobQueue.cpp:14-96 | every step of every thread keeps the job queue's invariant |
| JobQueueProtocol.NoLostWakeup | Persistence/AsyncDbJobQueue.cpp:47-51 | in every run, a worker sleeps only while each queued job has an awake worker or an owed notify of its own; with a job queued and a worker alive someone is awake or owes a notify |
| JobQueueProtocol.ExactlyOnce | Persistence/AsyncDbJobQueue.cpp:28-96 | in every run, each pushed job is in exactly one place; work and callback run at most once, the callback after the work; jobs are taken in push order |
| JobQueueProtocol.Conservation | Persistence/AsyncDbJobQueue.cpp:28-96 | in every run, the stages together hold as many jobs as were pushed |
| JobQueueProtocol.SingleWorkerOrder | Persistence/AsyncDbJobQueue.cpp:54-96 | with one worker, the callbacks run are a prefix, in push order, of those enqueued |
| JobQueueProtocol.SnapshotOrder | Persistence/AsyncDbJobQueue.cpp:57-69 | one ProcessCompletions runs exactly what its swap found, in order, while others push; until that is done a call is possible, each call takes one away, and no other step adds to it |
| QueueShutdown.DrainOnStop | Persistence/AsyncDbJobQueue.cpp:14-26 | once all workers have returned, a job's work has run if and only if it was pushed by the time the last one did, and its callback has run or is held for the main thread |
| QueueShutdown.DrainIfNoLatePush | Persistence/AsyncDbJobQueue.cpp:14-26 | with at least one worker and nothing enqueued from some moment before Stop on, no job is left when the joins have returned and every accepted job's work has run |
| QueueShutdown.LateJobIsLost | Persistence/AsyncDbJobQueue.cpp:28-52 | a job enqueued after the last worker returned stays queued and its work does not run, however the run goes on |
| QueueShutdown.LateJobExists | Persistence/AsyncDbJobQueue.cpp:28-52 | a run in which Enqueue accepts such a job |
| QueueShutdown.StopWakesAllIffUnlocked | Persistence/AsyncDbJobQueue.cpp:14-26 | the notify of Stop reaches every waiting worker, for good, if and only if no worker holds job_mutex_ between predicate and sleep at that moment; otherwise it misses exactly the worker that does, who, with no notify owed, stays asleep and unjoined |
| QueueShutdown.WaitsStep | Persistence/AsyncDbJobQueue.cpp:82-85 | after that notify a waiting worker goes on waiting under every step but an owed notify or a spurious wakeup, and nobody begins to wait |
| QueueShutdown.StuckForever | Persistence/AsyncDbJobQueue.cpp:16-24 | with no notify owed, no run without a further Enqueue or a spurious wakeup releases a missed worker |
| QueueShutdown.JoinReturns | Persistence/AsyncDbJobQueue.cpp:19-25 | if nobody was missed, every worker that has not returned can go on, each worker step lowers a bound on the steps left, and at zero all have returned with the queue empty |
| QueueShutdown.StopCanMissOne | Persistence/AsyncDbJobQueue.cpp:16-24 | a run that ends with Stop waiting for a missed worker and no notify owed |
| ServerShutdown.InvStep | Network/NetworkServer.cpp:66-90 | every step keeps the notifies owed with live IOCP workers, and the queue's stop after their end |
| ServerShutdown.ShutdownDrains | Network/NetworkServer.cpp:87-88 | in every run of the server, once the queue's workers have returned no job is left and every job ever accepted has run; while the queue is being stopped no Enqueue is under way or begins |
| ServerShutdown.ShutdownReturnsIffUnlocked | Network/NetworkServer.cpp:87-88 | in every run of the server, nobody is asleep behind the join if and only if no worker holds job_mutex_ between predicate and sleep at the notify; otherwise that worker is never joined, short of a spurious wakeup |
| ServerShutdown.ShutdownJoins | Network/NetworkServer.cpp:87-88 | in every run of the server, if nobody is asleep behind the join, every worker that has not returned can go on, each worker step lowers a bound that no step raises, and at zero all have returned with the queue empty |
| LoadRefinement.LoadedAgree | Persistence/EventDbBridge.cpp:26-37 | the object model and the protocol say the same of what a batch of loads does to a user |
| LoadRefinement.EnqueueRefines | Persistence/EventDbBridge.cpp:17-41 | a load queued for a new user is one step of the protocol, behind the others, with that user's uid and an empty container |
| LoadRefinement.ProcessCompletionsRefines | Persistence/AsyncDbJobQueue.cpp:54-70 | the method's result is reached by one run, of a swap and the ready callbacks row by row, at whose end the container of every user is what the method's contract says |
| LoadRefinement.WorkerLoopRefines | Persistence/AsyncDbJobQueue.cpp:78-96 | the method's result is reached by one worker taking, running and completing each queued job, while others change the table |
| RecvRefinement.OnRecvCompleteRefines | Network/Session.cpp:54-101 | one worker's append, turns, compaction and post make of a chunk what the chunk fold makes of it, and leave a receive outstanding exactly if the session is open |
| UserEvents.OverlayLastRowWins | Persistence/EventDbBridge.cpp:28-37 | the last row of an event gives its record, field by field |
| UserEvents.OverlayKeepsOthers | Test/MockTypes.h:53-62 | events without a row keep their record |
| UserEvents.OverlayConcat | Persistence/EventDbBridge.cpp:28-37 | two loads one after the other are one load of the rows of both |
| UserEvents.QueryExactly | Persistence/MockDb.h:34-43 | what was seeded for a uid is found for it, and nothing is found for an unknown one |
| UserEvents.CUser.GetInfo | Test/MockTypes.h:53-57 | finds the record of an event exactly if there is one |
| UserEvents.CUser.Insert | Test/MockTypes.h:59-62 | replaces the record of its event and no other |
| UserEvents.CUser.InsertRows | Persistence/EventDbBridge.cpp:28-37 | the row loop overrides the records by all rows |
| EventLoad.InvStep | Persistence/EventDbBridge.cpp:7-42 | every step keeps the containers equal to what the finished loads make them |
| EventLoad.ContainersHoldLoads | Persistence/EventDbBridge.cpp:17-41 | in every run, each container is the old one overridden by the rows of the callbacks run for its user, in that order; each load's rows are what the table held for its own uid since the request, and nothing before its work has run |
| EventLoad.LoadedAlone | Persistence/EventDbBridge.cpp:17-41 | a load with a user of its own leaves exactly the old map overridden by its own rows, whatever other loads do: the last row of an event gives its record field by field, and other events keep theirs |
| EventLoad.OnlyMainThreadWrites | Persistence/AsyncDbJobQueue.h:5-11 | a container changes only while the main thread runs a callback, for that callback's user, by one of its rows |
| EventLoad.CellHasOneOwner | Persistence/EventDbBridge.cpp:15-41 | in every run, a rows cell is never with a worker and the main thread at once, and is written once, by the worker that holds its job |
| LoginServer.InvStep | Network/PacketRouter.cpp:32-69 | every step of the joined system keeps the login balance of every session |
| LoginServer.LoginConservation | Network/PacketRouter.cpp:32-69 | in every run and for each session, the CS_LOGIN packets parsed equal refusals plus grants posted plus loads under way, and the loads are for the uids of its accepted logins, in order |
| LoginServer.OpenLoadIsSomewhere | Persistence/AsyncDbJobQueue.cpp:28-96 | in every run, a load under way is in exactly one of queue, worker, completion queue and ready list |
| LoginServer.GrantedAfterLoad | Persistence/EventDbBridge.cpp:26-41 | in every run, a login is granted on its own session and only when the user it created holds exactly the rows queried for its uid |
| ConnectionPool.Pool.Init | Persistence/MySqlConnectionPool.cpp:100-106 | adds one new connection per worker |
| ConnectionPool.Pool.Acquire | Persistence/MySqlConnectionPool.cpp:108-115 | takes the oldest idle connection, or waits exactly if there is none |
| ConnectionPool.Pool.Release | Persistence/MySqlConnectionPool.cpp:117-122 | the connection goes to the back |
| ConnectionPool.Pool.QueryUserEvents | Persistence/DbTypes.cpp:11-23 | unless it waits, returns the user's rows and gives the connection back, behind the others |
| ConnectionPool.PoolOwnership | Persistence/MySqlConnectionPool.cpp:100-122 | in every run, each connection is in one place; with at least as many connections as workers none ever waits; an empty pool means that workers in a query hold all of them |
| ConnectionPool.PoolServesIffNotEmpty | Persistence/MySqlConnectionPool.cpp:108-122 | in every run, while a worker sleeps each idle connection has an awake worker coming for it; with at least one connection a worker at Acquire means that some worker can acquire or release; with none no job's work ever finishes |
| ConnectionPool.QueryRefines | Persistence/DbTypes.cpp:17-21 | whoever sleeps, a worker that finds a connection reaches the end of its job's work in three steps, with the pool as the method leaves it and one sleeper woken |
| IocpShutdown.TokensMatchWorkers | Network/IoCompletionPort.cpp:29-52 | in every run after running_ is cleared, null completions queued and still to be posted equal the workers not yet reached; none waits in vain and none is left over |
| IocpShutdown.SomeoneCanStep | Network/IoCompletionPort.cpp:29-52 | in every run after running_ is cleared, a worker that has not exited can go on or Stop has a token to post; with all posted a waiting worker finds one |
| TickWindows.Check | Update/EventUpdateChecker.cpp:6-33 | a check is accepted exactly if five seconds have passed, hands out the window since the last one and moves the last-check time; otherwise nothing changes |
| TickWindows.ToTimeTExactly | Update/EventUpdateChecker.cpp:14-16 | a time point is turned into its second, rounding towards the epoch |
| TickWindows.OneMoreCheck | Update/EventUpdateChecker.cpp:11-33 | after any checks, one more is accepted exactly if five seconds have passed since the last accepted one, and its window begins there |
| TickWindows.WindowsTile | Update/EventUpdateChecker.cpp:11-24 | for any time points, backwards jumps included, accepted checks are at least five seconds apart and their windows are consecutive |
| TickWindows.ThrottleBound | Update/EventUpdateChecker.cpp:27-33 | for a last-check time at or after the epoch, as every run has, five times the accepted checks never exceeds the elapsed whole seconds |
| TickWindows.BoundarySeenOnce | Update/EventUpdateChecker.cpp:14-18 | a time boundary falls in exactly one window if the accepted checks have covered it, and in none otherwise |
| EventHandlers.MissionPassExactly | Handlers/MissionPassEventHandler.cpp:26-42 | the answer to any context, from its fields |
| EventHandlers.AttendanceExactly | Handlers/AttendanceEventHandler.cpp:30-63 | the answer to any context, from its fields: restart, going on, close, daily reset or nothing |
| EventHandlers.HuntingExactly | Handlers/HuntingEventHandler.cpp:23-43 | the answer to any context, from its fields: nothing outside the period, an edge, going on without a live record, or nothing |
| EventHandlers.NotificationsExactly | Update/EventUpdateChecker.cpp:61-72 | a row is counted as notified exactly if the handler notifies at one of the checks, in the context that the check builds |
| EventHandlers.NotifiedByOneEdge | Handlers/AttendanceEventHandler.cpp:30-79 | a check notifies exactly if one edge calls for it, never for both, and never resets, reset_time being unset |
| EventHandlers.AtMostOncePerEdge | Handlers/HuntingEventHandler.cpp:23-90 | over any run of checks and any changes of the record, a row of any of the three handlers notifies at most once per edge, and only for covered edges |
| EventHandlers.MissionPassNotifiedOnce | Handlers/MissionPassEventHandler.cpp:170-221 | a user without a record is notified of a timed start exactly once if it was covered, a user with a live record of the close |
| EventHandlers.HuntingNotifiedExactly | Handlers/HuntingEventHandler.cpp:23-90 | for every record, the handler notifies once for the start if an accepted check between start and close has it in its window, once for the close if one falls on its very second with the start behind it, and not otherwise |
| EventHandlers.HuntingPassedOver | Handlers/HuntingEventHandler.cpp:28-29 | a check whose window holds the close returns nothing exactly if it falls after that second (or the row starts later) |
| EventHandlers.HuntingCloseCanBeMissed | Handlers/HuntingEventHandler.cpp:64-90 | checks that cover start and close, where for every record the handler returns nothing at the check that covers the close and notifies only the start |
| EventHandlers.HuntingStartCanBeMissed | Handlers/HuntingEventHandler.cpp:64-79 | a check that covers start and close, where for every record nothing is notified |

## Left out

- Winsock, IOCP, MySQL and clock calls: they are environment steps. A receive brings 1 to 4096 bytes, ends or fails; a send completes whole or fails (the source ignores the byte count); a query returns the rows that the table holds at that step; a wait on the completion port returns no null entry that nobody posted.
- Reuse of socket values as completion keys: session ids in `RecvProtocol` are never reused.
- In `SessionLifetime` the completions of sends are handled by workers of their own, which allows every interleaving of the source and more.
- Fairness: the results are about every state of every run; that a runnable thread gets to run is not modelled. `JoinReturns`, `ShutdownJoins` and `PoolServesIffNotEmpty` say that somebody can run, not that everybody does.
- Exceptions thrown by work functions, callbacks or number conversion, which would end the process.
- GameServer.AsyncDbJobQueue.WorkerLoop: one worker up to its first wait; several workers and the waiting are in `JobQueueProtocol`.
- ConnectionPool.Pool.Acquire: says that it waits, and leaves the waiting and waking to the protocol in the same module.
- IoCompletionPort.Port.Handle: one completion; the loop around it and the interleaving are in `RecvProtocol`, `SendProtocol` and `IocpShutdown`.
- GameServer.Session.GetSocket: `socket_` is not a field of its own, but follows from `closed_`, which `Close` sets first; a thread that reads it between the two writes is not modelled.
- GameServer.Session.RouteBuffered: a part of `OnRecvComplete` in the source, a method of its own here.
- Records are values: the source shares `UserEventInfo` objects by pointer, so an update through a pointer obtained earlier is not captured.
- `CZoneGroup`, level and new/returning flags of `CUser`: carried along by the source and not used by the modelled code.
- Several jobs for work other than loads: `JobQueueProtocol` covers them, `EventLoad` and `LoginServer` have loads only, as the repository does.
- `EventLoginSyncer`, `EventInfoPacketBuilder`, the table loop of `ProcessEventLoop`, and all handler bodies that are comments; the handlers are applied to the windows of `Check` instead.
- Bingo, siege-eve and benediction handlers, login sync and packet filling, whose times and updates are stubs.
- The daily reset of the attendance handler: `Check` never sets `reset_time`, and `NotifiedByOneEdge` shows that it then never happens.
- Dispatcher registration, logging, console modes and build files.
