# Verified model of the message pipeline

A model, in Dafny 4.11, of the TCP message server in `Server-version-3-multi-thread`: bytes
come in on many connections, are cut into frames (2-byte id, 2-byte length, payload), queued
for one worker thread, answered by callbacks, and the replies are queued and written back.
`Server-version-3` is the same pipeline with one I/O thread; where it differs (notification
under the lock, the registry on one thread) both variants are modelled.

`dafny verify dfyconfig.toml` checks the project.

## Layers

| file | what it models |
|---|---|
| Wire.dfy | bytes, shorts, host and network byte order |
| Frames.dfy | frames, their encoding, and the one-shot parser that gives a byte stream its meaning |
| MsgNode.dfy | the buffers (`MsgNode`, with the id of `RecvNode` and `SendNode`), `memcpy`, `memset` |
| Receive.dfy | the receiving half of `CSession`: the in-place incremental decoder |
| SendQueue.dfy, Send.dfy | the send queue as a function, and the sending half of `CSession` that implements it |
| Messages.dfy, LogicSystem.dfy | the shared queue, its projection on one session, the worker's turns and the drain |
| WakeUp.dfy | the mutex, condition variable and stop flag, action by action |
| Session.dfy, Server.dfy | one session with its handlers, and the whole server in every interleaving |
| Trace.dfy | what the steps of a run alone say about its sessions |
| Guarantees.dfy | what follows for every run |
| Answering.dfy | which sessions can still have everything answered |
| Scenarios.dfy | runs that exist: every input can be answered, errors can come, handlers overlap |
| LockOrder.dfy | the three kinds of mutex |
| Acceptor.dfy | the I/O context pool and the server object |

The classes in Receive.dfy, Send.dfy, LogicSystem.dfy and Acceptor.dfy follow the source step
by step and are proved against pure specifications: `Parse`, the functions of SendQueue.dfy,
the message sequences, the context sequence. Server.dfy composes the same specifications: its
`Sessions.Read` posts what `Parse` finds, its sends and completions are the functions of
SendQueue.dfy, its `Dispatch` is one turn of the worker. A step of Server.dfy is one critical
section, one completion of an operation, or one stretch of a handler between two of them. The
handlers of one thread exclude each other: the accept handler has thread 0, a session the
thread of its context (`Acceptor.Context`), and with `oneThread` all share thread 0.

The results about runs are stated on the steps of the run: what the reads delivered, which
reads and writes failed, what the network took, which messages were offered. The functions
that compute this (`Traces.Delivered`, `Traces.InRegistry`, `WakeUp.Offered` and others) see only
the list of steps, not the state.

## What the environment is taken to do

A read delivers 1 to 2048 bytes or an error (the decoder itself is also proved for 0 bytes,
after which it arms nothing). `async_write` puts its bytes on the wire in order and completes
after the last, or fails after any of them. After `Close` nothing more goes out: a write can
only fail, unless its last byte was out before. A read that had completed before `Close` may
still deliver its bytes; the model allows this for every later read of the session too, which
only adds runs, and no claim that something can happen uses them. Handlers never run inside the
call that starts their operation, and a handler begins only when none runs on its thread. A
callback is an unknown total function from id and payload to one reply; its id is its own.
UUIDs are distinct. The pool has at least one context: the code takes element 0
unconditionally.

## Where a promise fails, and exactly when it holds

- A message is carried back whole only if its frame fits a buffer of `short` size
  (`TextCarriedWhole`, with the 65536-byte text of `TextTruncated`).
- Encoding and decoding are inverse only within the limits of 2048, which the encoder does not
  check (`RoundTrip`).
- Stopping the worker can be missed (`StopCanBeMissed`). In any stopped state the threads under
  way can still bring it to its exit if and only if it neither sleeps nor is about to, or some
  producer has the mutex and is about to push, or owes a notification (`StopEffective`); so the
  stop notification itself is lost if and only if it finds the worker between its test and its
  wait and no producer about to notify (`StopLostExactly`).
- In the multi-threaded server a closed session can stay registered (`StaleRegistration`), exactly
  if what cleared it came before its insertion (`RegistryExact`); on one thread it cannot
  (`RegistryOnOneThread`).
- Not every session can still have its requests answered: exactly which can is
  `AnswerableExactly`.
- README.md of the server gives 2 bytes of header for the length only (lines 57-58); the code of
  version 3 has 2 bytes of id and 2 bytes of length, and the model follows the code.

## Model

| member | source | states |
|---|---|---|
| `Wire.StoreIsBigEndian` | Server-version-3-multi-thread/MsgNode.cpp:10-14 | id and length of a sent frame are big-endian bytes on a host of either byte order |
| `Wire.LoadIsBigEndian` | Server-version-3-multi-thread/CSession.cpp:125-139 | the decoder reads id and length as big-endian two's complement on a host of either byte order |
| `Wire.BigEndianInverse` | Server-version-3-multi-thread/MsgNode.cpp:10-14 | a short, negative ones included, and its two wire bytes determine each other |
| `Wire.TwosComplement` | Server-version-3-multi-thread/CSession.cpp:125-139 | reading a short without sign, and narrowing to a short, keep the number modulo 2^16 |
| `Frames.EncodeByByte` | Server-version-3-multi-thread/MsgNode.cpp:8-16 | the encoding byte by byte: id and length as two bytes each, most significant first, then the payload |
| `Frames.ParseIsTheDecomposition` | Server-version-3-multi-thread/CSession.cpp:107-212 | the parse of a stream is the one and only cut into encodings of legal frames followed by bytes that begin with no frame, with the reason why |
| `Frames.ParseExtend` | Server-version-3-multi-thread/CSession.cpp:107-212 | decoding may pause anywhere: frames found stay, and what follows depends on the past through the kept bytes alone |
| `Frames.ParseStuck` | Server-version-3-multi-thread/CSession.cpp:131-146 | after a bad header no frame is found any more |
| `Frames.ParseGrows` | Server-version-3-multi-thread/CSession.cpp:107-212 | later bytes never take back or change a frame already found, and a stream that has ended stays ended |
| `Frames.ParseAdvances` | Server-version-3-multi-thread/CSession.cpp:108-211 | each turn of the decoder loop follows the one-shot parse of everything received |
| `Frames.ParseOfEncodings` | Server-version-3-multi-thread/MsgNode.cpp:8-16 | of any list of encoded frames the receiver finds those before the first one over the limits and refuses there |
| `Frames.RoundTrip` | Server-version-3-multi-thread/MsgNode.cpp:8-16 | decoding the encodings gives the list back with nothing kept if and only if every id and every length is at most 2048 |
| `Frames.PrefixDecodes` | Server-version-3-multi-thread/CSession.cpp:107-212 | cut off anywhere, an encoding of legal frames decodes to a prefix of them |
| `Frames.ParseConservesBytes` | Server-version-3-multi-thread/CSession.cpp:107-212 | bytes of a stream = sum over found frames of 4 + length, plus the rest |
| `MsgNodes.MsgNode.Recv` | Server-version-3-multi-thread/MsgNode.h:12-15 | an empty zeroed buffer of the length plus one byte |
| `MsgNodes.MsgNode.Send` | Server-version-3-multi-thread/MsgNode.cpp:8-16 | the buffer of a send node is the encoding of its id and payload |
| `MsgNodes.MsgNode.Clear` | Server-version-3-multi-thread/MsgNode.h:22-25 | buffer zeroed and count 0 |
| `MsgNodes.Memcpy` | Server-version-3-multi-thread/CSession.cpp:111-111 | a copy replaces exactly the bytes of its destination range; every use of it proves that the range is inside the buffer |
| `Receive.ReceiveHalf.Start` | Server-version-3-multi-thread/CSession.cpp:28-32 | zeroes the buffer and arms the first read |
| `Receive.ReceiveHalf.PauseHeader` | Server-version-3-multi-thread/CSession.cpp:110-117 | a header still incomplete is kept, and exactly one read is armed |
| `Receive.ReceiveHalf.TakeHeader` | Server-version-3-multi-thread/CSession.cpp:119-139 | id and length read out of the completed header, whose count is left as it was |
| `Receive.ReceiveHalf.CheckHeader` | Server-version-3-multi-thread/CSession.cpp:131-148 | id or length above 2048 clears the session, a negative length aborts; either way frames found before stay and nothing is armed |
| `Receive.ReceiveHalf.ReadPayload` | Server-version-3-multi-thread/CSession.cpp:148-179 | a legal header starts a fresh message; it is posted if the chunk completes it, also with length 0, and kept otherwise |
| `Receive.ReceiveHalf.ReadBody` | Server-version-3-multi-thread/CSession.cpp:184-211 | a turn inside a message completes and posts it, or keeps what came |
| `Receive.ReceiveHalf.Consume` | Server-version-3-multi-thread/CSession.cpp:106-212 | the loop ends, consumes the whole chunk, and arms one read or none |
| `Receive.ReceiveHalf.HandleRead` | Server-version-3-multi-thread/CSession.cpp:102-223 | posted nodes and kept bytes are what the one-shot parse of all received bytes dictates; one read is armed exactly if the stream is still open; nodes already posted are untouched |
| `Receive.ReceiveHalf.PostedNotInUse` | Server-version-3-multi-thread/CSession.cpp:168-172 | no posted node is among the objects a later read may write to, although the session still refers to it |
| `Receive.ReceiveHalf.BytesConserved` | Server-version-3-multi-thread/CSession.cpp:107-212 | bytes received = wire size of the posted frames plus the bytes kept in header or message node |
| `Receive.ReceiveHalf.Run` | Server-version-3-multi-thread/CSession.cpp:102-212 | fed any chunks of 1 to 2048 bytes, the decoder ends with the frames and the state that one-shot parsing of their concatenation gives |
| `Receive.ReceiveHalf.RoundTripPosted` | Server-version-3-multi-thread/CSession.cpp:102-212 | after such a run over encodings of legal frames exactly those frames are posted, and the decoder waits for a header with nothing kept |
| `Receive.ReceiveFrames` | Server-version-3-multi-thread/CSession.cpp:28-32 | the whole round trip: a new session that is started and fed encodings of legal frames in any chunks posts exactly those frames, waits for a header with an empty header node, and has one read armed |
| `SendQueue.SendKeeps` | Server-version-3-multi-thread/CSession.cpp:34-49 | Send keeps writes serialised, wire and accounts consistent |
| `SendQueue.CompletedKeeps` | Server-version-3-multi-thread/CSession.cpp:80-89 | a successful completion never pops an empty queue and starts the next write exactly if a frame is left |
| `SendQueue.FailedKeeps` | Server-version-3-multi-thread/CSession.cpp:90-94 | a failed write keeps the same invariant with nothing in flight |
| `SendQueue.WireIsPrefix` | Server-version-3-multi-thread/CSession.cpp:34-49 | bytes on the wire are a prefix of the encoded accepted replies, and all of them when the queue is empty |
| `SendQueue.NothingRefused` | Server-version-3-multi-thread/CSession.cpp:36-40 | accepted + refused = offered, and all offers were accepted exactly when none was refused |
| `Send.SendHalf.SendBytes` | Server-version-3-multi-thread/CSession.cpp:51-66 | a full queue refuses whatever is offered; a length whose node cannot be allocated throws and changes nothing; otherwise the first bytes of the message, as many as the length says, are queued as a frame, and nodes and writes change exactly as the send-queue specification says |
| `Send.SendHalf.SendText` | Server-version-3-multi-thread/CSession.cpp:34-49 | the same for a string of any length, which is narrowed to a short |
| `Send.SendHalf.HandleWrite` | Server-version-3-multi-thread/CSession.cpp:77-100 | completion and failure of a write change the queue exactly as specified; failure closes and clears |
| `Send.TextCarriedWhole` | Server-version-3-multi-thread/CSession.cpp:42-42 | a node for the text can be allocated and carries the whole of it if and only if its frame fits a short-sized buffer |
| `Send.TextTruncated` | Server-version-3-multi-thread/CSession.cpp:42-48 | a text that is not carried: Send queues any 65536 bytes as a frame without payload, and on an empty queue writes its id and length 0 |
| `LogicSystems.LogicSystem.PostMsgToQue` | Server-version-3-multi-thread/LogicSystem.cpp:16-24 | appends one message and notifies exactly on the empty-to-one transition |
| `LogicSystems.LogicSystem.Stop` | Server-version-3-multi-thread/LogicSystem.cpp:11-12 | sets the stop flag, leaves the queue alone, and notifies whatever the queue holds |
| `LogicSystems.LogicSystem.DealFront` | Server-version-3-multi-thread/LogicSystem.cpp:52-61 | takes the front message; if its id is registered the callback is called once with session, id and the exact payload as text, otherwise not |
| `LogicSystems.LogicSystem.ResultsAreReplies` | Server-version-3-multi-thread/LogicSystem.cpp:37-61 | what the callbacks make of all their calls for a session are the replies to the messages of that session taken, in order |
| `LogicSystems.LogicSystem.DealTurn` | Server-version-3-multi-thread/LogicSystem.cpp:35-61 | a turn takes one message; after stop it takes all, in order, once each, and exits with an empty queue |
| `Messages.OfAppend` | Server-version-3-multi-thread/LogicSystem.cpp:16-24 | the messages of one session keep their order through the shared queue |
| `WakeUp.NextKeepsWakeUp` | Server-version-3-multi-thread/LogicSystem.cpp:16-32 | every step keeps: a sleeping worker with work queued has a notification coming |
| `WakeUp.Safety` | Server-version-3-multi-thread/LogicSystem.cpp:16-63 | in every interleaving: no lost wake-up and mutual exclusion; the messages that the producers brought, in the order of locking, are those posted and then the one a producer has still to push; each taking step takes the next of them; per session too |
| `WakeUp.AnythingCanBePosted` | Server-version-3-multi-thread/LogicSystem.cpp:16-61 | for any list of messages there is a run in which exactly they are offered, posted and taken |
| `WakeUp.NoGapUnderLock` | Server-version-3/LogicSystem.cpp:34-88 | notifying under the lock: with the mutex free, a sleeping worker means an empty queue |
| `WakeUp.CanDeliver` | Server-version-3-multi-thread/LogicSystem.cpp:16-61 | from every reachable state with work queued the threads under way can deliver the front message in at most 23 steps, without spurious wake-up |
| `WakeUp.DeliveredWithin` | Server-version-3-multi-thread/LogicSystem.cpp:16-61 | and no scheduler can put it off: every run of their steps longer than a bound, at most 4 n + 5 for n producers, has delivered it |
| `WakeUp.StopReachesExit` | Server-version-3-multi-thread/LogicSystem.cpp:28-49 | from a stopped state with the worker neither asleep nor about to sleep there is a run to its exit, with everything ever posted taken |
| `WakeUp.ExitsWithin` | Server-version-3-multi-thread/LogicSystem.cpp:28-49 | every run from there is bounded, and where no step is left the worker has exited with an empty queue |
| `WakeUp.StopEffective` | Server-version-3-multi-thread/LogicSystem.cpp:10-32 | in any stopped state the exit can be reached if and only if the worker neither sleeps nor is about to, or a producer is about to push or owes a notification |
| `WakeUp.StopLostExactly` | Server-version-3-multi-thread/LogicSystem.cpp:11-12 | the stop notification leaves the exit out of reach if and only if it comes between the worker's test and its wait with no producer about to notify |
| `WakeUp.StopCanBeMissed` | Server-version-3-multi-thread/LogicSystem.cpp:10-14 | a run in which the unlocked stop and its notification fall between test and wait, after which nothing is possible but a spurious wake-up or a new message |
| `WakeUp.StopMissedOnlyBeforeWait` | Server-version-3-multi-thread/LogicSystem.cpp:30-32 | after every run with the stop notification in it the exit is out of reach exactly if the worker sleeps or is about to and no producer will notify; and then that notification came when the worker was between its test and its wait |
| `Sessions.ReadKeeps` | Server-version-3-multi-thread/CSession.cpp:102-212 | a completed read keeps order, single read, use count and registry of the session |
| `Sessions.PostKeeps` | Server-version-3-multi-thread/CSession.cpp:168-168 | posting a message keeps them; the message holds the session |
| `Sessions.ReadReturnKeeps` | Server-version-3-multi-thread/CSession.cpp:114-219 | every way a read handler ends keeps them: re-armed, cleared, closed and cleared, or aborted; closed exactly by a failed read or write |
| `Sessions.HandleKeeps` | Server-version-3-multi-thread/LogicSystem.cpp:52-61 | taking a message keeps them; the callback's reply may start a write that holds the session |
| `Sessions.WriteDoneKeeps` | Server-version-3-multi-thread/CSession.cpp:80-89 | a completed write keeps them |
| `Sessions.WriteFailKeeps` | Server-version-3-multi-thread/CSession.cpp:90-94 | a failed write keeps them, with the session closed and cleared once |
| `Servers.StepKeeps` | Server-version-3-multi-thread/CServer.cpp:15-37 | every step of every I/O thread, the worker, the acceptor and the network keeps the invariant of every session |
| `Servers.ReachableInv` | Server-version-3-multi-thread/CServer.cpp:15-37 | so it holds in every reachable state, with any number of sessions |
| `Traces.RunTold` | Server-version-3-multi-thread/CSession.cpp:77-223 | after every run the received bytes of a session are those its reads delivered, its read and write have failed exactly if such a step is in the run, the wire has as many bytes as the network took, and stage, handlers, completed writes and registration are what the steps say |
| `Traces.RunQueueTold` | Server-version-3-multi-thread/LogicSystem.cpp:16-24 | messages of all sessions leave the queue in the order in which they were posted, one for each turn of the worker, and every completed accept makes one new session |
| `Guarantees.TakenAsPosted` | Server-version-3-multi-thread/CSession.cpp:161-200 | what the worker has taken of a session and what waits are the first requests in the bytes its reads delivered, as many as were posted |
| `Guarantees.EndToEnd` | Server-version-3-multi-thread/CSession.cpp:34-212 | replies are the callback results for a prefix of the registered requests in the bytes the reads delivered, in order; the wire, all the network took, is a prefix of the accepted ones; no offer found more than 1001 frames queued |
| `Guarantees.WireIsFunctionOfInput` | Server-version-3-multi-thread/LogicSystem.cpp:52-79 | with nothing refused, the bytes sent are a prefix of one function of the bytes that the reads delivered, and all of it when the session is quiet |
| `Guarantees.PeerSeesReplies` | Server-version-3-multi-thread/CSession.cpp:102-212 | a peer whose legal requests are delivered in any pieces decodes a prefix of the replies to them, and exactly those when quiet |
| `Guarantees.WritesSerialised` | Server-version-3-multi-thread/CSession.cpp:35-94 | at most one write in flight, its buffer the whole front frame; queue non-empty exactly while writing or after a failure; offers = completed + queued + refused; at most 1001 queued |
| `Guarantees.SingleRead` | Server-version-3-multi-thread/CSession.cpp:102-219 | never more than one read; one is pending exactly if the session was accepted, no read handler runs, no read has failed and the bytes delivered leave the stream open; reading is over exactly after a clearing read handler or an aborted header |
| `Guarantees.OverForGood` | Server-version-3-multi-thread/CSession.cpp:131-146 | once reading is over no later step completes or fails a read of the session or posts a frame of it |
| `Guarantees.OneHandlerPerThread` | Server-version-3-multi-thread/AsioIOServicePool.cpp:11-14 | never do two handlers run on one thread: no two of a session or of sessions of one context, and with one I/O thread no two at all |
| `Guarantees.DestroyedOnce` | Server-version-3-multi-thread/CSession.cpp:30-31 | the use count is the number of holders; a session is destroyed at most once, exactly when no accept, read, write, handler, message or registry entry holds it |
| `Guarantees.DestroyedIsInert` | Server-version-3-multi-thread/CServer.cpp:28-37 | no step concerns a destroyed session |
| `Guarantees.WriteErrorLeaves` | Server-version-3-multi-thread/CSession.cpp:90-93 | a write that fails leaves the session closed, not registered and with nothing in flight, queue and wire as they were |
| `Guarantees.ReadEndLeaves` | Server-version-3-multi-thread/CSession.cpp:114-219 | a read handler leaves the session closed and not registered after an error, not registered after a refused header, and with the next read armed in an open stream |
| `Guarantees.FailedForGood` | Server-version-3-multi-thread/CSession.cpp:34-94 | once a write has failed, no later step takes a byte of the session to the wire or completes a write of it, whatever is sent |
| `Guarantees.ClosedForGood` | Server-version-3-multi-thread/CSession.cpp:68-71 | a session is closed exactly if a write failed in the run, or a read failed and its handler has returned; for good, and the network takes nothing more of it |
| `Guarantees.RegistryExact` | Server-version-3-multi-thread/CServer.cpp:15-37 | registered exactly if inserted and, after that, no write failed and no read handler returned with its reading failed; each of the two clears once; a registered session without a read was aborted, or cleared by its reader before the insertion, and conversely |
| `Guarantees.RegistryOnOneThread` | Server-version-3/Server.cpp:10-38 | on one I/O thread registered exactly if inserted, no write failed in the run, and neither a read failed nor a refused header came, unless its handler still runs; in other words with a read pending, a read handler running, or aborted |
| `Guarantees.StaleRegistration` | Server-version-3-multi-thread/CServer.cpp:17-19 | with several threads a run leaves a closed session registered after its read error, because Start comes before the insertion |
| `Answering.CanAnswerEverything` | Server-version-3-multi-thread/CSession.cpp:34-212 | after every run without failed read or write of a session it can be brought to rest, by a schedule of the threads without input, error or refusal; then the wire carries the replies to everything delivered to it |
| `Answering.AnswerableExactly` | Server-version-3-multi-thread/CSession.cpp:68-94 | with no reply refused so far, the replies to everything delivered can still get onto the wire if and only if they are on it, or no read and write has failed, or the handler of a failed read has not closed the socket yet and at most one reply is outstanding |
| `Scenarios.EveryInputAnswered` | Server-version-3-multi-thread/CSession.cpp:28-212 | for any number of failed accepts and then any legal requests in any pieces there is a run in which exactly their bytes are delivered and exactly the replies to them are on the wire |
| `Scenarios.ReadMayFail` | Server-version-3-multi-thread/CSession.cpp:214-217 | a pending read may fail, once the handlers under way have ended |
| `Scenarios.WriteMayFail` | Server-version-3-multi-thread/CSession.cpp:90-94 | a write in flight may fail without another byte going out |
| `Scenarios.HandlersOverlap` | Server-version-3-multi-thread/AsioIOServicePool.cpp:11-14 | with two contexts or more the read handlers of two sessions do run at the same time |
| `LockOrder.ProgramsOrdered` | Server-version-3-multi-thread/LogicSystem.cpp:16-61 | every piece of locking code takes exactly its locks, the worker's turn the logic mutex once and the send lock of each reply; each send lock there with exactly the logic mutex held, every other lock with nothing held; and it ends with none held |
| `LockOrder.NestingHappens` | Server-version-3-multi-thread/LogicSystem.cpp:28-60 | a reachable state in which the worker holds the logic mutex and asks for a send lock while a posting thread waits for the worker |
| `LockOrder.BlockedMeansWaiting` | Server-version-3-multi-thread/LogicSystem.cpp:16-31 | in every reachable state a thread cannot go on exactly if another one holds the lock it asks for |
| `LockOrder.NoCircularWait` | Server-version-3-multi-thread/LogicSystem.cpp:28-60 | in no reachable state do lock waits form a circle of any length |
| `LockOrder.NeverStuck` | Server-version-3-multi-thread/CSession.cpp:35-93 | whenever a thread is in the middle of something, some such thread can go on |
| `LockOrder.OrderRespected` | Server-version-3-multi-thread/CServer.cpp:18-35 | in every reachable state the logic and server mutexes are asked for with nothing held, a send lock with nothing but perhaps the logic mutex |
| `Acceptor.ContextIsRemainder` | Server-version-3-multi-thread/AsioIOServicePool.cpp:22-28 | call k returns context k modulo the pool size |
| `Acceptor.OncePerRound` | Server-version-3-multi-thread/AsioIOServicePool.cpp:22-28 | any n consecutive calls return each of n contexts exactly once |
| `Acceptor.Balanced` | Server-version-3-multi-thread/AsioIOServicePool.cpp:22-28 | after any number of calls the counts of two contexts differ by at most one |
| `Acceptor.AsioIOServicePool.GetIOService` | Server-version-3-multi-thread/AsioIOServicePool.cpp:22-28 | the increment-and-wrap field yields that sequence |
| `Acceptor.CServer.StartAccept` | Server-version-3-multi-thread/CServer.cpp:28-32 | each accept attempt makes one session for the next context |
| `Acceptor.CServer.HandleAccept` | Server-version-3-multi-thread/CServer.cpp:15-26 | success starts and inserts the session, failure neither; the next accept is always started |
| `Acceptor.CServer.ClearSession` | Server-version-3-multi-thread/CServer.cpp:34-37 | removes the session; clearing an absent one changes nothing |

## Left out

- Boost.Asio, sockets, signals and thread creation: only their contracts, as above.
- JSON in `HelloWordCallBack`: the callback is an unknown function, assumed not to throw and to reply with at most 32763 bytes.
- `Singleton`, `main.cpp`, logging, `PrintRecvData`, the artificial sleep, `AsioIOServicePool::Stop`.
- `Server/` with the 2-byte header, and the clients.
- `_b_close` is written and never read; what `Close` does to the socket is `closed` in Session.dfy.
- Receive.ReceiveHalf.CheckHeader: for a wire length of -1 the source allocates an empty buffer and writes before it, which is undefined in C++; the model stops the stream there as for the other negative lengths, whose allocation throws.
- Guarantees.RegistryOnOneThread: in Server-version-3 the exception for a negative length is not caught and ends the process, so runs of that server end there; the runs of the model go on, as those of the multi-threaded server do.
- Send.SendHalf.SendBytes: for a length from -5 to -1 and a queue that is not full the source writes outside the buffer it allocates, which is undefined in C++; excluded by precondition, as is a length beyond the bytes of the pointer.
- Send.SendHalf.SendText: likewise for texts whose narrowed length is from -5 to -1.
- LogicSystems.LogicSystem.Stop: the join of the worker thread; whether the worker gets to its exit is WakeUp.dfy.
- One object for a whole session: the receiving and the sending half are two classes, since no method touches the fields of both; the shared-pointer count is on the values of Session.dfy.
- Receive.ReceiveHalf.HandleRead: its loop body is split into methods along its branches, each with a contract of its own.
- Fairness between threads: delivery and exit are bounded for every schedule of the threads under way; that everything gets answered is shown to stay possible, not that a schedule with new input does it.
- C++ memory-model races: unlocked accesses to the stop flag are separate atomic steps.
