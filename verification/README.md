# Verified model of msgpack-rpc for C++

This project models the bookkeeping of the boost::asio implementation of MessagePack-RPC and proves what it
guarantees. `dafny verify dfyconfig.toml` checks all of it.

**The call engine.** A session hands out ids from a wrapping 32-bit counter, tables one future per id and sends the
request. Four sources race to settle a future: a response, the one-second tick, a drain after a connection failure,
and a waiter's own expired `timed_wait`. Taking a future out of the table and settling it are separate lock regions,
so threads own futures privately in between. `engine.dfy` is this protocol as a machine whose steps are the atomic
regions; `engine_invariants.dfy`, `engine_theorems.dfy`, `finality.dfy` and `freshness.dfy` prove what holds for every
interleaving. `futures.dfy`, `protocol.dfy` and `atomic_ops.dfy` are the parts it is made of. `client.dfy` is the same
code as objects with fields and loops; a ghost field holds the engine state each session object is in, and each method
is proved to be a run of engine steps and to end in the state it promises.

**The pool.** `pool.dfy` interleaves the session cache with everything its sessions and users do and accounts for
every reference; `reclamation.dfy` bounds the life of an abandoned session; `pool_objects.dfy` is the cache as an
object, proved to follow it.

**Server and network.** `server.dfy` and `server_objects.dfy` are the one-shot reply handles and the datagram socket
that hands them out. `system.dfy` puts any number of sessions, a server and an adversarial network together; its
main theorem is end-to-end correlation. `answering.dfy` proves the other side of it, that every call still waiting can
be answered.

**Connections.** `stream.dfy` is message framing over a byte stream, for any prefix-code decoder: the drain loop,
the write lock and both ends together. `stream_objects.dfy` is the stream socket as an object, `torn_frame.dfy` a small
decoder that meets the assumptions and a run on it, and `connect.dfy` the connect and retry recursion with the sending
of a request through it.

Where the code does less than its documentation or a first reading suggests, the model follows the code:

- `unique()` on a pooled session means that no future is *pending*, not that the request table is empty as the
  comment at `src/msgpack/rpc/session_pool.cc:97` says: an expired `timed_wait` settles its future and leaves it
  tabled (`Pool.UniqueDoesNotMeanEmptyTable`). The comment is right exactly when no tabled call was settled that way
  (`Pool.UniqueMeansEmptyTableIff`). Eviction is safe all the same (`Pool.EvictionSafety`).
- `timed_wait` unlocks before it writes and leaves the call tabled, so a future can be written more than once: a
  result can be overwritten by the timeout (`Finality.ReplyLostToTimeout`), and a timeout by a late result
  (`Finality.TimeoutTurnsIntoReply`). `Finality.OutcomeIsFinalIff` says exactly when neither can happen any more.
- `insert` overwrites on an id collision, which can happen if and only if the load exceeds the bound of
  `Freshness.FreshnessBoundIsExact`.
- The size check of the stream reader looks at what is left after a read, so a message of more than 10 MiB + 1 byte
  passes or fails depending on how it is cut into reads (`Stream.ChunkingInvarianceIsExact`).
- Message ids are packed as signed integers; the MessagePack-RPC specification asks for unsigned 32-bit ones. The
  two agree for the first 2^31 - 1 calls of a session (`AtomicOps.WireIdIsUnsignedIff`).
- The write lock does not protect the connection after an error: senders already past the open check may still write,
  and the order holds up to the first failed message (`Stream.FrameAtomicity`) and not beyond: a torn frame can be
  completed by the next one (`TornFrame.NoOrderAfterAFailure`).

Assumptions: the endpoint of a session is not reused by another one; one server answers; envelopes are field arrays of
the exact length; whether an error object is one of the two static texts is decided by where its bytes are stored,
which the model carries as a tag, so an object decoded from the wire never is; decoder, user callbacks, dispatcher and
the outcome of every system call are arbitrary parameters.

## Model

| member | source | states |
|---|---|---|
| `Protocol.EnvelopeRoundTrip` | src/msgpack/rpc/protocol.h:78-141 | Dispatching any field array delivers message m if and only if the array is what packing m makes, for requests, responses and notifications. |
| `Protocol.ResponseOnTheWire` | src/msgpack/rpc/protocol.h:101-122 | A value is delivered as a response if and only if it is the array of 1, the id, the error and the result, in that order. |
| `Protocol.RequestOnTheWire` | src/msgpack/rpc/protocol.h:78-99 | A value is delivered as a request if and only if it is the array of 0, the id, the method and the parameters. |
| `Protocol.NotifyOnTheWire` | src/msgpack/rpc/protocol.h:124-141 | A value is delivered as a notification if and only if it is the array of 2, the method and the parameters. |
| `Protocol.AcceptedMessages` | src/msgpack/rpc/transport/tcp.cc:119-143 | A client takes exactly responses and notifications; a server exactly requests and notifications. |
| `Protocol.RemoteErrors` | src/msgpack/rpc/exception.cc:50-63 | A received error is a missing method if and only if it is 1, a wrong argument if and only if it is 2, and otherwise a remote error carrying it, whatever its text. |
| `Protocol.ReplyReachesItsRequest` | src/msgpack/rpc/request.h:123-135 | For every one of the 2^32 ids, the reply packed through the signed-unsigned-signed conversion is the array of 1, that id, the error and the result, and is delivered under the id of its request. |
| `AtomicOps.AtomicInt.FetchAndIncrement` | src/msgpack/rpc/atomic_ops.h:28-34 | Returns the old value and leaves the two's complement successor, across the wrap at 2^31 - 1. |
| `AtomicOps.NextId` | src/msgpack/rpc/session.cc:100-103 | Ids start at 1 and each increment leads from the id of call n to the id of call n + 1. |
| `AtomicOps.SameIdIff` | src/msgpack/rpc/atomic_ops.h:28-34 | Two calls of a session share an id if and only if their numbers differ by a multiple of 2^32. |
| `AtomicOps.WireIdIsUnsignedIff` | src/msgpack/rpc/protocol.h:84-98 | The id on the wire is the unsigned number that the Request Message section of the MessagePack-RPC specification asks for exactly in the non-negative half of each cycle; in the other half it goes out negative. |
| `Futures.CallbackDelivery` | src/msgpack/rpc/future.cc:82-121 | Over any interleaving of attach, settlement and ticks: before the first settlement the last callback is stored and none has run; afterwards none is stored, the last one attached before has run exactly once, replaced ones never run, and each one attached later was posted exactly once. |
| `Futures.LastWriteWins` | src/msgpack/rpc/future.cc:107-121 | After a settlement without a further one, the future stays ready with exactly that result and error whatever else is done to it. |
| `EngineInvariants.InvStep` | src/msgpack/rpc/session.cc:67-177 | Every atomic step of the call engine keeps ids, table, ownership, outcomes and clocks consistent. |
| `EngineInvariants.InvRun` | src/msgpack/rpc/session.cc:67-177 | So does every run, in any interleaving. |
| `EngineInvariants.OwnershipStep` | src/msgpack/rpc/reqtable.cc:25-74 | Each step keeps every registered call in exactly one place: table, one handler's list (once), written by its handler, or overwritten by an id collision. |
| `EngineInvariants.RemovedIsOwned` | src/msgpack/rpc/reqtable.cc:37-74 | A tick, a drain or a response gives its handler exactly the calls that left the table, each once. |
| `EngineInvariants.CallEvolves` | src/msgpack/rpc/future.cc:107-130 | A step keeps a call's identity and captured timeout, moves it forward through its stages only, and never makes a ready future pending. |
| `EngineTheorems.SingleOwnership` | src/msgpack/rpc/session.cc:117-177 | On every run each registered call is in exactly one of those places, and its set_result calls number at most one plus its expired timed_waits. |
| `EngineTheorems.CallEvolvesRun` | src/msgpack/rpc/future.cc:42-45 | Readiness is permanent over whole runs, and outcomes are only ever appended. |
| `EngineTheorems.ExactTimeout` | src/msgpack/rpc/reqtable.cc:61-74 | A tick removes a tabled call exactly when as many ticks have passed since its insertion as the timeout captured at its construction, so on the (T+1)-th. |
| `EngineTheorems.CountsEveryTick` | src/msgpack/rpc/future.cc:123-130 | While a call stays tabled its count drops by exactly the ticks of the run, whatever set_timeout or other steps happen in between. |
| `EngineTheorems.StaysOut` | src/msgpack/rpc/reqtable.cc:37-74 | A registered call that has left the table never returns to it. |
| `EngineTheorems.GetAfter` | src/msgpack/rpc/exception.cc:38-64 | Each source of a settlement leads get() to its own outcome: the two local errors, the result, a missing method for error 1, a wrong argument for error 2, and a remote error for any other. |
| `EngineTheorems.FaithfulOutcome` | src/msgpack/rpc/future.cc:163-175 | On every run get() on a ready future reports a timeout if and only if the last write was a tick or an expired wait, a connect failure if and only if it was a drain, a missing method or a wrong argument if and only if it was a reply with error 1 or 2, and otherwise the reply's result or remote error. |
| `Finality.OutcomeIsFinalIff` | src/msgpack/rpc/future.cc:52-63 | A ready future is never written again, on any run, if and only if its call is out of the table and of every handler's list and none of its expired timed_waits is still to write. |
| `Finality.ReplyLostToTimeout` | src/msgpack/rpc/future.cc:56-59 | A run in which get() returns a reply and, after an expired wait has written, reports a timeout. |
| `Finality.TimeoutTurnsIntoReply` | src/msgpack/rpc/session.cc:167-177 | A run in which get() reports a timeout and, the call still being tabled, later returns the reply. |
| `Finality.AttachedCallbackRuns` | src/msgpack/rpc/future.cc:117-120 | From every consistent state, a callback attached to a tabled, pending call can be run, once, by a response written next. |
| `EngineTheorems.NoResponseOvertakesRegistration` | ChangeLog:22 | A response, whatever it carries, that finds no table entry for a transmitted, not overwritten call comes for a call already taken out to be settled; it changes nothing. |
| `EngineTheorems.DrainRun` | src/msgpack/rpc/session.cc:144-165 | In every run a handler's list only shrinks, from the front, and every call that left it was written with that handler's outcome. |
| `EngineTheorems.SnapshotDrain` | src/msgpack/rpc/reqtable.cc:50-59 | take_all hands over exactly the table's contents, each once, and empties it; in every later state the drain has failed precisely what left its list, and calls registered meanwhile never enter it. |
| `EngineTheorems.FutureFollowsProjection` | src/msgpack/rpc/future.cc:93-130 | In every run each future goes through exactly the operations the session's steps perform on it. |
| `EngineTheorems.CallbacksDelivered` | src/msgpack/rpc/session.cc:124-134 | Callback delivery as above, for every future on every run of the session. |
| `Freshness.InsertIsFresh` | src/msgpack/rpc/reqtable.cc:25-29 | With at most R ids per tick interval, timeouts of at most T and at most L ticks from id to insertion, (T + L + 1) * R <= 2^32 keeps the id being inserted out of the table. |
| `Freshness.NoCollision` | src/msgpack/rpc/reqtable.cc:25-29 | On whole runs within that load nothing is ever overwritten. |
| `Freshness.Overwrites` | src/msgpack/rpc/reqtable.cc:25-29 | A run within the load that does overwrite a live entry, whenever (T + L + 1) * R exceeds 2^32. |
| `Freshness.FreshnessBoundIsExact` | src/msgpack/rpc/session.cc:100-103 | For every delay L from id to insertion: no run within the load overwrites a live entry if and only if (T + L + 1) * R <= 2^32. |
| `Freshness.FewCallsNeverCollide` | src/msgpack/rpc/session.cc:67-76 | Up to 2^32 calls never collide, under any load. |
| `Server.ReplyAtMostOnce` | src/msgpack/rpc/request_impl.h:52-72 | For any sequence of replies through any copies of a handle exactly the first one whose send completes goes out, once, to the request's sender and under its id; a notification's handle sends nothing. |
| `Server.HandleOfMessage` | src/msgpack/rpc/server.cc:79-95 | A request's handle replies to its sender under its id, a notification's to nobody under id 0; both carry the method and the parameters. |
| `Server.NoOtherHandle` | src/msgpack/rpc/transport/tcp.cc:345-369 | Requests and notifications, and nothing else, get a handle. |
| `System.SysStep` | src/msgpack/rpc/session.cc:67-177 | Every step of sessions, network and server keeps the correlation invariant. |
| `System.EndToEndCorrelation` | src/msgpack/rpc/transport/dgram_handler.cc:11-31 | Any number of sessions with overlapping ids, a network that loses, duplicates and reorders, a server that replies late and in any order: a ready future holds the local timeout, the local connect failure or exactly the pair that completed first on a handle made from that session's that request, no other call could have made that handle, and get() returns or throws accordingly. |
| `Answering.CallCanBeAnswered` | src/msgpack/rpc/session.cc:167-177 | From every reachable state and for every result and error, a registered call still in its table can be answered: some run through the wire, the server's handle and the session's handler ends with its future ready and holding exactly that pair. |
| `Answering.NewcomerCanBeAnswered` | src/msgpack/rpc/session.h:73-89 | From every reachable state a new session can make any call and get any answer to it, and the server's handle has that method and those parameters. |
| `Answering.ResponseTakesItsCall` | src/msgpack/rpc/session.cc:167-177 | A response that arrives under a tabled id takes exactly that call out of the table for one handler to settle with its pair and touches nothing else; under any other id it changes nothing. |
| `Answering.CarriedRun` | src/msgpack/rpc/session.h:73-89 | On every run the request of each transmitted call is on the wire, field by field. |
| `Answering.SessionsRunFreely` | src/msgpack/rpc/session.cc:67-177 | What a session's engine can do by itself it can do in the system, changing nothing else there. |
| `Answering.NotificationCanArrive` | src/msgpack/rpc/session.h:91-106 | A notification goes out as its array, and its handle on the server has the method and the parameters and answers nobody. |
| `System.ResponsesFollowRegistration` | src/msgpack/rpc/session.cc:67-76 | A response reaching a session carries the id of exactly one call, registered and transmitted before; the table entry, if there is one, is that call, and if there is none the call is already being or has been settled. |
| `Pool.PoolStep` | src/msgpack/rpc/session_pool.cc:47-108 | Every step of the pool, of its sessions and of their users keeps: reference count = pool + handles + pending futures + temporary locks. |
| `Pool.PendingStep` | src/msgpack/rpc/future.cc:27-33 | Only the construction of a future adds a reference through it, and only the first settlement releases it. |
| `Pool.CountsSuffice` | src/msgpack/rpc/session_pool.cc:47-63 | In every consistent state holders of handles and locks can give them back and every step a session's engine allows can be taken (calls by holders of a handle only): no reference count runs short. |
| `Pool.EvictionSafety` | src/msgpack/rpc/session_pool.cc:91-105 | Whenever the pool erases an entry every handle that was given out on its session has been given back, counted from the operations of the run; none of its futures is pending (in the table or anywhere); and exactly 61 visits had found it unique since the last get_session. |
| `Pool.Ledger` | src/msgpack/rpc/session_pool.cc:47-63 | On every run the handles and the temporary locks on a session are those given out (by get_session, copying, locking) minus those given back. |
| `Pool.NewSession` | src/msgpack/rpc/session_pool.cc:58-67 | After any run get_session for an address without an entry makes a session with the timeout set last; for one with an entry it makes none. |
| `Pool.UniqueMeansNothingPending` | src/msgpack/rpc/session_pool.cc:94-98 | unique() holds if and only if there is no handle, no temporary lock and no pending future. |
| `Pool.UniqueMeansEmptyTableIff` | src/msgpack/rpc/session_pool.cc:97-98 | The comment is true of a session the pool alone holds if and only if no call in its table was written by an expired timed_wait. |
| `Pool.UniqueMeansEmptyTableWithoutExpiry` | src/msgpack/rpc/session_pool.cc:97-98 | So it is true, on every run, of a session on which no timed_wait has expired since it was created. |
| `Pool.UniqueDoesNotMeanEmptyTable` | src/msgpack/rpc/session_pool.cc:97-98 | A reachable state in which unique() holds and the request table is not empty, contrary to the comment. |
| `Reclamation.TicksEmptyTheTable` | src/msgpack/rpc/session.cc:117-137 | Without new registrations, more ticks than the longest remaining count leave the table empty. |
| `Reclamation.NothingPendingWhenDrained` | src/msgpack/rpc/future.cc:107-121 | With an empty table and handlers that have finished every registered future is settled. |
| `Reclamation.IdleBudget` | src/msgpack/rpc/session_pool.cc:82-108 | Each visit that finds an entry unique, and no other, uses up one unit of its budget of 61; an entry nobody asks for is never put back. |
| `Reclamation.EachTickVisitsOnce` | src/msgpack/rpc/session_pool.cc:91-105 | Every completed pool tick visits every surviving entry exactly once, whatever other steps come in between. |
| `Reclamation.BoundedReclamation` | src/msgpack/rpc/session_pool.cc:82-108 | A session nobody holds, asks for or is building a call on has all its futures settled after T + 1 of its own ticks, once its handlers have finished; after 61 further completed pool ticks its entry is gone, plus one for each tick that met a temporary lock on it and for one in progress that had passed it. |
| `Reclamation.NoEarlyEviction` | src/msgpack/rpc/session_pool.cc:47-63 | Between get_session and the erasure exactly 61 visits find the entry unique, and at least 60 pool ticks are completed before the one that erases it. |
| `Reclamation.EvictionInTicks` | src/msgpack/rpc/session_pool.cc:82-108 | In every run from an empty pool each erasure has such a get_session behind it, the last one for its address. |
| `Stream.DrainSplit` | src/msgpack/rpc/transport/stream_handler.cc:59-66 | Draining a buffer in two goes hands over the same messages and ends the same way as draining it at once. |
| `Stream.Reads` | src/msgpack/rpc/transport/stream_handler.cc:53-89 | Whatever the split into reads, the dispatched messages are a prefix of the stream's messages, and all of them when the messages fit. |
| `Stream.CutBefore` | src/msgpack/rpc/transport/stream_handler.cc:67-69 | A stream with a dispatched message of more than 10485761 bytes can be cut so that the size check stops the reader right before it. |
| `Stream.ChunkingInvarianceIsExact` | src/msgpack/rpc/transport/stream_handler.cc:53-89 | The dispatched messages depend only on the concatenated bytes if and only if no dispatched message exceeds 10485761 bytes, the limit of 10 MiB and one. |
| `Stream.FrameAtomicity` | src/msgpack/rpc/transport/stream_handler.cc:91-128 | For messages that are read back as they are packed: with concurrent senders and partial writes under the lock and reads of any size, the dispatched messages are a prefix of the sends in lock order, up to the first write error; all of them once everything is read. |
| `Stream.SizeCheckStaysSilent` | src/msgpack/rpc/transport/stream_handler.cc:67-69 | With accepted frames of at most 10485761 bytes the size check never fires, however the bytes are cut. |
| `TornFrame.LengthPrefixIsPrefixCode` | src/msgpack/rpc/transport/stream_handler.cc:59-61 | The assumptions about the decoder hold of a length-prefixed code. |
| `TornFrame.PackIsReadBack` | src/msgpack/rpc/transport/stream_handler.cc:59-61 | That code reads back every list of fewer than 256 bytes. |
| `TornFrame.NoOrderAfterAFailure` | src/msgpack/rpc/transport/stream_handler.cc:91-105 | A run in which a write fails half way, the next sender's bytes complete the torn frame, and the reader dispatches a message nobody sent: the order does hold only up to the first write error. |
| `Client.FutureImpl.constructor` | src/msgpack/rpc/future.cc:27-33 | A future starts pending with the timeout its session has at that moment. |
| `Client.FutureImpl.SetResult` | src/msgpack/rpc/future.cc:107-121 | The new state is the specified settlement of the old one; a stored callback has run even if it throws. |
| `Client.FutureImpl.CallbackReal` | src/msgpack/rpc/future.cc:82-91 | The callback runs and its exception goes no further. |
| `Client.FutureImpl.AttachCallback` | src/msgpack/rpc/future.cc:93-105 | Stored while pending, replacing an earlier one; posted once ready. |
| `Client.FutureImpl.StepTimeout` | src/msgpack/rpc/future.cc:123-130 | Counts down, or reports due without counting. |
| `Client.FutureImpl.TimedWait` | src/msgpack/rpc/future.cc:52-63 | The future goes through exactly what others did during the waits, in order, and is ready afterwards on both paths; it waits as long as it is found pending, up to the first expiry, and then the timeout overwrites whatever arrived between unlock and set_result. |
| `Client.FutureImpl.TimeOut` | src/msgpack/rpc/future.cc:57-59 | Whatever others do between unlock and set_result, the timeout is written last. |
| `Client.FutureImpl.Get` | src/msgpack/rpc/future.cc:163-175 | get() with a running loop: the local timeout when its own wait expired, else what the others' operations during the wait, in order, have left. |
| `Client.Reqtable.Insert` | src/msgpack/rpc/reqtable.cc:25-29 | The entry is set, an earlier one under the id overwritten. |
| `Client.Reqtable.Take` | src/msgpack/rpc/reqtable.cc:37-48 | Returns and removes exactly the entry of that id, or nothing. |
| `Client.Reqtable.TakeAll` | src/msgpack/rpc/reqtable.cc:50-59 | Empties the table and returns its contents, each entry once. |
| `Client.Reqtable.StepTimeout` | src/msgpack/rpc/reqtable.cc:61-74 | Erasing while iterating: exactly the entries at zero leave, once each, and every other one is one lower. |
| `Client.ListsOfCalls` | src/msgpack/rpc/reqtable.cc:50-74 | Walking the table by id, in any order, visits exactly the tabled calls, once each. |
| `Client.SessionImpl.Register` | src/msgpack/rpc/session.cc:67-73 | The object stays in step with the engine: next id, fresh future, tabled before anything is sent. |
| `Client.SessionImpl.Attach` | src/msgpack/rpc/future.cc:93-105 | attach_callback on a session's future is one step of the engine; nothing but that future changes. |
| `Client.SessionImpl.StepTimerHandler` | src/msgpack/rpc/session.cc:117-137 | One whole tick refines engine steps; every due call ends timed out, every other tabled one is one lower, the rest untouched, even if callbacks throw. |
| `Client.SessionImpl.OnConnectFailed` | src/msgpack/rpc/session.cc:144-153 | Exactly the tabled calls end with the connect outcome, and the table is empty. |
| `Client.SessionImpl.OnSystemError` | src/msgpack/rpc/session.cc:155-165 | The same for an established connection. |
| `Client.SessionImpl.OnResponse` | src/msgpack/rpc/session.cc:167-177 | Exactly the call tabled under the id is settled with the pair; nothing changes when there is none. |
| `Client.SessionImpl.Recv` | src/msgpack/rpc/future.cc:65-70 | Terminates with the future ready within (remaining count + 1) * B events when every B consecutive events contain a tick. |
| `Client.SessionImpl.Get` | src/msgpack/rpc/future.cc:163-175 | get() without a running loop: ends, and its outcome is the one the last write determines, case by case. |
| `Connect.StopAtIsLeast` | src/msgpack/rpc/transport/tcp.cc:186-226 | Attempts stop at the first success, ETIMEDOUT or the limit and not before; there are at most max(1, limit), and one succeeded if and only if the last did. |
| `Connect.StopsConnected` | src/msgpack/rpc/transport/tcp.cc:186-226 | The attempts end in a success if and only if some attempt within max(1, limit) succeeds and all before it fail without timing out. |
| `Connect.ClientTransport.TryConnect` | src/msgpack/rpc/transport/tcp.cc:212-226 | The mutual recursion terminates and refines that sequence of attempts. |
| `Connect.ClientTransport.OnConnect` | src/msgpack/rpc/transport/tcp.cc:202-210 | Goes on to the failure branch exactly on an error. |
| `Connect.ClientTransport.OnConnectFailed` | src/msgpack/rpc/transport/tcp.cc:186-200 | Retries below the limit unless timed out; otherwise closes the socket and drains the table into the connect outcome. |
| `Connect.ClientTransport.Connect` | src/msgpack/rpc/transport/tcp.cc:241-255 | Returns normally if and only if some attempt within the limit succeeds with only non-timeout failures before it; otherwise the drained table and connect_error. |
| `Connect.ClientTransport.OnSystemError` | src/msgpack/rpc/transport/tcp.cc:145-157 | The session's table is drained and the socket closed. |
| `Connect.ClientTransport.SendData` | src/msgpack/rpc/transport/tcp.cc:257-269 | Returns normally if and only if the socket was open or connecting succeeds; the table is untouched if and only if the connection is open afterwards, so if the write succeeded too, and otherwise drained. |
| `Connect.SendRequest` | src/msgpack/rpc/session.cc:67-76 | The new call has the given method and parameters and the next id. If the socket was open or connecting succeeds it is sent, and if the write succeeds too its future is tabled under its own id and pending; in every other case the future has already been settled as a connect failure. |
| `PoolObjects.SessionPoolImpl.GetSession` | src/msgpack/rpc/session_pool.cc:47-63 | The cached session with its time to live renewed, or a new one entered, and no other entry changes; the object stays in step with the pool machine's get_session and returns the member whose handle that step counts. |
| `PoolObjects.SessionPoolImpl.SetTimeout` | src/msgpack/rpc/session_pool.cc:65-68 | The timeout of the sessions made from now on, in step with the pool machine. |
| `PoolObjects.SessionPoolImpl.StepTimerHandler` | src/msgpack/rpc/session_pool.cc:82-108 | Erasing while iterating: exactly the unique entries out of time leave, the other unique ones are one lower, the rest keep theirs; the call is a run of the pool machine's tick steps and ends in step with it. |
| `PoolObjects.VisitOne` | src/msgpack/rpc/session_pool.cc:92-104 | One round of the loop is a visit of the pool machine, with the erasure when the entry's time is up; it changes that entry alone and no other entry's reference count. |
| `ServerObjects.RequestImpl.Call` | src/msgpack/rpc/request.h:123-135 | Sends under the request's id at most until one send completes; a send that throws leaves the handle usable. |
| `ServerObjects.ResponseSender.SendData` | src/msgpack/rpc/transport/dgram_handler.cc:11-31 | Replies go to the endpoint copied at construction. |
| `ServerObjects.DgramHandler.OnMessage` | src/msgpack/rpc/transport/dgram_handler.cc:134-164 | A handle for each request (bound to its sender) and notification; everything else is refused. |
| `ServerObjects.DgramHandler.OnRead` | src/msgpack/rpc/transport/dgram_handler.cc:59-96 | Every message up to the first refused one gets its handle; any error or exception ends the reading. |
| `ServerObjects.LateReply` | src/msgpack/rpc/transport/dgram_handler.cc:52-57 | A reply given after other datagrams have overwritten m_remote still goes to its own request's sender, and only one goes out. |
| `StreamObjects.SendIsALockedWrite` | src/msgpack/rpc/transport/stream_handler.cc:91-105 | One send_data is one stay of its thread in the write lock. |
| `StreamObjects.StreamHandler.OnMessage` | src/msgpack/rpc/transport/stream_handler.cc:130-160 | Hands over exactly the messages this side handles and whose handler returns. |
| `StreamObjects.StreamHandler.DrainBuffer` | src/msgpack/rpc/transport/stream_handler.cc:59-66 | The loop hands over and leaves behind what the drain specification says. |
| `StreamObjects.StreamHandler.OnRead` | src/msgpack/rpc/transport/stream_handler.cc:53-89 | One read refines the reader's step; on any failure the owner is told once, the socket closes and reading ends. |
| `StreamObjects.StreamHandler.SendData` | src/msgpack/rpc/transport/stream_handler.cc:91-105 | Nothing on a closed socket; otherwise the bytes that went out, and on an error the owner is told. |
| `StreamObjects.StreamHandler.SendVector` | src/msgpack/rpc/transport/stream_handler.cc:107-128 | Scattered buffers go out as their concatenation, in order. |

## Left out

- Sockets, io_service scheduling, strands, threads and logging: they appear as nondeterministic steps, parameters or outcomes.
- The msgpack byte format, the unpacker's internals and zones: library code; the decoder is any prefix code. What the unpacker keeps of a half-parsed message when the same handler reads again after a reconnect is not part of this model.
- Lists shorter or longer than an envelope, which the library's array conversion may tolerate: treated as type errors.
- Unlocked reads of a future's fields during a write, and concurrent use of one request handle: reads are atomic and a handle is used sequentially.
- The connect timer (`on_timeout`) and the flush of the loop inside `try_connect` and `send_data`: they depend on asio's internals.
- `caller.h`, `caller.hmpl`, `mpl.rb`, `mplex`: generated overloads without state.
- `address.cc`, `buffer.cc`, `loop.cc`, the server's connection set and the version files: thin wrappers; addresses are an ordered key type.
- Datagrams that carry part of a message: a datagram carries whole messages.
- The destruction of a session while a handler with a raw pointer to it is queued, and of a future whose entry was overwritten and that nobody holds.
- `join` multiplies the timeout by 1000 in 32 bits; how long a wait lasts is not modelled, only whether it expired.
- EndToEndCorrelation: for sessions of at most 2^32 calls each, because past that an id no longer names one call.
- Recv: the loop is not stopped and a bound on the events between two ticks exists; without either the source's loop need not end. It is about a future whose entry was not overwritten.
- BoundedReclamation: a pool tick whose visit meets a temporary lock on the session does not count, since the session is not unique then; nothing bounds how often that happens. The session is one none of whose entries was overwritten.
- SessionImpl: in the objects user callbacks do not call back into the session while a handler's loop runs; the step machine allows registrations between any two settlements (SnapshotDrain).
- SessionPoolImpl: the objects of a tick run alone, with the reference counts the pool machine has then; steps of others between two visits are the subject of `pool.dfy`.
- FrameAtomicity: about messages the encoder and decoder agree on; for values without an encoding there is no frame to speak of.
- DgramHandler: the address a failed receive leaves behind is taken to be the given one.
