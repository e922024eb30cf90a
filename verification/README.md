# Quekka: verified model of the event server, the producer and the in-memory table

Quekka is the beginning of a single-node message queue. This project models the four parts of it that
carry state, and proves what each of them promises and where the code falls short of that.

**The edge-triggered event server** (`Os.dfy`, `EventLoop.dfy`, `ClientList.dfy`, `ClientManager.dfy`,
`SocketServer.dfy`). One thread runs `accept`, `recv` and callbacks over a linked list of clients, an
epoll set and the open sockets. `EventLoop` is a state machine with one action per system call or
callback boundary; the outside world (arriving connections and bytes, ends of stream, resets, spurious
wake-ups, signals, calls to `socket_server_stop`) may act between any two of them, and callbacks may
disconnect any client. `SocketServer.Server` is the program, with real list nodes, loops and an events
array; every method is proved to move along runs of the state machine, and to make exactly the callbacks
of the run with their arguments (`Callbacks.dfy`), so the theorems about all runs (`Agreement.dfy`,
`Stale.dfy`, `Wakeups.dfy`, `Batches.dfy`, `History.dfy`, `Progress.dfy`, `Departures.dfy`, `Leaks.dfy`,
`Service.dfy`) hold of it. Which system calls may fail on their own account is an input of the world, so
that a handler cannot take a failure path unless its call failed. `Scenarios.dfy` holds the runs that show
the cases of a disconnect occur.

**The producer** (`Message.dfy`, `Layout.dfy`, `Fragments.dfy`, `Producer.dfy`, `WrittenContent.dfy`).
Fragmentation is modelled twice: as it is meant, and byte for byte as it is written. **The codec** is `Protocol.dfy`; the
source keeps it switched off with `#if 0`. **The table** and its asynchronous change events are `Mdb.dfy`,
and what their order means is `Schedules.dfy`. `EndToEnd.dfy` joins producer and server.

Automatic induction is switched off in every lemma to which Dafny would apply it, so each inductive argument
is written out.

## Results worth knowing

- If no call fails on its own account, user code disconnects nobody and at most 1000 connections arrive, then
  when the server is left waiting everybody has been served: every connection was announced, everything sent
  was delivered unless the peer reset it, and on_disconnected was called exactly for those that ended or were
  reset.
- Registered clients never lose a wake-up, on any run. The listen backlog can: exactly when `accept`
  fails with something other than EAGAIN while connections are queued and no newer edge is pending.
- `socket_server_disconnect` only closes the descriptor. Without an event for it in the current batch, the
  client is cleaned up, on every continuation, exactly when the call comes from the client's own
  `on_received` or `on_disconnected`. From anywhere else its list entry stays for ever, counts against the
  limit of 1000, and `on_disconnected` never comes. With such an event, the client is cleaned up exactly
  when no newer client has got its descriptor by the time the event comes up. All of these cases occur.
- As written, no frame is ever marked LAST, a payload arrives intact exactly when it has at most 3942
  bytes, and two topics of one length that agree on four bytes cannot be told apart.
- The callbacks of the table may run in any order, so the change stream need not rebuild the table. It does
  under every schedule exactly when each mutation finds only such events pending for its key as leave the
  row it leaves itself; in particular for a caller who waits for the futures of a key before mutating it again.

## Assumptions

- An event carries its descriptor, as the callback at `src/internal/libsocket.c:376` expects; the
  registrations pass NULL. The listening socket is non-blocking, as the comment at
  `src/internal/libsocket.c:296` relies on and the socket tests expect; the code never sets it.
- `accept` takes connections in arrival order and returns any unused descriptor. Besides failures that the
  state of a socket explains (`recv` on a reset or closed one), `accept`, `fcntl`, `malloc`, `epoll_ctl`,
  `recv` and `epoll_wait` may fail at any time or not at all, each as `Faults` says. Closing a socket drops
  it from epoll.
- User code runs only inside callbacks, opens no descriptors, and calls `socket_server_disconnect` only on
  clients that are in the list. `socket_server_stop` may be called at any time. A callback that is not
  set behaves like one that does nothing.
- A `send` takes its whole frame. 16-bit fields are little-endian. Strings are byte sequences, with a NUL
  after the last byte given.
- The world costs `supply`: a run with a finite supply is one in which finitely much arrives. A call of
  epoll_wait that would sleep for ever is reported as `parked`.

The integration test of the producer passes the length of topic and payload together and expects
success; the code compares the size with the payload alone and refuses it. The model follows the code.

## Model

| member | source | states |
|---|---|---|
| ClientManagement.ClientManager.Add | src/internal/libsocket.c:214-234 | add gives null and changes nothing exactly when 1000 are listed or malloc fails; otherwise it prepends a fresh node with descriptor and address |
| ClientManagement.ClientManager.Find | src/internal/libsocket.c:237-248 | find returns the first node with the descriptor, null exactly when there is none |
| ClientManagement.ClientManager.Remove | src/internal/libsocket.c:251-266 | the pointer-to-pointer removal takes out exactly the first match, all other nodes and links keep their place, the count follows |
| ClientManagement.ClientManager.Count | src/internal/libsocket.c:269-272 | the count is the length of the list |
| ClientManagement.ClientManager.Destroy | src/internal/libsocket.c:199-211 | every node is freed exactly once, in list order |
| ClientList.RemoveKeepsOthers | src/internal/libsocket.c:251-266 | removing one descriptor never changes what find returns for another |
| ClientList.RemoveTakesExactlyTheMatch | src/internal/libsocket.c:251-266 | removal takes out exactly the entry find would return |
| SocketServer.Server.HandleAccept | src/internal/libsocket.c:289-329 | ends for every finite world; follows the state machine; leaves the backlog empty unless accept itself failed |
| SocketServer.Server.HandleAccepted | src/internal/libsocket.c:303-327 | a registered client is the newest entry, with its address, and on_connection was called for it; a registration fails only by fcntl, malloc, epoll_ctl or 1000 clients, and then the socket is closed and the list is as before |
| SocketServer.Server.HandleClient | src/internal/libsocket.c:332-373 | ends for every finite world; afterwards the socket is closed or has nothing left to read, and the list is as before or without the first entry for the descriptor |
| SocketServer.Server.ReceiveAll | src/internal/libsocket.c:338-372 | every piece received went to on_received in order; the loop ends on EAGAIN with the socket drained and the list as before, or with on_disconnected called last, for a reason unless recv itself failed, the socket closed and the first entry with its descriptor removed |
| SocketServer.Server.Farewell | src/internal/libsocket.c:347-356 | on_disconnected is called with the client, then the socket is closed and exactly the first entry with its descriptor is gone |
| SocketServer.Server.SysRecv | src/internal/libsocket.c:339-345 | on_received is given exactly the buffer bytes the kernel handed over |
| SocketServer.Server.EpollEventCallback | src/internal/libsocket.c:376-385 | the batch advances by exactly this event; a client event leaves its socket closed or drained, the listening socket's event the backlog empty unless accept itself failed |
| SocketServer.Server.EpollHandlerWait | src/internal/libepoll.c:69-84 | the reported events are dispatched in order until none is left; -1 only when interrupted or when epoll_wait itself fails; each return uses up work |
| SocketServer.Server.SocketServerStart | src/internal/libsocket.c:463-487 | returns 0, only because it was stopped or epoll_wait failed, after on_start, the callbacks of the run and on_stop; or comes to rest, when on_received was called with all that open clients sent and, without faults, everybody is served |
| Callbacks.GivenIsDelivered | src/internal/libsocket.c:339-345 | the bytes on_received was called with are the delivered bytes of the theorems about runs |
| SocketServer.Server.SocketServerDisconnect | src/internal/libsocket.c:517-520 | only closes the descriptor; list and counts are untouched |
| Agreement.StructureAlways | src/internal/libsocket.c:289-373 | invariant of every run: open sockets are listed as the newest entry with their descriptor, the epoll set is the listening socket plus the open ones (but one being registered or closed) |
| Stale.CountIsOpenPlusStale | src/internal/libsocket.c:214-266 | with disconnect calls: client_count is open plus stale, stale entries are at most the calls, live entries are the ones find and remove hit |
| Stale.ThreeWayAgreement | src/internal/libsocket.c:289-373 | without disconnect calls, between handlers: open sockets, list and epoll set are one set, without duplicates, of size client_count, at most 1000 |
| Wakeups.EveryReadableClientIsScheduled | src/internal/libsocket.c:332-373 | no lost wake-up for registered clients, on every run |
| Wakeups.BacklogIsCoveredIffNeverStranded | src/internal/libsocket.c:289-301 | the backlog keeps a wake-up throughout a run exactly when the run never takes the stranding accept failure |
| Wakeups.ReliableAcceptNeverStrands | src/internal/libsocket.c:296-301 | where accept fails only with EAGAIN, no connection is stranded |
| Wakeups.AcceptErrorCanStrandAConnection | src/internal/libsocket.c:297-300 | where it may fail otherwise, a concrete run in which a queued connection is forgotten |
| Batches.DispatchFindsAnOpenConnection | src/internal/libsocket.c:332-334 | without disconnect calls every client event finds its open connection |
| Batches.BatchKeepsItsConnections | src/internal/libepoll.c:79-81 | without disconnect calls an event still in the batch is for the connection it was reported for |
| History.EachConnectionLivesOnce | src/internal/libsocket.c:324-370 | on every run, the callbacks of a connection are connection, received*, at most one disconnected |
| History.EachDescriptorHasCleanSpans | src/internal/libsocket.c:324-370 | without disconnect calls, the callbacks of a descriptor are a prefix of (connection received* disconnected)* |
| History.BytesAreConserved | src/internal/libsocket.c:332-373 | on_received data plus the kernel buffer is what the peer sent, at every point; after an end of stream it is the whole stream |
| Progress.HandlersEnd | src/internal/libsocket.c:290-372 | the steps of a running handler are bounded by the input still to come plus the input queued |
| Progress.LoopComesToRest | src/internal/libsocket.c:474-479 | epoll_wait returns at most four times per unit of outside activity |
| Progress.AtRestEverythingIsDelivered | src/internal/libsocket.c:463-487 | when epoll_wait has nothing to report, every open client has been given all its peer sent |
| Progress.AtRestTheBacklogIsEmpty | src/internal/libsocket.c:289-329 | and, unless accept was stranded, every connection has been accepted |
| Progress.HandlerIsNeverStuck | src/internal/libsocket.c:290-372 | no place in a handler is a dead end, whichever calls may fail |
| Progress.StopEndsTheLoop | src/internal/libsocket.c:474-493 | once stopped, epoll_wait returns at most once more, if it was being waited in |
| Service.EverybodyIsServed | src/internal/libsocket.c:289-373 | without faults and disconnect calls, and with at most 1000 connections: at rest every connection was announced, all it sent was delivered unless reset, and on_disconnected was called exactly if it ended or was reset |
| Service.GoodbyesAreDeserved | src/internal/libsocket.c:347-371 | where recv fails only for a reason in the socket, on_disconnected means an end after full delivery, a reset, or a disconnect call |
| Service.NobodyTurnedAwayAlways | src/internal/libsocket.c:303-327 | where registration cannot fail, each of the first 1000 accepted connections is announced |
| Departures.SelfDisconnectIsCleanedUp | src/internal/libsocket.c:338-372 | on every continuation, a client that disconnects itself from on_received or on_disconnected gets no further byte and is gone for good by the end of the handler, after exactly one on_disconnected |
| Departures.LeavesForGood | src/internal/libsocket.c:338-372 | once handle_client is at work on a closed socket, its client leaves the list and never comes back, on every continuation |
| Leaks.DisconnectIsCleanedUpIffInOwnHandler | src/internal/libsocket.c:332-373 | without an event for the descriptor in the batch, a disconnected client is cleaned up on every continuation exactly when the call comes from its own on_received or on_disconnected |
| Leaks.DisconnectElsewhereLeaks | src/internal/libsocket.c:517-520 | any other disconnect without an event in the batch leaves the entry for ever, without on_disconnected |
| Leaks.LeakedForever | src/internal/libsocket.c:251-266 | an entry out of reach stays out of reach, even when its descriptor is reused |
| Leaks.EventCleansUpIffNewest | src/internal/libsocket.c:332-373 | when the event of a disconnected client comes up, the client is cleaned up on every continuation exactly when its entry is the newest with its descriptor |
| Leaks.WaitingEventCleansUp | src/internal/libsocket.c:332-372 | if it is, the entry is gone for good by the end of the handler, after exactly one on_disconnected |
| Leaks.ReusedDescriptorLeaks | src/internal/libsocket.c:237-248 | if its descriptor was reused by then, the event goes to the new client and the old entry stays for ever |
| Scenarios.ADisconnectCanLeak | src/internal/libsocket.c:324-326 | a concrete run in which a client disconnected in its on_connection leaks |
| Scenarios.AWaitingEventCanCleanUp | src/internal/libepoll.c:79-81 | a concrete run in which an event in the batch cleans a disconnected client up |
| Scenarios.ADescriptorCanBeReused | src/internal/libsocket.c:289-373 | a concrete run in which a descriptor is reused before the event for its old owner comes up, who leaks |
| Fragments.FragmentationIsLossless | src/quekka/Quekka_producer.c:91-114 | as meant: reassembly by sequence number, from frames of one publish in any order and with repetitions, gives the payload when every frame is there and nothing otherwise |
| Fragments.PublishAsMeant | src/quekka/Quekka_producer.c:91-114 | as meant: the loop with remaining length, 16-bit counter and the test for more than a full chunk sends the frames of MeantFrames |
| Fragments.ExactlyTheFinalFrameIsLast | include/quekka/Quekka_message.h:18-20 | as meant: LAST is on the final frame only; cutting at LAST gives nothing before the final frame and exactly the payload with it |
| Fragments.MeantHeaderReads | include/quekka/Quekka_message.h:22-30 | as meant: topic and id read back in full as far as their fields go, with the topic length, the fragment's number and its content's length |
| Fragments.MeantTopicsAreToldApart | include/quekka/Quekka_message.h:10-11 | as meant: topics of at most 127 characters are told apart by any frame |
| Fragments.StreamSplitsIntoPayloads | include/quekka/Quekka_message.h:18-20 | as meant: a concatenation of publishes splits back into its payloads |
| Fragments.StreamsSplitUniquely | include/quekka/Quekka_message.h:18-20 | as meant: no two lists of payloads share a stream |
| Producer.QuekkaProducer.Publish | src/quekka/Quekka_producer.c:73-117 | as written: -1 and nothing sent exactly for an empty or too long topic or a wrong size; otherwise 0 and ceil(length/3943) blocks, block i being fragment i in every byte |
| Producer.QuekkaProducer.SendFragments | src/quekka/Quekka_producer.c:92-114 | the loop ends after ceil(length/3943) fragments with the 16-bit counter |
| Producer.NextFragment | src/quekka/Quekka_producer.c:104-106 | the shared header, overwritten for each fragment, leads to a block that is fragment i in every byte |
| Producer.WrittenBytes | src/quekka/Quekka_producer.c:126-161 | every byte of a frame: four bytes of topic and id, topic length, what is left modulo 65536, the number modulo 65536, no flag, 3942 payload bytes and NULs |
| Layout.HeaderLayout | include/quekka/Quekka_message.h:22-30 | where each field of the packed header is, 16-bit fields low byte first |
| Producer.HeaderAssemble | src/quekka/Quekka_producer.c:126-141 | the topic field holds four bytes of the topic, the id field four bytes of the id, NULs after them, topic_len is exact, the rest is zero |
| Producer.MessageAssemble | src/quekka/Quekka_producer.c:151-161 | payload_len is the remaining length modulo 65536, the flags byte is not copied, 3942 payload bytes are |
| WrittenContent.PlanPartitionsIffCounterFits | src/quekka/Quekka_producer.c:92-114 | the chunks partition the payload exactly when it has at most 258408448 bytes; nothing beyond is ever read |
| WrittenContent.LastIsPassedIffNotAMultiple | src/quekka/Quekka_producer.c:102 | LAST is passed exactly when the length is no multiple of 3943, and the test differs from the meant one on the final fragment of a multiple only |
| WrittenContent.NoWrittenFrameIsLast | src/quekka/Quekka_producer.c:157 | no frame on the wire is marked LAST |
| WrittenContent.WrittenFramesNeverReassemble | src/quekka/Quekka_producer.c:157 | a receiver waiting for LAST never completes a message |
| WrittenContent.WrittenHeaderReads | src/quekka/Quekka_producer.c:134-154 | read back, topic and id are cut to four bytes, topic_len is exact and seq is the fragment's number modulo 65536 |
| WrittenContent.NumbersTellApartIffCounterFits | src/quekka/Quekka_producer.c:93-113 | the sequence numbers tell all fragments apart exactly when the payload has at most 258408448 bytes |
| WrittenContent.TopicsAreToldApartByFourBytes | src/quekka/Quekka_producer.c:134-140 | frames of two topics are equal exactly when the lengths and the first four bytes are |
| WrittenContent.WrittenLengthIsTheRest | src/quekka/Quekka_producer.c:153 | up to 65535 bytes, fragment i claims length - 3943*i bytes |
| WrittenContent.WrittenContentIsHoled | src/quekka/Quekka_producer.c:151-161 | up to 65535 bytes, the joined contents are the payload with a NUL at every index congruent to 3942 modulo 3943 |
| WrittenContent.HoledIffLengthFieldFits | src/quekka/Quekka_producer.c:151-161 | for every length, the joined contents are that exactly when the payload has at most 65535 bytes |
| WrittenContent.PayloadSurvivesIffShort | src/quekka/Quekka_producer.c:99-161 | for every length, the joined contents are the payload exactly when it has at most 3942 bytes |
| MessageFormat.StrLenIsTheFirstNul | src/quekka/Quekka_producer.c:78-79 | strlen is the position of the first NUL |
| MessageFormat.DecodeEncodeHeader | include/quekka/Quekka_message.h:22-30 | decoding an encoded header gives it back |
| MessageFormat.EncodeDecodeHeader | include/quekka/Quekka_message.h:22-30 | every 153 bytes are the encoding of the header they decode to |
| MessageFormat.ReadOfWire | include/quekka/Quekka_message.h:32-35 | a frame read back from its 4096 bytes is the frame |
| MessageFormat.WireOfRead | include/quekka/Quekka_message.h:32-35 | every 4096 bytes are the wire image of the frame they read as |
| Protocol.Serialize | src/quekka/Quekka_protocol.c:4-16 | -1 and nothing written exactly when the buffer is short; otherwise exactly the encoding and nothing else |
| Protocol.Deserialize | src/quekka/Quekka_protocol.c:18-35 | accepts exactly the encodings; a refused buffer may have overwritten the header but not the payload |
| Protocol.DecodeAfterEncode | src/quekka/Quekka_protocol.c:4-35 | deserialize after serialize gives back header and payload |
| Protocol.EncodeAfterDecode | src/quekka/Quekka_protocol.c:4-35 | serialize after deserialize gives back the bytes |
| Protocol.NoEncodingIsAProperPrefix | src/quekka/Quekka_protocol.c:7-15 | the format delimits itself |
| Protocol.ParseOfEncodings | src/quekka/Quekka_protocol.c:4-35 | concatenated encodings parse back into their messages |
| Protocol.EncodingsOfParse | src/quekka/Quekka_protocol.c:4-35 | whatever parses is the concatenation of the encodings of its messages |
| Protocol.StreamsParseUniquely | src/quekka/Quekka_protocol.c:4-35 | equal streams come from equal messages |
| Mdb.Columns.Upsert | include/quekka/Quekka_mdb.hpp:83-98 | the row is set, isCreate says whether it is new, before is the old value or the default one |
| Mdb.Columns.Erase | include/quekka/Quekka_mdb.hpp:101-107 | the row is gone and its old value returned, or nothing changes |
| Mdb.Columns.Get | include/quekka/Quekka_mdb.hpp:72-77 | the row if there is one, otherwise the out-parameter is left alone |
| Mdb.Table.Upsert | include/quekka/Quekka_mdb.hpp:133-143 | the row changes at once and one event with the values of this moment becomes pending |
| Mdb.Table.Erase | include/quekka/Quekka_mdb.hpp:146-156 | the same for erase; erasing an absent key issues no event |
| Mdb.Table.RunSomeTask | include/quekka/Quekka_mdb.hpp:178-184 | any pending task may run next; it delivers its event unchanged and exactly once, as one step of the schedule |
| Mdb.ReplayInIssueOrder | include/quekka/Quekka_mdb.hpp:83-156 | in issue order the stream rebuilds the table |
| Mdb.EveryKeyIsChained | include/quekka/Quekka_mdb.hpp:83-156 | per key the events are (CREATE UPDATE* DELETE)*, each before is the previous after, default values around a deletion |
| Mdb.UnwindRestoresEveryState | include/quekka/Quekka_mdb.hpp:83-156 | undoing events in reverse issue order restores every earlier table |
| Mdb.StreamDeterminesTableIffLastWordsAgree | include/quekka/Quekka_mdb.hpp:166-187 | a delivered stream rebuilds the table exactly when each key's last delivered event leaves what its last issued one does |
| Mdb.KeyOrderIsEnough | include/quekka/Quekka_mdb.hpp:166-187 | any delivery order that keeps each key's order rebuilds the table |
| Schedules.RebuildsThroughoutIffHarmless | include/quekka/Quekka_mdb.hpp:133-187 | for every schedule: the stream is bound to rebuild the table throughout exactly when each mutation finds only such events pending for its key as leave the row it leaves |
| Schedules.EveryDrainRebuildsIffSettled | include/quekka/Quekka_mdb.hpp:166-187 | at any point, every order of the pending callbacks rebuilds the table exactly when each key's pending events all leave its current row, or with none pending its last delivered event did |
| Schedules.MutationIsSafeIffHarmless | include/quekka/Quekka_mdb.hpp:133-156 | the condition a caller can check before one mutation |
| Schedules.WaitingIsEnough | include/quekka/Quekka_mdb.hpp:133-187 | a caller who waits for a key's futures before mutating it again gets each key's events in order, at most one pending, and a rebuildable stream, under every schedule |
| Schedules.InKeyOrderStep | include/quekka/Quekka_mdb.hpp:166-187 | delivered then pending events of a key stay the issued ones in order, unless a callback overtakes an older one of its key |
| Schedules.SwappedEventsResurrectARow | include/quekka/Quekka_mdb.hpp:178-184 | a schedule that swaps the two events of a key brings an erased row back |
| Schedules.TableIsReplayable | include/quekka/Quekka_mdb.hpp:114-188 | the same for the table itself, at any time; every issued event is pending or was delivered, exactly once |
| EndToEnd.ReceivedDataCutsIntoFrames | src/internal/libsocket.c:338-356 | at every point, the received data cuts into the complete frames among those sent, whatever the segmentation |
| EndToEnd.CleanCloseDeliversEveryFrame | src/internal/libsocket.c:338-356 | after a clean close, cutting every 4096 bytes gives exactly the frames sent |
| EndToEnd.MeantPublishesArrive | src/quekka/Quekka_producer.c:99-114 | publishes as meant arrive as their payloads |
| EndToEnd.WrittenPublishArrivesIffShort | src/quekka/Quekka_producer.c:99-161 | a publish as written arrives as its payload exactly when it has at most 3942 bytes |

## Left out

- `socket_server_create` and `socket_server_destroy`: a chain of system calls with their failure paths; the model starts from a created server.
- The fork loop, the blocking echo server and the thin socket wrappers, `socket_server_send` among them, in `src/internal/libsocket.c:15-174` and `512-560`.
- Partial and failed sends: `Quekka_publish` ignores the result, and the model sends whole frames.
- Time and identifiers: the message id is any string, not a formatted time.
- Calls to `socket_server_disconnect` from another thread, and descriptors opened by user code: both could hand a reused descriptor to the wrong client.
- Protocol.Serialize: requires that a payload it copies fits the 3943-byte area, which the code does not check.
- Protocol.Deserialize: requires the same of a payload it accepts.
- Table registry, type checks and hashing in `Quekka_mdb`; a future is represented by whether its event is still pending.
- Configuration parsing, logging, error codes, command-line tools, and everything README.md of the repository plans but the code does not contain (broker, segments, indexes, consumer groups).
