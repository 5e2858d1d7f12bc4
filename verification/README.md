# RDMA examples: a verified model of the read engine, the teardown, the copy protocol and the ping-pong

This project models three programs of the repository and proves what their authors rely on.

* `rdma_fc.c`: a server reads memory regions of many clients with RDMA reads. A schedule queue, a window of
  outstanding reads, a bitmap of initiators (DCIs) and a completion poller share one context. `RoundRobin`,
  `WorkRequests`, `ReadEngine` and `ReadTheorems` hold the specification and its theorems, `ControlPhase` the FIN
  exchange, `ConnectionTable` the set-up, `RdmaServer` the program itself as a class that changes counters, bitmap
  and offset arrays in place, `Teardown` the whole system of one server and n clients, and `TeardownBound` how long
  it can take.
* `rcopy.c`: a client copies a file to a server over a byte stream. `Wire` has the formats, `BlockingReader` the
  processes that read a stream with whole reads, `Duplex` two of them on one connection, `CopyServer` and
  `CopyClient` the two sides, `CopyFraming` the messages, `CopyCut` messages that are cut off, `RcopyServer` and
  `RcopyClient` the two programs as classes over a socket, `ReceiveErrors` the receive loop under read errors,
  `CopyNetwork` both sides of the protocol on one connection, and `CopyCorrectness` the end-to-end theorem.
* `apm.c`: two sides exchange messages with queues of depth one. `PingPong` is the two-sided system, `ApmProgram`
  the loop of the program.

The adapter, the network and the operating system are the environment. A post is accepted, refused with a positive
code, or rejected with a negative one; a poll reports nothing, a packet, an error, or the completion of *any* request
in flight; a read of a stream returns any positive number of bytes; `malloc`, `open`, `ftruncate` and `mmap` succeed or
fail as an arbitrary oracle says. Every theorem holds for all of these choices and all interleavings. Asserts,
out-of-range indices and counter underflows of the C code are explicit faults, so that their absence is a theorem.

Main results:

* The queue with head and tail reinsertion posts exactly what two nested loops (segments outside, connections inside)
  would post, in that order, whatever completes or fails (`ScheduleRefinesLoops`); every byte of every region is read
  by exactly one post of an iteration (`EveryByteOnce`).
* No run trips an assert, picks a busy initiator or underflows a counter, and none picks a missing initiator unless the
  window is too large; a run that returns has read everything (`ReadsCorrect`), and without empty polls it returns
  within a stated number of turns (`ReadsTerminate`).
* No client passes its FIN wait before all reads have completed, in any interleaving (`TeardownBarrier`); the system
  can always run to its end (`NeverDeadlocks`); and in every interleaving all but refused posts and empty polls are
  bounded by the work there is (`EffectsBounded`).
* Every run of one copy, under any fragmentation, ends within a bounded number of steps, and its result, the
  destination file and the server's state are determined (`CopyCorrect`, `ResultIff`), with the exact condition for the
  server to be ready for another client (`ServerReadyIff`).
* For every message and every place to cut it, what the server answers and does (`CutMessage`), and exactly when its
  status 0 means that the message took effect (`CutStatusIff`).
* The ping-pong is in lockstep at every point (`Lockstep`) and both sides finish exactly when their counts agree
  (`FinishIff`).

## Where the code does less than it seems to

Each of these is stated as an exact condition.

* The bitmap has 64 bits set for 8 initiators, so the branch for "no free initiator" (`rdma_fc.c:1143-1146`) is never
  taken. The find-first-set stays below 8 in every run exactly when the window is at most 8, or one iteration has
  at most 8 segments in all, or there is no iteration (`DciInRangeIff`).
* The last assert of `do_rdma_reads` (`rdma_fc.c:1263`) fails when there are connections but no iteration
  (`FinalAssertIff`). The assert on the size (`rdma_fc.c:1231`) holds in every run exactly when both size options are
  positive, or it is never reached for want of a window, a connection or an iteration (`SizeAssertIff`).
* The assert of `send_control` (`rdma_fc.c:810`) holds for all random picks exactly when the transmit queue has one
  entry per connection (`SendAssertIff`). The lengths of `run_server` give it that (`ServerDisconnects`), and the
  receives for every FIN (`ServerRuns`).
* `bytes_transferred` (`rdma_fc.c:1269-1270`) multiplies two 32-bit numbers first; it equals the bytes read exactly when
  neither product wraps (`ReportedBytesArePosted`).
* The connection table is written past its end exactly when a request arrives after n requests and before n
  establishments, with no failed event before it (`OverflowIff`); on DC this cannot happen (`WaitFillsTable`).
* A stream that ends inside a message makes `_recv` return 0, which the server sends as status 0: success. It does so
  exactly when it was blocked on the path, on the size, or on the payload of a file it had mapped; the message then
  took effect never for an OPEN, for a WRITE cut in its size only if the file held the payload already, and for one cut
  in its payload exactly when the missing bytes agree with what the resized file held (`CutStatusIff`). In a copy that
  means: the payload has begun and its missing bytes are all zero (`CopyCutIff`).
* A WRITE that fails on an open file leaves the server refusing every later OPEN as busy (`ServerReadyIff`), and so does
  a copy that breaks off anywhere between its OPEN and its last byte (`BrokenOffIff`).
* A client whose payload is cut short after a multiple of 2^32 bytes reports success (`rcopy.c:541-545`, `ReportsZeroIff`).
* `_recv` keeps the result of `rrecv` in a `size_t`, so it does not see an error of -1: at the first read it reports a
  complete read of nothing, and later it moves back by a byte (`rcopy.c:125-130`). A read reported complete has stored
  the right byte of the stream, by its place, at the end of the buffer exactly when there was no error, and is then a
  full read (`FlakySocket.Recv`).
* With different message counts the side of `apm.c` with the larger count waits for ever (`FinishIff`), as long as no
  error completion arrives: the side that finishes first disconnects (`apm.c:776-786`), and a completion with an error
  would be counted as a message (`apm.c:547-551`, `apm.c:577-581`).
* An exchange of `apm.c` that breaks off at a failed call still makes `main` return 0; only a refused path migration
  shows (`ApmProgram.Context.Exchange`).

## Hypotheses

Sizes and window are positive (`Config.Valid`), except where a row says otherwise. The whole-system theorems assume that
the window fits the initiators on DC (`WindowFits`), at least one iteration, and at least as many transmit entries as
clients (`Teardown.Supported`), which the lengths of `run_server` provide. For liveness a FIN that was sent can be
delivered. A copied file is not empty, a path has no NUL and at most 65511 bytes, and both machines are little-endian.

Two hypotheses are about the socket. The server's responses are taken whole by `rsend`, and on the network of
`CopyNetwork`, hence in `CopyCorrect`, so is all that the client sends; the program of the client itself is proved for
every short or failing send (`ClientRun`, `ReportsZeroIff`), and is the client of the network on whole ones
(`RunIsSession`). `rrecv` returns 0 up to the requested number of bytes, never an error; what errors do to the receive
loop is in `ReceiveErrors`.

## Model

| member | source | states |
|---|---|---|
| RoundRobin.PostKeepsSchedule | rdma_fc.c:1226-1246 | taking the head of the queue and putting an unfinished connection at the tail posts the next segment of the nested loops, never an empty one, and leaves queue and offsets where the closed form of the schedule says |
| RoundRobin.StartOnSchedule | rdma_fc.c:1207-1211 | refilling the queue puts the engine at step 0 of the schedule |
| RoundRobin.NestedAt | rdma_fc.c:1206-1257 | step t of the nested loops is segment t / n of connection t % n |
| RoundRobin.ScheduleRefinesLoops | rdma_fc.c:1206-1257 | the posts so far are a prefix of the two nested loops, and all of them exactly when the queue is empty |
| RoundRobin.QueueHoldsUnfinished | rdma_fc.c:1226-1250 | the queue has no duplicates and holds exactly the connections with bytes left |
| RoundRobin.OffsetsStayTogether | rdma_fc.c:1222-1251 | the offsets of two connections never differ by more than one segment |
| RoundRobin.EveryByteOnce | rdma_fc.c:1228-1246 | each byte of each region is covered by exactly one post of an iteration |
| RoundRobin.SegmentInsideRegion | rdma_fc.c:1229-1235 | no read is empty, longer than the maximum or past the end of its region |
| RoundRobin.IterationBytes | rdma_fc.c:1269-1270 | the lengths posted in an iteration sum to connections times region size |
| WorkRequests.SomeIdle | rdma_fc.c:1148-1150 | pigeonhole: eight counters that sum to less than eight have a zero among them |
| WorkRequests.FindFirstSet | rdma_fc.c:1149 | the index found is set and all before it are clear |
| ReadEngine.DciChoice | rdma_fc.c:1143-1150 | when the window allows a post there is a set bit; an initiator that is picked and exists is idle; and when the window fits, the one picked exists |
| ReadEngine.ClaimKeepsAccounts | rdma_fc.c:1170-1171 | a claim keeps each counter equal to the requests in flight on its initiator, and a clear bit means busy; also without clearing the bit, as control sends do |
| ReadEngine.ReleaseKeepsAccounts | rdma_fc.c:946-955 | a completion finds a positive counter on an existing initiator and keeps the accounts |
| ReadEngine.AcceptedPostKeeps | rdma_fc.c:1181-1185 | an accepted post keeps the invariant of the read phase, adds one to the reads outstanding and logs the scheduled segment |
| ReadEngine.PostTurnKeeps | rdma_fc.c:1222-1251 | a guarded post stops exactly on a negative return, or for want of an initiator when the window does not fit; a refused one puts everything back as it was |
| ReadEngine.PollKeepsAccounts | rdma_fc.c:957-1007 | a poll in either phase keeps the accounts, stops only on an error, and changes only what the completion it reports calls for |
| ReadEngine.PollKeeps | rdma_fc.c:993-1000 | a poll in the read phase keeps reads outstanding equal to reads in flight within the window, and a bit clear exactly for a busy initiator |
| ReadEngine.StartKeeps | rdma_fc.c:1202-1211 | an iteration starts in the invariant of the read phase |
| ReadEngine.IterationEnd | rdma_fc.c:1216-1264 | when the inner loop is left, all segments were posted, nothing is in flight, all initiators are free and every offset is the region size |
| ReadTheorems.ReadsCorrect | rdma_fc.c:1191-1264 | for every sequence of adapter answers and any window: no fault but an error return, or a find-first-set out of range when the window does not fit; the invariant while running; everything read on return |
| ReadTheorems.TurnStopsIff | rdma_fc.c:1222-1256 | a turn stops exactly where it may post and no initiator is in range or the code is negative, or on an error status; a good completion, a packet or an empty poll lets the loop go on |
| ReadTheorems.BenignRuns | rdma_fc.c:1206-1258 | with an adapter that rejects nothing and reports no error no run is halted, unless the window does not fit |
| ReadTheorems.NeverStuck | rdma_fc.c:1216-1257 | while the loop runs a read may be posted or one is in flight |
| ReadTheorems.WorkIsConserved | rdma_fc.c:1216-1257 | the posts, completions and FINs of a run are exactly the work removed plus the FINs counted; work is left exactly while the loop runs |
| ReadTheorems.ReadsTerminate | rdma_fc.c:1206-1258 | with an adapter that rejects nothing and reports no error, and a window that fits, turns that each bring something make the function return within twice the number of segments plus the FINs that arrive |
| ReadTheorems.DciInRangeIff | rdma_fc.c:1143-1150 | exactly when the find-first-set is in range in every run |
| ReadTheorems.SizeAssertIff | rdma_fc.c:1229-1231 | the size assert holds in every run exactly with positive sizes, or without window, connection or iteration |
| ReadTheorems.FinalAssertIff | rdma_fc.c:1261-1264 | exactly when the final assert holds |
| ReadTheorems.ReportedIff | rdma_fc.c:1269-1270 | exactly when the reported product, 32 bits and then 64, is the mathematical one |
| ReadTheorems.ReportedBytesArePosted | rdma_fc.c:1184-1270 | the bytes posted over all iterations, and exactly when the reported figure equals them |
| ControlPhase.SendKeeps | rdma_fc.c:794-845 | after i control sends the counters sum to at most i, so a send finds room, for any picks |
| ControlPhase.SendPosts | rdma_fc.c:808-840 | an accepted control send hands exactly one request to the adapter, for its connection and on DC on initiator pick % 8 |
| ControlPhase.SendFinsPosts | rdma_fc.c:1016-1022 | the send loop stops exactly at the first send that is not accepted, and up to there has handed over one send per connection, in order |
| ControlPhase.AwaitFinsIff | rdma_fc.c:1024-1030 | the FIN wait ends well exactly when enough FINs come before an error, fails exactly when an error comes first, and otherwise goes on, whatever else completes |
| ControlPhase.DisconnectIff | rdma_fc.c:1009-1030 | disconnect ends well exactly when every FIN is accepted and enough FINs come in before an error; what is in flight when a send is not accepted |
| ControlPhase.DisconnectCorrect | rdma_fc.c:1009-1030 | with room for one send per connection, disconnect stops only on an error, and returns only when all FINs are counted |
| ControlPhase.ServerDisconnects | rdma_fc.c:1281-1287 | with the queue lengths of run_server, disconnect stops only on an error, whatever the options and the picks |
| ControlPhase.SendAssertIff | rdma_fc.c:808-828 | exactly when the assert of send_control holds for all picks |
| RdmaServer.TestContext.constructor | rdma_fc.c:527-531 | the context after set-up: all bits of the bitmap set, all counters zero |
| RdmaServer.TestContext.PostRdmaRead | rdma_fc.c:1105-1189 | the in-place post does to counters, bitmap, offset and requests in flight what the specification says, and nothing on failure |
| RdmaServer.TestContext.DcSendCompletion | rdma_fc.c:946-955 | the in-place release of an initiator |
| RdmaServer.TestContext.PollCq | rdma_fc.c:957-1007 | the in-place poll |
| RdmaServer.TestContext.PostNext | rdma_fc.c:1222-1251 | the guarded post with both reinsertions, in place |
| RdmaServer.TestContext.Turn | rdma_fc.c:1222-1256 | a guarded post and a poll, the poll only if the post did not fail |
| RdmaServer.TestContext.ScriptedTurn | rdma_fc.c:1222-1256 | a turn does not change how the run that goes on from it ends |
| RdmaServer.TestContext.Refill | rdma_fc.c:1207-1211 | the refill loop resets every offset and appends every connection in order |
| RdmaServer.TestContext.Drain | rdma_fc.c:1216-1257 | the inner loop: the rest of the run is the rest of what the specification describes |
| RdmaServer.TestContext.DoRdmaReads | rdma_fc.c:1191-1273 | for any window and all adapter answers: the nested loops over mutable state give the state and result of the specified run, if nothing but an error return stops that run |
| RdmaServer.FittingIsClean | rdma_fc.c:1143-1150 | with a window that fits, nothing but an error return stops any run |
| RdmaServer.TestContext.CheckOffsets | rdma_fc.c:1261-1264 | the final loop tells whether every offset is the region size |
| RdmaServer.TestContext.PostControl | rdma_fc.c:794-845 | the in-place control send; the bitmap does not change |
| RdmaServer.TestContext.DisconnectAll | rdma_fc.c:1009-1030 | both loops of disconnect in place; returns 0 only with all FINs received |
| ControlPhase.ControlPollKeeps | rdma_fc.c:1024-1030 | a poll while FINs are sent or awaited keeps the bound on the counters |
| Teardown.StepKeeps | rdma_fc.c:1009-1053 | every step of server and clients keeps the invariant of the whole system |
| Teardown.TeardownBarrier | rdma_fc.c:1009-1053 | after any interleaving no client is past its FIN wait unless all reads of all connections have completed, no read is in flight while a client is gone, the server is past its own wait only when every client has sent its FIN, fails only on an error return, and posts nothing before all n connections are established |
| Teardown.FailsIff | rdma_fc.c:1236-1327 | the server fails exactly on a rejected post, a poll with an error status or a send that is not accepted |
| Teardown.OneSend | rdma_fc.c:1017-1022 | the FIN that is on its way to a client is the send that the engine has posted, for that connection and no other |
| Teardown.ConnectionsCome | rdma_fc.c:1314-1322 | requests and establishments come in any order as long as each connection asks first; the server waits exactly as long as one is missing |
| Teardown.ClientsGoOn | rdma_fc.c:1085-1099 | a client connects, sends its FIN and frees its memory whatever the server does; only its FIN wait needs a FIN |
| Teardown.FinMayCome | rdma_fc.c:979-985 | a FIN on its way may be counted at any poll, also while the server reads, and changes nothing of the reads |
| Teardown.CountedAll | rdma_fc.c:1024-1030 | n counted FINs, at most one from each of n clients, are one from each |
| Teardown.QueuesHold | rdma_fc.c:1281-1287 | receives posted once cover every FIN, and unpolled completions fit the completion queue, in every run |
| Teardown.ReceivesHold | rdma_fc.c:544-571 | the receives posted once cover every FIN that arrives, in every run |
| Teardown.ServerRuns | rdma_fc.c:1281-1334 | with the queue lengths of run_server: the barrier, no fault but an error return, receives for every FIN, and room for all completions when the window is at most the transmit length |
| TeardownBound.StepFalls | rdma_fc.c:1276-1335 | every step of server or client but a refused post or an empty poll uses up some of the work left, and no step adds to it |
| TeardownBound.EffectsBounded | rdma_fc.c:1276-1335 | in every interleaving those steps number at most twice the segments of all iterations, plus the iterations, plus nine per client and four |
| Teardown.Progress | rdma_fc.c:1276-1335 | in every state without an error and before the end some step reduces the work left |
| Teardown.NeverDeadlocks | rdma_fc.c:1276-1335 | every run without an error can be continued until the server is past its wait and all clients have freed their memory |
| ConnectionTable.WaitFillsTable | rdma_fc.c:1313-1322 | for every order of events and every failure no connection gets two slots; a wait that ends well has exactly n filled slots and n establishments; on DC the table never overflows |
| ConnectionTable.OverflowIff | rdma_fc.c:729-744 | exactly when a request is stored past the end of the table, including requests that fail after the store |
| ConnectionTable.WaitEndsWell | rdma_fc.c:1313-1322 | with handled requests, acknowledged establishments and disconnects in any order, no more requests than slots and enough established, the wait ends well, with the slots in the order of the requests |
| ConnectionTable.FailedIff | rdma_fc.c:1316-1321 | the wait fails exactly at the first event that is not got, not waited for, not handled to its end or not acknowledged, if it still waits then |
| ConnectionTable.FailedTable | rdma_fc.c:746-786 | the slots and the count that a failed wait leaves |
| ConnectionTable.SlicesDisjoint | rdma_fc.c:663-674 | an address in the advertised slices of two connections means they are the same, and it is inside the buffer |
| ConnectionTable.Connections.constructor | rdma_fc.c:1313-1314 | an empty table with a slot for every connection |
| ConnectionTable.Connections.HandleConnectRequest | rdma_fc.c:729-786 | the in-place effect of a request that succeeds, or fails before the slot, in it or after it |
| ConnectionTable.Connections.ProcessEvent | rdma_fc.c:863-939 | the in-place effect of an event on the table and its counters, and exactly when it returns an error |
| ConnectionTable.Connections.WaitForConnections | rdma_fc.c:1313-1322 | the wait loop in place, with its error return |
| Wire.HeaderRoundTrip | rcopy.c:76-82 | a header whose fields fit is read back as it was written |
| Wire.HeaderInverse | rcopy.c:76-82 | any 16 bytes are a header that is written back as those bytes |
| Wire.HeaderLayout | rcopy.c:75-82 | the fields of a header at 0, 1, 2, 4 and 8, each with its least significant byte first |
| Wire.MessageLayout | rcopy.c:450-534 | the bytes of OPEN, WRITE and CLOSE: command 1, 3 and 2, length, mode and id, the path and a NUL, the size and the payload |
| Wire.ResponseLayout | rcopy.c:170-180 | the bytes of a response: version 0, command 0x81, 0x82 or 0x83, length 16, the status, the id of the message |
| Wire.PathRoundTrip | rcopy.c:446-457 | the server gets the path back exactly when it has no NUL; the padding is whole words above the path; the length fits 16 bits exactly up to 65511 bytes |
| BlockingReader.FeedConcat | rcopy.c:123-134 | however the stream is cut, a process that reads with whole reads ends where the uncut stream takes it |
| BlockingReader.FeedUses | rcopy.c:123-134 | no byte is skipped, read twice or read past the end |
| RcopyServer.Socket.Rrecv | rcopy.c:127-130 | a partial read gives between one byte and all that were asked for, or 0 at the end of the stream |
| RcopyServer.Socket.Recv | rcopy.c:123-134 | for any positive sizes of the partial reads the buffer holds the next bytes in order, the result is the full length or 0 at the end of the stream, and bytes beyond are unchanged |
| RcopyServer.Socket.MsgRecvHdr | rcopy.c:136-151 | a whole valid header, or -1 for one that is cut off or invalid |
| CopyServer.ServerKeeps | rcopy.c:339-367 | for every stream, well-formed or not: a non-null mapping means an open file, and one response of 16 bytes was sent per message answered |
| CopyServer.PatchedBytes | rcopy.c:312-314 | a size that is cut replaces the low bytes of the variable and leaves the others |
| CopyFraming.FeedMessage | rcopy.c:230-337 | a well-formed message has its intended effect, is answered once, and the server goes on exactly with status 0, having consumed the whole message |
| CopyFraming.FilesAfter | rcopy.c:230-337 | what each message leaves of descriptor, mapping, size and files, in any state of the server and for every failing call |
| CopyFraming.HeaderRefused | rcopy.c:143-363 | every header that is not accepted: no answer to an invalid one, EINVAL, EBUSY or ENOMEM otherwise, with its id and response bit; the loop is left and the files are as they were |
| CopyFraming.Pairing | rcopy.c:339-367 | over any run of commands the bytes sent are one response of 16 bytes per command answered, in order; the i-th has the id of the i-th command, its command byte with the response bit, and the status; only the last status can be an error, and without one every message was consumed whole |
| CopyCut.CutMessage | rcopy.c:230-337 | for every server at its loop head, every well-formed message and every cut: nothing answered before the end of the header, a refusal as for the whole message, or status 0 with the files as they were, with part of the size, or with part of the payload |
| CopyCut.CutStatusIff | rcopy.c:230-337 | exactly when a cut message is answered with status 0, and exactly when that status means it took effect |
| CopyCut.CopyCutIff | rcopy.c:230-337 | from the start of a session: a copy cut in its WRITE is answered with status 0 exactly when its header is complete and either the size is cut or the file could be mapped; the destination is then the source exactly when the payload has begun and its missing bytes are zero |
| CopyCut.BrokenOffIff | rcopy.c:230-367 | for every prefix of a copy's stream: the server can take another client exactly when the prefix ends inside the OPEN, the OPEN failed or gave descriptor 0, or the copy went through to its last byte; otherwise every later OPEN is refused as busy |
| ReceiveErrors.FlakySocket.constructor | rcopy.c:123-125 | a stream of which nothing is read |
| ReceiveErrors.FlakySocket.Rrecv | rcopy.c:128 | a partial read, the end of the stream, or an error |
| ReceiveErrors.FlakySocket.ReadAndAdvance | rcopy.c:127-131 | one read and the move of the offset: forward by what was read, back by a byte on an error, or from 0 out of the buffer |
| ReceiveErrors.FlakySocket.Recv | rcopy.c:123-134 | with read errors the loop ends; a read reported complete has the byte that belongs at the end of the buffer there, by its place in the stream, exactly when there was no error, and is then a full read; with errors it has used as many bytes too many as there were errors, or one fewer than the errors with that end never written; an error at the first read is reported as a complete read of nothing |
| RcopyServer.PassGoesOn | rcopy.c:344-366 | a pass of the command loop is what the blocking reader does with the same bytes, and one that returns to the loop head has consumed some |
| RcopyServer.Server.constructor | rcopy.c:63-65 | no file open, nothing mapped |
| RcopyServer.Socket.Rsend | rcopy.c:457-459 | a send takes all, part or none of its bytes |
| RcopyServer.Server.MsgSendResp | rcopy.c:170-180 | one response with the id and the command of the message is added to what was sent |
| RcopyServer.Server.ServerOpen | rcopy.c:230-273 | the in-place open: refusals, path, descriptor, truncated file, response |
| RcopyServer.Server.ServerClose | rcopy.c:275-291 | the in-place close |
| RcopyServer.Server.ServerWrite | rcopy.c:293-337 | the in-place write: refusals, size, mapping, payload, response |
| RcopyServer.Server.ReceiveSize | rcopy.c:312-314 | the size, or its low bytes alone when the stream ends early |
| RcopyServer.Server.MapAndReceive | rcopy.c:316-336 | truncation, mapping, payload and the status of each failure |
| RcopyServer.Server.OpenTarget | rcopy.c:257-272 | the file opened and truncated, or the error of open, and the response |
| RcopyServer.Server.MapTarget | rcopy.c:316-325 | the file resized and mapped, or the response with the error |
| RcopyServer.Server.ReceiveFile | rcopy.c:329-333 | the mapped file holds what was received, followed by what it held before |
| RcopyServer.Server.HandleMessage | rcopy.c:349-364 | the switch over the command, with the refusal of an unknown one |
| RcopyServer.Server.ServerPass | rcopy.c:344-366 | one pass of the loop over the global state |
| RcopyServer.Server.SessionPass | rcopy.c:344-366 | a pass does not change how the session ends |
| RcopyServer.Server.ServerProcess | rcopy.c:339-367 | for every stream and all sizes of reads, the loop ends in the state and with the responses of the blocking reader |
| CopyClient.ClientAfter | rcopy.c:520-557 | what the client has sent and where it is, in closed form, for any responses |
| CopyClient.ToIntIs | rcopy.c:167 | a status as an int: 32 bits, congruent, and unchanged below 2^31 |
| CopyClient.GetRespBytes | rcopy.c:153-168 | exactly the bytes of a response to the command count, and give its status; anything else gives -1 |
| RcopyClient.Client.constructor | rcopy.c:63-65 | nothing of the source file is held |
| RcopyClient.Client.MsgGetResp | rcopy.c:153-168 | the status of a matching response, -1 otherwise |
| RcopyClient.Client.ClientOpen | rcopy.c:422-474 | each failure of open, fstat, mmap, calloc and of the send, or the request sent and the result of its response; the source file held exactly on success |
| RcopyClient.Client.ClientStartWrite | rcopy.c:476-493 | the header and size sent, whole or in part, and 0 exactly on a whole send |
| RcopyClient.Client.ClientWrite | rcopy.c:532-545 | header, payload and response; a payload cut short gives its count cast to int |
| RcopyClient.Client.ClientPayload | rcopy.c:541-545 | the payload and its response, or the count of a short payload as an int |
| RcopyClient.Client.ClientClose | rcopy.c:495-518 | the request sent, whole or in part, at most one response read, the result, and the source file released |
| RcopyClient.Client.ClientRun | rcopy.c:520-557 | for every stream of responses and all outcomes of the sends and of the source file: result, bytes sent and bytes read, and the source file released on every path |
| RcopyClient.ReportsZeroIff | rcopy.c:520-557 | exactly when the client reports success |
| RcopyClient.FirstFailure | rcopy.c:422-557 | the client stops at the first thing that goes wrong and returns just that code, and what it has sent by then; once its OPEN was answered well it always sends its CLOSE |
| RcopyClient.CastIs | rcopy.c:545 | a count cast to int is congruent to it, and unchanged below 2^31 |
| RcopyClient.RunIsSession | rcopy.c:520-557 | with whole sends the program is the client of the network |
| Duplex.StepKeeps | rcopy.c:123-134 | every read of either side, of any size, and every end seen leaves both sides where the bytes they have read take them, and makes progress |
| Duplex.RunKeeps | rcopy.c:123-134 | so does every run, and its progress is at least its length |
| Duplex.StuckWaits | rcopy.c:123-134 | when no step is left, a side that still waits has read all its peer sent, and the peer waits too |
| Duplex.AnyCutIsRun | rcopy.c:123-134 | however the waiting bytes are cut into pieces, reading the pieces one after the other is a run |
| CopyNetwork.RunReaches | rcopy.c:339-557 | after any run each side is where its bytes take it, the client has sent no more than its three messages, and the run is no longer than the bytes read and two |
| CopyCorrectness.QuietClientDone | rcopy.c:520-557 | no deadlock: when neither side can go on, the client has returned |
| CopyCorrectness.QuietSessions | rcopy.c:339-557 | at the end of a run each side is where its program ends on the other side's stream |
| CopyCorrectness.CopyCorrect | rcopy.c:339-557 | every run has a bounded number of steps; at its end the client has the server's first error, and without one both streams are consumed, the destination equals the source, no other file has changed and the server is closed; and exactly when the server can take another client |
| CopyCorrectness.ServerReadyIff | rcopy.c:230-291 | after any copy the server is ready exactly on success, after a failed OPEN, or with descriptor 0; otherwise every later OPEN is refused as busy |
| CopyCorrectness.ResultIff | rcopy.c:230-337 | the client returns 0 exactly when the server's calls succeed with a positive descriptor |
| CopyCorrectness.OutcomeIs | rcopy.c:230-337 | every copy in full: the code the client returns for each failing call, and the files, the descriptor and the mapping that the server is left with |
| PingPong.StepKeeps | apm.c:534-591 | every call, delivery and failure keeps counters, queues and the calls made in agreement |
| PingPong.Lockstep | apm.c:736-774 | at most one message in flight, its receiver with exactly one receive posted; sends lead receives by 0 or 1 on both sides; depth one is never exceeded |
| PingPong.FailedSideStops | apm.c:739-762 | a side that has met an error makes no more calls, in any run |
| PingPong.MayFail | apm.c:739-762 | an error may come at any point |
| PingPong.FollowScript | apm.c:464-774 | whatever the interleaving, each side makes the calls of its loop in order |
| PingPong.FinishIff | apm.c:738-774 | both sides finish exactly when the counts are equal, with all messages sent and received after 4 + 10 n steps; otherwise the exact counts at which one waits, while no error completion arrives |
| PingPong.RunsEnd | apm.c:738-774 | no run without a failure is longer |
| ApmProgram.Context.constructor | apm.c:736 | both counters zero, no call made, not disconnected |
| ApmProgram.Context.SendMsg | apm.c:534-554 | post and completion in order, the second only after the first |
| ApmProgram.Context.RecvMsg | apm.c:571-591 | completion and repost in order |
| ApmProgram.Context.RecvAndCount | apm.c:739-762 | a message received and counted, or the first failure with the counter as it was |
| ApmProgram.Context.SendAndCount | apm.c:752-755 | a message sent and counted, or the first failure with the counter as it was |
| ApmProgram.Context.ExchangeOnce | apm.c:739-762 | one pass: four more calls of the script, or the first failure |
| ApmProgram.Context.Exchange | apm.c:736-776 | the loop makes the calls of its script up to the first failure or a refused migration, all of it otherwise; its counters tell the messages sent and received; the result is 0, and the side disconnects, exactly without a refused migration |
| ApmProgram.ScriptCalls | apm.c:738-774 | the script of n passes completes n sends and posts n + 1 receives |

## Left out

- verbs, connection manager and socket calls, memory registration and queue-pair set-up: only success, failure, delivery and completion remain.
- the third branch of the transport test (`rdma_fc.c:1177-1179`): the option parser admits RC and DC only.
- the rdma_disconnect calls and the wait for their events on RC (`rdma_fc.c:1032-1050`): the model ends at the FIN wait; the same wait counts events whichever client they come from.
- the contents of the server's read buffer: reads of all connections land at the same local offsets (`rdma_fc.c:1113`), so nothing can be said for one connection.
- `list.h` is not part of this model: the schedule list is a sequence with its head, its tail and its order.
- RdmaServer.TestContext: the bitmap is a sequence of 64 booleans; the adapter's replies are a parameter, and a completion index with no such request in flight is an empty poll.
- RdmaServer.TestContext.ScriptedTurn: the split of a loop body into small methods is the model's, not the program's; so it is for `SessionPass`, `OpenTarget`, `ReceiveSize`, `MapAndReceive`, `MapTarget`, `ClientWrite`, `ClientPayload`, `ReadAndAdvance`, `ExchangeOnce`, `RecvAndCount` and `SendAndCount`.
- established events on a DC server: the connection manager may deliver them, but then the count is not one per connection.
- Teardown: a client has one connection, as with the default options; several clients' FINs are numbered by slot.
- Teardown.NeverDeadlocks: says that the end stays reachable, not that an unfair adapter reaches it; it needs at least one iteration, without which the final assert fails first.
- integers: mathematical, except the length field of an OPEN message, the status as an int and the reported byte count.
- RcopyServer.Server.ServerOpen: a body with no NUL before its end reads past the received path in the program; the model ends the path there.
- RcopyServer.Server.ReceiveFile: the bytes reach the file when the read ends, not one by one; nothing else reads it meanwhile.
- RcopyServer.Socket.Rrecv: never fails; a read that fails is in `ReceiveErrors`, and what a handler does with the buffer that such a read leaves is not modelled, because it holds what was in memory before.
- RcopyServer.Socket.Recv: the receive loop on reads that do not fail; `ReceiveErrors.FlakySocket.Recv` is the loop on those that may.
- RcopyServer.Socket.Rsend: of at least one byte gives -1 or a positive count.
- RcopyServer.Server.MsgSendResp: the response is taken whole; the program does not look at the result of that send.
- CopyCorrectness.CopyCorrect: assumes whole sends on both sides; `ReportsZeroIff` says what a client with short ones reports.
- RcopyClient.Client: starts with the connection made; the timing output is not modelled.
- file permissions: the mode travels in the header of OPEN (`rcopy.c:455`), and its effect on the created file is not modelled.
- `server_run`: the loop over clients; `ServerReadyIff` and `BrokenOffIff` say what a session leaves to the next one.
- ApmProgram.Context: the result of `establish_connection` is not looked at by `main` (`apm.c:727-732`); the model starts with its receive posted. Port selection, the effect of a path migration and what a disconnect does to pending receives are hardware behaviour.
- PingPong.FinishIff: a completion stands for a message. The program looks at no completion's status (`apm.c:547-551`, `apm.c:577-581`), so one with an error, as a disconnect of the other side may cause, would be counted as a message and end the wait; which of them arrive is up to the adapter.
- `multithreading/`: threads share one completion record, one region pointer and one remote address, so the code decides no guarantee for a single thread.
- the other example programs: straight-line library set-up.
