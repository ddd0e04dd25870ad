# AmiPiBorg link, server and file system client: a verified model

AmiPiBorg joins an Amiga to a Raspberry Pi over a slow byte device. A server process on the Amiga packs
packets into 4096-byte buffers, stamps checksums, re-assembles the packets it receives from arbitrary read
chunks, and shares the link among many client connections. This project models that server (packet reader,
packet writer, checksum, connections, dispatch, watchdog and log), the bounded object pool below it, and the
write path of one client, the file system ApbFs; and it proves what they are for.

The modules, from the bottom up:

- `Memory`, `Checksum`, `Framing`: bytes and buffers; the checksum; packet headers, frames, and a simple
  parser over a whole byte stream that serves as the reference.
- `ReaderTrace`, `FrameScan`, `PacketReader`, `Link`: the incremental zero-copy reader over chained buffers
  and the reads that feed it.
- `Drafts`, `WireLayout`: packets before and after stamping, and where every field lies on the wire.
- `PacketWriter`, `RoundTrip`: the writer with its queue of buffers, its history of sent packets and lazy
  stamping; writer and reader undo each other.
- `Requests`, `Connection`: pairing queued packets with queued reads, timeouts, and the state machine of one
  connection.
- `Gaps`, `Watchdog`, `Server`: gap detection, ping countdowns and the run loop, dispatch to connections.
- `Forwarding`, `EndToEnd`: the link and the server together over any run of reads, client requests and timer
  ticks: from the peer's frames to the clients' reads, and from the clients' writes to the peer's reader.
- `RingLog`, `ObjectPool`: the ring log and the typed pools.
- `FsPipeline`, `WriteRun`: the write path of ApbFs, and a DOS write from its issue to its answer under any
  interleaving of events.

The objects that the program updates in place are classes here, lists are `seq` fields, and buffers are arrays;
ghost fields record histories (bytes received, frames taken, requests accepted, replies given, connections
closed, bytes written) over which the class invariants speak. Every public operation of a class requires and
ensures its `Valid()`, so an invariant holds in every reachable state.

Integers are unbounded in Dafny. Wherever the program relies on or suffers from 16- or 32-bit arithmetic it is
written out: the 32-bit accumulator and the countdown of the checksum, packet identifiers, the length passed to
the packet writer, connection numbers, the missed ping counter and the byte count of a DOS packet.

Conditions under which the results hold, as far as they are not visible in the contracts:

- Memory is available, except where a `haveMemory`, `haveBuffer`, `havePacket` or `grants` parameter says
  otherwise. A received packet that cannot be allocated only delays its frame (`grants` counts the successes).
- The pad flag of any plausible header at an even position agrees with the parity of its length (`Tame`), or
  the stream consists of well-formed frames only. Otherwise the summing loop of the checksum does not end:
  see `Checksum.CountdownReachesZero`.
- The replies of the server go to Exec message ports; they are recorded in order, with what they carry.
- One `Request` object stands for one acceptance. A client that sends the same message again after its reply,
  as ApbFs does with its reader and its writer, sends another `Request`, which may share the data buffer and
  starts with the tick counter the last one left.

Where the code does less than its comments or names suggest, the code is followed and the exact extent is
proved: when a timeout is exact (`Requests.ExactExpiry`), when a silent link is noticed
(`Watchdog.SilentLink`), when every missing packet is asked for once (`Gaps.AskedOrReceivedOnce`), when a DOS write
is answered once and when twice (`WriteRun.Write`, `WriteRun.WriteFails`), which word errors the checksum notices (`Checksum.SingleWordErrors`).

`dafny verify dfyconfig.toml` checks the whole project.

## Model

| member | source | states |
|---|---|---|
| Checksum.AddToChecksum | server/protocol.c:15-28 | the loop adds exactly the big-endian words of the block to the 32-bit accumulator |
| Checksum.CountdownReachesZero | server/protocol.c:21-25 | the loop's UWORD countdown by two reaches zero if and only if the length is even |
| Checksum.CompleteChecksum | server/protocol.c:30-40 | folding and negating yields 0xFFFF if and only if the sum is congruent to 1 modulo 65535, and what makes any sum but zero so when added to it |
| Checksum.CalculateChecksum | server/protocol.c:4-13 | for any even block the stored value is the completion of its exact, never overflowing word sum |
| Checksum.WordSumBound | server/protocol.c:15-28 | no block with a UWORD length overflows the 32-bit accumulator |
| Checksum.WordSumOfPieces | server/packetreader.c:290-300 | summing header and two even payload segments equals summing the whole frame |
| Checksum.StampedIsAccepted | server/packetwriter.c:251-252 | storing the completed sum over a zeroed word makes the block acceptable to the receiver |
| Checksum.SingleWordErrors | server/packetreader.c:302-305 | replacing one word of an accepted frame is noticed, except exactly 0x0000 exchanged with 0xFFFF |
| Framing.ClassifyExact | server/packetreader.c:210-305 | the reference scanner reports bytes as a frame if and only if they are a well-formed frame |
| Framing.ClassifyStable | server/packetreader.c:185-305 | a verdict reached does not change when more bytes arrive |
| Framing.ParseIsTheOnlyDecoding | server/packetreader.c:171-351 | the reference parser finds a list of frames without error if and only if the stream is these frames followed by an unfinished one: decoding is unique |
| Framing.ParseOfCutStream | server/packetreader.c:171-351 | a stream of frames cut anywhere parses to a prefix of them, and uncut to all of them |
| Framing.MalformedIsFinal | server/packetreader.c:353-363 | behind a malformed place the reference parse never changes again |
| WireLayout.FrameLayout | server/protocol.h:42-50 | on plain bytes: "AmPi", type, flags, and big-endian connection, packet id, checksum and length at bytes 4, 5, 6, 8, 10 and 12, the payload from byte 14; the bytes are a frame if and only if magic, lengths, pad flag and word sum fit |
| WireLayout.DraftLayout | server/packetwriter.c:189-204 | the same for a packet before it is sent, with bytes 10 and 11 zero |
| WireLayout.StampLayout | server/packetwriter.c:251-252 | stamping stores in bytes 10 and 11, and nowhere else, the word that makes the word sum 1 modulo 65535 |
| FrameScan.FindHeader | server/packetreader.c:173-208 | a header is read exactly when its 14 bytes have arrived, whole or split over two buffers |
| FrameScan.CopyHeader | server/packetreader.c:202-207 | the header copied from one or two buffers is the 14 bytes of the stream at the parse position |
| FrameScan.LocateBehindSplitHeader | server/packetreader.c:276-287 | behind a split header the payload piece lies where the stream has it, and waiting happens only for missing bytes |
| FrameScan.LocateBehindWholeHeader | server/packetreader.c:228-274 | in the three other layouts (whole, header at buffer end, payload split) the pieces are the payload of the stream |
| FrameScan.CheckFrame | server/packetreader.c:290-305 | the checksum verdict over the scattered pieces is that of the contiguous frame in the stream |
| FrameScan.Inspect | server/packetreader.c:171-305 | one look at a candidate agrees with the reference scanner on the concatenated stream, in all layouts |
| ReaderTrace.TakeIsGood | server/packetreader.c:313-351 | accepting a frame keeps soundness, agreement with the reference parser and the offset invariants |
| ReaderTrace.SkipIsGood | server/packetreader.c:353-363 | the bad-data exit keeps soundness, agreement with the reference parser and the offset invariants |
| ReaderTrace.GrowIsGood | server/packetreader.c:115-147 | more bytes and a new buffer keep them too |
| PacketReader.PacketReader.AppendBuffer | server/packetreader.c:98-150 | a buffer is linked behind the chain exactly when it is not its last one, and the chain then holds the whole stream received |
| PacketReader.PacketReader.ProcessBuffer | server/packetreader.c:152-372 | for every chunking, the loop ends and the frames taken are exactly the reference parser's frames of all bytes received (up to the packets that could be allocated); on noise at least these; the queue grows by one packet per frame |
| PacketReader.PacketReader.ScanOne | server/packetreader.c:171-371 | one turn takes a frame, skips, or stops; every turn that does not stop advances the lexicographic measure (buffer, offset) |
| PacketReader.PacketReader.SkipBadData | server/packetreader.c:353-363 | skipping loses no packet and never moves back |
| PacketReader.PacketReader.FramesAreSlices | server/packetreader.c:290-349 | on arbitrary bytes every frame taken is a checksum-valid slice of the stream; the slices are disjoint and in stream order |
| PacketReader.PacketReader.QueuedPacket | server/packetreader.c:307-327 | a queued packet has the type, flags, ids and payload of its frame, although it only points into the buffers |
| PacketReader.PacketReader.DequeueInPacket | server/packetreader.c:404-419 | packets leave in the order of their frames, none twice, none skipped, each held by the buffers it points into |
| PacketReader.PacketReader.HeldValue | server/connection.c:193-199 | a packet keeps its value for as long as it waits: whatever has been read and processed since, it is still the packet of its frame |
| PacketReader.InPacketToBuffer | server/packetreader.c:421-431 | the two pieces are joined to the payload at the start of the destination; the rest of it is untouched |
| Link.Link.BeginRead | server/server.c:522-542 | a full read buffer is replaced, so that the device always has room |
| Link.Link.DeviceRead | server/server.c:541-565 | reading a chunk appends it to the stream that the chain of buffers holds |
| Link.Link.Drain | server/server.c:571-576 | the packets handed on are exactly those of the frames taken and not handed on before, in order |
| Link.Link.ReceiveFromRemote | server/server.c:544-577 | over any sequence of reads the packets handed on are those of the frames complete in the bytes received, whatever the chunks |
| Drafts.StampedDraft | server/packetwriter.c:251-252 | stamping turns an allocated packet into a well-formed frame that carries the same packet, whatever the pad byte holds |
| Drafts.ComposedDraft | server/server.c:349-350 | filling in type, connection and payload yields exactly that packet, with the identifier it was allocated with |
| PacketWriter.PacketWriter.AllocPacketWithId | server/packetwriter.c:130-226 | succeeds exactly for lengths the writer accepts with memory at hand; adds one draft behind all unsent ones, with magic, flags, id, zero checksum and length at their bytes; trims the history by its rule |
| PacketWriter.PacketWriter.AllocPacket | server/packetwriter.c:121-128 | the same with consecutive identifiers modulo 65536, used up even by a failure |
| PacketWriter.PacketWriter.TrimHistory | server/packetwriter.c:207-218 | only sent packets are dropped, oldest first; the newest ten stay; afterwards at most ten are kept or all are unsent |
| PacketWriter.PacketWriter.ReleaseOutPacket | server/packetwriter.c:88-99 | every buffer's count stays the number of retained packets in it, and no buffer is recycled while queued or referenced |
| PacketWriter.PacketWriter.Compose | server/packetwriter.c:189-199 | an owner filling in its packet changes that packet only, and of it the type, the connection and the payload, at their bytes |
| PacketWriter.PacketWriter.StampLoop | server/packetwriter.c:245-255 | the loop over the history stamps exactly the unsent packets of the buffer, each once, and marks them sent |
| PacketWriter.PacketWriter.SendHead | server/packetwriter.c:242-271 | what goes to the device is the concatenation of the stamped frames of the first buffer that were not sent before |
| PacketWriter.PacketWriter.WriteBuffer | server/packetwriter.c:228-283 | each call moves the oldest unsent packets, stamped, to the wire exactly once and in order of allocation |
| PacketWriter.WritesFlush | server/packetwriter.c:273-282 | with m buffers queued, m calls send everything |
| RoundTrip.StepKeepsBalance | server/packetwriter.c:121-283 | allocation, filling in and writing keep the ledger equal to what was sent followed by what is unsent |
| RoundTrip.RunKeepsBalance | server/packetwriter.c:121-283 | so for every interleaving of them |
| RoundTrip.CutStream | server/packetreader.c:152-372 | whatever prefix of the wire has arrived, the reader's frames are a prefix of those sent, and all of them when all has arrived |
| RoundTrip.RoundTrip | server/packetwriter.c:121-283 | for every run of the writer and every cut of its output, the reader yields the first packets of the ledger with type, ids and payload as filled in |
| RoundTrip.DoAllocate | server/packetwriter.c:121-226 | the allocation of the packet writer class is the model's step |
| RoundTrip.DoFillIn | server/packetwriter.c:189-199 | filling in through the class is the model's step |
| RoundTrip.DoWrite | server/packetwriter.c:228-283 | writing through the class is the model's step, and the device's bytes are the frames sent |
| RoundTrip.Send | server/connection.c:143-157 | allocating a packet from the packet writer and filling it in appends exactly that packet to the ledger, or fails for exactly the lengths that the connections' model of the writer refuses |
| RoundTrip.OutgoingDelivery | server/packetwriter.c:228-283 | for every cut of the output, the payloads the reader finds in packets of a type and connection are a prefix of those sent as such packets, and all of them when all has arrived |
| Requests.ServedInOrder | server/connection.c:175-203 | pairing answers requests in order, gives exactly the packets handed out to the OK reads in order and once each, and ends with one queue empty |
| Requests.ServedAt | server/connection.c:175-203 | the k-th request is answered with the length of the packet at the head of the queue at that time, and OK with its payload if and only if it fits; otherwise with BUFFER_TOO_SMALL and nothing, while the packet stays |
| Requests.NeverEarly | server/connection.c:289-304 | in any number of sweeps no request expires before its counter says, and none with a zero counter ever does |
| Requests.ExactExpiry | server/connection.c:289-304 | a request with T ticks expires in exactly its T-th sweep if and only if no request ahead of it has between 1 and T ticks, because a sweep stops at the first request it expires |
| Requests.LateExpiry | server/connection.c:289-299 | a queue in which a request is late: of two requests with one tick each, the second expires in the second sweep |
| Connection.AllocatesUpToBuffer | server/connection.c:143-146 | a write fails exactly when header and data exceed a buffer, also where the 16-bit length wraps |
| Connection.ExactlyOnce | server/connection.c:307-404 | the accounting invariant means: each accepted request is queued or has been replied to, once, never both |
| Connection.ReadsGetPrefix | server/connection.c:164-204 | with a well-behaved peer the OK reads got a prefix of the connection's data payloads |
| Connection.Connection.ServeFirst | server/connection.c:177-202 | one pairing sets the count, the state and the bytes in the client's buffer, and keeps request accounting and payload conservation; a too-small read keeps the packet at the head |
| Connection.Connection.PushToClient | server/connection.c:164-204 | what the loop leaves in both queues and replies is what pairing in order prescribes; when connected, one queue is empty |
| Connection.Connection.PushToRemote | server/connection.c:136-162 | a write becomes one DATA packet with exactly the client's bytes, or fails and sends nothing |
| Connection.Connection.Prepare | server/connection.c:315-321 | a request with a timeout is due that many sweeps later; without one its stale counter stays in force |
| Connection.Connection.CheckRequestTimeouts | server/connection.c:284-305 | one sweep decrements the counters up to the first expiring request, which is the only one replied to; no reply is early |
| Connection.Connection.HandleClientRequest | server/connection.c:307-404 | for every type and state: which queue, reply, state change and packet result; exactly one acceptance, all invariants kept |
| Forwarding.AskedWrote | server/connection.c:136-162 | a request sends a data packet exactly when it is a write that is answered OK, and then one packet on its connection with its bytes |
| Connection.Connection.HandleConnectionPacket | server/connection.c:206-282 | CONNECTED and NO_HANDLER answer the pending OPEN only; data is queued and paired while open and dropped afterwards; DISCONNECTED destroys; accounting and conservation are kept |
| Connection.Connection.AnswerAt | server/connection.c:265-276 | a queued request is answered once and leaves the queue; no timeout is early; accounting and conservation are kept |
| Connection.Connection.AnswerOpen | server/connection.c:263-277 | the first OPEN in the queue is answered and removed, and nothing else |
| Connection.Connection.Destroy | server/connection.c:112-134 | queued packets are released, queued requests stay unanswered, a disconnect is sent if none was |
| Gaps.EveryIdOnce | server/server.c:456-476 | requested and received ids together are 1, 2, ... up to the newest, each exactly once, if and only if the ids received increase |
| Gaps.LedgerSnoc | server/server.c:491-498 | one more packet only adds its gap and itself at the end |
| Gaps.AskedOrReceivedOnce | server/server.c:456-501 | what was asked for and what was received are together all ids up to the newest, each exactly once, if and only if the ids received increase |
| Watchdog.RunIsSound | server/server.c:337-355 | over every run the two countdowns are never both armed, a loss is declared only after six lapsed pings without PONG, and retries and failures add up to five |
| Watchdog.CreatedRunIsSound | server/server.c:805-929 | the same stated for every run of a new server, with at most five visits to CONNECT_FAILED |
| Watchdog.RunServer | server/server.c:818-929 | the loop goes on until the server has stopped and keeps these bounds; undisturbed, it stops if and only if it has failed to connect five times, and against a peer that never answers in exactly sixteen turns |
| Watchdog.GivesUp | server/server.c:868-877 | if everything the server tries succeeds and nobody ends the session, it is stopping or has stopped if and only if CONNECT_FAILED was visited five times |
| Watchdog.NeverAnswered | server/server.c:852-877 | a peer that never answers: never connected, exactly five attempts to connect, and stopped after exactly sixteen turns |
| Watchdog.LostIsRetried | server/server.c:883-887 | in every run a lost link is followed by another attempt to connect, with the retries as they were |
| Watchdog.FailureStops | server/server.c:830-860 | in every run a server that cannot open its ports or send INIT, or was disconnected, is stopping in the next turn and has stopped three turns later |
| Watchdog.LastEvent | server/server.c:420-447 | whatever came before: HELLO connects, GOODBYE and a quit request disconnect, PONG clears the missed pings |
| Watchdog.SilentLink | server/server.c:675-693 | a silent link is found lost if and only if five pings had been missed (and the counter does not wrap) and a countdown was armed, and then when it ends |
| Watchdog.SilentFromTheStart | server/server.c:353-354 | a run of a new server after which silence is never noticed: the first HELLO has connected it and armed the countdown of a ping, but no ping has been missed, and the one lapse that follows arms nothing |
| Server.Server.RequestResend | server/server.c:456-476 | appends one RESEND on the control connection for each id of the gap, in order, with the id big-endian in its two bytes of payload |
| Server.Server.NotePacket | server/server.c:487-501 | countdowns restart; the gap is asked for; resent packets do not move the counter; the ledger stays exact |
| Server.Server.HandleControlPacket | server/server.c:420-454 | by packet code: HELLO connects and pings, GOODBYE disconnects, PONG clears the missed pings and nothing else, all others change nothing |
| Server.Server.FindConnection | server/connection.c:422-436 | the first connection with the id, or none if there is none |
| Server.Server.HandlePacket | server/server.c:479-520 | a packet changes only the connection with its id, the requests queued there and their buffers, these as specified, and no counter or due time; a connection leaves the table exactly for DISCONNECTED and stays in the record of closed ones with its log and accounts; unknown ids are answered with an error; both countdowns start anew and the watch changes by packet code; every connection's log stays the packets for its id |
| Server.Server.CreateConnection | server/connection.c:77-110 | connections are numbered in order, distinct, and start without history |
| Server.Server.HandleClientControlMessage | server/server.c:579-629 | an OPEN creates one connection, numbered next, and waits there while CONNECT goes out; every other control request is answered once and changes no connection |
| Server.Server.ReceiveFromClient | server/server.c:631-661 | a request goes to the control connection, with all that this does, or to the connection it names, whose queues, replies, state, accounts, due times and packets sent become as specified, and no other connection or request changes; or it is answered with NO_CONNECTION |
| Server.Server.CheckRequestTimeouts | server/connection.c:438-447 | on every connection the counters of the queue become those of exactly one sweep, and exactly its first expiring request is replied to and leaves |
| Server.Server.HandleTimer | server/server.c:663-708 | by state: WAIT_FOR_CONNECT becomes CONNECT_FAILED, DISCONNECTING becomes DISCONNECTED, a connected server counts down, pings when the countdown ends and is lost with the sixth missed ping; while connected every queue is swept exactly once, and otherwise no connection or request changes |
| EndToEnd.ReceiveFromRemote | server/server.c:544-577 | after every read the server has handled exactly the packets of the frames the reader has taken; connections only leave the table, into the record of closed ones, and no data is sent |
| EndToEnd.Receive | server/server.c:544-577 | a read of the next bytes the peer has sent keeps a session a session; when all have arrived, and there was memory, all frames have been taken |
| EndToEnd.Ask | server/server.c:631-661 | a request of a client, of any type and on any connection, keeps a session a session |
| EndToEnd.Elapse | server/server.c:663-708 | so does a tick of the timer |
| EndToEnd.Delivery | server/server.c:479-577 | in a session, on every connection there has been, closed since or not, the OK reads got, in order and once each, a prefix of the payloads of exactly the data frames sent with its id after it was opened, whatever the chunks |
| EndToEnd.WritesSent | server/connection.c:136-162 | in a session the data packets sent on a connection, closed since or not, carry in order and once each what the writes answered OK on it carried |
| EndToEnd.WritesDelivered | server/packetwriter.c:228-283 | and whatever prefix of the bytes written has arrived, the peer's reader finds a prefix of these writes in the data packets of the connection, and all of them when all has been written and has arrived |
| EndToEnd.MissingAskedFor | server/server.c:456-501 | in a session the ids carried by the RESEND packets sent and those of the packets received are together all ids up to the newest, each exactly once, if and only if the ids received increase |
| EndToEnd.Run | server/server.c:479-708 | all three hold after every sequence of reads, client requests and ticks from a new server and a new link |
| RingLog.LogOneByte | server/log.c:64-86 | a further byte of a message that fits: the eviction scan ends and the ring holds the newest whole messages, as many as there is room for, and all of the unfinished one |
| RingLog.LogEnd | server/log.c:64-86 | the same for the NUL that ends a message |
| RingLog.NewestIsLongest | server/log.c:64-86 | nothing is dropped without need: with the next older message there would be no room |
| RingLog.RingLog.LogByte | server/log.c:64-86 | the ring's contents become the specified ones, wrapped or not; the scan ends if the full ring holds a NUL |
| RingLog.RingLog.Evict | server/log.c:74-85 | the do-while scan finds the first NUL behind the first byte and drops everything up to it |
| RingLog.RingLog.LogMessage | server/log.c:249-355 | over any sequence of messages the ring is the longest run of newest whole messages shorter than the ring |
| RingLog.RingLog.CopyLog | server/log.c:213-245 | the copy is the contents in order, cut to the length; a wrapped ring is copied whole whatever the length |
| ObjectPool.ObjectType.AllocInstance | library/objectpool.c:106-132 | hands out an object not in use; conservation and the maximum are kept |
| ObjectPool.ObjectType.ReleaseInstance | library/objectpool.c:134-154 | gives up surplus instances only; once reached, the minimum is kept |
| ObjectPool.ObjectType.Fill | library/objectpool.c:254-259 | as many instances are made in advance as minimum, maximum and memory allow |
| ObjectPool.ObjectPool.RegisterObjectType | library/objectpool.c:220-264 | a new id adds one type with its bounds and as many instances as bounds and memory allow; a known one changes nothing |
| ObjectPool.ObjectPool.AllocObject | library/objectpool.c:266-283 | with memory, fails if and only if the type is unknown or all its objects are in use; the object was in use nowhere; no type falls below its minimum |
| ObjectPool.ObjectPool.FreeObject | library/objectpool.c:285-297 | exactly that object is free again; a type that has reached its minimum keeps it |
| FsPipeline.ChunksAreTheSource | clients/ApbFs/volume.c:546-575 | the chunks concatenate to the source, none is empty or above 512 bytes, each says how much is left, and only the last says none |
| FsPipeline.AnsweredOnce | clients/ApbFs/volume.c:977-1004 | when all chunks are acknowledged, a write of n > 0 bytes is answered once with n, and exactly a write of none never |
| FsPipeline.DosPacket.ActionWriteReply | clients/ApbFs/volume.c:977-1004 | an acknowledgement is counted, the one marked as last answers the packet with the count, and an error overrides both results and answers the packet with it |
| FsPipeline.FsRequest.constructor | clients/ApbFs/request.c:12-41 | the length to come decides the pool and the room for data |
| FsPipeline.FsRequest.AppendArg | clients/ApbFs/request.c:43-71 | the bytes are put behind those there, and exactly the argument named says where |
| FsPipeline.ApbFs.SendReq | clients/ApbFs/device.c:136-157 | the oldest request is written, joins the sent ones and nothing else may be written until it comes back |
| FsPipeline.ApbFs.EnqueueRequest | clients/ApbFs/device.c:308-317 | FIFO is kept: what was written followed by what is queued is what was accepted; the request is the last one under way, sent at once or queued; ready to write implies an empty queue |
| FsPipeline.ApbFs.WriterReturned | clients/ApbFs/device.c:250-253 | the next request goes out and joins the sent ones, what is under way stays the same; at most one write is on its way |
| FsPipeline.ApbFs.WriteChunk | clients/ApbFs/volume.c:558-573 | a chunk of this packet comes last under way, sent or queued, with the arguments it needs, in a request that will go back to the pool it came from |
| FsPipeline.ApbFs.ActionWrite | clients/ApbFs/volume.c:546-575 | the loop puts exactly the chunks of the source under way, in order and for this packet |
| FsPipeline.ApbFs.ReceiveResponse | clients/ApbFs/device.c:222-226 | a response acts on the packet whose chunk the request carried, and exactly this chunk is no longer under way |
| WriteRun.PendingWithout | clients/ApbFs/device.c:222-226 | taking the oldest chunk of a packet from those under way takes the first of its pending chunks and none of any other packet |
| WriteRun.NextAcknowledged | clients/ApbFs/volume.c:977-1004 | acknowledging the next chunk adds its bytes and answers the packet exactly when it was the last |
| WriteRun.Acknowledge | clients/ApbFs/volume.c:977-1004 | an acknowledgement of a chunk of the packet keeps the state of the write: the bytes counted, the chunks pending, and the answer exactly when the last one is acknowledged |
| WriteRun.Fail | clients/ApbFs/volume.c:999-1002 | a chunk that fails answers the packet at once, with the error, whatever has been acknowledged before |
| WriteRun.Write | clients/ApbFs/volume.c:546-575 | from issue on, for every interleaving of returning writes, acknowledgements, and responses of any kind to other packets, the packet is answered exactly once with n, after its last acknowledgement and not before; without bytes never |
| WriteRun.WriteFails | clients/ApbFs/volume.c:977-1004 | if a chunk of such a write fails and the rest is acknowledged, in any interleaving, the packet is answered with the error; this is its only answer if and only if no bytes were left behind that chunk, and otherwise it is answered a second time |

## Left out

- PacketReader.PacketReader.ProcessBuffer: completeness behind a malformed place is not claimed, because skipping two bytes at a time may pass over a good frame (server/packetreader.c:355-363).
- PacketReader.PacketReader.ProcessBuffer: a stream that has malformed places and a plausible header whose pad flag contradicts its length is excluded, because the summing loop would not end (server/protocol.c:21-25).
- PacketReader.PacketReader.ProcessBuffer: a frame longer than 4096 bytes is waited for or taken as the layouts allow; the reference parser calls it malformed, as INIT announces 4096 as the maximum.
- PacketWriter.PacketWriter.AllocPacketWithId: a total length of 4095 is excluded, because the clearing store lands one byte past the buffer (server/packetwriter.c:203-204).
- PacketWriter.PacketWriter.AllocPacket: the same length is excluded.
- RoundTrip.DoAllocate: the same length is excluded.
- RoundTrip.Send: the same length is excluded.
- PacketReader.PacketReader.AppendBuffer: memory for the list node is available, and the release flags are not modelled, as buffers stay alive.
- Link.Link.BeginRead: memory for the read buffer is available.
- Connection.Connection.PushToRemote: memory for the packet is available; the failure for a length that is too long is modelled.
- Connection.Connection.HandleClientRequest: at most one OPEN waits on a connection at a time; the server sends a connection just one.
- Server.Server.RequestResend: memory for the packets is available, so the loop does not break off.
- Server.Server.HandleClientControlMessage: an OPEN beyond the 65535th connection is excluded.
- EndToEnd.Delivery: the peer is assumed to say CONNECTED once and before any data.
- EndToEnd.Ask: an OPEN goes to the control connection, so that a connection is opened once; one opened again may deliver later data. Fewer than 65536 connections are opened.
- EndToEnd.Run: the client's requests are different `Request` objects, in memory that is not the link's; the device only reads what the peer has sent.
- EndToEnd.WritesDelivered: that the packet writer's ledger holds what the server has sent is a hypothesis; RoundTrip.Send keeps it for each packet, and between packets the writer writes as it likes.
- WriteRun.Write: the handler acknowledges the chunks of this packet in full and in order; short acknowledgements are covered for one response at a time by FsPipeline.DosPacket.ActionWriteReply.
- WriteRun.WriteFails: one chunk fails; a further failure is again a WriteRun.Fail. That the packet may be answered twice is what the code does (clients/ApbFs/volume.c:991-1002).
- Server.Server.CreateConnection: fewer than 65535 connections; behind that, numbers repeat.
- Connection.Connection.CheckRequestTimeouts: the sweep ends at the first request it expires, as the reply relinks it into the reply port's list before its successor is read (server/connection.c:289-299); a client that queues the message again in between is not modelled.
- Connection.Connection.Destroy: requests still queued are not answered, as in the code (server/connection.c:112-134).
- Server.Server.HandlePacket: at the level of connections received packets are values; the zero-copy pieces are joined when the link hands them on, which PacketReader.PacketReader.HeldValue shows to make no difference, and all packets of one read are drained before the first is handled.
- Recycling of incoming buffers: the program decrements the count of the next buffer unconditionally (server/packetreader.c:389-394); buffers stay alive here.
- Resending: the lookup compares the packet's magic with the identifier and so never finds a packet (server/packetwriter.c:295); outgoing buffers are not always released, and only safety of their release is claimed.
- Detection of every silent link, exact expiry of every request, replies to the requests of a destroyed connection and release of a NO_HANDLER packet (server/connection.c:238-247): the code does not do them.
- In connections and server the packet writer is represented by the packets allocated from it, and allocation failures there are not modelled.
- The asynchronous device, timer, signals, ports and library start-up are foreign calls: a write takes a copy at once, a read appends any number of bytes up to the room there is.
- Log formatting and padding, statistics, configuration, the contents of HELLO, and the unbuilt files server/event.c, server/remote.c and server/old.
- Of ApbFs everything outside the write path and its request queue; requests of chunks that are not the last stay allocated in the program, and their pool is taken to be large enough.
