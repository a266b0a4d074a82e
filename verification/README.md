# A verified model of QUIC transport state

This project models the transport state of a QUIC implementation, a fork of quic-go that can acknowledge the
first packet instantly, and proves what that state keeps. It covers

- **reassembly** of stream data out of overlapping, reordered and duplicated frames (`FrameSorter`),
- **sending and receiving streams** and the bytes that arrive end to end over a network that loses, reorders and
  duplicates frames (`SendStream`, `ReceiveStream`, `EndToEnd`, with the frame sizes of `StreamFrames`),
- **loss recovery**: the history of sent packets, the packet number generators, the walk of an ACK frame, loss
  detection, the loss detection timer and the bytes in flight over three packet number spaces
  (`SentPacketHistory`, `PacketNumbers`, `LossRecovery`, `PacketSpaces`, `SentPacketHandler`, `AckHandler`,
  `SentPacketRuns`, `SendOrder`), what all its fields mean in terms of the calls and packets (`HandlerHistory`), and
  the gate in front of every datagram (`SendGate`),
- **retransmission**: a stream and the packet handler together, with the peer that reads (`Retransmission`),
- **acknowledgements**: the list of received packet numbers, when they are acknowledged, and ACK frames on the wire
  (`ReceivedPackets`, `PacketTracker`, `AckFrames`),
- **connection IDs**: the side that issues them and the side that uses them, as a protocol (`ConnIDManager`,
  `ConnIDGenerator`, `ConnIDProtocol`),
- **stream limits** for streams that the peer opens and that this endpoint opens, and the callers that wait for them
  (`IncomingStreams`, `AcceptQueue`, `OutgoingStreams`),
- **variable-length integers and the HTTP/3 SETTINGS frame** (`Varint`, `Settings`).

An object of the program is a class with the program's fields; its methods are proved against predicates or functions
on a value (`Contents()`) that holds all fields. Statements about runs are lemmas over sequences of such values. A
panic, an error return or a nil dereference of the program is a result value of the method, and the contract says
exactly when it occurs, or that it does not. Clocks, random numbers, RTT statistics, the congestion controller, the
packer and the flow control windows are parameters. In the lemmas on loss recovery, a measure `m` on packets lets one
statement speak about bytes, about frames and about single packets.

Where code and documentation disagree, the model follows the code:

- The comment at `internal/ackhandler/received_packet_history.go:88` speaks of 500 ranges; the constant is 32.
- A send stream that is asked for a frame too small for a single byte of new data dereferences nil
  (`send_stream.go:260-305`); `SendStream.Stream.PopStreamFrame` gives the exact condition, which frame sizes of at
  least 128 bytes exclude, and `SendStream.FrameWithoutRoom` a call.
- A frame that ends at offset 2^62 - 1 makes the frame sorter panic (`frame_sorter.go:180-203`);
  `FrameSorter.Sorter.Push` gives the exact condition, and `FrameSorter.LastByte` a frame.
- A receive stream reports completion again for each FIN, and for a RESET_STREAM frame, that arrives after CancelRead
  with the final size 2^62 - 1 (`receive_stream.go:240-293`): `ReceiveStream.ReportsTwice`,
  `ReceiveStream.ReportsTwiceOnReset`; exactly when is `ReceiveStream.RunReportsOnce`.
- A receive stream whose final size is known, and that is reset before it is read, never reports completion
  (`receive_stream.go:279-292`): `ReceiveStream.NeverReports`; exactly when is `ReceiveStream.ConcludedHasReported`.
- A SETTINGS frame whose other settings hold the datagram setting, or that is longer than 8 KiB, is not parsed back
  (`http3/frames.go:98-164`): `Settings.RoundTrip`, and `Settings.NotReadBack` for a frame.
- A waiter that is cancelled keeps a wake-up from the next one (`streams_map_outgoing.go:93-99`):
  `OutgoingStreams.WakeUpLost`, `OutgoingStreams.ProgressExact`.
- Of two callers of AcceptStream, one can be left waiting for a stream that is there (`streams_map_incoming.go:59-133`):
  `AcceptQueue.CallerLeftWaiting`, `AcceptQueue.ProgressExact`, `AcceptQueue.EndsStuck`.
- The peer is told twice that it blocks streams at the limit 0 if it sets this limit while somebody waits
  (`streams_map_outgoing.go:128-142`, `172-185`): `OutgoingStreams.ZeroToldTwice`, `OutgoingStreams.ToldTwice`.
- A connection ID that was retired is used again if the peer gives it a second number (`conn_id_manager.go:111-142`):
  `ConnIDManager.RetiredIDUsed`, `ConnIDManager.RetiredIDExactly`.
- A second stateless reset token for the initial connection ID leaves two tokens registered
  (`conn_id_manager.go:178-184`): `ConnIDManager.Manager.SetStatelessResetToken`, `ConnIDManager.TwoTokens`. This is
  about the method as such; its only caller runs once.
- A higher stream limit after CloseWithError panics if somebody waits (`streams_map_outgoing.go:172-216`):
  `OutgoingStreams.Map.SetMaxStream`, `OutgoingStreams.LimitAfterClose`. This, too, is about the method as such; the
  connection closes the map when it handles no more frames.
- An ACK frame without ranges is returned, and the next packet panics, if the largest received packet is ignored before
  it is acknowledged (`internal/ackhandler/received_packet_tracker.go:79-190`): `PacketTracker.FrameHasRanges`. This is
  about the tracker as such: packing such a frame already panics.
- An ACK delay that is too large does not always become the largest duration (`internal/wire/ack_frame.go:38-42`):
  `AckFrames.DelayWraps`, `AckFrames.DelayExactly`.
- Resetting the bytes in flight on a Retry is right exactly if no Handshake packets are in flight
  (`internal/ackhandler/sent_packet_handler.go:867-902`): `SentPacketHandler.RetryExact`.

`dafny verify dfyconfig.toml` checks the project.

## Model

| member | source | states |
|---|---|---|
| `FrameSorter.RunReceives` | 01-quic-go-instant-ack/frame_sorter.go:56-232 | over every run of pushes and pops without an error: a byte counts as received exactly if some pushed frame held it, and read prefix, queue and gaps partition the offsets |
| `FrameSorter.RunConservesCallbacks` | 01-quic-go-instant-ack/frame_sorter.go:45-231 | over every run, each release callback that was pushed has been called, is queued, or was handed out by Pop, exactly as often as it was pushed |
| `FrameSorter.RunDelivers` | 01-quic-go-instant-ack/frame_sorter.go:56-232 | if all pushed frames are cut out of one stream, what was popped is a prefix of that stream |
| `FrameSorter.InsertKeepsValid` | 01-quic-go-instant-ack/frame_sorter.go:120-176 | storing a trimmed frame and carving it out of the gaps keeps gaps sorted and separated and chunks disjoint, and both in step |
| `FrameSorter.Sorter.constructor` | 01-quic-go-instant-ack/frame_sorter.go:36-43 | nothing received, one gap |
| `FrameSorter.Sorter.Push` | 01-quic-go-instant-ack/frame_sorter.go:45-54 | the received set grows by exactly the pushed interval, every queued byte comes from the queue or the frame, the callback is accounted for once; "no gap found" exactly for data that reaches 2^62 - 1; too many gaps exactly if there are 1000 and the frame lies strictly inside one of them |
| `FrameSorter.Sorter.TryPush` | 01-quic-go-instant-ack/frame_sorter.go:56-178 | as Push, with duplicates (nothing new) told apart and leaving everything unchanged |
| `FrameSorter.Sorter.Insert` | 01-quic-go-instant-ack/frame_sorter.go:71-177 | the part after the gaps are found: trims, cuts, replaces and stores; too many gaps exactly as for Push |
| `FrameSorter.Sorter.FindStartGap` | 01-quic-go-instant-ack/frame_sorter.go:180-190 | the first gap that does not end before the offset, and whether the offset is in it |
| `FrameSorter.Sorter.FindEndGap` | 01-quic-go-instant-ack/frame_sorter.go:192-203 | the last gap that does not start after the offset, and whether the offset is in it |
| `FrameSorter.Sorter.DeleteConsecutive` | 01-quic-go-instant-ack/frame_sorter.go:205-218 | deletes exactly the chunks that follow each other from a position, and calls their callbacks |
| `FrameSorter.Sorter.Discard` | 01-quic-go-instant-ack/frame_sorter.go:205-218 | deletes one chunk; each callback is called or still owed as often as before |
| `FrameSorter.Sorter.ReplaceFrom` | 01-quic-go-instant-ack/frame_sorter.go:85-112 | replaces the chunks that the frame covers from its start; says when the frame is a duplicate and when it must be cut |
| `FrameSorter.Sorter.TrimStart` | 01-quic-go-instant-ack/frame_sorter.go:85-119 | the frame without what was received before its first gap: no straddling chunks are left |
| `FrameSorter.Sorter.DeleteRun` | 01-quic-go-instant-ack/frame_sorter.go:133-137 | deletes the chunks between two gaps that the frame covers |
| `FrameSorter.Sorter.DeleteGap` | 01-quic-go-instant-ack/frame_sorter.go:136-138 | deletes a gap that the frame fills, with the chunks behind it |
| `FrameSorter.Sorter.DeleteBetween` | 01-quic-go-instant-ack/frame_sorter.go:134-139 | deletes all gaps and chunks strictly between the first and the last gap of the frame |
| `FrameSorter.Sorter.ShrinkStartGap` | 01-quic-go-instant-ack/frame_sorter.go:120-130 | leaves of the first gap exactly the part before or behind the frame |
| `FrameSorter.Sorter.OpenGaps` | 01-quic-go-instant-ack/frame_sorter.go:120-140 | the gap list and the queue after everything the frame covers before its last gap is gone |
| `FrameSorter.Sorter.CloseGaps` | 01-quic-go-instant-ack/frame_sorter.go:142-160 | the gap list is exactly the old one with the frame carved out, and the frame is cut at the end of its last gap |
| `FrameSorter.Sorter.Store` | 01-quic-go-instant-ack/frame_sorter.go:162-177 | stores the chunk, with the callback called at once if data was copied; too many gaps exactly beyond 1000 |
| `FrameSorter.Sorter.CarveGaps` | 01-quic-go-instant-ack/frame_sorter.go:120-160 | the gaps without the frame, the queue without what the frame covers, and the frame cut at the end of its last gap |
| `FrameSorter.LongerExactly` | 01-quic-go-instant-ack/frame_sorter.go:120-160 | carving a frame out makes the list longer, by one, exactly if the frame lies strictly inside one gap |
| `FrameSorter.LastByte` | 01-quic-go-instant-ack/frame_sorter.go:180-190 | a concrete frame, the last byte of the last offset, that meets the panic in a new sorter |
| `FrameSorter.Sorter.Pop` | 01-quic-go-instant-ack/frame_sorter.go:220-232 | hands out the chunk at the read position, empty exactly if the next byte is missing; "read position higher than a gap" cannot occur |
| `StreamFrames.MaxDataLenExact` | 01-quic-go-instant-ack/internal/wire/stream_frame.go:111-152 | for every size: a frame with n bytes of data fits exactly if n is at most MaxDataLen, if and only if MaxDataLen is at most 16383 (beyond, the length field grows once more than the code expects) |
| `StreamFrames.MaxDataLenFits` | 01-quic-go-instant-ack/internal/wire/stream_frame.go:111-152 | up to a MaxDataLen of 16383, a frame with n bytes of data fits exactly if n is at most MaxDataLen |
| `StreamFrames.MaybeSplitOffFrame` | 01-quic-go-instant-ack/internal/wire/stream_frame.go:154-180 | for every frame and size: prefix and suffix are together the frame, FIN with the suffix, the prefix not empty; up to a MaxDataLen of 16383, the prefix fits and the suffix is not empty |
| `SendStream.Stream.constructor` | 01-quic-go-instant-ack/send_stream.go:62-76 | nothing written, nothing sent |
| `SendStream.Stream.StartWrite` | 01-quic-go-instant-ack/send_stream.go:82-189 | the start of Write: errors accept nothing; otherwise the data is buffered, sent or waits, and waits exactly if it does not fit into one frame |
| `SendStream.Stream.ContinueWrite` | 01-quic-go-instant-ack/send_stream.go:115-189 | one round of the wait loop: what it reports as written is accepted, in order, once; it waits on exactly if what is left does not fit |
| `SendStream.Stream.PopStreamFrame` | 01-quic-go-instant-ack/send_stream.go:201-216 | no frame exactly if the stream is cancelled, shut down or has nothing to send, its first lost frame finds no room for a byte, or new data waits and the window is closed; otherwise the first lost frame, whole or as much as fits, and before new data, of which as much as frame and window admit; more to send is reported whenever there is, and without need only after a lost frame or on a closed stream; a nil dereference exactly if new data meets a frame without room |
| `SendStream.FrameWithoutRoom` | 01-quic-go-instant-ack/send_stream.go:260-305 | a concrete call that dereferences nil: data is waiting, and the frame has no room for it |
| `SendStream.Stream.PopNewOrRetransmitted` | 01-quic-go-instant-ack/send_stream.go:218-270 | the same, before the frame is counted; FIN exactly with the last byte, or alone if there is none |
| `SendStream.Stream.PopData` | 01-quic-go-instant-ack/send_stream.go:260-270 | new data: as much as frame and window admit, the offset moves by it, FIN exactly when nothing is left of a closed stream |
| `SendStream.Stream.PopNewStreamFrame` | 01-quic-go-instant-ack/send_stream.go:272-348 | cuts the frame off the buffered frame or the data of the running Write; together they are what was there before |
| `SendStream.Stream.MaybeGetRetransmission` | 01-quic-go-instant-ack/send_stream.go:317-325 | the first lost frame if it fits, else as much of it as does with the rest left first in the queue; none exactly if not one byte fits |
| `SendStream.EveryFrameCounts` | 01-quic-go-instant-ack/send_stream.go:218-270 | with frames of at least 128 bytes and an open window, every frame leaves strictly less to send, lost data included |
| `SendStream.RoomForLost` | 01-quic-go-instant-ack/send_stream.go:317-325 | such frames always have room for lost data |
| `SendStream.Stream.OnAcked` | 01-quic-go-instant-ack/send_stream.go:456-474 | the frame is no longer outstanding; completion is reported exactly once, and without cancellation only if FIN and every byte was acknowledged; the count never becomes negative |
| `SendStream.Stream.OnLost` | 01-quic-go-instant-ack/send_stream.go:476-491 | the frame is queued for retransmission as it was sent |
| `SendStream.Stream.Close` | 01-quic-go-instant-ack/send_stream.go:359-375 | finishes writing unless cancelled or shut down |
| `SendStream.Stream.CancelWrite` | 01-quic-go-instant-ack/send_stream.go:377-404 | forgets what is queued, gives the final size once, and completes the stream once |
| `SendStream.EmitNew` | 01-quic-go-instant-ack/send_stream.go:260-270 | what is handed out for the first time extends what was sent by exactly its data |
| `SendStream.EmitLost` | 01-quic-go-instant-ack/send_stream.go:317-325 | what is handed out again was sent before |
| `SendStream.AckedOk` | 01-quic-go-instant-ack/send_stream.go:456-474 | acknowledging keeps that no byte is forgotten: each is acknowledged, outstanding or queued |
| `SendStream.LostOk` | 01-quic-go-instant-ack/send_stream.go:476-491 | losing keeps that no byte is forgotten |
| `SendStream.AllAckedStays` | 01-quic-go-instant-ack/send_stream.go:350-357 | once everything was acknowledged, it stays so |
| `SendStream.AfterAck` | 01-quic-go-instant-ack/send_stream.go:456-474 | what an ACK completes, with and without cancellation |
| `ReceiveStream.Stream.constructor` | 01-quic-go-instant-ack/receive_stream.go:57-71 | nothing received, final size unknown |
| `ReceiveStream.Stream.DequeueNextFrame` | 01-quic-go-instant-ack/receive_stream.go:192-201 | takes the next frame from the sorter; empty only if the next byte is missing; last exactly if it reaches the final size |
| `ReceiveStream.Stream.CopyOut` | 01-quic-go-instant-ack/receive_stream.go:170-172 | copies the bytes that come next, in order |
| `ReceiveStream.Stream.FinishReading` | 01-quic-go-instant-ack/receive_stream.go:180-187 | the last frame is read to its end exactly once |
| `ReceiveStream.Stream.ReadRound` | 01-quic-go-instant-ack/receive_stream.go:111-188 | one round of the read loop: bytes, the end of the stream as soon as the last frame is read, a wait with the next byte missing, or an error: of a stream that is over exactly its own, otherwise that of the deadline exactly if it has passed, unless there is data and no more |
| `ReceiveStream.Stream.Read` | 01-quic-go-instant-ack/receive_stream.go:78-190 | returns exactly the next bytes of the stream; EOF only at the final size, and with the last bytes if the last frame is read; blocks only if the next byte is missing; a stream that was cancelled, reset or shut down before returns no data and its own error, in the order of the code, and one whose deadline has passed at the start that error |
| `ReceiveStream.Stream.HandleStreamFrame` | 01-quic-go-instant-ack/receive_stream.go:228-258 | the received set grows by the frame unless reading was cancelled; errors exactly as flow control, final size and the number of gaps before the call say |
| `ReceiveStream.Stream.PushOrIgnore` | 01-quic-go-instant-ack/receive_stream.go:250-257 | a frame is pushed into the sorter; on a cancelled stream it is dropped, and its buffer is neither queued nor given back |
| `ReceiveStream.Stream.NoteOffset` | 01-quic-go-instant-ack/receive_stream.go:241-249 | the highest offset and the final size, or the error of the flow controller |
| `ReceiveStream.Stream.HandleResetStreamFrame` | 01-quic-go-instant-ack/receive_stream.go:260-293 | a reset is noted once, and completes the stream unless the final size was known |
| `ReceiveStream.Stream.CancelRead` | 01-quic-go-instant-ack/receive_stream.go:203-226 | a cancelled stream is complete exactly if it was not and the final size is known |
| `ReceiveStream.RunConservesCallbacks` | 01-quic-go-instant-ack/receive_stream.go:95-258 | over every run, each buffer of a frame on a stream that was not cancelled is given back, still queued or being read, as often as it arrived |
| `ReceiveStream.RunAccountsForBuffers` | 01-quic-go-instant-ack/receive_stream.go:95-258 | over every run, the arrivals of a buffer are those given back, queued or being read plus those on a cancelled stream, and the latter are never given back |
| `ReceiveStream.RunReportsOnce` | 01-quic-go-instant-ack/receive_stream.go:95-293 | over every run, completion is reported more than once exactly if 2^62 - 1, as the final size of a cancelled stream, arrives more than once, in a FIN or in the first RESET_STREAM frame; each of these frames is then reported |
| `ReceiveStream.ReportsTwice` | 01-quic-go-instant-ack/receive_stream.go:214-258 | a run that reports completion twice, for a repeated FIN with final size 2^62 - 1 |
| `ReceiveStream.ReportsTwiceOnReset` | 01-quic-go-instant-ack/receive_stream.go:240-293 | a run that reports it twice, for a FIN and a RESET_STREAM frame with this size |
| `ReceiveStream.ConcludedHasReported` | 01-quic-go-instant-ack/receive_stream.go:95-293 | over every run, nothing is reported before the stream was read to its end or is not read any more and its final size known; then completion has been reported, except exactly if a RESET_STREAM frame came when the final size was known and the data not read, or 2^62 - 1 is the final size of a stream that was cancelled after it |
| `ReceiveStream.NeverReports` | 01-quic-go-instant-ack/receive_stream.go:273-293 | a run of the first kind: a FIN and then a RESET_STREAM frame |
| `ReceiveStream.StepReports` | 01-quic-go-instant-ack/receive_stream.go:95-293 | each call keeps the exact number of reports |
| `EndToEnd.PrefixDelivered` | 01-quic-go-instant-ack/send_stream.go:82-348 | for every interleaving of writes, frame sizes, windows, losses, retransmissions, reorderings and duplicates: what Read returned is a prefix of what Write accepted; EOF only after all of it |
| `EndToEnd.WriteReturns` | 01-quic-go-instant-ack/send_stream.go:82-189 | the number that Write returns is the length of the prefix of its data that was accepted |
| `EndToEnd.NoFinalSizeError` | 01-quic-go-instant-ack/receive_stream.go:240-246 | no frame that this sender sends is a final size error at this receiver |
| `EndToEnd.NoFinalSizeErrorOnReset` | 01-quic-go-instant-ack/receive_stream.go:272-293 | nor is its RESET_STREAM frame |
| `EndToEnd.SenderCompletes` | 01-quic-go-instant-ack/send_stream.go:350-357 | the sender reports completion at most once, and without cancellation only when all accepted data and FIN were sent and acknowledged |
| `EndToEnd.RunKeepsInv` | 01-quic-go-instant-ack/receive_stream.go:95-293 | in every reachable state all that is in flight or received agrees with what was sent |
| `EndToEnd.PopKeepsInv` | 01-quic-go-instant-ack/send_stream.go:201-216 | handing out a frame keeps this |
| `EndToEnd.DeliverKeepsInv` | 01-quic-go-instant-ack/receive_stream.go:228-258 | so does the delivery of any frame, in any order and any number of times |
| `EndToEnd.ReadKeepsInv` | 01-quic-go-instant-ack/receive_stream.go:78-190 | so does reading |
| `Retransmission.Reliable` | 01-quic-go-instant-ack/internal/ackhandler/sent_packet_handler.go:308-470 | with the sent packet handler deciding what is acknowledged, lost and sent again, over any network: what Read returned is a prefix of what Write took, all of it at the end of the stream, and the stream completes once, after all was acknowledged |
| `Retransmission.EveryFrameIsSomewhere` | 01-quic-go-instant-ack/internal/ackhandler/sent_packet_handler.go:447-468 | over every run, the stream waits for a frame exactly as often as it is in a packet not yet sent, tracked, forgotten with its keys, or in a report on its way |
| `Retransmission.ReportsAreExpected` | 01-quic-go-instant-ack/send_stream.go:456-491 | over every run, whatever the handler reports is outstanding at the stream: the negative count at which OnAcked and OnLost panic cannot occur |
| `Retransmission.Projects` | 01-quic-go-instant-ack/send_stream.go:456-491 | the two streams make a run of their own, with the reports of the handler in place of free ones |
| `Retransmission.ReportsExactly` | 01-quic-go-instant-ack/internal/ackhandler/sent_packet_handler.go:447-468 | packets bring as many reports of a frame as they carry it |
| `Retransmission.LogGrows` | 01-quic-go-instant-ack/internal/ackhandler/sent_packet_handler.go:148-928 | no call takes back a report |
| `SentPacketHistory.History.SkippedPacket` | 01-quic-go-instant-ack/internal/ackhandler/sent_packet_history.go:32-39 | adds a skipped number; panics exactly if it is not the next one |
| `SentPacketHistory.History.SentNonAckElicitingPacket` | 01-quic-go-instant-ack/internal/ackhandler/sent_packet_history.go:41-47 | adds an empty slot, or none to an empty history; panics exactly if the number is not the next one |
| `SentPacketHistory.History.SentAckElicitingPacket` | 01-quic-go-instant-ack/internal/ackhandler/sent_packet_history.go:49-56 | adds the packet and counts it; panics exactly if the number is not the next one |
| `SentPacketHistory.History.FirstOutstanding` | 01-quic-go-instant-ack/internal/ackhandler/sent_packet_history.go:75-86 | the outstanding packet with the lowest number, nil exactly if there is none |
| `SentPacketHistory.History.CleanupStart` | 01-quic-go-instant-ack/internal/ackhandler/sent_packet_history.go:143-152 | drops the empty slots at the front |
| `SentPacketHistory.History.ClearSkippedBefore` | 01-quic-go-instant-ack/internal/ackhandler/sent_packet_history.go:105-113 | empties the slots of skipped numbers right before a slot |
| `SentPacketHistory.History.EmptySlot` | 01-quic-go-instant-ack/internal/ackhandler/sent_packet_history.go:104-119 | slot 0 is not empty afterwards |
| `SentPacketHistory.History.Remove` | 01-quic-go-instant-ack/internal/ackhandler/sent_packet_history.go:92-121 | finds the packet by its number; neither panic can occur; the counter stays right |
| `SentPacketHistory.History.DeclareLost` | 01-quic-go-instant-ack/internal/ackhandler/sent_packet_history.go:161-177 | as Remove, without touching skipped numbers |
| `SentPacketHistory.AppendValid` | 01-quic-go-instant-ack/internal/ackhandler/sent_packet_history.go:32-56 | adding a slot keeps: slot i holds number first + i, slot 0 is not empty, the counter counts the outstanding packets |
| `SentPacketHistory.RemovedValid` | 01-quic-go-instant-ack/internal/ackhandler/sent_packet_history.go:92-121 | removing keeps it |
| `SentPacketHistory.LostValid` | 01-quic-go-instant-ack/internal/ackhandler/sent_packet_history.go:161-177 | declaring lost keeps it |
| `SentPacketHistory.IndexFacts` | 01-quic-go-instant-ack/internal/ackhandler/sent_packet_history.go:123-137 | a number leads to the slot of its packet, and an outstanding packet means a positive counter |
| `PacketNumbers.SequentialGenerator.PeekNumber` | 01-quic-go-instant-ack/internal/ackhandler/packet_number_generator.go:26-28 | the number that Pop will return |
| `PacketNumbers.SequentialGenerator.PopNumber` | 01-quic-go-instant-ack/internal/ackhandler/packet_number_generator.go:30-34 | returns the peeked number |
| `PacketNumbers.SkippingGenerator.constructor` | 01-quic-go-instant-ack/internal/ackhandler/packet_number_generator.go:51-59 | the first number to skip is at least 3 ahead |
| `PacketNumbers.SkippingGenerator.PeekNumber` | 01-quic-go-instant-ack/internal/ackhandler/packet_number_generator.go:61-66 | the number that Pop will return |
| `PacketNumbers.SkippingGenerator.PopNumber` | 01-quic-go-instant-ack/internal/ackhandler/packet_number_generator.go:68-78 | returns the peeked number and says whether the one before it was skipped; the argument of the random generator stays positive and in range |
| `PacketNumbers.SkippingGenerator.GenerateNewSkip` | 01-quic-go-instant-ack/internal/ackhandler/packet_number_generator.go:80-84 | the next number to skip, and the doubled period up to its maximum |
| `PacketNumbers.PopFacts` | 01-quic-go-instant-ack/internal/ackhandler/packet_number_generator.go:61-84 | one Pop: Peek agrees, the generator goes on behind the number, the next skip is at least 4 ahead |
| `PacketNumbers.RunNumbers` | 01-quic-go-instant-ack/internal/ackhandler/packet_number_generator.go:61-84 | over every run: each number is popped or skipped, in order, and between two skipped numbers there are at least four others |
| `LossRecovery.DetectAcked` | 01-quic-go-instant-ack/internal/ackhandler/sent_packet_handler.go:399-438 | the walk over packets and ranges returns exactly the selected packets, an error exactly if an acknowledged number was skipped, and never "would have acked wrong packet" |
| `LossRecovery.AdvanceRange` | 01-quic-go-instant-ack/internal/ackhandler/sent_packet_handler.go:415-421 | moves to the lowest range that does not end before the number |
| `LossRecovery.AckedExactly` | 01-quic-go-instant-ack/internal/ackhandler/sent_packet_handler.go:398-438 | the selected packets are, in ascending order, exactly the tracked packets with a number in one of the ranges |
| `LossRecovery.DetectLost` | 01-quic-go-instant-ack/internal/ackhandler/sent_packet_handler.go:606-670 | declares the selected packets lost and takes their bytes out of the bytes in flight; neither "negative bytes_in_flight" nor "no frames" can occur |
| `LossRecovery.LostExactly` | 01-quic-go-instant-ack/internal/ackhandler/sent_packet_handler.go:606-670 | exactly the packets up to the largest acknowledged one beyond the time or packet threshold are gone; the loss time is unset exactly if no other such packet remains, else it is the earliest send time plus the delay |
| `LossRecovery.LossTimeFirst` | 01-quic-go-instant-ack/internal/ackhandler/sent_packet_handler.go:646-653 | the loss time belongs to the waiting packet with the lowest number |
| `LossRecovery.LoseAllFacts` | 01-quic-go-instant-ack/internal/ackhandler/sent_packet_history.go:161-177 | declaring packets lost takes out exactly them and their share of every sum |
| `LossRecovery.RemoveAllFacts` | 01-quic-go-instant-ack/internal/ackhandler/sent_packet_history.go:92-121 | removing packets takes out them and otherwise only skipped numbers, and their share of every sum |
| `LossRecovery.LoseOneTracks` | 01-quic-go-instant-ack/internal/ackhandler/sent_packet_history.go:161-177 | declaring a packet lost takes out exactly this packet |
| `LossRecovery.RemoveOneTracks` | 01-quic-go-instant-ack/internal/ackhandler/sent_packet_history.go:92-121 | removing a packet takes out this packet and otherwise only skipped numbers before it |
| `PacketSpaces.PopSpaceOk` | 01-quic-go-instant-ack/internal/ackhandler/sent_packet_handler.go:762-773 | popping a number, with the skipped number before it, never meets the panic for a number out of order |
| `PacketSpaces.SentSpaceOk` | 01-quic-go-instant-ack/internal/ackhandler/sent_packet_handler.go:253-288 | sending with this number keeps the space in order |
| `PacketSpaces.SkipSpaceOk` | 01-quic-go-instant-ack/internal/ackhandler/sent_packet_handler.go:730-734 | so does the number that a probe timeout skips |
| `PacketSpaces.AckedSpaceOk` | 01-quic-go-instant-ack/internal/ackhandler/sent_packet_handler.go:447-468 | acknowledging keeps the space in order |
| `PacketSpaces.LossSpaceOk` | 01-quic-go-instant-ack/internal/ackhandler/sent_packet_handler.go:606-670 | so does loss detection |
| `PacketSpaces.ProbedSpaceOk` | 01-quic-go-instant-ack/internal/ackhandler/sent_packet_handler.go:835-847 | so does taking a packet for a probe |
| `SentPacketHandler.EarliestLossTime` | 01-quic-go-instant-ack/internal/ackhandler/sent_packet_handler.go:473-490 | the earliest loss time that is set in any space, and the space it belongs to |
| `SentPacketHandler.ScaledPTO` | 01-quic-go-instant-ack/internal/ackhandler/sent_packet_handler.go:492-498 | the duration itself if it is positive and at most 60 seconds, and otherwise, as when the shift overflows, 60 seconds |
| `SentPacketHandler.OutstandingHasTime` | 01-quic-go-instant-ack/internal/ackhandler/sent_packet_handler.go:256-258 | a space with outstanding packets has a time of the last packet that elicits an ACK |
| `SentPacketHandler.TimerOk` | 01-quic-go-instant-ack/internal/ackhandler/sent_packet_handler.go:500-604 | setting the timer leaves a client that waits for address validation with a timer, and a confirmed connection without one if there is nothing to wait for |
| `SentPacketHandler.SendKeeps` | 01-quic-go-instant-ack/internal/ackhandler/sent_packet_handler.go:234-293 | sending a packet keeps the invariant |
| `SentPacketHandler.SendBalance` | 01-quic-go-instant-ack/internal/ackhandler/sent_packet_handler.go:234-293 | what is tracked grows by exactly the packet |
| `SentPacketHandler.DetectKeeps` | 01-quic-go-instant-ack/internal/ackhandler/sent_packet_handler.go:606-670 | loss detection keeps the invariant, also with bytes that are no longer tracked but still counted |
| `SentPacketHandler.DetectBalance` | 01-quic-go-instant-ack/internal/ackhandler/sent_packet_handler.go:606-670 | each packet moves from tracked to lost |
| `SentPacketHandler.LowestNotConfirmedFacts` | 01-quic-go-instant-ack/internal/ackhandler/sent_packet_handler.go:447-450 | beyond every number that an acknowledged packet has acknowledged, and no further |
| `SentPacketHandler.ValidatingKeeps` | 01-quic-go-instant-ack/internal/ackhandler/sent_packet_handler.go:319-326 | learning that the server has validated the address keeps the invariant |
| `SentPacketHandler.RemovedKeeps` | 01-quic-go-instant-ack/internal/ackhandler/sent_packet_handler.go:447-468 | between removing acknowledged packets and subtracting their bytes, the bytes in flight are those of tracked and acknowledged packets |
| `SentPacketHandler.AckKeeps` | 01-quic-go-instant-ack/internal/ackhandler/sent_packet_handler.go:308-392 | an ACK without error keeps the invariant |
| `SentPacketHandler.AckBalance` | 01-quic-go-instant-ack/internal/ackhandler/sent_packet_handler.go:308-392 | each packet moves from tracked to acknowledged or lost |
| `SentPacketHandler.FirstOutstandingTracked` | 01-quic-go-instant-ack/internal/ackhandler/sent_packet_handler.go:835-840 | the packet taken for a probe is tracked and outstanding; nil exactly if none is |
| `SentPacketHandler.ProbeKeeps` | 01-quic-go-instant-ack/internal/ackhandler/sent_packet_handler.go:835-847 | queueing a probe packet keeps the invariant |
| `SentPacketHandler.ProbeBalance` | 01-quic-go-instant-ack/internal/ackhandler/sent_packet_handler.go:835-847 | the packet moves from tracked to lost |
| `SentPacketHandler.TimeoutIsSafe` | 01-quic-go-instant-ack/internal/ackhandler/sent_packet_handler.go:672-739 | with the timer set, a timeout meets neither of the two internal errors and no space that is gone |
| `SentPacketHandler.TimeoutKeeps` | 01-quic-go-instant-ack/internal/ackhandler/sent_packet_handler.go:672-739 | a timeout keeps the invariant and the balance |
| `SentPacketHandler.Leading` | 01-quic-go-instant-ack/internal/ackhandler/sent_packet_handler.go:188-195 | the slots before the first packet that is neither a 0-RTT packet nor skipped |
| `SentPacketHandler.DropKeeps` | 01-quic-go-instant-ack/internal/ackhandler/sent_packet_handler.go:158-206 | dropping keys keeps the invariant, and each packet moves from tracked to dropped |
| `SentPacketHandler.RetryExact` | 01-quic-go-instant-ack/internal/ackhandler/sent_packet_handler.go:867-915 | after a Retry the invariant holds exactly if no bytes of Handshake packets are in flight |
| `SentPacketHandler.RetryBalance` | 01-quic-go-instant-ack/internal/ackhandler/sent_packet_handler.go:867-902 | each packet moves from tracked to lost |
| `SentPacketHandler.OthersKeep` | 01-quic-go-instant-ack/internal/ackhandler/sent_packet_handler.go:208-221 | received bytes, a validated address and a confirmed handshake keep the invariant |
| `AckHandler.Handler.constructor` | 01-quic-go-instant-ack/internal/ackhandler/sent_packet_handler.go:111-146 | the initial state for either perspective |
| `AckHandler.Handler.SetLossDetectionTimer` | 01-quic-go-instant-ack/internal/ackhandler/sent_packet_handler.go:552-604 | sets the alarm to the value that HandlerHistory.TimerExactly is about |
| `AckHandler.Handler.RemoveFromBytesInFlight` | 01-quic-go-instant-ack/internal/ackhandler/sent_packet_handler.go:148-156 | subtracts the length, or panics exactly if it is larger than the bytes in flight |
| `AckHandler.Handler.PopPacketNumber` | 01-quic-go-instant-ack/internal/ackhandler/sent_packet_handler.go:762-773 | the number that was peeked; the history does not panic |
| `AckHandler.Handler.SentPacket` | 01-quic-go-instant-ack/internal/ackhandler/sent_packet_handler.go:234-293 | the whole new state, about which HandlerHistory.RestStep, SpaceStep and SendOutcome are; a panic exactly if the number is not the next one |
| `AckHandler.Handler.RegisterPacket` | 01-quic-go-instant-ack/internal/ackhandler/sent_packet_handler.go:253-288 | the packet, or an empty slot for one without frames, is in the history |
| `AckHandler.Handler.ReceivedAck` | 01-quic-go-instant-ack/internal/ackhandler/sent_packet_handler.go:308-392 | an error exactly if the ACK is for a number not sent or skipped; otherwise the whole new state, about which HandlerHistory.AckOutcome is, with the invariant, and whether a 1-RTT packet was acknowledged |
| `AckHandler.Handler.RemoveAckedPackets` | 01-quic-go-instant-ack/internal/ackhandler/sent_packet_handler.go:447-468 | reports and removes the packets; none is missing from the history |
| `AckHandler.Handler.SubtractAckedBytes` | 01-quic-go-instant-ack/internal/ackhandler/sent_packet_handler.go:362-372 | subtracts the bytes of all acknowledged packets without a panic |
| `AckHandler.Handler.ProcessAcked` | 01-quic-go-instant-ack/internal/ackhandler/sent_packet_handler.go:328-391 | what an ACK does that acknowledges packets, in the order of the code |
| `AckHandler.Handler.Validate` | 01-quic-go-instant-ack/internal/ackhandler/sent_packet_handler.go:319-326 | a client learns that its address is validated |
| `AckHandler.Handler.DetectLostPackets` | 01-quic-go-instant-ack/internal/ackhandler/sent_packet_handler.go:606-670 | the state after loss detection; no panic |
| `AckHandler.Handler.QueueProbePacket` | 01-quic-go-instant-ack/internal/ackhandler/sent_packet_handler.go:835-865 | queues the first outstanding packet, if there is one; neither panic can occur |
| `AckHandler.Handler.OnLossDetectionTimeout` | 01-quic-go-instant-ack/internal/ackhandler/sent_packet_handler.go:672-739 | with the alarm set: the whole new state, about which HandlerHistory.TimeoutOutcome is, no error and no panic |
| `AckHandler.Handler.FireTimer` | 01-quic-go-instant-ack/internal/ackhandler/sent_packet_handler.go:674-738 | what happens before the timer is set again |
| `AckHandler.Handler.SendProbes` | 01-quic-go-instant-ack/internal/ackhandler/sent_packet_handler.go:711-738 | the probes of HandlerHistory.ProbingCounts; for application data a number is skipped |
| `AckHandler.Handler.SkipPacketNumber` | 01-quic-go-instant-ack/internal/ackhandler/sent_packet_handler.go:730-734 | a number is popped and recorded as skipped; the history does not panic |
| `AckHandler.Handler.DropPackets` | 01-quic-go-instant-ack/internal/ackhandler/sent_packet_handler.go:158-206 | the whole new state, with the invariant; no panic |
| `AckHandler.Handler.ForgetLevel` | 01-quic-go-instant-ack/internal/ackhandler/sent_packet_handler.go:164-198 | the packets of the level are gone, and their bytes |
| `AckHandler.Handler.ForgetPackets` | 01-quic-go-instant-ack/internal/ackhandler/sent_packet_handler.go:171-174 | takes the bytes of all packets out of the bytes in flight without a panic |
| `AckHandler.Handler.RejectZeroRTT` | 01-quic-go-instant-ack/internal/ackhandler/sent_packet_handler.go:183-195 | removes the leading 0-RTT packets and skipped numbers, and no others |
| `AckHandler.Handler.ResetForRetry` | 01-quic-go-instant-ack/internal/ackhandler/sent_packet_handler.go:867-915 | the whole new state; "no frames" cannot occur |
| `AckHandler.Handler.QueueAll` | 01-quic-go-instant-ack/internal/ackhandler/sent_packet_handler.go:870-887 | queues the frames of all packets that were not skipped |
| `AckHandler.Handler.ReceivedBytes` | 01-quic-go-instant-ack/internal/ackhandler/sent_packet_handler.go:208-214 | counts the bytes, and sets the timer if they end the amplification limit |
| `AckHandler.Handler.ReceivedPacket` | 01-quic-go-instant-ack/internal/ackhandler/sent_packet_handler.go:216-221 | a Handshake packet validates the address of a client |
| `AckHandler.Handler.SetHandshakeConfirmed` | 01-quic-go-instant-ack/internal/ackhandler/sent_packet_handler.go:917-928 | panics exactly if Initial or Handshake keys are left |
| `AckHandler.Handler.ChooseSendMode` | 01-quic-go-instant-ack/internal/ackhandler/sent_packet_handler.go:775-818 | nothing may be sent at the amplification limit or with 25000 tracked packets; new data only below 20000 with window and pacing budget |
| `SentPacketRuns.RunKeeps` | 01-quic-go-instant-ack/internal/ackhandler/sent_packet_handler.go:148-928 | in every state that calls without errors can reach, the invariant holds, and every measure of the packets sent is tracked, acknowledged, lost or dropped |
| `SentPacketRuns.StepKeeps` | 01-quic-go-instant-ack/internal/ackhandler/sent_packet_handler.go:148-928 | each call keeps both |
| `SentPacketRuns.BytesInFlight` | 01-quic-go-instant-ack/internal/ackhandler/sent_packet_handler.go:148-156 | in every reachable state the bytes in flight are those of the tracked packets |
| `SentPacketRuns.NumbersInOrder` | 01-quic-go-instant-ack/internal/ackhandler/sent_packet_history.go:24-30 | in every run, each number that is sent or skipped, by the generator or for a probe, is the next one, so that the history never panics |
| `SentPacketRuns.NoDeadlock` | 01-quic-go-instant-ack/internal/ackhandler/sent_packet_handler.go:500-604 | in every reachable state, a client that has sent a packet since the start or a Retry has a timer until it knows that its address is validated |
| `SentPacketRuns.ActiveMeans` | 01-quic-go-instant-ack/internal/ackhandler/sent_packet_handler.go:234-244 | "since the start or a Retry" is what the run says |
| `SentPacketRuns.RunUsesOnce` | 01-quic-go-instant-ack/internal/ackhandler/sent_packet_handler.go:762-773 | no packet number is used twice in a space, a Retry included |
| `SentPacketRuns.ReportedOnce` | 01-quic-go-instant-ack/internal/ackhandler/sent_packet_handler.go:447-468 | over every run, the frames of each packet get at most one of OnAcked and OnLost, and neither while the packet is tracked |
| `SendOrder.RunOrdered` | 01-quic-go-instant-ack/internal/ackhandler/sent_packet_handler.go:234-288 | with a clock that does not go back, send times do not decrease with packet numbers in any reachable state |
| `SendOrder.LossesInRuns` | 01-quic-go-instant-ack/internal/ackhandler/sent_packet_handler.go:606-670 | so in every reachable state loss detection is exact, and the loss time is that of the remaining packet that was sent first |
| `HandlerHistory.AckOutcome` | 01-quic-go-instant-ack/internal/ackhandler/sent_packet_handler.go:308-392 | an ACK that acknowledges something: tracked afterwards are exactly the packets that are neither acknowledged nor overdue by time or by three numbers behind the largest acknowledged one; exactly the others are reported, as acknowledged or lost; the loss time is that of the lowest packet that remains below; the lowest number not confirmed is beyond all that the packets acknowledged and no further |
| `HandlerHistory.TimeoutOutcome` | 01-quic-go-instant-ack/internal/ackhandler/sent_packet_handler.go:672-739 | a timeout with a loss time loses exactly the overdue packets of the space with the earliest one; without, it counts one PTO more and two probes for the space whose probe time is earliest (one for the first space present if nothing is in flight), in the mode of that space, or changes nothing if there is nothing to probe for |
| `HandlerHistory.TimerExactly` | 01-quic-go-instant-ack/internal/ackhandler/sent_packet_handler.go:500-604 | the timer is the earliest loss time; without one it is off exactly at the amplification limit or with nothing to probe for and no address to validate; else it is the earliest of the last send times plus PTO over the spaces that can be probed, or one PTO from now |
| `HandlerHistory.PTOExactly` | 01-quic-go-instant-ack/internal/ackhandler/sent_packet_handler.go:500-538 | the PTO and its space: at most that of every space that can be probed, and that of the space it names, the first of several |
| `HandlerHistory.AlarmStep` | 01-quic-go-instant-ack/internal/ackhandler/sent_packet_handler.go:148-928 | which calls set the timer anew, and which leave it alone |
| `HandlerHistory.ProbesStep` | 01-quic-go-instant-ack/internal/ackhandler/sent_packet_handler.go:148-928 | what every call does to the PTO count, the probes to send and their space |
| `HandlerHistory.RunProbes` | 01-quic-go-instant-ack/internal/ackhandler/sent_packet_handler.go:672-739 | in every run, the space of the probes that are to be sent has not been dropped |
| `HandlerHistory.SpaceStep` | 01-quic-go-instant-ack/internal/ackhandler/sent_packet_handler.go:234-392 | how every call changes the largest number sent, the largest acknowledged and the time of the last packet that elicits an ACK |
| `HandlerHistory.RunSpaces` | 01-quic-go-instant-ack/internal/ackhandler/sent_packet_handler.go:234-392 | over every run, these are the number and the time of the last packet sent in the space, and the largest number in an ACK that acknowledged something, since the last Retry |
| `HandlerHistory.RestStep` | 01-quic-go-instant-ack/internal/ackhandler/sent_packet_handler.go:148-928 | what every call does to the bytes sent and received and to the three flags of the handshake |
| `HandlerHistory.RunTold` | 01-quic-go-instant-ack/internal/ackhandler/sent_packet_handler.go:208-221 | over every run, the bytes sent and received are those of the calls; the address is validated, known to be validated, and the handshake confirmed exactly if the calls say so |
| `HandlerHistory.SendOutcome` | 01-quic-go-instant-ack/internal/ackhandler/sent_packet_handler.go:234-293 | a packet with frames is tracked as it was sent, and nothing else changes |
| `HandlerHistory.ProbeOutcome` | 01-quic-go-instant-ack/internal/ackhandler/sent_packet_handler.go:835-865 | a probe takes exactly the outstanding packet with the lowest number |
| `HandlerHistory.DropOutcome` | 01-quic-go-instant-ack/internal/ackhandler/sent_packet_handler.go:158-206 | dropped keys take their space; rejected 0-RTT keys exactly the packets with only 0-RTT packets and skipped numbers up to them |
| `HandlerHistory.RetryOutcome` | 01-quic-go-instant-ack/internal/ackhandler/sent_packet_handler.go:867-902 | a Retry reports all Initial and 0-RTT packets as lost, and the numbers go on |
| `HandlerHistory.DetectLeaves` | 01-quic-go-instant-ack/internal/ackhandler/sent_packet_handler.go:606-670 | loss detection takes out and reports exactly the overdue packets |
| `HandlerHistory.ProbingCounts` | 01-quic-go-instant-ack/internal/ackhandler/sent_packet_handler.go:711-738 | one PTO more, so many probes more, for this space |
| `SendGate.AmplificationBound` | 01-quic-go-instant-ack/internal/ackhandler/sent_packet_handler.go:828-833 | in every chain of calls and gated datagrams, as long as the address is not validated, the bytes of the datagrams are less than three times those of the received ones plus one datagram |
| `SendGate.StepBound` | 01-quic-go-instant-ack/internal/ackhandler/sent_packet_handler.go:775-787 | each call and each gated datagram keeps this |
| `SendGate.ChainCounts` | 01-quic-go-instant-ack/internal/ackhandler/sent_packet_handler.go:208-244 | in every chain, the counters are the sums over its datagrams and received bytes, and the address is validated exactly from the start or by a Handshake packet |
| `SendGate.StepCounts` | 01-quic-go-instant-ack/internal/ackhandler/sent_packet_handler.go:208-244 | each step counts what it sends and receives |
| `SendGate.OutAtMost` | 01-quic-go-instant-ack/internal/ackhandler/sent_packet_handler.go:234-244 | what a datagram counts is the size of its packets, if their spaces are present |
| `SendGate.ModeExactly` | 01-quic-go-instant-ack/internal/ackhandler/sent_packet_handler.go:775-833 | nothing may be sent exactly at the limit, in terms of the chain, or with 25000 tracked packets; then probes come first, in the mode of their space; then congestion, 20000 tracked packets and the pacer decide |
| `SendGate.Connection.TriggerSending` | 01-quic-go-instant-ack/connection.go:1802-1858 | the exact state afterwards in every mode: nothing in SendNone, one datagram for ACKs and before the handshake is confirmed, the loop of datagrams; in a probe mode the packets taken for the probe are those of its space, the first thing that is done, and sending goes on after the datagram |
| `SendGate.Connection.SendPackets` | 01-quic-go-instant-ack/connection.go:1860-1910 | a path MTU probe and what is sent before the handshake is confirmed are one datagram; otherwise datagrams up to exactly the first that stops sending or cannot be packed |
| `SendGate.LoopExactly` | 01-quic-go-instant-ack/connection.go:1912-2003 | after each datagram the next follows exactly if the mode is SendAny and, except in the middle of a batch, the queue is not full and no packets were received |
| `SendGate.Connection.SendPacketsWithoutGSO` | 01-quic-go-instant-ack/connection.go:1912-1943 | after each datagram the send queue, the mode and received packets decide |
| `SendGate.Connection.SendPacketsWithGSO` | 01-quic-go-instant-ack/connection.go:1945-2003 | within a batch only the mode is asked, after each packet; behind a batch also the queue and received packets |
| `SendGate.Connection.HandleFrames` | 01-quic-go-instant-ack/connection.go:1272-1300 | the calls that the frames make, in order |
| `SendGate.Connection.SendPacked` | 01-quic-go-instant-ack/connection.go:2098-2130 | one datagram, or nothing if nothing was packed |
| `SendGate.ProbesGoOn` | 01-quic-go-instant-ack/connection.go:1828-1852 | sending goes on after each probe that was packed while the queue is not full, so that one timeout sends all its probes |
| `SendGate.Connection.SendProbePacket` | 01-quic-go-instant-ack/connection.go:2040-2069 | takes packets of this space for the probe, one if there is one and one more for each failure to pack; then one datagram; fails exactly if nothing can be packed |
| `SendGate.Connection.HandleLongHeaderPacket` | 01-quic-go-instant-ack/connection.go:1146-1239 | what a long header packet and its frames do to the handler, in the order of the code, also if the frames are refused; the bound holds afterwards, also with the send of instant ACK in the middle |
| `SendGate.Connection.SendInstantACK` | 01-quic-go-instant-ack/connection.go:1199-1202 | the packet counts as received before anything is sent, and then exactly what the mode admits is sent |
| `SendGate.Connection.HandleHandshakeConfirmed` | 01-quic-go-instant-ack/connection.go:765-782 | Handshake keys are dropped before the handshake is confirmed |
| `SendGate.Connection.ValidBound` | 01-quic-go-instant-ack/connection.go:1802-1858 | the bound holds whenever the connection is in a valid state |
| `ReceivedPackets.History.AddToRanges` | 01-quic-go-instant-ack/internal/ackhandler/received_packet_history.go:49-86 | the list denotes one number more, sorted, disjoint and not adjacent; new exactly if it was not in the list |
| `ReceivedPackets.History.MaybeDeleteOldRanges` | 01-quic-go-instant-ack/internal/ackhandler/received_packet_history.go:90-94 | the last 32 ranges stay |
| `ReceivedPackets.History.ReceivedPacket` | 01-quic-go-instant-ack/internal/ackhandler/received_packet_history.go:39-47 | true exactly if the number was no potential duplicate; only the lowest numbers are given up, and only at 32 ranges; the list denotes exactly the received numbers from deletedBelow on without those given up |
| `ReceivedPackets.History.DeleteBelow` | 01-quic-go-instant-ack/internal/ackhandler/received_packet_history.go:97-116 | exactly the numbers below are gone |
| `ReceivedPackets.History.AppendAckRanges` | 01-quic-go-instant-ack/internal/ackhandler/received_packet_history.go:119-126 | appends the ranges from the highest to the lowest |
| `ReceivedPackets.History.GetHighestAckRange` | 01-quic-go-instant-ack/internal/ackhandler/received_packet_history.go:128-136 | the maximal run of numbers at the top, or zeros |
| `ReceivedPackets.History.IsPotentiallyDuplicate` | 01-quic-go-instant-ack/internal/ackhandler/received_packet_history.go:138-151 | exactly the numbers below deletedBelow or in the list |
| `ReceivedPackets.Canonical` | 01-quic-go-instant-ack/internal/ackhandler/received_packet_history.go:49-86 | the list is determined by the numbers it denotes |
| `ReceivedPackets.SameNumbers` | 01-quic-go-instant-ack/internal/ackhandler/received_packet_history.go:119-126 | the ranges for an ACK frame are valid and acknowledge exactly the numbers in the list |
| `ReceivedPackets.Merge` | 01-quic-go-instant-ack/internal/ackhandler/received_packet_history.go:65-73 | a number between two ranges joins them |
| `ReceivedPackets.ExtendStart` | 01-quic-go-instant-ack/internal/ackhandler/received_packet_history.go:65-73 | a number right before a range extends it |
| `ReceivedPackets.ExtendEnd` | 01-quic-go-instant-ack/internal/ackhandler/received_packet_history.go:61-64 | a number right behind a range extends it |
| `ReceivedPackets.NewInterval` | 01-quic-go-instant-ack/internal/ackhandler/received_packet_history.go:76-85 | any other number becomes a range of its own |
| `ReceivedPackets.NewAgain` | 01-quic-go-instant-ack/internal/ackhandler/received_packet_history.go:39-94 | over every run, a number counts as new a second time only if in between a call gave it up: a new number was registered, after which 32 ranges are listed and this number is not |
| `ReceivedPackets.RunKeeps` | 01-quic-go-instant-ack/internal/ackhandler/received_packet_history.go:39-116 | in every reachable state the list denotes exactly the received numbers that were not deleted or given up, and deletedBelow only grows |
| `ReceivedPackets.LostInBetween` | 01-quic-go-instant-ack/internal/ackhandler/received_packet_history.go:39-116 | what is listed in one state, and later neither listed nor deleted, was given up by a call in between |
| `PacketTracker.AckedInTime` | 01-quic-go-instant-ack/internal/ackhandler/received_packet_tracker.go:48-190 | over every run: when 25 ms have passed since a packet that asks for an ACK and the connection asks for an ACK frame, one was sent since or is sent now, and it acknowledges the packet unless that is ignored or given up |
| `PacketTracker.RunKeeps` | 01-quic-go-instant-ack/internal/ackhandler/received_packet_tracker.go:48-190 | in every reachable state, packets that wait for an ACK have one queued, or there is just one and an alarm set to 25 ms after it was received |
| `PacketTracker.SentExactly` | 01-quic-go-instant-ack/internal/ackhandler/received_packet_tracker.go:107-190 | over every run, an ACK frame is sent exactly if a packet has asked for one since the last; if only those due are wanted, exactly if one of these packets came first of all, behind another one, was reported missing or shows a gap, or has waited for 25 ms |
| `PacketTracker.FrameReports` | 01-quic-go-instant-ack/internal/ackhandler/received_packet_tracker.go:48-190 | over every run, a frame reports how many packets arrived with each ECN mark and the time since the one with the largest number was received |
| `PacketTracker.KeepsWaiting` | 01-quic-go-instant-ack/internal/ackhandler/received_packet_tracker.go:107-190 | until an ACK is sent, a packet waits with an ACK queued or with its own alarm |
| `PacketTracker.FirstPacketAckedAtOnce` | 01-quic-go-instant-ack/internal/ackhandler/received_packet_tracker.go:107-115 | the first packet that asks for an ACK has one queued at once, as the instant ACK expects |
| `PacketTracker.FrameAcks` | 01-quic-go-instant-ack/internal/ackhandler/received_packet_tracker.go:158-190 | a frame acknowledges exactly the received numbers that are not ignored or given up |
| `PacketTracker.FrameHasRanges` | 01-quic-go-instant-ack/internal/ackhandler/received_packet_tracker.go:158-190 | a frame that is sent has ranges exactly if the largest received number is not ignored, and is then valid and starts with it |
| `PacketTracker.IgnoredBeforeAcked` | 01-quic-go-instant-ack/internal/ackhandler/received_packet_tracker.go:79-190 | a concrete run in which it has none, and the next packet indexes it out of range |
| `PacketTracker.Tracker.constructor` | 01-quic-go-instant-ack/internal/ackhandler/received_packet_tracker.go:36-46 | nothing received, nothing to acknowledge |
| `PacketTracker.Tracker.ReceivedPacket` | 01-quic-go-instant-ack/internal/ackhandler/received_packet_tracker.go:48-75 | the whole new state, with the invariant; the error exactly for duplicates; an index out of range exactly for a new packet after a frame without ranges |
| `PacketTracker.Tracker.MaybeQueueACK` | 01-quic-go-instant-ack/internal/ackhandler/received_packet_tracker.go:107-156 | an ACK is queued exactly for a first packet, a packet that was missing, a second packet or a new gap; otherwise the alarm is set |
| `PacketTracker.Tracker.IsMissing` | 01-quic-go-instant-ack/internal/ackhandler/received_packet_tracker.go:91-96 | exactly the numbers below the largest in the last ACK that it does not acknowledge |
| `PacketTracker.Tracker.HasNewMissingPackets` | 01-quic-go-instant-ack/internal/ackhandler/received_packet_tracker.go:98-104 | exactly if the top range is one packet above a gap that the last ACK does not report |
| `PacketTracker.Tracker.IgnoreBelow` | 01-quic-go-instant-ack/internal/ackhandler/received_packet_tracker.go:79-88 | exactly the numbers below are ignored |
| `PacketTracker.Tracker.GetAckFrame` | 01-quic-go-instant-ack/internal/ackhandler/received_packet_tracker.go:158-190 | a frame exactly if there is something new and, if asked for, it is due; nothing waits afterwards |
| `AckFrames.ParseAckFrame` | 01-quic-go-instant-ack/internal/wire/ack_frame.go:25-110 | parses as the specification does, with the kind of each error, the delay and the ECN counts, and only frames with valid ranges |
| `AckFrames.ParseBody` | 01-quic-go-instant-ack/internal/wire/ack_frame.go:28-89 | everything before the ECN counts |
| `AckFrames.ParseRemaining` | 01-quic-go-instant-ack/internal/wire/ack_frame.go:61-85 | the loop over the further ranges |
| `AckFrames.ValidateAckRanges` | 01-quic-go-instant-ack/internal/wire/ack_frame.go:200-227 | comparing neighbours decides validity of all ranges |
| `AckFrames.ParsedValid` | 01-quic-go-instant-ack/internal/wire/ack_frame.go:25-110 | every parsed frame has ranges that are ordered, separated and not negative |
| `AckFrames.RangesValid` | 01-quic-go-instant-ack/internal/wire/ack_frame.go:45-89 | so that the final validation never fails |
| `AckFrames.DelayExactly` | 01-quic-go-instant-ack/internal/wire/ack_frame.go:38-42 | the delay is the encoded one, capped at the largest duration, exactly if the product with microseconds fits or wraps around to a negative number |
| `AckFrames.DelayWraps` | 01-quic-go-instant-ack/internal/wire/ack_frame.go:38-42 | a concrete delay that wraps around to zero |
| `AckFrames.DelayRoundTrip` | 01-quic-go-instant-ack/internal/wire/ack_frame.go:264-266 | a delay survives encoding in units of eight microseconds |
| `AckFrames.AcksPacket` | 01-quic-go-instant-ack/internal/wire/ack_frame.go:240-250 | the binary search finds exactly whether a number is in a range |
| `AckFrames.NumEncodableAckRanges` | 01-quic-go-instant-ack/internal/wire/ack_frame.go:169-185 | at least one range, and all of up to 32 |
| `AckFrames.AppendAckFrame` | 01-quic-go-instant-ack/internal/wire/ack_frame.go:113-143 | writes the type, the first ranges, as many as can be encoded, the delay, and the ECN counts exactly if there are any |
| `AckFrames.BlocksRoundTrip` | 01-quic-go-instant-ack/internal/wire/ack_frame.go:61-85 | parsing the written ranges gives them back |
| `AckFrames.RoundTrip` | 01-quic-go-instant-ack/internal/wire/ack_frame.go:25-143 | parsing a written frame as its type says gives back its ranges, its ECN counts and its delay in units of eight microseconds, and consumes nothing else |
| `AckFrames.AcksWhatWasReceived` | 01-quic-go-instant-ack/internal/wire/ack_frame.go:25-143 | from the receiver to the peer: the parsed frame acknowledges exactly the received numbers from deletedBelow on that were not given up |
| `ConnIDManager.Manager.constructor` | 01-quic-go-instant-ack/conn_id_manager.go:40-52 | the initial connection ID is active |
| `ConnIDManager.Manager.AddConnectionID` | 01-quic-go-instant-ack/conn_id_manager.go:111-142 | inserted in order of sequence number; conflicting ID or token exactly for a queued entry that differs |
| `ConnIDManager.Manager.AddFrame` | 01-quic-go-instant-ack/conn_id_manager.go:68-109 | retires exactly what the frame asks for or brings too late, each with one frame, ignores or queues the ID; an error exactly on a conflict |
| `ConnIDManager.Manager.Add` | 01-quic-go-instant-ack/conn_id_manager.go:58-66 | the connection ID limit error exactly at four queued IDs |
| `ConnIDManager.Manager.ClearQueue` | 01-quic-go-instant-ack/conn_id_manager.go:78-93 | retires exactly the queued IDs below, each with one frame |
| `ConnIDManager.Manager.UpdateConnectionID` | 01-quic-go-instant-ack/conn_id_manager.go:144-160 | the first queued ID becomes active, the old one is retired with one frame, exactly one reset token is registered, and the packets are counted anew |
| `ConnIDManager.Manager.Get` | 01-quic-go-instant-ack/conn_id_manager.go:205-210 | the active ID, after a switch if one is due |
| `ConnIDManager.ChangesExactly` | 01-quic-go-instant-ack/conn_id_manager.go:190-210 | the ID is changed exactly if the handshake is complete and it is the first and another is queued, or it was used up and two others are queued; to the lowest queued number |
| `ConnIDManager.Manager.SetStatelessResetToken` | 01-quic-go-instant-ack/conn_id_manager.go:178-184 | registers the token of the initial connection ID, or panics exactly if the active number is not 0; exactly one token stays registered if and only if there was none before |
| `ConnIDManager.TwoTokens` | 01-quic-go-instant-ack/conn_id_manager.go:178-184 | two calls leave two tokens registered |
| `ConnIDManager.RunKeeps` | 01-quic-go-instant-ack/conn_id_manager.go:58-210 | for any peer: no sequence number is both in use and retired, and none that is known gets lost |
| `ConnIDManager.NeverReused` | 01-quic-go-instant-ack/conn_id_manager.go:58-160 | a sequence number that was retired is never used again, whatever the peer sends |
| `ConnIDManager.AllAccountedFor` | 01-quic-go-instant-ack/conn_id_manager.go:68-109 | each sequence number that was received is known or retired, and not both |
| `ConnIDManager.RetiredIDExactly` | 01-quic-go-instant-ack/conn_id_manager.go:58-160 | for any peer and every run: a connection ID that was retired is in use exactly if the peer has given it a lower number as well |
| `ConnIDManager.RetiredIDNotUsed` | 01-quic-go-instant-ack/conn_id_manager.go:58-160 | so never with a peer that gives each ID one number |
| `ConnIDManager.RetiredIDUsed` | 01-quic-go-instant-ack/conn_id_manager.go:111-142 | a concrete run in which a retired ID is in use again |
| `ConnIDManager.UsedIsAnnounced` | 01-quic-go-instant-ack/conn_id_manager.go:58-160 | the ID in use was announced with its number |
| `ConnIDGenerator.Generator.constructor` | 01-quic-go-instant-ack/conn_id_generator.go:27-51 | the initial ID is active |
| `ConnIDGenerator.Generator.IssueNewConnID` | 01-quic-go-instant-ack/conn_id_generator.go:98-112 | the next sequence number gets the new ID and is announced |
| `ConnIDGenerator.Generator.SetMaxActiveConnIDs` | 01-quic-go-instant-ack/conn_id_generator.go:53-69 | exactly as many IDs as are missing are issued |
| `ConnIDGenerator.Generator.Retire` | 01-quic-go-instant-ack/conn_id_generator.go:71-96 | both errors exactly when they are due; otherwise the ID is gone, once, and replaced |
| `ConnIDGenerator.SupplyKept` | 01-quic-go-instant-ack/conn_id_generator.go:53-112 | over every run, the peer has as many IDs as were issued for its limit besides the first one: each that it retires is replaced, except the first; all others were announced in order, with ID and token |
| `ConnIDProtocol.RunKeepsInv` | 01-quic-go-instant-ack/conn_id_generator.go:53-112 | for every order and duplication of frames between two endpoints: all that is in flight agrees with what was issued |
| `ConnIDProtocol.UsedIsActive` | 01-quic-go-instant-ack/conn_id_manager.go:58-210 | every ID that one side uses or has queued is active at the other, with the same token |
| `ConnIDProtocol.QueueFits` | 01-quic-go-instant-ack/conn_id_manager.go:58-66 | never four queued IDs |
| `ConnIDProtocol.NoErrors` | 01-quic-go-instant-ack/conn_id_manager.go:58-66 | in every reachable state: no connection ID limit error, no conflict, and neither retire error |
| `ConnIDProtocol.NoConflict` | 01-quic-go-instant-ack/conn_id_manager.go:111-142 | no frame that is in flight conflicts |
| `ConnIDProtocol.NoRetireError` | 01-quic-go-instant-ack/conn_id_generator.go:71-83 | no RETIRE_CONNECTION_ID in flight is an error |
| `ConnIDProtocol.DeliverNewKeepsInv` | 01-quic-go-instant-ack/conn_id_manager.go:68-109 | delivering NEW_CONNECTION_ID keeps the invariant |
| `ConnIDProtocol.DeliverRetireKeepsInv` | 01-quic-go-instant-ack/conn_id_generator.go:71-96 | delivering RETIRE_CONNECTION_ID keeps it |
| `ConnIDProtocol.GetKeepsInv` | 01-quic-go-instant-ack/conn_id_manager.go:205-210 | switching keeps it |
| `IncomingStreams.Map.constructor` | 01-quic-go-instant-ack/streams_map_incoming.go:40-57 | no streams, full credit |
| `IncomingStreams.Map.AcceptStream` | 01-quic-go-instant-ack/streams_map_incoming.go:59-99 | the next stream, blocked exactly if it is not open, deleted at once if it was completed; deletion does not fail |
| `IncomingStreams.Map.GetOrOpenStream` | 01-quic-go-instant-ack/streams_map_incoming.go:101-139 | opens exactly the streams up to the number; an error exactly beyond the limit; nil for a stream that is gone |
| `IncomingStreams.Map.DeleteStream` | 01-quic-go-instant-ack/streams_map_incoming.go:141-185 | fails exactly for unknown streams and those already to be deleted; put off until the stream is accepted |
| `IncomingStreams.Map.DeleteAccepted` | 01-quic-go-instant-ack/streams_map_incoming.go:171-184 | the limit becomes what the number of streams admits |
| `IncomingStreams.CreditBound` | 01-quic-go-instant-ack/streams_map_incoming.go:171-184 | open streams and unused credit never exceed the maximum, and equal it unless the limit would exceed 2^60 |
| `IncomingStreams.DeletedKeeps` | 01-quic-go-instant-ack/streams_map_incoming.go:171-184 | deleting a stream raises the limit |
| `IncomingStreams.RunKeeps` | 01-quic-go-instant-ack/streams_map_incoming.go:59-185 | over every run: credit is kept, the limit never decreases, and streams are accepted as 1, 2, 3, … |
| `IncomingStreams.AcceptedOnce` | 01-quic-go-instant-ack/streams_map_incoming.go:59-99 | over every run, no two calls of AcceptStream return the same stream, and they return them in order |
| `AcceptQueue.ProgressExact` | 01-quic-go-instant-ack/streams_map_incoming.go:59-139 | every step keeps that there are wake-ups for as many callers as there are streams for them, except exactly a stream opened while the channel is full and two callers are on their way to it, and a caller that drains the channel before another one reaches it, with more streams than callers that look |
| `AcceptQueue.ProgressMeansServed` | 01-quic-go-instant-ack/streams_map_incoming.go:59-99 | with that, however the callers come to rest, none of them waits while a stream is there |
| `AcceptQueue.EndsStuck` | 01-quic-go-instant-ack/streams_map_incoming.go:59-99 | without it, they come to rest with one of them waiting while a stream is there |
| `AcceptQueue.RunProgress` | 01-quic-go-instant-ack/streams_map_incoming.go:59-139 | over every run without such a step, the wake-ups suffice |
| `AcceptQueue.OneCallerIsServed` | 01-quic-go-instant-ack/streams_map_incoming.go:59-139 | over every run with at most one caller at a time, nobody waits while a stream is there |
| `AcceptQueue.CallerLeftWaiting` | 01-quic-go-instant-ack/streams_map_incoming.go:59-139 | a concrete run with two callers and two streams in which one is left waiting |
| `OutgoingStreams.Map.constructor` | 01-quic-go-instant-ack/streams_map_outgoing.go:36-50 | nothing may be opened |
| `OutgoingStreams.Map.OpenStream` | 01-quic-go-instant-ack/streams_map_outgoing.go:52-66 | opens the next number exactly if nobody waits and the limit admits it; otherwise a STREAMS_BLOCKED frame for this limit is queued unless there was one |
| `OutgoingStreams.Map.OpenStreamSync` | 01-quic-go-instant-ack/streams_map_outgoing.go:68-91 | opens, or queues the caller at the end, with a STREAMS_BLOCKED frame for this limit unless there was one; nothing changes for a context that is done and after CloseWithError |
| `OutgoingStreams.Map.ReceiveWakeUp` | 01-quic-go-instant-ack/streams_map_outgoing.go:93-101 | a wake-up is taken without the mutex |
| `OutgoingStreams.Map.ResumeOpenStreamSync` | 01-quic-go-instant-ack/streams_map_outgoing.go:102-116 | only the first waiter is served; the next one is woken |
| `OutgoingStreams.Map.CancelOpenStreamSync` | 01-quic-go-instant-ack/streams_map_outgoing.go:96-99 | the waiter leaves the queue |
| `OutgoingStreams.Map.SetMaxStream` | 01-quic-go-instant-ack/streams_map_outgoing.go:172-185 | raises the limit and wakes the first waiter, with a STREAMS_BLOCKED frame exactly if not everybody can be served; panics exactly after CloseWithError, if the limit grows and somebody waits |
| `OutgoingStreams.LimitAfterClose` | 01-quic-go-instant-ack/streams_map_outgoing.go:172-216 | a concrete run into the panic |
| `OutgoingStreams.Map.MaybeSendBlockedFrame` | 01-quic-go-instant-ack/streams_map_outgoing.go:126-142 | a frame with the present limit exactly if there was none for it |
| `OutgoingStreams.Map.Serve` | 01-quic-go-instant-ack/streams_map_outgoing.go:109-114 | the first waiter leaves with the next stream, and the next waiter is woken |
| `OutgoingStreams.RunBlocked` | 01-quic-go-instant-ack/streams_map_outgoing.go:52-185 | over every run, the limits at which STREAMS_BLOCKED frames are queued increase strictly, and the present one is among them if somebody waits for a stream beyond it |
| `OutgoingStreams.PeerKnowsLimit` | 01-quic-go-instant-ack/streams_map_outgoing.go:52-185 | so the last frame is for the present limit whenever somebody waits beyond it |
| `OutgoingStreams.RefusalIsTold` | 01-quic-go-instant-ack/streams_map_outgoing.go:52-91 | and after every call that cannot open a stream at once |
| `OutgoingStreams.ToldTwice` | 01-quic-go-instant-ack/streams_map_outgoing.go:126-142 | two frames carry the same limit exactly if the first was queued before any limit was set and the second at the limit 0 |
| `OutgoingStreams.ZeroToldTwice` | 01-quic-go-instant-ack/streams_map_outgoing.go:126-185 | a concrete run in which this happens |
| `OutgoingStreams.Map.UnblockOpenSync` | 01-quic-go-instant-ack/streams_map_outgoing.go:198-216 | wakes exactly the first waiter |
| `OutgoingStreams.RunKeeps` | 01-quic-go-instant-ack/streams_map_outgoing.go:52-216 | in every reachable state only the first waiter has a wake-up, and every waiter is queued, served or cancelled |
| `OutgoingStreams.ServedInOrder` | 01-quic-go-instant-ack/streams_map_outgoing.go:93-116 | over every run, a waiter is served after all that came before it, except those that were cancelled |
| `OutgoingStreams.NoOvertaking` | 01-quic-go-instant-ack/streams_map_outgoing.go:52-66 | a caller that does not wait opens a stream only after all waiters were served or cancelled |
| `OutgoingStreams.RunLimit` | 01-quic-go-instant-ack/streams_map_outgoing.go:119-124 | streams are numbered consecutively and never beyond the largest limit |
| `OutgoingStreams.OpensExactly` | 01-quic-go-instant-ack/streams_map_outgoing.go:52-91 | over every run, a caller that need not wait opens a stream exactly if the map is not closed, nobody waits and the largest limit admits one |
| `OutgoingStreams.ServesExactly` | 01-quic-go-instant-ack/streams_map_outgoing.go:93-116 | over every run, a woken waiter is served exactly if the map is not closed and the largest limit admits a stream |
| `OutgoingStreams.ProgressExact` | 01-quic-go-instant-ack/streams_map_outgoing.go:93-116 | the first waiter is woken while a stream can be opened, and this is lost exactly if a first waiter is cancelled while others wait |
| `OutgoingStreams.WakeUpLost` | 01-quic-go-instant-ack/streams_map_outgoing.go:96-99 | a run in which it is lost |
| `Varint.AppendEncode` | 01-quic-go-instant-ack/quicvarint/varint.go:74-92 | appends exactly Len bytes |
| `Varint.Read` | 01-quic-go-instant-ack/quicvarint/varint.go:25-72 | fails exactly if fewer bytes are there than announced, and consumes exactly those |
| `Varint.RoundTrip` | 01-quic-go-instant-ack/quicvarint/varint.go:25-92 | reading what was appended gives the number and the rest |
| `Varint.SelfDelimiting` | 01-quic-go-instant-ack/quicvarint/varint.go:25-92 | two encodings followed by anything agree only if the numbers do |
| `Varint.Shortest` | 01-quic-go-instant-ack/quicvarint/varint.go:122-141 | no encoding of the number is shorter than Len |
| `Varint.AppendWithLen` | 01-quic-go-instant-ack/quicvarint/varint.go:94-119 | exactly the requested bytes, which decode to the same number |
| `Settings.ParseSettings` | 01-quic-go-instant-ack/http3/frames.go:98-143 | parses as the specification does, with all errors |
| `Settings.ParseNextFrame` | 01-quic-go-instant-ack/http3/frames.go:22-71 | skips unknown frames, or gives them to the handler, which may take the stream over or fail, and parses the first known one, with all errors |
| `Settings.ParseHeader` | 01-quic-go-instant-ack/http3/frames.go:22-71 | the type of a frame decides what it is; any other is skipped by its length, unless it is beyond 0xd and the handler takes over |
| `Settings.AppendHeader` | 01-quic-go-instant-ack/http3/frames.go:73-89 | a written DATA or HEADERS frame is recognized as such, with its length and what follows |
| `Settings.ParsesExactly` | 01-quic-go-instant-ack/http3/frames.go:98-143 | a body of any settings is accepted exactly if none comes twice and the datagram setting is 0 or 1, and the frame has exactly these settings |
| `Settings.Append` | 01-quic-go-instant-ack/http3/frames.go:145-164 | writes the settings in some order of the map |
| `Settings.SettingsLength` | 01-quic-go-instant-ack/http3/frames.go:147-153 | the exact length of the body, in any order |
| `Settings.AppendPairs` | 01-quic-go-instant-ack/http3/frames.go:159-162 | writes each setting once |
| `Settings.ParseWrittenBody` | 01-quic-go-instant-ack/http3/frames.go:98-164 | parsing a written body gives the frame back |
| `Settings.ParseNextWritten` | 01-quic-go-instant-ack/http3/frames.go:22-164 | a written frame is recognized and parsed with its declared length, whatever the handler of unknown frames does |
| `Settings.RoundTrip` | 01-quic-go-instant-ack/http3/frames.go:22-164 | parsing a written frame gives it back and consumes exactly its length, if and only if the other settings omit 0x33 and the body has at most 8 KiB |
| `Settings.NotReadBack` | 01-quic-go-instant-ack/http3/frames.go:98-164 | a concrete frame that is not read back: the datagram setting is written twice |

## Left out

- Sockets, TLS, header protection, packet packing and unpacking, logging and tracing: input and output, or resting on cryptography.
- `framer.go`, `token_store.go`, `mtu_discoverer.go` and `internal/congestion`: would mainly add easier members.
- `internal/ackhandler/received_packet_handler.go`: passes packets on to one tracker for each packet number space, and takes the earliest of their alarms.
- Flow controllers: what they decide is a parameter, apart from the final size rules of `internal/flowcontrol`.
- ECN validation (`internal/ackhandler/ecn.go`), RTT estimation and congestion control: do not influence what is modelled; RTT values are parameters.
- Wake-ups of blocked readers and writers: a call that would block says so, and is continued by a further call.
- Which of its callers AcceptStream serves: those that wait are counted.
- Liveness of OpenStreamSync beyond the wake-up of the first waiter.
- States after an error that closes the connection (too many gaps, an ACK that is an error, a conflict of connection IDs).
- Buffer pools and the reuse of memory: packets and frames are values. The sent packet handler holds its three histories as values, on which it does what the methods of `SentPacketHistory.History` do; that the handler and a history could share a packet is not captured, and neither is the reuse of the slice of acknowledged packets.
- Frame handlers that are nil: a report to a frame without handler is a report to nobody.
- The order of the control frames and the STREAM frames of a packet in reports: a packet is reported as a whole.
- The number of a packet is popped in the same step of a run in which the packet is sent; the program pops all numbers of a coalesced datagram first, in different spaces.
- `GenerateConnectionID` errors, the preferred address, changing the initial connection ID and closing in the connection ID manager and generator.
- GetStream, DeleteStream and UpdateSendWindow of outgoing streams: would only add easy members.
- The buffers of segmentation offload: whether another packet fits into the batch is a parameter, and so is whether a path MTU probe is due.
- CONNECTION_CLOSE packets, which the program does not count as sent bytes.
- Integer widths: offsets and packet numbers stay below 2^62 in the program; the PTO shift is an arbitrary integer; other counters do not wrap around.
- `AckFrame.Length`: the size of a written ACK frame.
- DATA and HEADERS frames of HTTP/3 beyond their header.
- IncomingStreams.Map.CloseWithError: notes the error; that the open streams are shut down is not modelled, and neither is the channel of new streams.
- OutgoingStreams.Map.CloseWithError: wakes the waiters; that the open streams are shut down is not modelled.
