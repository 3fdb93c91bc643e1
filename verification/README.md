# Frame path of the CAN gateway: model and proofs

The gateway takes frames from CAN buses, numbers them, and serves them to TCP
consumers through either a per-consumer drop-oldest queue or one shared lock-free
ring. This project models that path from ring or queue to the consumer's loss
books and proves what it guarantees. `dafny verify dfyconfig.toml` checks all of it.

## The main results

**The broadcast ring, in every interleaving** (`BroadcastRing`, `RingInvariant`,
`RingTheorems`, `RingBatches`, `RingAttach`). The ring is a step machine: ticket take, CAS
attempt, each word store, the publish store, each reader load and the load inside
`oldest()` are separate atomic steps of any number of producers and readers. One
inductive invariant, kept by every step, gives: no torn read and no inconsistent
read; exact laps; cells whose sequence word never skips a stage; one writer per
cell and one write per ticket; no producer deadlock, also for batches larger than
the ring; a bound on `read_batch`; per-source order. A batch has a hole in it
exactly when its `read_batch` call lapped between its first and its last frame.

**Two feeds, one behaviour** (`BoundedQueue`, `QueueSteps`, `SequentialRing`,
`Feeds`, `FanOut`). The circular queue and the ring cursor deliver identical
batches after every history of pushes and pops, and the queue's drop count is the
ring's missed count plus what is already overwritten ahead of the cursor.

**The wire** (`Wire`, `WireFormat`, `BatchStream`, `FrameStream`). Every byte of a
header and a record is stated with its constants written out, encoders and
decoders undo each other, and the incremental reader stands exactly where a one-shot parse of
all bytes read so far would stand, however reads and timeouts split the stream.

**The sender** (`Egress`, `EgressLaws`). Across partial writes, EAGAIN, stops and disconnects,
each connection's bytes are its own whole batches and a strict prefix of at most
one more; every counter is the sum of what happened; every batch taken from the
feed is noted exactly once; every probe is answered, written off, abandoned or
out. If the feed hands over rising bus frames, every connection of every run
carries orderly batches.

**The books** (`GapTracker`, `LossAccounting`, `MarkerBooks`, `Connection`, `Consumer`,
`Topologies`, `Lingering`, `Settlement`, `RingToBooks`, `EndToEnd`). Markers report exactly the
holes between batches, silent loss is exactly the holes inside batches, and every
sequence number is booked once. This holds on every connection, after any number
of reconnects, and over the whole life of a consumer that comes back: from the
first frame to where the sender stands, every number is a frame received, a loss
reported, an absence, a silent loss, or part of a batch that a disconnect cut.
Gateway counters and consumer books agree through the bytes. In every interleaving
of the ring, every run of a sender on one of its readers and every chain of
reconnects, each position the reader passed is received, booked as lost or part of
a cut batch.

**Two smaller machines** (`Cadence`, `CadenceLaws`, `Samples`, `Sorting`). The cadence monitor
computes a declarative reading of its whole history; the decimating sample buffer
keeps its spacing within a factor of two.

## Where the code and its documentation disagree

- docs/wire-format.md:145-147 says a jump without a marker must not happen. It can:
  `note_gap` looks at the front frame of a batch only, so a hole inside a batch is
  silent (`LossAccounting.SilentLossIffBatchHasHole`, `LossAccounting.SilentJumpExists`).
  Holes come from two places. A ring reader makes one exactly when its call laps
  between its first and its last frame (`RingBatches.BatchHasHoleIffCallLapped`,
  `RingHole.HoleInsideOneBatch`). Lingering makes one, on either feed, exactly when
  the feed loses frames between the joined pops
  (`Lingering.JoinedBatchHasHoleIffFeedLost`, `Lingering.LingeringMakesAHole`).
  Histories without either never do it (`Topologies.ReportedLossIsFeedLoss`).
- `next_seq_` advances before the flush (src/egress.cpp:318, 420-426), so frames of a
  batch whose flush failed are covered by no marker: `Egress.CutBatchIsNeverAccounted`
  says when, `Witnesses.CutBatchIsReal` is a run of three passes that does it, and
  `Settlement.LifetimeBooks` counts what it costs.
- `reconnected_` is cleared by the first batch after a reconnect, with a gap or
  without (src/egress.cpp:315), not by "the first gap": `LossAccounting.ConnectionBooks`
  gives the exact law, the absence is the hole before the first batch and no other,
  and `Witnesses.GapAfterReconnectIsOverrun` is a run of four passes that shows it.
- A reader does not move on past a cell that is mid-write (src/broadcast_ring.hpp:104-106);
  it returns empty and stays: `RingBatches.EmptyIffUnpublished`.
- A failed CAS does not mean that a producer is mid-write (src/broadcast_ring.hpp:460);
  the earlier ticket may be unclaimed: `RingTheorems.CasSucceedsIffPreviousLapPublished`,
  and `RingHole.CasFailsWithNobodyWriting` is such a run.
- `attach` is said to start at the oldest frame still in the ring
  (src/broadcast_ring.hpp:350-352). It starts a capacity behind the write position
  (`RingAttach.FreshReader`), where a position just before may still be held until
  its overwriting ticket claims the cell: `RingAttach.HeldUntilClaimed` says exactly
  when, `RingAttach.StillHeldBehindFreshCursor` is such a run.
- The "skip one" branch of `lap` (src/broadcast_ring.hpp:438-444) is never taken:
  `RingTheorems.LapIsExact`.
- Byte 31 of a record must be 0 according to docs/wire-format.md:63; the decoder
  carries it along and never looks at it (src/wire.cpp:135): `Wire.ReservedByteIsNotChecked`.
- A refused batch header leaves the reader on that header for good
  (src/frame_stream.cpp:126-131 leave `got_` at 16): every further call fails the same
  way and reads nothing (`FrameStream.Reader.ReadBatch`). A refused record is passed.

## Model

| member | source | states |
|---|---|---|
| `RingInvariant.SameCell` | src/broadcast_ring.hpp:280-280 | two different positions of one cell are at least a capacity apart |
| `RingInvariant.TakeTicketsKeeps` | src/broadcast_ring.hpp:265-269 | taking tickets for a batch of any size keeps the ring invariant and never rewrites the past |
| `RingInvariant.CasKeeps` | src/broadcast_ring.hpp:452-463 | a CAS attempt, successful or not, keeps every other producer's claims, every published payload and every outstanding ticket |
| `RingInvariant.StoreKeeps` | src/broadcast_ring.hpp:482-488 | one payload word store keeps the invariant: the stored prefix is the stamped frame's, and nobody else's cell is touched |
| `RingInvariant.PublishKeeps` | src/broadcast_ring.hpp:490-490 | the publish store makes an even word vouch for all five words of the stamped frame |
| `RingInvariant.ReaderStable` | src/broadcast_ring.hpp:279-328 | nothing a producer does spoils what a reader in the middle of a read has established |
| `RingInvariant.LoadMarkKeeps` | src/broadcast_ring.hpp:282-297 | the first load sends a reader to a copy only on a published cell, and to a lap only when its position is published and its overwriting ticket issued |
| `RingInvariant.CopyKeeps` | src/broadcast_ring.hpp:299-327 | word loads and the re-check: an unchanged word means the copy is exactly the logged frame, and the inconsistency counter never moves |
| `RingInvariant.StepKeeps` | src/broadcast_ring.hpp:251-348 | every step of every producer and reader keeps the whole invariant; marks never go back and the log is never rewritten |
| `RingInvariant.BehaviorKeeps` | src/broadcast_ring.hpp:251-348 | the invariant holds in every state of every run |
| `RingInvariant.BehaviorLater` | src/broadcast_ring.hpp:447-491 | between any two moments of a run cell words only grow and a published payload is frozen while its word stands |
| `RingTheorems.NoTornReads` | src/broadcast_ring.hpp:279-328 | everything any reader accepted is exactly the frame issued for that position with its position as sequence, in strictly increasing order; `inconsistent_reads_` is 0 |
| `RingTheorems.AcceptedReadIsAtCursor` | src/broadcast_ring.hpp:308-327 | a read that returns kOk delivers the published frame at the old cursor and moves it by one; otherwise only a lap follows |
| `RingTheorems.LapIsExact` | src/broadcast_ring.hpp:428-445 | a lap jumps to `write_pos - capacity`, over positions whose overwriting tickets are all issued, never while the cursor's own position is unpublished; "skip one" is dead code |
| `RingTheorems.CursorBooksBalance` | src/broadcast_ring.hpp:309-347 | attach position + delivered + missed == cursor, never past the write position |
| `RingTheorems.BatchIsBounded` | src/broadcast_ring.hpp:330-348 | iterations of one `read_batch` are at most room + 1 + growth of the write position; a ring that stood still laps a reader at most once |
| `RingTheorems.CellsWalk` | src/broadcast_ring.hpp:447-491 | each cell's word stays or moves to the next of 0, 2p+1, 2p+2, 2(p+cap)+1, ... in every step of every run |
| `RingTheorems.OneWriterPerCell` | src/broadcast_ring.hpp:447-491 | two producers between claim and publish on one cell are the same producer |
| `RingTheorems.ClaimedAtMostOnce` | src/broadcast_ring.hpp:452-480 | over a whole run every position is claimed at most once |
| `RingTheorems.CasSucceedsIffPreviousLapPublished` | src/broadcast_ring.hpp:450-463 | the word a CAS expects is there exactly when the previous lap's ticket of the cell is published (or there is none) |
| `RingTheorems.SmallestTicketCanMove` | src/broadcast_ring.hpp:447-480 | the holder of the smallest unpublished ticket is storing it or its CAS is enabled |
| `RingTheorems.HolderCanFinish` | src/broadcast_ring.hpp:447-491 | left alone it publishes in at most seven steps, disturbing nobody |
| `RingTheorems.CanPublishEverything` | src/broadcast_ring.hpp:265-277 | from any state satisfying the invariant all issued tickets can be published in at most seven steps each, without new tickets or reader steps, and every producer ends idle |
| `RingTheorems.NoDeadlock` | src/broadcast_ring.hpp:265-277 | the same from every state of every run |
| `RingTheorems.LogKeepsSourceOrder` | src/ring_ingest.cpp:100-112 | in every run the positions of one source hold exactly what that source submitted, in order |
| `RingTheorems.SourceFifo` | src/ring_ingest.cpp:100-112 | of any two frames of one source a reader accepted, both are in that source's output, at increasing places and with increasing sequence numbers |
| `RingAttach.FreshReader` | src/broadcast_ring.hpp:350-357 | every step of every run that adds a reader: nothing missed, nothing delivered, min(write position, capacity) positions ahead of it; it skips exactly the positions whose overwriting ticket is issued, and everything from it on is held once published |
| `RingAttach.HeldUntilClaimed` | src/broadcast_ring.hpp:452-458 | a position whose overwriting ticket is issued is held exactly as long as it is published and that ticket has not claimed the cell |
| `RingAttach.NothingHeldBefore` | src/broadcast_ring.hpp:350-357 | with all issued tickets published, nothing before a fresh cursor is still in the ring |
| `RingAttach.StillHeldBehindFreshCursor` | src/broadcast_ring.hpp:350-357 | a run in which a reader attaches at 1 while position 0 is still held |
| `RingBatches.EmptyIffUnpublished` | src/broadcast_ring.hpp:279-297 | a read comes back empty exactly when its position is unpublished, leaving the cursor; it copies exactly when the cell holds the position, laps exactly when the cell moved on |
| `RingBatches.ReaderHistory` | src/broadcast_ring.hpp:330-348 | between two moments of a run a reader's missed count is unchanged exactly when it took no lap |
| `RingBatches.HoleIffLappedMidBatch` | src/broadcast_ring.hpp:330-348 | the frames accepted in a stretch of a run are consecutive exactly when no lap fell between the first and the last of them |
| `RingBatches.CallDelivers` | src/broadcast_ring.hpp:330-348 | between two calls a reader's deliveries are exactly those its current `read_batch` call counted |
| `RingBatches.CallBegins` | src/broadcast_ring.hpp:330-334 | a `read_batch` call begins with nothing counted and the write position of that moment, and is over at once exactly without room |
| `RingBatches.BatchHasHoleIffCallLapped` | src/broadcast_ring.hpp:330-348 | the frames one `read_batch` call returned are consecutive exactly when the call took no lap between accepting the first and the last of them |
| `RingHole.HoleInsideOneBatch` | src/broadcast_ring.hpp:334-344 | a run exists in which one `read_batch` returns positions 0 and 2 |
| `RingHole.PublishBatchRun` | src/broadcast_ring.hpp:265-277 | from any state with an idle producer, whatever the others are doing, there is a run in which it publishes a batch of any size at consecutive positions and all producers finish |
| `RingHole.CasFailsWithNobodyWriting` | src/broadcast_ring.hpp:458-463 | a run in which a CAS fails, not spuriously, while no producer is between claim and publish |
| `RingHole.ReadOne` | src/broadcast_ring.hpp:279-328 | an undisturbed read of a held position delivers exactly its frame |
| `RingSize.RoundUpPow2` | src/broadcast_ring.hpp:420-426 | the loop returns the smallest power of two that is at least `v`, and up to 2^63 no shift overflows |
| `RingSize.SlotIsMask` | src/broadcast_ring.hpp:447-448 | on a power-of-two ring the cell of a position is the bitwise and with capacity - 1 |
| `SequentialRing.Ring.StoreWords` | src/broadcast_ring.hpp:486-488 | the store loop writes the stamped frame into one cell and touches no other |
| `SequentialRing.Ring.WriteAt` | src/broadcast_ring.hpp:447-491 | appends the stamped frame to the log while the newest `capacity` positions stay readable |
| `SequentialRing.Ring.PublishBatch` | src/broadcast_ring.hpp:265-277 | a batch of any size, also larger than the ring, is appended with consecutive positions from the returned base |
| `SequentialRing.Ring.Lap` | src/broadcast_ring.hpp:428-445 | the cursor moves forward by exactly what is added to missed: to the oldest held position, or by one |
| `SequentialRing.Ring.Accept` | src/broadcast_ring.hpp:308-327 | the re-check and the comparison of word 0: accepted exactly when both pass, otherwise a lap, and only the second counts as inconsistent |
| `SequentialRing.Ring.TryRead` | src/broadcast_ring.hpp:279-328 | empty at the write position, lapped below the oldest held one, else the logged frame; the two failing ends of the re-check are never reached |
| `SequentialRing.Ring.ReadBatch` | src/broadcast_ring.hpp:330-348 | returns one slice of the log, from the cursor or from the oldest held position, as long as room allows; what it skipped is added to missed |
| `BoundedQueue.ModIsWrap` | src/bounded_queue.hpp:66-70 | the modulo index is the wrapped index |
| `BoundedQueue.Queue.constructor` | src/bounded_queue.hpp:47-48 | an empty open queue of capacity at least one |
| `BoundedQueue.Queue.MakeRoom` | src/bounded_queue.hpp:65-69 | a full queue gives up exactly its oldest item |
| `BoundedQueue.Queue.Append` | src/bounded_queue.hpp:70-71 | an item goes behind the newest, wherever the head stands |
| `BoundedQueue.Queue.PushOne` | src/bounded_queue.hpp:64-72 | one turn of the loop keeps the newest `capacity` items in order and reports the one dropped |
| `BoundedQueue.Queue.PushBatch` | src/bounded_queue.hpp:54-78 | contents become the newest `capacity` of old contents and batch; the drop count is the excess; a closed queue is untouched; pushed == popped + dropped + size is kept |
| `BoundedQueue.Queue.PopBatch` | src/bounded_queue.hpp:82-101 | hands out the oldest items in order, up to the room, and keeps exactly the rest |
| `QueueSteps.StepKeeps` | src/bounded_queue.hpp:54-111 | every locked section, every later counter update, close and the push a closed queue refuses keep the queue invariant |
| `QueueSteps.CountersConserve` | src/bounded_queue.hpp:54-101 | in every interleaving the contents are the newest unpopped items; pushed == popped + dropped + size once updates in flight are added back, hence exactly when both threads rest |
| `Feeds.PushMirrors` | src/bounded_queue.hpp:54-78 | a push keeps queue contents equal to what the ring cursor can still get |
| `Feeds.PopMirrors` | src/feed.hpp:60-120 | a pop returns the same frames from both feeds and keeps them mirrored |
| `Feeds.FeedsAgree` | src/feed.hpp:60-157 | after every history both feeds delivered identical batches, and dropped == missed + max(0, written - capacity - cursor) |
| `Feeds.RunQueue` | src/feed.hpp:64-80 | the queue code performs the queue feed's step, contents and counters; a closed queue refuses pushes and is still drained |
| `Feeds.RingFeed.PopBatch` | src/feed.hpp:102-120 | the ring feed code performs the ring feed's step; a read that yields nothing on an open ring is repeated behind whatever was published meanwhile; missed and position are mirrored |
| `FanOut.Thread.Produce` | src/fanout.cpp:120-140 | a drained batch gets dense sequence numbers and every sink gets the same copy by its own drop rule; no sink, full or closed, changes what another gets; open sinks have been offered exactly the numbers given out |
| `Layout.StampedImage` | src/frame.hpp:54-82 | copying a frame into five words, stamping word 0 and copying back changes its sequence number and nothing else |
| `Topologies.SliceIsContiguous` | src/fanout.cpp:125-137 | any slice of the densely numbered log is one contiguous batch of bus frames |
| `Topologies.RoundsStayInTune` | src/egress.cpp:411-418 | the rounds of all connections on a feed, without linger, are contiguous batches in order, with the sender exactly at the feed's cursor |
| `Topologies.ReportedLossIsFeedLoss` | src/gap_tracker.hpp:47-96 | for every history on either feed and every connection on it, the first or any later one: no silent jump, every frame delivered counted, and overruns plus absences are exactly what the feed lost since the connection before |
| `Topologies.ConnectionSummary` | src/gap_tracker.hpp:47-86 | from its first sequence number to its last a connection's books add up, the absence being the hole before its first batch |
| `Wire.LoadStore` | src/wire.cpp:14-31 | loading undoes storing for every value that fits the width |
| `Wire.StoreLoad` | src/wire.cpp:14-31 | storing undoes loading for every byte string, and the loaded value fits |
| `Wire.StoreBytes` | src/wire.cpp:15-21 | the shift loop writes exactly the little-endian bytes in place and touches nothing else |
| `Wire.WriteLe` | src/wire.cpp:100-105 | one field behind another: the bytes written so far are extended by the field's little-endian bytes |
| `Wire.ReadLe` | src/wire.cpp:24-31 | the load loop computes the little-endian value |
| `Wire.EncodeFrame` | src/wire.cpp:100-113 | encoding in place yields the record's forty bytes and leaves the rest of the buffer alone |
| `Wire.DecodeAfterEncode` | src/wire.cpp:115-140 | decoding undoes encoding exactly on frames with no reserved flag and len <= 8; every other frame is refused for the first reason that applies |
| `Wire.EncodeAfterDecode` | src/wire.cpp:115-140 | re-encoding any accepted record gives back the same forty bytes |
| `Wire.ReservedByteIsNotChecked` | src/wire.cpp:115-140 | an acceptable frame with a reserved byte other than 0 decodes to itself |
| `Wire.DecodeHeaderAfterEncode` | src/wire.cpp:142-183 | a header decodes to its count up to 65535 and is refused as too large above, with the 32-bit product modelled |
| `Wire.EncodeHeaderAfterDecode` | src/wire.cpp:154-183 | an accepted header is the encoding of its own count |
| `Wire.HeaderAcceptsExactlyEncoded` | src/wire.cpp:142-183 | `decode_header` accepts exactly the image of `encode_header` on counts up to 65535 |
| `Wire.GapRoundTrip` | src/wire.cpp:50-98 | a marker survives the wire and says first missing, count and reason |
| `WireFormat.DigitOf` | src/wire.cpp:14-21 | byte k of a stored integer is its k-th base-256 digit |
| `WireFormat.HeaderLayout` | src/wire.cpp:142-152 | a header is 0x45 0x54 0x47 0x31, 3, 16, 40, 0, then the count at 8 and forty times the count at 12, little-endian |
| `WireFormat.HeaderAccepted` | src/wire.cpp:154-183 | sixteen bytes are accepted exactly if they are that, with a count of at most 65535 |
| `WireFormat.HeaderRefused` | src/wire.cpp:157-175 | which reason a header is refused for: the first of magic, version, header length, record length, count and payload length that is wrong |
| `WireFormat.RecordLayout` | src/wire.cpp:100-113 | sequence at 0, kernel time at 8, ingest time at 16, identifier at 24, bus, length, flags and reserved at 28 to 31, payload at 32 |
| `WireFormat.RecordAccepted` | src/wire.cpp:118-126 | a record is accepted exactly if byte 30 is below 32 and byte 29 at most 8, with byte 30 looked at first |
| `WireFormat.GapLayout` | src/wire.cpp:50-64 | every field of a marker, with flag 8, length 8 and the count as payload |
| `WireFormat.EchoLayout` | src/wire.cpp:68-78 | every field of a probe, with flag 16, and that it survives the wire |
| `WireFormat.ControlBits` | src/wire.cpp:66-88 | markers and probes are told by bits 3 and 4 of the flags |
| `WireFormat.ImageIsRecord` | src/frame.hpp:72-82 | the five words of a frame in memory are its record's bytes, eight at a time |
| `BatchStream.ParseResumes` | src/frame_stream.cpp:116-168 | parsing may stop after any byte and resume on what was left over |
| `BatchStream.DecodeRecordsOfBytes` | src/frame_stream.cpp:150-167 | the record loop gives back exactly the records that were printed |
| `BatchStream.DecodeRecordsUpToBad` | src/frame_stream.cpp:151-162 | a bad record is reported with its reason and with exactly the records before it |
| `BatchStream.ParseBatchPrefix` | src/frame_stream.cpp:116-168 | a strict prefix of a printed batch holds no message, all of it exactly one |
| `BatchStream.ParseAfterPrint` | src/egress.cpp:322-335 | parse after print is the identity on whole batch streams |
| `BatchStream.ParsePrefix` | src/frame_stream.cpp:116-168 | a stream cut anywhere parses to its first complete batches, the cut falling strictly inside the next |
| `BatchStream.ParseStopsAtBadHeader` | src/frame_stream.cpp:126-131 | a header that does not decode stops the parse behind the batches before it, and is never passed |
| `FrameStream.Reader.Receive` | src/frame_stream.cpp:53-57 | one read takes bytes off the front of what arrives, no more than asked for |
| `FrameStream.Reader.Fill` | src/frame_stream.cpp:47-90 | buffers exactly the bytes read, conserves bytes, is complete exactly when it has what was asked for, Closed exactly at the first event that closes the connection and Timeout exactly at the first that reaches the deadline |
| `FrameStream.StopsLater` | src/frame_stream.cpp:116-148 | the two halves of a call stop at one event of the whole schedule, for the reason it gives |
| `FrameStream.Reader.ReadHeader` | src/frame_stream.cpp:120-143 | the header half: not yet, refused and kept, an empty batch, or a payload announced; a header already refused is refused again without reading |
| `FrameStream.Reader.ReadPayload` | src/frame_stream.cpp:145-167 | the payload half resumes where it stopped and returns the records or those before the first bad one |
| `FrameStream.Reader.DecodeAll` | src/frame_stream.cpp:150-162 | the record loop agrees with the one-shot decoder, error included |
| `FrameStream.Reader.ReadBatch` | src/frame_stream.cpp:116-168 | for every split and every timeout the messages returned so far and the bytes pending are the one-shot parse of all bytes read; no byte is lost, invented or taken from the next message; the status is that of the first event that is a reason to stop; a refused header fails for good |
| `GapTracker.ObservedConcat` | src/gap_tracker.hpp:47-86 | books on a stream are books on its parts, in order |
| `GapTracker.Tracker.Observe` | src/gap_tracker.hpp:47-86 | updates every field as the record calls for and tells frames from markers and probes |
| `GapTracker.Tracker.ObserveBatch` | src/gap_tracker.hpp:47-86 | observing record by record gives the books of the whole batch |
| `MarkerBooks.MarkerByReason` | src/gap_tracker.hpp:55-76 | a marker with reason 2 is an absence and no loss, with reason 1 an ingest loss, with any other an overrun; nothing else in the books moves |
| `MarkerBooks.EveryRecordCounted` | src/gap_tracker.hpp:47-86 | on every stream each record is a frame, a marker or a probe, and each marker an overrun, an ingest loss or an absence |
| `MarkerBooks.MarkerIs` | src/egress.cpp:301-308 | a hole is marked with reason 2 right after a reconnect and 0 otherwise, with the clock and the numbers missing |
| `MarkerBooks.ConnectionKinds` | src/gap_tracker.hpp:55-70 | over a connection: one absence marker exactly if it followed a disconnect and its first batch has a hole before it, one overrun marker for every other round with a hole, no ingest marker, every probe counted |
| `LossAccounting.TotalLossIsHoles` | src/gap_tracker.hpp:94-96 | over a connection `total_lost` grows by every hole between and inside batches except an absence |
| `LossAccounting.BooksAfterFrames` | src/gap_tracker.hpp:78-85 | after a batch of bus frames the silent loss has grown by exactly its holes and the rest is untouched |
| `LossAccounting.BooksAfterRound` | src/egress.cpp:295-320 | after one batch with its marker and probes: the hole before it is reported (or an absence), the holes inside it are silent, and the consumer expects the gateway's next |
| `LossAccounting.ConnectionBooks` | src/egress.cpp:295-320 | over a connection: reported loss and absences are exactly the holes between batches, silent loss exactly the holes inside, and next - first == frames + both |
| `LossAccounting.SpanOfBatch` | src/gap_tracker.hpp:78-85 | a batch's span of sequence numbers is its frames plus its holes |
| `LossAccounting.InsideZeroIffContiguous` | src/gap_tracker.hpp:78-81 | no hole, no jump and contiguous are the same thing |
| `LossAccounting.SilentLossIffBatchHasHole` | src/egress.cpp:301-311 | a connection has no silent jump exactly when every batch handed to `note_gap` is contiguous |
| `LossAccounting.SilentJumpExists` | docs/wire-format.md:145-147 | a batch with a hole, on which the documented promise fails |
| `Connection.OrderlyAppend` | src/egress.cpp:295-320 | a connection's records are those of its earlier rounds and then of the last |
| `Connection.OrderlySuffix` | src/egress.cpp:295-320 | what a later connection carries is orderly from where the earlier rounds ended |
| `Connection.RisingIsOrderly` | src/egress.cpp:411-416 | however rising frames are cut into batches, the batches are in order |
| `Connection.RecordsAreBatches` | src/egress.cpp:322-335 | the frames in the batches on the wire are the connection's records, in order |
| `Connection.ConsumerBooksAreExact` | src/gap_tracker.hpp:47-91 | cut a connection's byte stream anywhere: the consumer has the first k rounds whole, and books brought along and reset grow by exactly what these call for |
| `Consumer.NoBadBytes` | src/probe_main.cpp:238-249 | on any start of a gateway stream every message parses and no header is refused |
| `Consumer.Digest` | src/probe_main.cpp:287-300 | the loop over a batch sends back exactly its probes, in order, and books everything else |
| `Consumer.EchoesInOrder` | src/probe_main.cpp:287-295 | replies keep the order of the probes |
| `Consumer.Connect` | src/probe_main.cpp:226-228 | a consumer that connects, first or again, keeps its totals and forgets where it was |
| `Consumer.Poll` | src/probe_main.cpp:238-300 | one turn of a read loop, on the first connection or a later one, never meets a protocol error, answers every probe and grows the books by exactly what the rounds received call for, however bytes were cut up; it sees a closed peer or a timeout exactly when the socket had one |
| `Egress.JoinPops` | src/egress.cpp:153-187 | the linger loop joins pops until one is empty, the batch is full or the deadline passes, and says whether it joined any |
| `Egress.CoalescedFits` | src/egress.cpp:153-187 | pops joined by lingering never exceed the batch limit |
| `EgressLaws.CoalescedIs` | src/egress.cpp:153-187 | the batch is the first pops in order: one without linger, and with it as many as fill the batch or until one is empty; two or more count as lingering |
| `Lingering.JoinedIffNothingMissed` | src/egress.cpp:174-179 | a batch that goes on joining pops stays unbroken exactly when the feed loses nothing meanwhile |
| `Lingering.JoinedBatchHasHoleIffFeedLost` | src/egress.cpp:153-187 | the batch a lingering pass hands to `note_gap` is contiguous exactly when the feed lost nothing after the first of its pops, by missed count or by drop count |
| `Lingering.LingeringMakesAHole` | src/egress.cpp:174-179 | a queue history in which two joined pops give the consumer a silent jump and no marker |
| `Egress.RoundStarts` | src/egress.cpp:416-418 | noting and encoding a round leaves all of it pending behind the batches already sent |
| `Egress.RoundProceeds` | src/egress.cpp:337-384 | any number of further bytes keeps the wire a prefix of the connection's batches |
| `Egress.FlushFate` | src/egress.cpp:337-384 | a schedule of sends writes no more than there is, and flushes exactly when it writes it all |
| `EgressLaws.FateByEvents` | src/egress.cpp:337-384 | a flush is done at the send that takes the last byte, lost at the first broken send, failed poll or stop before that, and otherwise waiting; bytes, blocks and partial writes are those of the sends used |
| `Egress.Egress.constructor` | src/egress.cpp:63-73 | a disconnected sender with balanced books |
| `Egress.Egress.NoteGap` | src/egress.cpp:295-320 | the outgoing batch is marker plus frames, and the two counters grow by the marker and its overrun |
| `Egress.Egress.MaybeSendEcho` | src/egress.cpp:75-98 | at most one probe, due and with the next nonce; a probe still out is written off; probe accounts stay balanced |
| `Egress.PacedOn` | src/egress.cpp:75-98 | one more round keeps probes paced over all rounds of all connections |
| `EgressLaws.ProbesKeepPace` | src/egress.cpp:75-98 | at any point of any run a round carries a probe exactly if probing is on and an interval has passed since every earlier probe; probes are numbered without a gap and carry the time they were sent |
| `Egress.Egress.EncodeBatch` | src/egress.cpp:322-335 | the buffer becomes header and records of exactly these frames |
| `Egress.Egress.FlushPending` | src/egress.cpp:337-384 | bytes go out in order, none twice, none skipped, as far as the schedule of sends takes them; result and all three counters follow from the schedule |
| `Egress.Egress.Coalesce` | src/egress.cpp:153-187 | the joined batch, and the lingered counter moves exactly when pops were joined |
| `Egress.Egress.DropClient` | src/egress.cpp:227-239 | the connection is closed into history with its whole batches and its cut, and nothing of it is carried over |
| `Egress.Egress.Consider` | src/egress.cpp:132-146 | a reply scores once if and only if it answers the probe that is out |
| `Egress.Egress.ConsiderAll` | src/egress.cpp:130-147 | over all records of a reply: one sample if the probe out is answered among those that decode, none for stale or repeated replies |
| `Egress.Egress.ReceiveReplies` | src/egress.cpp:105-116 | the receive loop fills the reply buffer as `EgressLaws.BufferedAll` and `EgressLaws.BufferedSince` say, never beyond 64 KiB |
| `EgressLaws.BufferedAll` | src/egress.cpp:105-116 | while everything fits into 64 KiB the buffer is what was there and all that was received |
| `EgressLaws.BufferedSince` | src/egress.cpp:111-115 | in general it is exactly what was received after the last overflow, and never more than 64 KiB |
| `EgressLaws.ScanThrough` | src/egress.cpp:118-147 | printed replies are found, all of them and in order, whatever comes behind |
| `EgressLaws.ScanTail` | src/egress.cpp:118-128 | the start of one more reply is kept for later, a header that does not decode throws the buffer away |
| `EgressLaws.OneGoodRecord` | src/egress.cpp:132-135 | a record that does not decode is skipped |
| `EgressLaws.AnsweredByEcho` | src/egress.cpp:100-151 | of replies that arrive in any chunks, the probe that is out is answered exactly if its echo is in one that is complete |
| `EgressLaws.PassScores` | src/egress.cpp:100-151 | a pass that receives the rest of a reply, however split, adds exactly one sample, now minus the time the probe was sent, if the reply holds its echo, and none otherwise |
| `Egress.Egress.DrainReplies` | src/egress.cpp:100-151 | complete replies are scored, an incomplete one kept, a bad header throws the buffer away |
| `Egress.AnswersConcat` | src/egress.cpp:130-147 | a probe is answered in a stream exactly when it is in one of its parts |
| `Egress.Egress.Prepare` | src/egress.cpp:416-418 | marker, probe and encoding add exactly one round to the connection, all of it pending |
| `Egress.Egress.Serve` | src/egress.cpp:416-426 | a popped batch becomes one round; it counts as sent exactly when it was flushed whole |
| `Egress.Egress.Exchange` | src/egress.cpp:400-430 | with a client there: replies are scored, the feed's batch becomes one round, and the connection ends with that round cut or goes on with it on the wire, as the sends decide |
| `Egress.Egress.ServeFeed` | src/egress.cpp:407-430 | from the pop on: what the feed returns becomes at most one round, and the pass returns only on a closed, drained feed or mid-write |
| `Egress.Egress.Pass` | src/egress.cpp:386-431 | one pass keeps all accounts and leaves nothing pending for the next; it stops for a stop, drops a client that is gone, leaves the connection alone when the feed has nothing, and otherwise ends as the sends decide |
| `Egress.Egress.Run` | src/egress.cpp:386-431 | over any run: every connection is whole batches plus a strict prefix of one, all counters balance, the batches noted are exactly those taken from the feed, in order, across reconnects; if these are rising bus frames every connection is orderly |
| `Egress.ChainIsOrderly` | src/egress.cpp:227-239 | rising frames, cut into connections by any chain of disconnects, are orderly on each from its own start |
| `Egress.CountsAfterNote` | src/egress.cpp:301-313 | noting a round moves the marker counters by exactly that round's marker |
| `Egress.CountsAfterFlush` | src/egress.cpp:420-426 | flushing a round moves frames_sent by exactly its frames |
| `Egress.StreamLength` | src/egress.cpp:322-324 | a stream is sixteen bytes per batch and forty per record |
| `Egress.CutIsPartial` | src/egress.cpp:337-384 | what a connection carried beyond its whole batches is less than one batch, and nothing unless it was cut |
| `Egress.BytesAddUp` | src/egress.cpp:337-384 | over any connections bytes sent == 16 per batch + 40 per record + the bytes of truncated batches |
| `Egress.BytesSentAddUp` | src/egress.cpp:337-384 | at any point of any run, the current connection included: bytes_sent == 16 * batches_sent + 40 per record of these + the bytes of batches cut or in flight |
| `Egress.CutBatchIsNeverAccounted` | src/egress.cpp:316-319 | the next connection's account begins where the last one's ended exactly when no batch was cut; the frames of a cut batch lie before it |
| `Witnesses.CutBatchIsReal` | src/egress.cpp:416-423 | a run of three passes after which a frame was noted, cut off by a broken send, and is mentioned by no record on either connection |
| `Witnesses.GapAfterReconnectIsOverrun` | src/egress.cpp:301-315 | a run of four passes: after a reconnect a batch without a gap uses up the mark, so the gap behind it is sent and booked as an overrun and no absence |
| `Settlement.BooksMatchCounters` | src/egress.cpp:295-320 | frames, markers and reported loss in a consumer's books are the gateway's frames_sent, gaps_sent and frames_lost for the connection |
| `Settlement.BytesParseToWholeRounds` | src/frame_stream.cpp:116-168 | the bytes of a finished connection parse to exactly the records of its whole rounds |
| `Settlement.ConnectionSettles` | src/egress.cpp:386-431 | a consumer that read all bytes of a connection counted exactly the frames counted as sent; markers and loss fall short only by the marker of a cut batch |
| `Settlement.FramesSentIsFramesReceived` | src/egress.cpp:424-425 | at any point of any run on rising frames, frames_sent is the sum of the frames all consumers counted, the current one included |
| `Settlement.ConnectionSpan` | src/gap_tracker.hpp:47-91 | a connection's span of sequence numbers is what a reset tracker booked on it plus the frames and holes of a cut batch |
| `Settlement.LifetimeSpan` | src/gap_tracker.hpp:88-91 | the same over any chain of connections with one tracker, reset at each connect |
| `Settlement.LifetimeBooks` | src/probe_main.cpp:228-300 | at any point of any run on rising frames, from the first frame taken to where the sender stands every number is booked by the tracker or part of a cut batch |
| `Settlement.ReaderIsOnStream` | src/frame_stream.cpp:116-168 | a reader of any connection of any run on rising frames meets what the consumer's guarantees ask for |
| `Settlement.RunSettles` | src/egress.cpp:386-431 | a sender from its start, under any schedule: if the feed hands over rising bus frames, connections are orderly, frames sent are frames received and every number is booked or cut |
| `RingToBooks.BooksOfStretch` | src/gap_tracker.hpp:47-86 | the books of one connection in terms of the ring positions its reader delivered |
| `RingToBooks.DeliveriesRise` | src/broadcast_ring.hpp:330-348 | in every interleaving the frames a reader accepted are bus frames in strictly rising order, numbered by their positions |
| `RingToBooks.MissedIsBooked` | src/broadcast_ring.hpp:428-445 | in every interleaving, every batching and every connection, the first or any later one: what the reader missed between two moments is overrun, absence and silent loss in the books, give or take what was missed behind the last frame of either stretch |
| `EndToEnd.EveryPositionIsAccounted` | src/egress.cpp:386-431 | in every interleaving, every run of a sender on a reader and every chain of reconnects: frames sent are frames received, and delivered + missed is what was missed before the first frame, booked by the consumer's tracker, cut, or missed behind the last frame |
| `Sorting.SortedSorts` | src/samples.cpp:62-62 | sorting yields an ordered permutation |
| `Sorting.RankOf` | src/samples.cpp:11-24 | the element at index k of the sorted samples has at most k samples below it and more than k at or below it |
| `Samples.DecimatedIsSpaced` | src/samples.cpp:48-55 | dropping every second sample keeps the spacing bound for the doubled stride |
| `Samples.KeepIsSpaced` | src/samples.cpp:36-42 | a kept sample lies between one stride and two strides minus one behind the previous |
| `Samples.Samples.Add` | src/samples.cpp:36-46 | after any number of adds: the first sample retained, neighbours at least stride and at most 2*stride - 1 apart, each value the one offered there, stride a power of two, below capacity |
| `Samples.Samples.Keep` | src/samples.cpp:41-46 | keeping a due sample, decimating if full, keeps the spacing and the values |
| `Samples.Samples.Decimate` | src/samples.cpp:48-55 | in-place compaction keeps every second value |
| `Samples.NearestRankLaw` | src/samples.cpp:11-24 | the percentile is a sample with at least the fraction p at or below it and fewer than that strictly below it, or none |
| `Cadence.StateSteps` | src/cadence.hpp:71-99 | the incremental step computes the state called for by one more interval, flag included |
| `Cadence.FurtherFrame` | src/cadence.hpp:71-99 | for an id seen before, the incremental step is the declarative one over the whole history |
| `Cadence.FirstFrame` | src/cadence.hpp:65-69 | the first frame of an id is never late and starts its state |
| `Cadence.OtherEvent` | src/cadence.hpp:45-54 | any other event changes an id's state at most by its resync mark, and exactly when it is a discontinuity |
| `CadenceLaws.LateMeans` | src/cadence.hpp:71-98 | late is: a frame of the id before, no marker or reset since, enough clean intervals known, and more time since than the factor times the median of the first |
| `CadenceLaws.CleanIntervalIs` | src/cadence.hpp:71-82 | every calibration interval is the time between two neighbouring frames of the id with nothing disturbing in between |
| `CadenceLaws.EveryIntervalCounted` | src/cadence.hpp:65-91 | every frame of an id but its first ends a clean interval or one that straddles a discontinuity |
| `CadenceLaws.LateCountIs` | src/cadence.hpp:93-97 | the anomaly figure is how many frames of the id came late |
| `CadenceLaws.WorstIsLongest` | src/cadence.hpp:96-96 | the worst figure is the longest late interval, or 0 |
| `CadenceLaws.ResetSuppresses` | src/cadence.hpp:103-107 | after a reset the next frame of an id seen before is suppressed and never late |
| `CadenceLaws.MarkerSuppresses` | src/cadence.hpp:45-54 | so it is after a marker in a gap-aware monitor, and a marker changes nothing in any other |
| `Cadence.LateIsBeyondFactor` | src/cadence.hpp:93-93 | rounding the limit down makes no difference: an interval is beyond it exactly if it exceeds factor times median |
| `Cadence.LargerFactorFewerLate` | src/cadence.hpp:93-93 | a larger factor never makes a frame late |
| `Cadence.Monitor.Observe` | src/cadence.hpp:44-100 | flags a frame exactly when no discontinuity lies behind it, enough clean intervals precede it and it exceeds factor times the median of the first of them; suppressed counts straddling pairs |
| `Cadence.Monitor.ObserveFirst` | src/cadence.hpp:65-69 | the first frame of an id starts its state and is never flagged |
| `Cadence.Monitor.ObserveFurther` | src/cadence.hpp:71-99 | a later frame is flagged exactly when the history says late and suppressed exactly when it straddles a discontinuity |
| `Cadence.Monitor.ObserveGap` | src/cadence.hpp:45-54 | a marker is a discontinuity for every id in gap-aware mode and for none otherwise |
| `Cadence.Monitor.Advance` | src/cadence.hpp:71-99 | the per-id branch code performs the incremental step |
| `Cadence.Monitor.ResetAll` | src/cadence.hpp:103-107 | a reset is a discontinuity for every id |
| `Cadence.Monitor.ResyncAll` | src/cadence.hpp:49-51 | the loop marks every id and changes nothing else |
| `Cadence.ReportedFigures` | src/cadence.hpp:116-122 | the per-id figures are counts over the whole history |
| `Cadence.MedianIsMiddle` | src/cadence.hpp:86-88 | at most half of the calibration intervals are shorter than the median, more than half no longer |

## Left out

- Weak memory: the ring's steps are sequentially consistent; acquire, release and fences are not modelled.
- The idle path: waiting, wake-ups and timeouts of feeds are no-ops; a feed's pop that finds nothing is the timed-out wait.
- Sockets, poll, eventfd, threads, TCP and the bus sources are replaced by arbitrary schedules of results; clocks are arbitrary parameters.
- 64-bit wrap-around of positions and counters: they are unbounded naturals; values that reach the wire are bounded by their types, and `Egress.Run` asks for fewer than 2^64 probes, `Topologies` and `RingToBooks` for at most 2^64 frames.
- RingSize.RoundUpPow2: does not model the shift overflow for sizes above 2^63, where the source does not terminate.
- Cadence.Monitor.Observe: factor times median is a real product rounded down, not a rounded double.
- Samples.NearestRankLaw: p times n is a real product, not a rounded double; the mean is not modelled.
- Sorting.SortedSorts: the library sort is represented by insertion sort.
- Spinning, yielding and the retry counter of the CAS loop: a failed attempt is a step that changes nothing.
- Egress.Egress.Pass: the retry of a pending buffer at the top of the run loop (src/egress.cpp:394-399) is proved unnecessary instead of modelled.
- Egress.Egress.FlushPending: a schedule that ends with bytes unwritten stands for a sender still parked on poll.
- Egress.Egress.Consider: keeps every round-trip sample; the decimating buffer that stores them is `Samples`.
- Consumer.Poll: returns the probes to be sent back; writing them to the socket, and latency samples, are not modelled.
- Feeds.RingFeed.PopBatch: other threads publish only during its wait; publishing in the middle of a read is covered by the step machine.
- Topologies.ReportedLossIsFeedLoss: speaks of arbitrary histories of pushes and pops, each completed before the next begins; concurrent ring reads are covered by `RingToBooks.MissedIsBooked`.
- The HTTP server, live view, command-line tools, stress driver, scripts and measured results.
