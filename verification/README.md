# Orbetra pipeline: verified models

Trackers speak the Teltonika protocol over TCP and UDP. The ingest service frames and parses the bytes, appends the
records to a Redis stream per shard and acknowledges them; workers lease the shards, read the streams through a
consumer group, write rows to Postgres, keep a live marker per device and acknowledge the entries. An API issues
rotating refresh tokens. This project models the parts of that system whose correctness depends on order, on
interleaving or on exact bytes, and proves what they promise.

Code that updates state in place is a class or a loop here, proved against functions; the theorems are about those
functions. Protocols whose steps interleave (lease, pipeline, token rotation, live marker, consumer start and stop)
are transition systems: a `State`, an `Action` per command or statement, `Enabled` and `Step`, and theorems over every
run.

| module | what it models |
|---|---|
| `Bytes`, `Crc16`, `Framer`, `Walk`, `Extract`, `Parse`, `Encode`, `CodecRoundTrip`, `Codec12`, `Udp` | the codec: framing, CRC, record walk, IO extraction, parsing, encoding, commands, datagrams |
| `Ingest` | sanity check, persist, park, acknowledge, resend |
| `Pipeline`, `Consumer`, `Drain`, `Positions` | the shard stream and its pending list, one batch, the loop of a consumer, the bisecting insert |
| `Lease`, `ShardOps` | shard leases and the fence; the start and stop of consumers inside one process |
| `LiveState`, `AvlTables`, `Normalize`, `Limits` | live marker, dictionary cache, IO normalization, handshake limiter |
| `Options` | an absent or present value |
| `Auth` | refresh-token rotation against eviction |

## Where the code does less than it looks

Each item names the lemma that gives the exact condition, and a run or input that falls under it where the condition
does not spell one out.

- A pending entry can leave the group without a row, a quarantined copy or a count: Redis may remove a trimmed entry
  and the worker crash, or the reply get lost, before it counts the eviction (`Pipeline.AnEvictionCanGoUncounted`).
  Only such a cut does this, and it does so to every entry with no other trace (`Pipeline.UntracedIsCutOff`, `Pipeline.CutOffLosesTrace`).
- Two workers can be past the fence at once: the GET and DEL of a release can be split by an expiry, and a worker can
  give its lease up under its own batch (`Lease.SplitReleaseBreaksExclusivity`, `Lease.EarlyReleaseBreaksExclusivity`).
  The step that makes this possible is exactly a DEL while a batch is in time (`Lease.DeleteUncoversIff`), and once it
  has happened a peer is a claim and a fence check away (`Lease.UncoveredMeansDoubleProcessing`).
- A held lease does not imply a consumer: one that is still draining can report a lost lease late and stop its healthy
  successor (`ShardOps.LateFenceStopsSuccessor`). A shard has its consumer at rest if and only if some gained lease was
  followed by no lost one, no fence callback and no failed last start (`ShardOps.MappedIffStartedLast`).
- A stop that waits for a loop whose opening group check fails is cut short and leaves the connection open
  (`ShardOps.StopCutShortLeaks`); nothing else leaks one (`ShardOps.LeakedIffStopCutShort`).
- The own-pending phase can end with a live entry still pending (`Drain.LiveEntryLeftPending`): exactly when a full
  COUNT of tombstones leads the list and a live entry follows (`Drain.ExitLeavesLiveIff`).
- A clock-skewed record hides the good records of its batch from the live marker (`LiveState.SkewMasksItsBatch`): per
  batch exactly when it is the newest one and hides a trusted record newer than the marker
  (`LiveState.BatchReachesMaximumIff`), and over runs as `LiveState.MarkerIsLatestTrustedIff` says.
- A record diverted on the first delivery can be streamed on a resend (`Ingest.DivertedThenStreamed`), so resends equal
  one delivery at the time of the last. First and last agree if and only if no record was ahead of the first one's
  window and within the last one's (`Ingest.VerdictsAgreeIff`).
- A Codec 12 command survives its round trip if and only if every UTF-16 code unit is at most 0xFF
  (`Codec12.RoundTripIffOneByteCharacters`).
- The two transports disagree on one kind of payload only: a two-byte empty AVL field, which TCP parses as a packet of
  no records and UDP refuses (`Udp.UdpAgreesWithTcp`).
- A dictionary in which one parameter is called `io_<n>` and parameter n has no usable name makes elements overwrite
  each other, depending on arrival order (`Normalize.ClashLosesAnElement`); order is irrelevant if and only if there is
  no such pair (`Normalize.OrderIsIrrelevantIff`). No shipped dictionary has a name of that form.
- Above 500 rows a later chunk that fails takes the count of the earlier chunks with it
  (`Positions.LaterChunkLosesCount`). The amount is `Positions.Lost`; up to 1000 rows it is nothing if and only if all
  rows are acceptable, or one of the first 500 is not, or those hold nothing new (`Positions.TwoChunksReportedIff`).
- The limiter admits twice its maximum within 60 seconds for every maximum below 30 000 and for none from there on
  (`Limits.TwiceIsReached`, `Limits.TwiceIsMissed`).
- A rotation refused because of an eviction spends its token all the same: returning null from the transaction commits
  (`Auth.RotationSpendsItsToken`; `Auth.RefusalReachable`).

## Model

| member | source | states |
|---|---|---|
| `Crc16.Crc16Ibm` | packages/codec/src/crc16.ts:7-16 | The nested loops compute the register function `Crc` that the error-detection theorems are about. |
| `Crc16.AdjacentDamageChangesCrc` | packages/codec/src/crc16.ts:7-16 | Two equal-length spans of any length that differ, and differ only inside two adjacent bytes, have different CRCs. |
| `Crc16.OddDamageChangesCrc` | packages/codec/src/crc16.ts:7-16 | Two equal-length spans that differ in an odd number of bits have different CRCs. |
| `Crc16.ShiftsLinear` | packages/codec/src/crc16.ts:10-14 | The eight-step reduction is linear over exclusive or. |
| `Crc16.AbsorbInjective` | packages/codec/src/crc16.ts:7-16 | Absorbing a byte is injective on the 16-bit register. |
| `Framer.StreamFramer.Feed` | packages/codec/src/frame.ts:18-27 | A feed returns every frame that can be cut from the buffer plus the chunk and keeps exactly the rest, or fails on a framing violation. |
| `Framer.ChunkingIrrelevant` | packages/codec/src/frame.ts:18-56 | From any waiting buffer, any split of the bytes into chunks gives the same violation verdict and, without one, the same frames and leftover as one feed. |
| `Framer.StreamFraming` | packages/codec/src/frame.ts:18-56 | On an error-free stream in any chunks: frames followed by the leftover are the bytes fed, every frame is well framed, and the leftover is at most the length cap plus 11, or 65 for a pending IMEI. |
| `Framer.DrainConserves` | packages/codec/src/frame.ts:29-56 | Frames and leftover concatenate to the buffer, violation or not: no byte is lost, repeated or moved. |
| `Framer.EmittedFramesAreWellFramed` | packages/codec/src/frame.ts:29-56 | Every frame let through has the exact length its own prefix declares, within the cap. |
| `Framer.LeftoverBounded` | packages/codec/src/frame.ts:29-56 | What waits for more bytes is bounded by the length cap plus 11, or 65 for a pending IMEI. |
| `Framer.DrainUndoesBytesOf` | packages/codec/src/frame.ts:29-56 | Well-framed frames sent one after the other come out as they went in, followed by what the bytes behind them give; only a bare three-byte IMEI frame at the very end waits for a fourth byte. |
| `Framer.ViolationIff` | packages/codec/src/frame.ts:29-56 | Once the length field is there, a stream is refused if and only if no continuation of it starts with a well-framed frame. |
| `Walk.WalkRecords` | packages/codec/src/walk.ts:42-101 | The cursor loops return exactly the recursive split of the region, and fail exactly when it has none. |
| `Walk.SplitIsUnique` | packages/codec/src/walk.ts:42-101 | The walk succeeds with a list if and only if the list concatenates to the region and each member is a record; there is never a second reading. |
| `Walk.RecordPrefix` | packages/codec/src/walk.ts:60-98 | Records are self-delimiting: where one ends does not depend on what follows it. |
| `Extract.ExtractNx8e` | packages/codec/src/walk.ts:108-128 | The loop returns the map of the scanned variable-length elements, and nothing where a read would leave the record. |
| `Extract.Nx8eOnRecord` | packages/codec/src/walk.ts:103-128 | On a walked Codec 8E record the extraction reads nothing outside it and stops exactly at its end. |
| `Extract.ExtractIo16` | packages/codec/src/walk.ts:142-170 | The loops return the map of the scanned Codec 16 elements, or fail as the source does. |
| `Extract.Io16OnRecord` | packages/codec/src/walk.ts:130-170 | On a walked Codec 16 record the scan ends exactly at the end, fails if and only if an id repeats, and otherwise maps each id to its value. |
| `Extract.Io16IsOnTheWire` | packages/codec/src/walk.ts:142-170 | The elements read from a walked Codec 16 record, written out in order as count, two-byte ids and big-endian values of 1, 2, 4 and 8 bytes, are the bytes behind its element count. |
| `Parse.ParsingStaysInRange` | packages/codec/src/parse.ts:14-107 | On every well-framed frame, and whatever the wrapped parser answers, parsing ends in a packet, a CRC error or a frame error and never in a read out of range; an undecodable frame carries the declared count. |
| `Parse.CommandInRange` | packages/codec/src/parse.ts:172-209 | Command frames of any length parse or end in a frame error, never in a range error. |
| `Parse.ParsedRecordsReadTheirOwnBytes` | packages/codec/src/parse.ts:58-107 | In every parsed data frame the raw bytes of the records are, in order, the region between the counts. Each record has the header fields of its own bytes; in Codec 16 also the IO map, event id and generation type of its own bytes, in Codec 8 the wrapped parser's values for its position, in Codec 8E those overridden by the variable-length elements of its own bytes. |
| `Parse.Codec16ParsedIff` | packages/codec/src/parse.ts:58-107 | A Codec 16 frame with a matching CRC parses if and only if both counts agree and the region is that many records with a known priority and distinct IO ids; otherwise it is a frame error. |
| `Parse.CommandParsedIff` | packages/codec/src/parse.ts:172-209 | A command frame with a matching CRC gives a text if and only if it has the documented layout with that text behind the prefix of its codec, and a refusal if and only if it is a Codec 14 frame of type 0x11. |
| `Parse.ImeiParsedIff` | packages/codec/src/parse.ts:15-21 | An IMEI frame gives back the IMEI it carries if and only if that is 8 to 17 digits. |
| `Parse.AdjacentDamageIsCrcError` | packages/codec/src/parse.ts:28-34 | A valid frame whose data span is damaged inside two adjacent bytes is rejected with the CRC error. |
| `Parse.OddDamageIsCrcError` | packages/codec/src/parse.ts:28-34 | So is one damaged in an odd number of bits. |
| `Encode.SortEntries` | packages/codec/src/encode.ts:52-63 | The loop fails exactly when some entry cannot be carried, and otherwise sorts the map into its five groups. |
| `Encode.WriteGroup` | packages/codec/src/encode.ts:70-78 | One fixed-size group is written as its count followed by its elements in order. |
| `Encode.WriteNx` | packages/codec/src/encode.ts:79-92 | The variable-length group is written as its count followed by id, length and payload of each element. |
| `Encode.EncodeRecord` | packages/codec/src/encode.ts:41-94 | A record is encoded if and only if every field fits its width and every entry its group; the bytes are the specified layout. |
| `CodecRoundTrip.EncodedRecordIsRecord` | packages/codec/src/encode.ts:41-94 | Every encoded record is one record to the walker, N counting the variable-length elements. |
| `CodecRoundTrip.BodySplits` | packages/codec/src/walk.ts:42-101 | The walker splits an encoded body into exactly the per-record encodings. |
| `CodecRoundTrip.PacketRoundTrip` | packages/codec/src/encode.ts:23-39 | An encodable packet within the cap frames as exactly one frame, which passes the length, CRC and count checks and reads back field by field, whatever the wrapped parser answers for the IO values. |
| `CodecRoundTrip.CleanPacketRoundTrip` | packages/codec/src/parse.ts:58-107 | If the wrapped parser decodes every value, parsing yields every record with its original fields, event id and raw bytes, and in Codec 8E all variable-length elements. |
| `CodecRoundTrip.NxMapIsExact` | packages/codec/src/encode.ts:54-61 | The variable-length map read back holds a payload under an id if and only if the record was given it. |
| `CodecRoundTrip.NumbersAreOnTheWire` | packages/codec/src/encode.ts:65-78 | Whatever the wrapped parser makes of them, the fixed-size groups of an encoded record, read as documented, hold exactly the numbers that went in, each under its id, followed by the variable-length group. |
| `CodecRoundTrip.FixedGroupsReadBack` | packages/codec/src/encode.ts:70-78 | In wire order they are the one-, two-, four- and eight-byte numbers, each group in the order of the map. |
| `Codec12.DecodeUndoesEncode` | packages/codec/src/codec12.ts:11-29 | Decoding an encoded command gives back its code units, each reduced to its low byte. |
| `Codec12.RoundTripIffOneByteCharacters` | packages/codec/src/codec12.ts:11-29 | The command comes back unchanged if and only if every code unit is at most 0xFF. |
| `Codec12.CommandFramed` | packages/codec/src/codec12.ts:11-21 | An encoded command within the cap is exactly one frame to the framer. |
| `Udp.HeaderRoundTrip` | packages/codec/src/udp.ts:42-59 | Decoding a datagram of the documented layout gives back both packet ids, the IMEI and the AVL data. |
| `Udp.DecodedIsDatagram` | packages/codec/src/udp.ts:42-59 | Every datagram that decodes has that layout with the decoded fields, up to the high bits of its IMEI bytes and the unused byte. |
| `Udp.ValidFrameIsWrapped` | packages/codec/src/udp.ts:79-85 | Re-wrapping the data span of any CRC-valid TCP frame gives that frame back byte for byte. |
| `Udp.UdpAgreesWithTcp` | packages/codec/src/udp.ts:67-85 | For every CRC-valid TCP frame, parsing its span as UDP equals parsing the frame if and only if the span is not the two-byte empty AVL field. |
| `Ingest.Session.PersistAvlBatch` | apps/ingest/src/persist.ts:47-99 | Diverted records are appended to `rejects` before the sane ones to the shard stream, and the count is the number of confirmed appends, however each of them ends. |
| `Ingest.Session.HandleStreamFrame` | apps/ingest/src/session.ts:269-389 | A frame takes effect as specified: what it persists, parks or pushes comes before its ACK, and every write may fail before or after taking effect. An AVL packet of the mapped device is answered with the number of positions below its record count whose append was confirmed, a frame that is certainly parked with its declared count, a CRC or frame error with zero, anything else not at all; and exactly the listed cases end the session. |
| `Ingest.Session.HandleFrames` | apps/ingest/src/session.ts:150-154 | Frames are handled in order until the socket dies. |
| `Ingest.HandlingIsRight` | apps/ingest/src/session.ts:269-389 | The same answer and the same end of the session for the function that the theorems on journals are about. |
| `Ingest.FullAckIff` | apps/ingest/src/session.ts:372-383 | The right answer to an AVL packet is the count its frame declares if and only if every append was confirmed. |
| `Ingest.EveryFrameIsAnswered` | apps/ingest/src/session.ts:269-389 | Every frame a session comes to is answered in its journal, with exactly the right number. |
| `Ingest.KeptIsExact` | apps/ingest/src/session.ts:269-389 | A frame leaves one append of its own per position that was not refused, the parked frame or the pushed response unless refused, and nothing if it is corrupt or the device is not the session's. |
| `Ingest.RecordGoesTo` | apps/ingest/src/persist.ts:25-29 | A record is streamed with the time of its arrival if and only if its fix time is in the window and its position on earth; otherwise it is diverted, a bad fix time being named before a bad position. |
| `Ingest.SelectedKeepsOrder` | apps/ingest/src/persist.ts:57-98 | The diverted and the sane records each keep the order of the packet. |
| `Ingest.EffectsAreExact` | apps/ingest/src/persist.ts:57-98 | What takes effect is every append that was not refused, answered or not, and nothing more. |
| `Ingest.BatchKept` | apps/ingest/src/persist.ts:47-99 | If every append is confirmed, every record is on the shard stream or in `rejects`. |
| `Ingest.EveryAckIsJustified` | apps/ingest/src/session.ts:269-389 | In every session each ACK answers one of its frames: before it stand the events of the frames before that one and then what was kept of it, which is at least as many of its records as the ACK claims, or the parked frame. |
| `Ingest.DroppedPacketIsKept` | apps/ingest/src/session.ts:372-383 | Whenever the ACK that answers a frame equals the count the frame declares, every record of that frame is already on the shard stream or in `rejects`, or the frame is parked. |
| `Ingest.ParsedCountIsDeclared` | packages/codec/src/parse.ts:58-107 | A parsed AVL packet has exactly as many records as its frame declares. |
| `Ingest.FullAckMeansKept` | apps/ingest/src/session.ts:269-389 | A justified ACK of the declared count leaves no record of the frame out. |
| `Ingest.AllKept` | apps/ingest/src/persist.ts:57-98 | As many effects as records, each on account of its own append, leave none of the records out. |
| `Ingest.BatchIsDelivery` | apps/ingest/src/persist.ts:47-99 | The row keys a batch streams are the keys of its sane records whose append took effect. |
| `Ingest.ResendsChangeNothing` | apps/ingest/src/persist.ts:47-99 | Any sequence of partial deliveries, splits and resends that covers the packet streams the same row keys as one delivery at the last time. |
| `Ingest.VerdictsAgreeIff` | apps/ingest/src/persist.ts:25-29 | One delivery at an earlier and one at a later time make the same rows if and only if no record is ahead of the earlier window only. |
| `Ingest.DivertedThenStreamed` | apps/ingest/src/persist.ts:25-29 | Such a record exists. |
| `Ingest.LastWholeResendCovers` | apps/ingest/src/persist.ts:37-46 | Ending with one whole-packet delivery whose appends all take effect is enough to cover the packet. |
| `Ingest.ExactlyOnceRows` | apps/worker/src/consumer.ts:302-385 | Ingest and worker composed, for one device of a shared shard: once its entries are delivered, off the pending list and not evicted, the rows of the device are rows of one delivery, all of them except quarantined ones, and exactly them if none was quarantined. |
| `Pipeline.StepKeeps` | apps/worker/src/consumer.ts:198-385 | Every command, trim, insert, failure and crash keeps the invariant of the stream, pending list, dead letters and table. |
| `Pipeline.PendingEntriesLeaveAccountedFor` | apps/worker/src/consumer.ts:198-385 | In every run a delivered entry that is no longer pending is stored or quarantined, or was trimmed and then counted, is about to be counted, or was cut off from its count. |
| `Pipeline.LeavingStepIsJustified` | apps/worker/src/consumer.ts:198-385 | At the very step that removes an entry from the pending list, its row is in the table, its bytes are in the dead-letter stream, or the stream no longer has it. |
| `Pipeline.NothingLostUntrimmed` | apps/worker/src/consumer.ts:198-385 | An entry the stream still has leaves the pending list only stored or quarantined. |
| `Pipeline.PendingEntryCanBeSettled` | apps/worker/src/consumer.ts:198-385 | From every state that keeps the invariant, any worker has a way to take over any pending entry the stream still holds, to its row or its quarantined bytes, and off the pending list. |
| `Pipeline.NewEntriesAreProcessed` | apps/worker/src/consumer.ts:253-300 | A read of new entries delivers exactly those between the last delivered and the last read, makes them the worker's, and starts processing them. |
| `Pipeline.OwnEntriesAreProcessed` | apps/worker/src/consumer.ts:253-300 | A re-read of own entries leads to the processing of exactly those the stream still holds, its tombstones counted and off the list. |
| `Pipeline.ClaimedEntriesAreProcessed` | apps/worker/src/consumer.ts:198-240 | An autoclaim leads to the processing of exactly what it claimed, with what it dropped counted. |
| `Pipeline.DeliveredExactly` | apps/worker/src/consumer.ts:302-385 | When all is delivered and settled without trimming, every entry is stored or quarantined, the table holds no other key, and without quarantine holds them all. |
| `Pipeline.ReachesKeeps` | apps/worker/src/consumer.ts:198-385 | Every stretch of steps keeps the invariant, so no entry leaves the pending list unsettled in it. |
| `Pipeline.BisectionIsInsertSteps` | apps/worker/src/consumer.ts:400-435 | The outcome the bisecting insert is proved to have is a legal insert step of the pipeline, and a failed one only commits keys of the batch. |
| `Pipeline.UntracedIsCutOff` | apps/worker/src/consumer.ts:230-237 | An entry gone without a trace was cut off from its count by a crash or a lost reply. |
| `Pipeline.CutOffLosesTrace` | apps/worker/src/consumer.ts:288-298 | Every such cut loses the trace of an entry that has no other. |
| `Pipeline.LostIsCutOff` | apps/worker/src/consumer.ts:198-300 | The entries recorded as lost are exactly those cut off by some step of the run. |
| `Pipeline.AnEvictionCanGoUncounted` | apps/worker/src/consumer.ts:288-298 | Such a run exists. |
| `Consumer.BatchProcessor.Decode` | apps/worker/src/consumer.ts:303-340 | The two loops separate the malformed entries, decode failures first, from the rows, and remember each payload. |
| `Consumer.BatchProcessor.Quarantine` | apps/worker/src/consumer.ts:341-353 | Malformed entries are appended to the dead-letter stream in order and acknowledged one after the other; a failure in between acknowledges nothing that is not appended. |
| `Consumer.BatchProcessor.Process` | apps/worker/src/consumer.ts:302-385 | A batch is a stretch of steps of the pipeline however it ends, with every Redis pipeline, the database and the hand-off failing at any point; when it returns, its whole effect on table, pending list, dead letters, hand-off and counters, and when it throws, what it can have left behind. |
| `Consumer.BatchProcessor.ProcessRows` | apps/worker/src/consumer.ts:356-384 | The same for the rows of the batch: insert, quarantine of the rejected, hand-off, acknowledgement. |
| `Consumer.BatchInPipeline` | apps/worker/src/consumer.ts:302-340 | What decoding finds in a batch is what the pipeline step that starts processing it works on. |
| `Consumer.BatchDoneBySteps` | apps/worker/src/consumer.ts:302-385 | The effects of quarantining the malformed entries and of processing the rows add up to the effect promised for the batch. |
| `Consumer.EntriesSplit` | apps/worker/src/consumer.ts:315-340 | An entry is malformed if and only if it has no row, and each row belongs to an entry. |
| `Consumer.DecodableSuffices` | apps/worker/src/consumer.ts:329-340 | Normalizing only what was decoded finds the same rows and the same failures as normalizing the batch. |
| `Consumer.SortedIsOrderedPermutation` | apps/worker/src/consumer.ts:356-357 | Sorting a batch orders it by fix time and permutes it. |
| `Consumer.SortedIsStable` | apps/worker/src/consumer.ts:356-357 | Rows of equal fix time keep the order in which they came. |
| `Consumer.HandedOffInOrder` | apps/worker/src/consumer.ts:356-378 | What is handed downstream is exactly the acceptable rows, in fix-time order, and in their order of arrival where fix times are equal. |
| `Consumer.ProcessedEntriesAreSettled` | apps/worker/src/consumer.ts:302-385 | The effects of a successful batch settle each entry: not pending, and its row is in the table or its original bytes are in the dead-letter stream. |
| `Positions.WritePositions` | apps/worker/src/writer.ts:32-67 | Success inserts every key and returns the exact growth; a rejection means some row is bad and leaves exactly the chunks before the first rejected one; any other failure is an outage of the database during the call. |
| `Positions.Write` | apps/worker/src/consumer.ts:407-425 | The recursion adds exactly the good rows, collects exactly the bad ones in order, and reports the growth less `Lost`, for any number of rows; an outage aborts it. |
| `Positions.WriteHalves` | apps/worker/src/consumer.ts:422-423 | Both halves are written and their results add up. |
| `Positions.WriteIsolatingBadRows` | apps/worker/src/consumer.ts:400-435 | The kept rows are the good ones, the rejected rows the bad ones, both in order, and the table grows by the good keys. |
| `Positions.IsolateWithinBudget` | apps/worker/src/consumer.ts:400-435 | Without an outage, a batch of 1 to 500 rows with b bad ones costs at most 1 + 2·b·⌈log2 n⌉ statements and reports growth exactly. |
| `Positions.StatementsBounded` | apps/worker/src/consumer.ts:397 | The statement count of the bisection is within that bound for any n, and one statement when no row is bad. |
| `Positions.CeilLog2IsLogarithm` | apps/worker/src/consumer.ts:397 | The logarithm in the bound is the least power of two that reaches n. |
| `Positions.OneChunkLosesNothing` | apps/worker/src/writer.ts:32-67 | For at most 500 rows nothing is lost from the report, however they are bisected. |
| `Positions.TwoChunksReportedIff` | apps/worker/src/writer.ts:34-64 | For up to 1000 rows the report is exact if and only if all rows are acceptable, or one of the first 500 is not, or the first 500 hold no new key. |
| `Positions.LaterChunkLosesCount` | apps/worker/src/writer.ts:34-64 | A batch of 501 rows whose growth is not reported. |
| `Positions.HalvesBad` | apps/worker/src/consumer.ts:422-423 | Splitting a batch anywhere splits its good and its bad rows in order. |
| `Positions.FilterKeepsGood` | apps/worker/src/consumer.ts:434 | Filtering out the collected rows leaves the good ones. |
| `Drain.ShardLoop.ReadOwn` | apps/worker/src/consumer.ts:253-300 | A read of the own pending list returns its live entries and removes exactly its tombstones, whether the acknowledgement fails before or after it lands. |
| `Drain.ShardLoop.Turn` | apps/worker/src/consumer.ts:157-195 | One pass of the loop is the specified pass, whichever of its reads, acknowledgements, fence checks and batches fails, and it stops the consumer if and only if a fence check it came to found the lease lost. |
| `Drain.StopsIffFoundLost` | apps/worker/src/consumer.ts:143-195 | The specified pass lowers the running flag if and only if the lease was found lost before a batch the pass came to: its own entries, the autoclaimed ones behind them, or the new ones behind a clean autoclaim. |
| `Drain.LostLeaseTouchesNothing` | apps/worker/src/consumer.ts:165-188 | Then no live entry, of that batch or any other, has left the own list, what was just claimed or read stays on it, and no read of new entries follows. |
| `Drain.RunEndsWithTheLease` | apps/worker/src/consumer.ts:143-195 | A run of passes ends with the pass that finds the lease lost, and its consumer stops for no other reason. |
| `Drain.LeavesIffSettled` | apps/worker/src/consumer.ts:157-195 | In every pass an entry leaves the own list if and only if it is a tombstone whose acknowledgement lands or was processed behind a fence that held. |
| `Drain.PassFlags` | apps/worker/src/consumer.ts:157-195 | New entries are read exactly behind a clean autoclaim, and the consumer turns to its own entries next exactly after a failure or a batch of them. |
| `Drain.ShardLoop.DrainOwn` | apps/worker/src/consumer.ts:150-196 | Error-free, the own-pending phase ends within one pass more than the list is long, with exactly one read of new entries, leaving what was predicted from the start. |
| `Drain.LiveTurnShrinks` | apps/worker/src/consumer.ts:160-170 | An error-free pass strictly shrinks the pending list or ends the phase, and never both reads new entries and stays in it. |
| `Drain.NewReadsFollowADrain` | apps/worker/src/consumer.ts:157-195 | In every run, with any faults and peers taking entries over, no new entry is read after the start or after a failing pass before a re-read of the own pending entries has come back without a live one. |
| `Drain.PhaseEnds` | apps/worker/src/consumer.ts:150-196 | Until that re-read, no new read happens and the passes that go through, however many fail in between, are at most as many as the list was long. |
| `Drain.ExitLeavesLiveIff` | apps/worker/src/consumer.ts:161-164 | The phase ends with a live entry pending if and only if a full COUNT of tombstones leads the list and a live entry follows. |
| `Drain.LiveEntryLeftPending` | apps/worker/src/consumer.ts:161-164 | A list on which that happens. |
| `Lease.ShardLeaser.TryClaim` | apps/worker/src/shards.ts:64-71 | A claim succeeds exactly when no live lease exists, and changes no other key. |
| `Lease.ShardLeaser.Tick` | apps/worker/src/shards.ts:82-98 | An owned shard whose command was not refused has, if its key was held, a key of this worker that expires one TTL from now, and is lost otherwise; any other shard is claimed exactly if its key has expired. One whose command fails stays owned or not, whether the command took effect or not; the callbacks name exactly what changed, and no live lease of a peer is moved. |
| `Lease.TickShardIsStep` | apps/worker/src/shards.ts:82-98 | What a tick does to a shard is a renewal or a claim of the transition system, and the shard is owned afterwards if and only if that step has just set the expiry. |
| `Lease.TimelyRenewalsKeepLeaseIff` | apps/worker/src/shards.ts:24-98 | In every run in which the renewals of a worker come less than a TTL apart, it holds its lease throughout and no tick of it reports the shard lost, if and only if no release deletes the key in between. |
| `Lease.LateRenewalLosesLease` | apps/worker/src/shards.ts:85-90 | A renewal finds the lease lost if and only if it comes a TTL or more after the last one. |
| `Lease.UnconfirmedClaimBlocksUntilExpiry` | apps/worker/src/shards.ts:91-96 | After a claim that took effect without its reply, a tick of any worker leaves the key as it is and the shard unowned if and only if the key has not expired. |
| `Lease.ShardLeaser.GiveUp` | apps/worker/src/shards.ts:105-109 | The shard is no longer owned, and its key is deleted exactly when this worker holds it. |
| `Lease.ShardLeaser.ReleaseLeases` | apps/worker/src/shards.ts:122-128 | Every owned lease still held is deleted, every other key is kept, and nothing is owned. |
| `Lease.OnlyTheHolderMovesALease` | apps/worker/src/shards.ts:24-128 | In every run with unsplit releases a live lease changes only by its holder's renewal, which extends it by one TTL, or its holder's release. |
| `Lease.DeleteUncoversIff` | apps/worker/src/shards.ts:105-128 | A step leaves some in-time batch without its worker's lease if and only if it is a DEL while a batch is in time. |
| `Lease.UncoveredMeansDoubleProcessing` | apps/worker/src/consumer.ts:129-133 | From every reachable state with such a batch, two workers applying batches in time at once can be reached. |
| `Lease.KeyOutlastsBatches` | apps/worker/src/shards.ts:64-98 | In every run no batch is in time for longer than the key in force lives, whoever holds it. |
| `Lease.FenceIsExclusive` | apps/worker/src/consumer.ts:129-133 | In every run without such a DEL, while a batch is within the expiry in force at its fence check no other worker passes the fence or has a batch in time. |
| `Lease.OrderlyReleasesKeepFenceExclusive` | apps/worker/src/shards.ts:111-128 | The same for runs whose releases are not split by another step and come after the releaser's batches. |
| `Lease.SplitReleaseBreaksExclusivity` | apps/worker/src/shards.ts:107-108 | A run in which an expiry splits GET and DEL ends with two workers processing one shard in time. |
| `Lease.EarlyReleaseBreaksExclusivity` | apps/worker/src/shards.ts:118-121 | So does one in which a worker releases under its own batch. |
| `ShardOps.StepKeeps` | apps/worker/src/main.ts:96-151 | Every callback and every step of a queued operation keeps the invariant of consumers, maps and queue. |
| `ShardOps.AtMostOneRuns` | apps/worker/src/main.ts:803-835 | In every run at most one consumer of the shard has its running flag set, and it is the mapped one. |
| `ShardOps.MappedMeansRunning` | apps/worker/src/main.ts:106-130 | Whenever the queue is empty the mapped consumer is running, and without one none is. |
| `ShardOps.MappedIffStartedLast` | apps/worker/src/main.ts:96-151 | Whenever the queue is empty the shard has its consumer if and only if some gained lease was followed by no lost one, no fence callback and no failed start with nothing waiting behind it. |
| `ShardOps.HeldLeaseKeepsItsConsumerIff` | apps/worker/src/main.ts:532-536 | After a gained lease with successful starts, the consumer is there if and only if no lease was lost and no fence callback came since. |
| `ShardOps.LeakedIffStopCutShort` | apps/worker/src/main.ts:106-130 | In every run a connection is left open if and only if a stop of its consumer was cut short by the loop it waited for failing to open, and no later stop closed what was left in the map. |
| `ShardOps.NoOtherConnectionLeaks` | apps/worker/src/main.ts:124-130 | Whenever the queue is empty every open connection is the mapped consumer's or such a left-over. |
| `ShardOps.StopCutShortLeaks` | apps/worker/src/main.ts:114-116 | Such a left-over beside a running successor is reachable. |
| `ShardOps.LateFenceStopsSuccessor` | apps/worker/src/main.ts:532-536 | A reachable state in which the fence callback of an earlier consumer stops its healthy successor. |
| `ShardOps.QueueRunsEmpty` | apps/worker/src/main.ts:96-151 | However starts and stops have piled up, the chain can work all of them off, within three steps each. |
| `LiveState.NewestPerDevice` | apps/worker/src/liveState.ts:22-29 | The loop finds, per device, the first record of greatest fix time. |
| `LiveState.LiveMarkers.ApplyOne` | apps/worker/src/liveState.ts:61-135 | The command sequence leaves the hash as specified and no other device's. |
| `LiveState.LiveMarkers.Apply` | apps/worker/src/liveState.ts:21-59 | Each device of the batch has its newest record applied, and every other hash is unchanged. |
| `LiveState.CommandsCompute` | apps/worker/src/liveState.ts:61-135 | Executed one by one without interference, the commands of the interleaving model compute the same hash. |
| `LiveState.AppliedFields` | apps/worker/src/liveState.ts:61-135 | A whole call notes contact always, a skewed clock without moving anything, and moves the marker exactly for a newer record with a trusted clock, whose own position becomes the last fix if it has one and the previous last fix stays if not. |
| `LiveState.LastFixIsReal` | apps/worker/src/liveState.ts:99-131 | In every run, with any failures, the last fix shown is the one at the start or the position of some call's placeable record with a trusted clock. |
| `LiveState.OneCallRunsAtATime` | apps/worker/src/liveState.ts:33-51 | In every interleaving of calls at most one call executes commands for a device, failed predecessors included. |
| `LiveState.MarkerNeverGoesBack` | apps/worker/src/liveState.ts:83-131 | In every run, with commands failing before or after they take effect, the marker never decreases, `lastFix` never disappears or goes back in time, and it is never newer than the marker. |
| `LiveState.MarkerIsLatestCompared` | apps/worker/src/liveState.ts:21-135 | After any interleaving of successful calls, skewed or not, the marker is the maximum of the old one and the newest records of the batches whose newest record is not skewed. |
| `LiveState.MarkerIsLatestTrustedIff` | apps/worker/src/liveState.ts:21-135 | It is the maximum over all trusted records if and only if none hidden behind a skewed one is newer than what was compared. |
| `LiveState.MarkerIsMaximum` | apps/worker/src/liveState.ts:21-135 | Without skewed records it is the maximum of the old one and every fix time, however records were batched and ordered. |
| `LiveState.BatchReachesMaximumIff` | apps/worker/src/liveState.ts:24-29 | One call brings the marker to the maximum of its batch if and only if the newest record is trusted or no trusted record is newer than the marker. |
| `LiveState.SkewMasksItsBatch` | apps/worker/src/liveState.ts:77-82 | A good record beside a skewed one does not move the marker that it moves alone. |
| `AvlTables.AvlTableCache.ResolveBatch` | apps/worker/src/avlTableCache.ts:57-120 | Every requested device is answered, each cache entry is refreshed as specified and independently of the rest, and reports are exactly those due. |
| `AvlTables.CacheFollowsHistory` | apps/worker/src/avlTableCache.ts:57-120 | After any history of calls the cache holds, per device, what the calls naming that device alone determine. |
| `AvlTables.ServedIsLastGood` | apps/worker/src/avlTableCache.ts:57-120 | A served table was read at an earlier or the same call, with no answered read of that device a TTL later, or is the fallback of a device Redis never answered for. |
| `AvlTables.ServedIsShipped` | apps/worker/src/avlTableCache.ts:123-151 | Every served table is one the codec ships, whatever Redis contains. |
| `AvlTables.TableIsNamed` | apps/worker/src/avlTableCache.ts:123-151 | A device has a table without a fallback if and only if its configuration names one, by a model code in any case or else by a table that ships; a fallback carries the reason of the step that failed. |
| `AvlTables.AsksAreSpaced` | apps/worker/src/avlTableCache.ts:57-70 | While Redis answers, a device is asked for at most once per TTL. |
| `AvlTables.ReportsAreSpaced` | apps/worker/src/avlTableCache.ts:85-94 | Two reports for a once-cached device are at least a TTL apart, through outages. |
| `AvlTables.FallbackIsReported` | apps/worker/src/avlTableCache.ts:74-94 | A stale device that ends up on the fallback is reported now, or was less than a TTL ago. |
| `Limits.HandshakeRateLimiter.Allow` | apps/ingest/src/limits.ts:39-77 | A request is decided and counted as specified, and no other address is touched. |
| `Limits.HandshakeRateLimiter.Sweep` | apps/ingest/src/limits.ts:39-77 | A sweep removes exactly the addresses whose window is over. |
| `Limits.AdmittedIff` | apps/ingest/src/limits.ts:48-67 | After any history a request is admitted if and only if its address is tracked or there is room, and the admissions of this clock minute and the decayed share of the minute before are below the maximum. |
| `Limits.AtMostMaxPerClockMinute` | apps/ingest/src/limits.ts:39-77 | With a nondecreasing clock at most the maximum is admitted per address and clock minute. |
| `Limits.AtMostTwiceMaxPerWindow` | apps/ingest/src/limits.ts:39-77 | And at most twice the maximum in any 60 seconds. |
| `Limits.TwiceIsReached` | apps/ingest/src/limits.ts:39-77 | Twice the maximum is attained for every maximum below 30 000. |
| `Limits.TwiceIsMissed` | apps/ingest/src/limits.ts:39-77 | And for no maximum from 30 000 on. |
| `Limits.TrackedAddressesCapped` | apps/ingest/src/limits.ts:39-77 | Never more addresses are tracked than the cap, even if the clock goes back. |
| `Limits.SweepsDecideNothing` | apps/ingest/src/limits.ts:39-77 | Below the cap, two histories with the same requests and sweeps anywhere give the same answers. |
| `Normalize.AmbiguousInTable` | apps/worker/src/normalize.ts:76-85 | The loops return exactly the ids whose name another id of the dictionary shares. |
| `Normalize.NormalizeIo` | apps/worker/src/normalize.ts:211-247 | The loop folds the elements into columns and attributes as specified. |
| `Normalize.OwnKeyInjective` | apps/worker/src/normalize.ts:227-234 | Without a clash, distinct ids have distinct keys. |
| `Normalize.NoIoNamesNoClash` | apps/worker/src/normalize.ts:227-234 | A dictionary with no name of the form `io_<n>` has no clash. |
| `Normalize.OrderIsIrrelevantIff` | apps/worker/src/normalize.ts:216-247 | Every permutation of every list of elements with distinct ids gives the same columns and attributes if and only if the dictionary has no clash. |
| `Normalize.NothingIsLost` | apps/worker/src/normalize.ts:216-247 | Without a clash every element that is not promoted to a column is stored, read as the dictionary says, under a key no other element has. |
| `Normalize.ListedElementStored` | apps/worker/src/normalize.ts:227-245 | Without a clash an element the dictionary lists is stored under its name if no other row has that name, it is not one of the forced fuel ids and no object answers to it, and under `io_<id>` otherwise; a number as its row reads it, as text beyond the safe integers, and bytes as hex. |
| `Normalize.UnlistedElementStored` | apps/worker/src/normalize.ts:227-245 | One it does not list is stored under `io_<id>` as sent. |
| `Normalize.ColumnsDescribed` | apps/worker/src/normalize.ts:216-225 | Ignition, movement and odometer hold what was sent for their ids, an odometer outside the 64-bit range nothing. |
| `Normalize.OdometerIsFirstSoNamed` | apps/worker/src/normalize.ts:28-34 | The odometer column is that of the first dictionary row called Total Odometer. |
| `Normalize.ClashLosesAnElement` | apps/worker/src/normalize.ts:233-234 | With a clash one order of two elements overwrites the first and the other keeps both. |
| `Normalize.IoNamesLoseElements` | apps/worker/src/normalize.ts:233-234 | A concrete dictionary and message with that effect. |
| `Auth.StepKeeps` | packages/db/src/auth.ts:245-302 | Every statement, commit, abort and loose write keeps the invariant of rows, locks, transactions and evictions. |
| `Auth.EvictedTokensStayDead` | packages/db/src/auth.ts:266-302 | In every interleaving, once an eviction commits, every token descended by rotation from a token its sweep could see is dead for good. |
| `Auth.EpochStopsOlderParents` | packages/db/src/auth.ts:288-297 | While no eviction sets the epoch back, a token an eviction did not cover descends only from parents minted after it. |
| `Auth.OneSuccessor` | packages/db/src/auth.ts:275-302 | In every interleaving, whatever families logins open, no token ever has two successors. |
| `Auth.OneUnrotatedTokenIff` | packages/db/src/auth.ts:245-302 | Throughout a run every family has at most one unrotated token if and only if no create went into a family with such a token. |
| `Auth.FreshFamiliesSuffice` | packages/db/src/auth.ts:245-247 | Logins that open fresh families keep to that. |
| `Auth.RotationSpendsItsToken` | packages/db/src/auth.ts:289-301 | The commit of a rotation that claimed its token mints if and only if the token is younger than the last eviction of its user, and spends the token either way; what it mints is a successor of the same user and family with the requested times, live until it expires. |
| `Auth.SuccessorIsLive` | packages/db/src/auth.ts:298-300 | A minted successor has the user, the family and the times it should, authenticates at every time before its expiry, and besides the rotated one no other row changes. |
| `Auth.LoginIsLive` | packages/db/src/auth.ts:245-247 | So does the token of a login. |
| `Auth.LiveUntilEnded` | packages/db/src/auth.ts:245-302 | In every run such a token authenticates at a time if and only if that is before its expiry and no step since has ended it: a commit of its rotation or of a sweep of its user, a claim, a revocation of its family, a purge. |
| `Auth.UnspentUntilEnded` | packages/db/src/auth.ts:245-302 | In every run an unspent row stays as it is, field by field, if and only if no step ends it. |
| `Auth.StepOnToken` | packages/db/src/auth.ts:245-302 | Each step leaves an unspent row as it is or is one of those; a sweep ends only tokens of its own user. |
| `Auth.EvictionCoversItsUser` | packages/db/src/auth.ts:266-274 | A sweep covers every token its user ever had committed when it starts; its commit revokes those in the table, stamps the epoch, and leaves every other row alone. |
| `Auth.ClaimIff` | packages/db/src/auth.ts:289-295 | The claim of a rotation goes through if and only if the row is there, unrotated, unrevoked and not expired, and writes nothing before the commit. |
| `Auth.LiveTokenCanBeRotated` | packages/db/src/auth.ts:275-302 | From every reachable quiet database a live token younger than the last eviction of its user can be rotated into a successor that is live until it expires. |
| `Auth.RefusalReachable` | packages/db/src/auth.ts:296-297 | A rotation that is refused is reachable: the token of a login whose clock is behind that of the eviction. |
| `Auth.NoWaitingChain` | packages/db/src/auth.ts:281-287 | A waiting transaction holds nothing and what it waits for waits for nobody: rotations and evictions cannot wait in a cycle. |
| `Auth.ReachableOk` | packages/db/src/auth.ts:245-302 | The invariant holds in every state of every run. |

## Left out

- The decode of the `complete-teltonika-parser` package: the parameter `Lib`, an arbitrary function from bytes to an answer.
- CBOR and JSON encoding, and xxhash: payloads are datatypes, hashes an arbitrary function; nothing depends on absence of collisions.
- Floating point: coordinates are scaled integers, and the limiter's weighted estimate is compared by exact integer arithmetic.
- `Extract.ExtractNx8e`: on bytes that are not a walked record it mirrors the source, which clamps a payload cut off by the end; only walked records are claimed to be read in full.
- `Encode.EncodeRecord`: `writeUIntBE` and its relatives are modelled as failing exactly outside their range; the distinct error classes are one failure.
- The bytes of the ACKs and the UDP listener: fixed layouts without branching.
- `Ingest.Session.HandleStreamFrame`: the IMEI handshake, idle timers and metrics around it are not modelled; the depth check and the command delivery after an ACK are one parameter, whether the session survives them.
- `Ingest.ExactlyOnceRows`: entries of the device that are trimmed before they are worked off are outside it.
- `Pipeline.PendingEntriesLeaveAccountedFor`: pipelined commands run in order and none is refused individually, because their results are not inspected; the cap of the dead-letter stream is not modelled.
- `Pipeline.StepKeeps`: workers need no lease here, so it holds for any number of workers on one shard at any time; `Lease` says when there is only one.
- `Consumer.BatchProcessor.Process`: fails in order, each pipeline after a prefix of its commands; dictionary tables and the hash are fixed in the parameter `decode`; the normalizer's IO part is in `Normalize`.
- `Drain.ShardLoop.Turn`: the 30-second gate of the autoclaim is a fault parameter, and `tick()`, an entry point for tests, is not modelled.
- `Lease.FenceIsExclusive`: one shard, with time and expiry as Redis sees them; a batch that outlives the expiry in force at its fence check is not claimed exclusive.
- `ShardOps.AtMostOneRuns`: one shard of one process. A loop that fails to open before any stop rejects unhandled, which ends the process; no step follows it.
- `LiveState.MarkerIsLatestCompared`: calls in one process only.
- `Limits.HandshakeRateLimiter.Allow`: `IpLimiter` and `GlobalRateLimiter` beside it are single counters with one comparison.
- `Normalize.NormalizeIo`: `applySign` is the parameter `read` of a dictionary row; range checks of the remaining columns, the dictionary file and the off-sphere clamp are not modelled.
- `Auth.StepKeeps`: `revokeFamily` and pruning are single steps, hashes of successors are fresh, and password-reset, verification and affiliate tokens are not modelled; the comments at `packages/db/src/auth.ts:319-320` and `packages/db/src/auth.ts:349-353`, that returning null rolls a claim back, concern those.
- Trips, geofences, rules, commands, recompute, billing, e-mail and all user interfaces.
