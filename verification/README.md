# The path of a sensor sample, verified

This project models how samples travel through the `core` stack and proves what happens to them on the way.

A *master* lays out named ring buffers in one shared-memory segment, and every *client* derives that layout again by
walking the segment. A *writer* drains a queue of samples into its ring, field by field. *Readers* read the ring
without locks and trust a frame if its checksum matches. The *logger* follows every ring with a cursor (slot and
sequence number), prints the samples as JSON with base64 payloads, and skips ahead when it is overtaken. The *log
reader* parses those messages with its own text search. Beside this path stand three numerical cores of the Python
side: the least-squares *clock anchor*, the *activity filter* for event cameras, and the live view's *statistics*.

## How the model is built

- `MachineInts` and `LittleEndian` hold the fixed-width integers, modular arithmetic and bytes in memory.
- `RingArithmetic` is the `uint32` arithmetic of `get_head` and of the logger's backlog, conversions included.
- `RingSpec` says what a ring holds after a publish history and what a reader gets from it. `SharedMemoryRing` is the
  ring itself, with publish and reads as methods on its slots. `DictWriter` adds the queue, the stop flag and the worker.
- `RingInterleaving` breaks publish and both reads into single loads and stores and lets them interleave in any order.
  `RingRefinement` connects the two granularities.
- `StreamLogger` is `_process_stream`. The rest of the system is an *environment* that answers the reads and writes of
  a stream, one answer per operation. What holds in every environment is kept apart from what holds when a ring, driven
  by a writer that publishes at any time between reads, gives the answers. `Cursor` is the state as a value with its
  log and a record of its jumps; `SensorStream` is the object that updates it. `InterleavedReads` puts the logger on top
  of the small steps: publishes may come between any two loads of its reads.
- `Base64`, `JsonText`, `JsonFields`, `CameraPayload`, `CameraLog` and `EventPayload` are the printers, scanners,
  decoders and their round trips. `LogReading` reads a whole log file. `EventBatches` cuts event batches into frames
  and back.
- `ShmLayout`, `ShmClient` and `ShmSoundness` are the segment, byte by byte.
- `Recording` joins ring, cursor and codecs: from published frames to what is read back from the log.
- `ClockAnchoring`, `ClockOptimality` and `ClockExactness`, `EventDenoise`, `RunningStatistics` and `SensorTracking` are
  the Python cores.

Code that changes state step by step is a method, on a class where the source has an object; it is proved equal to a
function, and the theorems are about that function.

## Assumptions

- Memory is sequentially consistent. The checksum is any function; all that is asked of it is that a slot that was never
  written (all zero) fails its test.
- A writer that is stopped with entries queued has found its buffer, which the worker then uses without asking.
- Clocks, JPEG encoding, time mapping, the log file's write status and the moments at which threads run are parameters.
- Floating-point numbers are exact reals. Bytes are little-endian. Strings of the C++ side are strings of bytes.
- Sequence numbers of logged streams stay below 2^32 - 1. A ring has at least one slot, at most 2^31 (a segment below 2^32
  bytes has room for fewer than 2^28), and frames of at least one byte.

## Where the code differs from what it promises

- `get_head(1)` is meant to be the slot before the head. With the head at slot 0 the `uint32` conversion gives that slot
  exactly when the number of slots divides 2^32 (`RingArithmetic.GetHeadAcrossWrap`). Otherwise `read_latest` returns an
  older frame after every full lap: `RingSpec.ReadLatestIsLast` states when it returns the last one,
  `StreamLogger.FreshStreamAtRest` what that means for a log that starts at such a moment.
- `read_oldest` reads the slot after the head. That is the oldest frame held if and only if the ring has one slot or
  exactly one slot is still unwritten (`RingSpec.ReadOldestIsOldest`). In a full ring it is the second oldest, and while
  two or more slots are unwritten it is nothing (`RingSpec.ReadOldestReturns`, `RingSpec.ReadOldestExample`).
- The checksum of a frame is tested before the payload is copied. A read overtaken by a whole lap in between can return
  the payload of one publish with the sequence number of another (`RingInterleaving.LapBoundIsTight`); in a ring of one
  slot no publish need complete for that. `RingInterleaving.ExactLapBound` is the exact bound.
- The writer's worker compares the size of an entry with its slot before the transform chain, and then copies what that
  chain returns. All publishes stay inside their slots if and only if no entry that passes the check grows beyond its slot
  (`DictWriter.InsideSlots`); for the conversion from two to three bytes a pixel `DictWriter.ConversionFits` says which
  slot sizes guarantee that.
- The master's size check sees the total modulo 2^64: `ShmLayout.SizeCheckExact` says when it decides rightly,
  `ShmLayout.SizeCheckExample` is a configuration for which it does not.
- A turn of the catch-up loop moves the cursor forward if and only if the frame it logs does not have the last 32-bit
  number (`StreamLogger.CatchUpAdvances`). After that frame the logger logs older ones again
  (`StreamLogger.LastNumberRepeats`).
- The base64 decoder also accepts padding inside the text and stray bits in a last group
  (`Base64.DecodeAcceptsInnerPadding`, `Base64.EncodeDecode`).

## Model

| member | source | states |
|---|---|---|
| RingArithmetic.GetHeadPromoted | core/modules/shared_memory/client/client.cpp:98-100 | every result is a slot; the lookup is the remainder of the difference modulo 2^32, off only where the final 32-bit sum overflows |
| RingArithmetic.GetHeadWithinLap | core/modules/shared_memory/client/client.cpp:84-101 | a look back of at most `head` slots, or ahead, is the Euclidean remainder |
| RingArithmetic.GetHeadNeighbours | core/modules/shared_memory/client/client.cpp:84-101 | what the lookups of writer and reader (0, -1, 1) give for a head in range |
| RingArithmetic.GetHeadAcrossWrap | core/modules/shared_memory/client/client.cpp:98-100 | a look back past slot 0 is the Euclidean remainder if and only if the number of slots divides 2^32 |
| RingArithmetic.GetHeadAcrossWrapExample | core/modules/shared_memory/client/client.cpp:98-100 | with 300 slots the slot before head 0 comes out as 195 |
| RingArithmetic.GetHeadHugeRing | core/modules/shared_memory/client/client.cpp:98-100 | above 2^31 slots the result is right if and only if the final sum stays in 32 bits |
| RingArithmetic.ProgressCountsBacklog | core/modules/shared_memory/logger/stream_progress.hpp:15-31 | the progress record counts the frames from cursor to latest, asks for a resync exactly if they exceed the ring and reports the excess, for all inputs but one, which is named; all zero for a ring of no slots |
| RingSpec.SlotHolds | core/modules/shared_memory/client/writer.cpp:133-152 | the last `n` publishes, of any fitting size, are all still in their slots |
| RingSpec.SlotBytes | core/modules/shared_memory/client/writer.cpp:139-145 | byte by byte, a slot holds the newest publish in it that reaches that byte, or zero |
| RingSpec.ReadOfAnySize | core/modules/shared_memory/client/reader.cpp:21-37 | a publish comes back exactly if the whole slot, older bytes behind a short payload included, has the checksum of the payload; then with those bytes and its own number and time |
| RingSpec.ReadBackOfFullSize | core/modules/shared_memory/client/reader.cpp:21-37 | a publish of full size always comes back, unaltered |
| RingSpec.SlotUnwritten | core/modules/shared_memory/client/reader.cpp:21-37 | a slot that was never written is not taken by a reader |
| RingSpec.NewestAtOrAhead | core/modules/shared_memory/logger/logger.cpp:518-541 | the slot of an earlier frame holds that frame or one a whole number of laps later |
| RingSpec.LatestIndexSlot | core/modules/shared_memory/client/reader.cpp:39-53 | the publish that `read_latest` reads lies in the slot that `get_head(1)` computes |
| RingSpec.LatestIndexIsLast | core/modules/shared_memory/client/reader.hpp:17 | that publish is the last one if and only if the head is not at 0 or the ring size divides 2^32 |
| RingSpec.NextHead | core/modules/shared_memory/client/writer.cpp:133-152 | the writer writes to, and advances the head to, the slots of consecutive publishes |
| RingSpec.ReadLatestReturns | core/modules/shared_memory/client/reader.cpp:39-53 | what `read_latest` returns after any history of fitting publishes |
| RingSpec.ReadLatestIsLast | core/modules/shared_memory/client/reader.cpp:39-53 | if the last publish can be read at all, it is returned if and only if the index arithmetic does not wrap |
| RingSpec.ReadAbsoluteReturns | core/modules/shared_memory/client/reader.cpp:55-73 | what `read_absolute` returns after any history: the newest publish in that slot, or nothing |
| RingSpec.ReadOldestReturns | core/modules/shared_memory/client/reader.cpp:75-96 | what `read_oldest` returns after any history: nothing, the oldest frame held or the second oldest, depending on how many slots are unwritten |
| RingSpec.ReadOldestIsOldest | core/modules/shared_memory/client/reader.cpp:75-96 | it returns the oldest frame held if and only if the ring has one slot or exactly one unwritten slot |
| RingSpec.ReadOldestExample | core/modules/shared_memory/client/reader.cpp:82-83 | in a full ring of two slots the newer frame comes out |
| SharedMemoryRing.SharedRing.constructor | core/modules/shared_memory/master.cpp:110-147 | a new ring is the ring of the empty history |
| SharedMemoryRing.SharedRing.Publish | core/modules/shared_memory/client/writer.cpp:133-152 | storing the fields turns the ring of a history into the ring of the history with one more publish; the head moves to the next slot and the ring takes over the number |
| SharedMemoryRing.SharedRing.ReadLatest | core/modules/shared_memory/client/reader.cpp:39-53 | reading the slot behind the head gives what the history says |
| SharedMemoryRing.SharedRing.ReadAbsolute | core/modules/shared_memory/client/reader.cpp:55-73 | reading a slot by number gives what the history says, nothing if out of range |
| SharedMemoryRing.SharedRing.ReadOldest | core/modules/shared_memory/client/reader.cpp:75-96 | reading the slot after the head gives what the history says |
| DictWriter.PublishedInOrder | core/modules/shared_memory/client/writer.cpp:116-147 | the publishes are exactly the accepted entries of fitting size, each once, in acceptance order, with the transformed payload and their own number and time |
| DictWriter.AcceptedInOrder | core/modules/shared_memory/client/writer.cpp:49-77 | the accepted entries are what the adds before the first stop carry, field by field, null and empty data aside, each once, in order |
| DictWriter.InsideSlots | core/modules/shared_memory/client/writer.cpp:120-145 | all publishes stay inside their slots if and only if no accepted entry grows beyond its slot in the transform |
| DictWriter.ConversionFits | core/modules/shared_memory/transforms.cpp:36-82 | with a conversion from two to three bytes a pixel no entry ever does so if and only if a slot has room for a converted image, or not even for a raw one |
| DictWriter.NothingAcceptedAfterStop | core/modules/shared_memory/client/writer.cpp:69-73 | after a stop no add is accepted, whatever follows |
| DictWriter.SharedDictWriter.Enqueue | core/modules/shared_memory/client/writer.cpp:49-77 | an add keeps: accepted entries are those handled, the one in flight and those queued, in this order |
| DictWriter.SharedDictWriter.StopProcessing | core/modules/shared_memory/client/writer.cpp:89-98 | a stop keeps the same invariant and closes the queue |
| DictWriter.SharedDictWriter.Take | core/modules/shared_memory/client/writer.cpp:105-118 | the worker waits for an entry and a ready ring, pops the front entry, or returns exactly if stopped with an empty queue; once stopped it drains the queue, ready or not |
| DictWriter.SharedDictWriter.Handle | core/modules/shared_memory/client/writer.cpp:120-152 | the popped entry is transformed and published, or skipped if oversize, and counts as handled; the ring stays that of the handled entries until one overruns its slot |
| DictWriter.SharedDictWriter.ProcessQueueTurn | core/modules/shared_memory/client/writer.cpp:100-163 | every turn keeps the invariant, and after a stop brings the worker closer to returning |
| DictWriter.SharedDictWriter.Interleave | core/modules/shared_memory/client/writer.cpp:49-163 | under any interleaving of producers, stops and worker, and any answers of `is_ready`, a worker that has returned has handled all accepted entries in order |
| DictWriter.SharedDictWriter.Close | core/modules/shared_memory/client/writer.cpp:42-47 | stopping and joining always ends, with every accepted entry handled |
| RingInterleaving.WriterKeepsInv | core/modules/shared_memory/client/writer.cpp:133-152 | every single store of a publish keeps the invariant of slots, writer and reader |
| RingInterleaving.ReaderKeepsInv | core/modules/shared_memory/client/reader.cpp:21-73 | every single load of a read, of either kind, keeps it too |
| RingInterleaving.RunKeepsInv | core/modules/shared_memory/client/reader.cpp:21-73 | so does every interleaving of the two |
| RingInterleaving.ReadUntilReuse | core/modules/shared_memory/client/reader.cpp:21-73 | in every interleaving, for payloads of any size, a read whose slot has not begun to be reused returns what a read alone would have returned at its first load |
| RingInterleaving.LapBoundedRead | core/modules/shared_memory/client/reader.cpp:39-53 | with at most n - 2 publishes completed during a `read_latest` it returns exactly the last frame published before its head load |
| RingInterleaving.LapBoundedSlotRead | core/modules/shared_memory/client/reader.cpp:55-73 | with the writer at most a ring ahead, a `read_absolute` returns the frame expected in its slot if fewer than n publishes after that frame are complete at its last load |
| RingInterleaving.LapBoundedRequest | core/modules/shared_memory/client/reader.cpp:21-73 | the same for both reads, from the publish each of them should return |
| RingInterleaving.LapBoundIsTight | core/modules/shared_memory/client/reader.cpp:21-37 | for every ring size, both reads and every feed, one publish more can make a read return a mix of two publishes |
| RingInterleaving.ExactLapBound | core/modules/shared_memory/client/reader.cpp:21-73 | reads with at most B publishes completed after the wanted one are all right if and only if B <= n - 2, for every ring size from 1 on |
| RingInterleaving.ReadsAsLoaded | core/modules/shared_memory/client/reader.cpp:21-73 | in every interleaving the result is put together from loads in this order: head, payload, checksum, payload again, number, time; it is given exactly if the first pass has the checksum loaded after it |
| RingInterleaving.PartialPublish | core/modules/shared_memory/client/writer.cpp:133-152 | what a writer leaves that stops after any number of stores: time, payload byte by byte, checksum, number, and only then the head |
| RingRefinement.RunRefines | core/modules/shared_memory/client/writer.cpp:133-152 | in every reachable state of the small steps each slot not being written holds what the atomic model says |
| RingRefinement.ReadAlone | core/modules/shared_memory/client/reader.cpp:21-73 | the loads of one read without interruption amount to the atomic read of the slot |
| RingRefinement.AtomicReadIsAnswer | core/modules/shared_memory/client/reader.cpp:39-73 | such a read in any reachable state returns what the atomic model says of the history, for `read_latest` and `read_absolute` |
| StreamLogger.LedgerLogs | core/modules/shared_memory/logger/logger.cpp:543-549 | logging the frame at the cursor keeps: each number so far is logged once or jumped over once, in order |
| StreamLogger.LedgerJumps | core/modules/shared_memory/logger/logger.cpp:529-541 | so does a jump |
| StreamLogger.LedgerWithoutJumps | core/modules/shared_memory/logger/logger.cpp:518-553 | without jumps the log is the whole range of numbers, each once, in order |
| StreamLogger.InitializeKeeps | core/modules/shared_memory/logger/logger.cpp:457-477 | initialization puts the cursor on a published frame with slot and number in step |
| StreamLogger.JumpKeepsSound | core/modules/shared_memory/logger/logger.cpp:529-541 | a jump forward keeps the ledger in every environment |
| StreamLogger.JumpKeepsSynced | core/modules/shared_memory/logger/logger.cpp:506-541 | a jump to a frame a lap or more ahead keeps slot and number in step and is on record as made by lapping |
| StreamLogger.WriteKeepsSound | core/modules/shared_memory/logger/logger.cpp:543-549 | a write attempt keeps the ledger and advances by one if it succeeds |
| StreamLogger.WriteKeepsSynced | core/modules/shared_memory/logger/logger.cpp:508-549 | a write attempt at a published frame keeps slot and number in step |
| StreamLogger.CursorSlot | core/modules/shared_memory/logger/logger.cpp:518-541 | the cursor's slot is readable and holds its frame or one whole laps later |
| StreamLogger.ResyncKeepsSynced | core/modules/shared_memory/logger/logger.cpp:496-516 | the resync branch keeps the cursor on the published frames |
| StreamLogger.CatchUpKeepsSound | core/modules/shared_memory/logger/logger.cpp:518-553 | every turn of the catch-up loop keeps the ledger, in every environment |
| StreamLogger.CatchUpKeepsSynced | core/modules/shared_memory/logger/logger.cpp:518-553 | and keeps slot and number in step on a ring, where every lost-synchronization jump spans whole laps |
| StreamLogger.CatchUpStopsOnlyOnWrite | core/modules/shared_memory/logger/logger.cpp:521-527 | on a ring the exits for an unreadable slot and for an older frame cannot be taken |
| StreamLogger.PollKeepsOrderly | core/modules/shared_memory/logger/logger.cpp:479-494 | asking for the latest frame keeps the resync policy for all earlier polls: a resync exactly where the frames from the cursor on exceed the ring |
| StreamLogger.ResyncKeepsOrderly | core/modules/shared_memory/logger/logger.cpp:496-516 | the resync branch decides the poll that found more frames than the ring holds |
| StreamLogger.CatchUpKeepsOrderly | core/modules/shared_memory/logger/logger.cpp:518-553 | the catch-up loop makes no resync; its jumps go to frames found in slots |
| StreamLogger.GapFreeLog | core/modules/shared_memory/logger/logger.cpp:449-557 | if the writer is never more than a ring ahead at a read, the log is a contiguous run of the published frames, unaltered |
| StreamLogger.CaughtUpExactly | core/modules/shared_memory/logger/logger.cpp:487-494 | the stream is done for now if and only if it is past the frame that `read_latest` returns |
| StreamLogger.LastFrameLogged | core/modules/shared_memory/logger/logger.cpp:492-494 | a stream that is done ends with the last published frame, if `read_latest` can return it |
| StreamLogger.FreshStreamAtRest | core/modules/shared_memory/logger/logger.cpp:457-553 | a new stream before a writer at rest logs exactly the frame `read_latest` returns: the last one if and only if the head is not at 0 or the ring size divides 2^32 |
| StreamLogger.CatchUpAdvances | core/modules/shared_memory/logger/logger.cpp:547-552 | in every environment a logging turn moves the cursor forward if and only if the logged number is below 2^32 - 1 |
| StreamLogger.LastNumberRepeats | core/modules/shared_memory/logger/logger.cpp:518-553 | on a full ring whose last frame has number 2^32 - 1 the catch-up loop logs that frame and then the oldest one again |
| StreamLogger.SensorStream.WriteEntry | core/modules/shared_memory/logger/logger.cpp:543-549 | logs the entry and advances slot and number, or changes neither |
| StreamLogger.SensorStream.Initialize | core/modules/shared_memory/logger/logger.cpp:457-477 | starts at the latest frame, or says why not |
| StreamLogger.SensorStream.CatchUp | core/modules/shared_memory/logger/logger.cpp:519-549 | one turn of the loop is the cursor's catch-up step, with the exact reason of every exit |
| StreamLogger.SensorStream.CatchUpTo | core/modules/shared_memory/logger/logger.cpp:518-553 | the loop ends, past the latest frame or with a reason; on a ring only a failed write stops it |
| StreamLogger.SensorStream.FollowLatest | core/modules/shared_memory/logger/logger.cpp:479-553 | a latest frame a ring or more ahead of the cursor is logged at once, if writable, and nothing else is; one within the ring causes no resync; a turn keeps the ledger and the resync policy and goes on only after progress |
| StreamLogger.SensorStream.Resync | core/modules/shared_memory/logger/logger.cpp:506-516 | skips to the latest frame and logs it, keeping ledger and ring position |
| StreamLogger.SensorStream.ProcessStream | core/modules/shared_memory/logger/logger.cpp:449-557 | a call ends in every environment, extends the log, reports whether it wrote, explains its exit and keeps the resync policy over all polls of the run; on a ring only four exits remain |
| StreamLogger.SensorStream.Work | core/modules/shared_memory/logger/logger.cpp:255-273 | over any number of calls the ledger, the resync policy and the ring position are kept, and one call before a writer at rest ends the log at the last published frame |
| InterleavedReads.FewPublishesDoNotDisturb | core/modules/shared_memory/client/reader.cpp:21-73 | a read is undisturbed if fewer than n publishes after the newest in its slot are complete at its last load |
| InterleavedReads.InterleavedDrives | core/modules/shared_memory/client/reader.cpp:39-73 | undisturbed reads whose loads interleave with the writer's stores give the logger the answers of atomic reads at their first loads |
| InterleavedReads.EveryReadOccurs | core/modules/shared_memory/client/reader.cpp:39-73 | every answer of an atomic read is that of some interleaving, whatever has been published |
| InterleavedReads.LogInterleaved | core/modules/shared_memory/logger/logger.cpp:449-557 | with interleaved reads the cursor stays on the published frames, and the log is a contiguous, unaltered run of them if the writer is never more than a ring ahead at a first load |
| Recording.CameraRecordingReadsBack | core/modules/shared_memory/logger/log_reader.cpp:483-529 | if the logger keeps up, reading the file back gives the published frames of the camera row by row, without gap, repetition or change |
| Recording.RecordingReadsBack | core/modules/shared_memory/logger/log_reader.cpp:483-529 | a file whose topic holds the logged entries can be read, and the series of that topic is the log |
| Recording.FeedIsCounted | core/modules/event_camera/event_camera.cpp:82-99 | the frames of a camera whose ring has a 32-bit frame size all have event counts of 32 bits |
| Recording.EventRecordingConserved | core/modules/shared_memory/logger/logger.cpp:346-374 | if the logger follows an event camera from first to last frame over any number of batches, the logged records put together are the events, each once, in order |
| Base64.MakeDecodeTable | core/modules/shared_memory/logger/log_reader.cpp:323-338 | the table holds the value of every character, padding or invalid |
| Base64.DecodeEncode | core/modules/shared_memory/logger/log_reader.cpp:340-376 | decoding the encoding of any bytes succeeds and returns them (section 4 of RFC 4648) |
| Base64.EncodeInjective | core/modules/shared_memory/logger/logger.cpp:74-91 | different bytes have different encodings |
| Base64.EncodeLength | core/modules/shared_memory/logger/logger.cpp:75-76 | the encoding has four characters for every three bytes begun |
| Base64.EncodeShape | core/modules/shared_memory/logger/logger.cpp:84-87 | it consists of alphabet characters, then padding of the right length |
| Base64.Alphabet | core/modules/shared_memory/logger/logger.cpp:39 | the alphabet, character by character |
| Base64.SameNumber | core/modules/shared_memory/logger/logger.cpp:79-87 | the characters of a group are its bytes as one number, written to base 64 |
| Base64.EncodeDecode | core/modules/shared_memory/logger/log_reader.cpp:340-376 | encoding a decoded text gives the text back if and only if it is canonical |
| Base64.GroupAccepted | core/modules/shared_memory/logger/log_reader.cpp:350-360 | exactly which groups of four characters are accepted, and how many bytes they give |
| Base64.DecodesGroups | core/modules/shared_memory/logger/log_reader.cpp:340-360 | a text is decoded if and only if it consists of acceptable groups of four |
| Base64.GroupBits | core/modules/shared_memory/logger/log_reader.cpp:362-372 | the bytes of an accepted group are the leading bits of its characters, whatever bits are left over |
| Base64.DecodeAcceptsInnerPadding | core/modules/shared_memory/logger/log_reader.cpp:354-360 | a text with padding in the middle is decoded |
| Base64.EncodeBytes | core/modules/shared_memory/logger/logger.cpp:74-91 | the loop over 24-bit groups computes the encoding |
| Base64.EncodeTriple | core/modules/shared_memory/logger/logger.cpp:79-87 | shifts and masks of one group give its four characters |
| Base64.DecodeQuadruple | core/modules/shared_memory/logger/log_reader.cpp:350-372 | table lookup, checks and shifts give the bytes of a group or reject it |
| Base64.DecodeText | core/modules/shared_memory/logger/log_reader.cpp:340-376 | the loop over groups computes the decoding, or rejects |
| JsonText.JsonEscape | core/modules/shared_memory/logger/logger.cpp:41-72 | the character loop computes the escaped text |
| JsonText.UnescapeEscape | core/modules/shared_memory/logger/log_reader.cpp:237-274 | reading a string up to its closing quote undoes the escaping of any text, whatever follows |
| JsonText.EscapeTable | core/modules/shared_memory/logger/logger.cpp:44-69 | the characters that are escaped, and how |
| JsonText.UnescapeTable | core/modules/shared_memory/logger/log_reader.cpp:249-274 | the escapes that are understood, and what they mean |
| JsonText.UnescapeFails | core/modules/shared_memory/logger/log_reader.cpp:246-277 | a text that ends before its closing quote, and an escape that is not understood, are errors |
| JsonText.EscapedQuotes | core/modules/shared_memory/logger/logger.cpp:45-47 | every quote in an escaped text follows a backslash |
| JsonText.SkipWhitespace | core/modules/shared_memory/logger/log_reader.cpp:223-228 | stops at the first character that is not white space |
| JsonText.LookBehind | core/modules/shared_memory/logger/log_reader.cpp:190-198 | finds the last character before a position that is not white space |
| JsonText.FindField | core/modules/shared_memory/logger/log_reader.cpp:178-216 | the search loop finds the first accepted occurrence of the key, rejected ones skipped whole, or fails |
| JsonText.CheckKey | core/modules/shared_memory/logger/log_reader.cpp:190-214 | an occurrence is accepted exactly with a brace or comma in front and a colon behind, white space aside, and the value starts after the colon |
| JsonText.AcceptedMeans | core/modules/shared_memory/logger/log_reader.cpp:190-214 | the two checks on an occurrence hold if and only if a brace or comma stands in front of it and a colon behind it with nothing but white space in between |
| JsonText.FindsFirstKey | core/modules/shared_memory/logger/log_reader.cpp:178-216 | in any text the search finds the first place at which the field stands as such a key, and fails if and only if there is none |
| JsonText.FindFirst | core/modules/shared_memory/logger/log_reader.cpp:183 | the substring search finds the first occurrence |
| JsonText.RejectsInFront | core/modules/shared_memory/logger/log_reader.cpp:190-203 | in front of a printed key the look-behind rejects every occurrence of that key, and none overlaps it |
| JsonText.FindsPrintedField | core/modules/shared_memory/logger/log_reader.cpp:178-216 | the search finds exactly the printed key, whatever strings were printed before it |
| JsonFields.DecimalValue | core/modules/shared_memory/logger/logger.cpp:93-96 | printed numbers are digits with that value |
| JsonFields.StoULLDecimal | core/modules/shared_memory/logger/log_reader.cpp:298-304 | the integer parser reads every 64-bit number back |
| JsonFields.StoULLExact | core/modules/shared_memory/logger/log_reader.cpp:298-304 | signed and unsigned numbers of any size with anything behind them: the value, modulo 2^64 if negative, or an exception exactly from 2^64 on |
| JsonFields.StoULLNeedsDigits | core/modules/shared_memory/logger/log_reader.cpp:298-304 | without a digit there is an exception |
| JsonFields.NumberEndMeans | core/modules/shared_memory/logger/log_reader.cpp:283-290 | the number text is the longest run of digits, signs, points and exponent letters |
| JsonFields.ExtractJsonString | core/modules/shared_memory/logger/log_reader.cpp:230-278 | the scanner returns the unescaped field or the error |
| JsonFields.StringMeans | core/modules/shared_memory/logger/log_reader.cpp:230-278 | in any text a string is extracted only from the first place at which the field stands as a key, and is what follows the quote there |
| JsonFields.ScanString | core/modules/shared_memory/logger/log_reader.cpp:236-277 | the character loop computes the unescaped text up to the closing quote, or the error |
| JsonFields.ExtractJsonNumberText | core/modules/shared_memory/logger/log_reader.cpp:280-296 | the scanner returns the run of number characters or the error |
| JsonFields.Uint64Means | core/modules/shared_memory/logger/log_reader.cpp:280-304 | in any text a number is extracted only from that place, and is the value of the number text there |
| JsonFields.TimestampMeans | core/modules/shared_memory/logger/log_reader.cpp:314-321 | a timestamp has less than a second of nanoseconds and comes out modulo 2^64 |
| CameraPayload.CameraRoundTrip | core/modules/shared_memory/logger/log_reader.cpp:396-416 | for every timestamp, every name (quotes, backslashes, field names included) and every image the decoded message is the printed one |
| CameraPayload.CameraText | core/modules/shared_memory/logger/logger.cpp:314-320 | the printed text in full |
| CameraPayload.CameraSeconds | core/modules/shared_memory/logger/logger.cpp:93-96 | its "sec" and "nsec" are quotient and remainder of the timestamp by 10^9 |
| CameraPayload.CleanFrontOfFormat | core/modules/shared_memory/logger/logger.cpp:315-321 | no text printed before the last key can be taken for that key, inside strings or outside |
| CameraPayload.ReadsPrintedString | core/modules/shared_memory/logger/log_reader.cpp:230-278 | a printed string field reads back as its value |
| CameraPayload.ReadsPrintedNumber | core/modules/shared_memory/logger/log_reader.cpp:280-304 | a printed number field reads back as its value |
| CameraPayload.TimestampInFront | core/modules/shared_memory/logger/log_reader.cpp:314-321 | the printed seconds and nanoseconds read back as the timestamp |
| CameraLog.AppendTimestamp | core/modules/shared_memory/logger/logger.cpp:93-96 | appends the printed timestamp |
| CameraLog.AppendStringField | core/modules/shared_memory/logger/logger.cpp:98-100 | appends a key with its escaped value |
| CameraLog.AssignPayload | core/modules/shared_memory/logger/logger.cpp:102-107 | the payload is the text, byte by byte |
| CameraLog.GetCameraPayload | core/modules/shared_memory/logger/logger.cpp:293-324 | succeeds exactly for samples of at least three bytes a pixel, in 64 bits, that the encoder takes; its bytes decode to timestamp, name, format and image |
| CameraLog.ExtractTimestampNs | core/modules/shared_memory/logger/log_reader.cpp:314-321 | seconds and nanoseconds make the timestamp, modulo 2^64, or an error |
| CameraLog.CompressedImageSeries.Decode | core/modules/shared_memory/logger/log_reader.cpp:396-416 | each decoded field is appended to its column until one fails; the exception is that field's error |
| CameraLog.CollectedRows | core/modules/shared_memory/logger/log_reader.cpp:404-409 | a decoded message adds exactly one row, and one whose timestamp is at fault adds nothing |
| CameraLog.FailsInOrder | core/modules/shared_memory/logger/log_reader.cpp:404-409 | time, name, format and image are decoded in this order: the first failure is the exception, and exactly the columns in front of it have grown |
| LogReading.ReadFailsFirst | core/modules/shared_memory/logger/log_reader.cpp:507-529 | a file is read if and only if every message decodes; otherwise the first failure comes out |
| LogReading.ReadRows | core/modules/shared_memory/logger/log_reader.cpp:507-529 | the series that callers get are aligned, and row k of a topic is the decoded message k of that topic |
| LogReading.LogFile.TryEmplace | core/modules/shared_memory/logger/log_reader.cpp:521 | finds the series of a topic or adds an empty one |
| LogReading.LogFile.AddMessage | core/modules/shared_memory/logger/log_reader.cpp:508-525 | a message goes to the series of its topic and leaves the others alone, or fails |
| LogReading.ReadLogFile | core/modules/shared_memory/logger/log_reader.cpp:483-529 | the loop returns the file as read, or only the first failure |
| EventBatches.EventCamera.ProcessEvents | core/modules/event_camera/event_camera.cpp:75-101 | every call publishes the frames of its batch, numbered on from the calls before, and nothing for a null or empty batch |
| EventBatches.EventCamera.FillPayload | core/modules/event_camera/event_camera.cpp:93-97 | copying header and records into the zeroed buffer gives the padded frame |
| EventBatches.BatchCount | core/modules/event_camera/event_camera.cpp:90-91 | a batch takes as many frames as its events need and no more |
| EventBatches.ConfiguredFrames | core/modules/event_camera/event_camera.cpp:80-88 | frames have the configured size; without one the whole batch is one frame |
| EventBatches.PayloadBytes | core/modules/event_camera/event_camera.cpp:93-97 | a frame byte by byte: number of events modulo 2^32, four zeros, the records in order, zeros to the end |
| EventBatches.TimeIsFirst | core/modules/event_camera/event_record.hpp:12-19 | the time of an event is the first eight bytes of its record, least significant first |
| EventBatches.BatchShape | core/modules/event_camera/event_camera.cpp:88-99 | frame i holds the events from i times the capacity on, has the size of all frames, the number i after the first, and as time the first eight bytes of its first record |
| EventBatches.AfterWraps | core/modules/event_camera/event_camera.cpp:100 | the numbers are consecutive modulo 2^32 |
| EventBatches.CutPayload | core/modules/shared_memory/logger/logger.cpp:351-374 | the logger cuts exactly the records out of a padded frame |
| EventBatches.CutExact | core/modules/shared_memory/logger/logger.cpp:351-374 | a frame of any bytes is rejected exactly if it is too short for the number in its header; otherwise that many records behind the header are cut out |
| EventBatches.BatchConserved | core/modules/shared_memory/logger/logger.cpp:351-374 | the cuts of all frames of a batch put together are the events, if and only if the fullest frame's count fits 32 bits |
| EventBatches.RunConserved | core/modules/shared_memory/logger/logger.cpp:351-374 | the same over a run of any number of batches; a configured maximum guarantees it |
| EventPayload.EventRoundTrip | core/modules/shared_memory/logger/logger.cpp:376-383 | every field of the printed event message extracts as printed |
| EventPayload.GetEventCameraPayload | core/modules/shared_memory/logger/logger.cpp:346-385 | rejects exactly the frames too short for the number in their header; otherwise timestamp, number, count, encoding and records extract from the message |
| ShmLayout.ComputeTotalSize | core/modules/shared_memory/master.cpp:52-72 | the loop computes the total modulo 2^64 and refuses exactly if that exceeds 32 bits |
| ShmLayout.SizeCheckExample | core/modules/shared_memory/master.cpp:69-71 | a configuration of 2^56 frames of 240 bytes passes the check with 64 bytes |
| ShmLayout.SizeCheckExact | core/modules/shared_memory/master.cpp:69-71 | the check decides as the exact total would if and only if that total does not wrap or wraps to something refused |
| ShmLayout.InitializeMetadata | core/modules/shared_memory/master.cpp:110-147 | the header loop turns a zeroed segment into the image of the configuration, byte for byte |
| ShmLayout.NothingWraps | core/modules/shared_memory/master.cpp:131-140 | below 2^32 bytes the 32-bit fields lose nothing, frameless buffers aside |
| ShmClient.SharedDictClient.constructor | core/modules/shared_memory/client/client.cpp:44-49 | a client with a name holds the buffer its walk finds |
| ShmClient.SharedDictClient.GetShmStructure | core/modules/shared_memory/client/client.cpp:164-230 | the loop is the walk, every check included, on a segment of any contents |
| ShmClient.FrameOffsetExact | core/modules/shared_memory/client/client.cpp:104-162 | on any segment the checks of the frame lookup reject exactly what does not fit; the rest is base plus index times stride |
| ShmClient.NextOffsetExact | core/modules/shared_memory/client/client.cpp:206-229 | on any segment the next header is at the exact sum, unless that does not fit 64 bits |
| ShmClient.WalkExact | core/modules/shared_memory/client/client.cpp:164-230 | on any segment the walk finds the first header of the name in the chain of exact sums: its other checks change nothing |
| ShmSoundness.ImageIsFormatted | core/modules/shared_memory/master.cpp:110-147 | what the master writes has every header in its place |
| ShmSoundness.RingsStartEmpty | core/modules/shared_memory/master.cpp:110-147 | every ring starts with head 0, number 0 and zeroed frames |
| ShmSoundness.StoredNameIsName | core/modules/shared_memory/master.cpp:125-129 | a name survives if and only if it has at most 31 bytes and no zero |
| ShmSoundness.WalkFindsFirst | core/modules/shared_memory/client/client.cpp:164-230 | on a formatted segment no check fires and the walk stops at the first buffer of the name |
| ShmSoundness.FoundByName | core/modules/shared_memory/client/client.cpp:164-230 | a buffer is found by its own name exactly under the stated conditions on names and number of buffers |
| ShmSoundness.FrameFound | core/modules/shared_memory/client/client.cpp:104-162 | every frame lookup of an existing frame passes its checks and lands on it, inside its buffer and the segment |
| ShmSoundness.FramesApart | core/modules/shared_memory/master.cpp:56-67 | no two frames overlap, and no frame overlaps a header or the front |
| ShmSoundness.LastFrameEnds | core/modules/shared_memory/master.cpp:56-72 | the last frame ends at the total size |
| ShmSoundness.StaysFormatted | core/modules/shared_memory/client/writer.cpp:142-152 | stores to frames, head and sequence leave the layout readable for every client |
| ClockAnchoring.ClockAnchor.constructor | python/dataset_collection/dataset_collection/clock.py:97-117 | starts unanchored with at least two warm-up samples |
| ClockAnchoring.ClockAnchor.ToHostNs | python/dataset_collection/dataset_collection/clock.py:119-156 | every call keeps the state a function of all samples so far and returns what that function says; during the warm-up that is the observed time |
| ClockAnchoring.ClockAnchor.FinishWarmup | python/dataset_collection/dataset_collection/clock.py:158-208 | the loops over the buffer leave the anchored state of those samples |
| ClockAnchoring.AnchoredStep | python/dataset_collection/dataset_collection/clock.py:143-154 | the constant-time update is the state of the longer history |
| ClockAnchoring.RoundHalfEven | python/dataset_collection/dataset_collection/clock.py:192 | the start is within half a nanosecond of the fitted level, even at a tie |
| ClockAnchoring.OutputIsTruncated | python/dataset_collection/dataset_collection/clock.py:156 | after the warm-up the answer less the start is the exact product of elapsed ticks and rate, cut towards zero by less than one |
| ClockAnchoring.StartIsNearest | python/dataset_collection/dataset_collection/clock.py:192 | the start is the integer next to the level of the warm-up line, the even one at a tie |
| ClockAnchoring.RateUntilAnchored | python/dataset_collection/dataset_collection/clock.py:169-193 | the rate is nominal during the warm-up and the slope of the fit right after it |
| ClockOptimality.DenominatorSign | python/dataset_collection/dataset_collection/clock.py:180-181 | the denominator is never negative, and zero if and only if all warm-up ticks are equal |
| ClockOptimality.WarmupLineIsBest | python/dataset_collection/dataset_collection/clock.py:169-183 | the warm-up line has the least squared error of all lines and is the only one |
| ClockOptimality.RateIsBest | python/dataset_collection/dataset_collection/clock.py:143-151 | after the warm-up the rate has the least squared error over all samples ever passed and is the only one |
| ClockOptimality.NoSpread | python/dataset_collection/dataset_collection/clock.py:184-190 | without spread the rate stays nominal and the start is the first observation |
| ClockExactness.ExactOnLine | python/dataset_collection/dataset_collection/clock.py:119-156 | if all samples lie on one line every call returns the observed time |
| ClockExactness.ShiftInvariant | python/dataset_collection/dataset_collection/clock.py:119-156 | adding a constant to all ticks changes no output |
| EventDenoise.DenoiseKeepMask | python/dataset_collection/dataset_collection/event_denoise.py:53-73 | the loop over the array keeps an event exactly by the count of active pixels, notes every event, and raises at the first event off the grid |
| EventDenoise.CountActive | python/dataset_collection/dataset_collection/event_denoise.py:62-68 | the count is the number of distinct active pixels in the clipped square |
| EventDenoise.GridAnswers | python/dataset_collection/dataset_collection/event_denoise.py:70-71 | for events in time order the last-seen time of a pixel answers whether it was seen since any given time |
| EventDenoise.KeptBySupport | python/dataset_collection/dataset_collection/event_denoise.py:57-72 | an event is kept if and only if enough distinct pixels around it had an earlier event within the window |
| EventDenoise.KeptInAnyCall | python/dataset_collection/dataset_collection/event_denoise.py:27-29 | the same with the recording cut into calls in any way |
| EventDenoise.GridOfChunks | python/dataset_collection/dataset_collection/event_denoise.py:27-29 | two calls leave the grid of one |
| EventDenoise.MaskOfFirst | python/dataset_collection/dataset_collection/event_denoise.py:27-29 | what comes after the first of two calls does not change its mask |
| EventDenoise.MaskOfSecond | python/dataset_collection/dataset_collection/event_denoise.py:27-29 | the second call's mask is the rest of the mask of one call |
| EventDenoise.KeptMonotone | python/dataset_collection/dataset_collection/event_denoise.py:57-72 | a longer window, a larger square or fewer neighbours never drop a kept event |
| RunningStatistics.RunningStats.Add | python/web_collector.py:62-71 | keeps count, mean and spread equal to the batch statistics of all samples of positive weight |
| RunningStatistics.UpdateSummarizes | python/web_collector.py:66-71 | the update formulas turn the statistics of the samples into those with one more |
| RunningStatistics.DeviationSign | python/web_collector.py:84-90 | the spread is never negative, so the clamp in the snapshot never acts |
| RunningStatistics.MeanIsBest | python/web_collector.py:62-71 | the mean is the only number with the least weighted squared distance from all samples, and that distance is the spread |
| RunningStatistics.OneSample | python/web_collector.py:62-71 | the batch statistics of one sample |
| RunningStatistics.RunningStats.Snapshot | python/web_collector.py:73-97 | shows the mean and the variance of all samples, zeros without any |
| RunningStatistics.OrderIndependent | python/web_collector.py:62-71 | the order of the samples does not matter |
| SensorTracking.SequenceRate | python/web_collector.py:191-208 | a rate comes out if and only if number and time have both advanced, and count, interval and rate agree with the elapsed time |
| SensorTracking.SensorState.Update | python/web_collector.py:354-416 | every case in the fields before and after: equal numbers are ignored, a number or time that goes back re-baselines, an advance of both is accepted with count, interval and rate, and only what would be accepted is decoded |
| SensorTracking.AfterTakes | python/web_collector.py:354-416 | the sensor after a reading as a value is in the same relation to it |
| SensorTracking.AfterKeepsSound | python/web_collector.py:354-416 | every reading keeps: the counts accepted since the last re-baselining add up to the advance of the number since then; all counts ever add up to what went into the statistics |
| SensorTracking.Telescopes | python/web_collector.py:354-416 | so does every run of readings |
| SensorTracking.SensorState.Reset | python/web_collector.py:343-352 | a detached sensor without readings or baseline remains |
| SensorTracking.CollectFrom | python/web_collector.py:579-591 | the sensor takes its reading, raises exactly if that does not decode, and its rate and count go into the statistics exactly if it accepts an interval |
| SensorTracking.CollectOnce | python/web_collector.py:579-591 | without an exception every sensor takes its reading, with one exactly those before the first that raises; the statistics gain what these accept, in order |

## Left out

- StreamLogger.SensorStream.ProcessStream: sequence numbers stay below 2^32 - 1, since the logger does not get past that number (`StreamLogger.LastNumberRepeats`).
- StreamLogger.SensorStream.Work: the same.
- StreamLogger.SensorStream.CatchUpTo: the same.
- StreamLogger.SensorStream.FollowLatest: the same.
- StreamLogger.SensorStream.Resync: the same.
- StreamLogger.WriteKeepsSound: the same.
- StreamLogger.WriteKeepsSynced: the same.
- StreamLogger.ResyncKeepsSynced: the same.
- StreamLogger.CatchUpKeepsSound: the same.
- StreamLogger.CatchUpKeepsSynced: the same.
- StreamLogger.FreshStreamAtRest: the same.
- InterleavedReads.LogInterleaved: the same.
- StreamLogger.SensorStream.WriteEntry: the message goes to the log file as one operation that succeeds or fails; MCAP is not modelled.
- RingInterleaving.LapBoundedRead: memory orders weaker than sequential consistency are not modelled.
- DictWriter.SharedDictWriter.Handle: what an overrun stores behind its slot is not modelled, so nothing is said of the ring from then on; the frame lookup succeeds (which `ShmSoundness.FrameFound` proves for a formatted segment).
- DictWriter.ConversionFits: a chain of several transforms, and a conversion that fails and leaves the entry alone, are other transforms; for these `DictWriter.InsideSlots` is the condition.
- SharedMemoryRing.SharedRing.ReadOldest: the second attempt with slot 0 after a failing frame lookup is not modelled; on a formatted segment the lookup does not fail (`ShmSoundness.FrameFound`).
- LogReading.LogFile.AddMessage: of an inertial message only its outcome is modelled.
- LogReading.ReadLogFile: opening the file is left out, and of an inertial message only its outcome is modelled.
- CameraLog.GetCameraPayload: the colour conversion and the JPEG encoder are one function that is a parameter.
- EventBatches.EventCamera.ProcessEvents: sizes in bytes do not wrap, since the array of records exists in memory.
- ClockAnchoring.ClockAnchor.ToHostNs: floats are exact reals; rounding in the quotients is not modelled.
- ClockAnchoring.ClockAnchor.FinishWarmup: the same.
- RunningStatistics.RunningStats.Add: floats are exact reals.
- RunningStatistics.RunningStats.Snapshot: shows the variance; its square root is not modelled.
- EventDenoise.DenoiseKeepMask: the radius is not negative; negative slice bounds, which numpy counts from the end, are not modelled.
- ShmLayout.InitializeMetadata: only for segments of the exact size; what happens after the size check has passed on a wrapped sum is not modelled.
- SensorTracking.SensorState.Update: of the payload only whether it decodes is modelled.
- Shared memory and file system calls, threads as such, signals, sleeping and log output.
- Inertial measurement payloads, whose numbers are printed and parsed as floats.
- Topic metadata, statistics of the log reader, the MCAP container, status lines of the logger.
- Camera, sensor and process life cycles, configuration files, image transforms, calibration, plotting and the web server.
