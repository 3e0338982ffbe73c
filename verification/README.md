# Verification of iodrivers_base

iodrivers_base turns a byte stream into packets. A device driver subclasses `Driver` and writes one pure
function, `extractPacket`, which looks at the bytes at hand and answers: discard so many (a negative
number), wait for more (0), or here is a packet of this size. Everything else is done around that function:
a scanner with two modes, a bounded buffer that is shifted in place, a loop that reads whatever chunks
arrive, a raw read path over the same buffer, deadlines, writing in pieces, counters and listeners. This
project models that machinery in Dafny and proves what it promises, for every extractor, every way the
stream cuts its bytes into chunks, every error and every flow of time.

## How it is laid out

Values come first, and the classes are proved against them.

- `Extraction.dfy` holds the extractor contract and an independent reference parser: `Packets`, `Residue` and
  `Lead` read a byte string once, from left to right, and know nothing of buffers, chunks or modes. An
  extractor is *stable* when an answer, once given, is not changed by further bytes, and *resumable* when
  packets stay found and early discards do not change the packets found later.
- `Engine.dfy` says what the driver's reading operations compute on values. `Scanning`, `Reassembly`,
  `Carving`, `DryStream` and `Accounting` are the theorems about one call: what is found, that nothing is lost,
  where handed-out bytes come from, reading without a stream, and the counters; `Chunks` follows a call chunk by
  chunk.
- `Runs.dfy`, `RunTheorems.dfy` and `PacketCounts.dfy` lift these to every run: any list of operations, in both modes.
- `Drivers.dfy` is the driver as a class, over arrays and updated in place, with the streams, listeners and
  timeouts of `Streams.dfy`, `Listeners.dfy` and `Timeouts.dfy`. `Protocols`, `Handovers`, `Deadlines`,
  `RawReadings` and `Writing` carry its proofs, on values. `DriverRuns.dfy` shows that a driver that is asked anything,
  through `readPacket`, `readRaw`, `writePacket` and the rest, is at all times in a state of a run, and its stream and
  listeners with it, so the theorems on runs are theorems about the class.
- `Forwarding.dfy`, `UdpServers.dfy`, `TestStreams.dfy`, `Uris.dfy` and `LegacyUdp.dfy` are the state machines and parsers
  around it. `StartCodes.dfy` and `LostFrames.dfy` analyse the extractor pattern that the documentation recommends.

## The environment

A stream answers from finite scripts: how many bytes a read brings, or end-of-file, or an error; how a wait
ends; how much a write accepts. A clock advances by a script of non-negative ticks. A statement about every
script is a statement about every finite behaviour of the environment. A script that has run out means no
data, nothing accepted, never ready. A stream's contract is that a read returns a prefix of the pending bytes,
no longer than asked for; `TestStream.Read` is shown to meet it. Exceptions are result values. Times are
in microseconds, as integers, except where the source computes in 32 bits (`Timeout`, the counters), where
the conversions and wrap-arounds are written out.

The observer of `Deadlines.dfy` sees the clock samples, waits, reads and writes of one call, in order, and knows nothing
of the local variables of the loops. Each deadline property is a rule on what it sees.

## What came out

Where the code and its documentation disagree, the model follows the code. Lemmas are named where they prove it.

- The discard pattern in the repository's README.md (lines 73-98) depends on chunking unless the start code is a single byte.
  A longer start code that straddles two reads is thrown away with the noise before it, and the frame is lost
  for good, whatever is read later (`PatternIsSafeIffOneByte`, `RunLosesFrame`).
- In extract-last mode `bad_rx` counts too much: what a scan leaves in the buffer because it found no packet is
  counted again by the next. The count is conserved exactly when the extractor would wait on what is behind the last
  packet or, without any, behind the first discard (`ExtractConservesIffUndecided`, `NoiseIsCountedAgain`). `hasPacket`
  counts in that mode too, all it sees and every time (`HasPacketCounts`).
- After the error for a packet too large, further calls of `readPacketInternal` return nothing and read nothing: their
  reads have no room, and the extractor still waits (`StuckCallTakesNothing`).
- `readRaw` is documented never to throw, but passes on the errors of its stream. Its overall deadline starts anew
  at the first byte, and it can ask for a negative wait, when the latest byte is older than the inter-byte
  timeout, which a wait that was answered and a read that brought nothing lead to. It never does if and only if
  the inter-byte timeout is 0 or at least the packet timeout, or no more than one byte is wanted from the stream
  (`RawWaitCanBeNegative`, `NeverNegativeIff`).
- `writePacket` multiplies the milliseconds left by 1000 in an `int`. A timeout of 2147484 ms, some 36 minutes, already
  asks for a negative wait; all waits are as they should be if and only if the timeout is at most 2147483 ms
  (`LongWaitOverflows`, `WaitsEndInTimeIffShort`).
- A negative write timeout in milliseconds becomes a huge unsigned one that never elapses, while the time left is
  always 0 (`NegativeTimeout`).
- `UDPServerStream::write` tests an error for being `EAGAIN` and `ENOBUFS` at once, so that either is raised, where
  other streams report that nothing was written (`WriteDiffersFromPlain`). `EAGAIN` found by `waitRead` is kept and
  raised by the next read, which on its own would have returned 0 (`KeptIffRaisedUnlessAgain`).
- The rewriting of old UDP URIs takes the colon of `udp://` for the local port's when there is no other. So
  `udp://host` is rejected for its missing scheme, although the parser accepts it (`NoPortRejected`).
- `forward` uses its first timeout in both directions, and ignores the second. So does the model.
- `EXPECT_REPLY` is documented to put the test stream in mock mode, but fails unless it already is
  (`TestStream.ExpectReply`).

## Model

| member | source | states |
|---|---|---|
| Extraction.StableIsResumable | src/Driver.hpp:517-535 | an extractor whose answers are not changed by further bytes is one whose early discards do not change the packets found later |
| Extraction.ParseWithinBounds | src/Driver.hpp:517-535 | the packets of a byte string and its undecided rest fit into it, no packet is empty, and the rest is its end |
| Extraction.Resume | src/Driver.hpp:517-535 | for a resumable extractor, parsing a prefix and then its residue with the bytes that follow finds the packets of the whole: the packets found so far, then those of the residue and what follows |
| Extraction.ResumeResidue | src/Driver.hpp:517-535 | for a stable extractor the undecided rest is the same as well, wherever the bytes were cut |
| Extraction.TestExtractorsAreStable | test/test_Driver.cpp:26-36 | the extractors of the driver and forward tests are stable, so every theorem below applies to them |
| StartCodes.OneByteCodeIsResumable | README.md:73-98 | the documented extractor pattern is resumable when its start code is a single byte and its packet check is settled |
| StartCodes.LongCodeLosesFrame | README.md:73-98 | with a longer start code there are two chunks of a stream, cut inside the code, from which the pattern never finds the frame that is in them |
| StartCodes.PatternIsSafeIffOneByte | README.md:73-98 | so the pattern does not depend on chunking if and only if the start code is a single byte |
| LostFrames.RunLosesFrame | README.md:73-98 | such a cut over a whole run: when the first read of a driver ends inside the start code, no caller ever gets the frame, in either mode and whatever is asked of the driver afterwards |
| LostFrames.OneReadFindsFrame | README.md:73-98 | when the same bytes arrive in one read, that read hands out the frame |
| StartCodes.PatternIsNotStable | README.md:73-98 | even with a one-byte code the pattern is not stable in the strict sense |
| Scanning.ScanFirst | src/Driver.cpp:843-899 | findPacket in first-packet mode: the packet is the first of the reference parser; the offset is the sum of the discards before it; without a packet the scan ends at an undecided position or the end of the buffer; the length error means an overrun there; nothing is counted |
| Scanning.ScanLast | src/Driver.cpp:843-899 | findPacket in extract-last mode: the packet is the last of the reference parser, and no packet is left behind it; without any, only the first discard is applied |
| Scanning.ScanLastCounts | src/Driver.cpp:864-889 | on the way it counts all packets and all garbage of the buffer, whatever is removed afterwards and also when it ends in the length error, which it does exactly if the parse ends in an overrun |
| Scanning.CutIsInvisible | src/Driver.cpp:901-913 | an extraction, in either mode, loses no packet: whatever arrives later, what was cut out and then what is found in the rest is what is found in the whole |
| Reassembly.ReadPacketInternalDelivers | src/Driver.cpp:1000-1046 | for a resumable extractor and any chunking, a returning call hands over the first or the last packet of the bytes queued and taken, by mode, or nothing if there is none, and what stays in the buffer carries exactly the packets not yet accounted for; a raising call in first-packet mode loses none |
| Reassembly.RaisesOnly | src/Driver.cpp:1000-1046 | with a buffer large enough, a call raises only its stream's errors and the two length errors |
| Carving.ReadPacketInternalInOrder | src/Driver.cpp:1000-1046 | however a call ends, what it took is the next of the stream, what it keeps is the end of the bytes queued and taken, within the capacity, and what it hands over is a slice of what it removed |
| Carving.ExtractQueuedInOrder | src/Driver.cpp:915-933 | the same for extraction from the queued bytes alone |
| Carving.CutsNothingIffWaiting | src/Driver.cpp:901-913 | an extraction leaves the buffer as it was if and only if the extractor answers 0 on it |
| Carving.LoopStuckOnlyIfWaiting | src/Driver.cpp:1041-1042 | the error for a packet too large is raised only with a full buffer on which the extractor waits |
| Carving.DecidingExtractorsMakeProgress | src/Driver.cpp:1000-1046 | an extractor that never waits on a full buffer never leads to that error, and every read of the stream has room for at least one byte |
| DryStream.QueuedAgreesWithDry | src/Driver.cpp:915-933 | extraction without a stream ends like readPacketInternal on an exhausted stream, with the same packet, in both modes |
| DryStream.LeftoversAgree | src/Driver.cpp:915-933 | and the two buffers left have the same packets under any bytes that follow |
| DryStream.QueuedDelivers | src/Driver.cpp:915-933 | it delivers what the reference parser finds in the queued bytes |
| DryStream.HasPacketForesees | src/Driver.cpp:1048-1055 | hasPacket is true exactly if that extraction would return a packet, of the size it saw, and raises exactly if it would |
| DryStream.HasPacketCounts | src/Driver.cpp:864-869 | in extract-last mode the query adds all packets of the buffer to good_rx and all its garbage to bad_rx, every time and also when it raises; in first-packet mode it counts nothing |
| DryStream.LoopUntilDry | src/Driver.cpp:1017-1043 | the reading loop does not return empty-handed, or in extract-last mode at all, before it has taken all the stream has, as long as the stream keeps answering and its reads have room |
| DryStream.CallUntilDry | src/Driver.cpp:1000-1046 | the same for a whole call, from any buffer but a full one on which the extractor waits: on a stream that keeps answering it takes all there is before it returns empty-handed, or in extract-last mode at all |
| DryStream.CallReturnsLast | src/Driver.cpp:1007-1039 | extract-last correctness: such a call, when it returns, hands over exactly the last packet of the bytes queued and all bytes available, or nothing if they hold none, for every chunking |
| DryStream.StuckCallTakesNothing | src/Driver.cpp:1041-1042 | from a full buffer on which the extractor waits, which the error for a packet too large leaves behind, every further call returns empty-handed without reading |
| Accounting.ExtractOvercounts | src/Driver.cpp:864-892 | an extraction in extract-last mode credits all packets of the buffer as good, and as bad what it removed besides them and also the garbage that it leaves |
| Accounting.LeavesBehindLast | src/Driver.cpp:876-892 | an extraction in extract-last mode leaves what is behind the last packet of the reference parse, or behind the first decision if there is none |
| Accounting.ExtractConservesIffUndecided | src/Driver.cpp:886-889 | so it conserves the count if and only if nothing is there, or the extractor answers 0 on it: a condition on the buffer before the call |
| Accounting.ReadPacketInternalCounts | src/Driver.cpp:901-913 | in first-packet mode a call counts exactly the bytes it removes, however it ends; in extract-last mode never fewer |
| Accounting.ExtractQueuedCounts | src/Driver.cpp:915-933 | the same for extraction without a stream |
| Accounting.ReadPacketInternalGood | src/Driver.cpp:876-892 | in extract-last mode a call adds to good_rx the sizes of all packets of the bytes it scanned, returned or superseded, each once, although trailing bytes are scanned again |
| Accounting.ReadPacketInternalFirstGood | src/Driver.cpp:906-909 | in first-packet mode a call adds to good_rx exactly the size of the packet it returns, for any extractor; one that raises an error adds nothing |
| Accounting.NoiseIsCountedAgain | src/Driver.cpp:886-889 | a buffer of noise is an input for which bad_rx grows by more than was removed |
| Chunks.ExtractIsParsed | src/Driver.cpp:843-913 | an extraction in either mode, by the reference parser alone: the packet, what is left behind it, and both counts |
| Chunks.CallByChunks | src/Driver.cpp:1000-1046 | a whole call, for any extractor, in either mode and however it ends: buffer, packet and both counters are those of the parser after one extraction of the queued bytes and one after each chunk; in first-packet mode it reads only while it has no packet; and it ends after the chunk that brings one, with the error for a packet too large if a chunk leaves the buffer full, with the one for a result too large exactly on an overrun, with the error of a read that fails, and otherwise empty-handed, or with the last packet, on a read that brings nothing |
| Chunks.QueuedByParse | src/Driver.cpp:915-933 | extraction without a stream in the same terms: one extraction, and in extract-last mode one more behind a packet, which finds none but discards and counts; it raises exactly on an overrun |
| Counters.CreditShows | src/Status.hpp:11-14 | the 32-bit counters show the true counts modulo 2^32, and keep doing so |
| Runs.RunKeepsOrder | src/Driver.cpp:935-998 | over any interleaving of packet and raw reads, extraction without a stream, mode switches, queries, clears and errors, the internal buffer is exactly the unremoved end of the bytes consumed, within its capacity, and callers were handed slices of them in order |
| Runs.HandedDisjoint | src/Driver.cpp:935-998 | those slices are disjoint, at increasing positions, and hold the bytes that were consumed there |
| Runs.RunDrawsFromStream | src/Driver.cpp:1000-1046 | what was consumed, and then what is pending, is what the stream held, in a run without clears: nothing is skipped, repeated or invented |
| RunTheorems.RunReassembles | src/Driver.cpp:1000-1046 | chunk independence: in first-packet mode, for a resumable extractor, through errors of any kind, the packets handed out and then those still queued are the packets of all bytes consumed |
| RunTheorems.EmptyReadMeansAll | src/Driver.cpp:1038-1039 | and they are all of them whenever a call returns without a packet |
| RunTheorems.SameBytesSamePackets | src/Driver.cpp:1000-1046 | two runs over the same bytes, chunked and asked for in any two ways, have handed out the same packets once neither has one left |
| RunTheorems.RunConserves | src/Driver.cpp:139-145 | in first-packet mode, in every reachable state, good_rx and bad_rx and the queued bytes and those taken out by raw reads and clears add up, modulo 2^32, to what entered the buffer, since the last reset |
| PacketCounts.RunCountsPackets | src/Driver.cpp:864-892 | over any run of packet reads, queries, writes and mode switches, from any buffer, errors included except overruns of reads in extract-last mode: the packets of the bytes queued before and taken since are those that left the buffer and then those still in it; good_rx has grown by exactly the sizes of the former, returned or superseded, and by what each query of extract-last mode saw; the packets handed out are among them, in order; and bad_rx has grown at least by the garbage removed |
| PacketCounts.RunCountsLast | src/Driver.cpp:864-892 | in extract-last mode, from a buffer without packets, none is left behind: all packets have left the buffer and are counted |
| PacketCounts.RunHandsGood | src/Driver.cpp:901-913 | in first-packet mode, for any extractor, good_rx grows over a run by exactly the sizes of the packets handed out |
| PacketCounts.AllAreCounted | src/Driver.hpp:517-535 | for an extractor that never claims more bytes than it was shown there are no overruns, so every run of packet reads, queries, writes and mode switches is one of these |
| Drivers.Driver.constructor | src/Driver.cpp:94-101 | a new driver has an empty buffer of the given capacity and clear counters |
| Drivers.Driver.FindPacket | src/Driver.cpp:843-899 | the recursive scan over the array ends, and finds and counts what the scan on values does |
| Drivers.Driver.PullBytesFromInternal | src/Driver.cpp:935-944 | the two copies hand over the slice asked for, leave the rest of the caller's buffer alone, and leave queued exactly what was behind it |
| Drivers.Driver.DoPacketExtraction | src/Driver.cpp:901-913 | an extraction in place: counters, queue and the caller's buffer become what the extraction on values says, and the length error changes counters only |
| Drivers.Driver.ReadPacketInternal | src/Driver.cpp:1000-1046 | the whole effect of a call on the queue, the counters, the stream and every listener, its result and the packet in the caller's buffer are those of the call on values; what the stream was asked is reads and nothing else, of which all but the last brought bytes; and the error of a read is raised exactly if the last one failed |
| Drivers.Driver.ReadUntilDry | src/Driver.cpp:1017-1043 | the same for its loop, from any state in which the loop reads |
| Drivers.Driver.ExtractPacketFromInternalBuffer | src/Driver.cpp:915-933 | extraction without a stream, in place, with its packet in the caller's buffer |
| Drivers.Driver.HasPacket | src/Driver.cpp:1048-1055 | the query is that on values, and changes counters only |
| Drivers.Driver.Clear | src/Driver.cpp:132-137 | empties the queue, and of the stream only what the stream drops; everything else of the stream stays |
| Drivers.Driver.GetStatus | src/Driver.cpp:139-143 | reports the counters with the bytes queued now |
| Drivers.Driver.NotifyRead | src/Driver.cpp:1020-1022 | every listener, and all of them, was passed the data once more |
| Drivers.Driver.AwaitInput | src/Driver.cpp:1124-1152 | readPacket waits only after a read that brought nothing, and as its deadline allows; a timeout is raised only if time is up or no input came, and always if a wait was not answered; any other error is the fault the wait ended in |
| Drivers.Driver.ReadFromStream | src/Driver.cpp:1105-1154 | readPacket on a stream: the packet is cut from, and for a resumable extractor is the one the mode asks for of, the bytes queued and taken over all its attempts; on an error nothing is lost in first-packet mode; every wait is non-negative and ends with the deadline, which is start plus the smaller timeout until bytes are received and start plus the packet timeout from then on; a timeout is of the first-byte kind exactly if no byte was received in the call or the packet timeout is 0, and is raised only when every attempt found nothing, and always if a wait was not answered; a fault of the stream is raised exactly if a read or a wait ended in it, and the length errors exactly if the last internal call did; nothing is read or waited for after a fault or a wait without an answer |
| Drivers.Driver.ReadPacket | src/Driver.cpp:1082-1155 | the same for readPacket as callers see it, with the internal calls it made, and with its two other cases: the caller's buffer too small, which changes nothing, and no stream to read from |
| Deadlines.ZeroTimeoutNeverWaits | src/Driver.cpp:1119-1123 | with a packet timeout of 0, readPacket never waits |
| Deadlines.PacketWaitEnds | src/Driver.cpp:1105-1141 | a wait of readPacket ends with the packet timeout, counted from the start, once bytes were received, and until then with the sooner of that and the first-byte timeout |
| Handovers.CallHandsOver | src/Driver.cpp:1000-1046 | what one internal call hands over or keeps |
| Handovers.HandoverAfter | src/Driver.cpp:1105-1154 | an attempt that found nothing and a later one that hands over, together hand over what the mode asks for of all bytes taken since the first |
| Drivers.Driver.ReadPaced | src/Driver.cpp:981-995 | one read of readRaw: the bytes are in the caller's buffer and with the listeners, and the deadline moves as it should |
| Drivers.Driver.ReadUntilFull | src/Driver.cpp:964-997 | the loop of readRaw: the bytes in the caller's buffer, the listeners and the stream agree; a wait is asked for only while there is room and the deadline is not past, and then as the deadlines say; each wait that is answered is followed by one read; a return with room left means that time is up or no input came, and an error that a wait or a read failed with it, and the other way round |
| Drivers.Driver.ReadRaw | src/Driver.cpp:956-998 | readRaw: all queued bytes that are wanted first, then bytes of the stream, which it asks only once the queue is empty, and waits for only while there is room and its deadline is not past; a wait that is not answered ends it with the bytes read so far; nothing else is changed, and the only errors are the missing stream and the fault of a wait or a read, which is always raised |
| Deadlines.RawWaitsAreBounded | src/Driver.cpp:964-997 | no wait of readRaw extends past the packet timeout, counted from the start and then from the first byte, nor, after a byte, past the inter-byte timeout from the latest, which never shortens the wait before the first |
| Deadlines.RawWaitIsNegativeIffLate | src/Driver.cpp:976-980 | a wait that readRaw may ask for is negative if and only if the latest byte is older than the inter-byte timeout |
| Deadlines.RawWaitCanBeNegative | src/Driver.cpp:976-993 | and it comes to that for every inter-byte timeout that is shorter than the packet timeout, if more than one byte is wanted: a sequence of samples, waits and reads in accordance with the deadlines, on a clock that does not go back, that ends in a wait of -1 |
| Deadlines.NeverNegativeIffLongInterByte | src/Driver.cpp:967-993 | on a clock that does not go back, and for timeouts that are not negative, no wait in accordance with the deadlines is negative if and only if the inter-byte timeout in force is at least the packet timeout, or no more than one byte is to be read |
| RawReadings.NeverNegativeIff | src/Driver.cpp:967-993 | so for what the caller gives: readRaw never asks for a negative wait if and only if the inter-byte timeout is 0 or at least the packet timeout, or it wants no more than one byte beyond the queued ones |
| RawReadings.RawWaitEnds | src/Driver.cpp:964-980 | when a wait of readRaw ends, in terms of the caller's three timeouts: with the overall deadline, or the given inter-byte timeout after the latest byte if that is sooner |
| Deadlines.EveryWaitAllowed | src/Driver.cpp:1105-1154 | in a call that obeys its rule each wait was allowed by what had been observed before it, and nothing but clock samples follows on a fault or a wait without an answer |
| RawReadings.PaceRead | src/Driver.cpp:981-993 | the deadline of readRaw moves with the first bytes received, to the time sampled after them plus the packet timeout, and only then |
| Drivers.Driver.AwaitOutput | src/Driver.cpp:1187-1194 | writePacket waits only after a write that left something, and when the timeout had not elapsed by the clock sample before, for the time left, computed in ints as the source does, for every timeout; a packet timeout is raised only when it has elapsed, one without a kind exactly if the wait went unanswered, and any other error is the fault of the wait |
| Drivers.Driver.WriteToStream | src/Driver.cpp:1168-1196 | writePacket over any partial writes: what the stream accepted and what every listener heard is the same prefix of the buffer, all of it on success, when tx grows once by its size; on an error the prefix is proper and tx is unchanged; on a packet timeout it has elapsed, a timeout without a kind is raised exactly if a wait went unanswered, and a fault exactly if a write or a wait ended in it; each write but the first follows on a wait that was answered; every wait is for the time left, computed in ints, and none is asked for once the timeout was found elapsed |
| Drivers.Driver.WritePacket | src/Driver.cpp:1168-1196 | the same as callers see it, kinds of timeout included, with the error for a missing stream; nothing that belongs to reading is changed |
| Listeners.BufferListener.ReadData | src/IOListener.cpp:30-33 | data read is appended to the traffic read, and the traffic written is unchanged |
| Listeners.BufferListener.WriteData | src/IOListener.cpp:24-27 | data written is appended to the traffic written, and the traffic read is unchanged |
| Listeners.BufferListener.FlushRead | src/IOListener.cpp:8-13 | a flush hands over what was read since the last one; flushed and pending data remain the full traffic |
| Listeners.BufferListener.FlushWrite | src/IOListener.cpp:14-19 | the same for data written |
| Listeners.ToldMore | src/IOListener.cpp:24-33 | being passed two pieces of data is being passed them joined, in both directions and for every listener |
| Timeouts.ElapsedIsClose | src/Timeout.cpp:19-29 | the elapsed milliseconds, computed with C's division, are never negative and less than 1 ms from the true time |
| Timeouts.ElapsedIsMonotone | src/Timeout.cpp:19-29 | they never decrease, also where the seconds change |
| Timeouts.LeftAndElapsedAddUp | src/Timeout.cpp:36-46 | within int range, time left and elapsed add up to the timeout until it is exceeded, and then nothing is left |
| Timeouts.LeftEndsInTime | src/Timeout.cpp:36-46 | a wait for the time left in milliseconds would end less than 1 ms past the timeout, or be no wait, for every timeout an int can hold |
| Timeouts.ShortWaitEndsInTime | src/Driver.cpp:1187-1194 | the wait asked for, which is that time multiplied by 1000 in an int, is that wait for timeouts up to 2147483 ms |
| Timeouts.LongWaitOverflows | src/Driver.cpp:1192 | for 2147484 ms, with nothing elapsed, the product overflows and the wait asked for is negative |
| Timeouts.WaitsEndInTimeIffShort | src/Driver.cpp:1187-1194 | for all timeouts an int can hold, also negative ones: all waits of a write are zero or positive and end less than 1 ms past the timeout, if and only if the timeout is at most 2147483 ms |
| Writing.ShortWritesEndInTime | src/Driver.cpp:1187-1194 | so seen from outside, the waits of a write with such a timeout end in time |
| Writing.ElapsedMeansExpired | src/Timeout.cpp:19-29 | a timeout is reported only once it is past, and always 2 ms later |
| Writing.NoWaitAfterTimeout | src/Driver.cpp:1187-1194 | so a write asks for no wait once the sample before it was taken 2 ms past the timeout |
| Timeouts.NegativeTimeout | src/Timeout.cpp:5-8 | a negative timeout never elapses and leaves no time |
| Timeouts.Timeout.Elapsed | src/Timeout.cpp:14-28 | the answer is that for the time it samples |
| Timeouts.Timeout.Left | src/Timeout.cpp:30-46 | the same for the time left |
| DriverRuns.CallFits | src/Driver.cpp:1000-1046 | an internal call of a driver is a read of the run it is in, with the same effect and the same bytes handed out |
| DriverRuns.VisitsFit | src/Driver.cpp:1105-1154 | a readPacket is as many reads as it makes attempts, of which only the last hands something out |
| DriverRuns.RawFits | src/Driver.cpp:956-998 | a readRaw is one raw read of the run |
| DriverRuns.Serve | src/Driver.cpp:935-1196 | a driver that is asked for anything, reads of both kinds, writes and the rest, in any order and with any answers of its stream, is in the state of a run that serves the requests one by one, each by steps of its own kind; its callers got the answers those steps give, byte for byte; and its stream and listeners saw what the history of that run says |
| DriverRuns.ServedInOrder | src/Driver.cpp:935-1155 | so its buffer is the end of what it took from the stream, and its callers got slices of the rest, one behind the other; and in first-packet mode, for a resumable extractor, when only packets were asked for, with writes, queries and resets in between, what the callers got and then the packets queued are the packets of what it took |
| DriverRuns.ServedConserves | src/Driver.cpp:139-145 | in first-packet mode, whatever else was asked for, its counters, its queue and the bytes taken out by raw reads and clears add up to what entered the buffer since the last reset, modulo 2^32 |
| DriverRuns.ServedCountsAll | src/Driver.cpp:139-145 | and without raw reads, clears and resets, good_rx, bad_rx and the queue add up to all bytes taken from the stream |
| DriverRuns.ServedCountsPackets | src/Driver.cpp:864-913 | in either mode, through any switches, queries and writes, good_rx shows the sizes of the packets that left the buffer, returned or superseded, and of those the queries of extract-last mode saw; the packets of the bytes taken are the former and then the queued ones, and the callers got some of them, in order |
| DriverRuns.ServedIsHeard | src/IOListener.cpp:8-33 | over everything asked of a driver, each listener heard in each direction exactly what it had heard before, then all bytes taken from the stream, and all it accepted; what it accepted is the data of the writes in order, each in full if it succeeded and else a prefix; and without resets tx shows the sizes of the writes that succeeded, modulo 2^32 |
| Forwarding.RelayMore | src/Forward.cpp:22-35 | raw mode: a transfer keeps it true that what was accepted and then what is queued is what was queued and taken; an interrupted write leaves a prefix |
| Forwarding.SlicedMore | src/Forward.cpp:22-35 | packet mode, any extractor: what a transfer reads is a slice of the bytes queued at the start and taken since, behind those of earlier transfers; and what stays queued is what is behind it |
| Forwarding.OrderlyMore | src/Forward.cpp:22-35 | for a resumable extractor it is the next packet in first-packet mode; in extract-last mode all packets are gone after it, and those forwarded are among them in order |
| Forwarding.PacketMore | src/Forward.cpp:22-35 | a transfer keeps all this, and what was accepted are these packets, the last one perhaps cut short by an error |
| Forwarding.ForwardData | src/Forward.cpp:22-35 | one transfer: the read obeys its timeout and the write its own; read timeouts are no errors; what is read is written, completely unless an error is raised, which is the one its read or its write raised; the other direction is untouched, and nothing is left queued that could have been sent |
| Forwarding.ForwardStreams | src/Forward.cpp:52-76 | the two-way loop through one shared buffer: over the whole run, in each direction, raw mode keeps content and order, and packet mode accepts slices of the source's bytes in order which, for a resumable extractor, are its packets: each of them in first-packet mode, and in extract-last mode some of them, in order, when all others have left the buffer; at most one direction is cut short or loses a packet, by an error, which ends the run; each answer of select is followed in each direction it announces; after a completed transfer nothing stays queued that it could have moved; an answer of select that is no failure never ends the run by itself: it fails exactly if select does, with that error, or a transfer, with the error of its read or write; all transfers are in time, with the first read timeout in both directions and the write timeout of the receiving driver; and the loop ends on its own only at an end-of-file, goes on only when there is none, and transfers nothing when there was one before it started |
| Forwarding.Forward | src/Forward.cpp:37-76 | the same, with the error of a driver without a stream |
| UdpServers.WaitStoresFirstError | src/IOStream.cpp:261-292 | waitRead stores an error exactly if the first peek that does not bring an ignored error comes in time and brings it |
| UdpServers.LateWaitStoresNothing | src/IOStream.cpp:261-293 | when only ignored errors came in time, nothing is stored |
| UdpServers.LateWaitAsksOnce | src/IOStream.cpp:263-293 | and the answer is that of select, asked once more; it is no when select has nothing more to say |
| UdpServers.StoredIsNotIgnored | src/IOStream.cpp:272-292 | an error stored is never one that is ignored, and is announced as input |
| UdpServers.RunDefers | src/IOStream.cpp:256-350 | over any run, with fixed flags, the errors stored are those raised from store, in order, and the one that may be pending; and no ignored error is stored or raised by a read |
| UdpServers.PendingUntilRead | src/IOStream.cpp:256-310 | a pending error is not overwritten, makes every wait answer no, and is raised by the next read and done with |
| UdpServers.ReadDelivers | src/IOStream.cpp:322-333 | a read without a pending error delivers a datagram whole, or as much as there is room for |
| UdpServers.ReadRaisesIff | src/IOStream.cpp:304-350 | it raises the pending error, or else an error of the socket exactly if that is not EAGAIN and not to be ignored; for those it returns nothing |
| UdpServers.WriteReports | src/IOStream.cpp:357-382 | a write reports what was sent, or its whole size when the other side is not known or the error is to be ignored, and raises every other error |
| UdpServers.RunTracks | src/IOStream.cpp:304-350 | over any run the other side of a dynamic stream is the sender of the latest datagram and that of a fixed one never changes, one is known exactly if it was from the start or a datagram came, and the end of file is marked exactly by an empty delivery |
| UdpServers.KeptIffRaisedUnlessAgain | src/IOStream.cpp:275-287 | an error found by peeking is kept if and only if a read that met it would have raised it, unless it is EAGAIN |
| UdpServers.WriteDiffersFromPlain | src/IOStream.cpp:357-382 | a write raises every error that is not ignored, and differs from FDStream's in that exactly for EAGAIN and ENOBUFS |
| UdpServers.UdpServerStream.WaitRead | src/IOStream.cpp:256-294 | the loop of waitRead stores and answers what it does on values, and changes nothing else |
| UdpServers.UdpServerStream.Read | src/IOStream.cpp:304-350 | a read raises what is pending without asking the socket; otherwise it delivers the start of the datagram, learns its sender where it should, and marks the end of file |
| UdpServers.UdpServerStream.Write | src/IOStream.cpp:357-382 | a write goes to the known other side once, and nowhere before it is known |
| TestStreams.MockedRun | src/TestStream.cpp:58-96 | in mock mode a run of writes succeeds if and only if it is what was expected, in order, and then brings the replies in order |
| TestStreams.FailureIsLasting | src/TestStream.cpp:58-96 | after a failed write nothing is expected, and every further write fails |
| TestStreams.WritesAreKept | src/TestStream.cpp:58-102 | over any run of writes, in either mode and through failures, nothing written is lost or put out of order: what was written is what was expected and met, each replied to in order, and then what the test still finds; outside mock mode it finds all of it |
| TestStreams.WriteReports | src/TestStream.cpp:58-102 | a write that does not fail reports its size, and it fails exactly in mock mode when nothing is expected or something else, with an error that says which |
| TestStreams.TestStream.Read | src/TestStream.cpp:50-56 | a read is that of a stream that offers all it has |
| TestStreams.TestStream.Write | src/TestStream.cpp:58-102 | a write on the queues in place |
| TestStreams.TestStream.ExpectReply | src/TestStream.cpp:41-47 | an expectation is added in mock mode, and refused outside it |
| Uris.ParseIffGrammar | src/URI.cpp:8-66 | parse accepts exactly the grammar scheme://host[:port][?key=value(&key=value)*], with the meaning it has there |
| Uris.ParseRender | src/URI.cpp:8-66 | parsing the text of any well-formed parts gives those parts |
| Uris.ComponentsComeBack | src/URI.cpp:8-66 | in particular any scheme, host, int port and options come back |
| Uris.LastValueCounts | src/URI.cpp:44-63 | of several values given for a key the last one counts |
| Uris.KeysAreGiven | src/URI.cpp:44-63 | the keys are exactly those given |
| Uris.GivenOrDefault | src/URI.cpp:91-98 | getOption returns the value given last, or the default |
| Uris.StoiReads | src/URI.cpp:29 | the port is read back from the decimal notation of every int |
| Uris.StoiIffSpells | src/URI.cpp:27 | for every text: it is converted to n exactly if it begins with blanks, at most one sign, zeros and the decimal notation of an int n, with no digit behind; it is out of range exactly if it spells a number that is no int, and not a number exactly if it spells none |
| Uris.ErrorIsToBlame | src/URI.cpp:8-66 | a rejected text is rejected with the error for what is wrong with it: port missing its number, out of range or followed by something else, or options that are no pairs |
| Uris.NoSchemeIff | src/URI.cpp:9-13 | and for its missing scheme exactly if :// does not follow on its first colon |
| Uris.ParseOptionsFrom | src/URI.cpp:42-63 | the option loop over indices ends, and collects what the grammar says |
| Uris.ParseUri | src/URI.cpp:8-66 | the parser over indices computes the parse on suffixes that the theorems are about |
| LegacyUdp.NewStyleUnchanged | src/Driver.cpp:181-185 | a string with '?', '&' or '=' is parsed as it is |
| LegacyUdp.LocalPortRewritten | src/Driver.cpp:187-197 | udp://h:r:l is parsed as udp://h:r?local_port=l, for any h, r and l without those characters |
| LegacyUdp.OnePortUnchanged | src/Driver.cpp:187-192 | with a single port nothing is rewritten |
| LegacyUdp.NoPortRejected | src/Driver.cpp:187-197 | without a port the string is rejected, although the parser accepts it |
| LegacyUdp.ParseUdpIffOldSyntax | src/Driver.cpp:181-197 | the old syntax is accepted exactly as udp://host:port or udp://host:port:local with a number for the port, and means what the new one does |

## Left out

- Opening of sockets, files and serial ports, their options and ioctls: system calls without visible semantics.
- `FDStream`, `SocketStream` and the Unix socket streams: thin wrappers over select, read and write; a stream is any behaviour that keeps the stream contract above. Of `UDPServerStream` the error protocol is modelled, not the addresses' format.
- `Bus`, `Parser` and `BusHandler`: extraction calls back into handlers there, so it is not a pure extractor.
- `TCPDriver`, the command-line tools, `SerialConfiguration`, scheme validation, the defaults of UDP options and the formatting of bytes for display: finite tables and plumbing.
- Replacing a driver's stream during a run, and closing it: a driver keeps the stream it has.
- Ownership of streams and listeners, the time stamps in the status record, texts of error messages, and running out of memory.
- The constructor's check of the packet size, which creates an exception without throwing it: any capacity is allowed, also 0, where nothing can be read.
- Integer widths of buffer sizes: sizes are unbounded integers; only the counters and `Timeout` compute in 32 bits.
- Order among listeners: they are a set, visited in any order.
- Threads: no two calls overlap. Concurrency is modelled where the source has it, as the choices of select and of the other side.
- stoi of locales other than C's.
- The overloads of readPacket, readRaw and writePacket with default timeouts, and the conversion of timeouts from milliseconds.
- Forwarding.Forward: bounds the time of a transfer only by what its read and its write are allowed to wait. In extract-last mode it does not say which packets are superseded, as that depends on how the bytes arrive; and the read that raises an error may lose some.
- UdpServers.RunDefers: is about runs with fixed flags; a flag that is set while an error is pending does not un-store it.
