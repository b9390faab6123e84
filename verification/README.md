# Verification of the HydraStream data plane

A Dafny model of the Rust data plane in `crates/hydra-engine` and of the Go cell-motion detector, with
proofs about every input, every interleaving or every run.

`dafny verify dfyconfig.toml` checks the project.

**Locks and rings.** `HybridMutex`, `Semaphore`, `ParkingTable`, `HubWake`, `HubRing`, `PeerList`,
`Gateway` and `Shm` are state machines over single atomic steps of any number of threads. `Op` names the
steps, `Enabled` says when a thread can take one, `Apply` is the state after it, `Run` is a whole
interleaving. A class beside each machine holds the same state in fields and updates it in place; each of
its methods is one step and is proved equal to `Apply`, and some are whole operations without
interruption. Spurious wake-ups, spurious failures of weak exchanges, timeouts and the 32-bit wrap of the
futex words are part of the machines. `futex_wait` sleeps atomically if and only if the word has the
expected value. `ParkingBuckets` refines the one map of `ParkingTable` into the 16 buckets of the source.
`ShmMemory` is the mapped file updated in place, `ShmRuns` builds the runs that show what the conditions on
shared-memory reads are needed for, and `ShmLayout` says where every byte of the mapping is. `HubRuns` says what
hub readers get, and what overlapping publishes and late readers do. `PeerRuns` follows a peer's node from its
registration on, and `Rings` holds what the two rings share.

**Byte streams.** `RtmpChunk` reads, `RtmpWriter` writes, `RtmpSession` runs the connection loop and
interleaves senders, `RtmpExact` says exactly which messages survive the round trip, and `RtmpDelta` has a
sender of its own for the header formats the repository's writer never emits. `Avcc`, `AnnexB` and `Video` go
from length-prefixed units over the incremental start-code splitter to numbered frames; `VideoLaws` adds the
shared-memory writers and damaged input. `Bytes` and `Seqs` are arithmetic and sequence facts.

**Arithmetic and state.** `Governor`, `CircuitBreaker`, `Motion`, `MotionLaws` (what the detector's numbers
mean) and `MotionRuns` (what it does over time).

## Where the code differs from what one would expect

The model follows the code. The lemmas named here show each difference.

- The hub samples the notify word after it has checked the head, so a reader can sleep on a frame it has
  not seen (`HubWake.WindowIsReal`); what holds instead is `HubWake.SleepsThroughOnlyTheWindow`.
- `publish` loads the head and then stores it, so publishes must not overlap (`HubRuns.HeadIsTotalIffDisjoint`,
  `HubRuns.TwoPublishersCollide`), although `dispatch_frame` calls it without a lock.
- A hub reader looks at the newest frame only, so it sleeps through a wanted frame behind an unwanted one
  (`HubWake.HiddenFrameIsSleptThrough`).
- A new gateway client misses the frames sent between its first key frame and its attach point
  (`Gateway.MissedBehindKeyFrame`).
- A hub or shared-memory reader overtaken by a whole ring can get a dropped or another frame
  (`HubRuns.LateReaderOfEveryHub`, `ShmRuns.LateReaderGetsAnother`); short of that it gets exactly its
  frame.
- A shared-memory reader takes slot count and slot size from 32-bit header fields, while the writer uses its
  own. When they differ timely reads fail (`ShmRuns.InexactReadersFail`), unless there is one slot.
- A publish command installs a new gateway without resetting the frame number, and frames made before it are
  numbered and given to nobody, so a gateway's first frame need not be number 1
  (`Video.GatewaysFramesAreConsecutive`, `Video.PictureBeforePublish`).
- The motion flag also clears inside the cooldown, on the first frame after an accepted configuration
  (`MotionRuns.ReconfiguringClears`).
- The motion detector samples two-channel frames as if they had three channels, and reads past a buffer that
  ends with its last pixel when it samples that pixel (`Motion.ReadsPastIffUnreadable`).
- After 2^32 failures since the count was zeroed the circuit breaker's count wraps, and a failure then neither
  restarts the cooldown nor reopens a probing breaker (`CircuitBreaker.WrapForgetsFailures`).
- `write_rtmp_message` emits nothing for an empty payload and never an extended timestamp, so the round
  trip holds exactly for faithful messages (`RtmpExact.RoundTripIffFaithful`). The reader adds no delta
  and reads no extended timestamp for format 3.
- The splitter panics exactly when its first read has fewer than four bytes
  (`AnnexB.ReadBoundariesDoNotMatter`). Trailing zero bytes of a unit do no harm, since start codes have
  four bytes (`Avcc.SplitRecoversUnits`).
- The two frame-rate filters differ at interval zero on timestamps that go back (`Governor.FormsAgree`).
- A park that times out leaves its entry in the table, and the next `unpark_all` counts it
  (`ParkingTable.TimeoutLeavesEntry`).
- A park whose deadline passes between its look at the flag and its check returns false although it was notified
  (`ParkingTable.DeadlineWins`).
- A ring created for frames of 2^32 bytes or more takes no whole frame (`ShmLayout.WholeFramesFit`).
- More releases than acquires wrap the semaphore after 2^32 (`Semaphore.PermitsPlusHeldIsMax`).

## Model

| member | source | states |
|---|---|---|
| HybridMutex.Mutex.TryAcquire | crates/hydra-engine/src/sync.rs:108-120 | The compare-exchange takes the lock exactly when the word is UNLOCKED and otherwise leaves it alone |
| HybridMutex.Mutex.SwapWaitersStep | crates/hydra-engine/src/sync.rs:141-147 | The contended path marks waiters; the thread owns the lock exactly if the word was UNLOCKED before |
| HybridMutex.Mutex.UnlockStep | crates/hydra-engine/src/sync.rs:149-157 | Unlock frees the word and owes a wake exactly if waiters were marked |
| HybridMutex.StepKeepsInv | crates/hydra-engine/src/sync.rs:108-158 | Every atomic step of every thread keeps mutual exclusion, word-tracks-holder, covered sleepers and no lost update |
| HybridMutex.ReachableIsSafe | crates/hydra-engine/src/sync.rs:108-158 | In every interleaving of any number of threads: at most one holder, the word is 0 iff nobody holds, a sleeper is covered by the waiters mark, a pending wake or a pending swap, and increments under the guard are never lost |
| HybridMutex.FreeLockIsNotForgotten | crates/hydra-engine/src/sync.rs:122-158 | Threads are never all asleep on a free lock: some awake thread still owes a wake or a swap |
| HybridMutex.ProgressStep | crates/hydra-engine/src/sync.rs:108-158 | From every reachable state that is not at rest some awake thread has a step that brings the system closer to rest |
| HybridMutex.CanAlwaysDrain | crates/hydra-engine/src/sync.rs:108-158 | Deadlock freedom: from every safe state some continuation lets all threads finish and frees the mutex, with no new calls and no spurious wakes |
| HybridMutex.UncontendedLock | crates/hydra-engine/src/sync.rs:108-157 | A lock and unlock on a free mutex takes it at once, makes no system call, owes no wake and leaves the word free |
| HybridMutex.SpinsOneHundredTimes | crates/hydra-engine/src/sync.rs:125-129 | On a lock held without waiters a thread looks at the word a hundred times, and once more before it retries |
| Semaphore.AtomicSemaphore.ExchangeStep | crates/hydra-engine/src/sync.rs:34-47 | A permit is taken by weak compare-exchange: success takes exactly one, failure takes none |
| Semaphore.AtomicSemaphore.ReleaseStep | crates/hydra-engine/src/sync.rs:65-72 | Release adds one, wrapping at 32 bits, and owes a wake-all exactly if the count was 0 |
| Semaphore.PermitsPlusHeldIsMax | crates/hydra-engine/src/sync.rs:34-72 | Over any run: permits plus outstanding acquires is the maximum, exactly until unmatched releases wrap the counter |
| Semaphore.SleepersMeanNoPermits | crates/hydra-engine/src/sync.rs:34-72 | A thread asleep while permits are available means some releaser that saw 0 still has its wake-all pending |
| Semaphore.UndisturbedAcquireSucceeds | crates/hydra-engine/src/sync.rs:34-62 | On a positive counter an acquire, wherever it stands, takes exactly one permit in at most four steps of its own, if nobody disturbs it and its deadline does not pass |
| Semaphore.TimedOutSawZero | crates/hydra-engine/src/sync.rs:36-54 | An acquire that times out loaded 0 last, in every interleaving |
| Semaphore.WakerReleasedOntoZero | crates/hydra-engine/src/sync.rs:65-72 | Only a release that found no permits wakes |
| ParkingBuckets.BucketIndex | crates/hydra-engine/src/sync.rs:205-208 | The bucket is in 0..15: low nibble of the key exclusive-or its second nibble |
| ParkingBuckets.IndexBits | crates/hydra-engine/src/sync.rs:205-207 | Each of the four bits of the index is set exactly if the key's bit there and the one four places above differ |
| ParkingBuckets.FlatLookup | crates/hydra-engine/src/sync.rs:205-256 | Looking a key up in its bucket is looking it up in one flat map |
| ParkingBuckets.FlatPut | crates/hydra-engine/src/sync.rs:210-222 | Storing a key into its bucket stores it into the flat map and disturbs no other key |
| ParkingBuckets.FlatRemove | crates/hydra-engine/src/sync.rs:237-243 | Removing a key from its bucket removes it from the flat map and disturbs no other key |
| ParkingBuckets.Table.ParkStep | crates/hydra-engine/src/sync.rs:210-222 | The locked half of park on the 16 buckets is the flat machine's Park step |
| ParkingBuckets.Table.UnparkAllStep | crates/hydra-engine/src/sync.rs:237-256 | The locked half of unpark_all takes the key's entries out of one bucket, is the flat machine's step, and returns how many it took, timed-out ones included |
| ParkingTable.UnnotifiedIsFindable | crates/hydra-engine/src/sync.rs:210-256 | An entry nobody notified is in the table under its own key or held by a draining unpark_all that still owes it the store |
| ParkingTable.SleeperUnnotifiedOrOwed | crates/hydra-engine/src/sync.rs:222-256 | At every moment of every run a sleeper has its flag clear, or some unpark_all that set it is still to make the wake |
| ParkingTable.SleepersAreParked | crates/hydra-engine/src/sync.rs:210-256 | With no unpark_all under way every sleeper is un-notified and in the table under its key: no wake-up is lost |
| ParkingTable.TrueMeansTaken | crates/hydra-engine/src/sync.rs:222-256 | If park returned true then some step of the run was an unpark_all on the entry's own key that found the entry among that key's waiters, and the entry is out of the table under every key |
| ParkingTable.NotifiedParkReturnsTrue | crates/hydra-engine/src/sync.rs:224-236 | Once its flag is set, a park returns true in at most three steps of its own, unless its deadline passes before it looks again |
| ParkingTable.FlagStaysAndWakes | crates/hydra-engine/src/sync.rs:246-252 | No step clears a flag, and the wake owed to a sleeper sends it back to look at the flag |
| ParkingTable.DeadlineWins | crates/hydra-engine/src/sync.rs:226-231 | A deadline that passes between the look at the flag and the check makes park return false, notified or not |
| ParkingTable.TimeoutLeavesEntry | crates/hydra-engine/src/sync.rs:228-235 | A park that timed out leaves its entry behind until an unpark_all on its key takes it |
| RtmpChunk.ChunkReader.ReadBasicHeader | crates/hydra-engine/src/rtmp/chunk.rs:45-60 | The basic header read field by field is ParseBasic of the input, one to three bytes, and an early end is an error |
| RtmpChunk.ChunkReader.ReadMessageHeader | crates/hydra-engine/src/rtmp/chunk.rs:62-111 | Formats 0 to 3 update the chunk stream as ParseMessageHeader says; a header that starts a message discards what was buffered |
| RtmpChunk.ChunkReader.ReadChunkPayload | crates/hydra-engine/src/rtmp/chunk.rs:113-131 | The payload part appends at most one chunk and takes the buffer when the announced length is reached |
| RtmpChunk.ChunkReader.ReadRtmpMessage | crates/hydra-engine/src/rtmp/chunk.rs:39-132 | The whole read loop is ReadMessage of the unread input and the chunk streams, and terminates on any finite input |
| RtmpChunk.ReadChunkOnAnyBytes | crates/hydra-engine/src/rtmp/chunk.rs:44-131 | On any bytes: buffers stay empty or shorter than announced, no stream changes but the one the basic header addresses, a delivered message is that stream's and has exactly its announced length, at least one byte is used; a cut-off basic header changes nothing |
| RtmpChunk.ReadMessageOnAnyBytes | crates/hydra-engine/src/rtmp/chunk.rs:39-132 | Reading a message from any bytes keeps the buffers in order, changes only the streams its chunks address, and hands out only a payload of exactly the announced length, on the stream of its last chunk |
| RtmpWriter.ChunkWriter.WriteRtmpMessage | crates/hydra-engine/src/rtmp/chunk.rs:135-172 | The writer loop appends exactly Encode of the message: a 12-byte header chunk, then one-byte headers; nothing at all for an empty payload |
| RtmpWriter.EncodedLength | crates/hydra-engine/src/rtmp/chunk.rs:135-172 | A non-empty message of n bytes at chunk size c occupies 12 + n + (ceil(n/c) - 1) bytes |
| RtmpWriter.WrittenChunkRead | crates/hydra-engine/src/rtmp/chunk.rs:39-172 | Reading one written chunk advances its stream by exactly that chunk and delivers the message at the last one |
| RtmpWriter.WrittenMessageRead | crates/hydra-engine/src/rtmp/chunk.rs:39-172 | Round trip: a faithful message is read back whole, whatever was buffered before, leaving its buffer empty and the rest of the input untouched |
| RtmpDelta.ItemRead | crates/hydra-engine/src/rtmp/chunk.rs:39-132 | A message in format 0, 1 or 2, in any form of basic header, with or without an extended timestamp, in any chunk size, is read back: format 1 takes its own length and type and adds its delta, format 2 takes the previous ones and adds its delta |
| RtmpDelta.DeltasAreSummed | crates/hydra-engine/src/rtmp/chunk.rs:62-111 | Any run of such messages on any chunk streams is delivered with timestamps equal to the sums, modulo 2^32, of the deltas since the last format 0 header of the stream |
| RtmpExact.MessageCost | crates/hydra-engine/src/rtmp/chunk.rs:39-132 | Whatever the bytes, a message costs its missing payload bytes, one header byte for every chunk they need, and the rest of the first header: no chunking is cheaper than the writer's |
| RtmpExact.RoundTripIffFaithful | crates/hydra-engine/src/rtmp/chunk.rs:39-172 | A fresh reader gets back the very message written if and only if its csid is in 2..63, its timestamp is below 0xFFFFFF and its length fits 24 bits |
| RtmpSession.Session.Handle | crates/hydra-engine/src/rtmp/server.rs:108-129 | A Set Chunk Size message with a positive value changes the incoming chunk size, nothing else does; a command whose reply cannot be written is an error |
| RtmpSession.SizeAfter | crates/hydra-engine/src/rtmp/server.rs:109-115 | Byte by byte: a message of type 1 whose payload starts with the four bytes of n > 0, most significant first, sets the size to n; any other type, a shorter payload and n = 0 keep it |
| RtmpSession.Session.Serve | crates/hydra-engine/src/rtmp/server.rs:102-130 | The connection loop delivers exactly the transcript of the input, sizes changing between messages, cut short with an error at the first command that cannot be answered |
| RtmpSession.ServedCut | crates/hydra-engine/src/rtmp/server.rs:117-124 | The transcript is cut exactly if there are more commands than can be answered, and then ends with the first that cannot |
| RtmpSession.SessionIsChunkRun | crates/hydra-engine/src/rtmp/server.rs:102-130 | Reading message by message and chunk by chunk is the same session |
| RtmpSession.InterleavedRead | crates/hydra-engine/src/rtmp/chunk.rs:39-172 | Any interleaving of the chunks of messages on distinct csids, with size changes, is reassembled into exactly the finished messages in the order of last chunks |
| RtmpSession.EachMessageOnce | crates/hydra-engine/src/rtmp/chunk.rs:39-172 | Every message is finished or still open as often as it was begun: none lost, none duplicated |
| RtmpSession.InterleavingDeliversAll | crates/hydra-engine/src/rtmp/chunk.rs:39-172 | A fresh session fed an interleaving that finishes what it begins delivers each message exactly once and ends cleanly |
| RtmpSession.WrittenRunRead | crates/hydra-engine/src/rtmp/server.rs:102-130 | A written run in which the size changes right after each Set Chunk Size is decoded to the same messages, minus the empty ones |
| RtmpSession.AnnouncedSizesAreFollowed | crates/hydra-engine/src/rtmp/server.rs:102-130 | Messages chunked at sizes given from outside, each the size the message before announced or the same as before, are delivered exactly |
| AnnexB.FindNalBoundary | crates/hydra-engine/src/transcode.rs:248-257 | The scan returns the least start-code position, or None if there is none |
| AnnexB.SplitConserves | crates/hydra-engine/src/transcode.rs:208-246 | Units followed by the accumulator are the input |
| AnnexB.SplitCutsAtStartCodes | crates/hydra-engine/src/transcode.rs:208-258 | Every cut is at a start code, and no start code past the first four bytes of a unit is missed |
| AnnexB.SplitAppend | crates/hydra-engine/src/transcode.rs:208-246 | Splitting, appending and splitting the accumulator is splitting everything at once |
| AnnexB.ReadBoundariesDoNotMatter | crates/hydra-engine/src/transcode.rs:208-246 | For any partition into non-empty reads the loop ends with the batch split of the whole stream, unless the first read is shorter than four bytes, in which case and only then it panics |
| AnnexB.SplitterTask.DrainUnits | crates/hydra-engine/src/transcode.rs:215-238 | The inner loop drains exactly the units of the split off the accumulator and publishes them under consecutive numbers |
| AnnexB.SplitterTask.ReaderLoop | crates/hydra-engine/src/transcode.rs:198-246 | The reader loop publishes exactly the units of the folded reads, numbered without gaps, and panics exactly when the fold does |
| AnnexB.FrameOfUnit | crates/hydra-engine/src/transcode.rs:215-238 | Each published frame carries its unit, the number of its place, and the flags of its H.264 type |
| Avcc.ConvertAvccToAnnexB | crates/hydra-engine/src/rtmp/video.rs:15-28 | The cursor loop appends a start code and the bytes of each whole unit, and stops at the first that is not whole |
| Avcc.PrefixedRoundTrip | crates/hydra-engine/src/rtmp/video.rs:15-28 | Length-prefixed units are read back exactly, with any truncated tail behind them |
| Avcc.Decompose | crates/hydra-engine/src/rtmp/video.rs:15-28 | Every byte string is some whole units followed by a truncated rest |
| Avcc.LongestPrefix | crates/hydra-engine/src/rtmp/video.rs:15-28 | On truncated AVCC exactly the longest well-formed prefix of units is converted |
| Avcc.SplitRecoversUnits | crates/hydra-engine/src/transcode.rs:208-258 | Splitting an Annex-B stream recovers its units if and only if no unit but the last embeds 00 00 01 and the last embeds no boundary; trailing zeros are harmless |
| Avcc.AvccToUnits | crates/hydra-engine/src/rtmp/video.rs:15-28 | Converting length-prefixed units and splitting the result recovers exactly those units, under exactly that condition |
| Avcc.CodedUnitType | crates/hydra-engine/src/codec.rs:28-84 | The type of a recovered unit is read off the unit's own first byte |
| AnnexB.FlagsOfH264 | crates/hydra-engine/src/codec.rs:28-94 | On units built from a start code of three or four bytes, nal_ref_idc and type: type 5 carries key frame and parameter sets, 7 and 8 parameter sets, 1 delta frame, any other nothing |
| AnnexB.FlagsOfH265 | crates/hydra-engine/src/codec.rs:47-94 | The same for H.265: types 19 and 20, 32 to 34, and 1 and 2 |
| AnnexB.FlagsWithoutUnit | crates/hydra-engine/src/codec.rs:28-94 | A bare start code and data of less than three bytes carry nothing; data without a start code is classified by its own first byte |
| Video.CopySets | crates/hydra-engine/src/rtmp/video.rs:40-69 | One parameter-set loop copies up to `count` sets behind start codes and reports a cut-off set |
| Video.ExtractSpsPpsFromAvcc | crates/hydra-engine/src/rtmp/video.rs:31-77 | Both loops together give the sets of the record in Annex-B form, or None when too short, cut off in the SPS list, or empty |
| Video.RecordRoundTrip | crates/hydra-engine/src/rtmp/video.rs:31-77 | Every well-formed decoder configuration record gives back its SPS and PPS in order |
| VideoLaws.DamagedRecords | crates/hydra-engine/src/rtmp/video.rs:31-77 | A record under seven bytes or with a cut-off SPS yields nothing, one that ends behind its SPS list yields those, and one with a cut-off PPS list yields the whole entries |
| Video.VideoSession.HandleVideoMessage | crates/hydra-engine/src/rtmp/video.rs:79-152 | A video message updates the cached header, or numbers a frame and gives it to the writer and the gateway in use, where there is one |
| VideoLaws.VideoMessageExactly | crates/hydra-engine/src/rtmp/video.rs:79-152 | Exactly which messages change what: only codecs 7 and 12, packet type 0 for the cached header, packet type 1 for frames; a key frame is one whose upper half byte is 1, and is led by the cached header; an empty frame is not made |
| VideoLaws.MessagesByType | crates/hydra-engine/src/rtmp/server.rs:108-129 | Type 9 is video, type 20 with the string "publish" is a publish command, and nothing else touches frames, gateways or writers |
| Video.VideoSession.HandlePublish | crates/hydra-engine/src/rtmp/amf.rs:173-181 | A publish command installs a new gateway, and a new writer if its mapping could be created, and does not reset the frame number |
| Video.GatewaysFramesAreConsecutive | crates/hydra-engine/src/rtmp/video.rs:117-148 | A gateway is given every frame made between its publish command and the next, non-empty and consecutively numbered; the numbers start at 1 if and only if no frame was made before its publish command |
| VideoLaws.WritersFramesAreTheGateways | crates/hydra-engine/src/rtmp/amf.rs:173-181 | A writer is given the bytes of every frame made between its publish command and the next that creates its mapping, in order, the very frames the gateways are given; a publish command whose mapping fails keeps the writer |
| Video.PictureBeforePublish | crates/hydra-engine/src/rtmp/video.rs:121-148 | Picture, publish, picture: the gateway gets one frame, numbered 2 |
| Video.HeaderStaysParameterSets | crates/hydra-engine/src/rtmp/video.rs:98-103 | The cached header is always a non-empty list of parameter sets |
| Video.FramesStayNumbered | crates/hydra-engine/src/rtmp/video.rs:79-152 | Over any messages, publish commands included, what the gateways were given one after the other is consecutively numbered, and every frame since the first publish command went to exactly one of them |
| Video.KeyframeCarriesParameterSets | crates/hydra-engine/src/rtmp/video.rs:79-152 | The frame made of a key picture behind a configuration carries SPS, PPS and its own units in that order and nothing else, and goes to the gateway and the writer in use |
| Video.WireToFrames | crates/hydra-engine/src/rtmp/server.rs:102-130 | What the session decodes from a written run leads to the same frames as the messages themselves |
| HubRing.Round | crates/hydra-engine/src/transport/hub.rs:42-44 | The capacity is positive and at least what was asked for |
| HubRing.RoundIsLeastPower | crates/hydra-engine/src/transport/hub.rs:42-44 | The capacity is 16 for 0 and otherwise the least power of two that reaches the request |
| Rings.LatestIsLargest | crates/hydra-engine/src/transport/hub.rs:63-64 | A slot's number is the largest published number congruent to it modulo the capacity |
| Rings.LatestWithinRing | crates/hydra-engine/src/transport/hub.rs:63-64 | A number keeps its slot until the number a whole ring later |
| HubRing.BroadcastHub.ClearStep | crates/hydra-engine/src/transport/hub.rs:71-75 | The slot's old payload is dropped exactly if the slot was ever stamped; it is then live |
| HubRing.BroadcastHub.Publish | crates/hydra-engine/src/transport/hub.rs:62-90 | A publish while no other is between its load and its store returns head + 1, counts one, keeps every ring and ownership invariant |
| HubRing.BroadcastHub.TryReadLatest | crates/hydra-engine/src/transport/hub.rs:130-147 | With nobody publishing: the last frame published if it is newer than last seen and shares a bit with the interest, else None |
| HubRing.BroadcastHub.Drop | crates/hydra-engine/src/transport/hub.rs:166-176 | After the hub is dropped every payload ever published has been dropped exactly once |
| HubRing.RingHoldsLatest | crates/hydra-engine/src/transport/hub.rs:62-90 | While publishes do not overlap, by however many threads, whenever none is under way: slot i holds the largest number congruent to i with its frame, head equals total_published equals the publishes, and exactly all but the last `capacity` payloads were dropped, oldest first |
| HubRing.EveryMoment | crates/hydra-engine/src/transport/hub.rs:62-90 | While publishes do not overlap, at every atomic step no payload is lost, dropped twice or dropped uninitialised, and a reader that read before frame h + capacity was begun has frame h |
| HubRing.MatchedReaderFinds | crates/hydra-engine/src/transport/hub.rs:100-113 | What a reader that matched frame h finds, exactly: its own frame live if and only if frame h + capacity has not been begun, or has been begun and has not yet cleared the slot; else the payload of the publish that last wrote the slot, dropped if just cleared |
| HubRuns.UndisturbedRead | crates/hydra-engine/src/transport/hub.rs:99-113 | A read that nobody disturbs gets exactly the newest frame if it is newer than last seen and shares a bit with the interest, else nothing |
| HubRuns.GotIsNewAndWanted | crates/hydra-engine/src/transport/hub.rs:99-113 | In any run, whatever the publishers do, a live payload handed to a reader shares a bit with the interest, and its number was the head and larger than last seen |
| HubRuns.HeadIsTotalIffDisjoint | crates/hydra-engine/src/transport/hub.rs:62-78 | Any number of publishers, any run: once all rest, head equals total_published if and only if no publish loaded the head while another was between its load and its store; the head is never larger |
| HubRuns.TwoPublishersCollide | crates/hydra-engine/src/transport/hub.rs:62-78 | From any state in which two publishers rest, such an overlap gives both the same number and leaves the head one behind the total |
| HubRuns.SinglePublisherIsDisjoint | crates/hydra-engine/src/transport/hub.rs:62-78 | Publishes of a single thread never overlap |
| HubRuns.LateReaderFindsDropped | crates/hydra-engine/src/transport/hub.rs:100-113 | The readers' condition is tight in every state: once frame h + capacity is begun and has cleared the slot, a matched reader of h finds its payload dropped |
| HubRuns.LateReaderOfEveryHub | crates/hydra-engine/src/transport/hub.rs:100-113 | Such a run exists from a fresh hub, for every requested capacity and every frame |
| HubWake.BroadcastHub.IncrementStep | crates/hydra-engine/src/transport/hub.rs:80 | The notify word is incremented modulo 2^32 |
| HubWake.BroadcastHub.EnterWaitStep | crates/hydra-engine/src/transport/futex.rs:75-94 | A wait sleeps exactly if the word still has the sampled value and the interest is not empty |
| Rings.BitAllMeets | crates/hydra-engine/src/transport/hub.rs:149-155 | The mask of close reaches every interest but the empty one |
| Rings.MeetsIffShareBit | crates/hydra-engine/src/transport/hub.rs:108 | The mask test holds if and only if some bit is set in both masks |
| HubWake.WakesExactlyTheInterested | crates/hydra-engine/src/transport/futex.rs:38-48 | A wake ends exactly the waits whose interest shares a bit with its mask and moves no other thread |
| HubWake.ClosedHubIsLeft | crates/hydra-engine/src/transport/hub.rs:95-97 | A reader at the top of its loop leaves if and only if the hub is closed |
| HubWake.StepKeepsInv | crates/hydra-engine/src/transport/hub.rs:62-155 | Every atomic step of publishers, closers and readers keeps the wake-up invariant |
| HubWake.SleepersAreOwedAWake | crates/hydra-engine/src/transport/hub.rs:80-127 | Every increment made since a reader went to sleep has a disjoint mask or a pending wake; between its sampling and its sleeping the increments number a multiple of 2^32 |
| HubWake.SleepsThroughOnlyTheWindow | crates/hydra-engine/src/transport/hub.rs:93-127 | With one publisher and short of a wrap, the only wanted publishes above the head it checked, and the only closes, that a reader can sleep through incremented between its checks and its sampling |
| HubWake.HiddenFrameIsSleptThrough | crates/hydra-engine/src/transport/hub.rs:100-125 | A wanted frame at or below the head it checked can be slept through as well: from a fresh hub, one hidden behind a newer unwanted frame is |
| HubWake.CloseMeetsEverySleeper | crates/hydra-engine/src/transport/hub.rs:149-155 | A close made since a reader went to sleep wakes it, whatever its interest |
| HubWake.WindowIsReal | crates/hydra-engine/src/transport/hub.rs:93-127 | Such a publish exists: from any state with a reader between its closed check and its head check, a run leaves it asleep on an unseen frame with the wake spent |
| HubWake.WindowFromFreshHub | crates/hydra-engine/src/transport/hub.rs:93-127 | That state is reached from a fresh hub, by any two threads, with any non-empty interest and any frame |
| Gateway.AsyncStreamGateway.DispatchFrame | crates/hydra-engine/src/gateway.rs:203-229 | A closed gateway refuses; a key frame reaches the cache and every frame the hub before the channel is tried; the result is the number of receivers |
| Gateway.AsyncStreamGateway.Subscribe | crates/hydra-engine/src/gateway.rs:233-265 | A closed gateway refuses; else the client gets the next id, the cached key frame and a receiver at the end of the log |
| Gateway.AsyncStreamGateway.Shutdown | crates/hydra-engine/src/gateway.rs:280-287 | Clears is_running and drops the sender; log and cache stay |
| Gateway.RecvFrame | crates/hydra-engine/src/gateway.rs:149-167 | The receive loop returns the first frame that shares a bit with the interest, from the oldest retained entry on, Closed only past the end of a closed channel |
| Gateway.ReceivesExactly | crates/hydra-engine/src/gateway.rs:149-161 | One turn of the loop: a client more than the capacity behind loses exactly the entries over it, any other loses none and takes the next entry if it shares a bit |
| Gateway.KeepingUpLosesNothing | crates/hydra-engine/src/gateway.rs:149-167 | In every interleaving a client that is never more than the capacity behind when it receives has got exactly the frames it wants from its attach point on, in order |
| Gateway.ClientKept | crates/hydra-engine/src/gateway.rs:203-265 | Whatever step another thread takes, for a client whose receiver is attached a key frame cached after it read the cache is never sent unheard and never before its attach point |
| Gateway.ThreadsKept | crates/hydra-engine/src/gateway.rs:203-265 | Every step of any thread keeps what each dispatcher carries and what each client has or will get |
| Gateway.StepKeepsInv | crates/hydra-engine/src/gateway.rs:203-287 | Every atomic step of dispatchers, subscribers and shutdowns keeps the invariant |
| Gateway.NoKeyFrameGap | crates/hydra-engine/src/gateway.rs:203-265 | In every interleaving each cached key frame is, for each client, read or superseded, on its way, or in the channel at or after the client's attach point, unless that very frame was refused because the gateway had shut down |
| Gateway.DrainedClientHasKeyFrames | crates/hydra-engine/src/gateway.rs:149-265 | A client that never lagged and has drained its receiver has been handed every wanted key frame since the one it started from |
| Gateway.MissedBehindKeyFrame | crates/hydra-engine/src/gateway.rs:149-265 | Of the wanted frames sent behind the key frame it started from, a client that never lagged misses exactly those sent before its attach point; none if no wanted frame was sent between the two |
| Gateway.ClientIdsDiffer | crates/hydra-engine/src/gateway.rs:248-252 | No two sessions share a client id |
| Shm.HeaderRoundTrip | crates/hydra-engine/src/shm.rs:82-91 | A slot header's 64 bytes read back as the fields written |
| Shm.SlotInside | crates/hydra-engine/src/shm.rs:180-186 | Every slot lies inside the mapping, so the bounds errors cannot occur |
| Shm.SlotsApart | crates/hydra-engine/src/shm.rs:180-186 | Bytes of different slots have different addresses |
| Shm.GeometryAgrees | crates/hydra-engine/src/shm.rs:136-155 | A reader opening at any moment after creation gets the writer's geometry if and only if slot count and slot size fit 32 bits |
| ShmLayout.HeaderIsLaidOut | crates/hydra-engine/src/shm.rs:64-76 | At every moment of every run the global header is, byte by byte, magic, version, width, height, format, slot count and slot size, the notify word counting the announced frames modulo 2^32, and the published sequence number |
| ShmLayout.FramesAreInTheirSlots | crates/hydra-engine/src/shm.rs:178-201 | With the writer at rest each of the last frames is in the slot of its number modulo the slot count, its header fields and bytes at their offsets |
| ShmLayout.WholeFramesFit | crates/hydra-engine/src/shm.rs:106-113 | At every moment a ring takes frames up to width x height x 3, or 4 in format 4, and not one byte more, if that is below 2^32; if it is not, no whole frame fits |
| ShmMemory.SharedRing.OpenRing | crates/hydra-engine/src/shm.rs:240-270 | A reader that opens keeps the slot count and slot size modulo 2^32 |
| ShmMemory.SharedRing.WriteFrame | crates/hydra-engine/src/shm.rs:170-218 | A frame larger than a slot is refused with nothing changed; any other is written and keeps the ring invariant |
| ShmMemory.SharedRing.ReadLatestFrame | crates/hydra-engine/src/shm.rs:277-311 | With the writer at rest a reader, by its own 32-bit geometry, gets exactly the newest frame if it is new to it, whenever its arithmetic is exact; its last number and the numbers it returned are updated only with a frame |
| Shm.StepKeepsInv | crates/hydra-engine/src/shm.rs:170-311 | Every byte-sized step of the writer and of any number of readers, each with the geometry it opened with, keeps the ring invariant |
| Shm.ReadsAreWhole | crates/hydra-engine/src/shm.rs:277-311 | Whenever the readers' arithmetic is exact (slot count below 2^32, and slot size below 2^32 or a single slot), a reader that loaded s and finished before the writer began frame s + N returned exactly frame s's header and payload; returned numbers always strictly increase |
| ShmRuns.InexactReadersFail | crates/hydra-engine/src/shm.rs:289-307 | For every geometry that is not exact a run fails: a timely reader panics on a slot count of 0, or returns all zeros as frame c |
| Shm.TimelySliceStaysInside | crates/hydra-engine/src/shm.rs:296-304 | The payload slice of a reader that had its header before frame s + N was begun lies inside the slot and the mapping, however late its bytes are read |
| ShmRuns.LateReaderGetsAnother | crates/hydra-engine/src/shm.rs:277-311 | The bound is tight from every state: if the writer gets through frame s + N before the reader copies, the reader returns frame s + N's header and payload as the answer for s |
| ShmRuns.TightForEveryGeometry | crates/hydra-engine/src/shm.rs:277-311 | Such a run exists from a fresh ring for every exact geometry and so every slot count |
| PeerList.LockFreePeerList.ExchangeStep | crates/hydra-engine/src/transport/peer_list.rs:36-49 | A successful exchange links the node in front of the chain; a failed or spurious one changes nothing shared |
| PeerList.LockFreePeerList.ActiveCount | crates/hydra-engine/src/transport/peer_list.rs:75-79 | The pointer walk counts exactly the active linked-in nodes |
| PeerList.LockFreePeerList.MarkInactive | crates/hydra-engine/src/transport/peer_list.rs:54-60 | Exactly the linked-in nodes that hold the client's id become inactive; nothing else about any node changes |
| PeerList.StepKeepsInv | crates/hydra-engine/src/transport/peer_list.rs:27-80 | Every atomic step keeps the chain, the private nodes, the count and every traversal in order |
| PeerList.ListIsChain | crates/hydra-engine/src/transport/peer_list.rs:27-52 | After any run the pointers lead through exactly the nodes whose exchange succeeded, newest first, each once, and end |
| PeerList.ChainOnlyGrows | crates/hydra-engine/src/transport/peer_list.rs:27-52 | Linked-in nodes stay in place over any further run and never become active again |
| PeerList.TraversalIsExact | crates/hydra-engine/src/transport/peer_list.rs:54-72 | A finished traversal handed out, each once, every node linked in at its start that is active still, and only nodes active at its start; after mark_inactive none of the client's such nodes is active |
| PeerRuns.RegisteredStays | crates/hydra-engine/src/transport/peer_list.rs:27-33 | A node carries the client id and interest mask it was registered with at every later moment of every run |
| PeerRuns.MarkInactiveReachesItsClient | crates/hydra-engine/src/transport/peer_list.rs:54-60 | A finished mark_inactive leaves inactive every node registered for its client and linked in when it began |
| PeerRuns.OnlyItsClientMarks | crates/hydra-engine/src/transport/peer_list.rs:54-60 | A node is deactivated only by a mark_inactive of the client it was registered for |
| PeerList.QuiescentCounts | crates/hydra-engine/src/transport/peer_list.rs:75-79 | At quiescence the count is the registrations and active_count is the registrations minus the deactivated nodes |
| Governor.FpsGovernor.ShouldDispatch | crates/hydra-engine/src/governor.rs:32-50 | One decision updates the last dispatched time and exactly one of the counters |
| Governor.FpsGovernor.SetTargetFps | crates/hydra-engine/src/governor.rs:25-30 | A new rate changes the interval only |
| Governor.IntervalIsPeriod | crates/hydra-engine/src/governor.rs:12-29 | The interval is the whole microseconds of a period: interval x rate is at most 1000000 and one more is over it, below saturation; a rate that is not positive counts as 30 for the governor and switches the coroutine off |
| Governor.RateIsKept | crates/hydra-engine/src/governor.rs:32-50 | On non-decreasing timestamps the passed frames are at most one more than the periods the stream lasts, up to the dropped fraction of a microsecond |
| Governor.FpsGovernor.DispatchAll | crates/hydra-engine/src/governor.rs:32-50 | Over a stream passed plus dropped equals calls |
| Governor.PassedAreSpaced | crates/hydra-engine/src/governor.rs:32-50 | Consecutive passed frames are at least the interval apart |
| Governor.GovernorIsOptimal | crates/hydra-engine/src/governor.rs:32-50 | On non-decreasing timestamps the passed frames are a spaced selection and no spaced selection is larger |
| Governor.FpsFilterCoroutine.Resume | crates/hydra-engine/src/coroutine.rs:106-120 | Key frames always pass; other frames pass after the interval |
| Governor.FormsAgree | crates/hydra-engine/src/coroutine.rs:106-120 | On streams without key frames the coroutine and the governor decide alike, if and only if the interval is positive or the timestamps do not go back |
| CircuitBreaker.StreamCircuitBreaker.AllowRequest | crates/hydra-engine/src/resilience.rs:53-73 | Allowed exactly when not Open or when the cooldown has passed; a probe moves the breaker to Half-Open |
| CircuitBreaker.StreamCircuitBreaker.RecordSuccess | crates/hydra-engine/src/resilience.rs:75-87 | A success resets failures, and the third one in Half-Open closes |
| CircuitBreaker.StreamCircuitBreaker.RecordFailure | crates/hydra-engine/src/resilience.rs:89-95 | A failure is counted and, once the count reaches the threshold, opens the breaker in any state and restarts the cooldown |
| CircuitBreaker.TripsOnThreshold | crates/hydra-engine/src/resilience.rs:89-95 | Over any run, of any length, the breaker trips in Closed exactly on the threshold-th failure since the last success or reset |
| CircuitBreaker.FailureRecorded | crates/hydra-engine/src/resilience.rs:89-95 | A failure opens the breaker and restarts the cooldown if and only if the 32-bit count it brings about reaches the threshold |
| CircuitBreaker.OpenWaitsForCooldown | crates/hydra-engine/src/resilience.rs:53-73 | From Open a request is allowed if and only if the cooldown has passed since the most recent recorded failure, which is the most recent failure while the 32-bit count reaches the threshold |
| CircuitBreaker.ProbeFailureReopens | crates/hydra-engine/src/resilience.rs:89-95 | One failure while probing reopens the breaker if and only if the count has not just wrapped below the threshold, so always for the first 2^32 - 1 failures since it was zeroed |
| CircuitBreaker.ClosesOnThirdSuccess | crates/hydra-engine/src/resilience.rs:75-87 | Of successes exactly the third since a probe was let through closes it, and no other call but a reset does; in between there was no failure, but for failures whose count had wrapped below the threshold |
| CircuitBreaker.WrapForgetsFailures | crates/hydra-engine/src/resilience.rs:89-95 | At any threshold the 2^32-th failure since the count was zeroed neither restarts the cooldown nor reopens a probing breaker |
| Motion.Validate | internal/domain/motion.go:40-60 | A bad grid or sensitivity is refused, other fields out of range get their defaults, and an accepted configuration is valid |
| MotionLaws.ValidatedFields | internal/domain/motion.go:40-60 | Grid and sensitivity are kept; threshold, ratio, cooldown and pre-buffer are kept in range and else 18, 0.02, 5 and 5 |
| Motion.StreamMotionState.SetConfig | internal/adapters/secondary/vmd/cell_motion_detector.go:57-67 | A refused configuration changes nothing, an accepted one drops the baseline |
| Motion.ReadsPastIffUnreadable | internal/adapters/secondary/vmd/cell_motion_detector.go:126-141 | A sampled pixel is read past the buffer if and only if the frame has two channels, no byte behind its last pixel, and columns and rows divide it evenly into cells of odd width and height |
| Motion.ReadInBounds | internal/adapters/secondary/vmd/cell_motion_detector.go:126-141 | With any channel count every byte read for a pixel lies inside the buffer, but for the last pixel of a tight two-channel frame |
| Motion.StreamMotionState.SampleCells | internal/adapters/secondary/vmd/cell_motion_detector.go:113-147 | The nested sampling loops compute the average of every cell of the grid, row by row |
| MotionLaws.LightIs | internal/adapters/secondary/vmd/cell_motion_detector.go:127-136 | The pixel's bytes are at its place in row order; one channel is the intensity, three or more weigh 0.299, 0.587 and 0.114 |
| MotionLaws.AverageIsMean | internal/adapters/secondary/vmd/cell_motion_detector.go:113-147 | Making one pixel lighter by d raises the average of the cell that samples it by d over the number of samples, and of no other cell |
| MotionLaws.UniformCell | internal/adapters/secondary/vmd/cell_motion_detector.go:113-147 | A cell whose sampled pixels are alike averages to their luminance |
| MotionLaws.CellsAreRowByRow | internal/adapters/secondary/vmd/cell_motion_detector.go:116-121 | Cell (cx, cy) stands at cy x columns + cx |
| Motion.CellsAreIntensities | internal/adapters/secondary/vmd/cell_motion_detector.go:113-147 | Every cell average lies in [0,255] |
| Motion.ObserveKeepsRange | internal/adapters/secondary/vmd/cell_motion_detector.go:156-183 | The baseline stays in [0,255], whatever frames are observed |
| Motion.StreamMotionState.AnalyzeFrame | internal/adapters/secondary/vmd/cell_motion_detector.go:87-206 | A frame of bad size is refused, and one that would be read past its buffer panics, with the state unchanged; any other moves the state as Observe says, and the event reports total and active cells, their ratio, the flag, and the time since the motion began |
| MotionLaws.FrameCountsAsMotion | internal/adapters/secondary/vmd/cell_motion_detector.go:163-198 | A frame with a baseline sets the flag and dates the motion if and only if the cells that differ by at least the threshold are at least the configured share of all cells |
| MotionLaws.ThresholdAt | internal/adapters/secondary/vmd/cell_motion_detector.go:163-165 | The threshold is the configured one at sensitivity 50, twice that at 0, half at 75, a fifth from 90 on, never below 2 |
| MotionLaws.ThresholdFalls | internal/adapters/secondary/vmd/cell_motion_detector.go:163-165 | It falls as sensitivity rises and rises with the configured threshold |
| MotionRuns.StartIsRaisingFrame | internal/adapters/secondary/vmd/cell_motion_detector.go:185-203 | Over any life, while the flag is set the duration runs from the frame that raised it, the one that showed motion with the flag clear and since which it was never clear |
| MotionRuns.DistanceShrinks | internal/adapters/secondary/vmd/cell_motion_detector.go:179-183 | Under a repeated frame each cell's distance to the baseline shrinks by 3/4 per frame |
| MotionRuns.QuietFromEighteenth | internal/adapters/secondary/vmd/cell_motion_detector.go:163-183 | From the 18th identical frame on no cell is active, for every valid configuration |
| MotionRuns.SeventeenthIsActive | internal/adapters/secondary/vmd/cell_motion_detector.go:163-183 | Eighteen is exact: for every valid configuration at the least threshold, on a grid that was black and turns white every cell is active on the 17th white frame |
| MotionRuns.BlackenedIsReached | internal/adapters/secondary/vmd/cell_motion_detector.go:57-161 | The black grid of the 17th-frame bound is reached: by setting the configuration and analyzing one black frame |
| MotionRuns.KeenestIsAccepted | internal/domain/motion.go:40-60 | Such a configuration exists and is accepted as it stands |
| MotionRuns.ClearsExactlyWhen | internal/adapters/secondary/vmd/cell_motion_detector.go:156-198 | Over any life of frames, configurations and resets, a set flag is cleared on a frame if and only if a configuration was accepted since the last frame, or there is no motion and the cooldown has passed since the most recent frame with motion |
| MotionRuns.OnlyFramesAndResetsClear | internal/adapters/secondary/vmd/cell_motion_detector.go:57-85 | Between frames nothing clears a set flag but a reset of the stream |
| MotionRuns.ReconfiguringClears | internal/adapters/secondary/vmd/cell_motion_detector.go:156-161 | An accepted configuration clears a set flag on the next frame, inside the cooldown, whatever the frame shows |
| MotionRuns.ReconfiguringClearsAtOnce | internal/adapters/secondary/vmd/cell_motion_detector.go:156-161 | Such a life exists: black, white, the same configuration again, and a frame at the very time of the white one |
| MotionRuns.StillSceneClears | internal/adapters/secondary/vmd/cell_motion_detector.go:163-198 | A scene that stops moving is reported still once the 17th identical frame is a cooldown old |

## Left out

- Sockets, the WebSocket, RTSP, ONVIF and NATS clients, FFmpeg processes, HTTP handlers and authentication: I/O around libraries that are not part of this model.
- Weak memory ordering and cache alignment: every atomic location is sequentially consistent.
- The futex system call and the async broadcast channel: taken as a wait that compares and sleeps at once, and as an append-only log with a cursor for each receiver of which the last `capacity` entries are retained.
- Clocks: the time, an expired deadline and a spurious wake-up are parameters or choices of a step.
- `RcuConfig`, `LocalSessionCache`, `TelemetryFuture` and `TranscodePool`: object lifetime and process management.
- GOP counters, the AMF0 and WSP codecs, the ring logger and the in-memory repositories: they would add easy members only.
- AMF0 commands: which commands are answered, and with what bytes, is not modelled; that a publish command installs a gateway and a writer, and that a failed reply ends the connection, is. Installing and removing streams in the registry is left out.
- The waiting read of shared memory: the same protocol as the hub's wait with a full mask, proved there.
- The Go detector's map of streams: one stream's state is modelled; its lock makes calls on a stream atomic.
- Floating point: the governor interval is a natural number and the motion arithmetic is over the reals, so rounding is not modelled; the cast of a rate to an interval saturates as the source's does.
- 64-bit counters and sums (sequence numbers, frame counters, last time plus interval): unbounded, except where a width is part of a layout or of a futex word.
- Shm.GeometryAgrees: the product of width, height and bytes per pixel wraps at 32 bits, as in a build without overflow checks; a build with them panics instead.
- PeerList.QuiescentCounts: memory is a map from addresses to nodes, so reuse of an address and the freeing of the whole list at drop are not modelled.
- ShmMemory.SharedRing.ReadLatestFrame: the bytes of a copy are taken at once there, and what a read past the mapping would give is not modelled; the byte-by-byte race is the subject of Shm.ReadsAreWhole.
- Shm.ReadsAreWhole: says nothing about what a reader overtaken by a whole ring returns, beyond the order of its numbers.
- CircuitBreaker.TripsOnThreshold: calls are atomic; interleavings of the atomics inside one call are not modelled.
- Gateway.NoKeyFrameGap: dropping a session is one step; that mark_inactive then walks the peer list is modelled in PeerList only.
