# NeoTape, verified

NeoTape streams an archive as numbered frames from a producer, over connections
that can drop at any time, onto several tapes; a reader later turns those tapes
back into the original bytes. This project models the parts of it that have to
be right for that to work, and proves what they promise. Each module can be
read on its own; the later ones build on the earlier ones.

`dafny verify dfyconfig.toml` checks everything.

## How it is organised

| modules | what they model |
|---|---|
| `Base`, `Format`, `FormatTheorems` | machine words, the 512-byte frame header, its codec on values and in place on a byte array |
| `Sealing` | the frame hash, `finalize_record`, `patch_volume_seq_num`, `check_frame` |
| `Validator`, `Grammar`, `Replays`, `ReplayBytes`, `Seeding` | `FrameValidator` as a judgement on one record and as the object that keeps its state; the declarative grammar of whole archives; replays and the retry history; what a replay must equal; starting in the middle |
| `FrameBuilder`, `Producer`, `ProducerObject`, `TapeFiles` | cutting bytes into frames, what the archiver pushes on the frame queue, and how its marks divide it by slice |
| `VolumeServer`, `ServerTheorems`, `ServerLoss`, `ServerObject` | `serve_volume_client`, the retention buffer and the accept loop: as a function of the state and the next request, over whole runs, when the end marker can be lost, and as the objects whose loops consume the messages |
| `Writer`, `WriterTheorems`, `WriterObject` | `RecordSink` and the two threads of `write_volume`, one step per locked section; what a whole session keeps, whatever the peer and the drive do; and the output thread's loop |
| `Media`, `Transfer`, `TransferTheorems` | server, connection and writer together, in every interleaving, with cuts |
| `Extractor`, `EndToEnd`, `ArchiveTheorem`, `WindowBound` | `process_frame` and the reader connections; exactly which tapes can be read back; the whole way from producer to output; exactly how large the send window may be |
| `Restore`, `Damage` | restoring arbitrary tapes, exactly; restoring an archive whose records were damaged |
| `Salvage`, `SalvageNumbers` | salvaging arbitrary pieces of an archive, exactly; what of it the numbers of the pieces decide |
| `Containers`, `Pipeline`, `PipelineTheorems`, `PipelineBound` | `ClosableQueue`, `ResultStore`, `BoundedBuffer`, the concurrent pax pipeline built on them, and exactly how large its result store has to be |
| `Packing`, `PlanText`, `Traversal`, `Collect` | slice packing, the plan file, the directory traversal, parallel examination of children |
| `Escape` | the display escape for arbitrary bytes |

An object of the program whose methods update its fields is a class here; each
of its methods is proved equal to a function on values, and the theorems are
about those functions. A protocol between threads or processes is a state
machine: a state, a set of actions, a predicate saying when an action is
enabled, and theorems over every sequence of actions. A wait is the guard of the
action that it delays.

## Hypotheses

They appear as `requires` clauses, and nowhere else.

- The hash is any function of bytes. Accepting a true replay needs nothing more;
  that a replay must equal the original needs the images that are compared not
  to collide (`CollisionFree`, over the two images of one comparison or the
  finitely many of one stream). No hash avoids every collision, but any two
  images are told apart by some hash (`ApartExists`). A signer is any function
  from a hash to a signature.
- Sequence numbers stay below 2^64 - 1 (`InRange`).
- Archive uuid and label fit their header fields and contain no NUL (`Fits`).
  The program truncates a longer label to 64 bytes when it is serialized.
- The client acknowledges only frames it was sent (`Honest`). This is assumed
  where the server is considered alone and proved of the writer in `Transfer`.
- No empty slice comes before one with content (`NoEmptySliceInside`).
- The send window does not exceed the retry history, or the archive has at most
  8193 frames (`HistorySuffices`); `ReadableExactly` proves this necessary too.

## What came out

- An empty slice emits no frame (src/neotape_frame_builder.cpp:110), and the
  next slice number then looks like a jump. `ProducerAccepted` gives the exact
  condition under which the validator accepts what the producer emits;
  `EmptySliceRefused` names two small archives that it refuses.
- The queue's final marker is popped before the wait for outstanding
  acknowledgements (src/neotape_volume_server.cpp:214-219). If that connection
  ends during the wait, the marker is gone and the archive end is never built.
  `EndLostExactly` shows that honest clients can bring this about if and only if
  the window admits two frames and the archive has a frame besides its end;
  `CompletableExactly` that an archive can still be completed if and only if it
  has not happened.
- The header parser does not look at the bytes after a string's NUL, nor at
  signature bytes of an unsigned frame. `ParseSerialize` gives the exact set of
  headers that serialize back to the bytes they were read from.
- Tapes can be read back exactly when each volume reaches back at most 8192
  frames (`ReadsExactly`). The option parser admits a send window of up to
  1000000 (src/neotape_archiver_cmd.cpp:129-131). `ReadableExactly` gives the
  exact condition on it: the tapes of every run can be read back if and only if
  the window is at most 8192 or the archive has at most 8193 frames.
- An empty archive uuid means "not yet known" to the validator. The grammar's
  `OneIdentity` says what is then still checked.
- The result store's bound, order capacity plus workers, always leaves room for
  the awaited result (`AwaitedHasRoom`). `StoreBoundExact` gives the exact size
  for every number of threads: some slice can get stuck if and only if there are
  two workers or more and the store holds fewer than order capacity plus two.
  The program's bound is exact for two workers and has one place to spare for
  each further one (`ProgramBound`).
- Salvage compares a repeated frame with the one taken before and then expects
  the repetition to go on (src/neotape_validate.cpp:69-97). When a volume repeats
  frames of an earlier one with a gap among them, every frame behind the gap is
  refused for the rest of the connection, new ones included. `RepeatingVolume`
  gives the exact condition; `GapInRepetition` is a volume of which two sound new
  frames are lost. Without repetition nothing is lost (`SalvageRecovers`).
- A salvage skips damaged records, but one whose header does not parse, a frame
  of an unknown channel included, ends it (`SalvageStopsExactly`), although the
  documentation lets a salvage skip such records
  (docs/spec/02-frame-header.md:94-95).
- A restore survives damage to metadata frames and nothing else: with the headers
  intact, one connection reads an archive to its end exactly when every other
  record verifies (`DamageExactly`).
- The pax pipeline's waterline is the percentage asked for as long as capacity
  times percentage fits in 64 bits, and lower than that where it does not
  (`WaterlineExactly`).

## Model

| member | source | states |
|---|---|---|
| FormatTheorems.SerializeParse | src/neotape_format.cpp:202-276 | Serializing a header and parsing it back gives the same header exactly when it obeys the frame-local rules and the signature rule and its strings fit |
| FormatTheorems.ParseSerialize | src/neotape_format.cpp:239-276 | A parsed header serializes to the very bytes it came from exactly when it obeys the signature rule and its string fields are zero after their first NUL |
| FormatTheorems.SerializeFrameHeader | src/neotape_format.cpp:202-231 | Filling the byte array field by field gives the specified image or the specified error |
| FormatTheorems.PutWord | src/neotape_format.cpp:41-56 | The shifting loop writes the little-endian bytes and leaves the rest of the array |
| FormatTheorems.GetWord | src/neotape_format.cpp:58-77 | The accumulating loop reads the little-endian word |
| FormatTheorems.Layout | src/neotape_format.cpp:23-39 | The 512 bytes of a header hold every field at its fixed offset, numbers with the least significant byte first, strings cut to leave room for a terminator, and zeros in the reserved area |
| FormatTheorems.FirstRuleBroken | src/neotape_format.cpp:143-198 | A frame-local rule is reported exactly when it is the first of the ten in their order that the header breaks, and a header is accepted exactly when it breaks none, each rule read off the header alone |
| Format.FixedStringRoundTrip | src/neotape_format.cpp:79-95 | A string survives its field exactly when it fits with its terminator and contains no NUL |
| Format.DecodeOfEncode | src/neotape_format.cpp:46-77 | Decoding the little-endian bytes of a value that fits gives the value back |
| Format.WithSignedKeepsOthers | src/neotape_frame_builder.cpp:20-27 | Setting or clearing the signed flag changes no other flag bit |
| Sealing.ReplayComparison | src/neotape_format.cpp:301-318 | Re-hashing a retry for the accepted volume matches if the two records agree outside volume, signature and hash, and only then unless the two images collide |
| Sealing.FinalizeSeals | src/neotape_frame_builder.cpp:20-38 | Finalizing succeeds on every rule-abiding header, whatever its hash and signature fields held |
| Sealing.CheckSealed | src/neotape_format.cpp:325-331 | A sealed block-sized record passes the receiver's size and hash check |
| Sealing.CheckFrameExactly | src/neotape_format.cpp:325-331 | A record that parses has the right size exactly when its length is its header's block size, whatever its hash; given that, it is intact exactly when the stored hash is that of its canonical image |
| Sealing.DamageDetected | src/neotape_format.cpp:301-331 | Unless the two images collide, a record with the length and stored hash of a sealed one passes the check exactly when it equals it byte for byte outside the signature |
| Sealing.SealedForTwoVolumes | src/neotape_frame_builder.cpp:40-54 | One logical frame sealed for volumes v and w gives records that the replay comparison treats as equal in either order |
| Sealing.PatchSeals | src/neotape_frame_builder.cpp:40-54 | Patching a record as built, or sealed for any earlier volume, gives the record sealed for the new volume |
| Sealing.FinalizeRecord | src/neotape_frame_builder.cpp:20-38 | The two in-place rewrites of the header leave the specified record |
| Sealing.PatchVolumeSeqNum | src/neotape_frame_builder.cpp:40-54 | The in-place patch leaves the specified record, or keeps one already sealed for the volume |
| Validator.FrameValidator.Validate | src/neotape_validate.cpp:99-213 | The stateful method accepts, rejects and updates its fields exactly as the judgement on values does |
| Validator.FrameValidator.ValidateRestoreFrame | src/neotape_validate.cpp:215-230 | A hash failure of a metadata frame is a warning, of any other frame an error |
| Validator.FrameValidator.ValidateSalvageFrame | src/neotape_validate.cpp:232-257 | Salvage checks integrity and replays only, adopts a new archive, and leaves the state alone on refusal |
| Salvage.SalvageAcceptsExactly | src/neotape_validate.cpp:232-257 | From a state that tracks the records salvaged so far, a record is accepted exactly when it is intact and starts another archive, or has a number at or beyond the next expected one while no repetition is open, or repeats a remembered record in order; and the state then tracks the records with it |
| Salvage.SalvageStopsExactly | src/neotape_extractor.cpp:188-206 | A salvage is ended by exactly the records whose header does not parse |
| Salvage.DamagedChangesNothing | src/neotape_extractor.cpp:82-106 | In salvage a record that parses but is damaged changes neither the outputs nor the validator |
| Salvage.SalvagesExactly | src/neotape_extractor.cpp:82-257 | Whatever sound frames of one archive the volumes hold, in any order, sealed for any volumes and between any damaged records that still parse, the salvage succeeds and its outputs are the content and the metadata of exactly the frames that the rule on their numbers takes |
| SalvageNumbers.SalvageRecovers | src/neotape_validate.cpp:242-257 | Frames that are there in order, with any of them lost, are all salvaged: the outputs are the content and metadata of exactly the frames that are there |
| SalvageNumbers.RepeatingVolume | src/neotape_validate.cpp:69-97 | Of a volume that begins with repeated frames the new ones are all taken exactly when the repetition, from its first comparable frame on, goes without a gap to the last frame taken before; otherwise none of them is |
| SalvageNumbers.GapInRepetition | src/neotape_validate.cpp:69-97 | After the frames 0 to 3, a volume that holds 1, 3, 4, 5 adds nothing to the output |
| Validator.FrameValidator.TryReplay | src/neotape_validate.cpp:69-97 | Replay suppression: refused, accepted as a replay, or left to the sequence check, with no state change on refusal |
| Validator.FrameValidator.RememberRecord | src/neotape_validate.cpp:56-65 | The retry history keeps the newest 8192 verified records |
| Validator.FrameValidator.SeedForStreamStart | src/neotape_validate.cpp:48-54 | Seeding gives the state that starts at the header's position |
| Validator.FrameValidator.Reset | src/neotape_validate.cpp:259-275 | A reset validator is a fresh one |
| Grammar.GrammarSnoc | src/neotape_validate.cpp:99-213 | The declarative grammar is prefix closed, and extending an archive by one record is a local condition |
| Grammar.JudgeNewExact | src/neotape_validate.cpp:108-213 | In a state that tracks an archive the sequence check accepts a record exactly when the extended archive is in the grammar |
| Replays.AcceptsExactly | src/neotape_validate.cpp:69-213 | A fresh validator accepts a record stream over any number of connections exactly when every replay in it is verified and in order and what remains without replays is in the archive grammar |
| Replays.FindInHistory | src/neotape_validate.cpp:56-80 | The history lookup finds exactly the records whose own hash verified and that fewer than 8192 verified records followed |
| Replays.ReplayIsInert | src/neotape_validate.cpp:69-97 | An accepted replay changes nothing but the replay cursor, in restore and in salvage mode |
| ReplayBytes.ReplayMustEqual | src/neotape_validate.cpp:81-85 | Unless the two compared images collide, a replay is verified exactly when it equals the remembered record on every byte but volume, signature and hash |
| ReplayBytes.AcceptsByBytes | src/neotape_validate.cpp:69-213 | For a stream of records with genuine hashes no two images of which collide, acceptance needs no hash to be stated: the stream without replays is in the grammar, and every replay comes in order and equals byte for byte, outside volume, signature and hash, the remembered record it repeats |
| Replays.HistoryStaysBounded | src/neotape_validate.cpp:56-97 | The history stays strictly increasing, below the expected number and at most 8192 long, in both modes |
| Seeding.FreshAcceptsExactly | src/neotape_validate.cpp:99-213 | On one connection without replays, acceptance is membership in the grammar |
| Seeding.SeededAcceptsSuffix | src/neotape_validate.cpp:48-54 | From every position of an accepted archive a validator seeded with the header found there accepts the rest |
| FrameBuilder.ChunkingIrrelevant | src/neotape_frame_builder.cpp:94-117 | Any split of the same bytes across feed calls and a flush gives the same frames |
| FrameBuilder.RunIsWellFormed | src/neotape_frame_builder.cpp:94-143 | A run is numbered consecutively, all full but the single last END frame, and its payloads concatenate to the input |
| FrameBuilder.FrameIsSealable | src/neotape_frame_builder.cpp:119-143 | Every built frame obeys the frame-local header rules |
| FrameBuilder.Builder.Feed | src/neotape_frame_builder.cpp:94-106 | Feeding emits frames only while more than one payload is pending and keeps the rest |
| FrameBuilder.Builder.Flush | src/neotape_frame_builder.cpp:108-117 | The rest becomes the single final frame; an empty run has none |
| FrameBuilder.Builder.BeginChannel | src/neotape_frame_builder.cpp:86-92 | A channel begins at sequence 0 and keeps the global number |
| FrameBuilder.Builder.ProduceRun | src/neotape_raw_store_cmd.cpp:158-186 | The read loop produces the frames of the concatenated content, however it was read |
| Producer.ProducerAccepted | src/neotape_tcp_server.cpp:30-103 | A fresh validator accepts all the producer emits, archive end included, exactly when no empty slice comes before a non-empty one |
| Producer.RawAccepted | src/neotape_raw_store_cmd.cpp:152-194 | The single slice of a raw input is accepted whatever the input, even empty |
| Producer.BodyNumbers | src/neotape_tcp_server.cpp:21-28 | Frames of all runs together are numbered from 0 without gaps |
| Producer.EndFrameIsSealable | src/neotape_frame_builder.cpp:56-75 | The archive-end frame obeys the header rules and has no payload |
| ProducerObject.ArchiveProducer.ProduceArchive | src/neotape_tcp_server.cpp:79-103 | The callbacks push catalog run, slices with their marks, and the final marker, whatever the chunk boundaries |
| ProducerObject.ArchiveProducer.WriteCatalog | src/neotape_tcp_server.cpp:51-75 | The catalog becomes the leading metadata run of slice 0 |
| ProducerObject.ArchiveProducer.PushSlices | src/neotape_tcp_server.cpp:30-47 | Each slice is one run followed by an end-of-file mark |
| TapeFiles.OneFileASlice | src/neotape_tcp_server.cpp:30-103 | The marks cut the produced queue into one tape file a slice, each with exactly the frames that carry that slice number, in order, and behind the last mark only the final marker |
| ServerObject.FrameRetentionBuffer.Add | src/neotape_frame_builder.cpp:150-156 | Adding at the limit evicts the oldest frame |
| ServerObject.FrameRetentionBuffer.Ack | src/neotape_frame_builder.cpp:158-165 | The search loop removes the frame of that number, if any |
| ServerObject.FrameRetentionBuffer.Get | src/neotape_frame_builder.cpp:167-175 | The search loop finds the frame of that number, if any |
| ServerObject.Handler.DrainAcksUntil | src/neotape_volume_server.cpp:122-140 | The blocking loop resumes exactly when fewer frames than the limit are outstanding |
| ServerObject.Handler.ProcessAckPayload | src/neotape_volume_server.cpp:65-100 | Only the next number in order is taken; it commits the volume and releases the frame |
| ServerObject.Handler.ServeVolumeClient | src/neotape_volume_server.cpp:104-312 | The handler's loops, run on a client's messages, have exactly the effect and the replies of the request function folded over them |
| ServerObject.Handler.RunVolumeServer | src/neotape_volume_server.cpp:369-412 | The accept loop, client after client, has exactly the effect of the connection function |
| VolumeServer.RequestKeeps | src/neotape_volume_server.cpp:155-267 | Whatever an honest client sends, the retention buffer stays the exact unacknowledged run within the window, the reply is the next frame in order sealed for the volume, and no error but the client's own is ever reported |
| VolumeServer.MistakesExactly | src/neotape_volume_server.cpp:65-188 | A listening handler answers with an error exactly a client's mistakes, each by its own: an acknowledgement that is not the eight bytes of the number due, anything else while one is waited for or after the archive end, and a request it does not know; the connection then ends with nothing else changed |
| VolumeServer.AddKeeps | src/neotape_frame_builder.cpp:150-156 | With the window open, adding never evicts an unacknowledged frame |
| VolumeServer.AckKeeps | src/neotape_volume_server.cpp:65-100 | An honest acknowledgement releases exactly the oldest retained frame, and completes the archive exactly at its end |
| VolumeServer.ReconnectKeeps | src/neotape_volume_server.cpp:104-112 | Connection boundaries keep what holds of the archive, and a new client starts at the first unacknowledged frame |
| ServerTheorems.RunKeeps | src/neotape_volume_server.cpp:155-267 | Every state of an honest run satisfies the server invariant |
| ServerTheorems.ConnectionsKeep | src/neotape_volume_server.cpp:369-412 | Over any number of honest clients the retention buffer holds exactly the run from the first unacknowledged to the last taken frame |
| ServerTheorems.ProducerDelivers | src/neotape_tcp_server.cpp:21-103 | What the producer pushes is the archive in order, end mark last |
| ServerTheorems.AbandonedForever | src/neotape_volume_server.cpp:214-219 | Once the end marker is lost, no honest client on any connection completes the archive |
| ServerLoss.EndLostExactly | src/neotape_volume_server.cpp:214-219 | From the start, some honest clients lose the end marker exactly when the window admits two outstanding frames and the archive has a frame besides its end |
| ServerTheorems.CompletableExactly | src/neotape_volume_server.cpp:155-267 | Between connections an unfinished archive can be completed by some honest client exactly when its end marker has not been lost |
| Writer.RecordSink.Write | src/neotape_writer.cpp:25-39 | A record that would pass the capacity is refused; the used bytes count what reached the medium |
| WriterTheorems.SessionStepKeeps | src/neotape_writer.cpp:74-134 | Every step of either thread, whatever the peer and the drive do, keeps the session invariant: what was received is checked, the tape follows what was taken in, the queue is counted exactly, the capacity is respected |
| WriterTheorems.SessionSafe | src/neotape_writer.cpp:161-282 | For any peer, drive and interleaving every record received, and so every record on the tape and every record acknowledged, arrived with its block's size and a verified hash, and together they are accepted in order by a validator seeded at the first; the acknowledged numbers are those at the beginning of the tape; the tape is a beginning of what was taken in, filemarks included |
| WriterTheorems.UnsoundRefused | src/neotape_writer.cpp:195-222 | A record that does not parse, has the wrong size or a bad hash changes neither what was received nor the queue, the tape or the acknowledgements, and ends the session |
| WriterTheorems.OutputFills | src/neotape_writer.cpp:25-39 | A drive that takes everything is given exactly the longest run of queued items that fits the capacity, in order; the volume is reported full exactly when that is not all |
| Writer.CompleteMeansEnded | src/neotape_writer.cpp:105-111 | "Complete" is returned only when the archive end was written as the last record, was acknowledged, and is followed on the tape by the closing filemark |
| Writer.OutputDrains | src/neotape_writer.cpp:74-116 | With a drive that takes everything the output loop writes and acknowledges all that is queued, in order, and completes exactly when the archive end was among it |
| WriterObject.WriterSession.OutputRecords | src/neotape_writer.cpp:74-134 | The output thread's loop, turn after turn while there is something to take, has exactly the specified effect whatever the drive answers |
| WriterObject.WriterSession.CheckQueue | src/neotape_writer.cpp:176-184 | The receiver asks only while the queue is below the limit and the session runs |
| WriterObject.WriterSession.Receive | src/neotape_writer.cpp:195-260 | A reply is validated and queued, marked, or ends the session as specified |
| WriterObject.WriterSession.Pop | src/neotape_writer.cpp:79-89 | The output thread takes the oldest item, or stops when the input is closed and empty |
| WriterObject.WriterSession.WriteOut | src/neotape_writer.cpp:90-101 | Writing advances the output thread as the drive's answer demands |
| WriterObject.WriterSession.SendAck | src/neotape_writer.cpp:102-115 | The acknowledgement carries the record's number and decides what follows |
| Media.ProducedIsLawful | src/neotape_validate.cpp:99-213 | However the frames of a produced archive are sealed, the records are in the grammar |
| Media.EmptySliceRefused | src/neotape_frame_builder.cpp:108-112 | The archives of the slices 7, nothing, 7 and of the slices nothing, 7 are refused by a fresh validator, for every identity, hash and volume |
| Media.VolumeStateStep | src/neotape_writer.cpp:208-222 | A validator seeded at a volume's first record accepts each next record, never as a replay |
| Transfer.DeliverKeeps | src/neotape_writer.cpp:195-260 | Whatever reply is in flight, the writer accepts it and the two sides stay in step |
| Transfer.SendAckKeeps | src/neotape_writer.cpp:102-104 | The acknowledgement sent is the one the server expects after those in flight |
| Transfer.ServeAsk | src/neotape_volume_server.cpp:172-267 | A request is answered by the next thing due, or the server waits |
| TransferTheorems.StepKeeps | src/neotape_volume_server.cpp:104-312 | Every action of either peer or thread, and every cut, keeps the system invariant |
| TransferTheorems.AlwaysInv | src/neotape_volume_server.cpp:369-412 | Every reachable state, with any number of connections cut anywhere, satisfies it: each volume holds the archive from the first unacknowledged frame on, sealed for its number |
| TransferTheorems.NoProtocolErrors | src/neotape_volume_server.cpp:122-267 | No error reply of the frame-serving phase is reachable with this writer, and the writer never refuses a frame |
| TransferTheorems.WritesFollowSends | src/neotape_writer.cpp:74-134 | Acknowledged, written, received and sent are beginnings of one another, within the window |
| TransferTheorems.NoDeadlock | src/neotape_writer.cpp:175-260 | When neither peer can move, the end marker was lost, the drive stopped the session, or both sides have finished |
| TransferTheorems.Terminates | src/neotape_writer.cpp:175-260 | Between cuts a connection runs for a bounded number of steps |
| TransferTheorems.UninterruptedCompletes | src/neotape_writer.cpp:161-282 | An uncut connection to a drive that takes everything runs to completion on both sides unless the end marker was lost before |
| Extractor.ReplayEmitsNothing | src/neotape_extractor.cpp:119-124 | A suppressed replay writes to neither output and changes only the replay cursor |
| Extractor.OnlyVerifiedOutput | src/neotape_extractor.cpp:107-167 | Whatever a frame adds to an output is the payload of a record whose hash verified, on its own channel |
| Extractor.ExtractorState.Process | src/neotape_extractor.cpp:82-167 | The stateful method processes a frame exactly as specified, in restore and in salvage mode |
| Extractor.ExtractorState.ServeClient | src/neotape_extractor.cpp:171-257 | One reader connection has the specified effect and ends at a refusal, the archive end or the reader's departure |
| Extractor.ExtractorState.RunExtractor | src/neotape_extractor.cpp:315-344 | The accept loop reads volume after volume until the archive end |
| Restore.RestoresExactly | src/neotape_extractor.cpp:171-344 | Whatever bytes the volumes hold, they are restored without a refusal exactly when every record read parses, every replay is verified and in order, and what remains is in the archive grammar, damaged metadata tolerated; the outputs are then the content and the verified metadata of just those records |
| Damage.MetadataDamageSurvived | src/neotape_validate.cpp:215-230 | A produced archive whose metadata frames were damaged behind their headers is read in one connection to the archive end with its content complete and its metadata the part that verifies |
| Damage.DamageExactly | src/neotape_validate.cpp:215-230 | With the headers intact, one connection of a whole archive is read to its end exactly when every record but those of metadata verifies |
| EndToEnd.ReplayStep | src/neotape_validate.cpp:69-97 | A frame already known, met on another volume, is suppressed exactly when it lies in the retry history and comes in order |
| EndToEnd.NewStep | src/neotape_extractor.cpp:107-167 | The next unknown frame is accepted and its payload written |
| EndToEnd.JumpStep | src/neotape_validate.cpp:145-150 | A frame beyond the next one is refused |
| EndToEnd.ReadPart | src/neotape_extractor.cpp:171-225 | A volume is read to its end exactly when it begins at or before the first missing frame and at most 8192 frames before it |
| EndToEnd.ReadsExactly | src/neotape_extractor.cpp:315-344 | A series of volumes is restored without a refusal exactly when each one reaches back no further than the history, and the output is then the content of precisely the known frames |
| ArchiveTheorem.ArchiveStreams | src/neotape_tcp_server.cpp:30-75 | The frames' content stream is the slices' bytes, their metadata stream the catalog |
| ArchiveTheorem.EverythingAcknowledgedIsRestored | src/neotape_extractor.cpp:82-167 | From every reachable state, any choice of the finished volumes that includes all that received an acknowledgement is restored without a refusal to a beginning of the content covering every acknowledged frame, and to all of it once the archive end was accepted, which is so once the server is done |
| WindowBound.ReadableExactly | src/neotape_archiver_cmd.cpp:129-131 | The tapes of every run, cut anywhere, can be read back exactly when the send window does not exceed the retry history or the archive has at most 8193 frames |
| Containers.ClosableQueue.Push | include/neotape/closable_queue.hpp:19-31 | A push is refused after the close and appends otherwise |
| Containers.ClosableQueue.Pop | include/neotape/closable_queue.hpp:33-43 | Pops deliver in order what was accepted, also after the close |
| Containers.ResultStore.Put | include/neotape/result_store.hpp:20-31 | A result is stored once; after the close it is refused |
| Containers.ResultStore.Take | include/neotape/result_store.hpp:33-45 | A result is handed out and removed; absence is reported only after the close |
| Containers.BoundedBuffer.Push | src/neotape_bounded_buffer.cpp:9-20 | The byte counter stays the exact size; one push may overshoot the capacity |
| Containers.BoundedBuffer.PopAfterFill | src/neotape_bounded_buffer.cpp:35-48 | The oldest chunk is handed out; nothing means closed and drained |
| PipelineTheorems.WaterlineFits | src/neotape_pax_writer.cpp:861-864 | The output waterline never exceeds the buffer capacity, even where the product wraps |
| PipelineTheorems.WaterlineExactly | src/neotape_pax_writer.cpp:861-864 | The waterline is the percentage of the capacity, rounded down, while the product fits in 64 bits, and lower where it does not |
| PipelineTheorems.ChunksAreOwn | src/neotape_pax_writer.cpp:640-675 | Cutting an entry into chunks, inline, small or large, loses none of its own bytes |
| PipelineTheorems.StepKeeps | src/neotape_pax_writer.cpp:611-707 | Every step of dispatcher, workers, serializer and output thread keeps the pipeline invariant |
| PipelineTheorems.AwaitedIsThere | src/neotape_pax_writer.cpp:833-848 | Closing the result store loses no result that is still awaited |
| PipelineTheorems.AwaitedHasRoom | src/neotape_pax_writer.cpp:709-723 | The result that the serializer waits for can always be published, for every number of workers |
| PipelineBound.StoreBoundExact | src/neotape_pax_writer.cpp:709-723 | For every number of threads and every bound on the result store, some slice and schedule reach a state in which no thread can move although the pipeline is not finished exactly when there are two workers or more and the store holds fewer results than the order capacity plus two |
| PipelineBound.ProgramBound | src/neotape_pax_writer.cpp:721-723 | The program's bound never gets stuck, and its slack is exactly the number of workers beyond two |
| PipelineTheorems.NoDeadlock | src/neotape_pax_writer.cpp:789-802 | Until the join some thread can always move |
| PipelineTheorems.OutputInOrder | src/neotape_pax_writer.cpp:655-707 | At every moment the bytes written are a beginning of the entries' own bytes in dispatch order, inline, small and large, and all of them after the join |
| PipelineTheorems.PipelineFinishes | src/neotape_pax_writer.cpp:833-887 | Every schedule reaches the join after a bounded number of steps with all bytes written |
| Packing.PackExactly | src/neotape_plan_cmd.cpp:543-584 | The packer produces exactly the one greedy partition of the scanned entries in order |
| Packing.SliceBounds | src/neotape_plan_cmd.cpp:535-541 | In a greedy partition twice the size of a slice of more than one entry is at most three times the slice size, and no sum wraps |
| Packing.LimitExactly | src/neotape_plan_cmd.cpp:535-541 | Comparing with the saturated word sum decides exactly whether a size is within one and a half slice sizes and fits a word |
| Packing.StartIsNotTaking | src/neotape_plan_cmd.cpp:543-552 | The word comparison decides exactly whether the slice takes the entry; its subtraction does not wrap |
| Packing.AddIs | src/neotape_plan_cmd.cpp:554-584 | The stored words are the exact sums of the open slice |
| Packing.SlicePacker.AddToSlice | src/neotape_plan_cmd.cpp:554-584 | The stateful packer closes and opens slices as specified |
| Packing.SlicePacker.PackScan | src/neotape_plan_cmd.cpp:741-743 | A whole scan and its last slice give the specified slices and printed numbers |
| Packing.NumbersAt | src/neotape_plan_cmd.cpp:504-516 | The j-th entry of slice i is printed with exactly those two numbers, at its own place in the order of the scan |
| PlanText.PrintedEntryReads | src/neotape_plan.cpp:32-158 | A printed entry reads back, with names that hold a slash or a NUL emptied, exactly when its kind is one of the letters fhdlcbps, its path relative and not empty, and a hardlink's size zero |
| PlanText.ParsesExactly | src/neotape_plan.cpp:32-96 | A text parses as a record exactly when it is the directive and a directory, or nine fields that say the record's values in order, and the path |
| PlanText.ReadsExactly | src/neotape_plan.cpp:106-137 | The reader accepts a file with given records exactly when it is a sequence of terminated lines that say them in turn, at most one directive first and entries numbered without gaps |
| PlanText.FollowsExactly | src/neotape_plan.cpp:121-130 | The contiguity check passes exactly the first file of the first slice, the next file of the slice, and the first file of the next slice |
| PlanText.PlanRoundTrip | src/neotape_plan.cpp:106-158 | Printing a stream and reading it returns the same records exactly for the streams the planner may print, with newlines and slashes in paths |
| PlanText.PackedNumbersContiguous | src/neotape_plan_cmd.cpp:504-516 | The slice and file numbers the packer prints pass the reader's contiguity check |
| PlanText.PlanReader.SplitFields | src/neotape_plan.cpp:47-57 | The field-splitting loop cuts nine fields and leaves the path |
| PlanText.PlanReader.ReadNext | src/neotape_plan.cpp:106-137 | The stateful reader returns the next record or the specified error |
| Traversal.PlannerScanner.ProcessOneDirectory | src/neotape_plan_cmd.cpp:644-669 | Expanding a directory lists each of its examinable children exactly once and in listing order, however many directories have to be expanded in between, keeps the traversal invariant and makes progress on every inode graph |
| Traversal.PlannerScanner.EnqueueDirectory | src/neotape_plan_cmd.cpp:632-642 | Enqueueing keeps the frontier within its capacity by expanding directories first, and terminates |
| Traversal.PlannerScanner.ScanSource | src/neotape_plan_cmd.cpp:678-696 | A source is scanned to the end, cycles included |
| Traversal.PlanSources | src/neotape_plan_cmd.cpp:733-737 | A whole scan from a fresh scanner, over any sources and any graph of inodes, ends; the frontier never exceeded its capacity; exactly the reachable directories were expanded, each once; exactly the reachable inodes are listed; the entries, counted with repetition, are the sources and the examinable children of the expanded directories, in listing order under each, every child under and after its directory, as a hard link exactly when its inode came before; and unless the frontier filled up the plan is in breadth-first order |
| Traversal.ScanOrder | src/neotape_plan_cmd.cpp:586-669 | The frontier never exceeds 4096, no inode is expanded twice, every entry follows its parent directory, and an entry is a hard link exactly when its inode came before |
| Traversal.SeenDirectoryExpanded | src/neotape_plan_cmd.cpp:605-669 | After a scan every directory seen has been expanded exactly once and its children are listed |
| Traversal.ScanReachesAll | src/neotape_plan_cmd.cpp:605-696 | A finished scan has reached everything reachable from what it has seen |
| Collect.NeverFull | src/neotape_plan_cmd.cpp:325-382 | In-flight jobs never exceed the queue capacities, so no push blocks |
| Collect.NeverStuck | src/neotape_plan_cmd.cpp:360-395 | Until all results are in, or one was an exception, some thread can move |
| Collect.StepWorks | src/neotape_plan_cmd.cpp:325-401 | Every step of any thread uses up a bounded amount of work, so no schedule goes on forever |
| Collect.CollectIsSequential | src/neotape_plan_cmd.cpp:360-402 | In every interleaving collect returns the list of the sequential loop, and throws only if that throws |
| Escape.EscapeLosesNothing | src/neotape_common.cpp:124-148 | The display escape has a left inverse on every byte string |
| Escape.EscapeShowsOnlyVisible | src/neotape_common.cpp:79-148 | What is shown is well-formed UTF-8 without controls and without characters that reorder or hide text, across all boundaries |
| Escape.DisplayableExactly | src/neotape_common.cpp:95-122 | The display test is exactly the grammar of section 4 of RFC 3629 for multi-byte characters, restricted to visible ones |
| Escape.SegmentExactly | src/neotape_common.cpp:124-148 | At every position a visible character other than the backslash is shown as itself, a backslash is doubled, and of anything else one byte is shown by its two hexadecimal digits |
| Escape.EscapeIdentityExactly | src/neotape_common.cpp:124-148 | A text is shown unchanged exactly when it is well-formed, all of it is visible and it has no backslash |
| Escape.DisplayableUtf8Length | src/neotape_common.cpp:95-122 | The decoding loop computes the display test |
| Escape.EscapeBytesForDiagnostic | src/neotape_common.cpp:124-148 | The escape loop computes the specified text |

## Left out

- The client's authentication handshake, sockets, timeouts and message framing: a connection is two queues of messages that a cut empties.
- BLAKE3, Ed25519, key files and the signature policy: the hash and the signer are functions, and the writer and the extractor are modelled with no verification key configured.
- Where filemarks end up on tape: an end-of-file mark is taken from the queue once and not retained, so after a re-send slices need not be separated by filemarks.
- A producer error that closes the frame queue early: the server's reply to it is modelled, but the invariants are about producers that finish.
- The state a validator is left in by a refusal: the first refusal of a restore or a writer is final, and only salvage, whose refusals change nothing, goes on.
- Cancellation of the pax pipeline: runs are those in which no thread fails.
- Failures to write the extractor's own output files: they end the restore.
- Progress display, diagnostics, options, address parsing, catalog listing, scan, dump and inspect: display or plumbing.
- Spool files, tape positioning and ioctls: a volume is a list of records, and the drive is an answer to each write.
- Owner and group name lookup, modification times and the sorting of a directory's children: the traversal takes the listing in the order given.
- Warnings of unreadable paths, which the parallel examination prints once more than the sequential one (src/neotape_plan_cmd.cpp:389-391 and 654-656).
- Traversal.PlannerScanner.ScanSource: a path names the inode that the listing gives it, so the file system does not change during the scan.
- Packing.AddIs: assumes that one entry's metadata and a full metadata budget fit in 64 bits together, without which the metadata counter could wrap.
- PipelineTheorems.NoDeadlock: needs a buffer of at least one byte, which the option parser ensures (src/neotape_common.cpp:221).
- Transfer.DeliverKeeps: the records a writer still drains after a cut are covered by letting it take the same steps just before the cut, with its acknowledgements lost in flight.
