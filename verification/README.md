# Verified model of the capture pipeline

SavorProbe observes an emulated game and hands what it sees to a recorder; SavorCaptureFormat stores it.
This project models the parts of that pipeline whose correctness is not visible in any one function, and
proves what they promise.

| files | what they model |
|---|---|
| `Words`, `Bytes`, `StructuredFields`, `BlobLoops` | machine words, varints, plain data and strings; fields and the tagged blobs of their payloads, as specification and as the loops that write and read them |
| `EventCodec`, `CodecLoops`, `CodecMeaning` | the delta codec of events (keyframes, change bitmaps, baselines, gaps), the loops that run it, and which earlier event each one is written against |
| `Framing`, `CaptureSegment`, `SegmentRoundTrip`, `SegmentFaults` | a segment as bytes, the reader that walks its records, and what it makes of whole, of cut and of changed segments |
| `FileLayout`, `FieldLayout` | where each number of a file, of an event and of a field's value is, at fixed offsets |
| `WriterLog`, `WriterPolicy`, `CaptureWriter` | the writer as a machine over records, when it ends chunks, indexes and segments, and the writer as an object whose stream, counters and pending lists follow that machine |
| `CaptureReader`, `CaptureDamage`, `CaptureRecovery`, `CaptureReasons` | reading and verifying a capture, what is seen of lost and changed bytes and of lost files, recovery, and which reason each file gives |
| `CaptureExport`, `ExportSymbols`, `Sorting` | export, and its lines against the profiles in force |
| `EventQueue` | the bounded multi-producer queue, step by atomic step |
| `LatestMailbox` | the three-slot mailbox of the latest event, step by atomic step |
| `FlightWindows`, `ForcedWindows`, `CaptureRetention`, `RetentionRuns`, `NamedTriggers` | flight recorders and last-N probes: the online policy, its meaning over a whole history and by the names in a profile, and what triggers from outside do to it |
| `StopSink`, `SinkRuns` | binding, unbinding and dispatching to the native stop sink, with nested dispatches, and what is delivered and answered over whole runs |
| `Watchpoints`, `WatchpointPlanner`, `PlanAnswers`, `WatchpointRegistry` | merging watchpoint requests into physical ranges, the plan, the answer to each request, the registry over time |
| `AddressProgram`, `AddressMeaning`, `AddressVerdicts` | the address byte code, its trace and its validation; what each operation does at its bytes, and where validation finds a fault |

Two conventions recur. Imperative code is a `method` (or a class) that is proved equal to a function of its
inputs or of the old state; the theorems are about that function. Where a theorem does not depend on what a
function computes, the function is a parameter (`enc`, `read`, `Packer`, `Meaning`), so that the proof cannot
look inside it; `CaptureWriter.Faithful` says which functions the writer's parameters stand for.

Results that a reader of one body would not expect:

- A chunk of events survives encoding and decoding *if and only if* every event is well formed
  (`EventCodec.RoundTripIffWellFormed`); and every event the decoder accepts, from any bytes, is well formed.
- A capture of any run reads back to the accepted events and verifies exactly when it was never marked
  incomplete (`CaptureReader.WholeRunRoundTrip`). An event whose record sequence moves back within the chunk
  being collected is refused, so "accepted" is "appended" for runs in record order.
- A queue of capacity one would lose and replace events: `EventQueue.CapacityOneIsNotFifo` gives the run, and
  `EventQueue.ReservationHasRoom` is the step of the proof that needs two slots.
- Whatever files of a run are lost and whatever is cut off the others, what is left verifies if and only if verify
  finds a file, and each file it finds is whole and was closed before the run was first marked incomplete
  (`CaptureDamage.VerifySeesDamageIff`). It finds the numbered files up to the first lost one, and the base file if
  that is there. So no truncation goes unseen (`VerifySeesTruncation`), while the loss of the last files goes unseen
  exactly if the run was never marked or all files left were closed before the first mark
  (`VerifyMissesLostFilesIff`): a capture marked incomplete can verify after losing its last files.
- A lost end is not always reported as an error: it is, unless less than a tag is left of the first damaged
  record, or that record is an index of which tag and count are left
  (`SegmentRoundTrip.TruncationYieldsPrefix`). The reader's own test for a cut index body
  (SavorCaptureFormat/CaptureFormat.cpp:604-607) never fires on a cut file, since its seek succeeds beyond the end.
- A changed chunk is always seen if its checksum tells: a file of a run in which a payload and a stored checksum
  disagree yields the events before that chunk, exactly one error and no footer, whatever follows
  (`SegmentFaults.ChecksumIsCompared`), and no capture with it verifies
  (`CaptureDamage.ChangedChunkNeverVerifies`).
- recover can refuse a capture that reads back cleanly: its chunks are larger than those the capture may have been
  written with, and a record sequence may step back only between chunks (`CaptureRecovery.CleanCaptureIsRefused`,
  with an instance in `RefusedCaptureExists`). It then leaves a capture of the events before the refused one
  (`CaptureRecovery.RecoverIsFaithful`).
- A dispatch that begins before the first bind does can still be delivered: what counts is which sink is bound when
  it loads (`SinkRuns.DispatchDeliversWhatItLoads`, with a run in `EarlyDispatchIsDelivered`). Once a bind has
  answered true every later dispatch is delivered to that sink exactly once, until an unbind of it begins
  (`SinkRuns.BoundSinkGetsEveryDispatch`).
- `replaced_pending` is an upper bound on loss, although the runtime counts every report as a drop
  (SavorProbe/ProbeRuntime.cpp:1517-1520). A replaced token is still taken in some continuation if and only if it
  was taken before or the reader is between its last check and its store (`LatestMailbox.ReplacedIsTakenIff`);
  `LatestMailbox.ReportedAndTaken` is a run in which that happens. A report is exact when the reader is outside
  try_take from the producer's load of the consumed token to the end of the publish
  (`LatestMailbox.QuietReportIsExact`).
- A flight recorder triggered from outside with the sequence that the next event will get, as the runtime does
  (SavorProbe/ProbeRuntime.cpp:1786-1789), lets that event through uncounted. After any history, a forced trigger
  yields a window of the promised length if and only if no more members follow than it asks for, or none of the
  first ones carries its sequence (`ForcedWindows.ForcedWindowIsExactIff`); with the next event's sequence it
  yields exactly one member more (`ForcedWindows.ForcedAtNextSequence`).
  `FlightWindows.RecorderEmitsWindows` holds for every run, equal sequences included;
  `FlightWindows.UnambiguousRunEmitsWindows` is the plain window, forced triggers included, for every run in which
  no later member carries the sequence of a trigger.
- A trace changes the result of an address program exactly when more than 64 operations are looked at
  (`AddressProgram.TraceChangesNothingUpToLimit`); valid programs never reach that point.

Hypotheses, stated where they are used: decompression undoes compression (`CaptureSegment.Lossless`); chunk,
metadata and reason sizes stay inside the reader's limits and their 32-bit headers (`CaptureReader.AllSmall`, which
`CaptureReader.RunIsSmall` derives from conditions on the calls alone); atomic operations are sequentially
consistent, and queue positions and mailbox tokens do not wrap; members of flight recorders are disjoint, which the profile parser enforces (SavorProbe/ProbeProfile.cpp:983-985).
Counters of the capture file wrap at 64 bits, in the writer and in the reader alike.

## Model

| member | source | states |
|---|---|---|
| Bytes.AppendVarint | SavorCaptureFormat/CaptureFormat.cpp:69-76 | The loop appends exactly the unsigned LEB128 form (section 7.6 of DWARF Version 5) of any value |
| Bytes.ReadVarintAt | SavorCaptureFormat/CaptureFormat.cpp:78-90 | The shift loop accepts the same inputs, and yields the same value and end, as the group-by-group definition, including the bits that fall off the tenth group |
| Bytes.VarintRoundTrip | SavorCaptureFormat/CaptureFormat.cpp:69-90 | Reading what was appended returns every 64-bit value and leaves what follows untouched |
| Bytes.VarintIsShortest | SavorCaptureFormat/CaptureFormat.cpp:69-90 | Whatever bytes were read as a varint, appending the value again takes no more bytes |
| Bytes.U32RoundTrip | SavorCaptureFormat/CaptureFormat.cpp:37-54 | Little-endian 32-bit data reads back, for every value |
| Bytes.U64RoundTrip | SavorCaptureFormat/CaptureFormat.cpp:37-54 | Little-endian 64-bit data reads back, for every value |
| Bytes.StringRoundTrip | SavorCaptureFormat/CaptureFormat.cpp:92-98 | Length-prefixed strings read back, whatever follows |
| Bytes.CountedRoundTrip | SavorCaptureFormat/CaptureFormat.cpp:119-134 | A counted list reads back if each element does and the count is within the limit |
| StructuredFields.ListRoundTrip | SavorCaptureFormat/CaptureFormat.cpp:112-127 | A linked-list payload within 256 nodes and 4096 members reads back exactly |
| StructuredFields.StackRoundTrip | SavorCaptureFormat/CaptureFormat.cpp:128-139 | A stack trace within 64 frames reads back exactly |
| StructuredFields.TraceRoundTrip | SavorCaptureFormat/CaptureFormat.cpp:140-158 | An address trace within 64 operations reads back exactly |
| StructuredFields.BlobRoundTripIffWellFormed | SavorCaptureFormat/CaptureFormat.cpp:107-253 | A blob decodes to its field if and only if the field carries the payload of its type, within the limits, and no other |
| StructuredFields.FieldValueRoundTrip | SavorCaptureFormat/CaptureFormat.cpp:265-300 | A well-formed field value, read onto any well-formed field of its name and type, is restored with nothing of the old payload left |
| StructuredFields.ReadFieldIsWellFormed | SavorCaptureFormat/CaptureFormat.cpp:163-300 | Whatever bytes are read onto a well-formed field, an accepted result is well formed, so it can be encoded again |
| BlobLoops.StructuredFieldBytes | SavorCaptureFormat/CaptureFormat.cpp:107-161 | The nested loops write exactly the specified blob, for every field type and for missing payloads |
| BlobLoops.DecodeStructuredField | SavorCaptureFormat/CaptureFormat.cpp:163-253 | The nested loops accept and yield exactly what the specification does, with all limits and the check that no byte is left |
| BlobLoops.ReadNodes | SavorCaptureFormat/CaptureFormat.cpp:172-203 | The loop over nodes with its inner loop over members equals the counted read |
| EventCodec.BaselineKeyIdentifies | SavorCaptureFormat/CaptureFormat.cpp:31-35 | Two events share a baseline key exactly if they share probe, guest epoch and profile revision, although the key is joined text |
| EventCodec.BitmapRoundTrip | SavorCaptureFormat/CaptureFormat.cpp:347-359 | A change bitmap of any length yields back its flags |
| EventCodec.SequenceDeltaWraps | SavorCaptureFormat/CaptureFormat.cpp:319-320 | Adding the wrapped difference modulo 2^64 restores the record sequence, also when it moves back |
| EventCodec.EventRoundTrip | SavorCaptureFormat/CaptureFormat.cpp:313-442 | From equal, well-formed baselines one event reads back, as keyframe or as delta, whatever follows |
| EventCodec.EventsRoundTrip | SavorCaptureFormat/CaptureFormat.cpp:313-442 | By simulation: a list of well-formed events decodes to itself from equal states, across keyframes, bitmaps and gaps, consuming exactly its own bytes |
| EventCodec.DecodedIsWellFormed | SavorCaptureFormat/CaptureFormat.cpp:367-442 | Every event decoded from any bytes is well formed |
| EventCodec.RoundTripIffWellFormed | SavorCaptureFormat/CaptureFormat.cpp:313-442 | A chunk decodes to its events with no byte left if and only if all of them are well formed |
| CodecMeaning.BaselinesAreBases | SavorCaptureFormat/CaptureFormat.cpp:334-364 | A baseline is kept for an event exactly if an earlier one has its probe, epoch and revision and neither that one nor any since is a gap; it holds the fields of the last such event |
| CodecMeaning.EventsAreWrittenAgainst | SavorCaptureFormat/CaptureFormat.cpp:313-365 | Each event of a chunk is written as a change against the last such event if that has the same field names and types, with the values of exactly the fields that are blobs or differ; and in full otherwise |
| CodecMeaning.NothingOutlivesGap | SavorCaptureFormat/CaptureFormat.cpp:362-364 | Right behind a gap there is no such event, so the next one is written in full |
| CodecMeaning.ChangeWithoutBaseIsRefused | SavorCaptureFormat/CaptureFormat.cpp:415-418 | A change that has no such event, as any right behind a gap, is refused, and the events before it are kept |
| FileLayout.EventLayout | SavorCaptureFormat/CaptureFormat.cpp:313-332 | An event's bytes begin with seven varints in this order, the kind, three 32-bit numbers, a 64-bit value and the probe |
| FieldLayout.ValueLayout | SavorCaptureFormat/CaptureFormat.cpp:265-300 | A field's value is its status, 64 bits and, for types 4 to 8 only, the length-prefixed payload of that type |
| FieldLayout.ListLayout | SavorCaptureFormat/CaptureFormat.cpp:112-127 | Root, head, three flags and the nodes of a list are at these offsets |
| FieldLayout.NodeLayout | SavorCaptureFormat/CaptureFormat.cpp:120-122 | A node is its address and its members |
| FieldLayout.MemberLayout | SavorCaptureFormat/CaptureFormat.cpp:123-126 | A member is its name, width, status and 64 bits |
| FieldLayout.StackLayout | SavorCaptureFormat/CaptureFormat.cpp:128-139 | Three flags and the frames of a stack are at these offsets |
| FieldLayout.FrameLayout | SavorCaptureFormat/CaptureFormat.cpp:134-137 | The four addresses of a frame are in this order |
| FieldLayout.TraceLayout | SavorCaptureFormat/CaptureFormat.cpp:140-146 | Success, final address, failed operation and failure text of a trace are at these offsets |
| FieldLayout.OperationLayout | SavorCaptureFormat/CaptureFormat.cpp:148-156 | The parts of a traced operation are at these offsets, with zero for a word not read |
| CodecLoops.BuildBitmap | SavorCaptureFormat/CaptureFormat.cpp:347-353 | Setting bit after bit in a zeroed buffer builds the bitmap of the changed fields |
| CodecLoops.AppendEvent | SavorCaptureFormat/CaptureFormat.cpp:313-365 | encode_event appends exactly the specified bytes and leaves exactly the specified baselines and prior sequence |
| CodecLoops.ReadChangedLoop | SavorCaptureFormat/CaptureFormat.cpp:431-436 | Reading the flagged fields over a copy of the baseline equals the element-wise read |
| CodecLoops.DecodeEvent | SavorCaptureFormat/CaptureFormat.cpp:367-442 | decode_event accepts and yields what the specification does and updates the baselines as the encoder did |
| CodecLoops.EncodeChunk | SavorCaptureFormat/CaptureFormat.cpp:1022-1027 | The loop over pending events writes the encoding of the whole list |
| CodecLoops.DecodeChunk | SavorCaptureFormat/CaptureFormat.cpp:587-600 | The loop over the events of a chunk yields the events up to the first one refused, and whether one was |
| Framing.WalkWhole | SavorCaptureFormat/CaptureFormat.cpp:543-655 | A reader that undoes each record undoes any run of records, each at its own offset |
| Framing.WalkCut | SavorCaptureFormat/CaptureFormat.cpp:543-655 | Cut inside a record, the walk comes to what is left of it with exactly what the records before it contribute |
| CaptureSegment.FileHeaderRoundTrip | SavorCaptureFormat/CaptureFormat.cpp:444-502 | A file header with metadata within the limit reads back and is skipped exactly |
| CaptureSegment.ChunkHeaderRoundTrip | SavorCaptureFormat/CaptureFormat.cpp:556-571 | A chunk header reads back, with the offset at which it was found |
| FileLayout.HeaderLayout | SavorCaptureFormat/CaptureFormat.cpp:444-466 | A file begins with SAVORSC and a zero, version 1 and the size of its metadata, and then the metadata |
| FileLayout.MetadataLayout | SavorCaptureFormat/CaptureFormat.cpp:444-454 | The metadata are the time of creation and five strings, in this order |
| FileLayout.ChunkLayout | SavorCaptureFormat/CaptureFormat.cpp:1042-1058 | A chunk record is CHNK, the seven numbers of its header at fixed offsets (index, first and last sequence, event count, raw and packed size, checksum of the packed bytes), and 48 bytes in the packed events |
| FileLayout.IndexLayout | SavorCaptureFormat/CaptureFormat.cpp:1078-1090 | An index record is INDX, its count, and 32 bytes per entry: chunk, offset, first and last sequence |
| FileLayout.FooterLayout | SavorCaptureFormat/CaptureFormat.cpp:1099-1117 | A footer is FOOT, the counts of chunks and events, the offset of the last index, whether complete, and the reason |
| CaptureSegment.ReadSegmentLoop | SavorCaptureFormat/CaptureFormat.cpp:524-655 | The record loop computes the reader's report for any file, with all its errors and warnings |
| SegmentRoundTrip.RecordsAreUndone | SavorCaptureFormat/CaptureFormat.cpp:543-655 | Each chunk and index record is read with exactly the effect it was written for, whatever follows |
| SegmentRoundTrip.ReadClosedSegment | SavorCaptureFormat/CaptureFormat.cpp:524-655 | A closed segment reads back to its events and chunk list, without error and with footer counts that agree |
| CaptureSegment.CutHeader | SavorCaptureFormat/CaptureFormat.cpp:468-502 | A file header cut at any byte is reported as truncated |
| SegmentRoundTrip.CutRecord | SavorCaptureFormat/CaptureFormat.cpp:543-655 | From a record cut at any byte the reader takes nothing, reports exactly the error of the part that is cut (none within a tag or an index body) and a missing footer |
| SegmentRoundTrip.TruncationYieldsPrefix | SavorCaptureFormat/CaptureFormat.cpp:543-655 | Any prefix of a segment that contains the file header yields exactly the events of the chunks wholly inside it, has a footer only if nothing is missing, and is read without error exactly if less than a tag of the next record is left or that is an index with tag and count left |
| SegmentRoundTrip.CutHasNoFooter | SavorCaptureFormat/CaptureFormat.cpp:468-655 | No proper prefix of a closed segment, header bytes included, is read with a footer |
| SegmentFaults.ForeignHeaderIsRefused | SavorCaptureFormat/CaptureFormat.cpp:468-502 | A file shorter than 16 bytes, with another magic or with another version yields exactly that error and nothing else |
| SegmentFaults.SizesAreLimited | SavorCaptureFormat/CaptureFormat.cpp:565-569 | Behind any good records, a chunk beyond 256 megabytes packed or 512 megabytes raw is refused with exactly that error, before its payload is looked at |
| SegmentFaults.ChecksumIsCompared | SavorCaptureFormat/CaptureFormat.cpp:570-579 | Behind any good records, a chunk within the limits whose payload has another checksum than its header yields no event: the reader has the events before it, exactly this mismatch, and no footer, whatever follows |
| SegmentFaults.DecompressionIsChecked | SavorCaptureFormat/CaptureFormat.cpp:580-586 | A payload with the right checksum that does not decompress to the stated size is refused with exactly that error |
| SegmentFaults.BadEventsAreReported | SavorCaptureFormat/CaptureFormat.cpp:587-597 | A chunk with a refused event yields the events before that one, reports it and ends the whole read |
| SegmentFaults.UnknownRecordIsReported | SavorCaptureFormat/CaptureFormat.cpp:642-646 | A tag of no known record is reported with its offset and ends the read |
| SegmentFaults.FooterIsCompared | SavorCaptureFormat/CaptureFormat.cpp:635-640 | The reader warns exactly if the footer's counts are not those of the records read |
| WriterLog.AddIndexKeeps | SavorCaptureFormat/CaptureFormat.cpp:1078-1097 | After an index record every chunk of the segment is indexed, once and in order |
| WriterLog.CloseSegmentKeeps | SavorCaptureFormat/CaptureFormat.cpp:1099-1128 | Closing keeps all accepted events and leaves a segment that is fully indexed and truly counted |
| WriterLog.FlushKeeps | SavorCaptureFormat/CaptureFormat.cpp:1018-1076 | Flushing, with checkpoint and rotation, loses no event and leaves nothing pending |
| WriterLog.ApplyKeeps | SavorCaptureFormat/CaptureFormat.cpp:950-983 | Every call keeps the invariant and accepts its event exactly if the record sequence does not move back in the pending chunk |
| WriterLog.RunKeeps | SavorCaptureFormat/CaptureFormat.cpp:950-983 | The same over any run of calls, with what has been accepted and whether it was ever marked |
| WriterLog.OrderedRunAcceptsAll | SavorCaptureFormat/CaptureFormat.cpp:950-976 | If appended sequences never decrease, every event is accepted |
| WriterPolicy.WriterKeepsItsOptions | SavorCaptureFormat/CaptureFormat.cpp:950-1128 | Between the calls of any run nothing pending is overdue in events, estimated bytes or time; each chunk was ended by the event that made it due; chunks are numbered across segments; an index follows exactly the chunks that call for one; segments were ended when full, and the open one is not |
| WriterPolicy.ClosedWriterKeepsItsOptions | SavorCaptureFormat/CaptureFormat.cpp:1018-1140 | After close only the last chunk may not have been due and only the last segment not full |
| CaptureReader.WholeRunRoundTrip | SavorCaptureFormat/CaptureFormat.cpp:912-1201 | For every run and positive options: the files read back to the accepted events in order, without error, footers agree, and verify is ok exactly if the run never marked it incomplete |
| CaptureReader.RunIsSmall | SavorCaptureFormat/CaptureFormat.cpp:1018-1117 | A run stays inside the reader's limits if its calls are fewer than 2^32, its reasons have 32-bit sizes and any chunk of up to events_per_chunk of its events does |
| CaptureReader.FittingRunRoundTrip | SavorCaptureFormat/CaptureFormat.cpp:912-1201 | The round trip of whole runs under these conditions on the calls alone |
| CaptureReader.LastIndexIsLast | SavorCaptureFormat/CaptureFormat.cpp:1078-1097 | The offset kept for the footer is the position, modulo 2^64, of the last index record |
| CaptureReader.RunIndexesEveryChunk | SavorCaptureFormat/CaptureFormat.cpp:1018-1128 | In every segment of every run the index records list exactly the chunks, each chunk holds 1 to events_per_chunk events, and the footer has the true counts and the position of the last index record, which there is as soon as there is a chunk |
| CaptureReader.ChunkEntryAt | SavorCaptureFormat/CaptureFormat.cpp:1040-1047 | The entries are one per chunk, in file order, with the position and the sequences of the chunk |
| CaptureReader.RecordIsAtOffset | SavorCaptureFormat/CaptureFormat.cpp:1042-1066 | At the position given for a record the segment does hold the bytes of that record |
| CaptureDamage.DamagedRunYieldsPrefix | SavorCaptureFormat/CaptureFormat.cpp:543-655 | A file of any run, cut anywhere behind its header, yields the events of the chunks before the cut; its footer is gone, and it is read without error exactly in the two cases above |
| CaptureDamage.UnmarkedAreComplete | SavorCaptureFormat/CaptureFormat.cpp:978-983 | In every run exactly the segments closed before the first mark have a footer that says complete |
| CaptureDamage.DiscoverSegments | SavorCaptureFormat/CaptureFormat.cpp:504-522 | The loop finds the base file if it is there and the numbered files up to the first that is missing |
| CaptureDamage.VerifySeesDamageIff | SavorCaptureFormat/CaptureFormat.cpp:504-1173 | Whatever files of any run are lost and whatever is cut off the others: what is left verifies if and only if a file is found and each one found is whole and was closed before the first mark |
| CaptureDamage.VerifySeesFirstFiles | SavorCaptureFormat/CaptureFormat.cpp:1152-1173 | The first n files of any run, cut anywhere, verify if and only if nothing is cut off them and all were closed before the first mark |
| CaptureDamage.VerifySeesTruncation | SavorCaptureFormat/CaptureFormat.cpp:1152-1173 | With all files there, they verify exactly if nothing is cut off and the run was never marked |
| CaptureDamage.VerifyMissesLostFilesIff | SavorCaptureFormat/CaptureFormat.cpp:504-522 | The first n files of any run verify if and only if the run was never marked or at least n segments were closed before the first mark |
| CaptureDamage.ChangedChunkNeverVerifies | SavorCaptureFormat/CaptureFormat.cpp:575-579 | A file of any run in which a chunk is replaced by one whose payload and stored checksum disagree yields the events before it and exactly that error, whatever follows, and no capture with this file verifies |
| CaptureReader.ReadCapture | SavorCaptureFormat/CaptureFormat.cpp:1175-1201 | The loop over the segments returns the report of each and the events of all in order |
| CaptureReader.ReadIsWellFormed | SavorCaptureFormat/CaptureFormat.cpp:524-655 | From any file at all the reader only yields well-formed events |
| CaptureRecovery.ReadReasonsAreShort | SavorCaptureFormat/CaptureFormat.cpp:611-626 | From any files, the reason a recovery gives has a length that fits 64 bits, because the reasons in footers fit 32 |
| CaptureRecovery.RecoverIsFaithful | SavorCaptureFormat/CaptureFormat.cpp:1303-1333 | From any files: if anything can be read, recover leaves a capture that reads back to exactly the first events that could be read and never verifies; it succeeds, with all of them, if and only if a run with the default limits accepts them, as it does if record sequences never decrease; else the first event left out steps back behind its predecessor |
| CaptureRecovery.CleanCaptureIsRefused | SavorCaptureFormat/CaptureFormat.cpp:956-959 | A capture written with one event a chunk whose second sequence is below the first verifies, reads back whole, and is refused by recover |
| CaptureRecovery.RefusedCaptureExists | SavorCaptureFormat/CaptureFormat.cpp:1326-1331 | There is such a capture, under every metadata |
| CaptureReasons.SegmentsTellLastMark | SavorCaptureFormat/CaptureFormat.cpp:978-1128 | In every run each segment that an append closes tells the last mark made by then, and what close writes tells the last mark of the run |
| CaptureReasons.ReportsTellFooters | SavorCaptureFormat/CaptureFormat.cpp:611-634 | The report on each file of a run carries the reason of its footer |
| CaptureReasons.RecoveredCaptureSaysWhy | SavorCaptureFormat/CaptureFormat.cpp:1320-1327 | Every file of a recovered capture reads back with the reason "recovered capture", followed by the first reason the damaged files gave, if any did |
| CaptureWriter.Writer.Open | SavorCaptureFormat/CaptureFormat.cpp:912-948 | Refuses an open writer and zero limits without any change; otherwise starts an empty log under the new header |
| CaptureWriter.Writer.Append | SavorCaptureFormat/CaptureFormat.cpp:950-976 | The object's new state is that of the log after append, and it refuses exactly what the log refuses |
| CaptureWriter.Writer.MarkIncomplete | SavorCaptureFormat/CaptureFormat.cpp:978-983 | Sets the flag and the reason and nothing else |
| CaptureWriter.Writer.FlushChunk | SavorCaptureFormat/CaptureFormat.cpp:1018-1076 | Stream, counters, pending index and files stay those of the flushed log |
| CaptureWriter.Writer.WriteIndexCheckpoint | SavorCaptureFormat/CaptureFormat.cpp:1078-1097 | Writes the pending entries, remembers where, and leaves none pending |
| CaptureWriter.Writer.WriteFooter | SavorCaptureFormat/CaptureFormat.cpp:1099-1117 | Completes the stream to the bytes of the closed segment |
| CaptureWriter.Writer.RotateIfNeeded | SavorCaptureFormat/CaptureFormat.cpp:1119-1128 | Starts a new segment exactly if the stream has reached the configured size |
| CaptureWriter.Writer.Close | SavorCaptureFormat/CaptureFormat.cpp:1130-1140 | Leaves the files of the closed log, and does nothing on a closed writer |
| CaptureWriter.ChunkKeepsMirror | SavorCaptureFormat/CaptureFormat.cpp:1042-1071 | Writing a chunk and updating stream, counters and pending index keeps the fields in step with the records |
| CaptureWriter.WriteCapture | SavorCaptureFormat/CaptureFormat.cpp:912-1140 | A whole session on the object leaves the files that the run theorems are about |
| CaptureWriter.FilesAreWritten | SavorCaptureFormat/CaptureFormat.cpp:1099-1140 | The files the object leaves are, byte for byte, the files the round trip theorems read |
| CaptureWriter.WriteAndReadCapture | SavorCaptureFormat/CaptureFormat.cpp:912-1201 | The files a session on the object leaves, read by the loop, give exactly the accepted events, without error, and verify exactly if the run was never marked |
| CaptureWriter.RecoverCapture | SavorCaptureFormat/CaptureFormat.cpp:1303-1333 | recover on the object, from any damaged files, answers as specified and leaves the specified files, also when an event is refused and the writer is closed by its destructor |
| CaptureWriter.RecoverAndReadCapture | SavorCaptureFormat/CaptureFormat.cpp:1303-1333 | The files it leaves read back to a prefix of what could be read of the damaged ones, to all of it exactly if it succeeded, and never verify |
| CaptureWriter.CaptureMeaningIsFaithful | SavorCaptureFormat/CaptureFormat.cpp:985-1117 | The functions the writer object is proved against are the segment format and the writer machine |
| Sorting.StableSortIsStable | SavorCaptureFormat/CaptureFormat.cpp:1266-1268 | The sort is sorted and keeps the order within every key |
| Sorting.SortedIsUnique | SavorCaptureFormat/CaptureFormat.cpp:1266-1268 | Only one sequence is, so a stable sort is determined |
| CaptureExport.ExportLines | SavorCaptureFormat/CaptureFormat.cpp:1253-1301 | The loop, with its early continue, computes the specified lines |
| CaptureExport.ExportFilters | SavorCaptureFormat/CaptureFormat.cpp:1280-1295 | Any probe filter and sequence range selects exactly the matching lines of the unfiltered export, annotations included |
| CaptureExport.ExportAnnotates | SavorCaptureFormat/CaptureFormat.cpp:1266-1295 | Every event appears once in stable capture order with the number of draw-owning events before it in the whole capture |
| CaptureExport.ExportIgnoresStorageOrder | SavorCaptureFormat/CaptureFormat.cpp:1262-1268 | Captures that agree per capture sequence export alike, however segments interleave them |
| CaptureExport.ExportCapture | SavorCaptureFormat/CaptureFormat.cpp:1253-1301 | export_jsonl on files: refused exactly if reading reports an error, else the lines of all events read, with the symbols of the profiles in all headers |
| CaptureExport.RunExports | SavorCaptureFormat/CaptureFormat.cpp:912-1301 | The files of every run, marked or not, export to the lines of exactly the accepted events, each once, in stable capture order, with its number of draws |
| ExportSymbols.ExportFollowsProfiles | SavorCaptureFormat/CaptureFormat.cpp:858-876 | Of the events in capture order, each is exported with the entry that the header profiles and the reloads up to it hold for its revision and probe, else with a fallback that owns no draw; its draw index is the number, modulo 2^64, of earlier events whose entry owns one |
| ExportSymbols.SeedsAreTable | SavorCaptureFormat/CaptureFormat.cpp:1266-1279 | What the export starts with are the profiles of the headers that can be read, in file order |
| ExportSymbols.ExportOfFiles | SavorCaptureFormat/CaptureFormat.cpp:1253-1301 | export_jsonl is refused exactly if there is no file or one reports an error, and otherwise writes those lines, of which a query selects |
| EventQueue.StepKeeps | SavorProbe/ProbeEvent.cpp:30-68 | Every atomic step of any producer or the consumer keeps the invariant of slots, sequences and claims |
| EventQueue.ReservationHasRoom | SavorProbe/ProbeEvent.cpp:38-43 | A compare-and-swap that succeeds finds a free slot; this needs a capacity of at least two |
| EventQueue.QueueIsFifo | SavorProbe/ProbeEvent.cpp:30-68 | In every interleaving the popped events are the first reserved ones, whole and in order, and occupancy is at most the capacity, plus one between the consumer's stores |
| EventQueue.AnswersMatchReservations | SavorProbe/ProbeEvent.cpp:39-46 | In every interleaving each reserved position has been answered true exactly once, with its event, or is being written by exactly one producer, and not both; no other position is answered true |
| EventQueue.EveryPushIsAnswered | SavorProbe/ProbeEvent.cpp:30-53 | The pushes a thread makes are answered once each, in order, but for the one under way |
| EventQueue.QueueRespectsRealTime | SavorProbe/ProbeEvent.cpp:30-53 | In every interleaving, a push that begins after another was answered true gets the larger position if it is answered true, so it is popped later |
| EventQueue.EveryCapacityHasRing | SavorProbe/ProbeEvent.cpp:8-36 | The theorems apply to every capacity |
| EventQueue.UnreadIsNotOverwritten | SavorProbe/ProbeEvent.cpp:42-44 | No producer step changes a slot that is published and unread |
| EventQueue.FullAnswerIsSound | SavorProbe/ProbeEvent.cpp:33-48 | try_push answers false only with a capacity of unreleased reservations at its load, and does so if its position is current |
| EventQueue.RefusedIsFull | SavorProbe/ProbeEvent.cpp:33-53 | Whatever step answers false finds a whole capacity of reservations unreleased |
| EventQueue.NoRefusalWithRoom | SavorProbe/ProbeEvent.cpp:30-53 | In every run each answer of false was given in a state with a whole capacity unreleased, so no push fails while there is room |
| EventQueue.PushIsAnswered | SavorProbe/ProbeEvent.cpp:30-53 | From any reachable state a push that runs alone is answered once, about its own event, and true if there is room |
| EventQueue.EmptyAnswerIsSound | SavorProbe/ProbeEvent.cpp:59-63 | try_pop answers false exactly if nothing is reserved or the oldest reservation is still being written |
| EventQueue.NoEventIsEmpty | SavorProbe/ProbeEvent.cpp:55-68 | Wherever a pop ends without an event, nothing is reserved or the oldest reservation is still being written |
| EventQueue.PopIsAnswered | SavorProbe/ProbeEvent.cpp:55-68 | From any reachable state a pop that runs alone pops the oldest event, unless there is none or it is still being written |
| EventQueue.DrainedQueueLostNothing | SavorProbe/ProbeEvent.cpp:55-68 | With no push under way, an empty answer means every reserved event was popped |
| EventQueue.CapacityOneIsNotFifo | SavorProbe/ProbeEvent.cpp:10-11 | With one slot there is a run that pops the second event in place of the first |
| EventQueue.RemainderIsModulo | SavorProbe/ProbeEvent.cpp:36 | The slot of a position is the position modulo the capacity |
| LatestMailbox.PackingIsFaithful | SavorProbe/ProbeEvent.cpp:125 | Comparing and masking packed tokens is comparing generation and slot, and packed tokens grow with the generation |
| LatestMailbox.StepKeeps | SavorProbe/ProbeEvent.cpp:99-151 | Every atomic step of the producer or the reader keeps the invariant |
| LatestMailbox.MailboxNeverTears | SavorProbe/ProbeEvent.cpp:99-151 | In every interleaving each event taken is the one published under its token, word for word, and taken tokens strictly increase |
| LatestMailbox.CopiedSlotIsNotWritten | SavorProbe/ProbeEvent.cpp:112-124 | After the reader's recheck no step changes the slot being copied |
| LatestMailbox.NothingIsLost | SavorProbe/ProbeEvent.cpp:99-158 | Each published token was taken, or reported by the next publish, or is pending |
| LatestMailbox.PublishFindsSlot | SavorProbe/ProbeEvent.cpp:112-122 | publish always finds a slot to write |
| LatestMailbox.TakeIsLatest | SavorProbe/ProbeEvent.cpp:139-148 | A take is the latest publication at its last check, and every retry was caused by a newer one |
| LatestMailbox.FalseAnswerIsSound | SavorProbe/ProbeEvent.cpp:130-138 | In every run try_take answers false only if at its last load nothing was published that it had not consumed |
| LatestMailbox.TakeIsDone | SavorProbe/ProbeEvent.cpp:130-153 | From any reachable state a take that runs alone leaves nothing pending |
| LatestMailbox.PublishIsDone | SavorProbe/ProbeEvent.cpp:99-128 | From any reachable state a publish that runs alone publishes its own event and no other |
| LatestMailbox.ReplacedIsTakenIff | SavorProbe/ProbeEvent.cpp:99-151 | A published token that has been replaced is taken in some continuation if and only if it was already taken or the reader has passed its last check on it and not yet stored it |
| LatestMailbox.QuietReportIsExact | SavorProbe/ProbeEvent.cpp:106-109 | If the reader is outside try_take from the load of the consumed token to the end of the publish, that token is reported exactly if no continuation takes it |
| LatestMailbox.ReportedAndTaken | SavorProbe/ProbeEvent.cpp:106-109 | The other case does arise: a run in which a token is reported replaced and taken |
| FlightWindows.RecorderEmitsWindows | SavorProbe/CaptureRetention.cpp:49-127 | For every history, forced triggers and overrides included: what is emitted are the members in some trigger's window, in order of arrival |
| FlightWindows.UnambiguousRunEmitsWindows | SavorProbe/CaptureRetention.cpp:49-127 | Forced triggers included, if no later member that triggers nothing carries the sequence of a trigger: a member is emitted exactly if it is one of the last pre_events before a trigger, the trigger, or wanted after it; without larger overrides these are the next post_events |
| FlightWindows.DistinctRunEmitsNearTriggers | SavorProbe/CaptureRetention.cpp:49-118 | With distinct sequences a member is emitted exactly if it is a trigger, among the last pre_events before one, or among the next post_events after one |
| ForcedWindows.ForcedWindowIsExactIff | SavorProbe/CaptureRetention.cpp:49-127 | After any history, the members that follow a forced trigger and trigger nothing come out in the wanted number if and only if there are no more of them, or none of the first ones carries its sequence; in any case at least so many do, from the first on |
| ForcedWindows.ForcedRunIsExactIff | SavorProbe/CaptureRetention.cpp:49-127 | The same for a fresh recorder, in terms of post_events and the override alone |
| ForcedWindows.ForcedAtNextSequence | SavorProbe/ProbeRuntime.cpp:1786-1789 | A forced trigger with the sequence of the very next member, and of no later one, lets exactly one member more through than it asks for |
| FlightWindows.RunKeepsMetrics | SavorProbe/CaptureRetention.cpp:49-105 | Triggers are retriggers plus completed windows plus an open one; an open window has an empty buffer; buffers stay bounded |
| FlightWindows.CountersAreExact | SavorProbe/CaptureRetention.cpp:49-105 | Triggers, retriggers and completed windows are, after any history, the triggers there were, those that came while an earlier one still asked for members, and the windows no trigger asks for any more |
| FlightWindows.RunConserves | SavorProbe/CaptureRetention.cpp:49-105 | Each member was emitted, is buffered or was dropped, once |
| CaptureRetention.Retention.Accept | SavorProbe/CaptureRetention.cpp:74-118 | The loops over recorders and the early returns compute the specified state and emissions, in emission order |
| CaptureRetention.Retention.TriggerAll | SavorProbe/CaptureRetention.cpp:120-127 | All recorders are activated, in order |
| CaptureRetention.Retention.Finish | SavorProbe/CaptureRetention.cpp:129-139 | Emits everything retained, in capture order, and empties the buffers |
| RetentionRuns.RecorderIsIndependent | SavorProbe/CaptureRetention.cpp:74-127 | With disjoint members each recorder behaves, inside the policy, as if it were alone |
| RetentionRuns.RecorderEmitsWantedMembers | SavorProbe/CaptureRetention.cpp:74-127 | Forced triggers included, the members of a recorder among everything emitted in a run are exactly those some trigger wants, in order, if no later member carries the sequence of a trigger |
| RetentionRuns.RecorderEmitsNearTriggers | SavorProbe/CaptureRetention.cpp:74-118 | With distinct sequences these are exactly those near a trigger |
| RetentionRuns.LastNHoldsLast | SavorProbe/CaptureRetention.cpp:107-116 | Each last-N probe holds the last n of the events that reached it |
| RetentionRuns.OthersHoldNothing | SavorProbe/CaptureRetention.cpp:107-116 | Probes without last-N sampling hold nothing for finish |
| RetentionRuns.RetainCapture | SavorProbe/CaptureRetention.cpp:74-139 | A session on the object emits what the run emits, and finish then adds, in capture order, exactly the last n events of each last-N probe |
| RetentionRuns.OthersPassThrough | SavorProbe/CaptureRetention.cpp:107-118 | All other events are emitted at once and in order |
| RetentionRuns.RunConservesEvents | SavorProbe/CaptureRetention.cpp:74-127 | Over every run each accepted event was emitted, is held in one buffer or was dropped: never two of these, never none |
| NamedTriggers.ListsDecide | SavorProbe/CaptureRetention.cpp:13-48 | An event triggers a recorder exactly if it is control-published and the recorder asks for that, or its probe is in the list of triggers, or it is a marker in the list of markers; it is a member exactly if its probe is in that list |
| NamedTriggers.ListsRoute | SavorProbe/CaptureRetention.cpp:74-118 | What a last-N probe keeps and what passes straight through, by the same lists |
| NamedTriggers.RecorderEmitsAroundNames | SavorProbe/CaptureRetention.cpp:13-127 | With disjoint members and distinct sequences, what a session emits of a recorder's members are exactly those near a call that sets it off by its lists, in order |
| StopSink.StepKeeps | SavorProbe/NativeHooks.cpp:81-128 | Every step of every thread keeps the counter, the lock and the rule that callbacks run only on the bound sink or the one being drained |
| StopSink.UnbindIsQuiescent | SavorProbe/NativeHooks.cpp:362-380 | Once an unbind has answered true, no thread is or enters a callback on the sink in any continuation until it is bound again |
| StopSink.DrainCanProceed | SavorProbe/NativeHooks.cpp:376-378 | While an unbinder spins, nothing is active or another thread can step without the lock and with less work left |
| StopSink.NoCallbackStartsWhileDraining | SavorProbe/NativeHooks.cpp:387-407 | No callback starts, on any sink, while one is being drained |
| StopSink.LockIsExclusive | SavorProbe/NativeHooks.cpp:81-97 | At most one thread is inside the binding lock |
| StopSink.CallbacksStayOffTheLock | SavorProbe/NativeHooks.cpp:345-407 | In every run, a thread with a callback anywhere on its stack neither holds nor waits for the binding lock, and what it tries to bind or unbind changes nothing |
| SinkRuns.DispatchDeliversWhatItLoads | SavorProbe/NativeHooks.cpp:387-407 | In every run each dispatch looks once which sink is bound, and before it ends has been in exactly one callback, on that sink, or in none if none was bound |
| SinkRuns.BoundSinkGetsEveryDispatch | SavorProbe/NativeHooks.cpp:343-407 | Once a bind of a sink has answered true, every dispatch that begins and ends in a continuation in which no unbind of it begins has been in exactly one callback, on that sink |
| SinkRuns.NothingIsDeliveredUnbound | SavorProbe/NativeHooks.cpp:387-407 | As long as no bind begins nothing is delivered |
| SinkRuns.EarlyDispatchIsDelivered | SavorProbe/NativeHooks.cpp:387-396 | A dispatch that begins before the first bind does is delivered in some run |
| SinkRuns.BindAnswerIsExact | SavorProbe/NativeHooks.cpp:343-360 | A bind lets go of the lock with some sink bound, and answers true exactly if that is its own |
| SinkRuns.UnbindAnswerIsExact | SavorProbe/NativeHooks.cpp:362-380 | An unbind answers false exactly if another sink or none was bound at its swap |
| SinkRuns.TaskEndsAlone | SavorProbe/NativeHooks.cpp:343-380 | A bind or unbind that runs alone ends, if the lock is free or its own and no dispatch is under way |
| SinkRuns.CallsBegin | SavorProbe/NativeHooks.cpp:343-396 | A thread outside any dispatch or inside a callback can always begin one, nested or not; it begins a bind or unbind exactly if it is outside, and is refused without any change inside |
| SinkRuns.DispatchEndsAlone | SavorProbe/NativeHooks.cpp:387-396 | A dispatch whose thread runs on ends within three steps, whatever the others have come to |
| Watchpoints.EndsStandForBytes | SavorProbe/ProbeWatchpointRegistry.cpp:11-36 | A range has an end exactly if it has a byte and all its bytes fit 32 bits, and comparing ends is comparing sets of bytes: covering is inclusion, overlapping is sharing a byte |
| Watchpoints.BestCover | SavorProbe/ProbeWatchpointRegistry.cpp:91-101 | The loop finds the first of the shortest covering foreign ranges, or that there is none |
| Watchpoints.AnySameStart | SavorProbe/ProbeWatchpointRegistry.cpp:115-120 | Finds whether a foreign range starts with the request and overlaps it |
| Watchpoints.MergeLoop | SavorProbe/ProbeWatchpointRegistry.cpp:138-156 | The loop that extends the last range computes the merge |
| Watchpoints.MergeIsMerge | SavorProbe/ProbeWatchpointRegistry.cpp:135-156 | On requests sorted by address the result is sorted, disjoint, houses every request, has no seam inside a range, and has read and write exactly if a request inside asks |
| Watchpoints.MergeCoversExactly | SavorProbe/ProbeWatchpointRegistry.cpp:135-156 | A byte is in a physical range exactly if it is in an owned request |
| Watchpoints.RangesAreComponents | SavorProbe/ProbeWatchpointRegistry.cpp:135-156 | Two requests share a range exactly if a chain of overlapping requests links them |
| Watchpoints.MergeIsCanonical | SavorProbe/ProbeWatchpointRegistry.cpp:135-156 | These properties leave one result, whatever the order of requests and of ties |
| WatchpointPlanner.PlanBindings | SavorProbe/ProbeWatchpointRegistry.cpp:71-182 | The planner's loops and sorts compute the specified plan |
| WatchpointPlanner.PlanMerges | SavorProbe/ProbeWatchpointRegistry.cpp:135-156 | Its physical ranges are the merge of the requests that neither fail nor ride on a foreign range |
| WatchpointPlanner.PlanIgnoresOrder | SavorProbe/ProbeWatchpointRegistry.cpp:135-156 | They do not depend on the order of the requests |
| WatchpointPlanner.EveryRequestIsAnswered | SavorProbe/ProbeWatchpointRegistry.cpp:78-176 | Bindings and failures together answer each request exactly once |
| WatchpointPlanner.BindingsCover | SavorProbe/ProbeWatchpointRegistry.cpp:102-113 | Every binding covers its request, with a shortest covering foreign range or with a physical range of the plan |
| WatchpointPlanner.ForeignStartsAreAvoided | SavorProbe/ProbeWatchpointRegistry.cpp:115-132 | No owned range starts where a well-formed foreign range starts |
| PlanAnswers.FailuresAreExact | SavorProbe/ProbeWatchpointRegistry.cpp:78-132 | A request fails exactly if it has no byte or leaves the 32-bit addresses, or if no foreign range holds it and one that is not empty starts where it starts; with that reason |
| PlanAnswers.BindingsAreExact | SavorProbe/ProbeWatchpointRegistry.cpp:91-176 | The bindings are exactly these: with the first of the shortest foreign ranges that hold the request, or else, if none starts with it, with the physical range that holds it |
| PlanAnswers.OwnedAreTheRest | SavorProbe/ProbeWatchpointRegistry.cpp:91-133 | What is merged are exactly the requests that are proper, that no foreign range holds and none starts with |
| PlanAnswers.BindingsAreByOwner | SavorProbe/ProbeWatchpointRegistry.cpp:178-181 | Bindings come by owner, profiles before control |
| WatchpointRegistry.PlanBindsOnce | SavorProbe/ProbeWatchpointRegistry.cpp:228-248 | Without foreign ranges every requested owner has exactly one binding, of its latest range and generation, and nothing fails |
| WatchpointRegistry.Registry.Upsert | SavorProbe/ProbeWatchpointRegistry.cpp:192-203 | Refuses improper ranges without change; otherwise the owner's latest request is this one under a new generation |
| WatchpointRegistry.Registry.Release | SavorProbe/ProbeWatchpointRegistry.cpp:205-212 | Forgets exactly this owner, and says whether it was there |
| WatchpointRegistry.Registry.ReleaseKind | SavorProbe/ProbeWatchpointRegistry.cpp:214-221 | Forgets exactly the owners of a kind, and says whether there were any |
| WatchpointRegistry.Registry.Reconcile | SavorProbe/ProbeWatchpointRegistry.cpp:228-248 | Refuses unmanaged ranges without change; otherwise succeeds and binds every owner once |
| WatchpointRegistry.Registry.ClearRequests | SavorProbe/ProbeWatchpointRegistry.cpp:223-226 | Forgets every request and leaves the bindings |
| WatchpointRegistry.Registry.ReleaseAll | SavorProbe/ProbeWatchpointRegistry.cpp:250-256 | Forgets requests, ranges, bindings and failures, and keeps the next generation |
| WatchpointRegistry.Registry.BindingFor | SavorProbe/ProbeWatchpointRegistry.cpp:258-265 | Finds the owner's binding, or that there is none |
| WatchpointRegistry.LastCallDecides | SavorProbe/ProbeWatchpointRegistry.cpp:192-256 | After any calls an owner is requested exactly if the last call about it is a proper upsert; its request is the one given there, its generation counts the upserts so far |
| WatchpointRegistry.RunSession | SavorProbe/ProbeWatchpointRegistry.cpp:192-256 | After any session the bindings are, once per owner, those of what was requested at the last reconcile that succeeded, with its latest range and generation |
| AddressProgram.Evaluate | SavorProbe/AddressProgramEvaluator.h:12-141 | The byte loop computes the fold over the parsed operations modulo 2^32, and the trace it records is that of the fold |
| AddressProgram.TraceChangesNothingUpToLimit | SavorProbe/AddressProgramEvaluator.h:37-47 | Results with and without a trace agree exactly if at most 64 operations are looked at |
| AddressProgram.TraceChains | SavorProbe/AddressProgramEvaluator.h:42-137 | The steps of a trace chain from address zero to the reported final address, and only the last can have failed |
| AddressProgram.SignedAdditionIsUnsigned | SavorProbe/AddressProgramEvaluator.h:91-111 | add_i32 and add_u32 agree on every operand |
| AddressMeaning.BaseKeyMeans | SavorProbe/AddressProgramEvaluator.h:72-82 | Behind any operations, byte 1 and a 16-bit key lead to the base the resolver gives, or fail for want of a resolver or a base |
| AddressMeaning.DereferenceMeans | SavorProbe/AddressProgramEvaluator.h:83-90 | Byte 2 leads to the low 32 bits of the word at the address reached, or fails if it cannot be read |
| AddressMeaning.AddSignedMeans | SavorProbe/AddressProgramEvaluator.h:91-98 | Byte 3 adds a two's complement operand, modulo 2^32 |
| AddressMeaning.IndexConstMeans | SavorProbe/AddressProgramEvaluator.h:99-106 | Byte 4 adds a 16-bit count times a 16-bit stride, modulo 2^32 |
| AddressMeaning.AddUnsignedMeans | SavorProbe/AddressProgramEvaluator.h:107-111 | Byte 5 adds a 32-bit operand, modulo 2^32 |
| AddressMeaning.BaseRegisterMeans | SavorProbe/AddressProgramEvaluator.h:112-118 | Byte 6 leads to one of 32 registers, or fails for another register or none |
| AddressMeaning.BaseAbsoluteMeans | SavorProbe/AddressProgramEvaluator.h:119-124 | Byte 7 leads to its operand |
| AddressMeaning.IndexRegisterMeans | SavorProbe/AddressProgramEvaluator.h:125-134 | Byte 8 adds a register times a 32-bit scale, modulo 2^32, and judges the register before the missing bytes of the scale |
| AddressMeaning.BadProgramsFail | SavorProbe/AddressProgramEvaluator.h:48-137 | Missing operand bytes, an unknown byte, bytes behind the terminator and a missing terminator each end the program with their failure, at the address reached |
| AddressMeaning.StartsAtZero | SavorProbe/AddressProgramEvaluator.h:37-48 | A program with no operations reaches address zero |
| AddressMeaning.TraceSaysWhatHappened | SavorProbe/AddressProgramEvaluator.h:42-137 | The step traced for an operation has its number, its byte, the addresses before and after, and the word read if it is a dereference, whatever follows |
| AddressProgram.AssembleRoundTrip | SavorProbe/AddressProgramEvaluator.h:48-135 | Parsing an assembled list of operations returns it |
| AddressProgram.Validate | SavorProbe/ProbeProfile.cpp:526-585 | The validation loop computes the specified verdict, failure and offset |
| AddressProgram.ValidIffWellFormed | SavorProbe/ProbeProfile.cpp:526-585 | A program is valid exactly if it parses to at most 64 operations, the last being the terminator |
| AddressVerdicts.VerdictPointsAtFault | SavorProbe/ProbeProfile.cpp:526-585 | Behind any operations the verdict names the fault of what follows, its offset and how many operations were looked at |
| AddressVerdicts.EveryProgramSplits | SavorProbe/ProbeProfile.cpp:526-585 | Every program is operations, as many as it begins with up to 64, and something of that kind |
| AddressProgram.ValidFailsOnlyAtRuntime | SavorProbe/AddressProgramEvaluator.h:72-90 | A valid program fails only for want of a base or of guest memory, and a trace never changes its result |

## Left out

- Compression, checksums, file streams and file names: foreign code or input and output. A directory holds the files of a capture by segment index. Segments are byte strings; `Compressor` holds the foreign functions; a compressor or stream that fails, and what the writer then marks, is not modelled.
- The in-memory size estimate that makes a chunk due is any function of the event (`Setup.estimate`), so the writer theorems hold for every estimate.
- `Writer` groups the source's fields: those of the open segment in `Segment`, those of the pending chunk in `Batch`.
- Decoders read the unread suffix of a buffer where the source advances an offset; offsets reported to callers are kept.
- Rendering of export lines as JSON text and the parsing of profiles: an export line is an event, a symbol and a draw index, and parsing a profile is a function on symbol maps.
- Files of an earlier, longer capture under the same name are not part of a directory here; the writer truncates only the files it writes, and the reader would find the others.
- recover takes its metadata from the report of the first segment; here any metadata within the limit will do.
- Weak memory orders: all atomic steps are sequentially consistent. Concurrent reset and configure, and approximate_size, are not modelled.
- The watchpoint planner sorts without stability; the model sorts stably, and MergeIsCanonical shows that ties do not matter for the physical ranges. The order of bindings of one owner is not covered when an owner occurs twice in a request list, which the registry excludes.
- The 64-bit counters of flight recorders are unbounded here.
- StopSink.DrainCanProceed: says that some dispatch can always go on, not that new dispatches stop arriving; the code does not promise the latter either.
- Hook installation, breakpoint diagnostics, progress rendering, the command line tools and the database tools: foreign calls, text output and orchestration.
