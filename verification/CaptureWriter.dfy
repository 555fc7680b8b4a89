/** The capture writer as an object: a growing stream, counters that wrap at 64
    bits, pending events and pending index entries, all updated in place. A ghost
    log says which records the stream consists of. */
module CaptureWriter {
  import opened Words
  import opened Bytes
  import opened StructuredFields
  import opened EventCodec
  import opened Framing
  import opened CaptureSegment
  import opened SegmentRoundTrip
  import opened WriterLog
  import opened CaptureReader
  import opened CaptureRecovery

  function EntryFor(c: ChunkInfo): IndexEntry {
    IndexEntry(c.index, c.offset, c.first, c.last)
  }

  function Entries(cs: seq<ChunkInfo>): (es: seq<IndexEntry>)
    ensures |es| == |cs|
  {
    seq(|cs|, i requires 0 <= i < |cs| => EntryFor(cs[i]))
  }

  lemma EntriesSnoc(cs: seq<ChunkInfo>, c: ChunkInfo)
    ensures Entries(cs + [c]) == Entries(cs) + [EntryFor(c)]
  {
    assert |Entries(cs + [c])| == |Entries(cs) + [EntryFor(c)]|;
  }

  /** The entry loop of write_index_checkpoint. */
  method AppendEntries(out: seq<byte>, chunks: seq<ChunkInfo>) returns (out': seq<byte>)
    ensures out' == out + Concat(EntryBytes, Entries(chunks))
  {
    out' := out;
    ghost var all := Entries(chunks);
    for i := 0 to |chunks|
      invariant out' == out + Concat(EntryBytes, all[..i])
    {
      ConcatSnoc(EntryBytes, all, i);
      Assoc(out, Concat(EntryBytes, all[..i]), EntryBytes(all[i]));
      var c := chunks[i];
      out' := out' + (Pod(c.index, 8) + (Pod(c.offset, 8) + (Pod(c.first, 8) + Pod(c.last, 8))));
    }
    assert all[..|all|] == all;
  }

  // --------------------------------------------------------- fields and records

  /** The bytes of a segment with these records. */
  ghost function Stream(enc: Encoder, header: seq<byte>, rs: seq<Record>): seq<byte> {
    header + Concat(enc, rs)
  }

  lemma StreamSnoc(enc: Encoder, header: seq<byte>, rs: seq<Record>, r: Record)
    ensures Stream(enc, header, rs + [r]) == Stream(enc, header, rs) + enc(r)
  {
    ConcatAppend(enc, rs, [r]);
    ConcatOne(enc, r);
    Assoc(header, Concat(enc, rs), enc(r));
  }

  ghost function ClosedFiles(enc: Encoder, header: seq<byte>, cs: seq<ClosedSegment>): seq<seq<byte>> {
    if cs == [] then []
    else ClosedFiles(enc, header, cs[..|cs| - 1])
         + [Stream(enc, header, cs[|cs| - 1].records + [cs[|cs| - 1].footer])]
  }

  /** The fields that describe the open segment. */
  datatype Segment = Segment(
    stream: seq<byte>, bytes: u64, eventCount: u64, chunkCount: u64, lastIndexOffset: u64,
    pendingIndex: seq<ChunkInfo>)

  ghost predicate Mirrors(enc: Encoder, s: Segment, g: Log) {
    && s.stream == Stream(enc, g.header, g.records)
    && s.bytes == |s.stream| % TWO_64
    && s.eventCount == (|EventsOf(g.records)| + |g.pending|) % TWO_64
    && s.chunkCount == ChunkCount(g.records) % TWO_64
    && s.lastIndexOffset == LastIndexOffset(enc, |g.header|, g.records, 0)
    && Entries(s.pendingIndex) == Unindexed(enc, |g.header|, g.records)
  }

  lemma UnindexedSnoc(enc: Encoder, start: nat, rs: seq<Record>, r: Record)
    requires IndexedSoFar(enc, start, rs) && r.ChunkRecord?
    ensures Unindexed(enc, start, rs + [r]) == Unindexed(enc, start, rs) + [EntryOf(start + |Concat(enc, rs)|, r)]
  {
    ChunkEntriesSnoc(enc, start, rs, r);
    IndexedSnoc(rs, r);
    assert IndexedEntries(rs) + [] == IndexedEntries(rs);
  }

  lemma CountWraps(a: nat, b: nat)
    ensures (a % TWO_64 + b) % TWO_64 == (a + b) % TWO_64
  {
  }

  /** What open_segment resets. */
  function FreshSegment(header: seq<byte>): Segment {
    Segment(header, |header| % TWO_64, 0, 0, 0, [])
  }

  /** A fresh segment mirrors a log without records. */
  lemma FreshSegmentMirrors(enc: Encoder, g: Log)
    requires g.records == [] && g.pending == []
    ensures Mirrors(enc, FreshSegment(g.header), g)
  {
    assert g.header + [] == g.header;
  }

  /** Writing a chunk record and updating the fields keeps them in step. */
  lemma ChunkKeepsMirror(enc: Encoder, s: Segment, g: Log, chunk: ChunkInfo)
    requires Mirrors(enc, s, g) && Invariant(enc, g) && g.pending != []
    requires EntryFor(chunk) == EntryOf(|s.stream|, ChunkRecord(g.chunkIndex, g.pending))
    ensures var stream := s.stream + enc(ChunkRecord(g.chunkIndex, g.pending));
            Mirrors(enc, Segment(stream, |stream| % TWO_64, s.eventCount, (s.chunkCount + 1) % TWO_64,
                                 s.lastIndexOffset, s.pendingIndex + [chunk]), AddChunk(g))
  {
    var r := ChunkRecord(g.chunkIndex, g.pending);
    StreamSnoc(enc, g.header, g.records, r);
    EventsSnoc(g.records, r);
    ChunkCountSnoc(g.records, r);
    CountWraps(ChunkCount(g.records), 1);
    LastIndexSnoc(enc, Start(g), g.records, r, 0);
    UnindexedSnoc(enc, Start(g), g.records, r);
    EntriesSnoc(s.pendingIndex, chunk);
  }

  /** So does writing an index record. */
  lemma IndexKeepsMirror(enc: Encoder, s: Segment, g: Log)
    requires Mirrors(enc, s, g) && Invariant(enc, g)
    ensures var stream := s.stream + enc(IndexRecord(Entries(s.pendingIndex)));
            Mirrors(enc, Segment(stream, |stream| % TWO_64, s.eventCount, s.chunkCount, |s.stream| % TWO_64, []),
                    Checkpoint(enc, g))
  {
    var r := IndexRecord(Unindexed(enc, Start(g), g.records));
    StreamSnoc(enc, g.header, g.records, r);
    EventsSnoc(g.records, r);
    ChunkCountSnoc(g.records, r);
    LastIndexSnoc(enc, Start(g), g.records, r, 0);
    AddIndexKeeps(enc, Start(g), g.records);
  }

  /** With nothing left to index, the footer written is the one of the log. */
  lemma FooterCloses(enc: Encoder, s: Segment, g: Log)
    requires Mirrors(enc, s, g) && s.pendingIndex == []
    ensures var footer := FooterRecord(s.chunkCount, s.eventCount, s.lastIndexOffset, g.complete, g.reason);
            && CloseSegment(enc, g) == g.(closed := g.closed + [ClosedSegment(g.records, footer)], records := [])
            && s.stream + enc(footer) == Stream(enc, g.header, g.records + [footer])
  {
    var footer := FooterRecord(s.chunkCount, s.eventCount, s.lastIndexOffset, g.complete, g.reason);
    assert Entries(s.pendingIndex) == [];
    StreamSnoc(enc, g.header, g.records, footer);
  }

  /** Indexing first changes nothing about how a segment is closed. */
  lemma CheckpointThenClose(enc: Encoder, g: Log)
    requires Invariant(enc, g) && Unindexed(enc, Start(g), g.records) != []
    ensures CloseSegment(enc, Checkpoint(enc, g)) == CloseSegment(enc, g)
  {
    AddIndexKeeps(enc, Start(g), g.records);
  }

  /** The events collected for the next chunk. */
  datatype Batch = Batch(pending: seq<Event>, bytes: nat, started: u64)

  const NO_BATCH: Batch := Batch([], 0, 0)

  // ------------------------------------------------------------------ meaning

  /** What the fields and methods of a writer mean, as functions the object
      need not look into. `Faithful` says which functions they are. */
  datatype Meaning = Meaning(
    record: Encoder,
    header: Metadata -> seq<byte>,
    sound: Log -> bool,
    mirrors: (Segment, Log) -> bool,
    files: Log -> seq<seq<byte>>,
    accepted: Log -> seq<Event>,
    checkpoint: Log -> Log,
    closeSegment: Log -> Log,
    flush: Log -> Log)

  ghost predicate Faithful(f: Meaning, z: Packer) {
    && (forall r {:trigger RecordBytes(z, r)} :: f.record(r) == RecordBytes(z, r))
    && (forall m {:trigger HeaderBytes(m)} :: f.header(m) == HeaderBytes(m))
    && (forall g {:trigger Invariant(f.record, g)} :: f.sound(g) == Invariant(f.record, g))
    && (forall s, g {:trigger Mirrors(f.record, s, g)} :: f.mirrors(s, g) == Mirrors(f.record, s, g))
    && (forall g {:trigger ClosedFiles(f.record, g.header, g.closed)} ::
          f.files(g) == ClosedFiles(f.record, g.header, g.closed))
    && (forall g {:trigger Accepted(g)} :: f.accepted(g) == Accepted(g))
    && (forall g {:trigger Checkpoint(f.record, g)} :: f.checkpoint(g) == Checkpoint(f.record, g))
    && (forall g {:trigger CloseSegment(f.record, g)} :: f.closeSegment(g) == CloseSegment(f.record, g))
    && (forall g {:trigger Flush(f.record, g)} :: f.flush(g) == Flush(f.record, g))
  }

  /** The log, the files and the open segment agree, and the log is sound. */
  ghost predicate InStep(f: Meaning, s: Segment, files: seq<seq<byte>>, eventCount: u64, g: Log) {
    f.sound(g) && f.mirrors(s, g) && files == f.files(g) && eventCount == |f.accepted(g)| % TWO_64
  }

  lemma OpenedInStep(f: Meaning, z: Packer, header: seq<byte>, o: Options)
    requires Faithful(f, z) && Positive(o)
    ensures InStep(f, FreshSegment(header), [], 0, Opened(header, o))
    ensures f.files(Opened(header, o)) == []
  {
    var g := Opened(header, o);
    FreshSegmentMirrors(f.record, g);
    OpenedIsSteady(f.record, header, o);
    assert Invariant(f.record, g) && Accepted(g) == [] && ClosedFiles(f.record, g.header, g.closed) == [];
  }

  lemma MarkedInStep(f: Meaning, z: Packer, s: Segment, files: seq<seq<byte>>, eventCount: u64, g: Log, why: Buffer)
    requires Faithful(f, z) && InStep(f, s, files, eventCount, g)
    ensures InStep(f, s, files, eventCount, g.(complete := false, reason := why))
  {
    var g' := g.(complete := false, reason := why);
    assert Invariant(f.record, g) && Invariant(f.record, g');
    assert Mirrors(f.record, s, g) && Mirrors(f.record, s, g');
    assert ClosedFiles(f.record, g.header, g.closed) == ClosedFiles(f.record, g'.header, g'.closed);
    assert Accepted(g) == Accepted(g');
  }

  lemma BufferedInStep(
      f: Meaning, k: Setup, s: Segment, files: seq<seq<byte>>, eventCount: u64, g: Log, e: Event)
    requires Faithful(f, k.packer) && InStep(f, s, files, eventCount, g)
    ensures InStep(f, s.(eventCount := (s.eventCount + 1) % TWO_64), files, (eventCount + 1) % TWO_64,
                   Buffer1(k, g, e))
  {
    var g' := Buffer1(k, g, e);
    assert Invariant(f.record, g) && Mirrors(f.record, s, g);
    BufferKeeps(k, f.record, g, e);
    CountWraps(|Accepted(g)|, 1);
    CountWraps(|EventsOf(g.records)| + |g.pending|, 1);
    assert Mirrors(f.record, s.(eventCount := (s.eventCount + 1) % TWO_64), g');
    assert ClosedFiles(f.record, g.header, g.closed) == ClosedFiles(f.record, g'.header, g'.closed);
  }

  lemma ChunkInStep(
      f: Meaning, z: Packer, s: Segment, files: seq<seq<byte>>, eventCount: u64, g: Log, chunk: ChunkInfo)
    requires Faithful(f, z) && InStep(f, s, files, eventCount, g)
    requires 1 <= |g.pending| <= g.options.eventsPerChunk
    requires EntryFor(chunk) == EntryOf(|s.stream|, ChunkRecord(g.chunkIndex, g.pending))
    ensures var stream := s.stream + f.record(ChunkRecord(g.chunkIndex, g.pending));
            InStep(f, Segment(stream, |stream| % TWO_64, s.eventCount, (s.chunkCount + 1) % TWO_64,
                              s.lastIndexOffset, s.pendingIndex + [chunk]), files, eventCount, AddChunk(g))
  {
    var g' := AddChunk(g);
    assert Invariant(f.record, g) && Mirrors(f.record, s, g);
    ChunkKeepsMirror(f.record, s, g, chunk);
    AddChunkKeepsLog(f.record, g);
    assert ClosedFiles(f.record, g.header, g.closed) == ClosedFiles(f.record, g'.header, g'.closed);
  }

  lemma CheckpointInStep(f: Meaning, z: Packer, s: Segment, files: seq<seq<byte>>, eventCount: u64, g: Log)
    requires Faithful(f, z) && InStep(f, s, files, eventCount, g)
    ensures var stream := s.stream + f.record(IndexRecord(Entries(s.pendingIndex)));
            InStep(f, Segment(stream, |stream| % TWO_64, s.eventCount, s.chunkCount, |s.stream| % TWO_64, []),
                   files, eventCount, f.checkpoint(g))
    ensures f.checkpoint(g) == g.(records := f.checkpoint(g).records)
    ensures s.pendingIndex != [] ==> f.closeSegment(f.checkpoint(g)) == f.closeSegment(g)
  {
    var g' := Checkpoint(f.record, g);
    assert Invariant(f.record, g) && Mirrors(f.record, s, g);
    IndexKeepsMirror(f.record, s, g);
    CheckpointKeeps(f.record, g);
    assert ClosedFiles(f.record, g.header, g.closed) == ClosedFiles(f.record, g'.header, g'.closed);
    if s.pendingIndex != [] {
      assert |Entries(s.pendingIndex)| != 0;
      CheckpointThenClose(f.record, g);
    }
  }

  /** Once nothing is left to index, the footer completes the file. */
  lemma FooterInStep(f: Meaning, z: Packer, s: Segment, files: seq<seq<byte>>, eventCount: u64, g: Log)
    requires Faithful(f, z) && InStep(f, s, files, eventCount, g) && s.pendingIndex == [] && g.pending == []
    ensures var footer := FooterRecord(s.chunkCount, s.eventCount, s.lastIndexOffset, g.complete, g.reason);
            var g' := f.closeSegment(g);
            && files + [s.stream + f.record(footer)] == f.files(g')
            && g' == g.(closed := g'.closed, records := [])
            && InStep(f, FreshSegment(g.header), f.files(g'), eventCount, g')
  {
    var g' := CloseSegment(f.record, g);
    assert Invariant(f.record, g) && Mirrors(f.record, s, g) && Accepted(g) == f.accepted(g);
    FooterCloses(f.record, s, g);
    CloseSegmentKeeps(f.record, g);
    FreshSegmentMirrors(f.record, g');
    assert g'.closed[..|g'.closed| - 1] == g.closed;
    assert ClosedFiles(f.record, g.header, g.closed) == files;
    assert ClosedFiles(f.record, g'.header, g'.closed) == f.files(g');
  }

  /** flush_chunk, step by step. */
  ghost function FlushedBy(f: Meaning, chunkCount: nat, g: Log): Log
    requires g.options.indexInterval > 0
  {
    var g' := AddChunk(g);
    var h := if (chunkCount + 1) % TWO_64 % g.options.indexInterval == 0 then f.checkpoint(g') else g';
    if SegmentSize(f.record, h) % TWO_64 < g.options.rotateBytes then h else f.closeSegment(h)
  }

  lemma FlushSteps(f: Meaning, z: Packer, s: Segment, g: Log)
    requires Faithful(f, z) && f.mirrors(s, g) && g.options.indexInterval > 0
    ensures f.flush(g) == if g.pending == [] then g else FlushedBy(f, s.chunkCount, g)
  {
    assert Mirrors(f.record, s, g) && f.flush(g) == Flush(f.record, g);
    if g.pending != [] {
      var g' := AddChunk(g);
      ChunkCountSnoc(g.records, ChunkRecord(g.chunkIndex, g.pending));
      CountWraps(ChunkCount(g.records), 1);
      assert f.checkpoint(g') == Checkpoint(f.record, g');
      RotationIs(f, z, WriteChunk(f.record, g));
    }
  }

  lemma RotationIs(f: Meaning, z: Packer, g: Log)
    requires Faithful(f, z)
    ensures Rotate(f.record, g)
         == if SegmentSize(f.record, g) % TWO_64 < g.options.rotateBytes then g else f.closeSegment(g)
  {
    assert f.closeSegment(g) == CloseSegment(f.record, g);
  }

  lemma MirroredSize(f: Meaning, z: Packer, s: Segment, g: Log)
    requires Faithful(f, z) && f.mirrors(s, g)
    ensures s.bytes == SegmentSize(f.record, g) % TWO_64
  {
    assert Mirrors(f.record, s, g);
  }

  /** The meaning in use. */
  ghost function CaptureMeaning(z: Packer): Meaning {
    var enc := RECORD_ENCODER(z);
    Meaning(enc, HeaderBytes, (g: Log) => Invariant(enc, g), (s: Segment, g: Log) => Mirrors(enc, s, g),
            (g: Log) => ClosedFiles(enc, g.header, g.closed), Accepted, (g: Log) => Checkpoint(enc, g),
            (g: Log) => CloseSegment(enc, g), (g: Log) => Flush(enc, g))
  }

  lemma CaptureMeaningIsFaithful(z: Packer)
    ensures Faithful(CaptureMeaning(z), z)
  {
  }

  // ------------------------------------------------------------------ records

  method FormatHeader(ghost f: Meaning, z: Packer, m: Metadata) returns (bytes: seq<byte>)
    requires Faithful(f, z)
    ensures bytes == f.header(m)
  {
    bytes := HeaderBytes(m);
  }

  /** The chunk header is filled in after compression. */
  method FormatChunk(ghost f: Meaning, z: Packer, index: u64, position: nat, es: seq<Event>)
    returns (chunk: ChunkInfo, bytes: seq<byte>)
    requires Faithful(f, z) && UsesCodec(z) && es != []
    ensures bytes == f.record(ChunkRecord(index, es))
    ensures EntryFor(chunk) == EntryOf(position, ChunkRecord(index, es))
  {
    var uncompressed := EncodePayload(z, es);
    var compressed := z.compressor.compress(uncompressed);
    chunk := ChunkInfo(index, position % TWO_64, es[0].recordSequence, es[|es| - 1].recordSequence,
                       |es| % TWO_32, |uncompressed| % TWO_32, |compressed| % TWO_32,
                       z.compressor.checksum(compressed));
    bytes := TAG_CHUNK + (ChunkHeaderBytes(chunk) + compressed);
    ChunkRecordBytes(z, index, position % TWO_64, es);
  }

  method FormatIndex(ghost f: Meaning, z: Packer, chunks: seq<ChunkInfo>) returns (bytes: seq<byte>)
    requires Faithful(f, z)
    ensures bytes == f.record(IndexRecord(Entries(chunks)))
  {
    var head := TAG_INDEX + Pod(|chunks|, 4);
    bytes := AppendEntries(head, chunks);
    Assoc(TAG_INDEX, Pod(|chunks|, 4), Concat(EntryBytes, Entries(chunks)));
    assert bytes == RecordBytes(z, IndexRecord(Entries(chunks)));
  }

  method FormatFooter(
      ghost f: Meaning, z: Packer, chunks: u64, count: u64, lastIndex: u64, complete: bool, reason: Buffer)
    returns (bytes: seq<byte>)
    requires Faithful(f, z)
    ensures bytes == f.record(FooterRecord(chunks, count, lastIndex, complete, reason))
  {
    bytes := TAG_FOOTER + FooterBytes(chunks, count, lastIndex, complete, reason);
    assert bytes == RecordBytes(z, FooterRecord(chunks, count, lastIndex, complete, reason));
  }

  class Writer {
    const setup: Setup
    ghost const meaning: Meaning

    var isOpen: bool
    var complete: bool
    var reason: Buffer
    var metadata: Metadata
    var options: Options
    var files: seq<seq<byte>>
    var segment: Segment
    var eventCount: u64
    var chunkIndex: u64
    var batch: Batch

    ghost var log: Log

    ghost predicate StateMatches()
      reads this
    {
      && log == Log(complete, reason, log.header, options,
                    log.closed, log.records, chunkIndex, batch.pending, batch.bytes, batch.started)
      && log.header == meaning.header(metadata)
    }

    ghost predicate Valid()
      reads this
    {
      && (batch.pending == [] ==> batch == NO_BATCH)
      && (if isOpen then
            && StateMatches()
            && InStep(meaning, segment, files, eventCount, log)
            && |batch.pending| <= options.eventsPerChunk
            && options.indexInterval > 0
          else
            batch.pending == [] && files == meaning.files(log))
    }

    constructor (k: Setup, m: Metadata, o: Options, ghost f: Meaning)
      requires Faithful(f, k.packer)
      ensures Valid() && !isOpen && setup == k && meaning == f && files == []
    {
      setup, meaning, isOpen, complete, reason, metadata, options := k, f, false, true, [], m, o;
      files, batch := [], NO_BATCH;
      segment := Segment([], 0, 0, 0, 0, []);
      eventCount, chunkIndex := 0, 0;
      log := Opened([], Options(1, 1, 1, 1, 1));
      OpenedInStep(f, k.packer, [], Options(1, 1, 1, 1, 1));
    }

    method OpenSegment()
      requires Faithful(meaning, setup.packer)
      modifies `segment
      ensures segment == FreshSegment(meaning.header(metadata))
    {
      var header := FormatHeader(meaning, setup.packer, metadata);
      segment := FreshSegment(header);
    }

    /** An open writer refuses to be opened again, and so do zero limits. */
    method Open(m: Metadata, o: Options) returns (ok: bool)
      requires Valid() && Faithful(meaning, setup.packer)
      modifies this
      ensures Valid()
      ensures ok == (!old(isOpen) && Positive(o))
      ensures ok ==> isOpen && log == Opened(meaning.header(m), o)
      ensures !ok ==> unchanged(this)
    {
      if isOpen || o.eventsPerChunk == 0 || o.bytesPerChunk == 0 || o.indexInterval == 0 || o.rotateBytes == 0 {
        return false;
      }
      Start(m, o);
      ok := true;
    }

    method Start(m: Metadata, o: Options)
      requires Valid() && !isOpen && Positive(o) && Faithful(meaning, setup.packer)
      modifies this
      ensures Valid() && isOpen && log == Opened(meaning.header(m), o)
    {
      Configure(m, o);
      OpenSegment();
      OpenedInStep(meaning, setup.packer, meaning.header(m), o);
      Reset();
    }

    method Configure(m: Metadata, o: Options)
      modifies `metadata, `options, `complete, `reason
      ensures metadata == m && options == o && complete && reason == []
    {
      metadata, options, complete, reason := m, o, true, [];
    }

    /** Nothing is written or pending yet. */
    method Reset()
      requires complete && reason == [] && batch == NO_BATCH && options.indexInterval > 0
      requires InStep(meaning, segment, [], 0, Opened(meaning.header(metadata), options))
      modifies `files, `eventCount, `chunkIndex, `batch, `isOpen, `log
      ensures Valid() && isOpen && log == Opened(meaning.header(metadata), options)
    {
      files, eventCount, chunkIndex := [], 0, 0;
      batch, isOpen := batch.(pending := []), true;
      log := Opened(meaning.header(metadata), options);
    }

    method MarkIncomplete(why: Buffer)
      requires Valid() && Faithful(meaning, setup.packer)
      modifies `complete, `reason, `log
      ensures Valid() && !complete && reason == why
      ensures log == if isOpen then old(log).(complete := false, reason := why) else old(log)
    {
      complete, reason := false, why;
      if isOpen {
        MarkedInStep(meaning, setup.packer, segment, files, eventCount, log, why);
        log := log.(complete := false, reason := why);
      }
    }

    /** What flush_chunk writes before it looks at the index and the size. */
    method WriteChunkRecord()
      requires Valid() && isOpen && batch.pending != [] && Faithful(meaning, setup.packer) && UsesCodec(setup.packer)
      modifies `segment, `chunkIndex, `batch, `log
      ensures Valid() && log == AddChunk(old(log))
      ensures segment.chunkCount == (old(segment).chunkCount + 1) % TWO_64
    {
      var chunk, bytes := FormatChunk(meaning, setup.packer, chunkIndex, |segment.stream|, batch.pending);
      ChunkInStep(meaning, setup.packer, segment, files, eventCount, log, chunk);
      EndBatch(segment.(stream := segment.stream + bytes,
                        bytes := |segment.stream + bytes| % TWO_64,
                        chunkCount := (segment.chunkCount + 1) % TWO_64,
                        pendingIndex := segment.pendingIndex + [chunk]));
    }

    /** The open segment has got its chunk, and nothing is pending any more. */
    method EndBatch(next: Segment)
      requires Valid() && isOpen && InStep(meaning, next, files, eventCount, AddChunk(log))
      modifies `segment, `chunkIndex, `batch, `log
      ensures Valid() && log == AddChunk(old(log)) && segment == next
    {
      chunkIndex := (chunkIndex + 1) % TWO_64;
      segment, batch, log := next, NO_BATCH, AddChunk(log);
    }

    method WriteIndexCheckpoint()
      requires Valid() && isOpen && Faithful(meaning, setup.packer)
      modifies `segment, `log
      ensures Valid() && log == meaning.checkpoint(old(log)) && segment.pendingIndex == []
      ensures old(segment).pendingIndex != [] ==> meaning.closeSegment(log) == meaning.closeSegment(old(log))
    {
      CheckpointInStep(meaning, setup.packer, segment, files, eventCount, log);
      var bytes := FormatIndex(meaning, setup.packer, segment.pendingIndex);
      segment := segment.(stream := segment.stream + bytes,
                          bytes := |segment.stream + bytes| % TWO_64,
                          lastIndexOffset := |segment.stream| % TWO_64,
                          pendingIndex := []);
      log := meaning.checkpoint(log);
    }

    /** Completes the stream of the segment and turns it into a file. */
    method WriteFooter()
      requires Valid() && isOpen && batch.pending == [] && Faithful(meaning, setup.packer)
      modifies `files, `segment, `log
      ensures log == meaning.closeSegment(old(log)) && StateMatches() && files == meaning.files(log)
      ensures InStep(meaning, FreshSegment(log.header), files, eventCount, log)
    {
      if segment.pendingIndex != [] {
        WriteIndexCheckpoint();
      }
      FooterInStep(meaning, setup.packer, segment, files, eventCount, log);
      var bytes := FormatFooter(meaning, setup.packer, segment.chunkCount, segment.eventCount,
                                segment.lastIndexOffset, complete, reason);
      segment := segment.(stream := segment.stream + bytes);
      files := files + [segment.stream];
      log := meaning.closeSegment(log);
    }

    method RotateIfNeeded()
      requires Valid() && isOpen && batch.pending == [] && Faithful(meaning, setup.packer)
      modifies `files, `segment, `log
      ensures Valid()
      ensures log == if SegmentSize(meaning.record, old(log)) % TWO_64 < options.rotateBytes then old(log)
                     else meaning.closeSegment(old(log))
    {
      MirroredSize(meaning, setup.packer, segment, log);
      if segment.bytes >= options.rotateBytes {
        WriteFooter();
        OpenSegment();
      }
    }

    method FlushChunk()
      requires Valid() && isOpen && Faithful(meaning, setup.packer) && UsesCodec(setup.packer)
      modifies `files, `segment, `chunkIndex, `batch, `log
      ensures Valid() && batch.pending == [] && log == meaning.flush(old(log))
    {
      FlushSteps(meaning, setup.packer, segment, log);
      if batch.pending == [] {
        return;
      }
      WriteChunkRecord();
      if segment.chunkCount % options.indexInterval == 0 {
        WriteIndexCheckpoint();
      }
      RotateIfNeeded();
    }

    /** A closed writer and a record sequence that moves back are refused; a
        chunk that is due is flushed at once. */
    method Append(e: Event) returns (ok: bool)
      requires Valid() && Faithful(meaning, setup.packer) && UsesCodec(setup.packer)
      requires isOpen ==> |batch.pending| < options.eventsPerChunk
      modifies this
      ensures Valid() && isOpen == old(isOpen)
      ensures isOpen ==> |batch.pending| < options.eventsPerChunk
      ensures ok == (old(isOpen) && !MovesBack(old(log), e))
      ensures log == if ok then AppendWith(meaning.flush, setup, old(log), e) else old(log)
    {
      if !isOpen || (batch.pending != [] && e.recordSequence < batch.pending[|batch.pending| - 1].recordSequence) {
        return false;
      }
      BufferEvent(e);
      var elapsed := e.monotonicNs >= batch.started && e.monotonicNs - batch.started >= options.chunkIntervalNs;
      if |batch.pending| >= options.eventsPerChunk || batch.bytes >= options.bytesPerChunk || elapsed {
        FlushChunk();
      }
      ok := true;
    }

    method BufferEvent(e: Event)
      requires Valid() && isOpen && |batch.pending| < options.eventsPerChunk && Faithful(meaning, setup.packer)
      modifies `segment, `eventCount, `batch, `log
      ensures Valid() && log == Buffer1(setup, old(log), e)
    {
      BufferedInStep(meaning, setup, segment, files, eventCount, log, e);
      batch := Batch(batch.pending + [e], batch.bytes + setup.estimate(e),
                     if batch.pending == [] then e.monotonicNs else batch.started);
      eventCount := (eventCount + 1) % TWO_64;
      segment := segment.(eventCount := (segment.eventCount + 1) % TWO_64);
      log := Buffer1(setup, log, e);
    }

    method Close()
      requires Valid() && Faithful(meaning, setup.packer) && UsesCodec(setup.packer)
      modifies this
      ensures Valid() && !isOpen
      ensures log == if old(isOpen) then meaning.closeSegment(meaning.flush(old(log))) else old(log)
    {
      if isOpen {
        FlushChunk();
        WriteFooter();
        isOpen := false;
      }
    }
  }

  // ----------------------------------------------------------------- recovery

  lemma AppendMeans(f: Meaning, k: Setup, g: Log, e: Event)
    requires Faithful(f, k.packer)
    ensures AppendWith(f.flush, k, g, e) == Append(k, f.record, g, e)
  {
    var g' := Buffer1(k, g, e);
    assert f.flush(g') == Flush(f.record, g');
  }

  lemma CloseMeans(f: Meaning, z: Packer, g: Log)
    requires Faithful(f, z)
    ensures f.closeSegment(f.flush(g)) == Closed(f.record, g)
  {
    assert f.flush(g) == Flush(f.record, g);
    assert f.closeSegment(f.flush(g)) == CloseSegment(f.record, f.flush(g));
  }

  lemma {:induction false} ClosedFilesAt(z: Packer, header: seq<byte>, cs: seq<ClosedSegment>)
    ensures |ClosedFiles(RECORD_ENCODER(z), header, cs)| == |cs|
    ensures forall i :: 0 <= i < |cs| ==>
              ClosedFiles(RECORD_ENCODER(z), header, cs)[i]
              == SegmentBytes(z, header, cs[i].records + [cs[i].footer])
  {
    if cs != [] {
      ClosedFilesAt(z, header, cs[..|cs| - 1]);
    }
  }

  /** The files of the object are the files the round trip theorems read. */
  lemma FilesAreWritten(z: Packer, g: Log)
    ensures CaptureMeaning(z).files(g) == Files(z, g)
  {
    ClosedFilesAt(z, g.header, g.closed);
  }

  /** A whole session on one writer: the files it leaves are those of the run. */
  method WriteCapture(k: Setup, m: Metadata, o: Options, calls: seq<Call>, ghost f: Meaning)
    returns (files: seq<seq<byte>>)
    requires Faithful(f, k.packer) && UsesCodec(k.packer) && Positive(o)
    ensures files == f.files(Closed(f.record, Run(k, f.record, Opened(HeaderBytes(m), o), calls)))
  {
    var w := new Writer(k, m, o, f);
    var started := w.Open(m, o);
    assert w.log.header == HeaderBytes(m);
    MakeCalls(w, calls);
    CloseMeans(f, k.packer, w.log);
    w.Close();
    files := w.files;
  }

  method MakeCalls(w: Writer, calls: seq<Call>)
    requires w.Valid() && w.isOpen && |w.batch.pending| < w.options.eventsPerChunk
    requires Faithful(w.meaning, w.setup.packer) && UsesCodec(w.setup.packer)
    modifies w
    ensures w.Valid() && w.isOpen
    ensures w.log == Run(w.setup, w.meaning.record, old(w.log), calls)
  {
    for i := 0 to |calls|
      invariant w.Valid() && w.isOpen && |w.batch.pending| < w.options.eventsPerChunk
      invariant Run(w.setup, w.meaning.record, w.log, calls[i..])
             == Run(w.setup, w.meaning.record, old(w.log), calls)
    {
      assert calls[i..][0] == calls[i] && calls[i..][1..] == calls[i + 1..];
      match calls[i] {
        case AppendCall(e) =>
          AppendMeans(w.meaning, w.setup, w.log, e);
          var accepted := w.Append(e);
          assert accepted || w.log == Append(w.setup, w.meaning.record, w.log, e);
        case MarkIncomplete(reason) =>
          w.MarkIncomplete(reason);
      }
    }
    assert calls[|calls|..] == [];
  }

  /** The append loop of recover, on a writer that is open: it ends at the first
      event that is refused. */
  method AppendEvents(w: Writer, es: seq<Event>) returns (ok: bool)
    requires w.Valid() && w.isOpen && |w.batch.pending| < w.options.eventsPerChunk
    requires Faithful(w.meaning, w.setup.packer) && UsesCodec(w.setup.packer)
    modifies w
    ensures w.Valid() && w.isOpen
    ensures ok == (Taken(w.setup, w.meaning.record, old(w.log), es) == |es|)
    ensures w.log == AppendAll(w.setup, w.meaning.record, old(w.log), es)
  {
    for i := 0 to |es|
      invariant w.Valid() && w.isOpen && |w.batch.pending| < w.options.eventsPerChunk
      invariant i + Taken(w.setup, w.meaning.record, w.log, es[i..])
             == Taken(w.setup, w.meaning.record, old(w.log), es)
      invariant AppendAll(w.setup, w.meaning.record, w.log, es[i..])
             == AppendAll(w.setup, w.meaning.record, old(w.log), es)
    {
      AppendMeans(w.meaning, w.setup, w.log, es[i]);
      assert es[i..][0] == es[i] && es[i..][1..] == es[i + 1..];
      ok := w.Append(es[i]);
      if !ok {
        return;
      }
    }
    assert es[|es|..] == [];
    ok := true;
  }

  /** recover, from the files of the damaged capture: the files it leaves, if any,
      and whether it succeeded. A refused event ends it, and the writer is closed
      all the same when it goes out of scope. */
  method RecoverCapture(k: Setup, m: Metadata, damaged: seq<seq<byte>>, ghost f: Meaning)
    returns (ok: bool, out: Option<seq<seq<byte>>>)
    requires Faithful(f, k.packer) && UsesCodec(k.packer)
    ensures var r := RecoverFiles(k, f.record, m, damaged);
            && ok == (r.Written? && r.ok)
            && out == if r.NothingRead? then None else Some(f.files(r.log))
  {
    var reports, es := ReadCapture(k.packer, damaged);
    if es == [] {
      return false, None;
    }
    ReadReasonsAreShort(k.packer, damaged);
    var w := new Writer(k, m, DEFAULT_OPTIONS, f);
    var started := w.Open(m, DEFAULT_OPTIONS);
    assert w.log.header == HeaderBytes(m);
    w.MarkIncomplete(RecoveryReason(reports));
    ok := AppendEvents(w, es);
    CloseMeans(f, k.packer, w.log);
    w.Close();
    out := Some(w.files);
  }

  /** The whole pipeline on the objects: a session on a writer, and the reading of
      the files it leaves. */
  method WriteAndReadCapture(k: Setup, c: Compressor, m: Metadata, o: Options, calls: seq<Call>)
    returns (reports: seq<SegmentRead>, events: seq<Event>)
    requires k.packer == CapturePacker(c) && Lossless(c)
    requires Positive(o) && |MetadataBytes(m)| <= MAX_METADATA
    requires AllWellFormed(Appended(calls))
    requires AllSmall(k.packer, RunToClose(k, m, o, calls).closed)
    ensures ReadsBack(reports, events, NeverMarked(calls))
    ensures events == AcceptedBy(k, RECORD_ENCODER(k.packer), Opened(HeaderBytes(m), o), calls)
    ensures Ordered(Appended(calls)) ==> events == Appended(calls)
  {
    CapturePackerUsesCodec(c);
    CaptureMeaningIsFaithful(k.packer);
    var files := WriteCapture(k, m, o, calls, CaptureMeaning(k.packer));
    FilesAreWritten(k.packer, RunToClose(k, m, o, calls));
    WholeRunRoundTrip(k, c, m, o, calls);
    reports, events := ReadCapture(k.packer, files);
  }

  /** And of a recovery, from any files: the files it leaves, even if an event was
      refused, read back to the first events that could be read of the damaged
      ones, up to the refused one, and never verify. */
  method RecoverAndReadCapture(k: Setup, c: Compressor, m: Metadata, damaged: seq<seq<byte>>)
    returns (ok: bool, out: Option<seq<seq<byte>>>, reports: seq<SegmentRead>, events: seq<Event>)
    requires k.packer == CapturePacker(c) && Lossless(c) && |MetadataBytes(m)| <= MAX_METADATA
    ensures var found, recovery := EventsRead(ReadSegments(k.packer, damaged)),
                                   RecoverFiles(k, RECORD_ENCODER(k.packer), m, damaged);
            && (out.Some? <==> found != [])
            && (out.Some? ==> recovery.Written?)
            && (out.Some? && AllSmall(k.packer, recovery.log.closed) ==>
                  events <= found && ReadsBack(reports, events, false) && (ok <==> events == found))
  {
    CapturePackerUsesCodec(c);
    CaptureMeaningIsFaithful(k.packer);
    RecoverIsFaithful(k, c, m, damaged);
    ok, out := RecoverCapture(k, m, damaged, CaptureMeaning(k.packer));
    reports, events := [], [];
    if out.Some? {
      FilesAreWritten(k.packer, RecoverFiles(k, RECORD_ENCODER(k.packer), m, damaged).log);
      reports, events := ReadCapture(k.packer, out.value);
    }
  }
}
