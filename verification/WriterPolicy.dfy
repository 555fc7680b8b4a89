/** When the writer ends chunks, writes indexes and starts segments, over whole
    runs: exactly when its options say so. */
module WriterPolicy {
  import opened Words
  import opened Bytes
  import opened StructuredFields
  import opened EventCodec
  import opened Framing
  import opened CaptureSegment
  import opened SegmentRoundTrip
  import opened WriterLog
  import opened CaptureReader

  // ------------------------------------------------------------------- chunks

  function Estimates(k: Setup, es: seq<Event>): nat {
    if es == [] then 0 else Estimates(k, es[..|es| - 1]) + k.estimate(es[|es| - 1])
  }

  /** A chunk is due when it has so many events, so many estimated bytes, or spans
      so much time from its first event to its last. */
  predicate IsDue(k: Setup, o: Options, es: seq<Event>)
    requires es != []
  {
    || |es| >= o.eventsPerChunk
    || Estimates(k, es) >= o.bytesPerChunk
    || es[|es| - 1].monotonicNs >= es[0].monotonicNs + o.chunkIntervalNs
  }

  /** It was not due with any event but the last. */
  ghost predicate NotDueBefore(k: Setup, o: Options, es: seq<Event>, n: nat)
    requires n <= |es|
  {
    forall i :: 0 < i < n ==> !IsDue(k, o, es[..i])
  }

  /** What is pending is measured right, and not overdue. */
  ghost predicate PendingOk(k: Setup, g: Log) {
    && g.pendingBytes == Estimates(k, g.pending)
    && (g.pending != [] ==> g.pendingStarted == g.pending[0].monotonicNs && !IsDue(k, g.options, g.pending))
    && NotDueBefore(k, g.options, g.pending, |g.pending|)
  }

  function Chunks(rs: seq<Record>): seq<Record> {
    if rs == [] then []
    else Chunks(rs[..|rs| - 1]) + (if rs[|rs| - 1].ChunkRecord? then [rs[|rs| - 1]] else [])
  }

  function ClosedChunks(cs: seq<ClosedSegment>): seq<Record> {
    if cs == [] then [] else ClosedChunks(cs[..|cs| - 1]) + Chunks(cs[|cs| - 1].records)
  }

  /** All chunks written, across segments. */
  function AllChunks(g: Log): seq<Record> {
    ClosedChunks(g.closed) + Chunks(g.records)
  }

  lemma ChunksSnoc(rs: seq<Record>, r: Record)
    ensures Chunks(rs + [r]) == Chunks(rs) + (if r.ChunkRecord? then [r] else [])
  {
    assert (rs + [r])[..|rs|] == rs;
  }

  /** Chunks are numbered in order, and each was ended by the event that made it
      due. */
  ghost predicate ChunksOk(k: Setup, o: Options, chunks: seq<Record>) {
    forall i :: 0 <= i < |chunks| ==>
      && chunks[i].ChunkRecord? && chunks[i].index == i % TWO_64 && chunks[i].events != []
      && IsDue(k, o, chunks[i].events) && NotDueBefore(k, o, chunks[i].events, |chunks[i].events|)
  }

  // ------------------------------------------------------------------ indexes

  /** So many chunks since the segment began call for an index. */
  predicate CallsForIndex(o: Options, chunks: nat) {
    o.indexInterval > 0 && chunks % TWO_64 % o.indexInterval == 0
  }

  /** Record `n` is a chunk that calls for an index. */
  predicate ChunkCalls(o: Options, rs: seq<Record>, n: nat) {
    n < |rs| && rs[n].ChunkRecord? && CallsForIndex(o, ChunkCount(rs[..n + 1]))
  }

  /** An index follows each chunk that calls for one, and there are no others, except
      for one that closes the segment. */
  ghost predicate Spaced(o: Options, rs: seq<Record>, closed: bool) {
    && (forall n {:trigger ChunkCalls(o, rs, n)} :: 0 <= n && ChunkCalls(o, rs, n) ==>
          n + 1 < |rs| && rs[n + 1].IndexRecord?)
    && (forall n :: 0 <= n < |rs| && rs[n].IndexRecord? ==>
          n > 0 && rs[n - 1].ChunkRecord? && (ChunkCalls(o, rs, n - 1) || (closed && n == |rs| - 1)))
  }

  /** As it stands between the chunk and its index. */
  ghost predicate SpacedBut(o: Options, rs: seq<Record>) {
    && (forall n {:trigger ChunkCalls(o, rs, n)} :: 0 <= n < |rs| - 1 && ChunkCalls(o, rs, n) ==>
          rs[n + 1].IndexRecord?)
    && (forall n :: 0 <= n < |rs| && rs[n].IndexRecord? ==>
          n > 0 && rs[n - 1].ChunkRecord? && ChunkCalls(o, rs, n - 1))
  }

  lemma CallsStay(o: Options, rs: seq<Record>, r: Record, n: nat)
    requires n < |rs|
    ensures ChunkCalls(o, rs + [r], n) == ChunkCalls(o, rs, n) && (rs + [r])[n] == rs[n]
  {
    assert (rs + [r])[..n + 1] == rs[..n + 1];
  }

  lemma ChunkSpaces(o: Options, rs: seq<Record>, r: Record)
    requires Spaced(o, rs, false) && r.ChunkRecord?
    ensures SpacedBut(o, rs + [r])
    ensures ChunkCalls(o, rs + [r], |rs|) <==> CallsForIndex(o, ChunkCount(rs + [r]))
    ensures !ChunkCalls(o, rs + [r], |rs|) ==> Spaced(o, rs + [r], false)
  {
    assert (rs + [r])[..|rs| + 1] == rs + [r];
    forall n: nat | n < |rs| ensures ChunkCalls(o, rs + [r], n) == ChunkCalls(o, rs, n) && (rs + [r])[n] == rs[n] {
      CallsStay(o, rs, r, n);
    }
  }

  lemma IndexSpaces(o: Options, rs: seq<Record>, r: Record)
    requires SpacedBut(o, rs) && r.IndexRecord? && rs != [] && ChunkCalls(o, rs, |rs| - 1)
    ensures Spaced(o, rs + [r], false)
  {
    forall n: nat | n < |rs| ensures ChunkCalls(o, rs + [r], n) == ChunkCalls(o, rs, n) && (rs + [r])[n] == rs[n] {
      CallsStay(o, rs, r, n);
    }
  }

  lemma ClosingIndexSpaces(o: Options, rs: seq<Record>, r: Record)
    requires Spaced(o, rs, false) && r.IndexRecord? && rs != [] && rs[|rs| - 1].ChunkRecord?
    ensures Spaced(o, rs + [r], true)
  {
    forall n: nat | n < |rs| ensures ChunkCalls(o, rs + [r], n) == ChunkCalls(o, rs, n) && (rs + [r])[n] == rs[n] {
      CallsStay(o, rs, r, n);
    }
  }

  // ----------------------------------------------------------------- segments

  /** Where the records end that were there when the segment was found full: the
      closing index comes after. */
  ghost predicate WasFull(enc: Encoder, o: Options, start: nat, rs: seq<Record>) {
    exists n: nat :: IsFullAt(enc, o, start, rs, n)
  }

  ghost predicate IsFullAt(enc: Encoder, o: Options, start: nat, rs: seq<Record>, n: nat) {
    && n <= |rs| <= n + 1
    && (start + |Concat(enc, rs[..n])|) % TWO_64 >= o.rotateBytes
    && (n < |rs| ==> rs[n].IndexRecord?)
  }

  /** The open segment is not full, unless its file header alone fills it. */
  ghost predicate NotFull(enc: Encoder, g: Log) {
    g.records != [] ==> SegmentSize(enc, g) % TWO_64 < g.options.rotateBytes
  }

  ghost predicate SegmentsOk(enc: Encoder, g: Log) {
    && (forall c :: c in g.closed ==>
          Spaced(g.options, c.records, true) && WasFull(enc, g.options, Start(g), c.records))
    && Spaced(g.options, g.records, false)
    && (g.records != [] && g.records[|g.records| - 1].IndexRecord? ==> Unindexed(enc, Start(g), g.records) == [])
  }

  /** What has been written is as it should be. */
  ghost predicate WrittenOk(k: Setup, enc: Encoder, g: Log) {
    && ChunksOk(k, g.options, AllChunks(g)) && g.chunkIndex == |AllChunks(g)| % TWO_64
    && SegmentsOk(enc, g) && NotFull(enc, g)
  }

  /** Everything above, between calls. */
  ghost predicate Regular(k: Setup, enc: Encoder, g: Log) {
    Steady(enc, g) && PendingOk(k, g) && WrittenOk(k, enc, g)
  }

  // ----------------------------------------------------------- one call at a time

  lemma EstimatesSnoc(k: Setup, es: seq<Event>, e: Event)
    ensures Estimates(k, es + [e]) == Estimates(k, es) + k.estimate(e)
  {
    assert (es + [e])[..|es|] == es;
  }

  /** The source's test of what is pending is that the chunk is due. */
  lemma BufferedIsDue(k: Setup, g: Log, e: Event)
    requires PendingOk(k, g)
    ensures var g' := Buffer1(k, g, e);
            && g'.pendingBytes == Estimates(k, g'.pending) && g'.pendingStarted == g'.pending[0].monotonicNs
            && (ChunkIsDue(g', e) <==> IsDue(k, g.options, g'.pending))
            && NotDueBefore(k, g.options, g'.pending, |g'.pending|)
  {
    var es := g.pending + [e];
    EstimatesSnoc(k, g.pending, e);
    forall i | 0 < i < |es| ensures !IsDue(k, g.options, es[..i]) {
      if i < |g.pending| {
        assert es[..i] == g.pending[..i];
      } else {
        assert es[..i] == g.pending;
      }
    }
  }

  lemma NumberedNext(k: Setup, o: Options, chunks: seq<Record>, r: Record)
    requires ChunksOk(k, o, chunks) && r.ChunkRecord? && r.index == |chunks| % TWO_64
    requires r.events != [] && IsDue(k, o, r.events) && NotDueBefore(k, o, r.events, |r.events|)
    ensures ChunksOk(k, o, chunks + [r])
  {
  }

  lemma NextIndex(n: nat)
    ensures (n % TWO_64 + 1) % TWO_64 == (n + 1) % TWO_64
  {
  }

  /** Ending a chunk. */
  lemma AddChunkIsNumbered(g: Log)
    requires g.chunkIndex == |AllChunks(g)| % TWO_64
    ensures AllChunks(AddChunk(g)) == AllChunks(g) + [ChunkRecord(g.chunkIndex, g.pending)]
    ensures AddChunk(g).chunkIndex == |AllChunks(AddChunk(g))| % TWO_64
  {
    var r := ChunkRecord(g.chunkIndex, g.pending);
    ChunksSnoc(g.records, r);
    Assoc(ClosedChunks(g.closed), Chunks(g.records), [r]);
    NextIndex(|AllChunks(g)|);
  }

  lemma CheckpointKeepsChunks(enc: Encoder, g: Log)
    ensures AllChunks(Checkpoint(enc, g)) == AllChunks(g)
  {
    ChunksSnoc(g.records, IndexRecord(Unindexed(enc, Start(g), g.records)));
    assert Chunks(g.records) + [] == Chunks(g.records);
  }

  lemma CloseKeepsChunks(enc: Encoder, g: Log)
    ensures AllChunks(CloseSegment(enc, g)) == AllChunks(g)
  {
    var g' := CloseSegment(enc, g);
    CheckpointKeepsChunks(enc, g);
    assert g'.closed[..|g.closed|] == g.closed;
    assert Chunks(g'.closed[|g.closed|].records) == Chunks(g.records) by {
      ChunksSnoc(g.records, IndexRecord(Unindexed(enc, Start(g), g.records)));
      assert Chunks(g.records) + [] == Chunks(g.records);
    }
    assert AllChunks(g') == ClosedChunks(g'.closed) + [];
  }

  /** Writing a chunk, and an index behind it where one is called for. */
  lemma WriteChunkIsRegular(k: Setup, enc: Encoder, g: Log)
    requires Invariant(enc, g) && 1 <= |g.pending| <= g.options.eventsPerChunk
    requires g.chunkIndex == |AllChunks(g)| % TWO_64 && SegmentsOk(enc, g)
    ensures var g' := WriteChunk(enc, g);
            && AllChunks(g') == AllChunks(g) + [ChunkRecord(g.chunkIndex, g.pending)]
            && g'.chunkIndex == |AllChunks(g')| % TWO_64 && SegmentsOk(enc, g')
  {
    var r, g1 := ChunkRecord(g.chunkIndex, g.pending), AddChunk(g);
    AddChunkIsNumbered(g);
    ChunkSpaces(g.options, g.records, r);
    ChunkCountSnoc(g.records, r);
    CheckpointKeepsChunks(enc, g1);
    if CallsForIndex(g.options, ChunkCount(g1.records)) {
      IndexSpaces(g.options, g1.records, IndexRecord(Unindexed(enc, Start(g1), g1.records)));
      AddChunkKeepsLog(enc, g);
      AddIndexKeeps(enc, Start(g1), g1.records);
    }
  }

  /** A segment that is closed gets an index only behind a chunk. */
  lemma CloseIsSpaced(enc: Encoder, g: Log)
    requires Invariant(enc, g) && SegmentsOk(enc, g)
    ensures Spaced(g.options, CloseSegment(enc, g).closed[|g.closed|].records, true)
  {
    var start := Start(g);
    if Unindexed(enc, start, g.records) != [] {
      var r := g.records[|g.records| - 1];
      assert r in g.records && r.ChunkRecord?;
      ClosingIndexSpaces(g.options, g.records, IndexRecord(Unindexed(enc, start, g.records)));
    }
  }

  lemma CloseIsFull(enc: Encoder, g: Log)
    requires SegmentSize(enc, g) % TWO_64 >= g.options.rotateBytes
    ensures WasFull(enc, g.options, Start(g), CloseSegment(enc, g).closed[|g.closed|].records)
  {
    var rs := CloseSegment(enc, g).closed[|g.closed|].records;
    assert rs[..|g.records|] == g.records;
    assert IsFullAt(enc, g.options, Start(g), rs, |g.records|);
  }

  lemma NothingSpaced(o: Options)
    ensures Spaced(o, [], false)
  {
  }

  /** Starting a new segment where the last one is full. */
  lemma RotateIsRegular(enc: Encoder, g: Log)
    requires Invariant(enc, g) && SegmentsOk(enc, g) && g.chunkIndex == |AllChunks(g)| % TWO_64
    ensures var g' := Rotate(enc, g);
            && SegmentsOk(enc, g') && NotFull(enc, g')
            && AllChunks(g') == AllChunks(g) && g'.chunkIndex == g.chunkIndex
  {
    if SegmentSize(enc, g) % TWO_64 >= g.options.rotateBytes {
      CloseIsSpaced(enc, g);
      CloseIsFull(enc, g);
      CloseKeepsChunks(enc, g);
      NothingSpaced(g.options);
    }
  }

  lemma FlushIsRegular(k: Setup, enc: Encoder, g: Log)
    requires Invariant(enc, g) && 1 <= |g.pending| <= g.options.eventsPerChunk
    requires g.chunkIndex == |AllChunks(g)| % TWO_64 && SegmentsOk(enc, g)
    ensures var g' := Flush(enc, g);
            && AllChunks(g') == AllChunks(g) + [ChunkRecord(g.chunkIndex, g.pending)]
            && g'.chunkIndex == |AllChunks(g')| % TWO_64 && SegmentsOk(enc, g') && NotFull(enc, g')
  {
    WriteChunkIsRegular(k, enc, g);
    WriteChunkKeeps(enc, g);
    RotateIsRegular(enc, WriteChunk(enc, g));
  }

  lemma FlushKeepsOptions(enc: Encoder, g: Log)
    ensures Flush(enc, g).options == g.options
    ensures g.pending != [] ==> Flush(enc, g).pendingBytes == 0 && Flush(enc, g).pending == []
  {
  }

  lemma BufferKeepsWritten(k: Setup, enc: Encoder, g: Log, e: Event)
    requires WrittenOk(k, enc, g)
    ensures WrittenOk(k, enc, Buffer1(k, g, e))
  {
    assert AllChunks(Buffer1(k, g, e)) == AllChunks(g);
  }

  lemma FlushKeepsWritten(k: Setup, enc: Encoder, g: Log)
    requires Invariant(enc, g) && 1 <= |g.pending| <= g.options.eventsPerChunk && WrittenOk(k, enc, g)
    requires IsDue(k, g.options, g.pending) && NotDueBefore(k, g.options, g.pending, |g.pending|)
    ensures WrittenOk(k, enc, Flush(enc, g)) && PendingOk(k, Flush(enc, g))
  {
    FlushIsRegular(k, enc, g);
    FlushKeepsOptions(enc, g);
    NumberedNext(k, g.options, AllChunks(g), ChunkRecord(g.chunkIndex, g.pending));
  }

  /** An append, on a writer between calls. */
  lemma AppendIsRegular(k: Setup, enc: Encoder, g: Log, e: Event)
    requires Regular(k, enc, g) && !MovesBack(g, e)
    ensures Regular(k, enc, Append(k, enc, g, e))
  {
    var g' := Buffer1(k, g, e);
    BufferKeeps(k, enc, g, e);
    BufferedIsDue(k, g, e);
    BufferKeepsWritten(k, enc, g, e);
    ApplyKeeps(k, enc, g, AppendCall(e));
    if ChunkIsDue(g', e) {
      FlushKeepsWritten(k, enc, g');
    }
  }

  lemma MarkIsRegular(k: Setup, enc: Encoder, g: Log, reason: Buffer)
    requires Regular(k, enc, g)
    ensures Regular(k, enc, g.(complete := false, reason := reason))
  {
    ApplyKeeps(k, enc, g, MarkIncomplete(reason));
    assert AllChunks(g.(complete := false, reason := reason)) == AllChunks(g);
  }

  lemma {:induction false} RunIsRegular(k: Setup, enc: Encoder, g: Log, calls: seq<Call>)
    requires Regular(k, enc, g)
    ensures Regular(k, enc, Run(k, enc, g, calls))
    decreases |calls|
  {
    if calls != [] {
      match calls[0] {
        case AppendCall(e) =>
          if !MovesBack(g, e) {
            AppendIsRegular(k, enc, g, e);
          }
        case MarkIncomplete(reason) => MarkIsRegular(k, enc, g, reason);
      }
      RunIsRegular(k, enc, Apply(k, enc, g, calls[0]), calls[1..]);
    }
  }

  lemma OpenedIsRegular(k: Setup, enc: Encoder, header: seq<byte>, o: Options)
    requires Positive(o)
    ensures Regular(k, enc, Opened(header, o))
  {
    OpenedIsSteady(enc, header, o);
    NothingSpaced(o);
  }

  /** Between the calls of any run, nothing pending is overdue in events, in estimated
      bytes or in time; every chunk written so far was ended by the event that made
      it due, and by no later one; chunks are numbered across segments; an index
      follows every so many chunks of a segment; segments were closed when they were
      full, and the open one is not. */
  lemma WriterKeepsItsOptions(k: Setup, enc: Encoder, header: seq<byte>, o: Options, calls: seq<Call>)
    requires Positive(o)
    ensures var g := Run(k, enc, Opened(header, o), calls);
            && g.options == o && g.header == header
            && PendingOk(k, g) && ChunksOk(k, o, AllChunks(g))
            && (forall c :: c in g.closed ==> Spaced(o, c.records, true) && WasFull(enc, o, |header|, c.records))
            && Spaced(o, g.records, false) && NotFull(enc, g)
  {
    OpenedIsRegular(k, enc, header, o);
    RunIsRegular(k, enc, Opened(header, o), calls);
    RunKeepsOptions(k, enc, Opened(header, o), calls);
    OpenedIsSteady(enc, header, o);
    RunKeeps(k, enc, Opened(header, o), calls);
  }

  /** Closing a regular writer. */
  lemma CloseIsRegular(k: Setup, enc: Encoder, g: Log)
    requires Regular(k, enc, g)
    ensures var d := Closed(enc, g);
            && AllChunks(d) == AllChunks(g)
                               + (if g.pending == [] then [] else [ChunkRecord(g.chunkIndex, g.pending)])
            && d.closed != []
            && (forall c :: c in d.closed ==> Spaced(g.options, c.records, true))
            && forall i :: 0 <= i < |d.closed| - 1 ==> WasFull(enc, g.options, Start(g), d.closed[i].records)
  {
    var f := Flush(enc, g);
    FlushKeeps(enc, g);
    FlushKeepsSetup(enc, g);
    if g.pending != [] {
      FlushIsRegular(k, enc, g);
    } else {
      assert AllChunks(g) + [] == AllChunks(g);
    }
    CloseIsSpaced(enc, f);
    CloseKeepsChunks(enc, f);
    assert CloseSegment(enc, f).closed[..|f.closed|] == f.closed;
  }

  /** And when the run is closed: only the last chunk may not have been due, and only
      the last segment not full. */
  lemma ClosedWriterKeepsItsOptions(k: Setup, enc: Encoder, header: seq<byte>, o: Options, calls: seq<Call>)
    requires Positive(o)
    ensures var g := Run(k, enc, Opened(header, o), calls);
            var d := Closed(enc, g);
            && AllChunks(d) == AllChunks(g)
                               + (if g.pending == [] then [] else [ChunkRecord(g.chunkIndex, g.pending)])
            && g.chunkIndex == |AllChunks(g)| % TWO_64
            && (forall c :: c in d.closed ==> Spaced(o, c.records, true))
            && forall i :: 0 <= i < |d.closed| - 1 ==> WasFull(enc, o, |header|, d.closed[i].records)
  {
    WriterKeepsItsOptions(k, enc, header, o, calls);
    OpenedIsRegular(k, enc, header, o);
    RunIsRegular(k, enc, Opened(header, o), calls);
    CloseIsRegular(k, enc, Run(k, enc, Opened(header, o), calls));
  }
}
