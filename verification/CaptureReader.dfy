/** Reading a capture of several segments and verifying it: what a whole run of
    the writer comes back as. */
module CaptureReader {
  import opened Words
  import opened Bytes
  import opened StructuredFields
  import opened EventCodec
  import opened Framing
  import opened CaptureSegment
  import opened SegmentRoundTrip
  import opened WriterLog

  function ReadSegments(z: Packer, files: seq<seq<byte>>): (reports: seq<SegmentRead>)
    ensures |reports| == |files|
    ensures forall i :: 0 <= i < |files| ==> reports[i] == ReadSegment(z, files[i])
  {
    seq(|files|, i requires 0 <= i < |files| => ReadSegment(z, files[i]))
  }

  /** The events read_all collects, segment after segment. */
  function EventsRead(reports: seq<SegmentRead>): seq<Event> {
    if reports == [] then [] else EventsRead(reports[..|reports| - 1]) + reports[|reports| - 1].events
  }

  predicate NoErrors(reports: seq<SegmentRead>) {
    forall r :: r in reports ==> r.errors == []
  }

  /** What read_all returns. */
  predicate ReadAllSucceeds(reports: seq<SegmentRead>) {
    reports != [] && NoErrors(reports)
  }

  /** What verify reports as ok. */
  predicate VerifiesOk(reports: seq<SegmentRead>) {
    reports != [] && NoErrors(reports) && forall r :: r in reports ==> r.hasFooter && r.complete
  }

  /** The loop of verify and read_all over the segments that were found. */
  method ReadCapture(z: Packer, files: seq<seq<byte>>) returns (reports: seq<SegmentRead>, events: seq<Event>)
    requires UsesCodec(z)
    ensures reports == ReadSegments(z, files)
    ensures events == EventsRead(reports)
  {
    reports, events := [], [];
    for i := 0 to |files|
      invariant |reports| == i && forall j :: 0 <= j < i ==> reports[j] == ReadSegment(z, files[j])
      invariant events == EventsRead(reports)
    {
      var read := ReadSegmentLoop(z, files[i]);
      assert (reports + [read])[..i] == reports;
      reports, events := reports + [read], events + read.events;
    }
  }

  // --------------------------------------------------------------- whole runs

  /** The files a closed writer leaves behind. */
  function Files(z: Packer, g: Log): (files: seq<seq<byte>>)
    ensures |files| == |g.closed|
  {
    seq(|g.closed|, i requires 0 <= i < |g.closed| =>
      SegmentBytes(z, g.header, g.closed[i].records + [g.closed[i].footer]))
  }

  ghost predicate AllSmall(z: Packer, cs: seq<ClosedSegment>) {
    forall c :: c in cs ==> Small(z, c.footer) && forall r :: r in c.records ==> Small(z, r)
  }

  ghost predicate Survives(z: Packer, es: seq<Event>) {
    z.decode(|es|, z.encode(es)) == Decoded(es, true, [])
  }

  ghost predicate AllSurvive(z: Packer, cs: seq<ClosedSegment>) {
    forall c, r :: c in cs && r in c.records && r.ChunkRecord? ==> Survives(z, r.events)
  }

  lemma ReadOne(z: Packer, enc: Encoder, o: Options, header: seq<byte>, c: ClosedSegment)
    requires Lossless(z.compressor) && Skipped(z, header)
    requires WellClosed(enc, o, |header|, c) && AllSmall(z, [c]) && AllSurvive(z, [c])
    ensures ReadSegment(z, SegmentBytes(z, header, c.records + [c.footer]))
         == ClosedRead(z, header, c.records, c.footer)
  {
    assert c in [c];
    assert forall r :: r in c.records ==> Fits(z, r);
    ReadClosedSegment(z, header, c.records, c.footer);
  }

  lemma {:induction false} EventsOfReads(cs: seq<ClosedSegment>, reports: seq<SegmentRead>)
    requires |reports| == |cs| && forall i :: 0 <= i < |cs| ==> reports[i].events == EventsOf(cs[i].records)
    ensures EventsRead(reports) == ClosedEvents(cs)
  {
    if cs != [] {
      EventsOfReads(cs[..|cs| - 1], reports[..|cs| - 1]);
    }
  }

  /** Reading the files of a log whose segments are all closed. */
  lemma ReadClosedLog(z: Packer, enc: Encoder, g: Log)
    requires Lossless(z.compressor) && Skipped(z, g.header) && Invariant(enc, g)
    requires AllSmall(z, g.closed) && AllSurvive(z, g.closed)
    ensures var reports := ReadSegments(z, Files(z, g));
            && EventsRead(reports) == ClosedEvents(g.closed)
            && forall i :: 0 <= i < |g.closed| ==>
                 reports[i] == ClosedRead(z, g.header, g.closed[i].records, g.closed[i].footer)
  {
    var reports := ReadSegments(z, Files(z, g));
    forall i | 0 <= i < |g.closed|
      ensures reports[i] == ClosedRead(z, g.header, g.closed[i].records, g.closed[i].footer)
    {
      var c := g.closed[i];
      assert c in g.closed && WellClosed(enc, g.options, Start(g), c);
      ReadOne(z, enc, g.options, g.header, c);
    }
    EventsOfReads(g.closed, reports);
  }

  lemma {:induction false} ChunkEventsAreRead(rs: seq<Record>, r: Record, e: Event)
    requires r in rs && r.ChunkRecord? && e in r.events
    ensures e in EventsOf(rs)
  {
    if rs[0] != r {
      ChunkEventsAreRead(rs[1..], r, e);
    }
  }

  lemma {:induction false} SegmentEventsAreRead(cs: seq<ClosedSegment>, c: ClosedSegment, e: Event)
    requires c in cs && e in EventsOf(c.records)
    ensures e in ClosedEvents(cs)
  {
    if cs[|cs| - 1] != c {
      SegmentEventsAreRead(cs[..|cs| - 1], c, e);
    }
  }

  /** With the capture codec, chunks of well-formed events survive. */
  lemma WellFormedChunksSurvive(c: Compressor, cs: seq<ClosedSegment>)
    requires AllWellFormed(ClosedEvents(cs))
    ensures AllSurvive(CapturePacker(c), cs)
  {
    forall s, r | s in cs && r in s.records && r.ChunkRecord?
      ensures Survives(CapturePacker(c), r.events)
    {
      forall e | e in r.events ensures WellFormed(e) {
        ChunkEventsAreRead(s.records, r, e);
        SegmentEventsAreRead(cs, s, e);
      }
      RoundTripIffWellFormed(r.events);
    }
  }

  lemma {:induction false} AcceptedWereAppended(k: Setup, enc: Encoder, g: Log, calls: seq<Call>)
    ensures forall e :: e in AcceptedBy(k, enc, g, calls) ==> e in Appended(calls)
    decreases |calls|
  {
    if calls != [] {
      AcceptedWereAppended(k, enc, Apply(k, enc, g, calls[0]), calls[1..]);
    }
  }

  lemma FlushKeepsSetup(enc: Encoder, g: Log)
    ensures var f := Flush(enc, g); f.header == g.header && f.options == g.options && f.complete == g.complete
  {
  }

  lemma LastClosedFooter(enc: Encoder, g: Log)
    ensures var d := CloseSegment(enc, g);
            && d.closed != [] && d.records == [] && d.pending == g.pending
            && d.closed[|d.closed| - 1].footer.FooterRecord?
            && d.closed[|d.closed| - 1].footer.complete == g.complete
            && d.header == g.header && d.options == g.options && d.complete == g.complete
  {
  }

  /** Closing a steady writer leaves everything accepted in closed segments. */
  lemma CloseKeeps(enc: Encoder, g: Log)
    requires Steady(enc, g)
    ensures Invariant(enc, Closed(enc, g))
    ensures ClosedEvents(Closed(enc, g).closed) == Accepted(g)
    ensures Closed(enc, g).closed != []
    ensures Closed(enc, g).closed[|Closed(enc, g).closed| - 1].footer.FooterRecord?
    ensures Closed(enc, g).closed[|Closed(enc, g).closed| - 1].footer.complete == g.complete
    ensures Closed(enc, g).header == g.header && Closed(enc, g).complete == g.complete
    ensures Closed(enc, g).options == g.options
  {
    var f := Flush(enc, g);
    FlushKeeps(enc, g);
    FlushKeepsSetup(enc, g);
    LastClosedFooter(enc, f);
    CloseSegmentKeeps(enc, f);
    NothingOpen(CloseSegment(enc, f));
  }

  lemma NothingOpen(g: Log)
    requires g.records == [] && g.pending == []
    ensures Accepted(g) == ClosedEvents(g.closed)
  {
    assert ClosedEvents(g.closed) + [] + [] == ClosedEvents(g.closed);
  }

  ghost predicate NeverMarked(calls: seq<Call>) {
    forall c :: c in calls ==> c.AppendCall?
  }

  /** What reading back a run means: `reports` holds exactly the accepted events
      in order, one error-free report per segment whose counts agree with its
      footer, and the capture verifies exactly when it was never marked. */
  ghost predicate ReadsBack(reports: seq<SegmentRead>, accepted: seq<Event>, ok: bool) {
    && EventsRead(reports) == accepted
    && ReadAllSucceeds(reports)
    && (forall r :: r in reports ==> r.hasFooter && FooterCounts !in r.warnings)
    && (VerifiesOk(reports) <==> ok)
  }

  lemma ClosedReadIsClean(z: Packer, header: seq<byte>, rs: seq<Record>, f: Record)
    requires f.FooterRecord?
    ensures var r := ClosedRead(z, header, rs, f);
            r.errors == [] && r.hasFooter && FooterCounts !in r.warnings && r.complete == f.complete
  {
  }

  lemma VerdictOfFlags(reports: seq<SegmentRead>, flags: seq<bool>)
    requires reports != [] && |flags| == |reports|
    requires forall i :: 0 <= i < |reports| ==>
               && reports[i].errors == [] && reports[i].hasFooter && FooterCounts !in reports[i].warnings
               && reports[i].complete == flags[i]
    ensures ReadsBack(reports, EventsRead(reports), forall b :: b in flags ==> b)
  {
    if VerifiesOk(reports) {
      forall b | b in flags ensures b {
        var i :| 0 <= i < |flags| && flags[i] == b;
        assert reports[i] in reports;
      }
    }
    forall r | r in reports
      ensures r.errors == [] && r.hasFooter && FooterCounts !in r.warnings
      ensures (forall b :: b in flags ==> b) ==> r.complete
    {
      var i :| 0 <= i < |reports| && reports[i] == r;
      assert flags[i] in flags;
    }
  }

  /** A report without error and with a footer that agrees, on a segment closed
      as `c`, in a capture that was `complete` then or not. */
  predicate IsClean(r: SegmentRead, c: ClosedSegment, complete: bool) {
    && r.errors == [] && r.hasFooter && FooterCounts !in r.warnings
    && c.footer.FooterRecord? && r.complete == c.footer.complete && (complete ==> r.complete)
  }

  lemma ClosedReadsAreClean(z: Packer, enc: Encoder, g: Log)
    requires Lossless(z.compressor) && Skipped(z, g.header) && Invariant(enc, g)
    requires AllSmall(z, g.closed) && AllSurvive(z, g.closed)
    ensures var reports := ReadSegments(z, Files(z, g));
            && EventsRead(reports) == ClosedEvents(g.closed)
            && forall i :: 0 <= i < |g.closed| ==> IsClean(reports[i], g.closed[i], g.complete)
  {
    ReadClosedLog(z, enc, g);
    var reports := ReadSegments(z, Files(z, g));
    forall i | 0 <= i < |g.closed| ensures IsClean(reports[i], g.closed[i], g.complete) {
      assert g.closed[i] in g.closed && g.closed[i].footer.FooterRecord?;
      ClosedReadIsClean(z, g.header, g.closed[i].records, g.closed[i].footer);
    }
  }

  lemma CleanReadsBack(reports: seq<SegmentRead>, cs: seq<ClosedSegment>, complete: bool)
    requires cs != [] && |reports| == |cs| && cs[|cs| - 1].footer.FooterRecord?
    requires cs[|cs| - 1].footer.complete == complete
    requires forall i :: 0 <= i < |cs| ==> IsClean(reports[i], cs[i], complete)
    ensures ReadsBack(reports, EventsRead(reports), complete)
  {
    var flags := seq(|reports|, i requires 0 <= i < |reports| => reports[i].complete);
    assert flags[|reports| - 1] in flags;
    VerdictOfFlags(reports, flags);
  }

  lemma ClosedLogReadsBack(z: Packer, enc: Encoder, g: Log)
    requires Lossless(z.compressor) && Skipped(z, g.header) && Invariant(enc, g) && g.closed != []
    requires AllSmall(z, g.closed) && AllSurvive(z, g.closed)
    requires g.closed[|g.closed| - 1].footer.FooterRecord? && g.closed[|g.closed| - 1].footer.complete == g.complete
    ensures ReadsBack(ReadSegments(z, Files(z, g)), ClosedEvents(g.closed), g.complete)
  {
    ClosedReadsAreClean(z, enc, g);
    CleanReadsBack(ReadSegments(z, Files(z, g)), g.closed, g.complete);
  }

  /** The whole run: open, any calls, close, read. */
  lemma WholeRunRoundTrip(k: Setup, c: Compressor, m: Metadata, o: Options, calls: seq<Call>)
    requires k.packer == CapturePacker(c) && Lossless(c)
    requires Positive(o) && |MetadataBytes(m)| <= MAX_METADATA
    requires AllWellFormed(Appended(calls))
    requires AllSmall(k.packer, RunToClose(k, m, o, calls).closed)
    ensures ReadsBack(ReadSegments(k.packer, Files(k.packer, RunToClose(k, m, o, calls))),
                      AcceptedBy(k, RECORD_ENCODER(k.packer), Opened(HeaderBytes(m), o), calls),
                      NeverMarked(calls))
    ensures Ordered(Appended(calls)) ==>
              AcceptedBy(k, RECORD_ENCODER(k.packer), Opened(HeaderBytes(m), o), calls) == Appended(calls)
  {
    HeaderIsSkipped(c, m);
    RunReadsBack(k, c, HeaderBytes(m), o, calls);
    RunCloses(k, RECORD_ENCODER(k.packer), HeaderBytes(m), o, calls);
  }

  function RunToClose(k: Setup, m: Metadata, o: Options, calls: seq<Call>): Log {
    RunFrom(k, HeaderBytes(m), o, calls)
  }

  function RunFrom(k: Setup, header: seq<byte>, o: Options, calls: seq<Call>): Log {
    var enc := RECORD_ENCODER(k.packer);
    Closed(enc, Run(k, enc, Opened(header, o), calls))
  }

  /** A run from open to close leaves what it accepted in closed segments. */
  lemma RunCloses(k: Setup, enc: Encoder, header: seq<byte>, o: Options, calls: seq<Call>)
    requires Positive(o)
    ensures var g0 := Opened(header, o);
            var d := Closed(enc, Run(k, enc, g0, calls));
            && Invariant(enc, d) && d.closed != [] && d.header == header && d.options == o
            && ClosedEvents(d.closed) == AcceptedBy(k, enc, g0, calls)
            && d.complete == NeverMarked(calls)
            && d.closed[|d.closed| - 1].footer.FooterRecord?
            && d.closed[|d.closed| - 1].footer.complete == d.complete
    ensures forall e :: e in AcceptedBy(k, enc, Opened(header, o), calls) ==> e in Appended(calls)
    ensures Ordered(Appended(calls)) ==> AcceptedBy(k, enc, Opened(header, o), calls) == Appended(calls)
  {
    var g0 := Opened(header, o);
    OpenedIsSteady(enc, header, o);
    RunKeeps(k, enc, g0, calls);
    RunKeepsOptions(k, enc, g0, calls);
    CloseKeeps(enc, Run(k, enc, g0, calls));
    AcceptedWereAppended(k, enc, g0, calls);
    assert [] + AcceptedBy(k, enc, g0, calls) == AcceptedBy(k, enc, g0, calls);
    if Ordered(Appended(calls)) {
      OrderedRunAcceptsAll(k, enc, g0, calls);
    }
  }

  lemma RunReadsBack(k: Setup, c: Compressor, header: seq<byte>, o: Options, calls: seq<Call>)
    requires k.packer == CapturePacker(c) && Lossless(c) && Positive(o) && Skipped(k.packer, header)
    requires AllWellFormed(Appended(calls))
    requires AllSmall(k.packer, RunFrom(k, header, o, calls).closed)
    ensures ReadsBack(ReadSegments(k.packer, Files(k.packer, RunFrom(k, header, o, calls))),
                      AcceptedBy(k, RECORD_ENCODER(k.packer), Opened(header, o), calls), NeverMarked(calls))
  {
    RunCloses(k, RECORD_ENCODER(k.packer), header, o, calls);
    var d := RunFrom(k, header, o, calls);
    WellFormedChunksSurvive(c, d.closed);
    ClosedLogReadsBack(k.packer, RECORD_ENCODER(k.packer), d);
  }

  lemma OpenedIsSteady(enc: Encoder, header: seq<byte>, o: Options)
    requires Positive(o)
    ensures Steady(enc, Opened(header, o)) && Accepted(Opened(header, o)) == []
  {
    assert ChunkEntries(enc, |header|, []) == [] && IndexedEntries([]) == [];
  }

  // ------------------------------------------------------ the indexes

  /** The index entries of a segment: one per chunk, in file order, with the
      position of the chunk record and its first and last sequence. */
  lemma {:induction false} ChunkEntryAt(enc: Encoder, offset: nat, rs: seq<Record>, n: nat)
    requires n < |rs| && rs[n].ChunkRecord?
    ensures |ChunkEntries(enc, offset, rs)| == ChunkCount(rs)
    ensures ChunkCount(rs[..n]) < ChunkCount(rs)
    ensures ChunkEntries(enc, offset, rs)[ChunkCount(rs[..n])] == EntryOf(offset + |Concat(enc, rs[..n])|, rs[n])
    decreases |rs|
  {
    ChunkEntriesCount(enc, offset, rs);
    var tail, next := rs[1..], offset + |enc(rs[0])|;
    if n == 0 {
      assert rs[..0] == [];
    } else {
      ChunkEntryAt(enc, next, tail, n - 1);
      assert rs[..n][0] == rs[0] && rs[..n][1..] == tail[..n - 1];
    }
  }

  lemma {:induction false} ChunkEntriesCount(enc: Encoder, offset: nat, rs: seq<Record>)
    ensures |ChunkEntries(enc, offset, rs)| == ChunkCount(rs)
    decreases |rs|
  {
    if rs != [] {
      ChunkEntriesCount(enc, offset + |enc(rs[0])|, rs[1..]);
    }
  }

  /** At the position of a record the segment holds the bytes of that record. */
  lemma RecordIsAtOffset(enc: Encoder, header: seq<byte>, rs: seq<Record>, n: nat)
    requires n < |rs|
    ensures var position, bytes := |header| + |Concat(enc, rs[..n])|, header + Concat(enc, rs);
            position + |enc(rs[n])| <= |bytes| && bytes[position..][..|enc(rs[n])|] == enc(rs[n])
  {
    var front, rest := Concat(enc, rs[..n]), Concat(enc, rs[n + 1..]);
    assert rs == rs[..n] + ([rs[n]] + rs[n + 1..]);
    ConcatAppend(enc, rs[..n], [rs[n]] + rs[n + 1..]);
    ConcatAppend(enc, [rs[n]], rs[n + 1..]);
    ConcatOne(enc, rs[n]);
    var bytes := header + Concat(enc, rs);
    assert bytes == header + (front + (enc(rs[n]) + rest));
    assert bytes[|header| + |front|..] == enc(rs[n]) + rest;
  }

  /** Record `n` is an index record and no later one is. */
  predicate IsLastIndex(rs: seq<Record>, n: nat) {
    n < |rs| && rs[n].IndexRecord? && forall i :: n < i < |rs| ==> !rs[i].IndexRecord?
  }

  ghost predicate HasIndex(rs: seq<Record>) {
    exists r :: r in rs && r.IndexRecord?
  }

  lemma LastIndexOfFront(front: seq<Record>, r: Record)
    requires !r.IndexRecord?
    ensures forall n: nat :: IsLastIndex(front + [r], n) <==> IsLastIndex(front, n)
    ensures HasIndex(front + [r]) ==> HasIndex(front)
  {
    forall n: nat ensures IsLastIndex(front + [r], n) <==> IsLastIndex(front, n) {
      assert forall i :: 0 <= i < |front| ==> (front + [r])[i] == front[i];
    }
    if x :| x in front + [r] && x.IndexRecord? {
      assert x in front;
    }
  }

  /** The offset a footer gives is the position of the last index record, or the
      default where there is none. */
  lemma {:induction false} LastIndexIsLast(enc: Encoder, offset: nat, rs: seq<Record>, none: u64)
    ensures var last := LastIndexOffset(enc, offset, rs, none);
            && (forall n: nat :: IsLastIndex(rs, n) ==> last == (offset + |Concat(enc, rs[..n])|) % TWO_64)
            && (if HasIndex(rs) then exists n: nat :: IsLastIndex(rs, n) else last == none)
    decreases |rs|
  {
    if rs != [] {
      var front, r := rs[..|rs| - 1], rs[|rs| - 1];
      assert rs == front + [r];
      LastIndexSnoc(enc, offset, front, r, none);
      if r.IndexRecord? {
        assert IsLastIndex(rs, |rs| - 1);
      } else {
        LastIndexIsLast(enc, offset, front, none);
        LastIndexOfFront(front, r);
        assert forall n: nat :: n < |front| ==> rs[..n] == front[..n];
      }
    }
  }

  /** In every segment of every run the index lists exactly the chunks, every
      chunk holds between one and the configured number of events, and the
      footer gives the true counts and points at the last index record, which
      there is as soon as there is a chunk. */
  lemma RunIndexesEveryChunk(k: Setup, enc: Encoder, header: seq<byte>, o: Options, calls: seq<Call>, c: ClosedSegment)
    requires Positive(o) && c in Closed(enc, Run(k, enc, Opened(header, o), calls)).closed
    ensures IndexedEntries(c.records) == ChunkEntries(enc, |header|, c.records)
    ensures forall r :: r in c.records && r.ChunkRecord? ==> 1 <= |r.events| <= o.eventsPerChunk
    ensures c.footer.FooterRecord?
    ensures c.footer.chunks == ChunkCount(c.records) % TWO_64
    ensures c.footer.count == |EventsOf(c.records)| % TWO_64
    ensures PointsAtLastIndex(enc, |header|, c)
  {
    RunCloses(k, enc, header, o, calls);
    ClosedIsWellClosed(enc, Closed(enc, Run(k, enc, Opened(header, o), calls)), c);
    ClosedPointsAtLastIndex(enc, o, |header|, c);
  }

  /** The offset in the footer is that of the last index record; there is one as
      soon as there is a chunk, and the offset is zero if there is none. */
  ghost predicate PointsAtLastIndex(enc: Encoder, start: nat, c: ClosedSegment) {
    && c.footer.FooterRecord?
    && (forall n: nat :: IsLastIndex(c.records, n) ==>
          c.footer.lastIndex == (start + |Concat(enc, c.records[..n])|) % TWO_64)
    && (ChunkCount(c.records) > 0 ==> exists n: nat :: IsLastIndex(c.records, n))
    && (!HasIndex(c.records) ==> c.footer.lastIndex == 0)
  }

  lemma ClosedPointsAtLastIndex(enc: Encoder, o: Options, start: nat, c: ClosedSegment)
    requires WellClosed(enc, o, start, c)
    ensures PointsAtLastIndex(enc, start, c)
  {
    LastIndexIsLast(enc, start, c.records, 0);
    ChunkEntriesCount(enc, start, c.records);
    NoIndexNoEntries(c.records);
  }

  lemma {:induction false} NoIndexNoEntries(rs: seq<Record>)
    ensures IndexedEntries(rs) != [] ==> HasIndex(rs)
  {
    if rs != [] {
      NoIndexNoEntries(rs[1..]);
      if IndexedEntries(rs) != [] {
        if rs[0].IndexRecord? {
          assert rs[0] in rs;
        } else {
          var r :| r in rs[1..] && r.IndexRecord?;
          assert r in rs;
        }
      }
    }
  }

  lemma ClosedIsWellClosed(enc: Encoder, g: Log, c: ClosedSegment)
    requires Invariant(enc, g) && c in g.closed
    ensures WellClosed(enc, g.options, |g.header|, c)
  {
  }

  lemma {:induction false} RunKeepsOptions(k: Setup, enc: Encoder, g: Log, calls: seq<Call>)
    ensures Run(k, enc, g, calls).options == g.options
    decreases |calls|
  {
    if calls != [] {
      RunKeepsOptions(k, enc, Apply(k, enc, g, calls[0]), calls[1..]);
    }
  }

  // ------------------------------------------- runs that fit the reader

  lemma {:induction false} AcceptedAtMost(k: Setup, enc: Encoder, g: Log, calls: seq<Call>)
    ensures |AcceptedBy(k, enc, g, calls)| <= |Appended(calls)|
    decreases |calls|
  {
    if calls != [] {
      AcceptedAtMost(k, enc, Apply(k, enc, g, calls[0]), calls[1..]);
    }
  }

  lemma {:induction false} AppendedAtMost(calls: seq<Call>)
    ensures |Appended(calls)| <= |calls|
  {
    if calls != [] {
      AppendedAtMost(calls[1..]);
    }
  }

  lemma {:induction false} EntriesAtMost(rs: seq<Record>, r: Record)
    requires r in rs && r.IndexRecord?
    ensures |r.entries| <= |IndexedEntries(rs)|
  {
    if rs[0] != r {
      EntriesAtMost(rs[1..], r);
    }
  }

  lemma {:induction false} ChunksAtMost(o: Options, rs: seq<Record>)
    requires ChunkSizesOk(o, rs)
    ensures ChunkCount(rs) <= |EventsOf(rs)|
  {
    if rs != [] {
      assert rs[0] in rs;
      ChunksAtMost(o, rs[1..]);
    }
  }

  lemma {:induction false} SegmentAtMost(cs: seq<ClosedSegment>, c: ClosedSegment)
    requires c in cs
    ensures |EventsOf(c.records)| <= |ClosedEvents(cs)|
  {
    if cs[|cs| - 1] != c {
      SegmentAtMost(cs[..|cs| - 1], c);
    }
  }

  ghost predicate ReasonsFit(g: Log) {
    |g.reason| < TWO_32 && forall c :: c in g.closed ==> c.footer.FooterRecord? && |c.footer.reason| < TWO_32
  }

  lemma FlushReasonsFit(enc: Encoder, g: Log)
    requires ReasonsFit(g)
    ensures ReasonsFit(CloseSegment(enc, g)) && ReasonsFit(Flush(enc, g))
  {
    if g.pending != [] {
      var g' := WriteChunk(enc, g);
      assert ReasonsFit(g') && ReasonsFit(CloseSegment(enc, g'));
      assert Flush(enc, g) == g' || Flush(enc, g) == CloseSegment(enc, g');
    }
  }

  /** The reasons of all marks have a 32-bit size. */
  ghost predicate MarksFit(calls: seq<Call>) {
    forall c :: c in calls && c.MarkIncomplete? ==> |c.reason| < TWO_32
  }

  lemma {:induction false} RunReasonsFit(k: Setup, enc: Encoder, g: Log, calls: seq<Call>)
    requires ReasonsFit(g) && MarksFit(calls)
    ensures ReasonsFit(Run(k, enc, g, calls))
    decreases |calls|
  {
    if calls != [] {
      assert calls[0] in calls;
      if calls[0].AppendCall? && !MovesBack(g, calls[0].event) {
        FlushReasonsFit(enc, Buffer1(k, g, calls[0].event));
      }
      assert forall c :: c in calls[1..] ==> c in calls;
      RunReasonsFit(k, enc, Apply(k, enc, g, calls[0]), calls[1..]);
    }
  }

  /** Any chunk of so many of these events stays inside the reader's limits. */
  ghost predicate ChunksFit(z: Packer, most: nat, events: seq<Event>) {
    forall es :: 1 <= |es| <= most && (forall e :: e in es ==> e in events) ==> Small(z, ChunkRecord(0, es))
  }

  lemma ClosedIsSmall(z: Packer, enc: Encoder, g: Log, events: seq<Event>, c: ClosedSegment)
    requires Invariant(enc, g) && c in g.closed && ReasonsFit(g) && ChunksFit(z, g.options.eventsPerChunk, events)
    requires |ClosedEvents(g.closed)| < TWO_32 && forall e :: e in ClosedEvents(g.closed) ==> e in events
    ensures Small(z, c.footer) && forall r :: r in c.records ==> Small(z, r)
  {
    ClosedIsWellClosed(enc, g, c);
    SegmentAtMost(g.closed, c);
    ChunksAtMost(g.options, c.records);
    ChunkEntriesCount(enc, |g.header|, c.records);
    forall r | r in c.records ensures Small(z, r) {
      if r.ChunkRecord? {
        forall e | e in r.events ensures e in events {
          ChunkEventsAreRead(c.records, r, e);
          SegmentEventsAreRead(g.closed, c, e);
        }
        assert Small(z, ChunkRecord(0, r.events));
      } else if r.IndexRecord? {
        EntriesAtMost(c.records, r);
      }
    }
  }

  /** What keeps a run inside the limits of the reader, in terms of its calls. */
  lemma RunIsSmall(k: Setup, header: seq<byte>, o: Options, calls: seq<Call>)
    requires Positive(o) && |calls| < TWO_32 && MarksFit(calls)
    requires ChunksFit(k.packer, o.eventsPerChunk, Appended(calls))
    ensures AllSmall(k.packer, RunFrom(k, header, o, calls).closed)
  {
    var enc, g0 := RECORD_ENCODER(k.packer), Opened(header, o);
    var g := Run(k, enc, g0, calls);
    RunCloses(k, enc, header, o, calls);
    RunReasonsFit(k, enc, g0, calls);
    FlushReasonsFit(enc, g);
    FlushReasonsFit(enc, Flush(enc, g));
    AcceptedAtMost(k, enc, g0, calls);
    AppendedAtMost(calls);
    forall c | c in Closed(enc, g).closed
      ensures Small(k.packer, c.footer) && forall r :: r in c.records ==> Small(k.packer, r)
    {
      ClosedIsSmall(k.packer, enc, Closed(enc, g), Appended(calls), c);
    }
  }

  /** The whole run again, under conditions on its calls alone. */
  lemma FittingRunRoundTrip(k: Setup, c: Compressor, m: Metadata, o: Options, calls: seq<Call>)
    requires k.packer == CapturePacker(c) && Lossless(c)
    requires Positive(o) && |MetadataBytes(m)| <= MAX_METADATA
    requires AllWellFormed(Appended(calls)) && |calls| < TWO_32 && MarksFit(calls)
    requires ChunksFit(k.packer, o.eventsPerChunk, Appended(calls))
    ensures ReadsBack(ReadSegments(k.packer, Files(k.packer, RunToClose(k, m, o, calls))),
                      AcceptedBy(k, RECORD_ENCODER(k.packer), Opened(HeaderBytes(m), o), calls),
                      NeverMarked(calls))
  {
    RunIsSmall(k, HeaderBytes(m), o, calls);
    WholeRunRoundTrip(k, c, m, o, calls);
  }

  // ------------------------------------------------------ what can be read

  /** Whatever bytes the files hold, the reader only yields well-formed events. */
  lemma ReadIsWellFormed(c: Compressor, file: seq<byte>)
    ensures AllWellFormed(ReadSegment(CapturePacker(c), file).events)
  {
    var z := CapturePacker(c);
    forall n: nat, raw ensures AllWellFormed(z.decode(n, raw).events) {
      DecodedIsWellFormed(FRESH, n, raw);
    }
    ReadKeepsWellFormed(z, file);
  }

  lemma PayloadKeepsWellFormed(z: Packer, offset: nat, c: ChunkInfo, s: seq<byte>, acc: SegmentRead)
    requires forall n: nat, raw :: AllWellFormed(z.decode(n, raw).events)
    requires AllWellFormed(acc.events)
    ensures AllWellFormed(ReadPayload(z, offset, c, s, acc).read.events)
  {
  }

  lemma ReadRecordKeepsWellFormed(z: Packer, offset: nat, s: seq<byte>, acc: SegmentRead)
    requires forall n: nat, raw :: AllWellFormed(z.decode(n, raw).events)
    requires AllWellFormed(acc.events)
    ensures AllWellFormed(ReadRecord(z, offset, s, acc).read.events)
  {
    if |s| >= 4 && s[..4] == TAG_CHUNK {
      var h := ReadChunkHeader(offset % TWO_64, s[4..]);
      if h.Parsed? {
        PayloadKeepsWellFormed(z, offset, h.value, h.rest, acc);
      }
    } else {
      assert ReadRecord(z, offset, s, acc).read.events == acc.events;
    }
  }

  ghost const WELL_FORMED_READ: SegmentRead -> bool := (a: SegmentRead) => AllWellFormed(a.events)

  lemma ReadKeepsWellFormed(z: Packer, file: seq<byte>)
    requires forall n: nat, raw :: AllWellFormed(z.decode(n, raw).events)
    ensures AllWellFormed(ReadSegment(z, file).events)
  {
    match z.header(file)
    case BadHeader(_) =>
    case GoodHeader(_, rest) =>
      forall o: nat, t: seq<byte>, a: SegmentRead | AllWellFormed(a.events)
        ensures AllWellFormed(RECORD_READER(z)(o, t, a).read.events)
      {
        ReadRecordKeepsWellFormed(z, o, t, a);
      }
      WalkKeeps(RECORD_READER(z), WELL_FORMED_READ, Consumed(file, rest), rest, NOTHING_READ);
  }
}
