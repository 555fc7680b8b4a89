/** The capture writer as a machine over records: which records each call adds
    to the open segment, when a segment is closed, and what every run keeps. */
module WriterLog {
  import opened Words
  import opened Bytes
  import opened StructuredFields
  import opened EventCodec
  import opened Framing
  import opened CaptureSegment
  import opened SegmentRoundTrip

  datatype Options = Options(
    eventsPerChunk: nat, bytesPerChunk: nat, chunkIntervalNs: u64, rotateBytes: u64, indexInterval: nat)

  ghost predicate Positive(o: Options) {
    o.eventsPerChunk > 0 && o.bytesPerChunk > 0 && o.rotateBytes > 0 && o.indexInterval > 0
  }

  /** How chunks are packed, and the size estimate of an event, which only
      steers when a chunk is flushed. */
  datatype Setup = Setup(packer: Packer, estimate: Event -> nat)

  datatype ClosedSegment = ClosedSegment(records: seq<Record>, footer: Record)

  datatype Log = Log(
    complete: bool, reason: Buffer, header: seq<byte>, options: Options,
    closed: seq<ClosedSegment>, records: seq<Record>, chunkIndex: u64,
    pending: seq<Event>, pendingBytes: nat, pendingStarted: u64)

  // ----------------------------------------------------------------- indexes

  type Encoder = Record -> seq<byte>

  function EntryOf(offset: nat, r: Record): IndexEntry
    requires r.ChunkRecord?
  {
    IndexEntry(r.index, offset % TWO_64, FirstSequence(r.events), LastSequence(r.events))
  }

  /** One entry per chunk, in file order, with its byte offset and sequences. */
  function ChunkEntries(enc: Encoder, offset: nat, rs: seq<Record>): seq<IndexEntry>
    decreases |rs|
  {
    if rs == [] then []
    else (if rs[0].ChunkRecord? then [EntryOf(offset, rs[0])] else [])
         + ChunkEntries(enc, offset + |enc(rs[0])|, rs[1..])
  }

  /** The entries of all index records, concatenated. */
  function IndexedEntries(rs: seq<Record>): seq<IndexEntry> {
    if rs == [] then []
    else (if rs[0].IndexRecord? then rs[0].entries else []) + IndexedEntries(rs[1..])
  }

  /** The byte offset of the last index record, or zero. */
  function LastIndexOffset(enc: Encoder, offset: nat, rs: seq<Record>, none: u64): u64
    decreases |rs|
  {
    if rs == [] then none
    else LastIndexOffset(enc, offset + |enc(rs[0])|, rs[1..], if rs[0].IndexRecord? then offset % TWO_64 else none)
  }

  /** The chunks written since the last index record. */
  function Unindexed(enc: Encoder, offset: nat, rs: seq<Record>): seq<IndexEntry> {
    var all, done := ChunkEntries(enc, offset, rs), |IndexedEntries(rs)|;
    if done <= |all| then all[done..] else []
  }

  lemma {:induction false} ChunkEntriesSnoc(enc: Encoder, offset: nat, rs: seq<Record>, r: Record)
    ensures ChunkEntries(enc, offset, rs + [r])
         == ChunkEntries(enc, offset, rs)
            + (if r.ChunkRecord? then [EntryOf(offset + |Concat(enc, rs)|, r)] else [])
    decreases |rs|
  {
    if rs == [] {
      assert rs + [r] == [r];
    } else {
      ChunkEntriesSnoc(enc, offset + |enc(rs[0])|, rs[1..], r);
      assert (rs + [r])[1..] == rs[1..] + [r];
      Assoc(if rs[0].ChunkRecord? then [EntryOf(offset, rs[0])] else [],
            ChunkEntries(enc, offset + |enc(rs[0])|, rs[1..]),
            if r.ChunkRecord? then [EntryOf(offset + |Concat(enc, rs)|, r)] else []);
    }
  }

  lemma {:induction false} IndexedSnoc(rs: seq<Record>, r: Record)
    ensures IndexedEntries(rs + [r]) == IndexedEntries(rs) + (if r.IndexRecord? then r.entries else [])
  {
    if rs == [] {
      assert rs + [r] == [r];
    } else {
      IndexedSnoc(rs[1..], r);
      assert (rs + [r])[1..] == rs[1..] + [r];
    }
  }

  lemma {:induction false} LastIndexSnoc(enc: Encoder, offset: nat, rs: seq<Record>, r: Record, none: u64)
    ensures LastIndexOffset(enc, offset, rs + [r], none)
         == if r.IndexRecord? then (offset + |Concat(enc, rs)|) % TWO_64
            else LastIndexOffset(enc, offset, rs, none)
    decreases |rs|
  {
    if rs == [] {
      assert rs + [r] == [r];
      assert [r][1..] == [];
    } else {
      LastIndexSnoc(enc, offset + |enc(rs[0])|, rs[1..], r, if rs[0].IndexRecord? then offset % TWO_64 else none);
      assert (rs + [r])[1..] == rs[1..] + [r];
    }
  }

  lemma {:induction false} EventsSnoc(rs: seq<Record>, r: Record)
    ensures EventsOf(rs + [r]) == EventsOf(rs) + (if r.ChunkRecord? then r.events else [])
  {
    if rs == [] {
      assert rs + [r] == [r];
    } else {
      EventsSnoc(rs[1..], r);
      assert (rs + [r])[1..] == rs[1..] + [r];
      Assoc(if rs[0].ChunkRecord? then rs[0].events else [], EventsOf(rs[1..]),
            if r.ChunkRecord? then r.events else []);
    }
  }

  lemma {:induction false} ChunkCountSnoc(rs: seq<Record>, r: Record)
    ensures ChunkCount(rs + [r]) == ChunkCount(rs) + (if r.ChunkRecord? then 1 else 0)
  {
    if rs == [] {
      assert rs + [r] == [r];
    } else {
      ChunkCountSnoc(rs[1..], r);
      assert (rs + [r])[1..] == rs[1..] + [r];
    }
  }

  // ------------------------------------------------------------------- steps

  /** Where records start: the size of the file header. */
  function Start(g: Log): nat {
    |g.header|
  }

  function SegmentSize(enc: Encoder, g: Log): nat {
    Start(g) + |Concat(enc, g.records)|
  }

  function AddIndex(enc: Encoder, start: nat, rs: seq<Record>): seq<Record> {
    rs + [IndexRecord(Unindexed(enc, start, rs))]
  }

  /** write_footer indexes what is not indexed yet, then closes the segment. */
  function CloseSegment(enc: Encoder, g: Log): Log {
    var start := Start(g);
    var rs := if Unindexed(enc, start, g.records) != [] then AddIndex(enc, start, g.records) else g.records;
    var footer := FooterRecord(ChunkCount(rs) % TWO_64, (|EventsOf(rs)| + |g.pending|) % TWO_64,
                               LastIndexOffset(enc, start, rs, 0), g.complete, g.reason);
    g.(closed := g.closed + [ClosedSegment(rs, footer)], records := [])
  }

  function Rotate(enc: Encoder, g: Log): Log {
    if SegmentSize(enc, g) % TWO_64 < g.options.rotateBytes then g else CloseSegment(enc, g)
  }

  /** The pending events become a chunk record. */
  function AddChunk(g: Log): Log {
    g.(records := g.records + [ChunkRecord(g.chunkIndex, g.pending)],
       chunkIndex := (g.chunkIndex + 1) % TWO_64, pending := [], pendingBytes := 0, pendingStarted := 0)
  }

  function Checkpoint(enc: Encoder, g: Log): Log {
    g.(records := AddIndex(enc, Start(g), g.records))
  }

  /** flush_chunk up to the rotation: a chunk and, every so often, an index. */
  function WriteChunk(enc: Encoder, g: Log): Log {
    var g' := AddChunk(g);
    if g.options.indexInterval > 0 && ChunkCount(g'.records) % TWO_64 % g.options.indexInterval == 0
    then Checkpoint(enc, g') else g'
  }

  function Flush(enc: Encoder, g: Log): Log {
    if g.pending == [] then g else Rotate(enc, WriteChunk(enc, g))
  }

  predicate MovesBack(g: Log, e: Event) {
    g.pending != [] && e.recordSequence < g.pending[|g.pending| - 1].recordSequence
  }

  function Buffer1(k: Setup, g: Log, e: Event): Log {
    g.(pending := g.pending + [e], pendingBytes := g.pendingBytes + k.estimate(e),
       pendingStarted := if g.pending == [] then e.monotonicNs else g.pendingStarted)
  }

  predicate ChunkIsDue(g: Log, e: Event) {
    || |g.pending| >= g.options.eventsPerChunk
    || g.pendingBytes >= g.options.bytesPerChunk
    || (e.monotonicNs >= g.pendingStarted && e.monotonicNs - g.pendingStarted >= g.options.chunkIntervalNs)
  }

  /** append, on an open writer; a record sequence that moves back is refused. */
  function Append(k: Setup, enc: Encoder, g: Log, e: Event): Log {
    AppendWith((h: Log) => Flush(enc, h), k, g, e)
  }

  function AppendWith(flush: Log -> Log, k: Setup, g: Log, e: Event): Log {
    if MovesBack(g, e) then g
    else
      var g' := Buffer1(k, g, e);
      if ChunkIsDue(g', e) then flush(g') else g'
  }

  function Opened(header: seq<byte>, options: Options): Log {
    Log(true, [], header, options, [], [], 0, [], 0, 0)
  }

  function Closed(enc: Encoder, g: Log): Log {
    CloseSegment(enc, Flush(enc, g))
  }

  // ---------------------------------------------------------------- invariant

  function ClosedEvents(cs: seq<ClosedSegment>): seq<Event> {
    if cs == [] then [] else ClosedEvents(cs[..|cs| - 1]) + EventsOf(cs[|cs| - 1].records)
  }

  /** Everything accepted so far, in order. */
  function Accepted(g: Log): seq<Event> {
    ClosedEvents(g.closed) + EventsOf(g.records) + g.pending
  }

  /** The index of a segment under construction lists its chunks, in file order,
      as far as it goes. */
  ghost predicate IndexedSoFar(enc: Encoder, start: nat, rs: seq<Record>) {
    IndexedEntries(rs) + Unindexed(enc, start, rs) == ChunkEntries(enc, start, rs)
  }

  ghost predicate ChunkSizesOk(o: Options, rs: seq<Record>) {
    forall r :: r in rs && r.ChunkRecord? ==> 1 <= |r.events| <= o.eventsPerChunk
  }

  /** What holds of a closed segment. */
  ghost predicate WellClosed(enc: Encoder, o: Options, start: nat, c: ClosedSegment) {
    && NoFooter(c.records)
    && c.footer.FooterRecord?
    && c.footer.chunks == ChunkCount(c.records) % TWO_64
    && c.footer.count == |EventsOf(c.records)| % TWO_64
    && c.footer.lastIndex == LastIndexOffset(enc, start, c.records, 0)
    && IndexedEntries(c.records) == ChunkEntries(enc, start, c.records)
    && ChunkSizesOk(o, c.records)
  }

  ghost predicate Invariant(enc: Encoder, g: Log) {
    && Positive(g.options)
    && NoFooter(g.records)
    && IndexedSoFar(enc, Start(g), g.records)
    && ChunkSizesOk(g.options, g.records)
    && (forall c :: c in g.closed ==> WellClosed(enc, g.options, Start(g), c))
    && (g.complete ==> forall c :: c in g.closed ==> c.footer.FooterRecord? && c.footer.complete)
  }

  lemma AddIndexKeeps(enc: Encoder, start: nat, rs: seq<Record>)
    requires NoFooter(rs) && IndexedSoFar(enc, start, rs)
    ensures var rs' := AddIndex(enc, start, rs);
            && NoFooter(rs') && IndexedSoFar(enc, start, rs') && Unindexed(enc, start, rs') == []
            && EventsOf(rs') == EventsOf(rs)
  {
    var r := IndexRecord(Unindexed(enc, start, rs));
    ChunkEntriesSnoc(enc, start, rs, r);
    IndexedSnoc(rs, r);
    EventsSnoc(rs, r);
    var all := ChunkEntries(enc, start, rs);
    assert all + [] == all && all[|all|..] == [];
    assert EventsOf(rs) + [] == EventsOf(rs);
  }

  lemma AddChunkKeeps(enc: Encoder, start: nat, rs: seq<Record>, r: Record)
    requires NoFooter(rs) && IndexedSoFar(enc, start, rs) && r.ChunkRecord?
    ensures NoFooter(rs + [r]) && IndexedSoFar(enc, start, rs + [r])
    ensures EventsOf(rs + [r]) == EventsOf(rs) + r.events
  {
    ChunkEntriesSnoc(enc, start, rs, r);
    IndexedSnoc(rs, r);
    EventsSnoc(rs, r);
    assert IndexedEntries(rs) + [] == IndexedEntries(rs);
  }

  lemma FullyIndexed(enc: Encoder, start: nat, rs: seq<Record>)
    requires IndexedSoFar(enc, start, rs) && Unindexed(enc, start, rs) == []
    ensures IndexedEntries(rs) == ChunkEntries(enc, start, rs)
  {
    assert IndexedEntries(rs) + [] == IndexedEntries(rs);
  }

  /** Closing keeps the invariant, and moves the events of the open segment to
      the closed ones. */
  lemma CloseSegmentKeeps(enc: Encoder, g: Log)
    requires Invariant(enc, g) && g.pending == []
    ensures Invariant(enc, CloseSegment(enc, g))
    ensures Accepted(CloseSegment(enc, g)) == Accepted(g)
    ensures CloseSegment(enc, g).closed[|g.closed|].footer.complete == g.complete
  {
    var start, g' := Start(g), CloseSegment(enc, g);
    var c := g'.closed[|g.closed|];
    if Unindexed(enc, start, g.records) != [] {
      AddIndexKeeps(enc, start, g.records);
    }
    FullyIndexed(enc, start, c.records);
    assert WellClosed(enc, g.options, start, c);
    assert g'.closed[..|g'.closed| - 1] == g.closed;
    assert ClosedEvents(g'.closed) == ClosedEvents(g.closed) + EventsOf(g.records);
    assert ClosedEvents(g'.closed) + [] == ClosedEvents(g'.closed);
    assert EventsOf([]) == [] && IndexedEntries([]) == [];
  }

  lemma AddChunkKeepsLog(enc: Encoder, g: Log)
    requires Invariant(enc, g) && 1 <= |g.pending| <= g.options.eventsPerChunk
    ensures Invariant(enc, AddChunk(g))
    ensures Accepted(AddChunk(g)) == Accepted(g)
  {
    var r := ChunkRecord(g.chunkIndex, g.pending);
    AddChunkKeeps(enc, Start(g), g.records, r);
    Assoc(ClosedEvents(g.closed), EventsOf(g.records), g.pending);
    assert Accepted(AddChunk(g)) == ClosedEvents(g.closed) + EventsOf(g.records + [r]) + [];
  }

  lemma CheckpointKeeps(enc: Encoder, g: Log)
    requires Invariant(enc, g)
    ensures Invariant(enc, Checkpoint(enc, g))
    ensures Accepted(Checkpoint(enc, g)) == Accepted(g)
  {
    AddIndexKeeps(enc, Start(g), g.records);
  }

  lemma WriteChunkKeeps(enc: Encoder, g: Log)
    requires Invariant(enc, g) && 1 <= |g.pending| <= g.options.eventsPerChunk
    ensures Invariant(enc, WriteChunk(enc, g))
    ensures Accepted(WriteChunk(enc, g)) == Accepted(g)
    ensures WriteChunk(enc, g).pending == []
  {
    AddChunkKeepsLog(enc, g);
    CheckpointKeeps(enc, AddChunk(g));
  }

  lemma FlushKeeps(enc: Encoder, g: Log)
    requires Invariant(enc, g) && |g.pending| <= g.options.eventsPerChunk
    ensures Invariant(enc, Flush(enc, g))
    ensures Accepted(Flush(enc, g)) == Accepted(g)
    ensures Flush(enc, g).pending == []
  {
    if g.pending != [] {
      WriteChunkKeeps(enc, g);
      var g' := WriteChunk(enc, g);
      if Rotate(enc, g') != g' {
        CloseSegmentKeeps(enc, g');
      }
    }
  }

  // -------------------------------------------------------------------- runs

  datatype Call = AppendCall(event: Event) | MarkIncomplete(reason: Buffer)

  function Apply(k: Setup, enc: Encoder, g: Log, call: Call): Log {
    match call
    case AppendCall(e) => Append(k, enc, g, e)
    case MarkIncomplete(reason) => g.(complete := false, reason := reason)
  }

  /** A run of calls between open and close. */
  function Run(k: Setup, enc: Encoder, g: Log, calls: seq<Call>): Log
    decreases |calls|
  {
    if calls == [] then g else Run(k, enc, Apply(k, enc, g, calls[0]), calls[1..])
  }

  /** Between calls a chunk that is due has been flushed. */
  ghost predicate Steady(enc: Encoder, g: Log) {
    Invariant(enc, g) && |g.pending| < g.options.eventsPerChunk
  }

  lemma BufferKeeps(k: Setup, enc: Encoder, g: Log, e: Event)
    requires Invariant(enc, g)
    ensures Invariant(enc, Buffer1(k, g, e))
    ensures Accepted(Buffer1(k, g, e)) == Accepted(g) + [e]
  {
    Assoc(ClosedEvents(g.closed) + EventsOf(g.records), g.pending, [e]);
  }

  lemma ApplyKeeps(k: Setup, enc: Encoder, g: Log, call: Call)
    requires Steady(enc, g)
    ensures Steady(enc, Apply(k, enc, g, call))
    ensures Accepted(Apply(k, enc, g, call))
         == Accepted(g) + (if call.AppendCall? && !MovesBack(g, call.event) then [call.event] else [])
    ensures Apply(k, enc, g, call).complete == (g.complete && call.AppendCall?)
    ensures Apply(k, enc, g, call).header == g.header
  {
    assert Accepted(g) + [] == Accepted(g);
    if call.AppendCall? && !MovesBack(g, call.event) {
      var g' := Buffer1(k, g, call.event);
      BufferKeeps(k, enc, g, call.event);
      if ChunkIsDue(g', call.event) {
        FlushKeeps(enc, g');
      }
    }
  }

  /** The events a run accepts: those whose sequence does not move back within
      the chunk being collected. */
  function AcceptedBy(k: Setup, enc: Encoder, g: Log, calls: seq<Call>): seq<Event>
    decreases |calls|
  {
    if calls == [] then []
    else (if calls[0].AppendCall? && !MovesBack(g, calls[0].event) then [calls[0].event] else [])
         + AcceptedBy(k, enc, Apply(k, enc, g, calls[0]), calls[1..])
  }

  lemma {:induction false} RunKeeps(k: Setup, enc: Encoder, g: Log, calls: seq<Call>)
    requires Steady(enc, g)
    ensures Steady(enc, Run(k, enc, g, calls))
    ensures Accepted(Run(k, enc, g, calls)) == Accepted(g) + AcceptedBy(k, enc, g, calls)
    ensures Run(k, enc, g, calls).complete == (g.complete && forall c :: c in calls ==> c.AppendCall?)
    ensures Run(k, enc, g, calls).header == g.header
    decreases |calls|
  {
    if calls == [] {
      assert Accepted(g) + [] == Accepted(g);
    } else {
      ApplyKeeps(k, enc, g, calls[0]);
      var g' := Apply(k, enc, g, calls[0]);
      RunKeeps(k, enc, g', calls[1..]);
      Assoc(Accepted(g), if calls[0].AppendCall? && !MovesBack(g, calls[0].event) then [calls[0].event] else [],
            AcceptedBy(k, enc, g', calls[1..]));
      assert forall c :: c in calls <==> c == calls[0] || c in calls[1..];
    }
  }

  /** The appended events of a run. */
  function Appended(calls: seq<Call>): seq<Event> {
    if calls == [] then []
    else (if calls[0].AppendCall? then [calls[0].event] else []) + Appended(calls[1..])
  }

  ghost predicate Ordered(es: seq<Event>) {
    forall i, j :: 0 <= i < j < |es| ==> es[i].recordSequence <= es[j].recordSequence
  }

  /** What is pending is ordered and does not exceed what is still to come. */
  ghost predicate Precedes(pending: seq<Event>, es: seq<Event>) {
    forall i, j :: 0 <= i < |pending| && 0 <= j < |es| ==> pending[i].recordSequence <= es[j].recordSequence
  }

  lemma ApplyPending(k: Setup, enc: Encoder, g: Log, call: Call)
    ensures var p := Apply(k, enc, g, call).pending;
            p == [] || p == g.pending || (call.AppendCall? && p == g.pending + [call.event])
  {
  }

  /** If the appended sequences never decrease, every event is accepted. */
  lemma {:induction false} OrderedRunAcceptsAll(k: Setup, enc: Encoder, g: Log, calls: seq<Call>)
    requires Ordered(Appended(calls)) && Precedes(g.pending, Appended(calls))
    ensures AcceptedBy(k, enc, g, calls) == Appended(calls)
    decreases |calls|
  {
    if calls != [] {
      var all, rest := Appended(calls), Appended(calls[1..]);
      if calls[0].AppendCall? {
        assert all[0] == calls[0].event && all[1..] == rest;
      } else {
        assert all == rest;
      }
      ApplyPending(k, enc, g, calls[0]);
      OrderedRunAcceptsAll(k, enc, Apply(k, enc, g, calls[0]), calls[1..]);
    }
  }
}
