/** Recovering what a damaged capture still holds. */
module CaptureRecovery {
  import opened Words
  import opened Bytes
  import opened StructuredFields
  import opened EventCodec
  import opened Framing
  import opened CaptureSegment
  import opened SegmentRoundTrip
  import opened WriterLog
  import opened CaptureReader

  const DEFAULT_OPTIONS: Options := Options(1024, 0x40_0000, 1_000_000_000, 0x4000_0000, 64)

  const RECOVERED: seq<byte> :=
    [0x72, 0x65, 0x63, 0x6f, 0x76, 0x65, 0x72, 0x65, 0x64, 0x20,
     0x63, 0x61, 0x70, 0x74, 0x75, 0x72, 0x65]

  /** The first reason a segment gives is appended behind "; ". */
  function RecoveryReason(reports: seq<SegmentRead>): seq<byte> {
    if reports == [] then RECOVERED
    else if reports[0].reason != [] then RECOVERED + [0x3b, 0x20] + reports[0].reason
    else RecoveryReason(reports[1..])
  }

  ghost const SHORT_REASON: SegmentRead -> bool := (a: SegmentRead) => |a.reason| < TWO_32

  /** The reason a footer gives is as long as its 32-bit size says. */
  lemma ReadReasonIsShort(z: Packer, file: seq<byte>)
    ensures |ReadSegment(z, file).reason| < TWO_32
  {
    match z.header(file)
    case BadHeader(_) =>
    case GoodHeader(_, rest) =>
      forall o: nat, t: seq<byte>, a: SegmentRead | |a.reason| < TWO_32
        ensures |RECORD_READER(z)(o, t, a).read.reason| < TWO_32
      {
        RecordReasonIsShort(z, o, t, a);
      }
      WalkKeeps(RECORD_READER(z), SHORT_REASON, Consumed(file, rest), rest, NOTHING_READ);
  }

  lemma RecordReasonIsShort(z: Packer, offset: nat, s: seq<byte>, acc: SegmentRead)
    requires |acc.reason| < TWO_32
    ensures |ReadRecord(z, offset, s, acc).read.reason| < TWO_32
  {
    if |s| >= 4 && s[..4] != TAG_CHUNK && s[..4] != TAG_INDEX && s[..4] == TAG_FOOTER {
      FooterReasonIsShort(s[4..], acc);
    } else {
      assert ReadRecord(z, offset, s, acc).read.reason == acc.reason;
    }
  }

  lemma FooterReasonIsShort(s: seq<byte>, acc: SegmentRead)
    requires |acc.reason| < TWO_32
    ensures |ReadFooter(s, acc).read.reason| < TWO_32
  {
  }

  lemma {:induction false} RecoveryReasonSize(reports: seq<SegmentRead>)
    requires forall r :: r in reports ==> |r.reason| < TWO_32
    ensures |RecoveryReason(reports)| < TWO_64
  {
    if reports != [] && reports[0].reason == [] {
      RecoveryReasonSize(reports[1..]);
    } else if reports != [] {
      assert reports[0] in reports;
    }
  }

  lemma ReadReasonsAreShort(z: Packer, files: seq<seq<byte>>)
    ensures |RecoveryReason(ReadSegments(z, files))| < TWO_64
  {
    var reports := ReadSegments(z, files);
    forall r | r in reports ensures |r.reason| < TWO_32 {
      var i :| 0 <= i < |files| && r == reports[i];
      ReadReasonIsShort(z, files[i]);
    }
    RecoveryReasonSize(reports);
  }

  function AppendCalls(es: seq<Event>): seq<Call> {
    if es == [] then [] else [AppendCall(es[0])] + AppendCalls(es[1..])
  }

  lemma {:induction false} AppendedByRecovery(es: seq<Event>)
    ensures Appended(AppendCalls(es)) == es
  {
    if es != [] {
      AppendedByRecovery(es[1..]);
      assert AppendCalls(es)[1..] == AppendCalls(es[1..]);
    }
  }

  /** How many events are appended before one is refused. */
  function Taken(k: Setup, enc: Encoder, g: Log, es: seq<Event>): (n: nat)
    ensures n <= |es|
    decreases |es|
  {
    if es == [] || MovesBack(g, es[0]) then 0 else 1 + Taken(k, enc, Append(k, enc, g, es[0]), es[1..])
  }

  /** Append until one event is refused. */
  function AppendAll(k: Setup, enc: Encoder, g: Log, es: seq<Event>): Log
    decreases |es|
  {
    if es == [] || MovesBack(g, es[0]) then g else AppendAll(k, enc, Append(k, enc, g, es[0]), es[1..])
  }

  lemma AppendCallsCons(e: Event, es: seq<Event>)
    ensures AppendCalls([e] + es) == [AppendCall(e)] + AppendCalls(es)
  {
    assert ([e] + es)[1..] == es;
  }

  /** A run that appends `e` first, if it is not refused. */
  lemma AppendFirst(k: Setup, enc: Encoder, g: Log, e: Event, es: seq<Event>)
    requires !MovesBack(g, e)
    ensures Run(k, enc, g, AppendCalls([e] + es)) == Run(k, enc, Append(k, enc, g, e), AppendCalls(es))
    ensures AcceptedBy(k, enc, g, AppendCalls([e] + es))
         == [e] + AcceptedBy(k, enc, Append(k, enc, g, e), AppendCalls(es))
  {
    AppendCallsCons(e, es);
    assert ([AppendCall(e)] + AppendCalls(es))[1..] == AppendCalls(es);
  }

  lemma TakenCons(k: Setup, enc: Encoder, g: Log, es: seq<Event>)
    requires es != [] && !MovesBack(g, es[0])
    ensures var g' := Append(k, enc, g, es[0]);
            && es[..Taken(k, enc, g, es)] == [es[0]] + es[1..][..Taken(k, enc, g', es[1..])]
            && AppendAll(k, enc, g, es) == AppendAll(k, enc, g', es[1..])
  {
  }

  /** The events taken are those of a run that accepts all of them. */
  lemma {:induction false} AppendAllIsRun(k: Setup, enc: Encoder, g: Log, es: seq<Event>)
    ensures var taken := es[..Taken(k, enc, g, es)];
            && AppendAll(k, enc, g, es) == Run(k, enc, g, AppendCalls(taken))
            && AcceptedBy(k, enc, g, AppendCalls(taken)) == taken
    decreases |es|
  {
    if es != [] && !MovesBack(g, es[0]) {
      var g' := Append(k, enc, g, es[0]);
      AppendAllIsRun(k, enc, g', es[1..]);
      TakenCons(k, enc, g, es);
      AppendFirst(k, enc, g, es[0], es[1..][..Taken(k, enc, g', es[1..])]);
    }
  }

  lemma {:induction false} AllTakenIff(k: Setup, enc: Encoder, g: Log, es: seq<Event>)
    ensures AcceptedBy(k, enc, g, AppendCalls(es)) == es <==> Taken(k, enc, g, es) == |es|
    decreases |es|
  {
    if es != [] {
      assert es == [es[0]] + es[1..];
      if MovesBack(g, es[0]) {
        AppendCallsCons(es[0], es[1..]);
        assert AppendCalls(es)[1..] == AppendCalls(es[1..]);
        AcceptedAtMost(k, enc, g, AppendCalls(es[1..]));
        AppendedByRecovery(es[1..]);
      } else {
        AllTakenIff(k, enc, Append(k, enc, g, es[0]), es[1..]);
        AppendFirst(k, enc, g, es[0], es[1..]);
      }
    }
  }

  /** An event is refused only if its sequence is below that of the event before. */
  lemma {:induction false} RefusedMovesBack(k: Setup, enc: Encoder, g: Log, es: seq<Event>)
    ensures var n := Taken(k, enc, g, es);
            n < |es| ==>
              if n > 0 then es[n].recordSequence < es[n - 1].recordSequence else MovesBack(g, es[0])
    decreases |es|
  {
    if es != [] && !MovesBack(g, es[0]) {
      var g' := Append(k, enc, g, es[0]);
      ApplyPending(k, enc, g, AppendCall(es[0]));
      RefusedMovesBack(k, enc, g', es[1..]);
      var n := Taken(k, enc, g', es[1..]);
      if n == 0 && es[1..] != [] && MovesBack(g', es[1]) {
        AppendLeavesLast(k, enc, g, es[0]);
      }
    }
  }

  lemma AppendLeavesLast(k: Setup, enc: Encoder, g: Log, e: Event)
    requires !MovesBack(g, e)
    ensures var p := Append(k, enc, g, e).pending; p == [] || p == g.pending + [e]
  {
  }

  /** How recover ends: it writes nothing if nothing can be read; otherwise it
      leaves a closed log, the writer being closed on destruction too, and has
      succeeded if no event was refused. */
  datatype Recovery = NothingRead | Written(log: Log, ok: bool)

  /** recover, from the reports of the damaged capture. */
  function Recover(k: Setup, enc: Encoder, m: Metadata, reports: seq<SegmentRead>): Recovery
    requires |RecoveryReason(reports)| < TWO_64
  {
    var es := EventsRead(reports);
    if es == [] then NothingRead
    else
      var g := Opened(HeaderBytes(m), DEFAULT_OPTIONS).(complete := false, reason := RecoveryReason(reports));
      Written(Closed(enc, AppendAll(k, enc, g, es)), Taken(k, enc, g, es) == |es|)
  }

  /** recover reads what it can of the damaged files first. */
  function RecoverFiles(k: Setup, enc: Encoder, m: Metadata, files: seq<seq<byte>>): Recovery {
    ReadReasonsAreShort(k.packer, files);
    Recover(k, enc, m, ReadSegments(k.packer, files))
  }

  /** The calls recover makes for these events. */
  function RecoveryCalls(reason: Buffer, es: seq<Event>): seq<Call> {
    [MarkIncomplete(reason)] + AppendCalls(es)
  }

  /** How many events recover writes. */
  function RecoveredCount(k: Setup, enc: Encoder, m: Metadata, reason: Buffer, es: seq<Event>): (n: nat)
    ensures n <= |es|
  {
    Taken(k, enc, Opened(HeaderBytes(m), DEFAULT_OPTIONS).(complete := false, reason := reason), es)
  }

  lemma {:induction false} AllReadIsWellFormed(c: Compressor, reports: seq<SegmentRead>, files: seq<seq<byte>>)
    requires |reports| == |files|
    requires forall i :: 0 <= i < |files| ==> reports[i] == ReadSegment(CapturePacker(c), files[i])
    ensures AllWellFormed(EventsRead(reports))
  {
    if reports != [] {
      AllReadIsWellFormed(c, reports[..|reports| - 1], files[..|files| - 1]);
      ReadIsWellFormed(c, files[|files| - 1]);
    }
  }

  lemma MarkedRun(k: Setup, enc: Encoder, g: Log, reason: Buffer, es: seq<Event>)
    ensures var calls, g' := RecoveryCalls(reason, es), g.(complete := false, reason := reason);
            && Appended(calls) == es && !NeverMarked(calls)
            && Run(k, enc, g, calls) == Run(k, enc, g', AppendCalls(es))
            && AcceptedBy(k, enc, g, calls) == AcceptedBy(k, enc, g', AppendCalls(es))
  {
    var calls := RecoveryCalls(reason, es);
    assert calls[0] == MarkIncomplete(reason) && calls[1..] == AppendCalls(es) && calls[0] in calls;
    AppendedByRecovery(es);
    assert Appended(calls) == [] + es;
    var g' := Apply(k, enc, g, calls[0]);
    assert AcceptedBy(k, enc, g, calls) == [] + AcceptedBy(k, enc, g', AppendCalls(es));
  }

  /** recover makes the calls of an ordinary run that starts by marking. */
  lemma RecoveryIsRun(k: Setup, enc: Encoder, m: Metadata, reports: seq<SegmentRead>)
    requires |RecoveryReason(reports)| < TWO_64 && EventsRead(reports) != []
    ensures var g0, es, reason := Opened(HeaderBytes(m), DEFAULT_OPTIONS), EventsRead(reports), RecoveryReason(reports);
            var taken := es[..RecoveredCount(k, enc, m, reason, es)];
            && Recover(k, enc, m, reports).Written?
            && Recover(k, enc, m, reports).log == Closed(enc, Run(k, enc, g0, RecoveryCalls(reason, taken)))
            && AcceptedBy(k, enc, g0, RecoveryCalls(reason, taken)) == taken
            && (Recover(k, enc, m, reports).ok <==> taken == es)
            && (taken == es <==> AcceptedBy(k, enc, g0, RecoveryCalls(reason, es)) == es)
  {
    var g0, es, reason := Opened(HeaderBytes(m), DEFAULT_OPTIONS), EventsRead(reports), RecoveryReason(reports);
    var n := RecoveredCount(k, enc, m, reason, es);
    AppendAllIsRun(k, enc, g0.(complete := false, reason := reason), es);
    AllTakenIff(k, enc, g0.(complete := false, reason := reason), es);
    MarkedRun(k, enc, g0, reason, es[..n]);
    MarkedRun(k, enc, g0, reason, es);
    assert |es[..n]| == n && (n == |es| ==> es[..n] == es);
  }

  /** Recovery is faithful, from any files at all. If anything can be read, recover
      leaves a capture that reads back to exactly the first events that could be
      read and never verifies as ok: all of them, if it succeeds. It succeeds if
      and only if a run with its own limits accepts all events, which it does if
      their record sequences never decrease; otherwise the first event left out
      has a sequence below that of its predecessor. */
  lemma RecoverIsFaithful(k: Setup, c: Compressor, m: Metadata, files: seq<seq<byte>>)
    requires k.packer == CapturePacker(c) && Lossless(c) && |MetadataBytes(m)| <= MAX_METADATA
    ensures var reports, enc := ReadSegments(k.packer, files), RECORD_ENCODER(k.packer);
            var es, recovery := EventsRead(reports), RecoverFiles(k, enc, m, files);
            && (recovery.Written? <==> es != [])
            && (recovery.Written? ==>
                  && |RecoveryReason(reports)| < TWO_64
                  && var n := RecoveredCount(k, enc, m, RecoveryReason(reports), es);
                  && (AllSmall(k.packer, recovery.log.closed) ==>
                        ReadsBack(ReadSegments(k.packer, Files(k.packer, recovery.log)), es[..n], false))
                  && (recovery.ok <==> n == |es|)
                  && (recovery.ok <==> AcceptedBy(k, enc, Opened(HeaderBytes(m), DEFAULT_OPTIONS),
                                                  RecoveryCalls(RecoveryReason(reports), es)) == es)
                  && (Ordered(es) ==> recovery.ok)
                  && (n < |es| ==> n > 0 && es[n].recordSequence < es[n - 1].recordSequence))
  {
    var reports, enc := ReadSegments(k.packer, files), RECORD_ENCODER(k.packer);
    ReadReasonsAreShort(k.packer, files);
    var es, reason := EventsRead(reports), RecoveryReason(reports);
    if es != [] {
      RecoveryIsRun(k, enc, m, reports);
      RecoveryReadsBack(k, c, m, files);
      RecoveryRefuses(k, enc, m, reason, es);
    }
  }

  lemma RecoveryReadsBack(k: Setup, c: Compressor, m: Metadata, files: seq<seq<byte>>)
    requires k.packer == CapturePacker(c) && Lossless(c) && |MetadataBytes(m)| <= MAX_METADATA
    requires EventsRead(ReadSegments(k.packer, files)) != []
    ensures var reports, enc := ReadSegments(k.packer, files), RECORD_ENCODER(k.packer);
            var recovery := RecoverFiles(k, enc, m, files);
            && |RecoveryReason(reports)| < TWO_64 && recovery.Written?
            && var n := RecoveredCount(k, enc, m, RecoveryReason(reports), EventsRead(reports));
            AllSmall(k.packer, recovery.log.closed) ==>
              ReadsBack(ReadSegments(k.packer, Files(k.packer, recovery.log)), EventsRead(reports)[..n], false)
  {
    var reports, enc := ReadSegments(k.packer, files), RECORD_ENCODER(k.packer);
    ReadReasonsAreShort(k.packer, files);
    var es, reason := EventsRead(reports), RecoveryReason(reports);
    var taken := es[..RecoveredCount(k, enc, m, reason, es)];
    var calls := RecoveryCalls(reason, taken);
    RecoveryIsRun(k, enc, m, reports);
    MarkedRun(k, enc, Opened(HeaderBytes(m), DEFAULT_OPTIONS), reason, taken);
    AllReadIsWellFormed(c, reports, files);
    assert AllWellFormed(taken);
    if AllSmall(k.packer, RecoverFiles(k, enc, m, files).log.closed) {
      WholeRunRoundTrip(k, c, m, DEFAULT_OPTIONS, calls);
    }
  }

  lemma RecoveryRefuses(k: Setup, enc: Encoder, m: Metadata, reason: Buffer, es: seq<Event>)
    ensures var n := RecoveredCount(k, enc, m, reason, es);
            && (Ordered(es) ==> n == |es|)
            && (n < |es| ==> n > 0 && es[n].recordSequence < es[n - 1].recordSequence)
  {
    var g := Opened(HeaderBytes(m), DEFAULT_OPTIONS).(complete := false, reason := reason);
    RefusedMovesBack(k, enc, g, es);
  }

  // ------------------------------------------------ a clean capture refused

  /** With one event a chunk, nothing is ever pending and nothing refused. */
  lemma {:induction false} OneEachAcceptsAll(k: Setup, enc: Encoder, g: Log, es: seq<Event>)
    requires Steady(enc, g) && g.options.eventsPerChunk == 1
    ensures AcceptedBy(k, enc, g, AppendCalls(es)) == es
    decreases |es|
  {
    if es != [] {
      var g' := Append(k, enc, g, es[0]);
      ApplyKeeps(k, enc, g, AppendCall(es[0]));
      AppendKeepsOptions(k, enc, g, es[0]);
      OneEachAcceptsAll(k, enc, g', es[1..]);
      assert es == [es[0]] + es[1..];
      AppendFirst(k, enc, g, es[0], es[1..]);
    }
  }

  lemma AppendKeepsOptions(k: Setup, enc: Encoder, g: Log, e: Event)
    ensures Append(k, enc, g, e).options == g.options
  {
  }

  lemma {:induction false} AppendsNeverMark(es: seq<Event>)
    ensures NeverMarked(AppendCalls(es)) && |AppendCalls(es)| == |es|
  {
    if es != [] {
      AppendsNeverMark(es[1..]);
    }
  }

  /** The files of a run that appends these events. */
  function FilesOf(k: Setup, m: Metadata, o: Options, es: seq<Event>): seq<seq<byte>> {
    Files(k.packer, RunToClose(k, m, o, AppendCalls(es)))
  }

  lemma OneEachReadsBack(k: Setup, c: Compressor, m: Metadata, o: Options, es: seq<Event>)
    requires k.packer == CapturePacker(c) && Lossless(c) && |MetadataBytes(m)| <= MAX_METADATA
    requires Positive(o) && o.eventsPerChunk == 1
    requires AllWellFormed(es) && |es| < TWO_32 && ChunksFit(k.packer, 1, es)
    ensures ReadsBack(ReadSegments(k.packer, FilesOf(k, m, o, es)), es, true)
  {
    OpenedIsSteady(RECORD_ENCODER(k.packer), HeaderBytes(m), o);
    OneEachAcceptsAll(k, RECORD_ENCODER(k.packer), Opened(HeaderBytes(m), o), es);
    AppendedByRecovery(es);
    AppendsNeverMark(es);
    FittingRunRoundTrip(k, c, m, o, AppendCalls(es));
  }

  /** The second event steps back, and the first does not fill a chunk. */
  predicate StepsBack(k: Setup, es: seq<Event>) {
    && |es| >= 2 && es[1].recordSequence < es[0].recordSequence
    && k.estimate(es[0]) < DEFAULT_OPTIONS.bytesPerChunk
  }

  lemma StepBackIsRefused(k: Setup, enc: Encoder, m: Metadata, reason: Buffer, es: seq<Event>)
    requires StepsBack(k, es)
    ensures RecoveredCount(k, enc, m, reason, es) == 1
  {
    var g := Opened(HeaderBytes(m), DEFAULT_OPTIONS).(complete := false, reason := reason);
    var g' := Append(k, enc, g, es[0]);
    assert g'.pending == [es[0]] && MovesBack(g', es[1..][0]);
    assert Taken(k, enc, g', es[1..]) == 0;
  }

  /** A capture written with one event a chunk may step back from chunk to chunk.
      It verifies and reads back whole, and yet recover, whose chunks are larger,
      refuses its second event. */
  lemma CleanCaptureIsRefused(k: Setup, c: Compressor, m: Metadata, o: Options, es: seq<Event>)
    requires k.packer == CapturePacker(c) && Lossless(c) && |MetadataBytes(m)| <= MAX_METADATA
    requires Positive(o) && o.eventsPerChunk == 1 && StepsBack(k, es)
    requires AllWellFormed(es) && |es| < TWO_32 && ChunksFit(k.packer, 1, es)
    ensures var files := FilesOf(k, m, o, es);
            var recovery := RecoverFiles(k, RECORD_ENCODER(k.packer), m, files);
            ReadsBack(ReadSegments(k.packer, files), es, true) && recovery.Written? && !recovery.ok
  {
    var files := FilesOf(k, m, o, es);
    OneEachReadsBack(k, c, m, o, es);
    ReadReasonsAreShort(k.packer, files);
    StepBackIsRefused(k, RECORD_ENCODER(k.packer), m, RecoveryReason(ReadSegments(k.packer, files)), es);
  }

  /** A compressor that stores, an estimate, and an event without fields. */
  const STORE: Compressor := Compressor((x: seq<byte>) => x, (x: seq<byte>) => Some(x), (x: seq<byte>) => 0)
  const STORING: Setup := Setup(CapturePacker(STORE), (e: Event) => 1)
  const ONE_EACH: Options := Options(1, 1, 0, 1, 1)

  function Plain(n: u64): Event {
    Event(0, n, 0, 0, 0, 0, 0, 0, 0, 0, 0, 0, [], [])
  }

  lemma {:induction false} ShortVarints(ns: seq<u64>)
    requires forall n :: n in ns ==> n < 0x80
    ensures |Concat(U64Varint, ns)| == |ns|
  {
    if ns != [] {
      assert ns[0] in ns && forall n :: n in ns[1..] ==> n in ns;
      ShortVarints(ns[1..]);
    }
  }

  lemma PlainIsShort(n: u64)
    requires n < 0x80
    ensures Small(STORING.packer, ChunkRecord(0, [Plain(n)]))
  {
    var e := Plain(n);
    ShortVarints(SequenceNumbers(0, e));
    assert |PlaceBytes(e)| == 22;
    assert |BodyBytes(map[], e)| == 2;
    var advanced := Advance(FRESH, e);
    assert [e][1..] == [] && EncodeEvents(advanced, []) == [];
    assert |EncodeEvents(FRESH, [e])| == 31;
  }

  const STEPPING: seq<Event> := [Plain(2), Plain(1)]

  lemma PlainChunksFit()
    ensures ChunksFit(STORING.packer, 1, STEPPING)
  {
    forall es: seq<Event> | 1 <= |es| <= 1 && forall e :: e in es ==> e in STEPPING
      ensures Small(STORING.packer, ChunkRecord(0, es))
    {
      assert es[0] in es && es == [es[0]];
      PlainIsShort(es[0].recordSequence);
    }
  }

  /** Such a capture does exist. */
  lemma RefusedCaptureExists(m: Metadata)
    requires |MetadataBytes(m)| <= MAX_METADATA
    ensures var files := FilesOf(STORING, m, ONE_EACH, STEPPING);
            var recovery := RecoverFiles(STORING, RECORD_ENCODER(STORING.packer), m, files);
            ReadsBack(ReadSegments(STORING.packer, files), STEPPING, true) && recovery.Written? && !recovery.ok
  {
    PlainChunksFit();
    CleanCaptureIsRefused(STORING, STORE, m, ONE_EACH, STEPPING);
  }
}
