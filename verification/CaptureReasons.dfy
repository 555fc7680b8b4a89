/** Why a capture is incomplete: which mark each file of a run tells, and what a
    recovered capture says of itself. */
module CaptureReasons {
  import opened Words
  import opened Bytes
  import opened StructuredFields
  import opened EventCodec
  import opened Framing
  import opened CaptureSegment
  import opened SegmentRoundTrip
  import opened WriterLog
  import opened CaptureReader
  import opened CaptureDamage
  import opened CaptureRecovery

  /** The reason of the last mark among these calls. */
  function LastReason(calls: seq<Call>): Buffer {
    if calls == [] then []
    else match calls[|calls| - 1]
      case MarkIncomplete(reason) => reason
      case AppendCall(_) => LastReason(calls[..|calls| - 1])
  }

  function SegmentsAfter(k: Setup, enc: Encoder, g: Log, calls: seq<Call>, j: int): nat
    requires 0 <= j <= |calls|
  {
    |Run(k, enc, g, calls[..j]).closed|
  }

  /** The `j`-th call is the one that closes segment `i`. */
  ghost predicate ClosesAt(k: Setup, enc: Encoder, g: Log, calls: seq<Call>, i: int, j: int) {
    0 < j <= |calls| && SegmentsAfter(k, enc, g, calls, j - 1) <= i < SegmentsAfter(k, enc, g, calls, j)
  }

  lemma FlushTells(enc: Encoder, g: Log)
    ensures var g' := Flush(enc, g);
            && g'.reason == g.reason
            && (g'.closed == g.closed || (|g'.closed| == |g.closed| + 1 && g'.closed[..|g.closed|] == g.closed
                  && g'.closed[|g.closed|].footer.FooterRecord? && g'.closed[|g.closed|].footer.reason == g.reason))
  {
  }

  lemma CallTells(k: Setup, enc: Encoder, g: Log, call: Call)
    ensures var g' := Apply(k, enc, g, call);
            && g'.reason == (if call.MarkIncomplete? then call.reason else g.reason)
            && (g'.closed == g.closed || (|g'.closed| == |g.closed| + 1 && g'.closed[..|g.closed|] == g.closed
                  && g'.closed[|g.closed|].footer.FooterRecord? && g'.closed[|g.closed|].footer.reason == g'.reason))
  {
    if call.AppendCall? && !MovesBack(g, call.event) {
      FlushTells(enc, Buffer1(k, g, call.event));
    }
  }

  lemma {:induction false} RunSnoc(k: Setup, enc: Encoder, g: Log, calls: seq<Call>, call: Call)
    ensures Run(k, enc, g, calls + [call]) == Apply(k, enc, Run(k, enc, g, calls), call)
  {
    RunSplit(k, enc, g, calls + [call], |calls|);
    assert (calls + [call])[..|calls|] == calls && (calls + [call])[|calls|..] == [call];
    assert Run(k, enc, Apply(k, enc, Run(k, enc, g, calls), call), []) == Apply(k, enc, Run(k, enc, g, calls), call);
  }

  /** What segment `i` tells is the last mark made when it was closed. */
  ghost predicate Tells(k: Setup, enc: Encoder, g: Log, calls: seq<Call>, i: int, footer: Record) {
    footer.FooterRecord? &&
    exists j :: ClosesAt(k, enc, g, calls, i, j) && footer.reason == LastReason(calls[..j])
  }

  lemma TellsStill(k: Setup, enc: Encoder, g: Log, calls: seq<Call>, call: Call, i: int, footer: Record)
    requires Tells(k, enc, g, calls, i, footer)
    ensures Tells(k, enc, g, calls + [call], i, footer)
  {
    var j :| ClosesAt(k, enc, g, calls, i, j) && footer.reason == LastReason(calls[..j]);
    assert (calls + [call])[..j] == calls[..j] && (calls + [call])[..j - 1] == calls[..j - 1];
    assert ClosesAt(k, enc, g, calls + [call], i, j);
  }

  lemma TellsNow(k: Setup, enc: Encoder, g: Log, calls: seq<Call>, call: Call)
    requires Run(k, enc, g, calls).reason == LastReason(calls)
    ensures var g', g'' := Run(k, enc, g, calls), Run(k, enc, g, calls + [call]);
            && g''.reason == LastReason(calls + [call])
            && (g''.closed == g'.closed || (|g''.closed| == |g'.closed| + 1 && g''.closed[..|g'.closed|] == g'.closed
                  && Tells(k, enc, g, calls + [call], |g'.closed|, g''.closed[|g'.closed|].footer)))
  {
    var longer, n := calls + [call], |calls|;
    RunSnoc(k, enc, g, calls, call);
    CallTells(k, enc, Run(k, enc, g, calls), call);
    assert longer[..n] == calls && longer[..n + 1] == longer;
    var g', g'' := Run(k, enc, g, calls), Run(k, enc, g, longer);
    if g''.closed != g'.closed {
      assert ClosesAt(k, enc, g, longer, |g'.closed|, n + 1);
    }
  }

  lemma {:induction false} RunTells(k: Setup, enc: Encoder, g: Log, calls: seq<Call>)
    requires g.closed == [] && g.reason == []
    ensures Run(k, enc, g, calls).reason == LastReason(calls)
    ensures var closed := Run(k, enc, g, calls).closed;
            forall i :: 0 <= i < |closed| ==> Tells(k, enc, g, calls, i, closed[i].footer)
  {
    if calls != [] {
      var n := |calls| - 1;
      assert calls == calls[..n] + [calls[n]];
      RunTells(k, enc, g, calls[..n]);
      TellsNow(k, enc, g, calls[..n], calls[n]);
      var before, closed := Run(k, enc, g, calls[..n]).closed, Run(k, enc, g, calls).closed;
      forall i | 0 <= i < |closed| ensures Tells(k, enc, g, calls, i, closed[i].footer) {
        if i < |before| {
          assert closed[i] == closed[..|before|][i];
          TellsStill(k, enc, g, calls[..n], calls[n], i, before[i].footer);
        }
      }
    }
  }

  /** A segment closed by an append tells the last mark before it; what close itself
      closes tells the last mark of the run. */
  lemma SegmentsTellLastMark(k: Setup, enc: Encoder, header: seq<byte>, o: Options, calls: seq<Call>)
    ensures var g0 := Opened(header, o);
            var closed, during := Closed(enc, Run(k, enc, g0, calls)).closed, Run(k, enc, g0, calls).closed;
            && |during| < |closed|
            && forall i :: 0 <= i < |closed| ==>
                 (i < |during| ==> Tells(k, enc, g0, calls, i, closed[i].footer)) &&
                 (i >= |during| ==> closed[i].footer.FooterRecord? && closed[i].footer.reason == LastReason(calls))
  {
    var g0 := Opened(header, o);
    var g := Run(k, enc, g0, calls);
    var f := Flush(enc, g);
    RunTells(k, enc, g0, calls);
    FlushTells(enc, g);
    var closed := Closed(enc, g).closed;
    assert closed[..|f.closed|] == f.closed;
    forall i | 0 <= i < |g.closed| ensures closed[i] == g.closed[i] {
      assert closed[i] == f.closed[i] && f.closed[..|g.closed|][i] == f.closed[i];
    }
  }

  // ------------------------------------------------------------------ reports

  /** The reports on the files of a run carry these reasons. */
  lemma ReportsTellFooters(k: Setup, c: Compressor, header: seq<byte>, o: Options, calls: seq<Call>, i: nat)
    requires Readable(k, c, header, o, calls) && i < |RunFrom(k, header, o, calls).closed|
    ensures var closed := RunFrom(k, header, o, calls).closed;
            closed[i].footer.FooterRecord?
            && ReadSegment(k.packer, RunFiles(k, header, o, calls)[i]).reason == closed[i].footer.reason
  {
    var d := RunFrom(k, header, o, calls);
    RunCloses(k, RECORD_ENCODER(k.packer), header, o, calls);
    WellFormedChunksSurvive(c, d.closed);
    ReadClosedLog(k.packer, RECORD_ENCODER(k.packer), d);
    assert d.closed[i] in d.closed;
  }

  // ----------------------------------------------------------------- recovery

  /** The first reason that is not empty. */
  ghost predicate FirstReason(reports: seq<SegmentRead>, i: int) {
    0 <= i < |reports| && reports[i].reason != [] && forall j :: 0 <= j < i ==> reports[j].reason == []
  }

  function Because(reason: seq<byte>): seq<byte> {
    RECOVERED + [0x3b, 0x20] + reason
  }

  lemma {:induction false} RecoveryReasonIs(reports: seq<SegmentRead>)
    ensures forall i :: FirstReason(reports, i) ==> RecoveryReason(reports) == Because(reports[i].reason)
    ensures (forall r :: r in reports ==> r.reason == []) ==> RecoveryReason(reports) == RECOVERED
  {
    if reports != [] {
      RecoveryReasonIs(reports[1..]);
      forall i | FirstReason(reports, i)
        ensures RecoveryReason(reports) == Because(reports[i].reason)
      {
        if i > 0 {
          assert FirstReason(reports[1..], i - 1);
        }
      }
    }
  }

  lemma {:induction false} AppendsTellNothing(reason: Buffer, es: seq<Event>)
    ensures LastReason(RecoveryCalls(reason, es)) == reason
    decreases |es|
  {
    var calls := RecoveryCalls(reason, es);
    if es == [] {
      assert calls == [MarkIncomplete(reason)];
    } else {
      var n := |es| - 1;
      AppendsTellNothing(reason, es[..n]);
      AppendCallsSnoc(es[..n], es[n]);
      assert es[..n] + [es[n]] == es;
      assert calls == RecoveryCalls(reason, es[..n]) + [AppendCall(es[n])];
      assert calls[..|calls| - 1] == RecoveryCalls(reason, es[..n]);
    }
  }

  lemma {:induction false} AppendCallsSnoc(es: seq<Event>, e: Event)
    ensures AppendCalls(es + [e]) == AppendCalls(es) + [AppendCall(e)]
  {
    if es == [] {
      assert es + [e] == [e] && [e][1..] == [];
    } else {
      assert (es + [e])[1..] == es[1..] + [e];
      AppendCallsSnoc(es[1..], e);
    }
  }

  /** The first calls of a recovery are those of a shorter one. */
  lemma {:induction false} RecoveryCallsTake(reason: Buffer, es: seq<Event>, j: nat)
    requires 0 < j <= |RecoveryCalls(reason, es)|
    ensures j - 1 <= |es| && RecoveryCalls(reason, es)[..j] == RecoveryCalls(reason, es[..j - 1])
    decreases |es|
  {
    AppendsNeverMark(es);
    if j == |es| + 1 {
      assert es[..j - 1] == es && RecoveryCalls(reason, es)[..j] == RecoveryCalls(reason, es);
    } else {
      var n := |es| - 1;
      AppendCallsSnoc(es[..n], es[n]);
      assert es[..n] + [es[n]] == es;
      AppendsNeverMark(es[..n]);
      RecoveryCallsTake(reason, es[..n], j);
      assert es[..n][..j - 1] == es[..j - 1];
      assert RecoveryCalls(reason, es) == RecoveryCalls(reason, es[..n]) + [AppendCall(es[n])];
    }
  }

  ghost predicate AllTell(cs: seq<ClosedSegment>, reason: Buffer) {
    forall s :: s in cs ==> s.footer.FooterRecord? && s.footer.reason == reason
  }

  lemma EachTells(cs: seq<ClosedSegment>, reason: Buffer)
    requires forall i :: 0 <= i < |cs| ==> cs[i].footer.FooterRecord? && cs[i].footer.reason == reason
    ensures AllTell(cs, reason)
  {
  }

  /** Every segment of a recovery tells the reason it was given. */
  lemma RecoveryTells(k: Setup, enc: Encoder, header: seq<byte>, o: Options, reason: Buffer, es: seq<Event>)
    ensures AllTell(Closed(enc, Run(k, enc, Opened(header, o), RecoveryCalls(reason, es))).closed, reason)
  {
    var calls, g0 := RecoveryCalls(reason, es), Opened(header, o);
    SegmentsTellLastMark(k, enc, header, o, calls);
    AppendsTellNothing(reason, es);
    var closed, during := Closed(enc, Run(k, enc, g0, calls)).closed, Run(k, enc, g0, calls).closed;
    forall i | 0 <= i < |during| ensures closed[i].footer.FooterRecord? && closed[i].footer.reason == reason {
      assert Tells(k, enc, g0, calls, i, closed[i].footer);
      var j :| ClosesAt(k, enc, g0, calls, i, j) && closed[i].footer.reason == LastReason(calls[..j]);
      RecoveryCallsTake(reason, es, j);
      AppendsTellNothing(reason, es[..j - 1]);
    }
    EachTells(closed, reason);
  }

  /** Every file of a recovered capture reads back with the reason "recovered
      capture", and "; " and the first reason the damaged files gave, if any did. */
  lemma RecoveredCaptureSaysWhy(k: Setup, c: Compressor, m: Metadata, files: seq<seq<byte>>)
    requires k.packer == CapturePacker(c) && Lossless(c) && |MetadataBytes(m)| <= MAX_METADATA
    ensures var reports, recovery := ReadSegments(k.packer, files), RecoverFiles(k, RECORD_ENCODER(k.packer), m, files);
            recovery.Written? && AllSmall(k.packer, recovery.log.closed) ==>
              var again := ReadSegments(k.packer, Files(k.packer, recovery.log));
              forall i :: 0 <= i < |again| ==>
                ((exists n :: FirstReason(reports, n)) ==>
                   exists n :: FirstReason(reports, n) && again[i].reason == Because(reports[n].reason))
                && ((forall r :: r in reports ==> r.reason == []) ==> again[i].reason == RECOVERED)
  {
    var reports, enc := ReadSegments(k.packer, files), RECORD_ENCODER(k.packer);
    var recovery := RecoverFiles(k, enc, m, files);
    RecoveryReasonIs(reports);
    if recovery.Written? && AllSmall(k.packer, recovery.log.closed) {
      RecoveredReports(k, c, m, files);
    }
  }

  /** The calls that a recovery comes down to. */
  ghost function CallsOf(k: Setup, m: Metadata, files: seq<seq<byte>>): seq<Call> {
    var reports := ReadSegments(k.packer, files);
    ReadReasonsAreShort(k.packer, files);
    var es, reason := EventsRead(reports), RecoveryReason(reports);
    RecoveryCalls(reason, es[..RecoveredCount(k, RECORD_ENCODER(k.packer), m, reason, es)])
  }

  lemma RecoveryIsTheseCalls(k: Setup, c: Compressor, m: Metadata, files: seq<seq<byte>>)
    requires k.packer == CapturePacker(c)
    requires RecoverFiles(k, RECORD_ENCODER(k.packer), m, files).Written?
    ensures RecoverFiles(k, RECORD_ENCODER(k.packer), m, files).log
         == RunFrom(k, HeaderBytes(m), DEFAULT_OPTIONS, CallsOf(k, m, files))
    ensures AllWellFormed(Appended(CallsOf(k, m, files)))
  {
    var reports, enc := ReadSegments(k.packer, files), RECORD_ENCODER(k.packer);
    ReadReasonsAreShort(k.packer, files);
    var es, reason := EventsRead(reports), RecoveryReason(reports);
    RecoveryIsRun(k, enc, m, reports);
    MarkedRun(k, enc, Opened(HeaderBytes(m), DEFAULT_OPTIONS), reason, es[..RecoveredCount(k, enc, m, reason, es)]);
    AllReadIsWellFormed(c, reports, files);
  }

  lemma RunReportsTell(k: Setup, c: Compressor, header: seq<byte>, o: Options, calls: seq<Call>, reason: Buffer)
    requires Readable(k, c, header, o, calls)
    requires AllTell(RunFrom(k, header, o, calls).closed, reason)
    ensures var again := ReadSegments(k.packer, Files(k.packer, RunFrom(k, header, o, calls)));
            forall i :: 0 <= i < |again| ==> again[i].reason == reason
  {
    var d := RunFrom(k, header, o, calls);
    forall i: nat | i < |d.closed| ensures ReadSegment(k.packer, Files(k.packer, d)[i]).reason == reason {
      ReportsTellFooters(k, c, header, o, calls, i);
      assert d.closed[i] in d.closed;
    }
  }

  lemma RecoveredReports(k: Setup, c: Compressor, m: Metadata, files: seq<seq<byte>>)
    requires k.packer == CapturePacker(c) && Lossless(c) && |MetadataBytes(m)| <= MAX_METADATA
    requires var recovery := RecoverFiles(k, RECORD_ENCODER(k.packer), m, files);
             recovery.Written? && AllSmall(k.packer, recovery.log.closed)
    ensures var recovery := RecoverFiles(k, RECORD_ENCODER(k.packer), m, files);
            var again := ReadSegments(k.packer, Files(k.packer, recovery.log));
            forall i :: 0 <= i < |again| ==> again[i].reason == RecoveryReason(ReadSegments(k.packer, files))
  {
    var reports, enc := ReadSegments(k.packer, files), RECORD_ENCODER(k.packer);
    RecoveryIsTheseCalls(k, c, m, files);
    RecoverySegmentsTell(k, m, files);
    RunIsReadable(k, c, m, DEFAULT_OPTIONS, CallsOf(k, m, files));
    RunReportsTell(k, c, HeaderBytes(m), DEFAULT_OPTIONS, CallsOf(k, m, files), RecoveryReason(reports));
  }

  lemma RecoverySegmentsTell(k: Setup, m: Metadata, files: seq<seq<byte>>)
    ensures AllTell(RunFrom(k, HeaderBytes(m), DEFAULT_OPTIONS, CallsOf(k, m, files)).closed,
                    RecoveryReason(ReadSegments(k.packer, files)))
  {
    var es := CallsAre(k, m, files);
    RecoveryTells(k, RECORD_ENCODER(k.packer), HeaderBytes(m), DEFAULT_OPTIONS,
                  RecoveryReason(ReadSegments(k.packer, files)), es);
  }

  lemma CallsAre(k: Setup, m: Metadata, files: seq<seq<byte>>) returns (es: seq<Event>)
    ensures |RecoveryReason(ReadSegments(k.packer, files))| < TWO_64
    ensures CallsOf(k, m, files) == RecoveryCalls(RecoveryReason(ReadSegments(k.packer, files)), es)
  {
    var reports := ReadSegments(k.packer, files);
    ReadReasonsAreShort(k.packer, files);
    var all := EventsRead(reports);
    es := all[..RecoveredCount(k, RECORD_ENCODER(k.packer), m, RecoveryReason(reports), all)];
  }
}
