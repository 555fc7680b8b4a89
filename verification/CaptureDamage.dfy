/** What verify and the reader see of a capture that has lost bytes or files. */
module CaptureDamage {
  import opened Words
  import opened Bytes
  import opened StructuredFields
  import opened EventCodec
  import opened Framing
  import opened CaptureSegment
  import opened SegmentRoundTrip
  import opened SegmentFaults
  import opened WriterLog
  import opened CaptureReader

  /** The records of a run, as the cut theorems need them. */
  lemma RunFits(k: Setup, c: Compressor, header: seq<byte>, o: Options, calls: seq<Call>, s: ClosedSegment)
    requires k.packer == CapturePacker(c) && Positive(o) && AllWellFormed(Appended(calls))
    requires AllSmall(k.packer, RunFrom(k, header, o, calls).closed) && s in RunFrom(k, header, o, calls).closed
    ensures AllFit(k.packer, s.records) && NoFooter(s.records) && s.footer.FooterRecord? && Fits(k.packer, s.footer)
    ensures RunFrom(k, header, o, calls).header == header
  {
    var g := RunFrom(k, header, o, calls);
    RunCloses(k, RECORD_ENCODER(k.packer), header, o, calls);
    WellFormedChunksSurvive(c, g.closed);
    ClosedIsWellClosed(RECORD_ENCODER(k.packer), g, s);
    forall r | r in s.records ensures Fits(k.packer, r) {
      assert r.ChunkRecord? ==> Survives(k.packer, r.events);
    }
  }

  /** A file left by any run, cut anywhere behind its file header, yields exactly
      the events of the `n` records that lie wholly before the cut. The loss
      always shows in the missing footer; it is an error too, unless less than a
      tag is left of the next record or that is an index of which the tag and
      the count are left. */
  lemma DamagedRunYieldsPrefix(
      k: Setup, c: Compressor, header: seq<byte>, o: Options, calls: seq<Call>, i: nat, cut: nat)
    requires k.packer == CapturePacker(c) && Lossless(c) && Positive(o) && Skipped(k.packer, header)
    requires AllWellFormed(Appended(calls)) && AllSmall(k.packer, RunFrom(k, header, o, calls).closed)
    requires var g := RunFrom(k, header, o, calls);
             i < |g.closed| && |header| <= cut <= |Files(k.packer, g)[i]|
    ensures var s, file := RunFrom(k, header, o, calls).closed[i], Files(k.packer, RunFrom(k, header, o, calls))[i];
            var n := WholeRecords(RECORD_ENCODER(k.packer), s.records, cut - |header|);
            var read := ReadSegment(k.packer, file[..cut]);
            var over := cut - |header| - |RecordsBytes(k.packer, s.records[..n])|;
            && read.events == EventsOf(s.records[..n])
            && (read.hasFooter <==> cut == |file|)
            && (cut < |file| ==>
                  (read.errors == [] <==> over < 4 || (n < |s.records| && s.records[n].IndexRecord? && over >= 8)))
  {
    var s := RunFrom(k, header, o, calls).closed[i];
    RunFits(k, c, header, o, calls, s);
    TruncationYieldsPrefix(k.packer, header, s.records, s.footer, cut);
  }

  // ------------------------------------------------------------ marked runs

  /** How many calls come before the first mark. */
  function FirstMark(calls: seq<Call>): (n: nat)
    ensures n <= |calls| && (n == |calls| <==> NeverMarked(calls))
    ensures n < |calls| ==> calls[n].MarkIncomplete?
    ensures NeverMarked(calls[..n])
  {
    if calls == [] then 0
    else if calls[0].MarkIncomplete? then
      assert calls[0] in calls;
      0
    else
      var n := FirstMark(calls[1..]);
      assert forall c :: c in calls <==> c == calls[0] || c in calls[1..];
      assert calls[..n + 1] == [calls[0]] + calls[1..][..n];
      n + 1
  }

  lemma {:induction false} RunSplit(k: Setup, enc: Encoder, g: Log, calls: seq<Call>, j: nat)
    requires j <= |calls|
    ensures Run(k, enc, g, calls) == Run(k, enc, Run(k, enc, g, calls[..j]), calls[j..])
    decreases j
  {
    if j == 0 {
      assert calls[..0] == [] && calls[0..] == calls;
    } else {
      RunSplit(k, enc, Apply(k, enc, g, calls[0]), calls[1..], j - 1);
      assert calls[..j][0] == calls[0] && calls[..j][1..] == calls[1..][..j - 1];
      assert calls[1..][j - 1..] == calls[j..];
    }
  }

  /** A log that has been marked after its first `n` segments were closed. */
  ghost predicate Flagged(g: Log, n: nat) {
    && !g.complete && n <= |g.closed|
    && forall i :: 0 <= i < |g.closed| ==>
         g.closed[i].footer.FooterRecord? && (g.closed[i].footer.complete <==> i < n)
  }

  lemma FlushStaysFlagged(enc: Encoder, g: Log, n: nat)
    requires Flagged(g, n)
    ensures Flagged(CloseSegment(enc, g), n) && Flagged(Flush(enc, g), n)
  {
    if g.pending != [] {
      var g' := WriteChunk(enc, g);
      assert Flagged(g', n) && Flagged(CloseSegment(enc, g'), n);
      assert Flush(enc, g) == g' || Flush(enc, g) == CloseSegment(enc, g');
    }
  }

  lemma ApplyStaysFlagged(k: Setup, enc: Encoder, g: Log, call: Call, n: nat)
    requires Flagged(g, n)
    ensures Flagged(Apply(k, enc, g, call), n)
  {
    if call.AppendCall? && !MovesBack(g, call.event) {
      FlushStaysFlagged(enc, Buffer1(k, g, call.event), n);
    }
  }

  lemma {:induction false} RunStaysFlagged(k: Setup, enc: Encoder, g: Log, calls: seq<Call>, n: nat)
    requires Flagged(g, n)
    ensures Flagged(Run(k, enc, g, calls), n)
    decreases |calls|
  {
    if calls != [] {
      ApplyStaysFlagged(k, enc, g, calls[0], n);
      RunStaysFlagged(k, enc, Apply(k, enc, g, calls[0]), calls[1..], n);
    }
  }

  /** How many segments of a run are closed before the first mark: all of them,
      if there is none. */
  function UnmarkedSegments(k: Setup, enc: Encoder, header: seq<byte>, o: Options, calls: seq<Call>): nat {
    var g0, j := Opened(header, o), FirstMark(calls);
    if j == |calls| then |Closed(enc, Run(k, enc, g0, calls)).closed| else |Run(k, enc, g0, calls[..j]).closed|
  }

  /** Those are the segments whose footers say complete. */
  lemma UnmarkedAreComplete(k: Setup, enc: Encoder, header: seq<byte>, o: Options, calls: seq<Call>)
    requires Positive(o)
    ensures var closed := Closed(enc, Run(k, enc, Opened(header, o), calls)).closed;
            && UnmarkedSegments(k, enc, header, o, calls) <= |closed|
            && forall i :: 0 <= i < |closed| ==>
                 && closed[i].footer.FooterRecord?
                 && (closed[i].footer.complete <==> i < UnmarkedSegments(k, enc, header, o, calls))
  {
    var g0, j := Opened(header, o), FirstMark(calls);
    if j == |calls| {
      RunCloses(k, enc, header, o, calls);
    } else {
      var g := Run(k, enc, g0, calls[..j]);
      var marked := Apply(k, enc, g, calls[j]);
      OpenedIsSteady(enc, header, o);
      RunKeeps(k, enc, g0, calls[..j]);
      assert Flagged(marked, |g.closed|) by {
        assert forall i :: 0 <= i < |g.closed| ==> g.closed[i] in g.closed;
      }
      RunSplit(k, enc, g0, calls, j);
      assert calls[j..][0] == calls[j] && calls[j..][1..] == calls[j + 1..];
      RunStaysFlagged(k, enc, marked, calls[j + 1..], |g.closed|);
      FlushStaysFlagged(enc, Run(k, enc, g0, calls), |g.closed|);
      FlushStaysFlagged(enc, Flush(enc, Run(k, enc, g0, calls)), |g.closed|);
    }
  }

  // ----------------------------------------------------------------- verify

  /** A run whose files the reader understands. */
  ghost predicate Readable(k: Setup, c: Compressor, header: seq<byte>, o: Options, calls: seq<Call>) {
    && k.packer == CapturePacker(c) && Lossless(c) && Positive(o)
    && Skipped(k.packer, header) && Needed(k.packer, header)
    && AllWellFormed(Appended(calls)) && AllSmall(k.packer, RunFrom(k, header, o, calls).closed)
  }

  /** The runs of the round trip theorem are. */
  lemma RunIsReadable(k: Setup, c: Compressor, m: Metadata, o: Options, calls: seq<Call>)
    requires k.packer == CapturePacker(c) && Lossless(c)
    requires Positive(o) && |MetadataBytes(m)| <= MAX_METADATA
    requires AllWellFormed(Appended(calls)) && AllSmall(k.packer, RunToClose(k, m, o, calls).closed)
    ensures Readable(k, c, HeaderBytes(m), o, calls)
  {
    HeaderIsSkipped(c, m);
    HeaderIsNeeded(c, m);
  }

  ghost function RunFiles(k: Setup, header: seq<byte>, o: Options, calls: seq<Call>): seq<seq<byte>> {
    Files(k.packer, RunFrom(k, header, o, calls))
  }

  /** How many files of a run say that they are complete. */
  ghost function CompleteFiles(k: Setup, header: seq<byte>, o: Options, calls: seq<Call>): nat {
    UnmarkedSegments(k, RECORD_ENCODER(k.packer), header, o, calls)
  }

  predicate SegmentIsOk(r: SegmentRead) {
    r.errors == [] && r.hasFooter && r.complete
  }

  lemma VerifiesOkIff(z: Packer, files: seq<seq<byte>>)
    ensures VerifiesOk(ReadSegments(z, files))
            <==> files != [] && forall i :: 0 <= i < |files| ==> SegmentIsOk(ReadSegment(z, files[i]))
  {
    var reports := ReadSegments(z, files);
    assert forall i :: 0 <= i < |files| ==> reports[i] in reports;
    if files != [] && forall i :: 0 <= i < |files| ==> SegmentIsOk(ReadSegment(z, files[i])) {
      forall r | r in reports ensures SegmentIsOk(r) {
        var i :| 0 <= i < |files| && r == reports[i];
      }
    }
  }

  lemma WholeFileIsOkIff(k: Setup, c: Compressor, header: seq<byte>, o: Options, calls: seq<Call>, i: nat)
    requires Readable(k, c, header, o, calls) && i < |RunFiles(k, header, o, calls)|
    ensures SegmentIsOk(ReadSegment(k.packer, RunFiles(k, header, o, calls)[i]))
            <==> i < CompleteFiles(k, header, o, calls)
  {
    var g, enc := RunFrom(k, header, o, calls), RECORD_ENCODER(k.packer);
    RunCloses(k, enc, header, o, calls);
    WellFormedChunksSurvive(c, g.closed);
    ClosedReadsAreClean(k.packer, enc, g);
    assert IsClean(ReadSegments(k.packer, Files(k.packer, g))[i], g.closed[i], g.complete);
    UnmarkedAreComplete(k, enc, header, o, calls);
  }

  lemma CutFileHasNoFooter(
      k: Setup, c: Compressor, header: seq<byte>, o: Options, calls: seq<Call>, i: nat, cut: nat)
    requires Readable(k, c, header, o, calls)
    requires i < |RunFiles(k, header, o, calls)| && cut < |RunFiles(k, header, o, calls)[i]|
    ensures !ReadSegment(k.packer, RunFiles(k, header, o, calls)[i][..cut]).hasFooter
  {
    var s := RunFrom(k, header, o, calls).closed[i];
    RunFits(k, c, header, o, calls, s);
    CutHasNoFooter(k.packer, header, s.records, s.footer, cut);
  }

  /** What is left of a file is found in order exactly if it is the whole file,
      and the file was closed before the first mark. */
  lemma RemainsAreOkIff(
      k: Setup, c: Compressor, header: seq<byte>, o: Options, calls: seq<Call>, i: nat, left: seq<byte>)
    requires Readable(k, c, header, o, calls)
    requires i < |RunFiles(k, header, o, calls)| && left <= RunFiles(k, header, o, calls)[i]
    ensures SegmentIsOk(ReadSegment(k.packer, left))
            <==> left == RunFiles(k, header, o, calls)[i] && i < CompleteFiles(k, header, o, calls)
  {
    var file := RunFiles(k, header, o, calls)[i];
    if left == file {
      WholeFileIsOkIff(k, c, header, o, calls, i);
    } else {
      assert left == file[..|left|];
      CutFileHasNoFooter(k, c, header, o, calls, i, |left|);
    }
  }

  /** What is left of each file: its first bytes. */
  ghost predicate AreCuts(files: seq<seq<byte>>, cuts: seq<seq<byte>>) {
    |cuts| == |files| && forall i :: 0 <= i < |files| ==> cuts[i] <= files[i]
  }

  /** What verify sees of the first `n` files of a run, cut anywhere, header bytes
      included: they verify exactly if nothing is cut off them and all of them
      were closed before the run was first marked. */
  lemma VerifySeesFirstFiles(
      k: Setup, c: Compressor, header: seq<byte>, o: Options, calls: seq<Call>, n: nat, cuts: seq<seq<byte>>)
    requires Readable(k, c, header, o, calls) && 0 < n <= |RunFiles(k, header, o, calls)|
    requires AreCuts(RunFiles(k, header, o, calls)[..n], cuts)
    ensures VerifiesOk(ReadSegments(k.packer, cuts))
            <==> cuts == RunFiles(k, header, o, calls)[..n] && n <= CompleteFiles(k, header, o, calls)
  {
    var files, m := RunFiles(k, header, o, calls), CompleteFiles(k, header, o, calls);
    VerifiesOkIff(k.packer, cuts);
    forall i | 0 <= i < n ensures SegmentIsOk(ReadSegment(k.packer, cuts[i])) <==> cuts[i] == files[i] && i < m {
      assert cuts[i] <= files[..n][i];
      RemainsAreOkIff(k, c, header, o, calls, i, cuts[i]);
    }
    if VerifiesOk(ReadSegments(k.packer, cuts)) {
      forall i | 0 <= i < n ensures cuts[i] == files[..n][i] && i < m {
        assert SegmentIsOk(ReadSegment(k.packer, cuts[i]));
      }
      assert cuts[n - 1] == files[..n][n - 1];
    }
  }

  lemma AllAreCompleteIff(k: Setup, header: seq<byte>, o: Options, calls: seq<Call>)
    requires Positive(o)
    ensures |RunFiles(k, header, o, calls)| > 0
    ensures |RunFiles(k, header, o, calls)| <= CompleteFiles(k, header, o, calls) <==> NeverMarked(calls)
  {
    var enc := RECORD_ENCODER(k.packer);
    RunCloses(k, enc, header, o, calls);
    UnmarkedAreComplete(k, enc, header, o, calls);
  }

  /** verify sees every truncation: with all files there, they verify exactly if
      nothing is cut off and the run was never marked. */
  lemma VerifySeesTruncation(
      k: Setup, c: Compressor, header: seq<byte>, o: Options, calls: seq<Call>, cuts: seq<seq<byte>>)
    requires Readable(k, c, header, o, calls) && AreCuts(RunFiles(k, header, o, calls), cuts)
    ensures VerifiesOk(ReadSegments(k.packer, cuts)) <==> cuts == RunFiles(k, header, o, calls) && NeverMarked(calls)
  {
    var files := RunFiles(k, header, o, calls);
    AllAreCompleteIff(k, header, o, calls);
    assert files[..|files|] == files;
    VerifySeesFirstFiles(k, c, header, o, calls, |files|, cuts);
  }

  /** Exactly when the loss of the last files goes unseen: the run was never
      marked, or all files that are left were closed before the first mark. */
  lemma VerifyMissesLostFilesIff(
      k: Setup, c: Compressor, header: seq<byte>, o: Options, calls: seq<Call>, n: nat)
    requires Readable(k, c, header, o, calls) && 0 < n <= |RunFiles(k, header, o, calls)|
    ensures VerifiesOk(ReadSegments(k.packer, RunFiles(k, header, o, calls)[..n]))
            <==> || NeverMarked(calls)
                 || n <= |Run(k, RECORD_ENCODER(k.packer), Opened(header, o), calls[..FirstMark(calls)]).closed|
  {
    AllAreCompleteIff(k, header, o, calls);
    VerifySeesFirstFiles(k, c, header, o, calls, n, RunFiles(k, header, o, calls)[..n]);
  }

  // ------------------------------------------------------- finding the files

  /** The files of a capture as a directory holds them, by segment index. */
  type Directory = seq<Option<seq<byte>>>

  /** The files from the first one on, up to one that is missing. */
  function Leading(left: Directory): (files: seq<seq<byte>>)
    ensures |files| <= |left|
    ensures forall i :: 0 <= i < |files| ==> left[i] == Some(files[i])
    ensures |files| < |left| ==> left[|files|] == None
  {
    if left == [] || left[0].None? then [] else [left[0].value] + Leading(left[1..])
  }

  /** discover_segments: the base file if it is there, and the numbered ones up
      to the first that is missing, whether the base is there or not. */
  function Discover(left: Directory): seq<seq<byte>> {
    if left == [] then []
    else (if left[0].Some? then [left[0].value] else []) + Leading(left[1..])
  }

  method DiscoverSegments(left: Directory) returns (files: seq<seq<byte>>)
    ensures files == Discover(left)
  {
    files := [];
    if |left| > 0 && left[0].Some? {
      files := [left[0].value];
    }
    ghost var base := files;
    var index := 1;
    while index < |left| && left[index].Some?
      invariant 1 <= index && (index <= |left| || left == [])
      invariant left != [] ==> base + Leading(left[1..]) == files + Leading(left[index..])
      invariant left == [] ==> files == []
    {
      assert left[index..][1..] == left[index + 1..];
      Assoc(files, [left[index].value], Leading(left[index + 1..]));
      files := files + [left[index].value];
      index := index + 1;
    }
    if left != [] {
      assert Leading(left[index..]) == [] && files + [] == files;
    }
  }

  /** Segment `i` is found: it is there, and so are all numbered ones before it. */
  predicate IsFound(left: Directory, i: nat) {
    i < |left| && left[i].Some? && forall j :: 0 < j < i ==> left[j].Some?
  }

  lemma {:induction false} LeadingAt(left: Directory, n: nat)
    requires n < |left| && forall j :: 0 <= j <= n ==> left[j].Some?
    ensures n < |Leading(left)| && left[n] == Some(Leading(left)[n])
  {
    if n > 0 {
      LeadingAt(left[1..], n - 1);
    }
  }

  lemma FoundAt(left: Directory, i: nat) returns (j: nat)
    requires IsFound(left, i)
    ensures j < |Discover(left)| && left[i] == Some(Discover(left)[j])
  {
    if i == 0 {
      j := 0;
    } else {
      LeadingAt(left[1..], i - 1);
      j := if left[0].Some? then i else i - 1;
    }
  }

  lemma DiscoveredIsFound(left: Directory, j: nat) returns (i: nat)
    requires j < |Discover(left)|
    ensures IsFound(left, i) && left[i] == Some(Discover(left)[j])
  {
    if left[0].Some? && j == 0 {
      i := 0;
    } else {
      var n := if left[0].Some? then j - 1 else j;
      var lead := Leading(left[1..]);
      i := n + 1;
      forall m | 0 < m <= i ensures left[m] == Some(lead[m - 1]) {
        assert left[1..][m - 1] == left[m];
      }
    }
  }

  /** What is left of the files of a run: some are lost, others cut. */
  ghost predicate IsLeftOf(files: seq<seq<byte>>, left: Directory) {
    |left| == |files| && forall i :: 0 <= i < |files| && left[i].Some? ==> left[i].value <= files[i]
  }

  lemma VerifiesOkIfFound(z: Packer, left: Directory)
    ensures VerifiesOk(ReadSegments(z, Discover(left)))
            <==> && (exists i: nat :: IsFound(left, i))
                 && forall i: nat :: IsFound(left, i) ==> SegmentIsOk(ReadSegment(z, left[i].value))
  {
    var found := Discover(left);
    VerifiesOkIff(z, found);
    forall i: nat | IsFound(left, i)
      ensures found != [] && (VerifiesOk(ReadSegments(z, found)) ==> SegmentIsOk(ReadSegment(z, left[i].value)))
    {
      var j := FoundAt(left, i);
    }
    forall j: nat | j < |found| ensures exists i: nat :: IsFound(left, i) && left[i] == Some(found[j]) {
      var i := DiscoveredIsFound(left, j);
    }
    if found != [] {
      var i := DiscoveredIsFound(left, 0);
    }
  }

  /** Exactly when damage goes unseen. Whatever files of a run are lost, and
      whatever is cut off the others, what is left verifies if and only if verify
      finds a file, and each one it finds is whole and was closed before the run
      was first marked. It finds the numbered files up to the first lost one, and
      the base file if that is there. */
  lemma VerifySeesDamageIff(
      k: Setup, c: Compressor, header: seq<byte>, o: Options, calls: seq<Call>, left: Directory)
    requires Readable(k, c, header, o, calls) && IsLeftOf(RunFiles(k, header, o, calls), left)
    ensures VerifiesOk(ReadSegments(k.packer, Discover(left)))
            <==> && (exists i: nat :: IsFound(left, i))
                 && forall i: nat :: IsFound(left, i) ==>
                      left[i] == Some(RunFiles(k, header, o, calls)[i]) && i < CompleteFiles(k, header, o, calls)
  {
    VerifiesOkIfFound(k.packer, left);
    forall i: nat | IsFound(left, i)
      ensures SegmentIsOk(ReadSegment(k.packer, left[i].value))
              <==> left[i] == Some(RunFiles(k, header, o, calls)[i]) && i < CompleteFiles(k, header, o, calls)
    {
      RemainsAreOkIff(k, c, header, o, calls, i, left[i].value);
    }
  }

  // ------------------------------------------------------------ changed bytes

  lemma OneBadFile(z: Packer, files: seq<seq<byte>>, file: seq<byte>)
    requires file in files && !SegmentIsOk(ReadSegment(z, file))
    ensures !VerifiesOk(ReadSegments(z, files))
  {
    var i :| 0 <= i < |files| && files[i] == file;
    VerifiesOkIff(z, files);
  }

  lemma FrontIsGood(k: Setup, c: Compressor, header: seq<byte>, o: Options, calls: seq<Call>, i: nat, n: nat)
    requires Readable(k, c, header, o, calls) && i < |RunFrom(k, header, o, calls).closed|
    requires n <= |RunFrom(k, header, o, calls).closed[i].records|
    ensures Good(k.packer, header, RunFrom(k, header, o, calls).closed[i].records[..n])
  {
    var s := RunFrom(k, header, o, calls).closed[i];
    RunFits(k, c, header, o, calls, s);
    assert forall r :: r in s.records[..n] ==> r in s.records;
  }

  /** A changed chunk never goes unseen as long as its checksum tells: let a file of
      any run hold, in the place of record `n` and whatever was behind it, a chunk
      within the limits whose payload does not have the checksum stored with it.
      The file yields the events before it, that one error and no footer, and no
      capture with this file verifies. */
  lemma ChangedChunkNeverVerifies(
      k: Setup, c: Compressor, header: seq<byte>, o: Options, calls: seq<Call>, i: nat, n: nat,
      chunk: ChunkInfo, payload: seq<byte>, rest: seq<byte>, files: seq<seq<byte>>)
    requires Readable(k, c, header, o, calls) && i < |RunFrom(k, header, o, calls).closed|
    requires n <= |RunFrom(k, header, o, calls).closed[i].records|
    requires chunk.compressed == |payload| <= 0x1000_0000 && chunk.uncompressed <= 0x2000_0000
    requires k.packer.compressor.checksum(payload) != chunk.checksum
    requires var before := RunFrom(k, header, o, calls).closed[i].records[..n];
             header + (RecordsBytes(k.packer, before) + ChunkBytes(chunk, payload + rest)) in files
    ensures var before := RunFrom(k, header, o, calls).closed[i].records[..n];
            FailsAfter(ReadWith(k.packer, header, before, ChunkBytes(chunk, payload + rest)), before,
                       ChecksumMismatch(chunk.index))
    ensures !VerifiesOk(ReadSegments(k.packer, files))
  {
    var before := RunFrom(k, header, o, calls).closed[i].records[..n];
    FrontIsGood(k, c, header, o, calls, i, n);
    ChecksumIsCompared(k.packer, header, before, chunk, payload, rest);
    OneBadFile(k.packer, files, header + (RecordsBytes(k.packer, before) + ChunkBytes(chunk, payload + rest)));
  }
}
