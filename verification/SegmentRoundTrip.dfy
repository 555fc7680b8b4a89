/** What the segment reader makes of the records a writer leaves behind, whole
    or cut short. */
module SegmentRoundTrip {
  import opened Words
  import opened Bytes
  import opened StructuredFields
  import opened EventCodec
  import opened Framing
  import opened CaptureSegment

  /** Sizes inside the reader's limits and the 32-bit headers. */
  ghost predicate Small(z: Packer, r: Record) {
    match r
    case ChunkRecord(_, es) =>
      |es| < TWO_32 && |z.encode(es)| <= MAX_UNCOMPRESSED && |Packed(z, es)| <= MAX_COMPRESSED
    case IndexRecord(entries) => |entries| < TWO_32
    case FooterRecord(_, _, _, _, reason) => |reason| < TWO_32
  }

  /** Small records whose events survive the codec. */
  ghost predicate Fits(z: Packer, r: Record) {
    Small(z, r) && (r.ChunkRecord? ==> z.decode(|r.events|, z.encode(r.events)) == Decoded(r.events, true, []))
  }

  ghost predicate AllFit(z: Packer, rs: seq<Record>) {
    forall r :: r in rs ==> Fits(z, r)
  }

  ghost predicate NoFooter(rs: seq<Record>) {
    forall r :: r in rs ==> !r.FooterRecord?
  }

  /** How a chunk record is listed, given its index, offset and events. */
  type Listing = (u64, u64, seq<Event>) -> ChunkInfo

  const LISTING: Packer -> Listing :=
    (z: Packer) => (index: u64, offset: u64, es: seq<Event>) => ChunkInfoOf(z, index, offset, es)

  /** The effect of reading a chunk or index record. */
  function Absorb(info: Listing, offset: nat, r: Record, acc: SegmentRead): SegmentRead {
    if r.ChunkRecord? then
      acc.(chunks := acc.chunks + [info(r.index, offset % TWO_64, r.events)],
           eventCount := (acc.eventCount + |r.events|) % TWO_64,
           events := acc.events + r.events)
    else acc
  }

  const ABSORB: Listing -> (nat, Record, SegmentRead) -> SegmentRead :=
    (info: Listing) => (offset: nat, r: Record, acc: SegmentRead) => Absorb(info, offset, r, acc)

  /** The effect of reading a footer. */
  function Close(acc: SegmentRead, f: Record): SegmentRead
    requires f.FooterRecord?
  {
    acc.(hasFooter := true, complete := f.complete, reason := f.reason,
         warnings := acc.warnings
           + (if f.chunks != |acc.chunks| % TWO_64 || f.count != acc.eventCount then [FooterCounts] else [])
           + (if !f.complete && f.reason != [] then [MarkedIncomplete(f.reason)] else []))
  }

  function EventsOf(rs: seq<Record>): seq<Event> {
    if rs == [] then [] else (if rs[0].ChunkRecord? then rs[0].events else []) + EventsOf(rs[1..])
  }

  function ChunkCount(rs: seq<Record>): nat {
    if rs == [] then 0 else (if rs[0].ChunkRecord? then 1 else 0) + ChunkCount(rs[1..])
  }

  // ------------------------------------------------------------ whole records

  lemma PayloadWhole(z: Packer, offset: nat, c: ChunkInfo, packed: seq<byte>,
                     raw: seq<byte>, es: seq<Event>, rest: seq<byte>, acc: SegmentRead)
    requires c.compressed == |packed| <= MAX_COMPRESSED && c.uncompressed == |raw| <= MAX_UNCOMPRESSED
    requires c.checksum == z.compressor.checksum(packed) && z.compressor.decompress(packed) == Some(raw)
    requires z.decode(c.eventCount, raw) == Decoded(es, true, [])
    ensures ReadPayload(z, offset, c, packed + rest, acc)
         == More(acc.(chunks := acc.chunks + [c],
                      eventCount := (acc.eventCount + c.eventCount) % TWO_64,
                      events := acc.events + es), rest, offset + 48 + |packed|)
  {
    assert (packed + rest)[..|packed|] == packed && (packed + rest)[|packed|..] == rest;
  }

  lemma ChunkRecordStep(z: Packer, offset: nat, c: ChunkInfo, packed: seq<byte>, rest: seq<byte>, acc: SegmentRead)
    requires c.offset == offset % TWO_64
    ensures ReadRecord(z, offset, TAG_CHUNK + (ChunkHeaderBytes(c) + packed) + rest, acc)
         == ReadPayload(z, offset, c, packed + rest, acc)
  {
    var body := ChunkHeaderBytes(c) + packed;
    var s := TAG_CHUNK + body + rest;
    assert s[..4] == TAG_CHUNK && s[4..] == body + rest;
    Assoc(ChunkHeaderBytes(c), packed, rest);
    ChunkHeaderRoundTrip(c, packed + rest);
  }

  /** The file offset is not stored in the header itself. */
  lemma ChunkHeaderIgnoresOffset(c: ChunkInfo, offset: u64)
    ensures ChunkHeaderBytes(c.(offset := offset)) == ChunkHeaderBytes(c)
  {
  }

  lemma ChunkSizes(z: Packer, index: u64, offset: u64, es: seq<Event>)
    requires Fits(z, ChunkRecord(index, es))
    ensures var c := ChunkInfoOf(z, index, offset, es);
            c.eventCount == |es| && c.uncompressed == |z.encode(es)| && c.compressed == |Packed(z, es)|
  {
  }

  lemma ChunkRecordBytes(z: Packer, index: u64, offset: u64, es: seq<Event>)
    ensures var c := ChunkInfoOf(z, index, offset, es);
            RecordBytes(z, ChunkRecord(index, es)) == TAG_CHUNK + (ChunkHeaderBytes(c) + Packed(z, es))
    ensures |RecordBytes(z, ChunkRecord(index, es))| == 48 + |Packed(z, es)|
  {
    ChunkHeaderIgnoresOffset(ChunkInfoOf(z, index, offset, es), 0);
  }

  lemma ChunkPayloadStep(z: Packer, offset: nat, index: u64, es: seq<Event>, rest: seq<byte>, acc: SegmentRead)
    requires Lossless(z.compressor) && Fits(z, ChunkRecord(index, es))
    ensures ReadPayload(z, offset, ChunkInfoOf(z, index, offset % TWO_64, es), Packed(z, es) + rest, acc)
         == More(Absorb(LISTING(z), offset, ChunkRecord(index, es), acc), rest, offset + 48 + |Packed(z, es)|)
  {
    var c := ChunkInfoOf(z, index, offset % TWO_64, es);
    ChunkSizes(z, index, offset % TWO_64, es);
    PayloadWhole(z, offset, c, Packed(z, es), z.encode(es), es, rest, acc);
  }

  lemma ChunkStep(z: Packer, offset: nat, index: u64, es: seq<Event>, rest: seq<byte>, acc: SegmentRead)
    requires Lossless(z.compressor) && Fits(z, ChunkRecord(index, es))
    ensures ReadRecord(z, offset, RecordBytes(z, ChunkRecord(index, es)) + rest, acc)
         == More(Absorb(LISTING(z), offset, ChunkRecord(index, es), acc), rest,
                 offset + |RecordBytes(z, ChunkRecord(index, es))|)
  {
    var c := ChunkInfoOf(z, index, offset % TWO_64, es);
    ChunkPayloadStep(z, offset, index, es, rest, acc);
    ChunkRecordBytes(z, index, offset % TWO_64, es);
    ChunkRecordStep(z, offset, c, Packed(z, es), rest, acc);
  }

  lemma {:induction false} EntriesSize(entries: seq<IndexEntry>)
    ensures |Concat(EntryBytes, entries)| == 32 * |entries|
  {
    if entries != [] {
      EntriesSize(entries[1..]);
    }
  }

  lemma IndexStep(z: Packer, offset: nat, r: Record, rest: seq<byte>, acc: SegmentRead)
    requires r.IndexRecord? && Fits(z, r)
    ensures ReadRecord(z, offset, RecordBytes(z, r) + rest, acc)
         == More(acc, rest, offset + |RecordBytes(z, r)|)
  {
    var body := Concat(EntryBytes, r.entries);
    var s := RecordBytes(z, r) + rest;
    assert s[..4] == TAG_INDEX && s[4..] == Pod(|r.entries|, 4) + (body + rest);
    U32RoundTrip(|r.entries|, body + rest);
    EntriesSize(r.entries);
    assert (body + rest)[|body|..] == rest;
  }

  /** The fixed fields of a footer, with what follows them. */
  function FooterFront(f: Record, size: u32, tail: seq<byte>): seq<byte>
    requires f.FooterRecord?
  {
    Pod(f.chunks, 8) + (Pod(f.count, 8) + (Pod(f.lastIndex, 8) + ([Flag(f.complete)] + (Pod(size, 4) + tail))))
  }

  lemma FooterFieldsRoundTrip(f: Record, size: u32, tail: seq<byte>)
    requires f.FooterRecord?
    ensures ReadFooterFields(FooterFront(f, size, tail)) == Parsed((f.chunks, f.count, Flag(f.complete), size), tail)
  {
    var s4 := Pod(size, 4) + tail;
    var s3 := [Flag(f.complete)] + s4;
    var s2 := Pod(f.lastIndex, 8) + s3;
    U64RoundTrip(f.chunks, Pod(f.count, 8) + s2);
    U64RoundTrip(f.count, s2);
    U64RoundTrip(f.lastIndex, s3);
    U32RoundTrip(size, tail);
  }

  function FooterBody(f: Record): seq<byte>
    requires f.FooterRecord?
  {
    FooterBytes(f.chunks, f.count, f.lastIndex, f.complete, f.reason)
  }

  lemma FooterFollowed(f: Record, rest: seq<byte>)
    requires f.FooterRecord? && |f.reason| < TWO_32
    ensures FooterBody(f) + rest == FooterFront(f, |f.reason|, f.reason + rest)
  {
    var s4 := Pod(|f.reason|, 4) + f.reason;
    var s3 := [Flag(f.complete)] + s4;
    var s2 := Pod(f.lastIndex, 8) + s3;
    var s1 := Pod(f.count, 8) + s2;
    Assoc(Pod(f.chunks, 8), s1, rest);
    Assoc(Pod(f.count, 8), s2, rest);
    Assoc(Pod(f.lastIndex, 8), s3, rest);
    Assoc([Flag(f.complete)], s4, rest);
    Assoc(Pod(|f.reason|, 4), f.reason, rest);
  }

  lemma FooterCut(f: Record, cut: nat)
    requires f.FooterRecord? && |f.reason| < TWO_32 && 29 <= cut <= |FooterBody(f)|
    ensures FooterBody(f)[..cut] == FooterFront(f, |f.reason|, f.reason[..cut - 29])
  {
    var s4 := Pod(|f.reason|, 4) + f.reason;
    var s3 := [Flag(f.complete)] + s4;
    var s2 := Pod(f.lastIndex, 8) + s3;
    var s1 := Pod(f.count, 8) + s2;
    TakeAppend(Pod(f.chunks, 8), s1, cut);
    TakeAppend(Pod(f.count, 8), s2, cut - 8);
    TakeAppend(Pod(f.lastIndex, 8), s3, cut - 16);
    TakeAppend([Flag(f.complete)], s4, cut - 24);
    TakeAppend(Pod(|f.reason|, 4), f.reason, cut - 25);
  }

  lemma FooterStep(z: Packer, offset: nat, f: Record, rest: seq<byte>, acc: SegmentRead)
    requires f.FooterRecord? && Fits(z, f)
    ensures ReadRecord(z, offset, RecordBytes(z, f) + rest, acc) == Done(Close(acc, f))
  {
    var s := RecordBytes(z, f) + rest;
    assert s[..4] == TAG_FOOTER && s[4..] == FooterBody(f) + rest;
    FooterFollowed(f, rest);
    FooterFieldsRoundTrip(f, |f.reason|, f.reason + rest);
    assert (f.reason + rest)[..|f.reason|] == f.reason;
  }

  /** The reader undoes every chunk and index record, whatever follows it. */
  lemma RecordsAreUndone(z: Packer, rs: seq<Record>)
    requires Lossless(z.compressor) && AllFit(z, rs) && NoFooter(rs)
    ensures Undoes(RECORD_ENCODER(z), ABSORB(LISTING(z)), RECORD_READER(z), rs)
  {
    forall o: nat, r, t, a | r in rs
      ensures RecordBytes(z, r) != []
      ensures ReadRecord(z, o, RecordBytes(z, r) + t, a)
           == More(Absorb(LISTING(z), o, r, a), t, o + |RecordBytes(z, r)|)
    {
      assert Fits(z, r);
      if r.ChunkRecord? {
        ChunkStep(z, o, r.index, r.events, t, a);
      } else {
        IndexStep(z, o, r, t, a);
      }
    }
  }

  // -------------------------------------------------------------- accumulation

  /** The chunk list a reader reports for the records of a segment. */
  function ChunkInfos(info: Listing, enc: Record -> seq<byte>, offset: nat, rs: seq<Record>): seq<ChunkInfo>
    decreases |rs|
  {
    if rs == [] then []
    else (if rs[0].ChunkRecord? then [info(rs[0].index, offset % TWO_64, rs[0].events)] else [])
         + ChunkInfos(info, enc, offset + |enc(rs[0])|, rs[1..])
  }

  /** What the reader holds after whole records. */
  function Collected(info: Listing, enc: Record -> seq<byte>, offset: nat, rs: seq<Record>, acc: SegmentRead)
    : SegmentRead
  {
    acc.(chunks := acc.chunks + ChunkInfos(info, enc, offset, rs),
         eventCount := (acc.eventCount + |EventsOf(rs)|) % TWO_64,
         events := acc.events + EventsOf(rs))
  }

  lemma WrappedSum(a: nat, b: nat, c: nat)
    ensures ((a + b) % TWO_64 + c) % TWO_64 == (a + (b + c)) % TWO_64
  {
  }

  lemma CollectedStep(info: Listing, enc: Record -> seq<byte>, offset: nat, rs: seq<Record>, acc: SegmentRead)
    requires rs != []
    ensures Collected(info, enc, offset, rs, acc)
         == Collected(info, enc, offset + |enc(rs[0])|, rs[1..], Absorb(info, offset, rs[0], acc))
  {
    var tail := ChunkInfos(info, enc, offset + |enc(rs[0])|, rs[1..]);
    var r := rs[0];
    if r.ChunkRecord? {
      Assoc(acc.events, r.events, EventsOf(rs[1..]));
      Assoc(acc.chunks, [info(r.index, offset % TWO_64, r.events)], tail);
      WrappedSum(acc.eventCount, |r.events|, |EventsOf(rs[1..])|);
    } else {
      assert [] + EventsOf(rs[1..]) == EventsOf(rs[1..]);
      assert [] + tail == tail;
    }
  }

  lemma {:induction false} AbsorbedIsCollected(
      info: Listing, enc: Record -> seq<byte>, offset: nat, rs: seq<Record>, acc: SegmentRead)
    ensures Absorbed(enc, ABSORB(info), offset, rs, acc) == Collected(info, enc, offset, rs, acc)
    decreases |rs|
  {
    if rs == [] {
      assert acc.events + [] == acc.events && acc.chunks + [] == acc.chunks;
    } else {
      AbsorbedIsCollected(info, enc, offset + |enc(rs[0])|, rs[1..], Absorb(info, offset, rs[0], acc));
      CollectedStep(info, enc, offset, rs, acc);
    }
  }

  lemma {:induction false} ChunkInfosSize(info: Listing, enc: Record -> seq<byte>, offset: nat, rs: seq<Record>)
    ensures |ChunkInfos(info, enc, offset, rs)| == ChunkCount(rs)
    decreases |rs|
  {
    if rs != [] {
      ChunkInfosSize(info, enc, offset + |enc(rs[0])|, rs[1..]);
    }
  }

  // ------------------------------------------------------------ closed segment

  /** What the reader reports for a segment closed by footer `f`. */
  function ClosedRead(z: Packer, header: seq<byte>, rs: seq<Record>, f: Record): SegmentRead
    requires f.FooterRecord?
  {
    SegmentRead(ChunkInfos(LISTING(z), RECORD_ENCODER(z), |header|, rs), |EventsOf(rs)| % TWO_64, EventsOf(rs),
                true, f.complete, f.reason, [],
                if !f.complete && f.reason != [] then [MarkedIncomplete(f.reason)] else [])
  }

  /** The reader accepts this file header and goes on with the records. */
  ghost predicate Skipped(z: Packer, header: seq<byte>) {
    forall body :: z.header(header + body).GoodHeader? && z.header(header + body).rest == body
  }

  lemma HeaderIsSkipped(c: Compressor, m: Metadata)
    requires |MetadataBytes(m)| <= MAX_METADATA
    ensures Skipped(CapturePacker(c), HeaderBytes(m))
  {
    forall body ensures ReadFileHeader(HeaderBytes(m) + body) == GoodHeader(m, body) {
      FileHeaderRoundTrip(m, body);
    }
  }

  lemma CloseCollected(info: Listing, enc: Record -> seq<byte>, offset: nat, rs: seq<Record>, f: Record)
    requires f.FooterRecord? && f.chunks == ChunkCount(rs) % TWO_64 && f.count == |EventsOf(rs)| % TWO_64
    ensures Close(Collected(info, enc, offset, rs, NOTHING_READ), f)
         == SegmentRead(ChunkInfos(info, enc, offset, rs), |EventsOf(rs)| % TWO_64, EventsOf(rs),
                        true, f.complete, f.reason, [],
                        if !f.complete && f.reason != [] then [MarkedIncomplete(f.reason)] else [])
  {
    ChunkInfosSize(info, enc, offset, rs);
    assert [] + EventsOf(rs) == EventsOf(rs);
    assert [] + ChunkInfos(info, enc, offset, rs) == ChunkInfos(info, enc, offset, rs);
  }

  lemma ReadClosedRecords(z: Packer, offset: nat, rs: seq<Record>, f: Record)
    requires Lossless(z.compressor) && AllFit(z, rs) && NoFooter(rs) && f.FooterRecord? && Fits(z, f)
    ensures ReadRecords(z, offset, RecordsBytes(z, rs + [f]), NOTHING_READ)
         == Close(Collected(LISTING(z), RECORD_ENCODER(z), offset, rs, NOTHING_READ), f)
  {
    RecordsAreUndone(z, rs);
    forall o: nat, a ensures ReadRecord(z, o, RecordBytes(z, f), a) == Done(Close(a, f)) {
      FooterStep(z, o, f, [], a);
      assert RecordBytes(z, f) + [] == RecordBytes(z, f);
    }
    var close := (a: SegmentRead) => Close(a, f);
    WalkClosed(RECORD_ENCODER(z), ABSORB(LISTING(z)), RECORD_READER(z), close, offset, rs, f, NOTHING_READ);
    AbsorbedIsCollected(LISTING(z), RECORD_ENCODER(z), offset, rs, NOTHING_READ);
  }

  /** A closed segment reads back to its events and chunk list, without error
      and with matching counts. */
  lemma ReadClosedSegment(z: Packer, header: seq<byte>, rs: seq<Record>, f: Record)
    requires Lossless(z.compressor) && AllFit(z, rs) && Skipped(z, header) && NoFooter(rs)
    requires f.FooterRecord? && Fits(z, f)
    requires f.chunks == ChunkCount(rs) % TWO_64 && f.count == |EventsOf(rs)| % TWO_64
    ensures ReadSegment(z, SegmentBytes(z, header, rs + [f])) == ClosedRead(z, header, rs, f)
  {
    ReadClosedRecords(z, |header|, rs, f);
    CloseCollected(LISTING(z), RECORD_ENCODER(z), |header|, rs, f);
  }

  // --------------------------------------------------------------- truncation

  /** The error that reports a record of which `cut` bytes are left. A cut tag
      ends the file, and the seek over an index body succeeds beyond its end, so
      neither is reported. */
  function CutErrors(r: Record, cut: nat): (errors: seq<Error>)
    ensures errors == [] <==> cut < 4 || (r.IndexRecord? && cut >= 8)
  {
    if cut < 4 then []
    else match r
      case ChunkRecord(_, _) => [if cut < 48 then TruncatedChunkHeader else TruncatedPayload]
      case IndexRecord(_) => if cut < 8 then [TruncatedIndexHeader] else []
      case FooterRecord(_, _, _, _, _) => [if cut < 33 then TruncatedFooter else TruncatedReason]
  }

  /** The reader ends at a record of which `cut` bytes are left. */
  function EndedBy(acc: SegmentRead, r: Record, cut: nat): SegmentRead {
    WithoutFooter(acc.(errors := acc.errors + CutErrors(r, cut)))
  }

  lemma CutTag(z: Packer, offset: nat, r: Record, cut: nat, acc: SegmentRead)
    requires cut < 4 && cut < |RecordBytes(z, r)|
    ensures ReadRecord(z, offset, RecordBytes(z, r)[..cut], acc) == Done(EndedBy(acc, r, cut))
  {
    assert acc.errors + [] == acc.errors;
  }

  lemma CutPayload(z: Packer, offset: nat, c: ChunkInfo, packed: seq<byte>, cut: nat, acc: SegmentRead)
    requires c.offset == offset % TWO_64 && c.compressed == |packed| && 4 <= cut < 48 + |packed|
    requires c.compressed <= MAX_COMPRESSED && c.uncompressed <= MAX_UNCOMPRESSED
    ensures ReadRecord(z, offset, (TAG_CHUNK + (ChunkHeaderBytes(c) + packed))[..cut], acc)
         == Stop(acc, if cut < 48 then TruncatedChunkHeader else TruncatedPayload)
  {
    var s := (TAG_CHUNK + (ChunkHeaderBytes(c) + packed))[..cut];
    if cut >= 48 {
      assert s == TAG_CHUNK + (ChunkHeaderBytes(c) + packed[..cut - 48]) + [];
      assert packed[..cut - 48] + [] == packed[..cut - 48];
      ChunkRecordStep(z, offset, c, packed[..cut - 48], [], acc);
    } else {
      assert s[..4] == TAG_CHUNK;
    }
  }

  lemma CutChunk(z: Packer, offset: nat, r: Record, cut: nat, acc: SegmentRead)
    requires r.ChunkRecord? && Fits(z, r) && 4 <= cut < |RecordBytes(z, r)|
    ensures ReadRecord(z, offset, RecordBytes(z, r)[..cut], acc) == Done(EndedBy(acc, r, cut))
  {
    var c := ChunkInfoOf(z, r.index, offset % TWO_64, r.events);
    ChunkSizes(z, r.index, offset % TWO_64, r.events);
    ChunkRecordBytes(z, r.index, offset % TWO_64, r.events);
    CutPayload(z, offset, c, Packed(z, r.events), cut, acc);
  }

  lemma CutIndex(z: Packer, offset: nat, r: Record, cut: nat, acc: SegmentRead)
    requires r.IndexRecord? && Fits(z, r) && 4 <= cut < |RecordBytes(z, r)|
    ensures var step := ReadRecord(z, offset, RecordBytes(z, r)[..cut], acc);
            if cut < 8 then step == Done(EndedBy(acc, r, cut)) else step.More? && step.read == acc && step.rest == []
  {
    var s := RecordBytes(z, r)[..cut];
    var body := Concat(EntryBytes, r.entries);
    assert s[..4] == TAG_INDEX;
    if cut >= 8 {
      assert s[4..] == Pod(|r.entries|, 4) + body[..cut - 8];
      U32RoundTrip(|r.entries|, body[..cut - 8]);
      EntriesSize(r.entries);
    }
  }

  lemma CutFooter(z: Packer, offset: nat, f: Record, cut: nat, acc: SegmentRead)
    requires f.FooterRecord? && Fits(z, f) && 4 <= cut < |RecordBytes(z, f)|
    ensures ReadRecord(z, offset, RecordBytes(z, f)[..cut], acc) == Done(EndedBy(acc, f, cut))
  {
    var s := RecordBytes(z, f)[..cut];
    assert s[..4] == TAG_FOOTER;
    if cut >= 33 {
      assert s[4..] == FooterBody(f)[..cut - 4];
      FooterCut(f, cut - 4);
      FooterFieldsRoundTrip(f, |f.reason|, f.reason[..cut - 33]);
    }
  }

  /** From a record cut anywhere the reader takes nothing: it reports what
      `CutErrors` says, and that the footer is missing. */
  lemma CutRecord(z: Packer, offset: nat, r: Record, cut: nat, acc: SegmentRead)
    requires Fits(z, r) && cut < |RecordBytes(z, r)|
    ensures ReadRecords(z, offset, RecordBytes(z, r)[..cut], acc) == EndedBy(acc, r, cut)
  {
    if cut < 4 {
      CutTag(z, offset, r, cut, acc);
    } else if r.ChunkRecord? {
      CutChunk(z, offset, r, cut, acc);
    } else if r.IndexRecord? {
      CutIndex(z, offset, r, cut, acc);
      if cut >= 8 {
        var step := ReadRecord(z, offset, RecordBytes(z, r)[..cut], acc);
        NothingLeft(z, step.offset, acc);
        assert acc.errors + [] == acc.errors;
      }
    } else {
      CutFooter(z, offset, r, cut, acc);
    }
  }

  lemma NothingLeft(z: Packer, offset: nat, acc: SegmentRead)
    ensures ReadRecords(z, offset, [], acc) == WithoutFooter(acc)
  {
  }

  type Reader = (nat, seq<byte>, SegmentRead) -> Step<SegmentRead>

  /** A cut record ends the walk, at any offset and cut anywhere. */
  ghost predicate Ends(enc: Record -> seq<byte>, read: Reader, r: Record) {
    forall o: nat, cut: nat, acc :: cut < |enc(r)| ==> Walk(read, o, enc(r)[..cut], acc) == EndedBy(acc, r, cut)
  }

  lemma RecordEnds(z: Packer, r: Record)
    requires Fits(z, r)
    ensures Ends(RECORD_ENCODER(z), RECORD_READER(z), r)
  {
    forall o: nat, cut: nat, acc | cut < |RECORD_ENCODER(z)(r)|
      ensures Walk(RECORD_READER(z), o, RECORD_ENCODER(z)(r)[..cut], acc) == EndedBy(acc, r, cut)
    {
      CutRecord(z, o, r, cut, acc);
    }
  }

  /** The walk over records followed by a last one, cut before its end. */
  lemma CutWalk(
      enc: Record -> seq<byte>, info: Listing, read: Reader, offset: nat, rs: seq<Record>, f: Record, cut: nat)
    requires Undoes(enc, ABSORB(info), read, rs) && enc(f) != []
    requires forall r :: r in rs + [f] ==> Ends(enc, read, r)
    requires cut < |Concat(enc, rs + [f])|
    ensures var k := WholeRecords(enc, rs, cut);
            && |Concat(enc, rs[..k])| <= cut
            && Walk(read, offset, Concat(enc, rs + [f])[..cut], NOTHING_READ)
               == EndedBy(Collected(info, enc, offset, rs[..k], NOTHING_READ),
                          (rs + [f])[k], cut - |Concat(enc, rs[..k])|)
  {
    WalkCutBeforeLast(enc, ABSORB(info), read, offset, rs, f, cut, NOTHING_READ);
    var k := WholeRecords(enc, rs, cut);
    AbsorbedIsCollected(info, enc, offset, rs[..k], NOTHING_READ);
    assert (rs + [f])[k] in rs + [f];
  }

  /** What the reader makes of a segment cut inside its record `k`. */
  function CutRead(z: Packer, header: seq<byte>, rs: seq<Record>, k: nat, over: nat): SegmentRead
    requires k < |rs|
  {
    EndedBy(Collected(LISTING(z), RECORD_ENCODER(z), |header|, rs[..k], NOTHING_READ), rs[k], over)
  }

  lemma CutClosedRecords(z: Packer, header: seq<byte>, rs: seq<Record>, f: Record, cut: nat)
    requires Lossless(z.compressor) && AllFit(z, rs) && NoFooter(rs) && f.FooterRecord? && Fits(z, f)
    requires cut < |RecordsBytes(z, rs + [f])|
    ensures var k := WholeRecords(RECORD_ENCODER(z), rs, cut);
            && |RecordsBytes(z, rs[..k])| <= cut
            && ReadRecords(z, |header|, RecordsBytes(z, rs + [f])[..cut], NOTHING_READ)
               == CutRead(z, header, rs + [f], k, cut - |RecordsBytes(z, rs[..k])|)
  {
    forall r | r in rs + [f] ensures Ends(RECORD_ENCODER(z), RECORD_READER(z), r) {
      RecordEnds(z, r);
    }
    RecordsAreUndone(z, rs);
    CutWalk(RECORD_ENCODER(z), LISTING(z), RECORD_READER(z), |header|, rs, f, cut);
    var k := WholeRecords(RECORD_ENCODER(z), rs, cut);
    assert (rs + [f])[..k] == rs[..k];
  }

  lemma HeaderIsPassed(z: Packer, header: seq<byte>, body: seq<byte>)
    requires Skipped(z, header)
    ensures ReadSegment(z, header + body) == ReadRecords(z, |header|, body, NOTHING_READ)
  {
  }

  /** The whole report on a segment that was cut behind its file header. */
  lemma CutSegment(z: Packer, header: seq<byte>, rs: seq<Record>, f: Record, cut: nat)
    requires Lossless(z.compressor) && AllFit(z, rs) && Skipped(z, header)
    requires NoFooter(rs) && f.FooterRecord? && Fits(z, f)
    requires |header| <= cut < |SegmentBytes(z, header, rs + [f])|
    ensures var k := WholeRecords(RECORD_ENCODER(z), rs, cut - |header|);
            && |header| + |RecordsBytes(z, rs[..k])| <= cut
            && ReadSegment(z, SegmentBytes(z, header, rs + [f])[..cut])
               == CutRead(z, header, rs + [f], k, cut - |header| - |RecordsBytes(z, rs[..k])|)
  {
    var body, n := RecordsBytes(z, rs + [f]), cut - |header|;
    TakeAppend(header, body, cut);
    HeaderIsPassed(z, header, body[..n]);
    CutClosedRecords(z, header, rs, f, n);
  }

  lemma CutReadShows(z: Packer, header: seq<byte>, rs: seq<Record>, k: nat, over: nat)
    requires k < |rs|
    ensures var read := CutRead(z, header, rs, k, over);
            && read.events == EventsOf(rs[..k]) && !read.hasFooter
            && read.errors == CutErrors(rs[k], over) && read.warnings == [MissingFooter]
  {
    assert [] + EventsOf(rs[..k]) == EventsOf(rs[..k]);
  }

  lemma ReadClosedShows(z: Packer, header: seq<byte>, rs: seq<Record>, f: Record)
    requires Lossless(z.compressor) && AllFit(z, rs) && Skipped(z, header)
    requires NoFooter(rs) && f.FooterRecord? && Fits(z, f)
    ensures var read := ReadSegment(z, SegmentBytes(z, header, rs + [f]));
            read.events == EventsOf(rs) && read.hasFooter
  {
    ReadClosedRecords(z, |header|, rs, f);
    assert [] + EventsOf(rs) == EventsOf(rs);
  }

  /** Cut a closed segment anywhere behind its file header, and let `k` records
      lie wholly inside what is left. The reader returns exactly their events and
      sees a footer only if nothing is missing. A loss is reported as an error
      unless less than a tag is left of the next record, or that is an index of
      which the tag and the count are left. */
  lemma TruncationYieldsPrefix(z: Packer, header: seq<byte>, rs: seq<Record>, f: Record, cut: nat)
    requires Lossless(z.compressor) && AllFit(z, rs) && Skipped(z, header)
    requires NoFooter(rs) && f.FooterRecord? && Fits(z, f)
    requires |header| <= cut <= |SegmentBytes(z, header, rs + [f])|
    ensures var file := SegmentBytes(z, header, rs + [f]);
            var k := WholeRecords(RECORD_ENCODER(z), rs, cut - |header|);
            var read, over := ReadSegment(z, file[..cut]), cut - |header| - |RecordsBytes(z, rs[..k])|;
            && read.events == EventsOf(rs[..k])
            && (read.hasFooter <==> cut == |file|)
            && (cut < |file| ==>
                  && over >= 0 && read.warnings == [MissingFooter]
                  && read.errors == CutErrors((rs + [f])[k], over)
                  && (read.errors == [] <==> over < 4 || (k < |rs| && rs[k].IndexRecord? && over >= 8)))
  {
    var file := SegmentBytes(z, header, rs + [f]);
    if cut < |file| {
      CutShows(z, header, rs, f, cut);
    } else {
      WholeBeforeLast(RECORD_ENCODER(z), rs, f, cut - |header|);
      assert file[..cut] == file && rs[..|rs|] == rs;
      ReadClosedShows(z, header, rs, f);
    }
  }

  lemma CutShows(z: Packer, header: seq<byte>, rs: seq<Record>, f: Record, cut: nat)
    requires Lossless(z.compressor) && AllFit(z, rs) && Skipped(z, header)
    requires NoFooter(rs) && f.FooterRecord? && Fits(z, f)
    requires |header| <= cut < |SegmentBytes(z, header, rs + [f])|
    ensures var k := WholeRecords(RECORD_ENCODER(z), rs, cut - |header|);
            var read, over := ReadSegment(z, SegmentBytes(z, header, rs + [f])[..cut]),
                              cut - |header| - |RecordsBytes(z, rs[..k])|;
            && read.events == EventsOf(rs[..k]) && !read.hasFooter
            && over >= 0 && read.errors == CutErrors((rs + [f])[k], over) && read.warnings == [MissingFooter]
  {
    var k := WholeRecords(RECORD_ENCODER(z), rs, cut - |header|);
    CutSegment(z, header, rs, f, cut);
    CutReadShows(z, header, rs + [f], k, cut - |header| - |RecordsBytes(z, rs[..k])|);
    assert (rs + [f])[..k] == rs[..k];
  }

  /** No part of this file header is accepted by itself. */
  ghost predicate Needed(z: Packer, header: seq<byte>) {
    forall cut: nat :: cut < |header| ==> z.header(header[..cut]).BadHeader?
  }

  lemma HeaderIsNeeded(c: Compressor, m: Metadata)
    requires |MetadataBytes(m)| <= MAX_METADATA
    ensures Needed(CapturePacker(c), HeaderBytes(m))
  {
    forall cut: nat | cut < |HeaderBytes(m)|
      ensures ReadFileHeader(HeaderBytes(m)[..cut])
           == BadHeader(if cut < 16 then TruncatedHeader else TruncatedMetadata)
    {
      CutHeader(m, cut);
    }
  }

  /** The reader sees a footer in no proper part of a closed segment. */
  lemma CutHasNoFooter(z: Packer, header: seq<byte>, rs: seq<Record>, f: Record, cut: nat)
    requires Lossless(z.compressor) && AllFit(z, rs) && Skipped(z, header) && Needed(z, header)
    requires NoFooter(rs) && f.FooterRecord? && Fits(z, f)
    requires cut < |SegmentBytes(z, header, rs + [f])|
    ensures !ReadSegment(z, SegmentBytes(z, header, rs + [f])[..cut]).hasFooter
  {
    if cut < |header| {
      assert SegmentBytes(z, header, rs + [f])[..cut] == header[..cut];
    } else {
      TruncationYieldsPrefix(z, header, rs, f, cut);
    }
  }
}
