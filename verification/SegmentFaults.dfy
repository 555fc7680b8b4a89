/** What the reader says of a segment whose bytes are not those a writer left: a
    foreign header, and after any good records a chunk that is too large, whose
    payload does not have the stored checksum, does not decompress or does not
    decode, or a record of no known kind. */
module SegmentFaults {
  import opened Words
  import opened Bytes
  import opened StructuredFields
  import opened EventCodec
  import opened Framing
  import opened CaptureSegment
  import opened SegmentRoundTrip

  // ------------------------------------------------------------------ headers

  /** "SAVORSC" and a zero. */
  const CAPTURE_MAGIC: seq<byte> := [0x53, 0x41, 0x56, 0x4f, 0x52, 0x53, 0x43, 0x00]

  /** A file whose fixed bytes are not those of a capture gives one error and
      nothing else. */
  lemma ForeignHeaderIsRefused(c: Compressor, file: seq<byte>)
    ensures var read := ReadSegment(CapturePacker(c), file);
            && (|file| < 16 ==> read == NOTHING_READ.(errors := [TruncatedHeader]))
            && (|file| >= 16 && file[..8] != CAPTURE_MAGIC ==> read == NOTHING_READ.(errors := [InvalidMagic]))
            && (|file| >= 16 && file[..8] == CAPTURE_MAGIC && file[8..12] != [1, 0, 0, 0] ==>
                  exists v: u32 :: read == NOTHING_READ.(errors := [UnsupportedVersion(v)]))
  {
    if |file| >= 16 {
      assert file[8..][..4] == file[8..12];
      VersionIsOne(file[8..12]);
      var v := ReadU32(file[8..]).value;
      assert v != 1 && file[..8] == MAGIC ==> ReadFileHeader(file) == BadHeader(UnsupportedVersion(v));
    }
  }

  lemma VersionIsOne(s: seq<byte>)
    requires |s| == 4
    ensures PodValue(s) == 1 ==> s == [1, 0, 0, 0]
  {
    assert PodValue(s) == s[0] + 0x100 * PodValue(s[1..]);
    assert PodValue(s[1..]) == s[1..][0] + 0x100 * PodValue(s[1..][1..]);
    assert PodValue(s[1..][1..]) == s[1..][1..][0] + 0x100 * PodValue(s[1..][1..][1..]);
    assert PodValue(s[1..][1..][1..]) == s[1..][1..][1..][0] + 0x100 * PodValue(s[1..][1..][1..][1..]);
  }

  // ------------------------------------------------------------------- faults

  type FileReader = seq<byte> -> SegmentRead

  /** How files and records are read and written, as functions that the proofs
      below need not look into. */
  datatype Machine = Machine(file: FileReader, read: Reader, enc: Record -> seq<byte>, info: Listing)

  ghost predicate Runs(m: Machine, z: Packer) {
    forall offset: nat, s, acc {:trigger ReadRecord(z, offset, s, acc)} ::
      m.read(offset, s, acc) == ReadRecord(z, offset, s, acc)
  }

  /** Behind this header a file is read record by record, and these records are read
      as they were written. */
  ghost predicate Ready(m: Machine, header: seq<byte>, rs: seq<Record>) {
    && (forall body {:trigger m.file(header + body)} ::
          m.file(header + body) == Walk(m.read, |header|, body, NOTHING_READ))
    && Undoes(m.enc, ABSORB(m.info), m.read, rs)
  }

  /** A file header that is accepted, and records that read back. */
  ghost predicate Good(z: Packer, header: seq<byte>, rs: seq<Record>) {
    Lossless(z.compressor) && AllFit(z, rs) && NoFooter(rs) && Skipped(z, header)
  }

  const MACHINE: Packer -> Machine :=
    (z: Packer) => Machine((file: seq<byte>) => ReadSegment(z, file), RECORD_READER(z), RECORD_ENCODER(z), LISTING(z))

  lemma MachineInUse(z: Packer, header: seq<byte>, rs: seq<Record>)
    requires Good(z, header, rs)
    ensures Runs(MACHINE(z), z) && Ready(MACHINE(z), header, rs)
  {
    RecordsAreUndone(z, rs);
  }

  /** What the reader makes of good records and the bytes behind them. */
  function ReadWith(z: Packer, header: seq<byte>, rs: seq<Record>, bad: seq<byte>): SegmentRead {
    ReadSegment(z, header + (RecordsBytes(z, rs) + bad))
  }

  lemma ReadWithMachine(z: Packer, header: seq<byte>, rs: seq<Record>, bad: seq<byte>)
    ensures ReadWith(z, header, rs, bad) == MachineRead(MACHINE(z), header, rs, bad)
    ensures Position(MACHINE(z), header, rs) == |header| + |RecordsBytes(z, rs)|
  {
  }

  function MachineRead(m: Machine, header: seq<byte>, rs: seq<Record>, bad: seq<byte>): SegmentRead {
    m.file(header + (Concat(m.enc, rs) + bad))
  }

  function Position(m: Machine, header: seq<byte>, rs: seq<Record>): nat {
    |header| + |Concat(m.enc, rs)|
  }

  /** The records before the fault, as the reader has collected them. */
  function Before(m: Machine, header: seq<byte>, rs: seq<Record>): SegmentRead {
    Collected(m.info, m.enc, |header|, rs, NOTHING_READ)
  }

  /** Good records, and then bytes on which the reader stops. */
  lemma StopsBehind(m: Machine, header: seq<byte>, rs: seq<Record>, bad: seq<byte>, stopped: SegmentRead)
    requires Ready(m, header, rs)
    requires m.read(Position(m, header, rs), bad, Before(m, header, rs)) == Done(stopped)
    ensures MachineRead(m, header, rs, bad) == stopped
  {
    WalkWhole(m.enc, ABSORB(m.info), m.read, |header|, rs, bad, NOTHING_READ);
    AbsorbedIsCollected(m.info, m.enc, |header|, rs, NOTHING_READ);
  }

  /** Exactly the events of `rs`, one error, and no footer. */
  predicate FailsAfter(read: SegmentRead, rs: seq<Record>, e: Error) {
    read.events == EventsOf(rs) && read.errors == [e] && !read.hasFooter
  }

  function Failing(acc: SegmentRead, e: Error): SegmentRead {
    WithoutFooter(acc.(errors := acc.errors + [e]))
  }

  lemma Refused(m: Machine, header: seq<byte>, rs: seq<Record>, bad: seq<byte>, e: Error)
    requires Ready(m, header, rs)
    requires m.read(Position(m, header, rs), bad, Before(m, header, rs)) == Done(Failing(Before(m, header, rs), e))
    ensures FailsAfter(MachineRead(m, header, rs, bad), rs, e)
  {
    StopsBehind(m, header, rs, bad, Failing(Before(m, header, rs), e));
    assert [] + EventsOf(rs) == EventsOf(rs) && [] + [e] == [e];
  }

  /** A chunk with this header and payload. */
  function ChunkBytes(c: ChunkInfo, payload: seq<byte>): seq<byte> {
    TAG_CHUNK + (ChunkHeaderBytes(c) + payload)
  }

  /** The reader comes to the payload with the header it has read. */
  lemma ChunkIsReached(m: Machine, z: Packer, offset: nat, c: ChunkInfo, payload: seq<byte>, acc: SegmentRead)
    requires Runs(m, z)
    ensures m.read(offset, ChunkBytes(c, payload), acc)
         == ReadPayload(z, offset, c.(offset := offset % TWO_64), payload, acc)
  {
    var c' := c.(offset := offset % TWO_64);
    ChunkHeaderIgnoresOffset(c, offset % TWO_64);
    assert ChunkBytes(c, payload) == TAG_CHUNK + (ChunkHeaderBytes(c') + payload) + [];
    assert payload + [] == payload;
    ChunkRecordStep(z, offset, c', payload, [], acc);
  }

  /** The payload that belongs to the chunk, when `rest` follows it. */
  lemma PayloadBehind(payload: seq<byte>, rest: seq<byte>)
    ensures (payload + rest)[..|payload|] == payload
  {
  }

  lemma ChecksumFails(m: Machine, z: Packer, offset: nat, c: ChunkInfo, payload: seq<byte>, rest: seq<byte>,
                      acc: SegmentRead)
    requires Runs(m, z) && c.compressed == |payload| <= 0x1000_0000 && c.uncompressed <= 0x2000_0000
    requires z.compressor.checksum(payload) != c.checksum
    ensures m.read(offset, ChunkBytes(c, payload + rest), acc) == Done(Failing(acc, ChecksumMismatch(c.index)))
  {
    PayloadBehind(payload, rest);
    ChunkIsReached(m, z, offset, c, payload + rest, acc);
  }

  /** The stored checksum is compared: after any records, a chunk within the limits
      whose payload has another checksum than its header says yields no event; the
      reader reports the mismatch, takes nothing of what follows, and sees no
      footer. */
  lemma ChecksumIsCompared(
      z: Packer, header: seq<byte>, rs: seq<Record>, c: ChunkInfo, payload: seq<byte>, rest: seq<byte>)
    requires Good(z, header, rs)
    requires c.compressed == |payload| <= 0x1000_0000 && c.uncompressed <= 0x2000_0000
    requires z.compressor.checksum(payload) != c.checksum
    ensures FailsAfter(ReadWith(z, header, rs, ChunkBytes(c, payload + rest)), rs, ChecksumMismatch(c.index))
  {
    MachineInUse(z, header, rs);
    ReadWithMachine(z, header, rs, ChunkBytes(c, payload + rest));
    ChecksumIsComparedBy(MACHINE(z), z, header, rs, c, payload, rest);
  }

  lemma ChecksumIsComparedBy(
      m: Machine, z: Packer, header: seq<byte>, rs: seq<Record>, c: ChunkInfo, payload: seq<byte>, rest: seq<byte>)
    requires Runs(m, z) && Ready(m, header, rs)
    requires c.compressed == |payload| <= 0x1000_0000 && c.uncompressed <= 0x2000_0000
    requires z.compressor.checksum(payload) != c.checksum
    ensures FailsAfter(MachineRead(m, header, rs, ChunkBytes(c, payload + rest)), rs, ChecksumMismatch(c.index))
  {
    ChecksumFails(m, z, Position(m, header, rs), c, payload, rest, Before(m, header, rs));
    Refused(m, header, rs, ChunkBytes(c, payload + rest), ChecksumMismatch(c.index));
  }

  lemma SizeFails(m: Machine, z: Packer, offset: nat, c: ChunkInfo, rest: seq<byte>, acc: SegmentRead)
    requires Runs(m, z) && (c.compressed > 0x1000_0000 || c.uncompressed > 0x2000_0000)
    ensures m.read(offset, ChunkBytes(c, rest), acc) == Done(Failing(acc, UnreasonableChunk))
  {
    ChunkIsReached(m, z, offset, c, rest, acc);
  }

  /** Sizes beyond 256 and 512 megabytes are refused before anything is read. */
  lemma SizesAreLimited(z: Packer, header: seq<byte>, rs: seq<Record>, c: ChunkInfo, rest: seq<byte>)
    requires Good(z, header, rs) && (c.compressed > 0x1000_0000 || c.uncompressed > 0x2000_0000)
    ensures FailsAfter(ReadWith(z, header, rs, ChunkBytes(c, rest)), rs, UnreasonableChunk)
  {
    MachineInUse(z, header, rs);
    ReadWithMachine(z, header, rs, ChunkBytes(c, rest));
    SizesAreLimitedBy(MACHINE(z), z, header, rs, c, rest);
  }

  lemma SizesAreLimitedBy(m: Machine, z: Packer, header: seq<byte>, rs: seq<Record>, c: ChunkInfo, rest: seq<byte>)
    requires Runs(m, z) && Ready(m, header, rs) && (c.compressed > 0x1000_0000 || c.uncompressed > 0x2000_0000)
    ensures FailsAfter(MachineRead(m, header, rs, ChunkBytes(c, rest)), rs, UnreasonableChunk)
  {
    SizeFails(m, z, Position(m, header, rs), c, rest, Before(m, header, rs));
    Refused(m, header, rs, ChunkBytes(c, rest), UnreasonableChunk);
  }

  /** The payload does not decompress to the size announced. */
  predicate Undecompressed(z: Packer, c: ChunkInfo, payload: seq<byte>) {
    && c.compressed == |payload| <= 0x1000_0000 && c.uncompressed <= 0x2000_0000
    && z.compressor.checksum(payload) == c.checksum
    && var raw := z.compressor.decompress(payload);
    raw.None? || |raw.value| != c.uncompressed
  }

  lemma DecompressionFails(m: Machine, z: Packer, offset: nat, c: ChunkInfo, payload: seq<byte>, rest: seq<byte>,
                           acc: SegmentRead)
    requires Runs(m, z) && Undecompressed(z, c, payload)
    ensures m.read(offset, ChunkBytes(c, payload + rest), acc) == Done(Failing(acc, DecompressionFailed(c.index)))
  {
    PayloadBehind(payload, rest);
    ChunkIsReached(m, z, offset, c, payload + rest, acc);
  }

  /** Such a payload is refused. */
  lemma DecompressionIsChecked(
      z: Packer, header: seq<byte>, rs: seq<Record>, c: ChunkInfo, payload: seq<byte>, rest: seq<byte>)
    requires Good(z, header, rs) && Undecompressed(z, c, payload)
    ensures FailsAfter(ReadWith(z, header, rs, ChunkBytes(c, payload + rest)), rs, DecompressionFailed(c.index))
  {
    MachineInUse(z, header, rs);
    ReadWithMachine(z, header, rs, ChunkBytes(c, payload + rest));
    DecompressionIsCheckedBy(MACHINE(z), z, header, rs, c, payload, rest);
  }

  lemma DecompressionIsCheckedBy(
      m: Machine, z: Packer, header: seq<byte>, rs: seq<Record>, c: ChunkInfo, payload: seq<byte>, rest: seq<byte>)
    requires Runs(m, z) && Ready(m, header, rs) && Undecompressed(z, c, payload)
    ensures FailsAfter(MachineRead(m, header, rs, ChunkBytes(c, payload + rest)), rs, DecompressionFailed(c.index))
  {
    DecompressionFails(m, z, Position(m, header, rs), c, payload, rest, Before(m, header, rs));
    Refused(m, header, rs, ChunkBytes(c, payload + rest), DecompressionFailed(c.index));
  }

  /** The payload decompresses, but an event in it is refused. */
  predicate Undecoded(z: Packer, c: ChunkInfo, payload: seq<byte>, raw: seq<byte>) {
    && c.compressed == |payload| <= 0x1000_0000 && c.uncompressed == |raw| <= 0x2000_0000
    && z.compressor.checksum(payload) == c.checksum && z.compressor.decompress(payload) == Some(raw)
    && !z.decode(c.eventCount, raw).ok
  }

  function Undecodable(acc: SegmentRead, events: seq<Event>, index: u64): SegmentRead {
    acc.(events := acc.events + events, errors := acc.errors + [EventDecodeFailed(index)])
  }

  lemma DecodingFails(m: Machine, z: Packer, offset: nat, c: ChunkInfo, payload: seq<byte>, rest: seq<byte>,
                      raw: seq<byte>, acc: SegmentRead)
    requires Runs(m, z) && Undecoded(z, c, payload, raw)
    ensures m.read(offset, ChunkBytes(c, payload + rest), acc)
         == Done(Undecodable(acc, z.decode(c.eventCount, raw).events, c.index))
  {
    PayloadBehind(payload, rest);
    ChunkIsReached(m, z, offset, c, payload + rest, acc);
  }

  /** Such a chunk yields the events before the refused one, and ends the reading. */
  lemma BadEventsAreReported(
      z: Packer, header: seq<byte>, rs: seq<Record>, c: ChunkInfo, payload: seq<byte>, rest: seq<byte>, raw: seq<byte>)
    requires Good(z, header, rs) && Undecoded(z, c, payload, raw)
    ensures var read := ReadWith(z, header, rs, ChunkBytes(c, payload + rest));
            && read.events == EventsOf(rs) + z.decode(c.eventCount, raw).events
            && read.errors == [EventDecodeFailed(c.index)] && !read.hasFooter
  {
    MachineInUse(z, header, rs);
    ReadWithMachine(z, header, rs, ChunkBytes(c, payload + rest));
    BadEventsAreReportedBy(MACHINE(z), z, header, rs, c, payload, rest, raw);
  }

  lemma BadEventsAreReportedBy(
      m: Machine, z: Packer, header: seq<byte>, rs: seq<Record>, c: ChunkInfo, payload: seq<byte>, rest: seq<byte>,
      raw: seq<byte>)
    requires Runs(m, z) && Ready(m, header, rs) && Undecoded(z, c, payload, raw)
    ensures var read := MachineRead(m, header, rs, ChunkBytes(c, payload + rest));
            && read.events == EventsOf(rs) + z.decode(c.eventCount, raw).events
            && read.errors == [EventDecodeFailed(c.index)] && !read.hasFooter
  {
    var acc, events := Before(m, header, rs), z.decode(c.eventCount, raw).events;
    DecodingFails(m, z, Position(m, header, rs), c, payload, rest, raw, acc);
    StopsBehind(m, header, rs, ChunkBytes(c, payload + rest), Undecodable(acc, events, c.index));
    assert [] + EventsOf(rs) == EventsOf(rs) && [] + [EventDecodeFailed(c.index)] == [EventDecodeFailed(c.index)];
  }

  /** No chunk, index or footer. */
  predicate IsForeignTag(tag: seq<byte>) {
    |tag| == 4 && tag != [0x43, 0x48, 0x4e, 0x4b] && tag != [0x49, 0x4e, 0x44, 0x58] && tag != [0x46, 0x4f, 0x4f, 0x54]
  }

  lemma TagFails(m: Machine, z: Packer, offset: nat, tag: seq<byte>, rest: seq<byte>, acc: SegmentRead)
    requires Runs(m, z) && IsForeignTag(tag)
    ensures m.read(offset, tag + rest, acc) == Done(Failing(acc, UnknownTag(offset % TWO_64)))
  {
    assert (tag + rest)[..4] == tag;
    assert ReadRecord(z, offset, tag + rest, acc) == Done(Failing(acc, UnknownTag(offset % TWO_64)));
  }

  /** A record of no known kind ends the reading. */
  lemma UnknownRecordIsReported(z: Packer, header: seq<byte>, rs: seq<Record>, tag: seq<byte>, rest: seq<byte>)
    requires Good(z, header, rs) && IsForeignTag(tag)
    ensures FailsAfter(ReadWith(z, header, rs, tag + rest), rs,
                       UnknownTag((|header| + |RecordsBytes(z, rs)|) % TWO_64))
  {
    var m := MACHINE(z);
    MachineInUse(z, header, rs);
    ReadWithMachine(z, header, rs, tag + rest);
    UnknownRecordIsReportedBy(m, z, header, rs, tag, rest, |header| + |RecordsBytes(z, rs)|);
  }

  lemma UnknownRecordIsReportedBy(
      m: Machine, z: Packer, header: seq<byte>, rs: seq<Record>, tag: seq<byte>, rest: seq<byte>, offset: nat)
    requires Runs(m, z) && Ready(m, header, rs) && IsForeignTag(tag) && offset == Position(m, header, rs)
    ensures FailsAfter(MachineRead(m, header, rs, tag + rest), rs, UnknownTag(offset % TWO_64))
  {
    TagFails(m, z, offset, tag, rest, Before(m, header, rs));
    Refused(m, header, rs, tag + rest, UnknownTag(offset % TWO_64));
  }

  /** Footer counts are compared: the reader warns exactly if they are not those of
      the records it has read. */
  lemma FooterIsCompared(z: Packer, header: seq<byte>, rs: seq<Record>, f: Record)
    requires Lossless(z.compressor) && AllFit(z, rs) && Skipped(z, header) && NoFooter(rs)
    requires f.FooterRecord? && Fits(z, f)
    ensures var read := ReadSegment(z, SegmentBytes(z, header, rs + [f]));
            FooterCounts in read.warnings
            <==> f.chunks != ChunkCount(rs) % TWO_64 || f.count != |EventsOf(rs)| % TWO_64
  {
    ReadClosedRecords(z, |header|, rs, f);
    ClosedWarns(LISTING(z), RECORD_ENCODER(z), |header|, rs, f);
  }

  lemma ClosedWarns(info: Listing, enc: Record -> seq<byte>, offset: nat, rs: seq<Record>, f: Record)
    requires f.FooterRecord?
    ensures FooterCounts in Close(Collected(info, enc, offset, rs, NOTHING_READ), f).warnings
            <==> f.chunks != ChunkCount(rs) % TWO_64 || f.count != |EventsOf(rs)| % TWO_64
  {
    ChunkInfosSize(info, enc, offset, rs);
    assert [] + ChunkInfos(info, enc, offset, rs) == ChunkInfos(info, enc, offset, rs);
  }
}
