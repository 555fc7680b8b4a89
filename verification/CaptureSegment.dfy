/** A capture segment as a byte string: a file header followed by chunk, index
    and footer records, and the reader that walks the records. */
module CaptureSegment {
  import opened Words
  import opened Bytes
  import opened StructuredFields
  import opened EventCodec
  import CodecLoops
  import opened Framing

  const MAGIC: seq<byte> := [0x53, 0x41, 0x56, 0x4f, 0x52, 0x53, 0x43, 0x00]
  const TAG_CHUNK: seq<byte> := [0x43, 0x48, 0x4e, 0x4b]
  const TAG_INDEX: seq<byte> := [0x49, 0x4e, 0x44, 0x58]
  const TAG_FOOTER: seq<byte> := [0x46, 0x4f, 0x4f, 0x54]
  const VERSION: u32 := 1

  const MAX_METADATA: nat := 0x400_0000
  const MAX_COMPRESSED: nat := 0x1000_0000
  const MAX_UNCOMPRESSED: nat := 0x2000_0000

  /** The compressor and the checksum, which are foreign code. */
  datatype Compressor = Compressor(
    compress: seq<byte> -> seq<byte>,
    decompress: seq<byte> -> Option<seq<byte>>,
    checksum: seq<byte> -> u64)

  ghost predicate Lossless(c: Compressor) {
    forall x :: c.decompress(c.compress(x)) == Some(x)
  }

  // ------------------------------------------------------------- file header

  datatype Metadata = Metadata(
    created: u64, session: Buffer, source: Buffer, executable: Buffer, commit: Buffer, profile: Buffer)

  function MetadataBytes(m: Metadata): seq<byte> {
    Pod(m.created, 8) + (StringBytes(m.session) + (StringBytes(m.source)
    + (StringBytes(m.executable) + (StringBytes(m.commit) + StringBytes(m.profile)))))
  }

  function ReadMetadata(s: seq<byte>): Parsed<Metadata> {
    var (created, s) :- ReadU64(s);
    var (session, s) :- ReadString(s);
    var (source, s) :- ReadString(s);
    var (executable, s) :- ReadString(s);
    var (commit, s) :- ReadString(s);
    var (profile, s) :- ReadString(s);
    Parsed(Metadata(created, session, source, executable, commit, profile), s)
  }

  lemma MetadataRoundTrip(m: Metadata)
    ensures ReadMetadata(MetadataBytes(m)) == Parsed(m, [])
  {
    var s4 := StringBytes(m.commit) + StringBytes(m.profile);
    var s3 := StringBytes(m.executable) + s4;
    var s2 := StringBytes(m.source) + s3;
    var s1 := StringBytes(m.session) + s2;
    U64RoundTrip(m.created, s1);
    StringRoundTrip(m.session, s2);
    StringRoundTrip(m.source, s3);
    StringRoundTrip(m.executable, s4);
    StringRoundTrip(m.commit, StringBytes(m.profile));
    assert StringBytes(m.profile) + [] == StringBytes(m.profile);
    StringRoundTrip(m.profile, []);
  }

  datatype Error =
    | TruncatedHeader | InvalidMagic | UnsupportedVersion(version: u32)
    | MetadataTooLarge | TruncatedMetadata | InvalidMetadata
    | TruncatedChunkHeader | UnreasonableChunk | TruncatedPayload
    | ChecksumMismatch(chunk: u64) | DecompressionFailed(chunk: u64) | EventDecodeFailed(chunk: u64)
    | TruncatedIndexHeader | TruncatedFooter | TruncatedReason | UnknownTag(offset: u64)

  datatype Warning =
    | TrailingBytes(chunk: u64) | FooterCounts | MarkedIncomplete(reason: Buffer) | MissingFooter

  function HeaderBytes(m: Metadata): seq<byte> {
    MAGIC + (Pod(VERSION, 4) + (Pod(|MetadataBytes(m)|, 4) + MetadataBytes(m)))
  }

  datatype Header = BadHeader(error: Error) | GoodHeader(metadata: Metadata, rest: seq<byte>)

  /** read_file_header: all sixteen fixed bytes are read before any is judged. */
  function ReadFileHeader(s: seq<byte>): (h: Header)
    ensures h.GoodHeader? ==> |h.rest| <= |s|
  {
    if |s| < 16 then BadHeader(TruncatedHeader)
    else
      var version := ReadU32(s[8..]).value;
      var size := ReadU32(s[12..]).value;
      if s[..8] != MAGIC then BadHeader(InvalidMagic)
      else if version != VERSION then BadHeader(UnsupportedVersion(version))
      else if size > MAX_METADATA then BadHeader(MetadataTooLarge)
      else if |s| - 16 < size then BadHeader(TruncatedMetadata)
      else
        var m := ReadMetadata(s[16..][..size]);
        if m.Parsed? && m.rest == [] then GoodHeader(m.value, s[16..][size..])
        else BadHeader(InvalidMetadata)
  }

  lemma FileHeaderRoundTrip(m: Metadata, rest: seq<byte>)
    requires |MetadataBytes(m)| <= MAX_METADATA
    ensures ReadFileHeader(HeaderBytes(m) + rest) == GoodHeader(m, rest)
  {
    var body := MetadataBytes(m);
    var s := HeaderBytes(m) + rest;
    HeaderParts(m, rest);
    U32RoundTrip(VERSION, Pod(|body|, 4) + (body + rest));
    U32RoundTrip(|body|, body + rest);
    MetadataRoundTrip(m);
  }

  lemma HeaderParts(m: Metadata, rest: seq<byte>)
    ensures var body, s := MetadataBytes(m), HeaderBytes(m) + rest;
            && |s| == 16 + |body| + |rest| && s[..8] == MAGIC
            && s[8..] == Pod(VERSION, 4) + (Pod(|body|, 4) + (body + rest))
            && s[12..] == Pod(|body|, 4) + (body + rest)
            && s[16..][..|body|] == body && s[16..][|body|..] == rest
  {
    var body, s := MetadataBytes(m), HeaderBytes(m) + rest;
    assert s[16..] == body + rest;
  }

  /** A header cut anywhere is reported as truncated. */
  lemma CutHeader(m: Metadata, cut: nat)
    requires |MetadataBytes(m)| <= MAX_METADATA && cut < |HeaderBytes(m)|
    ensures ReadFileHeader(HeaderBytes(m)[..cut]) == BadHeader(if cut < 16 then TruncatedHeader else TruncatedMetadata)
  {
    if cut >= 16 {
      var body, s := MetadataBytes(m), HeaderBytes(m)[..cut];
      assert s[..8] == MAGIC;
      assert s[8..] == Pod(VERSION, 4) + (Pod(|body|, 4) + body[..cut - 16]);
      U32RoundTrip(VERSION, Pod(|body|, 4) + body[..cut - 16]);
      assert s[12..] == Pod(|body|, 4) + body[..cut - 16];
      U32RoundTrip(|body|, body[..cut - 16]);
    }
  }

  // ------------------------------------------------------------------ format

  /** What the framing of a segment needs to know: how a file header is read
      and how a chunk of events becomes a payload and back. `CapturePacker` is
      the one in use. */
  datatype Packer = Packer(
    header: seq<byte> -> Header,
    encode: seq<Event> -> seq<byte>,
    decode: (nat, seq<byte>) -> Decoded,
    compressor: Compressor)

  function CapturePacker(c: Compressor): Packer {
    Packer(ReadFileHeader, es => EncodeEvents(FRESH, es), (n: nat, raw) => DecodeEvents(FRESH, n, raw), c)
  }

  /** The packer runs the event codec, over whatever compressor. */
  ghost predicate UsesCodec(z: Packer) {
    && (forall s {:trigger ReadFileHeader(s)} :: z.header(s) == ReadFileHeader(s))
    && (forall es {:trigger EncodeEvents(FRESH, es)} :: z.encode(es) == EncodeEvents(FRESH, es))
    && (forall n: nat, raw {:trigger DecodeEvents(FRESH, n, raw)} :: z.decode(n, raw) == DecodeEvents(FRESH, n, raw))
  }

  lemma CapturePackerUsesCodec(c: Compressor)
    ensures UsesCodec(CapturePacker(c))
  {
  }

  /** A chunk is packed and unpacked by the loops of the codec. */
  method EncodePayload(z: Packer, es: seq<Event>) returns (raw: seq<byte>)
    requires UsesCodec(z)
    ensures raw == z.encode(es)
  {
    raw := CodecLoops.EncodeChunk(es);
  }

  method DecodePayload(z: Packer, n: nat, raw: seq<byte>) returns (d: Decoded)
    requires UsesCodec(z)
    ensures d == z.decode(n, raw)
  {
    d := CodecLoops.DecodeChunk(n, raw);
  }

  // ------------------------------------------------------------------ chunks

  datatype ChunkInfo = ChunkInfo(
    index: u64, offset: u64, first: u64, last: u64,
    eventCount: u32, uncompressed: u32, compressed: u32, checksum: u64)

  function ChunkHeaderBytes(c: ChunkInfo): seq<byte> {
    Pod(c.index, 8) + (Pod(c.first, 8) + (Pod(c.last, 8) + (Pod(c.eventCount, 4)
    + (Pod(c.uncompressed, 4) + (Pod(c.compressed, 4) + Pod(c.checksum, 8))))))
  }

  function ReadChunkHeader(offset: u64, s: seq<byte>): (r: Parsed<ChunkInfo>)
    ensures r.Parsed? <==> |s| >= 44
    ensures r.Parsed? ==> |r.rest| + 44 == |s|
  {
    var (index, s) :- ReadU64(s);
    var (first, s) :- ReadU64(s);
    var (last, s) :- ReadU64(s);
    var (eventCount, s) :- ReadU32(s);
    var (uncompressed, s) :- ReadU32(s);
    var (compressed, s) :- ReadU32(s);
    var (checksum, s) :- ReadU64(s);
    Parsed(ChunkInfo(index, offset, first, last, eventCount, uncompressed, compressed, checksum), s)
  }

  lemma ChunkHeaderRoundTrip(c: ChunkInfo, rest: seq<byte>)
    ensures ReadChunkHeader(c.offset, ChunkHeaderBytes(c) + rest) == Parsed(c, rest)
  {
    var s6 := Pod(c.checksum, 8);
    var s5 := Pod(c.compressed, 4) + s6;
    var s4 := Pod(c.uncompressed, 4) + s5;
    var s3 := Pod(c.eventCount, 4) + s4;
    var s2 := Pod(c.last, 8) + s3;
    var s1 := Pod(c.first, 8) + s2;
    Assoc(Pod(c.index, 8), s1, rest);
    Assoc(Pod(c.first, 8), s2, rest);
    Assoc(Pod(c.last, 8), s3, rest);
    Assoc(Pod(c.eventCount, 4), s4, rest);
    Assoc(Pod(c.uncompressed, 4), s5, rest);
    Assoc(Pod(c.compressed, 4), s6, rest);
    U64RoundTrip(c.index, s1 + rest);
    U64RoundTrip(c.first, s2 + rest);
    U64RoundTrip(c.last, s3 + rest);
    U32RoundTrip(c.eventCount, s4 + rest);
    U32RoundTrip(c.uncompressed, s5 + rest);
    U32RoundTrip(c.compressed, s6 + rest);
    U64RoundTrip(c.checksum, rest);
  }

  // ----------------------------------------------------------------- records

  datatype IndexEntry = IndexEntry(index: u64, offset: u64, first: u64, last: u64)

  datatype Record =
    | ChunkRecord(index: u64, events: seq<Event>)
    | IndexRecord(entries: seq<IndexEntry>)
    | FooterRecord(chunks: u64, count: u64, lastIndex: u64, complete: bool, reason: Buffer)

  function FirstSequence(es: seq<Event>): u64 {
    if es == [] then 0 else es[0].recordSequence
  }

  function LastSequence(es: seq<Event>): u64 {
    if es == [] then 0 else es[|es| - 1].recordSequence
  }

  function Packed(z: Packer, es: seq<Event>): seq<byte> {
    z.compressor.compress(z.encode(es))
  }

  /** The header flush_chunk fills in; sizes are cast to 32 bits. */
  function ChunkInfoOf(z: Packer, index: u64, offset: u64, es: seq<Event>): ChunkInfo {
    ChunkInfo(index, offset, FirstSequence(es), LastSequence(es), |es| % TWO_32,
              |z.encode(es)| % TWO_32, |Packed(z, es)| % TWO_32, z.compressor.checksum(Packed(z, es)))
  }

  function EntryBytes(e: IndexEntry): (bs: seq<byte>)
    ensures |bs| == 32
  {
    Pod(e.index, 8) + (Pod(e.offset, 8) + (Pod(e.first, 8) + Pod(e.last, 8)))
  }

  function FooterBytes(chunks: u64, count: u64, lastIndex: u64, complete: bool, reason: seq<byte>): seq<byte> {
    Pod(chunks, 8) + (Pod(count, 8) + (Pod(lastIndex, 8) + ([Flag(complete)]
    + (Pod(|reason|, 4) + reason))))
  }

  function RecordBytes(z: Packer, r: Record): seq<byte> {
    match r
    case ChunkRecord(index, es) => TAG_CHUNK + (ChunkHeaderBytes(ChunkInfoOf(z, index, 0, es)) + Packed(z, es))
    case IndexRecord(entries) => TAG_INDEX + (Pod(|entries|, 4) + Concat(EntryBytes, entries))
    case FooterRecord(chunks, count, lastIndex, complete, reason) =>
      TAG_FOOTER + FooterBytes(chunks, count, lastIndex, complete, reason)
  }

  const RECORD_ENCODER: Packer -> Record -> seq<byte> := (z: Packer) => (r: Record) => RecordBytes(z, r)

  function RecordsBytes(z: Packer, rs: seq<Record>): seq<byte> {
    Concat(RECORD_ENCODER(z), rs)
  }

  function SegmentBytes(z: Packer, header: seq<byte>, rs: seq<Record>): seq<byte> {
    header + RecordsBytes(z, rs)
  }

  // ------------------------------------------------------------------ reader

  /** What read_segment has collected; `events` is the caller's vector. */
  datatype SegmentRead = SegmentRead(
    chunks: seq<ChunkInfo>, eventCount: u64, events: seq<Event>, hasFooter: bool, complete: bool,
    reason: Buffer, errors: seq<Error>, warnings: seq<Warning>)

  const NOTHING_READ: SegmentRead := SegmentRead([], 0, [], false, false, [], [], [])

  function WithoutFooter(acc: SegmentRead): SegmentRead {
    acc.(warnings := acc.warnings + [MissingFooter])
  }

  function Stop(acc: SegmentRead, e: Error): Step<SegmentRead> {
    Done(WithoutFooter(acc.(errors := acc.errors + [e])))
  }

  /** The payload of a chunk whose header has been read. A refused event ends
      the whole read at once, keeping the events decoded before it. */
  function ReadPayload(z: Packer, offset: nat, c: ChunkInfo, s: seq<byte>, acc: SegmentRead)
    : (r: Step<SegmentRead>)
    ensures r.More? ==> |r.rest| <= |s|
  {
    if c.compressed > MAX_COMPRESSED || c.uncompressed > MAX_UNCOMPRESSED then Stop(acc, UnreasonableChunk)
    else if |s| < c.compressed then Stop(acc, TruncatedPayload)
    else if z.compressor.checksum(s[..c.compressed]) != c.checksum then Stop(acc, ChecksumMismatch(c.index))
    else match z.compressor.decompress(s[..c.compressed])
      case None => Stop(acc, DecompressionFailed(c.index))
      case Some(raw) =>
        if |raw| != c.uncompressed then Stop(acc, DecompressionFailed(c.index))
        else
          var d := z.decode(c.eventCount, raw);
          if !d.ok then Done(acc.(events := acc.events + d.events,
                                  errors := acc.errors + [EventDecodeFailed(c.index)]))
          else More(acc.(chunks := acc.chunks + [c],
                         eventCount := (acc.eventCount + c.eventCount) % TWO_64,
                         events := acc.events + d.events,
                         warnings := if d.rest == [] then acc.warnings
                                     else acc.warnings + [TrailingBytes(c.index)]),
                    s[c.compressed..], offset + 48 + c.compressed)
  }

  function ReadChunk(z: Packer, offset: nat, s: seq<byte>, acc: SegmentRead): (r: Step<SegmentRead>)
    ensures r.More? ==> |r.rest| <= |s|
  {
    match ReadChunkHeader(offset % TWO_64, s)
    case Failed => Stop(acc, TruncatedChunkHeader)
    case Parsed(c, rest) => ReadPayload(z, offset, c, rest, acc)
  }

  /** The body is skipped by a seek, which succeeds beyond the end of a file. */
  function ReadIndex(offset: nat, s: seq<byte>, acc: SegmentRead): (r: Step<SegmentRead>)
    ensures r.More? ==> |r.rest| <= |s|
  {
    match ReadU32(s)
    case Failed => Stop(acc, TruncatedIndexHeader)
    case Parsed(count, s) =>
      More(acc, if 32 * count <= |s| then s[32 * count..] else [], offset + 8 + 32 * count)
  }

  function ReadFooterFields(s: seq<byte>): (r: Parsed<(u64, u64, byte, u32)>)
    ensures r.Parsed? <==> |s| >= 29
    ensures r.Parsed? ==> |r.rest| + 29 == |s|
  {
    var (chunks, s) :- ReadU64(s);
    var (count, s) :- ReadU64(s);
    var (lastIndex, s) :- ReadU64(s);
    var (complete, s) :- ReadByte(s);
    var (size, s) :- ReadU32(s);
    Parsed((chunks, count, complete, size), s)
  }

  function ReadFooter(s: seq<byte>, acc: SegmentRead): (r: Step<SegmentRead>)
    ensures r.Done?
  {
    match ReadFooterFields(s)
    case Failed => Stop(acc, TruncatedFooter)
    case Parsed((chunks, count, complete, size), s) =>
      if |s| < size then Stop(acc, TruncatedReason)
      else
        var reason := s[..size];
        var counts := if chunks != |acc.chunks| % TWO_64 || count != acc.eventCount then [FooterCounts] else [];
        var marked := if complete == 0 && reason != [] then [MarkedIncomplete(reason)] else [];
        Done(acc.(hasFooter := true, complete := complete != 0, reason := reason,
                  warnings := acc.warnings + counts + marked))
  }

  function ReadRecord(z: Packer, offset: nat, s: seq<byte>, acc: SegmentRead): (r: Step<SegmentRead>)
    ensures r.More? ==> |r.rest| < |s|
  {
    if |s| < 4 then Done(WithoutFooter(acc))
    else if s[..4] == TAG_CHUNK then ReadChunk(z, offset, s[4..], acc)
    else if s[..4] == TAG_INDEX then ReadIndex(offset, s[4..], acc)
    else if s[..4] == TAG_FOOTER then ReadFooter(s[4..], acc)
    else Stop(acc, UnknownTag(offset % TWO_64))
  }

  const RECORD_READER: Packer -> (nat, seq<byte>, SegmentRead) -> Step<SegmentRead> :=
    (z: Packer) => (offset: nat, s: seq<byte>, acc: SegmentRead) => ReadRecord(z, offset, s, acc)

  /** read_segment, from the first record on. */
  function ReadRecords(z: Packer, offset: nat, s: seq<byte>, acc: SegmentRead): SegmentRead {
    Walk(RECORD_READER(z), offset, s, acc)
  }

  /** The position of the first record. */
  function Consumed(file: seq<byte>, rest: seq<byte>): nat {
    if |rest| <= |file| then |file| - |rest| else 0
  }

  function ReadSegment(z: Packer, file: seq<byte>): SegmentRead {
    match z.header(file)
    case BadHeader(e) => NOTHING_READ.(errors := [e])
    case GoodHeader(m, rest) => ReadRecords(z, Consumed(file, rest), rest, NOTHING_READ)
  }

  method ReadPayloadStep(z: Packer, offset: nat, c: ChunkInfo, s: seq<byte>, acc: SegmentRead)
    returns (r: Step<SegmentRead>)
    requires UsesCodec(z)
    ensures r == ReadPayload(z, offset, c, s, acc)
  {
    if c.compressed > MAX_COMPRESSED || c.uncompressed > MAX_UNCOMPRESSED {
      return Stop(acc, UnreasonableChunk);
    }
    if |s| < c.compressed {
      return Stop(acc, TruncatedPayload);
    }
    var packed := s[..c.compressed];
    if z.compressor.checksum(packed) != c.checksum {
      return Stop(acc, ChecksumMismatch(c.index));
    }
    var raw := z.compressor.decompress(packed);
    if raw.None? || |raw.value| != c.uncompressed {
      return Stop(acc, DecompressionFailed(c.index));
    }
    var d := DecodePayload(z, c.eventCount, raw.value);
    var read := acc.(events := acc.events + d.events);
    if !d.ok {
      return Done(read.(errors := acc.errors + [EventDecodeFailed(c.index)]));
    }
    if d.rest != [] {
      read := read.(warnings := acc.warnings + [TrailingBytes(c.index)]);
    }
    read := read.(eventCount := (acc.eventCount + c.eventCount) % TWO_64, chunks := acc.chunks + [c]);
    r := More(read, s[c.compressed..], offset + 48 + c.compressed);
  }

  /** One turn of the record loop. */
  method ReadRecordStep(z: Packer, offset: nat, s: seq<byte>, acc: SegmentRead) returns (r: Step<SegmentRead>)
    requires UsesCodec(z)
    ensures r == RECORD_READER(z)(offset, s, acc)
  {
    if |s| < 4 {
      return Done(WithoutFooter(acc));
    }
    var tag, body := s[..4], s[4..];
    if tag == TAG_CHUNK {
      var head := ReadChunkHeader(offset % TWO_64, body);
      if head.Failed? {
        return Stop(acc, TruncatedChunkHeader);
      }
      r := ReadPayloadStep(z, offset, head.value, head.rest, acc);
    } else if tag == TAG_INDEX {
      r := ReadIndex(offset, body, acc);
    } else if tag == TAG_FOOTER {
      r := ReadFooter(body, acc);
    } else {
      r := Stop(acc, UnknownTag(offset % TWO_64));
    }
  }

  method ReadRecordsLoop(z: Packer, start: nat, s: seq<byte>, acc: SegmentRead) returns (read: SegmentRead)
    requires UsesCodec(z)
    ensures read == ReadRecords(z, start, s, acc)
  {
    ghost var reader := RECORD_READER(z);
    var rest, offset, open := s, start, true;
    read := acc;
    while open
      invariant if open then Walk(reader, offset, rest, read) == Walk(reader, start, s, acc)
                else read == Walk(reader, start, s, acc)
      decreases open, |rest|
    {
      var step := ReadRecordStep(z, offset, rest, read);
      read, open := step.read, step.More? && |step.rest| < |rest|;
      if open {
        rest, offset := step.rest, step.offset;
      }
    }
  }

  method ReadSegmentLoop(z: Packer, file: seq<byte>) returns (read: SegmentRead)
    requires UsesCodec(z)
    ensures read == ReadSegment(z, file)
  {
    var header := ReadFileHeader(file);
    match header
    case BadHeader(e) =>
      read := NOTHING_READ.(errors := [e]);
    case GoodHeader(m, rest) =>
      read := ReadRecordsLoop(z, Consumed(file, rest), rest, NOTHING_READ);
  }
}
