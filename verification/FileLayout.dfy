/** Where the numbers of a capture file are: at fixed offsets, little-endian. */
module FileLayout {
  import opened Words
  import opened Bytes
  import opened StructuredFields
  import opened EventCodec
  import opened Framing
  import opened CaptureSegment

  /** The `width` bytes from `offset` on are the number `v`, lowest byte first. */
  ghost predicate Holds(s: seq<byte>, offset: nat, width: nat, v: nat) {
    offset + width <= |s| && PodValue(s[offset..offset + width]) == v
  }

  lemma {:induction false} PodHolds(v: nat, width: nat, rest: seq<byte>)
    requires v < Pow256(width)
    ensures Holds(Pod(v, width) + rest, 0, width, v)
  {
    if width > 0 {
      PodHolds(v / 0x100, width - 1, rest);
      var bs := Pod(v, width);
      assert (Pod(v / 0x100, width - 1) + rest)[0..width - 1] == Pod(v / 0x100, width - 1);
      assert (bs + rest)[0..width] == bs && bs[1..] == Pod(v / 0x100, width - 1);
    }
  }

  /** A number that comes next is there, and what follows it comes next. */
  lemma Next(s: seq<byte>, n: nat, v: nat, width: nat, rest: seq<byte>)
    requires (width == 4 && v < TWO_32) || (width == 8 && v < TWO_64)
    requires n <= |s| && s[n..] == Pod(v, width) + rest
    ensures Holds(s, n, width, v) && n + width <= |s| && s[n + width..] == rest
  {
    Pow256At();
    PodHolds(v, width, rest);
    assert s[n..n + width] == (Pod(v, width) + rest)[0..width];
    assert s[n + width..] == s[n..][width..];
  }

  lemma NextByte(s: seq<byte>, n: nat, b: byte, rest: seq<byte>)
    requires n <= |s| && s[n..] == [b] + rest
    ensures n < |s| && s[n] == b && s[n + 1..] == rest
  {
    assert s[n] == s[n..][0] && s[n + 1..] == s[n..][1..];
  }

  lemma HoldsBehind(a: seq<byte>, s: seq<byte>, offset: nat, width: nat, v: nat)
    requires Holds(s, offset, width, v)
    ensures Holds(a + s, |a| + offset, width, v)
  {
    assert (a + s)[|a| + offset..|a| + offset + width] == s[offset..offset + width];
  }

  /** "SAVORSC" and a zero, the version, and the size of the metadata behind it. */
  lemma HeaderLayout(m: Metadata)
    requires |MetadataBytes(m)| < TWO_32
    ensures var s := HeaderBytes(m);
            && |s| == 16 + |MetadataBytes(m)|
            && s[..8] == [0x53, 0x41, 0x56, 0x4f, 0x52, 0x53, 0x43, 0x00]
            && Holds(s, 8, 4, 1) && Holds(s, 12, 4, |MetadataBytes(m)|) && s[16..] == MetadataBytes(m)
  {
    var body, s := MetadataBytes(m), HeaderBytes(m);
    Next(s, 8, VERSION, 4, Pod(|body|, 4) + body);
    Next(s, 12, |body|, 4, body);
  }

  /** When the capture was made, and five strings: session, source, executable,
      commit and profile. */
  lemma MetadataLayout(m: Metadata)
    ensures var s := MetadataBytes(m);
            && Holds(s, 0, 8, m.created)
            && s[8..] == StringBytes(m.session) + StringBytes(m.source) + StringBytes(m.executable)
                         + StringBytes(m.commit) + StringBytes(m.profile)
  {
    var strings := StringBytes(m.session) + (StringBytes(m.source) + (StringBytes(m.executable)
                   + (StringBytes(m.commit) + StringBytes(m.profile))));
    Next(MetadataBytes(m), 0, m.created, 8, strings);
  }

  /** The numbers of a chunk header. */
  ghost predicate ChunkNumbers(s: seq<byte>, at: nat, c: ChunkInfo) {
    && Holds(s, at, 8, c.index) && Holds(s, at + 8, 8, c.first) && Holds(s, at + 16, 8, c.last)
    && Holds(s, at + 24, 4, c.eventCount) && Holds(s, at + 28, 4, c.uncompressed)
    && Holds(s, at + 32, 4, c.compressed) && Holds(s, at + 36, 8, c.checksum)
  }

  lemma ChunkHeaderLayout(s: seq<byte>, at: nat, c: ChunkInfo, rest: seq<byte>)
    requires at <= |s| && s[at..] == ChunkHeaderBytes(c) + rest
    ensures ChunkNumbers(s, at, c) && at + 44 <= |s| && s[at + 44..] == rest
  {
    var s6 := Pod(c.checksum, 8) + rest;
    var s5 := Pod(c.compressed, 4) + s6;
    var s4 := Pod(c.uncompressed, 4) + s5;
    var s3 := Pod(c.eventCount, 4) + s4;
    var s2 := Pod(c.last, 8) + s3;
    var s1 := Pod(c.first, 8) + s2;
    HeaderChains(c, rest);
    Next(s, at, c.index, 8, s1);
    Next(s, at + 8, c.first, 8, s2);
    Next(s, at + 16, c.last, 8, s3);
    Next(s, at + 24, c.eventCount, 4, s4);
    Next(s, at + 28, c.uncompressed, 4, s5);
    Next(s, at + 32, c.compressed, 4, s6);
    Next(s, at + 36, c.checksum, 8, rest);
  }

  lemma HeaderChains(c: ChunkInfo, rest: seq<byte>)
    ensures ChunkHeaderBytes(c) + rest
         == Pod(c.index, 8) + (Pod(c.first, 8) + (Pod(c.last, 8) + (Pod(c.eventCount, 4)
            + (Pod(c.uncompressed, 4) + (Pod(c.compressed, 4) + (Pod(c.checksum, 8) + rest))))))
  {
    var s6 := Pod(c.checksum, 8);
    var s5 := Pod(c.compressed, 4) + s6;
    var s4 := Pod(c.uncompressed, 4) + s5;
    var s3 := Pod(c.eventCount, 4) + s4;
    var s2 := Pod(c.last, 8) + s3;
    Assoc(Pod(c.index, 8), Pod(c.first, 8) + s2, rest);
    Assoc(Pod(c.first, 8), s2, rest);
    Assoc(Pod(c.last, 8), s3, rest);
    Assoc(Pod(c.eventCount, 4), s4, rest);
    Assoc(Pod(c.uncompressed, 4), s5, rest);
    Assoc(Pod(c.compressed, 4), s6, rest);
  }

  /** "CHNK", the chunk's header, and 48 bytes in its payload. */
  lemma ChunkLayout(z: Packer, index: u64, es: seq<Event>)
    ensures var s, payload := RecordBytes(z, ChunkRecord(index, es)), z.compressor.compress(z.encode(es));
            && s[..4] == [0x43, 0x48, 0x4e, 0x4b] && s[48..] == payload
            && Holds(s, 4, 8, index)
            && (es != [] ==> Holds(s, 12, 8, es[0].recordSequence) && Holds(s, 20, 8, es[|es| - 1].recordSequence))
            && Holds(s, 28, 4, |es| % TWO_32) && Holds(s, 32, 4, |z.encode(es)| % TWO_32)
            && Holds(s, 36, 4, |payload| % TWO_32) && Holds(s, 40, 8, z.compressor.checksum(payload))
  {
    var c := ChunkInfoOf(z, index, 0, es);
    ChunkHeaderLayout(RecordBytes(z, ChunkRecord(index, es)), 4, c, Packed(z, es));
  }

  lemma {:induction false} EntryLayout(entries: seq<IndexEntry>, i: nat)
    requires i < |entries|
    ensures var s, e := Concat(EntryBytes, entries), entries[i];
            && Holds(s, 32 * i, 8, e.index) && Holds(s, 32 * i + 8, 8, e.offset)
            && Holds(s, 32 * i + 16, 8, e.first) && Holds(s, 32 * i + 24, 8, e.last)
  {
    var s, rest := Concat(EntryBytes, entries), Concat(EntryBytes, entries[1..]);
    if i > 0 {
      EntryLayout(entries[1..], i - 1);
      var e := entries[i];
      var here := 32 * (i - 1);
      HoldsBehind(EntryBytes(entries[0]), rest, here, 8, e.index);
      HoldsBehind(EntryBytes(entries[0]), rest, here + 8, 8, e.offset);
      HoldsBehind(EntryBytes(entries[0]), rest, here + 16, 8, e.first);
      HoldsBehind(EntryBytes(entries[0]), rest, here + 24, 8, e.last);
    } else {
      FirstEntry(s, entries[0], rest);
    }
  }

  lemma FirstEntry(s: seq<byte>, e: IndexEntry, rest: seq<byte>)
    requires s == EntryBytes(e) + rest
    ensures Holds(s, 0, 8, e.index) && Holds(s, 8, 8, e.offset) && Holds(s, 16, 8, e.first) && Holds(s, 24, 8, e.last)
  {
    var s3 := Pod(e.last, 8) + rest;
    var s2 := Pod(e.first, 8) + s3;
    EntryChains(e, rest);
    Next(s, 0, e.index, 8, Pod(e.offset, 8) + s2);
    Next(s, 8, e.offset, 8, s2);
    Next(s, 16, e.first, 8, s3);
    Next(s, 24, e.last, 8, rest);
  }

  lemma EntryChains(e: IndexEntry, rest: seq<byte>)
    ensures EntryBytes(e) + rest
         == Pod(e.index, 8) + (Pod(e.offset, 8) + (Pod(e.first, 8) + (Pod(e.last, 8) + rest)))
  {
    var s3 := Pod(e.last, 8);
    var s2 := Pod(e.first, 8) + s3;
    Assoc(Pod(e.index, 8), Pod(e.offset, 8) + s2, rest);
    Assoc(Pod(e.offset, 8), s2, rest);
    Assoc(Pod(e.first, 8), s3, rest);
  }

  /** "INDX", how many entries there are, and each entry in 32 bytes: the chunk, its
      offset in the file, and its first and last sequence. */
  lemma IndexLayout(z: Packer, entries: seq<IndexEntry>, i: nat)
    requires i < |entries| < TWO_32
    ensures var s, e := RecordBytes(z, IndexRecord(entries)), entries[i];
            && s[..4] == [0x49, 0x4e, 0x44, 0x58] && Holds(s, 4, 4, |entries|)
            && Holds(s, 8 + 32 * i, 8, e.index) && Holds(s, 16 + 32 * i, 8, e.offset)
            && Holds(s, 24 + 32 * i, 8, e.first) && Holds(s, 32 + 32 * i, 8, e.last)
  {
    var s, body, e := RecordBytes(z, IndexRecord(entries)), Concat(EntryBytes, entries), entries[i];
    Next(s, 4, |entries|, 4, body);
    EntryLayout(entries, i);
    BehindEight(s, body, 32 * i, e.index);
    BehindEight(s, body, 32 * i + 8, e.offset);
    BehindEight(s, body, 32 * i + 16, e.first);
    BehindEight(s, body, 32 * i + 24, e.last);
  }

  lemma BehindEight(s: seq<byte>, body: seq<byte>, offset: nat, v: nat)
    requires |s| >= 8 && s[8..] == body && Holds(body, offset, 8, v)
    ensures Holds(s, offset + 8, 8, v)
  {
    HoldsBehind(s[..8], body, offset, 8, v);
    assert s[..8] + body == s;
  }

  /** "FOOT", the counts of chunks and events, the offset of the last index, whether
      the capture is complete, and the reason why not. */
  lemma FooterLayout(z: Packer, chunks: u64, count: u64, lastIndex: u64, complete: bool, reason: Buffer)
    requires |reason| < TWO_32
    ensures var s := RecordBytes(z, FooterRecord(chunks, count, lastIndex, complete, reason));
            && s[..4] == [0x46, 0x4f, 0x4f, 0x54]
            && Holds(s, 4, 8, chunks) && Holds(s, 12, 8, count) && Holds(s, 20, 8, lastIndex)
            && s[28] == (if complete then 1 else 0) && Holds(s, 29, 4, |reason|) && s[33..] == reason
  {
    var s := RecordBytes(z, FooterRecord(chunks, count, lastIndex, complete, reason));
    var s5 := Pod(|reason|, 4) + reason;
    var s4 := [Flag(complete)] + s5;
    var s3 := Pod(lastIndex, 8) + s4;
    Next(s, 4, chunks, 8, Pod(count, 8) + s3);
    Next(s, 12, count, 8, s3);
    Next(s, 20, lastIndex, 8, s4);
    NextByte(s, 28, Flag(complete), s5);
    Next(s, 29, |reason|, 4, reason);
  }

  /** An event begins with seven varints, its sequence against that of the one
      before, then its kind, three 32-bit numbers, a value and its probe. */
  lemma EventLayout(st: DeltaState, e: Event)
    ensures var s, numbers := EventBytes(st, e), Concat(U64Varint, SequenceNumbers(st.prior, e));
            var n := |numbers|;
            && SequenceNumbers(st.prior, e)
               == [(e.recordSequence - st.prior) % TWO_64, e.captureSequence, e.monotonicNs, e.frameIndex,
                   e.epoch, e.revision, e.snapshot]
            && n + 21 <= |s| && s[..n] == numbers && s[n] == e.kind
            && Holds(s, n + 1, 4, e.pc) && Holds(s, n + 5, 4, e.address) && Holds(s, n + 9, 4, e.size)
            && Holds(s, n + 13, 8, e.value)
            && s[n + 21..] == StringBytes(e.probe) + BodyBytes(st.baselines, e)
  {
    var s, numbers := EventBytes(st, e), Concat(U64Varint, SequenceNumbers(st.prior, e));
    PlaceLayout(numbers, e, BodyBytes(st.baselines, e));
  }

  lemma PlaceLayout(front: seq<byte>, e: Event, body: seq<byte>)
    ensures var s, n := front + (PlaceBytes(e) + body), |front|;
            && n + 21 <= |s| && s[..n] == front && s[n] == e.kind
            && Holds(s, n + 1, 4, e.pc) && Holds(s, n + 5, 4, e.address) && Holds(s, n + 9, 4, e.size)
            && Holds(s, n + 13, 8, e.value) && s[n + 21..] == StringBytes(e.probe) + body
  {
    var s, n, rest := front + (PlaceBytes(e) + body), |front|, StringBytes(e.probe) + body;
    var s3 := Pod(e.value, 8) + rest;
    var s2 := Pod(e.size, 4) + s3;
    var s1 := Pod(e.address, 4) + s2;
    PlaceChains(e, body);
    assert s[n..] == PlaceBytes(e) + body;
    NextByte(s, n, e.kind, Pod(e.pc, 4) + s1);
    Next(s, n + 1, e.pc, 4, s1);
    Next(s, n + 5, e.address, 4, s2);
    Next(s, n + 9, e.size, 4, s3);
    Next(s, n + 13, e.value, 8, rest);
  }

  lemma PlaceChains(e: Event, rest: seq<byte>)
    ensures PlaceBytes(e) + rest
         == [e.kind] + (Pod(e.pc, 4) + (Pod(e.address, 4) + (Pod(e.size, 4)
            + (Pod(e.value, 8) + (StringBytes(e.probe) + rest)))))
  {
    var s4 := Pod(e.value, 8) + StringBytes(e.probe);
    var s3 := Pod(e.size, 4) + s4;
    var s2 := Pod(e.address, 4) + s3;
    var s1 := Pod(e.pc, 4) + s2;
    Assoc([e.kind], s1, rest);
    Assoc(Pod(e.pc, 4), s2, rest);
    Assoc(Pod(e.address, 4), s3, rest);
    Assoc(Pod(e.size, 4), s4, rest);
    Assoc(Pod(e.value, 8), StringBytes(e.probe), rest);
  }
}
