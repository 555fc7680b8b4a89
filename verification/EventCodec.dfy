/** The delta codec of capture events: each probe's fields are written in full
    once (a keyframe) and afterwards as a change bitmap against the fields last
    seen under the same baseline key. */
module EventCodec {
  import opened Words
  import opened Bytes
  import opened StructuredFields

  const KIND_GAP: byte := 6
  const MAX_FIELDS: nat := 65536

  datatype Event = Event(
    captureSequence: u64, recordSequence: u64, monotonicNs: u64, frameIndex: u64,
    epoch: u64, revision: u64, snapshot: u64, kind: byte, pc: u32, address: u32,
    size: u32, value: u64, probe: Buffer, fields: seq<Field>)

  /** What both sides carry from one event of a chunk to the next. */
  datatype DeltaState = DeltaState(prior: u64, baselines: map<seq<byte>, seq<Field>>)

  const FRESH: DeltaState := DeltaState(0, map[])

  // ----------------------------------------------------------- baseline keys

  const SEPARATOR: byte := 0x1f

  function Decimal(n: nat): (ds: seq<byte>)
    ensures SEPARATOR !in ds
  {
    if n < 10 then [0x30 + n] else Decimal(n / 10) + [0x30 + n % 10]
  }

  function BaselineKey(e: Event): seq<byte> {
    e.probe + [SEPARATOR] + Decimal(e.epoch) + [SEPARATOR] + Decimal(e.revision)
  }

  lemma {:induction false} DecimalInjective(m: nat, n: nat)
    requires Decimal(m) == Decimal(n)
    ensures m == n
  {
    var a, b := Decimal(m), Decimal(n);
    assert a[|a| - 1] == b[|b| - 1];
    assert a[..|a| - 1] == b[..|b| - 1];
    if m >= 10 && n >= 10 {
      assert a[..|a| - 1] == Decimal(m / 10) && b[..|b| - 1] == Decimal(n / 10);
      DecimalInjective(m / 10, n / 10);
    } else if m >= 10 {
      assert a[..|a| - 1] == Decimal(m / 10);
      DecimalNonEmpty(m / 10);
    } else if n >= 10 {
      assert b[..|b| - 1] == Decimal(n / 10);
      DecimalNonEmpty(n / 10);
    }
  }

  lemma DecimalNonEmpty(n: nat)
    ensures Decimal(n) != []
  {
  }

  lemma {:induction false} SplitAtLastSeparator(a: seq<byte>, b: seq<byte>, x: seq<byte>, y: seq<byte>)
    requires SEPARATOR !in x && SEPARATOR !in y
    requires a + [SEPARATOR] + x == b + [SEPARATOR] + y
    ensures a == b && x == y
  {
    var s, t := a + [SEPARATOR] + x, b + [SEPARATOR] + y;
    assert s[|a|] == SEPARATOR && t[|b|] == SEPARATOR;
    assert forall i :: |b| < i < |t| ==> t[i] in y;
    assert forall i :: |a| < i < |s| ==> s[i] in x;
    assert |a| == |b|;
    assert s[..|a|] == a && t[..|b|] == b;
    assert s[|a| + 1..] == x && t[|b| + 1..] == y;
  }

  /** Two events share a baseline only if they agree on probe, epoch and
      profile revision, even when probe names contain separators or digits. */
  lemma BaselineKeyIdentifies(d: Event, e: Event)
    ensures BaselineKey(d) == BaselineKey(e) <==>
            d.probe == e.probe && d.epoch == e.epoch && d.revision == e.revision
  {
    if BaselineKey(d) == BaselineKey(e) {
      SplitAtLastSeparator(d.probe + [SEPARATOR] + Decimal(d.epoch), e.probe + [SEPARATOR] + Decimal(e.epoch),
                           Decimal(d.revision), Decimal(e.revision));
      SplitAtLastSeparator(d.probe, e.probe, Decimal(d.epoch), Decimal(e.epoch));
      DecimalInjective(d.epoch, e.epoch);
      DecimalInjective(d.revision, e.revision);
    }
  }

  // ----------------------------------------------------------- change bitmap

  function PackBits(flags: seq<bool>): nat {
    if flags == [] then 0 else (if flags[0] then 1 else 0) + 2 * PackBits(flags[1..])
  }

  /** `(b & (1 << i)) != 0` */
  predicate Bit(b: nat, i: nat) {
    if i == 0 then b % 2 == 1 else Bit(b / 2, i - 1)
  }

  lemma {:induction false} PackedByteBound(flags: seq<bool>)
    requires |flags| <= 8
    ensures PackBits(flags) < 0x100
  {
    PackedBound(flags, 8);
    assert Two(8) == 0x100;
  }

  ghost function Two(n: nat): nat {
    if n == 0 then 1 else 2 * Two(n - 1)
  }

  lemma {:induction false} PackedBound(flags: seq<bool>, n: nat)
    requires |flags| <= n
    ensures PackBits(flags) < Two(n)
  {
    if flags != [] {
      PackedBound(flags[1..], n - 1);
    } else if n > 0 {
      PackedBound(flags, n - 1);
    }
  }

  function Bitmap(flags: seq<bool>): (bs: seq<byte>)
    ensures |bs| == (|flags| + 7) / 8
  {
    if flags == [] then []
    else
      var head := if |flags| <= 8 then flags else flags[..8];
      PackedByteBound(head);
      [PackBits(head)] + if |flags| <= 8 then [] else Bitmap(flags[8..])
  }

  function BitmapFlags(bitmap: seq<byte>, n: nat): (flags: seq<bool>)
    requires |bitmap| == (n + 7) / 8
  {
    seq(n, i requires 0 <= i < n => Bit(bitmap[i / 8], i % 8))
  }

  lemma {:induction false} PackedBit(flags: seq<bool>, i: nat)
    requires i < |flags|
    ensures Bit(PackBits(flags), i) == flags[i]
  {
    if i > 0 {
      PackedBit(flags[1..], i - 1);
    }
  }

  lemma {:induction false} BitmapBit(flags: seq<bool>, k: nat, j: nat)
    requires j < 8 && 8 * k + j < |flags|
    ensures Bit(Bitmap(flags)[k], j) == flags[8 * k + j]
  {
    if k == 0 {
      PackedBit(if |flags| <= 8 then flags else flags[..8], j);
    } else {
      BitmapBit(flags[8..], k - 1, j);
    }
  }

  lemma BitmapBitAt(flags: seq<bool>, i: nat)
    requires i < |flags|
    ensures Bit(Bitmap(flags)[i / 8], i % 8) == flags[i]
  {
    var k, j := i / 8, i % 8;
    assert i == 8 * k + j;
    BitmapBit(flags, k, j);
  }

  lemma BitmapRoundTrip(flags: seq<bool>)
    ensures BitmapFlags(Bitmap(flags), |flags|) == flags
  {
    var read := BitmapFlags(Bitmap(flags), |flags|);
    forall i | 0 <= i < |flags| ensures read[i] == flags[i] {
      BitmapBitAt(flags, i);
    }
  }

  // --------------------------------------------------------------- encoding

  predicate SameShape(base: seq<Field>, fields: seq<Field>) {
    |base| == |fields| &&
    forall i :: 0 <= i < |base| ==> base[i].name == fields[i].name && base[i].typ == fields[i].typ
  }

  predicate NeedsKeyframe(baselines: map<seq<byte>, seq<Field>>, e: Event) {
    BaselineKey(e) !in baselines || !SameShape(baselines[BaselineKey(e)], e.fields)
  }

  /** Blobs are always rewritten; other fields when any part of them changed. */
  function Changed(base: seq<Field>, fields: seq<Field>): (flags: seq<bool>)
    requires |base| == |fields|
    ensures |flags| == |fields|
  {
    seq(|fields|, i requires 0 <= i < |fields| => UsesBlob(fields[i].typ) || fields[i] != base[i])
  }

  /** The encodings of the flagged elements. */
  function ChangedBytes<T>(enc: T -> seq<byte>, xs: seq<T>, flags: seq<bool>): seq<byte>
    requires |xs| == |flags|
  {
    if xs == [] then []
    else (if flags[0] then enc(xs[0]) else []) + ChangedBytes(enc, xs[1..], flags[1..])
  }

  function KeyFieldBytes(f: Field): seq<byte> {
    StringBytes(f.name) + ([f.typ] + FieldValueBytes(f))
  }

  const SEQUENCE_COUNT: nat := 7

  function SequenceNumbers(prior: u64, e: Event): seq<u64> {
    [(e.recordSequence - prior) % TWO_64, e.captureSequence, e.monotonicNs, e.frameIndex,
     e.epoch, e.revision, e.snapshot]
  }

  function PlaceBytes(e: Event): seq<byte> {
    [e.kind] + (Pod(e.pc, 4) + (Pod(e.address, 4) + (Pod(e.size, 4)
    + (Pod(e.value, 8) + StringBytes(e.probe)))))
  }

  function DeltaBytes(base: seq<Field>, fields: seq<Field>): seq<byte>
    requires |base| == |fields|
  {
    var flags := Changed(base, fields);
    StringBytes(Bitmap(flags)) + ChangedBytes(FieldValueBytes, fields, flags)
  }

  function BodyBytes(baselines: map<seq<byte>, seq<Field>>, e: Event): seq<byte> {
    if NeedsKeyframe(baselines, e)
    then [1] + CountedBytes(KeyFieldBytes, e.fields)
    else [0] + (VarintBytes(|e.fields|) + DeltaBytes(baselines[BaselineKey(e)], e.fields))
  }

  const U64Varint: u64 -> seq<byte> := (v: u64) => VarintBytes(v)

  /** encode_event, as the bytes it appends. */
  function EventBytes(st: DeltaState, e: Event): seq<byte> {
    Concat(U64Varint, SequenceNumbers(st.prior, e)) + (PlaceBytes(e) + BodyBytes(st.baselines, e))
  }

  /** The state both sides reach after an event. */
  function Advance(st: DeltaState, e: Event): DeltaState {
    DeltaState(e.recordSequence,
               if e.kind == KIND_GAP then map[] else st.baselines[BaselineKey(e) := e.fields])
  }

  function EncodeEvents(st: DeltaState, es: seq<Event>): seq<byte>
    decreases |es|
  {
    if es == [] then [] else EventBytes(st, es[0]) + EncodeEvents(Advance(st, es[0]), es[1..])
  }

  // --------------------------------------------------------------- decoding

  function ReadPlace(s: seq<byte>): Parsed<(byte, u32, u32, u32, u64, Buffer)> {
    var (kind, s) :- ReadByte(s);
    var (pc, s) :- ReadU32(s);
    var (address, s) :- ReadU32(s);
    var (size, s) :- ReadU32(s);
    var (value, s) :- ReadU64(s);
    var (probe, s) :- ReadString(s);
    Parsed((kind, pc, address, size, value, probe), s)
  }

  function HeaderEvent(prior: u64, n: seq<u64>, p: (byte, u32, u32, u32, u64, Buffer)): Event
    requires |n| == SEQUENCE_COUNT
  {
    Event(n[1], (prior + n[0]) % TWO_64, n[2], n[3], n[4], n[5], n[6],
          p.0, p.1, p.2, p.3, p.4, p.5, [])
  }

  function ReadHeader(prior: u64, s: seq<byte>): Parsed<Event> {
    var (n, s) :- ReadMany(ReadVarint, SEQUENCE_COUNT, s);
    var (p, s) :- ReadPlace(s);
    Parsed(HeaderEvent(prior, n, p), s)
  }

  function BlankField(name: Buffer, typ: byte): Field {
    Field(name, typ, 0, 0, [], None, None, None)
  }

  function ReadKeyField(s: seq<byte>): Parsed<Field> {
    var (name, s) :- ReadString(s);
    var (typ, s) :- ReadByte(s);
    ReadFieldValue(BlankField(name, typ), s)
  }

  /** Flagged elements are read onto the old ones, the others kept. */
  function ReadChanged<T>(read: (T, seq<byte>) -> Parsed<T>, base: seq<T>, flags: seq<bool>, s: seq<byte>)
    : (r: Parsed<seq<T>>)
    requires |base| == |flags|
    ensures r.Parsed? ==> |r.value| == |base|
  {
    if base == [] then Parsed([], s)
    else
      var (x, s) :- if flags[0] then read(base[0], s) else Parsed(base[0], s);
      var (xs, s) :- ReadChanged(read, base[1..], flags[1..], s);
      Parsed([x] + xs, s)
  }

  /** A bitmap of the wrong size for the baseline is refused. */
  function ReadDelta(base: seq<Field>, s: seq<byte>): Parsed<seq<Field>> {
    var (bitmap, s) :- ReadString(s);
    if |bitmap| != (|base| + 7) / 8 then Failed
    else ReadChanged(ReadFieldValue, base, BitmapFlags(bitmap, |base|), s)
  }

  function ReadBody(baselines: map<seq<byte>, seq<Field>>, key: seq<byte>, s: seq<byte>): Parsed<seq<Field>> {
    var (keyframe, s) :- ReadByte(s);
    if keyframe != 0 then ReadCounted(ReadKeyField, MAX_FIELDS, s)
    else
      var (count, s) :- ReadVarint(s);
      if count > MAX_FIELDS || key !in baselines || |baselines[key]| != count then Failed
      else ReadDelta(baselines[key], s)
  }

  /** decode_event. The state after a success is `Advance(st, event)`. */
  function ReadEvent(st: DeltaState, s: seq<byte>): Parsed<Event> {
    var (e, s) :- ReadHeader(st.prior, s);
    var (fields, s) :- ReadBody(st.baselines, BaselineKey(e), s);
    Parsed(e.(fields := fields), s)
  }

  /** The events decoded before the count is reached or an event is refused. */
  datatype Decoded = Decoded(events: seq<Event>, ok: bool, rest: seq<byte>)

  function DecodeWith(
      read: (DeltaState, seq<byte>) -> Parsed<Event>, st: DeltaState, n: nat, s: seq<byte>): Decoded
    decreases n
  {
    if n == 0 then Decoded([], true, s)
    else match read(st, s)
      case Failed => Decoded([], false, s)
      case Parsed(e, rest) =>
        var d := DecodeWith(read, Advance(st, e), n - 1, rest);
        d.(events := [e] + d.events)
  }

  function DecodeEvents(st: DeltaState, n: nat, s: seq<byte>): Decoded {
    DecodeWith(ReadEvent, st, n, s)
  }

  // ------------------------------------------------------------- well-formed

  ghost predicate WellFormedFields(fs: seq<Field>) {
    |fs| <= MAX_FIELDS && forall f :: f in fs ==> WellFormedField(f)
  }

  ghost predicate WellFormed(e: Event) {
    WellFormedFields(e.fields)
  }

  ghost predicate AllWellFormed(es: seq<Event>) {
    forall e :: e in es ==> WellFormed(e)
  }

  ghost predicate WellFormedState(st: DeltaState) {
    forall k :: k in st.baselines ==> WellFormedFields(st.baselines[k])
  }

  lemma AdvanceIsWellFormed(st: DeltaState, e: Event)
    requires WellFormedState(st) && WellFormed(e)
    ensures WellFormedState(Advance(st, e))
  {
  }

  // -------------------------------------------------------------- round trip

  lemma SequenceNumbersRoundTrip(prior: u64, e: Event, rest: seq<byte>)
    ensures ReadMany(ReadVarint, SEQUENCE_COUNT, Concat(U64Varint, SequenceNumbers(prior, e)) + rest)
         == Parsed(SequenceNumbers(prior, e), rest)
  {
    forall v: u64, r ensures ReadVarint(U64Varint(v) + r) == Parsed(v, r) {
      VarintRoundTrip(v, r);
    }
    ReadManyRoundTrip(U64Varint, ReadVarint, SequenceNumbers(prior, e), rest);
  }

  lemma PlaceRoundTrip(e: Event, rest: seq<byte>)
    ensures ReadPlace(PlaceBytes(e) + rest)
         == Parsed((e.kind, e.pc, e.address, e.size, e.value, e.probe), rest)
  {
    var s5 := StringBytes(e.probe);
    var s4 := Pod(e.value, 8) + s5;
    var s3 := Pod(e.size, 4) + s4;
    var s2 := Pod(e.address, 4) + s3;
    var s1 := Pod(e.pc, 4) + s2;
    Assoc([e.kind], s1, rest);
    Assoc(Pod(e.pc, 4), s2, rest);
    Assoc(Pod(e.address, 4), s3, rest);
    Assoc(Pod(e.size, 4), s4, rest);
    Assoc(Pod(e.value, 8), s5, rest);
    U32RoundTrip(e.pc, s2 + rest);
    U32RoundTrip(e.address, s3 + rest);
    U32RoundTrip(e.size, s4 + rest);
    U64RoundTrip(e.value, s5 + rest);
    StringRoundTrip(e.probe, rest);
  }

  lemma SequenceDeltaWraps(prior: u64, next: u64)
    ensures (prior + (next - prior) % TWO_64) % TWO_64 == next
  {
    if next < prior {
      assert (next - prior) % TWO_64 == next - prior + TWO_64;
    }
  }

  lemma HeaderOfNumbers(prior: u64, e: Event)
    ensures HeaderEvent(prior, SequenceNumbers(prior, e), (e.kind, e.pc, e.address, e.size, e.value, e.probe))
         == e.(fields := [])
  {
    SequenceDeltaWraps(prior, e.recordSequence);
  }

  /** The sequence delta is exact even when it wraps. */
  lemma HeaderRoundTrip(prior: u64, e: Event, rest: seq<byte>)
    ensures ReadHeader(prior, Concat(U64Varint, SequenceNumbers(prior, e)) + (PlaceBytes(e) + rest))
         == Parsed(e.(fields := []), rest)
  {
    SequenceNumbersRoundTrip(prior, e, PlaceBytes(e) + rest);
    PlaceRoundTrip(e, rest);
    HeaderOfNumbers(prior, e);
  }

  lemma KeyFieldRoundTrip(f: Field, rest: seq<byte>)
    requires WellFormedField(f)
    ensures ReadKeyField(KeyFieldBytes(f) + rest) == Parsed(f, rest)
  {
    var tail := FieldValueBytes(f);
    Assoc(StringBytes(f.name), [f.typ] + tail, rest);
    Assoc([f.typ], tail, rest);
    StringRoundTrip(f.name, [f.typ] + (tail + rest));
    FieldValueRoundTrip(BlankField(f.name, f.typ), f, rest);
  }

  lemma {:induction false} ChangedRoundTrip<T(!new)>(
      enc: T -> seq<byte>, read: (T, seq<byte>) -> Parsed<T>,
      base: seq<T>, xs: seq<T>, flags: seq<bool>, rest: seq<byte>)
    requires |base| == |xs| == |flags|
    requires forall i, r :: 0 <= i < |base| ==> read(base[i], enc(xs[i]) + r) == Parsed(xs[i], r)
    requires forall i :: 0 <= i < |flags| ==> flags[i] || xs[i] == base[i]
    ensures ReadChanged(read, base, flags, ChangedBytes(enc, xs, flags) + rest) == Parsed(xs, rest)
  {
    if base != [] {
      var head := if flags[0] then enc(xs[0]) else [];
      var tail := ChangedBytes(enc, xs[1..], flags[1..]);
      Assoc(head, tail, rest);
      assert !flags[0] ==> head + (tail + rest) == tail + rest;
      ChangedRoundTrip(enc, read, base[1..], xs[1..], flags[1..], rest);
      assert [xs[0]] + xs[1..] == xs;
    } else {
      assert ChangedBytes(enc, xs, flags) + rest == rest;
    }
  }

  lemma DeltaRoundTrip(base: seq<Field>, fields: seq<Field>, rest: seq<byte>)
    requires WellFormedFields(base) && WellFormedFields(fields) && SameShape(base, fields)
    ensures ReadDelta(base, DeltaBytes(base, fields) + rest) == Parsed(fields, rest)
  {
    var flags := Changed(base, fields);
    var tail := ChangedBytes(FieldValueBytes, fields, flags);
    Assoc(StringBytes(Bitmap(flags)), tail, rest);
    StringRoundTrip(Bitmap(flags), tail + rest);
    BitmapRoundTrip(flags);
    forall i, r | 0 <= i < |base|
      ensures ReadFieldValue(base[i], FieldValueBytes(fields[i]) + r) == Parsed(fields[i], r)
    {
      assert WellFormedField(base[i]) && WellFormedField(fields[i]);
      FieldValueRoundTrip(base[i], fields[i], r);
    }
    ChangedRoundTrip(FieldValueBytes, ReadFieldValue, base, fields, flags, rest);
  }

  lemma KeyframeRoundTrip(fields: seq<Field>, rest: seq<byte>)
    requires WellFormedFields(fields)
    ensures ReadCounted(ReadKeyField, MAX_FIELDS, CountedBytes(KeyFieldBytes, fields) + rest)
         == Parsed(fields, rest)
  {
    forall f, r | f in fields ensures ReadKeyField(KeyFieldBytes(f) + r) == Parsed(f, r) {
      KeyFieldRoundTrip(f, r);
    }
    CountedRoundTrip(KeyFieldBytes, ReadKeyField, MAX_FIELDS, fields, rest);
  }

  lemma BodyRoundTrip(st: DeltaState, e: Event, rest: seq<byte>)
    requires WellFormedState(st) && WellFormed(e)
    ensures ReadBody(st.baselines, BaselineKey(e), BodyBytes(st.baselines, e) + rest)
         == Parsed(e.fields, rest)
  {
    if NeedsKeyframe(st.baselines, e) {
      Assoc([1], CountedBytes(KeyFieldBytes, e.fields), rest);
      KeyframeRoundTrip(e.fields, rest);
    } else {
      var base := st.baselines[BaselineKey(e)];
      var delta := DeltaBytes(base, e.fields);
      Assoc([0], VarintBytes(|e.fields|) + delta, rest);
      Assoc(VarintBytes(|e.fields|), delta, rest);
      VarintRoundTrip(|e.fields|, delta + rest);
      DeltaRoundTrip(base, e.fields, rest);
    }
  }

  lemma EventRoundTrip(st: DeltaState, e: Event, rest: seq<byte>)
    requires WellFormedState(st) && WellFormed(e)
    ensures ReadEvent(st, EventBytes(st, e) + rest) == Parsed(e, rest)
  {
    var head := Concat(U64Varint, SequenceNumbers(st.prior, e));
    var body := BodyBytes(st.baselines, e);
    Assoc(head, PlaceBytes(e) + body, rest);
    Assoc(PlaceBytes(e), body, rest);
    HeaderRoundTrip(st.prior, e, body + rest);
    BodyRoundTrip(st, e, rest);
    assert BaselineKey(e.(fields := [])) == BaselineKey(e);
  }

  /** Decoding what was encoded, from equal states, restores every event and
      leaves exactly the bytes that followed. */
  lemma {:induction false} EventsRoundTrip(st: DeltaState, es: seq<Event>, rest: seq<byte>)
    requires WellFormedState(st) && AllWellFormed(es)
    ensures DecodeEvents(st, |es|, EncodeEvents(st, es) + rest) == Decoded(es, true, rest)
    decreases |es|
  {
    if es == [] {
      assert EncodeEvents(st, es) + rest == rest;
    } else {
      var st' := Advance(st, es[0]);
      Assoc(EventBytes(st, es[0]), EncodeEvents(st', es[1..]), rest);
      EventRoundTrip(st, es[0], EncodeEvents(st', es[1..]) + rest);
      AdvanceIsWellFormed(st, es[0]);
      EventsRoundTrip(st', es[1..], rest);
      assert [es[0]] + es[1..] == es;
    }
  }

  // ----------------------------------------------- what the decoder can yield

  lemma KeyFieldIsWellFormed(s: seq<byte>)
    ensures var r := ReadKeyField(s); r.Parsed? ==> WellFormedField(r.value)
  {
    var r := ReadString(s);
    if r.Parsed? && r.rest != [] {
      ReadFieldIsWellFormed(BlankField(r.value, r.rest[0]), r.rest[1..]);
    }
  }

  lemma KeyFieldsAreWellFormed(n: nat, s: seq<byte>)
    ensures var r := ReadMany(ReadKeyField, n, s);
            r.Parsed? ==> forall f :: f in r.value ==> WellFormedField(f)
  {
    forall t ensures ReadKeyField(t).Parsed? ==> WellFormedField(ReadKeyField(t).value) {
      KeyFieldIsWellFormed(t);
    }
    ReadManyAll(ReadKeyField, f => WellFormedField(f), n, s);
  }

  lemma {:induction false} ChangedAll<T(!new)>(
      read: (T, seq<byte>) -> Parsed<T>, good: T -> bool, base: seq<T>, flags: seq<bool>, s: seq<byte>)
    requires |base| == |flags| && forall x :: x in base ==> good(x)
    requires forall x, t :: good(x) && read(x, t).Parsed? ==> good(read(x, t).value)
    ensures var r := ReadChanged(read, base, flags, s);
            r.Parsed? ==> forall x :: x in r.value ==> good(x)
  {
    var r := ReadChanged(read, base, flags, s);
    if base != [] && r.Parsed? {
      var head := if flags[0] then read(base[0], s) else Parsed(base[0], s);
      assert good(base[0]);
      ChangedAll(read, good, base[1..], flags[1..], head.rest);
      assert r.value == [head.value] + ReadChanged(read, base[1..], flags[1..], head.rest).value;
    }
  }

  lemma ChangedIsWellFormed(base: seq<Field>, flags: seq<bool>, s: seq<byte>)
    requires |base| == |flags| && forall f :: f in base ==> WellFormedField(f)
    ensures var r := ReadChanged(ReadFieldValue, base, flags, s);
            r.Parsed? ==> forall f :: f in r.value ==> WellFormedField(f)
  {
    forall f, t | WellFormedField(f) && ReadFieldValue(f, t).Parsed?
      ensures WellFormedField(ReadFieldValue(f, t).value)
    {
      ReadFieldIsWellFormed(f, t);
    }
    ChangedAll(ReadFieldValue, f => WellFormedField(f), base, flags, s);
  }

  lemma BodyIsWellFormed(st: DeltaState, key: seq<byte>, s: seq<byte>)
    requires WellFormedState(st)
    ensures var r := ReadBody(st.baselines, key, s); r.Parsed? ==> WellFormedFields(r.value)
  {
    var r := ReadBody(st.baselines, key, s);
    if r.Parsed? {
      var count := ReadVarint(s[1..]);
      if s[0] != 0 {
        KeyFieldsAreWellFormed(count.value, count.rest);
      } else {
        var base := st.baselines[key];
        var bitmap := ReadString(count.rest);
        ChangedIsWellFormed(base, BitmapFlags(bitmap.value, |base|), bitmap.rest);
      }
    }
  }

  lemma ReadEventIsWellFormed(st: DeltaState, s: seq<byte>)
    requires WellFormedState(st)
    ensures var r := ReadEvent(st, s); r.Parsed? ==> WellFormed(r.value)
  {
    var h := ReadHeader(st.prior, s);
    if h.Parsed? {
      BodyIsWellFormed(st, BaselineKey(h.value), h.rest);
    }
  }

  lemma {:induction false} DecodedWithIsWellFormed(
      read: (DeltaState, seq<byte>) -> Parsed<Event>, st: DeltaState, n: nat, s: seq<byte>)
    requires forall d, t :: WellFormedState(d) && read(d, t).Parsed? ==> WellFormed(read(d, t).value)
    requires WellFormedState(st)
    ensures AllWellFormed(DecodeWith(read, st, n, s).events)
    decreases n
  {
    var r := read(st, s);
    if n > 0 && r.Parsed? {
      AdvanceIsWellFormed(st, r.value);
      DecodedWithIsWellFormed(read, Advance(st, r.value), n - 1, r.rest);
    }
  }

  /** Everything the decoder accepts is well-formed, whatever the input bytes. */
  lemma DecodedIsWellFormed(st: DeltaState, n: nat, s: seq<byte>)
    requires WellFormedState(st)
    ensures AllWellFormed(DecodeEvents(st, n, s).events)
  {
    forall d, t | WellFormedState(d) && ReadEvent(d, t).Parsed?
      ensures WellFormed(ReadEvent(d, t).value)
    {
      ReadEventIsWellFormed(d, t);
    }
    DecodedWithIsWellFormed(ReadEvent, st, n, s);
  }

  lemma SurvivesIff(st: DeltaState, es: seq<Event>, bytes: seq<byte>)
    requires WellFormedState(st) && bytes == EncodeEvents(st, es)
    ensures DecodeEvents(st, |es|, bytes) == Decoded(es, true, []) <==> AllWellFormed(es)
  {
    assert bytes + [] == bytes;
    DecodedIsWellFormed(st, |es|, bytes);
    if AllWellFormed(es) {
      EventsRoundTrip(st, es, []);
    }
  }

  /** A list of events survives a chunk exactly when every event is well-formed. */
  lemma RoundTripIffWellFormed(es: seq<Event>)
    ensures DecodeEvents(FRESH, |es|, EncodeEvents(FRESH, es)) == Decoded(es, true, [])
       <==> AllWellFormed(es)
  {
    SurvivesIff(FRESH, es, EncodeEvents(FRESH, es));
  }
}
