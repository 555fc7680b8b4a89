/** The codec as it runs: an output buffer that is appended to, a change bitmap
    filled bit by bit, and a baseline map updated after every event. Each method
    is proved to compute the functions of `EventCodec`. */
module CodecLoops {
  import opened Words
  import opened Bytes
  import opened StructuredFields
  import opened EventCodec
  import opened BlobLoops

  method AppendString(out: seq<byte>, t: seq<byte>) returns (out': seq<byte>)
    ensures out' == out + StringBytes(t)
  {
    out' := AppendVarint(out, |t|);
    Assoc(out, VarintBytes(|t|), t);
    out' := out' + t;
  }

  method AppendFieldValue(out: seq<byte>, f: Field) returns (out': seq<byte>)
    ensures out' == out + FieldValueBytes(f)
  {
    ghost var tail := if UsesBlob(f.typ) then StringBytes(BlobBytes(f)) else [];
    out' := out + [f.status] + Pod(f.value, 8);
    Assoc(out + [f.status], Pod(f.value, 8), tail);
    Assoc(out, [f.status], Pod(f.value, 8) + tail);
    if UsesBlob(f.typ) {
      var blob := StructuredFieldBytes(f);
      out' := AppendString(out', blob);
    } else {
      assert out' + [] == out';
    }
  }

  method AppendFields(out: seq<byte>, fields: seq<Field>) returns (out': seq<byte>)
    ensures out' == out + Concat(KeyFieldBytes, fields)
  {
    out' := out;
    for i := 0 to |fields|
      invariant out' == out + Concat(KeyFieldBytes, fields[..i])
    {
      var f := fields[i];
      ghost var before := out';
      ConcatSnoc(KeyFieldBytes, fields, i);
      Assoc(out, Concat(KeyFieldBytes, fields[..i]), KeyFieldBytes(f));
      out' := AppendString(out', f.name);
      out' := AppendFieldValue(out' + [f.typ], f);
      Assoc(before + StringBytes(f.name), [f.typ], FieldValueBytes(f));
      Assoc(before, StringBytes(f.name), [f.typ] + FieldValueBytes(f));
    }
    assert fields[..|fields|] == fields;
  }

  /** `b | (1 << i)`, bit by bit. */
  function SetBit(b: nat, i: nat): nat {
    if i == 0 then b / 2 * 2 + 1 else b % 2 + 2 * SetBit(b / 2, i - 1)
  }

  lemma SetBitOfHalves(low: nat, high: nat, i: nat)
    requires low < 2
    ensures SetBit(low + 2 * high, i) == if i == 0 then 1 + 2 * high else low + 2 * SetBit(high, i - 1)
  {
    assert (low + 2 * high) / 2 == high && (low + 2 * high) % 2 == low;
  }

  lemma {:induction false} PackedSetBit(flags: seq<bool>, i: nat)
    requires i < |flags|
    ensures PackBits(flags[i := true]) == SetBit(PackBits(flags), i)
  {
    SetBitOfHalves(if flags[0] then 1 else 0, PackBits(flags[1..]), i);
    if i > 0 {
      PackedSetBit(flags[1..], i - 1);
      assert flags[i := true][1..] == flags[1..][i - 1 := true];
    } else {
      assert flags[0 := true][1..] == flags[1..];
    }
  }

  lemma FirstByteSetBit(flags: seq<bool>, j: nat)
    requires j < 8 && j < |flags|
    ensures SetBit(Bitmap(flags)[0], j) < 0x100
    ensures Bitmap(flags[j := true]) == Bitmap(flags)[0 := SetBit(Bitmap(flags)[0], j)]
  {
    var head := if |flags| <= 8 then flags else flags[..8];
    PackedSetBit(head, j);
    PackedByteBound(head[j := true]);
    if |flags| > 8 {
      assert flags[j := true][..8] == head[j := true];
      assert flags[j := true][8..] == flags[8..];
    }
  }

  lemma UpdateTail<T>(x: T, ys: seq<T>, k: nat, v: T)
    requires 0 < k <= |ys|
    ensures ([x] + ys)[k := v] == [x] + ys[k - 1 := v]
  {
  }

  lemma {:induction false} BitmapSetBit(flags: seq<bool>, k: nat, j: nat)
    requires j < 8 && 8 * k + j < |flags|
    ensures SetBit(Bitmap(flags)[k], j) < 0x100
    ensures Bitmap(flags[8 * k + j := true]) == Bitmap(flags)[k := SetBit(Bitmap(flags)[k], j)]
  {
    if k == 0 {
      FirstByteSetBit(flags, j);
    } else {
      var after := flags[8 * k + j := true];
      BitmapSetBit(flags[8..], k - 1, j);
      assert after[8..] == flags[8..][8 * (k - 1) + j := true];
      assert after[..8] == flags[..8];
      UpdateTail(Bitmap(flags)[0], Bitmap(flags[8..]), k, SetBit(Bitmap(flags)[k], j));
    }
  }

  lemma {:induction false} ClearBitmap(n: nat)
    ensures Bitmap(seq(n, i => false)) == seq((n + 7) / 8, i => 0)
  {
    var none := seq(n, i => false);
    if n > 8 {
      ClearBitmap(n - 8);
      assert none[8..] == seq(n - 8, i => false);
      assert none[..8] == seq(8, i => false);
      ClearByte(8);
    } else {
      ClearByte(n);
    }
  }

  lemma {:induction false} ClearByte(n: nat)
    ensures PackBits(seq(n, i => false)) == 0
  {
    if n > 0 {
      ClearByte(n - 1);
      assert seq(n, i => false)[1..] == seq(n - 1, i => false);
    }
  }

  lemma BitmapSetAt(flags: seq<bool>, i: nat)
    requires i < |flags|
    ensures SetBit(Bitmap(flags)[i / 8], i % 8) < 0x100
    ensures Bitmap(flags[i := true]) == Bitmap(flags)[i / 8 := SetBit(Bitmap(flags)[i / 8], i % 8)]
  {
    var k, j := i / 8, i % 8;
    assert i == 8 * k + j;
    BitmapSetBit(flags, k, j);
  }

  /** The flags of the first `i` positions, and none behind them. */
  function UpTo(flags: seq<bool>, i: nat): (done: seq<bool>)
    ensures |done| == |flags|
  {
    seq(|flags|, j requires 0 <= j < |flags| => j < i && flags[j])
  }

  lemma UpToNext(flags: seq<bool>, i: nat)
    requires i < |flags|
    ensures UpTo(flags, i + 1) == if flags[i] then UpTo(flags, i)[i := true] else UpTo(flags, i)
  {
  }

  lemma UpToEnds(flags: seq<bool>)
    ensures UpTo(flags, 0) == seq(|flags|, i => false) && UpTo(flags, |flags|) == flags
  {
  }

  /** Starts from zero bytes and sets the bit of every flagged position. */
  method BuildBitmap(flags: seq<bool>) returns (bitmap: seq<byte>)
    ensures bitmap == Bitmap(flags)
  {
    bitmap := seq((|flags| + 7) / 8, i => 0);
    ClearBitmap(|flags|);
    UpToEnds(flags);
    for i := 0 to |flags|
      invariant bitmap == Bitmap(UpTo(flags, i))
    {
      UpToNext(flags, i);
      if flags[i] {
        BitmapSetAt(UpTo(flags, i), i);
        bitmap := bitmap[i / 8 := SetBit(bitmap[i / 8], i % 8)];
      }
    }
  }

  lemma {:induction false} ChangedSnoc<T>(enc: T -> seq<byte>, xs: seq<T>, flags: seq<bool>, i: nat)
    requires |xs| == |flags| && i < |xs|
    ensures ChangedBytes(enc, xs[..i + 1], flags[..i + 1])
         == ChangedBytes(enc, xs[..i], flags[..i]) + (if flags[i] then enc(xs[i]) else [])
  {
    if i == 0 {
      assert xs[..1] == [xs[0]] && flags[..1] == [flags[0]];
    } else {
      ChangedSnoc(enc, xs[1..], flags[1..], i - 1);
      assert xs[..i + 1][1..] == xs[1..][..i] && flags[..i + 1][1..] == flags[1..][..i];
      assert xs[..i][1..] == xs[1..][..i - 1] && flags[..i][1..] == flags[1..][..i - 1];
      Assoc(if flags[0] then enc(xs[0]) else [], ChangedBytes(enc, xs[1..][..i - 1], flags[1..][..i - 1]),
            if flags[i] then enc(xs[i]) else []);
    }
  }

  /** Writes the fields whose bit is set. */
  method AppendChanged(out: seq<byte>, fields: seq<Field>, bitmap: seq<byte>) returns (out': seq<byte>)
    requires |bitmap| == (|fields| + 7) / 8
    ensures out' == out + ChangedBytes(FieldValueBytes, fields, BitmapFlags(bitmap, |fields|))
  {
    out' := out;
    ghost var flags := BitmapFlags(bitmap, |fields|);
    for i := 0 to |fields|
      invariant out' == out + ChangedBytes(FieldValueBytes, fields[..i], flags[..i])
    {
      ChangedSnoc(FieldValueBytes, fields, flags, i);
      if Bit(bitmap[i / 8], i % 8) {
        Assoc(out, ChangedBytes(FieldValueBytes, fields[..i], flags[..i]), FieldValueBytes(fields[i]));
        out' := AppendFieldValue(out', fields[i]);
      }
    }
    assert fields[..|fields|] == fields && flags[..|fields|] == flags;
  }

  method AppendNumbers(out: seq<byte>, ns: seq<u64>) returns (out': seq<byte>)
    ensures out' == out + Concat(U64Varint, ns)
  {
    out' := out;
    for i := 0 to |ns|
      invariant out' == out + Concat(U64Varint, ns[..i])
    {
      ConcatSnoc(U64Varint, ns, i);
      Assoc(out, Concat(U64Varint, ns[..i]), U64Varint(ns[i]));
      out' := AppendVarint(out', ns[i]);
    }
    assert ns[..|ns|] == ns;
  }

  method AppendBody(out: seq<byte>, baselines: map<seq<byte>, seq<Field>>, e: Event) returns (out': seq<byte>)
    ensures out' == out + BodyBytes(baselines, e)
  {
    if NeedsKeyframe(baselines, e) {
      out' := AppendVarint(out + [1], |e.fields|);
      out' := AppendFields(out', e.fields);
      Assoc(out, [1], VarintBytes(|e.fields|));
      Assoc(out, [1] + VarintBytes(|e.fields|), Concat(KeyFieldBytes, e.fields));
      Assoc([1], VarintBytes(|e.fields|), Concat(KeyFieldBytes, e.fields));
    } else {
      var base := baselines[BaselineKey(e)];
      var bitmap := BuildBitmap(Changed(base, e.fields));
      BitmapRoundTrip(Changed(base, e.fields));
      ghost var count := VarintBytes(|e.fields|);
      ghost var changed := ChangedBytes(FieldValueBytes, e.fields, Changed(base, e.fields));
      out' := AppendVarint(out + [0], |e.fields|);
      out' := AppendString(out', bitmap);
      out' := AppendChanged(out', e.fields, bitmap);
      calc {
        out + [0] + count + StringBytes(bitmap) + changed;
        { Assoc(out + [0] + count, StringBytes(bitmap), changed); }
        out + [0] + count + DeltaBytes(base, e.fields);
        { Assoc(out + [0], count, DeltaBytes(base, e.fields)); }
        out + [0] + (count + DeltaBytes(base, e.fields));
        { Assoc(out, [0], count + DeltaBytes(base, e.fields)); }
        out + BodyBytes(baselines, e);
      }
    }
  }

  /** encode_event */
  method AppendEvent(out: seq<byte>, e: Event, st: DeltaState) returns (out': seq<byte>, st': DeltaState)
    ensures out' == out + EventBytes(st, e)
    ensures st' == Advance(st, e)
  {
    out' := AppendNumbers(out, SequenceNumbers(st.prior, e));
    out' := out' + PlaceBytes(e);
    out' := AppendBody(out', st.baselines, e);
    ghost var head := Concat(U64Varint, SequenceNumbers(st.prior, e));
    ghost var body := BodyBytes(st.baselines, e);
    calc {
      out + head + PlaceBytes(e) + body;
      { Assoc(out + head, PlaceBytes(e), body); }
      out + head + (PlaceBytes(e) + body);
      { Assoc(out, head, PlaceBytes(e) + body); }
      out + EventBytes(st, e);
    }
    var baselines := st.baselines[BaselineKey(e) := e.fields];
    if e.kind == KIND_GAP {
      baselines := map[];
    }
    st' := DeltaState(e.recordSequence, baselines);
  }

  lemma ReadChangedStep<T>(
      read: (T, seq<byte>) -> Parsed<T>, base: seq<T>, flags: seq<bool>, i: nat, s: seq<byte>, done: seq<T>)
    requires |base| == |flags| && i < |base|
    ensures var x := if flags[i] then read(base[i], s) else Parsed(base[i], s);
            Prepend(done, ReadChanged(read, base[i..], flags[i..], s)) ==
            if x.Failed? then Failed
            else Prepend(done + [x.value], ReadChanged(read, base[i + 1..], flags[i + 1..], x.rest))
  {
    assert base[i..][1..] == base[i + 1..] && flags[i..][1..] == flags[i + 1..];
    var x := if flags[i] then read(base[i], s) else Parsed(base[i], s);
    if x.Parsed? {
      var tail := ReadChanged(read, base[i + 1..], flags[i + 1..], x.rest);
      if tail.Parsed? {
        Assoc(done, [x.value], tail.value);
      }
    }
  }

  /** A field value, its blob read by the nested loops. */
  method ReadFieldValueLoop(f: Field, s: seq<byte>) returns (r: Parsed<Field>)
    ensures r == ReadFieldValue(f, s)
  {
    var status := ReadByte(s);
    if status.Failed? {
      return Failed;
    }
    var value := ReadU64(status.rest);
    if value.Failed? {
      return Failed;
    }
    var g := f.(status := status.value, value := value.value);
    if !UsesBlob(f.typ) {
      return Parsed(g.(bytes := [], list := None, stack := None, trace := None), value.rest);
    }
    var blob := ReadString(value.rest);
    if blob.Failed? {
      return Failed;
    }
    var decoded := DecodeStructuredField(g, blob.value);
    r := if decoded.None? then Failed else Parsed(decoded.value, blob.rest);
  }

  type FieldReader = seq<byte> -> Parsed<Field>

  /** The loop over fields need not know how a field is read. */
  ghost predicate ReadsKeyFields(read: FieldReader) {
    forall s {:trigger ReadKeyField(s)} :: read(s) == ReadKeyField(s)
  }

  method ReadKeyFieldLoop(ghost read: FieldReader, s: seq<byte>) returns (r: Parsed<Field>)
    requires ReadsKeyFields(read)
    ensures r == read(s)
  {
    assert read(s) == ReadKeyField(s);
    var name := ReadString(s);
    if name.Failed? {
      return Failed;
    }
    var typ := ReadByte(name.rest);
    if typ.Failed? {
      return Failed;
    }
    r := ReadFieldValueLoop(BlankField(name.value, typ.value), typ.rest);
  }

  /** The fields of a keyframe. */
  method ReadKeyFields(ghost read: FieldReader, n: nat, s: seq<byte>) returns (r: Parsed<seq<Field>>)
    requires ReadsKeyFields(read)
    ensures r == ReadMany(read, n, s)
  {
    var fields, rest := [], s;
    ghost var whole := ReadMany(read, n, s);
    PrependUnits(fields, whole, rest);
    ghost var left := n;
    for i := 0 to n
      invariant left == n - i && whole == Prepend(fields, ReadMany(read, left, rest))
    {
      var f := ReadKeyFieldLoop(read, rest);
      ReadManyStep(read, left, rest, fields);
      if f.Failed? {
        return Failed;
      }
      fields, rest, left := fields + [f.value], f.rest, left - 1;
    }
    PrependUnits(fields, whole, rest);
    r := Parsed(fields, rest);
  }

  /** Reads the flagged fields over a copy of the baseline, in place. */
  method ReadChangedLoop(base: seq<Field>, bitmap: seq<byte>, s: seq<byte>) returns (r: Parsed<seq<Field>>)
    requires |bitmap| == (|base| + 7) / 8
    ensures r == ReadChanged(ReadFieldValue, base, BitmapFlags(bitmap, |base|), s)
  {
    var xs, rest := base, s;
    ghost var flags := BitmapFlags(bitmap, |base|);
    ghost var whole := ReadChanged(ReadFieldValue, base, flags, s);
    assert base[0..] == base && flags[0..] == flags;
    PrependUnits(xs, whole, rest);
    for i := 0 to |base|
      invariant |xs| == |base| && forall j :: i <= j < |base| ==> xs[j] == base[j]
      invariant whole == Prepend(xs[..i], ReadChanged(ReadFieldValue, base[i..], flags[i..], rest))
    {
      var x := Parsed(xs[i], rest);
      if Bit(bitmap[i / 8], i % 8) {
        x := ReadFieldValueLoop(xs[i], rest);
      }
      ReadChangedStep(ReadFieldValue, base, flags, i, rest, xs[..i]);
      if x.Failed? {
        return Failed;
      }
      assert xs[i := x.value][..i + 1] == xs[..i] + [x.value];
      xs, rest := xs[i := x.value], x.rest;
    }
    assert xs[..|base|] == xs;
    PrependUnits(xs, whole, rest);
    r := Parsed(xs, rest);
  }

  /** decode_event */
  method DecodeEvent(s: seq<byte>, st: DeltaState) returns (r: Parsed<Event>, st': DeltaState)
    ensures r == ReadEvent(st, s)
    ensures r.Parsed? ==> st' == Advance(st, r.value)
  {
    st' := st;
    var header := ReadHeader(st.prior, s);
    if header.Failed? || header.rest == [] {
      return Failed, st';
    }
    var e, key := header.value, BaselineKey(header.value);
    var keyframe := header.rest[0] != 0;
    var count := ReadVarint(header.rest[1..]);
    if count.Failed? || count.value > MAX_FIELDS {
      return Failed, st';
    }
    var fields: Parsed<seq<Field>>;
    if keyframe {
      fields := ReadKeyFields(ReadKeyField, count.value, count.rest);
    } else {
      if key !in st.baselines || |st.baselines[key]| != count.value {
        return Failed, st';
      }
      var bitmap := ReadString(count.rest);
      if bitmap.Failed? || |bitmap.value| != (count.value + 7) / 8 {
        return Failed, st';
      }
      fields := ReadChangedLoop(st.baselines[key], bitmap.value, bitmap.rest);
    }
    if fields.Failed? {
      return Failed, st';
    }
    e := e.(fields := fields.value);
    var baselines := st.baselines[key := e.fields];
    if e.kind == KIND_GAP {
      baselines := map[];
    }
    return Parsed(e, fields.rest), DeltaState(e.recordSequence, baselines);
  }

  lemma EncodeCons(st: DeltaState, es: seq<Event>, i: nat)
    requires i < |es|
    ensures EncodeEvents(st, es[i..]) == EventBytes(st, es[i]) + EncodeEvents(Advance(st, es[i]), es[i + 1..])
  {
    assert es[i..][0] == es[i] && es[i..][1..] == es[i + 1..];
  }

  /** The encoding loop of flush_chunk. */
  method EncodeChunk(es: seq<Event>) returns (out: seq<byte>)
    ensures out == EncodeEvents(FRESH, es)
  {
    out := [];
    var st := FRESH;
    ghost var all := EncodeEvents(FRESH, es);
    assert es[0..] == es && [] + all == all;
    for i := 0 to |es|
      invariant out + EncodeEvents(st, es[i..]) == all
    {
      EncodeCons(st, es, i);
      Assoc(out, EventBytes(st, es[i]), EncodeEvents(Advance(st, es[i]), es[i + 1..]));
      out, st := AppendEvent(out, es[i], st);
    }
    assert out + [] == out;
  }

  ghost function Behind(events: seq<Event>, d: Decoded): Decoded {
    d.(events := events + d.events)
  }

  type EventReader = (DeltaState, seq<byte>) -> Parsed<Event>

  ghost predicate ReadsEvents(read: EventReader) {
    forall st, s {:trigger ReadEvent(st, s)} :: read(st, s) == ReadEvent(st, s)
  }

  lemma BehindUnits(done: seq<Event>, d: Decoded, rest: seq<byte>)
    ensures Behind([], d) == d && Behind(done, Decoded([], true, rest)) == Decoded(done, true, rest)
  {
    assert [] + d.events == d.events && done + [] == done;
  }

  lemma BehindStep(read: EventReader, st: DeltaState, n: nat, s: seq<byte>, done: seq<Event>)
    requires n > 0
    ensures var x := read(st, s);
            Behind(done, DecodeWith(read, st, n, s)) ==
            if x.Failed? then Decoded(done, false, s)
            else Behind(done + [x.value], DecodeWith(read, Advance(st, x.value), n - 1, x.rest))
  {
    var x := read(st, s);
    if x.Parsed? {
      Assoc(done, [x.value], DecodeWith(read, Advance(st, x.value), n - 1, x.rest).events);
    } else {
      assert done + [] == done;
    }
  }

  method DecodeNext(ghost read: EventReader, s: seq<byte>, st: DeltaState)
    returns (r: Parsed<Event>, st': DeltaState)
    requires ReadsEvents(read)
    ensures r == read(st, s) && (r.Parsed? ==> st' == Advance(st, r.value))
  {
    r, st' := DecodeEvent(s, st);
  }

  method DecodeAll(ghost read: EventReader, n: nat, raw: seq<byte>) returns (d: Decoded)
    requires ReadsEvents(read)
    ensures d == DecodeWith(read, FRESH, n, raw)
  {
    var events, rest, st := [], raw, FRESH;
    ghost var whole := DecodeWith(read, FRESH, n, raw);
    BehindUnits(events, whole, rest);
    ghost var left := n;
    for i := 0 to n
      invariant left == n - i && whole == Behind(events, DecodeWith(read, st, left, rest))
    {
      BehindStep(read, st, left, rest, events);
      var x, st' := DecodeNext(read, rest, st);
      if x.Failed? {
        return Decoded(events, false, rest);
      }
      events, rest, st, left := events + [x.value], x.rest, st', left - 1;
    }
    BehindUnits(events, whole, rest);
    d := Decoded(events, true, rest);
  }

  /** The decoding loop of read_segment: the events up to one that is refused. */
  method DecodeChunk(n: nat, raw: seq<byte>) returns (d: Decoded)
    ensures d == DecodeEvents(FRESH, n, raw)
  {
    d := DecodeAll(ReadEvent, n, raw);
  }
}
