/** What the bytes of a chunk's events are written against: an event is a change
    against the last one of its probe, epoch and revision unless a gap came since. */
module CodecMeaning {
  import opened Words
  import opened Bytes
  import opened StructuredFields
  import opened EventCodec

  function After(es: seq<Event>): DeltaState {
    if es == [] then FRESH else Advance(After(es[..|es| - 1]), es[|es| - 1])
  }

  ghost predicate Alike(d: Event, e: Event) {
    d.probe == e.probe && d.epoch == e.epoch && d.revision == e.revision
  }

  /** The last event like this one is number `i`, and neither it nor any later one
      is a gap (kind 6). */
  ghost predicate IsBase(earlier: seq<Event>, e: Event, i: int) {
    0 <= i < |earlier| && Alike(earlier[i], e) &&
    forall j :: i <= j < |earlier| ==> earlier[j].kind != 6 && (j == i || !Alike(earlier[j], e))
  }

  ghost predicate HasBase(earlier: seq<Event>, e: Event) {
    exists i :: IsBase(earlier, e, i)
  }

  lemma {:induction false} BaselinesAreBases(earlier: seq<Event>, e: Event)
    ensures BaselineKey(e) in After(earlier).baselines <==> HasBase(earlier, e)
    ensures forall i :: IsBase(earlier, e, i) ==>
              After(earlier).baselines[BaselineKey(e)] == earlier[i].fields
  {
    if earlier != [] {
      var n := |earlier| - 1;
      var before, last := earlier[..n], earlier[n];
      BaselinesAreBases(before, e);
      BaselineKeyIdentifies(last, e);
      if last.kind != 6 && Alike(last, e) {
        assert IsBase(earlier, e, n);
      } else if last.kind != 6 {
        assert forall i :: i < n ==> (IsBase(earlier, e, i) <==> IsBase(before, e, i));
      }
    }
  }

  // ----------------------------------------------------------------- written

  /** The elements whose flag is set. */
  function Flagged<T>(xs: seq<T>, flags: seq<bool>): seq<T>
    requires |xs| == |flags|
  {
    if xs == [] then [] else (if flags[0] then [xs[0]] else []) + Flagged(xs[1..], flags[1..])
  }

  lemma {:induction false} FlaggedAreWritten<T>(enc: T -> seq<byte>, xs: seq<T>, flags: seq<bool>)
    requires |xs| == |flags|
    ensures ChangedBytes(enc, xs, flags) == Concat(enc, Flagged(xs, flags))
  {
    if xs != [] {
      FlaggedAreWritten(enc, xs[1..], flags[1..]);
      var rest := Flagged(xs[1..], flags[1..]);
      if flags[0] {
        Cons(xs[0], rest);
      } else {
        assert [] + rest == rest && [] + Concat(enc, rest) == Concat(enc, rest);
      }
    }
  }

  function PriorOf(earlier: seq<Event>): u64 {
    if earlier == [] then 0 else earlier[|earlier| - 1].recordSequence
  }

  /** What precedes the fields of an event. */
  function HeadBytes(prior: u64, e: Event): seq<byte> {
    Concat(U64Varint, SequenceNumbers(prior, e)) + PlaceBytes(e)
  }

  ghost predicate NamedAlike(base: seq<Field>, fields: seq<Field>) {
    |base| == |fields| &&
    forall i :: 0 <= i < |fields| ==> base[i].name == fields[i].name && base[i].typ == fields[i].typ
  }

  ghost predicate ChangedSince(base: seq<Field>, fields: seq<Field>, flags: seq<bool>) {
    |base| == |fields| == |flags| &&
    forall i :: 0 <= i < |flags| ==> (flags[i] <==> 4 <= fields[i].typ <= 8 || fields[i] != base[i])
  }

  lemma {:induction false} EncodeParts(st: DeltaState, a: seq<Event>, b: seq<Event>, end: DeltaState)
    requires end == AfterFrom(st, a)
    ensures EncodeEvents(st, a + b) == EncodeEvents(st, a) + EncodeEvents(end, b)
    decreases |a|
  {
    if a == [] {
      assert a + b == b;
    } else {
      assert (a + b)[0] == a[0] && (a + b)[1..] == a[1..] + b;
      EncodeParts(Advance(st, a[0]), a[1..], b, end);
      Assoc(EventBytes(st, a[0]), EncodeEvents(Advance(st, a[0]), a[1..]), EncodeEvents(end, b));
    }
  }

  function AfterFrom(st: DeltaState, es: seq<Event>): DeltaState
    decreases |es|
  {
    if es == [] then st else AfterFrom(Advance(st, es[0]), es[1..])
  }

  lemma {:induction false} AfterFromSnoc(st: DeltaState, es: seq<Event>, e: Event)
    ensures AfterFrom(st, es + [e]) == Advance(AfterFrom(st, es), e)
    decreases |es|
  {
    if es == [] {
      assert (es + [e])[1..] == [];
    } else {
      assert (es + [e])[1..] == es[1..] + [e];
      AfterFromSnoc(Advance(st, es[0]), es[1..], e);
    }
  }

  lemma {:induction false} AfterIsFrom(es: seq<Event>)
    ensures After(es) == AfterFrom(FRESH, es)
    ensures After(es).prior == PriorOf(es)
  {
    if es != [] {
      var n := |es| - 1;
      AfterIsFrom(es[..n]);
      AfterFromSnoc(FRESH, es[..n], es[n]);
      assert es[..n] + [es[n]] == es;
    }
  }

  ghost predicate IsChange(base: seq<Field>, fields: seq<Field>, flags: seq<bool>, body: seq<byte>) {
    ChangedSince(base, fields, flags) &&
    body == [0] + (VarintBytes(|fields|)
                   + (StringBytes(Bitmap(flags)) + Concat(FieldValueBytes, Flagged(fields, flags))))
  }

  /** An event is written behind its head as [0], the number of fields, a bitmap and
      the values of exactly the fields that are blobs or have changed, if the last
      event like it is no further back than the last gap and has the same field
      names and types; and in full behind [1] otherwise, so always right behind a
      gap. */
  ghost predicate WrittenAgainst(earlier: seq<Event>, e: Event, body: seq<byte>) {
    if exists i :: IsBase(earlier, e, i) && NamedAlike(earlier[i].fields, e.fields) then
      exists i, flags :: IsBase(earlier, e, i) && IsChange(earlier[i].fields, e.fields, flags, body)
    else body == [1] + CountedBytes(KeyFieldBytes, e.fields)
  }

  lemma EventsAreWrittenAgainst(earlier: seq<Event>, e: Event, later: seq<Event>)
    ensures exists body, tail ::
              WrittenAgainst(earlier, e, body) &&
              EncodeEvents(FRESH, earlier + ([e] + later))
              == EncodeEvents(FRESH, earlier) + (HeadBytes(PriorOf(earlier), e) + body + tail)
  {
    var st := After(earlier);
    AfterIsFrom(earlier);
    EncodeParts(FRESH, earlier, [e] + later, st);
    HeadComesFirst(st, e, later);
    BodyIsAgainst(earlier, e);
    var body, tail := BodyBytes(st.baselines, e), EncodeEvents(Advance(st, e), later);
    assert EncodeEvents(FRESH, earlier + ([e] + later))
        == EncodeEvents(FRESH, earlier) + (HeadBytes(PriorOf(earlier), e) + body + tail);
  }

  lemma HeadComesFirst(st: DeltaState, e: Event, later: seq<Event>)
    ensures EncodeEvents(st, [e] + later)
         == HeadBytes(st.prior, e) + BodyBytes(st.baselines, e) + EncodeEvents(Advance(st, e), later)
  {
    assert ([e] + later)[0] == e && ([e] + later)[1..] == later;
    Assoc(Concat(U64Varint, SequenceNumbers(st.prior, e)), PlaceBytes(e), BodyBytes(st.baselines, e));
  }

  lemma NothingOutlivesGap(earlier: seq<Event>, e: Event)
    requires earlier != [] && earlier[|earlier| - 1].kind == 6
    ensures !HasBase(earlier, e)
  {
  }

  lemma BodyIsAgainst(earlier: seq<Event>, e: Event)
    ensures WrittenAgainst(earlier, e, BodyBytes(After(earlier).baselines, e))
  {
    BaselinesAreBases(earlier, e);
    var baselines, key := After(earlier).baselines, BaselineKey(e);
    if i :| IsBase(earlier, e, i) && NamedAlike(earlier[i].fields, e.fields) {
      var flags := Changed(earlier[i].fields, e.fields);
      ChangeIsChange(earlier[i].fields, e.fields);
      assert IsChange(earlier[i].fields, e.fields, flags, BodyBytes(baselines, e));
    }
  }

  lemma ChangeIsChange(base: seq<Field>, fields: seq<Field>)
    requires |base| == |fields|
    ensures IsChange(base, fields, Changed(base, fields), [0] + (VarintBytes(|fields|) + DeltaBytes(base, fields)))
  {
    FlaggedAreWritten(FieldValueBytes, fields, Changed(base, fields));
  }

  // -------------------------------------------------------------------- read

  /** A change against nothing, so any change right behind a gap, is refused, and
      the events before it are kept. */
  lemma ChangeWithoutBaseIsRefused(earlier: seq<Event>, e: Event, rest: seq<byte>)
    requires AllWellFormed(earlier) && !HasBase(earlier, e)
    ensures var refused := HeadBytes(PriorOf(earlier), e) + ([0] + rest);
            DecodeEvents(FRESH, |earlier| + 1, EncodeEvents(FRESH, earlier) + refused)
            == Decoded(earlier, false, refused)
  {
    AfterIsFrom(earlier);
    BaselinesAreBases(earlier, e);
    ChangeIsRefused(After(earlier), e, rest);
    RefusedNext(earlier, HeadBytes(PriorOf(earlier), e) + ([0] + rest));
  }

  lemma RefusedNext(earlier: seq<Event>, refused: seq<byte>)
    requires AllWellFormed(earlier) && ReadEvent(After(earlier), refused) == Failed
    ensures DecodeEvents(FRESH, |earlier| + 1, EncodeEvents(FRESH, earlier) + refused)
         == Decoded(earlier, false, refused)
  {
    AfterIsFrom(earlier);
    EventsRoundTrip(FRESH, earlier, refused);
    OneMore(ReadEvent, FRESH, |earlier|, EncodeEvents(FRESH, earlier) + refused);
  }

  lemma ChangeIsRefused(st: DeltaState, e: Event, rest: seq<byte>)
    requires BaselineKey(e) !in st.baselines
    ensures ReadEvent(st, HeadBytes(st.prior, e) + ([0] + rest)) == Failed
  {
    Assoc(Concat(U64Varint, SequenceNumbers(st.prior, e)), PlaceBytes(e), [0] + rest);
    HeaderRoundTrip(st.prior, e, [0] + rest);
    assert BaselineKey(e.(fields := [])) == BaselineKey(e);
  }

  lemma {:induction false} OneMore(
      read: (DeltaState, seq<byte>) -> Parsed<Event>, st: DeltaState, n: nat, s: seq<byte>)
    ensures var d := DecodeWith(read, st, n, s);
            d.ok && read(AfterFrom(st, d.events), d.rest).Failed? ==>
              DecodeWith(read, st, n + 1, s) == d.(ok := false)
    decreases n
  {
    if n > 0 && read(st, s).Parsed? {
      OneMore(read, Advance(st, read(st, s).value), n - 1, read(st, s).rest);
      Cons(read(st, s).value, DecodeWith(read, Advance(st, read(st, s).value), n - 1, read(st, s).rest).events);
    }
  }

  lemma Cons<T>(x: T, xs: seq<T>)
    ensures ([x] + xs)[0] == x && ([x] + xs)[1..] == xs
  {
  }
}
