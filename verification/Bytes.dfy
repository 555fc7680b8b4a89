/** Byte-level primitives of the capture format: little-endian plain values,
    unsigned LEB128 varints (section 7.6 of DWARF Version 5) and
    length-prefixed strings.

    Readers are functions from the unread bytes to a value and the bytes left
    over. A reader that fails does not say how far it got, because every caller
    abandons the input on failure. */
module Bytes {

  import opened Words

  /** A byte container whose size fits the 64-bit size type. */
  type Buffer = s: seq<byte> | |s| < 0x1_0000_0000_0000_0000

  datatype Parsed<+T> = Failed | Parsed(value: T, rest: seq<byte>) {
    predicate IsFailure() {
      Failed?
    }

    function PropagateFailure<U>(): Parsed<U>
      requires Failed?
    {
      Failed
    }

    function Extract(): (T, seq<byte>)
      requires Parsed?
    {
      (value, rest)
    }
  }

  // ---------------------------------------------------------------- varints

  function VarintBytes(v: nat): (bs: seq<byte>)
    ensures |bs| >= 1
  {
    if v < 0x80 then [v] else [v % 0x80 + 0x80] + VarintBytes(v / 0x80)
  }

  /** Ten groups of seven bits hold every 64-bit value. */
  const MAX_GROUPS: nat := 10

  /** The groups of a varint as one unbounded number; `groups` bounds how many
      bytes may be consumed. */
  function RawVarint(s: seq<byte>, groups: nat): (r: Parsed<nat>)
    ensures r.Parsed? ==> |r.rest| < |s|
  {
    if groups == 0 || s == [] then Failed
    else if s[0] < 0x80 then Parsed(s[0], s[1..])
    else
      var (high, rest) :- RawVarint(s[1..], groups - 1);
      Parsed(s[0] - 0x80 + 0x80 * high, rest)
  }

  /** At most ten groups are read, and bits above the sixty-fourth fall off. */
  function ReadVarint(s: seq<byte>): (r: Parsed<u64>)
    ensures r.Parsed? ==> |r.rest| < |s|
  {
    var (raw, rest) :- RawVarint(s, MAX_GROUPS);
    Parsed(raw % TWO_64, rest)
  }

  ghost function Pow128(n: nat): (p: nat)
    ensures p >= 1
  {
    if n == 0 then 1 else 0x80 * Pow128(n - 1)
  }

  lemma {:induction false} RawVarintInverts(v: nat, groups: nat, rest: seq<byte>)
    requires |VarintBytes(v)| <= groups
    ensures RawVarint(VarintBytes(v) + rest, groups) == Parsed(v, rest)
  {
    var s := VarintBytes(v) + rest;
    if v >= 0x80 {
      RawVarintInverts(v / 0x80, groups - 1, rest);
      assert s[1..] == VarintBytes(v / 0x80) + rest;
    } else {
      assert s[1..] == rest;
    }
  }

  lemma VarintOfU64(v: u64)
    ensures |VarintBytes(v)| <= MAX_GROUPS
  {
    var v2 := v / 0x80 / 0x80;
    var v4 := v2 / 0x80 / 0x80;
    var v6 := v4 / 0x80 / 0x80;
    var v8 := v6 / 0x80 / 0x80;
    assert v8 / 0x80 < 0x80;
    assert |VarintBytes(v8)| <= 2;
    assert |VarintBytes(v6)| <= 4;
    assert |VarintBytes(v4)| <= 6;
    assert |VarintBytes(v2)| <= 8;
  }

  lemma ReadVarintOfRaw(s: seq<byte>, v: u64, rest: seq<byte>)
    requires RawVarint(s, MAX_GROUPS) == Parsed(v, rest)
    ensures ReadVarint(s) == Parsed(v, rest)
  {
  }

  lemma VarintRoundTrip(v: u64, rest: seq<byte>)
    ensures ReadVarint(VarintBytes(v) + rest) == Parsed(v, rest)
  {
    assert RawVarint(VarintBytes(v) + rest, MAX_GROUPS) == Parsed(v, rest) by {
      VarintOfU64(v);
      RawVarintInverts(v, MAX_GROUPS, rest);
    }
    ReadVarintOfRaw(VarintBytes(v) + rest, v, rest);
  }

  lemma {:induction false} VarintSize(v: nat, n: nat)
    requires v < Pow128(n) && n >= 1
    ensures |VarintBytes(v)| <= n
  {
    if v >= 0x80 {
      VarintSize(v / 0x80, n - 1);
    }
  }

  lemma {:induction false} RawVarintBound(s: seq<byte>, groups: nat)
    ensures var r := RawVarint(s, groups);
            r.Parsed? ==> r.value < Pow128(|s| - |r.rest|)
  {
    var r := RawVarint(s, groups);
    if r.Parsed? && s[0] >= 0x80 {
      RawVarintBound(s[1..], groups - 1);
    } else if r.Parsed? {
      assert Pow128(1) == 0x80;
    }
  }

  /** The writer's varints are the shortest the reader accepts. */
  lemma VarintIsShortest(s: seq<byte>)
    ensures var r := ReadVarint(s);
            r.Parsed? ==> |VarintBytes(r.value)| + |r.rest| <= |s|
  {
    var raw := RawVarint(s, MAX_GROUPS);
    if raw.Parsed? {
      RawVarintBound(s, MAX_GROUPS);
      VarintSize(raw.value % TWO_64, |s| - |raw.rest|);
    }
  }

  /** append_varint: emits seven bits per iteration. */
  method AppendVarint(out: seq<byte>, v: nat) returns (out': seq<byte>)
    ensures out' == out + VarintBytes(v)
  {
    var value := v;
    out' := out;
    while value >= 0x80
      invariant out' + VarintBytes(value) == out + VarintBytes(v)
    {
      Assoc(out', [value % 0x80 + 0x80], VarintBytes(value / 0x80));
      out' := out' + [value % 0x80 + 0x80];
      value := value / 0x80;
    }
    out' := out' + [value];
  }

  /** The unread part of a buffer; reading past its end finds nothing. */
  function From(input: seq<byte>, offset: nat): (s: seq<byte>) {
    if offset <= |input| then input[offset..] else []
  }

  /** `x << 7 * groups`, before any truncation. */
  function ShiftLeft(x: nat, groups: nat): nat {
    if groups == 0 then x else 0x80 * ShiftLeft(x, groups - 1)
  }

  lemma {:induction false} ShiftLeftAdds(low: nat, high: nat, i: nat)
    ensures ShiftLeft(low + 0x80 * high, i) == ShiftLeft(low, i) + ShiftLeft(high, i + 1)
  {
    if i > 0 {
      ShiftLeftAdds(low, high, i - 1);
    }
  }

  lemma {:induction false} ShiftLeftBound(low: nat, i: nat)
    requires low < 0x80
    ensures ShiftLeft(low, i) <= 0x7f * ShiftLeft(1, i)
  {
    if i > 0 {
      ShiftLeftBound(low, i - 1);
    }
  }

  lemma {:induction false} ShiftLeftSmall(low: nat, i: nat)
    requires i <= 8 && low < 0x80
    ensures ShiftLeft(1, i) <= 0x100_0000_0000_0000
    ensures ShiftLeft(low, i) <= 0x7f00_0000_0000_0000
  {
    ShiftLeftBound(low, i);
    assert ShiftLeft(1, 2) == 0x4000 && ShiftLeft(1, 4) == 0x1000_0000;
    assert ShiftLeft(1, 6) == 0x400_0000_0000 && ShiftLeft(1, 8) == 0x100_0000_0000_0000;
    ShiftLeftGrows(i, 8);
  }

  lemma {:induction false} ShiftLeftGrows(i: nat, j: nat)
    requires i <= j
    ensures ShiftLeft(1, i) <= ShiftLeft(1, j)
  {
    if i < j {
      ShiftLeftGrows(i, j - 1);
    }
  }

  lemma ShiftLeftTenth(low: nat)
    ensures ShiftLeft(low, 9) == 0x8000_0000_0000_0000 * low
  {
    assert ShiftLeft(low, 1) == 0x80 * low;
    assert ShiftLeft(low, 2) == 0x4000 * low;
    assert ShiftLeft(low, 3) == 0x20_0000 * low;
    assert ShiftLeft(low, 4) == 0x1000_0000 * low;
    assert ShiftLeft(low, 5) == 0x8_0000_0000 * low;
    assert ShiftLeft(low, 6) == 0x400_0000_0000 * low;
    assert ShiftLeft(low, 7) == 0x2_0000_0000_0000 * low;
    assert ShiftLeft(low, 8) == 0x100_0000_0000_0000 * low;
  }

  /** Adding one group in 64-bit arithmetic: nothing is lost before the tenth. */
  lemma GroupFits(i: nat, acc: nat, low: nat)
    requires i <= 9 && acc < ShiftLeft(1, i) && low < 0x80
    ensures acc + ShiftLeft(low, i) % TWO_64 == (acc + ShiftLeft(low, i)) % TWO_64 < TWO_64
    ensures i < 9 ==> ShiftLeft(low, i) % TWO_64 == ShiftLeft(low, i)
    ensures acc + ShiftLeft(low, i) < ShiftLeft(1, i + 1)
  {
    ShiftLeftBound(low, i);
    if i < 9 {
      ShiftLeftSmall(low, i);
    } else {
      ShiftLeftTenth(low);
      ShiftLeftTenth(1);
    }
  }

  /** A varint whose first `i` groups are worth `acc`. */
  ghost function Shifted(acc: nat, i: nat, part: Parsed<nat>): Parsed<nat> {
    if part.Failed? then Failed else Parsed(acc + ShiftLeft(part.value, i), part.rest)
  }

  lemma VarintStep(s: seq<byte>, groups: nat, acc: nat, i: nat)
    requires s != [] && groups > 0
    ensures var sum := acc + ShiftLeft(s[0] % 0x80, i);
            Shifted(acc, i, RawVarint(s, groups)) ==
            if s[0] < 0x80 then Parsed(sum, s[1..])
            else Shifted(sum, i + 1, RawVarint(s[1..], groups - 1))
  {
    var tail := RawVarint(s[1..], groups - 1);
    if s[0] >= 0x80 && tail.Parsed? {
      ShiftLeftAdds(s[0] - 0x80, tail.value, i);
    }
  }

  ghost predicate Reading(whole: Parsed<nat>, rest: seq<byte>, i: nat, value: nat, ok: bool) {
    && i <= MAX_GROUPS
    && if ok then whole.Parsed? && value == whole.value % TWO_64 && rest == whole.rest
       else
         && (i <= 9 ==> value < ShiftLeft(1, i))
         && whole == Shifted(value, i, RawVarint(rest, MAX_GROUPS - i))
  }

  lemma ReadingStep(whole: Parsed<nat>, rest: seq<byte>, i: nat, value: nat)
    requires i < MAX_GROUPS && rest != [] && Reading(whole, rest, i, value, false)
    ensures var sum := value + ShiftLeft(rest[0] % 0x80, i) % TWO_64;
            sum < TWO_64 && Reading(whole, rest[1..], i + 1, sum, rest[0] < 0x80)
  {
    GroupFits(i, value, rest[0] % 0x80);
    VarintStep(rest, MAX_GROUPS - i, value, i);
  }

  /** read_varint: the shift runs 0, 7, ..., 63, so the tenth group keeps one
      bit. The groups occupy disjoint bits, so `|=` adds. */
  method ReadVarintAt(input: seq<byte>, offset: nat)
    returns (ok: bool, value: u64, next: nat)
    ensures ok == ReadVarint(From(input, offset)).Parsed?
    ensures ok ==> next <= |input| && ReadVarint(From(input, offset)) == Parsed(value, input[next..])
  {
    ok, value, next := false, 0, offset;
    ghost var rest := From(input, offset);
    ghost var whole := RawVarint(rest, MAX_GROUPS);
    var i := 0;
    while i < MAX_GROUPS && next < |input| && !ok
      invariant rest == From(input, next) && (ok ==> next <= |input|)
      invariant Reading(whole, rest, i, value, ok)
    {
      var b := input[next];
      ReadingStep(whole, rest, i, value);
      var sum := value + ShiftLeft(b % 0x80, i) % TWO_64;
      assert Reading(whole, rest[1..], i + 1, sum, b < 0x80);
      ok, value, next, i := b < 0x80, sum, next + 1, i + 1;
      rest := rest[1..];
    }
  }

  // ------------------------------------------------- little-endian plain data

  function Pod(v: nat, width: nat): (bs: seq<byte>)
    ensures |bs| == width
  {
    if width == 0 then [] else [v % 0x100] + Pod(v / 0x100, width - 1)
  }

  function PodValue(bs: seq<byte>): nat {
    if bs == [] then 0 else bs[0] + 0x100 * PodValue(bs[1..])
  }

  ghost function Pow256(n: nat): nat {
    if n == 0 then 1 else 0x100 * Pow256(n - 1)
  }

  lemma Pow256At()
    ensures Pow256(1) == 0x100 && Pow256(2) == 0x1_0000
    ensures Pow256(4) == TWO_32 && Pow256(8) == TWO_64
  {
    assert Pow256(1) == 0x100 && Pow256(2) == 0x1_0000 && Pow256(3) == 0x100_0000;
    assert Pow256(5) == 0x100 * Pow256(4) && Pow256(6) == 0x100 * Pow256(5);
    assert Pow256(7) == 0x100 * Pow256(6);
  }

  lemma {:induction false} PodValueBound(bs: seq<byte>)
    ensures PodValue(bs) < Pow256(|bs|)
  {
    if bs != [] {
      PodValueBound(bs[1..]);
    }
  }

  lemma {:induction false} PodInverts(v: nat, width: nat)
    requires v < Pow256(width)
    ensures PodValue(Pod(v, width)) == v
  {
    if width > 0 {
      PodInverts(v / 0x100, width - 1);
      assert Pod(v, width)[1..] == Pod(v / 0x100, width - 1);
    }
  }

  function ReadByte(s: seq<byte>): (r: Parsed<byte>)
    ensures r.Parsed? ==> |r.rest| < |s|
  {
    if s == [] then Failed else Parsed(s[0], s[1..])
  }

  function ReadU32(s: seq<byte>): (r: Parsed<u32>)
    ensures r.Parsed? ==> |r.rest| + 4 == |s|
  {
    if |s| < 4 then Failed
    else
      PodValueBound(s[..4]);
      Pow256At();
      Parsed(PodValue(s[..4]), s[4..])
  }

  function ReadU64(s: seq<byte>): (r: Parsed<u64>)
    ensures r.Parsed? ==> |r.rest| + 8 == |s|
  {
    if |s| < 8 then Failed
    else
      PodValueBound(s[..8]);
      Pow256At();
      Parsed(PodValue(s[..8]), s[8..])
  }

  lemma ByteRoundTrip(b: byte, rest: seq<byte>)
    ensures ReadByte([b] + rest) == Parsed(b, rest)
  {
  }

  lemma U32RoundTrip(v: u32, rest: seq<byte>)
    ensures ReadU32(Pod(v, 4) + rest) == Parsed(v, rest)
  {
    var s := Pod(v, 4) + rest;
    assert s[..4] == Pod(v, 4) && s[4..] == rest;
    Pow256At();
    PodInverts(v, 4);
  }

  lemma U64RoundTrip(v: u64, rest: seq<byte>)
    ensures ReadU64(Pod(v, 8) + rest) == Parsed(v, rest)
  {
    var s := Pod(v, 8) + rest;
    assert s[..8] == Pod(v, 8) && s[8..] == rest;
    Pow256At();
    PodInverts(v, 8);
  }

  // ---------------------------------------------------------------- strings

  function StringBytes(t: seq<byte>): seq<byte> {
    VarintBytes(|t|) + t
  }

  function ReadString(s: seq<byte>): (r: Parsed<Buffer>)
    ensures r.Parsed? ==> |r.rest| < |s|
  {
    var (size, rest) :- ReadVarint(s);
    if size > |rest| then Failed else Parsed(rest[..size], rest[size..])
  }

  lemma StringRoundTrip(t: Buffer, rest: seq<byte>)
    ensures ReadString(StringBytes(t) + rest) == Parsed(t, rest)
  {
    Assoc(VarintBytes(|t|), t, rest);
    VarintRoundTrip(|t|, t + rest);
    assert (t + rest)[..|t|] == t && (t + rest)[|t|..] == rest;
  }

  lemma StringIsShortest(s: seq<byte>)
    ensures var r := ReadString(s);
            r.Parsed? ==> |StringBytes(r.value)| + |r.rest| <= |s|
  {
    VarintIsShortest(s);
  }

  // ------------------------------------------------------- counted sequences

  function Concat<T>(enc: T -> seq<byte>, xs: seq<T>): seq<byte> {
    if xs == [] then [] else enc(xs[0]) + Concat(enc, xs[1..])
  }

  lemma {:induction false} ConcatAppend<R>(enc: R -> seq<byte>, xs: seq<R>, ys: seq<R>)
    ensures Concat(enc, xs + ys) == Concat(enc, xs) + Concat(enc, ys)
  {
    if xs == [] {
      assert xs + ys == ys;
    } else {
      ConcatAppend(enc, xs[1..], ys);
      assert (xs + ys)[1..] == xs[1..] + ys;
      Assoc(enc(xs[0]), Concat(enc, xs[1..]), Concat(enc, ys));
    }
  }

  lemma ConcatOne<R>(enc: R -> seq<byte>, x: R)
    ensures Concat(enc, [x]) == enc(x)
  {
    assert enc(x) + [] == enc(x);
  }

  lemma {:induction false} ConcatSnoc<T>(enc: T -> seq<byte>, xs: seq<T>, i: nat)
    requires i < |xs|
    ensures Concat(enc, xs[..i + 1]) == Concat(enc, xs[..i]) + enc(xs[i])
  {
    if i == 0 {
      assert xs[..1] == [xs[0]] && xs[..0] == [];
    } else {
      ConcatSnoc(enc, xs[1..], i - 1);
      assert xs[..i + 1][1..] == xs[1..][..i] && xs[..i][1..] == xs[1..][..i - 1];
      Assoc(enc(xs[0]), Concat(enc, xs[1..][..i - 1]), enc(xs[i]));
    }
  }

  function ReadMany<T>(read: seq<byte> -> Parsed<T>, n: nat, s: seq<byte>): (r: Parsed<seq<T>>)
    ensures r.Parsed? ==> |r.value| == n
  {
    if n == 0 then Parsed([], s)
    else
      var (x, s1) :- read(s);
      var (xs, s2) :- ReadMany(read, n - 1, s1);
      Parsed([x] + xs, s2)
  }

  ghost function Prepend<T>(xs: seq<T>, r: Parsed<seq<T>>): Parsed<seq<T>> {
    if r.Failed? then Failed else Parsed(xs + r.value, r.rest)
  }

  lemma PrependUnits<T>(xs: seq<T>, r: Parsed<seq<T>>, rest: seq<byte>)
    ensures Prepend([], r) == r
    ensures Prepend(xs, Parsed([], rest)) == Parsed(xs, rest)
  {
    assert r.Parsed? ==> [] + r.value == r.value;
    assert xs + [] == xs;
  }

  lemma ReadManyStep<T>(read: seq<byte> -> Parsed<T>, n: nat, s: seq<byte>, done: seq<T>)
    requires n > 0
    ensures Prepend(done, ReadMany(read, n, s)) ==
            if read(s).Failed? then Failed
            else Prepend(done + [read(s).value], ReadMany(read, n - 1, read(s).rest))
  {
    if read(s).Parsed? {
      var tail := ReadMany(read, n - 1, read(s).rest);
      if tail.Parsed? {
        Assoc(done, [read(s).value], tail.value);
      }
    }
  }

  /** Reads `n` elements; the cursor is the unread suffix of the chunk. */
  method ReadManyLoop<T>(read: seq<byte> -> Parsed<T>, n: nat, s: seq<byte>) returns (r: Parsed<seq<T>>)
    ensures r == ReadMany(read, n, s)
  {
    var xs: seq<T>, rest := [], s;
    ghost var whole := ReadMany(read, n, s);
    PrependUnits(xs, whole, rest);
    for i := 0 to n
      invariant whole == Prepend(xs, ReadMany(read, n - i, rest))
    {
      var x := read(rest);
      if x.Failed? {
        return Failed;
      }
      ghost var tail := ReadMany(read, n - i - 1, x.rest);
      if tail.Parsed? {
        Assoc(xs, [x.value], tail.value);
      }
      xs, rest := xs + [x.value], x.rest;
    }
    PrependUnits(xs, whole, rest);
    r := Parsed(xs, rest);
  }

  lemma {:induction false} ReadManyRoundTrip<T(!new)>(
      enc: T -> seq<byte>, read: seq<byte> -> Parsed<T>, xs: seq<T>, rest: seq<byte>)
    requires forall x, r :: x in xs ==> read(enc(x) + r) == Parsed(x, r)
    ensures ReadMany(read, |xs|, Concat(enc, xs) + rest) == Parsed(xs, rest)
  {
    if xs == [] {
      assert Concat(enc, xs) + rest == rest;
    } else {
      Assoc(enc(xs[0]), Concat(enc, xs[1..]), rest);
      assert xs[0] in xs;
      forall x, r | x in xs[1..]
        ensures read(enc(x) + r) == Parsed(x, r)
      {
        assert x in xs;
      }
      ReadManyRoundTrip(enc, read, xs[1..], rest);
      assert [xs[0]] + xs[1..] == xs;
    }
  }

  lemma {:induction false} ReadManyAll<T>(
      read: seq<byte> -> Parsed<T>, good: T -> bool, n: nat, s: seq<byte>)
    requires forall t :: read(t).Parsed? ==> good(read(t).value)
    ensures var r := ReadMany(read, n, s);
            r.Parsed? ==> forall x :: x in r.value ==> good(x)
  {
    var r := ReadMany(read, n, s);
    if n > 0 && r.Parsed? {
      ReadManyAll(read, good, n - 1, read(s).rest);
    }
  }

  /** What holds of every element a reader yields holds of a counted sequence,
      and re-encoding never needs more bytes than were read. */
  lemma {:induction false} ReadManyIsShortest<T>(
      enc: T -> seq<byte>, read: seq<byte> -> Parsed<T>, good: T -> bool, n: nat, s: seq<byte>)
    requires forall t :: read(t).Parsed? ==>
                           good(read(t).value) && |enc(read(t).value)| + |read(t).rest| <= |t|
    ensures var r := ReadMany(read, n, s);
            r.Parsed? ==>
              && (forall x :: x in r.value ==> good(x))
              && |Concat(enc, r.value)| + |r.rest| <= |s|
  {
    var r := ReadMany(read, n, s);
    if n > 0 && r.Parsed? {
      var head := read(s);
      ReadManyIsShortest(enc, read, good, n - 1, head.rest);
      var tail := ReadMany(read, n - 1, head.rest);
      assert r.value == [head.value] + tail.value;
      assert r.value[1..] == tail.value;
    }
  }

  /** A sequence preceded by its length; the reader refuses more than `max`. */
  function CountedBytes<T>(enc: T -> seq<byte>, xs: seq<T>): seq<byte> {
    VarintBytes(|xs|) + Concat(enc, xs)
  }

  function ReadCounted<T>(read: seq<byte> -> Parsed<T>, max: nat, s: seq<byte>): (r: Parsed<seq<T>>)
    ensures r.Parsed? ==> |r.value| <= max
  {
    var (count, s) :- ReadVarint(s);
    if count > max then Failed else ReadMany(read, count, s)
  }

  lemma CountedRoundTrip<T(!new)>(
      enc: T -> seq<byte>, read: seq<byte> -> Parsed<T>, max: nat, xs: seq<T>, rest: seq<byte>)
    requires |xs| <= max < TWO_64
    requires forall x, r :: x in xs ==> read(enc(x) + r) == Parsed(x, r)
    ensures ReadCounted(read, max, CountedBytes(enc, xs) + rest) == Parsed(xs, rest)
  {
    Assoc(VarintBytes(|xs|), Concat(enc, xs), rest);
    VarintRoundTrip(|xs|, Concat(enc, xs) + rest);
    ReadManyRoundTrip(enc, read, xs, rest);
  }

  lemma CountedIsShortest<T>(
      enc: T -> seq<byte>, read: seq<byte> -> Parsed<T>, good: T -> bool, max: nat, s: seq<byte>)
    requires forall t :: read(t).Parsed? ==>
                           good(read(t).value) && |enc(read(t).value)| + |read(t).rest| <= |t|
    ensures var r := ReadCounted(read, max, s);
            r.Parsed? ==>
              && (forall x :: x in r.value ==> good(x))
              && |CountedBytes(enc, r.value)| + |r.rest| <= |s|
  {
    VarintIsShortest(s);
    var head := ReadVarint(s);
    if head.Parsed? {
      ReadManyIsShortest(enc, read, good, head.value, head.rest);
    }
  }
}
