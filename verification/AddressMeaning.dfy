/** What each operation of an address program does, at its bytes and in plain
    arithmetic: behind any program that reaches an address, one more operation
    leads where its opcode says, or fails as it says. */
module AddressMeaning {
  import opened Words
  import opened Bytes
  import opened AddressProgram

  /** The program without its terminator reaches this address. */
  ghost predicate Reaches(w: Environment, p: seq<byte>, a: u32)
    requires Ready(w)
  {
    Ends(w, p + [0x00], false) == Reached(a)
  }

  // ----------------------------------------------------- programs that go on

  lemma SamePart<T>(s: seq<T>, t: seq<T>, n: nat, i: nat, j: nat)
    requires i <= j <= n <= |s| && n <= |t| && s[..n] == t[..n]
    ensures s[i..][..j - i] == t[i..][..j - i]
  {
    assert s[i..][..j - i] == s[..n][i..j] && t[i..][..j - i] == t[..n][i..j];
  }

  /** Parsing an operation looks only at its opcode and operand. */
  lemma ParseLooksAhead(s: seq<byte>, t: seq<byte>)
    requires s != [] && ParseOne(s).item.Operate?
    requires var n := 1 + OperandSize(s[0]).value; n <= |t| && s[..n] == t[..n]
    ensures ParseOne(t) == One(ParseOne(s).item, t[1 + OperandSize(s[0]).value..])
  {
    ParseOneSize(s);
    var n := 1 + OperandSize(s[0]).value;
    assert s[0] == s[..n][0] == t[..n][0] == t[0];
    if n > 1 {
      SamePart(s, t, n, 1, n);
      assert s[1] == s[..n][1] == t[..n][1] == t[1];
    }
    if n == 5 {
      SamePart(s, t, n, 1, 3);
      SamePart(s, t, n, 3, 5);
      assert s[1..][2..] == s[3..] && t[1..][2..] == t[3..];
      assert s[2] == s[..n][2] == t[..n][2] == t[2] && s[3] == s[..n][3] == t[..n][3] == t[3];
      assert s[4] == s[..n][4] == t[..n][4] == t[4];
    } else if n == 3 {
      assert s[2] == s[..n][2] == t[..n][2] == t[2];
    } else if n == 6 {
      SamePart(s, t, n, 2, 6);
      assert s[1..][1..] == s[2..] && t[1..][1..] == t[2..];
    }
  }

  /** The first item of a program, and the rest of it. */
  lemma FirstItem(w: Environment, s: seq<byte>, x: u32)
    requires Ready(w) && s != [] && ParseOne(s).item.Operate?
    ensures var one := ParseOne(s);
            var step := StepFor(w, one.item, x, 0);
            Fold(w, Items(s), x, None) ==
              if GoesOn(w, one.item, x) then Fold(w, Items(one.rest), step.after, None) else Stuck(step.failure, x)
  {
    ItemsCons(s);
    FoldCons(w, ParseOne(s).item, Items(ParseOne(s).rest), x, false, 0);
  }

  /** The bytes of the first operation. */
  function Width(s: seq<byte>): nat
    requires s != []
  {
    1 + if OperandSize(s[0]).Some? then OperandSize(s[0]).value else 0
  }

  /** Marks the programs that a proof about a parser looks into. */
  ghost predicate At(s: seq<byte>) {
    true
  }

  type Split = seq<byte> -> One

  ghost predicate Unfolds(items: seq<byte> -> seq<Item>, parse: Split) {
    && items([]) == []
    && (forall s {:trigger At(s)} :: s != [] ==>
          items(s) == [parse(s).item] + (if parse(s).item.Operate? then items(parse(s).rest) else []))
  }

  ghost predicate Advances(parse: Split) {
    forall s {:trigger At(s)} :: s != [] && parse(s).item.Operate? ==>
      Width(s) <= |s| && parse(s).rest == s[Width(s)..]
  }

  ghost predicate EndsLast(parse: Split) {
    forall s {:trigger At(s)} :: |s| > 1 ==> !parse(s).item.Terminate?
  }

  ghost predicate LooksAhead(parse: Split) {
    forall s, t {:trigger At(s), At(t)} ::
      s != [] && parse(s).item.Operate? && Width(s) <= |s| && Width(s) <= |t| && s[..Width(s)] == t[..Width(s)] ==>
        parse(t) == One(parse(s).item, t[Width(s)..])
  }

  const ITEMS: seq<byte> -> seq<Item> := (s: seq<byte>) => Items(s)
  const PARSE: seq<byte> -> One := (s: seq<byte>) => if s == [] then One(Terminate, []) else ParseOne(s)

  lemma ItemsUnfold()
    ensures Unfolds(ITEMS, PARSE)
  {
  }

  lemma ParseAdvances()
    ensures Advances(PARSE)
  {
    forall s: seq<byte> | s != [] && ParseOne(s).item.Operate?
      ensures Width(s) <= |s| && ParseOne(s).rest == s[Width(s)..]
    {
      ParseOneSize(s);
    }
  }

  lemma ParseEndsLast()
    ensures EndsLast(PARSE)
  {
    forall s: seq<byte> | |s| > 1 ensures !ParseOne(s).item.Terminate? {
      NotTheEnd(s);
    }
  }

  lemma ParseLooksAheadOnly()
    ensures LooksAhead(PARSE)
  {
    forall s: seq<byte>, t: seq<byte> |
      s != [] && ParseOne(s).item.Operate? && Width(s) <= |s| && Width(s) <= |t|
      && s[..Width(s)] == t[..Width(s)]
      ensures PARSE(t) == One(PARSE(s).item, t[Width(s)..])
    {
      ParseAhead(s, t);
    }
  }

  lemma ParseAhead(s: seq<byte>, t: seq<byte>)
    requires s != [] && ParseOne(s).item.Operate? && Width(s) <= |s| && Width(s) <= |t|
    requires s[..Width(s)] == t[..Width(s)]
    ensures t != [] && ParseOne(t) == One(ParseOne(s).item, t[Width(s)..])
  {
    ParseOneSize(s);
    ParseLooksAhead(s, t);
  }

  lemma NotTheEnd(s: seq<byte>)
    requires |s| > 1
    ensures !ParseOne(s).item.Terminate?
  {
  }

  function Most<T>(s: seq<T>): seq<T> {
    if s == [] then [] else s[..|s| - 1]
  }

  lemma MostCons(item: Item, tail: seq<Item>, rest: seq<Item>)
    requires item.Operate? && tail == Most(tail) + [Terminate]
    requires forall i :: 0 <= i < |Most(tail)| ==> Most(tail)[i].Operate?
    ensures var all := [item] + tail;
            && [item] + (Most(tail) + rest) == Most(all) + rest && all == Most(all) + [Terminate]
            && forall i :: 0 <= i < |Most(all)| ==> Most(all)[i].Operate?
  {
    assert Most([item] + tail) == [item] + Most(tail);
  }

  /** Closed by the terminator, `p` is a list of operations; any other bytes may
      stand in the place of the terminator. */
  lemma {:induction false} BehindParsed(
      items: seq<byte> -> seq<Item>, parse: Split, p: seq<byte>, s: seq<byte>)
    requires Unfolds(items, parse) && Advances(parse) && EndsLast(parse) && LooksAhead(parse)
    requires EndsWell(items(p + [0x00]))
    ensures items(p + s) == Most(items(p + [0x00])) + items(s)
    ensures items(p + [0x00]) == Most(items(p + [0x00])) + [Terminate]
    ensures forall i :: 0 <= i < |Most(items(p + [0x00]))| ==> Most(items(p + [0x00]))[i].Operate?
    decreases |p|
  {
    var t := p + [0x00];
    assert At(t) && At(p + s);
    if p == [] {
      assert p + s == s && t == [0x00];
      assert t[1..] == [];
      assert parse(t).item.Operate? ==> parse(t).rest == [];
      assert items(t) == [parse(t).item];
    } else {
      var n := Width(t);
      var item, tail := parse(t).item, items(t[n..]);
      assert item.Operate? && items(t) == [item] + tail && tail != [];
      assert t[n..] == p[n..] + [0x00] && (p + s)[n..] == p[n..] + s && t[..n] == (p + s)[..n];
      EndsWellCons(item, tail);
      BehindParsed(items, parse, p[n..], s);
      MostCons(item, tail, items(s));
    }
  }

  /** The operations before the terminator. */
  function Front(p: seq<byte>): seq<Item> {
    Most(Items(p + [0x00]))
  }

  lemma ItemsBehind(p: seq<byte>, s: seq<byte>)
    requires EndsWell(Items(p + [0x00]))
    ensures Items(p + s) == Front(p) + Items(s)
    ensures Items(p + [0x00]) == Front(p) + [Terminate]
    ensures forall i :: 0 <= i < |Front(p)| ==> Front(p)[i].Operate?
  {
    ItemsUnfold();
    ParseAdvances();
    ParseEndsLast();
    ParseLooksAheadOnly();
    BehindParsed(ITEMS, PARSE, p, s);
  }

  lemma {:induction false} ReachedEndsWell(w: Environment, s: seq<byte>, x: u32, a: u32)
    requires Ready(w) && Fold(w, Items(s), x, None) == Reached(a)
    ensures EndsWell(Items(s))
    decreases |s|
  {
    ItemsCons(s);
    if ParseOne(s).item.Operate? {
      FirstItem(w, s, x);
      EndsWellCons(ParseOne(s).item, Items(ParseOne(s).rest));
      ReachedEndsWell(w, ParseOne(s).rest, StepFor(w, ParseOne(s).item, x, 0).after, a);
    }
  }

  /** Operations that lead from `x` to `a` do so whatever follows them. */
  lemma {:induction false} FrontLeads(
      w: Environment, front: seq<Item>, x: u32, a: u32, tail: seq<Item>, index: nat)
    requires Ready(w) && forall i :: 0 <= i < |front| ==> front[i].Operate?
    requires Fold(w, front + [Terminate], x, None) == Reached(a)
    ensures Fold(w, front + tail, x, None) == Fold(w, tail, a, None)
    ensures index + |front| <= LIMIT ==>
              && |front| <= |Steps(w, front + tail, x, index)|
              && Steps(w, front + tail, x, index)[|front|..] == Steps(w, tail, a, index + |front|)
    decreases |front|
  {
    if front == [] {
      assert front + tail == tail && front + [Terminate] == [Terminate];
    } else {
      var item, rest := front[0], front[1..];
      assert front + tail == [item] + (rest + tail) && front + [Terminate] == [item] + (rest + [Terminate]);
      FoldCons(w, item, rest + [Terminate], x, false, 0);
      FoldCons(w, item, rest + tail, x, false, 0);
      var step := StepFor(w, item, x, index);
      FrontLeads(w, rest, step.after, a, tail, index + 1);
      if index + |front| <= LIMIT {
        StepsCons(w, item, rest + tail, x, index);
        var steps := Steps(w, rest + tail, step.after, index + 1);
        assert ([step] + steps)[|front|..] == steps[|rest|..];
      }
    }
  }

  /** If `p` closed by the terminator reaches `a`, then whatever stands behind `p`
      in its place is evaluated, and traced, from `a`. */
  lemma GoesOnBehind(w: Environment, p: seq<byte>, a: u32, s: seq<byte>)
    requires Ready(w) && Reaches(w, p, a)
    ensures Ends(w, p + s, false) == Fold(w, Items(s), a, None)
    ensures |Front(p)| <= LIMIT ==>
              var steps := Steps(w, Items(p + s), 0, 0);
              |Front(p)| <= |steps| && steps[|Front(p)|..] == Steps(w, Items(s), a, |Front(p)|)
  {
    ReachedEndsWell(w, p + [0x00], 0, a);
    ItemsBehind(p, s);
    FrontLeads(w, Front(p), 0, a, Items(s), 0);
  }

  // ------------------------------------------------------- what they all do

  /** Little-endian operands. */
  function Two(b0: byte, b1: byte): u16 {
    b0 + 0x100 * b1
  }

  function Four(b0: byte, b1: byte, b2: byte, b3: byte): u32 {
    b0 + 0x100 * b1 + 0x1_0000 * b2 + 0x100_0000 * b3
  }

  lemma ReadsTwo(b0: byte, b1: byte, rest: seq<byte>)
    ensures ReadU16([b0, b1] + rest) == Parsed(Two(b0, b1), rest)
  {
  }

  lemma ReadsFour(b0: byte, b1: byte, b2: byte, b3: byte, rest: seq<byte>)
    ensures ReadU32([b0, b1, b2, b3] + rest) == Parsed(Four(b0, b1, b2, b3), rest)
  {
    var s := [b0, b1, b2, b3];
    assert (s + rest)[..4] == s && (s + rest)[4..] == rest;
    assert [b3] + [] == [b3] && [b2] + [b3] == [b2, b3] && [b1] + [b2, b3] == [b1, b2, b3] && [b0] + [b1, b2, b3] == s;
    LowestFirst(b3, []);
    LowestFirst(b2, [b3]);
    LowestFirst(b1, [b2, b3]);
    LowestFirst(b0, [b1, b2, b3]);
  }

  lemma LowestFirst(b: byte, rest: seq<byte>)
    ensures PodValue([b] + rest) == b + 0x100 * PodValue(rest)
  {
    assert ([b] + rest)[1..] == rest;
  }

  /** The opcodes with one 32-bit operand. */
  lemma ParsesFour(b0: byte, b1: byte, b2: byte, b3: byte)
    ensures var v := Four(b0, b1, b2, b3);
            && ParseOne([0x03, b0, b1, b2, b3] + [0x00]) == One(Operate(0x03, AddSigned(v)), [0x00])
            && ParseOne([0x05, b0, b1, b2, b3] + [0x00]) == One(Operate(0x05, AddUnsigned(v)), [0x00])
            && ParseOne([0x07, b0, b1, b2, b3] + [0x00]) == One(Operate(0x07, BaseAbsolute(v)), [0x00])
  {
    ReadsFour(b0, b1, b2, b3, [0x00]);
    assert ([0x03, b0, b1, b2, b3] + [0x00])[1..] == [b0, b1, b2, b3] + [0x00];
    assert ([0x05, b0, b1, b2, b3] + [0x00])[1..] == [b0, b1, b2, b3] + [0x00];
    assert ([0x07, b0, b1, b2, b3] + [0x00])[1..] == [b0, b1, b2, b3] + [0x00];
  }

  lemma ParsesIndexConst(b0: byte, b1: byte, b2: byte, b3: byte)
    ensures ParseOne([0x04, b0, b1, b2, b3] + [0x00])
         == One(Operate(0x04, IndexConst(Two(b0, b1), Two(b2, b3))), [0x00])
  {
    var x := [0x04, b0, b1, b2, b3];
    assert (x + [0x00])[1..] == [b0, b1] + [b2, b3, 0x00] && [b2, b3, 0x00] == [b2, b3] + [0x00];
    ReadsTwo(b0, b1, [b2, b3, 0x00]);
    ReadsTwo(b2, b3, [0x00]);
  }

  lemma ParsesIndexRegister(r: byte, b0: byte, b1: byte, b2: byte, b3: byte)
    requires r < 32
    ensures ParseOne([0x08, r, b0, b1, b2, b3] + [0x00])
         == One(Operate(0x08, IndexRegister(r, Four(b0, b1, b2, b3))), [0x00])
  {
    var x := [0x08, r, b0, b1, b2, b3];
    assert (x + [0x00])[1..] == [r] + ([b0, b1, b2, b3] + [0x00]);
    assert (x + [0x00])[1..][1..] == [b0, b1, b2, b3] + [0x00];
    ReadsFour(b0, b1, b2, b3, [0x00]);
  }

  /** One operation and the terminator, evaluated from `a`. */
  lemma OneOperation(w: Environment, p: seq<byte>, a: u32, x: seq<byte>, item: Item)
    requires Ready(w) && Reaches(w, p, a)
    requires x != [] && item.Operate? && ParseOne(x + [0x00]) == One(item, [0x00])
    ensures var step := StepFor(w, item, a, 0);
            Ends(w, p + x + [0x00], false) ==
              if GoesOn(w, item, a) then Reached(step.after) else Stuck(step.failure, a)
  {
    Assoc(p, x, [0x00]);
    GoesOnBehind(w, p, a, x + [0x00]);
    FirstItem(w, x + [0x00], a);
    ItemsCons([0x00]);
  }

  lemma OperationMoves(w: Environment, p: seq<byte>, a: u32, x: seq<byte>, item: Item, next: u32)
    requires Ready(w) && Reaches(w, p, a)
    requires x != [] && item.Operate? && ParseOne(x + [0x00]) == One(item, [0x00])
    requires Apply(w, item.op, a) == Moved(next, None)
    ensures Ends(w, p + x + [0x00], false) == Reached(next)
  {
    OneOperation(w, p, a, x, item);
  }

  /** Bytes that do not parse end the program where it stands. */
  lemma BadBytes(w: Environment, p: seq<byte>, a: u32, x: seq<byte>, code: byte, failure: Failure)
    requires Ready(w) && Reaches(w, p, a) && x != [] && ParseOne(x).item == Broken(code, failure)
    ensures Ends(w, p + x, false) == Stuck(failure, a)
  {
    GoesOnBehind(w, p, a, x);
    ItemsCons(x);
    FoldCons(w, Broken(code, failure), [], a, false, 0);
  }

  /** 1, base_key: the base that the resolver gives. */
  lemma BaseKeyMeans(w: Environment, p: seq<byte>, a: u32, b0: byte, b1: byte)
    requires Ready(w) && Reaches(w, p, a)
    ensures Ends(w, p + [0x01, b0, b1] + [0x00], false) ==
              match w.resolve
              case None => Stuck(MissingBaseResolver, a)
              case Some(resolve) =>
                match resolve(b0 + 0x100 * b1)
                case None => Stuck(BaseResolutionFailed, a)
                case Some(base) => Reached(base)
  {
    var x := [0x01, b0, b1];
    assert (x + [0x00])[1..] == [b0, b1] + [0x00];
    ReadsTwo(b0, b1, [0x00]);
    OneOperation(w, p, a, x, Operate(0x01, BaseKey(Two(b0, b1))));
  }

  /** 2, dereference: the low 32 bits of what guest memory holds at the address. */
  lemma DereferenceMeans(w: Environment, p: seq<byte>, a: u32)
    requires Ready(w) && Reaches(w, p, a)
    ensures Ends(w, p + [0x02] + [0x00], false) ==
              match w.read(a)
              case None => Stuck(GuestReadFailed, a)
              case Some(value) => Reached(value % 0x1_0000_0000)
  {
    assert ([0x02] + [0x00])[1..] == [0x00];
    OneOperation(w, p, a, [0x02], Operate(0x02, Dereference));
  }

  /** 3, add_i32: a two's complement operand. */
  lemma AddSignedMeans(w: Environment, p: seq<byte>, a: u32, b0: byte, b1: byte, b2: byte, b3: byte)
    requires Ready(w) && Reaches(w, p, a)
    ensures var v := b0 + 0x100 * b1 + 0x1_0000 * b2 + 0x100_0000 * b3;
            Ends(w, p + [0x03, b0, b1, b2, b3] + [0x00], false)
            == Reached((a + (if b3 < 0x80 then v else v - 0x1_0000_0000)) % 0x1_0000_0000)
  {
    ParsesFour(b0, b1, b2, b3);
    var v: int, from: int := Four(b0, b1, b2, b3), a;
    var d: int := if b3 < 0x80 then v else v - 0x1_0000_0000;
    assert Signed(v) == d;
    OperationMoves(w, p, a, [0x03, b0, b1, b2, b3], Operate(0x03, AddSigned(v)), (from + d) % 0x1_0000_0000);
  }

  /** 4, index_const: a 16-bit count times a 16-bit stride. */
  lemma IndexConstMeans(w: Environment, p: seq<byte>, a: u32, b0: byte, b1: byte, b2: byte, b3: byte)
    requires Ready(w) && Reaches(w, p, a)
    ensures Ends(w, p + [0x04, b0, b1, b2, b3] + [0x00], false)
         == Reached((a + (b0 + 0x100 * b1) * (b2 + 0x100 * b3)) % 0x1_0000_0000)
  {
    ParsesIndexConst(b0, b1, b2, b3);
    var count: int, stride: int := Two(b0, b1), Two(b2, b3);
    OperationMoves(w, p, a, [0x04, b0, b1, b2, b3], Operate(0x04, IndexConst(count, stride)),
                   (a + count * stride) % 0x1_0000_0000);
  }

  /** 5, add_u32. */
  lemma AddUnsignedMeans(w: Environment, p: seq<byte>, a: u32, b0: byte, b1: byte, b2: byte, b3: byte)
    requires Ready(w) && Reaches(w, p, a)
    ensures Ends(w, p + [0x05, b0, b1, b2, b3] + [0x00], false)
         == Reached((a + (b0 + 0x100 * b1 + 0x1_0000 * b2 + 0x100_0000 * b3)) % 0x1_0000_0000)
  {
    ParsesFour(b0, b1, b2, b3);
    var v: int, from: int := Four(b0, b1, b2, b3), a;
    OperationMoves(w, p, a, [0x05, b0, b1, b2, b3], Operate(0x05, AddUnsigned(v)), (from + v) % 0x1_0000_0000);
  }

  /** 6, base_gpr: one of 32 registers. */
  lemma BaseRegisterMeans(w: Environment, p: seq<byte>, a: u32, r: byte)
    requires Ready(w) && Reaches(w, p, a)
    ensures r < 32 ==> Ends(w, p + [0x06, r] + [0x00], false) == Reached(w.registers[r])
    ensures r >= 32 ==> forall t :: Ends(w, p + ([0x06, r] + t), false) == Stuck(InvalidRegister, a)
  {
    if r < 32 {
      assert ([0x06, r] + [0x00])[1..] == [r, 0x00] && [r, 0x00][1..] == [0x00];
      OperationMoves(w, p, a, [0x06, r], Operate(0x06, BaseRegister(r)), w.registers[r]);
    } else {
      forall t ensures Ends(w, p + ([0x06, r] + t), false) == Stuck(InvalidRegister, a) {
        assert ([0x06, r] + t)[1..] == [r] + t;
        BadBytes(w, p, a, [0x06, r] + t, 0x06, InvalidRegister);
      }
    }
  }

  /** 7, base_absolute. */
  lemma BaseAbsoluteMeans(w: Environment, p: seq<byte>, a: u32, b0: byte, b1: byte, b2: byte, b3: byte)
    requires Ready(w) && Reaches(w, p, a)
    ensures Ends(w, p + [0x07, b0, b1, b2, b3] + [0x00], false)
         == Reached(b0 + 0x100 * b1 + 0x1_0000 * b2 + 0x100_0000 * b3)
  {
    ParsesFour(b0, b1, b2, b3);
    var v := Four(b0, b1, b2, b3);
    OperationMoves(w, p, a, [0x07, b0, b1, b2, b3], Operate(0x07, BaseAbsolute(v)), v);
  }

  /** 8, index_gpr: a register times a 32-bit scale; the register is judged first. */
  lemma IndexRegisterMeans(w: Environment, p: seq<byte>, a: u32, r: byte, b0: byte, b1: byte, b2: byte, b3: byte)
    requires Ready(w) && Reaches(w, p, a)
    ensures r < 32 ==>
              var scale := b0 + 0x100 * b1 + 0x1_0000 * b2 + 0x100_0000 * b3;
              Ends(w, p + [0x08, r, b0, b1, b2, b3] + [0x00], false)
              == Reached((a + w.registers[r] * scale) % 0x1_0000_0000)
    ensures r >= 32 ==> forall t :: Ends(w, p + ([0x08, r] + t), false) == Stuck(InvalidRegister, a)
  {
    if r < 32 {
      ParsesIndexRegister(r, b0, b1, b2, b3);
      var scale: int, value: int := Four(b0, b1, b2, b3), w.registers[r];
      OperationMoves(w, p, a, [0x08, r, b0, b1, b2, b3], Operate(0x08, IndexRegister(r, scale)),
                     (a + value * scale) % 0x1_0000_0000);
    } else {
      forall t ensures Ends(w, p + ([0x08, r] + t), false) == Stuck(InvalidRegister, a) {
        assert ([0x08, r] + t)[1..] == [r] + t;
        BadBytes(w, p, a, [0x08, r] + t, 0x08, InvalidRegister);
      }
    }
  }

  /** How many operand bytes an opcode asks for. */
  predicate Wants(code: byte, n: nat) {
    || (code == 0x01 && n == 2)
    || ((code == 0x03 || code == 0x04 || code == 0x05 || code == 0x07) && n == 4)
    || (code == 0x06 && n == 1)
    || (code == 0x08 && n == 5)
  }

  /** What is no operation ends every program, at the address reached so far:
      missing operand bytes, an unknown opcode, bytes behind the terminator, and
      no terminator at all. */
  lemma BadProgramsFail(w: Environment, p: seq<byte>, a: u32, code: byte, t: seq<byte>)
    requires Ready(w) && Reaches(w, p, a)
    ensures (forall n: nat :: Wants(code, n) ==> |t| < n) && 1 <= code <= 8 && code != 2
            && (code == 8 && t != [] ==> t[0] < 32)
            ==> Ends(w, p + ([code] + t), false) == Stuck(TruncatedOperand, a)
    ensures code > 8 ==> Ends(w, p + ([code] + t), false) == Stuck(UnknownOperation, a)
    ensures t != [] ==> Ends(w, p + ([0x00] + t), false) == Stuck(TrailingBytes, a)
    ensures Ends(w, p, false) == Stuck(MissingTerminator, a)
  {
    var x := [code] + t;
    assert x[1..] == t && ([0x00] + t)[1..] == t;
    if (forall n: nat :: Wants(code, n) ==> |t| < n) && 1 <= code <= 8 && code != 2
       && (code == 8 && t != [] ==> t[0] < 32)
    {
      assert Wants(0x01, 2) && Wants(0x03, 4) && Wants(0x04, 4) && Wants(0x05, 4) && Wants(0x07, 4);
      assert Wants(0x06, 1) && Wants(0x08, 5);
      BadBytes(w, p, a, x, code, TruncatedOperand);
    }
    if code > 8 {
      BadBytes(w, p, a, x, code, UnknownOperation);
    }
    if t != [] {
      BadBytes(w, p, a, [0x00] + t, 0x00, TrailingBytes);
    }
    GoesOnBehind(w, p, a, []);
    assert p + [] == p;
  }

  /** Every program starts at address zero. */
  lemma StartsAtZero(w: Environment)
    requires Ready(w)
    ensures Reaches(w, [], 0)
  {
    assert [] + [0x00] == [0x00];
    ItemsCons([0x00]);
  }

  // -------------------------------------------------------------- the trace

  lemma StepOfItem(w: Environment, a: u32, item: Item, b: u32, tail: seq<Item>, n: nat)
    requires Ready(w) && item.Operate? && n < LIMIT && (item.op.Dereference? <==> item.code == 0x02)
    requires Fold(w, [item] + [Terminate], a, None) == Reached(b)
    ensures var steps := Steps(w, [item] + tail, a, n);
            && steps != []
            && steps[0] == Step(n, item.code, a, b, if item.code == 0x02 then w.read(a) else None, NoFailure)
  {
    FoldCons(w, item, [Terminate], a, false, 0);
    StepsCons(w, item, tail, a, n);
  }

  lemma StepOfOne(w: Environment, a: u32, x: seq<byte>, b: u32, s: seq<byte>, n: nat)
    requires Ready(w) && x != [] && |Front(x)| == 1 && n < LIMIT
    requires Fold(w, Items(x + [0x00]), a, None) == Reached(b)
    ensures Steps(w, Items(x + s), a, n) != []
    ensures Steps(w, Items(x + s), a, n)[0]
         == Step(n, x[0], a, b, if x[0] == 0x02 then w.read(a) else None, NoFailure)
  {
    ReachedEndsWell(w, x + [0x00], a, b);
    ItemsBehind(x, s);
    assert Front(x) == [Front(x)[0]];
    FrontCode(x);
    StepOfItem(w, a, Front(x)[0], b, Items(s), n);
  }

  lemma FrontCode(x: seq<byte>)
    requires x != [] && Front(x) != [] && Front(x)[0].Operate?
    ensures Front(x)[0].code == x[0] && (Front(x)[0].op.Dereference? <==> x[0] == 0x02)
  {
    ItemsCons(x + [0x00]);
    OpcodeOf(x + [0x00]);
  }

  lemma OpcodeOf(s: seq<byte>)
    requires s != [] && ParseOne(s).item.Operate?
    ensures ParseOne(s).item.code == s[0] && (ParseOne(s).item.op.Dereference? <==> s[0] == 0x02)
  {
  }

  /** A trace records what happened: behind any operations that reach `a`, the step
      of an operation that leads to `b` has its number, its opcode, both addresses,
      and the word read if it is a dereference, whatever follows it. */
  lemma TraceSaysWhatHappened(w: Environment, p: seq<byte>, a: u32, x: seq<byte>, b: u32, s: seq<byte>)
    requires Ready(w) && Reaches(w, p, a) && Reaches(w, p + x, b)
    requires x != [] && |Front(x)| == 1 && |Front(p)| < 64
    ensures var n, steps := |Front(p)|, Steps(w, Items(p + (x + s)), 0, 0);
            && n < |steps|
            && steps[n] == Step(n, x[0], a, b, if x[0] == 0x02 then w.read(a) else None, NoFailure)
  {
    Assoc(p, x, [0x00]);
    GoesOnBehind(w, p, a, x + [0x00]);
    GoesOnBehind(w, p, a, x + s);
    StepOfOne(w, a, x, b, s, |Front(p)|);
    var steps := Steps(w, Items(p + (x + s)), 0, 0);
    assert steps[|Front(p)|] == steps[|Front(p)|..][0];
  }
}
