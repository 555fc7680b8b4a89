/** Address programs: byte code that computes a guest address from a base, guest
    registers and guest memory, in 32-bit arithmetic, with an optional trace. */
module AddressProgram {
  import opened Words
  import opened Bytes

  datatype Failure =
    | NoFailure | MissingTerminator | TrailingBytes | UnknownOperation | TruncatedOperand | InvalidRegister
    | MissingBaseResolver | BaseResolutionFailed | GuestReadFailed | OperationLimit

  const REGISTERS: nat := 32
  const LIMIT: nat := 64

  datatype Operation =
    | BaseKey(key: u16)
    | Dereference
    | AddSigned(operand: u32)
    | IndexConst(count: u16, stride: u16)
    | AddUnsigned(operand: u32)
    | BaseRegister(register: byte)
    | BaseAbsolute(address: u32)
    | IndexRegister(register: byte, scale: u32)

  /** The world a program runs in; `resolve` is absent when no base resolver is
      available. */
  datatype Environment = Environment(
    registers: seq<u32>, resolve: Option<u16 -> Option<u32>>, read: u32 -> Option<u64>)

  ghost predicate Ready(w: Environment) {
    |w.registers| == REGISTERS
  }

  // ------------------------------------------------------------------ parsing

  function ReadU16(s: seq<byte>): (r: Parsed<u16>)
    ensures r.Parsed? <==> |s| >= 2
    ensures r.Parsed? ==> |r.rest| + 2 == |s|
  {
    if |s| < 2 then Failed
    else
      var low: int, high: int := s[0], s[1];
      Parsed(low + 0x100 * high, s[2..])
  }

  /** One step of a program: an operation, the terminator, or what is wrong. */
  datatype Item = Operate(code: byte, op: Operation) | Terminate | Broken(code: byte, failure: Failure)

  datatype One = One(item: Item, rest: seq<byte>)

  function Good<T>(code: byte, r: Parsed<T>, op: T -> Operation): One {
    match r
    case Failed => One(Broken(code, TruncatedOperand), [])
    case Parsed(v, rest) => One(Operate(code, op(v)), rest)
  }

  function ParseIndexConst(code: byte, s: seq<byte>): One {
    match ReadU16(s)
    case Failed => One(Broken(code, TruncatedOperand), [])
    case Parsed(count, rest) => Good(code, ReadU16(rest), (stride: u16) => IndexConst(count, stride))
  }

  function ParseBaseRegister(code: byte, s: seq<byte>): One {
    if s == [] then One(Broken(code, TruncatedOperand), [])
    else if s[0] >= REGISTERS then One(Broken(code, InvalidRegister), [])
    else One(Operate(code, BaseRegister(s[0])), s[1..])
  }

  /** The register is judged before the missing bytes of the scale. */
  function ParseIndexRegister(code: byte, s: seq<byte>): One {
    if s == [] then One(Broken(code, TruncatedOperand), [])
    else if s[0] >= REGISTERS then One(Broken(code, InvalidRegister), [])
    else Good(code, ReadU32(s[1..]), (scale: u32) => IndexRegister(s[0], scale))
  }

  predicate ParseFailure(f: Failure) {
    f.TrailingBytes? || f.UnknownOperation? || f.TruncatedOperand? || f.InvalidRegister?
  }

  function ParseOne(s: seq<byte>): (one: One)
    requires s != []
    ensures one.item.Operate? ==> |one.rest| < |s|
    ensures one.item.Broken? ==> ParseFailure(one.item.failure)
  {
    var code, s := s[0], s[1..];
    if code == 0x00 then
      if s == [] then One(Terminate, []) else One(Broken(code, TrailingBytes), [])
    else if code == 0x01 then Good(code, ReadU16(s), (key: u16) => BaseKey(key))
    else if code == 0x02 then One(Operate(code, Dereference), s)
    else if code == 0x03 then Good(code, ReadU32(s), (v: u32) => AddSigned(v))
    else if code == 0x04 then ParseIndexConst(code, s)
    else if code == 0x05 then Good(code, ReadU32(s), (v: u32) => AddUnsigned(v))
    else if code == 0x06 then ParseBaseRegister(code, s)
    else if code == 0x07 then Good(code, ReadU32(s), (v: u32) => BaseAbsolute(v))
    else if code == 0x08 then ParseIndexRegister(code, s)
    else One(Broken(code, UnknownOperation), [])
  }

  /** A program as its list of operations, up to where it ends or breaks. */
  function Items(s: seq<byte>): seq<Item>
    decreases |s|
  {
    if s == [] then []
    else
      var one := ParseOne(s);
      if one.item.Operate? then [one.item] + Items(one.rest) else [one.item]
  }

  // ------------------------------------------------------------------ meaning

  /** The value of 32 bits as a two's complement integer. */
  function Signed(v: u32): int {
    if v < 0x8000_0000 then v else v - TWO_32
  }

  datatype Effect = Moved(address: u32, dereferenced: Option<u64>) | Refused(failure: Failure)

  /** What an operation does to the address, modulo 2^32. */
  function Apply(w: Environment, op: Operation, address: u32): Effect
    requires Ready(w)
  {
    match op
    case BaseKey(key) =>
      if w.resolve.None? then Refused(MissingBaseResolver)
      else (match w.resolve.value(key)
            case None => Refused(BaseResolutionFailed)
            case Some(base) => Moved(base, None))
    case Dereference =>
      (match w.read(address)
       case None => Refused(GuestReadFailed)
       case Some(value) => Moved(value % TWO_32, Some(value)))
    case AddSigned(v) => Moved((address + Signed(v)) % TWO_32, None)
    case IndexConst(count, stride) => Moved((address + count * stride) % TWO_32, None)
    case AddUnsigned(v) => Moved((address + v) % TWO_32, None)
    case BaseRegister(r) => if r < REGISTERS then Moved(w.registers[r], None) else Refused(InvalidRegister)
    case BaseAbsolute(v) => Moved(v, None)
    case IndexRegister(r, scale) =>
      if r < REGISTERS then Moved((address + w.registers[r] * scale) % TWO_32, None) else Refused(InvalidRegister)
  }

  datatype Final = Reached(address: u32) | Stuck(failure: Failure, address: u32)

  /** The meaning of a list of operations: a fold that stops at the first
      refusal. `room` is how many steps a trace can still hold, if there is one. */
  function Fold(w: Environment, items: seq<Item>, address: u32, room: Option<nat>): Final
    requires Ready(w)
    decreases |items|
  {
    if items == [] then Stuck(MissingTerminator, address)
    else if room == Some(0) then Stuck(OperationLimit, address)
    else match items[0]
      case Terminate => Reached(address)
      case Broken(_, failure) => Stuck(failure, address)
      case Operate(_, op) =>
        match Apply(w, op, address)
        case Refused(failure) => Stuck(failure, address)
        case Moved(next, _) => Fold(w, items[1..], next, Less(room))
  }

  function Less(room: Option<nat>): Option<nat> {
    match room
    case None => None
    case Some(n) => if n == 0 then Some(0) else Some(n - 1)
  }

  datatype Step = Step(
    index: nat, code: byte, before: u32, after: u32, dereferenced: Option<u64>, failure: Failure)

  /** The step recorded for one item; a refused step has no address after it. */
  function StepFor(w: Environment, item: Item, address: u32, index: nat): Step
    requires Ready(w)
  {
    match item
    case Terminate => Step(index, 0, address, address, None, NoFailure)
    case Broken(code, failure) =>
      Step(index, code, address, if failure.TrailingBytes? then address else 0, None, failure)
    case Operate(code, op) =>
      match Apply(w, op, address)
      case Refused(failure) => Step(index, code, address, 0, None, failure)
      case Moved(next, dereferenced) => Step(index, code, address, next, dereferenced, NoFailure)
  }

  predicate GoesOn(w: Environment, item: Item, address: u32)
    requires Ready(w)
  {
    item.Operate? && Apply(w, item.op, address).Moved?
  }

  /** The steps a trace records. */
  function Steps(w: Environment, items: seq<Item>, address: u32, index: nat): seq<Step>
    requires Ready(w)
    decreases |items|
  {
    if items == [] || index >= LIMIT then []
    else
      var step := StepFor(w, items[0], address, index);
      if GoesOn(w, items[0], address) then [step] + Steps(w, items[1..], step.after, index + 1) else [step]
  }

  // --------------------------------------------------------------- the evaluator

  datatype Trace = Trace(
    steps: seq<Step>, success: bool, failure: Failure, failureOperation: nat, finalAddress: u32)

  const BLANK: Trace := Trace([], false, NoFailure, 0, 0)

  function Room(tracing: bool, used: nat): Option<nat> {
    if !tracing then None else if used < LIMIT then Some(LIMIT - used) else Some(0)
  }

  /** How an evaluation of these bytes ends. */
  function Ends(w: Environment, program: seq<byte>, tracing: bool): Final
    requires Ready(w)
  {
    Fold(w, Items(program), 0, Room(tracing, 0))
  }

  /** One turn of the loop, for any operations that follow. */
  lemma FoldCons(w: Environment, item: Item, tail: seq<Item>, address: u32, tracing: bool, used: nat)
    requires Ready(w) && (tracing ==> used < LIMIT)
    ensures var step := StepFor(w, item, address, used);
            Fold(w, [item] + tail, address, Room(tracing, used)) ==
              if item.Terminate? then Reached(address)
              else if GoesOn(w, item, address)
              then Fold(w, tail, step.after, Room(tracing, if tracing then used + 1 else used))
              else Stuck(step.failure, address)
  {
    assert ([item] + tail)[1..] == tail;
    assert Less(Room(tracing, used)) == Room(tracing, if tracing then used + 1 else used);
  }

  lemma StepsCons(w: Environment, item: Item, tail: seq<Item>, address: u32, used: nat)
    requires Ready(w) && used < LIMIT
    ensures var step := StepFor(w, item, address, used);
            Steps(w, [item] + tail, address, used) ==
              [step] + (if GoesOn(w, item, address) then Steps(w, tail, step.after, used + 1) else [])
  {
    assert ([item] + tail)[1..] == tail;
  }

  lemma ItemsCons(s: seq<byte>)
    requires s != []
    ensures Items(s) == [ParseOne(s).item] + (if ParseOne(s).item.Operate? then Items(ParseOne(s).rest) else [])
  {
  }

  /** The evaluation that is left, from any point of the loop. */
  ghost predicate Remains(w: Environment, items: seq<Item>, address: u32, steps: seq<Step>, tracing: bool,
                          meaning: Final, all: seq<Step>)
    requires Ready(w)
  {
    && |steps| <= LIMIT && (!tracing ==> steps == [])
    && Fold(w, items, address, Room(tracing, |steps|)) == meaning
    && (tracing ==> steps + Steps(w, items, address, |steps|) == all)
  }

  lemma RemainsStep(w: Environment, item: Item, tail: seq<Item>, address: u32, steps: seq<Step>, tracing: bool,
                    meaning: Final, all: seq<Step>)
    requires Ready(w) && Remains(w, [item] + tail, address, steps, tracing, meaning, all)
    requires tracing ==> |steps| < LIMIT
    ensures var step := StepFor(w, item, address, |steps|);
            var used := if tracing then steps + [step] else [];
            && (item.Terminate? ==> meaning == Reached(address) && (tracing ==> used == all))
            && (!item.Terminate? && !GoesOn(w, item, address) ==>
                  meaning == Stuck(step.failure, address) && (tracing ==> used == all))
            && (GoesOn(w, item, address) ==> Remains(w, tail, step.after, used, tracing, meaning, all))
  {
    var step := StepFor(w, item, address, |steps|);
    FoldCons(w, item, tail, address, tracing, |steps|);
    if tracing {
      StepsCons(w, item, tail, address, |steps|);
      Assoc(steps, [step], Steps(w, tail, step.after, |steps| + 1));
      assert steps + ([step] + []) == steps + [step];
    }
  }

  lemma RemainsNothing(w: Environment, items: seq<Item>, address: u32, steps: seq<Step>, tracing: bool,
                       meaning: Final, all: seq<Step>)
    requires Ready(w) && Remains(w, items, address, steps, tracing, meaning, all)
    requires items == [] || (tracing && |steps| >= LIMIT)
    ensures meaning == Stuck(if items == [] then MissingTerminator else OperationLimit, address)
    ensures tracing ==> steps == all
  {
    assert steps + [] == steps;
  }

  /** The step that failed, or the number of steps when no step did. */
  function BlamedStep(steps: seq<Step>): nat {
    if steps != [] && steps[|steps| - 1].failure != NoFailure then |steps| - 1 else |steps|
  }

  /** The result is the address reached, if one is; a trace, if there is one, holds
      the steps and says how they ended. */
  ghost predicate Reports(ends: Final, steps: seq<Step>, tracing: bool, result: Option<u32>, trace: Trace) {
    && result == (if ends.Reached? then Some(ends.address) else None)
    && (tracing ==>
          && trace.steps == steps
          && trace.success == ends.Reached?
          && trace.finalAddress == ends.address
          && trace.failure == (if ends.Reached? then NoFailure else ends.failure)
          && trace.failureOperation == (if ends.Reached? then 0 else BlamedStep(trace.steps)))
    && (!tracing ==> trace == BLANK)
  }

  /** What is returned for a program that reaches an address, or is stuck. */
  lemma ReportReached(address: u32, steps: seq<Step>, tracing: bool)
    ensures Reports(Reached(address), steps, tracing, Some(address),
                    if tracing then Trace(steps, true, NoFailure, 0, address) else BLANK)
  {
  }

  lemma ReportStuck(failure: Failure, address: u32, steps: seq<Step>, blamed: nat, tracing: bool)
    requires tracing ==> blamed == BlamedStep(steps)
    ensures Reports(Stuck(failure, address), steps, tracing, None,
                    if tracing then Trace(steps, false, failure, blamed, address) else BLANK)
  {
  }

  lemma NoneBlamed(steps: seq<Step>)
    requires forall step :: step in steps ==> step.failure == NoFailure
    ensures BlamedStep(steps) == |steps|
  {
    if steps != [] {
      assert steps[|steps| - 1] in steps;
    }
  }

  lemma LastBlamed(w: Environment, item: Item, address: u32, steps: seq<Step>)
    requires Ready(w) && !item.Terminate? && !GoesOn(w, item, address)
    requires item.Broken? ==> ParseFailure(item.failure)
    ensures BlamedStep(steps + [StepFor(w, item, address, |steps|)]) == |steps|
  {
  }

  method Evaluate(w: Environment, program: seq<byte>, tracing: bool) returns (result: Option<u32>, trace: Trace)
    requires Ready(w)
    ensures Reports(Ends(w, program, tracing), Steps(w, Items(program), 0, 0), tracing, result, trace)
  {
    var rest, address: u32, steps := program, 0, [];
    ghost var meaning, all := Fold(w, Items(program), 0, Room(tracing, 0)), Steps(w, Items(program), 0, 0);
    assert [] + all == all;
    while rest != []
      invariant Remains(w, Items(rest), address, steps, tracing, meaning, all)
      invariant forall step :: step in steps ==> step.failure == NoFailure
      decreases |rest|
    {
      ItemsCons(rest);
      if tracing && |steps| >= LIMIT {
        RemainsNothing(w, Items(rest), address, steps, tracing, meaning, all);
        NoneBlamed(steps);
        ReportStuck(OperationLimit, address, all, |steps|, true);
        return None, Trace(steps, false, OperationLimit, |steps|, address);
      }
      var one := ParseOne(rest);
      var behind := if one.item.Operate? then Items(one.rest) else [];
      RemainsStep(w, one.item, behind, address, steps, tracing, meaning, all);
      var step := StepFor(w, one.item, address, |steps|);
      var used := if tracing then steps + [step] else [];
      if one.item.Terminate? {
        ReportReached(address, all, tracing);
        return Some(address), if tracing then Trace(used, true, NoFailure, 0, address) else BLANK;
      }
      if !GoesOn(w, one.item, address) {
        LastBlamed(w, one.item, address, steps);
        ReportStuck(step.failure, address, all, |steps|, tracing);
        return None, if tracing then Trace(used, false, step.failure, |steps|, address) else BLANK;
      }
      steps, address, rest := used, step.after, one.rest;
    }
    RemainsNothing(w, [], address, steps, tracing, meaning, all);
    NoneBlamed(steps);
    ReportStuck(MissingTerminator, address, all, |steps|, tracing);
    return None, if tracing then Trace(steps, false, MissingTerminator, |steps|, address) else BLANK;
  }

  // ------------------------------------------------------------- what it means

  /** Signed and unsigned addition agree on every operand. */
  lemma SignedAdditionIsUnsigned(w: Environment, v: u32, address: u32)
    requires Ready(w)
    ensures Apply(w, AddSigned(v), address) == Apply(w, AddUnsigned(v), address)
  {
    assert (address + v - TWO_32) % TWO_32 == (address + v) % TWO_32;
  }

  /** How many items an evaluation without a trace looks at. */
  function Executed(w: Environment, items: seq<Item>, address: u32): nat
    requires Ready(w)
    decreases |items|
  {
    if items == [] then 0
    else if GoesOn(w, items[0], address)
    then 1 + Executed(w, items[1..], Apply(w, items[0].op, address).address)
    else 1
  }

  ghost predicate NoLimitIn(items: seq<Item>) {
    forall i :: 0 <= i < |items| && items[i].Broken? ==> items[i].failure != OperationLimit
  }

  lemma {:induction false} RoomSuffices(w: Environment, items: seq<Item>, address: u32, room: nat)
    requires Ready(w) && NoLimitIn(items)
    ensures Executed(w, items, address) <= room ==>
              Fold(w, items, address, Some(room)) == Fold(w, items, address, None)
    ensures Executed(w, items, address) > room ==>
              var f := Fold(w, items, address, Some(room)); f.Stuck? && f.failure == OperationLimit
    ensures var f := Fold(w, items, address, None); f.Stuck? ==> f.failure != OperationLimit
    decreases |items|
  {
    if items != [] && GoesOn(w, items[0], address) {
      RoomSuffices(w, items[1..], Apply(w, items[0].op, address).address, if room > 0 then room - 1 else 0);
    }
  }

  lemma {:induction false} ParsedHasNoLimit(s: seq<byte>)
    ensures NoLimitIn(Items(s))
    decreases |s|
  {
    if s != [] {
      ItemsCons(s);
      if ParseOne(s).item.Operate? {
        ParsedHasNoLimit(ParseOne(s).rest);
      }
    }
  }

  /** Evaluations with and without a trace agree exactly on the runs that look at
      no more than 64 operations; beyond, the trace alone makes the run fail. */
  lemma TraceChangesNothingUpToLimit(w: Environment, program: seq<byte>)
    requires Ready(w)
    ensures var items := Items(program);
            var traced, plain := Fold(w, items, 0, Room(true, 0)), Fold(w, items, 0, Room(false, 0));
            && (traced == plain <==> Executed(w, items, 0) <= LIMIT)
            && (traced != plain ==> traced.Stuck? && traced.failure == OperationLimit)
  {
    ParsedHasNoLimit(program);
    RoomSuffices(w, Items(program), 0, LIMIT);
  }

  /** Step `i` leads to the next one. */
  predicate Leads(steps: seq<Step>, i: nat)
    requires i + 1 < |steps|
  {
    && steps[i].failure == NoFailure
    && steps[i + 1].before == steps[i].after
    && steps[i + 1].index == steps[i].index + 1
  }

  /** Steps are numbered, chain from address to address, and only the last can
      have failed. */
  ghost predicate Chained(steps: seq<Step>, address: u32, index: nat) {
    && (steps != [] ==> steps[0].before == address && steps[0].index == index)
    && (forall i {:trigger Leads(steps, i)} :: 0 <= i < |steps| - 1 ==> Leads(steps, i))
  }

  lemma ChainedCons(step: Step, steps: seq<Step>)
    requires step.failure == NoFailure && Chained(steps, step.after, step.index + 1)
    ensures Chained([step] + steps, step.before, step.index)
  {
    forall i | 0 <= i < |steps| ensures Leads([step] + steps, i) {
      if i > 0 {
        assert Leads(steps, i - 1);
      }
    }
  }

  function LastAddress(steps: seq<Step>, address: u32): u32 {
    if steps == [] then address
    else if steps[|steps| - 1].failure == NoFailure then steps[|steps| - 1].after
    else steps[|steps| - 1].before
  }

  lemma LastAddressCons(step: Step, steps: seq<Step>)
    requires step.failure == NoFailure
    ensures LastAddress([step] + steps, step.before) == LastAddress(steps, step.after)
  {
  }

  lemma {:induction false} StepsChain(w: Environment, items: seq<Item>, address: u32, index: nat)
    requires Ready(w) && index <= LIMIT
    requires forall i :: 0 <= i < |items| && items[i].Broken? ==> items[i].failure != NoFailure
    ensures var steps := Steps(w, items, address, index);
            && |steps| + index <= LIMIT
            && Chained(steps, address, index)
            && Fold(w, items, address, Room(true, index)).address == LastAddress(steps, address)
    decreases |items|
  {
    if items != [] && index < LIMIT {
      var item, tail := items[0], items[1..];
      assert items == [item] + tail;
      FoldCons(w, item, tail, address, true, index);
      StepsCons(w, item, tail, address, index);
      var step := StepFor(w, item, address, index);
      if GoesOn(w, item, address) {
        StepsChain(w, tail, step.after, index + 1);
        ChainedCons(step, Steps(w, tail, step.after, index + 1));
        LastAddressCons(step, Steps(w, tail, step.after, index + 1));
      } else {
        assert [step] + [] == [step];
      }
    }
  }

  lemma {:induction false} BrokenHasReason(s: seq<byte>)
    ensures forall i :: 0 <= i < |Items(s)| && Items(s)[i].Broken? ==> Items(s)[i].failure != NoFailure
    decreases |s|
  {
    if s != [] {
      ItemsCons(s);
      if ParseOne(s).item.Operate? {
        BrokenHasReason(ParseOne(s).rest);
      }
    }
  }

  /** The trace of any program has at most 64 steps that chain from address zero
      to the reported final address. */
  lemma TraceChains(w: Environment, program: seq<byte>)
    requires Ready(w)
    ensures var steps := Steps(w, Items(program), 0, 0);
            && |steps| <= LIMIT
            && Chained(steps, 0, 0)
            && Fold(w, Items(program), 0, Room(true, 0)).address == LastAddress(steps, 0)
  {
    BrokenHasReason(program);
    StepsChain(w, Items(program), 0, 0);
  }

  // ---------------------------------------------------------------- assembling

  function OperationBytes(op: Operation): seq<byte> {
    match op
    case BaseKey(key) => [0x01] + Pod(key, 2)
    case Dereference => [0x02]
    case AddSigned(v) => [0x03] + Pod(v, 4)
    case IndexConst(count, stride) => [0x04] + (Pod(count, 2) + Pod(stride, 2))
    case AddUnsigned(v) => [0x05] + Pod(v, 4)
    case BaseRegister(r) => [0x06] + [r]
    case BaseAbsolute(v) => [0x07] + Pod(v, 4)
    case IndexRegister(r, scale) => [0x08] + ([r] + Pod(scale, 4))
  }

  function Assemble(ops: seq<Operation>): seq<byte> {
    if ops == [] then [0x00] else OperationBytes(ops[0]) + Assemble(ops[1..])
  }

  function ItemsOf(ops: seq<Operation>): seq<Item> {
    if ops == [] then [Terminate] else [Operate(OperationBytes(ops[0])[0], ops[0])] + ItemsOf(ops[1..])
  }

  predicate RegistersOk(op: Operation) {
    op.BaseRegister? || op.IndexRegister? ==> op.register < REGISTERS
  }

  lemma U16RoundTrip(v: u16, rest: seq<byte>)
    ensures ReadU16(Pod(v, 2) + rest) == Parsed(v, rest)
  {
    var s := Pod(v, 2) + rest;
    assert s[0] == v % 0x100 && s[1] == v / 0x100 % 0x100 && s[2..] == rest;
  }

  lemma OperandFollows(code: byte, operand: seq<byte>, rest: seq<byte>)
    ensures ([code] + operand + rest)[1..] == operand + rest
  {
  }

  lemma IndexConstRoundTrip(count: u16, stride: u16, rest: seq<byte>)
    ensures ParseIndexConst(0x04, Pod(count, 2) + Pod(stride, 2) + rest)
         == One(Operate(0x04, IndexConst(count, stride)), rest)
  {
    Assoc(Pod(count, 2), Pod(stride, 2), rest);
    U16RoundTrip(count, Pod(stride, 2) + rest);
    U16RoundTrip(stride, rest);
  }

  lemma IndexRegisterRoundTrip(r: byte, scale: u32, rest: seq<byte>)
    requires r < REGISTERS
    ensures ParseIndexRegister(0x08, [r] + Pod(scale, 4) + rest) == One(Operate(0x08, IndexRegister(r, scale)), rest)
  {
    Assoc([r], Pod(scale, 4), rest);
    assert ([r] + (Pod(scale, 4) + rest))[1..] == Pod(scale, 4) + rest;
    U32RoundTrip(scale, rest);
  }

  lemma OperationRoundTrip(op: Operation, rest: seq<byte>)
    requires RegistersOk(op)
    ensures ParseOne(OperationBytes(op) + rest) == One(Operate(OperationBytes(op)[0], op), rest)
  {
    var code := OperationBytes(op)[0];
    OperandFollows(code, OperationBytes(op)[1..], rest);
    assert OperationBytes(op) == [code] + OperationBytes(op)[1..];
    match op
    case BaseKey(key) => U16RoundTrip(key, rest);
    case Dereference =>
    case AddSigned(v) => U32RoundTrip(v, rest);
    case IndexConst(count, stride) => IndexConstRoundTrip(count, stride, rest);
    case AddUnsigned(v) => U32RoundTrip(v, rest);
    case BaseRegister(r) =>
    case BaseAbsolute(v) => U32RoundTrip(v, rest);
    case IndexRegister(r, scale) => IndexRegisterRoundTrip(r, scale, rest);
  }

  /** Parsing undoes assembling, so every list of operations is the meaning of
      some program. */
  lemma {:induction false} AssembleRoundTrip(ops: seq<Operation>)
    requires forall op :: op in ops ==> RegistersOk(op)
    ensures Items(Assemble(ops)) == ItemsOf(ops)
  {
    if ops != [] {
      OperationRoundTrip(ops[0], Assemble(ops[1..]));
      ItemsCons(Assemble(ops));
      AssembleRoundTrip(ops[1..]);
    }
  }

  // ---------------------------------------------------------------- validation

  datatype Verdict = Verdict(valid: bool, count: nat, failure: Failure, offset: nat)

  function OperandSize(code: byte): Option<nat> {
    if code == 0x01 then Some(2)
    else if code == 0x02 then Some(0)
    else if code == 0x03 || code == 0x04 || code == 0x05 || code == 0x07 then Some(4)
    else if code == 0x06 then Some(1)
    else if code == 0x08 then Some(5)
    else None
  }

  /** validate_address_program, with `s` the rest of a program of `total` bytes. */
  function ValidateFrom(total: nat, s: seq<byte>, count: nat): Verdict
    requires |s| <= total
    decreases |s|
  {
    if s == [] then Verdict(false, count, MissingTerminator, total)
    else if count == LIMIT then Verdict(false, count, OperationLimit, total - |s|)
    else if s[0] == 0 then
      if |s| > 1 then Verdict(false, count + 1, TrailingBytes, total - |s| + 1)
      else Verdict(true, count + 1, NoFailure, 0)
    else
      match OperandSize(s[0])
      case None => Verdict(false, count + 1, UnknownOperation, total - |s|)
      case Some(n) =>
        if |s| - 1 < n then Verdict(false, count + 1, TruncatedOperand, total - |s|)
        else if (s[0] == 0x06 || s[0] == 0x08) && s[1] >= REGISTERS then
          Verdict(false, count + 1, InvalidRegister, total - |s|)
        else ValidateFrom(total, s[1 + n..], count + 1)
  }

  method Validate(program: seq<byte>) returns (v: Verdict)
    ensures v == ValidateFrom(|program|, program, 0)
  {
    assert program[0..] == program;
    var offset, count := 0, 0;
    while offset < |program|
      invariant offset <= |program| && count <= LIMIT
      invariant ValidateFrom(|program|, program[offset..], count) == ValidateFrom(|program|, program, 0)
    {
      if count == LIMIT {
        return Verdict(false, count, OperationLimit, offset);
      }
      var start, code := offset, program[offset];
      offset := offset + 1;
      count := count + 1;
      if code == 0x00 {
        if offset != |program| {
          return Verdict(false, count, TrailingBytes, offset);
        }
        return Verdict(true, count, NoFailure, 0);
      }
      var size := OperandSize(code);
      if size.None? {
        return Verdict(false, count, UnknownOperation, start);
      }
      if |program| - offset < size.value {
        return Verdict(false, count, TruncatedOperand, start);
      }
      if (code == 0x06 || code == 0x08) && program[offset] >= REGISTERS {
        return Verdict(false, count, InvalidRegister, start);
      }
      assert program[start..][1 + size.value..] == program[offset + size.value..];
      offset := offset + size.value;
    }
    assert program[offset..] == [];
    v := Verdict(false, count, MissingTerminator, |program|);
  }

  /** Operations only, closed by the terminator. */
  predicate EndsWell(items: seq<Item>) {
    items != [] && items[|items| - 1].Terminate?
  }

  lemma ParseOneSize(s: seq<byte>)
    requires s != [] && s[0] != 0
    ensures var one, n := ParseOne(s), OperandSize(s[0]);
            && (one.item.Operate? <==>
                  && n.Some? && |s| > n.value
                  && (s[0] == 0x06 || s[0] == 0x08 ==> s[1] < REGISTERS))
            && (one.item.Operate? ==> one.rest == s[1 + n.value..])
            && !one.item.Terminate?
  {
  }

  /** A program is valid exactly if it parses into at most 64 operations of which
      the last is the terminator. */
  lemma {:induction false} ValidIffWellFormed(total: nat, s: seq<byte>, count: nat)
    requires |s| <= total && count <= LIMIT
    ensures ValidateFrom(total, s, count).valid <==> |Items(s)| + count <= LIMIT && EndsWell(Items(s))
    decreases |s|
  {
    if s != [] {
      var one := ParseOne(s);
      ItemsCons(s);
      if s[0] == 0 {
        assert EndsWell(Items(s)) == (|s| == 1) && |Items(s)| == 1;
      } else {
        ParseOneSize(s);
        if one.item.Operate? {
          EndsWellCons(one.item, Items(one.rest));
          if count < LIMIT {
            ValidIffWellFormed(total, one.rest, count + 1);
          }
        } else {
          assert Items(s) == [one.item];
        }
      }
    }
  }

  lemma EndsWellCons(item: Item, tail: seq<Item>)
    requires item.Operate?
    ensures EndsWell([item] + tail) == EndsWell(tail)
  {
  }

  predicate AtRuntime(f: Failure) {
    f.MissingBaseResolver? || f.BaseResolutionFailed? || f.GuestReadFailed?
  }

  lemma {:induction false} WellFormedFailsAtRuntime(w: Environment, s: seq<byte>, address: u32)
    requires Ready(w) && EndsWell(Items(s))
    ensures var f := Fold(w, Items(s), address, None); f.Stuck? ==> AtRuntime(f.failure)
    ensures Executed(w, Items(s), address) <= |Items(s)|
    decreases |s|
  {
    ItemsCons(s);
    var item := ParseOne(s).item;
    if GoesOn(w, item, address) {
      assert Items(s)[1..] == Items(ParseOne(s).rest);
      WellFormedFailsAtRuntime(w, ParseOne(s).rest, Apply(w, item.op, address).address);
    } else {
      ParsedRegisters(s);
    }
  }

  lemma ParsedRegisters(s: seq<byte>)
    requires s != []
    ensures ParseOne(s).item.Operate? ==> RegistersOk(ParseOne(s).item.op)
  {
  }

  /** A valid program fails only for want of a base or of guest memory, whatever
      its environment, and a trace never changes its result. */
  lemma ValidFailsOnlyAtRuntime(w: Environment, program: seq<byte>)
    requires Ready(w) && ValidateFrom(|program|, program, 0).valid
    ensures var plain := Fold(w, Items(program), 0, Room(false, 0));
            && (plain.Stuck? ==> AtRuntime(plain.failure))
            && Fold(w, Items(program), 0, Room(true, 0)) == plain
  {
    ValidIffWellFormed(|program|, program, 0);
    WellFormedFailsAtRuntime(w, program, 0);
    TraceChangesNothingUpToLimit(w, program);
  }
}
