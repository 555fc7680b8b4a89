/** Event fields and the tagged blobs of their structured payloads. */
module StructuredFields {
  import opened Words
  import opened Bytes

  const TYPE_BYTES: byte := 4
  const TYPE_TEXT: byte := 5
  const TYPE_LINKED_LIST: byte := 6
  const TYPE_STACK_TRACE: byte := 7
  const TYPE_ADDRESS_TRACE: byte := 8

  const MAX_NODES: nat := 256
  const MAX_MEMBERS: nat := 4096
  const MAX_FRAMES: nat := 64
  const MAX_OPERATIONS: nat := 64

  // Enumerations are kept as their underlying byte: a decoder casts whatever
  // byte it finds.
  datatype ListMember = ListMember(name: Buffer, width: byte, status: byte, value: u64)
  datatype ListNode = ListNode(address: u32, members: seq<ListMember>)
  datatype LinkedList = LinkedList(
    root: u32, head: u32, readOk: bool, truncated: bool, cycle: bool, nodes: seq<ListNode>)

  datatype StackFrame = StackFrame(pointer: u32, next: u32, returnPc: u32, callsitePc: u32)
  datatype StackTrace = StackTrace(readOk: bool, truncated: bool, cycle: bool, frames: seq<StackFrame>)

  datatype TraceOperation = TraceOperation(
    index: byte, operation: byte, before: u32, after: u32,
    dereferenced: Option<u64>, failure: Buffer)
  datatype AddressTrace = AddressTrace(
    success: bool, finalAddress: u32, failureOperation: Option<byte>, failure: Buffer,
    operations: seq<TraceOperation>)

  datatype Field = Field(
    name: Buffer, typ: byte, status: byte, value: u64, bytes: Buffer,
    list: Option<LinkedList>, stack: Option<StackTrace>, trace: Option<AddressTrace>)

  function Flag(b: bool): byte {
    if b then 1 else 0
  }

  // --------------------------------------------------------------- encoding

  function FlaggedBytes(a: bool, b: bool, c: bool, tail: seq<byte>): seq<byte> {
    [Flag(a)] + ([Flag(b)] + ([Flag(c)] + tail))
  }

  function MemberBytes(m: ListMember): seq<byte> {
    StringBytes(m.name) + ([m.width, m.status] + Pod(m.value, 8))
  }

  function NodeBytes(n: ListNode): seq<byte> {
    Pod(n.address, 4) + CountedBytes(MemberBytes, n.members)
  }

  function ListBytes(l: LinkedList): seq<byte> {
    Pod(l.root, 4) + (Pod(l.head, 4) + FlaggedBytes(
      l.readOk, l.truncated, l.cycle, CountedBytes(NodeBytes, l.nodes)))
  }

  function FrameBytes(f: StackFrame): seq<byte> {
    Pod(f.pointer, 4) + (Pod(f.next, 4) + (Pod(f.returnPc, 4) + Pod(f.callsitePc, 4)))
  }

  function StackBytes(t: StackTrace): seq<byte> {
    FlaggedBytes(t.readOk, t.truncated, t.cycle, CountedBytes(FrameBytes, t.frames))
  }

  function OperationBytes(o: TraceOperation): seq<byte> {
    [o.index] + ([o.operation] + (Pod(o.before, 4) + (Pod(o.after, 4)
    + ([Flag(o.dereferenced.Some?)]
    + (Pod(if o.dereferenced.Some? then o.dereferenced.value else 0, 8)
    + StringBytes(o.failure))))))
  }

  function TraceBytes(t: AddressTrace): seq<byte> {
    [Flag(t.success)] + (Pod(t.finalAddress, 4)
    + ([Flag(t.failureOperation.Some?)]
    + ([if t.failureOperation.Some? then t.failureOperation.value else 0]
    + (StringBytes(t.failure)
    + CountedBytes(OperationBytes, t.operations)))))
  }

  predicate UsesBlob(typ: byte) {
    TYPE_BYTES <= typ <= TYPE_ADDRESS_TRACE
  }

  /** structured_field_bytes: a field without the payload its type announces
      encodes as no bytes at all. */
  function BlobBytes(f: Field): seq<byte> {
    if f.typ == TYPE_BYTES || f.typ == TYPE_TEXT then f.bytes
    else if f.typ == TYPE_LINKED_LIST && f.list.Some? then ListBytes(f.list.value)
    else if f.typ == TYPE_STACK_TRACE && f.stack.Some? then StackBytes(f.stack.value)
    else if f.typ == TYPE_ADDRESS_TRACE && f.trace.Some? then TraceBytes(f.trace.value)
    else []
  }

  function FieldValueBytes(f: Field): seq<byte> {
    [f.status] + (Pod(f.value, 8) + if UsesBlob(f.typ) then StringBytes(BlobBytes(f)) else [])
  }

  // --------------------------------------------------------------- decoding

  function ReadMember(s: seq<byte>): Parsed<ListMember> {
    var (name, s) :- ReadString(s);
    var (width, s) :- ReadByte(s);
    var (status, s) :- ReadByte(s);
    var (value, s) :- ReadU64(s);
    Parsed(ListMember(name, width, status, value), s)
  }

  function ReadNode(s: seq<byte>): Parsed<ListNode> {
    var (address, s) :- ReadU32(s);
    var (members, s) :- ReadCounted(ReadMember, MAX_MEMBERS, s);
    Parsed(ListNode(address, members), s)
  }

  function ReadList(s: seq<byte>): Parsed<LinkedList> {
    var (root, s) :- ReadU32(s);
    var (head, s) :- ReadU32(s);
    var (readOk, s) :- ReadByte(s);
    var (truncated, s) :- ReadByte(s);
    var (cycle, s) :- ReadByte(s);
    var (nodes, s) :- ReadCounted(ReadNode, MAX_NODES, s);
    Parsed(LinkedList(root, head, readOk != 0, truncated != 0, cycle != 0, nodes), s)
  }

  function ReadFrame(s: seq<byte>): Parsed<StackFrame> {
    var (pointer, s) :- ReadU32(s);
    var (next, s) :- ReadU32(s);
    var (returnPc, s) :- ReadU32(s);
    var (callsitePc, s) :- ReadU32(s);
    Parsed(StackFrame(pointer, next, returnPc, callsitePc), s)
  }

  function ReadStack(s: seq<byte>): Parsed<StackTrace> {
    var (readOk, s) :- ReadByte(s);
    var (truncated, s) :- ReadByte(s);
    var (cycle, s) :- ReadByte(s);
    var (frames, s) :- ReadCounted(ReadFrame, MAX_FRAMES, s);
    Parsed(StackTrace(readOk != 0, truncated != 0, cycle != 0, frames), s)
  }

  function ReadOperation(s: seq<byte>): Parsed<TraceOperation> {
    var (index, s) :- ReadByte(s);
    var (operation, s) :- ReadByte(s);
    var (before, s) :- ReadU32(s);
    var (after, s) :- ReadU32(s);
    var (hasValue, s) :- ReadByte(s);
    var (value, s) :- ReadU64(s);
    var (failure, s) :- ReadString(s);
    Parsed(TraceOperation(index, operation, before, after,
                          if hasValue != 0 then Some(value) else None, failure), s)
  }

  function ReadTrace(s: seq<byte>): Parsed<AddressTrace> {
    var (success, s) :- ReadByte(s);
    var (finalAddress, s) :- ReadU32(s);
    var (hasFailure, s) :- ReadByte(s);
    var (failureOperation, s) :- ReadByte(s);
    var (failure, s) :- ReadString(s);
    var (operations, s) :- ReadCounted(ReadOperation, MAX_OPERATIONS, s);
    Parsed(AddressTrace(success != 0, finalAddress,
                        if hasFailure != 0 then Some(failureOperation) else None,
                        failure, operations), s)
  }

  /** decode_structured_field: only the payload of the field's type is
      overwritten, and every byte of the blob must be used. */
  function DecodeBlob(f: Field, blob: Buffer): Option<Field> {
    if f.typ == TYPE_BYTES || f.typ == TYPE_TEXT then Some(f.(bytes := blob))
    else if f.typ == TYPE_LINKED_LIST then
      var r := ReadList(blob);
      if r.Parsed? && r.rest == [] then Some(f.(list := Some(r.value))) else None
    else if f.typ == TYPE_STACK_TRACE then
      var r := ReadStack(blob);
      if r.Parsed? && r.rest == [] then Some(f.(stack := Some(r.value))) else None
    else if f.typ == TYPE_ADDRESS_TRACE then
      var r := ReadTrace(blob);
      if r.Parsed? && r.rest == [] then Some(f.(trace := Some(r.value))) else None
    else None
  }

  /** read_field_value: reads onto a field that already has a name and type. */
  function ReadFieldValue(f: Field, s: seq<byte>): Parsed<Field> {
    var (status, s) :- ReadByte(s);
    var (value, s) :- ReadU64(s);
    if UsesBlob(f.typ) then
      var (blob, s) :- ReadString(s);
      match DecodeBlob(f.(status := status, value := value), blob)
      case Some(g) => Parsed(g, s)
      case None => Failed
    else
      Parsed(f.(status := status, value := value, bytes := [],
                list := None, stack := None, trace := None), s)
  }

  // ------------------------------------------------------------- well-formed

  ghost predicate WellFormedNode(n: ListNode) {
    |n.members| <= MAX_MEMBERS
  }

  ghost predicate WellFormedList(l: LinkedList) {
    |l.nodes| <= MAX_NODES && forall n :: n in l.nodes ==> WellFormedNode(n)
  }

  /** No payload that the type does not announce. */
  ghost predicate Clean(f: Field) {
    && (f.bytes != [] ==> f.typ == TYPE_BYTES || f.typ == TYPE_TEXT)
    && (f.list.Some? ==> f.typ == TYPE_LINKED_LIST)
    && (f.stack.Some? ==> f.typ == TYPE_STACK_TRACE)
    && (f.trace.Some? ==> f.typ == TYPE_ADDRESS_TRACE)
  }

  /** Exactly the payload the type announces, within the decoder's limits. */
  ghost predicate WellFormedField(f: Field) {
    && Clean(f)
    && (f.typ == TYPE_LINKED_LIST ==> f.list.Some?)
    && (f.typ == TYPE_STACK_TRACE ==> f.stack.Some?)
    && (f.typ == TYPE_ADDRESS_TRACE ==> f.trace.Some?)
    && (f.list.Some? ==> WellFormedList(f.list.value))
    && (f.stack.Some? ==> |f.stack.value.frames| <= MAX_FRAMES)
    && (f.trace.Some? ==> |f.trace.value.operations| <= MAX_OPERATIONS)
    && |BlobBytes(f)| < TWO_64
  }

  // -------------------------------------------------------------- round trip

  lemma MemberRoundTrip(m: ListMember, rest: seq<byte>)
    ensures ReadMember(MemberBytes(m) + rest) == Parsed(m, rest)
  {
    var tail := Pod(m.value, 8) + rest;
    assert MemberBytes(m) + rest == StringBytes(m.name) + ([m.width] + ([m.status] + tail));
    StringRoundTrip(m.name, [m.width] + ([m.status] + tail));
    ByteRoundTrip(m.width, [m.status] + tail);
    ByteRoundTrip(m.status, tail);
    U64RoundTrip(m.value, rest);
  }

  lemma NodeRoundTrip(n: ListNode, rest: seq<byte>)
    requires WellFormedNode(n)
    ensures ReadNode(NodeBytes(n) + rest) == Parsed(n, rest)
  {
    var body := CountedBytes(MemberBytes, n.members) + rest;
    assert NodeBytes(n) + rest == Pod(n.address, 4) + body;
    U32RoundTrip(n.address, body);
    forall m, r ensures ReadMember(MemberBytes(m) + r) == Parsed(m, r) {
      MemberRoundTrip(m, r);
    }
    CountedRoundTrip(MemberBytes, ReadMember, MAX_MEMBERS, n.members, rest);
  }

  lemma FlaggedRoundTrip(a: bool, b: bool, c: bool, tail: seq<byte>, rest: seq<byte>)
    ensures FlaggedBytes(a, b, c, tail) + rest == [Flag(a)] + ([Flag(b)] + ([Flag(c)] + (tail + rest)))
  {
    Assoc([Flag(a)], [Flag(b)] + ([Flag(c)] + tail), rest);
    Assoc([Flag(b)], [Flag(c)] + tail, rest);
    Assoc([Flag(c)], tail, rest);
  }

  lemma NodesRoundTrip(nodes: seq<ListNode>, rest: seq<byte>)
    requires |nodes| <= MAX_NODES && forall n :: n in nodes ==> WellFormedNode(n)
    ensures ReadCounted(ReadNode, MAX_NODES, CountedBytes(NodeBytes, nodes) + rest) == Parsed(nodes, rest)
  {
    forall n, r | n in nodes ensures ReadNode(NodeBytes(n) + r) == Parsed(n, r) {
      NodeRoundTrip(n, r);
    }
    CountedRoundTrip(NodeBytes, ReadNode, MAX_NODES, nodes, rest);
  }

  lemma ListRoundTrip(l: LinkedList, rest: seq<byte>)
    requires WellFormedList(l)
    ensures ReadList(ListBytes(l) + rest) == Parsed(l, rest)
  {
    var body := CountedBytes(NodeBytes, l.nodes);
    var s2 := FlaggedBytes(l.readOk, l.truncated, l.cycle, body);
    Assoc(Pod(l.root, 4), Pod(l.head, 4) + s2, rest);
    Assoc(Pod(l.head, 4), s2, rest);
    FlaggedRoundTrip(l.readOk, l.truncated, l.cycle, body, rest);
    U32RoundTrip(l.root, Pod(l.head, 4) + (s2 + rest));
    U32RoundTrip(l.head, s2 + rest);
    NodesRoundTrip(l.nodes, rest);
  }

  lemma FrameRoundTrip(f: StackFrame, rest: seq<byte>)
    ensures ReadFrame(FrameBytes(f) + rest) == Parsed(f, rest)
  {
    var s3 := Pod(f.callsitePc, 4) + rest;
    var s2 := Pod(f.returnPc, 4) + s3;
    var s1 := Pod(f.next, 4) + s2;
    assert FrameBytes(f) + rest == Pod(f.pointer, 4) + s1;
    U32RoundTrip(f.pointer, s1);
    U32RoundTrip(f.next, s2);
    U32RoundTrip(f.returnPc, s3);
    U32RoundTrip(f.callsitePc, rest);
  }

  lemma StackRoundTrip(t: StackTrace, rest: seq<byte>)
    requires |t.frames| <= MAX_FRAMES
    ensures ReadStack(StackBytes(t) + rest) == Parsed(t, rest)
  {
    FlaggedRoundTrip(t.readOk, t.truncated, t.cycle, CountedBytes(FrameBytes, t.frames), rest);
    forall f, r ensures ReadFrame(FrameBytes(f) + r) == Parsed(f, r) {
      FrameRoundTrip(f, r);
    }
    CountedRoundTrip(FrameBytes, ReadFrame, MAX_FRAMES, t.frames, rest);
  }

  lemma OperationRoundTrip(o: TraceOperation, rest: seq<byte>)
    ensures ReadOperation(OperationBytes(o) + rest) == Parsed(o, rest)
  {
    var value: u64 := if o.dereferenced.Some? then o.dereferenced.value else 0;
    var s5 := StringBytes(o.failure) + rest;
    var s4 := Pod(value, 8) + s5;
    var s3 := [Flag(o.dereferenced.Some?)] + s4;
    var s2 := Pod(o.after, 4) + s3;
    var s1 := Pod(o.before, 4) + s2;
    assert OperationBytes(o) + rest == [o.index] + ([o.operation] + s1);
    U32RoundTrip(o.before, s2);
    U32RoundTrip(o.after, s3);
    U64RoundTrip(value, s5);
    StringRoundTrip(o.failure, rest);
  }

  lemma OperationsRoundTrip(operations: seq<TraceOperation>, rest: seq<byte>)
    requires |operations| <= MAX_OPERATIONS
    ensures ReadCounted(ReadOperation, MAX_OPERATIONS, CountedBytes(OperationBytes, operations) + rest)
         == Parsed(operations, rest)
  {
    forall o, r ensures ReadOperation(OperationBytes(o) + r) == Parsed(o, r) {
      OperationRoundTrip(o, r);
    }
    CountedRoundTrip(OperationBytes, ReadOperation, MAX_OPERATIONS, operations, rest);
  }

  lemma TraceRoundTrip(t: AddressTrace, rest: seq<byte>)
    requires |t.operations| <= MAX_OPERATIONS
    ensures ReadTrace(TraceBytes(t) + rest) == Parsed(t, rest)
  {
    var failed: byte := if t.failureOperation.Some? then t.failureOperation.value else 0;
    var body := CountedBytes(OperationBytes, t.operations);
    var s4 := StringBytes(t.failure) + body;
    var s3 := [failed] + s4;
    var s2 := [Flag(t.failureOperation.Some?)] + s3;
    var s1 := Pod(t.finalAddress, 4) + s2;
    Assoc([Flag(t.success)], s1, rest);
    Assoc(Pod(t.finalAddress, 4), s2, rest);
    Assoc([Flag(t.failureOperation.Some?)], s3, rest);
    Assoc([failed], s4, rest);
    Assoc(StringBytes(t.failure), body, rest);
    U32RoundTrip(t.finalAddress, s2 + rest);
    StringRoundTrip(t.failure, body + rest);
    OperationsRoundTrip(t.operations, rest);
  }

  lemma BlobRoundTrip(base: Field, f: Field)
    requires Clean(base) && WellFormedField(f) && UsesBlob(f.typ)
    requires base.name == f.name && base.typ == f.typ
    requires base.status == f.status && base.value == f.value
    ensures DecodeBlob(base, BlobBytes(f)) == Some(f)
  {
    assert BlobBytes(f) + [] == BlobBytes(f);
    if f.typ == TYPE_LINKED_LIST {
      ListRoundTrip(f.list.value, []);
    } else if f.typ == TYPE_STACK_TRACE {
      StackRoundTrip(f.stack.value, []);
    } else if f.typ == TYPE_ADDRESS_TRACE {
      TraceRoundTrip(f.trace.value, []);
    }
  }

  /** Writing a well-formed field and reading it onto a field of the same name
      and type restores it, whatever payload of that type was there before. */
  lemma FieldValueRoundTrip(base: Field, f: Field, rest: seq<byte>)
    requires Clean(base) && WellFormedField(f)
    requires base.name == f.name && base.typ == f.typ
    ensures ReadFieldValue(base, FieldValueBytes(f) + rest) == Parsed(f, rest)
  {
    var tail := if UsesBlob(f.typ) then StringBytes(BlobBytes(f)) else [];
    Assoc([f.status], Pod(f.value, 8) + tail, rest);
    Assoc(Pod(f.value, 8), tail, rest);
    U64RoundTrip(f.value, tail + rest);
    if UsesBlob(f.typ) {
      StringRoundTrip(BlobBytes(f), rest);
      BlobRoundTrip(base.(status := f.status, value := f.value), f);
    } else {
      assert tail + rest == rest;
    }
  }

  // ----------------------------------------------- what the decoder can yield

  lemma MemberIsShortest(s: seq<byte>)
    ensures var r := ReadMember(s);
            r.Parsed? ==> |MemberBytes(r.value)| + |r.rest| <= |s|
  {
    StringIsShortest(s);
  }

  lemma NodeIsShortest(s: seq<byte>)
    ensures var r := ReadNode(s);
            r.Parsed? ==> WellFormedNode(r.value) && |NodeBytes(r.value)| + |r.rest| <= |s|
  {
    if ReadNode(s).Parsed? {
      var s1 := ReadU32(s).rest;
      forall t ensures ReadMember(t).Parsed? ==>
                         |MemberBytes(ReadMember(t).value)| + |ReadMember(t).rest| <= |t|
      {
        MemberIsShortest(t);
      }
      CountedIsShortest(MemberBytes, ReadMember, m => true, MAX_MEMBERS, s1);
    }
  }

  lemma ListIsShortest(s: seq<byte>)
    ensures var r := ReadList(s);
            r.Parsed? ==> WellFormedList(r.value) && |ListBytes(r.value)| + |r.rest| <= |s|
  {
    if ReadList(s).Parsed? {
      var s1 := s[8..][3..];
      assert s1 == s[8..][1..][1..][1..] && s[8..] == s[4..][4..];
      forall t ensures ReadNode(t).Parsed? ==>
                         WellFormedNode(ReadNode(t).value)
                         && |NodeBytes(ReadNode(t).value)| + |ReadNode(t).rest| <= |t|
      {
        NodeIsShortest(t);
      }
      CountedIsShortest(NodeBytes, ReadNode, n => WellFormedNode(n), MAX_NODES, s1);
    }
  }

  lemma StackIsShortest(s: seq<byte>)
    ensures var r := ReadStack(s);
            r.Parsed? ==> |r.value.frames| <= MAX_FRAMES && |StackBytes(r.value)| + |r.rest| <= |s|
  {
    if ReadStack(s).Parsed? {
      var s1 := s[3..];
      assert s1 == s[1..][1..][1..];
      CountedIsShortest(FrameBytes, ReadFrame, f => true, MAX_FRAMES, s1);
    }
  }

  lemma OperationIsShortest(s: seq<byte>)
    ensures var r := ReadOperation(s);
            r.Parsed? ==> |OperationBytes(r.value)| + |r.rest| <= |s|
  {
    if ReadOperation(s).Parsed? {
      var s1 := s[2..][8..][1..][8..];
      assert s1 == s[1..][1..][4..][4..][1..][8..];
      StringIsShortest(s1);
    }
  }

  lemma TraceIsShortest(s: seq<byte>)
    ensures var r := ReadTrace(s);
            r.Parsed? ==> |r.value.operations| <= MAX_OPERATIONS && |TraceBytes(r.value)| + |r.rest| <= |s|
  {
    if ReadTrace(s).Parsed? {
      var s1 := s[1..][4..][1..][1..];
      StringIsShortest(s1);
      var s2 := ReadString(s1).rest;
      forall t ensures ReadOperation(t).Parsed? ==>
                         |OperationBytes(ReadOperation(t).value)| + |ReadOperation(t).rest| <= |t|
      {
        OperationIsShortest(t);
      }
      CountedIsShortest(OperationBytes, ReadOperation, o => true, MAX_OPERATIONS, s2);
    }
  }

  lemma DecodedBlobIsWellFormed(base: Field, blob: Buffer)
    requires Clean(base) && UsesBlob(base.typ)
    ensures var r := DecodeBlob(base, blob);
            r.Some? ==> WellFormedField(r.value) && r.value.name == base.name && r.value.typ == base.typ
  {
    if base.typ == TYPE_LINKED_LIST {
      ListIsShortest(blob);
    } else if base.typ == TYPE_STACK_TRACE {
      StackIsShortest(blob);
    } else if base.typ == TYPE_ADDRESS_TRACE {
      TraceIsShortest(blob);
    }
  }

  /** The blob of a field decodes to the field if and only if the field carries
      the payload of its type, within the limits, and no other. */
  lemma BlobRoundTripIffWellFormed(base: Field, f: Field)
    requires Clean(base) && UsesBlob(f.typ) && |BlobBytes(f)| < TWO_64
    requires base.name == f.name && base.typ == f.typ
    requires base.status == f.status && base.value == f.value
    ensures DecodeBlob(base, BlobBytes(f)) == Some(f) <==> WellFormedField(f)
  {
    DecodedBlobIsWellFormed(base, BlobBytes(f));
    if WellFormedField(f) {
      BlobRoundTrip(base, f);
    }
  }

  /** Whatever the bytes, a value read onto a clean field is well-formed. */
  lemma ReadFieldIsWellFormed(base: Field, s: seq<byte>)
    requires Clean(base)
    ensures var r := ReadFieldValue(base, s);
            r.Parsed? ==> WellFormedField(r.value) && r.value.name == base.name && r.value.typ == base.typ
  {
    var r := ReadFieldValue(base, s);
    if r.Parsed? && UsesBlob(base.typ) {
      DecodedBlobIsWellFormed(base.(status := s[0], value := ReadU64(s[1..]).value), ReadString(s[1..][8..]).value);
    }
  }
}
