/** The structured payloads as they are written and read: nested loops over the
    nodes and members of a list, over stack frames and over trace operations. */
module BlobLoops {
  import opened Words
  import opened Bytes
  import opened StructuredFields

  /** A count and the elements behind it. */
  method AppendCounted<T>(out: seq<byte>, enc: T -> seq<byte>, xs: seq<T>) returns (out': seq<byte>)
    ensures out' == out + CountedBytes(enc, xs)
  {
    ghost var count := VarintBytes(|xs|);
    out' := AppendVarint(out, |xs|);
    for i := 0 to |xs|
      invariant out' == out + count + Concat(enc, xs[..i])
    {
      ConcatSnoc(enc, xs, i);
      Assoc(out + count, Concat(enc, xs[..i]), enc(xs[i]));
      out' := out' + enc(xs[i]);
    }
    assert xs[..|xs|] == xs;
    Assoc(out, count, Concat(enc, xs));
  }

  method AppendNodes(out: seq<byte>, nodes: seq<ListNode>) returns (out': seq<byte>)
    ensures out' == out + CountedBytes(NodeBytes, nodes)
  {
    ghost var count := VarintBytes(|nodes|);
    out' := AppendVarint(out, |nodes|);
    for i := 0 to |nodes|
      invariant out' == out + count + Concat(NodeBytes, nodes[..i])
    {
      var node := nodes[i];
      ghost var before, members := out', CountedBytes(MemberBytes, node.members);
      out' := AppendCounted(out' + Pod(node.address, 4), MemberBytes, node.members);
      Assoc(before, Pod(node.address, 4), members);
      ConcatSnoc(NodeBytes, nodes, i);
      Assoc(out + count, Concat(NodeBytes, nodes[..i]), NodeBytes(node));
    }
    assert nodes[..|nodes|] == nodes;
    Assoc(out, count, Concat(NodeBytes, nodes));
  }

  method AppendFlags(out: seq<byte>, a: bool, b: bool, c: bool) returns (out': seq<byte>)
    ensures forall tail :: out' + tail == out + FlaggedBytes(a, b, c, tail)
  {
    out' := out + [Flag(a)] + [Flag(b)] + [Flag(c)];
    forall tail ensures out' + tail == out + FlaggedBytes(a, b, c, tail) {
      Assoc(out + [Flag(a)] + [Flag(b)], [Flag(c)], tail);
      Assoc(out + [Flag(a)], [Flag(b)], [Flag(c)] + tail);
      Assoc(out, [Flag(a)], [Flag(b)] + ([Flag(c)] + tail));
    }
  }

  method ListToBytes(l: LinkedList) returns (out: seq<byte>)
    ensures out == ListBytes(l)
  {
    var head := Pod(l.root, 4) + Pod(l.head, 4);
    out := AppendFlags(head, l.readOk, l.truncated, l.cycle);
    out := AppendNodes(out, l.nodes);
    var nodes := CountedBytes(NodeBytes, l.nodes);
    Assoc(Pod(l.root, 4), Pod(l.head, 4), FlaggedBytes(l.readOk, l.truncated, l.cycle, nodes));
  }

  method StackToBytes(t: StackTrace) returns (out: seq<byte>)
    ensures out == StackBytes(t)
  {
    out := AppendFlags([], t.readOk, t.truncated, t.cycle);
    out := AppendCounted(out, FrameBytes, t.frames);
    var bytes := StackBytes(t);
    assert [] + bytes == bytes;
  }

  method TraceToBytes(t: AddressTrace) returns (out: seq<byte>)
    ensures out == TraceBytes(t)
  {
    var a, b, c, d, e := [Flag(t.success)], Pod(t.finalAddress, 4), [Flag(t.failureOperation.Some?)],
                         [if t.failureOperation.Some? then t.failureOperation.value else 0], StringBytes(t.failure);
    ghost var tail := CountedBytes(OperationBytes, t.operations);
    out := AppendCounted(a + b + c + d + e, OperationBytes, t.operations);
    Assoc(a + b + c + d, e, tail);
    Assoc(a + b + c, d, e + tail);
    Assoc(a + b, c, d + (e + tail));
    Assoc(a, b, c + (d + (e + tail)));
  }

  /** structured_field_bytes */
  method StructuredFieldBytes(f: Field) returns (out: seq<byte>)
    ensures out == BlobBytes(f)
  {
    if f.typ == TYPE_BYTES || f.typ == TYPE_TEXT {
      return f.bytes;
    }
    out := [];
    if f.typ == TYPE_LINKED_LIST && f.list.Some? {
      out := ListToBytes(f.list.value);
    } else if f.typ == TYPE_STACK_TRACE && f.stack.Some? {
      out := StackToBytes(f.stack.value);
    } else if f.typ == TYPE_ADDRESS_TRACE && f.trace.Some? {
      out := TraceToBytes(f.trace.value);
    }
  }

  // ------------------------------------------------------------------ reading

  method ReadCountedLoop<T>(read: seq<byte> -> Parsed<T>, max: nat, s: seq<byte>) returns (r: Parsed<seq<T>>)
    ensures r == ReadCounted(read, max, s)
  {
    var count := ReadVarint(s);
    if count.Failed? || count.value > max {
      return Failed;
    }
    r := ReadManyLoop(read, count.value, count.rest);
  }

  method ReadNodeLoop(s: seq<byte>) returns (r: Parsed<ListNode>)
    ensures r == ReadNode(s)
  {
    var address := ReadU32(s);
    if address.Failed? {
      return Failed;
    }
    var members := ReadCountedLoop(ReadMember, MAX_MEMBERS, address.rest);
    r := if members.Failed? then Failed else Parsed(ListNode(address.value, members.value), members.rest);
  }

  /** The outer loop of a list. */
  method ReadNodes(s: seq<byte>) returns (r: Parsed<seq<ListNode>>)
    ensures r == ReadCounted(ReadNode, MAX_NODES, s)
  {
    var count := ReadVarint(s);
    if count.Failed? || count.value > MAX_NODES {
      return Failed;
    }
    var nodes, rest := [], count.rest;
    ghost var whole := ReadMany(ReadNode, count.value, count.rest);
    PrependUnits(nodes, whole, rest);
    for i := 0 to count.value
      invariant whole == Prepend(nodes, ReadMany(ReadNode, count.value - i, rest))
    {
      var node := ReadNodeLoop(rest);
      ReadManyStep(ReadNode, count.value - i, rest, nodes);
      if node.Failed? {
        return Failed;
      }
      nodes, rest := nodes + [node.value], node.rest;
    }
    PrependUnits(nodes, whole, rest);
    r := Parsed(nodes, rest);
  }

  function ReadListHead(s: seq<byte>): Parsed<(u32, u32, byte, byte, byte)> {
    var (root, s) :- ReadU32(s);
    var (head, s) :- ReadU32(s);
    var (readOk, s) :- ReadByte(s);
    var (truncated, s) :- ReadByte(s);
    var (cycle, s) :- ReadByte(s);
    Parsed((root, head, readOk, truncated, cycle), s)
  }

  function ReadStackHead(s: seq<byte>): Parsed<(byte, byte, byte)> {
    var (readOk, s) :- ReadByte(s);
    var (truncated, s) :- ReadByte(s);
    var (cycle, s) :- ReadByte(s);
    Parsed((readOk, truncated, cycle), s)
  }

  function ReadTraceHead(s: seq<byte>): Parsed<(byte, u32, byte, byte, Buffer)> {
    var (success, s) :- ReadByte(s);
    var (finalAddress, s) :- ReadU32(s);
    var (hasFailure, s) :- ReadByte(s);
    var (failureOperation, s) :- ReadByte(s);
    var (failure, s) :- ReadString(s);
    Parsed((success, finalAddress, hasFailure, failureOperation, failure), s)
  }

  method BytesToList(s: seq<byte>) returns (r: Parsed<LinkedList>)
    ensures r == ReadList(s)
  {
    var h := ReadListHead(s);
    if h.Failed? {
      return Failed;
    }
    var nodes := ReadNodes(h.rest);
    r := if nodes.Failed? then Failed
         else Parsed(LinkedList(h.value.0, h.value.1, h.value.2 != 0, h.value.3 != 0, h.value.4 != 0, nodes.value),
                     nodes.rest);
  }

  method BytesToStack(s: seq<byte>) returns (r: Parsed<StackTrace>)
    ensures r == ReadStack(s)
  {
    var h := ReadStackHead(s);
    if h.Failed? {
      return Failed;
    }
    var frames := ReadCountedLoop(ReadFrame, MAX_FRAMES, h.rest);
    r := if frames.Failed? then Failed
         else Parsed(StackTrace(h.value.0 != 0, h.value.1 != 0, h.value.2 != 0, frames.value), frames.rest);
  }

  method BytesToTrace(s: seq<byte>) returns (r: Parsed<AddressTrace>)
    ensures r == ReadTrace(s)
  {
    var h := ReadTraceHead(s);
    if h.Failed? {
      return Failed;
    }
    var operations := ReadCountedLoop(ReadOperation, MAX_OPERATIONS, h.rest);
    r := if operations.Failed? then Failed
         else Parsed(AddressTrace(h.value.0 != 0, h.value.1, if h.value.2 != 0 then Some(h.value.3) else None,
                                  h.value.4, operations.value), operations.rest);
  }

  /** decode_structured_field; the field is only changed when all bytes fit. */
  method DecodeStructuredField(f: Field, blob: Buffer) returns (r: Option<Field>)
    ensures r == DecodeBlob(f, blob)
  {
    r := None;
    if f.typ == TYPE_BYTES || f.typ == TYPE_TEXT {
      r := Some(f.(bytes := blob));
    } else if f.typ == TYPE_LINKED_LIST {
      var list := BytesToList(blob);
      if list.Parsed? && list.rest == [] {
        r := Some(f.(list := Some(list.value)));
      }
    } else if f.typ == TYPE_STACK_TRACE {
      var stack := BytesToStack(blob);
      if stack.Parsed? && stack.rest == [] {
        r := Some(f.(stack := Some(stack.value)));
      }
    } else if f.typ == TYPE_ADDRESS_TRACE {
      var trace := BytesToTrace(blob);
      if trace.Parsed? && trace.rest == [] {
        r := Some(f.(trace := Some(trace.value)));
      }
    }
  }
}
