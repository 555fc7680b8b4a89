/** Where the parts of a field's value are, at fixed offsets of its bytes. */
module FieldLayout {
  import opened Words
  import opened Bytes
  import opened StructuredFields
  import opened FileLayout

  predicate IsFlag(b: byte, flag: bool) {
    b == if flag then 1 else 0
  }

  lemma MemberLayout(m: ListMember)
    ensures var s, n := MemberBytes(m), |StringBytes(m.name)|;
            && |s| == n + 10 && s[..n] == StringBytes(m.name) && s[n] == m.width && s[n + 1] == m.status
            && Holds(s, n + 2, 8, m.value)
  {
    var s, n := MemberBytes(m), |StringBytes(m.name)|;
    assert s[n..] == [m.width, m.status] + Pod(m.value, 8);
    assert s[n + 2..] == Pod(m.value, 8) + [];
    Next(s, n + 2, m.value, 8, []);
  }

  lemma NodeLayout(n: ListNode)
    ensures var s := NodeBytes(n);
            Holds(s, 0, 4, n.address) && s[4..] == VarintBytes(|n.members|) + Concat(MemberBytes, n.members)
  {
    Next(NodeBytes(n), 0, n.address, 4, CountedBytes(MemberBytes, n.members));
  }

  /** A list: its root, its head, three flags and its nodes. */
  lemma ListLayout(l: LinkedList)
    ensures var s := ListBytes(l);
            && Holds(s, 0, 4, l.root) && Holds(s, 4, 4, l.head)
            && IsFlag(s[8], l.readOk) && IsFlag(s[9], l.truncated) && IsFlag(s[10], l.cycle)
            && s[11..] == VarintBytes(|l.nodes|) + Concat(NodeBytes, l.nodes)
  {
    var s, tail := ListBytes(l), CountedBytes(NodeBytes, l.nodes);
    var flags := FlaggedBytes(l.readOk, l.truncated, l.cycle, tail);
    Next(s, 0, l.root, 4, Pod(l.head, 4) + flags);
    Next(s, 4, l.head, 4, flags);
    NextByte(s, 8, Flag(l.readOk), [Flag(l.truncated)] + ([Flag(l.cycle)] + tail));
    NextByte(s, 9, Flag(l.truncated), [Flag(l.cycle)] + tail);
    NextByte(s, 10, Flag(l.cycle), tail);
  }

  lemma FrameLayout(f: StackFrame)
    ensures var s := FrameBytes(f);
            && |s| == 16 && Holds(s, 0, 4, f.pointer) && Holds(s, 4, 4, f.next)
            && Holds(s, 8, 4, f.returnPc) && Holds(s, 12, 4, f.callsitePc)
  {
    var s, last := FrameBytes(f), Pod(f.callsitePc, 4);
    Next(s, 0, f.pointer, 4, Pod(f.next, 4) + (Pod(f.returnPc, 4) + last));
    Next(s, 4, f.next, 4, Pod(f.returnPc, 4) + last);
    Next(s, 8, f.returnPc, 4, last);
    assert s[12..] == last + [];
    Next(s, 12, f.callsitePc, 4, []);
  }

  /** A stack: three flags and its frames. */
  lemma StackLayout(t: StackTrace)
    ensures var s := StackBytes(t);
            && |s| >= 3 && IsFlag(s[0], t.readOk) && IsFlag(s[1], t.truncated) && IsFlag(s[2], t.cycle)
            && s[3..] == VarintBytes(|t.frames|) + Concat(FrameBytes, t.frames)
  {
    var s, tail := StackBytes(t), CountedBytes(FrameBytes, t.frames);
    NextByte(s, 0, Flag(t.readOk), [Flag(t.truncated)] + ([Flag(t.cycle)] + tail));
    NextByte(s, 1, Flag(t.truncated), [Flag(t.cycle)] + tail);
    NextByte(s, 2, Flag(t.cycle), tail);
  }

  lemma OperationLayout(o: TraceOperation)
    ensures var s := OperationBytes(o);
            && |s| >= 19 && s[0] == o.index && s[1] == o.operation
            && Holds(s, 2, 4, o.before) && Holds(s, 6, 4, o.after) && IsFlag(s[10], o.dereferenced.Some?)
            && Holds(s, 11, 8, if o.dereferenced.Some? then o.dereferenced.value else 0)
            && s[19..] == StringBytes(o.failure)
  {
    var s, word := OperationBytes(o), if o.dereferenced.Some? then o.dereferenced.value else 0;
    var s4 := Pod(word, 8) + StringBytes(o.failure);
    var s3 := [Flag(o.dereferenced.Some?)] + s4;
    var s2 := Pod(o.after, 4) + s3;
    var s1 := Pod(o.before, 4) + s2;
    NextByte(s, 0, o.index, [o.operation] + s1);
    NextByte(s, 1, o.operation, s1);
    Next(s, 2, o.before, 4, s2);
    Next(s, 6, o.after, 4, s3);
    NextByte(s, 10, Flag(o.dereferenced.Some?), s4);
    Next(s, 11, word, 8, StringBytes(o.failure));
  }

  /** A trace: whether it succeeded, the final address, the operation it failed at,
      why, and its operations. */
  lemma TraceLayout(t: AddressTrace)
    ensures var s := TraceBytes(t);
            && |s| >= 7 && IsFlag(s[0], t.success) && Holds(s, 1, 4, t.finalAddress)
            && IsFlag(s[5], t.failureOperation.Some?)
            && s[6] == (if t.failureOperation.Some? then t.failureOperation.value else 0)
            && s[7..] == StringBytes(t.failure) + (VarintBytes(|t.operations|) + Concat(OperationBytes, t.operations))
  {
    var s, at := TraceBytes(t), if t.failureOperation.Some? then t.failureOperation.value else 0;
    var s3 := StringBytes(t.failure) + CountedBytes(OperationBytes, t.operations);
    var s2 := [Flag(t.failureOperation.Some?)] + ([at] + s3);
    NextByte(s, 0, Flag(t.success), Pod(t.finalAddress, 4) + s2);
    Next(s, 1, t.finalAddress, 4, s2);
    NextByte(s, 5, Flag(t.failureOperation.Some?), [at] + s3);
    NextByte(s, 6, at, s3);
  }

  /** A field's value: its status, 64 bits, and by its type (4 bytes, 5 text, 6 list,
      7 stack, 8 trace) the blob of its payload. */
  lemma ValueLayout(f: Field)
    ensures var s := FieldValueBytes(f);
            && |s| >= 9 && s[0] == f.status && Holds(s, 1, 8, f.value)
            && (f.typ < 4 || f.typ > 8 ==> |s| == 9)
            && (f.typ == 4 || f.typ == 5 ==> s[9..] == StringBytes(f.bytes))
            && (f.typ == 6 ==> s[9..] == StringBytes(if f.list.Some? then ListBytes(f.list.value) else []))
            && (f.typ == 7 ==> s[9..] == StringBytes(if f.stack.Some? then StackBytes(f.stack.value) else []))
            && (f.typ == 8 ==> s[9..] == StringBytes(if f.trace.Some? then TraceBytes(f.trace.value) else []))
  {
    var s, blob := FieldValueBytes(f), if UsesBlob(f.typ) then StringBytes(BlobBytes(f)) else [];
    NextByte(s, 0, f.status, Pod(f.value, 8) + blob);
    Next(s, 1, f.value, 8, blob);
  }
}
