/** Walking a byte string record by record, for any kind of record: the loop of
    read_segment apart from what the records contain. */
module Framing {
  import opened Words
  import opened Bytes

  /** One turn of a record loop: it ends, or goes on with the bytes left. */
  datatype Step<A> = Done(read: A) | More(read: A, rest: seq<byte>, offset: nat)

  /** A turn that consumed nothing would end the loop. */
  function Walk<A>(read: (nat, seq<byte>, A) -> Step<A>, offset: nat, s: seq<byte>, acc: A): A
    decreases |s|
  {
    match read(offset, s, acc)
    case Done(r) => r
    case More(r, rest, next) => if |rest| < |s| then Walk(read, next, rest, r) else r
  }

  /** What every turn keeps, the loop keeps. */
  lemma {:induction false} WalkKeeps<A(!new)>(
      read: (nat, seq<byte>, A) -> Step<A>, good: A -> bool, offset: nat, s: seq<byte>, acc: A)
    requires good(acc) && forall o: nat, t, a :: good(a) ==> good(read(o, t, a).read)
    ensures good(Walk(read, offset, s, acc))
    decreases |s|
  {
    var step := read(offset, s, acc);
    if step.More? && |step.rest| < |s| {
      WalkKeeps(read, good, step.offset, step.rest, step.read);
    }
  }

  /** What a run of records contributes, each at its own offset. */
  function Absorbed<R, A>(
      enc: R -> seq<byte>, absorb: (nat, R, A) -> A, offset: nat, rs: seq<R>, acc: A): A
    decreases |rs|
  {
    if rs == [] then acc
    else Absorbed(enc, absorb, offset + |enc(rs[0])|, rs[1..], absorb(offset, rs[0], acc))
  }

  /** The reader undoes the encoder on every record of `rs`, whatever follows. */
  ghost predicate Undoes<R(!new), A(!new)>(
      enc: R -> seq<byte>, absorb: (nat, R, A) -> A, read: (nat, seq<byte>, A) -> Step<A>, rs: seq<R>)
  {
    && (forall r :: r in rs ==> enc(r) != [])
    && (forall o: nat, r, t, a :: r in rs ==>
          read(o, enc(r) + t, a) == More(absorb(o, r, a), t, o + |enc(r)|))
  }

  lemma {:induction false} WalkWhole<R(!new), A(!new)>(
      enc: R -> seq<byte>, absorb: (nat, R, A) -> A, read: (nat, seq<byte>, A) -> Step<A>,
      offset: nat, rs: seq<R>, rest: seq<byte>, acc: A)
    requires Undoes(enc, absorb, read, rs)
    ensures Walk(read, offset, Concat(enc, rs) + rest, acc)
         == Walk(read, offset + |Concat(enc, rs)|, rest, Absorbed(enc, absorb, offset, rs, acc))
    decreases |rs|
  {
    if rs == [] {
      assert Concat(enc, rs) + rest == rest;
    } else {
      var head, tail := enc(rs[0]), Concat(enc, rs[1..]);
      Assoc(head, tail, rest);
      assert rs[0] in rs;
      assert forall r :: r in rs[1..] ==> r in rs;
      WalkWhole(enc, absorb, read, offset + |head|, rs[1..], rest, absorb(offset, rs[0], acc));
    }
  }

  /** Records behind which a last one closes the walk. */
  lemma WalkClosed<R(!new), A(!new)>(
      enc: R -> seq<byte>, absorb: (nat, R, A) -> A, read: (nat, seq<byte>, A) -> Step<A>, close: A -> A,
      offset: nat, rs: seq<R>, f: R, acc: A)
    requires Undoes(enc, absorb, read, rs)
    requires forall o: nat, a :: read(o, enc(f), a) == Done(close(a))
    ensures Walk(read, offset, Concat(enc, rs + [f]), acc) == close(Absorbed(enc, absorb, offset, rs, acc))
  {
    ConcatAppend(enc, rs, [f]);
    ConcatOne(enc, f);
    WalkWhole(enc, absorb, read, offset, rs, enc(f), acc);
  }

  /** Cut a run of records inside record `k`, at any byte: the walk comes to the
      cut record with what the records before it contribute. */
  lemma WalkCut<R(!new), A(!new)>(
      enc: R -> seq<byte>, absorb: (nat, R, A) -> A, read: (nat, seq<byte>, A) -> Step<A>,
      offset: nat, rs: seq<R>, k: nat, cut: nat, acc: A)
    requires k < |rs| && Undoes(enc, absorb, read, rs[..k])
    requires |Concat(enc, rs[..k])| <= cut < |Concat(enc, rs[..k + 1])|
    ensures cut <= |Concat(enc, rs)| && cut - |Concat(enc, rs[..k])| < |enc(rs[k])|
    ensures var start := |Concat(enc, rs[..k])|;
            Walk(read, offset, Concat(enc, rs)[..cut], acc)
            == Walk(read, offset + start, enc(rs[k])[..cut - start], Absorbed(enc, absorb, offset, rs[..k], acc))
  {
    var front := Concat(enc, rs[..k]);
    assert rs == rs[..k] + ([rs[k]] + rs[k + 1..]);
    ConcatAppend(enc, rs[..k], [rs[k]] + rs[k + 1..]);
    ConcatAppend(enc, [rs[k]], rs[k + 1..]);
    ConcatOne(enc, rs[k]);
    assert rs[..k + 1] == rs[..k] + [rs[k]];
    ConcatAppend(enc, rs[..k], [rs[k]]);
    var over := cut - |front|;
    assert Concat(enc, rs)[..cut] == front + enc(rs[k])[..over];
    WalkWhole(enc, absorb, read, offset, rs[..k], enc(rs[k])[..over], acc);
  }

  /** How many records lie wholly inside the first `cut` bytes. */
  function WholeRecords<R>(enc: R -> seq<byte>, rs: seq<R>, cut: nat): (k: nat)
    ensures k <= |rs|
  {
    if rs == [] || cut < |enc(rs[0])| then 0
    else 1 + WholeRecords(enc, rs[1..], cut - |enc(rs[0])|)
  }

  lemma {:induction false} WholeRecordsFit<R>(enc: R -> seq<byte>, rs: seq<R>, cut: nat)
    ensures var k := WholeRecords(enc, rs, cut);
            && |Concat(enc, rs[..k])| <= cut
            && (k < |rs| ==> cut < |Concat(enc, rs[..k + 1])|)
            && (k == |rs| ==> |Concat(enc, rs)| <= cut)
  {
    var k := WholeRecords(enc, rs, cut);
    if k > 0 {
      WholeRecordsFit(enc, rs[1..], cut - |enc(rs[0])|);
      assert rs[..k] == [rs[0]] + rs[1..][..k - 1];
      if k < |rs| {
        assert rs[..k + 1] == [rs[0]] + rs[1..][..k];
      }
    } else if rs != [] {
      assert rs[..1] == [rs[0]];
      ConcatOne(enc, rs[0]);
    }
  }

  /** Where a cut falls when the records are followed by a last one. */
  lemma WholeBeforeLast<R>(enc: R -> seq<byte>, rs: seq<R>, f: R, cut: nat)
    requires cut <= |Concat(enc, rs + [f])| && enc(f) != []
    ensures var k := WholeRecords(enc, rs, cut);
            && (rs + [f])[..k] == rs[..k]
            && |Concat(enc, (rs + [f])[..k])| <= cut
            && (cut < |Concat(enc, rs + [f])| ==> cut < |Concat(enc, (rs + [f])[..k + 1])|)
            && (cut == |Concat(enc, rs + [f])| ==> k == |rs|)
  {
    var k := WholeRecords(enc, rs, cut);
    WholeRecordsFit(enc, rs, cut);
    ConcatAppend(enc, rs, [f]);
    ConcatOne(enc, f);
    assert (rs + [f])[..k] == rs[..k];
    if k < |rs| {
      assert (rs + [f])[..k + 1] == rs[..k + 1];
      assert rs == rs[..k + 1] + rs[k + 1..];
      ConcatAppend(enc, rs[..k + 1], rs[k + 1..]);
    } else {
      assert (rs + [f])[..k + 1] == rs + [f];
    }
  }

  lemma UndoesFront<R(!new), A(!new)>(
      enc: R -> seq<byte>, absorb: (nat, R, A) -> A, read: (nat, seq<byte>, A) -> Step<A>, rs: seq<R>, k: nat)
    requires k <= |rs| && Undoes(enc, absorb, read, rs)
    ensures Undoes(enc, absorb, read, rs[..k])
  {
    assert forall r :: r in rs[..k] ==> r in rs;
  }

  /** Records followed by a last one, cut before its end: the walk comes to the
      first record that is not whole. */
  lemma WalkCutBeforeLast<R(!new), A(!new)>(
      enc: R -> seq<byte>, absorb: (nat, R, A) -> A, read: (nat, seq<byte>, A) -> Step<A>,
      offset: nat, rs: seq<R>, f: R, cut: nat, acc: A)
    requires Undoes(enc, absorb, read, rs) && enc(f) != [] && cut < |Concat(enc, rs + [f])|
    ensures var k := WholeRecords(enc, rs, cut);
            var r, start := (rs + [f])[k], |Concat(enc, rs[..k])|;
            && start <= cut < start + |enc(r)|
            && Walk(read, offset, Concat(enc, rs + [f])[..cut], acc)
               == Walk(read, offset + start, enc(r)[..cut - start], Absorbed(enc, absorb, offset, rs[..k], acc))
  {
    var k := WholeRecords(enc, rs, cut);
    WholeBeforeLast(enc, rs, f, cut);
    UndoesFront(enc, absorb, read, rs, k);
    WalkCut(enc, absorb, read, offset, rs + [f], k, cut, acc);
  }
}
