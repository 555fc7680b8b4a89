/** Planning watchpoint bindings: which requests ride on a foreign range, which
    fail, and how the others are merged into physical ranges. */
module Watchpoints {
  import opened Sorting
  import opened Words

  const MAX_ADDRESS: int := 0xFFFF_FFFF

  datatype OwnerKind = ProfileOwner | ControlOwner
  datatype Owner = Owner(kind: OwnerKind, index: u32)
  datatype Access = Read | Write | ReadWrite
  datatype Source = Static | Dynamic | Control | Foreign

  datatype Request = Request(
    owner: Owner, address: u32, size: u32, access: Access, source: Source, generation: u64)

  datatype ForeignRange = ForeignRange(start: u32, end: u32)

  datatype Physical = Physical(start: u32, end: u32, read: bool, write: bool)

  datatype Binding = Binding(
    owner: Owner, address: u32, size: u32, physicalStart: u32, physicalEnd: u32, source: Source, generation: u64)

  datatype Reason = InvalidRange | PartialSameStartForeignOverlap

  datatype Failure = Failure(owner: Owner, address: u32, size: u32, reason: Reason, generation: u64)

  datatype Plan = Plan(physical: seq<Physical>, bindings: seq<Binding>, failures: seq<Failure>)

  /** The last byte of a range, unless it is empty or leaves the address space. */
  function RangeEnd(address: u32, size: u32): (end: Option<u32>)
    ensures end.Some? <==> size > 0 && address + size - 1 <= MAX_ADDRESS
    ensures end.Some? ==> end.value == address + size - 1
  {
    if size == 0 || address + size - 1 > MAX_ADDRESS then None else Some(address + size - 1)
  }

  predicate Proper(r: Request) {
    RangeEnd(r.address, r.size).Some?
  }

  function Last(r: Request): u32
    requires Proper(r)
  {
    r.address + r.size - 1
  }

  predicate Covers(outerStart: u32, outerEnd: u32, innerStart: u32, innerEnd: u32) {
    outerStart <= innerStart && outerEnd >= innerEnd
  }

  predicate Overlaps(aStart: u32, aEnd: u32, bStart: u32, bEnd: u32) {
    aStart <= bEnd && bStart <= aEnd
  }

  predicate Reads(a: Access) {
    a.Read? || a.ReadWrite?
  }

  predicate Writes(a: Access) {
    a.Write? || a.ReadWrite?
  }

  /** The bytes of a range, in unbounded arithmetic. */
  predicate InRange(address: u32, size: u32, b: int) {
    address <= b < address + size
  }

  /** What the end of a range stands for: there is one exactly if the range has a
      byte and every byte of it fits 32 bits, and comparing ends as the planner
      does is comparing sets of bytes. */
  lemma EndsStandForBytes(address: u32, size: u32, address': u32, size': u32)
    ensures RangeEnd(address, size).Some? <==>
              (exists b :: InRange(address, size, b)) && forall b :: InRange(address, size, b) ==> b <= MAX_ADDRESS
    ensures RangeEnd(address, size).Some? && RangeEnd(address', size').Some? ==>
              var end, end' := RangeEnd(address, size).value, RangeEnd(address', size').value;
              && (Covers(address, end, address', end') <==>
                    forall b :: InRange(address', size', b) ==> InRange(address, size, b))
              && (Overlaps(address, end, address', end') <==>
                    exists b :: InRange(address, size, b) && InRange(address', size', b))
  {
    var last, last' := address + size - 1, address' + size' - 1;
    assert size > 0 ==> InRange(address, size, address) && InRange(address, size, last);
    assert size' > 0 ==> InRange(address', size', address') && InRange(address', size', last');
    if size > 0 && size' > 0 && address <= last' && address' <= last {
      var b := if address <= address' then address' else address;
      assert InRange(address, size, b) && InRange(address', size', b);
    }
  }

  // ------------------------------------------------------------ classification

  predicate CoversRequest(f: ForeignRange, r: Request)
    requires Proper(r)
  {
    Covers(f.start, f.end, r.address, Last(r))
  }

  /** The first of the shortest foreign ranges that cover a request. */
  ghost predicate IsBestCover(fs: seq<ForeignRange>, r: Request, best: Option<nat>)
    requires Proper(r)
  {
    match best
    case None => forall f :: f in fs ==> !CoversRequest(f, r)
    case Some(i) =>
      && i < |fs| && CoversRequest(fs[i], r)
      && (forall j :: 0 <= j < |fs| && CoversRequest(fs[j], r) ==>
            fs[i].end - fs[i].start < fs[j].end - fs[j].start
            || (fs[i].end - fs[i].start == fs[j].end - fs[j].start && i <= j))
  }

  /** The loop of the planner: a later range wins only if it is shorter. */
  function BestIndex(fs: seq<ForeignRange>, r: Request, n: nat): (best: Option<nat>)
    requires Proper(r) && n <= |fs|
    ensures best.Some? ==> best.value < n
  {
    if n == 0 then None
    else
      var best := BestIndex(fs, r, n - 1);
      if CoversRequest(fs[n - 1], r)
         && (best.None? || fs[n - 1].end - fs[n - 1].start < fs[best.value].end - fs[best.value].start)
      then Some(n - 1) else best
  }

  lemma {:induction false} BestIndexIsBest(fs: seq<ForeignRange>, r: Request, n: nat)
    requires Proper(r) && n <= |fs|
    ensures IsBestCover(fs[..n], r, BestIndex(fs, r, n))
  {
    if n > 0 {
      BestIndexIsBest(fs, r, n - 1);
      assert fs[..n] == fs[..n - 1] + [fs[n - 1]];
    }
  }

  method BestCover(fs: seq<ForeignRange>, r: Request) returns (best: Option<nat>)
    requires Proper(r)
    ensures best == BestIndex(fs, r, |fs|)
    ensures IsBestCover(fs, r, best)
  {
    best := None;
    for i := 0 to |fs|
      invariant best == BestIndex(fs, r, i)
    {
      if CoversRequest(fs[i], r)
         && (best.None? || fs[i].end - fs[i].start < fs[best.value].end - fs[best.value].start) {
        best := Some(i);
      }
    }
    BestIndexIsBest(fs, r, |fs|);
    assert fs[..|fs|] == fs;
  }

  /** A foreign range that starts with the request without covering it. */
  predicate SameStart(f: ForeignRange, r: Request)
    requires Proper(r)
  {
    f.start == r.address && Overlaps(f.start, f.end, r.address, Last(r))
  }

  method AnySameStart(fs: seq<ForeignRange>, r: Request) returns (found: bool)
    requires Proper(r)
    ensures found <==> exists f :: f in fs && SameStart(f, r)
  {
    found := false;
    for i := 0 to |fs|
      invariant found <==> exists f :: f in fs[..i] && SameStart(f, r)
    {
      assert fs[..i + 1] == fs[..i] + [fs[i]];
      if SameStart(fs[i], r) {
        found := true;
      }
    }
    assert fs[..|fs|] == fs;
  }

  // ------------------------------------------------------------------ merging

  predicate Inside(p: Physical, r: Request)
    requires Proper(r)
  {
    Covers(p.start, p.end, r.address, Last(r))
  }

  function Absorb(ps: seq<Physical>, r: Request): seq<Physical>
    requires Proper(r)
  {
    var n := |ps| - 1;
    if ps == [] || !Overlaps(ps[n].start, ps[n].end, r.address, Last(r))
    then ps + [Physical(r.address, Last(r), Reads(r.access), Writes(r.access))]
    else ps[n := Physical(ps[n].start, Max(ps[n].end, Last(r)),
                          ps[n].read || Reads(r.access), ps[n].write || Writes(r.access))]
  }

  ghost predicate AllProper(rs: seq<Request>) {
    forall r :: r in rs ==> Proper(r)
  }

  /** The merge of requests in the given order. */
  function Merge(rs: seq<Request>): seq<Physical>
    requires AllProper(rs)
  {
    if rs == [] then [] else Absorb(Merge(rs[..|rs| - 1]), rs[|rs| - 1])
  }

  method MergeLoop(rs: seq<Request>) returns (ps: seq<Physical>)
    requires AllProper(rs)
    ensures ps == Merge(rs)
  {
    ps := [];
    for i := 0 to |rs|
      invariant ps == Merge(rs[..i])
    {
      assert rs[..i + 1][..i] == rs[..i];
      ps := Absorb(ps, rs[i]);
    }
    assert rs[..|rs|] == rs;
  }

  // --------------------------------------------------- what a merge is for

  ghost predicate SortedDisjoint(ps: seq<Physical>) {
    && (forall i :: 0 <= i < |ps| ==> ps[i].start <= ps[i].end)
    && (forall i, j :: 0 <= i < j < |ps| ==> ps[i].end < ps[j].start)
  }

  /** Some request holds both the byte before `c` and the byte at `c`. */
  ghost predicate Spanned(rs: set<Request>, c: int) {
    exists r :: r in rs && Proper(r) && r.address < c <= Last(r)
  }

  ghost predicate StartsAt(rs: set<Request>, a: int) {
    exists r :: r in rs && r.address == a
  }

  ghost predicate EndsAt(rs: set<Request>, b: int) {
    exists r :: r in rs && Proper(r) && Last(r) == b
  }

  /** A range grown from requests without a seam. */
  ghost predicate Seamless(p: Physical, rs: set<Request>) {
    && StartsAt(rs, p.start) && EndsAt(rs, p.end)
    && (forall c :: p.start < c <= p.end ==> Spanned(rs, c))
  }

  ghost predicate ReadWanted(p: Physical, rs: set<Request>) {
    exists r :: r in rs && Proper(r) && Inside(p, r) && Reads(r.access)
  }

  ghost predicate WriteWanted(p: Physical, rs: set<Request>) {
    exists r :: r in rs && Proper(r) && Inside(p, r) && Writes(r.access)
  }

  ghost predicate Housed(ps: seq<Physical>, r: Request) {
    Proper(r) && exists i :: 0 <= i < |ps| && Inside(ps[i], r)
  }

  /** Seamless, with the accesses some request inside asks for. */
  ghost predicate RangeOk(p: Physical, rs: set<Request>) {
    && Seamless(p, rs)
    && (p.read <==> ReadWanted(p, rs))
    && (p.write <==> WriteWanted(p, rs))
  }

  /** What the physical ranges of a set of requests are. */
  ghost predicate IsMerge(ps: seq<Physical>, rs: set<Request>) {
    SortedDisjoint(ps) && AllHoused(ps, rs) && AllRangesOk(ps, rs)
  }

  ghost predicate AllHoused(ps: seq<Physical>, rs: set<Request>) {
    forall r {:trigger Housed(ps, r)} :: r in rs ==> Housed(ps, r)
  }

  ghost predicate AllRangesOk(ps: seq<Physical>, rs: set<Request>) {
    forall i {:trigger RangeOk(ps[i], rs)} :: 0 <= i < |ps| ==> RangeOk(ps[i], rs)
  }

  ghost function Elements(rs: seq<Request>): set<Request> {
    set r | r in rs
  }

  const BY_ADDRESS: Request -> int := (r: Request) => r.address

  lemma SeamlessStays(p: Physical, rs: set<Request>, r: Request)
    requires Seamless(p, rs)
    ensures Seamless(p, rs + {r})
  {
    var a :| a in rs && a.address == p.start;
    assert a in rs + {r};
    var b :| b in rs && Proper(b) && Last(b) == p.end;
    assert b in rs + {r};
    forall c | p.start < c <= p.end ensures Spanned(rs + {r}, c) {
      assert Spanned(rs, c);
      var q :| q in rs && Proper(q) && q.address < c <= Last(q);
      assert q in rs + {r};
    }
  }

  lemma FlagsStay(p: Physical, rs: set<Request>, r: Request)
    requires Proper(r) && !Inside(p, r)
    ensures ReadWanted(p, rs + {r}) == ReadWanted(p, rs)
    ensures WriteWanted(p, rs + {r}) == WriteWanted(p, rs)
  {
    assert forall q :: q in rs ==> q in rs + {r};
  }

  lemma OldRangeOk(p: Physical, rs: set<Request>, r: Request)
    requires RangeOk(p, rs) && Proper(r) && !Inside(p, r)
    ensures RangeOk(p, rs + {r})
  {
    SeamlessStays(p, rs, r);
    FlagsStay(p, rs, r);
  }

  lemma HousedStays(ps: seq<Physical>, ps': seq<Physical>, q: Request)
    requires Housed(ps, q) && |ps| <= |ps'|
    requires forall i :: 0 <= i < |ps| ==> ps'[i].start <= ps[i].start && ps[i].end <= ps'[i].end
    ensures Housed(ps', q)
  {
    var i :| 0 <= i < |ps| && Inside(ps[i], q);
    assert Inside(ps'[i], q);
  }

  /** A request behind everything so far starts a range of its own. */
  lemma NewRangeOk(ps: seq<Physical>, rs: set<Request>, r: Request)
    requires IsMerge(ps, rs) && Proper(r)
    requires ps != [] ==> ps[|ps| - 1].end < r.address
    ensures RangeOk(Physical(r.address, Last(r), Reads(r.access), Writes(r.access)), rs + {r})
  {
    var p := Physical(r.address, Last(r), Reads(r.access), Writes(r.access));
    assert r in rs + {r};
    forall c | p.start < c <= p.end ensures Spanned(rs + {r}, c) {
      assert r.address < c <= Last(r);
    }
    forall q | q in rs ensures Proper(q) && !Inside(p, q) {
      assert Housed(ps, q);
      var i :| 0 <= i < |ps| && Inside(ps[i], q);
      assert ps[i].end <= ps[|ps| - 1].end;
    }
  }

  /** Longer ranges, and one that holds the new request, house all. */
  lemma HousesAll(ps: seq<Physical>, ps': seq<Physical>, rs: set<Request>, r: Request, n: nat)
    requires AllHoused(ps, rs) && |ps| <= |ps'| && n < |ps'| && Proper(r) && Inside(ps'[n], r)
    requires forall i :: 0 <= i < |ps| ==> ps'[i].start <= ps[i].start && ps[i].end <= ps'[i].end
    ensures AllHoused(ps', rs + {r})
  {
    forall q | q in rs + {r} ensures Housed(ps', q) {
      if q in rs {
        assert Housed(ps, q);
        HousedStays(ps, ps', q);
      }
    }
  }

  /** Only range `n` is new or changed; the others do not hold the request. */
  lemma RangesStayOk(ps: seq<Physical>, ps': seq<Physical>, rs: set<Request>, r: Request, n: nat)
    requires AllRangesOk(ps, rs) && n < |ps'| && (|ps'| == |ps| || n == |ps| == |ps'| - 1)
    requires Proper(r) && RangeOk(ps'[n], rs + {r})
    requires forall i :: 0 <= i < |ps'| && i != n ==> ps'[i] == ps[i] && !Inside(ps'[i], r)
    ensures AllRangesOk(ps', rs + {r})
  {
    forall i | 0 <= i < |ps'| ensures RangeOk(ps'[i], rs + {r}) {
      if i != n {
        assert RangeOk(ps[i], rs);
        OldRangeOk(ps[i], rs, r);
      }
    }
  }

  lemma AbsorbNew(ps: seq<Physical>, rs: set<Request>, r: Request)
    requires IsMerge(ps, rs) && Proper(r)
    requires ps != [] ==> ps[|ps| - 1].end < r.address
    ensures IsMerge(ps + [Physical(r.address, Last(r), Reads(r.access), Writes(r.access))], rs + {r})
  {
    var ps' := ps + [Physical(r.address, Last(r), Reads(r.access), Writes(r.access))];
    NewRangeOk(ps, rs, r);
    assert forall i :: 0 <= i < |ps| ==> ps[i].end <= ps[|ps| - 1].end;
    HousesAll(ps, ps', rs, r, |ps|);
    RangesStayOk(ps, ps', rs, r, |ps|);
  }

  function Extended(p: Physical, r: Request): Physical
    requires Proper(r)
  {
    Physical(p.start, Max(p.end, Last(r)), p.read || Reads(r.access), p.write || Writes(r.access))
  }

  /** A request that meets the last range lengthens it. */
  lemma ExtendedOk(ps: seq<Physical>, rs: set<Request>, r: Request)
    requires IsMerge(ps, rs) && Proper(r) && ps != []
    requires ps[|ps| - 1].start <= r.address <= ps[|ps| - 1].end
    ensures RangeOk(Extended(ps[|ps| - 1], r), rs + {r})
  {
    var n := |ps| - 1;
    var p := ps[n];
    var p' := Extended(p, r);
    assert r in rs + {r} && Inside(p', r);
    assert RangeOk(p, rs);
    SeamlessStays(p, rs, r);
    if Last(r) > p.end {
      assert EndsAt(rs + {r}, p'.end);
      forall c | p'.start < c <= p'.end ensures Spanned(rs + {r}, c) {
        assert c > p.end ==> r.address < c <= Last(r);
      }
    }
    forall q | q in rs ensures Proper(q) && Inside(p', q) == Inside(p, q) {
      assert Housed(ps, q);
      var i :| 0 <= i < |ps| && Inside(ps[i], q);
      assert i < n ==> ps[i].end < ps[n].start;
    }
    if ReadWanted(p, rs) {
      var q :| q in rs && Proper(q) && Inside(p, q) && Reads(q.access);
      assert q in rs + {r} && Inside(p', q);
    }
    if WriteWanted(p, rs) {
      var q :| q in rs && Proper(q) && Inside(p, q) && Writes(q.access);
      assert q in rs + {r} && Inside(p', q);
    }
  }

  lemma AbsorbExtend(ps: seq<Physical>, rs: set<Request>, r: Request)
    requires IsMerge(ps, rs) && Proper(r) && ps != []
    requires ps[|ps| - 1].start <= r.address <= ps[|ps| - 1].end
    ensures IsMerge(ps[|ps| - 1 := Extended(ps[|ps| - 1], r)], rs + {r})
  {
    var n := |ps| - 1;
    var ps' := ps[n := Extended(ps[n], r)];
    ExtendedOk(ps, rs, r);
    assert forall i :: 0 <= i < n ==> ps[i].end < ps[n].start;
    HousesAll(ps, ps', rs, r, n);
    RangesStayOk(ps, ps', rs, r, n);
  }

  /** Absorbing a request whose address is not below the others. */
  lemma AbsorbKeeps(ps: seq<Physical>, rs: set<Request>, r: Request)
    requires IsMerge(ps, rs) && Proper(r) && forall q :: q in rs ==> q.address <= r.address
    ensures IsMerge(Absorb(ps, r), rs + {r})
  {
    if ps != [] {
      assert RangeOk(ps[|ps| - 1], rs);
    }
    if ps == [] || ps[|ps| - 1].end < r.address {
      AbsorbNew(ps, rs, r);
    } else {
      AbsorbExtend(ps, rs, r);
    }
  }

  lemma AddressesBelow(rs: seq<Request>, q: Request)
    requires SortedBy(BY_ADDRESS, rs) && rs != [] && q in rs
    ensures q.address <= rs[|rs| - 1].address
  {
    var i :| 0 <= i < |rs| && rs[i] == q;
    assert i < |rs| - 1 ==> BY_ADDRESS(rs[i]) <= BY_ADDRESS(rs[|rs| - 1]);
  }

  /** Merging requests sorted by address yields the merge of their set. */
  lemma {:induction false} MergeIsMerge(rs: seq<Request>)
    requires AllProper(rs) && SortedBy(BY_ADDRESS, rs)
    ensures IsMerge(Merge(rs), Elements(rs))
  {
    if rs != [] {
      var n := |rs| - 1;
      MergeIsMerge(rs[..n]);
      assert Elements(rs) == Elements(rs[..n]) + {rs[n]};
      forall q | q in Elements(rs[..n]) ensures q.address <= rs[n].address {
        AddressesBelow(rs, q);
      }
      AbsorbKeeps(Merge(rs[..n]), Elements(rs[..n]), rs[n]);
    }
  }

  // ---------------------------------------------------------- what follows

  ghost predicate ByteIn(start: int, end: int, b: int) {
    start <= b <= end
  }

  /** The ranges cover exactly the bytes of the requests. */
  lemma MergeCoversExactly(ps: seq<Physical>, rs: set<Request>, b: int)
    requires IsMerge(ps, rs)
    ensures (exists i :: 0 <= i < |ps| && ByteIn(ps[i].start, ps[i].end, b))
            <==> exists r :: r in rs && Proper(r) && ByteIn(r.address, Last(r), b)
  {
    if i :| 0 <= i < |ps| && ByteIn(ps[i].start, ps[i].end, b) {
      assert RangeOk(ps[i], rs);
      if b == ps[i].start {
        var r :| r in rs && r.address == b;
        assert Housed(ps, r);
        assert ByteIn(r.address, Last(r), b);
      } else {
        assert Spanned(rs, b);
        var r :| r in rs && Proper(r) && r.address < b <= Last(r);
        assert ByteIn(r.address, Last(r), b);
      }
    }
    if r :| r in rs && Proper(r) && ByteIn(r.address, Last(r), b) {
      assert Housed(ps, r);
      var i :| 0 <= i < |ps| && Inside(ps[i], r);
      assert ByteIn(ps[i].start, ps[i].end, b);
    }
  }

  /** Bytes of one range of a merge lie in that range only. */
  lemma SameRange(ps: seq<Physical>, i: nat, j: nat, b: int)
    requires SortedDisjoint(ps) && i < |ps| && j < |ps|
    requires ByteIn(ps[i].start, ps[i].end, b) && ByteIn(ps[j].start, ps[j].end, b)
    ensures i == j
  {
  }

  /** A request that holds a byte of a range lies in that range. */
  lemma LiesInside(ps: seq<Physical>, rs: set<Request>, i: nat, r: Request, b: int)
    requires IsMerge(ps, rs) && i < |ps| && r in rs && Proper(r)
    requires ByteIn(ps[i].start, ps[i].end, b) && ByteIn(r.address, Last(r), b)
    ensures Inside(ps[i], r)
  {
    assert Housed(ps, r);
    var j :| 0 <= j < |ps| && Inside(ps[j], r);
    SameRange(ps, i, j, b);
  }

  lemma NothingSpansEdges(ps: seq<Physical>, rs: set<Request>, i: nat)
    requires IsMerge(ps, rs) && i < |ps|
    ensures !Spanned(rs, ps[i].start) && !Spanned(rs, ps[i].end + 1)
  {
    forall r | r in rs && Proper(r)
      ensures !(r.address < ps[i].start <= Last(r)) && !(r.address < ps[i].end + 1 <= Last(r))
    {
      if ByteIn(r.address, Last(r), ps[i].start) {
        LiesInside(ps, rs, i, r, ps[i].start);
      }
      if ByteIn(r.address, Last(r), ps[i].end) {
        LiesInside(ps, rs, i, r, ps[i].end);
      }
    }
  }

  /** Every range of one merge is a range of any other. */
  lemma RangesAgree(ps: seq<Physical>, qs: seq<Physical>, rs: set<Request>, i: nat) returns (j: nat)
    requires IsMerge(ps, rs) && IsMerge(qs, rs) && i < |ps|
    ensures j < |qs| && qs[j] == ps[i]
  {
    var p := ps[i];
    assert RangeOk(p, rs);
    var r :| r in rs && r.address == p.start;
    assert Housed(qs, r);
    j :| 0 <= j < |qs| && Inside(qs[j], r);
    var q := qs[j];
    assert RangeOk(q, rs);
    NothingSpansEdges(ps, rs, i);
    NothingSpansEdges(qs, rs, j);
    assert q.start < p.start ==> Spanned(rs, p.start);
    assert q.end > p.end ==> Spanned(rs, p.end + 1);
    assert q.end < p.end ==> Spanned(rs, q.end + 1);
    assert forall x: Request :: Proper(x) ==> Inside(p, x) == Inside(q, x);
    assert ReadWanted(p, rs) == ReadWanted(q, rs) && WriteWanted(p, rs) == WriteWanted(q, rs);
  }

  lemma {:induction false} SameRangesSameList(ps: seq<Physical>, qs: seq<Physical>)
    requires SortedDisjoint(ps) && SortedDisjoint(qs) && forall p :: p in ps <==> p in qs
    ensures ps == qs
  {
    assert qs != [] ==> qs[0] in qs;
    if ps != [] {
      assert ps[0] in ps;
      var j :| 0 <= j < |qs| && qs[j] == ps[0];
      assert qs[0] in qs;
      var i :| 0 <= i < |ps| && ps[i] == qs[0];
      assert i == 0 && j == 0;
      forall p ensures p in ps[1..] <==> p in qs[1..] {
        TailMembers(ps, p);
        TailMembers(qs, p);
      }
      SameRangesSameList(ps[1..], qs[1..]);
    }
  }

  lemma TailMembers(ps: seq<Physical>, p: Physical)
    requires SortedDisjoint(ps) && ps != []
    ensures p in ps[1..] <==> p in ps && p != ps[0]
  {
    if p in ps[1..] {
      var i :| 0 <= i < |ps[1..]| && ps[1..][i] == p;
      assert ps[i + 1] == p;
    }
    if p in ps && p != ps[0] {
      var i :| 0 <= i < |ps| && ps[i] == p;
      assert ps[1..][i - 1] == p;
    }
  }

  /** The merge of a set of requests is unique: it does not depend on the order
      of the requests, nor on how ties in the sort are broken. */
  lemma MergeIsCanonical(ps: seq<Physical>, qs: seq<Physical>, rs: set<Request>)
    requires IsMerge(ps, rs) && IsMerge(qs, rs)
    ensures ps == qs
  {
    forall p | p in ps ensures p in qs {
      var i :| 0 <= i < |ps| && ps[i] == p;
      var j := RangesAgree(ps, qs, rs, i);
    }
    forall q | q in qs ensures q in ps {
      var i :| 0 <= i < |qs| && qs[i] == q;
      var j := RangesAgree(qs, ps, rs, i);
    }
    SameRangesSameList(ps, qs);
  }

  // ------------------------------------------------------ connected components

  predicate Touch(a: Request, b: Request)
    requires Proper(a) && Proper(b)
  {
    Overlaps(a.address, Last(a), b.address, Last(b))
  }

  ghost predicate IsPath(rs: set<Request>, path: seq<Request>) {
    && path != []
    && (forall r :: r in path ==> r in rs && Proper(r))
    && (forall i :: 0 < i < |path| ==> Touch(path[i - 1], path[i]))
  }

  /** Linked by a chain of overlapping requests. */
  ghost predicate Linked(rs: set<Request>, a: Request, b: Request) {
    exists path: seq<Request> :: IsPath(rs, path) && path[0] == a && path[|path| - 1] == b
  }

  lemma {:induction false} PathStaysInside(ps: seq<Physical>, rs: set<Request>, i: nat, path: seq<Request>)
    requires IsMerge(ps, rs) && i < |ps| && IsPath(rs, path) && Inside(ps[i], path[0])
    ensures Inside(ps[i], path[|path| - 1])
  {
    if |path| > 1 {
      var a, b := path[0], path[1];
      assert a in path && b in path && Touch(path[0], path[1]);
      LiesInside(ps, rs, i, b, if a.address < b.address then b.address else a.address);
      forall k | 0 < k < |path[1..]| ensures Touch(path[1..][k - 1], path[1..][k]) {
        assert Touch(path[k], path[k + 1]);
      }
      PathStaysInside(ps, rs, i, path[1..]);
    }
  }

  lemma PathCons(rs: set<Request>, a: Request, path: seq<Request>)
    requires IsPath(rs, path) && a in rs && Proper(a) && Touch(a, path[0])
    ensures IsPath(rs, [a] + path)
  {
  }

  /** Inside one range a chain leads from each request to every later one. */
  lemma {:induction false} Chain(ps: seq<Physical>, rs: set<Request>, i: nat, a: Request, b: Request)
    returns (path: seq<Request>)
    requires IsMerge(ps, rs) && i < |ps| && a in rs && b in rs && Proper(a) && Proper(b)
    requires Inside(ps[i], a) && Inside(ps[i], b) && a.address <= b.address
    ensures IsPath(rs, path) && path[0] == a && path[|path| - 1] == b
    decreases b.address - Last(a) + 0x1_0000_0000
  {
    if b.address <= Last(a) {
      path := [a, b];
    } else {
      assert RangeOk(ps[i], rs);
      assert Spanned(rs, Last(a) + 1);
      var r :| r in rs && Proper(r) && r.address < Last(a) + 1 <= Last(r);
      assert ByteIn(ps[i].start, ps[i].end, Last(a)) && ByteIn(r.address, Last(r), Last(a));
      LiesInside(ps, rs, i, r, Last(a));
      path := Chain(ps, rs, i, r, b);
      PathCons(rs, a, path);
      path := [a] + path;
    }
  }

  function Backwards(path: seq<Request>): (back: seq<Request>)
    ensures |back| == |path|
  {
    seq(|path|, i requires 0 <= i < |path| => path[|path| - 1 - i])
  }

  lemma BackwardsIsPath(rs: set<Request>, path: seq<Request>)
    requires IsPath(rs, path)
    ensures IsPath(rs, Backwards(path))
  {
    var back := Backwards(path);
    forall i | 0 < i < |back| ensures Touch(back[i - 1], back[i]) {
      assert Touch(path[|path| - 1 - i], path[|path| - i]);
    }
  }

  /** The physical ranges are the connected components of the overlap relation. */
  lemma RangesAreComponents(ps: seq<Physical>, rs: set<Request>, a: Request, b: Request)
    requires IsMerge(ps, rs) && a in rs && b in rs && Proper(a) && Proper(b)
    ensures (exists i :: 0 <= i < |ps| && Inside(ps[i], a) && Inside(ps[i], b)) <==> Linked(rs, a, b)
  {
    if i :| 0 <= i < |ps| && Inside(ps[i], a) && Inside(ps[i], b) {
      if a.address <= b.address {
        var path := Chain(ps, rs, i, a, b);
      } else {
        var path := Chain(ps, rs, i, b, a);
        BackwardsIsPath(rs, path);
        assert Backwards(path)[0] == a && Backwards(path)[|path| - 1] == b;
      }
    }
    if path: seq<Request> :| IsPath(rs, path) && path[0] == a && path[|path| - 1] == b {
      assert Housed(ps, a);
      var i :| 0 <= i < |ps| && Inside(ps[i], a);
      PathStaysInside(ps, rs, i, path);
    }
  }
}
