/** Which answer a request gets, in terms of the bytes it asks for and the foreign
    ranges alone. */
module PlanAnswers {
  import opened Sorting
  import opened Words
  import opened Watchpoints
  import opened WatchpointPlanner

  /** No byte, or one beyond the 32-bit addresses. */
  ghost predicate Malformed(r: Request) {
    r.size == 0 || r.address + r.size > 0x1_0000_0000
  }

  /** The range holds every byte of the request. */
  ghost predicate HoldsAll(start: int, end: int, r: Request) {
    start <= r.address && r.address + r.size - 1 <= end
  }

  ghost predicate Carried(fs: seq<ForeignRange>, r: Request) {
    exists f :: f in fs && HoldsAll(f.start, f.end, r)
  }

  /** A foreign range that is not empty starts where the request starts. */
  ghost predicate Collides(fs: seq<ForeignRange>, r: Request) {
    exists f :: f in fs && StartsWith(f, r)
  }

  ghost predicate StartsWith(f: ForeignRange, r: Request) {
    f.start == r.address && r.address <= f.end
  }

  ghost predicate FailsWith(fs: seq<ForeignRange>, r: Request, reason: Reason) {
    match reason
    case InvalidRange => Malformed(r)
    case PartialSameStartForeignOverlap => !Malformed(r) && !Carried(fs, r) && Collides(fs, r)
  }

  ghost predicate FailureOf(x: Failure, r: Request, fs: seq<ForeignRange>) {
    x == Failure(r.owner, r.address, r.size, x.reason, r.generation) && FailsWith(fs, r, x.reason)
  }

  /** The foreign range at `i` holds the request, none is shorter, and no earlier one
      is as short. */
  ghost predicate CarriedBy(fs: seq<ForeignRange>, r: Request, i: int) {
    && 0 <= i < |fs| && HoldsAll(fs[i].start, fs[i].end, r)
    && forall j :: 0 <= j < |fs| && HoldsAll(fs[j].start, fs[j].end, r) ==>
         var a: int, b: int := fs[i].end - fs[i].start, fs[j].end - fs[j].start;
         a <= b && (a == b ==> i <= j)
  }

  /** One of the physical ranges holds the request and is the one bound. */
  ghost predicate HousedBy(x: Binding, r: Request, p: Physical) {
    HoldsAll(p.start, p.end, r) && p.start == x.physicalStart && p.end == x.physicalEnd
  }

  ghost predicate CarriesAt(x: Binding, r: Request, fs: seq<ForeignRange>, i: int) {
    CarriedBy(fs, r, i) && fs[i].start == x.physicalStart && fs[i].end == x.physicalEnd
  }

  ghost predicate BindingOf(x: Binding, r: Request, fs: seq<ForeignRange>, ps: seq<Physical>) {
    && !Malformed(r)
    && x == Binding(r.owner, r.address, r.size, x.physicalStart, x.physicalEnd, x.source, r.generation)
    && (if Carried(fs, r) then x.source == Foreign && exists i :: CarriesAt(x, r, fs, i)
        else !Collides(fs, r) && x.source == r.source && exists i :: 0 <= i < |ps| && HousedBy(x, r, ps[i]))
  }

  lemma VerdictInBytes(fs: seq<ForeignRange>, r: Request)
    ensures VerdictOf(fs, r) == Fails(InvalidRange) <==> FailsWith(fs, r, InvalidRange)
    ensures VerdictOf(fs, r) == Fails(PartialSameStartForeignOverlap)
       <==> FailsWith(fs, r, PartialSameStartForeignOverlap)
    ensures VerdictOf(fs, r).Rides? <==> !Malformed(r) && Carried(fs, r)
    ensures VerdictOf(fs, r).Rides? ==> exists i :: CarriedBy(fs, r, i) && VerdictOf(fs, r) == Rides(fs[i])
    ensures VerdictOf(fs, r).Owns? <==> !Malformed(r) && !Carried(fs, r) && !Collides(fs, r)
  {
    if Proper(r) {
      BestIndexIsBest(fs, r, |fs|);
      assert fs[..|fs|] == fs;
      assert forall f :: f in fs ==> (HoldsAll(f.start, f.end, r) <==> CoversRequest(f, r));
      assert forall f :: f in fs ==> (StartsWith(f, r) <==> SameStart(f, r));
      var best := BestIndex(fs, r, |fs|);
      if best.Some? {
        assert fs[best.value] in fs;
        assert CarriedBy(fs, r, best.value);
      }
    }
  }

  /** What is merged is what is left. */
  lemma OwnedAreTheRest(rs: seq<Request>, fs: seq<ForeignRange>, r: Request)
    ensures r in OwnedSet(fs, rs) <==> r in rs && !Malformed(r) && !Carried(fs, r) && !Collides(fs, r)
  {
    VerdictInBytes(fs, r);
  }

  lemma {:induction false} FailingAre(fs: seq<ForeignRange>, rs: seq<Request>, x: Failure)
    ensures x in Failing(fs, rs) <==> exists r :: r in rs && FailureOf(x, r, fs)
  {
    if rs != [] {
      var n := |rs| - 1;
      FailingAre(fs, rs[..n], x);
      VerdictInBytes(fs, rs[n]);
      assert rs == rs[..n] + [rs[n]];
      assert x in Failing(fs, rs) <==> x in Failing(fs, rs[..n]) || FailureOf(x, rs[n], fs);
    }
  }

  /** The failures of a plan are exactly these. */
  lemma FailuresAreExact(rs: seq<Request>, fs: seq<ForeignRange>, x: Failure)
    ensures x in PlanOf(rs, fs).failures <==> exists r :: r in rs && FailureOf(x, r, fs)
  {
    FailingAre(fs, rs, x);
  }

  ghost predicate CarriedOne(x: Binding, r: Request, fs: seq<ForeignRange>) {
    Carried(fs, r) && BindingOf(x, r, fs, [])
  }

  lemma CarriedOneRides(x: Binding, r: Request, fs: seq<ForeignRange>)
    ensures CarriedOne(x, r, fs) <==> VerdictOf(fs, r).Rides? && x == Ride(r, VerdictOf(fs, r).range)
  {
    VerdictInBytes(fs, r);
    if VerdictOf(fs, r).Rides? {
      var i :| CarriedBy(fs, r, i) && VerdictOf(fs, r) == Rides(fs[i]);
      if CarriedOne(x, r, fs) {
        var j :| CarriesAt(x, r, fs, j);
        assert CarriedBy(fs, r, j) && i == j;
      }
      if x == Ride(r, fs[i]) {
        assert CarriesAt(x, r, fs, i);
      }
    }
  }

  lemma {:induction false} RidingAre(fs: seq<ForeignRange>, rs: seq<Request>, x: Binding)
    ensures x in Riding(fs, rs) <==> exists r :: r in rs && CarriedOne(x, r, fs)
  {
    if rs != [] {
      var n := |rs| - 1;
      RidingAre(fs, rs[..n], x);
      CarriedOneRides(x, rs[n], fs);
      assert rs == rs[..n] + [rs[n]];
    }
  }

  ghost predicate HousedOne(x: Binding, r: Request, ps: seq<Physical>) {
    && x == Binding(r.owner, r.address, r.size, x.physicalStart, x.physicalEnd, r.source, r.generation)
    && exists i :: 0 <= i < |ps| && HousedBy(x, r, ps[i])
  }

  /** One physical range at most holds a request. */
  lemma HouseIsOnly(ps: seq<Physical>, all: set<Request>, r: Request, i: nat, j: nat)
    requires IsMerge(ps, all) && Proper(r) && i < |ps| && j < |ps|
    requires HoldsAll(ps[i].start, ps[i].end, r) && HoldsAll(ps[j].start, ps[j].end, r)
    ensures i == j
  {
  }

  lemma BindIs(ps: seq<Physical>, all: set<Request>, r: Request, x: Binding)
    requires IsMerge(ps, all) && Proper(r)
    ensures x in Bind(ps, r) <==> HousedOne(x, r, ps)
  {
    var j := HouseOf(ps, r, 0);
    forall i | 0 <= i < |ps| && HoldsAll(ps[i].start, ps[i].end, r) ensures i == j {
      HouseIsOnly(ps, all, r, i, j);
    }
  }

  lemma {:induction false} OwnedBindingsAre(ps: seq<Physical>, all: set<Request>, rs: seq<Request>, x: Binding)
    requires IsMerge(ps, all) && AllProper(rs)
    ensures x in OwnedBindings(ps, rs) <==> exists r :: r in rs && HousedOne(x, r, ps)
  {
    if rs != [] {
      var n := |rs| - 1;
      OwnedBindingsAre(ps, all, rs[..n], x);
      BindIs(ps, all, rs[n], x);
      assert rs == rs[..n] + [rs[n]];
    }
  }

  /** The bindings of a plan are exactly these. */
  lemma BindingsAreExact(rs: seq<Request>, fs: seq<ForeignRange>, x: Binding)
    ensures var plan := PlanOf(rs, fs);
            x in plan.bindings <==> exists r :: r in rs && BindingOf(x, r, fs, plan.physical)
  {
    var owned, ps := OwnedInOrder(fs, rs), PlanOf(rs, fs).physical;
    PlanMerges(rs, fs);
    SortKeepsElements(BY_OWNER, Riding(fs, rs) + OwnedBindings(ps, owned), x);
    RidingAre(fs, rs, x);
    OwnedBindingsAre(ps, OwnedSet(fs, rs), owned, x);
    forall r | r in rs
      ensures BindingOf(x, r, fs, ps) <==> CarriedOne(x, r, fs) || (r in owned && HousedOne(x, r, ps))
    {
      VerdictInBytes(fs, r);
    }
  }

  /** They come by owner, profiles before control. */
  lemma BindingsAreByOwner(rs: seq<Request>, fs: seq<ForeignRange>, i: nat, j: nat)
    requires i < j < |PlanOf(rs, fs).bindings|
    ensures var a, b := PlanOf(rs, fs).bindings[i].owner, PlanOf(rs, fs).bindings[j].owner;
            (a.kind.ProfileOwner? && b.kind.ControlOwner?) || (a.kind == b.kind && a.index <= b.index)
  {
    var owned, ps := OwnedInOrder(fs, rs), PlanOf(rs, fs).physical;
    StableSortIsStable(BY_OWNER, Riding(fs, rs) + OwnedBindings(ps, owned), 0);
    var bs := PlanOf(rs, fs).bindings;
    assert BY_OWNER(bs[i]) <= BY_OWNER(bs[j]);
  }
}
