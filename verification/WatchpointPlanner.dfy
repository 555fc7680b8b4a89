/** The whole plan: every request is answered once, and what is owned is merged. */
module WatchpointPlanner {
  import opened Sorting
  import opened Words
  import opened Watchpoints

  datatype Verdict = Fails(reason: Reason) | Rides(range: ForeignRange) | Owns

  /** What becomes of a request, given the foreign ranges. */
  function VerdictOf(fs: seq<ForeignRange>, r: Request): Verdict {
    if !Proper(r) then Fails(InvalidRange)
    else match BestIndex(fs, r, |fs|)
      case Some(i) => Rides(fs[i])
      case None => if exists f :: f in fs && SameStart(f, r) then Fails(PartialSameStartForeignOverlap) else Owns
  }

  function Ride(r: Request, f: ForeignRange): Binding {
    Binding(r.owner, r.address, r.size, f.start, f.end, Foreign, r.generation)
  }

  function Fail(r: Request, reason: Reason): Failure {
    Failure(r.owner, r.address, r.size, reason, r.generation)
  }

  function Riding(fs: seq<ForeignRange>, rs: seq<Request>): seq<Binding> {
    if rs == [] then []
    else
      var r := rs[|rs| - 1];
      Riding(fs, rs[..|rs| - 1])
      + (match VerdictOf(fs, r) case Rides(f) => [Ride(r, f)] case _ => [])
  }

  function Failing(fs: seq<ForeignRange>, rs: seq<Request>): seq<Failure> {
    if rs == [] then []
    else
      var r := rs[|rs| - 1];
      Failing(fs, rs[..|rs| - 1])
      + (match VerdictOf(fs, r) case Fails(reason) => [Fail(r, reason)] case _ => [])
  }

  function Owning(fs: seq<ForeignRange>, rs: seq<Request>): (owned: seq<Request>)
    ensures forall r :: r in owned <==> r in rs && VerdictOf(fs, r).Owns?
  {
    if rs == [] then []
    else
      var r := rs[|rs| - 1];
      Owning(fs, rs[..|rs| - 1]) + (if VerdictOf(fs, r).Owns? then [r] else [])
  }

  function OwnedInOrder(fs: seq<ForeignRange>, rs: seq<Request>): (owned: seq<Request>)
    ensures AllProper(owned) && SortedBy(BY_ADDRESS, owned)
    ensures forall r :: r in owned <==> r in rs && VerdictOf(fs, r).Owns?
  {
    StableSortIsStable(BY_ADDRESS, Owning(fs, rs), 0);
    assert forall r :: r in StableSort(BY_ADDRESS, Owning(fs, rs)) <==> r in Owning(fs, rs) by {
      forall r ensures r in StableSort(BY_ADDRESS, Owning(fs, rs)) <==> r in Owning(fs, rs) {
        SortKeepsElements(BY_ADDRESS, Owning(fs, rs), r);
      }
    }
    StableSort(BY_ADDRESS, Owning(fs, rs))
  }

  /** The first physical range from `i` on that covers a request. */
  function HouseOf(ps: seq<Physical>, r: Request, i: nat): (j: nat)
    requires Proper(r) && i <= |ps|
    ensures i <= j <= |ps|
    ensures j < |ps| ==> Inside(ps[j], r)
    ensures j == |ps| ==> forall k :: i <= k < |ps| ==> !Inside(ps[k], r)
    decreases |ps| - i
  {
    if i == |ps| || Inside(ps[i], r) then i else HouseOf(ps, r, i + 1)
  }

  function Bind(ps: seq<Physical>, r: Request): seq<Binding>
    requires Proper(r)
  {
    var j := HouseOf(ps, r, 0);
    if j == |ps| then []
    else [Binding(r.owner, r.address, r.size, ps[j].start, ps[j].end, r.source, r.generation)]
  }

  function OwnedBindings(ps: seq<Physical>, rs: seq<Request>): seq<Binding>
    requires AllProper(rs)
  {
    if rs == [] then [] else OwnedBindings(ps, rs[..|rs| - 1]) + Bind(ps, rs[|rs| - 1])
  }

  function OwnerRank(o: Owner): int {
    (if o.kind.ProfileOwner? then 0x1_0000_0000 else 0x2_0000_0000) + o.index
  }

  const BY_OWNER: Binding -> int := (b: Binding) => OwnerRank(b.owner)

  function PlanOf(rs: seq<Request>, fs: seq<ForeignRange>): Plan {
    var owned := OwnedInOrder(fs, rs);
    var ps := Merge(owned);
    Plan(ps, StableSort(BY_OWNER, Riding(fs, rs) + OwnedBindings(ps, owned)), Failing(fs, rs))
  }

  method FindHouse(ps: seq<Physical>, r: Request) returns (j: nat)
    requires Proper(r)
    ensures j == HouseOf(ps, r, 0)
  {
    j := 0;
    while j < |ps| && !Inside(ps[j], r)
      invariant j <= |ps| && HouseOf(ps, r, j) == HouseOf(ps, r, 0)
    {
      j := j + 1;
    }
  }

  method Classify(rs: seq<Request>, fs: seq<ForeignRange>)
    returns (bindings: seq<Binding>, failures: seq<Failure>, owned: seq<Request>)
    ensures bindings == Riding(fs, rs) && failures == Failing(fs, rs) && owned == Owning(fs, rs)
  {
    bindings, failures, owned := [], [], [];
    for n := 0 to |rs|
      invariant bindings == Riding(fs, rs[..n]) && failures == Failing(fs, rs[..n]) && owned == Owning(fs, rs[..n])
    {
      var r := rs[n];
      assert rs[..n + 1][..n] == rs[..n];
      if RangeEnd(r.address, r.size).None? {
        failures := failures + [Fail(r, InvalidRange)];
        continue;
      }
      var best := BestCover(fs, r);
      if best.Some? {
        bindings := bindings + [Ride(r, fs[best.value])];
        continue;
      }
      var sameStart := AnySameStart(fs, r);
      if sameStart {
        failures := failures + [Fail(r, PartialSameStartForeignOverlap)];
        continue;
      }
      owned := owned + [r];
    }
    assert rs[..|rs|] == rs;
  }

  method BindOwned(ps: seq<Physical>, owned: seq<Request>) returns (bindings: seq<Binding>)
    requires AllProper(owned)
    ensures bindings == OwnedBindings(ps, owned)
  {
    bindings := [];
    for n := 0 to |owned|
      invariant bindings == OwnedBindings(ps, owned[..n])
    {
      assert owned[..n + 1][..n] == owned[..n];
      var r := owned[n];
      var j := FindHouse(ps, r);
      if j < |ps| {
        bindings := bindings
          + [Binding(r.owner, r.address, r.size, ps[j].start, ps[j].end, r.source, r.generation)];
      }
    }
    assert owned[..|owned|] == owned;
  }

  method PlanBindings(rs: seq<Request>, fs: seq<ForeignRange>) returns (plan: Plan)
    ensures plan == PlanOf(rs, fs)
  {
    var riding, failures, requests := Classify(rs, fs);
    var owned := StableSort(BY_ADDRESS, requests);
    assert owned == OwnedInOrder(fs, rs);
    var ps := MergeLoop(owned);
    var bindings := BindOwned(ps, owned);
    plan := Plan(ps, StableSort(BY_OWNER, riding + bindings), failures);
  }

  // ---------------------------------------------------------------- theorems

  ghost function OwnedSet(fs: seq<ForeignRange>, rs: seq<Request>): set<Request> {
    set r | r in rs && VerdictOf(fs, r).Owns?
  }

  /** The physical ranges of a plan are the merge of the owned requests. */
  lemma PlanMerges(rs: seq<Request>, fs: seq<ForeignRange>)
    ensures IsMerge(PlanOf(rs, fs).physical, OwnedSet(fs, rs))
  {
    var owned := OwnedInOrder(fs, rs);
    MergeIsMerge(owned);
    assert Elements(owned) == OwnedSet(fs, rs);
  }

  /** They do not depend on the order of the requests. */
  lemma PlanIgnoresOrder(rs: seq<Request>, qs: seq<Request>, fs: seq<ForeignRange>)
    requires forall r :: r in rs <==> r in qs
    ensures PlanOf(rs, fs).physical == PlanOf(qs, fs).physical
  {
    PlanMerges(rs, fs);
    PlanMerges(qs, fs);
    assert OwnedSet(fs, rs) == OwnedSet(fs, qs);
    MergeIsCanonical(PlanOf(rs, fs).physical, PlanOf(qs, fs).physical, OwnedSet(fs, rs));
  }

  /** No owned range starts where a well-formed foreign range starts. */
  lemma ForeignStartsAreAvoided(rs: seq<Request>, fs: seq<ForeignRange>, i: nat, f: ForeignRange)
    requires i < |PlanOf(rs, fs).physical| && f in fs && f.start <= f.end
    ensures PlanOf(rs, fs).physical[i].start != f.start
  {
    PlanMerges(rs, fs);
    var ps := PlanOf(rs, fs).physical;
    assert RangeOk(ps[i], OwnedSet(fs, rs));
    var r :| r in OwnedSet(fs, rs) && r.address == ps[i].start;
    assert !SameStart(f, r);
  }

  /** What identifies a request in its answer. */
  datatype Ticket = Ticket(owner: Owner, address: u32, size: u32, generation: u64)

  const REQUEST_TICKET: Request -> Ticket := (r: Request) => Ticket(r.owner, r.address, r.size, r.generation)
  const BINDING_TICKET: Binding -> Ticket := (b: Binding) => Ticket(b.owner, b.address, b.size, b.generation)
  const FAILURE_TICKET: Failure -> Ticket := (f: Failure) => Ticket(f.owner, f.address, f.size, f.generation)

  lemma KeysSnoc<T, K>(key: T -> K, xs: seq<T>, x: T)
    ensures Keys(key, xs + [x]) == Keys(key, xs) + [key(x)]
    ensures multiset(Keys(key, xs + [x])) == multiset(Keys(key, xs)) + multiset{key(x)}
  {
    KeysJoin(key, xs, [x]);
    assert Keys(key, [x]) == [key(x)];
  }

  lemma AddedOnce<K>(a: multiset<K>, b: multiset<K>, c: multiset<K>, x: multiset<K>)
    ensures a + b + c + x == (a + x) + b + c
    ensures a + b + c + x == a + (b + x) + c
    ensures a + b + c + x == a + b + (c + x)
  {
  }

  lemma {:induction false} VerdictsSplit(fs: seq<ForeignRange>, rs: seq<Request>)
    ensures multiset(Keys(REQUEST_TICKET, rs))
         == multiset(Keys(BINDING_TICKET, Riding(fs, rs))) + multiset(Keys(FAILURE_TICKET, Failing(fs, rs)))
            + multiset(Keys(REQUEST_TICKET, Owning(fs, rs)))
  {
    if rs != [] {
      var n := |rs| - 1;
      VerdictsSplit(fs, rs[..n]);
      assert rs == rs[..n] + [rs[n]];
      KeysSnoc(REQUEST_TICKET, rs[..n], rs[n]);
      OneMoreVerdict(fs, rs[..n], rs[n]);
    }
  }

  lemma OneMoreVerdict(fs: seq<ForeignRange>, front: seq<Request>, r: Request)
    ensures multiset(Keys(BINDING_TICKET, Riding(fs, front + [r])))
            + multiset(Keys(FAILURE_TICKET, Failing(fs, front + [r])))
            + multiset(Keys(REQUEST_TICKET, Owning(fs, front + [r])))
         == multiset(Keys(BINDING_TICKET, Riding(fs, front))) + multiset(Keys(FAILURE_TICKET, Failing(fs, front)))
            + multiset(Keys(REQUEST_TICKET, Owning(fs, front))) + multiset{REQUEST_TICKET(r)}
  {
    assert (front + [r])[..|front|] == front;
    var a, b, c := Riding(fs, front), Failing(fs, front), Owning(fs, front);
    AddedOnce(multiset(Keys(BINDING_TICKET, a)), multiset(Keys(FAILURE_TICKET, b)),
              multiset(Keys(REQUEST_TICKET, c)), multiset{REQUEST_TICKET(r)});
    assert a + [] == a && b + [] == b && c + [] == c;
    match VerdictOf(fs, r)
    case Rides(f) => KeysSnoc(BINDING_TICKET, a, Ride(r, f));
    case Fails(reason) => KeysSnoc(FAILURE_TICKET, b, Fail(r, reason));
    case Owns => KeysSnoc(REQUEST_TICKET, c, r);
  }

  lemma {:induction false} OwnedAreBound(ps: seq<Physical>, rs: seq<Request>, all: set<Request>)
    requires AllProper(rs) && AllHoused(ps, all) && forall r :: r in rs ==> r in all
    ensures Keys(BINDING_TICKET, OwnedBindings(ps, rs)) == Keys(REQUEST_TICKET, rs)
  {
    if rs != [] {
      var n := |rs| - 1;
      var r := rs[n];
      OwnedAreBound(ps, rs[..n], all);
      assert Housed(ps, r);
      var j := HouseOf(ps, r, 0);
      var b := Binding(r.owner, r.address, r.size, ps[j].start, ps[j].end, r.source, r.generation);
      assert Bind(ps, r) == [b];
      KeysSnoc(BINDING_TICKET, OwnedBindings(ps, rs[..n]), b);
      assert rs == rs[..n] + [r];
      KeysSnoc(REQUEST_TICKET, rs[..n], r);
    }
  }

  /** Every request ends as exactly one binding or one failure. */
  lemma EveryRequestIsAnswered(rs: seq<Request>, fs: seq<ForeignRange>)
    ensures var plan := PlanOf(rs, fs);
            multiset(Keys(REQUEST_TICKET, rs))
            == multiset(Keys(BINDING_TICKET, plan.bindings)) + multiset(Keys(FAILURE_TICKET, plan.failures))
  {
    var owned, ps := OwnedInOrder(fs, rs), PlanOf(rs, fs).physical;
    PlanMerges(rs, fs);
    VerdictsSplit(fs, rs);
    OwnedAreBound(ps, owned, OwnedSet(fs, rs));
    KeysOfSort(BY_ADDRESS, REQUEST_TICKET, Owning(fs, rs));
    KeysJoin(BINDING_TICKET, Riding(fs, rs), OwnedBindings(ps, owned));
    KeysOfSort(BY_OWNER, BINDING_TICKET, Riding(fs, rs) + OwnedBindings(ps, owned));
  }

  /** A binding of request `r` covers it: with a shortest covering foreign range,
      or with the physical range that houses it. */
  ghost predicate Binds(b: Binding, r: Request, fs: seq<ForeignRange>, ps: seq<Physical>) {
    && Proper(r) && BINDING_TICKET(b) == REQUEST_TICKET(r)
    && Covers(b.physicalStart, b.physicalEnd, r.address, Last(r))
    && (|| (b.source == Foreign && VerdictOf(fs, r) == Rides(ForeignRange(b.physicalStart, b.physicalEnd)))
        || (&& b.source == r.source && VerdictOf(fs, r).Owns?
            && exists i :: 0 <= i < |ps| && ps[i].start == b.physicalStart && ps[i].end == b.physicalEnd))
  }

  lemma {:induction false} RidesBind(fs: seq<ForeignRange>, rs: seq<Request>, ps: seq<Physical>, b: Binding)
    requires b in Riding(fs, rs)
    ensures exists r :: r in rs && Binds(b, r, fs, ps)
  {
    var n := |rs| - 1;
    var r := rs[n];
    if b in Riding(fs, rs[..n]) {
      RidesBind(fs, rs[..n], ps, b);
      var q :| q in rs[..n] && Binds(b, q, fs, ps);
      assert q in rs;
    } else {
      BestIndexIsBest(fs, r, |fs|);
      assert fs[..|fs|] == fs;
      assert Binds(b, r, fs, ps);
    }
  }

  lemma {:induction false} OwnedBind(fs: seq<ForeignRange>, owned: seq<Request>, ps: seq<Physical>, b: Binding)
    requires AllProper(owned) && b in OwnedBindings(ps, owned)
    requires forall r :: r in owned ==> VerdictOf(fs, r).Owns?
    ensures exists r :: r in owned && Binds(b, r, fs, ps)
  {
    var n := |owned| - 1;
    var r := owned[n];
    if b in OwnedBindings(ps, owned[..n]) {
      OwnedBind(fs, owned[..n], ps, b);
      var q :| q in owned[..n] && Binds(b, q, fs, ps);
      assert q in owned;
    } else {
      var j := HouseOf(ps, r, 0);
      assert ps[j].start == b.physicalStart && ps[j].end == b.physicalEnd;
      assert Binds(b, r, fs, ps);
    }
  }

  /** Every binding of a plan binds one of its requests. */
  lemma BindingsCover(rs: seq<Request>, fs: seq<ForeignRange>, b: Binding)
    requires b in PlanOf(rs, fs).bindings
    ensures exists r :: r in rs && Binds(b, r, fs, PlanOf(rs, fs).physical)
  {
    var owned, ps := OwnedInOrder(fs, rs), PlanOf(rs, fs).physical;
    SortKeepsElements(BY_OWNER, Riding(fs, rs) + OwnedBindings(ps, owned), b);
    if b in Riding(fs, rs) {
      RidesBind(fs, rs, ps, b);
    } else {
      OwnedBind(fs, owned, ps, b);
      var r :| r in owned && Binds(b, r, fs, ps);
      assert r in rs;
    }
  }
}
