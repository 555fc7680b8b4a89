/** The registry of watchpoint requests over time. */
module WatchpointRegistry {
  import opened Sorting
  import opened Words
  import opened Watchpoints
  import opened WatchpointPlanner

  ghost predicate OwnersDiffer(rs: seq<Request>) {
    forall i, j :: 0 <= i < j < |rs| ==> rs[i].owner != rs[j].owner
  }

  /** The requests are those of the map, one per owner. */
  ghost predicate Lists(rs: seq<Request>, latest: map<Owner, Request>) {
    && OwnersDiffer(rs)
    && (forall r :: r in rs ==> r.owner in latest && latest[r.owner] == r)
    && (forall o :: o in latest ==> latest[o].owner == o && latest[o] in rs)
  }

  lemma NotListed(rs: seq<Request>, latest: map<Owner, Request>, owner: Owner)
    requires Lists(rs, latest) && forall k :: 0 <= k < |rs| ==> rs[k].owner != owner
    ensures owner !in latest
  {
    assert forall r :: r in rs ==> r.owner != owner;
  }

  // ------------------------------------------------------ one binding each

  lemma {:induction false} AtMostOnce<T>(s: seq<T>, x: T)
    requires forall i, j :: 0 <= i < j < |s| ==> s[i] != s[j]
    ensures multiset(s)[x] <= 1
  {
    if s != [] {
      AtMostOnce(s[1..], x);
      assert s == [s[0]] + s[1..];
      if x == s[0] {
        assert x !in s[1..];
      }
    }
  }

  lemma AtLeastTwice<T>(s: seq<T>, i: nat, j: nat)
    requires i < j < |s| && s[i] == s[j]
    ensures multiset(s)[s[i]] >= 2
  {
    assert s == s[..j] + [s[j]] + s[j + 1..];
    assert s[i] in s[..j] by { assert s[..j][i] == s[i]; }
    assert multiset(s) == multiset(s[..j]) + multiset{s[j]} + multiset(s[j + 1..]);
  }

  lemma KeyAt<T, K>(key: T -> K, xs: seq<T>, i: nat)
    requires i < |xs|
    ensures key(xs[i]) in multiset(Keys(key, xs)) && Keys(key, xs)[i] == key(xs[i])
  {
    assert Keys(key, xs)[i] in Keys(key, xs);
  }

  /** Without foreign ranges, proper requests are all owned. */
  lemma {:induction false} AllOwned(rs: seq<Request>)
    requires AllProper(rs)
    ensures Failing([], rs) == []
  {
    if rs != [] {
      AllOwned(rs[..|rs| - 1]);
    }
  }

  ghost predicate BindsOnce(bs: seq<Binding>, ps: seq<Physical>, latest: map<Owner, Request>) {
    && (forall i, j :: 0 <= i < j < |bs| ==> bs[i].owner != bs[j].owner)
    && (forall o :: o in latest ==> exists i :: 0 <= i < |bs| && bs[i].owner == o)
    && (forall b :: b in bs ==> b.owner in latest && Binds(b, latest[b.owner], [], ps))
  }

  lemma TicketsAgree(rs: seq<Request>)
    requires AllProper(rs)
    ensures multiset(Keys(REQUEST_TICKET, rs)) == multiset(Keys(BINDING_TICKET, PlanOf(rs, []).bindings))
  {
    EveryRequestIsAnswered(rs, []);
    AllOwned(rs);
    assert Keys(FAILURE_TICKET, PlanOf(rs, []).failures) == [];
  }

  lemma BindingHasRequest(rs: seq<Request>, latest: map<Owner, Request>, b: Binding)
    requires Lists(rs, latest) && b in PlanOf(rs, []).bindings
    ensures b.owner in latest && Binds(b, latest[b.owner], [], PlanOf(rs, []).physical)
  {
    BindingsCover(rs, [], b);
    var r :| r in rs && Binds(b, r, [], PlanOf(rs, []).physical);
    assert r.owner == b.owner;
  }

  lemma BindingOwnersDiffer(rs: seq<Request>, latest: map<Owner, Request>, i: nat, j: nat)
    requires AllProper(rs) && Lists(rs, latest) && i < j < |PlanOf(rs, []).bindings|
    ensures PlanOf(rs, []).bindings[i].owner != PlanOf(rs, []).bindings[j].owner
  {
    var bs := PlanOf(rs, []).bindings;
    TicketsAgree(rs);
    BindingHasRequest(rs, latest, bs[i]);
    BindingHasRequest(rs, latest, bs[j]);
    var tickets := Keys(REQUEST_TICKET, rs);
    forall m, n | 0 <= m < n < |tickets| ensures tickets[m] != tickets[n] {
      assert tickets[m].owner == rs[m].owner && tickets[n].owner == rs[n].owner;
    }
    KeyAt(BINDING_TICKET, bs, i);
    KeyAt(BINDING_TICKET, bs, j);
    AtMostOnce(tickets, BINDING_TICKET(bs[i]));
    if BINDING_TICKET(bs[i]) == BINDING_TICKET(bs[j]) {
      AtLeastTwice(Keys(BINDING_TICKET, bs), i, j);
    }
  }

  lemma KeyIndex<T, K>(key: T -> K, xs: seq<T>, k: K) returns (i: nat)
    requires k in multiset(Keys(key, xs))
    ensures i < |xs| && key(xs[i]) == k
  {
    assert k in Keys(key, xs);
    i :| 0 <= i < |xs| && Keys(key, xs)[i] == k;
  }

  lemma OwnerIsBound(rs: seq<Request>, latest: map<Owner, Request>, o: Owner)
    requires AllProper(rs) && Lists(rs, latest) && o in latest
    ensures exists i :: 0 <= i < |PlanOf(rs, []).bindings| && PlanOf(rs, []).bindings[i].owner == o
  {
    TicketsAgree(rs);
    var n :| 0 <= n < |rs| && rs[n] == latest[o];
    KeyAt(REQUEST_TICKET, rs, n);
    var i := KeyIndex(BINDING_TICKET, PlanOf(rs, []).bindings, REQUEST_TICKET(rs[n]));
    assert PlanOf(rs, []).bindings[i].owner == o;
  }

  /** A plan without foreign ranges binds every owner once, and covers its range
      with its generation. */
  lemma PlanBindsOnce(rs: seq<Request>, latest: map<Owner, Request>)
    requires AllProper(rs) && Lists(rs, latest)
    ensures PlanOf(rs, []).failures == []
    ensures BindsOnce(PlanOf(rs, []).bindings, PlanOf(rs, []).physical, latest)
  {
    AllOwned(rs);
    var bs := PlanOf(rs, []).bindings;
    forall i, j | 0 <= i < j < |bs| ensures bs[i].owner != bs[j].owner {
      BindingOwnersDiffer(rs, latest, i, j);
    }
    forall o | o in latest ensures exists i :: 0 <= i < |bs| && bs[i].owner == o {
      OwnerIsBound(rs, latest, o);
    }
    forall b | b in bs ensures b.owner in latest && Binds(b, latest[b.owner], [], PlanOf(rs, []).physical) {
      BindingHasRequest(rs, latest, b);
    }
  }

  method PlanOwned(rs: seq<Request>, ghost latest: map<Owner, Request>) returns (plan: Plan)
    requires AllProper(rs) && Lists(rs, latest)
    ensures plan == PlanOf(rs, []) && plan.failures == [] && BindsOnce(plan.bindings, plan.physical, latest)
  {
    plan := PlanBindings(rs, []);
    PlanBindsOnce(rs, latest);
  }

  // ---------------------------------------------------------------- sessions

  datatype Call =
    | UpsertCall(request: Request)
    | ReleaseCall(owner: Owner)
    | ReleaseKindCall(kind: OwnerKind)
    | ClearCall
    | ReconcileCall(unmanaged: seq<ForeignRange>)
    | ReleaseAllCall

  /** What is requested, the next generation, and what the bindings stand for. */
  datatype Session = Session(latest: map<Owner, Request>, next: u64, bound: map<Owner, Request>)

  function Apply(s: Session, c: Call): Session {
    match c
    case UpsertCall(r) =>
      if Proper(r) then s.(latest := s.latest[r.owner := r.(generation := s.next)], next := (s.next + 1) % TWO_64)
      else s
    case ReleaseCall(owner) => s.(latest := s.latest - {owner})
    case ReleaseKindCall(kind) => s.(latest := map o | o in s.latest && o.kind != kind :: s.latest[o])
    case ClearCall => s.(latest := map[])
    case ReconcileCall(unmanaged) => if unmanaged == [] then s.(bound := s.latest) else s
    case ReleaseAllCall => s.(latest := map[], bound := map[])
  }

  function After(calls: seq<Call>): Session {
    if calls == [] then Session(map[], 1, map[]) else Apply(After(calls[..|calls| - 1]), calls[|calls| - 1])
  }

  /** The call says what is requested for this owner from now on. */
  predicate Decides(c: Call, o: Owner) {
    match c
    case UpsertCall(r) => Proper(r) && r.owner == o
    case ReleaseCall(owner) => owner == o
    case ReleaseKindCall(kind) => kind == o.kind
    case ClearCall => true
    case ReconcileCall(_) => false
    case ReleaseAllCall => true
  }

  function Upserts(calls: seq<Call>): nat {
    if calls == [] then 0
    else
      var c := calls[|calls| - 1];
      Upserts(calls[..|calls| - 1]) + (if c.UpsertCall? && Proper(c.request) then 1 else 0)
  }

  lemma {:induction false} GenerationsCount(calls: seq<Call>)
    ensures After(calls).next == (1 + Upserts(calls)) % TWO_64
  {
    if calls != [] {
      GenerationsCount(calls[..|calls| - 1]);
    }
  }

  lemma {:induction false} UndecidedIsAbsent(calls: seq<Call>, o: Owner)
    requires forall i :: 0 <= i < |calls| ==> !Decides(calls[i], o)
    ensures o !in After(calls).latest
  {
    if calls != [] {
      UndecidedIsAbsent(calls[..|calls| - 1], o);
    }
  }

  /** After any calls, an owner is requested exactly if the last call that decides
      about it is an upsert; then its request is the one given there, and its
      generation counts the upserts up to there. */
  lemma {:induction false} LastCallDecides(calls: seq<Call>, o: Owner, i: nat)
    requires i < |calls| && Decides(calls[i], o) && forall j :: i < j < |calls| ==> !Decides(calls[j], o)
    ensures o in After(calls).latest <==> calls[i].UpsertCall?
    ensures calls[i].UpsertCall? ==>
              After(calls).latest[o] == calls[i].request.(generation := (1 + Upserts(calls[..i])) % TWO_64)
  {
    var front := calls[..|calls| - 1];
    if i == |calls| - 1 {
      GenerationsCount(front);
    } else {
      assert front[..i] == calls[..i];
      LastCallDecides(front, o, i);
    }
  }

  /** A whole session on the object: after any calls the bindings are, one for each
      owner, those of what was requested when reconcile last succeeded, with its
      latest range and generation; a failure is never left behind. */
  method RunSession(calls: seq<Call>) returns (r: Registry)
    ensures fresh(r) && r.Valid() && r.failures == []
    ensures r.latest == After(calls).latest && r.nextGeneration == After(calls).next
    ensures BindsOnce(r.bindings, r.physical, After(calls).bound)
    ensures calls != [] && calls[|calls| - 1] == ReconcileCall([]) ==> BindsOnce(r.bindings, r.physical, r.latest)
  {
    r := new Registry();
    for i := 0 to |calls|
      invariant fresh(r) && r.Valid() && r.failures == []
      invariant r.latest == After(calls[..i]).latest && r.nextGeneration == After(calls[..i]).next
      invariant BindsOnce(r.bindings, r.physical, After(calls[..i]).bound)
    {
      assert calls[..i + 1][..i] == calls[..i];
      MakeCall(r, calls[i], After(calls[..i]));
    }
    assert calls[..|calls|] == calls;
  }

  method MakeCall(r: Registry, c: Call, ghost s: Session)
    requires r.Valid() && r.failures == [] && r.latest == s.latest && r.nextGeneration == s.next
    requires BindsOnce(r.bindings, r.physical, s.bound)
    modifies r
    ensures r.Valid() && r.failures == [] && r.latest == Apply(s, c).latest && r.nextGeneration == Apply(s, c).next
    ensures BindsOnce(r.bindings, r.physical, Apply(s, c).bound)
  {
    var ok: bool;
    match c {
      case UpsertCall(request) => ok := r.Upsert(request);
      case ReleaseCall(owner) => ok := r.Release(owner);
      case ReleaseKindCall(kind) => ok := r.ReleaseKind(kind);
      case ClearCall => r.ClearRequests();
      case ReconcileCall(unmanaged) => ok := r.Reconcile(unmanaged);
      case ReleaseAllCall => r.ReleaseAll();
    }
  }

  // --------------------------------------------------------------- the object

  class Registry {
    var requests: seq<Request>
    var physical: seq<Physical>
    var bindings: seq<Binding>
    var failures: seq<Failure>
    var nextGeneration: u64

    /** The latest request of every owner. */
    ghost var latest: map<Owner, Request>

    ghost predicate Valid()
      reads this
    {
      AllProper(requests) && Lists(requests, latest)
    }

    constructor ()
      ensures Valid() && latest == map[] && bindings == [] && physical == [] && failures == []
      ensures nextGeneration == 1
    {
      requests, physical, bindings, failures, nextGeneration := [], [], [], [], 1;
      latest := map[];
    }

    method Find(owner: Owner) returns (i: nat)
      requires Valid()
      ensures i <= |requests|
      ensures i < |requests| ==> requests[i].owner == owner && owner in latest
      ensures i == |requests| ==> owner !in latest
    {
      i := 0;
      while i < |requests| && requests[i].owner != owner
        invariant i <= |requests|
        invariant forall k :: 0 <= k < i ==> requests[k].owner != owner
      {
        i := i + 1;
      }
      assert i < |requests| ==> requests[i] in requests;
      if i == |requests| {
        NotListed(requests, latest, owner);
      }
    }

    method Upsert(request: Request) returns (ok: bool)
      requires Valid()
      modifies `requests, `nextGeneration, `latest
      ensures Valid() && ok == Proper(request)
      ensures ok ==> latest == old(latest)[request.owner := request.(generation := old(nextGeneration))]
      ensures ok ==> nextGeneration == (old(nextGeneration) + 1) % TWO_64
      ensures !ok ==> unchanged(this)
    {
      if RangeEnd(request.address, request.size).None? {
        return false;
      }
      var r := request.(generation := nextGeneration);
      nextGeneration := (nextGeneration + 1) % TWO_64;
      var i := Find(request.owner);
      if i == |requests| {
        requests := requests + [r];
      } else {
        requests := requests[i := r];
      }
      Replaced(old(requests), old(latest), r, i);
      latest := latest[request.owner := r];
      ok := true;
    }

    method Release(owner: Owner) returns (ok: bool)
      requires Valid()
      modifies `requests, `latest
      ensures Valid() && ok == (owner in old(latest))
      ensures latest == old(latest) - {owner}
    {
      var i := Find(owner);
      if i == |requests| {
        return false;
      }
      Erased(requests, latest, i);
      requests := requests[..i] + requests[i + 1..];
      latest := latest - {owner};
      ok := true;
    }

    method ReleaseKind(kind: OwnerKind) returns (ok: bool)
      requires Valid()
      modifies `requests, `latest
      ensures Valid()
      ensures latest == map o | o in old(latest) && o.kind != kind :: old(latest)[o]
      ensures ok == exists o :: o in old(latest) && o.kind == kind
    {
      var size := |requests|;
      KindErased(requests, latest, kind);
      requests := Select(OtherKind(kind), requests);
      latest := map o | o in latest && o.kind != kind :: latest[o];
      ok := |requests| != size;
    }

    method ClearRequests()
      modifies `requests, `latest
      ensures Valid() && latest == map[] && requests == []
    {
      requests, latest := [], map[];
    }

    /** Unmanaged ranges are refused and change nothing; otherwise every owner
        is bound once. */
    method Reconcile(unmanaged: seq<ForeignRange>) returns (ok: bool)
      requires Valid()
      modifies `physical, `bindings, `failures
      ensures Valid() && ok == (unmanaged == [])
      ensures !ok ==> unchanged(this)
      ensures ok ==> physical == PlanOf(requests, []).physical && failures == []
      ensures ok ==> BindsOnce(bindings, physical, latest)
    {
      if unmanaged != [] {
        return false;
      }
      var plan := PlanOwned(requests, latest);
      ok := plan.failures == [];
      if ok {
        physical, bindings, failures := plan.physical, plan.bindings, [];
      }
    }

    method ReleaseAll()
      modifies this
      ensures Valid() && latest == map[] && requests == [] && physical == [] && bindings == [] && failures == []
      ensures nextGeneration == old(nextGeneration)
    {
      requests, physical, bindings, failures, latest := [], [], [], [], map[];
    }

    method BindingFor(owner: Owner) returns (b: Option<Binding>)
      ensures b.Some? ==> b.value in bindings && b.value.owner == owner
      ensures b.None? ==> forall c :: c in bindings ==> c.owner != owner
    {
      for i := 0 to |bindings|
        invariant forall k :: 0 <= k < i ==> bindings[k].owner != owner
      {
        if bindings[i].owner == owner {
          return Some(bindings[i]);
        }
      }
      b := None;
    }
  }

  lemma Replaced(rs: seq<Request>, latest: map<Owner, Request>, r: Request, i: nat)
    requires AllProper(rs) && Lists(rs, latest) && Proper(r) && i <= |rs|
    requires i < |rs| ==> rs[i].owner == r.owner
    requires i == |rs| ==> r.owner !in latest
    ensures var rs' := if i == |rs| then rs + [r] else rs[i := r];
            AllProper(rs') && Lists(rs', latest[r.owner := r])
  {
    var rs', latest' := if i == |rs| then rs + [r] else rs[i := r], latest[r.owner := r];
    assert rs'[i] == r;
    forall k | 0 <= k < |rs'| && k != i ensures rs'[k] == rs[k] && rs'[k] in rs && rs'[k].owner != r.owner {
      assert rs[k] in rs;
    }
    forall o | o in latest' ensures latest'[o].owner == o && latest'[o] in rs' {
      if o != r.owner {
        var k :| 0 <= k < |rs| && rs[k] == latest[o];
        assert rs'[k] == rs[k];
      }
    }
  }

  lemma Erased(rs: seq<Request>, latest: map<Owner, Request>, i: nat)
    requires AllProper(rs) && Lists(rs, latest) && i < |rs|
    ensures var rs' := rs[..i] + rs[i + 1..]; AllProper(rs') && Lists(rs', latest - {rs[i].owner})
  {
    var rs', o := rs[..i] + rs[i + 1..], rs[i].owner;
    forall k | 0 <= k < |rs'| ensures rs'[k] in rs && rs'[k].owner != o {
      assert rs'[k] == if k < i then rs[k] else rs[k + 1];
    }
    assert forall r :: r in rs' ==> r in rs && r.owner != o;
    forall q | q in latest - {o} ensures (latest - {o})[q].owner == q && (latest - {o})[q] in rs' {
      var k :| 0 <= k < |rs| && rs[k] == latest[q];
      assert rs[k] in rs;
      assert k < i ==> rs'[k] == rs[k];
      assert k > i ==> rs'[k - 1] == rs[k];
    }
  }

  function OtherKind(kind: OwnerKind): Request -> bool {
    (r: Request) => r.owner.kind != kind
  }

  lemma {:induction false} SelectHas<T>(q: T -> bool, xs: seq<T>, x: T)
    ensures x in Select(q, xs) <==> x in xs && q(x)
  {
    if xs != [] {
      SelectHas(q, xs[1..], x);
      assert xs == [xs[0]] + xs[1..];
    }
  }

  lemma {:induction false} SelectDiffers(q: Request -> bool, rs: seq<Request>)
    requires OwnersDiffer(rs)
    ensures OwnersDiffer(Select(q, rs))
    ensures |Select(q, rs)| <= |rs|
    ensures |Select(q, rs)| == |rs| <==> forall r :: r in rs ==> q(r)
  {
    if rs != [] {
      SelectDiffers(q, rs[1..]);
      assert rs == [rs[0]] + rs[1..];
      var tail := Select(q, rs[1..]);
      forall k | 0 <= k < |tail| ensures tail[k].owner != rs[0].owner {
        SelectHas(q, rs[1..], tail[k]);
        assert tail[k] in tail;
        var n :| 0 <= n < |rs[1..]| && rs[1..][n] == tail[k];
        assert rs[n + 1] == tail[k];
      }
    }
  }

  lemma KindErased(rs: seq<Request>, latest: map<Owner, Request>, kind: OwnerKind)
    requires AllProper(rs) && Lists(rs, latest)
    ensures var rs' := Select(OtherKind(kind), rs);
            && AllProper(rs')
            && Lists(rs', map o | o in latest && o.kind != kind :: latest[o])
            && (|rs'| != |rs| <==> exists o :: o in latest && o.kind == kind)
  {
    var q := OtherKind(kind);
    SelectDiffers(q, rs);
    forall r ensures r in Select(q, rs) <==> r in rs && q(r) {
      SelectHas(q, rs, r);
    }
    if o :| o in latest && o.kind == kind {
      assert latest[o] in rs && !q(latest[o]);
    }
    if r :| r in rs && !q(r) {
      assert r.owner in latest && r.owner.kind == kind;
    }
  }
}
