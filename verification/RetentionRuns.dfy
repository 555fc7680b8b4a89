/** What the retention policy does over whole runs: every recorder follows its
    windows, every last-N probe keeps its last events, nothing is lost twice. */
module RetentionRuns {
  import opened FlightWindows
  import opened CaptureRetention
  import opened Sorting
  import opened Words

  datatype Call = AcceptCall(event: Event) | TriggerAllCall(override: nat, sequence: nat)

  function Apply(p: Profile, r: Retained, c: Call): (o: Result)
    requires Fits(p, r)
    ensures Fits(p, o.state)
  {
    match c
    case AcceptCall(e) => AcceptEvent(p, r, e)
    case TriggerAllCall(override, sequence) => TriggerEvery(p, r, override, sequence)
  }

  function RunCalls(p: Profile, calls: seq<Call>): (o: Result)
    ensures Fits(p, o.state)
  {
    if calls == [] then Result(Fresh(p), [], [])
    else
      var before := RunCalls(p, calls[..|calls| - 1]);
      var o := Apply(p, before.state, calls[|calls| - 1]);
      Result(o.state, before.emitted + o.emitted, before.dropped + o.dropped)
  }

  /** No probe is a member of two recorders; the profile parser refuses others. */
  ghost predicate Disjoint(p: Profile) {
    forall i, j :: 0 <= i < |p.recorders| && 0 <= j < |p.recorders| && i != j ==>
      Apart(p.recorders[i].members, p.recorders[j].members)
  }

  ghost predicate Apart(xs: seq<string>, ys: seq<string>) {
    forall x :: x in xs ==> x !in ys
  }

  /** What a call means to one recorder. */
  function InputOf(p: Profile, d: Definition, c: Call): Input {
    match c
    case AcceptCall(e) => Arrival(e, IsMember(p, d, e), IsTrigger(p, d, e))
    case TriggerAllCall(override, sequence) => Forced(override, sequence)
  }

  function Inputs(p: Profile, d: Definition, calls: seq<Call>): (h: seq<Input>)
    ensures |h| == |calls|
  {
    seq(|calls|, i requires 0 <= i < |calls| => InputOf(p, d, calls[i]))
  }

  lemma InputsSnoc(p: Profile, d: Definition, calls: seq<Call>)
    requires calls != []
    ensures var front, last := calls[..|calls| - 1], calls[|calls| - 1];
            var h := Inputs(p, d, calls);
            h != [] && h[..|h| - 1] == Inputs(p, d, front) && h[|h| - 1] == InputOf(p, d, last)
  {
  }

  lemma OneRecorderOnly(p: Profile, e: Event, i: nat, j: nat)
    requires Disjoint(p) && i < |p.recorders| && j < |p.recorders|
    requires IsMember(p, p.recorders[i], e) && IsMember(p, p.recorders[j], e)
    ensures i == j
  {
    assert i != j ==> Apart(p.recorders[i].members, p.recorders[j].members);
  }

  lemma OnlyMember(p: Profile, e: Event, i: nat)
    requires Disjoint(p) && i < |p.recorders|
    ensures FirstMember(p, e, 0) == i <==> IsMember(p, p.recorders[i], e)
  {
    var j := FirstMember(p, e, 0);
    if IsMember(p, p.recorders[i], e) {
      OneRecorderOnly(p, e, i, j);
    }
  }

  /** Each recorder follows its own inputs. */
  lemma FlightFollows(p: Profile, r: Retained, c: Call, i: nat)
    requires Disjoint(p) && Fits(p, r) && i < |p.recorders|
    ensures Apply(p, r, c).state.flights[i] == Step(p.recorders[i], r.flights[i], InputOf(p, p.recorders[i], c)).flight
  {
    if c.AcceptCall? {
      OnlyMember(p, c.event, i);
    }
  }

  // --------------------------------------------------------- what comes out

  function MemberOf(p: Profile, d: Definition): Event -> bool {
    (e: Event) => IsMember(p, d, e)
  }

  ghost predicate OwnBuffers(p: Profile, r: Retained)
    requires Fits(p, r)
  {
    forall i, e :: 0 <= i < |r.flights| && e in r.flights[i].pre ==> IsMember(p, p.recorders[i], e)
  }

  ghost predicate EmitsMembers(p: Profile, k: nat, o: Outcome)
    requires k < |p.recorders|
  {
    forall e :: e in o.emitted ==> IsMember(p, p.recorders[k], e)
  }

  lemma SelectOther(p: Profile, i: nat, k: nat, o: Outcome)
    requires Disjoint(p) && i < |p.recorders| && k < |p.recorders| && EmitsMembers(p, k, o)
    ensures Select(MemberOf(p, p.recorders[i]), o.emitted) == if i == k then o.emitted else []
  {
    var q := MemberOf(p, p.recorders[i]);
    if i == k {
      SelectWhole(q, o.emitted);
    } else {
      assert Apart(p.recorders[k].members, p.recorders[i].members);
      SelectNone(q, o.emitted);
    }
  }

  /** Of what all recorders emit, one recorder's members are what it emits. */
  lemma {:induction false} EmittedMembers(p: Profile, os: seq<Outcome>, i: nat)
    requires Disjoint(p) && |os| <= |p.recorders| && i < |p.recorders|
    requires forall k :: 0 <= k < |os| ==> EmitsMembers(p, k, os[k])
    ensures Select(MemberOf(p, p.recorders[i]), EmittedBy(os)) == if i < |os| then os[i].emitted else []
  {
    if os != [] {
      var n := |os| - 1;
      EmittedMembers(p, os[..n], i);
      SelectJoin(MemberOf(p, p.recorders[i]), EmittedBy(os[..n]), os[n].emitted);
      SelectOther(p, i, n, os[n]);
    }
  }

  lemma AcceptEmits(p: Profile, r: Retained, e: Event, i: nat)
    requires Disjoint(p) && Fits(p, r) && OwnBuffers(p, r) && i < |p.recorders|
    ensures Select(MemberOf(p, p.recorders[i]), AcceptEvent(p, r, e).emitted)
         == Step(p.recorders[i], r.flights[i], InputOf(p, p.recorders[i], AcceptCall(e))).emitted
  {
    var os, q, d := Activations(p, r.flights, e), MemberOf(p, p.recorders[i]), p.recorders[i];
    EmittedMembers(p, os, i);
    OnlyMember(p, e, i);
    SelectOne(q, e);
    var j := FirstMember(p, e, 0);
    var rest := if j < |p.recorders| then Deliver(p.recorders[j], os[j].flight, e).emitted
                else if KeepsLast(p, e) then [] else [e];
    assert AcceptEvent(p, r, e).emitted == EmittedBy(os) + rest by {
      assert EmittedBy(os) + [] == EmittedBy(os);
    }
    SelectJoin(q, EmittedBy(os), rest);
    assert rest == [] || rest == [e];
    assert os[i] == ActivateFor(p, d, r.flights[i], e);
  }

  lemma CallEmits(p: Profile, r: Retained, c: Call, i: nat)
    requires Disjoint(p) && Fits(p, r) && OwnBuffers(p, r) && i < |p.recorders|
    ensures Select(MemberOf(p, p.recorders[i]), Apply(p, r, c).emitted)
         == Step(p.recorders[i], r.flights[i], InputOf(p, p.recorders[i], c)).emitted
  {
    match c
    case AcceptCall(e) => AcceptEmits(p, r, e, i);
    case TriggerAllCall(override, sequence) =>
      var os := ForcedActivations(p, r.flights, override, sequence);
      EmittedMembers(p, os, i);
  }

  lemma StepKeepsOwn(p: Profile, d: Definition, f: Flight, c: Call)
    requires forall e :: e in f.pre ==> IsMember(p, d, e)
    ensures forall e :: e in Step(d, f, InputOf(p, d, c)).flight.pre ==> IsMember(p, d, e)
  {
  }

  lemma BuffersStayOwn(p: Profile, r: Retained, c: Call)
    requires Disjoint(p) && Fits(p, r) && OwnBuffers(p, r)
    ensures OwnBuffers(p, Apply(p, r, c).state)
  {
    var r' := Apply(p, r, c).state;
    forall i | 0 <= i < |r'.flights|
      ensures forall e :: e in r'.flights[i].pre ==> IsMember(p, p.recorders[i], e)
    {
      FlightFollows(p, r, c, i);
      StepKeepsOwn(p, p.recorders[i], r.flights[i], c);
    }
  }

  /** In a whole run, each recorder's members come out as if it were alone. */
  lemma {:induction false} RecorderIsIndependent(p: Profile, calls: seq<Call>, i: nat)
    requires Disjoint(p) && i < |p.recorders|
    ensures OwnBuffers(p, RunCalls(p, calls).state)
    ensures var alone := Run(p.recorders[i], Inputs(p, p.recorders[i], calls));
            && RunCalls(p, calls).state.flights[i] == alone.flight
            && Select(MemberOf(p, p.recorders[i]), RunCalls(p, calls).emitted) == alone.emitted
  {
    if calls != [] {
      var front, c, d := calls[..|calls| - 1], calls[|calls| - 1], p.recorders[i];
      RecorderIsIndependent(p, front, i);
      var before := RunCalls(p, front);
      InputsSnoc(p, d, calls);
      FlightFollows(p, before.state, c, i);
      CallEmits(p, before.state, c, i);
      BuffersStayOwn(p, before.state, c);
      SelectJoin(MemberOf(p, d), before.emitted, Apply(p, before.state, c).emitted);
    }
  }

  ghost predicate DistinctAccepts(calls: seq<Call>) {
    && (forall i :: 0 <= i < |calls| ==> calls[i].AcceptCall?)
    && (forall i, j :: 0 <= i < j < |calls| ==>
          calls[i].event.captureSequence != calls[j].event.captureSequence)
  }

  /** The flight recorder equals its declarative window, forced triggers included:
      with disjoint members, and no later member that carries the sequence of a
      trigger, the members of a recorder that come out of the whole policy are,
      in order of arrival, exactly those some trigger wants. */
  lemma RecorderEmitsWantedMembers(p: Profile, calls: seq<Call>, i: nat)
    requires Disjoint(p) && i < |p.recorders| && Unambiguous(Inputs(p, p.recorders[i], calls))
    ensures var d := p.recorders[i];
            var l := History(d, Inputs(p, d, calls));
            && Select(MemberOf(p, d), RunCalls(p, calls).emitted) == Windowed(d.pre, l, |l.members|)
            && forall m: nat :: m < |l.members| ==> (InWindow(d.pre, l, m) <==> WantedBySome(d.pre, l, m))
  {
    RecorderIsIndependent(p, calls, i);
    UnambiguousRunEmitsWindows(p.recorders[i], Inputs(p, p.recorders[i], calls));
  }

  /** With distinct capture sequences these are the members near a trigger. */
  lemma RecorderEmitsNearTriggers(p: Profile, calls: seq<Call>, i: nat)
    requires Disjoint(p) && i < |p.recorders| && DistinctAccepts(calls)
    ensures var d := p.recorders[i];
            var l := History(d, Inputs(p, d, calls));
            && Select(MemberOf(p, d), RunCalls(p, calls).emitted) == Windowed(d.pre, l, |l.members|)
            && forall m: nat :: m < |l.members| ==>
                 (InWindow(d.pre, l, m) <==> NearSomeTrigger(d.pre, d.post, l, m))
  {
    RecorderIsIndependent(p, calls, i);
    DistinctRunEmitsNearTriggers(p.recorders[i], Inputs(p, p.recorders[i], calls));
  }

  // ------------------------------------------------------------ last-N probes

  function Accepted(calls: seq<Call>): seq<Event> {
    if calls == [] then []
    else Accepted(calls[..|calls| - 1])
         + (if calls[|calls| - 1].AcceptCall? then [calls[|calls| - 1].event] else [])
  }

  predicate InAnyRecorder(p: Profile, e: Event) {
    FirstMember(p, e, 0) < |p.recorders|
  }

  /** The events a last-N probe retains from. */
  function RetainedBy(p: Profile, j: nat): Event -> bool {
    (e: Event) => e.probeIndex == j && KeepsLast(p, e) && !InAnyRecorder(p, e)
  }

  function LastOf(s: seq<Event>, n: nat): seq<Event> {
    s[Excess(s, n)..]
  }

  lemma LastOfSnoc(s: seq<Event>, n: nat, e: Event)
    ensures LastOf(LastOf(s, n) + [e], n) == LastOf(s + [e], n)
  {
  }

  /** Each last-N probe holds the last n of the events that reached it. */
  lemma {:induction false} LastNHoldsLast(p: Profile, calls: seq<Call>, j: nat)
    requires j < |p.probes| && p.probes[j].sampling.LastN?
    ensures RunCalls(p, calls).state.lastN[j]
         == LastOf(Select(RetainedBy(p, j), Accepted(calls)), p.probes[j].sampling.n)
  {
    if calls != [] {
      var front, c, q := calls[..|calls| - 1], calls[|calls| - 1], RetainedBy(p, j);
      LastNHoldsLast(p, front, j);
      if c.AcceptCall? {
        SelectJoin(q, Accepted(front), [c.event]);
        SelectOne(q, c.event);
        LastOfSnoc(Select(q, Accepted(front)), p.probes[j].sampling.n, c.event);
        KeepsLastOf(p, RunCalls(p, front).state, c.event, j);
        assert Select(q, Accepted(front)) + [] == Select(q, Accepted(front));
      } else {
        assert Accepted(front) + [] == Accepted(front);
      }
    }
  }

  lemma KeepsLastOf(p: Profile, r: Retained, e: Event, j: nat)
    requires Fits(p, r) && j < |p.probes| && p.probes[j].sampling.LastN?
    ensures AcceptEvent(p, r, e).state.lastN[j]
         == if RetainedBy(p, j)(e) then LastOf(r.lastN[j] + [e], p.probes[j].sampling.n) else r.lastN[j]
  {
  }

  /** Other probes hold nothing for finish. */
  lemma {:induction false} OthersHoldNothing(p: Profile, calls: seq<Call>, j: nat)
    requires j < |p.probes| && !p.probes[j].sampling.LastN?
    ensures RunCalls(p, calls).state.lastN[j] == []
  {
    if calls != [] {
      OthersHoldNothing(p, calls[..|calls| - 1], j);
    }
  }

  /** What finish has to emit after a run: for each last-N probe the last n of the
      events that reached it, and nothing for the other probes. */
  function Kept(p: Profile, calls: seq<Call>): (kept: seq<seq<Event>>)
    ensures |kept| == |p.probes|
  {
    seq(|p.probes|, j requires 0 <= j < |p.probes| =>
      if p.probes[j].sampling.LastN?
      then LastOf(Select(RetainedBy(p, j), Accepted(calls)), p.probes[j].sampling.n) else [])
  }

  lemma BuffersAreKept(p: Profile, calls: seq<Call>)
    ensures RunCalls(p, calls).state.lastN == Kept(p, calls)
  {
    forall j | 0 <= j < |p.probes| ensures RunCalls(p, calls).state.lastN[j] == Kept(p, calls)[j] {
      if p.probes[j].sampling.LastN? {
        LastNHoldsLast(p, calls, j);
      } else {
        OthersHoldNothing(p, calls, j);
      }
    }
  }

  /** A whole session on the object: what comes out during the calls is what the
      run emits, and what finish adds is, in capture order, exactly the last n
      events of each last-N probe. */
  method RetainCapture(p: Profile, calls: seq<Call>) returns (out: seq<Event>, tail: seq<Event>)
    ensures out == RunCalls(p, calls).emitted
    ensures SortedBy(BY_SEQUENCE, tail) && multiset(tail) == multiset(Flat(Kept(p, calls)))
  {
    var w := new Retention(p);
    out := [];
    for i := 0 to |calls|
      invariant w.Valid() && w.profile == p
      invariant w.State() == RunCalls(p, calls[..i]).state && out == RunCalls(p, calls[..i]).emitted
    {
      assert calls[..i + 1][..i] == calls[..i];
      var more: seq<Event>;
      match calls[i] {
        case AcceptCall(e) => more := w.Accept(e);
        case TriggerAllCall(override, sequence) => more := w.TriggerAll(override, sequence);
      }
      out := out + more;
    }
    assert calls[..|calls|] == calls;
    BuffersAreKept(p, calls);
    tail := w.Finish();
  }

  function PassesThrough(p: Profile): Event -> bool {
    (e: Event) => !InAnyRecorder(p, e) && !KeepsLast(p, e)
  }

  lemma {:induction false} EmittedAreMembers(p: Profile, os: seq<Outcome>)
    requires |os| <= |p.recorders|
    requires forall k :: 0 <= k < |os| ==> EmitsMembers(p, k, os[k])
    ensures forall e :: e in EmittedBy(os) ==> InAnyRecorder(p, e)
  {
    if os != [] {
      EmittedAreMembers(p, os[..|os| - 1]);
      assert EmitsMembers(p, |os| - 1, os[|os| - 1]);
    }
  }

  /** Everything else is emitted at once, in order. */
  lemma {:induction false} OthersPassThrough(p: Profile, calls: seq<Call>)
    requires Disjoint(p)
    ensures OwnBuffers(p, RunCalls(p, calls).state)
    ensures Select(PassesThrough(p), RunCalls(p, calls).emitted) == Select(PassesThrough(p), Accepted(calls))
  {
    if calls != [] {
      var front, c, q := calls[..|calls| - 1], calls[|calls| - 1], PassesThrough(p);
      OthersPassThrough(p, front);
      var before := RunCalls(p, front);
      var o := Apply(p, before.state, c);
      BuffersStayOwn(p, before.state, c);
      SelectJoin(q, before.emitted, o.emitted);
      CallPasses(p, before.state, c);
      if c.AcceptCall? {
        SelectJoin(q, Accepted(front), [c.event]);
        SelectOne(q, c.event);
      } else {
        assert Accepted(front) + [] == Accepted(front);
        assert Select(q, before.emitted) + [] == Select(q, before.emitted);
      }
    }
  }

  lemma CallPasses(p: Profile, r: Retained, c: Call)
    requires Fits(p, r) && OwnBuffers(p, r)
    ensures Select(PassesThrough(p), Apply(p, r, c).emitted)
         == if c.AcceptCall? && PassesThrough(p)(c.event) then [c.event] else []
  {
    var q := PassesThrough(p);
    var os := if c.AcceptCall? then Activations(p, r.flights, c.event)
              else ForcedActivations(p, r.flights, c.override, c.sequence);
    EmittedAreMembers(p, os);
    SelectNone(q, EmittedBy(os));
    if c.AcceptCall? {
      var e, j := c.event, FirstMember(p, c.event, 0);
      var rest := if j < |p.recorders| then Deliver(p.recorders[j], os[j].flight, e).emitted
                  else if KeepsLast(p, e) then [] else [e];
      assert AcceptEvent(p, r, e).emitted == EmittedBy(os) + rest by {
        assert EmittedBy(os) + [] == EmittedBy(os);
      }
      SelectJoin(q, EmittedBy(os), rest);
      SelectOne(q, e);
    }
  }

  // ------------------------------------------------------------- conservation

  function PreBuffers(fs: seq<Flight>): (bs: seq<seq<Event>>)
    ensures |bs| == |fs|
  {
    seq(|fs|, i requires 0 <= i < |fs| => fs[i].pre)
  }

  function Held(r: Retained): seq<Event> {
    Flat(PreBuffers(r.flights)) + Flat(r.lastN)
  }

  ghost function Bag(xs: seq<seq<Event>>): multiset<Event> {
    if xs == [] then multiset{} else Bag(xs[..|xs| - 1]) + multiset(xs[|xs| - 1])
  }

  lemma {:induction false} BagOfFlat(xs: seq<seq<Event>>)
    ensures multiset(Flat(xs)) == Bag(xs)
  {
    if xs != [] {
      BagOfFlat(xs[..|xs| - 1]);
    }
  }

  lemma {:induction false} BagUpdate(xs: seq<seq<Event>>, i: nat, y: seq<Event>)
    requires i < |xs|
    ensures Bag(xs[i := y]) + multiset(xs[i]) == Bag(xs) + multiset(y)
  {
    var n, xs' := |xs| - 1, xs[i := y];
    if i == n {
      assert xs'[..n] == xs[..n];
      Swapped(Bag(xs[..n]), multiset(xs[n]), multiset(y));
    } else {
      BagUpdate(xs[..n], i, y);
      assert xs'[..n] == xs[..n][i := y];
      AddedToBoth(Bag(xs'[..n]), multiset(xs[i]), Bag(xs[..n]), multiset(y), multiset(xs[n]));
    }
  }

  lemma FlatUpdate(xs: seq<seq<Event>>, i: nat, y: seq<Event>)
    requires i < |xs|
    ensures multiset(Flat(xs[i := y])) + multiset(xs[i]) == multiset(Flat(xs)) + multiset(y)
  {
    BagOfFlat(xs);
    BagOfFlat(xs[i := y]);
    BagUpdate(xs, i, y);
  }

  lemma Swapped<T>(a: multiset<T>, x: multiset<T>, y: multiset<T>)
    ensures a + y + x == a + x + y
  {
  }

  lemma AddedToBoth<T>(a: multiset<T>, x: multiset<T>, b: multiset<T>, y: multiset<T>, l: multiset<T>)
    requires a + x == b + y
    ensures a + l + x == b + l + y
  {
    assert a + l + x == (a + x) + l;
  }

  /** One buffer of many is exchanged: what the exchange conserves, the whole
      conserves. */
  lemma Exchanged<T(!new)>(all: multiset<T>, all': multiset<T>, was: multiset<T>, now: multiset<T>,
                     rest: multiset<T>, got: multiset<T>, out: multiset<T>, dropped: multiset<T>)
    requires all' + was == all + now
    requires was + got == out + now + dropped
    ensures all + rest + got == out + (all' + rest) + dropped
  {
    forall x: T
      ensures (all + rest + got)[x] == (out + (all' + rest) + dropped)[x]
    {
      assert (all' + was)[x] == (all + now)[x];
      assert (was + got)[x] == (out + now + dropped)[x];
    }
  }

  lemma HeldParts(r: Retained)
    ensures multiset(Held(r)) == multiset(Flat(PreBuffers(r.flights))) + multiset(Flat(r.lastN))
    ensures multiset(Held(r)) == multiset(Flat(r.lastN)) + multiset(Flat(PreBuffers(r.flights)))
  {
  }

  /** Activating all recorders moves events from the buffers to the output. */
  lemma {:induction false} ActivationsConserve(fs: seq<Flight>, os: seq<Outcome>)
    requires |fs| == |os|
    requires forall i :: 0 <= i < |fs| ==>
               multiset(fs[i].pre) == multiset(os[i].emitted) + multiset(os[i].flight.pre)
    ensures multiset(Flat(PreBuffers(fs))) == multiset(EmittedBy(os)) + multiset(Flat(PreBuffers(FlightsOf(os))))
  {
    if fs != [] {
      var n := |fs| - 1;
      ActivationsConserve(fs[..n], os[..n]);
      assert PreBuffers(fs)[..n] == PreBuffers(fs[..n]);
      assert PreBuffers(FlightsOf(os))[..n] == PreBuffers(FlightsOf(os[..n]));
    }
  }

  lemma ActivationsBalance(p: Profile, r: Retained, c: Call)
    requires Fits(p, r)
    ensures var os := if c.AcceptCall? then Activations(p, r.flights, c.event)
                      else ForcedActivations(p, r.flights, c.override, c.sequence);
            multiset(Held(r)) == multiset(EmittedBy(os)) + multiset(Held(Retained(FlightsOf(os), r.lastN)))
  {
    var os := if c.AcceptCall? then Activations(p, r.flights, c.event)
              else ForcedActivations(p, r.flights, c.override, c.sequence);
    forall i | 0 <= i < |r.flights|
      ensures multiset(r.flights[i].pre) == multiset(os[i].emitted) + multiset(os[i].flight.pre)
    {
      var d, f := p.recorders[i], r.flights[i];
      if c.AcceptCall? {
        ActivateConserves(d, f, c.event.captureSequence, IsMember(p, d, c.event), 0);
      } else {
        ActivateConserves(d, f, c.sequence, false, c.override);
      }
    }
    ActivationsConserve(r.flights, os);
  }

  lemma DeliveryBalances(p: Profile, fs: seq<Flight>, lastN: seq<seq<Event>>, j: nat, e: Event)
    requires |fs| == |p.recorders| && j < |fs|
    ensures var d := Deliver(p.recorders[j], fs[j], e);
            multiset(Held(Retained(fs, lastN))) + multiset([e])
            == multiset(d.emitted) + multiset(Held(Retained(fs[j := d.flight], lastN))) + multiset(d.dropped)
  {
    var d := Deliver(p.recorders[j], fs[j], e);
    DeliverConserves(p.recorders[j], fs[j], e);
    var bs := PreBuffers(fs);
    FlatUpdate(bs, j, d.flight.pre);
    assert PreBuffers(fs[j := d.flight]) == bs[j := d.flight.pre];
    HeldParts(Retained(fs, lastN));
    HeldParts(Retained(fs[j := d.flight], lastN));
    Exchanged(multiset(Flat(bs)), multiset(Flat(bs[j := d.flight.pre])), multiset(bs[j]), multiset(d.flight.pre),
              multiset(Flat(lastN)), multiset([e]), multiset(d.emitted), multiset(d.dropped));
  }

  lemma KeepingBalances(fs: seq<Flight>, lastN: seq<seq<Event>>, j: nat, e: Event, excess: nat)
    requires j < |lastN| && excess <= |lastN[j]| + 1
    ensures var kept := lastN[j] + [e];
            multiset(Held(Retained(fs, lastN))) + multiset([e])
            == multiset{} + multiset(Held(Retained(fs, lastN[j := kept[excess..]]))) + multiset(kept[..excess])
  {
    var kept := lastN[j] + [e];
    var now := kept[excess..];
    FlatUpdate(lastN, j, now);
    assert kept == kept[..excess] + now;
    assert multiset(kept) == multiset(lastN[j]) + multiset([e]);
    HeldParts(Retained(fs, lastN));
    HeldParts(Retained(fs, lastN[j := now]));
    Exchanged(multiset(Flat(lastN)), multiset(Flat(lastN[j := now])), multiset(lastN[j]), multiset(now),
              multiset(Flat(PreBuffers(fs))), multiset([e]), multiset{}, multiset(kept[..excess]));
  }

  /** The activations first, then what becomes of the event itself. */
  lemma TwoStages<T>(held: multiset<T>, first: multiset<T>, middle: multiset<T>, got: multiset<T>,
                     second: multiset<T>, end: multiset<T>, dropped: multiset<T>)
    requires held == first + middle && middle + got == second + end + dropped
    ensures held + got == (first + second) + end + dropped
  {
    assert held + got == first + (middle + got);
  }

  lemma AcceptConserves(p: Profile, r: Retained, e: Event)
    requires Fits(p, r)
    ensures var o := AcceptEvent(p, r, e);
            multiset(Held(r)) + multiset([e]) == multiset(o.emitted) + multiset(Held(o.state)) + multiset(o.dropped)
  {
    ActivationsBalance(p, r, AcceptCall(e));
    var os, j, o := Activations(p, r.flights, e), FirstMember(p, e, 0), AcceptEvent(p, r, e);
    var fs := FlightsOf(os);
    var second: seq<Event>;
    if j < |p.recorders| {
      DeliveryBalances(p, fs, r.lastN, j, e);
      second := Deliver(p.recorders[j], fs[j], e).emitted;
    } else if KeepsLast(p, e) {
      KeepingBalances(fs, r.lastN, e.probeIndex, e,
                      Excess(r.lastN[e.probeIndex] + [e], p.probes[e.probeIndex].sampling.n));
      second := [];
    } else {
      second := [e];
    }
    assert multiset(o.emitted) == multiset(EmittedBy(os)) + multiset(second);
    TwoStages(multiset(Held(r)), multiset(EmittedBy(os)), multiset(Held(Retained(fs, r.lastN))), multiset([e]),
              multiset(second), multiset(Held(o.state)), multiset(o.dropped));
  }

  lemma CallConserves(p: Profile, r: Retained, c: Call)
    requires Fits(p, r)
    ensures var o := Apply(p, r, c);
            multiset(Held(r)) + multiset(if c.AcceptCall? then [c.event] else [])
            == multiset(o.emitted) + multiset(Held(o.state)) + multiset(o.dropped)
  {
    if c.AcceptCall? {
      AcceptConserves(p, r, c.event);
    } else {
      ActivationsBalance(p, r, c);
    }
  }

  /** Over every run each accepted event has been emitted, is held in one buffer,
      or was dropped from a full one: never two of these, never none. */
  lemma {:induction false} RunConservesEvents(p: Profile, calls: seq<Call>)
    ensures var o := RunCalls(p, calls);
            multiset(Accepted(calls)) == multiset(o.emitted) + multiset(Held(o.state)) + multiset(o.dropped)
  {
    if calls == [] {
      FlatOfNothing(PreBuffers(Fresh(p).flights));
      FlatOfNothing(Fresh(p).lastN);
    } else {
      var front, c := calls[..|calls| - 1], calls[|calls| - 1];
      RunConservesEvents(p, front);
      var before := RunCalls(p, front);
      CallConserves(p, before.state, c);
      var o := Apply(p, before.state, c);
      Carried(multiset(before.emitted), multiset(Held(before.state)), multiset(before.dropped),
              multiset(if c.AcceptCall? then [c.event] else []),
              multiset(o.emitted), multiset(Held(o.state)), multiset(o.dropped));
    }
  }

  lemma {:induction false} FlatOfNothing(xs: seq<seq<Event>>)
    requires forall i :: 0 <= i < |xs| ==> xs[i] == []
    ensures Flat(xs) == []
  {
    if xs != [] {
      FlatOfNothing(xs[..|xs| - 1]);
    }
  }
}
