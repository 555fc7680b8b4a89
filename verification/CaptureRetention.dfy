/** The retention policy of the recorder thread: flight recorders, probes that
    keep their last events, and everything else passing straight through. */
module CaptureRetention {
  import opened FlightWindows
  import Sorting

  const MARKER_PROBE: nat := 0xFFFF_FFFE
  const CONTROL_PROBE: nat := 0xFFFF_FFFF

  datatype Sampling = LastN(n: nat) | OtherSampling

  datatype Probe = Probe(id: string, sampling: Sampling)

  datatype Profile = Profile(probes: seq<Probe>, recorders: seq<Definition>)

  function ProbeId(p: Profile, e: Event): string {
    if e.probeIndex < |p.probes| then p.probes[e.probeIndex].id
    else if e.probeIndex == MARKER_PROBE then e.payload
    else if e.probeIndex == CONTROL_PROBE then "control.hit"
    else ""
  }

  predicate IsMember(p: Profile, d: Definition, e: Event) {
    ProbeId(p, e) in d.members
  }

  predicate IsTrigger(p: Profile, d: Definition, e: Event) {
    || (e.controlPublished && d.onControl)
    || ProbeId(p, e) in d.triggerProbes
    || (e.probeIndex == MARKER_PROBE && ProbeId(p, e) in d.triggerMarkers)
  }

  datatype Retained = Retained(flights: seq<Flight>, lastN: seq<seq<Event>>)

  ghost predicate Fits(p: Profile, r: Retained) {
    |r.flights| == |p.recorders| && |r.lastN| == |p.probes|
  }

  datatype Result = Result(state: Retained, emitted: seq<Event>, dropped: seq<Event>)

  // --------------------------------------------------------------- one call

  function ActivateFor(p: Profile, d: Definition, f: Flight, e: Event): Outcome {
    if IsTrigger(p, d, e) then Activate(d, f, e.captureSequence, IsMember(p, d, e), 0) else Outcome(f, [], [])
  }

  function Activations(p: Profile, fs: seq<Flight>, e: Event): (os: seq<Outcome>)
    requires |fs| == |p.recorders|
    ensures |os| == |fs|
  {
    seq(|fs|, i requires 0 <= i < |fs| => ActivateFor(p, p.recorders[i], fs[i], e))
  }

  function ForcedActivations(p: Profile, fs: seq<Flight>, override: nat, sequence: nat): (os: seq<Outcome>)
    requires |fs| == |p.recorders|
    ensures |os| == |fs|
  {
    seq(|fs|, i requires 0 <= i < |fs| => Activate(p.recorders[i], fs[i], sequence, false, override))
  }

  function FlightsOf(os: seq<Outcome>): (fs: seq<Flight>)
    ensures |fs| == |os|
  {
    seq(|os|, i requires 0 <= i < |os| => os[i].flight)
  }

  function EmittedBy(os: seq<Outcome>): seq<Event> {
    if os == [] then [] else EmittedBy(os[..|os| - 1]) + os[|os| - 1].emitted
  }

  /** The first recorder from `i` on that has this event as a member. */
  function FirstMember(p: Profile, e: Event, i: nat): (j: nat)
    requires i <= |p.recorders|
    ensures i <= j <= |p.recorders|
    ensures j < |p.recorders| ==> IsMember(p, p.recorders[j], e)
    ensures forall k :: i <= k < j ==> !IsMember(p, p.recorders[k], e)
    decreases |p.recorders| - i
  {
    if i == |p.recorders| || IsMember(p, p.recorders[i], e) then i else FirstMember(p, e, i + 1)
  }

  predicate KeepsLast(p: Profile, e: Event) {
    e.probeIndex < |p.probes| && p.probes[e.probeIndex].sampling.LastN?
  }

  function Excess(s: seq<Event>, n: nat): nat {
    if |s| > n then |s| - n else 0
  }

  function AcceptEvent(p: Profile, r: Retained, e: Event): (o: Result)
    requires Fits(p, r)
    ensures Fits(p, o.state)
  {
    var os := Activations(p, r.flights, e);
    var fs, j := FlightsOf(os), FirstMember(p, e, 0);
    if j < |p.recorders| then
      var d := Deliver(p.recorders[j], fs[j], e);
      Result(Retained(fs[j := d.flight], r.lastN), EmittedBy(os) + d.emitted, d.dropped)
    else if KeepsLast(p, e) then
      var kept := r.lastN[e.probeIndex] + [e];
      var excess := Excess(kept, p.probes[e.probeIndex].sampling.n);
      Result(Retained(fs, r.lastN[e.probeIndex := kept[excess..]]), EmittedBy(os), kept[..excess])
    else Result(Retained(fs, r.lastN), EmittedBy(os) + [e], [])
  }

  function TriggerEvery(p: Profile, r: Retained, override: nat, sequence: nat): (o: Result)
    requires Fits(p, r)
    ensures Fits(p, o.state)
  {
    var os := ForcedActivations(p, r.flights, override, sequence);
    Result(Retained(FlightsOf(os), r.lastN), EmittedBy(os), [])
  }

  function Flat(xs: seq<seq<Event>>): seq<Event> {
    if xs == [] then [] else Flat(xs[..|xs| - 1]) + xs[|xs| - 1]
  }

  const BY_SEQUENCE: Event -> int := (e: Event) => e.captureSequence

  /** The oldest go until no more than `n` are left. */
  method DropOldest(all: seq<Event>, n: nat) returns (kept: seq<Event>)
    ensures kept == all[Excess(all, n)..]
  {
    kept := all;
    ghost var dropped := 0;
    while |kept| > n
      invariant dropped <= Excess(all, n) && kept == all[dropped..]
    {
      kept, dropped := kept[1..], dropped + 1;
    }
  }

  // --------------------------------------------------------------- the object

  class Retention {
    const profile: Profile

    var flights: seq<Flight>
    var lastN: seq<seq<Event>>

    ghost predicate Valid()
      reads this
    {
      Fits(profile, State())
    }

    ghost function State(): Retained
      reads this
    {
      Retained(flights, lastN)
    }

    constructor (p: Profile)
      ensures Valid() && profile == p
      ensures State() == Fresh(p)
    {
      profile := p;
      flights := seq(|p.recorders|, _ => IDLE);
      lastN := seq(|p.probes|, _ => []);
    }

    /** The activation loops of accept and trigger_all; emitted events are
        returned in the order of the emit calls. */
    method ActivateWhere(ghost os: seq<Outcome>, act: (Definition, Flight) -> Outcome) returns (out: seq<Event>)
      requires Valid() && |os| == |flights|
      requires forall i :: 0 <= i < |flights| ==> os[i] == act(profile.recorders[i], flights[i])
      modifies `flights
      ensures flights == FlightsOf(os) && out == EmittedBy(os)
    {
      out := [];
      for i := 0 to |flights|
        invariant |flights| == |os| == |profile.recorders| && i <= |flights|
        invariant forall k :: 0 <= k < i ==> flights[k] == os[k].flight
        invariant forall k :: i <= k < |flights| ==> flights[k] == old(flights)[k]
        invariant out == EmittedBy(os[..i])
      {
        var o := act(profile.recorders[i], flights[i]);
        assert os[..i + 1][..i] == os[..i];
        out := out + o.emitted;
        flights := flights[i := o.flight];
      }
      assert os[..|os|] == os;
    }

    method FindMember(e: Event) returns (j: nat)
      requires Valid()
      ensures j == FirstMember(profile, e, 0)
    {
      j := 0;
      while j < |profile.recorders| && !IsMember(profile, profile.recorders[j], e)
        invariant j <= |profile.recorders|
        invariant FirstMember(profile, e, j) == FirstMember(profile, e, 0)
      {
        j := j + 1;
      }
    }

    method Accept(e: Event) returns (out: seq<Event>)
      requires Valid()
      modifies this
      ensures Valid()
      ensures State() == AcceptEvent(profile, old(State()), e).state
      ensures out == AcceptEvent(profile, old(State()), e).emitted
    {
      var p := profile;
      ghost var os := Activations(p, flights, e);
      out := ActivateWhere(os, (d, f) => ActivateFor(p, d, f, e));
      var j := FindMember(e);
      if j < |profile.recorders| {
        var d := Deliver(profile.recorders[j], flights[j], e);
        flights := flights[j := d.flight];
        out := out + d.emitted;
        return;
      }
      if KeepsLast(profile, e) {
        KeepLast(e);
        return;
      }
      out := out + [e];
    }

    /** Appends the event to the buffer of its probe and lets go of the oldest. */
    method KeepLast(e: Event)
      requires Valid() && KeepsLast(profile, e)
      modifies `lastN
      ensures var kept := old(lastN)[e.probeIndex] + [e];
              var excess := Excess(kept, profile.probes[e.probeIndex].sampling.n);
              lastN == old(lastN)[e.probeIndex := kept[excess..]]
    {
      var kept := DropOldest(lastN[e.probeIndex] + [e], profile.probes[e.probeIndex].sampling.n);
      lastN := lastN[e.probeIndex := kept];
    }

    method TriggerAll(override: nat, sequence: nat) returns (out: seq<Event>)
      requires Valid()
      modifies `flights
      ensures Valid()
      ensures State() == TriggerEvery(profile, old(State()), override, sequence).state
      ensures out == TriggerEvery(profile, old(State()), override, sequence).emitted
    {
      ghost var os := ForcedActivations(profile, flights, override, sequence);
      out := ActivateWhere(os, (d, f) => Activate(d, f, sequence, false, override));
    }

    /** Everything kept comes out in capture order, and the buffers are empty. */
    method Finish() returns (out: seq<Event>)
      requires Valid()
      modifies `lastN
      ensures Valid() && forall i :: 0 <= i < |lastN| ==> lastN[i] == []
      ensures Sorting.SortedBy(BY_SEQUENCE, out)
      ensures multiset(out) == multiset(Flat(old(lastN)))
    {
      var retained := [];
      for i := 0 to |lastN|
        invariant |lastN| == |old(lastN)| == |profile.probes|
        invariant retained == Flat(old(lastN)[..i])
        invariant forall k :: 0 <= k < i ==> lastN[k] == []
        invariant forall k :: i <= k < |lastN| ==> lastN[k] == old(lastN)[k]
      {
        assert old(lastN)[..i + 1][..i] == old(lastN)[..i];
        retained := retained + lastN[i];
        lastN := lastN[i := []];
      }
      assert old(lastN)[..|old(lastN)|] == old(lastN);
      out := Sorting.StableSort(BY_SEQUENCE, retained);
      Sorting.StableSortIsStable(BY_SEQUENCE, retained, 0);
      Sorting.StableSortPermutes(BY_SEQUENCE, retained);
    }
  }

  function Fresh(p: Profile): (r: Retained)
    ensures Fits(p, r)
  {
    Retained(seq(|p.recorders|, _ => IDLE), seq(|p.probes|, _ => []))
  }
}
