/** Retention in terms of a profile's own lists: which events belong to a recorder,
    which set it off, which a last-N probe keeps, and what comes out around them. */
module NamedTriggers {
  import opened Words
  import opened Sorting
  import opened FlightWindows
  import opened CaptureRetention
  import opened RetentionRuns

  /** The probe's identifier, a marker's text, or that of control hits. */
  ghost predicate IsNamed(p: Profile, e: Event, id: string) {
    if e.probeIndex < |p.probes| then id == p.probes[e.probeIndex].id
    else if e.probeIndex == 0xFFFF_FFFE then id == e.payload
    else if e.probeIndex == 0xFFFF_FFFF then id == "control.hit"
    else id == ""
  }

  ghost predicate Lists(p: Profile, e: Event, ids: seq<string>) {
    exists i :: 0 <= i < |ids| && IsNamed(p, e, ids[i])
  }

  /** The event is one of the recorder's members. */
  ghost predicate Belongs(p: Profile, d: Definition, e: Event) {
    Lists(p, e, d.members)
  }

  /** A published control hit where those trigger, a listed probe or control hit, or
      a listed marker. */
  ghost predicate SetsOff(p: Profile, d: Definition, e: Event) {
    || (e.controlPublished && d.onControl)
    || Lists(p, e, d.triggerProbes)
    || (e.probeIndex == 0xFFFF_FFFE && Lists(p, e, d.triggerMarkers))
  }

  lemma ListsFinds(p: Profile, e: Event, ids: seq<string>)
    ensures ProbeId(p, e) in ids <==> Lists(p, e, ids)
  {
    assert forall id :: IsNamed(p, e, id) <==> id == ProbeId(p, e);
  }

  /** Members and triggers are those of the lists. */
  lemma ListsDecide(p: Profile, d: Definition, e: Event)
    ensures IsMember(p, d, e) <==> Belongs(p, d, e)
    ensures IsTrigger(p, d, e) <==> SetsOff(p, d, e)
  {
    ListsFinds(p, e, d.members);
    ListsFinds(p, e, d.triggerProbes);
    ListsFinds(p, e, d.triggerMarkers);
  }

  /** What last-N probes keep, and what passes straight through. */
  lemma ListsRoute(p: Profile, j: nat, e: Event)
    ensures RetainedBy(p, j)(e) <==>
              && e.probeIndex == j < |p.probes| && p.probes[j].sampling.LastN?
              && forall i :: 0 <= i < |p.recorders| ==> !Belongs(p, p.recorders[i], e)
    ensures PassesThrough(p)(e) <==>
              && !(e.probeIndex < |p.probes| && p.probes[e.probeIndex].sampling.LastN?)
              && forall i :: 0 <= i < |p.recorders| ==> !Belongs(p, p.recorders[i], e)
  {
    forall i | 0 <= i < |p.recorders| ensures IsMember(p, p.recorders[i], e) <==> Belongs(p, p.recorders[i], e) {
      ListsDecide(p, p.recorders[i], e);
    }
  }

  // ------------------------------------------------------------------ history

  /** The accepted events that belong to the recorder, in order. */
  ghost function MembersIn(p: Profile, d: Definition, calls: seq<Call>): seq<Event> {
    if calls == [] then []
    else
      var c := calls[|calls| - 1];
      MembersIn(p, d, calls[..|calls| - 1])
      + (if c.AcceptCall? && Belongs(p, d, c.event) then [c.event] else [])
  }

  /** The call sets the recorder off. */
  ghost predicate Fires(p: Profile, d: Definition, c: Call) {
    c.TriggerAllCall? || SetsOff(p, d, c.event)
  }

  ghost function TriggerAt(p: Profile, d: Definition, calls: seq<Call>, i: nat): Trigger
    requires i < |calls|
  {
    var c := calls[i];
    Trigger(|MembersIn(p, d, calls[..i])|, c.AcceptCall? && Belongs(p, d, c.event),
            if c.AcceptCall? then d.post else Max(d.post, c.override))
  }

  ghost function TriggersIn(p: Profile, d: Definition, calls: seq<Call>): seq<Trigger> {
    if calls == [] then []
    else
      var n := |calls| - 1;
      TriggersIn(p, d, calls[..n]) + (if Fires(p, d, calls[n]) then [TriggerAt(p, d, calls, n)] else [])
  }

  lemma {:induction false} HistoryOfCalls(p: Profile, d: Definition, calls: seq<Call>)
    ensures History(d, Inputs(p, d, calls)).members == MembersIn(p, d, calls)
    ensures History(d, Inputs(p, d, calls)).triggers == TriggersIn(p, d, calls)
  {
    if calls != [] {
      var c := calls[|calls| - 1];
      HistoryOfCalls(p, d, calls[..|calls| - 1]);
      InputsSnoc(p, d, calls);
      if c.AcceptCall? {
        ListsDecide(p, d, c.event);
      }
    }
  }

  ghost predicate FiresAs(p: Profile, d: Definition, calls: seq<Call>, i: nat, t: Trigger) {
    i < |calls| && Fires(p, d, calls[i]) && TriggerAt(p, d, calls, i) == t
  }

  ghost predicate SomeFiresAs(p: Profile, d: Definition, calls: seq<Call>, t: Trigger) {
    exists i: nat :: FiresAs(p, d, calls, i, t)
  }

  lemma FiresBefore(p: Profile, d: Definition, calls: seq<Call>, i: nat, t: Trigger)
    requires i < |calls| - 1
    ensures FiresAs(p, d, calls[..|calls| - 1], i, t) == FiresAs(p, d, calls, i, t)
  {
    var front := calls[..|calls| - 1];
    assert front[i] == calls[i] && front[..i] == calls[..i];
  }

  lemma FiresSnoc(p: Profile, d: Definition, calls: seq<Call>, t: Trigger)
    requires calls != []
    ensures var n := |calls| - 1;
            SomeFiresAs(p, d, calls, t) <==> SomeFiresAs(p, d, calls[..n], t) || FiresAs(p, d, calls, n, t)
  {
    var n := |calls| - 1;
    if i: nat :| FiresAs(p, d, calls[..n], i, t) {
      FiresBefore(p, d, calls, i, t);
    }
    if i: nat :| FiresAs(p, d, calls, i, t) {
      if i < n {
        FiresBefore(p, d, calls, i, t);
      }
    }
  }

  lemma {:induction false} TriggersInAre(p: Profile, d: Definition, calls: seq<Call>, t: Trigger)
    ensures t in TriggersIn(p, d, calls) <==> SomeFiresAs(p, d, calls, t)
  {
    if calls != [] {
      TriggersInAre(p, d, calls[..|calls| - 1], t);
      FiresSnoc(p, d, calls, t);
    }
  }

  /** Call `i` sets the recorder off, and member `m` is the event of that call, one
      of the last `pre` members before it, or one of the next `post` after it. */
  ghost predicate IsNear(p: Profile, d: Definition, calls: seq<Call>, i: nat, m: nat)
    requires i < |calls|
  {
    var before, c := |MembersIn(p, d, calls[..i])|, calls[i];
    && Fires(p, d, c)
    && before <= m + d.pre
    && m < before + (if c.AcceptCall? && Belongs(p, d, c.event) then 1 else 0) + d.post
  }

  ghost predicate IsNearSome(p: Profile, d: Definition, calls: seq<Call>, m: nat) {
    exists i: nat :: i < |calls| && IsNear(p, d, calls, i, m)
  }

  lemma NearnessOfCalls(p: Profile, d: Definition, calls: seq<Call>, l: Ledger, m: nat)
    requires l == History(d, Inputs(p, d, calls))
    ensures NearSomeTrigger(d.pre, d.post, l, m) <==> IsNearSome(p, d, calls, m)
  {
    HistoryOfCalls(p, d, calls);
    if NearSomeTrigger(d.pre, d.post, l, m) {
      var j :| 0 <= j < |l.triggers| && NearTrigger(d.pre, d.post, l.triggers[j], m);
      assert l.triggers[j] in TriggersIn(p, d, calls);
      TriggersInAre(p, d, calls, l.triggers[j]);
      var i: nat :| FiresAs(p, d, calls, i, l.triggers[j]);
      assert IsNear(p, d, calls, i, m);
    }
    if i: nat :| i < |calls| && IsNear(p, d, calls, i, m) {
      var t := TriggerAt(p, d, calls, i);
      TriggersInAre(p, d, calls, t);
      assert FiresAs(p, d, calls, i, t);
      var j :| 0 <= j < |l.triggers| && l.triggers[j] == t;
      assert NearTrigger(d.pre, d.post, l.triggers[j], m);
    }
  }

  /** The first `n` of these members for which some call is near, in order. */
  ghost function NearMembers(p: Profile, d: Definition, calls: seq<Call>, n: nat): seq<Event>
    requires n <= |MembersIn(p, d, calls)|
  {
    if n == 0 then []
    else
      NearMembers(p, d, calls, n - 1)
      + (if IsNearSome(p, d, calls, n - 1) then [MembersIn(p, d, calls)[n - 1]] else [])
  }

  lemma {:induction false} WindowedAreNear(p: Profile, d: Definition, calls: seq<Call>, l: Ledger, n: nat)
    requires l == History(d, Inputs(p, d, calls)) && n <= |l.members|
    requires forall m: nat :: m < |l.members| ==> (InWindow(d.pre, l, m) <==> NearSomeTrigger(d.pre, d.post, l, m))
    ensures n <= |MembersIn(p, d, calls)| && Windowed(d.pre, l, n) == NearMembers(p, d, calls, n)
  {
    HistoryOfCalls(p, d, calls);
    if n > 0 {
      WindowedAreNear(p, d, calls, l, n - 1);
      NearnessOfCalls(p, d, calls, l, n - 1);
    }
  }

  /** With disjoint members and distinct capture sequences: what the whole policy
      emits of the events that belong to a recorder are exactly those that are near a
      call which sets it off, in order, by the names in its lists. */
  lemma RecorderEmitsAroundNames(p: Profile, calls: seq<Call>, i: nat)
    requires Disjoint(p) && i < |p.recorders| && DistinctAccepts(calls)
    ensures var d := p.recorders[i];
            && (forall e :: MemberOf(p, d)(e) <==> Belongs(p, d, e))
            && Select(MemberOf(p, d), RunCalls(p, calls).emitted)
               == NearMembers(p, d, calls, |MembersIn(p, d, calls)|)
  {
    var d := p.recorders[i];
    forall e ensures MemberOf(p, d)(e) <==> Belongs(p, d, e) {
      ListsDecide(p, d, e);
    }
    RecorderEmitsNearTriggers(p, calls, i);
    HistoryOfCalls(p, d, calls);
    WindowedAreNear(p, d, calls, History(d, Inputs(p, d, calls)), |MembersIn(p, d, calls)|);
  }
}
