/** One flight recorder: a bounded buffer of members before a trigger and a
    countdown of members after it, proved equal to windows over the whole
    history. */
module FlightWindows {
  import opened Words

  datatype Event = Event(captureSequence: nat, probeIndex: nat, controlPublished: bool, payload: string, body: int)

  datatype Definition = Definition(
    id: string, members: seq<string>, pre: nat, post: nat,
    triggerProbes: seq<string>, triggerMarkers: seq<string>, onControl: bool)

  datatype Flight = Flight(
    pre: seq<Event>, active: bool, triggerSequence: nat, postRemaining: nat,
    triggers: nat, retriggers: nat, completed: nat)

  const IDLE: Flight := Flight([], false, 0, 0, 0, 0, 0)

  /** A new state, what is emitted and what is dropped from a full buffer. */
  datatype Outcome = Outcome(flight: Flight, emitted: seq<Event>, dropped: seq<Event>)

  /** activate: an idle recorder first lets go of what it buffered. */
  function Activate(d: Definition, f: Flight, sequence: nat, triggerIsMember: bool, override: nat): Outcome {
    var remaining := Max(f.postRemaining, Max(d.post, override));
    var active := triggerIsMember || remaining != 0;
    Outcome(
      Flight(if f.active then f.pre else [], active, sequence, remaining, f.triggers + 1,
             if f.active then f.retriggers + 1 else f.retriggers,
             if active then f.completed else f.completed + 1),
      if f.active then [] else f.pre, [])
  }

  /** The member branch of accept. */
  function Deliver(d: Definition, f: Flight, e: Event): Outcome {
    if !f.active then
      var pre := f.pre + [e];
      var excess := if |pre| > d.pre then |pre| - d.pre else 0;
      Outcome(f.(pre := pre[excess..]), [], pre[..excess])
    else
      var remaining := if e.captureSequence != f.triggerSequence && f.postRemaining > 0
                       then f.postRemaining - 1 else f.postRemaining;
      Outcome(if remaining == 0 then f.(postRemaining := 0, active := false, completed := f.completed + 1)
              else f.(postRemaining := remaining), [e], [])
  }

  /** What one call means to one recorder. */
  datatype Input =
    | Arrival(event: Event, member: bool, trigger: bool)
    | Forced(override: nat, sequence: nat)

  function Step(d: Definition, f: Flight, a: Input): Outcome {
    match a
    case Arrival(e, member, trigger) =>
      var t := if trigger then Activate(d, f, e.captureSequence, member, 0) else Outcome(f, [], []);
      var m := if member then Deliver(d, t.flight, e) else Outcome(t.flight, [], []);
      Outcome(m.flight, t.emitted + m.emitted, t.dropped + m.dropped)
    case Forced(override, sequence) => Activate(d, f, sequence, false, override)
  }

  function Run(d: Definition, h: seq<Input>): Outcome {
    if h == [] then Outcome(IDLE, [], [])
    else
      var before := Run(d, h[..|h| - 1]);
      var o := Step(d, before.flight, h[|h| - 1]);
      Outcome(o.flight, before.emitted + o.emitted, before.dropped + o.dropped)
  }

  // ------------------------------------------------------------ the whole history

  /** A trigger: how many members came before it, whether it is itself the next
      member, and how many members after it are wanted. */
  datatype Trigger = Trigger(at: nat, own: bool, reach: nat)

  /** The members in order of arrival, which of them count against a window,
      the triggers, and the sequence of the latest one. */
  datatype Ledger = Ledger(members: seq<Event>, charged: seq<bool>, triggers: seq<Trigger>, inForce: nat)

  const BLANK: Ledger := Ledger([], [], [], 0)

  function Record(d: Definition, l: Ledger, a: Input): Ledger {
    match a
    case Arrival(e, member, trigger) =>
      var l' := if trigger then
                  l.(triggers := l.triggers + [Trigger(|l.members|, member, d.post)], inForce := e.captureSequence)
                else l;
      if member then l'.(members := l.members + [e], charged := l.charged + [e.captureSequence != l'.inForce])
      else l'
    case Forced(override, sequence) =>
      l.(triggers := l.triggers + [Trigger(|l.members|, false, Max(d.post, override))], inForce := sequence)
  }

  function History(d: Definition, h: seq<Input>): Ledger {
    if h == [] then BLANK else Record(d, History(d, h[..|h| - 1]), h[|h| - 1])
  }

  function Count(flags: seq<bool>): nat {
    if flags == [] then 0 else Count(flags[..|flags| - 1]) + (if flags[|flags| - 1] then 1 else 0)
  }

  /** The first member that can come after a trigger. */
  function After(t: Trigger): nat {
    if t.own then t.at + 1 else t.at
  }

  /** Members charged between the trigger and member `m`. */
  function Spent(charged: seq<bool>, t: Trigger, m: nat): nat {
    if After(t) <= m <= |charged| then Count(charged[After(t)..m]) else 0
  }

  /** Member `m` is the trigger itself, one of the last `pre` members before it,
      or one of those after it until `reach` members have been charged. */
  ghost predicate Covers(pre: nat, charged: seq<bool>, t: Trigger, m: nat) {
    || (m < t.at <= m + pre)
    || (t.own && m == t.at)
    || (After(t) <= m && Spent(charged, t, m) < t.reach)
  }

  ghost predicate InWindow(pre: nat, l: Ledger, m: nat) {
    exists i :: 0 <= i < |l.triggers| && Covers(pre, l.charged, l.triggers[i], m)
  }

  /** The first `n` members that lie in some window, in order of arrival. */
  ghost function Windowed(pre: nat, l: Ledger, n: nat): seq<Event>
    requires n <= |l.members|
  {
    if n == 0 then [] else Windowed(pre, l, n - 1) + (if InWindow(pre, l, n - 1) then [l.members[n - 1]] else [])
  }

  // ---------------------------------------------------------------- invariant

  /** How much a trigger still asks for. */
  function Owed(charged: seq<bool>, t: Trigger): nat {
    var spent := Spent(charged, t, |charged|);
    if spent < t.reach then t.reach - spent else 0
  }

  ghost predicate IsMaxOwed(l: Ledger, n: nat) {
    && (forall i :: 0 <= i < |l.triggers| ==> Owed(l.charged, l.triggers[i]) <= n)
    && (n > 0 ==> exists i :: 0 <= i < |l.triggers| && Owed(l.charged, l.triggers[i]) == n)
  }

  ghost predicate LedgerOk(l: Ledger) {
    && |l.charged| == |l.members|
    && (forall i :: 0 <= i < |l.triggers| ==> After(l.triggers[i]) <= |l.members|)
  }

  /** The buffer holds the members from `b` on: those not in a window that are
      among the last `pre`. */
  ghost predicate Buffers(pre: nat, l: Ledger, f: Flight, b: nat) {
    && b <= |l.members| <= b + pre
    && f.pre == l.members[b..]
    && (forall m: nat :: b <= m < |l.members| ==> !InWindow(pre, l, m))
    && (forall m: nat :: m < b && |l.members| <= m + pre ==> InWindow(pre, l, m))
  }

  ghost predicate Inv(d: Definition, l: Ledger, f: Flight, b: nat) {
    && LedgerOk(l)
    && IsMaxOwed(l, f.postRemaining)
    && f.active == (f.postRemaining > 0)
    && (f.active ==> f.pre == [])
    && f.triggerSequence == l.inForce
    && Buffers(d.pre, l, f, b)
  }

  // ---------------------------------------------------------- how windows grow

  lemma CountSnoc(flags: seq<bool>, b: bool)
    ensures Count(flags + [b]) == Count(flags) + (if b then 1 else 0)
  {
    assert (flags + [b])[..|flags|] == flags;
  }

  /** A later member changes nothing for the earlier ones. */
  lemma CoversStays(pre: nat, charged: seq<bool>, c: bool, t: Trigger, m: nat)
    requires m <= |charged|
    ensures Covers(pre, charged + [c], t, m) == Covers(pre, charged, t, m)
  {
    if After(t) <= m {
      assert (charged + [c])[After(t)..m] == charged[After(t)..m];
    }
  }

  lemma InWindowStays(pre: nat, l: Ledger, l': Ledger, c: bool, m: nat)
    requires m <= |l.charged| && l'.triggers == l.triggers && l'.charged == l.charged + [c]
    ensures InWindow(pre, l', m) == InWindow(pre, l, m)
  {
    forall i | 0 <= i < |l.triggers|
      ensures Covers(pre, l'.charged, l.triggers[i], m) == Covers(pre, l.charged, l.triggers[i], m)
    {
      CoversStays(pre, l.charged, c, l.triggers[i], m);
    }
  }

  lemma InWindowTrigger(pre: nat, l: Ledger, l': Ledger, t: Trigger, m: nat)
    requires l'.triggers == l.triggers + [t] && l'.charged == l.charged
    ensures InWindow(pre, l', m) == (InWindow(pre, l, m) || Covers(pre, l.charged, t, m))
  {
    if InWindow(pre, l, m) {
      var i :| 0 <= i < |l.triggers| && Covers(pre, l.charged, l.triggers[i], m);
      assert l'.triggers[i] == l.triggers[i];
    }
    if Covers(pre, l.charged, t, m) {
      assert l'.triggers[|l.triggers|] == t;
    }
    if InWindow(pre, l', m) {
      var i :| 0 <= i < |l'.triggers| && Covers(pre, l'.charged, l'.triggers[i], m);
      assert i < |l.triggers| ==> l'.triggers[i] == l.triggers[i];
    }
  }

  lemma {:induction false} WindowedAgrees(pre: nat, l: Ledger, l': Ledger, n: nat)
    requires n <= |l.members| && n <= |l'.members| && l.members[..n] == l'.members[..n]
    requires forall m: nat :: m < n ==> InWindow(pre, l', m) == InWindow(pre, l, m)
    ensures Windowed(pre, l', n) == Windowed(pre, l, n)
  {
    if n > 0 {
      assert l.members[..n - 1] == l.members[..n][..n - 1] == l'.members[..n][..n - 1] == l'.members[..n - 1];
      assert l.members[n - 1] == l.members[..n][n - 1] == l'.members[..n][n - 1] == l'.members[n - 1];
      WindowedAgrees(pre, l, l', n - 1);
    }
  }

  lemma {:induction false} WindowedSkips(pre: nat, l: Ledger, b: nat, n: nat)
    requires b <= n <= |l.members| && forall m: nat :: b <= m < n ==> !InWindow(pre, l, m)
    ensures Windowed(pre, l, n) == Windowed(pre, l, b)
  {
    if b < n {
      WindowedSkips(pre, l, b, n - 1);
    }
  }

  lemma {:induction false} WindowedTakes(pre: nat, l: Ledger, b: nat, n: nat)
    requires b <= n <= |l.members| && forall m: nat :: b <= m < n ==> InWindow(pre, l, m)
    ensures Windowed(pre, l, n) == Windowed(pre, l, b) + l.members[b..n]
  {
    if b < n {
      WindowedTakes(pre, l, b, n - 1);
      assert l.members[b..n] == l.members[b..n - 1] + [l.members[n - 1]];
    } else {
      assert l.members[b..n] == [];
    }
  }

  // -------------------------------------------------------------- the countdown

  lemma OwedOfNew(charged: seq<bool>, t: Trigger)
    requires After(t) == |charged|
    ensures Owed(charged, t) == t.reach
  {
    assert charged[|charged|..|charged|] == [];
  }

  lemma OwedStep(charged: seq<bool>, c: bool, t: Trigger)
    requires After(t) <= |charged|
    ensures Owed(charged + [c], t) == if c && Owed(charged, t) > 0 then Owed(charged, t) - 1 else Owed(charged, t)
  {
    assert (charged + [c])[After(t)..|charged| + 1] == charged[After(t)..] + [c];
    assert charged[After(t)..|charged|] == charged[After(t)..];
    CountSnoc(charged[After(t)..], c);
  }

  lemma MaxOwedTrigger(l: Ledger, l': Ledger, t: Trigger, n: nat)
    requires IsMaxOwed(l, n) && l'.triggers == l.triggers + [t] && l'.charged == l.charged
    requires After(t) == |l.charged|
    ensures IsMaxOwed(l', Max(n, t.reach))
  {
    OwedOfNew(l.charged, t);
    assert l'.triggers[|l.triggers|] == t;
    if n > t.reach {
      var i :| 0 <= i < |l.triggers| && Owed(l.charged, l.triggers[i]) == n;
      assert l'.triggers[i] == l.triggers[i];
    }
  }

  lemma MaxOwedMember(l: Ledger, l': Ledger, c: bool, n: nat)
    requires LedgerOk(l) && IsMaxOwed(l, n) && l'.triggers == l.triggers && l'.charged == l.charged + [c]
    ensures IsMaxOwed(l', if c && n > 0 then n - 1 else n)
  {
    forall i | 0 <= i < |l.triggers|
      ensures Owed(l'.charged, l.triggers[i])
           == if c && Owed(l.charged, l.triggers[i]) > 0 then Owed(l.charged, l.triggers[i]) - 1
              else Owed(l.charged, l.triggers[i])
    {
      OwedStep(l.charged, c, l.triggers[i]);
    }
  }

  /** The next member is in a window exactly if something is still owed. */
  lemma NextInWindow(pre: nat, l: Ledger, n: nat)
    requires LedgerOk(l) && IsMaxOwed(l, n)
    ensures InWindow(pre, l, |l.members|) == (n > 0)
  {
    if n > 0 {
      var i :| 0 <= i < |l.triggers| && Owed(l.charged, l.triggers[i]) == n;
      assert Covers(pre, l.charged, l.triggers[i], |l.members|);
    }
    if InWindow(pre, l, |l.members|) {
      var i :| 0 <= i < |l.triggers| && Covers(pre, l.charged, l.triggers[i], |l.members|);
      assert Owed(l.charged, l.triggers[i]) > 0;
    }
  }

  // -------------------------------------------------------------- one step

  /** A trigger lets go of exactly the members that come into a window by it. */
  lemma TriggerEmits(pre: nat, l: Ledger, l': Ledger, f: Flight, b: nat, t: Trigger)
    requires Buffers(pre, l, f, b) && l'.triggers == l.triggers + [t] && l'.charged == l.charged
    requires |l.members| == t.at <= |l'.members| && l'.members[..t.at] == l.members
    ensures forall m: nat :: m < b ==> InWindow(pre, l', m) == InWindow(pre, l, m)
    ensures forall m: nat :: b <= m < t.at ==> InWindow(pre, l', m)
    ensures Windowed(pre, l', t.at) == Windowed(pre, l, t.at) + f.pre
  {
    forall m: nat | m < t.at
      ensures InWindow(pre, l', m) == (InWindow(pre, l, m) || b <= m)
    {
      InWindowTrigger(pre, l, l', t, m);
    }
    assert l.members[..b] == l'.members[..b];
    WindowedAgrees(pre, l, l', b);
    WindowedTakes(pre, l', b, t.at);
    WindowedSkips(pre, l, b, t.at);
    assert l'.members[b..t.at] == l.members[b..];
  }

  lemma TriggerKeeps(d: Definition, l: Ledger, f: Flight, b: nat, override: nat, sequence: nat)
    requires Inv(d, l, f, b)
    ensures var t := Trigger(|l.members|, false, Max(d.post, override));
            var l' := l.(triggers := l.triggers + [t], inForce := sequence);
            var o := Activate(d, f, sequence, false, override);
            && Inv(d, l', o.flight, |l.members|)
            && Windowed(d.pre, l', |l.members|) == Windowed(d.pre, l, |l.members|) + o.emitted
  {
    var t := Trigger(|l.members|, false, Max(d.post, override));
    var l' := l.(triggers := l.triggers + [t], inForce := sequence);
    assert l'.members[..t.at] == l.members;
    TriggerEmits(d.pre, l, l', f, b, t);
    MaxOwedTrigger(l, l', t, f.postRemaining);
    assert l'.members[|l.members|..] == [];
  }

  /** While a window is open, nothing is buffered before or behind the member. */
  lemma OpenBuffers(pre: nat, l: Ledger, l': Ledger, f: Flight, f': Flight, b: nat)
    requires Buffers(pre, l, f, b) && f.pre == f'.pre == [] && |l'.members| == |l.members| + 1
    requires forall m: nat :: m <= |l.members| ==> InWindow(pre, l', m) == InWindow(pre, l, m)
    requires InWindow(pre, l, |l.members|)
    ensures Buffers(pre, l', f', |l'.members|)
  {
    assert l'.members[|l'.members|..] == [] && |l.members[b..]| == 0;
  }

  /** A member that triggers nothing, while a window is open. */
  lemma OpenMemberKeeps(d: Definition, l: Ledger, f: Flight, b: nat, e: Event)
    requires Inv(d, l, f, b) && f.active
    ensures var l' := Record(d, l, Arrival(e, true, false));
            var o := Deliver(d, f, e);
            && Inv(d, l', o.flight, |l'.members|)
            && Windowed(d.pre, l', |l'.members|) == Windowed(d.pre, l, |l.members|) + o.emitted
  {
    var l', c := Record(d, l, Arrival(e, true, false)), e.captureSequence != l.inForce;
    MaxOwedMember(l, l', c, f.postRemaining);
    NextInWindow(d.pre, l, f.postRemaining);
    MemberAgrees(d.pre, l, l', c, e);
    OpenBuffers(d.pre, l, l', f, Deliver(d, f, e).flight, b);
  }

  lemma MemberAgrees(pre: nat, l: Ledger, l': Ledger, c: bool, e: Event)
    requires LedgerOk(l) && l'.triggers == l.triggers && l'.charged == l.charged + [c] && l'.members == l.members + [e]
    ensures forall m: nat :: m <= |l.members| ==> InWindow(pre, l', m) == InWindow(pre, l, m)
    ensures Windowed(pre, l', |l.members|) == Windowed(pre, l, |l.members|)
    ensures Windowed(pre, l', |l'.members|) == Windowed(pre, l, |l.members|)
                                               + (if InWindow(pre, l, |l.members|) then [e] else [])
  {
    forall m: nat | m <= |l.members| ensures InWindow(pre, l', m) == InWindow(pre, l, m) {
      InWindowStays(pre, l, l', c, m);
    }
    assert l.members[..|l.members|] == l.members == l'.members[..|l.members|];
    WindowedAgrees(pre, l, l', |l.members|);
  }

  lemma SlideSlice<T>(xs: seq<T>, b: nat, x: T, excess: nat)
    requires b <= |xs| && b + excess <= |xs| + 1
    ensures (xs[b..] + [x])[excess..] == (xs + [x])[b + excess..]
  {
  }

  lemma BufferSlides(pre: nat, l: Ledger, l': Ledger, f: Flight, b: nat, e: Event, excess: nat)
    requires Buffers(pre, l, f, b) && l'.members == l.members + [e]
    requires excess == if |f.pre + [e]| > pre then |f.pre + [e]| - pre else 0
    requires forall m: nat :: m <= |l.members| ==> InWindow(pre, l', m) == InWindow(pre, l, m)
    requires !InWindow(pre, l, |l.members|)
    ensures Buffers(pre, l', f.(pre := (f.pre + [e])[excess..]), b + excess)
  {
    SlideSlice(l.members, b, e, excess);
    var n := |l.members|;
    forall m: nat | b + excess <= m <= n ensures !InWindow(pre, l', m) {
      assert InWindow(pre, l', m) == InWindow(pre, l, m);
    }
  }

  /** A member that triggers nothing, while no window is open. */
  lemma ClosedMemberKeeps(d: Definition, l: Ledger, f: Flight, b: nat, e: Event) returns (b': nat)
    requires Inv(d, l, f, b) && !f.active
    ensures var l' := Record(d, l, Arrival(e, true, false));
            var o := Deliver(d, f, e);
            && Inv(d, l', o.flight, b')
            && Windowed(d.pre, l', |l'.members|) == Windowed(d.pre, l, |l.members|) + o.emitted
  {
    var l', c := Record(d, l, Arrival(e, true, false)), e.captureSequence != l.inForce;
    MaxOwedMember(l, l', c, f.postRemaining);
    NextInWindow(d.pre, l, f.postRemaining);
    MemberAgrees(d.pre, l, l', c, e);
    var excess := if |f.pre + [e]| > d.pre then |f.pre + [e]| - d.pre else 0;
    BufferSlides(d.pre, l, l', f, b, e, excess);
    b' := b + excess;
  }

  /** A member that is itself a trigger. */
  lemma TriggerMemberKeeps(d: Definition, l: Ledger, f: Flight, b: nat, e: Event)
    requires Inv(d, l, f, b)
    ensures var l' := Record(d, l, Arrival(e, true, true));
            var o := Step(d, f, Arrival(e, true, true));
            && Inv(d, l', o.flight, |l'.members|)
            && Windowed(d.pre, l', |l'.members|) == Windowed(d.pre, l, |l.members|) + o.emitted
  {
    var l', t, n := Record(d, l, Arrival(e, true, true)), Trigger(|l.members|, true, d.post), |l.members|;
    var l1 := l.(members := l.members + [e], charged := l.charged + [false]);
    MemberAgrees(d.pre, l, l1, false, e);
    MaxOwedMember(l, l1, false, f.postRemaining);
    MaxOwedTrigger(l1, l', t, f.postRemaining);
    NextInWindow(d.pre, l, f.postRemaining);
    OwnWindow(d.pre, l, l1, l', f, b, t);
    assert l'.members[|l'.members|..] == [];
  }

  lemma OwnWindow(pre: nat, l: Ledger, l1: Ledger, l': Ledger, f: Flight, b: nat, t: Trigger)
    requires Buffers(pre, l, f, b) && t.own && t.at == |l.members| && |l1.members| == |l.members| + 1
    requires l1.members[..t.at] == l.members && l'.members == l1.members && l'.charged == l1.charged
    requires l'.triggers == l1.triggers + [t]
    requires forall m: nat :: m <= t.at ==> InWindow(pre, l1, m) == InWindow(pre, l, m)
    ensures forall m: nat :: m < |l'.members| && |l'.members| <= m + pre ==> InWindow(pre, l', m)
    ensures Windowed(pre, l', |l'.members|) == Windowed(pre, l, t.at) + (f.pre + [l'.members[t.at]])
  {
    forall m: nat | m <= t.at
      ensures InWindow(pre, l', m) == (InWindow(pre, l, m) || b <= m)
    {
      InWindowTrigger(pre, l1, l', t, m);
    }
    assert l.members[..b] == l'.members[..b];
    WindowedAgrees(pre, l, l', b);
    WindowedTakes(pre, l', b, t.at);
    WindowedSkips(pre, l, b, t.at);
    assert l'.members[b..t.at] == l.members[b..];
    Assoc(Windowed(pre, l, t.at), f.pre, [l'.members[t.at]]);
  }

  lemma StepKeeps(d: Definition, l: Ledger, f: Flight, b: nat, a: Input) returns (b': nat)
    requires Inv(d, l, f, b)
    ensures var l' := Record(d, l, a);
            var o := Step(d, f, a);
            && Inv(d, l', o.flight, b')
            && Windowed(d.pre, l', |l'.members|) == Windowed(d.pre, l, |l.members|) + o.emitted
  {
    match a
    case Forced(override, sequence) =>
      b' := |l.members|;
      TriggerKeeps(d, l, f, b, override, sequence);
    case Arrival(e, member, trigger) =>
      b' := |l.members|;
      if trigger && member {
        b' := |l.members| + 1;
        TriggerMemberKeeps(d, l, f, b, e);
      } else if trigger {
        TriggerKeeps(d, l, f, b, 0, e.captureSequence);
        assert Step(d, f, a).emitted == Activate(d, f, e.captureSequence, false, 0).emitted + [];
      } else if member {
        assert Step(d, f, a).emitted == [] + Deliver(d, f, e).emitted;
        if f.active {
          b' := |l.members| + 1;
          OpenMemberKeeps(d, l, f, b, e);
        } else {
          b' := ClosedMemberKeeps(d, l, f, b, e);
        }
      } else {
        b' := b;
        assert Windowed(d.pre, l, |l.members|) + [] == Windowed(d.pre, l, |l.members|);
      }
  }

  /** The recorder emits exactly the members that lie in a window of the whole
      history, in order of arrival, whatever the sequences and overrides are. */
  lemma {:induction false} RecorderEmitsWindows(d: Definition, h: seq<Input>) returns (b: nat)
    ensures var l := History(d, h);
            && Inv(d, l, Run(d, h).flight, b)
            && Run(d, h).emitted == Windowed(d.pre, l, |l.members|)
  {
    if h == [] {
      b := 0;
      assert BLANK.members[0..] == [];
    } else {
      var front := h[..|h| - 1];
      var b0 := RecorderEmitsWindows(d, front);
      b := StepKeeps(d, History(d, front), Run(d, front).flight, b0, h[|h| - 1]);
    }
  }

  // ------------------------------------------------------- distinct sequences

  /** Only accept calls, each event with a capture sequence of its own. */
  ghost predicate Distinct(h: seq<Input>) {
    && (forall i :: 0 <= i < |h| ==> h[i].Arrival?)
    && (forall i, j :: 0 <= i < j < |h| ==> h[i].event.captureSequence != h[j].event.captureSequence)
  }

  predicate IsTriggerInput(a: Input) {
    a.Forced? || a.trigger
  }

  function SequenceOf(a: Input): nat {
    if a.Forced? then a.sequence else a.event.captureSequence
  }

  /** No member that triggers nothing carries the sequence of an earlier trigger. */
  ghost predicate Unambiguous(h: seq<Input>) {
    forall i, j :: 0 <= i < j < |h| && IsTriggerInput(h[i]) && h[j].Arrival? && h[j].member && !h[j].trigger ==>
      SequenceOf(h[i]) != SequenceOf(h[j])
  }

  /** Forced triggers ask for no more than the recorder's own post events. */
  ghost predicate ModestOverrides(d: Definition, h: seq<Input>) {
    forall i :: 0 <= i < |h| && h[i].Forced? ==> h[i].override <= d.post
  }

  /** Member `m` is a trigger. */
  ghost predicate IsOwn(l: Ledger, m: nat) {
    exists i :: 0 <= i < |l.triggers| && l.triggers[i].own && l.triggers[i].at == m
  }

  ghost predicate Started(l: Ledger, m: nat) {
    exists i :: 0 <= i < |l.triggers| && After(l.triggers[i]) <= m
  }

  /** Behind a trigger, exactly the members that trigger nothing are charged. */
  ghost predicate ChargesOthers(l: Ledger) {
    forall m: nat :: m < |l.charged| && Started(l, m) ==> l.charged[m] == !IsOwn(l, m)
  }

  ghost predicate Tidy(l: Ledger) {
    LedgerOk(l) && ChargesOthers(l)
  }

  ghost predicate PlainReach(d: Definition, l: Ledger) {
    forall i :: 0 <= i < |l.triggers| ==> l.triggers[i].reach == d.post
  }

  lemma TriggerStaysTidy(l: Ledger, own: bool, reach: nat, sequence: nat)
    requires Tidy(l)
    ensures var l' := l.(triggers := l.triggers + [Trigger(|l.members|, own, reach)], inForce := sequence);
            forall m: nat :: m < |l.members| && Started(l', m) ==> l.charged[m] == !IsOwn(l', m)
  {
    var t := Trigger(|l.members|, own, reach);
    var l' := l.(triggers := l.triggers + [t], inForce := sequence);
    forall m: nat | m < |l.members| && Started(l', m) ensures l.charged[m] == !IsOwn(l', m) {
      var i :| 0 <= i < |l'.triggers| && After(l'.triggers[i]) <= m;
      assert l'.triggers[i] == l.triggers[i];
      assert Started(l, m);
      if IsOwn(l, m) {
        var j :| 0 <= j < |l.triggers| && l.triggers[j].own && l.triggers[j].at == m;
        assert l'.triggers[j].own && l'.triggers[j].at == m;
      }
      if IsOwn(l', m) {
        var j :| 0 <= j < |l'.triggers| && l'.triggers[j].own && l'.triggers[j].at == m;
        assert l.triggers[j].own && l.triggers[j].at == m;
      }
    }
  }

  lemma ArrivalStaysTidy(d: Definition, l: Ledger, e: Event, member: bool, trigger: bool)
    requires Tidy(l) && (member && !trigger && l.triggers != [] ==> l.inForce != e.captureSequence)
    ensures Tidy(Record(d, l, Arrival(e, member, trigger)))
  {
    var l' := Record(d, l, Arrival(e, member, trigger));
    if trigger {
      TriggerStaysTidy(l, member, d.post, e.captureSequence);
      assert member ==> l'.triggers[|l.triggers|].own && l'.triggers[|l.triggers|].at == |l.members|;
      var l1 := l.(triggers := l'.triggers, inForce := e.captureSequence);
      assert forall m: nat :: Started(l', m) == Started(l1, m);
      assert forall m: nat :: IsOwn(l', m) == IsOwn(l1, m);
    } else {
      assert forall m: nat :: Started(l', m) == Started(l, m);
      assert forall m: nat :: IsOwn(l', m) == IsOwn(l, m);
      assert !IsOwn(l, |l.members|);
    }
  }

  ghost predicate Announced(h: seq<Input>, sequence: nat) {
    exists i :: 0 <= i < |h| && IsTriggerInput(h[i]) && SequenceOf(h[i]) == sequence
  }

  lemma {:induction false} UnambiguousIsTidy(d: Definition, h: seq<Input>)
    requires Unambiguous(h)
    ensures Tidy(History(d, h))
    ensures History(d, h).triggers != [] ==> Announced(h, History(d, h).inForce)
  {
    if h != [] {
      var front, a := h[..|h| - 1], h[|h| - 1];
      UnambiguousIsTidy(d, front);
      var l := History(d, front);
      if l.triggers != [] {
        var i :| 0 <= i < |front| && IsTriggerInput(front[i]) && SequenceOf(front[i]) == l.inForce;
        assert IsTriggerInput(h[i]) && SequenceOf(h[i]) == l.inForce;
      }
      if a.Arrival? {
        ArrivalStaysTidy(d, l, a.event, a.member, a.trigger);
      } else {
        TriggerStaysTidy(l, false, Max(d.post, a.override), a.sequence);
      }
      assert IsTriggerInput(a) ==> SequenceOf(h[|h| - 1]) == History(d, h).inForce;
    }
  }

  lemma {:induction false} ModestReach(d: Definition, h: seq<Input>)
    requires ModestOverrides(d, h)
    ensures PlainReach(d, History(d, h))
  {
    if h != [] {
      ModestReach(d, h[..|h| - 1]);
      assert h[|h| - 1].Forced? ==> h[|h| - 1].override <= d.post;
    }
  }

  /** Member `m` is one of the last `pre` before a trigger, the trigger itself,
      or one of the next `post` after it. */
  ghost predicate NearTrigger(pre: nat, post: nat, t: Trigger, m: nat) {
    t.at <= m + pre && m < After(t) + post
  }

  ghost predicate NearSomeTrigger(pre: nat, post: nat, l: Ledger, m: nat) {
    exists i :: 0 <= i < |l.triggers| && NearTrigger(pre, post, l.triggers[i], m)
  }

  lemma {:induction false} CountAtMost(flags: seq<bool>)
    ensures Count(flags) <= |flags|
  {
    if flags != [] {
      CountAtMost(flags[..|flags| - 1]);
    }
  }

  /** The last stretch of charged members before `m`. */
  lemma {:induction false} LastStretch(charged: seq<bool>, a: nat, m: nat) returns (u: nat)
    requires a <= m <= |charged|
    ensures a <= u <= m && m - u <= Count(charged[a..m])
    ensures u == a || !charged[u - 1]
  {
    if a == m {
      u := a;
    } else {
      assert charged[a..m][..m - a - 1] == charged[a..m - 1];
      if charged[m - 1] {
        u := LastStretch(charged, a, m - 1);
      } else {
        u := m;
      }
    }
  }

  lemma CoverageIsNearness(d: Definition, l: Ledger, m: nat)
    requires Tidy(l) && PlainReach(d, l) && m < |l.members|
    ensures InWindow(d.pre, l, m) <==> NearSomeTrigger(d.pre, d.post, l, m)
  {
    if InWindow(d.pre, l, m) {
      var i :| 0 <= i < |l.triggers| && Covers(d.pre, l.charged, l.triggers[i], m);
      var t := l.triggers[i];
      if m < After(t) {
        assert NearTrigger(d.pre, d.post, t, m);
      } else {
        var u := LastStretch(l.charged, After(t), m);
        if u == After(t) {
          assert NearTrigger(d.pre, d.post, t, m);
        } else {
          assert Started(l, u - 1);
          assert IsOwn(l, u - 1);
          var j :| 0 <= j < |l.triggers| && l.triggers[j].own && l.triggers[j].at == u - 1;
          assert NearTrigger(d.pre, d.post, l.triggers[j], m);
        }
      }
    }
    if NearSomeTrigger(d.pre, d.post, l, m) {
      var i :| 0 <= i < |l.triggers| && NearTrigger(d.pre, d.post, l.triggers[i], m);
      var t := l.triggers[i];
      if After(t) <= m {
        CountAtMost(l.charged[After(t)..m]);
      }
      assert Covers(d.pre, l.charged, t, m);
    }
  }

  /** Members from rank `a` to below rank `m` that trigger nothing. */
  ghost function OthersBetween(l: Ledger, a: nat, m: nat): nat
    decreases m
  {
    if m <= a then 0 else OthersBetween(l, a, m - 1) + (if IsOwn(l, m - 1) then 0 else 1)
  }

  lemma {:induction false} ChargedAreOthers(l: Ledger, t: nat, m: nat)
    requires Tidy(l) && t < |l.triggers| && After(l.triggers[t]) <= m <= |l.members|
    ensures Count(l.charged[After(l.triggers[t])..m]) == OthersBetween(l, After(l.triggers[t]), m)
    decreases m
  {
    var a := After(l.triggers[t]);
    if a < m {
      ChargedAreOthers(l, t, m - 1);
      assert l.charged[a..m][..m - a - 1] == l.charged[a..m - 1];
      assert Started(l, m - 1);
    }
  }

  /** Member `m` is one of the last `pre` before the trigger, the trigger itself,
      or one of those after it until as many members as it asks for have come that
      are not triggers themselves. */
  ghost predicate Wanted(pre: nat, l: Ledger, t: Trigger, m: nat) {
    || m < t.at <= m + pre
    || (t.own && m == t.at)
    || (After(t) <= m && OthersBetween(l, After(t), m) < t.reach)
  }

  ghost predicate WantedBySome(pre: nat, l: Ledger, m: nat) {
    exists i :: 0 <= i < |l.triggers| && Wanted(pre, l, l.triggers[i], m)
  }

  lemma CoverageIsWanted(pre: nat, l: Ledger, m: nat)
    requires Tidy(l) && m < |l.members|
    ensures InWindow(pre, l, m) <==> WantedBySome(pre, l, m)
  {
    forall i | 0 <= i < |l.triggers|
      ensures Covers(pre, l.charged, l.triggers[i], m) == Wanted(pre, l, l.triggers[i], m)
    {
      if After(l.triggers[i]) <= m {
        ChargedAreOthers(l, i, m);
      }
    }
  }

  /** Forced triggers included: as long as no later member that triggers nothing
      carries the sequence of a trigger, a member is emitted exactly if some
      trigger wants it; and if no override exceeds `post`, these are the last
      `pre` before, the trigger itself, and the next `post` after. */
  lemma UnambiguousRunEmitsWindows(d: Definition, h: seq<Input>)
    requires Unambiguous(h)
    ensures var l := History(d, h);
            && Run(d, h).emitted == Windowed(d.pre, l, |l.members|)
            && (forall m: nat :: m < |l.members| ==> (InWindow(d.pre, l, m) <==> WantedBySome(d.pre, l, m)))
            && (ModestOverrides(d, h) ==> forall m: nat :: m < |l.members| ==>
                  (InWindow(d.pre, l, m) <==> NearSomeTrigger(d.pre, d.post, l, m)))
  {
    var b := RecorderEmitsWindows(d, h);
    UnambiguousIsTidy(d, h);
    var l := History(d, h);
    forall m: nat | m < |l.members|
      ensures InWindow(d.pre, l, m) <==> WantedBySome(d.pre, l, m)
    {
      CoverageIsWanted(d.pre, l, m);
    }
    if ModestOverrides(d, h) {
      ModestReach(d, h);
      forall m: nat | m < |l.members|
        ensures InWindow(d.pre, l, m) <==> NearSomeTrigger(d.pre, d.post, l, m)
      {
        CoverageIsNearness(d, l, m);
      }
    }
  }

  /** With distinct capture sequences, a member is emitted exactly if some trigger
      exists for which it is the trigger itself, one of the last `pre` members
      before it, or one of the next `post` members after it. */
  lemma DistinctRunEmitsNearTriggers(d: Definition, h: seq<Input>)
    requires Distinct(h)
    ensures var l := History(d, h);
            && Run(d, h).emitted == Windowed(d.pre, l, |l.members|)
            && forall m: nat :: m < |l.members| ==>
                 (InWindow(d.pre, l, m) <==> NearSomeTrigger(d.pre, d.post, l, m))
  {
    assert ModestOverrides(d, h);
    UnambiguousRunEmitsWindows(d, h);
  }

  // ------------------------------------------------- conservation and metrics

  /** Windows are counted right, and an open window has an empty buffer. */
  ghost predicate MetricsOk(d: Definition, f: Flight) {
    && f.triggers == f.retriggers + f.completed + (if f.active then 1 else 0)
    && f.active == (f.postRemaining > 0)
    && (f.active ==> f.pre == [])
    && |f.pre| <= d.pre
  }

  lemma StepKeepsMetrics(d: Definition, f: Flight, a: Input)
    requires MetricsOk(d, f)
    ensures MetricsOk(d, Step(d, f, a).flight)
  {
  }

  function MembersOf(a: Input): seq<Event> {
    if a.Arrival? && a.member then [a.event] else []
  }

  lemma ActivateConserves(d: Definition, f: Flight, sequence: nat, member: bool, override: nat)
    ensures var o := Activate(d, f, sequence, member, override);
            multiset(f.pre) == multiset(o.emitted) + multiset(o.flight.pre) && o.dropped == []
  {
  }

  lemma DeliverConserves(d: Definition, f: Flight, e: Event)
    ensures var o := Deliver(d, f, e);
            multiset(f.pre) + multiset([e]) == multiset(o.emitted) + multiset(o.flight.pre) + multiset(o.dropped)
  {
    var o := Deliver(d, f, e);
    if !f.active {
      assert multiset(f.pre + [e]) == multiset(f.pre) + multiset([e]);
      assert f.pre + [e] == o.dropped + o.flight.pre;
    } else {
      assert o.flight.pre == f.pre && o.emitted == [e] && o.dropped == [];
    }
  }

  lemma Carried<T>(em: multiset<T>, pre: multiset<T>, dr: multiset<T>, got: multiset<T>,
                   em': multiset<T>, pre': multiset<T>, dr': multiset<T>)
    requires pre + got == em' + pre' + dr'
    ensures em + pre + dr + got == (em + em') + pre' + (dr + dr')
  {
    assert em + pre + dr + got == em + dr + (pre + got);
  }

  /** What arrives is emitted, kept or dropped, once. */
  lemma StepConserves(d: Definition, f: Flight, a: Input)
    ensures var o := Step(d, f, a);
            multiset(f.pre) + multiset(MembersOf(a))
            == multiset(o.emitted) + multiset(o.flight.pre) + multiset(o.dropped)
  {
    match a
    case Forced(override, sequence) => ActivateConserves(d, f, sequence, false, override);
    case Arrival(e, member, trigger) =>
      ActivateConserves(d, f, e.captureSequence, member, 0);
      var t := if trigger then Activate(d, f, e.captureSequence, member, 0) else Outcome(f, [], []);
      assert multiset(f.pre) == multiset(t.emitted) + multiset(t.flight.pre);
      if member {
        DeliverConserves(d, t.flight, e);
        var m := Deliver(d, t.flight, e);
        Carried(multiset(t.emitted), multiset(t.flight.pre), multiset{}, multiset([e]),
                multiset(m.emitted), multiset(m.flight.pre), multiset(m.dropped));
      }
  }

  lemma {:induction false} RunKeepsMetrics(d: Definition, h: seq<Input>)
    ensures MetricsOk(d, Run(d, h).flight)
    ensures Run(d, h).flight.triggers == |History(d, h).triggers|
  {
    if h != [] {
      var front, a := h[..|h| - 1], h[|h| - 1];
      RunKeepsMetrics(d, front);
      StepKeepsMetrics(d, Run(d, front).flight, a);
    }
  }

  /** Some trigger still asks for members. */
  ghost predicate StillAsked(l: Ledger) {
    exists i :: 0 <= i < |l.triggers| && Owed(l.charged, l.triggers[i]) > 0
  }

  /** The triggers that came while an earlier one still asked for members. */
  ghost function Overlapping(d: Definition, h: seq<Input>): nat {
    if h == [] then 0
    else
      var front, a := h[..|h| - 1], h[|h| - 1];
      Overlapping(d, front) + (if IsTriggerInput(a) && StillAsked(History(d, front)) then 1 else 0)
  }

  lemma OpenIffAsked(d: Definition, h: seq<Input>)
    ensures Run(d, h).flight.active <==> StillAsked(History(d, h))
  {
    var b := RecorderEmitsWindows(d, h);
  }

  /** The counters mean what they say: every trigger is counted, those that came into
      an open window are counted again, and a window is complete that no trigger
      asks anything of any more. */
  lemma {:induction false} CountersAreExact(d: Definition, h: seq<Input>)
    ensures var f, l := Run(d, h).flight, History(d, h);
            && f.triggers == |l.triggers| && f.retriggers == Overlapping(d, h)
            && f.completed == |l.triggers| - Overlapping(d, h) - (if StillAsked(l) then 1 else 0)
  {
    if h != [] {
      CountersAreExact(d, h[..|h| - 1]);
      OpenIffAsked(d, h[..|h| - 1]);
    }
    RunKeepsMetrics(d, h);
    OpenIffAsked(d, h);
  }

  /** Over every run each member is emitted once, still buffered, or dropped. */
  lemma {:induction false} RunConserves(d: Definition, h: seq<Input>)
    ensures var o := Run(d, h);
            multiset(History(d, h).members)
            == multiset(o.emitted) + multiset(o.flight.pre) + multiset(o.dropped)
  {
    if h != [] {
      var front, a := h[..|h| - 1], h[|h| - 1];
      RunConserves(d, front);
      var before := Run(d, front);
      var o := Step(d, before.flight, a);
      StepConserves(d, before.flight, a);
      Carried(multiset(before.emitted), multiset(before.flight.pre), multiset(before.dropped), multiset(MembersOf(a)),
              multiset(o.emitted), multiset(o.flight.pre), multiset(o.dropped));
      assert History(d, h).members == History(d, front).members + MembersOf(a);
    }
  }
}
