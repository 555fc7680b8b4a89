/** What a trigger with a given sequence lets through, when plain members follow:
    exactly when the window has its promised length. */
module ForcedWindows {
  import opened Words
  import opened FlightWindows

  /** Members that trigger nothing. */
  function Arrivals(es: seq<Event>): (h: seq<Input>)
    ensures |h| == |es|
  {
    seq(|es|, i requires 0 <= i < |es| => Arrival(es[i], true, false))
  }

  /** How many of the members are let through while `room` of them are still
      wanted and those with the sequence of the trigger do not count. */
  function LetThrough(es: seq<Event>, sequence: nat, room: nat): (n: nat)
    ensures Min(room, |es|) <= n <= |es|
  {
    if es == [] || room == 0 then 0
    else 1 + LetThrough(es[1..], sequence, if es[0].captureSequence == sequence then room else room - 1)
  }

  /** Only the first `n` of the members matter. */
  ghost predicate NoneCarries(es: seq<Event>, sequence: nat, n: nat) {
    forall i :: 0 <= i < |es| && i < n ==> es[i].captureSequence != sequence
  }

  lemma {:induction false} LetThroughIsExactIff(es: seq<Event>, sequence: nat, room: nat)
    ensures LetThrough(es, sequence, room) == Min(room, |es|) <==> |es| <= room || NoneCarries(es, sequence, room)
  {
    if es != [] && room > 0 {
      var tail := es[1..];
      if es[0].captureSequence == sequence {
        assert !NoneCarries(es, sequence, room);
      } else {
        LetThroughIsExactIff(tail, sequence, room - 1);
        assert NoneCarries(es, sequence, room) <==> NoneCarries(tail, sequence, room - 1) by {
          if NoneCarries(tail, sequence, room - 1) {
            forall i | 0 <= i < |es| && i < room ensures es[i].captureSequence != sequence {
              assert i > 0 ==> es[i] == tail[i - 1];
            }
          }
          if NoneCarries(es, sequence, room) {
            forall i | 0 <= i < |tail| && i < room - 1 ensures tail[i].captureSequence != sequence {
              assert tail[i] == es[i + 1];
            }
          }
        }
      }
    }
  }

  lemma ArrivalsCons(h: seq<Input>, es: seq<Event>)
    requires es != []
    ensures h + Arrivals(es) == (h + [Arrival(es[0], true, false)]) + Arrivals(es[1..])
  {
  }

  lemma RunSnoc(d: Definition, h: seq<Input>, a: Input)
    ensures var before := Run(d, h);
            var o := Step(d, before.flight, a);
            Run(d, h + [a]) == Outcome(o.flight, before.emitted + o.emitted, before.dropped + o.dropped)
  {
    assert (h + [a])[..|h|] == h;
  }

  /** A member that triggers nothing comes out, and counts, as the recorder
      `before` it says. */
  ghost predicate LetsThrough(before: Outcome, e: Event, after: Outcome) {
    var f := before.flight;
    && after.emitted == before.emitted + (if f.postRemaining > 0 then [e] else [])
    && after.flight.triggerSequence == f.triggerSequence
    && after.flight.postRemaining ==
         if f.postRemaining == 0 || e.captureSequence == f.triggerSequence then f.postRemaining
         else f.postRemaining - 1
  }

  lemma OneFollower(d: Definition, h: seq<Input>, e: Event)
    ensures LetsThrough(Run(d, h), e, Run(d, h + [Arrival(e, true, false)]))
  {
    RunKeepsMetrics(d, h);
    RunSnoc(d, h, Arrival(e, true, false));
  }

  lemma LetThroughCons(es: seq<Event>, sequence: nat, room: nat)
    requires es != [] && room > 0
    ensures var n := LetThrough(es[1..], sequence, if es[0].captureSequence == sequence then room else room - 1);
            es[..LetThrough(es, sequence, room)] == [es[0]] + es[1..][..n]
  {
  }

  /** What has been emitted after the members, given what the next one does. */
  lemma OneMoreLetThrough(before: seq<Event>, es: seq<Event>, sequence: nat, room: nat, after: seq<Event>)
    requires es != []
    requires var next := if room == 0 || es[0].captureSequence == sequence then room else room - 1;
             after == before + (if room > 0 then [es[0]] else []) + es[1..][..LetThrough(es[1..], sequence, next)]
    ensures after == before + es[..LetThrough(es, sequence, room)]
  {
    if room > 0 {
      LetThroughCons(es, sequence, room);
      var n := LetThrough(es[1..], sequence, if es[0].captureSequence == sequence then room else room - 1);
      Assoc(before, [es[0]], es[1..][..n]);
    } else {
      assert before + [] + [] == before + [];
    }
  }

  lemma {:induction false} FollowersOf(run: seq<Input> -> Outcome, h: seq<Input>, es: seq<Event>)
    requires forall h, e :: LetsThrough(run(h), e, run(h + [Arrival(e, true, false)]))
    ensures var f := run(h).flight;
            run(h + Arrivals(es)).emitted
            == run(h).emitted + es[..LetThrough(es, f.triggerSequence, f.postRemaining)]
    decreases |es|
  {
    var before, f := run(h).emitted, run(h).flight;
    if es == [] {
      assert h + Arrivals(es) == h && before + [] == before;
    } else {
      var next := h + [Arrival(es[0], true, false)];
      ArrivalsCons(h, es);
      assert LetsThrough(run(h), es[0], run(next));
      FollowersOf(run, next, es[1..]);
      OneMoreLetThrough(before, es, f.triggerSequence, f.postRemaining, run(h + Arrivals(es)).emitted);
    }
  }

  /** After any history, the members that follow are let through as long as the
      recorder still wants some. */
  lemma FollowersAreLetThrough(d: Definition, h: seq<Input>, es: seq<Event>)
    ensures var f := Run(d, h).flight;
            Run(d, h + Arrivals(es)).emitted
            == Run(d, h).emitted + es[..LetThrough(es, f.triggerSequence, f.postRemaining)]
  {
    forall h, e ensures LetsThrough(Run(d, h), e, Run(d, h + [Arrival(e, true, false)])) {
      OneFollower(d, h, e);
    }
    FollowersOf((h: seq<Input>) => Run(d, h), h, es);
  }

  /** Exactly when a forced trigger yields its window, after any history: the
      members that follow it and trigger nothing come out in the wanted number if
      and only if there are no more of them than that, or none of the first ones
      carries the sequence the trigger was given. */
  lemma ForcedWindowIsExactIff(
      d: Definition, h: seq<Input>, override: nat, sequence: nat, es: seq<Event>)
    ensures var g := h + [Forced(override, sequence)];
            var wanted := Max(Run(d, h).flight.postRemaining, Max(d.post, override));
            var through := |Run(d, g + Arrivals(es)).emitted| - |Run(d, g).emitted|;
            && Min(wanted, |es|) <= through <= |es|
            && Run(d, g + Arrivals(es)).emitted == Run(d, g).emitted + es[..through]
            && (through == Min(wanted, |es|) <==> |es| <= wanted || NoneCarries(es, sequence, wanted))
  {
    var g := h + [Forced(override, sequence)];
    RunSnoc(d, h, Forced(override, sequence));
    FollowersAreLetThrough(d, g, es);
    LetThroughIsExactIff(es, sequence, Run(d, g).flight.postRemaining);
  }

  /** The same from a fresh recorder. */
  lemma ForcedRunIsExactIff(d: Definition, override: nat, sequence: nat, es: seq<Event>)
    ensures var n := Max(d.post, override);
            |Run(d, [Forced(override, sequence)] + Arrivals(es)).emitted| == Min(n, |es|)
            <==> |es| <= n || NoneCarries(es, sequence, n)
  {
    assert [] + [Forced(override, sequence)] == [Forced(override, sequence)];
    ForcedWindowIsExactIff(d, [], override, sequence, es);
    RunSnoc(d, [], Forced(override, sequence));
  }

  lemma CountedAll(es: seq<Event>, sequence: nat, room: nat)
    requires NoneCarries(es, sequence, |es|)
    ensures LetThrough(es, sequence, room) == Min(room, |es|)
  {
    LetThroughIsExactIff(es, sequence, room);
  }

  /** A forced trigger that names the sequence of the very next member, and of no
      later one, lets exactly one member more through than it asks for. */
  lemma ForcedAtNextSequence(d: Definition, h: seq<Input>, override: nat, sequence: nat, es: seq<Event>)
    requires var wanted := Max(Run(d, h).flight.postRemaining, Max(d.post, override)); 0 < wanted < |es|
    requires es[0].captureSequence == sequence && NoneCarries(es[1..], sequence, |es|)
    ensures var g := h + [Forced(override, sequence)];
            var wanted := Max(Run(d, h).flight.postRemaining, Max(d.post, override));
            Run(d, g + Arrivals(es)).emitted == Run(d, g).emitted + es[..wanted + 1]
  {
    var g := h + [Forced(override, sequence)];
    RunSnoc(d, h, Forced(override, sequence));
    FollowersAreLetThrough(d, g, es);
    CountedAll(es[1..], sequence, Run(d, g).flight.postRemaining);
  }
}
