/** What dispatching and binding achieve over whole runs of the stop sink: which
    dispatches are delivered, to whom, and what the answers of bind and unbind
    mean. The notes of a run are read off its states, before and after each step. */
module SinkRuns {
  import opened Words
  import opened StopSink

  /** `depth` counts the dispatches of the thread that are under way below. */
  datatype Note =
    | Began(thread: nat, depth: nat)
    | Loaded(thread: nat, depth: nat, found: Option<Sink>)
    | Called(thread: nat, depth: nat, sink: Sink)
    | Ended(thread: nat, depth: nat)
    | Swapped(thread: nat, sink: Sink, found: Option<Sink>)
    | Answered(thread: nat, answer: Answer, bound: Option<Sink>)

  /** What a thread's stack of dispatches has gone through, with the sink that was
      bound at the step. */
  function FrameNotes(t: nat, before: seq<Frame>, now: seq<Frame>, bound: Option<Sink>): seq<Note> {
    if |now| > |before| then [Began(t, |before|)]
    else if |now| < |before| then [Ended(t, |now|)]
    else if now == [] then []
    else
      var n := |now| - 1;
      (if before[n].Entered? && !now[n].Entered? then [Loaded(t, n, bound)] else [])
      + (if now[n].InCallback? && !before[n].InCallback? then [Called(t, n, now[n].sink)] else [])
  }

  function TaskNotes(t: nat, before: Task, now: Task, bound: Option<Sink>): seq<Note> {
    if before.UnbindSwapping? && now != before then [Swapped(t, before.sink, bound)]
    else if before.Unlocking? && now.NoTask? then [Answered(t, before.answer, bound)]
    else []
  }

  function NotesOf(s: State, a: Action): seq<Note> {
    var t, s' := a.thread, Step(s, a);
    if t < |s.threads| && t < |s'.threads|
    then FrameNotes(t, s.threads[t].frames, s'.threads[t].frames, s.sink)
         + TaskNotes(t, s.threads[t].task, s'.threads[t].task, s.sink)
    else []
  }

  function Notes(s: State, actions: seq<Action>): seq<Note>
    decreases |actions|
  {
    if actions == [] then [] else NotesOf(s, actions[0]) + Notes(Step(s, actions[0]), actions[1..])
  }

  function CallIn(x: Note, t: nat, d: nat): seq<Sink> {
    if x.Called? && x.thread == t && x.depth == d then [x.sink] else []
  }

  function LoadIn(x: Note, t: nat, d: nat): seq<Option<Sink>> {
    if x.Loaded? && x.thread == t && x.depth == d then [x.found] else []
  }

  /** The sinks called by the dispatches of a thread at a depth, in order. */
  function CallsOf(notes: seq<Note>, t: nat, d: nat): seq<Sink> {
    if notes == [] then [] else CallIn(notes[0], t, d) + CallsOf(notes[1..], t, d)
  }

  /** What they found bound. */
  function LoadsOf(notes: seq<Note>, t: nat, d: nat): seq<Option<Sink>> {
    if notes == [] then [] else LoadIn(notes[0], t, d) + LoadsOf(notes[1..], t, d)
  }

  lemma {:induction false} CallsJoin(xs: seq<Note>, ys: seq<Note>, t: nat, d: nat)
    ensures CallsOf(xs + ys, t, d) == CallsOf(xs, t, d) + CallsOf(ys, t, d)
  {
    if xs == [] {
      assert xs + ys == ys;
    } else {
      CallsJoin(xs[1..], ys, t, d);
      assert (xs + ys)[1..] == xs[1..] + ys;
      Assoc(CallIn(xs[0], t, d), CallsOf(xs[1..], t, d), CallsOf(ys, t, d));
    }
  }

  lemma {:induction false} LoadsJoin(xs: seq<Note>, ys: seq<Note>, t: nat, d: nat)
    ensures LoadsOf(xs + ys, t, d) == LoadsOf(xs, t, d) + LoadsOf(ys, t, d)
  {
    if xs == [] {
      assert xs + ys == ys;
    } else {
      LoadsJoin(xs[1..], ys, t, d);
      assert (xs + ys)[1..] == xs[1..] + ys;
      Assoc(LoadIn(xs[0], t, d), LoadsOf(xs[1..], t, d), LoadsOf(ys, t, d));
    }
  }

  lemma {:induction false} LoadedIsNoted(notes: seq<Note>, t: nat, d: nat, x: Option<Sink>)
    requires x in LoadsOf(notes, t, d)
    ensures Loaded(t, d, x) in notes
  {
    if notes[0] != Loaded(t, d, x) {
      LoadedIsNoted(notes[1..], t, d, x);
    }
  }

  // ----------------------------------------------------------- one dispatch

  predicate At(s: State, t: nat, d: nat) {
    t < |s.threads| && d < |s.threads[t].frames|
  }

  lemma OthersStay(s: State, a: Action)
    ensures |Step(s, a).threads| == |s.threads|
    ensures forall u :: 0 <= u < |s.threads| && u != a.thread ==> Step(s, a).threads[u] == s.threads[u]
  {
  }

  /** A step of the thread at the top of its stack. */
  ghost predicate TopMoves(s: State, s': State, t: nat, d: nat, notes: seq<Note>)
    requires At(s, t, d)
  {
    var f := s.threads[t].frames[d];
    if Ended(t, d) in notes then notes == [Ended(t, d)] && f.Leaving?
    else
      && At(s', t, d)
      && var f' := s'.threads[t].frames[d];
      var calls, loads := CallsOf(notes, t, d), LoadsOf(notes, t, d);
      || (f' == f && calls == [] && loads == [])
      || (f.Entered? && f'.Leaving? && s.sink == None && calls == [] && loads == [None])
      || (f.Entered? && f'.InCallback? && s.sink == Some(f'.sink) && calls == [f'.sink] && loads == [s.sink])
      || (f.InCallback? && f'.Leaving? && calls == [] && loads == [])
  }

  lemma NoCallsElsewhere(notes: seq<Note>, t: nat, d: nat)
    requires |notes| <= 2
    requires forall x :: x in notes && (x.Called? || x.Loaded?) ==> x.thread != t || x.depth != d
    ensures CallsOf(notes, t, d) == [] && LoadsOf(notes, t, d) == []
  {
    if notes != [] {
      assert notes[0] in notes;
      if |notes| == 2 {
        assert notes[1] in notes && notes[1..] == [notes[1]];
      }
    }
  }

  lemma StepOfOther(s: State, a: Action, t: nat, d: nat)
    requires At(s, t, d) && a.thread != t
    ensures TopMoves(s, Step(s, a), t, d, NotesOf(s, a))
  {
    OthersStay(s, a);
    NoCallsElsewhere(NotesOf(s, a), t, d);
  }

  lemma CallerFrames(s: State, a: Action, t: nat)
    requires t < |s.threads| && a.thread == t && (!a.kind.Go? || !s.threads[t].task.NoTask?)
    ensures t < |Step(s, a).threads|
    ensures var was, now := s.threads[t].frames, Step(s, a).threads[t].frames;
            now == was || now == was + [Entered]
  {
  }

  lemma CallerNotes(t: nat, was: seq<Frame>, now: seq<Frame>, bound: Option<Sink>, x: Note)
    requires now == was || now == was + [Entered]
    requires x in FrameNotes(t, was, now, bound)
    ensures x.Began?
  {
  }

  lemma StepOfCaller(s: State, a: Action, t: nat, d: nat)
    requires At(s, t, d) && a.thread == t && (!a.kind.Go? || !s.threads[t].task.NoTask?)
    ensures TopMoves(s, Step(s, a), t, d, NotesOf(s, a))
  {
    var s' := Step(s, a);
    var was, now := s.threads[t].frames, s'.threads[t].frames;
    CallerFrames(s, a, t);
    forall x | x in NotesOf(s, a) ensures x.Began? || x.Swapped? || x.Answered? {
      if x in FrameNotes(t, was, now, s.sink) {
        CallerNotes(t, was, now, s.sink, x);
      }
    }
    NoCallsElsewhere(NotesOf(s, a), t, d);
    assert At(s', t, d) && now[d] == was[d];
    assert Ended(t, d) !in NotesOf(s, a);
    assert CallsOf(NotesOf(s, a), t, d) == [] && LoadsOf(NotesOf(s, a), t, d) == [];
  }

  lemma TopFrameMoves(s: State, t: nat)
    requires t < |s.threads| && s.threads[t].task.NoTask? && s.threads[t].frames != []
    ensures var a := StopSink.Action(t, Go);
            var was := s.threads[t].frames;
            var now, n := Step(s, a).threads[t].frames, |was| - 1;
            && |Step(s, a).threads| == |s.threads| && Step(s, a).threads[t].task.NoTask?
            && match was[n]
               case Entered => now == was[n := if s.sink.None? then Leaving else InCallback(s.sink.value)]
               case InCallback(_) => now == was[n := Leaving]
               case Leaving => now == was[..n]
  {
  }

  lemma StepOfThread(s: State, t: nat, d: nat)
    requires At(s, t, d) && s.threads[t].task.NoTask?
    ensures TopMoves(s, Step(s, StopSink.Action(t, Go)), t, d, NotesOf(s, StopSink.Action(t, Go)))
  {
    var a := StopSink.Action(t, Go);
    TopFrameMoves(s, t);
    var notes, n := NotesOf(s, a), |s.threads[t].frames| - 1;
    if s.threads[t].frames[n].Leaving? {
      assert notes == [Ended(t, n)];
    }
    if d < n {
      NoCallsElsewhere(notes, t, d);
    } else if s.threads[t].frames[n].Entered? {
      assert s.sink.None? ==> notes == [Loaded(t, n, None)];
      if s.sink.Some? {
        assert notes == [Loaded(t, n, s.sink)] + [Called(t, n, s.sink.value)];
        CallsJoin([Loaded(t, n, s.sink)], [Called(t, n, s.sink.value)], t, n);
        LoadsJoin([Loaded(t, n, s.sink)], [Called(t, n, s.sink.value)], t, n);
      }
    } else {
      assert s.threads[t].frames[n].InCallback? ==> notes == [];
    }
  }

  lemma StepMoves(s: State, a: Action, t: nat, d: nat)
    requires At(s, t, d)
    ensures TopMoves(s, Step(s, a), t, d, NotesOf(s, a))
  {
    if a.thread != t {
      StepOfOther(s, a, t, d);
    } else if a.kind.Go? && s.threads[t].task.NoTask? {
      StepOfThread(s, t, d);
    } else {
      StepOfCaller(s, a, t, d);
    }
  }

  /** What a dispatch whose innermost frame is `f` goes through before it ends. */
  predicate GoesThrough(f: Frame, notes: seq<Note>, t: nat, d: nat) {
    var loads, calls := LoadsOf(notes, t, d), CallsOf(notes, t, d);
    match f
    case Entered => |loads| == 1 && calls == Listed(loads[0])
    case InCallback(_) => loads == [] && calls == []
    case Leaving => loads == [] && calls == []
  }

  /** Note `e` is the next end of a dispatch of this thread at this depth. */
  ghost predicate EndsAt(notes: seq<Note>, e: nat, t: nat, d: nat) {
    e < |notes| && notes[e] == Ended(t, d) && Ended(t, d) !in notes[..e]
  }

  lemma EndsLater(first: seq<Note>, rest: seq<Note>, e: nat, t: nat, d: nat)
    requires EndsAt(first + rest, e, t, d) && Ended(t, d) !in first
    ensures |first| <= e && EndsAt(rest, e - |first|, t, d)
    ensures (first + rest)[..e] == first + rest[..e - |first|]
  {
    assert forall i :: 0 <= i < |first| ==> (first + rest)[i] == first[i] && first[i] in first;
    assert (first + rest)[..e] == first + rest[..e - |first|];
  }

  lemma GoesOn(s: State, s': State, first: seq<Note>, rest: seq<Note>, t: nat, d: nat)
    requires At(s, t, d) && TopMoves(s, s', t, d, first) && Ended(t, d) !in first
    requires At(s', t, d) && GoesThrough(s'.threads[t].frames[d], rest, t, d)
    ensures GoesThrough(s.threads[t].frames[d], first + rest, t, d)
  {
    CallsJoin(first, rest, t, d);
    LoadsJoin(first, rest, t, d);
  }

  lemma GoneThrough(s: State, s': State, first: seq<Note>, rest: seq<Note>, t: nat, d: nat, e: nat)
    requires At(s, t, d) && TopMoves(s, s', t, d, first) && Ended(t, d) in first
    requires EndsAt(first + rest, e, t, d)
    ensures GoesThrough(s.threads[t].frames[d], (first + rest)[..e], t, d)
  {
    assert (first + rest)[0] == Ended(t, d);
    assert (first + rest)[..e] == [];
  }

  type Stepper = (State, Action) -> State
  type Noter = (State, Action) -> seq<Note>

  const STEP: Stepper := (s: State, a: Action) => Step(s, a)
  const NOTE: Noter := (s: State, a: Action) => NotesOf(s, a)

  /** The notes of a run, for a step that is not looked into. */
  function NotesBy(step: Stepper, note: Noter, s: State, actions: seq<Action>): seq<Note>
    decreases |actions|
  {
    if actions == [] then [] else note(s, actions[0]) + NotesBy(step, note, step(s, actions[0]), actions[1..])
  }

  lemma {:induction false} NotesAreBy(s: State, actions: seq<Action>)
    ensures NotesBy(STEP, NOTE, s, actions) == Notes(s, actions)
    decreases |actions|
  {
    if actions != [] {
      NotesAreBy(STEP(s, actions[0]), actions[1..]);
    }
  }

  ghost predicate MovesTops(step: Stepper, note: Noter) {
    forall s, a, t, d {:trigger TopMoves(s, step(s, a), t, d, note(s, a))} ::
      At(s, t, d) ==> TopMoves(s, step(s, a), t, d, note(s, a))
  }

  ghost predicate BeginsEntered(step: Stepper, note: Noter) {
    forall s, a, t: nat, d: nat :: Began(t, d) in note(s, a) ==>
      note(s, a) == [Began(t, d)] && At(step(s, a), t, d) && step(s, a).threads[t].frames[d].Entered?
  }

  lemma BeganIsEntered(s: State, a: Action, t: nat, d: nat)
    requires Began(t, d) in NotesOf(s, a)
    ensures NotesOf(s, a) == [Began(t, d)] && At(Step(s, a), t, d) && Step(s, a).threads[t].frames[d].Entered?
  {
    var u, s' := a.thread, Step(s, a);
    var fs, fs' := s.threads[u].frames, s'.threads[u].frames;
    assert TaskNotes(u, s.threads[u].task, s'.threads[u].task, s.sink) == [] || |fs'| <= |fs|;
    assert |fs'| > |fs| && fs' == fs + [Entered];
  }

  lemma StepsInUse()
    ensures MovesTops(STEP, NOTE) && BeginsEntered(STEP, NOTE)
  {
    forall s, a, t, d | At(s, t, d) ensures TopMoves(s, STEP(s, a), t, d, NOTE(s, a)) {
      StepMoves(s, a, t, d);
    }
    forall s, a, t: nat, d: nat | Began(t, d) in NOTE(s, a)
      ensures NOTE(s, a) == [Began(t, d)] && At(STEP(s, a), t, d) && STEP(s, a).threads[t].frames[d].Entered?
    {
      BeganIsEntered(s, a, t, d);
    }
  }

  /** A dispatch that has yet to load the sink calls what it finds, once, before it
      ends; one that has loaded makes no further call. */
  lemma {:induction false} EndsAfterCall(
      step: Stepper, note: Noter, s: State, actions: seq<Action>, t: nat, d: nat, e: nat)
    requires MovesTops(step, note) && At(s, t, d) && EndsAt(NotesBy(step, note, s, actions), e, t, d)
    ensures GoesThrough(s.threads[t].frames[d], NotesBy(step, note, s, actions)[..e], t, d)
    decreases |actions|
  {
    var s', first := step(s, actions[0]), note(s, actions[0]);
    var rest := NotesBy(step, note, s', actions[1..]);
    assert TopMoves(s, s', t, d, first);
    if Ended(t, d) in first {
      GoneThrough(s, s', first, rest, t, d, e);
    } else {
      EndsLater(first, rest, e, t, d);
      EndsAfterCall(step, note, s', actions[1..], t, d, e - |first|);
      GoesOn(s, s', first, rest[..e - |first|], t, d);
    }
  }

  /** Notes `b` to `e` are one dispatch of thread `t` at depth `d`, from begin to end. */
  ghost predicate IsDispatch(notes: seq<Note>, b: nat, e: nat, t: nat, d: nat) {
    && b < e < |notes| && notes[b] == Began(t, d) && notes[e] == Ended(t, d)
    && Ended(t, d) !in notes[b + 1..e]
  }

  /** One load of the sink, and a call of what it found. */
  predicate Delivers(notes: seq<Note>, t: nat, d: nat) {
    |LoadsOf(notes, t, d)| == 1 && CallsOf(notes, t, d) == Listed(LoadsOf(notes, t, d)[0])
  }

  lemma SliceBehind<T>(xs: seq<T>, ys: seq<T>, i: nat, j: nat)
    requires |xs| <= i <= j <= |xs + ys|
    ensures (xs + ys)[i..j] == ys[i - |xs|..j - |xs|]
  {
  }

  lemma DispatchBehind(first: seq<Note>, rest: seq<Note>, b: nat, e: nat, t: nat, d: nat)
    requires IsDispatch(first + rest, b, e, t, d) && |first| <= b
    ensures IsDispatch(rest, b - |first|, e - |first|, t, d)
    ensures (first + rest)[b + 1..e] == rest[b - |first| + 1..e - |first|]
  {
    SliceBehind(first, rest, b + 1, e);
  }

  lemma DispatchBegins(x: Note, rest: seq<Note>, e: nat, t: nat, d: nat)
    requires IsDispatch([x] + rest, 0, e, t, d)
    ensures EndsAt(rest, e - 1, t, d) && ([x] + rest)[1..e] == rest[..e - 1]
  {
    SliceBehind([x], rest, 1, e);
  }

  lemma LaterDispatch(first: seq<Note>, rest: seq<Note>, b: nat, e: nat, t: nat, d: nat)
    requires IsDispatch(first + rest, b, e, t, d) && |first| <= b
    requires IsDispatch(rest, b - |first|, e - |first|, t, d) ==>
               Delivers(rest[b - |first| + 1..e - |first|], t, d)
    ensures Delivers((first + rest)[b + 1..e], t, d)
  {
    DispatchBehind(first, rest, b, e, t, d);
  }

  lemma {:induction false} DispatchDelivers(
      step: Stepper, note: Noter, s: State, actions: seq<Action>, b: nat, e: nat, t: nat, d: nat)
    requires MovesTops(step, note) && BeginsEntered(step, note)
    requires IsDispatch(NotesBy(step, note, s, actions), b, e, t, d)
    ensures Delivers(NotesBy(step, note, s, actions)[b + 1..e], t, d)
    decreases |actions|
  {
    var s', first := step(s, actions[0]), note(s, actions[0]);
    var rest := NotesBy(step, note, s', actions[1..]);
    if b < |first| {
      assert first[b] == Began(t, d);
      DispatchBegins(Began(t, d), rest, e, t, d);
      EndsAfterCall(step, note, s', actions[1..], t, d, e - 1);
    } else {
      if IsDispatch(rest, b - |first|, e - |first|, t, d) {
        DispatchDelivers(step, note, s', actions[1..], b - |first|, e - |first|, t, d);
      }
      LaterDispatch(first, rest, b, e, t, d);
    }
  }

  /** Every dispatch of every run looks once which sink is bound, and is in a
      callback once if there is one, on that sink, and in none if there is none. */
  lemma DispatchDeliversWhatItLoads(s: State, actions: seq<Action>, b: nat, e: nat, t: nat, d: nat)
    requires IsDispatch(Notes(s, actions), b, e, t, d)
    ensures Delivers(Notes(s, actions)[b + 1..e], t, d)
  {
    StepsInUse();
    NotesAreBy(s, actions);
    DispatchDelivers(STEP, NOTE, s, actions, b, e, t, d);
  }

  // ------------------------------------------------------ while a sink is bound

  /** Nobody is unbinding this sink. */
  predicate NoUnbind(s: State, k: Sink) {
    forall t :: 0 <= t < |s.threads| ==>
      var task := s.threads[t].task;
      !(task.UnbindLocking? && task.sink == k) && !(task.UnbindSwapping? && task.sink == k)
  }

  predicate NeverUnbinds(actions: seq<Action>, k: Sink) {
    forall a :: a in actions ==> a.kind != Unbind(k)
  }

  /** A sink stays bound until an unbind of it begins. */
  lemma BoundStays(s: State, a: Action, k: Sink)
    requires Inv(s) && s.sink == Some(k) && NoUnbind(s, k) && a.kind != Unbind(k)
    ensures Step(s, a).sink == Some(k) && NoUnbind(Step(s, a), k)
  {
    if a.thread < |s.threads| {
      assert ThreadOk(s, a.thread);
    }
  }

  lemma {:induction false} BoundIsLoaded(s: State, actions: seq<Action>, k: Sink, x: Note)
    requires Inv(s) && s.sink == Some(k) && NoUnbind(s, k) && NeverUnbinds(actions, k)
    requires x in Notes(s, actions) && x.Loaded?
    ensures x.found == Some(k)
    decreases |actions|
  {
    assert actions[0] in actions;
    BoundStays(s, actions[0], k);
    StepKeeps(s, actions[0]);
    if x !in NotesOf(s, actions[0]) {
      BoundIsLoaded(Step(s, actions[0]), actions[1..], k, x);
    }
  }

  /** What a bind answers is whether its sink is bound when it lets go of the lock. */
  ghost predicate BindsAnswerRight(s: State) {
    forall t :: 0 <= t < |s.threads| && s.threads[t].task.Unlocking? && s.threads[t].task.answer.BindAnswer? ==>
      s.sink.Some? && (s.threads[t].task.answer.ok <==> s.sink == Some(s.threads[t].task.answer.sink))
  }

  lemma BindsStayRight(s: State, a: Action)
    requires Inv(s) && BindsAnswerRight(s)
    ensures BindsAnswerRight(Step(s, a))
  {
    var s', t := Step(s, a), a.thread;
    if t < |s.threads| {
      forall u | 0 <= u < |s'.threads| && s'.threads[u].task.Unlocking? && s'.threads[u].task.answer.BindAnswer?
        ensures s'.sink.Some? && (s'.threads[u].task.answer.ok <==> s'.sink == Some(s'.threads[u].task.answer.sink))
      {
        assert ThreadOk(s, t) && ThreadOk(s, u);
      }
    }
  }

  predicate BindNoteIsRight(x: Note) {
    x.Answered? && x.answer.BindAnswer? ==> x.bound.Some? && (x.answer.ok <==> x.bound == Some(x.answer.sink))
  }

  lemma BindNotesAreRight(s: State, a: Action)
    requires BindsAnswerRight(s)
    ensures forall x :: x in NotesOf(s, a) ==> BindNoteIsRight(x)
  {
    OthersStay(s, a);
  }

  lemma {:induction false} RunStaysRight(s: State, actions: seq<Action>)
    requires Inv(s) && BindsAnswerRight(s)
    ensures BindsAnswerRight(Run(s, actions))
    ensures forall x :: x in Notes(s, actions) ==> BindNoteIsRight(x)
    decreases |actions|
  {
    if actions != [] {
      BindsStayRight(s, actions[0]);
      BindNotesAreRight(s, actions[0]);
      StepKeeps(s, actions[0]);
      RunStaysRight(Step(s, actions[0]), actions[1..]);
    }
  }

  /** In every run some sink is bound when a bind lets go of the lock, and it answers
      true if and only if that is its own. */
  lemma BindAnswerIsExact(count: nat, actions: seq<Action>, x: Note)
    requires x in Notes(Initial(count), actions) && x.Answered? && x.answer.BindAnswer?
    ensures x.bound.Some? && (x.answer.ok <==> x.bound == Some(x.answer.sink))
  {
    InitialKeeps(count);
    RunStaysRight(Initial(count), actions);
  }

  /** A bound sink gets every dispatch: in every run, once a bind of a sink has
      answered true and nobody is unbinding it, every dispatch that begins and ends
      in a continuation in which no unbind of it begins is in a callback on that
      sink exactly once, and in no other. */
  lemma BoundSinkGetsEveryDispatch(
      count: nat, before: seq<Action>, u: nat, k: Sink, after: seq<Action>, b: nat, e: nat, t: nat, d: nat)
    requires var s := Run(Initial(count), before);
             && u < |s.threads| && s.threads[u].task == Unlocking(BindAnswer(k, true))
             && NoUnbind(s, k) && NeverUnbinds(after, k)
             && IsDispatch(Notes(s, after), b, e, t, d)
    ensures CallsOf(Notes(Run(Initial(count), before), after)[b + 1..e], t, d) == [k]
  {
    var s := Run(Initial(count), before);
    InitialKeeps(count);
    RunKeeps(Initial(count), before);
    RunStaysRight(Initial(count), before);
    DispatchDeliversWhatItLoads(s, after, b, e, t, d);
    var during := Notes(s, after)[b + 1..e];
    var x := LoadsOf(during, t, d)[0];
    LoadedIsNoted(during, t, d, x);
    BoundIsLoaded(s, after, k, Loaded(t, d, x));
  }

  // --------------------------------------------------------- before any bind

  predicate NobodyBinds(s: State) {
    forall t :: 0 <= t < |s.threads| ==>
      var task := s.threads[t].task; !task.BindLocking? && !task.BindChecking? && !task.BindStoring?
  }

  lemma UnboundStays(s: State, a: Action)
    requires s.sink == None && NobodyBinds(s) && !a.kind.Bind?
    ensures Step(s, a).sink == None && NobodyBinds(Step(s, a))
    ensures forall x :: x in NotesOf(s, a) ==> !x.Called?
  {
  }

  lemma {:induction false} UnboundIsSilent(s: State, actions: seq<Action>, x: Note)
    requires s.sink == None && NobodyBinds(s) && forall a :: a in actions ==> !a.kind.Bind?
    requires x in Notes(s, actions)
    ensures !x.Called?
    decreases |actions|
  {
    assert actions[0] in actions;
    UnboundStays(s, actions[0]);
    if x !in NotesOf(s, actions[0]) {
      UnboundIsSilent(Step(s, actions[0]), actions[1..], x);
    }
  }

  /** As long as no bind begins, nothing is delivered. */
  lemma NothingIsDeliveredUnbound(count: nat, actions: seq<Action>, x: Note)
    requires x in Notes(Initial(count), actions) && forall a :: a in actions ==> !a.kind.Bind?
    ensures !x.Called?
  {
    UnboundIsSilent(Initial(count), actions, x);
  }

  lemma NotesCons(s: State, a: Action, rest: seq<Action>)
    ensures Notes(s, [a] + rest) == NotesOf(s, a) + Notes(Step(s, a), rest)
  {
    assert ([a] + rest)[1..] == rest;
  }

  /** The steps of the run below: thread 0 begins a dispatch, thread 1 binds, and
      then thread 0 goes on. */
  function EarlyRun(k: Sink): seq<Action> {
    [StopSink.Action(0, Dispatch), StopSink.Action(1, Bind(k)), StopSink.Action(1, Go), StopSink.Action(1, Go),
     StopSink.Action(1, Go), StopSink.Action(0, Go), StopSink.Action(0, Go), StopSink.Action(0, Go)]
  }

  function Two(sink: Option<Sink>, lock: Option<nat>, frame: Frame, task: Task): State {
    State(sink, 1, lock, [Thread([frame], NoTask), Thread([], task)], {})
  }

  lemma Updates<T>(x: T, y: T, z: T)
    ensures [x, y][0 := z] == [z, y] && [x, y][1 := z] == [x, z] && [x][0 := z] == [z]
    ensures [] + [x] == [x] && [x][..0] == []
  {
  }

  lemma EarlyBegin()
    ensures var a := StopSink.Action(0, Dispatch);
            Step(Initial(2), a) == Two(None, None, Entered, NoTask) && NotesOf(Initial(2), a) == [Began(0, 0)]
  {
    assert Initial(2).threads == [Thread([], NoTask), Thread([], NoTask)];
    Updates(Entered, Entered, Entered);
    Updates(Thread([], NoTask), Thread([], NoTask), Thread([Entered], NoTask));
  }

  /** Thread 1 goes on with its bind; nothing is noted. */
  lemma EarlyBind(sink: Option<Sink>, lock: Option<nat>, task: Task, sink': Option<Sink>, lock': Option<nat>,
                  task': Task, kind: Kind)
    requires var s := Two(sink, lock, Entered, task);
             Step(s, StopSink.Action(1, kind)).threads[1] == Thread([], task')
    requires if kind.Go? then !task.UnbindSwapping? && !task.Unlocking? && !task.NoTask? else task.NoTask?
    requires var s' := Step(Two(sink, lock, Entered, task), StopSink.Action(1, kind));
             s'.sink == sink' && s'.lock == lock' && s'.active == 1 && s'.quiet == {}
    ensures var s, a := Two(sink, lock, Entered, task), StopSink.Action(1, kind);
            Step(s, a) == Two(sink', lock', Entered, task') && NotesOf(s, a) == []
  {
    var s, a := Two(sink, lock, Entered, task), StopSink.Action(1, kind);
    OthersStay(s, a);
    assert Step(s, a).threads == [Thread([Entered], NoTask), Thread([], task')];
  }

  /** The steps of a bind that finds the lock free and no sink bound, noting nothing. */
  lemma BindingSteps(k: Sink)
    ensures var bind, go := StopSink.Action(1, Bind(k)), StopSink.Action(1, Go);
            && Silent(Two(None, None, Entered, NoTask), bind, Two(None, None, Entered, BindLocking(k)))
            && Silent(Two(None, None, Entered, BindLocking(k)), go, Two(None, Some(1), Entered, BindChecking(k)))
            && Silent(Two(None, Some(1), Entered, BindChecking(k)), go, Two(None, Some(1), Entered, BindStoring(k)))
            && Silent(Two(None, Some(1), Entered, BindStoring(k)), go,
                      Two(Some(k), Some(1), Entered, Unlocking(BindAnswer(k, true))))
  {
    EarlyBind(None, None, NoTask, None, None, BindLocking(k), Bind(k));
    EarlyBind(None, None, BindLocking(k), None, Some(1), BindChecking(k), Go);
    EarlyBind(None, Some(1), BindChecking(k), None, Some(1), BindStoring(k), Go);
    EarlyBind(None, Some(1), BindStoring(k), Some(k), Some(1), Unlocking(BindAnswer(k, true)), Go);
  }

  predicate Silent(s: State, a: Action, s': State) {
    Step(s, a) == s' && NotesOf(s, a) == []
  }

  lemma SilentCons(s: State, a: Action, s': State, rest: seq<Action>)
    requires Silent(s, a, s')
    ensures Notes(s, [a] + rest) == Notes(s', rest)
  {
    NotesCons(s, a, rest);
  }

  lemma BindingNotes(k: Sink, rest: seq<Action>)
    ensures var go := [StopSink.Action(1, Go)];
            Notes(Two(None, None, Entered, NoTask), [StopSink.Action(1, Bind(k))] + (go + (go + (go + rest))))
            == Notes(Two(Some(k), Some(1), Entered, Unlocking(BindAnswer(k, true))), rest)
  {
    var go := StopSink.Action(1, Go);
    var s1, s2 := Two(None, None, Entered, BindLocking(k)), Two(None, Some(1), Entered, BindChecking(k));
    var s3 := Two(None, Some(1), Entered, BindStoring(k));
    BindingSteps(k);
    SilentCons(Two(None, None, Entered, NoTask), StopSink.Action(1, Bind(k)), s1, [go] + ([go] + ([go] + rest)));
    SilentCons(s1, go, s2, [go] + ([go] + rest));
    SilentCons(s2, go, s3, [go] + rest);
    SilentCons(s3, go, Two(Some(k), Some(1), Entered, Unlocking(BindAnswer(k, true))), rest);
  }

  /** Thread 0 goes on with its dispatch. */
  lemma EarlyCall(k: Sink)
    ensures var go, task := StopSink.Action(0, Go), Unlocking(BindAnswer(k, true));
            var s5, s6 := Two(Some(k), Some(1), Entered, task), Two(Some(k), Some(1), InCallback(k), task);
            var s7 := Two(Some(k), Some(1), Leaving, task);
            && Step(s5, go) == s6 && NotesOf(s5, go) == [Loaded(0, 0, Some(k)), Called(0, 0, k)]
            && Step(s6, go) == s7 && NotesOf(s6, go) == [] && NotesOf(s7, go) == [Ended(0, 0)]
  {
    var go, task := StopSink.Action(0, Go), Unlocking(BindAnswer(k, true));
    var y := Thread([], task);
    Updates(Entered, Entered, InCallback(k));
    Updates(InCallback(k), Entered, Leaving);
    Updates(Leaving, Leaving, Leaving);
    Updates(Thread([Entered], NoTask), y, Thread([InCallback(k)], NoTask));
    Updates(Thread([InCallback(k)], NoTask), y, Thread([Leaving], NoTask));
    TopFrameMoves(Two(Some(k), Some(1), Leaving, task), 0);
    assert FrameNotes(0, [Entered], [InCallback(k)], Some(k)) == [Loaded(0, 0, Some(k))] + [Called(0, 0, k)];
    assert FrameNotes(0, [InCallback(k)], [Leaving], Some(k)) == [] + [];
  }

  lemma CallingNotes(k: Sink)
    ensures var go := StopSink.Action(0, Go);
            Notes(Two(Some(k), Some(1), Entered, Unlocking(BindAnswer(k, true))), [go] + ([go] + ([go] + [])))
            == [Loaded(0, 0, Some(k)), Called(0, 0, k), Ended(0, 0)]
  {
    var go, task := StopSink.Action(0, Go), Unlocking(BindAnswer(k, true));
    EarlyCall(k);
    NotesCons(Two(Some(k), Some(1), Leaving, task), go, []);
    NotesCons(Two(Some(k), Some(1), InCallback(k), task), go, [go] + []);
    NotesCons(Two(Some(k), Some(1), Entered, task), go, [go] + ([go] + []));
  }

  /** A dispatch may begin before the first bind does and still be delivered: what
      counts is the sink that is bound when it loads. */
  lemma EarlyDispatchIsDelivered(k: Sink)
    ensures EarlyRun(k)[0].kind.Dispatch?
    ensures Notes(Initial(2), EarlyRun(k)) == [Began(0, 0), Loaded(0, 0, Some(k)), Called(0, 0, k), Ended(0, 0)]
  {
    var go0, go1 := [StopSink.Action(0, Go)], [StopSink.Action(1, Go)];
    var rest := go0 + (go0 + (go0 + []));
    assert EarlyRun(k)
        == [StopSink.Action(0, Dispatch)] + ([StopSink.Action(1, Bind(k))] + (go1 + (go1 + (go1 + rest))));
    EarlyBegin();
    NotesCons(Initial(2), StopSink.Action(0, Dispatch),
              [StopSink.Action(1, Bind(k))] + (go1 + (go1 + (go1 + rest))));
    BindingNotes(k, rest);
    CallingNotes(k);
  }

  // ------------------------------------------------------- what unbind answers

  /** The last swap a thread made. */
  function LastSwap(notes: seq<Note>, t: nat): Option<Note> {
    if notes == [] then None
    else if notes[|notes| - 1].Swapped? && notes[|notes| - 1].thread == t then Some(notes[|notes| - 1])
    else LastSwap(notes[..|notes| - 1], t)
  }

  lemma LastSwapSnoc(notes: seq<Note>, x: Note, t: nat)
    ensures LastSwap(notes + [x], t) == if x.Swapped? && x.thread == t then Some(x) else LastSwap(notes, t)
  {
    assert (notes + [x])[..|notes|] == notes;
  }

  /** The answer says whether the swap found the sink. */
  ghost predicate AnswersSwap(notes: seq<Note>, t: nat, k: Sink, ok: bool) {
    var x := LastSwap(notes, t);
    x.Some? && x.value.Swapped? && x.value.sink == k && (ok <==> x.value.found == Some(k))
  }

  ghost predicate SwapsAreKept(s: State, notes: seq<Note>) {
    forall t :: 0 <= t < |s.threads| ==>
      var task := s.threads[t].task;
      && (task.Draining? ==> AnswersSwap(notes, t, task.sink, true))
      && (task.Unlocking? && task.answer.UnbindAnswer? ==>
            AnswersSwap(notes, t, task.answer.sink, task.answer.ok))
  }

  ghost predicate UnbindsAnswerRight(notes: seq<Note>) {
    forall i :: 0 <= i < |notes| && notes[i].Answered? && notes[i].answer.UnbindAnswer? ==>
      AnswersSwap(notes[..i], notes[i].thread, notes[i].answer.sink, notes[i].answer.ok)
  }

  lemma UnbindsSnoc(notes: seq<Note>, x: Note)
    requires UnbindsAnswerRight(notes)
    requires x.Answered? && x.answer.UnbindAnswer? ==> AnswersSwap(notes, x.thread, x.answer.sink, x.answer.ok)
    ensures UnbindsAnswerRight(notes + [x])
  {
    var all := notes + [x];
    forall i | 0 <= i < |all| && all[i].Answered? && all[i].answer.UnbindAnswer?
      ensures AnswersSwap(all[..i], all[i].thread, all[i].answer.sink, all[i].answer.ok)
    {
      if i < |notes| {
        assert all[..i] == notes[..i] && all[i] == notes[i];
      } else {
        assert all[..i] == notes;
      }
    }
  }

  lemma NoteSays(s: State, a: Action, x: Note)
    requires x in NotesOf(s, a)
    ensures x.thread == a.thread < |s.threads| == |Step(s, a).threads|
    ensures var was, now := s.threads[a.thread].task, Step(s, a).threads[a.thread].task;
            match x
            case Answered(_, answer, _) => was == Unlocking(answer) && now == NoTask
            case Swapped(_, k, found) =>
              && was == UnbindSwapping(k)
              && now == (if found == Some(k) then Draining(k) else Unlocking(UnbindAnswer(k, false)))
            case _ => now == was
  {
    OthersStay(s, a);
  }

  lemma OneNote(s: State, a: Action, notes: seq<Note>, x: Note)
    requires SwapsAreKept(s, notes) && UnbindsAnswerRight(notes) && NotesOf(s, a) == [x]
    ensures SwapsAreKept(Step(s, a), notes + [x]) && UnbindsAnswerRight(notes + [x])
  {
    var s' := Step(s, a);
    OthersStay(s, a);
    NoteSays(s, a, x);
    UnbindsSnoc(notes, x);
    forall t | 0 <= t < |s.threads|
      ensures s'.threads[t].task.Draining? ==> AnswersSwap(notes + [x], t, s'.threads[t].task.sink, true)
      ensures s'.threads[t].task.Unlocking? && s'.threads[t].task.answer.UnbindAnswer? ==>
                AnswersSwap(notes + [x], t, s'.threads[t].task.answer.sink, s'.threads[t].task.answer.ok)
    {
      LastSwapSnoc(notes, x, t);
    }
  }

  lemma QuietStep(s: State, a: Action, notes: seq<Note>)
    requires SwapsAreKept(s, notes) && NotesOf(s, a) == []
    ensures SwapsAreKept(Step(s, a), notes)
  {
    OthersStay(s, a);
  }

  lemma LoadAndCall(s: State, a: Action, notes: seq<Note>)
    requires SwapsAreKept(s, notes) && UnbindsAnswerRight(notes) && |NotesOf(s, a)| == 2
    ensures SwapsAreKept(Step(s, a), notes + NotesOf(s, a)) && UnbindsAnswerRight(notes + NotesOf(s, a))
  {
    var x, y := NotesOf(s, a)[0], NotesOf(s, a)[1];
    OthersStay(s, a);
    assert x.Loaded? && y.Called? && Step(s, a).threads[a.thread].task == s.threads[a.thread].task;
    UnbindsSnoc(notes, x);
    UnbindsSnoc(notes + [x], y);
    assert notes + NotesOf(s, a) == notes + [x] + [y];
    forall t | 0 <= t < |s.threads| ensures LastSwap(notes + NotesOf(s, a), t) == LastSwap(notes, t) {
      LastSwapSnoc(notes, x, t);
      LastSwapSnoc(notes + [x], y, t);
    }
  }

  lemma SwapsStep(s: State, a: Action, notes: seq<Note>)
    requires SwapsAreKept(s, notes) && UnbindsAnswerRight(notes)
    ensures SwapsAreKept(Step(s, a), notes + NotesOf(s, a)) && UnbindsAnswerRight(notes + NotesOf(s, a))
  {
    var new_ := NotesOf(s, a);
    if |new_| == 0 {
      QuietStep(s, a, notes);
      assert notes + new_ == notes;
    } else if |new_| == 1 {
      assert new_ == [new_[0]];
      OneNote(s, a, notes, new_[0]);
    } else {
      AtMostTwo(s, a);
      LoadAndCall(s, a, notes);
    }
  }

  lemma AtMostTwo(s: State, a: Action)
    ensures |NotesOf(s, a)| <= 2
  {
  }

  lemma {:induction false} RunSwaps(s: State, actions: seq<Action>, notes: seq<Note>)
    requires SwapsAreKept(s, notes) && UnbindsAnswerRight(notes)
    ensures UnbindsAnswerRight(notes + Notes(s, actions))
    decreases |actions|
  {
    if actions == [] {
      assert notes + [] == notes;
    } else {
      SwapsStep(s, actions[0], notes);
      RunSwaps(Step(s, actions[0]), actions[1..], notes + NotesOf(s, actions[0]));
      Assoc(notes, NotesOf(s, actions[0]), Notes(Step(s, actions[0]), actions[1..]));
    }
  }

  /** In every run an unbind answers true if and only if its swap found its sink
      bound: it answers false exactly if another one was, or none. */
  lemma UnbindAnswerIsExact(count: nat, actions: seq<Action>, i: nat)
    requires var notes := Notes(Initial(count), actions);
             i < |notes| && notes[i].Answered? && notes[i].answer.UnbindAnswer?
    ensures var notes := Notes(Initial(count), actions);
            AnswersSwap(notes[..i], notes[i].thread, notes[i].answer.sink, notes[i].answer.ok)
  {
    RunSwaps(Initial(count), actions, []);
    assert [] + Notes(Initial(count), actions) == Notes(Initial(count), actions);
  }

  // ------------------------------------------------------------------ progress

  function TaskLeft(k: Task): nat {
    match k
    case NoTask => 0
    case BindLocking(_) => 4
    case BindChecking(_) => 3
    case BindStoring(_) => 2
    case UnbindLocking(_) => 4
    case UnbindSwapping(_) => 3
    case Draining(_) => 2
    case Unlocking(_) => 1
  }

  function Goes(t: nat, n: nat): seq<Action> {
    if n == 0 then [] else [StopSink.Action(t, Go)] + Goes(t, n - 1)
  }

  lemma TaskAdvances(s: State, t: nat)
    requires Inv(s) && t < |s.threads| && !s.threads[t].task.NoTask?
    requires (s.lock == None || s.lock == Some(t)) && s.active == 0
    ensures var s' := Step(s, StopSink.Action(t, Go));
            && |s'.threads| == |s.threads| && TaskLeft(s'.threads[t].task) < TaskLeft(s.threads[t].task)
            && (s'.lock == None || s'.lock == Some(t)) && s'.active == 0
  {
    assert ThreadOk(s, t);
  }

  /** A bind or an unbind that runs alone ends, if the lock is free or its own and no
      dispatch is under way. */
  lemma {:induction false} TaskEndsAlone(s: State, t: nat) returns (n: nat)
    requires Inv(s) && t < |s.threads| && (s.lock == None || s.lock == Some(t)) && s.active == 0
    ensures n <= TaskLeft(s.threads[t].task) <= 4 && |Run(s, Goes(t, n)).threads| == |s.threads|
    ensures Run(s, Goes(t, n)).threads[t].task.NoTask? && Run(s, Goes(t, n)).lock == None
    decreases TaskLeft(s.threads[t].task)
  {
    assert ThreadOk(s, t);
    if s.threads[t].task.NoTask? {
      n := 0;
    } else {
      var s' := Step(s, StopSink.Action(t, Go));
      TaskAdvances(s, t);
      StepKeeps(s, StopSink.Action(t, Go));
      var m := TaskEndsAlone(s', t);
      n := m + 1;
      assert Goes(t, n)[1..] == Goes(t, m);
    }
  }

  /** A thread outside any dispatch, or inside a callback, can always begin a dispatch,
      nested or not; it begins a bind or an unbind exactly if it is outside, and is
      refused without any change inside. */
  lemma CallsBegin(s: State, t: nat, k: Sink)
    requires t < |s.threads| && s.threads[t].task.NoTask?
    requires s.threads[t].frames == [] || s.threads[t].frames[|s.threads[t].frames| - 1].InCallback?
    ensures NotesOf(s, StopSink.Action(t, Dispatch)) == [Began(t, |s.threads[t].frames|)]
    ensures var bound, unbound := Step(s, StopSink.Action(t, Bind(k))), Step(s, StopSink.Action(t, Unbind(k)));
            if s.threads[t].frames == []
            then With(s, t, Thread([], BindLocking(k))) == bound && With(s, t, Thread([], UnbindLocking(k))) == unbound
            else bound == unbound == s
  {
  }

  function FrameLeft(f: Frame): nat {
    match f
    case Entered => 3
    case InCallback(_) => 2
    case Leaving => 1
  }

  /** A dispatch whose thread runs on ends within three steps, whatever the other
      threads have come to. */
  lemma {:induction false} DispatchEndsAlone(s: State, t: nat) returns (n: nat)
    requires t < |s.threads| && s.threads[t].task.NoTask? && s.threads[t].frames != []
    ensures var fs := s.threads[t].frames;
            && n <= FrameLeft(fs[|fs| - 1]) <= 3 && |Run(s, Goes(t, n)).threads| == |s.threads|
            && Run(s, Goes(t, n)).threads[t].frames == fs[..|fs| - 1]
    decreases var fs := s.threads[t].frames; FrameLeft(fs[|fs| - 1])
  {
    var s', fs := Step(s, StopSink.Action(t, Go)), s.threads[t].frames;
    if fs[|fs| - 1].Leaving? {
      n := 1;
      assert Goes(t, 1)[1..] == Goes(t, 0);
    } else {
      assert s'.threads[t].frames[..|fs| - 1] == fs[..|fs| - 1];
      var m := DispatchEndsAlone(s', t);
      n := m + 1;
      assert Goes(t, n)[1..] == Goes(t, m);
    }
  }
}
