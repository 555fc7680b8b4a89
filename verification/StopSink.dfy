/** Binding, unbinding and dispatching to the native stop sink, as interleaved
    atomic steps of any number of threads: a shared sink pointer, a counter of
    active dispatches, a spin lock for binding, and per-thread callback depth.
    Steps are sequentially consistent. */
module StopSink {
  import opened Words

  type Sink = nat

  /** A dispatch that has been counted: about to load the sink, inside the
      callback, or about to be uncounted. */
  datatype Frame = Entered | InCallback(sink: Sink) | Leaving

  datatype Answer = BindAnswer(sink: Sink, ok: bool) | UnbindAnswer(sink: Sink, ok: bool)

  /** Where a thread stands in a bind or unbind call. */
  datatype Task =
    | NoTask
    | BindLocking(sink: Sink)
    | BindChecking(sink: Sink)
    | BindStoring(sink: Sink)
    | UnbindLocking(sink: Sink)
    | UnbindSwapping(sink: Sink)
    | Draining(sink: Sink)
    | Unlocking(answer: Answer)

  /** Dispatches nest: a callback may dispatch again. */
  datatype Thread = Thread(frames: seq<Frame>, task: Task)

  /** `quiet` is history: the sinks unbound and not bound again since. */
  datatype State = State(
    sink: Option<Sink>, active: nat, lock: Option<nat>, threads: seq<Thread>, quiet: set<Sink>)

  datatype Kind = Dispatch | Bind(sink: Sink) | Unbind(sink: Sink) | Go

  datatype Action = Action(thread: nat, kind: Kind)

  function Initial(count: nat): State {
    State(None, 0, None, seq(count, _ => Thread([], NoTask)), {})
  }

  /** The per-thread callback depth. */
  function Depth(frames: seq<Frame>): nat {
    if frames == [] then 0 else Depth(frames[..|frames| - 1]) + (if frames[|frames| - 1].InCallback? then 1 else 0)
  }

  /** Only a thread outside any dispatch, or inside a callback, runs user code. */
  predicate RunsUserCode(q: Thread) {
    q.task.NoTask? && (q.frames == [] || q.frames[|q.frames| - 1].InCallback?)
  }

  function With(s: State, t: nat, q: Thread): State
    requires t < |s.threads|
  {
    s.(threads := s.threads[t := q])
  }

  /** The next step of the innermost dispatch. */
  function DispatchStep(s: State, t: nat): State
    requires t < |s.threads| && s.threads[t].frames != []
  {
    var q := s.threads[t];
    var n := |q.frames| - 1;
    match q.frames[n]
    case Entered =>
      With(s, t, q.(frames := q.frames[n := if s.sink.None? then Leaving else InCallback(s.sink.value)]))
    case InCallback(_) => With(s, t, q.(frames := q.frames[n := Leaving]))
    case Leaving =>
      With(s, t, q.(frames := q.frames[..n])).(active := if s.active > 0 then s.active - 1 else 0)
  }

  /** The next step of a bind or unbind call. */
  function TaskStep(s: State, t: nat): State
    requires t < |s.threads|
  {
    var q := s.threads[t];
    match q.task
    case NoTask => s
    case BindLocking(k) => if s.lock.Some? then s else With(s, t, q.(task := BindChecking(k))).(lock := Some(t))
    case BindChecking(k) =>
      With(s, t, q.(task := if s.sink.None? then BindStoring(k) else Unlocking(BindAnswer(k, s.sink.value == k))))
    case BindStoring(k) =>
      With(s, t, q.(task := Unlocking(BindAnswer(k, true)))).(sink := Some(k), quiet := s.quiet - {k})
    case UnbindLocking(k) => if s.lock.Some? then s else With(s, t, q.(task := UnbindSwapping(k))).(lock := Some(t))
    case UnbindSwapping(k) =>
      if s.sink == Some(k) then With(s, t, q.(task := Draining(k))).(sink := None)
      else With(s, t, q.(task := Unlocking(UnbindAnswer(k, false))))
    case Draining(k) =>
      if s.active != 0 then s
      else With(s, t, q.(task := Unlocking(UnbindAnswer(k, true)))).(quiet := s.quiet + {k})
    case Unlocking(_) => With(s, t, q.(task := NoTask)).(lock := None)
  }

  /** One atomic step; a step that is not possible changes nothing. Binding and
      unbinding are refused inside a callback. */
  function Step(s: State, a: Action): State {
    var t := a.thread;
    if t >= |s.threads| then s
    else
      var q := s.threads[t];
      match a.kind
      case Dispatch =>
        if RunsUserCode(q) then With(s, t, q.(frames := q.frames + [Entered])).(active := s.active + 1) else s
      case Bind(k) => if RunsUserCode(q) && Depth(q.frames) == 0 then With(s, t, q.(task := BindLocking(k))) else s
      case Unbind(k) => if RunsUserCode(q) && Depth(q.frames) == 0 then With(s, t, q.(task := UnbindLocking(k))) else s
      case Go =>
        if !q.task.NoTask? then TaskStep(s, t) else if q.frames != [] then DispatchStep(s, t) else s
  }

  function Run(s: State, actions: seq<Action>): State
    decreases |actions|
  {
    if actions == [] then s else Run(Step(s, actions[0]), actions[1..])
  }

  // --------------------------------------------------------------- invariant

  function Total(threads: seq<Thread>): nat {
    if threads == [] then 0 else Total(threads[..|threads| - 1]) + |threads[|threads| - 1].frames|
  }

  predicate Holds(k: Task) {
    !k.NoTask? && !k.BindLocking? && !k.UnbindLocking?
  }

  /** Callbacks run only on the bound sink, or on the one being unbound. */
  ghost predicate CallbackOk(s: State, f: Frame) {
    f.InCallback? ==> s.sink == Some(f.sink) || (exists u :: DrainsAt(s, u, f.sink))
  }

  predicate DrainsAt(s: State, u: nat, k: Sink) {
    u < |s.threads| && s.threads[u].task == Draining(k)
  }

  ghost predicate ThreadOk(s: State, t: nat)
    requires t < |s.threads|
  {
    var q := s.threads[t];
    && (Holds(q.task) <==> s.lock == Some(t))
    && (!q.task.NoTask? ==> q.frames == [])
    && (q.task.BindStoring? ==> s.sink == None)
    && (q.task.Draining? ==> s.sink == None && q.task.sink !in s.quiet)
    && (q.task.Unlocking? && q.task.answer.UnbindAnswer? && q.task.answer.ok ==> q.task.answer.sink in s.quiet)
    && (forall i :: 0 <= i < |q.frames| ==> CallbackOk(s, q.frames[i]))
  }

  ghost predicate Inv(s: State) {
    && s.active == Total(s.threads)
    && (s.lock.Some? ==> s.lock.value < |s.threads|)
    && (s.sink.Some? ==> s.sink.value !in s.quiet)
    && (forall t: nat :: t < |s.threads| ==> ThreadOk(s, t))
  }

  // ------------------------------------------------------------- what is kept

  lemma {:induction false} TotalUpdate(threads: seq<Thread>, t: nat, q: Thread)
    requires t < |threads|
    ensures Total(threads[t := q]) + |threads[t].frames| == Total(threads) + |q.frames|
  {
    var n := |threads| - 1;
    if t == n {
      assert threads[t := q][..n] == threads[..n];
    } else {
      TotalUpdate(threads[..n], t, q);
      assert threads[t := q][..n] == threads[..n][t := q];
    }
  }

  lemma {:induction false} TotalAtLeast(threads: seq<Thread>, t: nat)
    requires t < |threads|
    ensures |threads[t].frames| <= Total(threads)
  {
    if t < |threads| - 1 {
      TotalAtLeast(threads[..|threads| - 1], t);
    }
  }

  /** A thread that dispatches changes only its own frames and the count. */
  lemma FramesMove(s: State, t: nat, frames: seq<Frame>, active: nat)
    requires Inv(s) && t < |s.threads| && s.threads[t].task.NoTask?
    requires active + |s.threads[t].frames| == s.active + |frames|
    requires forall i :: 0 <= i < |frames| ==> CallbackOk(s, frames[i])
    ensures Inv(With(s, t, s.threads[t].(frames := frames)).(active := active))
  {
    var s' := With(s, t, s.threads[t].(frames := frames)).(active := active);
    TotalUpdate(s.threads, t, s.threads[t].(frames := frames));
    assert forall u, k :: DrainsAt(s, u, k) == DrainsAt(s', u, k);
    forall u: nat | u < |s'.threads| ensures ThreadOk(s', u) {
      assert ThreadOk(s, u);
      assert forall f :: CallbackOk(s, f) == CallbackOk(s', f);
    }
  }

  lemma DispatchKeeps(s: State, t: nat)
    requires Inv(s) && t < |s.threads| && s.threads[t].task.NoTask? && s.threads[t].frames != []
    ensures Inv(DispatchStep(s, t))
  {
    var frames := s.threads[t].frames;
    var n := |frames| - 1;
    assert ThreadOk(s, t);
    TotalAtLeast(s.threads, t);
    match frames[n]
    case Entered =>
      FramesMove(s, t, frames[n := if s.sink.None? then Leaving else InCallback(s.sink.value)], s.active);
    case InCallback(_) => FramesMove(s, t, frames[n := Leaving], s.active);
    case Leaving => FramesMove(s, t, frames[..n], s.active - 1);
  }

  /** A bind or unbind call moves on without touching the sink. */
  lemma TaskMoves(s: State, t: nat, task: Task, lock: Option<nat>)
    requires Inv(s) && t < |s.threads| && s.threads[t].frames == []
    requires !s.threads[t].task.Draining? && !task.Draining? && !task.BindStoring?
    requires task.Unlocking? ==> !task.answer.UnbindAnswer? || !task.answer.ok
    requires lock == s.lock || (s.lock == None && lock == Some(t)) || (s.lock == Some(t) && lock == None)
    requires Holds(task) <==> lock == Some(t)
    ensures Inv(With(s, t, s.threads[t].(task := task)).(lock := lock))
  {
    var s' := With(s, t, s.threads[t].(task := task)).(lock := lock);
    TotalUpdate(s.threads, t, s.threads[t].(task := task));
    assert forall u, k :: DrainsAt(s, u, k) == DrainsAt(s', u, k);
    forall u: nat | u < |s'.threads| ensures ThreadOk(s', u) {
      assert ThreadOk(s, u);
      assert forall f :: CallbackOk(s, f) == CallbackOk(s', f);
    }
  }

  /** Whoever holds the lock is alone in it. */
  lemma LockIsExclusive(s: State, t: nat, u: nat)
    requires Inv(s) && t < |s.threads| && u < |s.threads| && Holds(s.threads[t].task) && Holds(s.threads[u].task)
    ensures t == u
  {
    assert ThreadOk(s, t) && ThreadOk(s, u);
  }

  /** With no sink bound and nobody draining, no callback is running. */
  lemma NoCallbackRuns(s: State, t: nat, u: nat, i: nat)
    requires Inv(s) && t < |s.threads| && Holds(s.threads[t].task) && !s.threads[t].task.Draining? && s.sink == None
    requires u < |s.threads| && i < |s.threads[u].frames|
    ensures !s.threads[u].frames[i].InCallback?
  {
    assert ThreadOk(s, u);
    assert CallbackOk(s, s.threads[u].frames[i]);
    forall w, k | DrainsAt(s, w, k) ensures false {
      LockIsExclusive(s, t, w);
    }
  }

  lemma BindKeeps(s: State, t: nat)
    requires Inv(s) && t < |s.threads| && s.threads[t].task.BindStoring?
    ensures Inv(TaskStep(s, t))
  {
    var s' := TaskStep(s, t);
    assert ThreadOk(s, t);
    TotalUpdate(s.threads, t, s'.threads[t]);
    forall u: nat | u < |s'.threads| ensures ThreadOk(s', u) {
      assert ThreadOk(s, u);
      forall i: nat | i < |s.threads[u].frames| ensures !s.threads[u].frames[i].InCallback? {
        NoCallbackRuns(s, t, u, i);
      }
    }
  }

  lemma SwapKeeps(s: State, t: nat)
    requires Inv(s) && t < |s.threads| && s.threads[t].task.UnbindSwapping? && s.sink == Some(s.threads[t].task.sink)
    ensures Inv(TaskStep(s, t))
  {
    var s' := TaskStep(s, t);
    assert ThreadOk(s, t);
    TotalUpdate(s.threads, t, s'.threads[t]);
    assert DrainsAt(s', t, s.sink.value);
    forall w, k | DrainsAt(s, w, k) ensures w == t {
      LockIsExclusive(s, t, w);
    }
    forall u: nat | u < |s'.threads| ensures ThreadOk(s', u) {
      assert ThreadOk(s, u);
      assert forall f :: CallbackOk(s, f) ==> CallbackOk(s', f);
    }
  }

  lemma {:induction false} TotalZero(threads: seq<Thread>, t: nat)
    requires Total(threads) == 0 && t < |threads|
    ensures threads[t].frames == []
  {
    TotalAtLeast(threads, t);
  }

  lemma DrainKeeps(s: State, t: nat)
    requires Inv(s) && t < |s.threads| && s.threads[t].task.Draining? && s.active == 0
    ensures Inv(TaskStep(s, t))
  {
    var s' := TaskStep(s, t);
    assert ThreadOk(s, t);
    TotalUpdate(s.threads, t, s'.threads[t]);
    forall u: nat | u < |s'.threads| ensures ThreadOk(s', u) {
      assert ThreadOk(s, u);
      TotalZero(s.threads, u);
      if u != t && Holds(s.threads[u].task) {
        LockIsExclusive(s, t, u);
      }
    }
  }

  lemma TaskKeeps(s: State, t: nat)
    requires Inv(s) && t < |s.threads| && !s.threads[t].task.NoTask?
    ensures Inv(TaskStep(s, t))
  {
    var task := s.threads[t].task;
    assert ThreadOk(s, t);
    match task
    case BindLocking(k) =>
      if s.lock.None? {
        TaskMoves(s, t, BindChecking(k), Some(t));
      }
    case BindChecking(k) =>
      if s.sink.None? {
        ReadyToStore(s, t, k);
      } else {
        TaskMoves(s, t, Unlocking(BindAnswer(k, s.sink.value == k)), s.lock);
      }
    case BindStoring(_) => BindKeeps(s, t);
    case UnbindLocking(k) =>
      if s.lock.None? {
        TaskMoves(s, t, UnbindSwapping(k), Some(t));
      }
    case UnbindSwapping(k) =>
      if s.sink == Some(k) {
        SwapKeeps(s, t);
      } else {
        TaskMoves(s, t, Unlocking(UnbindAnswer(k, false)), s.lock);
      }
    case Draining(_) =>
      if s.active == 0 {
        DrainKeeps(s, t);
      }
    case Unlocking(_) => TaskMoves(s, t, NoTask, None);
  }

  lemma ReadyToStore(s: State, t: nat, k: Sink)
    requires Inv(s) && t < |s.threads| && s.threads[t].task == BindChecking(k) && s.sink == None
    ensures Inv(With(s, t, s.threads[t].(task := BindStoring(k))))
  {
    var s' := With(s, t, s.threads[t].(task := BindStoring(k)));
    TotalUpdate(s.threads, t, s'.threads[t]);
    assert forall u, k :: DrainsAt(s, u, k) == DrainsAt(s', u, k);
    forall u: nat | u < |s'.threads| ensures ThreadOk(s', u) {
      assert ThreadOk(s, u);
      assert forall f :: CallbackOk(s, f) == CallbackOk(s', f);
    }
  }

  lemma StepKeeps(s: State, a: Action)
    requires Inv(s)
    ensures Inv(Step(s, a))
  {
    var t := a.thread;
    if t < |s.threads| {
      var q := s.threads[t];
      assert ThreadOk(s, t);
      match a.kind
      case Dispatch =>
        if RunsUserCode(q) {
          FramesMove(s, t, q.frames + [Entered], s.active + 1);
        }
      case Bind(k) =>
        if RunsUserCode(q) && Depth(q.frames) == 0 {
          TaskMoves(s, t, BindLocking(k), s.lock);
        }
      case Unbind(k) =>
        if RunsUserCode(q) && Depth(q.frames) == 0 {
          TaskMoves(s, t, UnbindLocking(k), s.lock);
        }
      case Go =>
        if !q.task.NoTask? {
          TaskKeeps(s, t);
        } else if q.frames != [] {
          DispatchKeeps(s, t);
        }
    }
  }

  // ---------------------------------------------------------------- every run

  lemma {:induction false} InitialTotal(count: nat)
    ensures Total(Initial(count).threads) == 0
  {
    if count > 0 {
      InitialTotal(count - 1);
      assert Initial(count).threads[..count - 1] == Initial(count - 1).threads;
    }
  }

  lemma InitialKeeps(count: nat)
    ensures Inv(Initial(count))
  {
    InitialTotal(count);
  }

  lemma {:induction false} RunKeeps(s: State, actions: seq<Action>)
    requires Inv(s)
    ensures Inv(Run(s, actions))
    decreases |actions|
  {
    if actions != [] {
      StepKeeps(s, actions[0]);
      RunKeeps(Step(s, actions[0]), actions[1..]);
    }
  }

  ghost predicate NoCallbackOn(s: State, k: Sink) {
    forall t, i :: 0 <= t < |s.threads| && 0 <= i < |s.threads[t].frames| ==>
      s.threads[t].frames[i] != InCallback(k)
  }

  /** A quiet sink is not bound, and no thread is inside a callback on it. */
  lemma QuietMeansNoCallback(s: State, k: Sink)
    requires Inv(s) && k in s.quiet
    ensures s.sink != Some(k) && NoCallbackOn(s, k)
  {
    forall t, i | 0 <= t < |s.threads| && 0 <= i < |s.threads[t].frames|
      ensures s.threads[t].frames[i] != InCallback(k)
    {
      assert ThreadOk(s, t);
      assert CallbackOk(s, s.threads[t].frames[i]);
      assert forall u :: DrainsAt(s, u, k) ==> ThreadOk(s, u);
    }
  }

  /** A sink stays quiet until it is bound again. */
  lemma QuietUntilBound(s: State, a: Action, k: Sink)
    requires Inv(s) && k in s.quiet
    ensures k in Step(s, a).quiet || Step(s, a).sink == Some(k)
  {
  }

  lemma {:induction false} QuietThroughRun(s: State, after: seq<Action>, k: Sink)
    requires Inv(s) && k in s.quiet
    requires forall n: nat :: n <= |after| ==> Run(s, after[..n]).sink != Some(k)
    ensures k in Run(s, after).quiet
    decreases |after|
  {
    if after != [] {
      var s' := Step(s, after[0]);
      QuietUntilBound(s, after[0], k);
      StepKeeps(s, after[0]);
      forall n: nat | n <= |after[1..]| ensures Run(s', after[1..][..n]).sink != Some(k) {
        assert after[..n + 1][0] == after[0] && after[..n + 1][1..] == after[1..][..n];
        assert Run(s, after[..n + 1]).sink != Some(k);
      }
      assert after[..1][0] == after[0] && after[..1][1..] == [];
      assert Run(s, after[..1]) == s';
      QuietThroughRun(s', after[1..], k);
    }
  }

  /** Unbind is quiescent: in every run, once a thread's unbind of a sink has
      answered true, then in every continuation in which the sink is not bound
      again, no thread is inside a callback on it. */
  lemma UnbindIsQuiescent(count: nat, before: seq<Action>, t: nat, k: Sink, after: seq<Action>)
    requires var s := Run(Initial(count), before);
             t < |s.threads| && s.threads[t].task == Unlocking(UnbindAnswer(k, true))
    requires forall n: nat :: n <= |after| ==> Run(Run(Initial(count), before), after[..n]).sink != Some(k)
    ensures NoCallbackOn(Run(Run(Initial(count), before), after), k)
  {
    InitialKeeps(count);
    RunKeeps(Initial(count), before);
    var s := Run(Initial(count), before);
    assert ThreadOk(s, t);
    QuietThroughRun(s, after, k);
    RunKeeps(s, after);
    QuietMeansNoCallback(Run(s, after), k);
  }

  // ----------------------------------------------------------------- progress

  function Weight(frames: seq<Frame>): nat {
    if frames == [] then 0
    else Weight(frames[..|frames| - 1])
         + (match frames[|frames| - 1] case Entered => 3 case InCallback(_) => 2 case Leaving => 1)
  }

  /** What is left to do in all dispatches under way. */
  function Work(threads: seq<Thread>): nat {
    if threads == [] then 0 else Work(threads[..|threads| - 1]) + Weight(threads[|threads| - 1].frames)
  }

  lemma {:induction false} WorkUpdate(threads: seq<Thread>, t: nat, q: Thread)
    requires t < |threads|
    ensures Work(threads[t := q]) + Weight(threads[t].frames) == Work(threads) + Weight(q.frames)
  {
    var n := |threads| - 1;
    if t == n {
      assert threads[t := q][..n] == threads[..n];
    } else {
      WorkUpdate(threads[..n], t, q);
      assert threads[t := q][..n] == threads[..n][t := q];
    }
  }

  lemma WeightDrops(frames: seq<Frame>, f: Frame)
    requires frames != []
    requires f.Leaving? || (frames[|frames| - 1].Entered? && f.InCallback?)
    requires !frames[|frames| - 1].Leaving?
    ensures Weight(frames[|frames| - 1 := f]) < Weight(frames)
  {
    var n := |frames| - 1;
    assert frames[n := f][..n] == frames[..n];
  }

  lemma DispatchStepWorks(s: State, t: nat)
    requires t < |s.threads| && s.threads[t].frames != []
    ensures Work(DispatchStep(s, t).threads) < Work(s.threads)
  {
    var q, q' := s.threads[t], DispatchStep(s, t).threads[t];
    WorkUpdate(s.threads, t, q');
    if !q.frames[|q.frames| - 1].Leaving? {
      WeightDrops(q.frames, q'.frames[|q.frames| - 1]);
    }
  }

  lemma {:induction false} SomeoneDispatches(threads: seq<Thread>) returns (t: nat)
    requires Total(threads) > 0
    ensures t < |threads| && threads[t].frames != []
  {
    var n := |threads| - 1;
    if threads[n].frames != [] {
      t := n;
    } else {
      t := SomeoneDispatches(threads[..n]);
    }
  }

  /** An unbinder never waits for itself or for the lock: while it drains, either
      nothing is active, or another thread can take a dispatch step, which needs
      no lock and leaves less to do. */
  lemma DrainCanProceed(s: State, u: nat)
    requires Inv(s) && u < |s.threads| && s.threads[u].task.Draining?
    ensures s.active == 0 || exists t: nat ::
              && t < |s.threads| && t != u && s.threads[t].task.NoTask? && s.threads[t].frames != []
              && Step(s, Action(t, Go)) == DispatchStep(s, t)
              && Work(Step(s, Action(t, Go)).threads) < Work(s.threads)
  {
    if s.active != 0 {
      var t := SomeoneDispatches(s.threads);
      assert ThreadOk(s, t) && ThreadOk(s, u);
      DispatchStepWorks(s, t);
      assert Step(s, Action(t, Go)) == DispatchStep(s, t);
    }
  }

  /** While a sink is being drained no callback starts, on it or on another. */
  lemma NoCallbackStartsWhileDraining(s: State, u: nat, a: Action, t: nat, i: nat)
    requires Inv(s) && u < |s.threads| && s.threads[u].task.Draining?
    requires t < |Step(s, a).threads| && i < |Step(s, a).threads[t].frames|
    requires Step(s, a).threads[t].frames[i].InCallback?
    ensures t < |s.threads| && i < |s.threads[t].frames|
    ensures s.threads[t].frames[i] == Step(s, a).threads[t].frames[i]
  {
    assert ThreadOk(s, u);
  }

  // ------------------------------------------------------- inside callbacks

  lemma {:induction false} DepthCounts(frames: seq<Frame>, i: nat)
    requires i < |frames| && frames[i].InCallback?
    ensures Depth(frames) > 0
  {
    if i < |frames| - 1 {
      DepthCounts(frames[..|frames| - 1], i);
    }
  }

  /** In every run, a thread with a callback anywhere on its stack neither holds
      nor waits for the binding lock, and cannot come to: whatever it tries to
      bind or unbind from there changes nothing. */
  lemma CallbacksStayOffTheLock(count: nat, actions: seq<Action>, t: nat, i: nat)
    requires var s := Run(Initial(count), actions);
             t < |s.threads| && i < |s.threads[t].frames| && s.threads[t].frames[i].InCallback?
    ensures var s := Run(Initial(count), actions);
            && s.threads[t].task.NoTask? && s.lock != Some(t)
            && forall k :: Step(s, Action(t, Bind(k))) == s && Step(s, Action(t, Unbind(k))) == s
  {
    InitialKeeps(count);
    RunKeeps(Initial(count), actions);
    var s := Run(Initial(count), actions);
    assert ThreadOk(s, t);
    DepthCounts(s.threads[t].frames, i);
  }
}
