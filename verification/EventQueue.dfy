/** The bounded event queue as interleaved atomic steps: any number of producers
    reserve positions by compare-and-swap and one consumer drains them. Steps are
    sequentially consistent; positions are unbounded, standing for 64-bit
    counters that stay below 2^63. */
module EventQueue {
  import opened Words

  type Word = int
  type Event = seq<Word>

  /** `at` is the slot of a position; `Ring` says that it is the remainder. */
  datatype Config = Config(capacity: nat, width: nat, at: nat -> nat)

  /** `p % n`; see RemainderIsModulo. */
  function Remainder(p: nat, n: nat): (r: nat)
    requires n > 0
    ensures r < n
  {
    if p < n then p else Remainder(p - n, n)
  }

  /** Two quotients and remainders of one number agree. */
  lemma RemainderIsUnique(n: int, d: int, x: int, y: int)
    requires n > 0 && n * d == x - y && 0 <= x < n && 0 <= y < n
    ensures x == y
  {
    MultiplesAreApart(n, d);
  }

  lemma MultiplesAreApart(n: int, d: int)
    requires n > 0
    ensures d >= 1 ==> n * d >= n
    ensures d <= -1 ==> n * d <= -n
  {
  }

  lemma ModuloStep(p: nat, n: nat)
    requires 0 < n <= p
    ensures (p - n) % n == p % n
  {
    var a, b := p / n, (p - n) / n;
    assert n * (b + 1 - a) == n * b + n - n * a;
    RemainderIsUnique(n, b + 1 - a, p % n, (p - n) % n);
  }

  lemma {:induction false} RemainderIsModulo(p: nat, n: nat)
    requires n > 0
    ensures Remainder(p, n) == p % n
  {
    if p >= n {
      RemainderIsModulo(p - n, n);
      ModuloStep(p, n);
    }
  }

  ghost predicate Ring(k: Config) {
    && k.capacity > 0
    && (forall p: nat {:trigger k.at(p)} :: k.at(p) < k.capacity)
    && (forall p: nat {:trigger Remainder(p, k.capacity)} :: k.at(p) == Remainder(p, k.capacity))
  }

  /** There is such a queue of every capacity. */
  lemma EveryCapacityHasRing(capacity: nat, width: nat)
    requires capacity > 0
    ensures Ring(Config(capacity, width, (p: nat) => Remainder(p, capacity)))
  {
    var k := Config(capacity, width, (p: nat) => Remainder(p, capacity));
    assert forall p: nat :: k.at(p) == Remainder(p, capacity);
  }

  datatype Slot = Slot(sequence: nat, words: Event)

  /** Where a producer stands in try_push. */
  datatype Producer =
    | Resting
    | LoadingPosition(event: Event)
    | LoadingSequence(event: Event, position: nat)
    | Reserving(event: Event, position: nat)
    | Writing(event: Event, position: nat, next: nat)

  /** Where the consumer stands in try_pop. */
  datatype Consumer =
    | Waiting
    | LoadingHead
    | Checking(position: nat)
    | Copying(position: nat, copy: Event)
    | Advancing(position: nat, copy: Event)

  /** The shared words, where every thread stands, and two histories: the events
      in the order of their reservations, and the events popped. */
  datatype State = State(
    enqueue: nat, dequeue: nat, slots: seq<Slot>,
    producers: seq<Producer>, consumer: Consumer,
    reserved: seq<Event>, popped: seq<Event>)

  datatype Action =
    | Push(thread: nat, event: Event)
    | Produce(thread: nat, spurious: bool)
    | Pop
    | Consume

  ghost predicate Shape(k: Config, s: State) {
    && Ring(k)
    && |s.slots| == k.capacity
    && (forall i :: 0 <= i < |s.slots| ==> |s.slots[i].words| == k.width)
    && (forall t :: 0 <= t < |s.producers| ==> s.producers[t].Resting? || |s.producers[t].event| == k.width)
  }

  ghost function Initial(k: Config, threads: nat, junk: Event): State
    requires Ring(k) && |junk| == k.width
  {
    State(0, 0, seq(k.capacity, i requires 0 <= i < k.capacity => Slot(i, junk)), seq(threads, _ => Resting),
          Waiting, [], [])
  }

  function ProducerStep(k: Config, s: State, t: nat, spurious: bool): State
    requires t < |s.producers| && |s.slots| == k.capacity
  {
    match s.producers[t]
    case Resting => s
    case LoadingPosition(e) => s.(producers := s.producers[t := LoadingSequence(e, s.enqueue)])
    case LoadingSequence(e, p) =>
      if k.at(p) >= |s.slots| then s
      else
        var sequence := s.slots[k.at(p)].sequence;
        s.(producers := s.producers[t :=
          if sequence == p then Reserving(e, p) else if sequence < p then Resting else LoadingPosition(e)])
    case Reserving(e, p) =>
      if s.enqueue == p && !spurious then
        s.(enqueue := p + 1, reserved := s.reserved + [e], producers := s.producers[t := Writing(e, p, 0)])
      else s.(producers := s.producers[t := LoadingSequence(e, s.enqueue)])
    case Writing(e, p, i) =>
      if k.at(p) >= |s.slots| then s
      else
        var slot := s.slots[k.at(p)];
        if i < |e| && i < |slot.words| then
          s.(slots := s.slots[k.at(p) := slot.(words := slot.words[i := e[i]])],
             producers := s.producers[t := Writing(e, p, i + 1)])
        else
          s.(slots := s.slots[k.at(p) := slot.(sequence := p + 1)], producers := s.producers[t := Resting])
  }

  function ConsumerStep(k: Config, s: State): State
    requires |s.slots| == k.capacity
  {
    match s.consumer
    case Waiting => s
    case LoadingHead => s.(consumer := Checking(s.dequeue))
    case Checking(p) =>
      if k.at(p) < |s.slots| && s.slots[k.at(p)].sequence == p + 1 then s.(consumer := Copying(p, []))
      else s.(consumer := Waiting)
    case Copying(p, copy) =>
      if k.at(p) >= |s.slots| then s
      else
        var slot := s.slots[k.at(p)];
        if |copy| < |slot.words| then s.(consumer := Copying(p, copy + [slot.words[|copy|]]))
        else
          s.(slots := s.slots[k.at(p) := slot.(sequence := p + k.capacity)], consumer := Advancing(p, copy))
    case Advancing(p, copy) => s.(dequeue := p + 1, popped := s.popped + [copy], consumer := Waiting)
  }

  /** One atomic step; a step that is not possible changes nothing. */
  function Step(k: Config, s: State, a: Action): (s': State)
    requires |s.slots| == k.capacity
    ensures |s'.slots| == k.capacity
  {
    match a
    case Push(t, e) =>
      if t < |s.producers| && s.producers[t].Resting? && |e| == k.width
      then s.(producers := s.producers[t := LoadingPosition(e)]) else s
    case Produce(t, spurious) => if t < |s.producers| then ProducerStep(k, s, t, spurious) else s
    case Pop => if s.consumer.Waiting? then s.(consumer := LoadingHead) else s
    case Consume => ConsumerStep(k, s)
  }

  function Run(k: Config, s: State, actions: seq<Action>): (s': State)
    requires |s.slots| == k.capacity
    ensures |s'.slots| == k.capacity
    decreases |actions|
  {
    if actions == [] then s else Run(k, Step(k, s, actions[0]), actions[1..])
  }

  // --------------------------------------------------------------- invariant

  /** How many slots have been given back to the producers. */
  function Released(s: State): nat {
    if s.consumer.Advancing? then s.dequeue + 1 else s.dequeue
  }

  /** A position in the window is free, being written, or published with the
      event that reserved it. */
  ghost predicate SlotOk(k: Config, s: State, p: nat)
    requires Shape(k, s)
  {
    var slot := s.slots[k.at(p)];
    if p < s.enqueue then
      slot.sequence == p || (slot.sequence == p + 1 && p < |s.reserved| && slot.words == s.reserved[p])
    else slot.sequence == p
  }

  ghost predicate SlotsOk(k: Config, s: State)
    requires Shape(k, s)
  {
    forall p: nat :: Released(s) <= p < Released(s) + k.capacity ==> SlotOk(k, s, p)
  }

  predicate IsWriting(s: State, t: nat, p: nat) {
    t < |s.producers| && s.producers[t].Writing? && s.producers[t].position == p
  }

  /** A slot that is reserved and not published has somebody writing it. */
  ghost predicate Attended(k: Config, s: State, p: nat)
    requires Shape(k, s)
  {
    s.slots[k.at(p)].sequence == p ==> exists t: nat :: IsWriting(s, t, p)
  }

  ghost predicate AllAttended(k: Config, s: State)
    requires Shape(k, s)
  {
    forall p: nat :: Released(s) <= p < s.enqueue ==> Attended(k, s, p)
  }

  ghost predicate ProducerOk(k: Config, s: State, q: Producer)
    requires Shape(k, s)
  {
    match q
    case Resting => true
    case LoadingPosition(e) => true
    case LoadingSequence(e, p) => p <= s.enqueue
    case Reserving(e, p) => p <= s.enqueue && s.slots[k.at(p)].sequence >= p
    case Writing(e, p, i) =>
      && Released(s) <= p < s.enqueue == |s.reserved|
      && s.slots[k.at(p)].sequence == p
      && e == s.reserved[p] && i <= k.width == |e|
      && s.slots[k.at(p)].words[..i] == e[..i]
  }

  ghost predicate ProducersOk(k: Config, s: State)
    requires Shape(k, s)
  {
    forall t :: 0 <= t < |s.producers| ==> ProducerOk(k, s, s.producers[t])
  }

  ghost predicate WritersDiffer(s: State) {
    forall t: nat, u: nat, p: nat :: IsWriting(s, t, p) && IsWriting(s, u, p) ==> t == u
  }

  ghost predicate ConsumerOk(k: Config, s: State)
    requires Shape(k, s)
  {
    match s.consumer
    case Waiting => true
    case LoadingHead => true
    case Checking(p) => p == s.dequeue
    case Copying(p, copy) =>
      && p == s.dequeue < s.enqueue == |s.reserved|
      && s.slots[k.at(p)].sequence == p + 1
      && |s.reserved[p]| == k.width
      && copy <= s.reserved[p]
    case Advancing(p, copy) => p == s.dequeue < s.enqueue == |s.reserved| && copy == s.reserved[p]
  }

  ghost predicate Counted(k: Config, s: State) {
    && s.dequeue <= Released(s) <= s.enqueue <= Released(s) + k.capacity
    && |s.reserved| == s.enqueue
    && s.popped == s.reserved[..s.dequeue]
    && forall e :: e in s.reserved ==> |e| == k.width
  }

  ghost predicate Inv(k: Config, s: State) {
    && k.capacity >= 2
    && Shape(k, s)
    && Counted(k, s)
    && SlotsOk(k, s)
    && AllAttended(k, s)
    && ProducersOk(k, s)
    && WritersDiffer(s)
    && ConsumerOk(k, s)
  }

  // ------------------------------------------------------------------- slots

  lemma {:induction false} RemaindersDiffer(p: nat, q: nat, n: nat)
    requires n > 0 && p < q < p + n
    ensures Remainder(p, n) != Remainder(q, n)
  {
    if p >= n {
      RemaindersDiffer(p - n, q - n, n);
    }
  }

  /** Positions less than a round apart have different slots. */
  lemma SlotsDiffer(k: Config, p: nat, q: nat)
    requires Ring(k) && p < q < p + k.capacity
    ensures k.at(p) != k.at(q)
  {
    RemaindersDiffer(p, q, k.capacity);
    assert k.at(p) == Remainder(p, k.capacity) && k.at(q) == Remainder(q, k.capacity);
  }

  lemma NextRound(k: Config, p: nat)
    requires Ring(k)
    ensures k.at(p + k.capacity) == k.at(p)
  {
    assert k.at(p) == Remainder(p, k.capacity);
    assert k.at(p + k.capacity) == Remainder(p + k.capacity, k.capacity);
  }

  // ------------------------------------------------------------- what is kept

  ghost predicate EventFits(k: Config, q: Producer) {
    q.Resting? || |q.event| == k.width
  }

  /** A producer that neither writes nor starts to write changes only its own
      place. */
  lemma ThreadMoves(k: Config, s: State, t: nat, q: Producer)
    requires Inv(k, s) && t < |s.producers| && !s.producers[t].Writing? && !q.Writing?
    requires EventFits(k, q) && ProducerOk(k, s, q)
    ensures Inv(k, s.(producers := s.producers[t := q]))
  {
    var s' := s.(producers := s.producers[t := q]);
    assert Shape(k, s');
    forall p: nat | Released(s) <= p < Released(s) + k.capacity ensures SlotOk(k, s', p) {
      assert SlotOk(k, s, p);
    }
    forall p: nat | Released(s) <= p < s.enqueue ensures Attended(k, s', p) {
      assert Attended(k, s, p);
      if u: nat :| IsWriting(s, u, p) {
        assert IsWriting(s', u, p);
      }
    }
    forall u | 0 <= u < |s'.producers| ensures ProducerOk(k, s', s'.producers[u]) {
      assert ProducerOk(k, s, s.producers[u]);
    }
    forall u: nat, v: nat, p: nat | IsWriting(s', u, p) && IsWriting(s', v, p) ensures u == v {
      assert IsWriting(s, u, p) && IsWriting(s, v, p);
    }
  }

  /** Why the capacity must be at least two: a sequence seen equal to the tail
      position could otherwise be that of a published, unread slot. */
  lemma ReservationHasRoom(k: Config, s: State, t: nat)
    requires Inv(k, s) && t < |s.producers| && s.producers[t].Reserving? && s.producers[t].position == s.enqueue
    ensures s.enqueue < Released(s) + k.capacity
    ensures s.slots[k.at(s.enqueue)].sequence == s.enqueue
  {
    assert ProducerOk(k, s, s.producers[t]);
    var r := Released(s);
    assert SlotOk(k, s, r);
    NextRound(k, r);
    if s.enqueue < r + k.capacity {
      assert SlotOk(k, s, s.enqueue);
    }
  }

  ghost predicate CanReserve(k: Config, s: State, t: nat) {
    && Inv(k, s) && t < |s.producers| && s.producers[t].Reserving? && s.producers[t].position == s.enqueue
  }

  lemma ReserveKeepsSlots(k: Config, s: State, t: nat)
    requires CanReserve(k, s, t)
    ensures var s' := ProducerStep(k, s, t, false);
            Shape(k, s') && Counted(k, s') && SlotsOk(k, s') && AllAttended(k, s') && ConsumerOk(k, s')
  {
    var s', n := ProducerStep(k, s, t, false), s.enqueue;
    ReservationHasRoom(k, s, t);
    assert Shape(k, s') && Counted(k, s');
    forall p: nat | Released(s) <= p < Released(s) + k.capacity ensures SlotOk(k, s', p) {
      assert SlotOk(k, s, p);
    }
    forall p: nat | Released(s) <= p < s'.enqueue ensures Attended(k, s', p) {
      if p == n {
        assert IsWriting(s', t, p);
      } else {
        assert Attended(k, s, p);
        if u: nat :| IsWriting(s, u, p) {
          assert IsWriting(s', u, p);
        }
      }
    }
  }

  lemma ReserveKeepsThreads(k: Config, s: State, t: nat)
    requires CanReserve(k, s, t) && Shape(k, ProducerStep(k, s, t, false))
    ensures var s' := ProducerStep(k, s, t, false); ProducersOk(k, s') && WritersDiffer(s')
  {
    var s', e, n := ProducerStep(k, s, t, false), s.producers[t].event, s.enqueue;
    ReservationHasRoom(k, s, t);
    assert s'.slots[k.at(n)].words[..0] == e[..0];
    forall u | 0 <= u < |s'.producers| ensures ProducerOk(k, s', s'.producers[u]) {
      assert ProducerOk(k, s, s.producers[u]);
    }
    assert forall u :: 0 <= u < |s.producers| && s.producers[u].Writing? ==> s.producers[u].position < n;
    forall u: nat, v: nat, p: nat | IsWriting(s', u, p) && IsWriting(s', v, p) ensures u == v {
      assert (u == t || IsWriting(s, u, p)) && (v == t || IsWriting(s, v, p));
    }
  }

  lemma ReserveKeeps(k: Config, s: State, t: nat)
    requires CanReserve(k, s, t)
    ensures Inv(k, ProducerStep(k, s, t, false))
  {
    ReserveKeepsSlots(k, s, t);
    ReserveKeepsThreads(k, s, t);
  }

  /** Nobody else is concerned with the slot a producer writes. */
  lemma WriterOwnsSlot(k: Config, s: State, t: nat, p: nat)
    requires Inv(k, s) && IsWriting(s, t, p)
    ensures forall q: nat :: Released(s) <= q < Released(s) + k.capacity && q != p ==> k.at(q) != k.at(p)
    ensures s.consumer.Copying? ==> k.at(s.consumer.position) != k.at(p)
    ensures forall u: nat, q: nat :: IsWriting(s, u, q) && u != t ==> k.at(q) != k.at(p)
  {
    assert ProducerOk(k, s, s.producers[t]);
    forall q: nat | Released(s) <= q < Released(s) + k.capacity && q != p ensures k.at(q) != k.at(p) {
      if q < p {
        SlotsDiffer(k, q, p);
      } else {
        SlotsDiffer(k, p, q);
      }
    }
    forall u: nat, q: nat | IsWriting(s, u, q) && u != t ensures k.at(q) != k.at(p) {
      assert ProducerOk(k, s, s.producers[u]);
      assert q != p;
    }
  }

  /** The next word goes into the writer's own slot. */
  lemma WordKeeps(k: Config, s: State, t: nat)
    requires Inv(k, s) && t < |s.producers| && s.producers[t].Writing? && s.producers[t].next < k.width
    ensures Inv(k, ProducerStep(k, s, t, false))
  {
    var s', q := ProducerStep(k, s, t, false), s.producers[t];
    var p, i := q.position, q.next;
    assert ProducerOk(k, s, q) && IsWriting(s, t, p);
    WriterOwnsSlot(k, s, t, p);
    assert s'.slots[k.at(p)].words[..i + 1] == s.slots[k.at(p)].words[..i] + [q.event[i]];
    assert q.event[..i + 1] == q.event[..i] + [q.event[i]];
    assert Shape(k, s');
    forall n: nat | Released(s) <= n < Released(s) + k.capacity ensures SlotOk(k, s', n) {
      assert SlotOk(k, s, n);
    }
    forall n: nat | Released(s) <= n < s.enqueue ensures Attended(k, s', n) {
      assert Attended(k, s, n);
      if u: nat :| IsWriting(s, u, n) {
        assert IsWriting(s', u, n);
      }
    }
    OthersStay(k, s, s', t);
  }

  /** Publishing ends the writer's claim on its position. */
  lemma PublishKeeps(k: Config, s: State, t: nat)
    requires Inv(k, s) && t < |s.producers| && s.producers[t].Writing? && s.producers[t].next >= k.width
    ensures Inv(k, ProducerStep(k, s, t, false))
  {
    var s', q := ProducerStep(k, s, t, false), s.producers[t];
    var p := q.position;
    assert ProducerOk(k, s, q) && IsWriting(s, t, p);
    WriterOwnsSlot(k, s, t, p);
    assert s.slots[k.at(p)].words[..k.width] == s.slots[k.at(p)].words && q.event[..k.width] == q.event;
    assert Shape(k, s');
    forall n: nat | Released(s) <= n < Released(s) + k.capacity ensures SlotOk(k, s', n) {
      assert SlotOk(k, s, n);
    }
    forall n: nat | Released(s) <= n < s.enqueue ensures Attended(k, s', n) {
      assert Attended(k, s, n);
      if n != p {
        if u: nat :| IsWriting(s, u, n) {
          assert IsWriting(s', u, n);
        }
      }
    }
    OthersStay(k, s, s', t);
  }

  /** A producer that touches its own slot only, and raises its sequence if at
      all, leaves the others as they were. */
  lemma OthersStay(k: Config, s: State, s': State, t: nat)
    requires Inv(k, s) && Shape(k, s') && t < |s.producers| == |s'.producers| && s.producers[t].Writing?
    requires s' == s.(slots := s'.slots, producers := s.producers[t := s'.producers[t]])
    requires forall i :: 0 <= i < |s.slots| && i != k.at(s.producers[t].position) ==> s'.slots[i] == s.slots[i]
    requires s'.slots[k.at(s.producers[t].position)].sequence >= s.slots[k.at(s.producers[t].position)].sequence
    requires ProducerOk(k, s', s'.producers[t])
    requires s'.producers[t].Resting? || IsWriting(s', t, s.producers[t].position)
    ensures ProducersOk(k, s') && WritersDiffer(s') && ConsumerOk(k, s')
  {
    var p := s.producers[t].position;
    assert IsWriting(s, t, p);
    WriterOwnsSlot(k, s, t, p);
    forall u | 0 <= u < |s'.producers| ensures ProducerOk(k, s', s'.producers[u]) {
      assert ProducerOk(k, s, s.producers[u]);
      if u != t && s.producers[u].Writing? {
        assert IsWriting(s, u, s.producers[u].position);
      }
    }
    forall u: nat, v: nat, n: nat | IsWriting(s', u, n) && IsWriting(s', v, n) ensures u == v {
      assert IsWriting(s, u, n) && IsWriting(s, v, n);
    }
  }

  lemma ProduceKeeps(k: Config, s: State, t: nat, spurious: bool)
    requires Inv(k, s) && t < |s.producers|
    ensures Inv(k, ProducerStep(k, s, t, spurious))
  {
    var q := s.producers[t];
    assert ProducerOk(k, s, q);
    match q
    case Resting =>
    case LoadingPosition(e) => ThreadMoves(k, s, t, LoadingSequence(e, s.enqueue));
    case LoadingSequence(e, p) =>
      var sequence := s.slots[k.at(p)].sequence;
      ThreadMoves(k, s, t,
        if sequence == p then Reserving(e, p) else if sequence < p then Resting else LoadingPosition(e));
    case Reserving(e, p) =>
      if s.enqueue == p && !spurious {
        ReserveKeeps(k, s, t);
      } else {
        ThreadMoves(k, s, t, LoadingSequence(e, s.enqueue));
      }
    case Writing(e, p, i) =>
      if i < k.width {
        WordKeeps(k, s, t);
      } else {
        PublishKeeps(k, s, t);
      }
  }

  /** The consumer changes only its own place. */
  lemma ConsumerMoves(k: Config, s: State, c: Consumer)
    requires Inv(k, s) && !s.consumer.Advancing? && !c.Advancing? && ConsumerOk(k, s.(consumer := c))
    ensures Inv(k, s.(consumer := c))
  {
    var s' := s.(consumer := c);
    forall p: nat | Released(s) <= p < Released(s) + k.capacity ensures SlotOk(k, s', p) {
      assert SlotOk(k, s, p);
    }
    forall p: nat | Released(s) <= p < s.enqueue ensures Attended(k, s', p) {
      assert Attended(k, s, p);
      if u: nat :| IsWriting(s, u, p) {
        assert IsWriting(s', u, p);
      }
    }
    forall u | 0 <= u < |s'.producers| ensures ProducerOk(k, s', s'.producers[u]) {
      assert ProducerOk(k, s, s.producers[u]);
    }
    forall u: nat, v: nat, p: nat | IsWriting(s', u, p) && IsWriting(s', v, p) ensures u == v {
      assert IsWriting(s, u, p) && IsWriting(s, v, p);
    }
  }

  lemma ReleaseKeeps(k: Config, s: State)
    requires Inv(k, s) && s.consumer.Copying? && |s.consumer.copy| >= k.width
    ensures Inv(k, ConsumerStep(k, s))
  {
    var s', r := ConsumerStep(k, s), s.dequeue;
    assert SlotOk(k, s, r);
    NextRound(k, r);
    assert Shape(k, s');
    forall p: nat | r < p <= r + k.capacity ensures SlotOk(k, s', p) {
      if p < r + k.capacity {
        assert SlotOk(k, s, p);
        SlotsDiffer(k, r, p);
      }
    }
    forall p: nat | r < p < s.enqueue ensures Attended(k, s', p) {
      if p < r + k.capacity {
        SlotsDiffer(k, r, p);
      }
      assert Attended(k, s, p);
      if u: nat :| IsWriting(s, u, p) {
        assert IsWriting(s', u, p);
      }
    }
    forall u | 0 <= u < |s'.producers| ensures ProducerOk(k, s', s'.producers[u]) {
      assert ProducerOk(k, s, s.producers[u]);
      if s.producers[u].Writing? && s.producers[u].position != r {
        SlotsDiffer(k, r, s.producers[u].position);
      }
    }
    forall u: nat, v: nat, p: nat | IsWriting(s', u, p) && IsWriting(s', v, p) ensures u == v {
      assert IsWriting(s, u, p) && IsWriting(s, v, p);
    }
  }

  lemma AdvanceKeeps(k: Config, s: State)
    requires Inv(k, s) && s.consumer.Advancing?
    ensures Inv(k, ConsumerStep(k, s))
  {
    var s' := ConsumerStep(k, s);
    assert Released(s') == Released(s);
    assert s.reserved[..s'.dequeue] == s.reserved[..s.dequeue] + [s.consumer.copy];
    forall p: nat | Released(s) <= p < Released(s) + k.capacity ensures SlotOk(k, s', p) {
      assert SlotOk(k, s, p);
    }
    forall p: nat | Released(s) <= p < s.enqueue ensures Attended(k, s', p) {
      assert Attended(k, s, p);
      if u: nat :| IsWriting(s, u, p) {
        assert IsWriting(s', u, p);
      }
    }
    forall u | 0 <= u < |s'.producers| ensures ProducerOk(k, s', s'.producers[u]) {
      assert ProducerOk(k, s, s.producers[u]);
    }
    forall u: nat, v: nat, p: nat | IsWriting(s', u, p) && IsWriting(s', v, p) ensures u == v {
      assert IsWriting(s, u, p) && IsWriting(s, v, p);
    }
  }

  lemma ConsumeKeeps(k: Config, s: State)
    requires Inv(k, s)
    ensures Inv(k, ConsumerStep(k, s))
  {
    match s.consumer
    case Waiting =>
    case LoadingHead => ConsumerMoves(k, s, Checking(s.dequeue));
    case Checking(p) =>
      assert SlotOk(k, s, p);
      if s.slots[k.at(p)].sequence == p + 1 {
        assert s.reserved[p] in s.reserved;
        ConsumerMoves(k, s, Copying(p, []));
      } else {
        ConsumerMoves(k, s, Waiting);
      }
    case Copying(p, copy) =>
      assert SlotOk(k, s, p);
      if |copy| < k.width {
        ConsumerMoves(k, s, Copying(p, copy + [s.slots[k.at(p)].words[|copy|]]));
      } else {
        ReleaseKeeps(k, s);
      }
    case Advancing(p, copy) => AdvanceKeeps(k, s);
  }

  lemma StepKeeps(k: Config, s: State, a: Action)
    requires Inv(k, s)
    ensures Inv(k, Step(k, s, a))
  {
    match a
    case Push(t, e) =>
      if t < |s.producers| && s.producers[t].Resting? && |e| == k.width {
        ThreadMoves(k, s, t, LoadingPosition(e));
      }
    case Produce(t, spurious) =>
      if t < |s.producers| {
        ProduceKeeps(k, s, t, spurious);
      }
    case Pop =>
      if s.consumer.Waiting? {
        ConsumerMoves(k, s, LoadingHead);
      }
    case Consume => ConsumeKeeps(k, s);
  }

  // ---------------------------------------------------------------- every run

  lemma InitialKeeps(k: Config, threads: nat, junk: Event)
    requires Ring(k) && k.capacity >= 2 && |junk| == k.width
    ensures Inv(k, Initial(k, threads, junk))
  {
    var s := Initial(k, threads, junk);
    forall p: nat | p < k.capacity ensures SlotOk(k, s, p) {
      assert k.at(p) == Remainder(p, k.capacity) == p;
    }
  }

  lemma {:induction false} RunKeeps(k: Config, s: State, actions: seq<Action>)
    requires Inv(k, s)
    ensures Inv(k, Run(k, s, actions))
    decreases |actions|
  {
    if actions != [] {
      StepKeeps(k, s, actions[0]);
      RunKeeps(k, Step(k, s, actions[0]), actions[1..]);
    }
  }

  /** In every interleaving the events popped are the first events reserved, in
      reservation order, whole; and the occupancy never exceeds the capacity,
      except by one while the consumer is between its two stores. */
  lemma QueueIsFifo(k: Config, threads: nat, junk: Event, actions: seq<Action>)
    requires Ring(k) && k.capacity >= 2 && |junk| == k.width
    ensures var s := Run(k, Initial(k, threads, junk), actions);
            && |s.reserved| == s.enqueue
            && s.dequeue <= s.enqueue
            && s.popped == s.reserved[..s.dequeue]
            && s.enqueue - s.dequeue <= k.capacity + (if s.consumer.Advancing? then 1 else 0)
  {
    InitialKeeps(k, threads, junk);
    RunKeeps(k, Initial(k, threads, junk), actions);
  }

  // ----------------------------------------------------------------- answers

  /** What a call of try_push returned: true, with the position it was given, or
      false. */
  datatype Answer =
    | Accepted(thread: nat, event: Event, position: nat)
    | Refused(thread: nat, event: Event)

  /** The answer a step gives: it is the last one of a push. */
  function AnswerOf(k: Config, s: State, a: Action): Option<Answer>
    requires |s.slots| == k.capacity
  {
    if a.Produce? && a.thread < |s.producers| && !s.producers[a.thread].Resting?
       && Step(k, s, a).producers[a.thread].Resting?
    then
      var q := s.producers[a.thread];
      if q.Writing? then Some(Accepted(a.thread, q.event, q.position)) else Some(Refused(a.thread, q.event))
    else None
  }

  /** All answers of a run, in the order in which they are given. */
  function Answers(k: Config, s: State, actions: seq<Action>): seq<Answer>
    requires |s.slots| == k.capacity
    decreases |actions|
  {
    if actions == [] then []
    else Listed(AnswerOf(k, s, actions[0])) + Answers(k, Step(k, s, actions[0]), actions[1..])
  }

  predicate AcceptedAt(answers: seq<Answer>, i: nat, p: nat) {
    i < |answers| && answers[i].Accepted? && answers[i].position == p
  }

  ghost predicate HasAnswer(answers: seq<Answer>, p: nat) {
    exists i: nat :: AcceptedAt(answers, i, p)
  }

  ghost predicate HasWriter(s: State, p: nat) {
    exists t: nat :: IsWriting(s, t, p)
  }

  /** A position is answered true at most once, with the event reserved for it. */
  ghost predicate AnswersOk(reserved: seq<Event>, answers: seq<Answer>) {
    && (forall i: nat, p: nat :: AcceptedAt(answers, i, p) ==> p < |reserved| && answers[i].event == reserved[p])
    && (forall i: nat, j: nat, p: nat :: AcceptedAt(answers, i, p) && AcceptedAt(answers, j, p) ==> i == j)
  }

  /** A reservation has been answered true, or is being written, and not both. */
  ghost predicate Settled(s: State, answers: seq<Answer>) {
    forall p: nat :: p < |s.reserved| ==> HasAnswer(answers, p) == !HasWriter(s, p)
  }

  ghost predicate Answered(s: State, answers: seq<Answer>) {
    AnswersOk(s.reserved, answers) && Settled(s, answers)
  }

  lemma OneMoreAnswer(answers: seq<Answer>, x: Answer, p: nat)
    ensures HasAnswer(answers + [x], p) <==> HasAnswer(answers, p) || (x.Accepted? && x.position == p)
  {
    if i: nat :| AcceptedAt(answers, i, p) {
      assert AcceptedAt(answers + [x], i, p);
    }
    if x.Accepted? && x.position == p {
      assert AcceptedAt(answers + [x], |answers|, p);
    }
    if i: nat :| AcceptedAt(answers + [x], i, p) {
      assert i < |answers| ==> AcceptedAt(answers, i, p);
    }
  }

  lemma AnswersOkSnoc(reserved: seq<Event>, answers: seq<Answer>, x: Answer)
    requires AnswersOk(reserved, answers)
    requires x.Accepted? ==>
               x.position < |reserved| && x.event == reserved[x.position] && !HasAnswer(answers, x.position)
    ensures AnswersOk(reserved, answers + [x])
  {
    assert forall i: nat, p: nat :: i < |answers| ==> AcceptedAt(answers + [x], i, p) == AcceptedAt(answers, i, p);
    assert forall i: nat :: i < |answers| ==> (answers + [x])[i] == answers[i];
  }

  lemma SameWriters(s: State, s': State, p: nat)
    requires forall t: nat :: IsWriting(s', t, p) == IsWriting(s, t, p)
    ensures HasWriter(s', p) == HasWriter(s, p)
  {
    if t: nat :| IsWriting(s, t, p) {
      assert IsWriting(s', t, p);
    }
    if t: nat :| IsWriting(s', t, p) {
      assert IsWriting(s, t, p);
    }
  }

  /** Nobody starts or ends writing, and nothing is answered true. */
  lemma AnsweredStays(s: State, s': State, answers: seq<Answer>, x: Option<Answer>)
    requires Answered(s, answers) && s'.reserved == s.reserved && (x.Some? ==> x.value.Refused?)
    requires forall t: nat, p: nat :: IsWriting(s', t, p) == IsWriting(s, t, p)
    ensures Answered(s', answers + Listed(x))
  {
    if x.Some? {
      AnswersOkSnoc(s.reserved, answers, x.value);
    } else {
      assert answers + [] == answers;
    }
    forall p: nat | p < |s'.reserved| ensures HasAnswer(answers + Listed(x), p) == !HasWriter(s', p) {
      SameWriters(s, s', p);
      if x.Some? {
        OneMoreAnswer(answers, x.value, p);
      }
    }
  }

  lemma ReserveIsAttended(k: Config, s: State, t: nat, answers: seq<Answer>)
    requires CanReserve(k, s, t) && Answered(s, answers)
    ensures Answered(ProducerStep(k, s, t, false), answers)
  {
    var s', n := ProducerStep(k, s, t, false), s.enqueue;
    forall p: nat | p < |s'.reserved| ensures HasAnswer(answers, p) == !HasWriter(s', p) {
      if p == n {
        assert IsWriting(s', t, n);
      } else {
        SameWriters(s, s', p);
      }
    }
  }

  /** The last store of a push. */
  ghost predicate Publishes(k: Config, s: State, t: nat) {
    Inv(k, s) && t < |s.producers| && s.producers[t].Writing? && s.producers[t].next >= k.width
  }

  lemma PublishIsAnswered(k: Config, s: State, t: nat, answers: seq<Answer>)
    requires Publishes(k, s, t) && Answered(s, answers)
    ensures var q := s.producers[t];
            Answered(ProducerStep(k, s, t, false), answers + [Accepted(t, q.event, q.position)])
  {
    var s', q := ProducerStep(k, s, t, false), s.producers[t];
    var x := Accepted(t, q.event, q.position);
    assert ProducerOk(k, s, q) && IsWriting(s, t, q.position);
    assert HasWriter(s, q.position);
    AnswersOkSnoc(s.reserved, answers, x);
    forall p: nat | p < |s'.reserved| ensures HasAnswer(answers + [x], p) == !HasWriter(s', p) {
      OneMoreAnswer(answers, x, p);
      if p != q.position {
        SameWriters(s, s', p);
      } else if u: nat :| IsWriting(s', u, p) {
        assert IsWriting(s, u, p);
      }
    }
  }

  ghost predicate Reserves(k: Config, s: State, a: Action) {
    && Inv(k, s) && a.Produce? && !a.spurious && a.thread < |s.producers| && s.producers[a.thread].Reserving?
    && s.producers[a.thread].position == s.enqueue
  }

  lemma OtherStepIsAnswered(k: Config, s: State, a: Action, answers: seq<Answer>)
    requires Inv(k, s) && Answered(s, answers)
    requires !Reserves(k, s, a) && !(a.Produce? && Publishes(k, s, a.thread))
    ensures Answered(Step(k, s, a), answers + Listed(AnswerOf(k, s, a)))
  {
    if a.Produce? && a.thread < |s.producers| {
      assert ProducerOk(k, s, s.producers[a.thread]);
    }
    AnsweredStays(s, Step(k, s, a), answers, AnswerOf(k, s, a));
  }

  lemma ReservingStepIsAnswered(k: Config, s: State, a: Action, answers: seq<Answer>)
    requires Reserves(k, s, a) && Answered(s, answers)
    ensures Answered(Step(k, s, a), answers + Listed(AnswerOf(k, s, a)))
  {
    ReserveIsAttended(k, s, a.thread, answers);
    assert AnswerOf(k, s, a) == None && answers + [] == answers;
  }

  lemma PublishingStepIsAnswered(k: Config, s: State, a: Action, answers: seq<Answer>)
    requires a.Produce? && Publishes(k, s, a.thread) && Answered(s, answers)
    ensures Answered(Step(k, s, a), answers + Listed(AnswerOf(k, s, a)))
  {
    var q := s.producers[a.thread];
    PublishIsAnswered(k, s, a.thread, answers);
    assert Step(k, s, a) == ProducerStep(k, s, a.thread, false);
    assert AnswerOf(k, s, a) == Some(Accepted(a.thread, q.event, q.position));
  }

  lemma StepIsAnswered(k: Config, s: State, a: Action, answers: seq<Answer>)
    requires Inv(k, s) && Answered(s, answers)
    ensures Answered(Step(k, s, a), answers + Listed(AnswerOf(k, s, a)))
  {
    if Reserves(k, s, a) {
      ReservingStepIsAnswered(k, s, a, answers);
    } else if a.Produce? && Publishes(k, s, a.thread) {
      PublishingStepIsAnswered(k, s, a, answers);
    } else {
      OtherStepIsAnswered(k, s, a, answers);
    }
  }

  lemma {:induction false} RunIsAnswered(k: Config, s: State, actions: seq<Action>, answers: seq<Answer>)
    requires Inv(k, s) && Answered(s, answers)
    ensures Answered(Run(k, s, actions), answers + Answers(k, s, actions))
    decreases |actions|
  {
    if actions == [] {
      assert answers + [] == answers;
    } else {
      var s', given := Step(k, s, actions[0]), Listed(AnswerOf(k, s, actions[0]));
      StepKeeps(k, s, actions[0]);
      StepIsAnswered(k, s, actions[0], answers);
      RunIsAnswered(k, s', actions[1..], answers + given);
      Assoc(answers, given, Answers(k, s', actions[1..]));
    }
  }

  /** In every interleaving the true answers of try_push and the reservations
      correspond: each reserved position was answered true exactly once, with the
      event reserved for it, or is still being written by exactly one producer,
      and not both; and no other position is ever answered true. */
  lemma AnswersMatchReservations(k: Config, threads: nat, junk: Event, actions: seq<Action>)
    requires Ring(k) && k.capacity >= 2 && |junk| == k.width
    ensures var s0 := Initial(k, threads, junk);
            var s := Run(k, s0, actions);
            Answered(s, Answers(k, s0, actions)) && WritersDiffer(s)
  {
    var s := Initial(k, threads, junk);
    InitialKeeps(k, threads, junk);
    RunIsAnswered(k, s, actions, []);
    RunKeeps(k, s, actions);
    assert [] + Answers(k, s, actions) == Answers(k, s, actions);
  }

  /** The events a thread has begun to push in a run. */
  function Pushed(k: Config, s: State, actions: seq<Action>, t: nat): seq<Event>
    requires |s.slots| == k.capacity
    decreases |actions|
  {
    if actions == [] then []
    else PushedBy(k, s, actions[0], t) + Pushed(k, Step(k, s, actions[0]), actions[1..], t)
  }

  function PushedBy(k: Config, s: State, a: Action, t: nat): seq<Event> {
    if a.Push? && a.thread == t < |s.producers| && s.producers[t].Resting? && |a.event| == k.width
    then [a.event] else []
  }

  /** The events about which a thread has been given an answer. */
  function AnsweredTo(answers: seq<Answer>, t: nat): seq<Event> {
    if answers == [] then []
    else (if answers[0].thread == t then [answers[0].event] else []) + AnsweredTo(answers[1..], t)
  }

  /** The event a thread is pushing. */
  function UnderWay(s: State, t: nat): seq<Event> {
    if t < |s.producers| && !s.producers[t].Resting? then [s.producers[t].event] else []
  }

  /** A producer keeps its event until it rests. */
  lemma ProducerKeepsEvent(k: Config, s: State, t: nat, spurious: bool)
    requires t < |s.producers| && |s.slots| == k.capacity
    ensures var s' := ProducerStep(k, s, t, spurious);
            && |s'.producers| == |s.producers|
            && (forall u :: 0 <= u < |s.producers| && u != t ==> s'.producers[u] == s.producers[u])
            && (s.producers[t].Resting? ==> s' == s)
            && (!s'.producers[t].Resting? ==> s'.producers[t].event == s.producers[t].event)
  {
  }

  lemma StepAnswersPushes(k: Config, s: State, a: Action, t: nat)
    requires |s.slots| == k.capacity
    ensures UnderWay(s, t) + PushedBy(k, s, a, t)
         == AnsweredTo(Listed(AnswerOf(k, s, a)), t) + UnderWay(Step(k, s, a), t)
  {
    if a.Produce? && a.thread < |s.producers| {
      ProducerKeepsEvent(k, s, a.thread, a.spurious);
      assert PushedBy(k, s, a, t) == [];
    } else {
      assert AnswerOf(k, s, a) == None;
    }
  }

  lemma AnsweredToCons(x: Option<Answer>, rest: seq<Answer>, t: nat)
    ensures AnsweredTo(Listed(x) + rest, t) == AnsweredTo(Listed(x), t) + AnsweredTo(rest, t)
  {
    if x.Some? {
      assert (Listed(x) + rest)[1..] == rest;
    } else {
      assert Listed(x) + rest == rest;
    }
  }

  /** Every push is answered once, in the order in which its thread made them. */
  lemma {:induction false} EveryPushIsAnswered(k: Config, s: State, actions: seq<Action>, t: nat)
    requires |s.slots| == k.capacity
    ensures UnderWay(s, t) + Pushed(k, s, actions, t)
         == AnsweredTo(Answers(k, s, actions), t) + UnderWay(Run(k, s, actions), t)
    decreases |actions|
  {
    if actions != [] {
      var s', x := Step(k, s, actions[0]), AnswerOf(k, s, actions[0]);
      var rest := Answers(k, s', actions[1..]);
      StepAnswersPushes(k, s, actions[0], t);
      EveryPushIsAnswered(k, s', actions[1..], t);
      AnsweredToCons(x, rest, t);
      Assoc(UnderWay(s, t), PushedBy(k, s, actions[0], t), Pushed(k, s', actions[1..], t));
      Assoc(AnsweredTo(Listed(x), t), UnderWay(s', t), Pushed(k, s', actions[1..], t));
      Assoc(AnsweredTo(Listed(x), t), AnsweredTo(rest, t), UnderWay(Run(k, s', actions[1..]), t));
    } else {
      assert UnderWay(s, t) + [] == [] + UnderWay(s, t);
    }
  }

  /** Reservations of this thread are at `n` or later. */
  predicate IsAhead(s: State, t: nat, n: nat) {
    n <= s.enqueue && (t < |s.producers| && s.producers[t].Writing? ==> n <= s.producers[t].position)
  }

  lemma StepStaysAhead(k: Config, s: State, a: Action, t: nat, n: nat)
    requires |s.slots| == k.capacity && IsAhead(s, t, n)
    ensures IsAhead(Step(k, s, a), t, n)
    ensures var x := AnswerOf(k, s, a);
            x.Some? && x.value.Accepted? && x.value.thread == t ==> n <= x.value.position
  {
    if a.Produce? && a.thread < |s.producers| {
      ProducerKeepsEvent(k, s, a.thread, a.spurious);
    }
  }

  lemma {:induction false} RunStaysAhead(k: Config, s: State, actions: seq<Action>, t: nat, n: nat)
    requires |s.slots| == k.capacity && IsAhead(s, t, n)
    ensures forall x :: x in Answers(k, s, actions) && x.Accepted? && x.thread == t ==> n <= x.position
    decreases |actions|
  {
    if actions != [] {
      StepStaysAhead(k, s, actions[0], t, n);
      RunStaysAhead(k, Step(k, s, actions[0]), actions[1..], t, n);
    }
  }

  lemma {:induction false} AnswersJoin(k: Config, s: State, before: seq<Action>, after: seq<Action>)
    requires |s.slots| == k.capacity
    ensures Run(k, s, before + after) == Run(k, Run(k, s, before), after)
    ensures Answers(k, s, before + after) == Answers(k, s, before) + Answers(k, Run(k, s, before), after)
    decreases |before|
  {
    if before == [] {
      assert before + after == after;
    } else {
      var s' := Step(k, s, before[0]);
      assert (before + after)[1..] == before[1..] + after;
      AnswersJoin(k, s', before[1..], after);
      Assoc(Listed(AnswerOf(k, s, before[0])), Answers(k, s', before[1..]), Answers(k, Run(k, s', before[1..]), after));
    }
  }

  /** Positions respect real time. Stop a run anywhere: of a thread that is in no
      push there, every later push that is answered true has a larger position
      than every push, of any thread, that was answered true before. So if one
      push is answered before another begins, it is popped first. */
  lemma QueueRespectsRealTime(
      k: Config, threads: nat, junk: Event, before: seq<Action>, after: seq<Action>, t: nat, i: nat, j: nat)
    requires Ring(k) && k.capacity >= 2 && |junk| == k.width
    requires var s0 := Initial(k, threads, junk);
             var s := Run(k, s0, before);
             && (t < |s.producers| ==> s.producers[t].Resting?)
             && i < |Answers(k, s0, before)| <= j < |Answers(k, s0, before + after)|
             && Answers(k, s0, before)[i].Accepted?
             && Answers(k, s0, before + after)[j].Accepted? && Answers(k, s0, before + after)[j].thread == t
    ensures var answers := Answers(k, Initial(k, threads, junk), before + after);
            && answers[i] == Answers(k, Initial(k, threads, junk), before)[i]
            && answers[i].position < answers[j].position
  {
    var s0 := Initial(k, threads, junk);
    var s := Run(k, s0, before);
    AnswersMatchReservations(k, threads, junk, before);
    QueueIsFifo(k, threads, junk, before);
    AnswersJoin(k, s0, before, after);
    var first, rest := Answers(k, s0, before), Answers(k, s, after);
    assert AcceptedAt(first, i, first[i].position);
    RunStaysAhead(k, s, after, t, s.enqueue);
    assert (first + rest)[j] == rest[j - |first|] && rest[j - |first|] in rest;
  }

  /** try_push answers false only when, at its sequence load, a whole capacity
      of reservations is unreleased; and it does so if its position is current. */
  lemma FullAnswerIsSound(k: Config, s: State, t: nat, spurious: bool)
    requires Inv(k, s) && t < |s.producers| && s.producers[t].LoadingSequence?
    ensures var refused := Step(k, s, Produce(t, spurious)).producers[t].Resting?;
            && (refused ==> s.enqueue - Released(s) == k.capacity)
            && (s.producers[t].position == s.enqueue && s.enqueue - Released(s) == k.capacity ==> refused)
  {
    var p, r := s.producers[t].position, Released(s);
    assert ProducerOk(k, s, s.producers[t]);
    if s.enqueue - r < k.capacity {
      SequencesReach(k, s, p);
    } else if p == s.enqueue {
      NextRound(k, r);
      assert SlotOk(k, s, r);
    }
  }

  /** Whatever step it is given in, an answer of false finds a whole capacity of
      reservations unreleased. */
  lemma RefusedIsFull(k: Config, s: State, a: Action)
    requires Inv(k, s) && AnswerOf(k, s, a).Some? && AnswerOf(k, s, a).value.Refused?
    ensures s.enqueue - Released(s) == k.capacity
  {
    if s.producers[a.thread].LoadingSequence? {
      FullAnswerIsSound(k, s, a.thread, a.spurious);
    }
  }

  /** In every run: each answer of false was given by a step out of a state in which
      a whole capacity of reservations was unreleased. */
  lemma {:induction false} RefusalsAreFull(k: Config, s: State, actions: seq<Action>, i: nat) returns (n: nat)
    requires Inv(k, s) && i < |Answers(k, s, actions)| && Answers(k, s, actions)[i].Refused?
    ensures n < |actions|
    ensures var s' := Run(k, s, actions[..n]);
            && |Answers(k, s, actions[..n])| == i
            && AnswerOf(k, s', actions[n]) == Some(Answers(k, s, actions)[i])
            && s'.enqueue - Released(s') == k.capacity
    decreases |actions|
  {
    var s', given := Step(k, s, actions[0]), Listed(AnswerOf(k, s, actions[0]));
    StepKeeps(k, s, actions[0]);
    if given != [] && i == 0 {
      n := 0;
      assert actions[..0] == [];
      RefusedIsFull(k, s, actions[0]);
    } else {
      var m := RefusalsAreFull(k, s', actions[1..], i - |given|);
      n := m + 1;
      assert actions[..n][0] == actions[0] && actions[..n][1..] == actions[1..][..m];
    }
  }

  /** The same from the start. */
  lemma NoRefusalWithRoom(k: Config, threads: nat, junk: Event, actions: seq<Action>, i: nat) returns (n: nat)
    requires Ring(k) && k.capacity >= 2 && |junk| == k.width
    requires var answers := Answers(k, Initial(k, threads, junk), actions); i < |answers| && answers[i].Refused?
    ensures n < |actions|
    ensures var s0 := Initial(k, threads, junk);
            var s := Run(k, s0, actions[..n]);
            && AnswerOf(k, s, actions[n]) == Some(Answers(k, s0, actions)[i])
            && |s.reserved| - Released(s) == k.capacity
  {
    InitialKeeps(k, threads, junk);
    RunKeeps(k, Initial(k, threads, junk), actions);
    n := RefusalsAreFull(k, Initial(k, threads, junk), actions, i);
    RunKeeps(k, Initial(k, threads, junk), actions[..n]);
  }

  lemma {:induction false} SequencesReach(k: Config, s: State, p: nat)
    requires Inv(k, s) && p < Released(s) + k.capacity
    ensures s.slots[k.at(p)].sequence >= p
    decreases Released(s) + k.capacity - p
  {
    if p < Released(s) {
      NextRound(k, p);
      SequencesReach(k, s, p + k.capacity);
    } else {
      assert SlotOk(k, s, p);
    }
  }

  /** try_pop answers false exactly when nothing is reserved, or the oldest
      reservation is still being written by some producer. */
  lemma EmptyAnswerIsSound(k: Config, s: State)
    requires Inv(k, s) && s.consumer.Checking?
    ensures Step(k, s, Consume).consumer.Waiting?
            <==> s.dequeue == s.enqueue || exists t: nat :: IsWriting(s, t, s.dequeue)
  {
    assert SlotOk(k, s, s.dequeue);
    if s.dequeue < s.enqueue {
      assert Attended(k, s, s.dequeue);
      if t: nat :| IsWriting(s, t, s.dequeue) {
        assert ProducerOk(k, s, s.producers[t]);
      }
    }
  }

  /** With no push under way, an empty answer means that nothing was lost. */
  lemma DrainedQueueLostNothing(k: Config, s: State)
    requires Inv(k, s) && s.consumer.Checking? && Step(k, s, Consume).consumer.Waiting?
    requires forall t :: 0 <= t < |s.producers| ==> !s.producers[t].Writing?
    ensures s.popped == s.reserved
  {
    EmptyAnswerIsSound(k, s);
  }

  /** No producer's step changes a slot that is published and unread, or one the
      consumer is copying. */
  lemma UnreadIsNotOverwritten(k: Config, s: State, t: nat, spurious: bool, p: nat)
    requires Inv(k, s) && t < |s.producers| && Released(s) <= p < s.enqueue
    requires s.slots[k.at(p)].sequence == p + 1
    ensures Step(k, s, Produce(t, spurious)).slots[k.at(p)] == s.slots[k.at(p)]
    ensures s.slots[k.at(p)].words == s.reserved[p]
  {
    assert SlotOk(k, s, p);
    assert ProducerOk(k, s, s.producers[t]);
    if s.producers[t].Writing? {
      assert IsWriting(s, t, s.producers[t].position);
      WriterOwnsSlot(k, s, t, s.producers[t].position);
    }
  }

  // ----------------------------------------------------------------- progress

  /** How many steps of its own a push still needs, if no other thread steps. */
  function StepsLeft(k: Config, s: State, t: nat): nat
    requires t < |s.producers|
  {
    match s.producers[t]
    case Resting => 0
    case LoadingPosition(_) => k.width + 4
    case LoadingSequence(_, p) => if p == s.enqueue then k.width + 3 else k.width + 5
    case Reserving(_, p) => if p == s.enqueue then k.width + 2 else k.width + 4
    case Writing(_, _, i) => if i < k.width then k.width - i + 1 else 1
  }

  /** A producer alone comes closer to its answer with every step. */
  lemma PushAdvances(k: Config, s: State, t: nat)
    requires Inv(k, s) && t < |s.producers| && !s.producers[t].Resting?
    ensures var s' := Step(k, s, Produce(t, false));
            && StepsLeft(k, s', t) < StepsLeft(k, s, t)
            && Released(s') == Released(s)
            && (s'.enqueue == s.enqueue || s'.producers[t].Writing?)
            && (s.producers[t].Writing? ==> s'.producers[t].Writing? || AnswerOf(k, s, Produce(t, false)).Some?)
            && (!s'.producers[t].Resting? ==> s'.producers[t].event == s.producers[t].event)
  {
    var q := s.producers[t];
    assert ProducerOk(k, s, q);
    if q.LoadingSequence? && q.position == s.enqueue {
      var r := Released(s);
      NextRound(k, r);
      assert SlotOk(k, s, r);
      if s.enqueue < r + k.capacity {
        assert SlotOk(k, s, s.enqueue);
      }
    }
  }

  function Alone(t: nat, n: nat): seq<Action> {
    if n == 0 then [] else [Produce(t, false)] + Alone(t, n - 1)
  }

  lemma AloneCons(k: Config, s: State, t: nat, n: nat)
    requires |s.slots| == k.capacity
    ensures var a := Produce(t, false);
            && Run(k, s, Alone(t, n + 1)) == Run(k, Step(k, s, a), Alone(t, n))
            && Answers(k, s, Alone(t, n + 1)) == Listed(AnswerOf(k, s, a)) + Answers(k, Step(k, s, a), Alone(t, n))
  {
    assert Alone(t, n + 1)[1..] == Alone(t, n);
  }

  /** From any reachable state, a push that is under way and runs alone is
      answered, about its own event; and it is answered true if it has reserved
      already or there is room. */
  lemma {:induction false} PushEndsAlone(k: Config, s: State, t: nat) returns (n: nat, x: Answer)
    requires Inv(k, s) && t < |s.producers| && !s.producers[t].Resting?
    ensures var s' := Run(k, s, Alone(t, n)); t < |s'.producers| && s'.producers[t].Resting?
    ensures Answers(k, s, Alone(t, n)) == [x]
    ensures x.thread == t && x.event == s.producers[t].event
    ensures x.Refused? ==> !s.producers[t].Writing? && s.enqueue - Released(s) == k.capacity
    decreases StepsLeft(k, s, t)
  {
    var a := Produce(t, false);
    var s', given := Step(k, s, a), AnswerOf(k, s, a);
    PushAdvances(k, s, t);
    StepKeeps(k, s, a);
    if s'.producers[t].Resting? {
      n, x := 1, given.value;
      if x.Refused? {
        RefusedIsFull(k, s, a);
      }
      AloneCons(k, s, t, 0);
      assert [x] + [] == [x];
    } else {
      assert given == None;
      var m: nat;
      m, x := PushEndsAlone(k, s', t);
      n := m + 1;
      AloneCons(k, s, t, m);
      assert [] + [x] == [x];
    }
  }

  function PopStepsLeft(k: Config, s: State): nat {
    match s.consumer
    case Waiting => 0
    case LoadingHead => k.width + 4
    case Checking(_) => k.width + 3
    case Copying(_, copy) => if |copy| < k.width then k.width - |copy| + 2 else 2
    case Advancing(_, _) => 1
  }

  function Consumes(n: nat): seq<Action> {
    if n == 0 then [] else [Consume] + Consumes(n - 1)
  }

  lemma PopAdvances(k: Config, s: State)
    requires Inv(k, s) && !s.consumer.Waiting?
    ensures var s' := Step(k, s, Consume);
            && PopStepsLeft(k, s') < PopStepsLeft(k, s)
            && s'.enqueue == s.enqueue && s'.reserved == s.reserved
            && (!s'.consumer.Waiting? ==> s'.popped == s.popped && s'.dequeue == s.dequeue)
            && (s.consumer.Copying? || s.consumer.Advancing? ==>
                  !s'.consumer.Waiting? || s'.popped == s.popped + [s.reserved[s.dequeue]])
  {
    if s.consumer.Copying? {
      assert SlotOk(k, s, s.dequeue);
    }
  }

  /** A pop that has found an event and runs alone pops that event. */
  lemma {:induction false} PopEndsAlone(k: Config, s: State) returns (n: nat)
    requires Inv(k, s) && (s.consumer.Copying? || s.consumer.Advancing?)
    ensures var s' := Run(k, s, Consumes(n));
            s'.consumer.Waiting? && s.dequeue < |s.reserved| && s'.popped == s.popped + [s.reserved[s.dequeue]]
    decreases PopStepsLeft(k, s)
  {
    var s' := Step(k, s, Consume);
    PopAdvances(k, s);
    StepKeeps(k, s, Consume);
    if s'.consumer.Waiting? {
      n := 1;
      assert Consumes(1) == [Consume] + Consumes(0) && Consumes(1)[1..] == [];
    } else {
      var m := PopEndsAlone(k, s');
      n := m + 1;
      assert Consumes(n)[1..] == Consumes(m);
    }
  }

  /** Wherever a pop ends without an event, the queue is empty or its oldest
      reservation is still being written. */
  lemma NoEventIsEmpty(k: Config, s: State, a: Action)
    requires Inv(k, s) && !s.consumer.Waiting?
    requires Step(k, s, a).consumer.Waiting? && Step(k, s, a).popped == s.popped
    ensures s.dequeue == s.enqueue || exists t: nat :: IsWriting(s, t, s.dequeue)
  {
    PopAdvances(k, s);
    assert a.Consume? && |Step(k, s, a).popped| == |s.popped|;
    if s.consumer.Checking? {
      EmptyAnswerIsSound(k, s);
    }
  }

  /** A push by a thread at rest that runs alone is answered once, about its event,
      and answered true if there is room. */
  lemma PushIsAnswered(k: Config, s: State, t: nat, e: Event) returns (n: nat, x: Answer)
    requires Inv(k, s) && t < |s.producers| && s.producers[t].Resting? && |e| == k.width
    ensures Answers(k, s, [Push(t, e)] + Alone(t, n)) == [x] && x.thread == t && x.event == e
    ensures x.Refused? ==> s.enqueue - Released(s) == k.capacity
  {
    var s' := Step(k, s, Push(t, e));
    StepKeeps(k, s, Push(t, e));
    n, x := PushEndsAlone(k, s', t);
    assert ([Push(t, e)] + Alone(t, n))[1..] == Alone(t, n);
    assert [] + [x] == [x];
    assert Released(s') == Released(s);
  }

  ghost predicate NoneToPop(s: State) {
    s.dequeue == s.enqueue || exists t: nat :: IsWriting(s, t, s.dequeue)
  }

  /** What a pop of this state leaves behind. */
  ghost predicate PopDone(s: State, s': State) {
    s'.consumer.Waiting? &&
    if NoneToPop(s) then s'.popped == s.popped
    else s.dequeue < |s.reserved| && s'.popped == s.popped + [s.reserved[s.dequeue]]
  }

  lemma PopLooks(k: Config, s: State)
    requires Inv(k, s) && s.consumer.Waiting?
    ensures var s' := s.(consumer := Checking(s.dequeue));
            Step(k, Step(k, s, Pop), Consume) == s' && Inv(k, s') && (NoneToPop(s') <==> NoneToPop(s))
  {
    var s' := s.(consumer := Checking(s.dequeue));
    StepKeeps(k, s, Pop);
    StepKeeps(k, Step(k, s, Pop), Consume);
    assert forall t: nat :: IsWriting(s', t, s.dequeue) <==> IsWriting(s, t, s.dequeue);
  }

  lemma PopFromCheck(k: Config, s: State) returns (n: nat)
    requires Inv(k, s) && s.consumer.Checking?
    ensures PopDone(s, Run(k, Step(k, s, Consume), Consumes(n)))
  {
    var s' := Step(k, s, Consume);
    StepKeeps(k, s, Consume);
    EmptyAnswerIsSound(k, s);
    n := 0;
    if s'.consumer.Copying? {
      n := PopEndsAlone(k, s');
    }
  }

  /** A pop that runs alone from the start pops the oldest event, unless there is none
      or it is still being written. */
  lemma PopIsAnswered(k: Config, s: State) returns (n: nat)
    requires Inv(k, s) && s.consumer.Waiting?
    ensures PopDone(s, Run(k, s, [Pop] + Consumes(n)))
  {
    var s' := s.(consumer := Checking(s.dequeue));
    PopLooks(k, s);
    var m := PopFromCheck(k, s');
    n := m + 2;
    RunCons(k, s, Pop, Consumes(m + 2));
    RunCons(k, Step(k, s, Pop), Consume, Consumes(m + 1));
    RunCons(k, s', Consume, Consumes(m));
  }

  // ------------------------------------------------------------ capacity one

  const ONE: Config := Config(1, 1, (p: nat) => 0)

  lemma OneIsRing()
    ensures Ring(ONE)
  {
    forall p: nat ensures Remainder(p, 1) == 0 {
    }
  }

  lemma RunCons(k: Config, s: State, a: Action, rest: seq<Action>)
    requires |s.slots| == k.capacity
    ensures Run(k, s, [a] + rest) == Run(k, Step(k, s, a), rest)
  {
    assert ([a] + rest)[1..] == rest;
  }

  const PUSHED_ONE: State := State(1, 0, [Slot(1, [7])], [Resting, Resting], Waiting, [[7]], [])
  const WROTE_TWO: State := State(2, 0, [Slot(1, [8])], [Resting, Writing([8], 1, 1)], Waiting, [[7], [8]], [])

  /** Thread 0 pushes event 7 into the only slot. */
  lemma FirstPush(s: State, rest: seq<Action>) returns (actions: seq<Action>)
    requires s == State(0, 0, [Slot(0, [0])], [Resting, Resting], Waiting, [], [])
    ensures Run(ONE, s, actions) == Run(ONE, PUSHED_ONE, rest)
  {
    var go := Produce(0, false);
    var s1 := Step(ONE, s, Push(0, [7]));
    var s2 := Step(ONE, s1, go);
    var s3 := Step(ONE, s2, go);
    var s4 := Step(ONE, s3, go);
    var s5 := Step(ONE, s4, go);
    assert s3 == s.(producers := [Reserving([7], 0), Resting]);
    assert [0][0 := 7] == [7];
    assert s5 == State(1, 0, [Slot(0, [7])], [Writing([7], 0, 1), Resting], Waiting, [[7]], []);
    assert Step(ONE, s5, go) == PUSHED_ONE;
    RunCons(ONE, s5, go, rest);
    RunCons(ONE, s4, go, [go] + rest);
    RunCons(ONE, s3, go, [go] + ([go] + rest));
    RunCons(ONE, s2, go, [go] + ([go] + ([go] + rest)));
    RunCons(ONE, s1, go, [go] + ([go] + ([go] + ([go] + rest))));
    RunCons(ONE, s, Push(0, [7]), [go] + ([go] + ([go] + ([go] + ([go] + rest)))));
    actions := [Push(0, [7])] + ([go] + ([go] + ([go] + ([go] + ([go] + rest)))));
  }

  /** Thread 1 takes the published slot for the next position and writes to it. */
  lemma SecondPush(rest: seq<Action>) returns (actions: seq<Action>)
    ensures Run(ONE, PUSHED_ONE, actions) == Run(ONE, WROTE_TWO, rest)
  {
    var go, s := Produce(1, false), PUSHED_ONE;
    var s1 := Step(ONE, s, Push(1, [8]));
    var s2 := Step(ONE, s1, go);
    var s3 := Step(ONE, s2, go);
    var s4 := Step(ONE, s3, go);
    assert s3 == s.(producers := [Resting, Reserving([8], 1)]);
    assert s4 == State(2, 0, [Slot(1, [7])], [Resting, Writing([8], 1, 0)], Waiting, [[7], [8]], []);
    assert [7][0 := 8] == [8];
    assert Step(ONE, s4, go) == WROTE_TWO;
    RunCons(ONE, s4, go, rest);
    RunCons(ONE, s3, go, [go] + rest);
    RunCons(ONE, s2, go, [go] + ([go] + rest));
    RunCons(ONE, s1, go, [go] + ([go] + ([go] + rest)));
    RunCons(ONE, s, Push(1, [8]), [go] + ([go] + ([go] + ([go] + rest))));
    actions := [Push(1, [8])] + ([go] + ([go] + ([go] + ([go] + rest))));
  }

  /** The consumer finds the first publication and copies the second event. */
  lemma WrongPop() returns (actions: seq<Action>)
    ensures Run(ONE, WROTE_TWO, actions).reserved == [[7], [8]]
    ensures Run(ONE, WROTE_TWO, actions).popped == [[8]]
  {
    var s := WROTE_TWO;
    var s1 := Step(ONE, s, Pop);
    var s2 := Step(ONE, s1, Consume);
    var s3 := Step(ONE, s2, Consume);
    var s4 := Step(ONE, s3, Consume);
    var s5 := Step(ONE, s4, Consume);
    assert s3 == s.(consumer := Copying(0, []));
    assert s4 == s.(consumer := Copying(0, [8]));
    assert s5.consumer == Advancing(0, [8]);
    var go := Consume;
    RunCons(ONE, s5, go, []);
    RunCons(ONE, s4, go, [go] + []);
    RunCons(ONE, s3, go, [go] + ([go] + []));
    RunCons(ONE, s2, go, [go] + ([go] + ([go] + [])));
    RunCons(ONE, s1, go, [go] + ([go] + ([go] + ([go] + []))));
    RunCons(ONE, s, Pop, [go] + ([go] + ([go] + ([go] + ([go] + [])))));
    actions := [Pop] + ([go] + ([go] + ([go] + ([go] + ([go] + [])))));
  }

  /** With a single slot, a second producer takes the published slot for free and
      the consumer pops its event in place of the first. */
  lemma CapacityOneIsNotFifo()
    ensures Ring(ONE)
    ensures exists actions: seq<Action> ::
              var s := Run(ONE, Initial(ONE, 2, [0]), actions);
              s.reserved == [[7], [8]] && s.popped == [[8]]
  {
    OneIsRing();
    var pop := WrongPop();
    var second := SecondPush(pop);
    var all := FirstPush(Initial(ONE, 2, [0]), second);
    assert Run(ONE, Initial(ONE, 2, [0]), all).popped == [[8]];
  }
}
